/** `OperationController`: a list of shared operations and a pointer to the current one. */
module OpControl {
  import opened OpSpec

  /** Where no earlier operation has the id, the first with it is here or later. */
  lemma FirstHit(c: Ctl, id: int, k: nat)
    requires c.Valid() && c.front <= k < |c.ops|
    requires id > 0 ==> forall i | c.front <= i < k :: c.ops[i].id != id
    ensures Hit(c, id, k) <==> id <= 0 || c.ops[k].id == id
    ensures id > 0 && c.ops[k].id == id ==> forall j: nat | Hit(c, id, j) :: j == k
  {
  }

  /** Past the end of the list, or past the one match, nothing is left to hit. */
  lemma WalkedEnough(c: Ctl, id: int, n: nat)
    requires c.Valid() && c.front + n <= |c.ops|
    requires c.front + n == |c.ops| || (id > 0 && n > 0 && Hit(c, id, c.front + n - 1))
    ensures forall k: nat | Hit(c, id, k) :: k < c.front + n
  {
  }

  lemma NothingHit(c: Ctl, id: int)
    requires c.Valid()
    ensures forall k: nat | k < c.front :: !Hit(c, id, k)
  {
  }

  class Operation {
    const id: int
    var status: Status
    var error: nat

    constructor (id: int, status: Status)
      ensures this.id == id && this.status == status && error == 0
    {
      this.id, this.status, error := id, status, 0;
    }

    ghost function Value(): Op
      reads this
    {
      Op(id, status, error)
    }
  }

  class OperationController {
    var operations: seq<Operation>
    var current: Operation?
    /** Every operation created so far. */
    ghost var all: seq<Operation>
    ghost var front: nat
    ghost var at: Current

    ghost predicate Valid()
      reads this
    {
      && front <= |all| && operations == all[front..]
      && (forall i, j | 0 <= i < j < |all| :: all[i] != all[j])
      && (if at.NoOp? then current == null else at.k < |all| && current == all[at.k])
    }

    ghost function View(): (c: Ctl)
      reads this, all
      requires Valid()
      ensures c.Valid()
    {
      Ctl(seq(|all|, k requires 0 <= k < |all| reads this, all => all[k].Value()), front, at)
    }

    constructor ()
      ensures Valid() && View() == Ctl([], 0, NoOp) && all == []
    {
      operations, current, all, front, at := [], null, [], 0, NoOp;
    }

    method NewOp(id: int, status: Status)
      requires Valid()
      modifies this
      ensures Valid() && View() == OpSpec.NewOp(old(View()), id, status)
      ensures |all| == |old(all)| + 1 && all[..|old(all)|] == old(all) && fresh(all[|old(all)|])
    {
      ghost var was := View();
      var op := new Operation(id, status);
      operations := operations + [op];
      all := all + [op];
      if status.Starting? {
        current := op;
        at := At(|all| - 1);
      }
      assert View().ops == was.ops + [op.Value()];
    }

    method SetError(err: nat) returns (notify: bool)
      requires Valid()
      modifies this, all
      ensures Valid() && all == old(all) && View() == OpSpec.SetError(old(View()), err)
      ensures notify == old(at).At?
    {
      ghost var was := View();
      if current == null {
        return false;
      }
      current.status := Failed;
      current.error := err;
      current := null;
      ghost var k := at.k;
      at := NoOp;
      assert View().ops == was.ops[k := was.ops[k].(status := Failed, error := err)];
      return true;
    }

    method FinishOp() returns (notify: bool)
      requires Valid()
      modifies this, all
      ensures Valid() && all == old(all) && View() == OpSpec.FinishOp(old(View()))
      ensures notify == old(at).At?
    {
      ghost var was := View();
      if current == null {
        return false;
      }
      if current.status != Cancelled && current.status != Failed {
        current.status := Ended;
      }
      current := null;
      ghost var k := at.k;
      at := NoOp;
      assert View().ops == was.ops[k := OpSpec.FinishOp(was).ops[k]];
      return true;
    }

    lemma CurrentIs()
      requires Valid()
      ensures current == null <==> at.NoOp?
      ensures View().current == at && |View().ops| == |all| && View().front == front
      ensures current != null ==> at.k < |all| && current == all[at.k] && View().ops[at.k] == current.Value()
    {
    }

    lemma FrontIs()
      requires Valid()
      ensures View().current == at && |View().ops| == |all| && View().front == front <= |all|
      ensures front < |all| ==> View().ops[front] == all[front].Value()
    {
    }

    /** An operation's status is written through a shared pointer, even after it has left the list. */
    method SetStatus(op: Operation, ghost k: nat, status: Status)
      requires Valid() && k < |all| && op == all[k]
      modifies op
      ensures Valid()
      ensures View() == old(View()).(ops := old(View()).ops[k := old(View()).ops[k].(status := status)])
    {
      ghost var was := View();
      op.status := status;
      assert View().ops == was.ops[k := was.ops[k].(status := status)];
    }

    /** `front_op` */
    method FrontOp() returns (op: Operation?)
      requires Valid()
      ensures if front == |all| then op == null else op == all[front]
    {
      return if operations == [] then null else operations[0];
    }

    /** Whether `wait_op_finish` has to wait. */
    method MustWait(id: int) returns (wait: bool)
      requires Valid()
      ensures wait == View().IsCurrent(id)
    {
      return current != null && current.id == id;
    }

    method RemoveFrontOp()
      requires Valid()
      modifies this
      ensures Valid() && all == old(all) && View() == RemoveFront(old(View()))
    {
      if operations != [] {
        operations := operations[1..];
        front := front + 1;
      }
    }

    method ClearCurrentOp()
      requires Valid()
      modifies this
      ensures Valid() && all == old(all) && View() == ClearCurrent(old(View()))
    {
      current := null;
      at := NoOp;
    }

    /** The list up to `n` has been walked through. */
    ghost predicate Processed(was: Ctl, id: int, n: nat, notify: bool)
      reads this, all
      requires was.Valid()
    {
      && Valid() && |all| == |was.ops| && front == was.front && at == was.current && front + n <= |all|
      && (forall k | 0 <= k < |all| :: all[k].Value() ==
            if k < front + n && Hit(was, id, k) then was.ops[k].(status := Cancelled) else was.ops[k])
      && (notify <==> at.At? && exists k: nat | k < front + n :: Hit(was, id, k) && was.ops[k].id == was.ops[at.k].id)
    }

    /** One operation of the walk. */
    method Visit(op: Operation, id: int, notified: bool, ghost was: Ctl, ghost n: nat) returns (hit: bool, notify: bool)
      requires was.Valid() && Processed(was, id, n, notified) && front + n < |all| && op == all[front + n]
      requires id > 0 ==> forall k | front <= k < front + n :: was.ops[k].id != id
      modifies op
      ensures Processed(was, id, n + 1, notify) && hit == (id <= 0 || op.id == id)
    {
      hide OpSpec.Hit;
      FirstHit(was, id, front + n);
      assert op.Value().id == was.ops[front + n].id;
      notify := notified;
      hit := id <= 0 || id == op.id;
      if hit {
        op.status := Cancelled;
        if current != null && current.id == op.id {
          notify := true;
        }
      }
    }

    lemma WalkStarts(id: int)
      requires Valid()
      ensures Processed(View(), id, 0, false)
    {
      hide OpSpec.Hit;
      NothingHit(View(), id);
    }

    lemma WalkFacts(was: Ctl, id: int, n: nat, notify: bool)
      requires was.Valid() && Processed(was, id, n, notify)
      ensures |all| == |was.ops| && operations == all[front..] && front == was.front <= |all|
      ensures forall k | 0 <= k < |all| :: all[k].id == was.ops[k].id
    {
      hide OpSpec.Hit;
      forall k | 0 <= k < |all| ensures all[k].id == was.ops[k].id {
        assert all[k].Value().id == was.ops[k].id;
      }
    }

    /** The walk of `cancel_op` over the list, which stops at the first match of a positive id. */
    method Walk(id: int) returns (notify: bool, ghost n: nat)
      requires Valid()
      modifies all
      ensures front + n <= |all| && Processed(old(View()), id, n, notify)
      ensures forall k: nat | Hit(old(View()), id, k) :: k < front + n
    {
      hide OpSpec.Hit, Processed;
      ghost var was := View();
      WalkStarts(id);
      notify, n := false, 0;
      var i := 0;
      while i < |operations|
        invariant n == i <= |operations| && Processed(was, id, n, notify)
        invariant id > 0 ==> forall k | front <= k < front + n :: was.ops[k].id != id
      {
        var hit;
        WalkFacts(was, id, n, notify);
        FirstHit(was, id, front + i);
        hit, notify := Visit(operations[i], id, notify, was, i);
        n := i + 1;
        if hit && id > 0 {
          break;
        }
        i := i + 1;
      }
      WalkFacts(was, id, n, notify);
      WalkedEnough(was, id, n);
    }

    /** `cancel_op`; the result says whether the current operation was let go and its waiters were notified. */
    method CancelOp(id: int) returns (notify: bool)
      requires Valid()
      modifies this, all
      ensures Valid() && all == old(all) && View() == OpSpec.CancelOp(old(View()), id)
      ensures notify == (old(at).At? && at.NoOp?)
    {
      hide OpSpec.Hit;
      ghost var was := View();
      ghost var n;
      notify, n := Walk(id);
      assert forall k | 0 <= k < |all| :: all[k].Value() == OpSpec.CancelOp(was, id).ops[k];
      if notify {
        current := null;
        at := NoOp;
      }
      assert View().ops == OpSpec.CancelOp(was, id).ops;
    }
  }
}
