/** What `OperationController` does to the operations of a session and the one in progress. */
module OpSpec {

  datatype Status = Starting | Streaming | Ended | Cancelled | Failed

  datatype Op = Op(id: int, status: Status, error: nat)

  datatype Current = NoOp | At(k: nat)

  /**
   * Every operation ever created, in creation order. The first `front` have left the list; `current` may
   * stay on one that has left.
   */
  datatype Ctl = Ctl(ops: seq<Op>, front: nat, current: Current) {
    predicate Valid() {
      front <= |ops| && (current.At? ==> current.k < |ops|)
    }

    predicate IsCurrent(id: int)
      requires Valid()
    {
      current.At? && ops[current.k].id == id
    }
  }

  function NewOp(c: Ctl, id: int, status: Status): Ctl {
    Ctl(c.ops + [Op(id, status, 0)], c.front, if status.Starting? then At(|c.ops|) else c.current)
  }

  function SetError(c: Ctl, err: nat): (r: Ctl)
    requires c.Valid()
    ensures r.Valid()
  {
    if c.current.NoOp? then c
    else Ctl(c.ops[c.current.k := c.ops[c.current.k].(status := Failed, error := err)], c.front, NoOp)
  }

  /** A cancelled or failed operation stays so. */
  function FinishOp(c: Ctl): (r: Ctl)
    requires c.Valid()
    ensures r.Valid()
  {
    if c.current.NoOp? then c
    else
      var op := c.ops[c.current.k];
      var op' := if op.status.Cancelled? || op.status.Failed? then op else op.(status := Ended);
      Ctl(c.ops[c.current.k := op'], c.front, NoOp)
  }

  /** The first operation still in the list with this id, or `|ops|`. */
  function FindOp(ops: seq<Op>, from: nat, id: int): (k: nat)
    requires from <= |ops|
    ensures from <= k <= |ops|
    ensures k < |ops| ==> ops[k].id == id
    ensures forall i | from <= i < k :: ops[i].id != id
    decreases |ops| - from
  {
    if from == |ops| || ops[from].id == id then from else FindOp(ops, from + 1, id)
  }

  /** The operations `cancel_op` cancels: all in the list, or the first with the id. */
  predicate Hit(c: Ctl, id: int, k: nat)
    requires c.Valid()
  {
    c.front <= k < |c.ops| && (id <= 0 || k == FindOp(c.ops, c.front, id))
  }

  /** The current operation is let go when a cancelled one has its id. */
  function CancelOp(c: Ctl, id: int): (r: Ctl)
    requires c.Valid()
    ensures r.Valid()
  {
    var ops' := seq(|c.ops|, k requires 0 <= k < |c.ops| =>
      if Hit(c, id, k) then c.ops[k].(status := Cancelled) else c.ops[k]);
    var gone := c.current.At? && exists k: nat | k < |c.ops| :: Hit(c, id, k) && c.ops[k].id == c.ops[c.current.k].id;
    Ctl(ops', c.front, if gone then NoOp else c.current)
  }

  function RemoveFront(c: Ctl): (r: Ctl)
    requires c.Valid()
    ensures r.Valid()
  {
    if c.front < |c.ops| then c.(front := c.front + 1) else c
  }

  function ClearCurrent(c: Ctl): Ctl {
    c.(current := NoOp)
  }
}
