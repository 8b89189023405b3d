/** What `TtsImpl` and `SpeechImpl` do under `resp_mutex_` to their response queue and operation controller. */
module ResultSide {
  import opened StreamSpec
  import opened StreamQueues
  import opened OpSpec
  import opened OpControl
  import Results

  class ResultSide<T> {
    const responses: StreamQueue<T>
    const controller: OperationController
    ghost var hist: seq<Results.History<T>>
    ghost var log: seq<Popped<T>>

    ghost var repr: set<object>

    ghost predicate Valid()
      reads this, repr
    {
      && {this, responses, controller} <= repr && responses.items <= repr
      && (forall x | x in controller.all :: x in repr)
      && responses.Valid() && controller.Valid() && |hist| == |controller.all|
    }

    ghost function View(): (r: Results.State<T>)
      reads this, repr
      requires Valid()
      ensures r.Valid()
    {
      Results.State(controller.View(), hist, responses.Streams(), log)
    }

    constructor ()
      ensures Valid() && fresh(repr)
      ensures View() == Results.State(Ctl([], 0, NoOp), [], [], [])
    {
      responses := new StreamQueue<T>();
      controller := new OperationController();
      hist, log := [], [];
      new;
      repr := {this, responses, controller};
    }

    method NewOp(id: int, status: OpSpec.Status)
      requires Valid()
      modifies repr
      ensures Valid() && fresh(repr - old(repr))
      ensures View() == Results.Create(old(View()), id, status)
    {
      controller.NewOp(id, status);
      repr := repr + {controller.all[|controller.all| - 1]};
      hist := hist + [Results.History(false, [], None)];
    }

    method SetOpError(err: nat) returns (notify: bool)
      requires Valid()
      modifies repr
      ensures Valid() && repr == old(repr)
      ensures View() == Results.Fail(old(View()), err)
      ensures notify == (old(View()).ctl.current.At? && View().ctl.current.NoOp?)
    {
      notify := controller.SetError(err);
    }

    method CancelOp(id: int) returns (notify: bool)
      requires Valid()
      modifies repr
      ensures Valid() && repr == old(repr)
      ensures View() == Results.Cancel(old(View()), id)
      ensures notify == (old(View()).ctl.current.At? && View().ctl.current.NoOp?)
    {
      notify := controller.CancelOp(id);
    }

    /** Cancels an operation that was looked up before. */
    method CancelAt(op: Operation, ghost k: nat)
      requires Valid() && k < |controller.all| && op == controller.all[k]
      modifies repr
      ensures Valid() && repr == old(repr)
      ensures View() == Results.CancelAt(old(View()), k)
    {
      controller.SetStatus(op, k, Cancelled);
      controller.ClearCurrentOp();
    }

    /** The test of `wait_op_finish` and of `gen_result_by_resp`. */
    method IsCurrent(id: int) returns (yes: bool)
      requires Valid()
      ensures yes == View().ctl.IsCurrent(id)
    {
      yes := controller.MustWait(id);
    }

    method NothingCurrent() returns (none: bool)
      requires Valid()
      ensures none == View().ctl.current.NoOp?
    {
      controller.CurrentIs();
      none := controller.current == null;
    }

    /** `op` is what a look at the current operation returned when that was `at`. */
    ghost predicate Is(op: Operation?, at: Current)
      reads this, controller
    {
      if at.NoOp? then op == null else at.k < |controller.all| && op == controller.all[at.k]
    }

    method Current() returns (op: Operation?)
      requires Valid()
      ensures Is(op, View().ctl.current)
    {
      controller.CurrentIs();
      op := controller.current;
    }

    lemma SeenIs(op: Operation?, at: Current)
      requires Valid() && Is(op, at)
      ensures op == null <==> at.NoOp?
      ensures at.At? ==> at.k < |View().ctl.ops| && View().ctl.ops[at.k].id == op.id
    {
      controller.CurrentIs();
      if at.At? { assert controller.View().ops[at.k] == op.Value(); }
    }

    // ---------------------------------------------------------------- the parts of gen_result_by_resp

    method OpenStream()
      requires Valid() && View().ctl.current.At?
      modifies repr
      ensures Valid() && fresh(repr - old(repr))
      ensures View() == Results.OpenStream(old(View()))
    {
      hide StreamQueue.Valid, StreamQueue.Streams, OperationController.Valid, OperationController.View;
      controller.CurrentIs();
      var op := controller.current;
      if op.status == Starting {
        var started := responses.Begin(op.id);
        repr := repr + responses.items;
        controller.SetStatus(op, controller.at.k, Streaming);
        MarkStreamed(controller.at.k);
      }
    }

    ghost method MarkStreamed(k: nat)
      requires Valid() && k < |hist|
      modifies this`hist
      ensures Valid()
      ensures View() == old(View()).(hist := old(hist)[k := old(hist)[k].(streamed := true)])
    {
      hist := hist[k := hist[k].(streamed := true)];
    }

    method AddItem(item: T)
      requires Valid() && View().ctl.current.At?
      modifies repr
      ensures Valid() && fresh(repr - old(repr))
      ensures View() == Results.AddItem(old(View()), item)
    {
      hide StreamQueue.Valid, StreamQueue.Streams, OperationController.Valid, OperationController.View;
      controller.CurrentIs();
      ghost var k := controller.at.k;
      var streamed := responses.Stream(controller.current.id, item);
      repr := repr + responses.items;
      hist := hist[k := hist[k].(accepted := hist[k].accepted + [item])];
    }

    method CloseStream(fin: Results.Finish<T>) returns (notify: bool)
      requires Valid() && View().ctl.current.At?
      modifies repr
      ensures Valid() && repr == old(repr)
      ensures View() == Results.CloseStream(old(View()), fin)
      ensures notify == (old(View()).ctl.current.At? && View().ctl.current.NoOp?)
    {
      hide StreamQueue.Valid, StreamQueue.Streams, OperationController.Valid, OperationController.View;
      controller.CurrentIs();
      ghost var k := controller.at.k;
      var id := controller.current.id;
      notify := false;
      match fin
      case Going =>
      case Done(last) =>
        var ended := responses.End(id, last);
        notify := controller.FinishOp();
        hist := hist[k := hist[k].(last := last)];
      case Refused(err) =>
        var erased := responses.Erase(id, err);
        notify := controller.FinishOp();
    }

    // ---------------------------------------------------------------- poll

    /** Erases what is queued for an id and pops the mark that leaves. */
    method DropResponses(id: int)
      requires Valid()
      modifies repr
      ensures Valid() && repr == old(repr)
      ensures controller.all == old(controller.all) && controller.front == old(controller.front)
      ensures View() == old(View()).(tags :=
        if Has(old(View()).tags, id) then Rest(Erase(old(View()).tags, id, 0)) else old(View()).tags)
    {
      hide StreamQueue.Valid, StreamQueue.Streams, OperationController.Valid, OperationController.View, Rest, Erase;
      EraseAbsent(responses.Streams(), id, 0);
      var erased := responses.Erase(id, 0);
      if erased {
        var popped := responses.Pop();
      }
    }

    /** `poll` on an operation that was cancelled or failed: what it still had queued goes with it. */
    method PollOver(op: Operation) returns (p: Popped<T>)
      requires Valid() && controller.front < |controller.all| && op == controller.all[controller.front]
      requires Results.Over(op.Value())
      modifies repr
      ensures Valid() && repr == old(repr)
      ensures p == Results.Next(old(View())) && View() == Results.Poll(old(View()))
    {
      hide StreamQueue.Valid, StreamQueue.Streams, OperationController.Valid, OperationController.View;
      controller.FrontIs();
      p := if op.status == Cancelled then Removed(op.id) else Error(op.id, op.error);
      DropResponses(op.id);
      controller.RemoveFrontOp();
      log := log + [p];
    }

    /** `poll` on one that was not: the next response, if there is one. */
    method PollResponse() returns (p: Popped<T>)
      requires Valid() && controller.front < |controller.all|
      requires !Results.Over(controller.all[controller.front].Value())
      modifies repr
      ensures Valid() && repr == old(repr)
      ensures p == Results.Next(old(View())) && View() == Results.Poll(old(View()))
    {
      hide StreamQueue.Valid, StreamQueue.Streams, OperationController.Valid, OperationController.View;
      controller.FrontIs();
      p := responses.Pop();
      if p.Empty? {
        return;
      }
      if p.End? || p.Removed? || p.Error? {
        controller.RemoveFrontOp();
      }
      log := log + [p];
    }

    /** One turn of `poll`: `Empty` when it has to wait. */
    method PollOnce() returns (p: Popped<T>)
      requires Valid()
      modifies repr
      ensures Valid() && repr == old(repr)
      ensures p == Results.Next(old(View())) && View() == Results.Poll(old(View()))
    {
      hide StreamQueue.Valid, StreamQueue.Streams, OperationController.Valid, OperationController.View;
      controller.FrontIs();
      var op := controller.FrontOp();
      if op == null {
        return Empty;
      }
      if op.status == Cancelled || op.status == OpSpec.Failed {
        p := PollOver(op);
      } else {
        p := PollResponse();
      }
    }
  }
}
