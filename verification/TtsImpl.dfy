/** `TtsImpl`: each locked region does what the transition system says. */
module TtsImpls {
  import opened StreamSpec
  import opened OpSpec
  import opened ResultSide
  import Results
  import opened TtsSystem

  class TtsImpl<V> {
    const side: ResultSide<V>
    var nextId: nat
    var requests: seq<Request>
    /** Where the thread `send_reqs` stands. */
    ghost var sender: Sender

    ghost var repr: set<object>

    ghost predicate Valid()
      reads this, repr
    {
      this in repr && side in repr && side.repr <= repr && this !in side.repr && side.Valid()
    }

    ghost function View(): (s: Tts<V>)
      reads this, repr
      requires Valid()
      ensures s.res.Valid()
    {
      Tts(nextId, requests, sender, side.View())
    }

    constructor ()
      ensures Valid() && fresh(repr) && View() == Init()
    {
      side := new ResultSide<V>();
      nextId, requests, sender := 0, [], Idle;
      new;
      repr := {this} + side.repr;
    }

    method Speak() returns (id: int)
      requires Valid()
      modifies this
      ensures Valid() && View() == TtsSystem.Step(old(View()), TtsSystem.Event.Speak)
      ensures id == View().lastId
    {
      hide ResultSide.Valid, ResultSide.View;
      nextId := nextId + 1;
      id := nextId;
      requests := requests + [Request(id, false)];
    }

    /** Marks requests; what is no longer a request may be an operation. */
    method CancelReq(id: int)
      requires Valid()
      modifies repr
      ensures Valid() && repr == old(repr)
      ensures View() == TtsSystem.Step(old(View()), TtsSystem.Event.CancelReq(id))
    {
      hide ResultSide.Valid, ResultSide.View, OpSpec.CancelOp;
      var erased := MarkDeleted(id);
      if id <= 0 {
        CancelOp(0);
      } else if !erased {
        CancelOp(id);
      }
    }

    /** Cancels an operation and wakes the sender if that was the current one. */
    method CancelOp(id: int)
      requires Valid()
      modifies repr
      ensures Valid() && repr == old(repr)
      ensures View() == Woken(old(View()), Results.Cancel(old(View()).res, id))
    {
      hide ResultSide.Valid, ResultSide.View, OpSpec.CancelOp;
      var notify := side.CancelOp(id);
      if notify {
        Wake();
      }
    }

    method MarkDeleted(id: int) returns (erased: bool)
      modifies this`requests
      ensures requests == TtsSystem.MarkDeleted(old(requests), id)
      ensures erased <==> exists i | 0 <= i < |requests| :: Matches(old(requests)[i], id)
    {
      erased := false;
      var i := 0;
      while i < |requests|
        invariant 0 <= i <= |requests| == |old(requests)|
        invariant requests[..i] == TtsSystem.MarkDeleted(old(requests), id)[..i] && requests[i..] == old(requests)[i..]
        invariant erased <==> exists j | 0 <= j < i :: Matches(old(requests)[j], id)
      {
        assert requests[i] == requests[i..][0];
        if id <= 0 || requests[i].id == id {
          requests := requests[i := requests[i].(deleted := true)];
          erased := true;
        }
        i := i + 1;
      }
    }

    /** `notify_one` on the operation's condition variable. */
    ghost method Wake()
      modifies this`sender
      ensures sender == if old(sender).Blocked? then Idle else old(sender)
    {
      if sender.Blocked? { sender := Idle; }
    }

    /** `send_reqs` under both locks, with `do_ctl_new_op`: the next request becomes an operation. */
    method TakeRequest() returns (req: Option<Request>)
      requires Valid() && sender == Idle
      modifies repr
      ensures Valid() && fresh(repr - old(repr)) && View() == TtsSystem.Step(old(View()), Take)
      ensures req == if old(requests) == [] then None else Some(old(requests)[0])
    {
      hide ResultSide.Valid, ResultSide.View;
      if requests == [] {
        return None;
      }
      var q := requests[0];
      requests := requests[1..];
      side.NewOp(q.id, if q.deleted then Cancelled else Starting);
      repr := repr + side.repr;
      sender := if q.deleted then Idle else Sending(q.id);
      req := Some(q);
    }

    /** `do_request` after the connection took the request, or did not. */
    method RequestDone(req: Request, err: Option<nat>)
      requires Valid() && sender == Sending(req.id)
      modifies repr
      ensures Valid() && repr == old(repr)
      ensures View() == TtsSystem.Step(old(View()), if err.Some? then SendFailed(err.value) else SendOk)
    {
      hide ResultSide.Valid, ResultSide.View;
      if err.Some? {
        var notify := side.SetOpError(err.value);
        sender := Idle;
      } else {
        sender := Sent(req.id);
      }
    }

    /** `wait_op_finish`, up to where it may have to wait. */
    method WaitOpFinish(req: Request) returns (wait: bool)
      requires Valid() && sender == Sent(req.id)
      modifies this
      ensures Valid() && View() == TtsSystem.Step(old(View()), WaitOp) && wait == View().sender.Blocked?
    {
      hide ResultSide.Valid, ResultSide.View;
      wait := side.IsCurrent(req.id);
      sender := if wait then Blocked(req.id) else Idle;
    }

    /** `gen_result_by_resp` on a response for the current operation. */
    method Answer(id: int, voice: Option<V>, finish: bool) returns (notify: bool)
      requires Valid() && View().res.ctl.IsCurrent(id)
      modifies repr
      ensures Valid() && fresh(repr - old(repr))
      ensures View() == old(View()).(res := Results.Respond(old(View()).res, id,
        if voice.Some? then [voice.value] else [], if finish then Results.Done(None) else Results.Going))
      ensures notify == (old(View()).res.ctl.current.At? && View().res.ctl.current.NoOp?)
    {
      hide ResultSide.Valid, ResultSide.View, Results.OpenStream, Results.AddItem, Results.CloseStream;
      side.OpenStream();
      repr := repr + side.repr;
      if voice.Some? {
        Results.AddItemsFew(side.View(), voice.value, voice.value);
        side.AddItem(voice.value);
        repr := repr + side.repr;
      }
      notify := side.CloseStream(if finish then Results.Done(None) else Results.Going);
    }

    method GenResultByResp(id: int, voice: Option<V>, finish: bool)
      requires Valid()
      modifies repr
      ensures Valid() && fresh(repr - old(repr))
      ensures View() == TtsSystem.Step(old(View()), Response(id, voice, finish))
    {
      hide ResultSide.Valid, ResultSide.View, Results.OpenStream, Results.AddItems, Results.CloseStream;
      var current := side.IsCurrent(id);
      if current {
        var notify := Answer(id, voice, finish);
        if notify {
          Wake();
        }
      }
    }

    /** `gen_results` when the connection broke, timed out on an operation, or failed otherwise. */
    method RecvFailed(err: nat)
      requires Valid()
      modifies repr
      ensures Valid() && repr == old(repr) && View() == TtsSystem.Step(old(View()), TtsSystem.Event.RecvFailed(err))
    {
      hide ResultSide.Valid, ResultSide.View;
      var notify := side.SetOpError(err);
      if notify {
        Wake();
      }
    }

    method Poll() returns (p: Popped<V>)
      requires Valid()
      modifies repr
      ensures Valid() && repr == old(repr)
      ensures p == Results.Next(old(View()).res) && View() == TtsSystem.Step(old(View()), PollResult)
    {
      hide ResultSide.Valid, ResultSide.View;
      p := side.PollOnce();
    }
  }
}
