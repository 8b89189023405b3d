/** `SpeechImpl`: each locked region does what the transition system says. */
module SpeechImpls {
  import opened Wire
  import opened StreamSpec
  import opened StreamQueues
  import opened OpSpec
  import opened OpControl
  import opened ResultSide
  import opened VoiceFragments
  import Results
  import opened SpeechSystem

  class SpeechImpl<R> {
    const side: ResultSide<R>
    const voices: StreamQueue<Bytes>
    var nextId: nat
    var texts: seq<TextReq>
    /** Ids handed out, calls of `cancel` between their regions, where the threads stand, what was sent. */
    ghost var issued: set<int>
    ghost var pending: seq<int>
    ghost var pc: Pc<Bytes>
    ghost var gen: GenPc
    ghost var wire: seq<Frame<Bytes>>

    ghost var repr: set<object>

    ghost predicate Valid()
      reads this, repr
    {
      && {this, side, voices} <= repr && side.repr <= repr && voices.items <= repr
      && this !in side.repr && voices !in side.repr && voices.items !! side.repr
      && side.Valid() && voices.Valid()
      && forall x | x in issued :: x <= nextId
    }

    ghost function View(): (s: Speech<Bytes, R>)
      reads this, repr
      requires Valid()
      ensures s.res.Valid()
    {
      Speech(issued, texts, voices.Streams(), pending, pc, gen, wire, side.View())
    }

    constructor ()
      ensures Valid() && fresh(repr) && View() == SpeechSystem.Init()
    {
      hide ResultSide.Valid, ResultSide.View, StreamQueue.Valid, StreamQueue.Streams;
      side := new ResultSide<R>();
      voices := new StreamQueue<Bytes>();
      nextId, texts, issued, pending, pc, gen, wire := 0, [], {}, [], Top, GenIdle, [];
      new;
      repr := {this, side, voices} + side.repr + voices.items;
    }

    // ---------------------------------------------------------------- calls of the user

    method PutText() returns (id: int)
      requires Valid()
      modifies this
      ensures Valid() && id == old(nextId) + 1
      ensures View() == SpeechSystem.Step(old(View()), SpeechSystem.Event.PutText(id))
    {
      hide ResultSide.Valid, ResultSide.View, StreamQueue.Valid, StreamQueue.Streams;
      nextId := nextId + 1;
      id := nextId;
      texts := texts + [TextReq(id, false)];
      issued := issued + {id};
    }

    method StartVoice() returns (id: int)
      requires Valid()
      modifies repr
      ensures Valid() && fresh(repr - old(repr))
      ensures View() == SpeechSystem.Step(old(View()), SpeechSystem.Event.StartVoice(old(nextId) + 1))
      ensures id == if Has(old(View()).voices, old(nextId) + 1) then -1 else old(nextId) + 1
    {
      hide ResultSide.Valid, ResultSide.View, StreamQueue.Valid, StreamQueue.Streams, Index, Begin;
      nextId := nextId + 1;
      id := nextId;
      issued := issued + {id};
      var ok := voices.Begin(id);
      repr := repr + voices.items;
      if !ok {
        return -1;
      }
    }

    /** Cuts the voice and queues the fragments; PCM is cut at `fragment` bytes, other codecs not at all. */
    method PutVoice(id: int, voice: Bytes, pcm: bool, fragment: nat)
      requires Valid() && fragment >= 1
      modifies repr
      ensures Valid() && fresh(repr - old(repr))
      ensures View() == SpeechSystem.Step(old(View()), SpeechSystem.Event.PutVoice(id,
        if id <= 0 || voice == [] then [] else Cut(voice, if pcm then fragment else |voice|)))
    {
      hide ResultSide.Valid, ResultSide.View, StreamQueue.Valid, StreamQueue.Streams;
      if id <= 0 || voice == [] {
        return;
      }
      QueueFragments(id, voice, if pcm then fragment else |voice|);
    }

    method QueueFragment(id: int, item: Bytes)
      requires Valid()
      modifies repr
      ensures Valid() && fresh(repr - old(repr))
      ensures View() == old(View()).(voices := Append(old(View()).voices, id, item))
    {
      hide ResultSide.Valid, ResultSide.View, StreamQueue.Valid, StreamQueue.Streams;
      var ok := voices.Stream(id, item);
      repr := repr + voices.items;
    }

    method QueueFragments(id: int, voice: Bytes, size: nat)
      requires Valid() && size >= 1
      modifies repr
      ensures Valid() && fresh(repr - old(repr))
      ensures View() == old(View()).(voices := AppendAll(old(View()).voices, id, Cut(voice, size)))
    {
      hide ResultSide.Valid, ResultSide.View, StreamQueue.Valid, StreamQueue.Streams, AppendAll, Cut, Append;
      ghost var v := View();
      var off := 0;
      assert voice[0..] == voice && voice[|voice|..] == [];
      while off < |voice|
        invariant 0 <= off <= |voice|
        invariant Valid() && fresh(repr - old(repr))
        invariant View() == v.(voices := voices.Streams())
        invariant AppendAll(v.voices, id, Cut(voice, size)) == AppendAll(voices.Streams(), id, Cut(voice[off..], size))
        decreases |voice| - off
      {
        var sz := |voice| - off;
        if size < sz {
          sz := size;
        }
        NextFragment(voices.Streams(), id, voice[off..], size);
        assert voice[off..][sz..] == voice[off + sz..] && voice[off..][..sz] == voice[off..off + sz];
        QueueFragment(id, voice[off..off + sz]);
        off := off + sz;
      }
      NoFragment(voices.Streams(), id, size);
    }

    method EndVoice(id: int)
      requires Valid()
      modifies repr
      ensures Valid() && repr == old(repr)
      ensures View() == if id <= 0 then old(View()) else SpeechSystem.Step(old(View()), SpeechSystem.Event.EndVoice(id))
    {
      hide ResultSide.Valid, ResultSide.View, StreamQueue.Valid, StreamQueue.Streams;
      if id > 0 {
        var ok := voices.End(id, None);
      }
    }

    /** The region of `cancel` under the request lock; it may leave the rest for later. */
    method CancelReq(id: int)
      requires Valid()
      modifies repr
      ensures Valid() && repr == old(repr)
      ensures View() == SpeechSystem.Step(old(View()), SpeechSystem.Event.CancelReq(id))
    {
      hide ResultSide.Valid, ResultSide.View, StreamQueue.Valid, StreamQueue.Streams, Valid, View;
      if id > 0 {
        CancelOne(id);
      } else {
        CancelAll(id);
      }
    }

    method CancelOne(id: int)
      requires Valid() && id > 0
      modifies repr
      ensures Valid() && repr == old(repr)
      ensures View() == CancelFirst(old(View()), id)
    {
      hide ResultSide.Valid, ResultSide.View, StreamQueue.Valid, StreamQueue.Streams;
      var erased := voices.Erase(id, 0);
      if !erased {
        EraseAbsent(old(View()).voices, id, 0);
        CancelText(id);
      }
    }

    method CancelText(id: int)
      requires Valid() && id > 0
      modifies this
      ensures Valid() && repr == old(repr)
      ensures View() == if HasText(old(texts), id) then old(View()).(texts := MarkTexts(old(texts), id))
                        else old(View()).(pending := old(pending) + [id])
    {
      hide ResultSide.Valid, ResultSide.View, StreamQueue.Valid, StreamQueue.Streams;
      var marked := MarkText(id);
      if !marked {
        pending := pending + [id];
      }
    }

    method CancelAll(id: int)
      requires Valid() && id <= 0
      modifies repr
      ensures Valid() && repr == old(repr)
      ensures View() == CancelFirst(old(View()), id)
    {
      hide ResultSide.Valid, ResultSide.View, StreamQueue.Valid, StreamQueue.Streams;
      var first, last := voices.Clear();
      MarkAllTexts(id);
      pending := pending + [0];
    }

    method MarkText(id: int) returns (marked: bool)
      requires id > 0
      modifies this`texts
      ensures marked == HasText(old(texts), id)
      ensures texts == if marked then MarkTexts(old(texts), id) else old(texts)
    {
      var i := 0;
      while i < |texts|
        invariant 0 <= i <= |texts| && texts == old(texts)
        invariant forall j | 0 <= j < i :: texts[j].id != id
      {
        if texts[i].id == id {
          MarksFirst(texts, id, i);
          texts := texts[i := texts[i].(cancelled := true)];
          return true;
        }
        i := i + 1;
      }
      return false;
    }

    method MarkAllTexts(ghost id: int)
      requires id <= 0
      modifies this`texts
      ensures texts == MarkTexts(old(texts), id)
    {
      MarkedAll(texts, id);
      var i := 0;
      while i < |texts|
        invariant 0 <= i <= |texts| == |old(texts)|
        invariant forall j | 0 <= j < i :: texts[j] == old(texts)[j].(cancelled := true)
        invariant forall j | i <= j < |texts| :: texts[j] == old(texts)[j]
      {
        texts := texts[i := texts[i].(cancelled := true)];
        i := i + 1;
      }
    }

    /** `notify_one` on the operation's condition variable. */
    ghost method Wake()
      modifies this`pc
      ensures pc == if old(pc).Blocked? then Top else old(pc)
    {
      if pc.Blocked? { pc := Top; }
    }

    /** The rest of `cancel`, under the response lock. */
    method CancelRest(id: int, ghost i: nat)
      requires Valid() && i < |pending| && pending[i] == id
      modifies repr
      ensures Valid() && repr == old(repr)
      ensures View() == SpeechSystem.Step(old(View()), SpeechSystem.Event.CancelRest(i))
    {
      hide ResultSide.Valid, ResultSide.View, StreamQueue.Valid, StreamQueue.Streams, OpSpec.CancelOp;
      pending := pending[..i] + pending[i + 1..];
      var notify := side.CancelOp(id);
      if notify {
        Wake();
      }
    }

    // ---------------------------------------------------------------- send_reqs

    /** The loop head: the next voice request, or `Empty`; then whether there are texts to look at. */
    method NextRequest() returns (p: Popped<Bytes>, peek: bool)
      requires Valid() && pc == Top
      modifies repr
      ensures Valid() && repr == old(repr)
      ensures View() == SpeechSystem.Step(old(View()), SenderStep)
      ensures p == Front(old(View()).voices) && peek == View().pc.TextPeek?
    {
      hide ResultSide.Valid, ResultSide.View, StreamQueue.Valid, StreamQueue.Streams;
      p := voices.Pop();
      peek := p.Empty? && texts != [];
      if !p.Empty? {
        pc := Pc.Got(ReqOf(p));
      } else if peek {
        pc := TextPeek;
      }
      PopsNothing(old(View()).voices);
    }

    /** Looks at the current operation before taking a text. */
    method PeekCurrent() returns (free: bool)
      requires Valid() && pc == TextPeek
      modifies this
      ensures Valid() && View() == SpeechSystem.Step(old(View()), SenderStep) && View().pc == TextDecide(free)
    {
      hide ResultSide.Valid, ResultSide.View, StreamQueue.Valid, StreamQueue.Streams;
      free := side.NothingCurrent();
      pc := TextDecide(free);
    }

    method TakeText(free: bool) returns (req: Option<Req<Bytes>>)
      requires Valid() && pc == TextDecide(free) && (free ==> texts != [])
      modifies this
      ensures Valid() && View() == SpeechSystem.Step(old(View()), SenderStep)
      ensures View().pc == if req.Some? then Pc.Got(req.value) else Top
    {
      hide ResultSide.Valid, ResultSide.View, StreamQueue.Valid, StreamQueue.Streams;
      if !free {
        pc := Top;
        return None;
      }
      var q := texts[0];
      texts := texts[1..];
      req := Some(if q.cancelled then CancelledReq(q.id) else Text(q.id));
      pc := Pc.Got(req.value);
    }

    /** `do_ctl_change_op` up to where it lets go of the lock. */
    method LookAtCurrent(req: Req<Bytes>) returns (seen: Operation?)
      requires Valid() && pc == Pc.Got(req)
      modifies this
      ensures Valid() && View() == SpeechSystem.Step(old(View()), SenderStep)
      ensures View().pc.Deciding? && side.Is(seen, View().pc.seen)
    {
      hide ResultSide.Valid, ResultSide.View, StreamQueue.Valid, StreamQueue.Streams;
      seen := side.Current();
      pc := Deciding(req, side.View().ctl.current);
    }

    /** The rest of `do_ctl_change_op`; the answer is whether the request goes to the server. */
    method DoCtlChangeOp(req: Req<Bytes>, seen: Operation?) returns (go: bool)
      requires Valid() && pc.Deciding? && pc.req == req && side.Is(seen, pc.seen)
      modifies repr
      ensures Valid() && fresh(repr - old(repr))
      ensures View() == SpeechSystem.Step(old(View()), SenderStep) && go == View().pc.Sending?
    {
      hide ResultSide.Valid, ResultSide.View, StreamQueue.Valid, StreamQueue.Streams, Results.Create, Results.CancelAt;
      side.SeenIs(seen, pc.seen);
      go := true;
      if req.Text? || req.VoiceStart? {
        CreateOp(req, Starting, Sending(req));
      } else if seen != null {
        if req.CancelledReq? {
          CancelSeen(seen, pc.seen.k);
        }
        pc := Sending(req);
      } else {
        go := false;
        if req.CancelledReq? {
          CreateOp(req, Cancelled, Top);
        }
        pc := Top;
      }
    }

    method CreateOp(req: Req<Bytes>, status: OpSpec.Status, ghost next: Pc<Bytes>)
      requires Valid()
      modifies repr
      ensures Valid() && fresh(repr - old(repr))
      ensures View() == old(View()).(res := Results.Create(old(View()).res, req.id, status), pc := next)
    {
      hide ResultSide.Valid, ResultSide.View, StreamQueue.Valid, StreamQueue.Streams;
      side.NewOp(req.id, status);
      repr := repr + side.repr;
      pc := next;
    }

    method CancelSeen(seen: Operation, ghost k: nat)
      requires Valid() && side.Is(seen, At(k)) && k < |View().res.ctl.ops|
      modifies repr
      ensures Valid() && repr == old(repr)
      ensures View() == old(View()).(res := Results.CancelAt(old(View()).res, k))
    {
      hide ResultSide.Valid, ResultSide.View, StreamQueue.Valid, StreamQueue.Streams;
      side.CancelAt(seen, k);
    }

    /** `do_request` after the connection took the request; the answer is whether it was the last of its kind. */
    method RequestSent(req: Req<Bytes>) returns (last: bool)
      requires Valid() && pc == Sending(req)
      modifies this
      ensures Valid() && View() == SpeechSystem.Step(old(View()), SendOk) && last == View().pc.Check?
    {
      hide ResultSide.Valid, ResultSide.View, StreamQueue.Valid, StreamQueue.Streams;
      last := req.Text? || req.VoiceEnd?;
      wire := wire + [FrameOf(req)];
      pc := if last then Check(req.id) else Top;
    }

    /** ... and after it did not. */
    method RequestFailed(req: Req<Bytes>, err: nat)
      requires Valid() && pc == Sending(req)
      modifies repr
      ensures Valid() && repr == old(repr)
      ensures View() == SpeechSystem.Step(old(View()), SendFailed(err))
    {
      hide ResultSide.Valid, ResultSide.View, StreamQueue.Valid, StreamQueue.Streams;
      var notify := side.SetOpError(err);
      var ok := voices.Erase(req.id, SPEECH_TIMEOUT);
      pc := Top;
    }

    /** `wait_op_finish`, up to where it may have to wait. */
    method WaitOpFinish(id: int) returns (wait: bool)
      requires Valid() && pc == Check(id)
      modifies this
      ensures Valid() && View() == SpeechSystem.Step(old(View()), SenderStep) && wait == View().pc.Blocked?
    {
      hide ResultSide.Valid, ResultSide.View, StreamQueue.Valid, StreamQueue.Streams;
      wait := side.IsCurrent(id);
      pc := if wait then Blocked(id) else Top;
    }

    // ---------------------------------------------------------------- gen_results and poll

    method OpenAnswer()
      requires Valid() && View().res.ctl.current.At?
      modifies repr
      ensures Valid() && fresh(repr - old(repr))
      ensures View() == old(View()).(res := Results.OpenStream(old(View()).res))
    {
      hide ResultSide.Valid, ResultSide.View, StreamQueue.Valid, StreamQueue.Streams;
      side.OpenStream();
      repr := repr + side.repr;
    }

    method AddResult(item: Option<R>)
      requires Valid() && View().res.ctl.current.At?
      modifies repr
      ensures Valid() && fresh(repr - old(repr))
      ensures var res := old(View()).res;
        View() == old(View()).(res := if item.Some? then Results.AddItem(res, item.value) else res)
    {
      hide ResultSide.Valid, ResultSide.View, StreamQueue.Valid, StreamQueue.Streams;
      if item.Some? {
        side.AddItem(item.value);
        repr := repr + side.repr;
      }
    }

    method CloseAnswer(fin: Results.Finish<R>) returns (notify: bool)
      requires Valid() && View().res.ctl.current.At?
      modifies repr
      ensures Valid() && repr == old(repr)
      ensures View() == old(View()).(res := Results.CloseStream(old(View()).res, fin))
      ensures notify == (old(View()).res.ctl.current.At? && View().res.ctl.current.NoOp?)
    {
      hide ResultSide.Valid, ResultSide.View, StreamQueue.Valid, StreamQueue.Streams;
      notify := side.CloseStream(fin);
    }

    /** `gen_result_by_resp` on a response for the current operation: an extra item, a body and an ending. */
    method Answer(id: int, extra: Option<R>, body: Option<R>, fin: Results.Finish<R>) returns (notify: bool)
      requires Valid() && View().res.ctl.IsCurrent(id)
      modifies repr
      ensures Valid() && fresh(repr - old(repr))
      ensures View() == old(View()).(res := Results.Respond(old(View()).res, id, Both(extra, body), fin))
      ensures notify == (old(View()).res.ctl.current.At? && View().res.ctl.current.NoOp?)
    {
      hide Valid, View, Results.OpenStream, Results.AddItem, Results.CloseStream, Both;
      OpenAnswer();
      BothAdded(View().res, extra, body);
      AddResult(extra);
      AddResult(body);
      notify := CloseAnswer(fin);
    }

    method GenResultByResp(id: int, extra: Option<R>, body: Option<R>, fin: Results.Finish<R>)
      requires Valid() && gen == GenIdle && (fin.Refused? ==> fin.err != 0)
      modifies repr
      ensures Valid() && fresh(repr - old(repr))
      ensures var items := (if extra.Some? then [extra.value] else []) + (if body.Some? then [body.value] else []);
        View() == SpeechSystem.Step(old(View()), Response(id, items, fin))
    {
      hide ResultSide.Valid, ResultSide.View, StreamQueue.Valid, StreamQueue.Streams, Results.Respond,
        SpeechSystem.Step;
      ResponseStep(View(), id, Both(extra, body), fin);
      var current := side.IsCurrent(id);
      if current {
        var notify := Answer(id, extra, body, fin);
        AfterResponse(notify, if fin.Going? then GenIdle else MustErase(id));
      }
    }

    /** The thread remembers what to erase and wakes the sender. */
    ghost method AfterResponse(notify: bool, next: GenPc)
      modifies this`gen, this`pc
      ensures gen == next && pc == if notify && old(pc).Blocked? then Top else old(pc)
    {
      gen := next;
      if notify { Wake(); }
    }

    /** `gen_results` when the connection broke, timed out on an operation, or failed otherwise. */
    method RecvFailed(err: nat) returns (erase: Option<int>)
      requires Valid() && gen == GenIdle
      modifies repr
      ensures Valid() && repr == old(repr)
      ensures View() == SpeechSystem.Step(old(View()), SpeechSystem.Event.RecvFailed(err))
      ensures View().gen == if erase.Some? then MustErase(erase.value) else GenIdle
    {
      hide ResultSide.Valid, ResultSide.View, StreamQueue.Valid, StreamQueue.Streams, Results.Fail, SpeechSystem.Step;
      RecvFailedStep(View(), err);
      var op := side.Current();
      side.SeenIs(op, side.View().ctl.current);
      erase := if op == null then None else Some(op.id);
      var notify := side.SetOpError(err);
      AfterResponse(notify, if erase.Some? then MustErase(erase.value) else GenIdle);
    }

    /** `erase_req` of the response thread. */
    method EraseReq(id: int)
      requires Valid() && gen == MustErase(id)
      modifies repr
      ensures Valid() && repr == old(repr)
      ensures View() == SpeechSystem.Step(old(View()), GenErase)
    {
      hide ResultSide.Valid, ResultSide.View, StreamQueue.Valid, StreamQueue.Streams;
      var ok := voices.Erase(id, SPEECH_TIMEOUT);
      gen := GenIdle;
    }

    method Poll() returns (p: Popped<R>)
      requires Valid()
      modifies repr
      ensures Valid() && repr == old(repr)
      ensures p == Results.Next(old(View()).res) && View() == SpeechSystem.Step(old(View()), PollResult)
    {
      hide ResultSide.Valid, ResultSide.View, StreamQueue.Valid, StreamQueue.Streams;
      p := side.PollOnce();
    }
  }

  // ---------------------------------------------------------------- about the functions the regions are compared with

  lemma ResponseStep<V, R>(s: Speech<V, R>, id: int, items: seq<R>, fin: Results.Finish<R>)
    requires s.res.Valid() && s.gen.GenIdle? && (fin.Refused? ==> fin.err != 0)
    ensures SpeechSystem.Step(s, Response(id, items, fin)) ==
      if s.res.ctl.IsCurrent(id) then
        Woken(s.(gen := if fin.Going? then GenIdle else MustErase(id)), Results.Respond(s.res, id, items, fin))
      else s
  {
    hide Results.Respond;
    Results.NoResponseIf(s.res, id, items, fin);
  }

  lemma RecvFailedStep<V, R>(s: Speech<V, R>, err: nat)
    requires s.res.Valid() && s.gen.GenIdle?
    ensures SpeechSystem.Step(s, SpeechSystem.Event.RecvFailed(err)) ==
      Woken(s.(gen := if s.res.ctl.current.At? then MustErase(s.res.ctl.ops[s.res.ctl.current.k].id) else GenIdle),
            Results.Fail(s.res, err))
  {
  }

  lemma NoFragment(q: Streams<Bytes>, id: int, size: nat)
    requires size >= 1
    ensures AppendAll(q, id, Cut([], size)) == q
  {
  }

  lemma NextFragment(q: Streams<Bytes>, id: int, voice: Bytes, size: nat)
    requires size >= 1 && voice != []
    ensures var sz := if size < |voice| then size else |voice|;
      AppendAll(q, id, Cut(voice, size)) == AppendAll(Append(q, id, voice[..sz]), id, Cut(voice[sz..], size))
  {
    var sz := if size < |voice| then size else |voice|;
    assert voice[..|voice|] == voice && voice[|voice|..] == [];
    assert Cut(voice, size) == [voice[..sz]] + Cut(voice[sz..], size);
  }

  lemma PopsNothing<T>(q: Streams<T>)
    ensures Front(q).Empty? ==> Rest(q) == q
  {
  }

  lemma {:induction false} MarksFirst(q: seq<TextReq>, id: int, i: nat)
    requires id > 0 && i < |q| && q[i].id == id && forall j | 0 <= j < i :: q[j].id != id
    ensures MarkTexts(q, id) == q[i := q[i].(cancelled := true)]
    decreases i
  {
    if i > 0 { MarksFirst(q[1..], id, i - 1); }
  }

  function Both<R>(extra: Option<R>, body: Option<R>): seq<R> {
    (if extra.Some? then [extra.value] else []) + (if body.Some? then [body.value] else [])
  }

  lemma BothAdded<R>(r: Results.State<R>, extra: Option<R>, body: Option<R>)
    requires r.Valid()
    ensures var r1 := if extra.Some? then Results.AddItem(r, extra.value) else r;
      Results.AddItems(r, Both(extra, body)) == if body.Some? then Results.AddItem(r1, body.value) else r1
  {
    if extra.Some? && body.Some? {
      Results.AddItemsFew(r, extra.value, body.value);
    } else if extra.Some? {
      Results.AddItemsFew(r, extra.value, extra.value);
    } else if body.Some? {
      Results.AddItemsFew(r, body.value, body.value);
    }
  }
}
