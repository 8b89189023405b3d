/** What a caller of `SpeechImpl` gets for each operation, and what becomes of a request that is cancelled. */
module SpeechDelivery {
  import opened StreamSpec
  import opened OpSpec
  import opened Results
  import opened Accounts
  import opened SpeechSystem
  import OncePerRequest
  import VoiceDelivery

  /** What was last done to a voice in the queue: ended, cancelled, or given up with the time-out error. */
  datatype Closing = Closed | Dropped | TimedOut

  /**
   * The accounts of the operations; the calls of `cancel` that still have to look for an operation; the request to be
   * erased; what was last done to each voice in the queue; and the requests cancelled while they waited. A voice that
   * is ended after that, while it still waits, counts no longer as cancelled.
   */
  datatype Past<+R> = Past(
    accounts: Accounts<R>, pending: seq<int>, gen: GenPc, closings: map<int, Closing>, unread: set<int>)

  function TextIds(texts: seq<TextReq>): set<int> {
    set i | 0 <= i < |texts| :: texts[i].id
  }

  /** The voices whose START was not taken from the queue. */
  function NewIds<V>(voices: Streams<V>): set<int> {
    set j | 0 <= j < |voices| && !voices[j].polling :: voices[j].id
  }

  function Close<R>(p: Past<R>, ids: set<int>, closing: Closing): Past<R> {
    p.(closings := p.closings + map x | x in ids :: closing)
  }

  ghost function Cancelling<V, R>(s: Speech<V, R>, id: int, p: Past<R>): Past<R> {
    if id <= 0 then
      var p1 := Close(p, Ids(s.voices), Dropped);
      p1.(pending := p.pending + [0], unread := p.unread + TextIds(s.texts) + NewIds(s.voices))
    else if id in Ids(s.voices) then
      Close(p, {id}, Dropped).(unread := if id in NewIds(s.voices) then p.unread + {id} else p.unread)
    else if id in TextIds(s.texts) then p.(unread := p.unread + {id})
    else p.(pending := p.pending + [id])
  }

  /** The sender's decision on the request it holds. */
  function Decided<V, R>(pc: Pc<V>, told: nat, p: Past<R>): Past<R>
    requires pc.Deciding?
  {
    match pc.req
    case Text(id) => p.(accounts := p.accounts + [Opening(id, false)])
    case VoiceStart(id) => p.(accounts := p.accounts + [Opening(id, false)])
    case CancelledReq(id) =>
      p.(accounts := if pc.seen.At? then StoppedAt(p.accounts, told, pc.seen.k)
                     else p.accounts + [Opening(id, true)])
    case _ => p
  }

  ghost function Record<V, R>(s: Speech<V, R>, e: Event<V, R>, p: Past<R>): Past<R> {
    match e
    case EndVoice(id) =>
      if id in Ids(s.voices) then Close(p, {id}, Closed).(unread := p.unread - {id}) else p
    case CancelReq(id) => Cancelling(s, id, p)
    case CancelRest(i) =>
      if i >= |p.pending| then p
      else
        p.(pending := p.pending[..i] + p.pending[i + 1..],
           accounts := Stopped(p.accounts, s.res.ctl.front, p.pending[i]))
    case SenderStep => if s.pc.Deciding? then Decided(s.pc, s.res.ctl.front, p) else p
    case SendFailed(err) =>
      if !s.pc.Sending? then p
      else Close(p, Ids(s.voices) * {s.pc.req.id}, TimedOut).(accounts := Broken(p.accounts, err))
    case Response(id, items, fin) =>
      if !p.gen.GenIdle? || fin == Refused(0) then p
      else
        p.(gen := if ActiveIs(p.accounts, id) && !fin.Going? then MustErase(id) else GenIdle,
           accounts := Answered(p.accounts, id, items, fin))
    case RecvFailed(err) =>
      if !p.gen.GenIdle? then p
      else
        p.(gen := if Active(p.accounts) then MustErase(p.accounts[|p.accounts| - 1].id) else GenIdle,
           accounts := Broken(p.accounts, err))
    case GenErase =>
      if p.gen.GenIdle? then p
      else Close(p, Ids(s.voices) * {p.gen.id}, TimedOut).(gen := GenIdle)
    case _ => p
  }

  ghost function PastOf<V, R>(events: seq<Event<V, R>>): Past<R> {
    if events == [] then Past([], [], GenIdle, map[], {})
    else
      var n := |events| - 1;
      Record(SpeechSystem.RunOf(events[..n]), events[n], PastOf(events[..n]))
  }

  // ---------------------------------------------------------------- the invariant

  ghost predicate ClosedAs<V>(s: Stream<V>, closings: map<int, Closing>) {
    if s.id !in closings then s.status.Open?
    else match closings[s.id]
      case Closed => s.status.Completed?
      case Dropped => s.status.Deleted?
      case TimedOut => s.status.Failed? && s.err == 103
  }

  ghost predicate VoicesOk<V>(voices: Streams<V>, closings: map<int, Closing>, unread: set<int>) {
    && (forall j | 0 <= j < |voices| :: ClosedAs(voices[j], closings))
    && (forall j | 0 <= j < |voices| && !voices[j].polling ::
          !voices[j].status.Failed? && (voices[j].status.Deleted? <==> voices[j].id in unread))
  }

  ghost predicate TextsOk(texts: seq<TextReq>, unread: set<int>) {
    forall i | 0 <= i < |texts| :: texts[i].cancelled <==> texts[i].id in unread
  }

  /** What was sent or is about to be was not cancelled while it waited. */
  ghost predicate UnsentOk<V>(wire: seq<Frame<V>>, pc: Pc<V>, unread: set<int>) {
    && (forall m | 0 <= m < |wire| && VoiceDelivery.Starts(wire[m]) :: wire[m].id !in unread)
    && (pc.Got? || pc.Deciding? || pc.Sending? ==> Begins(pc.req) ==> pc.req.id !in unread)
  }

  ghost predicate Books<V, R>(s: Speech<V, R>, p: Past<R>) {
    && Kept(s.res, p.accounts) && StoppedOk(p.accounts, p.unread)
    && s.pending == p.pending && s.gen == p.gen
    && (s.gen.MustErase? ==> !NewId(s.gen.id, s.res.ctl.ops))
    && p.closings.Keys <= s.issued && p.unread <= s.issued
    && VoicesOk(s.voices, p.closings, p.unread) && TextsOk(s.texts, p.unread)
    && UnsentOk(s.wire, s.pc, p.unread)
  }

  ghost predicate BooksOf<V, R>(s: Speech<V, R>, w: Witness<R>, p: Past<R>) {
    SpeechInv(s, w) && VoiceDelivery.StartsOk(s.wire, s.res.ctl.ops, s.pc) && Books(s, p)
  }

  lemma InitBooks<V, R>()
    ensures BooksOf<V, R>(Init(), Witness([], []), Past([], [], GenIdle, map[], {}))
  {
    InitKept<R>();
    InitOk<V, R>();
  }

  // ---------------------------------------------------------------- the voice queue

  /** Some voices were ended, cancelled or given up. */
  ghost predicate ClosesVoices<V>(a: Streams<V>, b: Streams<V>, ids: set<int>, closing: Closing) {
    && |a| == |b|
    && (forall j | 0 <= j < |a| :: b[j].id == a[j].id && b[j].polling == a[j].polling)
    && (forall j | 0 <= j < |a| ::
          if a[j].id in ids then ClosedAs(b[j], map[b[j].id := closing]) else b[j] == a[j])
  }

  lemma CloseVoices<V, R>(a: Streams<V>, b: Streams<V>, p: Past<R>, ids: set<int>, closing: Closing, unread: set<int>)
    requires VoicesOk(a, p.closings, p.unread) && ClosesVoices(a, b, ids, closing)
    requires forall j | 0 <= j < |a| && !a[j].polling ::
               if a[j].id in ids then !closing.TimedOut? && (closing.Dropped? <==> a[j].id in unread)
               else a[j].id in unread <==> a[j].id in p.unread
    ensures VoicesOk(b, Close(p, ids, closing).closings, unread)
  {
    forall j | 0 <= j < |b| ensures ClosedAs(b[j], Close(p, ids, closing).closings) {
      assert ClosedAs(a[j], p.closings);
    }
  }

  lemma EndCloses<V>(q: Streams<V>, id: int)
    requires WellFormed(q) && id in Ids(q)
    ensures ClosesVoices(q, Complete(q, id, None), {id}, Closed)
  {
    InIds(q, id);
  }

  lemma EraseCloses<V>(q: Streams<V>, id: int, err: nat)
    requires WellFormed(q) && (err == 0 || err == 103)
    ensures ClosesVoices(q, Erase(q, id, err), Ids(q) * {id}, if err == 0 then Dropped else TimedOut)
  {
    InIds(q, id);
    forall j | 0 <= j < |q| ensures q[j].id in Ids(q) {}
  }

  lemma ClearCloses<V>(q: Streams<V>)
    ensures ClosesVoices(q, Clear(q), Ids(q), Dropped)
  {
    forall j | 0 <= j < |q| ensures q[j].id in Ids(q) {}
  }

  lemma AppendSameVoices<V>(q: Streams<V>, id: int, items: seq<V>, closings: map<int, Closing>, unread: set<int>)
    requires VoicesOk(q, closings, unread)
    ensures VoicesOk(AppendAll(q, id, items), closings, unread)
  {
    hide AppendAll;
    VoiceDelivery.AppendAllIs(q, id, items);
  }

  lemma BeginVoices<V>(q: Streams<V>, id: int, closings: map<int, Closing>, unread: set<int>)
    requires VoicesOk(q, closings, unread) && id !in closings && id !in unread && id !in Ids(q)
    ensures VoicesOk(Begin(q, id), closings, unread)
  {
    InIds(q, id);
    assert Begin(q, id) == q + [Stream(id, false, Open, 0, [], None)];
  }

  lemma PopVoices<V>(q: Streams<V>, closings: map<int, Closing>, unread: set<int>)
    requires VoicesOk(q, closings, unread) && !Front(q).Empty?
    ensures VoicesOk(Rest(q), closings, unread)
    ensures Front(q).Start? ==> Front(q).id !in unread
  {
    EmptyPopsNothing(q);
  }

  // ---------------------------------------------------------------- who waits

  /** No one who waits has an operation, is held by the sender or was sent. */
  lemma WaitersUnsent<V, R>(s: Speech<V, R>, w: Witness<R>, id: int)
    requires SpeechInv(s, w) && VoiceDelivery.StartsOk(s.wire, s.res.ctl.ops, s.pc)
    requires id in TextIds(s.texts) || id in NewIds(s.voices)
    ensures id in s.issued && NewId(id, s.res.ctl.ops)
    ensures forall m | 0 <= m < |s.wire| && VoiceDelivery.Starts(s.wire[m]) :: s.wire[m].id != id
    ensures s.pc.Got? || s.pc.Deciding? || s.pc.Sending? ==> s.pc.req.id != id
    ensures id in TextIds(s.texts) ==> id !in Ids(s.voices)
  {
    hide Inv, Heard, PcOk, WellFormed;
  }

  lemma MoreUnread<V, R>(s: Speech<V, R>, w: Witness<R>, p: Past<R>, more: set<int>)
    requires BooksOf(s, w, p) && more <= TextIds(s.texts) + NewIds(s.voices)
    ensures StoppedOk(p.accounts, p.unread + more) && UnsentOk(s.wire, s.pc, p.unread + more)
    ensures p.unread + more <= s.issued
  {
    hide SpeechInv, VoiceDelivery.StartsOk, TextIds, NewIds, Verdicts, TagOk, FateOk;
    forall x | x in more
      ensures x in s.issued && NewId(x, s.res.ctl.ops)
      ensures forall m | 0 <= m < |s.wire| && VoiceDelivery.Starts(s.wire[m]) :: s.wire[m].id != x
      ensures s.pc.Got? || s.pc.Deciding? || s.pc.Sending? ==> s.pc.req.id != x
    {
      WaitersUnsent(s, w, x);
    }
    forall x | x in p.unread + more ensures x in s.issued {
      if x in more { assert NewId(x, s.res.ctl.ops); }
    }
    forall k | 0 <= k < |p.accounts| ensures p.accounts[k].id !in more {
      assert Facts(s.res.ctl.ops[k], s.res.hist[k], p.accounts[k]);
    }
  }

  lemma FewerUnread<V, R>(s: Speech<V, R>, p: Past<R>, id: int)
    requires Books(s, p)
    ensures StoppedOk(p.accounts, p.unread - {id}) && UnsentOk(s.wire, s.pc, p.unread - {id})
  {
    hide Kept, VoicesOk;
  }

  // ---------------------------------------------------------------- the calls of users

  lemma EndVoiceBooks<V, R>(s: Speech<V, R>, w: Witness<R>, p: Past<R>, id: int)
    requires BooksOf(s, w, p) && s.res.Valid()
    ensures Books(SpeechSystem.Step(s, EndVoice(id)), Record(s, EndVoice(id), p))
  {
    hide SpeechInv, Kept, StoppedOk, UnsentOk, VoicesOk, ClosesVoices, VoiceDelivery.StartsOk, WellFormed, Complete;
    VoicesWellFormed(s, w);
    if id in Ids(s.voices) {
      EndCloses(s.voices, id);
      FewerUnread(s, p, id);
      VoiceIdsIssued(s, w);
      CloseVoices(s.voices, Complete(s.voices, id, None), p, {id}, Closed, p.unread - {id});
      forall i | 0 <= i < |s.texts| ensures s.texts[i].id != id {
        assert s.texts[i].id in TextIds(s.texts);
        WaitersUnsent(s, w, s.texts[i].id);
      }
    } else {
      EndNothing(s.voices, id);
    }
  }

  lemma EndNothing<V>(q: Streams<V>, id: int)
    requires id !in Ids(q)
    ensures Complete(q, id, None) == q && forall err: nat :: Erase(q, id, err) == q
  {
    InIds(q, id);
  }

  lemma VoiceIdsIssued<V, R>(s: Speech<V, R>, w: Witness<R>)
    requires SpeechInv(s, w)
    ensures Ids(s.voices) <= s.issued
  {
  }

  lemma CancelAllBooks<V, R>(s: Speech<V, R>, w: Witness<R>, p: Past<R>, id: int)
    requires BooksOf(s, w, p) && id <= 0
    ensures Books(CancelFirst(s, id), Cancelling(s, id, p))
  {
    hide SpeechInv, Kept, StoppedOk, UnsentOk, VoicesOk, ClosesVoices, VoiceDelivery.StartsOk, Clear, MarkTexts;
    var more := TextIds(s.texts) + NewIds(s.voices);
    assert p.unread + TextIds(s.texts) + NewIds(s.voices) == p.unread + more;
    MoreUnread(s, w, p, more);
    VoiceIdsIssued(s, w);
    ClearCloses(s.voices);
    forall j | 0 <= j < |s.voices| && !s.voices[j].polling ensures s.voices[j].id in NewIds(s.voices) {}
    forall j | 0 <= j < |s.voices| ensures s.voices[j].id in Ids(s.voices) {}
    CloseVoices(s.voices, Clear(s.voices), p, Ids(s.voices), Dropped, p.unread + more);
    MarkedAll(s.texts, id);
    forall i | 0 <= i < |s.texts| ensures s.texts[i].id in TextIds(s.texts) {}
  }

  lemma CancelVoiceBooks<V, R>(s: Speech<V, R>, w: Witness<R>, p: Past<R>, id: int)
    requires BooksOf(s, w, p) && id > 0 && id in Ids(s.voices)
    ensures Books(CancelFirst(s, id), Cancelling(s, id, p))
  {
    hide SpeechInv, Kept, StoppedOk, UnsentOk, VoicesOk, ClosesVoices, VoiceDelivery.StartsOk, Erase, MarkTexts,
      WellFormed, Index;
    VoicesWellFormed(s, w);
    InIds(s.voices, id);
    var more := NewIds(s.voices) * {id};
    var unread := if id in NewIds(s.voices) then p.unread + {id} else p.unread;
    assert p.unread + more == unread;
    MoreUnread(s, w, p, more);
    VoiceIdsIssued(s, w);
    EraseCloses(s.voices, id, 0);
    assert Ids(s.voices) * {id} == {id};
    forall j | 0 <= j < |s.voices| && !s.voices[j].polling ensures s.voices[j].id in NewIds(s.voices) {}
    CloseVoices(s.voices, Erase(s.voices, id, 0), p, {id}, Dropped, unread);
    forall i | 0 <= i < |s.texts| ensures s.texts[i].id != id {
      assert s.texts[i].id in TextIds(s.texts);
      WaitersUnsent(s, w, s.texts[i].id);
    }
  }

  lemma TextsDistinct<V, R>(s: Speech<V, R>, w: Witness<R>)
    requires SpeechInv(s, w)
    ensures forall i, j | 0 <= i < j < |s.texts| :: s.texts[i].id != s.texts[j].id
  {
  }

  lemma CancelTextBooks<V, R>(s: Speech<V, R>, w: Witness<R>, p: Past<R>, id: int)
    requires BooksOf(s, w, p) && id > 0 && id !in Ids(s.voices)
    ensures Books(CancelFirst(s, id), Cancelling(s, id, p))
  {
    hide SpeechInv, Kept, StoppedOk, UnsentOk, ClosesVoices, VoiceDelivery.StartsOk, Erase, MarkTexts, WellFormed,
      Index;
    InIds(s.voices, id);
    assert HasText(s.texts, id) <==> id in TextIds(s.texts);
    if HasText(s.texts, id) {
      MoreUnread(s, w, p, {id});
      TextsDistinct(s, w);
      MarkedOne(s.texts, id);
      forall j | 0 <= j < |s.voices| ensures s.voices[j].id in Ids(s.voices) {}
    }
  }

  lemma StartVoiceBooks<V, R>(s: Speech<V, R>, w: Witness<R>, p: Past<R>, id: int)
    requires BooksOf(s, w, p) && s.res.Valid()
    ensures Books(SpeechSystem.Step(s, StartVoice(id)), p)
    ensures Books(SpeechSystem.Step(s, PutText(id)), p)
  {
    hide SpeechInv, Kept, StoppedOk, UnsentOk, VoicesOk, VoiceDelivery.StartsOk, WellFormed, Begin;
    VoiceIdsIssued(s, w);
    if id > 0 && id !in s.issued { BeginVoices(s.voices, id, p.closings, p.unread); }
  }

  // ---------------------------------------------------------------- the sender's steps

  lemma PopBooks<V, R>(s: Speech<V, R>, w: Witness<R>, p: Past<R>)
    requires BooksOf(s, w, p) && s.res.Valid() && !s.pc.Deciding?
    ensures Books(SenderMoves(s), p)
  {
    hide SpeechInv, Kept, StoppedOk, VoicesOk, VoiceDelivery.StartsOk, WellFormed, Front, Rest;
    if s.pc.Top? && !Front(s.voices).Empty? {
      PopVoices(s.voices, p.closings, p.unread);
      SameReqId(Front(s.voices));
      StartOnly(Front(s.voices));
    }
  }

  lemma StartOnly<V>(p: Popped<V>)
    requires !p.Empty?
    ensures Begins(ReqOf(p)) <==> p.Start?
  {
  }

  lemma ConcernsNew<V, R>(s: Speech<V, R>, w: Witness<R>)
    requires SpeechInv(s, w) && s.pc.Deciding?
    ensures s.res.Valid() && (s.pc.seen.At? ==> s.pc.seen.k < |s.res.ctl.ops|)
  {
    hide Inv, Heard, IdsOk, ReqTaken;
    InvValid(s.res, w);
  }

  lemma DecideBooks<V, R>(s: Speech<V, R>, w: Witness<R>, p: Past<R>)
    requires BooksOf(s, w, p) && s.pc.Deciding?
    ensures s.res.Valid() && Books(Decide(s), Decided(s.pc, s.res.ctl.front, p))
  {
    hide SpeechInv, Kept, StoppedOk, VoicesOk, TextsOk, VoiceDelivery.StartsOk;
    ConcernsNew(s, w);
    var req, told := s.pc.req, s.res.ctl.front;
    KnownStays(s, w);
    if Begins(req) {
      CreateKept(s.res, p.accounts, req.id, Starting);
      OpeningStopped(p.accounts, Opening(req.id, false), p.unread);
    } else if req.CancelledReq? {
      if s.pc.seen.At? {
        CancelAtKept(s.res, p.accounts, s.pc.seen.k);
        StoppedStays(p.accounts, told, 0, s.pc.seen.k);
        StaysStopped(p.accounts, StoppedAt(p.accounts, told, s.pc.seen.k), p.unread);
      } else {
        CreateKept(s.res, p.accounts, req.id, Cancelled);
        OpeningStopped(p.accounts, Opening(req.id, true), p.unread);
      }
    }
  }

  lemma OpeningStopped<R>(accounts: Accounts<R>, a: Account<R>, stopped: set<int>)
    requires StoppedOk(accounts, stopped)
    requires a.id in stopped ==> a.fate.WasCancelled? && !a.began && a.sent == []
    ensures StoppedOk(accounts + [a], stopped)
  {
  }

  lemma KnownStays<V, R>(s: Speech<V, R>, w: Witness<R>)
    requires SpeechInv(s, w) && s.res.Valid() && s.pc.Deciding? && (s.pc.seen.At? ==> s.pc.seen.k < |s.res.ctl.ops|)
    ensures forall x :: !NewId(x, s.res.ctl.ops) ==> !NewId(x, Decide(s).res.ctl.ops)
  {
    hide SpeechInv;
    VoiceDelivery.StillKnown(s.res.ctl.ops, Decide(s).res.ctl.ops);
  }

  lemma SendOkBooks<V, R>(s: Speech<V, R>, w: Witness<R>, p: Past<R>)
    requires BooksOf(s, w, p) && s.res.Valid()
    ensures Books(SpeechSystem.Step(s, SendOk), p)
  {
    hide SpeechInv, Kept, StoppedOk, VoicesOk, TextsOk, VoiceDelivery.StartsOk;
  }

  lemma SendFailedBooks<V, R>(s: Speech<V, R>, w: Witness<R>, p: Past<R>, err: nat)
    requires BooksOf(s, w, p) && s.res.Valid()
    ensures Books(SpeechSystem.Step(s, SendFailed(err)), Record(s, SendFailed(err), p))
  {
    hide SpeechInv, Kept, StoppedOk, VoicesOk, TextsOk, VoiceDelivery.StartsOk, Erase, ClosesVoices, Broken;
    if s.pc.Sending? {
      var id := s.pc.req.id;
      SendingTaken(s, w);
      TimeOutVoices(s, w, p, id);
      ResInv(s, w);
      FailKept(s.res, w, p.accounts, err);
      BrokenStays(p.accounts, err);
      StaysStopped(p.accounts, Broken(p.accounts, err), p.unread);
      VoiceDelivery.StillKnown(s.res.ctl.ops, Fail(s.res, err).ctl.ops);
    }
  }

  lemma SendingTaken<V, R>(s: Speech<V, R>, w: Witness<R>)
    requires SpeechInv(s, w) && s.pc.Sending?
    ensures s.pc.req.id !in NewIds(s.voices)
  {
    hide Inv, Heard, IdsOk, PcOk;
  }

  lemma KnownTaken<V, R>(s: Speech<V, R>, w: Witness<R>, id: int)
    requires SpeechInv(s, w) && !NewId(id, s.res.ctl.ops)
    ensures id !in NewIds(s.voices)
  {
    hide Inv, Heard, ReqTaken, PcOk;
  }

  /** Only voices that have been begun are given up. */
  lemma TimeOutVoices<V, R>(s: Speech<V, R>, w: Witness<R>, p: Past<R>, id: int)
    requires BooksOf(s, w, p) && id !in NewIds(s.voices)
    ensures var p' := Close(p, Ids(s.voices) * {id}, TimedOut);
      VoicesOk(Erase(s.voices, id, 103), p'.closings, p.unread) && p'.closings.Keys <= s.issued
  {
    hide SpeechInv, Kept, StoppedOk, VoicesOk, TextsOk, UnsentOk, VoiceDelivery.StartsOk, Erase, ClosesVoices,
      WellFormed;
    VoicesWellFormed(s, w);
    VoiceIdsIssued(s, w);
    EraseCloses(s.voices, id, 103);
    forall j | 0 <= j < |s.voices| && !s.voices[j].polling ensures s.voices[j].id != id {
      assert s.voices[j].id in NewIds(s.voices);
    }
    CloseVoices(s.voices, Erase(s.voices, id, 103), p, Ids(s.voices) * {id}, TimedOut, p.unread);
  }

  lemma GenEraseBooks<V, R>(s: Speech<V, R>, w: Witness<R>, p: Past<R>)
    requires BooksOf(s, w, p) && s.res.Valid()
    ensures Books(SpeechSystem.Step(s, GenErase), Record(s, GenErase, p))
  {
    hide SpeechInv, Kept, StoppedOk, VoicesOk, TextsOk, UnsentOk, VoiceDelivery.StartsOk, Erase, NewId;
    if s.gen.MustErase? {
      KnownTaken(s, w, s.gen.id);
      TimeOutVoices(s, w, p, s.gen.id);
    }
  }

  // ---------------------------------------------------------------- the result side

  /** The parts that depend on the result side, when it changes and no operation is created. */
  lemma SettledBooks<V, R>(s: Speech<V, R>, p: Past<R>, s': Speech<V, R>, p': Past<R>)
    requires Books(s, p) && s'.res.Valid() && Settled(s.res.ctl, s'.res.ctl) && Kept(s'.res, p'.accounts)
    requires StaysCancelled(p.accounts, p'.accounts) && |p.accounts| == |p'.accounts|
    requires s'.issued == s.issued && s'.texts == s.texts && s'.voices == s.voices && s'.wire == s.wire
    requires s'.pc == s.pc || s'.pc.Top?
    requires p'.closings == p.closings && p'.unread == p.unread && s'.pending == p'.pending && s'.gen == p'.gen
    requires s'.gen.MustErase? ==> !NewId(s'.gen.id, s.res.ctl.ops)
    ensures Books(s', p')
  {
    hide Kept, StoppedOk, VoicesOk, TextsOk, StaysCancelled, NewId;
    StaysStopped(p.accounts, p'.accounts, p.unread);
    VoiceDelivery.StillKnown(s.res.ctl.ops, s'.res.ctl.ops);
  }

  lemma BooksKept<V, R>(s: Speech<V, R>, p: Past<R>)
    requires Books(s, p)
    ensures Kept(s.res, p.accounts) && s.pending == p.pending && s.gen == p.gen
    ensures s.gen.MustErase? ==> !NewId(s.gen.id, s.res.ctl.ops)
  {
  }

  lemma CancelRestBooks<V, R>(s: Speech<V, R>, w: Witness<R>, p: Past<R>, i: nat)
    requires BooksOf(s, w, p) && s.res.Valid()
    ensures Books(SpeechSystem.Step(s, CancelRest(i)), Record(s, CancelRest(i), p))
  {
    hide SpeechInv, Books, Kept, VoiceDelivery.StartsOk, CancelOp, Stopped, StaysCancelled, NewId, Settled;
    BooksKept(s, p);
    if i < |s.pending| {
      CancelKept(s.res, p.accounts, s.pending[i]);
      CancelSettles(s.res.ctl, s.pending[i]);
      StoppedStays(p.accounts, s.res.ctl.front, s.pending[i], 0);
      SettledBooks(s, p, SpeechSystem.Step(s, CancelRest(i)), Record(s, CancelRest(i), p));
    }
  }

  lemma ActiveKnown<V, R>(s: Speech<V, R>, w: Witness<R>, p: Past<R>)
    requires BooksOf(s, w, p) && s.res.Valid()
    ensures Active(p.accounts) <==> s.res.ctl.current.At?
    ensures forall id :: ActiveIs(p.accounts, id) <==> s.res.ctl.IsCurrent(id)
    ensures s.res.ctl.current.At? ==>
              var id := s.res.ctl.ops[s.res.ctl.current.k].id;
              !NewId(id, s.res.ctl.ops) && p.accounts[|p.accounts| - 1].id == id
  {
    hide SpeechInv, Inv, VoiceDelivery.StartsOk, VoicesOk, TextsOk, UnsentOk, StoppedOk, Verdicts, TagOk, FateOk;
    ResInv(s, w);
    ActiveIsCurrent(s.res, w, p.accounts);
    var n := |p.accounts| - 1;
    if s.res.ctl.current.At? { assert Facts(s.res.ctl.ops[n], s.res.hist[n], p.accounts[n]); }
  }

  lemma ResponseBooks<V, R>(s: Speech<V, R>, w: Witness<R>, p: Past<R>, id: int, items: seq<R>, fin: Finish<R>)
    requires BooksOf(s, w, p) && s.res.Valid()
    ensures Books(SpeechSystem.Step(s, Response(id, items, fin)), Record(s, Response(id, items, fin), p))
  {
    hide SpeechInv, Books, Kept, VoiceDelivery.StartsOk, Respond, Answered, StaysCancelled, NewId, Settled;
    BooksKept(s, p);
    ActiveKnown(s, w, p);
    if s.gen.GenIdle? && fin != Refused(0) {
      ResInv(s, w);
      RespondKept(s.res, w, p.accounts, id, items, fin);
      RespondSettles(s.res, id, items, fin);
      AnsweredStays(p.accounts, id, items, fin);
      SettledBooks(s, p, SpeechSystem.Step(s, Response(id, items, fin)), Record(s, Response(id, items, fin), p));
    }
  }

  lemma RecvFailedBooks<V, R>(s: Speech<V, R>, w: Witness<R>, p: Past<R>, err: nat)
    requires BooksOf(s, w, p) && s.res.Valid()
    ensures Books(SpeechSystem.Step(s, RecvFailed(err)), Record(s, RecvFailed(err), p))
  {
    hide SpeechInv, Books, Kept, VoiceDelivery.StartsOk, Broken, StaysCancelled, NewId;
    BooksKept(s, p);
    ActiveKnown(s, w, p);
    if s.gen.GenIdle? {
      ResInv(s, w);
      FailKept(s.res, w, p.accounts, err);
      BrokenStays(p.accounts, err);
      SettledBooks(s, p, SpeechSystem.Step(s, RecvFailed(err)), Record(s, RecvFailed(err), p));
    }
  }

  lemma PollBooks<V, R>(s: Speech<V, R>, w: Witness<R>, p: Past<R>)
    requires BooksOf(s, w, p) && s.res.Valid()
    ensures Books(SpeechSystem.Step(s, PollResult), p)
  {
    hide SpeechInv, Books, Kept, VoiceDelivery.StartsOk, Poll, StaysCancelled, NewId, Settled;
    BooksKept(s, p);
    ResInv(s, w);
    PollKept(s.res, w, p.accounts);
    VoiceDelivery.PollSettles(s.res);
    SameStays(p.accounts);
    SettledBooks(s, p, SpeechSystem.Step(s, PollResult), p);
  }

  lemma PutVoiceBooks<V, R>(s: Speech<V, R>, p: Past<R>, id: int, fragments: seq<V>)
    requires Books(s, p) && s.res.Valid()
    ensures Books(SpeechSystem.Step(s, PutVoice(id, fragments)), p)
  {
    hide Kept, StoppedOk, VoicesOk, TextsOk, UnsentOk, AppendAll;
    AppendSameVoices(s.voices, id, fragments, p.closings, p.unread);
  }

  lemma CancelReqBooks<V, R>(s: Speech<V, R>, w: Witness<R>, p: Past<R>, id: int)
    requires BooksOf(s, w, p) && s.res.Valid()
    ensures Books(SpeechSystem.Step(s, CancelReq(id)), Record(s, CancelReq(id), p))
  {
    hide BooksOf, Books, CancelFirst, Cancelling;
    if id <= 0 {
      CancelAllBooks(s, w, p, id);
    } else if id in Ids(s.voices) {
      CancelVoiceBooks(s, w, p, id);
    } else {
      CancelTextBooks(s, w, p, id);
    }
  }

  lemma SenderBooks<V, R>(s: Speech<V, R>, w: Witness<R>, p: Past<R>)
    requires BooksOf(s, w, p) && s.res.Valid()
    ensures Books(SpeechSystem.Step(s, SenderStep), Record(s, SenderStep, p))
  {
    hide BooksOf, Books, Decided, Decide;
    if s.pc.Deciding? { DecideBooks(s, w, p); } else { PopBooks(s, w, p); }
  }

  lemma StepBooks<V, R>(s: Speech<V, R>, e: Event<V, R>, w: Witness<R>, p: Past<R>)
    requires BooksOf(s, w, p) && s.res.Valid()
    ensures Books(SpeechSystem.Step(s, e), Record(s, e, p))
  {
    hide SpeechInv, Books, SpeechSystem.Step, VoiceDelivery.StartsOk, Cancelling, Decided, Close, Answered, Broken,
      Stopped;
    match e
    case PutText(id) => StartVoiceBooks(s, w, p, id);
    case StartVoice(id) => StartVoiceBooks(s, w, p, id);
    case PutVoice(id, fragments) => PutVoiceBooks(s, p, id, fragments);
    case EndVoice(id) => EndVoiceBooks(s, w, p, id);
    case CancelReq(id) => CancelReqBooks(s, w, p, id);
    case CancelRest(i) => CancelRestBooks(s, w, p, i);
    case SenderStep => SenderBooks(s, w, p);
    case SendOk => SendOkBooks(s, w, p);
    case SendFailed(err) => SendFailedBooks(s, w, p, err);
    case Response(id, items, fin) => ResponseBooks(s, w, p, id, items, fin);
    case RecvFailed(err) => RecvFailedBooks(s, w, p, err);
    case GenErase => GenEraseBooks(s, w, p);
    case PollResult => PollBooks(s, w, p);
  }

  lemma {:induction false} BooksInv<V, R>(events: seq<Event<V, R>>) returns (w: Witness<R>)
    ensures BooksOf(SpeechSystem.RunOf(events), w, PastOf(events))
    decreases |events|
  {
    hide SpeechInv, Books, SpeechSystem.Step, VoiceDelivery.StartsOk, Record;
    if events == [] {
      InitBooks<V, R>();
      w := Witness([], []);
    } else {
      var n := |events| - 1;
      w := BooksInv(events[..n]);
      var s := SpeechSystem.RunOf(events[..n]);
      StepBooks(s, events[n], w, PastOf(events[..n]));
      VoiceDelivery.StepStartsOk(s, events[n], w);
      w := SpeechSystem.StepKeeps(s, events[n], w);
    }
  }

  // ---------------------------------------------------------------- what holds in every run

  /**
   * Each operation gets exactly one last result, in creation order, and it is what ended the operation. The log is
   * one block per operation with exactly what the server sent for it, as far as it was read. The next operation is
   * being read, and what `poll` returns next is the next thing owed for it.
   */
  lemma OneVerdictPerOperation<V, R>(events: seq<Event<V, R>>) returns (blocks: seq<seq<Popped<R>>>)
    ensures var r, accounts := SpeechSystem.RunOf(events).res, PastOf(events).accounts;
      var told := r.ctl.front;
      && |Verdicts(r.log)| == told <= |accounts| == |r.ctl.ops|
      && (forall k | 0 <= k < |accounts| :: accounts[k].id == r.ctl.ops[k].id)
      && (forall k | 0 <= k < told :: !accounts[k].fate.Undecided? && Verdicts(r.log)[k] == Verdict(accounts[k]))
      && Flat(blocks) == r.log && |blocks| == |accounts|
      && (forall k | 0 <= k < told :: Settles(blocks[k], accounts[k]))
      && (told < |accounts| ==> Pays(blocks[told], accounts[told]) && NextOwed(Next(r), blocks[told], accounts[told]))
      && (told == |accounts| ==> Next(r).Empty?)
      && (forall k | told < k < |accounts| :: blocks[k] == [])
  {
    hide SpeechSystem.RunOf, PastOf, Inv, Verdicts, TagOk, FateOk, Settles, Pays, NextOwed, Verdict, StoppedOk,
      VoicesOk, TextsOk, UnsentOk, VoiceDelivery.StartsOk;
    var w := BooksInv(events);
    blocks := w.blocks;
    var s, p := SpeechSystem.RunOf(events), PastOf(events);
    ResInv(s, w);
    forall k | 0 <= k < |p.accounts| ensures p.accounts[k].id == s.res.ctl.ops[k].id {
      assert Facts(s.res.ctl.ops[k], s.res.hist[k], p.accounts[k]);
    }
    BlocksSettle(s.res, w, p.accounts);
  }

  /**
   * No request that was cancelled while it waited is begun on the wire, and if it has an operation, CANCELLED is its
   * only result.
   */
  lemma CancelledUnsent<V, R>(events: seq<Event<V, R>>)
    ensures var s, p := SpeechSystem.RunOf(events), PastOf(events);
      && (forall m | 0 <= m < |s.wire| && VoiceDelivery.Starts(s.wire[m]) :: s.wire[m].id !in p.unread)
      && (forall k | 0 <= k < |p.accounts| && p.accounts[k].id in p.unread ::
            p.accounts[k].fate.WasCancelled? && !p.accounts[k].began)
  {
    hide SpeechSystem.RunOf, PastOf, SpeechInv, Kept, VoicesOk, TextsOk, VoiceDelivery.StartsOk;
    var w := BooksInv(events);
  }

  /**
   * The sender is told of the front voice what was done to it last: CANCELLED exactly if that was a cancellation, an
   * error exactly if it was given up, and it starts to read one that waits exactly if it does not count as cancelled.
   */
  lemma FrontAsClosed<V, R>(events: seq<Event<V, R>>)
    ensures var s, p := SpeechSystem.RunOf(events), PastOf(events);
      s.voices != [] ==>
        var id, q := s.voices[0].id, Front(s.voices);
        && (q == Removed(id) <==> id in p.closings && p.closings[id].Dropped?)
        && (q == Error(id, 103) <==> id in p.closings && p.closings[id].TimedOut?)
        && (!s.voices[0].polling ==> q == if id in p.unread then Removed(id) else Start(id))
        && (q.Empty? ==> id !in p.closings)
  {
    hide SpeechSystem.RunOf, PastOf, SpeechInv, Kept, StoppedOk, TextsOk, UnsentOk, VoiceDelivery.StartsOk;
    var w := BooksInv(events);
    var s, p := SpeechSystem.RunOf(events), PastOf(events);
    if s.voices != [] { assert ClosedAs(s.voices[0], p.closings); }
  }

  // ---------------------------------------------------------------- cancelled is cancelled

  lemma RecordStays<V, R>(s: Speech<V, R>, e: Event<V, R>, p: Past<R>)
    ensures StaysCancelled(p.accounts, Record(s, e, p).accounts)
    ensures forall x | x in p.unread && e != EndVoice(x) :: x in Record(s, e, p).unread
    ensures forall x | x in p.unread && x !in Ids(s.voices) :: x in Record(s, e, p).unread
  {
    hide Reached, StaysCancelled, Close, Broken, Answered, Stopped, StoppedAt;
    SameStays(p.accounts);
    CloseKeeps(p);
    match e
    case CancelRest(i) =>
      if i < |p.pending| { StoppedStays(p.accounts, s.res.ctl.front, p.pending[i], 0); }
    case SenderStep =>
      if s.pc.Deciding? { DecidedStays(s.pc, s.res.ctl.front, p); }
    case SendFailed(err) => BrokenStays(p.accounts, err);
    case RecvFailed(err) => BrokenStays(p.accounts, err);
    case Response(id, items, fin) => AnsweredStays(p.accounts, id, items, fin);
    case _ =>
  }

  lemma CloseKeeps<R>(p: Past<R>)
    ensures forall ids, closing :: Close(p, ids, closing).accounts == p.accounts
    ensures forall ids, closing :: Close(p, ids, closing).unread == p.unread
  {
  }

  lemma DecidedStays<V, R>(pc: Pc<V>, told: nat, p: Past<R>)
    requires pc.Deciding?
    ensures StaysCancelled(p.accounts, Decided(pc, told, p).accounts) && Decided(pc, told, p).unread == p.unread
  {
    hide StaysCancelled;
    SameStays(p.accounts);
    MoreStays(p.accounts, Opening(pc.req.id, false));
    MoreStays(p.accounts, Opening(pc.req.id, true));
    if pc.seen.At? { StoppedStays(p.accounts, told, 0, pc.seen.k); }
  }

  lemma PastStep<V, R>(events: seq<Event<V, R>>, e: Event<V, R>)
    ensures PastOf(events + [e]) == Record(SpeechSystem.RunOf(events), e, PastOf(events))
  {
    assert (events + [e])[..|events|] == events;
  }

  lemma {:induction false} ExtensionStays<V, R>(before: seq<Event<V, R>>, after: seq<Event<V, R>>)
    ensures StaysCancelled(PastOf(before).accounts, PastOf(before + after).accounts)
    decreases |after|
  {
    hide Record, StaysCancelled, SpeechSystem.RunOf;
    if after == [] {
      assert before + after == before;
      SameStays(PastOf(before).accounts);
    } else {
      var n := |after| - 1;
      var events := before + after[..n];
      assert before + after == events + [after[n]];
      ExtensionStays(before, after[..n]);
      PastStep(events, after[n]);
      RecordStays(SpeechSystem.RunOf(events), after[n], PastOf(events));
      StaysTwice(PastOf(before).accounts, PastOf(events).accounts, PastOf(before + after).accounts);
    }
  }

  /** An id that is not that of a queued voice never will be. */
  lemma NeverVoice<V, R>(s: Speech<V, R>, e: Event<V, R>, w: Witness<R>, id: int)
    requires SpeechInv(s, w) && s.res.Valid() && id in s.issued && id !in Ids(s.voices)
    ensures var s' := SpeechSystem.Step(s, e); id in s'.issued && id !in Ids(s'.voices)
  {
    hide Inv, Heard, PcOk, ReqTaken, IdsOk, Respond, CancelOp, Poll, AppendAll, MarkTexts, WellFormed, Front, Rest,
      Index;
    if OncePerRequest.Bystander(s, e) {
      OncePerRequest.VoicesSame(s, e, w);
      OncePerRequest.SameHeadsFacts(s.voices, SpeechSystem.Step(s, e).voices);
    } else if e.StartVoice? {
      if e.id !in s.issued { NotBegun(s.voices, e.id, id); }
    } else if s.pc.Top? && !Front(s.voices).Empty? {
      NotPopped(s.voices, id);
    }
  }

  lemma NotBegun<V>(q: Streams<V>, id: int, x: int)
    requires x !in Ids(q) && x != id
    ensures x !in Ids(Begin(q, id))
  {
  }

  lemma NotPopped<V>(q: Streams<V>, x: int)
    requires x !in Ids(q) && !Front(q).Empty?
    ensures x !in Ids(Rest(q))
  {
    EmptyPopsNothing(q);
    hide Front, Rest;
    PopLeaves(q);
    forall j | 0 <= j < |Rest(q)| ensures Rest(q)[j].id != x {
      var i :| 0 <= i < |q| && Rest(q)[j].id == q[i].id;
      assert q[i].id in Ids(q);
    }
  }

  /** A waiting request stays cancelled, unless it is a voice and `end_voice` is called for it. */
  lemma {:induction false} UnreadStays<V, R>(before: seq<Event<V, R>>, after: seq<Event<V, R>>, id: int)
    requires id in PastOf(before).unread
    requires id in Ids(SpeechSystem.RunOf(before).voices) ==> forall n | 0 <= n < |after| :: after[n] != EndVoice(id)
    ensures id in PastOf(before + after).unread
    ensures id !in Ids(SpeechSystem.RunOf(before).voices) ==> id !in Ids(SpeechSystem.RunOf(before + after).voices)
    decreases |after|
  {
    hide Record, SpeechInv, Books, SpeechSystem.RunOf, Ids, SpeechSystem.Step, VoiceDelivery.StartsOk;
    if after == [] {
      assert before + after == before;
    } else {
      var n := |after| - 1;
      var events := before + after[..n];
      assert before + after == events + [after[n]];
      forall i | 0 <= i < n ensures after[..n][i] == after[i] {}
      UnreadStays(before, after[..n], id);
      PastStep(events, after[n]);
      SpeechSystem.RunStep(events, after[n]);
      var w := BooksInv(events);
      RecordStays(SpeechSystem.RunOf(events), after[n], PastOf(events));
      UnreadIssued(events, id);
      if id !in Ids(SpeechSystem.RunOf(events).voices) { NeverVoice(SpeechSystem.RunOf(events), after[n], w, id); }
    }
  }

  lemma UnreadIssued<V, R>(events: seq<Event<V, R>>, id: int)
    requires id in PastOf(events).unread
    ensures id in SpeechSystem.RunOf(events).issued
  {
    hide SpeechSystem.RunOf, PastOf, SpeechInv, Kept, StoppedOk, VoicesOk, TextsOk, UnsentOk, VoiceDelivery.StartsOk;
    var w := BooksInv(events);
  }

  /** `cancel` meets a request that waits: it names it or all. */
  ghost predicate CancelsWaiting<V, R>(s: Speech<V, R>, c: int, id: int) {
    (c <= 0 || c == id) && (id in TextIds(s.texts) || id in NewIds(s.voices))
  }

  /**
   * A request that is cancelled while it waits is never begun on the wire and ends as CANCELLED without any other
   * result, whatever happens later; only for a voice, `end_voice` must not be called afterwards.
   */
  lemma CancelledIsCancelled<V, R>(before: seq<Event<V, R>>, c: int, after: seq<Event<V, R>>, id: int)
    requires CancelsWaiting(SpeechSystem.RunOf(before), c, id)
    requires id in NewIds(SpeechSystem.RunOf(before).voices) ==> forall n | 0 <= n < |after| :: after[n] != EndVoice(id)
    ensures var events := before + [CancelReq(c)] + after;
      var s, p := SpeechSystem.RunOf(events), PastOf(events);
      && (forall m | 0 <= m < |s.wire| && VoiceDelivery.Starts(s.wire[m]) :: s.wire[m].id != id)
      && (forall k | 0 <= k < |p.accounts| && p.accounts[k].id == id ::
            p.accounts[k].fate.WasCancelled? && !p.accounts[k].began)
  {
    hide SpeechSystem.RunOf, PastOf, SpeechInv, Books, VoiceDelivery.StartsOk, SpeechSystem.Step, NewIds, TextIds, Ids,
      VoiceDelivery.Starts;
    var mid := before + [CancelReq(c)];
    var s := SpeechSystem.RunOf(before);
    var w := BooksInv(before);
    PastStep(before, CancelReq(c));
    SpeechSystem.RunStep(before, CancelReq(c));
    WaitersUnsent(s, w, id);
    NewAreVoices(s.voices, id);
    IssuedPositive(before, id);
    CancelMarks(s, c, PastOf(before), id);
    if id !in Ids(s.voices) { NeverVoice(s, CancelReq(c), w, id); }
    UnreadStays(mid, after, id);
    CancelledUnsent(mid + after);
  }

  lemma NewAreVoices<V>(q: Streams<V>, id: int)
    ensures id in NewIds(q) ==> id in Ids(q)
  {
  }

  lemma CancelMarks<V, R>(s: Speech<V, R>, c: int, p: Past<R>, id: int)
    requires CancelsWaiting(s, c, id) && (id in TextIds(s.texts) ==> id !in Ids(s.voices)) && id > 0
    ensures id in Record(s, CancelReq(c), p).unread
  {
    hide NewIds, TextIds, Ids, Close;
    NewAreVoices(s.voices, id);
  }

  lemma {:induction false} IssuedPositive<V, R>(events: seq<Event<V, R>>, id: int)
    requires id in SpeechSystem.RunOf(events).issued
    ensures id > 0
    decreases |events|
  {
    hide SpeechSystem.Step;
    if events == [] {
    } else {
      var n := |events| - 1;
      IssuedStep(SpeechSystem.RunOf(events[..n]), events[n], id);
      if id in SpeechSystem.RunOf(events[..n]).issued { IssuedPositive(events[..n], id); }
    }
  }

  lemma IssuedStep<V, R>(s: Speech<V, R>, e: Event<V, R>, id: int)
    requires s.res.Valid() && id in SpeechSystem.Step(s, e).issued
    ensures id in s.issued || id > 0
  {
    hide Respond, CancelOp, Poll, AppendAll, MarkTexts, Front, Rest;
  }

  /** An operation that `cancel` reaches before its last result was read ends as CANCELLED, whatever happens later. */
  lemma OperationStaysCancelled<V, R>(before: seq<Event<V, R>>, i: nat, after: seq<Event<V, R>>, k: nat)
    requires i < |PastOf(before).pending|
    requires Reached(PastOf(before).accounts, SpeechSystem.RunOf(before).res.ctl.front, PastOf(before).pending[i], k)
    ensures var accounts := PastOf(before + [CancelRest(i)] + after).accounts;
      k < |accounts| && accounts[k].fate.WasCancelled?
  {
    hide PastOf, SpeechSystem.RunOf, Reached;
    PastStep(before, CancelRest(i));
    ExtensionStays(before + [CancelRest(i)], after);
    assert k < |PastOf(before).accounts| by { ReachedInList(before, i, k); }
  }

  lemma ReachedInList<V, R>(before: seq<Event<V, R>>, i: nat, k: nat)
    requires i < |PastOf(before).pending|
    requires Reached(PastOf(before).accounts, SpeechSystem.RunOf(before).res.ctl.front, PastOf(before).pending[i], k)
    ensures k < |PastOf(before).accounts|
  {
  }

  // ---------------------------------------------------------------- no request is lost

  /** The request the sender holds will become an operation, if it has none. */
  predicate HoldsNew<V>(pc: Pc<V>, id: int) {
    match pc
    case Got(req) => req.id == id && (Begins(req) || req.CancelledReq?)
    case Deciding(req, _) => req.id == id && (Begins(req) || req.CancelledReq?)
    case _ => false
  }

  ghost predicate Found<V, R>(s: Speech<V, R>) {
    forall x | x in s.issued ::
      x in TextIds(s.texts) || x in NewIds(s.voices) || HoldsNew(s.pc, x) || !NewId(x, s.res.ctl.ops)
  }

  lemma MoreFound<V, R>(s: Speech<V, R>, s': Speech<V, R>, added: set<int>)
    requires Found(s) && s'.issued <= s.issued + added && added <= TextIds(s'.texts) + NewIds(s'.voices)
    requires TextIds(s.texts) <= TextIds(s'.texts) && NewIds(s.voices) <= NewIds(s'.voices)
    requires forall x | HoldsNew(s.pc, x) :: HoldsNew(s'.pc, x)
    requires forall x | !NewId(x, s.res.ctl.ops) :: !NewId(x, s'.res.ctl.ops)
    ensures Found(s')
  {
    hide TextIds, NewIds, HoldsNew, NewId;
  }

  lemma BystanderFound<V, R>(s: Speech<V, R>, e: Event<V, R>, w: Witness<R>)
    requires SpeechInv(s, w) && s.res.Valid() && Found(s) && OncePerRequest.Bystander(s, e)
    ensures Found(SpeechSystem.Step(s, e))
  {
    hide SpeechInv, Found, TextIds, NewIds, HoldsNew, SpeechSystem.Step, NewId, SameHeads;
    var s' := SpeechSystem.Step(s, e);
    OncePerRequest.VoicesSame(s, e, w);
    OtherStepsSettle(s, e, w);
    VoiceDelivery.StillKnown(s.res.ctl.ops, s'.res.ctl.ops);
    SameNewIds(s.voices, s'.voices);
    BystanderTexts(s, e);
    MoreFound(s, s', s'.issued - s.issued);
  }

  lemma SameNewIds<V>(a: Streams<V>, b: Streams<V>)
    requires SameHeads(a, b)
    ensures NewIds(a) <= NewIds(b)
  {
  }

  lemma BystanderTexts<V, R>(s: Speech<V, R>, e: Event<V, R>)
    requires s.res.Valid() && OncePerRequest.Bystander(s, e)
    ensures var s' := SpeechSystem.Step(s, e);
      && TextIds(s.texts) <= TextIds(s'.texts) && s'.issued - s.issued <= TextIds(s'.texts)
      && forall x | HoldsNew(s.pc, x) :: HoldsNew(s'.pc, x)
  {
    hide Respond, CancelOp, Poll, AppendAll, MarkTexts;
    var s' := SpeechSystem.Step(s, e);
    forall i | 0 <= i < |s.texts| ensures s.texts[i].id in TextIds(s'.texts) {
      assert s'.texts[i].id in TextIds(s'.texts);
    }
    if e.PutText? && e.id > 0 && e.id !in s.issued { assert s'.texts[|s.texts|].id in TextIds(s'.texts); }
  }

  lemma StartVoiceFound<V, R>(s: Speech<V, R>, id: int)
    requires s.res.Valid() && Found(s) && id !in Ids(s.voices)
    ensures Found(s.(issued := s.issued + {id}, voices := Begin(s.voices, id)))
  {
    hide Found, NewId, HoldsNew;
    InIds(s.voices, id);
    var s' := s.(issued := s.issued + {id}, voices := Begin(s.voices, id));
    assert s'.voices == s.voices + [Stream(id, false, Open, 0, [], None)];
    assert s'.voices[|s.voices|].id in NewIds(s'.voices);
    forall x | x in NewIds(s.voices) ensures x in NewIds(s'.voices) {
      var j :| 0 <= j < |s.voices| && !s.voices[j].polling && s.voices[j].id == x;
      assert s'.voices[j] == s.voices[j];
    }
    MoreFound(s, s', {id});
  }

  /** What is popped unread is held, as to be begun or as cancelled. */
  lemma PopFound<V, R>(s: Speech<V, R>, p: Past<R>)
    requires s.res.Valid() && Found(s) && s.pc.Top? && !Front(s.voices).Empty?
    requires VoicesOk(s.voices, p.closings, p.unread)
    ensures Found(SenderMoves(s))
  {
    EmptyPopsNothing(s.voices);
    var q, s' := s.voices, SenderMoves(s);
    forall x | x in NewIds(q) ensures x in NewIds(s'.voices) || HoldsNew(s'.pc, x) {
      var j :| 0 <= j < |q| && !q[j].polling && q[j].id == x;
      if j > 0 {
        if |s'.voices| == |q| { assert s'.voices[j] == q[j]; } else { assert s'.voices[j - 1] == q[j]; }
      }
    }
  }

  lemma TextFound<V, R>(s: Speech<V, R>)
    requires s.res.Valid() && Found(s) && s.pc.TextDecide?
    ensures Found(SenderMoves(s))
  {
    var s' := SenderMoves(s);
    forall x | x in TextIds(s.texts) ensures x in TextIds(s'.texts) || HoldsNew(s'.pc, x) {
      var i :| 0 <= i < |s.texts| && s.texts[i].id == x;
      if |s'.texts| < |s.texts| && i > 0 { assert s'.texts[i - 1] == s.texts[i]; }
    }
  }

  lemma DecideFound<V, R>(s: Speech<V, R>, w: Witness<R>)
    requires SpeechInv(s, w) && Found(s) && s.pc.Deciding?
    ensures s.res.Valid() && Found(Decide(s))
  {
    hide Inv, Heard, IdsOk, ReqTaken, TextIds, NewIds;
    ConcernsNew(s, w);
    KnownStays(s, w);
    var ops', id := Decide(s).res.ctl.ops, s.pc.req.id;
    if |ops'| > |s.res.ctl.ops| { assert ops'[|s.res.ctl.ops|].id == id; }
  }

  lemma StepFound<V, R>(s: Speech<V, R>, e: Event<V, R>, w: Witness<R>, p: Past<R>)
    requires BooksOf(s, w, p) && s.res.Valid() && Found(s)
    ensures Found(SpeechSystem.Step(s, e))
  {
    hide SpeechInv, Found, Kept, StoppedOk, VoicesOk, TextsOk, UnsentOk, VoiceDelivery.StartsOk, Decide, Rest, Begin;
    if OncePerRequest.Bystander(s, e) {
      BystanderFound(s, e, w);
    } else if e.StartVoice? {
      VoiceIdsIssued(s, w);
      if e.id > 0 && e.id !in s.issued { StartVoiceFound(s, e.id); }
    } else if s.pc.Deciding? {
      DecideFound(s, w);
    } else if s.pc.TextDecide? {
      TextFound(s);
    } else if !Front(s.voices).Empty? {
      PopFound(s, p);
    } else {
      PeekFound(s);
    }
  }

  lemma PeekFound<V, R>(s: Speech<V, R>)
    requires s.res.Valid() && Found(s) && s.pc.Top? && Front(s.voices).Empty?
    ensures Found(SenderMoves(s))
  {
  }

  /**
   * No request is lost: each id that was handed out is that of a text or voice that waits, or held by the sender, or
   * that of an operation, which gets its last result.
   */
  lemma {:induction false} NothingLost<V, R>(events: seq<Event<V, R>>)
    ensures Found(SpeechSystem.RunOf(events))
    decreases |events|
  {
    hide BooksOf, Found, SpeechSystem.Step;
    if events == [] {
      NothingIssued<V, R>();
    } else {
      var n := |events| - 1;
      NothingLost(events[..n]);
      var w := BooksInv(events[..n]);
      StepFound(SpeechSystem.RunOf(events[..n]), events[n], w, PastOf(events[..n]));
    }
  }

  lemma NothingIssued<V, R>()
    ensures Found<V, R>(Init())
  {
  }

  /** With no voice to read and nothing in progress, the sender takes the oldest text in three steps. */
  lemma SenderTakesText<V, R>(events: seq<Event<V, R>>)
    ensures var s, p := SpeechSystem.RunOf(events), PastOf(events);
      s.pc.Top? && Front(s.voices).Empty? && s.res.ctl.current.NoOp? && s.texts != [] ==>
        var id := s.texts[0].id;
        SpeechSystem.RunOf(events + [SenderStep] + [SenderStep] + [SenderStep]) ==
          s.(texts := s.texts[1..], pc := Got(if id in p.unread then CancelledReq(id) else Text(id)))
  {
    hide SpeechSystem.RunOf, PastOf, SpeechInv, Kept, StoppedOk, VoicesOk, UnsentOk, VoiceDelivery.StartsOk, Front;
    var w := BooksInv(events);
    SpeechSystem.RunStep(events, SenderStep);
    SpeechSystem.RunStep(events + [SenderStep], SenderStep);
    SpeechSystem.RunStep(events + [SenderStep] + [SenderStep], SenderStep);
  }

  // ---------------------------------------------------------------- a cancelled voice that is sent

  /** A voice is started, cancelled, then ended, and the sender goes on. */
  const ENDED_AFTER_CANCEL: seq<Event<int, int>> :=
    [StartVoice(1)] + [CancelReq(1)] + [EndVoice(1)] + [SenderStep] + [SenderStep] + [SenderStep] + [SendOk]

  function VoiceState(pc: Pc<int>, polling: bool, wire: seq<Frame<int>>, ops: seq<Op>, current: Current)
    : Speech<int, int>
  {
    Speech({1}, [], [Stream(1, polling, Completed, 0, [], None)], [], pc, GenIdle, wire,
           State(Ctl(ops, 0, current), seq(|ops|, i => History(false, [], None)), [], []))
  }

  lemma EndedSteps()
    ensures SpeechSystem.Step(SpeechSystem.Step(SpeechSystem.Step<int, int>(Init(), StartVoice(1)), CancelReq(1)),
                              EndVoice(1)) == VoiceState(Top, false, [], [], NoOp)
    ensures SenderMoves(VoiceState(Top, false, [], [], NoOp)) == VoiceState(Got(VoiceStart(1)), true, [], [], NoOp)
    ensures SenderMoves(VoiceState(Got(VoiceStart(1)), true, [], [], NoOp))
         == VoiceState(Deciding(VoiceStart(1), NoOp), true, [], [], NoOp)
  {
  }

  lemma EndedSent()
    ensures var op := Op(1, Starting, 0);
      && SenderMoves(VoiceState(Deciding(VoiceStart(1), NoOp), true, [], [], NoOp))
        == VoiceState(Sending(VoiceStart(1)), true, [], [op], At(0))
      && SpeechSystem.Step(VoiceState(Sending(VoiceStart(1)), true, [], [op], At(0)), SendOk).wire == [StartFrame(1)]
  {
  }

  /** `end_voice` after `cancel` undoes the cancellation of a voice that still waits: it is begun on the wire. */
  lemma EndUndoesCancel()
    ensures SpeechSystem.RunOf(ENDED_AFTER_CANCEL).wire == [StartFrame(1)]
  {
    hide SpeechSystem.RunOf, VoiceState, SenderMoves;
    EndedSteps();
    EndedSent();
    OncePerRequest.NoEvents<int, int>();
    var e0: seq<Event<int, int>> := [];
    var e1 := e0 + [StartVoice(1)];
    assert e1 == [StartVoice(1)];
    SpeechSystem.RunStep(e0, StartVoice(1));
    SpeechSystem.RunStep(e1, CancelReq(1));
    var e3 := e1 + [CancelReq(1)] + [EndVoice(1)];
    SpeechSystem.RunStep(e1 + [CancelReq(1)], EndVoice(1));
    SpeechSystem.RunStep(e3, SenderStep);
    SpeechSystem.RunStep(e3 + [SenderStep], SenderStep);
    SpeechSystem.RunStep(e3 + [SenderStep] + [SenderStep], SenderStep);
    SpeechSystem.RunStep(e3 + [SenderStep] + [SenderStep] + [SenderStep], SendOk);
  }
}
