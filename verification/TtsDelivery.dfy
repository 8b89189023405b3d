/** What a caller of `TtsImpl` gets for each request, against what happened to it: exactly once, and no more. */
module TtsDelivery {
  import opened StreamSpec
  import opened OpSpec
  import opened Results
  import opened Accounts
  import opened TtsSystem

  /** The accounts of the operations, the ids cancelled while they waited, and the ids sent to the server, in order. */
  datatype Past<+T> = Past(accounts: Accounts<T>, stopped: set<int>, sent: seq<int>)

  /** Spoken and not yet taken by the sender. */
  predicate Waiting<T>(s: Tts<T>, id: int) {
    |s.res.ctl.ops| < id <= s.lastId
  }

  ghost function Record<T>(s: Tts<T>, e: TtsSystem.Event<T>, p: Past<T>): Past<T> {
    match e
    case CancelReq(id) =>
      var stopped := p.stopped +
        set x | |s.res.ctl.ops| < x <= s.lastId && Waiting(s, x) && (id <= 0 || x == id);
      if Waiting(s, id) then p.(stopped := stopped)
      else p.(stopped := stopped, accounts := Stopped(p.accounts, s.res.ctl.front, if id <= 0 then 0 else id))
    case Take =>
      var id := |s.res.ctl.ops| + 1;
      if s.sender.Idle? && Waiting(s, id) then p.(accounts := p.accounts + [Opening(id, id in p.stopped)]) else p
    case SendOk => if s.sender.Sending? then p.(sent := p.sent + [s.sender.id]) else p
    case SendFailed(err) => if s.sender.Sending? then p.(accounts := Broken(p.accounts, err)) else p
    case Response(id, voice, finish) =>
      var items := if voice.Some? then [voice.value] else [];
      p.(accounts := Answered(p.accounts, id, items, if finish then Done(None) else Going))
    case RecvFailed(err) => p.(accounts := Broken(p.accounts, err))
    case _ => p
  }

  ghost function PastOf<T>(events: seq<TtsSystem.Event<T>>): Past<T> {
    if events == [] then Past([], {}, [])
    else
      var n := |events| - 1;
      Record(TtsSystem.RunOf(events[..n]), events[n], PastOf(events[..n]))
  }

  // ---------------------------------------------------------------- the invariant

  ghost predicate Increasing(ids: seq<int>) {
    forall i, j | 0 <= i < j < |ids| :: ids[i] < ids[j]
  }

  ghost predicate Books<T>(s: Tts<T>, p: Past<T>) {
    && Kept(s.res, p.accounts) && StoppedOk(p.accounts, p.stopped)
    && (forall i | 0 <= i < |s.requests| :: s.requests[i].deleted <==> s.requests[i].id in p.stopped)
    && (forall x | x in p.stopped :: 1 <= x <= s.lastId)
    && (!s.sender.Idle? ==> s.sender.id !in p.stopped)
    && Increasing(p.sent) && (forall i | 0 <= i < |p.sent| :: 1 <= p.sent[i] <= |s.res.ctl.ops|)
    && (forall i | 0 <= i < |p.sent| :: p.sent[i] !in p.stopped)
    && (s.sender.Sending? ==> forall i | 0 <= i < |p.sent| :: p.sent[i] < s.sender.id)
  }

  lemma InitBooks<T>()
    ensures Books<T>(Init(), Past([], {}, []))
  {
    InitKept<T>();
  }

  lemma IdsAre<T>(s: Tts<T>, w: Witness<T>, p: Past<T>)
    requires TtsInv(s, w) && Books(s, p)
    ensures |p.accounts| == |s.res.ctl.ops| && s.lastId == |s.res.ctl.ops| + |s.requests| && s.res.Valid()
    ensures forall k | 0 <= k < |p.accounts| :: p.accounts[k].id == k + 1
    ensures forall i | 0 <= i < |s.requests| :: s.requests[i].id == |s.res.ctl.ops| + i + 1
    ensures s.sender.Sending? || s.sender.Sent? ==> s.sender.id == |s.res.ctl.ops|
  {
    hide Inv, NoFailedTags, Verdicts, TagOk;
    forall k | 0 <= k < |p.accounts| ensures p.accounts[k].id == k + 1 {
      assert Facts(s.res.ctl.ops[k], s.res.hist[k], p.accounts[k]);
    }
  }

  lemma CancelBooks<T>(s: Tts<T>, w: Witness<T>, p: Past<T>, id: int)
    requires TtsInv(s, w) && Books(s, p)
    ensures Books(TtsSystem.Step(s, CancelReq(id)), Record(s, CancelReq(id), p))
  {
    hide Inv, NoFailedTags, Verdicts, TagOk, Reached, Kept, CancelOp, StaysCancelled;
    IdsAre(s, w, p);
    var at := if id <= 0 then 0 else id;
    CancelKept(s.res, p.accounts, at);
    CancelSettles(s.res.ctl, at);
    StoppedStays(p.accounts, s.res.ctl.front, at, 0);
    StaysStopped(p.accounts, Stopped(p.accounts, s.res.ctl.front, at), p.stopped);
    assert Waiting(s, id) <==> id > 0 && exists i | 0 <= i < |s.requests| :: Matches(s.requests[i], id) by {
      if Waiting(s, id) { assert s.requests[id - |s.res.ctl.ops| - 1].id == id; }
    }
  }

  lemma TakeBooks<T>(s: Tts<T>, w: Witness<T>, p: Past<T>)
    requires TtsInv(s, w) && Books(s, p)
    ensures Books(TtsSystem.Step(s, Take), Record(s, Take, p))
  {
    hide Inv, NoFailedTags, Verdicts, TagOk, Kept;
    IdsAre(s, w, p);
    if s.sender.Idle? && s.requests != [] {
      var q := s.requests[0];
      CreateKept(s.res, p.accounts, q.id, if q.deleted then Cancelled else Starting);
    }
  }

  lemma SendBooks<T>(s: Tts<T>, w: Witness<T>, p: Past<T>, err: nat)
    requires TtsInv(s, w) && Books(s, p)
    ensures Books(TtsSystem.Step(s, SendOk), Record(s, SendOk, p))
    ensures Books(TtsSystem.Step(s, SendFailed(err)), Record(s, SendFailed(err), p))
    ensures Books(TtsSystem.Step(s, RecvFailed(err)), Record(s, RecvFailed(err), p))
  {
    hide Inv, NoFailedTags, Verdicts, TagOk, Kept, StaysCancelled;
    IdsAre(s, w, p);
    TtsRes(s, w);
    FailKept(s.res, w, p.accounts, err);
    BrokenStays(p.accounts, err);
    StaysStopped(p.accounts, Broken(p.accounts, err), p.stopped);
  }

  lemma TtsRes<T>(s: Tts<T>, w: Witness<T>)
    requires TtsInv(s, w)
    ensures Inv(s.res, w) && s.res.Valid()
  {
  }

  lemma ResponseBooks<T>(s: Tts<T>, w: Witness<T>, p: Past<T>, id: int, voice: Option<T>, finish: bool)
    requires TtsInv(s, w) && Books(s, p)
    ensures Books(TtsSystem.Step(s, Response(id, voice, finish)), Record(s, Response(id, voice, finish), p))
  {
    hide Inv, NoFailedTags, Verdicts, TagOk, Kept, StaysCancelled, Respond;
    IdsAre(s, w, p);
    TtsRes(s, w);
    var items, fin := if voice.Some? then [voice.value] else [], if finish then Done(None) else Going;
    RespondKept(s.res, w, p.accounts, id, items, fin);
    RespondSettles(s.res, id, items, fin);
    AnsweredStays(p.accounts, id, items, fin);
    StaysStopped(p.accounts, Answered(p.accounts, id, items, fin), p.stopped);
  }

  lemma PollBooks<T>(s: Tts<T>, w: Witness<T>, p: Past<T>)
    requires TtsInv(s, w) && Books(s, p)
    ensures Books(TtsSystem.Step(s, PollResult), p)
  {
    hide Inv, NoFailedTags, Verdicts, TagOk, Kept, Next, TagsAfterPoll;
    TtsRes(s, w);
    PollKept(s.res, w, p.accounts);
  }

  lemma StepBooks<T>(s: Tts<T>, e: TtsSystem.Event<T>, w: Witness<T>, p: Past<T>)
    requires TtsInv(s, w) && Books(s, p)
    ensures s.res.Valid() && Books(TtsSystem.Step(s, e), Record(s, e, p))
  {
    hide Inv, NoFailedTags, Kept, StoppedOk;
    TtsRes(s, w);
    match e
    case Speak =>
    case CancelReq(id) => CancelBooks(s, w, p, id);
    case Take => TakeBooks(s, w, p);
    case SendOk => SendBooks(s, w, p, 0);
    case SendFailed(err) => SendBooks(s, w, p, err);
    case WaitOp =>
    case Response(id, voice, finish) => ResponseBooks(s, w, p, id, voice, finish);
    case RecvFailed(err) => SendBooks(s, w, p, err);
    case PollResult => PollBooks(s, w, p);
  }

  lemma {:induction false} BooksInv<T>(events: seq<TtsSystem.Event<T>>) returns (w: Witness<T>)
    ensures TtsInv(TtsSystem.RunOf(events), w) && Books(TtsSystem.RunOf(events), PastOf(events))
    decreases |events|
  {
    hide TtsInv, Books, TtsSystem.Step, Record;
    if events == [] {
      InitOk<T>();
      InitBooks<T>();
      w := Witness([], []);
    } else {
      var n := |events| - 1;
      w := BooksInv(events[..n]);
      StepBooks(TtsSystem.RunOf(events[..n]), events[n], w, PastOf(events[..n]));
      w := TtsSystem.StepKeeps(TtsSystem.RunOf(events[..n]), events[n], w);
    }
  }

  // ---------------------------------------------------------------- what holds in every run

  /**
   * Exactly-once delivery: the last results come in speak order, one for each of the first ids, and are what ended
   * those requests; the log is one block per operation with exactly what the server sent for it, as far as it was
   * read. The next operation is being read, and what `poll` returns next is the next thing owed for it.
   */
  lemma ExactlyOnce<T>(events: seq<TtsSystem.Event<T>>) returns (blocks: seq<seq<Popped<T>>>)
    ensures var r, accounts := TtsSystem.RunOf(events).res, PastOf(events).accounts;
      var told := r.ctl.front;
      && |Verdicts(r.log)| == told <= |accounts| <= TtsSystem.RunOf(events).lastId
      && (forall k | 0 <= k < |accounts| :: accounts[k].id == k + 1)
      && (forall k | 0 <= k < told :: !accounts[k].fate.Undecided? && Verdicts(r.log)[k] == Verdict(accounts[k]))
      && Flat(blocks) == r.log && |blocks| == |accounts|
      && (forall k | 0 <= k < told :: Settles(blocks[k], accounts[k]))
      && (told < |accounts| ==> Pays(blocks[told], accounts[told]) && NextOwed(Next(r), blocks[told], accounts[told]))
      && (told == |accounts| ==> Next(r).Empty?)
      && (forall k | told < k < |accounts| :: blocks[k] == [])
  {
    hide TtsSystem.RunOf, PastOf, Inv, Verdicts, TagOk, Settles, Pays, NextOwed, Verdict, StoppedOk, NoFailedTags;
    var w := BooksInv(events);
    blocks := w.blocks;
    var s, p := TtsSystem.RunOf(events), PastOf(events);
    IdsAre(s, w, p);
    BlocksSettle(s.res, w, p.accounts);
  }

  /** Requests are sent to the server in speak order, each at most once, and none that was cancelled while it waited. */
  lemma SentInOrder<T>(events: seq<TtsSystem.Event<T>>)
    ensures Increasing(PastOf(events).sent)
    ensures forall x | x in PastOf(events).sent ::
              1 <= x <= |TtsSystem.RunOf(events).res.ctl.ops| && x !in PastOf(events).stopped
  {
    hide TtsSystem.RunOf, PastOf, TtsInv, Kept;
    var w := BooksInv(events);
  }

  lemma RunStep<T>(events: seq<TtsSystem.Event<T>>, e: TtsSystem.Event<T>)
    ensures TtsSystem.RunOf(events + [e]) == TtsSystem.Step(TtsSystem.RunOf(events), e)
    ensures PastOf(events + [e]) == Record(TtsSystem.RunOf(events), e, PastOf(events))
  {
    assert (events + [e])[..|events|] == events;
  }

  lemma RecordStays<T>(s: Tts<T>, e: TtsSystem.Event<T>, p: Past<T>)
    ensures p.stopped <= Record(s, e, p).stopped && StaysCancelled(p.accounts, Record(s, e, p).accounts)
  {
    hide Reached, StaysCancelled;
    SameStays(p.accounts);
    match e
    case CancelReq(id) => StoppedStays(p.accounts, s.res.ctl.front, if id <= 0 then 0 else id, 0);
    case Take => MoreStays(p.accounts, Opening(|s.res.ctl.ops| + 1, |s.res.ctl.ops| + 1 in p.stopped));
    case SendFailed(err) => BrokenStays(p.accounts, err);
    case RecvFailed(err) => BrokenStays(p.accounts, err);
    case Response(id, voice, finish) =>
      AnsweredStays(p.accounts, id, if voice.Some? then [voice.value] else [], if finish then Done(None) else Going);
    case _ =>
  }

  lemma {:induction false} ExtensionStays<T>(before: seq<TtsSystem.Event<T>>, after: seq<TtsSystem.Event<T>>)
    ensures PastOf(before).stopped <= PastOf(before + after).stopped
    ensures StaysCancelled(PastOf(before).accounts, PastOf(before + after).accounts)
    decreases |after|
  {
    hide Record, StaysCancelled, TtsSystem.RunOf;
    if after == [] {
      assert before + after == before;
      SameStays(PastOf(before).accounts);
    } else {
      var n := |after| - 1;
      var events := before + after[..n];
      assert before + after == events + [after[n]];
      ExtensionStays(before, after[..n]);
      RunStep(events, after[n]);
      RecordStays(TtsSystem.RunOf(events), after[n], PastOf(events));
      StaysTwice(PastOf(before).accounts, PastOf(events).accounts, PastOf(before + after).accounts);
    }
  }

  /** `cancel` reaches request `id`: it names it or all, and the last result of the request was not read yet. */
  predicate Cancels<T>(s: Tts<T>, c: int, id: int) {
    (c <= 0 || c == id) && s.res.ctl.front < id <= s.lastId
  }

  /**
   * A request that is cancelled before its last result was read ends as CANCELLED, whatever happens later. If it was
   * still waiting, the server never hears of it, and CANCELLED is its only result.
   */
  lemma CancelledIsCancelled<T>(before: seq<TtsSystem.Event<T>>, c: int, after: seq<TtsSystem.Event<T>>, id: int)
    requires Cancels(TtsSystem.RunOf(before), c, id)
    ensures var events := before + [CancelReq(c)] + after;
      var s, p := TtsSystem.RunOf(events), PastOf(events);
      && (id <= |p.accounts| ==> p.accounts[id - 1].id == id && p.accounts[id - 1].fate.WasCancelled?)
      && (Waiting(TtsSystem.RunOf(before), id) ==>
            && id !in p.sent && (s.sender.Sending? ==> s.sender.id != id)
            && (id <= |p.accounts| ==> !p.accounts[id - 1].began))
  {
    hide TtsSystem.RunOf, PastOf, Inv, Verdicts, TagOk, Kept, NoFailedTags, TtsSystem.Step;
    var mid := before + [CancelReq(c)];
    var w0 := BooksInv(before);
    var w := BooksInv(mid + after);
    var s0, p0 := TtsSystem.RunOf(before), PastOf(before);
    RunStep(before, CancelReq(c));
    ExtensionStays(mid, after);
    IdsAre(s0, w0, p0);
    IdsAre(TtsSystem.RunOf(mid + after), w, PastOf(mid + after));
    CancelRecords(s0, p0, c, id);
  }

  lemma CancelRecords<T>(s: Tts<T>, p: Past<T>, c: int, id: int)
    requires Cancels(s, c, id) && |p.accounts| == |s.res.ctl.ops| <= s.lastId
    requires forall k | 0 <= k < |p.accounts| :: p.accounts[k].id == k + 1
    ensures var p' := Record(s, CancelReq(c), p);
      if Waiting(s, id) then id in p'.stopped
      else id <= |p'.accounts| && p'.accounts[id - 1].fate.WasCancelled?
  {
    if !Waiting(s, id) {
      var at := if c <= 0 then 0 else c;
      assert Reached(p.accounts, s.res.ctl.front, at, id - 1);
    }
  }
}
