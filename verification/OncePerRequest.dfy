/** When a speech request is reported more than once: it was cancelled while the sender was reading it. */
module OncePerRequest {
  import opened StreamSpec
  import opened OpSpec
  import opened Results
  import opened SpeechSystem

  ghost predicate DistinctIds(ops: seq<Op>) {
    forall i, k | 0 <= i < k < |ops| :: ops[i].id != ops[k].id
  }

  /** The sender pops the START of a voice. */
  predicate PopsStart<V, R>(s: Speech<V, R>, e: Event<V, R>) {
    e.SenderStep? && s.pc.Top? && Front(s.voices).Start?
  }

  /** The voices whose START the sender has popped. */
  function Started<V, R>(events: seq<Event<V, R>>): set<int> {
    if events == [] then {}
    else
      var n := |events| - 1;
      var s := SpeechSystem.RunOf(events[..n]);
      if PopsStart(s, events[n]) then Started(events[..n]) + {Front(s.voices).id} else Started(events[..n])
  }

  /** In step `n` the sender decides, with nothing in progress, on a cancelled voice that it had started to read. */
  predicate CancelledWhileRead<V, R>(events: seq<Event<V, R>>, n: nat)
    requires n < |events|
  {
    var s := SpeechSystem.RunOf(events[..n]);
    && events[n].SenderStep? && s.pc.Deciding? && s.pc.req.CancelledReq? && s.pc.seen.NoOp?
    && s.pc.req.id in Started(events[..n])
  }

  // ---------------------------------------------------------------- what the started ids are

  /** The request the sender has taken and not yet decided on. */
  predicate Holds<V>(pc: Pc<V>, id: int) {
    match pc
    case Got(req) => req.id == id
    case Deciding(req, _) => req.id == id
    case _ => false
  }

  predicate HoldsStart<V>(pc: Pc<V>, id: int) {
    match pc
    case Got(req) => req == VoiceStart(id)
    case Deciding(req, _) => req == VoiceStart(id)
    case _ => false
  }

  ghost predicate InNoVoice<V>(id: int, voices: Streams<V>) {
    forall j | 0 <= j < |voices| :: voices[j].id != id
  }

  ghost predicate StartedOk<V>(started: set<int>, voices: Streams<V>, ops: seq<Op>, pc: Pc<V>) {
    && (forall x | x in started :: !NewId(x, ops) || HoldsStart(pc, x))
    && (forall k | 0 <= k < |ops| && ops[k].id !in started :: InNoVoice(ops[k].id, voices) && !Holds(pc, ops[k].id))
    && (forall j | 0 <= j < |voices| && voices[j].polling :: voices[j].id in started)
    && (forall x | x !in started && Holds(pc, x) :: InNoVoice(x, voices))
  }

  /** Changes of the voice queue that keep who waits, changes of statuses, and moves that drop nothing held. */
  ghost predicate Quiet<V, R>(s: Speech<V, R>, s': Speech<V, R>) {
    && |s'.voices| == |s.voices|
    && (forall j | 0 <= j < |s.voices| ::
          s'.voices[j].id == s.voices[j].id && s'.voices[j].polling == s.voices[j].polling)
    && |s'.res.ctl.ops| == |s.res.ctl.ops|
    && (forall k | 0 <= k < |s.res.ctl.ops| :: s'.res.ctl.ops[k].id == s.res.ctl.ops[k].id)
    && (forall x :: Holds(s'.pc, x) == Holds(s.pc, x) && HoldsStart(s'.pc, x) == HoldsStart(s.pc, x))
  }

  lemma QuietKeeps<V, R>(s: Speech<V, R>, s': Speech<V, R>, started: set<int>)
    requires StartedOk(started, s.voices, s.res.ctl.ops, s.pc) && Quiet(s, s')
    ensures StartedOk(started, s'.voices, s'.res.ctl.ops, s'.pc)
  {
    forall x | NewId(x, s'.res.ctl.ops) ensures NewId(x, s.res.ctl.ops) {
      forall k | 0 <= k < |s.res.ctl.ops| ensures s.res.ctl.ops[k].id != x {
        assert s'.res.ctl.ops[k].id != x;
      }
    }
  }

  /** A step of anyone but the sender, a send, or a look at the current operation. */
  predicate Bystander<V, R>(s: Speech<V, R>, e: Event<V, R>) {
    !e.StartVoice? && (e.SenderStep? ==> s.pc.Got? || s.pc.TextPeek? || s.pc.Check? || s.pc.Sending? || s.pc.Blocked?)
  }

  lemma VoicesSame<V, R>(s: Speech<V, R>, e: Event<V, R>, w: Witness<R>)
    requires SpeechInv(s, w) && s.res.Valid() && Bystander(s, e)
    ensures SameHeads(s.voices, SpeechSystem.Step(s, e).voices)
  {
    hide Inv, Heard, PcOk, ReqTaken, Respond, CancelOp, Poll;
    SameHeadsRefl(s.voices);
    match e
    case PutVoice(id, fragments) => AppendAllHeads(s.voices, id, fragments);
    case EndVoice(id) => CompleteHeads(s.voices, id, None);
    case CancelReq(id) =>
      EraseHeads(s.voices, id, 0);
      ClearHeads(s.voices);
    case SendFailed(err) =>
      if s.pc.Sending? { EraseHeads(s.voices, s.pc.req.id, SPEECH_TIMEOUT); }
    case GenErase =>
      if s.gen.MustErase? { EraseHeads(s.voices, s.gen.id, SPEECH_TIMEOUT); }
    case _ =>
  }

  lemma BystanderQuiet<V, R>(s: Speech<V, R>, e: Event<V, R>, w: Witness<R>)
    requires SpeechInv(s, w) && s.res.Valid() && Bystander(s, e)
    ensures Quiet(s, SpeechSystem.Step(s, e))
  {
    hide SpeechInv, SpeechSystem.Step, Holds, HoldsStart, SameHeads;
    VoicesSame(s, e, w);
    OtherStepsSettle(s, e, w);
    HoldsSame(s, e);
    SameHeadsFacts(s.voices, SpeechSystem.Step(s, e).voices);
  }

  lemma SameHeadsFacts<V>(a: Streams<V>, b: Streams<V>)
    requires SameHeads(a, b)
    ensures |a| == |b| && forall j | 0 <= j < |a| :: b[j].id == a[j].id && b[j].polling == a[j].polling
  {
  }

  lemma HoldsSame<V, R>(s: Speech<V, R>, e: Event<V, R>)
    requires s.res.Valid() && Bystander(s, e)
    ensures var pc' := SpeechSystem.Step(s, e).pc;
      forall x :: Holds(pc', x) == Holds(s.pc, x) && HoldsStart(pc', x) == HoldsStart(s.pc, x)
  {
    hide Respond, CancelOp, Poll, AppendAll, MarkTexts;
  }

  // ---------------------------------------------------------------- the sender's steps

  lemma StartVoiceStarted<V, R>(s: Speech<V, R>, w: Witness<R>, started: set<int>, id: int)
    requires SpeechInv(s, w) && s.res.Valid() && StartedOk(started, s.voices, s.res.ctl.ops, s.pc)
    ensures var s' := SpeechSystem.Step(s, StartVoice(id)); StartedOk(started, s'.voices, s'.res.ctl.ops, s'.pc)
  {
    hide Inv, Heard, PcOk, WellFormed;
    if id > 0 && id !in s.issued {
      HeldIssued(s, w);
      assert forall k | 0 <= k < |s.res.ctl.ops| :: s.res.ctl.ops[k].id in s.issued;
    }
  }

  lemma HeldIssued<V, R>(s: Speech<V, R>, w: Witness<R>)
    requires SpeechInv(s, w)
    ensures forall x | Holds(s.pc, x) :: Taken(x, s.issued, s.texts, s.voices)
  {
  }

  lemma PopStarted<V, R>(s: Speech<V, R>, w: Witness<R>, started: set<int>)
    requires SpeechInv(s, w) && s.res.Valid() && StartedOk(started, s.voices, s.res.ctl.ops, s.pc)
    requires s.pc.Top? && !Front(s.voices).Empty?
    ensures var s' := SenderMoves(s);
      StartedOk(if Front(s.voices).Start? then started + {Front(s.voices).id} else started,
                s'.voices, s'.res.ctl.ops, s'.pc)
  {
    hide Inv, Heard, PcOk, ReqTaken, WellFormed, Front, Rest;
    EmptyPopsNothing(s.voices);
    PopsFront(s.voices);
    PopLeaves(s.voices);
    VoicesWellFormed(s, w);
    HeadsDistinct(s.voices);
    SameReqId(Front(s.voices));
    PopIds(s.issued, s.texts, s.voices, s.res.ctl.ops);
  }

  lemma TextStarted<V, R>(s: Speech<V, R>, w: Witness<R>, started: set<int>)
    requires SpeechInv(s, w) && s.res.Valid() && StartedOk(started, s.voices, s.res.ctl.ops, s.pc) && s.pc.TextDecide?
    ensures var s' := SenderMoves(s); StartedOk(started, s'.voices, s'.res.ctl.ops, s'.pc)
  {
    hide Inv, Heard, PcOk, ReqTaken, WellFormed;
  }

  lemma DecideStarted<V, R>(s: Speech<V, R>, w: Witness<R>, started: set<int>)
    requires SpeechInv(s, w) && s.res.Valid() && StartedOk(started, s.voices, s.res.ctl.ops, s.pc) && s.pc.Deciding?
    ensures StartedOk(started, Decide(s).voices, Decide(s).res.ctl.ops, Decide(s).pc)
  {
    hide Inv, Heard, PcOk, ReqTaken, IdsOk;
    var ops, ops', id := s.res.ctl.ops, Decide(s).res.ctl.ops, s.pc.req.id;
    DecideOps(s, w);
    forall x | x in started ensures !NewId(x, ops') {
      if !NewId(x, ops) {
        var k :| 0 <= k < |ops| && ops[k].id == x;
        assert ops'[k].id == x;
      } else {
        assert ops'[|ops|].id == x;
      }
    }
    assert Holds(s.pc, id);
  }

  lemma DecideOps<V, R>(s: Speech<V, R>, w: Witness<R>)
    requires SpeechInv(s, w) && s.res.Valid() && s.pc.Deciding?
    ensures var ops, ops' := s.res.ctl.ops, Decide(s).res.ctl.ops;
      && |ops| <= |ops'| <= |ops| + 1
      && (forall k | 0 <= k < |ops| :: ops'[k].id == ops[k].id)
      && (|ops'| > |ops| <==> Begins(s.pc.req) || (s.pc.req.CancelledReq? && s.pc.seen.NoOp?))
      && (|ops'| > |ops| ==> ops'[|ops|].id == s.pc.req.id)
      && Decide(s).voices == s.voices && forall x :: !Holds(Decide(s).pc, x)
  {
    hide Inv, Heard, IdsOk, ReqTaken;
  }

  lemma StepStarted<V, R>(s: Speech<V, R>, w: Witness<R>, started: set<int>, e: Event<V, R>)
    requires SpeechInv(s, w) && s.res.Valid() && StartedOk(started, s.voices, s.res.ctl.ops, s.pc)
    ensures var s' := SpeechSystem.Step(s, e);
      StartedOk(if PopsStart(s, e) then started + {Front(s.voices).id} else started, s'.voices, s'.res.ctl.ops, s'.pc)
  {
    hide SpeechInv, StartedOk, Quiet, Front, Rest, Decide;
    if Bystander(s, e) {
      BystanderQuiet(s, e, w);
      QuietKeeps(s, SpeechSystem.Step(s, e), started);
    } else if e.StartVoice? {
      StartVoiceStarted(s, w, started, e.id);
    } else if s.pc.Deciding? {
      DecideStarted(s, w, started);
    } else if s.pc.TextDecide? {
      TextStarted(s, w, started);
    } else if !Front(s.voices).Empty? {
      PopStarted(s, w, started);
    } else {
      IdleStarted(s, started);
    }
  }

  lemma IdleStarted<V, R>(s: Speech<V, R>, started: set<int>)
    requires s.res.Valid() && StartedOk(started, s.voices, s.res.ctl.ops, s.pc) && s.pc.Top? && Front(s.voices).Empty?
    ensures var s' := SenderMoves(s); StartedOk(started, s'.voices, s'.res.ctl.ops, s'.pc)
  {
  }

  lemma {:induction false} StartedInv<V, R>(events: seq<Event<V, R>>) returns (w: Witness<R>)
    ensures var s := SpeechSystem.RunOf(events);
      SpeechInv(s, w) && StartedOk(Started(events), s.voices, s.res.ctl.ops, s.pc)
    decreases |events|
  {
    hide SpeechInv, StartedOk, SpeechSystem.Step, PopsStart;
    if events == [] {
      InitOk<V, R>();
      w := Witness([], []);
      NothingStarted<V, R>();
    } else {
      var n := |events| - 1;
      w := StartedInv(events[..n]);
      StepStarted(SpeechSystem.RunOf(events[..n]), w, Started(events[..n]), events[n]);
      w := StepKeeps(SpeechSystem.RunOf(events[..n]), events[n], w);
    }
  }

  lemma NothingStarted<V, R>()
    ensures var s: Speech<V, R> := Init(); StartedOk({}, s.voices, s.res.ctl.ops, s.pc)
  {
  }

  // ---------------------------------------------------------------- exactly when ids repeat

  /** The decision on a cancelled request repeats an id exactly when the sender had started to read that voice. */
  lemma RepeatsWhenStarted<V, R>(s: Speech<V, R>, w: Witness<R>, started: set<int>)
    requires SpeechInv(s, w) && s.res.Valid() && StartedOk(started, s.voices, s.res.ctl.ops, s.pc) && s.pc.Deciding?
    requires DistinctIds(s.res.ctl.ops)
    ensures DistinctIds(Decide(s).res.ctl.ops) <==>
      !(s.pc.req.CancelledReq? && s.pc.seen.NoOp? && s.pc.req.id in started)
  {
    hide Inv, Heard, IdsOk, ReqTaken;
    var ops, ops', id := s.res.ctl.ops, Decide(s).res.ctl.ops, s.pc.req.id;
    DecideOps(s, w);
    BeginsNew(s, w);
    assert Holds(s.pc, id);
    assert NewId(id, ops) <==> !(id in started) || HoldsStart(s.pc, id) by { HeldKnown(s, w, started); }
    if |ops'| > |ops| && !NewId(id, ops) {
      var k :| 0 <= k < |ops| && ops[k].id == id;
      assert ops'[k].id == ops'[|ops|].id;
    }
  }

  lemma BeginsNew<V, R>(s: Speech<V, R>, w: Witness<R>)
    requires SpeechInv(s, w) && s.res.Valid() && s.pc.Deciding?
    ensures Begins(s.pc.req) ==> NewId(s.pc.req.id, s.res.ctl.ops)
  {
    hide Inv, Heard, IdsOk, ReqTaken, NewId;
  }

  lemma HeldKnown<V, R>(s: Speech<V, R>, w: Witness<R>, started: set<int>)
    requires SpeechInv(s, w) && s.res.Valid() && StartedOk(started, s.voices, s.res.ctl.ops, s.pc) && s.pc.Deciding?
    ensures var id := s.pc.req.id; NewId(id, s.res.ctl.ops) <==> id !in started || HoldsStart(s.pc, id)
  {
    hide Inv, Heard, IdsOk, ReqTaken;
    var ops, id := s.res.ctl.ops, s.pc.req.id;
    BeginsNew(s, w);
    assert Holds(s.pc, id);
    if id !in started {
      forall k | 0 <= k < |ops| ensures ops[k].id != id {}
    }
  }

  lemma IdsStay<V, R>(s: Speech<V, R>, w: Witness<R>, e: Event<V, R>)
    requires SpeechInv(s, w) && s.res.Valid()
    ensures !DistinctIds(s.res.ctl.ops) ==> !DistinctIds(SpeechSystem.Step(s, e).res.ctl.ops)
    ensures !(e.SenderStep? && s.pc.Deciding?) && DistinctIds(s.res.ctl.ops) ==>
              DistinctIds(SpeechSystem.Step(s, e).res.ctl.ops)
  {
    hide SpeechInv;
    var ops, ops' := s.res.ctl.ops, SpeechSystem.Step(s, e).res.ctl.ops;
    if e.SenderStep? && s.pc.Deciding? {
      hide Decide;
      DecideOps(s, w);
    } else {
      hide SpeechSystem.Step;
      OtherStepsSettle(s, e, w);
    }
    if !DistinctIds(ops) {
      var i, k :| 0 <= i < k < |ops| && ops[i].id == ops[k].id;
      assert ops'[i].id == ops'[k].id;
    }
  }

  ghost predicate NeverCancelledWhileRead<V, R>(events: seq<Event<V, R>>) {
    forall n | 0 <= n < |events| :: !CancelledWhileRead(events, n)
  }

  lemma NeverLast<V, R>(events: seq<Event<V, R>>)
    requires events != []
    ensures var m := |events| - 1;
      NeverCancelledWhileRead(events) <==> NeverCancelledWhileRead(events[..m]) && !CancelledWhileRead(events, m)
  {
    hide SpeechSystem.RunOf, Started;
    var m := |events| - 1;
    var before := events[..m];
    forall n | 0 <= n < m ensures CancelledWhileRead(before, n) == CancelledWhileRead(events, n) {
      assert before[..n] == events[..n] && before[n] == events[n];
    }
  }

  /**
   * A request has at most one operation, and so one last result, exactly in the runs in which the sender never
   * decides on the cancellation of a voice it had started to read when nothing is in progress any more.
   */
  lemma {:induction false} OncePerRequestExactlyWhen<V, R>(events: seq<Event<V, R>>)
    ensures DistinctIds(SpeechSystem.RunOf(events).res.ctl.ops) <==> NeverCancelledWhileRead(events)
    decreases |events|
  {
    hide SpeechInv, SpeechSystem.Step, DistinctIds, NeverCancelledWhileRead, StartedOk, Decide;
    if events == [] {
      NoOps<V, R>();
    } else {
      var m := |events| - 1;
      OncePerRequestExactlyWhen(events[..m]);
      NeverLast(events);
      var s := SpeechSystem.RunOf(events[..m]);
      var w := StartedInv(events[..m]);
      IdsStay(s, w, events[m]);
      if events[m].SenderStep? && s.pc.Deciding? && DistinctIds(s.res.ctl.ops) {
        RepeatsWhenStarted(s, w, Started(events[..m]));
        DecisionStep(s);
      }
    }
  }

  lemma DecisionStep<V, R>(s: Speech<V, R>)
    requires s.res.Valid() && s.pc.Deciding?
    ensures SpeechSystem.Step(s, SenderStep) == Decide(s)
  {
  }

  lemma NoOps<V, R>()
    ensures DistinctIds(SpeechSystem.RunOf<V, R>([]).res.ctl.ops) && NeverCancelledWhileRead<V, R>([])
  {
  }

  // ---------------------------------------------------------------- what a caller can see to

  /** A call of `cancel` that hits the voice the sender is reading. */
  predicate HitsReading<V, R>(s: Speech<V, R>, e: Event<V, R>) {
    e.CancelReq? && s.voices != [] && s.voices[0].polling && (e.id <= 0 || s.voices[0].id == e.id)
  }

  ghost predicate NotDeleted<V>(voices: Streams<V>) {
    forall j | 0 <= j < |voices| && voices[j].polling :: !voices[j].status.Deleted?
  }

  /** A cancelled request the sender holds is not one it had started to read. */
  ghost predicate HeldUnread<V>(started: set<int>, pc: Pc<V>) {
    forall x | x in started && Holds(pc, x) :: pc.req != CancelledReq(x)
  }

  lemma {:induction false} AppendAllNotDeleted<V>(q: Streams<V>, id: int, items: seq<V>)
    requires NotDeleted(q)
    ensures NotDeleted(AppendAll(q, id, items))
    decreases |items|
  {
    if items == [] {
    } else {
      AppendAllNotDeleted(Append(q, id, items[0]), id, items[1..]);
    }
  }

  lemma StepNotDeleted<V, R>(s: Speech<V, R>, e: Event<V, R>)
    requires s.res.Valid() && WellFormed(s.voices) && NotDeleted(s.voices) && !HitsReading(s, e)
    ensures NotDeleted(SpeechSystem.Step(s, e).voices)
  {
    hide AppendAll, Respond, Poll, CancelOp, MarkTexts;
    if e.PutVoice? { AppendAllNotDeleted(s.voices, e.id, e.fragments); }
  }

  /** What the sender newly holds as cancelled is a text, or a voice it had not started to read. */
  lemma StepHeldUnread<V, R>(s: Speech<V, R>, w: Witness<R>, started: set<int>, e: Event<V, R>)
    requires SpeechInv(s, w) && s.res.Valid() && StartedOk(started, s.voices, s.res.ctl.ops, s.pc)
    requires NotDeleted(s.voices) && HeldUnread(started, s.pc)
    ensures HeldUnread(if PopsStart(s, e) then started + {Front(s.voices).id} else started,
                       SpeechSystem.Step(s, e).pc)
  {
    hide Inv, Heard, ReqTaken, PcOk, AppendAll, Respond, Poll, CancelOp, MarkTexts, Rest;
  }

  lemma {:induction false} NothingReadCancelled<V, R>(events: seq<Event<V, R>>) returns (w: Witness<R>)
    requires forall n | 0 <= n < |events| :: !HitsReading(SpeechSystem.RunOf(events[..n]), events[n])
    ensures var s := SpeechSystem.RunOf(events);
      && SpeechInv(s, w) && StartedOk(Started(events), s.voices, s.res.ctl.ops, s.pc)
      && NotDeleted(s.voices) && HeldUnread(Started(events), s.pc)
    decreases |events|
  {
    hide SpeechInv, StartedOk, SpeechSystem.Step, PopsStart, HitsReading, NotDeleted, HeldUnread;
    w := StartedInv(events);
    if events == [] {
      NothingRead<V, R>();
    } else {
      var n := |events| - 1;
      var before := events[..n];
      forall i | 0 <= i < n ensures !HitsReading(SpeechSystem.RunOf(before[..i]), before[i]) {
        assert before[..i] == events[..i] && before[i] == events[i];
      }
      var w0 := NothingReadCancelled(before);
      VoicesWellFormed(SpeechSystem.RunOf(before), w0);
      StepNotDeleted(SpeechSystem.RunOf(before), events[n]);
      StepHeldUnread(SpeechSystem.RunOf(before), w0, Started(before), events[n]);
    }
  }

  lemma NothingRead<V, R>()
    ensures var s: Speech<V, R> := Init(); NotDeleted(s.voices) && HeldUnread({}, s.pc)
  {
  }

  /** Who never cancels the voice being read gets one last result for each request. */
  lemma OncePerRequestIfNotCancelled<V, R>(events: seq<Event<V, R>>)
    requires forall n | 0 <= n < |events| :: !HitsReading(SpeechSystem.RunOf(events[..n]), events[n])
    ensures DistinctIds(SpeechSystem.RunOf(events).res.ctl.ops)
  {
    hide SpeechInv, StartedOk, SpeechSystem.Step, HitsReading, NotDeleted, SpeechSystem.RunOf, Started, DistinctIds;
    forall n | 0 <= n < |events| ensures !CancelledWhileRead(events, n) {
      var before := events[..n];
      forall i | 0 <= i < n ensures !HitsReading(SpeechSystem.RunOf(before[..i]), before[i]) {
        assert before[..i] == events[..i] && before[i] == events[i];
      }
      var w := NothingReadCancelled(before);
    }
    OncePerRequestExactlyWhen(events);
  }

  // ---------------------------------------------------------------- a run in which it happens

  /** A voice is started and its START sent. */
  const SENT_START: seq<Event<int, int>> :=
    [StartVoice(1)] + [SenderStep] + [SenderStep] + [SenderStep] + [SendOk]

  /** Then everything is cancelled, the sender takes notice, and the caller polls. */
  const CANCELLED_ALL: seq<Event<int, int>> :=
    SENT_START + [CancelReq(0)] + [CancelRest(0)] + [SenderStep] + [SenderStep] + [SenderStep]

  /** The state of that run, with one voice and the operations so far. */
  function RunState(pc: Pc<int>, polling: bool, status: StreamSpec.Status, wire: seq<Frame<int>>, ops: seq<Op>,
                    current: Current): Speech<int, int>
  {
    Speech({1}, [], [Stream(1, polling, status, 0, [], None)], [], pc, GenIdle, wire,
           State(Ctl(ops, 0, current), seq(|ops|, i => History(false, [], None)), [], []))
  }

  lemma FirstSteps()
    ensures SpeechSystem.Step<int, int>(Init(), StartVoice(1)) == RunState(Top, false, Open, [], [], NoOp)
    ensures SenderMoves(RunState(Top, false, Open, [], [], NoOp)) ==
              RunState(Got(VoiceStart(1)), true, Open, [], [], NoOp)
  {
  }

  lemma NextSteps()
    ensures var op := Op(1, Starting, 0);
      && SenderMoves(RunState(Got(VoiceStart(1)), true, Open, [], [], NoOp))
        == RunState(Deciding(VoiceStart(1), NoOp), true, Open, [], [], NoOp)
      && SenderMoves(RunState(Deciding(VoiceStart(1), NoOp), true, Open, [], [], NoOp))
        == RunState(Sending(VoiceStart(1)), true, Open, [], [op], At(0))
      && SpeechSystem.Step(RunState(Sending(VoiceStart(1)), true, Open, [], [op], At(0)), SendOk)
        == RunState(Top, true, Open, [StartFrame(1)], [op], At(0))
  {
  }

  lemma AfterStart()
    ensures SpeechSystem.RunOf(SENT_START) == RunState(Top, true, Open, [StartFrame(1)], [Op(1, Starting, 0)], At(0))
  {
    hide SpeechSystem.RunOf, RunState, SenderMoves;
    FirstSteps();
    NextSteps();
    NoEvents<int, int>();
    var e0: seq<Event<int, int>> := [];
    var e1 := e0 + [StartVoice(1)];
    assert e1 == [StartVoice(1)];
    RunStep(e0, StartVoice(1));
    RunStep(e1, SenderStep);
    RunStep(e1 + [SenderStep], SenderStep);
    RunStep(e1 + [SenderStep] + [SenderStep], SenderStep);
    RunStep(e1 + [SenderStep] + [SenderStep] + [SenderStep], SendOk);
  }

  lemma NoEvents<V, R>()
    ensures SpeechSystem.RunOf<V, R>([]) == Init()
  {
  }

  lemma CancelSteps()
    ensures var s := RunState(Top, true, Open, [StartFrame(1)], [Op(1, Starting, 0)], At(0));
      var s' := RunState(Top, true, Deleted, [StartFrame(1)], [Op(1, Starting, 0)], At(0));
      && SpeechSystem.Step(s, CancelReq(0)) == s'.(pending := [0])
      && SpeechSystem.Step(s'.(pending := [0]), CancelRest(0)) ==
           RunState(Top, true, Deleted, [StartFrame(1)], [Op(1, Cancelled, 0)], NoOp)
  {
    var s' := RunState(Top, true, Deleted, [StartFrame(1)], [Op(1, Starting, 0)], At(0));
    assert Hit(s'.res.ctl, 0, 0);
    assert CancelOp(s'.res.ctl, 0).ops == [Op(1, Cancelled, 0)];
  }

  lemma SecondOperation()
    ensures var s := RunState(Top, true, Deleted, [StartFrame(1)], [Op(1, Cancelled, 0)], NoOp);
      SenderMoves(SenderMoves(SenderMoves(s))) ==
        RunState(Top, true, Deleted, [StartFrame(1)], [Op(1, Cancelled, 0), Op(1, Cancelled, 0)], NoOp).(voices := [])
  {
    var s := RunState(Top, true, Deleted, [StartFrame(1)], [Op(1, Cancelled, 0)], NoOp);
    assert SenderMoves(s) == s.(voices := [], pc := Got(CancelledReq(1)));
    assert SenderMoves(SenderMoves(s)) == s.(voices := [], pc := Deciding(CancelledReq(1), NoOp));
  }

  lemma AfterCancel()
    ensures SpeechSystem.RunOf(CANCELLED_ALL) ==
      RunState(Top, true, Deleted, [StartFrame(1)], [Op(1, Cancelled, 0), Op(1, Cancelled, 0)], NoOp).(voices := [])
  {
    hide SpeechSystem.RunOf, SENT_START, RunState, SenderMoves;
    AfterStart();
    CancelSteps();
    SecondOperation();
    var e0: seq<Event<int, int>> := SENT_START;
    RunStep(e0, CancelReq(0));
    RunStep(e0 + [CancelReq(0)], CancelRest(0));
    var e2 := e0 + [CancelReq(0)] + [CancelRest(0)];
    RunStep(e2, SenderStep);
    RunStep(e2 + [SenderStep], SenderStep);
    RunStep(e2 + [SenderStep] + [SenderStep], SenderStep);
  }

  lemma PolledTwice()
    ensures var s := RunState(Top, true, Deleted, [StartFrame(1)], [Op(1, Cancelled, 0), Op(1, Cancelled, 0)], NoOp)
                       .(voices := []);
      var s2 := SpeechSystem.Step(SpeechSystem.Step(s, PollResult), PollResult);
      s2.issued == {1} && s2.res.log == [Removed(1), Removed(1)]
  {
  }

  /** One request can be reported as cancelled twice: the sender makes a second operation for it. */
  lemma TwoResultsForOneRequest()
    ensures SpeechSystem.RunOf(CANCELLED_ALL + [PollResult] + [PollResult]).issued == {1}
    ensures SpeechSystem.RunOf(CANCELLED_ALL + [PollResult] + [PollResult]).res.log == [Removed(1), Removed(1)]
  {
    hide SpeechSystem.RunOf, CANCELLED_ALL, RunState, SpeechSystem.Step;
    AfterCancel();
    PolledTwice();
    var e: seq<Event<int, int>> := CANCELLED_ALL;
    RunStep(e, PollResult);
    RunStep(e + [PollResult], PollResult);
  }
}
