/**
 * `TtsImpl` as a transition system. Its steps are the regions of `speak`, `cancel`, `poll` and the two threads
 * that run under the locks; they may interleave in any order.
 */
module TtsSystem {
  import opened StreamSpec
  import opened OpSpec
  import opened Results

  datatype Request = Request(id: int, deleted: bool)

  /** Where the thread `send_reqs` stands. */
  datatype Sender = Idle | Sending(id: int) | Sent(id: int) | Blocked(id: int)

  datatype Tts<+T> = Tts(lastId: nat, requests: seq<Request>, sender: Sender, res: Results.State<T>)

  /** A step that is not possible in a state changes nothing. */
  datatype Event<+T> =
    | Speak
    | CancelReq(id: int)
    | Take
    | SendOk
    | SendFailed(err: nat)
    | WaitOp
    | Response(id: int, voice: Option<T>, finish: bool)
    | RecvFailed(err: nat)
    | PollResult

  function Init<T>(): Tts<T> {
    Tts(0, [], Idle, State(Ctl([], 0, NoOp), [], [], []))
  }

  predicate Matches(q: Request, id: int) {
    id <= 0 || q.id == id
  }

  function MarkDeleted(q: seq<Request>, id: int): (r: seq<Request>)
    ensures |r| == |q| && forall i | 0 <= i < |q| :: r[i].id == q[i].id
  {
    seq(|q|, i requires 0 <= i < |q| => if Matches(q[i], id) then q[i].(deleted := true) else q[i])
  }

  /** Letting go of the current operation wakes a sender that waits for it. */
  function Woken<T>(s: Tts<T>, res: Results.State<T>): Tts<T> {
    s.(res := res,
       sender := if s.sender.Blocked? && s.res.ctl.current.At? && res.ctl.current.NoOp? then Idle else s.sender)
  }

  function Step<T>(s: Tts<T>, e: Event<T>): (s': Tts<T>)
    requires s.res.Valid()
    ensures s'.res.Valid()
  {
    match e
    case Speak =>
      s.(lastId := s.lastId + 1, requests := s.requests + [Request(s.lastId + 1, false)])
    case CancelReq(id) =>
      var s1 := s.(requests := MarkDeleted(s.requests, id));
      if id <= 0 then Woken(s1, Cancel(s.res, 0))
      else if exists i | 0 <= i < |s.requests| :: Matches(s.requests[i], id) then s1
      else Woken(s1, Cancel(s.res, id))
    case Take =>
      if !s.sender.Idle? || s.requests == [] then s
      else
        var q := s.requests[0];
        s.(requests := s.requests[1..],
           sender := if q.deleted then Idle else Sending(q.id),
           res := Create(s.res, q.id, if q.deleted then Cancelled else Starting))
    case SendOk =>
      if s.sender.Sending? then s.(sender := Sent(s.sender.id)) else s
    case SendFailed(err) =>
      if s.sender.Sending? then s.(sender := Idle, res := Fail(s.res, err)) else s
    case WaitOp =>
      if !s.sender.Sent? then s
      else s.(sender := if s.res.ctl.IsCurrent(s.sender.id) then Blocked(s.sender.id) else Idle)
    case Response(id, voice, finish) =>
      Woken(s, Respond(s.res, id, if voice.Some? then [voice.value] else [], if finish then Done(None) else Going))
    case RecvFailed(err) =>
      Woken(s, Fail(s.res, err))
    case PollResult =>
      s.(res := Poll(s.res))
  }

  function RunOf<T>(events: seq<Event<T>>): (s: Tts<T>)
    ensures s.res.Valid()
  {
    if events == [] then Init() else Step(RunOf(events[..|events| - 1]), events[|events| - 1])
  }

  // ---------------------------------------------------------------- the invariant

  /** Ids are handed out in order, and requests become operations in order. */
  ghost predicate InOrder<T>(s: Tts<T>) {
    && s.lastId == |s.res.ctl.ops| + |s.requests|
    && (forall k | 0 <= k < |s.res.ctl.ops| :: s.res.ctl.ops[k].id == k + 1)
    && (forall i | 0 <= i < |s.requests| :: s.requests[i].id == |s.res.ctl.ops| + i + 1)
  }

  /** The sender works on the last operation, and only sleeps while that one is current. */
  ghost predicate SenderOk<T>(s: Tts<T>)
    requires s.res.Valid()
  {
    match s.sender
    case Idle => s.res.ctl.current.NoOp?
    case Blocked(id) => s.res.ctl.IsCurrent(id)
    case _ => s.sender.id == |s.res.ctl.ops| > 0
  }

  /** Responses are never marked as failed: errors are those of operations. */
  ghost predicate NoFailedTags<T>(q: Streams<T>) {
    forall j | 0 <= j < |q| :: !q[j].status.Failed?
  }

  ghost predicate TtsInv<T>(s: Tts<T>, w: Witness<T>) {
    && Inv(s.res, w) && InOrder(s) && SenderOk(s) && NoFailedTags(s.res.tags)
  }

  lemma InitOk<T>()
    ensures TtsInv<T>(Init(), Witness([], []))
  {
    InitInv<T>();
  }

  lemma {:induction false} AddItemsNoFailed<T>(r: Results.State<T>, items: seq<T>)
    requires r.Valid() && NoFailedTags(r.tags)
    ensures NoFailedTags(AddItems(r, items).tags)
    decreases |items|
  {
    if items != [] { AddItemsNoFailed(AddItem(r, items[0]), items[1..]); }
  }

  lemma RespondNoFailed<T>(r: Results.State<T>, id: int, items: seq<T>, fin: Finish<T>)
    requires r.Valid() && NoFailedTags(r.tags) && !fin.Refused?
    ensures NoFailedTags(Respond(r, id, items, fin).tags)
  {
    if r.ctl.IsCurrent(id) { AddItemsNoFailed(OpenStream(r), items); }
  }

  lemma PollFacts<T>(r: Results.State<T>)
    requires r.Valid() && NoFailedTags(r.tags)
    ensures Poll(r).ctl.ops == r.ctl.ops && Poll(r).ctl.current == r.ctl.current && NoFailedTags(Poll(r).tags)
  {
    if !Next(r).Empty? {
      var op := r.ctl.ops[r.ctl.front];
      NoFailedRest(r.tags);
      NoFailedRest(Erase(r.tags, op.id, 0));
    }
  }

  lemma NoFailedRest<T>(q: Streams<T>)
    requires NoFailedTags(q)
    ensures NoFailedTags(Rest(q))
  {
  }

  /** A sender that is woken, or was not asleep, is in order. */
  lemma WokenOk<T>(s: Tts<T>, res: Results.State<T>)
    requires s.res.Valid() && res.Valid() && SenderOk(s) && Settled(s.res.ctl, res.ctl)
    ensures SenderOk(Woken(s, res))
  {
  }

  lemma CancelReqKeeps<T>(s: Tts<T>, id: int, w: Witness<T>)
    requires TtsInv(s, w)
    ensures TtsInv(Step(s, CancelReq(id)), w)
  {
    hide Inv, NoFailedTags, CancelOp;
    InvValid(s.res, w);
    var at := if id <= 0 then 0 else id;
    CancelKeeps(s.res, w, at);
    CancelSettles(s.res.ctl, at);
    WokenOk(s.(requests := MarkDeleted(s.requests, id)), Cancel(s.res, at));
  }

  lemma TakeKeeps<T>(s: Tts<T>, w: Witness<T>) returns (w': Witness<T>)
    requires TtsInv(s, w)
    ensures TtsInv(Step(s, Take), w')
  {
    hide Inv, NoFailedTags;
    InvValid(s.res, w);
    w' := w;
    if s.sender.Idle? && s.requests != [] {
      var q := s.requests[0];
      CreateKeeps(s.res, w, q.id, if q.deleted then Cancelled else Starting);
      w' := Witness(w.blocks + [[]], w.owner);
    }
  }

  lemma ResponseKeeps<T>(s: Tts<T>, id: int, voice: Option<T>, finish: bool, w: Witness<T>) returns (w': Witness<T>)
    requires TtsInv(s, w)
    ensures TtsInv(Step(s, Response(id, voice, finish)), w')
  {
    hide Inv, NoFailedTags, Respond;
    InvValid(s.res, w);
    var items, fin := if voice.Some? then [voice.value] else [], if finish then Done(None) else Going;
    w' := RespondKeeps(s.res, w, id, items, fin);
    RespondSettles(s.res, id, items, fin);
    RespondNoFailed(s.res, id, items, fin);
    WokenOk(s, Respond(s.res, id, items, fin));
  }

  lemma FailsKeep<T>(s: Tts<T>, err: nat, w: Witness<T>)
    requires TtsInv(s, w)
    ensures TtsInv(Step(s, RecvFailed(err)), w) && TtsInv(Step(s, SendFailed(err)), w)
  {
    hide Inv, NoFailedTags;
    InvValid(s.res, w);
    FailKeeps(s.res, w, err);
    WokenOk(s, Fail(s.res, err));
  }

  lemma PollResultKeeps<T>(s: Tts<T>, w: Witness<T>) returns (w': Witness<T>)
    requires TtsInv(s, w)
    ensures TtsInv(Step(s, PollResult), w')
  {
    hide Inv, NoFailedTags, Poll;
    InvValid(s.res, w);
    w' := Results.PollKeeps(s.res, w);
    PollFacts(s.res);
  }

  lemma StepKeeps<T>(s: Tts<T>, e: Event<T>, w: Witness<T>) returns (w': Witness<T>)
    requires TtsInv(s, w)
    ensures TtsInv(Step(s, e), w')
  {
    w' := w;
    match e
    case Speak =>
      hide Inv, NoFailedTags;
    case CancelReq(id) =>
      CancelReqKeeps(s, id, w);
    case Take =>
      w' := TakeKeeps(s, w);
    case SendOk =>
      hide Inv, NoFailedTags;
    case SendFailed(err) =>
      FailsKeep(s, err, w);
    case WaitOp =>
      hide Inv, NoFailedTags;
    case Response(id, voice, finish) =>
      w' := ResponseKeeps(s, id, voice, finish, w);
    case RecvFailed(err) =>
      FailsKeep(s, err, w);
    case PollResult =>
      w' := PollResultKeeps(s, w);
  }

  lemma {:induction false} RunKeeps<T>(events: seq<Event<T>>) returns (w: Witness<T>)
    ensures TtsInv(RunOf(events), w)
    decreases |events|
  {
    if events == [] {
      InitOk<T>();
      w := Witness([], []);
    } else {
      w := RunKeeps(events[..|events| - 1]);
      w := StepKeeps(RunOf(events[..|events| - 1]), events[|events| - 1], w);
    }
  }

  // ---------------------------------------------------------------- what holds in every run

  /** The assertions in `poll` hold and every popped type is in the result table. */
  lemma PollIsSafe<T>(events: seq<Event<T>>)
    ensures PollAssertsHold(RunOf(events).res)
    ensures var r := RunOf(events).res;
      r.ctl.front < |r.ctl.ops| && !Over(r.ctl.ops[r.ctl.front]) ==> !Front(r.tags).Removed? && !Front(r.tags).Error?
  {
    var w := RunKeeps(events);
    hide Inv, RunOf;
    var r := RunOf(events).res;
    var w' := Results.PollKeeps(r, w);
    NeverRemoved(r);
  }

  lemma NeverRemoved<T>(r: Results.State<T>)
    requires r.Valid() && NoFailedTags(r.tags) && PollAssertsHold(r)
    ensures r.ctl.front < |r.ctl.ops| && !Over(r.ctl.ops[r.ctl.front]) ==>
              !Front(r.tags).Removed? && !Front(r.tags).Error?
  {
  }

  /** A new operation never displaces one in progress, and the sender never sleeps on one that is gone. */
  lemma OneAtATime<T>(events: seq<Event<T>>)
    ensures var s := RunOf(events);
      && (s.sender.Idle? ==> s.res.ctl.current.NoOp?)
      && (s.sender.Blocked? ==> s.res.ctl.IsCurrent(s.sender.id))
  {
    var w := RunKeeps(events);
  }
}
