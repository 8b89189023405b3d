/**
 * `SpeechImpl` as a transition system. Its steps are the regions of the user calls, `poll`, and the threads
 * `send_reqs` and `gen_results` that run under one lock; they may interleave in any order.
 */
module SpeechSystem {
  import opened StreamSpec
  import opened OpSpec
  import opened Results

  datatype TextReq = TextReq(id: int, cancelled: bool)

  datatype Req<+V> =
    | Text(id: int)
    | VoiceStart(id: int)
    | VoiceEnd(id: int)
    | CancelledReq(id: int)
    | VoiceData(id: int, data: V)

  /** Where the thread `send_reqs` stands. `Deciding` has read the current operation and released the lock. */
  datatype Pc<+V> =
    | Top
    | TextPeek
    | TextDecide(free: bool)
    | Got(req: Req<V>)
    | Deciding(req: Req<V>, seen: Current)
    | Sending(req: Req<V>)
    | Check(id: int)
    | Blocked(id: int)

  /** Where `gen_results` stands: it may still have to erase a finished request. */
  datatype GenPc = GenIdle | MustErase(id: int)

  /** What was sent to the server. */
  datatype Frame<+V> = TextFrame(id: int) | StartFrame(id: int) | VoiceFrame(id: int, data: V) | EndFrame(id: int)

  /** `pending` are the calls of `cancel` between their two locked regions. */
  datatype Speech<+V, +R> = Speech(
    issued: set<int>, texts: seq<TextReq>, voices: Streams<V>, pending: seq<int>,
    pc: Pc<V>, gen: GenPc, wire: seq<Frame<V>>, res: Results.State<R>)

  const SPEECH_TIMEOUT: nat := 103

  /** A step that is not possible in a state changes nothing. */
  datatype Event<+V, +R> =
    | PutText(id: int)
    | StartVoice(id: int)
    | PutVoice(id: int, fragments: seq<V>)
    | EndVoice(id: int)
    | CancelReq(id: int)
    | CancelRest(i: nat)
    | SenderStep
    | SendOk
    | SendFailed(err: nat)
    | Response(id: int, items: seq<R>, fin: Finish<R>)
    | RecvFailed(err: nat)
    | GenErase
    | PollResult

  function Init<V, R>(): Speech<V, R> {
    Speech({}, [], [], [], Top, GenIdle, [], State(Ctl([], 0, NoOp), [], [], []))
  }

  // ---------------------------------------------------------------- steps

  function AppendAll<V>(q: Streams<V>, id: int, items: seq<V>): Streams<V>
    decreases |items|
  {
    if items == [] then q else AppendAll(Append(q, id, items[0]), id, items[1..])
  }

  function ReqOf<V>(p: Popped<V>): Req<V>
    requires !p.Empty?
  {
    match p
    case Data(id, item) => VoiceData(id, item)
    case Start(id) => VoiceStart(id)
    case End(id, _) => VoiceEnd(id)
    case Removed(id) => CancelledReq(id)
    case Error(id, _) => VoiceEnd(id)
  }

  function FrameOf<V>(req: Req<V>): Frame<V> {
    match req
    case Text(id) => TextFrame(id)
    case VoiceStart(id) => StartFrame(id)
    case VoiceData(id, data) => VoiceFrame(id, data)
    case _ => EndFrame(req.id)
  }

  /** The text request `cancel` marks: every one, or the first with the id. */
  function MarkTexts(q: seq<TextReq>, id: int): (r: seq<TextReq>)
    ensures |r| == |q| && forall i | 0 <= i < |q| :: r[i].id == q[i].id
  {
    if q == [] then []
    else if id <= 0 then [q[0].(cancelled := true)] + MarkTexts(q[1..], id)
    else if q[0].id == id then [q[0].(cancelled := true)] + q[1..]
    else [q[0]] + MarkTexts(q[1..], id)
  }

  lemma {:induction false} MarkedAll(q: seq<TextReq>, id: int)
    requires id <= 0
    ensures forall i | 0 <= i < |q| :: MarkTexts(q, id)[i] == q[i].(cancelled := true)
    decreases |q|
  {
    if q == [] {
    } else {
      MarkedAll(q[1..], id);
      assert forall i | 0 < i < |q| :: MarkTexts(q, id)[i] == MarkTexts(q[1..], id)[i - 1] && q[i] == q[1..][i - 1];
    }
  }

  lemma {:induction false} MarkedOne(q: seq<TextReq>, id: int)
    requires id > 0 && forall i, j | 0 <= i < j < |q| :: q[i].id != q[j].id
    ensures forall i | 0 <= i < |q| ::
              MarkTexts(q, id)[i] == if q[i].id == id then q[i].(cancelled := true) else q[i]
    decreases |q|
  {
    if q == [] || q[0].id == id {
    } else {
      MarkedOne(q[1..], id);
      assert forall i | 0 < i < |q| :: MarkTexts(q, id)[i] == MarkTexts(q[1..], id)[i - 1] && q[i] == q[1..][i - 1];
    }
  }

  predicate HasText(q: seq<TextReq>, id: int) {
    exists i | 0 <= i < |q| :: q[i].id == id
  }

  function CancelFirst<V, R>(s: Speech<V, R>, id: int): Speech<V, R> {
    if id <= 0 then s.(voices := Clear(s.voices), texts := MarkTexts(s.texts, id), pending := s.pending + [0])
    else if Has(s.voices, id) then s.(voices := Erase(s.voices, id, 0))
    else if HasText(s.texts, id) then s.(texts := MarkTexts(s.texts, id))
    else s.(pending := s.pending + [id])
  }

  /** Letting go of the current operation wakes a sender that waits for it. */
  function Woken<V, R>(s: Speech<V, R>, res: Results.State<R>): Speech<V, R> {
    s.(res := res, pc := if s.pc.Blocked? && s.res.ctl.current.At? && res.ctl.current.NoOp? then Top else s.pc)
  }

  /** `do_ctl_change_op`, after the current operation was read. */
  function Decide<V, R>(s: Speech<V, R>): (s': Speech<V, R>)
    requires s.res.Valid() && s.pc.Deciding?
    ensures s'.res.Valid()
  {
    var req := s.pc.req;
    if req.Text? || req.VoiceStart? then
      s.(res := Create(s.res, req.id, Starting), pc := Sending(req))
    else if s.pc.seen.At? then
      if req.CancelledReq? && s.pc.seen.k < |s.res.ctl.ops| then
        s.(res := CancelAt(s.res, s.pc.seen.k), pc := Sending(req))
      else s.(pc := Sending(req))
    else if req.CancelledReq? then
      s.(res := Create(s.res, req.id, Cancelled), pc := Top)
    else s.(pc := Top)
  }

  function SenderMoves<V, R>(s: Speech<V, R>): (s': Speech<V, R>)
    requires s.res.Valid()
    ensures s'.res.Valid()
  {
    match s.pc
    case Top =>
      if !Front(s.voices).Empty? then s.(voices := Rest(s.voices), pc := Got(ReqOf(Front(s.voices))))
      else if s.texts != [] then s.(pc := TextPeek)
      else s
    case TextPeek => s.(pc := TextDecide(s.res.ctl.current.NoOp?))
    case TextDecide(free) =>
      if free && s.texts != [] then
        var q := s.texts[0];
        s.(texts := s.texts[1..], pc := Got(if q.cancelled then CancelledReq(q.id) else Text(q.id)))
      else s.(pc := Top)
    case Got(req) => s.(pc := Deciding(req, s.res.ctl.current))
    case Deciding(_, _) => Decide(s)
    case Check(id) => s.(pc := if s.res.ctl.IsCurrent(id) then Blocked(id) else Top)
    case _ => s
  }

  function Step<V, R>(s: Speech<V, R>, e: Event<V, R>): (s': Speech<V, R>)
    requires s.res.Valid()
    ensures s'.res.Valid()
  {
    match e
    case PutText(id) =>
      if id <= 0 || id in s.issued then s
      else s.(issued := s.issued + {id}, texts := s.texts + [TextReq(id, false)])
    case StartVoice(id) =>
      if id <= 0 || id in s.issued then s
      else s.(issued := s.issued + {id}, voices := Begin(s.voices, id))
    case PutVoice(id, fragments) => s.(voices := AppendAll(s.voices, id, fragments))
    case EndVoice(id) => s.(voices := Complete(s.voices, id, None))
    case CancelReq(id) => CancelFirst(s, id)
    case CancelRest(i) =>
      if i < |s.pending| then
        Woken(s.(pending := s.pending[..i] + s.pending[i + 1..]), Cancel(s.res, s.pending[i]))
      else s
    case SenderStep => SenderMoves(s)
    case SendOk =>
      if !s.pc.Sending? then s
      else
        var req := s.pc.req;
        s.(wire := s.wire + [FrameOf(req)], pc := if req.Text? || req.VoiceEnd? then Check(req.id) else Top)
    case SendFailed(err) =>
      if !s.pc.Sending? then s
      else s.(res := Fail(s.res, err), voices := Erase(s.voices, s.pc.req.id, SPEECH_TIMEOUT), pc := Top)
    case Response(id, items, fin) =>
      if !s.gen.GenIdle? || (fin.Refused? && fin.err == 0) then s
      else
        Woken(s.(gen := if s.res.ctl.IsCurrent(id) && !fin.Going? then MustErase(id) else GenIdle),
              Respond(s.res, id, items, fin))
    case RecvFailed(err) =>
      if !s.gen.GenIdle? then s
      else
        Woken(s.(gen := if s.res.ctl.current.At? then MustErase(s.res.ctl.ops[s.res.ctl.current.k].id) else GenIdle),
              Fail(s.res, err))
    case GenErase =>
      if s.gen.MustErase? then s.(gen := GenIdle, voices := Erase(s.voices, s.gen.id, SPEECH_TIMEOUT)) else s
    case PollResult => s.(res := Poll(s.res))
  }

  function RunOf<V, R>(events: seq<Event<V, R>>): (s: Speech<V, R>)
    ensures s.res.Valid()
  {
    if events == [] then Init() else Step(RunOf(events[..|events| - 1]), events[|events| - 1])
  }

  // ---------------------------------------------------------------- the wire

  /** What the server has been told: nothing unfinished, a voice in progress, or nonsense. */
  datatype Talk = Quiet | Talking(id: int) | Nonsense

  function Hear<V>(t: Talk, f: Frame<V>): Talk {
    match f
    case TextFrame(_) => if t.Nonsense? then Nonsense else Quiet
    case StartFrame(id) => if t.Nonsense? then Nonsense else Talking(id)
    case VoiceFrame(id, _) => if t == Talking(id) then t else Nonsense
    case EndFrame(id) => if t == Talking(id) then Quiet else Nonsense
  }

  function Heard<V>(wire: seq<Frame<V>>): Talk {
    if wire == [] then Quiet else Hear(Heard(wire[..|wire| - 1]), wire[|wire| - 1])
  }

  /** TEXT, or START VOICE* [END] with one id. */
  predicate Sentence<V>(w: seq<Frame<V>>) {
    && w != []
    && (w[0].TextFrame? || w[0].StartFrame?)
    && (w[0].TextFrame? ==> |w| == 1)
    && (forall i | 0 < i < |w| :: w[i].id == w[0].id)
    && (forall i | 0 < i < |w| - 1 :: w[i].VoiceFrame?)
    && (|w| > 1 ==> w[|w| - 1].VoiceFrame? || w[|w| - 1].EndFrame?)
  }

  /** Unfinished exactly while the voice may go on. */
  predicate OpenEnded<V>(w: seq<Frame<V>>, id: int) {
    Sentence(w) && w[0] == StartFrame(id) && !w[|w| - 1].EndFrame?
  }

  /** What makes sense is a sequence of sentences. */
  lemma {:induction false} SentencesOf<V>(wire: seq<Frame<V>>) returns (ss: seq<seq<Frame<V>>>)
    requires !Heard(wire).Nonsense?
    ensures Flat(ss) == wire && forall i | 0 <= i < |ss| :: Sentence(ss[i])
    ensures Heard(wire).Talking? ==> ss != [] && OpenEnded(ss[|ss| - 1], Heard(wire).id)
    decreases |wire|
  {
    if wire == [] {
      ss := [];
    } else {
      var n := |wire| - 1;
      var f := wire[n];
      ss := SentencesOf(wire[..n]);
      assert wire == wire[..n] + [f];
      if f.TextFrame? || f.StartFrame? {
        FlatPush(ss, [f]);
        ss := ss + [[f]];
      } else {
        var m := |ss| - 1;
        FlatExtend(ss, f);
        ss := ss[m := ss[m] + [f]];
      }
    }
  }

  lemma FlatPush<T>(ss: seq<seq<T>>, s: seq<T>)
    ensures Flat(ss + [s]) == Flat(ss) + s
  {
    assert (ss + [s])[..|ss|] == ss;
  }

  lemma FlatExtend<T>(ss: seq<seq<T>>, x: T)
    requires ss != []
    ensures Flat(ss[|ss| - 1 := ss[|ss| - 1] + [x]]) == Flat(ss) + [x]
  {
    var m := |ss| - 1;
    assert ss[m := ss[m] + [x]][..m] == ss[..m];
  }

  // ---------------------------------------------------------------- the invariant

  /** Ids are never reused: what waits to start has not become an operation. */
  ghost predicate IdsOk<V>(issued: set<int>, texts: seq<TextReq>, voices: Streams<V>, ops: seq<Op>) {
    && WellFormed(voices)
    && (forall k | 0 <= k < |ops| :: ops[k].id in issued)
    && (forall j | 0 <= j < |voices| :: voices[j].id in issued)
    && (forall i | 0 <= i < |texts| :: texts[i].id in issued)
    && (forall i, j | 0 <= i < j < |texts| :: texts[i].id != texts[j].id)
    && (forall i, j | 0 <= i < |texts| && 0 <= j < |voices| :: texts[i].id != voices[j].id)
    && (forall i, k | 0 <= i < |texts| && 0 <= k < |ops| :: texts[i].id != ops[k].id)
    && (forall j, k | 0 <= j < |voices| && !voices[j].polling && 0 <= k < |ops| :: voices[j].id != ops[k].id)
  }

  /** A request the sender has taken waits no more. */
  ghost predicate Taken<V>(id: int, issued: set<int>, texts: seq<TextReq>, voices: Streams<V>) {
    && id in issued
    && (forall i | 0 <= i < |texts| :: texts[i].id != id)
    && (forall j | 0 <= j < |voices| && !voices[j].polling :: voices[j].id != id)
  }

  ghost predicate NewId(id: int, ops: seq<Op>) {
    forall k | 0 <= k < |ops| :: ops[k].id != id
  }

  predicate PolledFront<V>(voices: Streams<V>, id: int) {
    voices != [] && voices[0].polling && voices[0].id == id
  }

  /** The current operation is that of the voice being read, and the server is being told about it. */
  ghost predicate Conversing<V>(voices: Streams<V>, c: Ctl, talk: Talk)
    requires c.Valid()
  {
    c.current.At? ==> PolledFront(voices, c.ops[c.current.k].id) && talk == Talking(c.ops[c.current.k].id)
  }

  predicate Begins<V>(req: Req<V>) {
    req.Text? || req.VoiceStart?
  }

  /** The request belongs to the current operation, if there is one. */
  ghost predicate Concerns<V>(req: Req<V>, c: Ctl, at: Current)
    requires c.Valid()
  {
    at.At? ==> at.k == |c.ops| - 1 >= 0 && c.ops[at.k].id == req.id
  }

  ghost predicate PcOk<V>(pc: Pc<V>, voices: Streams<V>, c: Ctl, talk: Talk)
    requires c.Valid()
  {
    match pc
    case Top => Conversing(voices, c, talk)
    case TextPeek => Conversing(voices, c, talk)
    case TextDecide(free) => Conversing(voices, c, talk) && (free ==> c.current.NoOp?)
    case Got(req) =>
      && Concerns(req, c, c.current)
      && (if Begins(req) then c.current.NoOp? && NewId(req.id, c.ops)
          else c.current.At? ==> talk == Talking(req.id))
      && (req.VoiceStart? || (req.VoiceData? && c.current.At?) ==> PolledFront(voices, req.id))
    case Deciding(req, seen) =>
      && Concerns(req, c, seen) && (c.current.NoOp? || c.current == seen)
      && (if Begins(req) then seen.NoOp? && NewId(req.id, c.ops)
          else seen.At? ==> talk == Talking(req.id))
      && (req.VoiceStart? || (req.VoiceData? && c.current.At?) ==> PolledFront(voices, req.id))
    case Sending(req) =>
      && Concerns(req, c, c.current)
      && (!Begins(req) ==> talk == Talking(req.id))
      && (req.CancelledReq? ==> c.current.NoOp?)
      && (req.VoiceStart? || (req.VoiceData? && c.current.At?) ==> PolledFront(voices, req.id))
    case Check(id) => c.current.At? ==> c.ops[c.current.k].id == id
    case Blocked(id) => c.IsCurrent(id)
  }

  ghost predicate ReqTaken<V>(pc: Pc<V>, issued: set<int>, texts: seq<TextReq>, voices: Streams<V>) {
    match pc
    case Got(req) => Taken(req.id, issued, texts, voices)
    case Deciding(req, _) => Taken(req.id, issued, texts, voices)
    case Sending(req) => Taken(req.id, issued, texts, voices)
    case _ => true
  }

  ghost predicate SpeechInv<V, R>(s: Speech<V, R>, w: Witness<R>) {
    && Inv(s.res, w)
    && IdsOk(s.issued, s.texts, s.voices, s.res.ctl.ops)
    && ReqTaken(s.pc, s.issued, s.texts, s.voices)
    && PcOk(s.pc, s.voices, s.res.ctl, Heard(s.wire))
    && !Heard(s.wire).Nonsense?
  }

  lemma InitOk<V, R>()
    ensures SpeechInv<V, R>(Init(), Witness([], []))
  {
    InitInv<R>();
  }

  // ---------------------------------------------------------------- changes that keep who waits

  /** The same streams, polled or not as before. */
  ghost predicate SameHeads<V>(a: Streams<V>, b: Streams<V>) {
    |a| == |b| && WellFormed(b) && forall j | 0 <= j < |a| :: a[j].id == b[j].id && a[j].polling == b[j].polling
  }

  ghost predicate SameTexts(a: seq<TextReq>, b: seq<TextReq>) {
    |a| == |b| && forall i | 0 <= i < |a| :: a[i].id == b[i].id
  }

  lemma QueuesKeep<V, R>(s: Speech<V, R>, w: Witness<R>, voices: Streams<V>, texts: seq<TextReq>)
    requires SpeechInv(s, w) && SameHeads(s.voices, voices) && SameTexts(s.texts, texts)
    ensures SpeechInv(s.(voices := voices, texts := texts), w)
  {
    hide Inv, Heard;
    InvValid(s.res, w);
  }

  lemma SettledKeeps<V, R>(s: Speech<V, R>, w: Witness<R>, res: Results.State<R>, w': Witness<R>)
    requires SpeechInv(s, w) && Inv(res, w') && s.res.Valid() && Settled(s.res.ctl, res.ctl)
    ensures SpeechInv(Woken(s, res), w')
  {
    hide Inv, Heard, WellFormed;
    InvValid(s.res, w);
    InvValid(res, w');
  }

  lemma AppendHeads<V>(q: Streams<V>, id: int, item: V)
    requires WellFormed(q)
    ensures SameHeads(q, Append(q, id, item))
  {
    if Accepts(q, id) { UpdateKeeps(q, Index(q, id), Append(q, id, item)[Index(q, id)]); }
  }

  lemma {:induction false} AppendAllHeads<V>(q: Streams<V>, id: int, items: seq<V>)
    requires WellFormed(q)
    ensures SameHeads(q, AppendAll(q, id, items))
    decreases |items|
  {
    if items != [] {
      AppendHeads(q, id, items[0]);
      AppendAllHeads(Append(q, id, items[0]), id, items[1..]);
    }
  }

  lemma CompleteHeads<V>(q: Streams<V>, id: int, last: Option<V>)
    requires WellFormed(q)
    ensures SameHeads(q, Complete(q, id, last))
  {
    if Has(q, id) { UpdateKeeps(q, Index(q, id), Complete(q, id, last)[Index(q, id)]); }
  }

  lemma EraseHeads<V>(q: Streams<V>, id: int, err: nat)
    requires WellFormed(q)
    ensures SameHeads(q, Erase(q, id, err))
  {
    if Has(q, id) { UpdateKeeps(q, Index(q, id), Erased(q[Index(q, id)], err)); }
  }

  lemma ClearHeads<V>(q: Streams<V>)
    requires WellFormed(q)
    ensures SameHeads(q, Clear(q))
  {
    ClearKeeps(q);
  }

  // ---------------------------------------------------------------- the sender's steps

  lemma PopIds<V>(issued: set<int>, texts: seq<TextReq>, voices: Streams<V>, ops: seq<Op>)
    requires IdsOk(issued, texts, voices, ops) && !Front(voices).Empty?
    ensures IdsOk(issued, texts, Rest(voices), ops)
    ensures Taken(Front(voices).id, issued, texts, Rest(voices))
    ensures Front(voices).Start? ==> NewId(Front(voices).id, ops)
  {
    hide WellFormed, Front, Rest;
    RestKeeps(voices);
    HeadsDistinct(voices);
    EmptyPopsNothing(voices);
    PopsFront(voices);
    PopLeaves(voices);
  }

  lemma PopPc<V>(voices: Streams<V>, c: Ctl, talk: Talk)
    requires c.Valid() && PcOk(Top, voices, c, talk) && !Front(voices).Empty?
    requires c.current.At? ==> c.current.k == |c.ops| - 1
    requires Front(voices).Start? ==> NewId(Front(voices).id, c.ops)
    ensures PcOk(Got(ReqOf(Front(voices))), Rest(voices), c, talk)
  {
    hide NewId, Rest;
    EmptyPopsNothing(voices);
    PopsFront(voices);
  }

  /** Popping a voice request. */
  lemma PopKeeps<V, R>(s: Speech<V, R>, w: Witness<R>)
    requires SpeechInv(s, w) && s.pc.Top? && !Front(s.voices).Empty?
    ensures SpeechInv(s.(voices := Rest(s.voices), pc := Got(ReqOf(Front(s.voices)))), w)
  {
    hide Inv, Heard, IdsOk, PcOk, Taken, NewId, Rest, Front;
    InvValid(s.res, w);
    PopIds(s.issued, s.texts, s.voices, s.res.ctl.ops);
    PopPc(s.voices, s.res.ctl, Heard(s.wire));
    SameReqId(Front(s.voices));
  }

  lemma SameReqId<V>(p: Popped<V>)
    requires !p.Empty?
    ensures ReqOf(p).id == p.id && (ReqOf(p).VoiceStart? <==> p.Start?)
  {
  }

  lemma HeadsDistinct<V>(q: Streams<V>)
    requires WellFormed(q)
    ensures forall j | 0 < j < |q| :: q[j].id != q[0].id && !q[j].polling
  {
  }

  /** A pop reads from the front stream or drops it. */
  lemma PopsFront<V>(q: Streams<V>)
    requires q != [] && !Front(q).Empty?
    ensures var p, q' := Front(q), Rest(q);
      && p.id == q[0].id
      && (p.Start? ==> !q[0].polling) && (p.Data? ==> q[0].polling)
      && (if p.Start? || p.Data? then |q'| == |q| && q'[1..] == q[1..] && PolledFront(q', p.id)
          else q' == q[1..])
  {
  }

  /** What is left was there, and what is still unpolled was behind the front. */
  lemma PopLeaves<V>(q: Streams<V>)
    requires q != [] && !Front(q).Empty?
    ensures forall j | 0 <= j < |Rest(q)| :: exists i | 0 <= i < |q| :: Rest(q)[j].id == q[i].id
    ensures forall j | 0 <= j < |Rest(q)| && !Rest(q)[j].polling :: exists i | 0 < i < |q| :: Rest(q)[j] == q[i]
  {
    hide Front, Rest;
    PopsFront(q);
    var q' := Rest(q);
    forall j | 0 <= j < |q'|
      ensures exists i | 0 <= i < |q| :: q'[j].id == q[i].id
      ensures !q'[j].polling ==> exists i | 0 < i < |q| :: q'[j] == q[i]
    {
      if |q'| == |q| {
        if j == 0 {
          assert q'[0].id == q[0].id;
        } else {
          assert q'[j] == q'[1..][j - 1] == q[j];
        }
      } else {
        assert q'[j] == q[j + 1];
      }
    }
  }

  lemma TextKeeps<V, R>(s: Speech<V, R>, w: Witness<R>)
    requires SpeechInv(s, w) && s.pc.TextDecide? && s.pc.free && s.texts != []
    ensures SpeechInv(SenderMoves(s), w)
  {
    hide Inv, Heard, WellFormed;
    InvValid(s.res, w);
  }

  /** A new operation for a request that was waiting or was cancelled unread. */
  lemma NewOpKeeps<V, R>(s: Speech<V, R>, w: Witness<R>, pc: Pc<V>)
    requires SpeechInv(s, w) && s.res.Valid() && s.pc.Deciding? && s.pc.seen.NoOp?
    requires var req := s.pc.req;
      (Begins(req) && pc == Sending(req)) || (req.CancelledReq? && pc == Top)
    ensures SpeechInv(s.(res := Create(s.res, s.pc.req.id, if Begins(s.pc.req) then Starting else Cancelled), pc := pc),
                      Witness(w.blocks + [[]], w.owner))
  {
    hide Inv, Heard, WellFormed;
    InvValid(s.res, w);
    CreateKeeps(s.res, w, s.pc.req.id, if Begins(s.pc.req) then Starting else Cancelled);
  }

  lemma DecideKeeps<V, R>(s: Speech<V, R>, w: Witness<R>) returns (w': Witness<R>)
    requires SpeechInv(s, w) && s.res.Valid() && s.pc.Deciding?
    ensures SpeechInv(Decide(s), w')
  {
    hide Inv, Heard, WellFormed, IdsOk, Taken;
    InvValid(s.res, w);
    w' := w;
    var req := s.pc.req;
    if Begins(req) {
      NewOpKeeps(s, w, Sending(req));
      w' := Witness(w.blocks + [[]], w.owner);
    } else if s.pc.seen.At? {
      if req.CancelledReq? { CancelSeenKeeps(s, w); }
    } else if req.CancelledReq? {
      NewOpKeeps(s, w, Top);
      w' := Witness(w.blocks + [[]], w.owner);
    }
  }

  lemma CancelSeenKeeps<V, R>(s: Speech<V, R>, w: Witness<R>)
    requires SpeechInv(s, w) && s.res.Valid() && s.pc.Deciding? && s.pc.seen.At? && s.pc.req.CancelledReq?
    ensures SpeechInv(Decide(s), w)
  {
    hide Inv, Heard, WellFormed;
    InvValid(s.res, w);
    CancelAtKeeps(s.res, w, s.pc.seen.k);
  }

  lemma SenderKeeps<V, R>(s: Speech<V, R>, w: Witness<R>) returns (w': Witness<R>)
    requires SpeechInv(s, w) && s.res.Valid()
    ensures SpeechInv(SenderMoves(s), w')
  {
    hide Inv, Heard, WellFormed, IdsOk, Taken, Decide;
    InvValid(s.res, w);
    w' := w;
    if s.pc.Top? && !Front(s.voices).Empty? {
      PopKeeps(s, w);
    } else if s.pc.TextDecide? && s.pc.free && s.texts != [] {
      TextKeeps(s, w);
    } else if s.pc.Deciding? {
      w' := DecideKeeps(s, w);
    }
  }

  lemma SendOkKeeps<V, R>(s: Speech<V, R>, w: Witness<R>)
    requires SpeechInv(s, w) && s.res.Valid()
    ensures SpeechInv(Step(s, SendOk), w)
  {
    hide Inv, Heard, WellFormed, IdsOk, Taken, PcOk;
    InvValid(s.res, w);
    if s.pc.Sending? {
      HeardPush(s.wire, FrameOf(s.pc.req));
      SentPc(s.pc.req, s.voices, s.res.ctl, Heard(s.wire));
    }
  }

  lemma HeardPush<V>(wire: seq<Frame<V>>, f: Frame<V>)
    ensures Heard(wire + [f]) == Hear(Heard(wire), f)
  {
    assert (wire + [f])[..|wire|] == wire;
  }

  lemma SentPc<V>(req: Req<V>, voices: Streams<V>, c: Ctl, talk: Talk)
    requires c.Valid() && PcOk(Sending(req), voices, c, talk) && !talk.Nonsense?
    ensures !Hear(talk, FrameOf(req)).Nonsense?
    ensures PcOk(if req.Text? || req.VoiceEnd? then Check(req.id) else Top, voices, c, Hear(talk, FrameOf(req)))
  {
  }

  lemma SendFailedKeeps<V, R>(s: Speech<V, R>, w: Witness<R>, err: nat)
    requires SpeechInv(s, w) && s.res.Valid()
    ensures SpeechInv(Step(s, SendFailed(err)), w)
  {
    hide Inv, Heard;
    InvValid(s.res, w);
    if s.pc.Sending? {
      FailKeeps(s.res, w, err);
      EraseHeads(s.voices, s.pc.req.id, SPEECH_TIMEOUT);
    }
  }

  // ---------------------------------------------------------------- the other steps

  lemma PutTextKeeps<V, R>(s: Speech<V, R>, w: Witness<R>, id: int)
    requires SpeechInv(s, w) && s.res.Valid()
    ensures SpeechInv(Step(s, PutText(id)), w)
  {
    hide Inv, Heard, WellFormed;
    InvValid(s.res, w);
  }

  lemma StartVoiceKeeps<V, R>(s: Speech<V, R>, w: Witness<R>, id: int)
    requires SpeechInv(s, w) && s.res.Valid()
    ensures SpeechInv(Step(s, StartVoice(id)), w)
  {
    hide Inv, Heard, WellFormed;
    InvValid(s.res, w);
    BeginKeeps(s.voices, id);
  }

  lemma CancelFirstKeeps<V, R>(s: Speech<V, R>, w: Witness<R>, id: int)
    requires SpeechInv(s, w)
    ensures SpeechInv(CancelFirst(s, id), w)
  {
    hide Inv, Heard, PcOk, ReqTaken;
    EraseHeads(s.voices, id, 0);
    ClearHeads(s.voices);
    var s1 := CancelFirst(s, id);
    SameHeadsRefl(s.voices);
    QueuesKeep(s, w, s1.voices, s1.texts);
    PendingIrrelevant(s.(voices := s1.voices, texts := s1.texts), w, s1.pending);
  }

  lemma SameHeadsRefl<V>(q: Streams<V>)
    requires WellFormed(q)
    ensures SameHeads(q, q)
  {
  }

  /** The invariant does not depend on what is still to be cancelled or erased. */
  lemma PendingIrrelevant<V, R>(s: Speech<V, R>, w: Witness<R>, pending: seq<int>)
    requires SpeechInv(s, w)
    ensures SpeechInv(s.(pending := pending), w)
  {
  }

  lemma GenIrrelevant<V, R>(s: Speech<V, R>, w: Witness<R>, gen: GenPc)
    requires SpeechInv(s, w)
    ensures SpeechInv(s.(gen := gen), w)
  {
  }

  lemma CancelRestKeeps<V, R>(s: Speech<V, R>, w: Witness<R>, i: nat)
    requires SpeechInv(s, w) && s.res.Valid()
    ensures SpeechInv(Step(s, CancelRest(i)), w)
  {
    hide SpeechInv, Inv, Heard, CancelOp;
    if i < |s.pending| {
      var id, pending := s.pending[i], s.pending[..i] + s.pending[i + 1..];
      PendingIrrelevant(s, w, pending);
      ResInv(s, w);
      CancelKeeps(s.res, w, id);
      CancelSettles(s.res.ctl, id);
      SettledKeeps(s.(pending := pending), w, Cancel(s.res, id), w);
    }
  }

  lemma ResInv<V, R>(s: Speech<V, R>, w: Witness<R>)
    requires SpeechInv(s, w)
    ensures Inv(s.res, w)
  {
  }

  lemma ResponseKeeps<V, R>(s: Speech<V, R>, w: Witness<R>, id: int, items: seq<R>, fin: Finish<R>)
    returns (w': Witness<R>)
    requires SpeechInv(s, w) && s.res.Valid()
    ensures SpeechInv(Step(s, Response(id, items, fin)), w')
  {
    hide SpeechInv, Inv, Heard, Respond;
    w' := w;
    if s.gen.GenIdle? && !(fin.Refused? && fin.err == 0) {
      var gen := if s.res.ctl.IsCurrent(id) && !fin.Going? then MustErase(id) else GenIdle;
      GenIrrelevant(s, w, gen);
      ResInv(s, w);
      w' := RespondKeeps(s.res, w, id, items, fin);
      RespondSettles(s.res, id, items, fin);
      SettledKeeps(s.(gen := gen), w, Respond(s.res, id, items, fin), w');
    }
  }

  lemma RecvFailedKeeps<V, R>(s: Speech<V, R>, w: Witness<R>, err: nat)
    requires SpeechInv(s, w) && s.res.Valid()
    ensures SpeechInv(Step(s, RecvFailed(err)), w)
  {
    hide SpeechInv, Inv, Heard;
    if s.gen.GenIdle? {
      var gen := if s.res.ctl.current.At? then MustErase(s.res.ctl.ops[s.res.ctl.current.k].id) else GenIdle;
      GenIrrelevant(s, w, gen);
      ResInv(s, w);
      FailKeeps(s.res, w, err);
      SettledKeeps(s.(gen := gen), w, Fail(s.res, err), w);
    }
  }

  lemma PollResultKeeps<V, R>(s: Speech<V, R>, w: Witness<R>) returns (w': Witness<R>)
    requires SpeechInv(s, w) && s.res.Valid()
    ensures SpeechInv(Step(s, PollResult), w')
  {
    hide SpeechInv, Inv, Heard;
    ResInv(s, w);
    w' := Results.PollKeeps(s.res, w);
    SettledKeeps(s, w, Poll(s.res), w');
    assert Woken(s, Poll(s.res)) == Step(s, PollResult);
  }

  /** A change of the voice queue that keeps who waits. */
  lemma VoicesKeep<V, R>(s: Speech<V, R>, w: Witness<R>, voices: Streams<V>)
    requires SpeechInv(s, w) && SameHeads(s.voices, voices)
    ensures SpeechInv(s.(voices := voices), w)
  {
    hide Inv, Heard, PcOk, ReqTaken, IdsOk, SameHeads;
    QueuesKeep(s, w, voices, s.texts);
    assert s.(voices := voices, texts := s.texts) == s.(voices := voices);
  }

  lemma VoicesWellFormed<V, R>(s: Speech<V, R>, w: Witness<R>)
    requires SpeechInv(s, w)
    ensures WellFormed(s.voices)
  {
  }

  lemma StepKeeps<V, R>(s: Speech<V, R>, e: Event<V, R>, w: Witness<R>) returns (w': Witness<R>)
    requires SpeechInv(s, w) && s.res.Valid()
    ensures SpeechInv(Step(s, e), w')
  {
    hide SpeechInv, SenderMoves, CancelFirst;
    VoicesWellFormed(s, w);
    w' := w;
    match e
    case PutText(id) =>
      PutTextKeeps(s, w, id);
    case StartVoice(id) =>
      StartVoiceKeeps(s, w, id);
    case PutVoice(id, fragments) =>
      AppendAllHeads(s.voices, id, fragments);
      VoicesKeep(s, w, AppendAll(s.voices, id, fragments));
    case EndVoice(id) =>
      CompleteHeads(s.voices, id, None);
      VoicesKeep(s, w, Complete(s.voices, id, None));
    case CancelReq(id) =>
      CancelFirstKeeps(s, w, id);
    case CancelRest(i) =>
      CancelRestKeeps(s, w, i);
    case SenderStep =>
      w' := SenderKeeps(s, w);
    case SendOk =>
      SendOkKeeps(s, w);
    case SendFailed(err) =>
      SendFailedKeeps(s, w, err);
    case Response(id, items, fin) =>
      w' := ResponseKeeps(s, w, id, items, fin);
    case RecvFailed(err) =>
      RecvFailedKeeps(s, w, err);
    case GenErase =>
      if s.gen.MustErase? {
        EraseHeads(s.voices, s.gen.id, SPEECH_TIMEOUT);
        VoicesKeep(s, w, Erase(s.voices, s.gen.id, SPEECH_TIMEOUT));
        GenIrrelevant(s.(voices := Erase(s.voices, s.gen.id, SPEECH_TIMEOUT)), w, GenIdle);
      }
    case PollResult =>
      w' := PollResultKeeps(s, w);
  }

  lemma {:induction false} RunKeeps<V, R>(events: seq<Event<V, R>>) returns (w: Witness<R>)
    ensures SpeechInv(RunOf(events), w)
    decreases |events|
  {
    hide SpeechInv, Step;
    if events == [] {
      InitOk<V, R>();
      w := Witness([], []);
    } else {
      w := RunKeeps(events[..|events| - 1]);
      w := StepKeeps(RunOf(events[..|events| - 1]), events[|events| - 1], w);
    }
  }

  // ---------------------------------------------------------------- what holds in every run

  /** The server only ever hears sentences: TEXT, or START VOICE* [END] with the id of that START. */
  lemma WireOrder<V, R>(events: seq<Event<V, R>>) returns (ss: seq<seq<Frame<V>>>)
    ensures Flat(ss) == RunOf(events).wire && forall i | 0 <= i < |ss| :: Sentence(ss[i])
  {
    var w := RunKeeps(events);
    hide RunOf, Inv, Flat;
    ss := SentencesOf(RunOf(events).wire);
  }

  /** At the loop head a current operation is that of the voice at the front, which has been polled. */
  lemma LoopHead<V, R>(events: seq<Event<V, R>>)
    ensures var s := RunOf(events);
      s.pc.Top? && s.res.ctl.current.At? ==> PolledFront(s.voices, s.res.ctl.ops[s.res.ctl.current.k].id)
  {
    var w := RunKeeps(events);
    hide RunOf, Inv;
    InvValid(RunOf(events).res, w);
  }

  /** The assertion in `do_ctl_change_op` holds, and still when the operation is created after the lock was let go. */
  lemma NothingInProgress<V, R>(events: seq<Event<V, R>>)
    ensures var s := RunOf(events);
      s.pc.Deciding? && Begins(s.pc.req) ==> s.pc.seen.NoOp? && s.res.ctl.current.NoOp?
  {
    var w := RunKeeps(events);
    hide RunOf, Inv;
    InvValid(RunOf(events).res, w);
  }

  /** The sender only sleeps while the operation it waits for is current. */
  lemma NoLostWakeup<V, R>(events: seq<Event<V, R>>)
    ensures var s := RunOf(events); s.pc.Blocked? ==> s.res.ctl.IsCurrent(s.pc.id)
  {
    var w := RunKeeps(events);
    hide RunOf, Inv;
  }

  lemma PollIsSafe<V, R>(events: seq<Event<V, R>>)
    ensures PollAssertsHold(RunOf(events).res)
  {
    var w := RunKeeps(events);
    hide RunOf, Inv, PollAssertsHold;
    var w' := Results.PollKeeps(RunOf(events).res, w);
  }

  /** The response streams are, in order, those of the operations in the list that have been streamed. */
  lemma TagsFollowOperations<V, R>(events: seq<Event<V, R>>) returns (owner: seq<nat>)
    ensures var r := RunOf(events).res;
      && |owner| == |r.tags| && |r.hist| == |r.ctl.ops|
      && (forall i, j | 0 <= i < j < |owner| :: owner[i] < owner[j])
      && (forall j | 0 <= j < |owner| ::
            r.ctl.front <= owner[j] < |r.ctl.ops| && r.tags[j].id == r.ctl.ops[owner[j]].id)
      && (forall k | r.ctl.front <= k < |r.ctl.ops| :: r.hist[k].streamed <==> k in owner)
      && (r.ctl.current.At? ==> r.ctl.current.k == |r.ctl.ops| - 1 && Live(r.ctl.ops[r.ctl.current.k]))
  {
    var w := RunKeeps(events);
    owner := w.owner;
    var r := RunOf(events).res;
    hide RunOf, Told, Flat, WellFormed, Opened, Items;
    assert forall j | 0 <= j < |owner| ::
      InStep(r.tags[j], r.ctl.ops[owner[j]], r.hist[owner[j]], w.blocks[owner[j]]);
    forall k | r.ctl.front <= k < |r.ctl.ops| ensures r.hist[k].streamed <==> k in owner {
      if k !in owner { assert Silent(r.ctl.ops[k], r.hist[k], w.blocks[k]); }
    }
  }

  /** Of several operations with one id only the first can have more than its last result. */
  lemma OnlyTheFirstTalks<V, R>(events: seq<Event<V, R>>, i: nat, k: nat) returns (blocks: seq<seq<Popped<R>>>)
    requires i < k < |RunOf(events).res.ctl.ops| && k < RunOf(events).res.ctl.front
    requires RunOf(events).res.ctl.ops[i].id == RunOf(events).res.ctl.ops[k].id
    ensures Flat(blocks) == RunOf(events).res.log && k < |blocks| && |blocks[k]| == 1 && !blocks[k][0].End?
  {
    var w := RunKeeps(events);
    blocks := w.blocks;
    hide RunOf, Flat, WellFormed, Items, Owned;
    var r := RunOf(events).res;
    OwnedSizes(r, w);
    assert Told(blocks[k], r.ctl.ops[k].id, r.hist[k]);
    assert !r.hist[k].streamed;
  }

  lemma RunStep<V, R>(events: seq<Event<V, R>>, e: Event<V, R>)
    ensures RunOf(events + [e]) == Step(RunOf(events), e)
  {
    assert (events + [e])[..|events|] == events;
  }

  /** Only the sender's decision creates operations. */
  lemma OtherStepsSettle<V, R>(s: Speech<V, R>, e: Event<V, R>, w: Witness<R>)
    requires SpeechInv(s, w) && s.res.Valid() && !(e.SenderStep? && s.pc.Deciding?)
    ensures |Step(s, e).res.ctl.ops| == |s.res.ctl.ops|
    ensures forall k | 0 <= k < |s.res.ctl.ops| :: Step(s, e).res.ctl.ops[k].id == s.res.ctl.ops[k].id
  {
    hide SpeechInv, CancelOp, Respond;
    match e
    case CancelRest(i) =>
      if i < |s.pending| { CancelSettles(s.res.ctl, s.pending[i]); }
    case Response(id, items, fin) =>
      RespondSettles(s.res, id, items, fin);
    case _ =>
  }
}
