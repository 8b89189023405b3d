/** What the server is sent of a voice: the fragments the queue accepted, in order, however the threads interleave. */
module VoiceDelivery {
  import opened StreamSpec
  import opened OpSpec
  import opened Results
  import opened SpeechSystem

  /** What the voice queue accepted for each id, and which voices were erased or cleared while they were in it. */
  datatype Past<+V> = Past(given: map<int, seq<V>>, touched: set<int>)

  function Gave<V>(p: Past<V>, id: int): seq<V> {
    if id in p.given then p.given[id] else []
  }

  function Touch<V>(p: Past<V>, voices: Streams<V>, id: int): Past<V> {
    if id in Ids(voices) then p.(touched := p.touched + {id}) else p
  }

  function Record<V, R>(s: Speech<V, R>, e: Event<V, R>, p: Past<V>): Past<V> {
    match e
    case PutVoice(id, fragments) =>
      if Accepts(s.voices, id) then p.(given := p.given[id := Gave(p, id) + fragments]) else p
    case CancelReq(id) =>
      if id <= 0 then p.(touched := p.touched + Ids(s.voices)) else Touch(p, s.voices, id)
    case SendFailed(_) => if s.pc.Sending? then Touch(p, s.voices, s.pc.req.id) else p
    case GenErase => if s.gen.MustErase? then Touch(p, s.voices, s.gen.id) else p
    case _ => p
  }

  function PastOf<V, R>(events: seq<Event<V, R>>): Past<V> {
    if events == [] then Past(map[], {})
    else
      var n := |events| - 1;
      Record(SpeechSystem.RunOf(events[..n]), events[n], PastOf(events[..n]))
  }

  predicate Starts<V>(f: Frame<V>) {
    f.TextFrame? || f.StartFrame?
  }

  function Say<V>(said: seq<V>, f: Frame<V>): seq<V> {
    match f
    case VoiceFrame(_, data) => said + [data]
    case EndFrame(_) => said
    case _ => []
  }

  /** The data since the last TEXT or START. */
  function Said<V>(wire: seq<Frame<V>>): seq<V> {
    if wire == [] then [] else Say(Said(wire[..|wire| - 1]), wire[|wire| - 1])
  }

  // ---------------------------------------------------------------- the invariant

  /** What was said of a voice and what is still queued are what was accepted first; all of it unless it was erased. */
  ghost predicate Whole<V>(s: Stream<V>, said: seq<V>, p: Past<V>) {
    && said + s.data <= Gave(p, s.id)
    && (s.status.Open? || s.id !in p.touched ==> said + s.data == Gave(p, s.id))
  }

  ghost predicate Line<V>(voices: Streams<V>, id: int, said: seq<V>, p: Past<V>) {
    PolledFront(voices, id) && Whole(voices[0], said, p)
  }

  /** The voice has left the queue, and all of it was said unless it was erased. */
  ghost predicate Gone<V>(issued: set<int>, voices: Streams<V>, id: int, said: seq<V>, p: Past<V>) {
    && id in issued && id !in Ids(voices)
    && said <= Gave(p, id)
    && (id !in p.touched ==> said == Gave(p, id))
  }

  /** `told` means that the request will be sent, `current` that its operation is still current. */
  ghost predicate ReqLine<V>(req: Req<V>, told: bool, current: bool, issued: set<int>, voices: Streams<V>,
                             said: seq<V>, p: Past<V>)
  {
    match req
    case Text(_) => true
    case VoiceStart(id) => Line(voices, id, [], p)
    case VoiceData(id, data) =>
      told ==> said + [data] <= Gave(p, id) && (current ==> Line(voices, id, said + [data], p))
    case _ => told ==> Gone(issued, voices, req.id, said, p)
  }

  ghost predicate PcLine<V>(pc: Pc<V>, c: Ctl, issued: set<int>, voices: Streams<V>, said: seq<V>, p: Past<V>)
    requires c.Valid()
  {
    match pc
    case Got(req) => ReqLine(req, c.current.At?, c.current.At?, issued, voices, said, p)
    case Deciding(req, seen) => ReqLine(req, seen.At?, c.current.At?, issued, voices, said, p)
    case Sending(req) => ReqLine(req, true, c.current.At?, issued, voices, said, p)
    case Check(_) => true
    case Blocked(_) => true
    case _ => c.current.At? ==> Line(voices, c.ops[c.current.k].id, said, p)
  }

  ghost predicate VoicesOk<V>(issued: set<int>, voices: Streams<V>, p: Past<V>) {
    && (forall j | 0 <= j < |voices| && !voices[j].polling :: Whole(voices[j], [], p))
    && (forall j | 0 <= j < |voices| && (voices[j].status.Deleted? || voices[j].status.Failed?) ::
          voices[j].id in p.touched)
    && p.given.Keys <= issued
  }

  /** What was said up to a frame. */
  ghost predicate FrameOk<V>(f: Frame<V>, said: seq<V>, issued: set<int>, voices: Streams<V>, p: Past<V>) {
    match f
    case VoiceFrame(id, _) => said <= Gave(p, id)
    case EndFrame(id) => Gone(issued, voices, id, said, p)
    case _ => said == []
  }

  ghost predicate WireOk<V>(wire: seq<Frame<V>>, issued: set<int>, voices: Streams<V>, p: Past<V>) {
    forall m | 0 <= m < |wire| :: FrameOk(wire[m], Said(wire[..m + 1]), issued, voices, p)
  }

  ghost predicate Delivery<V, R>(s: Speech<V, R>, p: Past<V>) {
    && s.res.Valid()
    && VoicesOk(s.issued, s.voices, p)
    && PcLine(s.pc, s.res.ctl, s.issued, s.voices, Said(s.wire), p)
    && WireOk(s.wire, s.issued, s.voices, p)
  }

  // ---------------------------------------------------------------- changes of the voice queue

  /** One stream takes more while it is open, is completed, or is erased. */
  ghost predicate Moves<V>(s: Stream<V>, s': Stream<V>, p: Past<V>, p': Past<V>) {
    && s'.id == s.id && s'.polling == s.polling
    && Gave(p, s.id) <= Gave(p', s.id) && (Gave(p, s.id) != Gave(p', s.id) ==> s.status.Open?)
    && (s'.status.Open? ==> s.status.Open?)
    && (s'.status.Deleted? || s'.status.Failed? ==> s'.id in p'.touched)
    && (if s'.data == s.data + Gave(p', s.id)[|Gave(p, s.id)|..] then true
        else s'.data == [] && Gave(p, s.id) == Gave(p', s.id) && s.id in p'.touched && !s'.status.Open?)
  }

  lemma MovesWhole<V>(s: Stream<V>, s': Stream<V>, said: seq<V>, p: Past<V>, p': Past<V>)
    requires Moves(s, s', p, p') && Whole(s, said, p) && p.touched <= p'.touched
    ensures Whole(s', said, p')
  {
    var more := Gave(p', s.id)[|Gave(p, s.id)|..];
    assert Gave(p', s.id) == Gave(p, s.id) + more;
    assert said + (s.data + more) == said + s.data + more;
    if s'.data == s.data + more && Gave(p, s.id) == Gave(p', s.id) { assert s.data + more == s.data; }
    assert said + [] <= said + s.data;
  }

  /** The changes reach no voice that is not in the queue. */
  ghost predicate QueueMoves<V>(issued: set<int>, a: Streams<V>, b: Streams<V>, p: Past<V>, p': Past<V>) {
    && |a| == |b| && (forall j | 0 <= j < |a| :: Moves(a[j], b[j], p, p'))
    && (forall x | x !in Ids(a) :: Gave(p', x) == Gave(p, x))
    && p.touched <= p'.touched && p'.given.Keys <= issued
  }

  lemma SameIds<V>(issued: set<int>, a: Streams<V>, b: Streams<V>, p: Past<V>, p': Past<V>)
    requires QueueMoves(issued, a, b, p, p')
    ensures Ids(a) == Ids(b)
    ensures forall x :: Gave(p, x) <= Gave(p', x)
  {
    forall j | 0 <= j < |a| ensures a[j].id == b[j].id {
      assert Moves(a[j], b[j], p, p');
    }
    forall x ensures Gave(p, x) <= Gave(p', x) {
      if x in Ids(a) {
        var j :| 0 <= j < |a| && a[j].id == x;
        assert Moves(a[j], b[j], p, p');
      }
    }
  }

  lemma LineMoves<V>(issued: set<int>, a: Streams<V>, b: Streams<V>, id: int, said: seq<V>, p: Past<V>, p': Past<V>)
    requires QueueMoves(issued, a, b, p, p') && Line(a, id, said, p)
    ensures Line(b, id, said, p')
  {
    MovesWhole(a[0], b[0], said, p, p');
  }

  lemma GoneMoves<V>(issued: set<int>, a: Streams<V>, b: Streams<V>, id: int, said: seq<V>, p: Past<V>, p': Past<V>)
    requires QueueMoves(issued, a, b, p, p') && Gone(issued, a, id, said, p)
    ensures Gone(issued, b, id, said, p')
  {
    SameIds(issued, a, b, p, p');
  }

  lemma ReqMoves<V>(req: Req<V>, told: bool, current: bool, issued: set<int>, a: Streams<V>, b: Streams<V>,
                    said: seq<V>, p: Past<V>, p': Past<V>)
    requires QueueMoves(issued, a, b, p, p') && ReqLine(req, told, current, issued, a, said, p)
    ensures ReqLine(req, told, current, issued, b, said, p')
  {
    hide QueueMoves, Line, Gone, Gave, Ids;
    SameIds(issued, a, b, p, p');
    match req
    case Text(_) =>
    case VoiceStart(id) => LineMoves(issued, a, b, id, [], p, p');
    case VoiceData(id, data) =>
      if told && current { LineMoves(issued, a, b, id, said + [data], p, p'); }
    case _ =>
      if told { GoneMoves(issued, a, b, req.id, said, p, p'); }
  }

  lemma WireMoves<V>(wire: seq<Frame<V>>, issued: set<int>, a: Streams<V>, b: Streams<V>, p: Past<V>, p': Past<V>)
    requires QueueMoves(issued, a, b, p, p') && WireOk(wire, issued, a, p)
    ensures WireOk(wire, issued, b, p')
  {
    hide QueueMoves, Gone, Gave, Ids, Said;
    SameIds(issued, a, b, p, p');
    forall m | 0 <= m < |wire| ensures FrameOk(wire[m], Said(wire[..m + 1]), issued, b, p') {
      var said := Said(wire[..m + 1]);
      assert FrameOk(wire[m], said, issued, a, p);
      if wire[m].EndFrame? { GoneMoves(issued, a, b, wire[m].id, said, p, p'); }
    }
  }

  lemma VoicesMove<V>(issued: set<int>, a: Streams<V>, b: Streams<V>, p: Past<V>, p': Past<V>)
    requires QueueMoves(issued, a, b, p, p') && VoicesOk(issued, a, p)
    ensures VoicesOk(issued, b, p')
  {
    hide Whole, Ids;
    forall j | 0 <= j < |b| && !b[j].polling ensures Whole(b[j], [], p') {
      assert Moves(a[j], b[j], p, p');
      MovesWhole(a[j], b[j], [], p, p');
    }
    assert forall j | 0 <= j < |b| :: Moves(a[j], b[j], p, p');
  }

  /** The queue changes and nothing else of what matters here. */
  lemma QueueKeeps<V, R>(s: Speech<V, R>, voices: Streams<V>, p: Past<V>, p': Past<V>)
    requires Delivery(s, p) && QueueMoves(s.issued, s.voices, voices, p, p')
    ensures Delivery(s.(voices := voices), p')
  {
    hide QueueMoves, VoicesOk, WireOk, Line, ReqLine, Said;
    var said := Said(s.wire);
    VoicesMove(s.issued, s.voices, voices, p, p');
    WireMoves(s.wire, s.issued, s.voices, voices, p, p');
    match s.pc
    case Got(req) =>
      ReqMoves(req, s.res.ctl.current.At?, s.res.ctl.current.At?, s.issued, s.voices, voices, said, p, p');
    case Deciding(req, seen) =>
      ReqMoves(req, seen.At?, s.res.ctl.current.At?, s.issued, s.voices, voices, said, p, p');
    case Sending(req) =>
      ReqMoves(req, true, s.res.ctl.current.At?, s.issued, s.voices, voices, said, p, p');
    case Check(_) =>
    case Blocked(_) =>
    case _ =>
      if s.res.ctl.current.At? {
        LineMoves(s.issued, s.voices, voices, s.res.ctl.ops[s.res.ctl.current.k].id, said, p, p');
      }
  }

  lemma {:induction false} AppendAllIs<V>(q: Streams<V>, id: int, items: seq<V>)
    ensures var i := Index(q, id);
      AppendAll(q, id, items) == if Accepts(q, id) then q[i := q[i].(data := q[i].data + items)] else q
    decreases |items|
  {
    var i := Index(q, id);
    if items == [] {
      if Accepts(q, id) { assert q[i].data + [] == q[i].data; }
    } else {
      var q1 := Append(q, id, items[0]);
      AppendAllIs(q1, id, items[1..]);
      if Accepts(q, id) {
        AppendIndex(q, id, items[0]);
        assert q[i].data + [items[0]] + items[1..] == q[i].data + items;
      }
    }
  }

  lemma AppendIndex<V>(q: Streams<V>, id: int, item: V)
    requires Accepts(q, id)
    ensures Index(Append(q, id, item), id) == Index(q, id) && Accepts(Append(q, id, item), id)
  {
    var q1, i := Append(q, id, item), Index(q, id);
    var i1 := Index(q1, id);
    assert q1[i].id == id;
    assert q[i1].id == q1[i1].id;
  }

  lemma PutMoves<V>(issued: set<int>, q: Streams<V>, id: int, items: seq<V>, p: Past<V>)
    requires WellFormed(q) && VoicesOk(issued, q, p) && Ids(q) <= issued
    ensures QueueMoves(issued, q, AppendAll(q, id, items), p,
                       if Accepts(q, id) then p.(given := p.given[id := Gave(p, id) + items]) else p)
  {
    hide Index, AppendAll, Whole;
    AppendAllIs(q, id, items);
    InIds(q, id);
    var q' := AppendAll(q, id, items);
    var p' := if Accepts(q, id) then p.(given := p.given[id := Gave(p, id) + items]) else p;
    forall j | 0 <= j < |q| ensures Moves(q[j], q'[j], p, p') {
      if Accepts(q, id) && j == Index(q, id) {
        assert Gave(p', id)[|Gave(p, id)|..] == items;
      } else {
        assert Gave(p', q[j].id)[|Gave(p, q[j].id)|..] == [];
        assert q[j].data + [] == q[j].data;
      }
    }
  }

  lemma StaysMoves<V>(s: Stream<V>, s': Stream<V>, p: Past<V>)
    requires s' == s || s' == s.(status := Completed, content := s'.content)
    requires s.status.Deleted? || s.status.Failed? ==> s.id in p.touched
    ensures Moves(s, s', p, p)
  {
    assert Gave(p, s.id)[|Gave(p, s.id)|..] == [];
    assert s.data + [] == s.data;
  }

  lemma EndMoves<V>(issued: set<int>, q: Streams<V>, id: int, last: Option<V>, p: Past<V>)
    requires VoicesOk(issued, q, p)
    ensures QueueMoves(issued, q, Complete(q, id, last), p, p)
  {
    hide Moves, Whole;
    forall j | 0 <= j < |q| ensures Moves(q[j], Complete(q, id, last)[j], p, p) {
      StaysMoves(q[j], Complete(q, id, last)[j], p);
    }
  }

  lemma ErasedMoves<V>(s: Stream<V>, err: nat, p: Past<V>, p': Past<V>)
    requires p'.given == p.given && s.id in p'.touched
    ensures Moves(s, Erased(s, err), p, p')
  {
    assert Gave(p, s.id)[|Gave(p, s.id)|..] == [];
    if s.data == [] { assert s.data + [] == []; }
  }

  lemma TouchedMoves<V>(s: Stream<V>, p: Past<V>, p': Past<V>)
    requires p'.given == p.given && p.touched <= p'.touched
    requires s.status.Deleted? || s.status.Failed? ==> s.id in p.touched
    ensures Moves(s, s, p, p')
  {
    assert Gave(p, s.id)[|Gave(p, s.id)|..] == [];
    assert s.data + [] == s.data;
  }

  lemma EraseMoves<V>(issued: set<int>, q: Streams<V>, id: int, err: nat, p: Past<V>)
    requires WellFormed(q) && VoicesOk(issued, q, p)
    ensures QueueMoves(issued, q, Erase(q, id, err), p, Touch(p, q, id))
  {
    hide Moves, Whole, Erased;
    InIds(q, id);
    var p' := Touch(p, q, id);
    forall j | 0 <= j < |q| ensures Moves(q[j], Erase(q, id, err)[j], p, p') {
      if Has(q, id) && j == Index(q, id) { ErasedMoves(q[j], err, p, p'); } else { TouchedMoves(q[j], p, p'); }
    }
  }

  lemma ClearMoves<V>(issued: set<int>, q: Streams<V>, p: Past<V>)
    requires VoicesOk(issued, q, p)
    ensures QueueMoves(issued, q, Clear(q), p, p.(touched := p.touched + Ids(q)))
  {
    hide Moves, Whole, Erased;
    var p' := p.(touched := p.touched + Ids(q));
    forall j | 0 <= j < |q| ensures Moves(q[j], Clear(q)[j], p, p') {
      assert q[j].id in Ids(q);
      ErasedMoves(q[j], 0, p, p');
    }
  }

  // ---------------------------------------------------------------- steps that only let go of the current operation

  /** Where the current operation matters, it stays or goes. */
  lemma SettledLine<V, R>(s: Speech<V, R>, res: Results.State<R>, p: Past<V>)
    requires Delivery(s, p) && res.Valid() && Settled(s.res.ctl, res.ctl)
    ensures Delivery(Woken(s, res), p)
  {
    hide VoicesOk, WireOk, Line, Gone, Said;
  }

  /** What does not matter here. */
  lemma OthersIrrelevant<V, R>(s: Speech<V, R>, p: Past<V>, pending: seq<int>, gen: GenPc, texts: seq<TextReq>)
    requires Delivery(s, p)
    ensures Delivery(s.(pending := pending, gen := gen, texts := texts), p)
  {
    hide VoicesOk, WireOk, PcLine, Said;
  }

  /** A new id: nothing was accepted for it yet. */
  lemma IssuedMore<V, R>(s: Speech<V, R>, p: Past<V>, id: int)
    requires Delivery(s, p) && id !in s.issued
    ensures Delivery(s.(issued := s.issued + {id}), p)
  {
    hide Whole, Said;
  }

  /** A new voice: nothing was accepted for it yet. */
  lemma StartVoiceDelivery<V, R>(s: Speech<V, R>, w: Witness<R>, p: Past<V>, id: int)
    requires SpeechInv(s, w) && Delivery(s, p) && id !in s.issued
    ensures Delivery(s.(issued := s.issued + {id}, voices := Begin(s.voices, id)), p)
  {
    hide Inv, Heard, PcOk, ReqTaken, PcLine, WireOk, WellFormed, Said;
    InIds(s.voices, id);
    var issued', voices' := s.issued + {id}, Begin(s.voices, id);
    assert voices' == s.voices + [Stream(id, false, Open, 0, [], None)];
    NewVoice(s.issued, s.voices, id, p);
    BegunPc(s.pc, s.res.ctl, s.issued, s.voices, id, Said(s.wire), p);
    BegunWire(s.wire, s.issued, s.voices, id, p);
  }

  lemma NewVoice<V>(issued: set<int>, voices: Streams<V>, id: int, p: Past<V>)
    requires VoicesOk(issued, voices, p) && id !in issued
    ensures VoicesOk(issued + {id}, voices + [Stream(id, false, Open, 0, [], None)], p)
  {
    assert [] + [] == Gave(p, id);
  }

  lemma BegunGone<V>(issued: set<int>, voices: Streams<V>, id: int, x: int, said: seq<V>, p: Past<V>)
    requires Gone(issued, voices, x, said, p) && id !in issued
    ensures Gone(issued + {id}, voices + [Stream(id, false, Open, 0, [], None)], x, said, p)
  {
  }

  lemma BegunLine<V>(voices: Streams<V>, id: int, x: int, said: seq<V>, p: Past<V>)
    requires Line(voices, x, said, p)
    ensures Line(voices + [Stream(id, false, Open, 0, [], None)], x, said, p)
  {
  }

  lemma BegunReq<V>(req: Req<V>, told: bool, current: bool, issued: set<int>, voices: Streams<V>, id: int,
                    said: seq<V>, p: Past<V>)
    requires ReqLine(req, told, current, issued, voices, said, p) && id !in issued
    ensures ReqLine(req, told, current, issued + {id}, voices + [Stream(id, false, Open, 0, [], None)], said, p)
  {
    hide Line, Gone, Gave;
    match req
    case Text(_) =>
    case VoiceStart(x) => BegunLine(voices, id, x, [], p);
    case VoiceData(x, data) =>
      if told && current { BegunLine(voices, id, x, said + [data], p); }
    case _ =>
      if told { BegunGone(issued, voices, id, req.id, said, p); }
  }

  lemma BegunPc<V>(pc: Pc<V>, c: Ctl, issued: set<int>, voices: Streams<V>, id: int, said: seq<V>, p: Past<V>)
    requires c.Valid() && PcLine(pc, c, issued, voices, said, p) && id !in issued
    ensures PcLine(pc, c, issued + {id}, voices + [Stream(id, false, Open, 0, [], None)], said, p)
  {
    hide Line, ReqLine;
    match pc
    case Got(req) => BegunReq(req, c.current.At?, c.current.At?, issued, voices, id, said, p);
    case Deciding(req, seen) => BegunReq(req, seen.At?, c.current.At?, issued, voices, id, said, p);
    case Sending(req) => BegunReq(req, true, c.current.At?, issued, voices, id, said, p);
    case Check(_) =>
    case Blocked(_) =>
    case _ =>
      if c.current.At? { BegunLine(voices, id, c.ops[c.current.k].id, said, p); }
  }

  lemma BegunWire<V>(wire: seq<Frame<V>>, issued: set<int>, voices: Streams<V>, id: int, p: Past<V>)
    requires WireOk(wire, issued, voices, p) && id !in issued
    ensures WireOk(wire, issued + {id}, voices + [Stream(id, false, Open, 0, [], None)], p)
  {
    hide Gone, Said, Gave;
    forall m | 0 <= m < |wire|
      ensures FrameOk(wire[m], Said(wire[..m + 1]), issued + {id}, voices + [Stream(id, false, Open, 0, [], None)], p)
    {
      assert FrameOk(wire[m], Said(wire[..m + 1]), issued, voices, p);
      if wire[m].EndFrame? { BegunGone(issued, voices, id, wire[m].id, Said(wire[..m + 1]), p); }
    }
  }

  // ---------------------------------------------------------------- the sender's steps

  lemma PopGone<V>(issued: set<int>, voices: Streams<V>, id: int, said: seq<V>, p: Past<V>)
    requires Gone(issued, voices, id, said, p) && !Front(voices).Empty?
    ensures Gone(issued, Rest(voices), id, said, p)
  {
    hide Front, Rest;
    EmptyPopsNothing(voices);
    PopLeaves(voices);
    forall j | 0 <= j < |Rest(voices)| ensures Rest(voices)[j].id != id {
      var i :| 0 <= i < |voices| && Rest(voices)[j].id == voices[i].id;
    }
  }

  lemma PopVoices<V>(issued: set<int>, voices: Streams<V>, p: Past<V>)
    requires VoicesOk(issued, voices, p) && !Front(voices).Empty?
    ensures VoicesOk(issued, Rest(voices), p)
  {
    hide Whole;
    EmptyPopsNothing(voices);
  }

  lemma PopWire<V>(wire: seq<Frame<V>>, issued: set<int>, voices: Streams<V>, p: Past<V>)
    requires WireOk(wire, issued, voices, p) && !Front(voices).Empty?
    ensures WireOk(wire, issued, Rest(voices), p)
  {
    hide Gone, Said, Gave, Front, Rest;
    forall m | 0 <= m < |wire| ensures FrameOk(wire[m], Said(wire[..m + 1]), issued, Rest(voices), p) {
      assert FrameOk(wire[m], Said(wire[..m + 1]), issued, voices, p);
      if wire[m].EndFrame? { PopGone(issued, voices, wire[m].id, Said(wire[..m + 1]), p); }
    }
  }

  /** What the request that is popped says of its voice. `at` is the voice in progress, if any. */
  lemma PopReq<V>(issued: set<int>, voices: Streams<V>, current: bool, said: seq<V>, p: Past<V>)
    requires WellFormed(voices) && VoicesOk(issued, voices, p) && !Front(voices).Empty? && Ids(voices) <= issued
    requires current ==> voices != [] && Line(voices, voices[0].id, said, p)
    ensures ReqLine(ReqOf(Front(voices)), current, current, issued, Rest(voices), said, p)
  {
    EmptyPopsNothing(voices);
    var s := voices[0];
    assert s.id in Ids(voices);
    if Front(voices).Start? {
      assert Whole(s, [], p);
    } else if Front(voices).Data? {
      assert said + s.data == said + [s.data[0]] + s.data[1..];
    } else {
      assert Rest(voices) == voices[1..];
      assert said <= said + s.data;
      if s.data == [] { assert said + s.data == said; }
    }
  }

  lemma PopDelivery<V, R>(s: Speech<V, R>, w: Witness<R>, p: Past<V>)
    requires SpeechInv(s, w) && Delivery(s, p) && s.pc.Top? && !Front(s.voices).Empty?
    ensures Delivery(SenderMoves(s), p)
  {
    hide Inv, Heard, ReqTaken, WellFormed, Front, Rest, VoicesOk, WireOk, ReqLine, Whole, Said;
    PopVoices(s.issued, s.voices, p);
    PopWire(s.wire, s.issued, s.voices, p);
    PopReq(s.issued, s.voices, s.res.ctl.current.At?, Said(s.wire), p);
  }

  lemma TextDelivery<V, R>(s: Speech<V, R>, w: Witness<R>, p: Past<V>)
    requires SpeechInv(s, w) && Delivery(s, p) && !s.pc.Deciding? && (s.pc.Top? ==> Front(s.voices).Empty?)
    ensures Delivery(SenderMoves(s), p)
  {
    hide Inv, Heard, ReqTaken, IdsOk, VoicesOk, WireOk, Line, Gone, Said;
  }

  lemma DecideDelivery<V, R>(s: Speech<V, R>, w: Witness<R>, p: Past<V>)
    requires SpeechInv(s, w) && Delivery(s, p) && s.pc.Deciding?
    ensures Delivery(Decide(s), p)
  {
    hide Inv, Heard, ReqTaken, IdsOk, VoicesOk, WireOk, Line, Gone, Said;
  }

  lemma SaidPush<V>(wire: seq<Frame<V>>, f: Frame<V>)
    ensures Said(wire + [f]) == Say(Said(wire), f)
  {
    assert (wire + [f])[..|wire|] == wire;
  }

  lemma SentWire<V>(wire: seq<Frame<V>>, f: Frame<V>, issued: set<int>, voices: Streams<V>, p: Past<V>)
    requires WireOk(wire, issued, voices, p) && FrameOk(f, Said(wire + [f]), issued, voices, p)
    ensures WireOk(wire + [f], issued, voices, p)
  {
    hide FrameOk, Said;
    var wire' := wire + [f];
    forall m | 0 <= m < |wire'| ensures FrameOk(wire'[m], Said(wire'[..m + 1]), issued, voices, p) {
      if m < |wire| {
        assert wire'[..m + 1] == wire[..m + 1];
      } else {
        assert wire'[..m + 1] == wire';
      }
    }
  }

  /** What is sent of a voice. */
  lemma SendOkDelivery<V, R>(s: Speech<V, R>, w: Witness<R>, p: Past<V>)
    requires SpeechInv(s, w) && Delivery(s, p)
    ensures Delivery(SpeechSystem.Step(s, SendOk), p)
  {
    hide Inv, Heard, ReqTaken, IdsOk, VoicesOk, WireOk, Line, Gone, Said, Gave;
    if s.pc.Sending? {
      SaidPush(s.wire, FrameOf(s.pc.req));
      SentWire(s.wire, FrameOf(s.pc.req), s.issued, s.voices, p);
    }
  }

  lemma SendFailedDelivery<V, R>(s: Speech<V, R>, w: Witness<R>, p: Past<V>, err: nat)
    requires SpeechInv(s, w) && Delivery(s, p) && s.pc.Sending?
    ensures Delivery(SpeechSystem.Step(s, SendFailed(err)), Touch(p, s.voices, s.pc.req.id))
  {
    hide SpeechInv, VoicesOk, WireOk, Line, Gone, QueueMoves, Said, ReqLine, Touch, Erase;
    VoicesWellFormed(s, w);
    EraseMoves(s.issued, s.voices, s.pc.req.id, SPEECH_TIMEOUT, p);
    QueueKeeps(s, Erase(s.voices, s.pc.req.id, SPEECH_TIMEOUT), p, Touch(p, s.voices, s.pc.req.id));
  }

  lemma GenEraseDelivery<V, R>(s: Speech<V, R>, w: Witness<R>, p: Past<V>)
    requires SpeechInv(s, w) && s.res.Valid() && Delivery(s, p) && s.gen.MustErase?
    ensures Delivery(SpeechSystem.Step(s, GenErase), Touch(p, s.voices, s.gen.id))
  {
    hide SpeechInv, Delivery, QueueMoves, Erase, VoicesOk, Touch, WellFormed, Woken, Respond, Poll, Fail, Cancel,
      AppendAll, Complete, CancelFirst, SenderMoves;
    VoicesWellFormed(s, w);
    DeliveryVoices(s, p);
    var voices, p' := Erase(s.voices, s.gen.id, SPEECH_TIMEOUT), Touch(p, s.voices, s.gen.id);
    EraseMoves(s.issued, s.voices, s.gen.id, SPEECH_TIMEOUT, p);
    QueueKeeps(s, voices, p, p');
    OthersIrrelevant(s.(voices := voices), p', s.pending, GenIdle, s.texts);
  }

  lemma CancelDelivery<V, R>(s: Speech<V, R>, w: Witness<R>, p: Past<V>, id: int)
    requires SpeechInv(s, w) && Delivery(s, p)
    ensures Delivery(CancelFirst(s, id), Record(s, CancelReq(id), p))
  {
    hide SpeechInv, Delivery, QueueMoves, Erase, Clear, MarkTexts, Index, HasText, Ids, WellFormed, VoicesOk;
    VoicesWellFormed(s, w);
    DeliveryVoices(s, p);
    InIds(s.voices, id);
    var s1 := CancelFirst(s, id);
    var p1 := Record(s, CancelReq(id), p);
    if id <= 0 {
      ClearMoves(s.issued, s.voices, p);
      QueueKeeps(s, s1.voices, p, p1);
    } else if Has(s.voices, id) {
      EraseMoves(s.issued, s.voices, id, 0, p);
      QueueKeeps(s, s1.voices, p, p1);
    }
    OthersIrrelevant(s.(voices := s1.voices), p1, s1.pending, s.gen, s1.texts);
  }

  lemma DeliveryVoices<V, R>(s: Speech<V, R>, p: Past<V>)
    requires Delivery(s, p)
    ensures VoicesOk(s.issued, s.voices, p)
  {
  }

  lemma IssuedVoices<V, R>(s: Speech<V, R>, w: Witness<R>)
    requires SpeechInv(s, w)
    ensures Ids(s.voices) <= s.issued
  {
  }

  lemma SenderDelivery<V, R>(s: Speech<V, R>, w: Witness<R>, p: Past<V>)
    requires SpeechInv(s, w) && Delivery(s, p)
    ensures Delivery(SenderMoves(s), p)
  {
    DeliveryValid(s, p);
    if s.pc.Deciding? {
      DecideDelivery(s, w, p);
    } else if s.pc.Top? && !Front(s.voices).Empty? {
      PopDelivery(s, w, p);
    } else {
      TextDelivery(s, w, p);
    }
  }

  lemma DeliveryValid<V, R>(s: Speech<V, R>, p: Past<V>)
    requires Delivery(s, p)
    ensures s.res.Valid()
  {
  }

  // The regions of the result side: the voice queue and the wire are not theirs.

  lemma CancelRestDelivery<V, R>(s: Speech<V, R>, p: Past<V>, i: nat)
    requires Delivery(s, p)
    ensures Delivery(SpeechSystem.Step(s, CancelRest(i)), p)
  {
    hide Delivery, CancelOp;
    DeliveryValid(s, p);
    if i < |s.pending| {
      var pending := s.pending[..i] + s.pending[i + 1..];
      OthersIrrelevant(s, p, pending, s.gen, s.texts);
      CancelSettles(s.res.ctl, s.pending[i]);
      SettledLine(s.(pending := pending), Cancel(s.res, s.pending[i]), p);
    }
  }

  lemma ResponseDelivery<V, R>(s: Speech<V, R>, p: Past<V>, id: int, items: seq<R>, fin: Finish<R>)
    requires Delivery(s, p)
    ensures Delivery(SpeechSystem.Step(s, Response(id, items, fin)), p)
  {
    hide Delivery, Respond;
    DeliveryValid(s, p);
    if s.gen.GenIdle? && !(fin.Refused? && fin.err == 0) {
      var gen := if s.res.ctl.IsCurrent(id) && !fin.Going? then MustErase(id) else GenIdle;
      OthersIrrelevant(s, p, s.pending, gen, s.texts);
      RespondSettles(s.res, id, items, fin);
      SettledLine(s.(gen := gen), Respond(s.res, id, items, fin), p);
    }
  }

  lemma RecvFailedDelivery<V, R>(s: Speech<V, R>, p: Past<V>, err: nat)
    requires Delivery(s, p)
    ensures Delivery(SpeechSystem.Step(s, RecvFailed(err)), p)
  {
    hide Delivery;
    DeliveryValid(s, p);
    if s.gen.GenIdle? {
      var gen := if s.res.ctl.current.At? then MustErase(s.res.ctl.ops[s.res.ctl.current.k].id) else GenIdle;
      OthersIrrelevant(s, p, s.pending, gen, s.texts);
      SettledLine(s.(gen := gen), Fail(s.res, err), p);
    }
  }

  lemma PollDelivery<V, R>(s: Speech<V, R>, p: Past<V>)
    requires Delivery(s, p)
    ensures Delivery(SpeechSystem.Step(s, PollResult), p)
  {
    hide Delivery;
    DeliveryValid(s, p);
    PollSettles(s.res);
    SettledLine(s, Poll(s.res), p);
    assert Woken(s, Poll(s.res)) == SpeechSystem.Step(s, PollResult);
  }

  lemma PollSettles<R>(r: Results.State<R>)
    requires r.Valid()
    ensures Settled(r.ctl, Poll(r).ctl)
  {
  }

  lemma StepDelivery<V, R>(s: Speech<V, R>, e: Event<V, R>, w: Witness<R>, p: Past<V>)
    requires SpeechInv(s, w) && Delivery(s, p)
    ensures s.res.Valid() && Delivery(SpeechSystem.Step(s, e), Record(s, e, p))
  {
    hide SpeechInv, Delivery, QueueMoves, Erase, AppendAll, Complete, Begin, SenderMoves, CancelFirst, WellFormed,
      VoicesOk, Ids, Woken, Respond, Poll, Fail, Cancel;
    VoicesWellFormed(s, w);
    DeliveryVoices(s, p);
    DeliveryValid(s, p);
    IssuedVoices(s, w);
    match e
    case PutText(id) =>
      if id > 0 && id !in s.issued {
        IssuedMore(s, p, id);
        OthersIrrelevant(s.(issued := s.issued + {id}), p, s.pending, s.gen, s.texts + [TextReq(id, false)]);
      }
    case StartVoice(id) =>
      if id > 0 && id !in s.issued { StartVoiceDelivery(s, w, p, id); }
    case PutVoice(id, fragments) =>
      PutMoves(s.issued, s.voices, id, fragments, p);
      QueueKeeps(s, AppendAll(s.voices, id, fragments), p, Record(s, e, p));
    case EndVoice(id) =>
      EndMoves(s.issued, s.voices, id, None, p);
      QueueKeeps(s, Complete(s.voices, id, None), p, p);
    case CancelReq(id) =>
      CancelDelivery(s, w, p, id);
    case SenderStep =>
      SenderDelivery(s, w, p);
    case SendOk =>
      SendOkDelivery(s, w, p);
    case SendFailed(err) =>
      if s.pc.Sending? { SendFailedDelivery(s, w, p, err); }
    case GenErase =>
      if s.gen.MustErase? { GenEraseDelivery(s, w, p); }
    case PollResult =>
      PollDelivery(s, p);
    case CancelRest(i) =>
      CancelRestDelivery(s, p, i);
    case Response(id, items, fin) =>
      ResponseDelivery(s, p, id, items, fin);
    case RecvFailed(err) =>
      RecvFailedDelivery(s, p, err);
  }

  lemma {:induction false} DeliveryInv<V, R>(events: seq<Event<V, R>>) returns (w: Witness<R>)
    ensures SpeechInv(SpeechSystem.RunOf(events), w) && Delivery(SpeechSystem.RunOf(events), PastOf(events))
    decreases |events|
  {
    hide SpeechInv, Delivery, SpeechSystem.Step, Record;
    if events == [] {
      InitOk<V, R>();
      w := Witness([], []);
      InitDelivery<V, R>();
    } else {
      var n := |events| - 1;
      w := DeliveryInv(events[..n]);
      StepDelivery(SpeechSystem.RunOf(events[..n]), events[n], w, PastOf(events[..n]));
      w := StepKeeps(SpeechSystem.RunOf(events[..n]), events[n], w);
    }
  }

  lemma InitDelivery<V, R>()
    ensures Delivery<V, R>(Init(), Past(map[], {}))
  {
  }

  // ---------------------------------------------------------------- what the server hears of a voice

  /** The sentence is a beginning of what was accepted; if it was ended and its voice never erased, it is all of it. */
  ghost predicate SaysVoice<V>(w: seq<Frame<V>>, p: Past<V>)
    requires w != []
  {
    && Said(w) <= Gave(p, w[0].id)
    && (w[|w| - 1].EndFrame? && w[0].id !in p.touched ==> Said(w) == Gave(p, w[0].id))
  }

  lemma {:induction false} SaidOfSentence<V>(before: seq<Frame<V>>, w: seq<Frame<V>>)
    requires w != [] && Starts(w[0])
    ensures Said(before + w) == Said(w)
    decreases |w|
  {
    var n := |w| - 1;
    assert before + w == before + w[..n] + [w[n]] && w == w[..n] + [w[n]];
    SaidPush(before + w[..n], w[n]);
    SaidPush(w[..n], w[n]);
    if n == 0 {
    } else {
      SaidOfSentence(before, w[..n]);
    }
  }

  /** Where a sentence ends on the wire. */
  lemma SentenceEnd<V>(ss: seq<seq<Frame<V>>>, i: nat) returns (m: nat)
    requires i < |ss| && ss[i] != []
    ensures m < |Flat(ss)| && Flat(ss)[m] == ss[i][|ss[i]| - 1] && Flat(ss)[..m + 1] == Flat(ss[..i]) + ss[i]
  {
    assert ss == ss[..i + 1] + ss[i + 1..] && ss[..i + 1][..i] == ss[..i];
    FlatConcat(ss[..i + 1], ss[i + 1..]);
    m := |Flat(ss[..i + 1])| - 1;
  }

  lemma LastFrameSays<V>(w: seq<Frame<V>>, issued: set<int>, voices: Streams<V>, p: Past<V>)
    requires Sentence(w) && FrameOk(w[|w| - 1], Said(w), issued, voices, p)
    ensures SaysVoice(w, p)
  {
    if |w| == 1 { assert Said(w) == []; }
  }

  /**
   * What the server hears: sentences, each carrying, in order, what the queue accepted first of its voice. A voice
   * that was ended and never erased or cleared has been sent whole.
   */
  lemma VoicesDelivered<V, R>(events: seq<Event<V, R>>) returns (ss: seq<seq<Frame<V>>>)
    ensures Flat(ss) == SpeechSystem.RunOf(events).wire
    ensures forall i | 0 <= i < |ss| :: Sentence(ss[i]) && SaysVoice(ss[i], PastOf(events))
  {
    hide SpeechInv, SpeechSystem.RunOf, PastOf, Flat, Sentence, SaysVoice, FrameOk, Said, VoicesOk, PcLine;
    var w := DeliveryInv(events);
    ss := WireOrder(events);
    var s, p := SpeechSystem.RunOf(events), PastOf(events);
    forall i | 0 <= i < |ss| ensures ss[i] != [] && SaysVoice(ss[i], p) {
      SentenceStarts(ss[i]);
      var m := SentenceEnd(ss, i);
      assert FrameOk(s.wire[m], Said(s.wire[..m + 1]), s.issued, s.voices, p);
      SaidOfSentence(Flat(ss[..i]), ss[i]);
      LastFrameSays(ss[i], s.issued, s.voices, p);
    }
  }

  lemma SentenceStarts<V>(w: seq<Frame<V>>)
    requires Sentence(w)
    ensures w != [] && Starts(w[0])
  {
  }

  // ---------------------------------------------------------------- no request is sent twice

  ghost predicate StartsOk<V>(wire: seq<Frame<V>>, ops: seq<Op>, pc: Pc<V>) {
    && (forall m | 0 <= m < |wire| && Starts(wire[m]) :: !NewId(wire[m].id, ops))
    && (forall i, j | 0 <= i < j < |wire| && Starts(wire[i]) && Starts(wire[j]) :: wire[i].id != wire[j].id)
    && (pc.Sending? && Begins(pc.req) ==>
          !NewId(pc.req.id, ops) && forall m | 0 <= m < |wire| && Starts(wire[m]) :: wire[m].id != pc.req.id)
  }

  lemma StillKnown(ops: seq<Op>, ops': seq<Op>)
    requires |ops| <= |ops'| && forall k | 0 <= k < |ops| :: ops'[k].id == ops[k].id
    ensures forall x :: !NewId(x, ops) ==> !NewId(x, ops')
  {
    forall x | !NewId(x, ops) ensures !NewId(x, ops') {
      var k :| 0 <= k < |ops| && ops[k].id == x;
      assert ops'[k].id == x;
    }
  }

  lemma DecideStartsOk<V, R>(s: Speech<V, R>, w: Witness<R>)
    requires SpeechInv(s, w) && s.res.Valid() && s.pc.Deciding? && StartsOk(s.wire, s.res.ctl.ops, s.pc)
    ensures StartsOk(Decide(s).wire, Decide(s).res.ctl.ops, Decide(s).pc)
  {
    hide Inv, Heard, IdsOk, ReqTaken;
    var ops, ops' := s.res.ctl.ops, Decide(s).res.ctl.ops;
    assert |ops| <= |ops'| && forall k | 0 <= k < |ops| :: ops'[k].id == ops[k].id;
    StillKnown(ops, ops');
    if Begins(s.pc.req) { assert ops'[|ops|].id == s.pc.req.id; }
  }

  lemma StepStartsOk<V, R>(s: Speech<V, R>, e: Event<V, R>, w: Witness<R>)
    requires SpeechInv(s, w) && s.res.Valid() && StartsOk(s.wire, s.res.ctl.ops, s.pc)
    ensures var s' := SpeechSystem.Step(s, e); StartsOk(s'.wire, s'.res.ctl.ops, s'.pc)
  {
    if e.SenderStep? && s.pc.Deciding? {
      DecideStartsOk(s, w);
    } else {
      OtherStepsSettle(s, e, w);
      StillKnown(s.res.ctl.ops, SpeechSystem.Step(s, e).res.ctl.ops);
      StepStarts(s, e);
    }
  }

  lemma StepStarts<V, R>(s: Speech<V, R>, e: Event<V, R>)
    requires s.res.Valid() && !(e.SenderStep? && s.pc.Deciding?)
    requires StartsOk(s.wire, s.res.ctl.ops, s.pc)
    requires forall x :: !NewId(x, s.res.ctl.ops) ==> !NewId(x, SpeechSystem.Step(s, e).res.ctl.ops)
    ensures var s' := SpeechSystem.Step(s, e); StartsOk(s'.wire, s'.res.ctl.ops, s'.pc)
  {
    hide NewId, Respond, CancelOp, Poll, AppendAll, MarkTexts, Index;
  }

  lemma {:induction false} StartsInv<V, R>(events: seq<Event<V, R>>) returns (w: Witness<R>)
    ensures var s := SpeechSystem.RunOf(events); SpeechInv(s, w) && StartsOk(s.wire, s.res.ctl.ops, s.pc)
    decreases |events|
  {
    hide SpeechInv, StartsOk, SpeechSystem.Step;
    if events == [] {
      InitOk<V, R>();
      w := Witness([], []);
      NothingSent<V, R>();
    } else {
      var n := |events| - 1;
      w := StartsInv(events[..n]);
      StepStartsOk(SpeechSystem.RunOf(events[..n]), events[n], w);
      w := StepKeeps(SpeechSystem.RunOf(events[..n]), events[n], w);
    }
  }

  lemma NothingSent<V, R>()
    ensures var s: Speech<V, R> := Init(); StartsOk(s.wire, s.res.ctl.ops, s.pc)
  {
  }

  /** A request is sent at most once: no two TEXT or START frames have the same id. */
  lemma SentOnce<V, R>(events: seq<Event<V, R>>)
    ensures var wire := SpeechSystem.RunOf(events).wire;
      forall i, j | 0 <= i < j < |wire| && Starts(wire[i]) && Starts(wire[j]) :: wire[i].id != wire[j].id
  {
    hide SpeechInv, SpeechSystem.RunOf;
    var w := StartsInv(events);
  }

  // ---------------------------------------------------------------- the operation in progress was sent

  /** The sender waits for the answer to what it sent last. */
  ghost predicate WaitsForLast<V>(wire: seq<Frame<V>>, pc: Pc<V>) {
    pc.Check? || pc.Blocked? ==>
      wire != [] && (wire[|wire| - 1] == TextFrame(pc.id) || wire[|wire| - 1] == EndFrame(pc.id))
  }

  lemma {:induction false} AlwaysWaitsForLast<V, R>(events: seq<Event<V, R>>)
    ensures var s := SpeechSystem.RunOf(events); WaitsForLast(s.wire, s.pc)
    decreases |events|
  {
    hide SpeechSystem.Step;
    if events == [] {
    } else {
      var n := |events| - 1;
      AlwaysWaitsForLast(events[..n]);
      StepWaitsForLast(SpeechSystem.RunOf(events[..n]), events[n]);
    }
  }

  lemma StepWaitsForLast<V, R>(s: Speech<V, R>, e: Event<V, R>)
    requires s.res.Valid() && WaitsForLast(s.wire, s.pc)
    ensures var s' := SpeechSystem.Step(s, e); WaitsForLast(s'.wire, s'.pc)
  {
    hide Respond, CancelOp, Poll, AppendAll, MarkTexts, Index, Front, Rest;
  }

  ghost predicate Began<V>(wire: seq<Frame<V>>, id: int) {
    exists m :: 0 <= m < |wire| && Starts(wire[m]) && wire[m].id == id
  }

  lemma {:induction false} TalkingBegan<V>(wire: seq<Frame<V>>)
    ensures Heard(wire).Talking? ==> Began(wire, Heard(wire).id)
    decreases |wire|
  {
    if wire == [] {
    } else {
      var n := |wire| - 1;
      TalkingBegan(wire[..n]);
      if Heard(wire).Talking? {
        if wire[n].StartFrame? {
          assert Starts(wire[n]);
        } else {
          var m :| 0 <= m < n && Starts(wire[..n][m]) && wire[..n][m].id == Heard(wire).id;
          assert wire[m] == wire[..n][m];
        }
      }
    }
  }

  lemma LastBegan<V>(wire: seq<Frame<V>>, id: int)
    requires !Heard(wire).Nonsense? && wire != []
    requires wire[|wire| - 1] == TextFrame(id) || wire[|wire| - 1] == EndFrame(id)
    ensures Began(wire, id)
  {
    var n := |wire| - 1;
    TalkingBegan(wire[..n]);
    if wire[n].TextFrame? {
      assert Starts(wire[n]);
    } else {
      var m :| 0 <= m < n && Starts(wire[..n][m]) && wire[..n][m].id == id;
      assert wire[m] == wire[..n][m];
    }
  }

  /** The server has been sent the beginning of the request in progress, unless the sender is just sending it. */
  lemma CurrentWasSent<V, R>(events: seq<Event<V, R>>)
    ensures var s := SpeechSystem.RunOf(events);
      s.res.ctl.current.At? && !s.pc.Sending? ==> Began(s.wire, s.res.ctl.ops[s.res.ctl.current.k].id)
  {
    hide SpeechSystem.RunOf, Inv, IdsOk, ReqTaken, Heard, Began;
    var w := SpeechSystem.RunKeeps(events);
    var s := SpeechSystem.RunOf(events);
    InvValid(s.res, w);
    AlwaysWaitsForLast(events);
    TalkingBegan(s.wire);
    if s.pc.Check? || s.pc.Blocked? { LastBegan(s.wire, s.pc.id); }
  }
}
