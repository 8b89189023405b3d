/**
 * The side of `SpeechImpl` and `TtsImpl` that turns server responses into results: the operation list, the
 * current operation and the response queue, which must stay in step.
 */
module Results {
  import opened StreamSpec
  import opened OpSpec

  /** What has happened to an operation's responses. */
  datatype History<+T> = History(streamed: bool, accepted: seq<T>, last: Option<T>)

  /** `log` is what `poll` returned so far. */
  datatype State<+T> = State(ctl: Ctl, hist: seq<History<T>>, tags: Streams<T>, log: seq<Popped<T>>) {
    predicate Valid() {
      ctl.Valid() && |hist| == |ctl.ops|
    }
  }

  // ---------------------------------------------------------------- what the locked regions do

  function Create<T>(r: State<T>, id: int, status: OpSpec.Status): (r': State<T>)
    requires r.Valid()
    ensures r'.Valid()
  {
    r.(ctl := NewOp(r.ctl, id, status), hist := r.hist + [History(false, [], None)])
  }

  /** The first response of an operation opens its stream. */
  function OpenStream<T>(r: State<T>): (r': State<T>)
    requires r.Valid()
    ensures r'.Valid() && r'.ctl.current == r.ctl.current
  {
    if r.ctl.current.At? && r.ctl.ops[r.ctl.current.k].status.Starting? then
      var k := r.ctl.current.k;
      var op := r.ctl.ops[k];
      r.(ctl := r.ctl.(ops := r.ctl.ops[k := op.(status := Streaming)]),
         hist := r.hist[k := r.hist[k].(streamed := true)],
         tags := Begin(r.tags, op.id))
    else r
  }

  function AddItem<T>(r: State<T>, item: T): (r': State<T>)
    requires r.Valid()
    ensures r'.Valid() && r'.ctl.current == r.ctl.current
  {
    if r.ctl.current.NoOp? then r
    else
      var k := r.ctl.current.k;
      r.(hist := r.hist[k := r.hist[k].(accepted := r.hist[k].accepted + [item])],
         tags := Append(r.tags, r.ctl.ops[k].id, item))
  }

  function AddItems<T>(r: State<T>, items: seq<T>): (r': State<T>)
    requires r.Valid()
    ensures r'.Valid() && r'.ctl.current == r.ctl.current
    decreases |items|
  {
    if items == [] then r else AddItems(AddItem(r, items[0]), items[1..])
  }

  lemma AddItemsFew<T>(r: State<T>, a: T, b: T)
    requires r.Valid()
    ensures AddItems(r, [a]) == AddItem(r, a) && AddItems(r, [a, b]) == AddItem(AddItem(r, a), b)
  {
    hide AddItem;
    assert [a][1..] == [] && [a, b][1..] == [b] && [b][1..] == [];
    assert AddItems(r, [a]) == AddItems(AddItem(r, a), []);
    assert AddItems(AddItem(r, a), [b]) == AddItems(AddItem(AddItem(r, a), b), []);
  }

  /** How a response ends: it may be the last, with a closing item, or carry an error. */
  datatype Finish<+T> = Going | Done(last: Option<T>) | Refused(err: nat)

  function CloseStream<T>(r: State<T>, fin: Finish<T>): (r': State<T>)
    requires r.Valid()
    ensures r'.Valid()
  {
    if r.ctl.current.NoOp? then r
    else
      var k := r.ctl.current.k;
      var id := r.ctl.ops[k].id;
      match fin
      case Going => r
      case Done(last) =>
        r.(ctl := FinishOp(r.ctl), hist := r.hist[k := r.hist[k].(last := last)], tags := Complete(r.tags, id, last))
      case Refused(err) =>
        r.(ctl := FinishOp(r.ctl), tags := Erase(r.tags, id, err))
  }

  /** `gen_result_by_resp`: only a response with the current operation's id counts. */
  function Respond<T>(r: State<T>, id: int, items: seq<T>, fin: Finish<T>): (r': State<T>)
    requires r.Valid()
    ensures r'.Valid()
  {
    if r.ctl.IsCurrent(id) then CloseStream(AddItems(OpenStream(r), items), fin) else r
  }

  lemma NoResponseIf<T>(r: State<T>, id: int, items: seq<T>, fin: Finish<T>)
    requires r.Valid()
    ensures !r.ctl.IsCurrent(id) ==> Respond(r, id, items, fin) == r
  {
  }

  function Fail<T>(r: State<T>, err: nat): (r': State<T>)
    requires r.Valid()
    ensures r'.Valid()
  {
    r.(ctl := SetError(r.ctl, err))
  }

  function Cancel<T>(r: State<T>, id: int): (r': State<T>)
    requires r.Valid()
    ensures r'.Valid()
  {
    r.(ctl := CancelOp(r.ctl, id))
  }

  /** The sender cancels the operation it looked up earlier. */
  function CancelAt<T>(r: State<T>, k: nat): (r': State<T>)
    requires r.Valid() && k < |r.ctl.ops|
    ensures r'.Valid()
  {
    r.(ctl := ClearCurrent(r.ctl.(ops := r.ctl.ops[k := r.ctl.ops[k].(status := Cancelled)])))
  }

  predicate Over(op: Op) {
    op.status.Cancelled? || op.status.Failed?
  }

  /** What the next `poll` returns; `Empty` when it has to wait. */
  function Next<T>(r: State<T>): Popped<T>
    requires r.Valid()
  {
    if r.ctl.front == |r.ctl.ops| then Empty
    else
      var op := r.ctl.ops[r.ctl.front];
      if op.status.Cancelled? then Removed(op.id)
      else if op.status.Failed? then Error(op.id, op.error)
      else Front(r.tags)
  }

  /** An operation that is over takes its unread responses with it. */
  function TagsAfterPoll<T>(r: State<T>): Streams<T>
    requires r.Valid() && r.ctl.front < |r.ctl.ops|
  {
    var op := r.ctl.ops[r.ctl.front];
    if !Over(op) then Rest(r.tags)
    else if Has(r.tags, op.id) then Rest(Erase(r.tags, op.id, 0))
    else r.tags
  }

  predicate IsVerdict<T>(p: Popped<T>) {
    p.End? || p.Removed? || p.Error?
  }

  function Poll<T>(r: State<T>): (r': State<T>)
    requires r.Valid()
    ensures r'.Valid()
  {
    var p := Next(r);
    if p.Empty? then r
    else
      r.(ctl := if IsVerdict(p) then RemoveFront(r.ctl) else r.ctl, tags := TagsAfterPoll(r), log := r.log + [p])
  }

  /** The assertions in `poll`: what is popped belongs to the front operation. */
  predicate PollAssertsHold<T>(r: State<T>)
    requires r.Valid()
  {
    r.ctl.front < |r.ctl.ops| ==>
      var op := r.ctl.ops[r.ctl.front];
      if Over(op) then Has(r.tags, op.id) ==> Front(Erase(r.tags, op.id, 0)) == Removed(op.id)
      else !Front(r.tags).Empty? ==> Front(r.tags).id == op.id && !Front(r.tags).Removed?
  }

  // ---------------------------------------------------------------- the invariant

  predicate Live(op: Op) {
    op.status.Starting? || op.status.Streaming?
  }

  /**
   * The results of an operation whose last one was delivered: what the server sent, in order and from the first,
   * and all of it before an END.
   */
  ghost predicate Told<T>(b: seq<Popped<T>>, id: int, h: History<T>) {
    && b != [] && Terminal(b[|b| - 1], id)
    && (b[..|b| - 1] == [] || (h.streamed && Opened(b[..|b| - 1], id)))
    && Items(b[..|b| - 1]) <= h.accepted
    && (b[|b| - 1].End? ==>
          b[..|b| - 1] != [] && Items(b[..|b| - 1]) == h.accepted && b[|b| - 1].last == h.last)
  }

  /** A streamed operation and its stream of responses. */
  ghost predicate InStep<T>(s: Stream<T>, op: Op, h: History<T>, b: seq<Popped<T>>) {
    && s.id == op.id && h.streamed && !s.status.Deleted? && !op.status.Starting?
    && (if s.polling then Opened(b, s.id) else b == [])
    && Items(b) <= h.accepted
    && (!s.status.Failed? ==> Items(b) + s.data == h.accepted)
    && (s.status.Completed? ==> s.content == h.last)
    && (op.status.Streaming? ==> s.status.Open? && s.content == None)
    && (op.status.Ended? ==> s.status.Completed? || s.status.Failed?)
  }

  /** An operation without responses. */
  ghost predicate Silent<T>(op: Op, h: History<T>, b: seq<Popped<T>>) {
    !h.streamed && h.accepted == [] && b == [] && !op.status.Streaming? && !op.status.Ended?
  }

  /** The results of each operation so far, and which operation each response stream belongs to. */
  datatype Witness<+T> = Witness(blocks: seq<seq<Popped<T>>>, owner: seq<nat>)

  /** Only the current operation is live, it is the last, and is still in the list. */
  ghost predicate CurrentOk(c: Ctl) {
    && c.Valid()
    && (c.current.At? ==> c.current.k == |c.ops| - 1 && c.front <= c.current.k && Live(c.ops[c.current.k]))
    && (forall k | 0 <= k < |c.ops| && c.current != At(k) :: !Live(c.ops[k]))
  }

  /** An operation with a stream, or about to get one, has an id no earlier one had. */
  ghost predicate OwnIds<T>(ops: seq<Op>, hist: seq<History<T>>) {
    && |hist| == |ops|
    && forall i, k | 0 <= i < k < |ops| && (hist[k].streamed || ops[k].status.Starting?) :: ops[i].id != ops[k].id
  }

  /** The response streams are those of the streamed operations in the list, in order. */
  ghost predicate Owned<T>(r: State<T>, w: Witness<T>) {
    && |w.owner| == |r.tags| && |w.blocks| == |r.ctl.ops| == |r.hist|
    && (forall j | 0 <= j < |w.owner| :: r.ctl.front <= w.owner[j] < |r.ctl.ops|)
    && (forall i, j | 0 <= i < j < |w.owner| :: w.owner[i] < w.owner[j])
    && (forall j | 0 <= j < |w.owner| ::
          InStep(r.tags[j], r.ctl.ops[w.owner[j]], r.hist[w.owner[j]], w.blocks[w.owner[j]]))
    && (forall k | r.ctl.front <= k < |r.ctl.ops| && k !in w.owner :: Silent(r.ctl.ops[k], r.hist[k], w.blocks[k]))
    && (forall k | r.ctl.front < k < |w.blocks| :: w.blocks[k] == [])
  }

  ghost predicate Inv<T>(r: State<T>, w: Witness<T>) {
    && r.Valid() && CurrentOk(r.ctl) && OwnIds(r.ctl.ops, r.hist) && WellFormed(r.tags)
    && Owned(r, w)
    && Flat(w.blocks) == r.log
    && forall k | 0 <= k < r.ctl.front :: Told(w.blocks[k], r.ctl.ops[k].id, r.hist[k])
  }

  lemma InitInv<T>()
    ensures Inv<T>(State(Ctl([], 0, NoOp), [], [], []), Witness([], []))
  {
  }

  // ---------------------------------------------------------------- every locked region keeps it

  lemma OwnIdsUpdate<T>(ops: seq<Op>, hist: seq<History<T>>, k: nat, op: Op, h: History<T>)
    requires OwnIds(ops, hist) && k < |ops| && op.id == ops[k].id && (hist[k].streamed || ops[k].status.Starting?)
    ensures OwnIds(ops[k := op], hist[k := h])
  {
  }

  lemma OwnIdsAppend<T>(ops: seq<Op>, hist: seq<History<T>>, op: Op, h: History<T>)
    requires OwnIds(ops, hist)
    requires h.streamed || op.status.Starting? ==> forall i | 0 <= i < |ops| :: ops[i].id != op.id
    ensures OwnIds(ops + [op], hist + [h])
  {
  }

  lemma OwnedCreate<T>(r: State<T>, w: Witness<T>, id: int, status: OpSpec.Status)
    requires r.Valid() && Owned(r, w) && (status.Starting? || status.Cancelled?)
    ensures Owned(Create(r, id, status), Witness(w.blocks + [[]], w.owner))
  {
    hide InStep, OwnIds;
    var r', w', n := Create(r, id, status), Witness(w.blocks + [[]], w.owner), |r.ctl.ops|;
    assert Silent(r'.ctl.ops[n], r'.hist[n], w'.blocks[n]);
    forall k | r'.ctl.front <= k < n && k !in w'.owner ensures Silent(r'.ctl.ops[k], r'.hist[k], w'.blocks[k]) {
      assert Silent(r.ctl.ops[k], r.hist[k], w.blocks[k]);
    }
    forall j | 0 <= j < |w'.owner|
      ensures InStep(r'.tags[j], r'.ctl.ops[w'.owner[j]], r'.hist[w'.owner[j]], w'.blocks[w'.owner[j]])
    {
      assert InStep(r.tags[j], r.ctl.ops[w.owner[j]], r.hist[w.owner[j]], w.blocks[w.owner[j]]);
    }
  }

  lemma CreateKeeps<T>(r: State<T>, w: Witness<T>, id: int, status: OpSpec.Status)
    requires Inv(r, w) && r.ctl.current.NoOp? && (status.Starting? || status.Cancelled?)
    requires status.Starting? ==> forall i | 0 <= i < |r.ctl.ops| :: r.ctl.ops[i].id != id
    ensures Inv(Create(r, id, status), Witness(w.blocks + [[]], w.owner))
  {
    hide Told, Owned, WellFormed, OwnIds, Flat;
    OwnedSizes(r, w);
    FlatNone(w.blocks);
    OwnedCreate(r, w, id, status);
    OwnIdsAppend(r.ctl.ops, r.hist, Op(id, status, 0), History(false, [], None));
  }

  lemma OwnedSizes<T>(r: State<T>, w: Witness<T>)
    requires Owned(r, w)
    ensures |w.owner| == |r.tags| && |w.blocks| == |r.ctl.ops| == |r.hist|
  {
  }

  /** Operations may only go from bad to worse: to cancelled or failed. */
  predicate Worsened(a: Op, b: Op) {
    b == a || (b.id == a.id && Over(b))
  }

  lemma WorseKeeps<T>(r: State<T>, w: Witness<T>, ctl': Ctl)
    requires Inv(r, w) && ctl'.Valid() && CurrentOk(ctl')
    requires |ctl'.ops| == |r.ctl.ops| && ctl'.front == r.ctl.front
    requires forall k | 0 <= k < |ctl'.ops| :: Worsened(r.ctl.ops[k], ctl'.ops[k])
    ensures Inv(r.(ctl := ctl'), w)
  {
    hide Told, WellFormed, Flat, CurrentOk, Opened, Items;
    var r' := r.(ctl := ctl');
    forall j | 0 <= j < |w.owner|
      ensures InStep(r'.tags[j], r'.ctl.ops[w.owner[j]], r'.hist[w.owner[j]], w.blocks[w.owner[j]])
    {
      assert Worsened(r.ctl.ops[w.owner[j]], ctl'.ops[w.owner[j]]);
    }
    forall k | ctl'.front <= k < |ctl'.ops| && k !in w.owner ensures Silent(ctl'.ops[k], r'.hist[k], w.blocks[k]) {
      assert Worsened(r.ctl.ops[k], ctl'.ops[k]);
    }
    assert OwnIds(ctl'.ops, r.hist) by { WorseOwnIds(r.ctl.ops, ctl'.ops, r.hist); }
    assert forall k | 0 <= k < |ctl'.ops| :: Worsened(r.ctl.ops[k], ctl'.ops[k]) && ctl'.ops[k].id == r.ctl.ops[k].id;
  }

  lemma WorseOwnIds<T>(ops: seq<Op>, ops': seq<Op>, hist: seq<History<T>>)
    requires OwnIds(ops, hist) && |ops'| == |ops| && forall k | 0 <= k < |ops| :: Worsened(ops[k], ops'[k])
    ensures OwnIds(ops', hist)
  {
  }

  lemma FailKeeps<T>(r: State<T>, w: Witness<T>, err: nat)
    requires Inv(r, w)
    ensures Inv(Fail(r, err), w)
  {
    hide Owned, OwnIds, WellFormed, Told, Flat;
    WorseKeeps(r, w, SetError(r.ctl, err));
  }

  lemma CancelKeeps<T>(r: State<T>, w: Witness<T>, id: int)
    requires Inv(r, w)
    ensures Inv(Cancel(r, id), w)
  {
    hide Owned, WellFormed, Told, Flat, Hit;
    CancelCurrent(r, w, id);
    WorseKeeps(r, w, CancelOp(r.ctl, id));
  }

  /** The current operation is let go exactly when it is cancelled itself. */
  lemma CancelCurrent<T>(r: State<T>, w: Witness<T>, id: int)
    requires r.Valid() && CurrentOk(r.ctl) && OwnIds(r.ctl.ops, r.hist) && Owned(r, w)
    ensures CurrentOk(CancelOp(r.ctl, id))
    ensures r.ctl.current.At? ==> (CancelOp(r.ctl, id).current.NoOp? <==> Hit(r.ctl, id, r.ctl.current.k))
  {
    hide InStep, FindOp;
    if r.ctl.current.At? {
      var c := r.ctl.current.k;
      LiveOwnsId(r, w);
      assert forall k: nat | k < |r.ctl.ops| && r.ctl.ops[k].id == r.ctl.ops[c].id :: k == c;
    }
  }

  /** No other operation has the id of the current one. */
  lemma LiveOwnsId<T>(r: State<T>, w: Witness<T>)
    requires r.Valid() && CurrentOk(r.ctl) && OwnIds(r.ctl.ops, r.hist) && Owned(r, w) && r.ctl.current.At?
    ensures forall k | 0 <= k < |r.ctl.ops| && k != r.ctl.current.k :: r.ctl.ops[k].id != r.ctl.ops[r.ctl.current.k].id
    ensures r.ctl.ops[r.ctl.current.k].status.Streaming? <==> r.ctl.current.k in w.owner
    ensures r.ctl.ops[r.ctl.current.k].status.Streaming? ==> |w.owner| > 0 && w.owner[|w.owner| - 1] == r.ctl.current.k
  {
    var c := r.ctl.current.k;
    if c !in w.owner {
      assert Silent(r.ctl.ops[c], r.hist[c], w.blocks[c]);
    } else {
      var j :| 0 <= j < |w.owner| && w.owner[j] == c;
      assert InStep(r.tags[j], r.ctl.ops[c], r.hist[c], w.blocks[c]);
      assert w.owner[|w.owner| - 1] <= c;
    }
  }

  lemma CancelAtKeeps<T>(r: State<T>, w: Witness<T>, k: nat)
    requires Inv(r, w) && k < |r.ctl.ops| && (r.ctl.current.NoOp? || r.ctl.current == At(k))
    ensures Inv(CancelAt(r, k), w)
  {
    hide Owned, OwnIds, WellFormed, Told, Flat;
    WorseKeeps(r, w, CancelAt(r, k).ctl);
  }

  /** While the current operation is streaming, its stream is the last. */
  lemma CurrentTag<T>(r: State<T>, w: Witness<T>)
    requires Inv(r, w) && r.ctl.current.At? && r.ctl.ops[r.ctl.current.k].status.Streaming?
    ensures |r.tags| > 0 && Index(r.tags, r.ctl.ops[r.ctl.current.k].id) == |r.tags| - 1
    ensures w.owner[|w.owner| - 1] == r.ctl.current.k && r.hist[r.ctl.current.k].streamed
    ensures var k, n := r.ctl.current.k, |r.tags| - 1;
      r.tags[n].id == r.ctl.ops[k].id && InStep(r.tags[n], r.ctl.ops[k], r.hist[k], w.blocks[k])
  {
    hide Told, Flat, Opened;
    LiveOwnsId(r, w);
    var k, n := r.ctl.current.k, |r.tags| - 1;
    assert InStep(r.tags[n], r.ctl.ops[k], r.hist[k], w.blocks[k]);
  }

  lemma NewTag<T>(r: State<T>, w: Witness<T>)
    requires Inv(r, w) && r.ctl.current.At? && r.ctl.ops[r.ctl.current.k].status.Starting?
    ensures !Has(r.tags, r.ctl.ops[r.ctl.current.k].id) && r.ctl.current.k !in w.owner
    ensures Silent(r.ctl.ops[r.ctl.current.k], r.hist[r.ctl.current.k], w.blocks[r.ctl.current.k])
  {
    hide Told, Flat, WellFormed, Opened;
    var k := r.ctl.current.k;
    LiveOwnsId(r, w);
    forall j | 0 <= j < |r.tags| ensures r.tags[j].id != r.ctl.ops[k].id {
      assert InStep(r.tags[j], r.ctl.ops[w.owner[j]], r.hist[w.owner[j]], w.blocks[w.owner[j]]);
    }
  }

  lemma OwnedOpen<T>(r: State<T>, w: Witness<T>, op: Op, h: History<T>, s: Stream<T>)
    requires r.Valid() && Owned(r, w) && r.ctl.current.At? && r.ctl.current.k == |r.ctl.ops| - 1 >= r.ctl.front
    requires r.ctl.current.k !in w.owner && InStep(s, op, h, w.blocks[r.ctl.current.k])
    ensures var k := r.ctl.current.k;
      Owned(State(r.ctl.(ops := r.ctl.ops[k := op]), r.hist[k := h], r.tags + [s], r.log),
            Witness(w.blocks, w.owner + [k]))
  {
    hide InStep, Silent;
    var k := r.ctl.current.k;
    forall j | 0 <= j < |w.owner| ensures w.owner[j] < k {
      assert w.owner[j] in w.owner;
    }
  }

  lemma OpenKeeps<T>(r: State<T>, w: Witness<T>)
    requires Inv(r, w) && r.ctl.current.At? && r.ctl.ops[r.ctl.current.k].status.Starting?
    ensures Inv(OpenStream(r), Witness(w.blocks, w.owner + [r.ctl.current.k]))
  {
    hide Told, Flat, WellFormed, Owned, OwnIds;
    OwnedSizes(r, w);
    var k := r.ctl.current.k;
    var op, h := r.ctl.ops[k].(status := Streaming), r.hist[k].(streamed := true);
    var s := Stream(op.id, false, Open, 0, [], None);
    NewTag(r, w);
    BeginKeeps(r.tags, op.id);
    OwnedOpen(r, w, op, h, s);
    OwnIdsUpdate(r.ctl.ops, r.hist, k, op, h);
  }

  lemma OwnedUpdate<T>(r: State<T>, w: Witness<T>, k: nat, op: Op, h: History<T>, s: Stream<T>, current: Current)
    requires r.Valid() && Owned(r, w) && k == |r.ctl.ops| - 1 && |r.tags| > 0 && w.owner[|r.tags| - 1] == k
    requires InStep(s, op, h, w.blocks[k])
    ensures Owned(State(Ctl(r.ctl.ops[k := op], r.ctl.front, current), r.hist[k := h],
                        r.tags[|r.tags| - 1 := s], r.log), w)
  {
    hide InStep, Silent;
    assert k in w.owner;
    assert forall j | 0 <= j < |r.tags| - 1 :: w.owner[j] < k;
  }

  /** A change of the current operation and its stream. */
  lemma CurrentKeeps<T>(r: State<T>, w: Witness<T>, op: Op, h: History<T>, s: Stream<T>, current: Current)
    requires Inv(r, w) && r.ctl.current.At? && r.ctl.ops[r.ctl.current.k].status.Streaming?
    requires op.id == r.ctl.ops[r.ctl.current.k].id
    requires if current.At? then current == r.ctl.current && Live(op) else !Live(op)
    requires |r.tags| > 0 && s.id == r.tags[|r.tags| - 1].id && s.polling == r.tags[|r.tags| - 1].polling
    requires s.status.Deleted? || s.status.Failed? ==> s.data == []
    requires InStep(s, op, h, w.blocks[r.ctl.current.k]) && h.streamed
    ensures Inv(State(Ctl(r.ctl.ops[r.ctl.current.k := op], r.ctl.front, current), r.hist[r.ctl.current.k := h],
                      r.tags[|r.tags| - 1 := s], r.log), w)
  {
    hide Told, Flat, WellFormed, Owned, OwnIds, InStep;
    OwnedSizes(r, w);
    CurrentTag(r, w);
    var k, n := r.ctl.current.k, |r.tags| - 1;
    UpdateKeeps(r.tags, n, s);
    OwnedUpdate(r, w, k, op, h, s, current);
    OwnIdsUpdate(r.ctl.ops, r.hist, k, op, h);
  }

  lemma AddItemKeeps<T>(r: State<T>, w: Witness<T>, item: T)
    requires Inv(r, w) && r.ctl.current.At? && r.ctl.ops[r.ctl.current.k].status.Streaming?
    ensures Inv(AddItem(r, item), w) && Accepts(r.tags, r.ctl.ops[r.ctl.current.k].id)
    ensures AddItem(r, item).ctl.ops == r.ctl.ops
  {
    hide Inv, Flat, WellFormed, Opened;
    InvValid(r, w);
    var k, n := r.ctl.current.k, |r.tags| - 1;
    CurrentTag(r, w);
    var s, h := r.tags[n], r.hist[k];
    assert Items(w.blocks[k]) + (s.data + [item]) == Items(w.blocks[k]) + s.data + [item];
    CurrentKeeps(r, w, r.ctl.ops[k], h.(accepted := h.accepted + [item]), s.(data := s.data + [item]), r.ctl.current);
    assert r.ctl.ops[k := r.ctl.ops[k]] == r.ctl.ops;
  }

  lemma {:induction false} AddItemsKeeps<T>(r: State<T>, w: Witness<T>, items: seq<T>)
    requires Inv(r, w) && r.ctl.current.At? && r.ctl.ops[r.ctl.current.k].status.Streaming?
    ensures Inv(AddItems(r, items), w) && AddItems(r, items).ctl.ops == r.ctl.ops
    decreases |items|
  {
    hide Inv;
    InvValid(r, w);
    if items != [] {
      AddItemKeeps(r, w, items[0]);
      AddItemsKeeps(AddItem(r, items[0]), w, items[1..]);
    }
  }

  lemma CloseKeeps<T>(r: State<T>, w: Witness<T>, fin: Finish<T>)
    requires Inv(r, w) && r.ctl.current.At? && r.ctl.ops[r.ctl.current.k].status.Streaming?
    requires fin.Refused? ==> fin.err != 0
    ensures Inv(CloseStream(r, fin), w)
  {
    hide Inv, Flat, WellFormed, Opened;
    InvValid(r, w);
    var k, n := r.ctl.current.k, |r.tags| - 1;
    CurrentTag(r, w);
    var s, h, op := r.tags[n], r.hist[k], r.ctl.ops[k].(status := Ended);
    match fin
    case Going =>
    case Done(last) =>
      CurrentKeeps(r, w, op, h.(last := last), s.(status := Completed, content := last), NoOp);
    case Refused(err) =>
      CurrentKeeps(r, w, op, h, Erased(s, err), NoOp);
      assert r.hist[k := h] == r.hist;
  }

  /** Every response keeps the invariant, and no push into the response queue is refused. */
  lemma RespondKeeps<T>(r: State<T>, w: Witness<T>, id: int, items: seq<T>, fin: Finish<T>) returns (w': Witness<T>)
    requires Inv(r, w) && (fin.Refused? ==> fin.err != 0)
    ensures Inv(Respond(r, id, items, fin), w')
  {
    hide Inv, Owned, Flat;
    w' := w;
    InvValid(r, w);
    if r.ctl.IsCurrent(id) {
      var k := r.ctl.current.k;
      var r1 := OpenStream(r);
      if r.ctl.ops[k].status.Starting? {
        OpenKeeps(r, w);
        w' := Witness(w.blocks, w.owner + [k]);
      }
      AddItemsKeeps(r1, w', items);
      CloseKeeps(AddItems(r1, items), w', fin);
    }
  }

  lemma InvValid<T>(r: State<T>, w: Witness<T>)
    requires Inv(r, w)
    ensures r.Valid() && |w.blocks| == |r.ctl.ops|
    ensures r.ctl.current.At? ==> Live(r.ctl.ops[r.ctl.current.k]) && r.ctl.current.k == |r.ctl.ops| - 1
  {
  }

  /** Changes of statuses that may let go of the current operation. */
  ghost predicate Settled(a: Ctl, b: Ctl) {
    && |b.ops| == |a.ops| && (forall k | 0 <= k < |a.ops| :: b.ops[k].id == a.ops[k].id)
    && (b.current == a.current || b.current.NoOp?)
  }

  lemma {:induction false} AddItemsCtl<T>(r: State<T>, items: seq<T>)
    requires r.Valid()
    ensures AddItems(r, items).ctl == r.ctl
    decreases |items|
  {
    if items != [] { AddItemsCtl(AddItem(r, items[0]), items[1..]); }
  }

  lemma RespondSettles<T>(r: State<T>, id: int, items: seq<T>, fin: Finish<T>)
    requires r.Valid()
    ensures Settled(r.ctl, Respond(r, id, items, fin).ctl)
  {
    if r.ctl.IsCurrent(id) { AddItemsCtl(OpenStream(r), items); }
  }

  lemma CancelSettles(c: Ctl, id: int)
    requires c.Valid()
    ensures Settled(c, CancelOp(c, id))
  {
  }

  // ---------------------------------------------------------------- polling

  /** The front operation, if streamed, owns the front of the response queue; if not, nothing there has its id. */
  lemma FrontOwner<T>(r: State<T>, w: Witness<T>)
    requires Inv(r, w) && r.ctl.front < |r.ctl.ops|
    ensures var f := r.ctl.front;
      if f in w.owner then
        |r.tags| > 0 && w.owner[0] == f && InStep(r.tags[0], r.ctl.ops[f], r.hist[f], w.blocks[f])
      else
        && Silent(r.ctl.ops[f], r.hist[f], w.blocks[f])
        && !Has(r.tags, r.ctl.ops[f].id)
        && (Over(r.ctl.ops[f]) || r.tags == [])
  {
    hide Told, Flat, WellFormed, Opened;
    var f := r.ctl.front;
    if f in w.owner {
      var j :| 0 <= j < |w.owner| && w.owner[j] == f;
      assert w.owner[0] <= w.owner[j];
    } else {
      forall j | 0 <= j < |r.tags| ensures r.tags[j].id != r.ctl.ops[f].id {
        assert w.owner[j] in w.owner;
        assert InStep(r.tags[j], r.ctl.ops[w.owner[j]], r.hist[w.owner[j]], w.blocks[w.owner[j]]);
      }
      assert forall j | 0 <= j < |w.owner| :: w.owner[j] in w.owner && w.owner[j] != f;
    }
  }

  /** What an ending adds to the results of an operation that is over. */
  lemma OverTold<T>(s: Stream<T>, op: Op, h: History<T>, b: seq<Popped<T>>, p: Popped<T>)
    requires InStep(s, op, h, b) || Silent(op, h, b)
    requires (p.Removed? || p.Error?) && p.id == op.id
    ensures Told(b + [p], op.id, h)
  {
    assert (b + [p])[..|b|] == b;
  }

  /** What a pop adds to the results of one that is not. */
  lemma PopTold<T>(q: Streams<T>, op: Op, h: History<T>, b: seq<Popped<T>>)
    requires WellFormed(q) && q != [] && InStep(q[0], op, h, b) && !Front(q).Empty?
    ensures var p := Front(q);
      && p.id == op.id && !p.Removed?
      && (if IsVerdict(p) then Rest(q) == q[1..] && Told(b + [p], op.id, h)
          else |Rest(q)| == |q| && Rest(q) == q[0 := Rest(q)[0]] && InStep(Rest(q)[0], op, h, b + [p]))
  {
    hide Items, Opened;
    var p := Front(q);
    assert (b + [p])[..|b|] == b;
    ItemsGrow(b, p);
    if p.Start? || p.Data? { OpenedGrows(b, p, p.id); }
    if p.Data? { assert [p.item] + q[0].data[1..] == q[0].data; }
    if IsVerdict(p) && q[0].polling { OpenedSome(b, p.id); }
  }

  /** The front operation got one more result. */
  lemma OwnedSame<T>(r: State<T>, w: Witness<T>, s: Stream<T>, b: seq<Popped<T>>, log: seq<Popped<T>>)
    requires r.Valid() && Owned(r, w) && r.ctl.front < |r.ctl.ops| && |r.tags| > 0 && w.owner[0] == r.ctl.front
    requires InStep(s, r.ctl.ops[r.ctl.front], r.hist[r.ctl.front], b)
    ensures Owned(r.(tags := r.tags[0 := s], log := log), Witness(w.blocks[r.ctl.front := b], w.owner))
  {
    hide InStep, Silent;
    assert r.ctl.front in w.owner;
    assert forall j | 0 < j < |w.owner| :: w.owner[0] < w.owner[j];
  }

  /** The front operation is done, and its stream with it. */
  lemma OwnedDrop<T>(r: State<T>, w: Witness<T>, b: seq<Popped<T>>, log: seq<Popped<T>>)
    requires r.Valid() && Owned(r, w) && r.ctl.front < |r.ctl.ops| && |r.tags| > 0 && w.owner[0] == r.ctl.front
    ensures Owned(r.(ctl := RemoveFront(r.ctl), tags := r.tags[1..], log := log),
                  Witness(w.blocks[r.ctl.front := b], w.owner[1..]))
  {
    hide InStep, Silent;
    var owner' := w.owner[1..];
    forall j | 0 <= j < |owner'| ensures owner'[j] == w.owner[j + 1] && w.owner[0] < w.owner[j + 1] {}
    forall k | k != r.ctl.front && k in w.owner ensures k in owner' {
      var j :| 0 <= j < |w.owner| && w.owner[j] == k;
      assert owner'[j - 1] == k;
    }
  }

  /** The front operation is done without ever having had a stream. */
  lemma OwnedSkip<T>(r: State<T>, w: Witness<T>, b: seq<Popped<T>>, log: seq<Popped<T>>)
    requires r.Valid() && Owned(r, w) && r.ctl.front < |r.ctl.ops| && r.ctl.front !in w.owner
    ensures Owned(r.(ctl := RemoveFront(r.ctl), log := log), Witness(w.blocks[r.ctl.front := b], w.owner))
  {
    hide InStep, Silent;
    assert forall j | 0 <= j < |w.owner| :: w.owner[j] in w.owner;
  }

  lemma LogGrows<T>(r: State<T>, w: Witness<T>, p: Popped<T>)
    requires Inv(r, w) && r.ctl.front < |r.ctl.ops|
    ensures Flat(w.blocks[r.ctl.front := w.blocks[r.ctl.front] + [p]]) == r.log + [p]
  {
    hide Told, Flat, WellFormed, InStep, Silent;
    FlatGrows(w.blocks, r.ctl.front, p);
  }

  lemma FrontGone(c: Ctl)
    requires CurrentOk(c) && c.front < |c.ops| && c.current != At(c.front)
    ensures CurrentOk(RemoveFront(c))
  {
  }

  lemma EraseFront<T>(q: Streams<T>, id: int)
    requires WellFormed(q) && q != [] && q[0].id == id
    ensures Has(q, id) && Front(Erase(q, id, 0)) == Removed(id) && Rest(Erase(q, id, 0)) == q[1..]
  {
    assert Index(q, id) == 0;
  }

  lemma TailWellFormed<T>(q: Streams<T>)
    requires WellFormed(q) && q != []
    ensures WellFormed(q[1..])
  {
  }

  /** Polling an operation that is over. */
  lemma PollOver<T>(r: State<T>, w: Witness<T>) returns (w': Witness<T>)
    requires Inv(r, w) && r.ctl.front < |r.ctl.ops| && Over(r.ctl.ops[r.ctl.front])
    ensures Inv(Poll(r), w') && PollAssertsHold(r)
  {
    hide Inv, Poll, PollAssertsHold;
    if r.ctl.front in w.owner {
      w' := PollOverStreamed(r, w);
    } else {
      w' := PollOverSilent(r, w);
    }
  }

  lemma PollOverStreamed<T>(r: State<T>, w: Witness<T>) returns (w': Witness<T>)
    requires Inv(r, w) && r.ctl.front < |r.ctl.ops| && Over(r.ctl.ops[r.ctl.front]) && r.ctl.front in w.owner
    ensures Inv(Poll(r), w') && PollAssertsHold(r)
  {
    hide Flat, WellFormed, InStep, Silent, Told, Owned, CurrentOk, OwnIds, Front, Rest, Erase, Index;
    var f, p := r.ctl.front, Next(r);
    FrontOwner(r, w);
    OwnedSizes(r, w);
    var b := w.blocks[f] + [p];
    LogGrows(r, w, p);
    NotCurrent(r.ctl);
    FrontGone(r.ctl);
    OverTold(r.tags[0], r.ctl.ops[f], r.hist[f], w.blocks[f], p);
    InStepId(r.tags[0], r.ctl.ops[f], r.hist[f], w.blocks[f]);
    EraseFront(r.tags, r.ctl.ops[f].id);
    TailWellFormed(r.tags);
    OwnedDrop(r, w, b, r.log + [p]);
    w' := Witness(w.blocks[f := b], w.owner[1..]);
  }

  lemma PollOverSilent<T>(r: State<T>, w: Witness<T>) returns (w': Witness<T>)
    requires Inv(r, w) && r.ctl.front < |r.ctl.ops| && Over(r.ctl.ops[r.ctl.front]) && r.ctl.front !in w.owner
    ensures Inv(Poll(r), w') && PollAssertsHold(r)
  {
    hide Flat, WellFormed, InStep, Silent, Told, Owned, CurrentOk, OwnIds, Front, Rest, Erase, Index;
    var f, p := r.ctl.front, Next(r);
    FrontOwner(r, w);
    OwnedSizes(r, w);
    var b := w.blocks[f] + [p];
    LogGrows(r, w, p);
    NotCurrent(r.ctl);
    FrontGone(r.ctl);
    OverTold(Stream(0, false, Open, 0, [], None), r.ctl.ops[f], r.hist[f], w.blocks[f], p);
    OwnedSkip(r, w, b, r.log + [p]);
    w' := Witness(w.blocks[f := b], w.owner);
  }

  lemma InStepId<T>(s: Stream<T>, op: Op, h: History<T>, b: seq<Popped<T>>)
    requires InStep(s, op, h, b)
    ensures s.id == op.id && (op.status.Streaming? ==> s.status.Open?)
  {
  }

  lemma NotCurrent(c: Ctl)
    requires CurrentOk(c) && c.front < |c.ops| && !Live(c.ops[c.front])
    ensures c.current != At(c.front)
  {
  }

  /** Polling one that is not. */
  lemma PollOn<T>(r: State<T>, w: Witness<T>) returns (w': Witness<T>)
    requires Inv(r, w) && r.ctl.front < |r.ctl.ops| && !Over(r.ctl.ops[r.ctl.front])
    ensures Inv(Poll(r), w') && PollAssertsHold(r)
  {
    hide Flat, WellFormed, InStep, Silent, Told, Owned, CurrentOk, OwnIds, Front, Rest;
    var f, p := r.ctl.front, Next(r);
    FrontOwner(r, w);
    OwnedSizes(r, w);
    w' := w;
    if p.Empty? {
      return;
    }
    EmptyPopsNothing(r.tags);
    var b := w.blocks[f] + [p];
    LogGrows(r, w, p);
    PopTold(r.tags, r.ctl.ops[f], r.hist[f], w.blocks[f]);
    if IsVerdict(p) {
      InStepId(r.tags[0], r.ctl.ops[f], r.hist[f], w.blocks[f]);
      OpenHasNoVerdict(r.tags);
      NotCurrentEnded(r, w);
      FrontGone(r.ctl);
      TailWellFormed(r.tags);
      OwnedDrop(r, w, b, r.log + [p]);
      w' := Witness(w.blocks[f := b], w.owner[1..]);
    } else {
      RestKeeps(r.tags);
      OwnedSame(r, w, Rest(r.tags)[0], b, r.log + [p]);
      w' := Witness(w.blocks[f := b], w.owner);
    }
  }

  lemma EmptyPopsNothing<T>(q: Streams<T>)
    requires !Front(q).Empty?
    ensures q != []
  {
  }

  lemma OpenHasNoVerdict<T>(q: Streams<T>)
    requires q != []
    ensures q[0].status.Open? ==> !IsVerdict(Front(q))
  {
  }

  lemma NotCurrentEnded<T>(r: State<T>, w: Witness<T>)
    requires Inv(r, w) && r.ctl.front < |r.ctl.ops| && r.ctl.front in w.owner
    requires !r.ctl.ops[r.ctl.front].status.Streaming?
    ensures r.ctl.current != At(r.ctl.front)
  {
    hide Flat, WellFormed, Told;
    FrontOwner(r, w);
  }

  /** Polling keeps the invariant and its assertions hold. */
  lemma PollKeeps<T>(r: State<T>, w: Witness<T>) returns (w': Witness<T>)
    requires Inv(r, w)
    ensures Inv(Poll(r), w') && PollAssertsHold(r)
  {
    hide Inv, PollAssertsHold;
    InvValid(r, w);
    w' := w;
    if r.ctl.front < |r.ctl.ops| {
      if Over(r.ctl.ops[r.ctl.front]) {
        w' := PollOver(r, w);
      } else {
        w' := PollOn(r, w);
      }
    } else {
      NothingToAssert(r);
    }
  }

  lemma NothingToAssert<T>(r: State<T>)
    requires r.Valid() && r.ctl.front == |r.ctl.ops|
    ensures PollAssertsHold(r)
  {
  }

  // ---------------------------------------------------------------- what the caller sees

  /** The last results of operations, in the order they were returned. */
  function Verdicts<T>(log: seq<Popped<T>>): seq<Popped<T>> {
    if log == [] then []
    else
      var n := |log| - 1;
      Verdicts(log[..n]) + if IsVerdict(log[n]) then [log[n]] else []
  }

  lemma {:induction false} VerdictsConcat<T>(a: seq<Popped<T>>, b: seq<Popped<T>>)
    ensures Verdicts(a + b) == Verdicts(a) + Verdicts(b)
    decreases |b|
  {
    if b == [] {
      assert a + b == a;
    } else {
      VerdictsConcat(a, b[..|b| - 1]);
      assert (a + b)[..|a + b| - 1] == a + b[..|b| - 1];
    }
  }

  lemma {:induction false} OpenedNoVerdict<T>(b: seq<Popped<T>>)
    requires forall i | 0 <= i < |b| :: !IsVerdict(b[i])
    ensures Verdicts(b) == []
    decreases |b|
  {
    if b != [] { OpenedNoVerdict(b[..|b| - 1]); }
  }

  ghost predicate EndsWith<T>(b: seq<Popped<T>>, p: Popped<T>) {
    b != [] && b[|b| - 1] == p
  }

  lemma ToldVerdict<T>(b: seq<Popped<T>>, id: int, h: History<T>)
    requires Told(b, id, h)
    ensures Verdicts(b) == [b[|b| - 1]] && Terminal(b[|b| - 1], id) && EndsWith(b, b[|b| - 1])
  {
    hide Items;
    var n := |b| - 1;
    assert forall i | 0 <= i < n :: b[..n][i] == b[i];
    OpenedNoVerdict(b[..n]);
  }

  lemma {:induction false} VerdictsOfBlocks<T>(blocks: seq<seq<Popped<T>>>, ops: seq<Op>, hist: seq<History<T>>,
                                               front: nat)
    requires |blocks| == |ops| == |hist| && front <= |ops|
    requires forall k | 0 <= k < front :: Told(blocks[k], ops[k].id, hist[k])
    requires forall k | front <= k < |blocks| :: forall i | 0 <= i < |blocks[k]| :: !IsVerdict(blocks[k][i])
    ensures |Verdicts(Flat(blocks))| == front
    ensures forall k | 0 <= k < front ::
              Terminal(Verdicts(Flat(blocks))[k], ops[k].id) && EndsWith(blocks[k], Verdicts(Flat(blocks))[k])
    decreases |blocks|
  {
    hide Told, Verdicts, EndsWith;
    var n := |blocks| - 1;
    if blocks == [] {
      NoVerdicts<T>();
    } else {
      assert forall k | 0 <= k < n :: blocks[..n][k] == blocks[k];
      VerdictsConcat(Flat(blocks[..n]), blocks[n]);
      if front == |blocks| {
        VerdictsOfBlocks(blocks[..n], ops[..n], hist[..n], n);
        ToldVerdict(blocks[n], ops[n].id, hist[n]);
      } else {
        VerdictsOfBlocks(blocks[..n], ops[..n], hist[..n], front);
        OpenedNoVerdict(blocks[n]);
      }
    }
  }

  lemma NoVerdicts<T>()
    ensures Verdicts<T>([]) == []
  {
  }

  /** The results so far of an operation that still has some to come. */
  ghost predicate Telling<T>(b: seq<Popped<T>>, id: int, h: History<T>) {
    b == [] || (h.streamed && Opened(b, id) && Items(b) <= h.accepted)
  }

  /** The operation at the front is being read; those behind it have not been. */
  lemma FrontTelling<T>(r: State<T>, w: Witness<T>)
    requires Inv(r, w) && r.ctl.front < |r.ctl.ops|
    ensures Telling(w.blocks[r.ctl.front], r.ctl.ops[r.ctl.front].id, r.hist[r.ctl.front])
  {
    hide Told, Flat, WellFormed, Opened, Items, Owned;
    OwnedSizes(r, w);
    FrontOwner(r, w);
  }

  /** Each operation that left the list had exactly one last result, and they came in creation order. */
  lemma OneVerdictEach<T>(r: State<T>, w: Witness<T>)
    requires Inv(r, w)
    ensures |Verdicts(r.log)| == r.ctl.front <= |w.blocks|
    ensures forall k | 0 <= k < r.ctl.front ::
              Terminal(Verdicts(r.log)[k], r.ctl.ops[k].id) && EndsWith(w.blocks[k], Verdicts(r.log)[k])
  {
    hide Told, WellFormed, Items, Flat, EndsWith;
    forall k, i | r.ctl.front <= k < |w.blocks| && 0 <= i < |w.blocks[k]| ensures !IsVerdict(w.blocks[k][i]) {
      if k == r.ctl.front { FrontOwner(r, w); }
    }
    VerdictsOfBlocks(w.blocks, r.ctl.ops, r.hist, r.ctl.front);
  }
}
