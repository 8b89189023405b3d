/** What a `StreamQueue` means: an ordered collection of per-id FIFOs, and the output its runs can produce. */
module StreamSpec {

  datatype Option<+T> = None | Some(value: T)

  datatype Status = Open | Completed | Deleted | Failed

  datatype Stream<+T> = Stream(id: int, polling: bool, status: Status, err: nat, data: seq<T>, content: Option<T>)

  type Streams<+T> = seq<Stream<T>>

  /** The outcomes of `pop`. */
  datatype Popped<+T> =
    | Empty
    | Data(id: int, item: T)
    | Start(id: int)
    | End(id: int, last: Option<T>)
    | Removed(id: int)
    | Error(id: int, err: nat)

  /** Ids are distinct, erased streams hold no data, only the front can be polled. */
  predicate WellFormed<T>(q: Streams<T>) {
    && (forall i, j | 0 <= i < j < |q| :: q[i].id != q[j].id)
    && (forall i | 0 <= i < |q| && (q[i].status.Deleted? || q[i].status.Failed?) :: q[i].data == [])
    && (forall i | 0 < i < |q| :: !q[i].polling)
  }

  /** The place of stream `id`, or `|q|`. */
  function Index<T>(q: Streams<T>, id: int): (i: nat)
    ensures i <= |q|
    ensures i < |q| ==> q[i].id == id
    ensures forall j | 0 <= j < i :: q[j].id != id
  {
    if q == [] || q[0].id == id then 0 else 1 + Index(q[1..], id)
  }

  predicate Has<T>(q: Streams<T>, id: int) {
    Index(q, id) < |q|
  }

  function Ids<T>(q: Streams<T>): set<int> {
    set j | 0 <= j < |q| :: q[j].id
  }

  lemma InIds<T>(q: Streams<T>, id: int)
    ensures id in Ids(q) <==> Has(q, id)
  {
    var i := Index(q, id);
    if i < |q| { assert q[i].id in Ids(q); }
  }

  /** `start` succeeds iff the id is free. */
  function Begin<T>(q: Streams<T>, id: int): Streams<T> {
    if Has(q, id) then q else q + [Stream(id, false, Open, 0, [], None)]
  }

  predicate Accepts<T>(q: Streams<T>, id: int) {
    Has(q, id) && q[Index(q, id)].status.Open?
  }

  /** `stream` succeeds iff the stream is open. */
  function Append<T>(q: Streams<T>, id: int, item: T): Streams<T> {
    var i := Index(q, id);
    if Accepts(q, id) then q[i := q[i].(data := q[i].data + [item])] else q
  }

  /** `end` completes a stream whatever its status was. */
  function Complete<T>(q: Streams<T>, id: int, last: Option<T>): Streams<T> {
    var i := Index(q, id);
    if Has(q, id) then q[i := q[i].(status := Completed, content := if last.Some? then last else q[i].content)] else q
  }

  /** `erase`: an error only if `err` is not zero, of which 16 bits are kept. */
  function Erase<T>(q: Streams<T>, id: int, err: nat): Streams<T> {
    var i := Index(q, id);
    if Has(q, id) then q[i := Erased(q[i], err)] else q
  }

  function Erased<T>(s: Stream<T>, err: nat): Stream<T> {
    if err == 0 then s.(status := Deleted, data := [], content := None)
    else s.(status := Failed, err := err % 0x1_0000, data := [], content := None)
  }

  function Clear<T>(q: Streams<T>): (r: Streams<T>)
    ensures |r| == |q|
  {
    seq(|q|, i requires 0 <= i < |q| => Erased(q[i], 0))
  }

  /** What `pop` returns. */
  function Front<T>(q: Streams<T>): Popped<T> {
    if q == [] then Empty
    else
      var s := q[0];
      match s.status
      case Deleted => Removed(s.id)
      case Failed => Error(s.id, s.err)
      case _ =>
        if !s.polling then Start(s.id)
        else if s.data != [] then Data(s.id, s.data[0])
        else if s.status.Open? then Empty
        else End(s.id, s.content)
  }

  /** What it leaves. */
  function Rest<T>(q: Streams<T>): Streams<T> {
    match Front(q)
    case Empty => q
    case Start(_) => q[0 := q[0].(polling := true)]
    case Data(_, _) => q[0 := q[0].(data := q[0].data[1..])]
    case _ => q[1..]
  }

  // ---------------------------------------------------------------- runs

  datatype Command<+T> =
    | DoStart(id: int)
    | DoStream(id: int, item: T)
    | DoEnd(id: int, last: Option<T>)
    | DoErase(id: int, err: nat)
    | DoClear
    | DoPop

  /** The last `end` or `erase` that met a stream; `clear` erases without error. */
  datatype Ending<+T> = StillOpen | ByEnd(last: Option<T>) | ByErase(err: nat)

  /**
   * One successful start: what its stream accepted and how many items of it were taken, what is due because no erase
   * threw it away, how the stream ended, and whether it was ever erased or cleared.
   */
  datatype Birth<+T> = Birth(id: int, accepted: seq<T>, taken: nat, due: seq<T>, ending: Ending<T>, touched: bool)

  function Born<T>(id: int): Birth<T> {
    Birth(id, [], 0, [], StillOpen, false)
  }

  function AcceptBirth<T>(birth: Birth<T>, items: seq<T>): Birth<T> {
    birth.(accepted := birth.accepted + items, due := birth.due + items)
  }

  /** A later `end` without a closing item keeps the one of an earlier `end`. */
  function EndBirth<T>(birth: Birth<T>, last: Option<T>): Birth<T> {
    birth.(ending := ByEnd(if last.None? && birth.ending.ByEnd? then birth.ending.last else last))
  }

  /** Only what was already taken stays due. */
  function EraseBirth<T>(birth: Birth<T>, err: nat): Birth<T> {
    birth.(due := if birth.taken < |birth.due| then birth.due[..birth.taken] else birth.due,
           ending := ByErase(err), touched := true)
  }

  /** The queue, its births in order, and the pops so far that were not empty. */
  datatype Run<+T> = Run(q: Streams<T>, births: seq<Birth<T>>, out: seq<Popped<T>>)

  /** A stream takes items until it is ended or erased. */
  predicate Takes<T>(r: Run<T>, id: int)
    requires |r.q| <= |r.births|
  {
    Has(r.q, id) && r.births[|r.births| - |r.q| + Index(r.q, id)].ending.StillOpen?
  }

  function Step<T>(r: Run<T>, c: Command<T>): (r': Run<T>)
    requires |r.q| <= |r.births|
    ensures |r'.q| <= |r'.births|
  {
    var done := |r.births| - |r.q|;
    match c
    case DoStart(id) =>
      if Has(r.q, id) then r else r.(q := Begin(r.q, id), births := r.births + [Born(id)])
    case DoStream(id, item) =>
      if !Takes(r, id) then r.(q := Append(r.q, id, item))
      else
        var k := done + Index(r.q, id);
        r.(q := Append(r.q, id, item), births := r.births[k := AcceptBirth(r.births[k], [item])])
    case DoEnd(id, last) =>
      if !Has(r.q, id) then r
      else
        var k := done + Index(r.q, id);
        r.(q := Complete(r.q, id, last), births := r.births[k := EndBirth(r.births[k], last)])
    case DoErase(id, err) =>
      if !Has(r.q, id) then r
      else
        var k := done + Index(r.q, id);
        r.(q := Erase(r.q, id, err), births := r.births[k := EraseBirth(r.births[k], err)])
    case DoClear =>
      r.(q := Clear(r.q),
         births := r.births[..done] + seq(|r.q|, j requires 0 <= j < |r.q| => EraseBirth(r.births[done + j], 0)))
    case DoPop =>
      var p := Front(r.q);
      r.(q := Rest(r.q), out := if p.Empty? then r.out else r.out + [p],
         births := if p.Data? then r.births[done := r.births[done].(taken := r.births[done].taken + 1)] else r.births)
  }

  function Flat<T>(blocks: seq<seq<T>>): seq<T> {
    if blocks == [] then [] else Flat(blocks[..|blocks| - 1]) + blocks[|blocks| - 1]
  }

  lemma {:induction false} FlatFront<T>(s: seq<T>, ss: seq<seq<T>>)
    ensures Flat([s] + ss) == s + Flat(ss)
    decreases |ss|
  {
    if ss == [] {
      assert [s] + ss == [s] && [s][..0] == [];
    } else {
      var n := |ss| - 1;
      FlatFront(s, ss[..n]);
      assert ([s] + ss)[..|ss|] == [s] + ss[..n];
    }
  }

  lemma {:induction false} FlatConcat<T>(a: seq<seq<T>>, b: seq<seq<T>>)
    ensures Flat(a + b) == Flat(a) + Flat(b)
    decreases |b|
  {
    if b == [] {
      assert a + b == a;
    } else {
      var n := |b| - 1;
      FlatConcat(a, b[..n]);
      assert (a + b)[..|a + b| - 1] == a + b[..n];
    }
  }

  function Items<T>(out: seq<Popped<T>>): seq<T> {
    if out == [] then []
    else Items(out[..|out| - 1]) + match out[|out| - 1] case Data(_, item) => [item] case _ => []
  }

  /** START and then data of one id. */
  ghost predicate Opened<T>(b: seq<Popped<T>>, id: int) {
    b != [] && b[0] == Start(id) && forall i | 0 < i < |b| :: b[i].Data? && b[i].id == id
  }

  predicate Terminal<T>(p: Popped<T>, id: int) {
    (p.End? || p.Removed? || p.Error?) && p.id == id
  }

  /** How a stream leaves the queue: 16 bits are kept of an error that is not zero. */
  ghost predicate LastPop<T>(p: Popped<T>, birth: Birth<T>) {
    match birth.ending
    case StillOpen => false
    case ByEnd(last) => p == End(birth.id, last)
    case ByErase(err) => p == if err == 0 then Removed(birth.id) else Error(birth.id, err % 0x1_0000)
  }

  /** Without an erase everything that was accepted is due, with one the beginning of it. */
  ghost predicate DueOk<T>(birth: Birth<T>) {
    && birth.due <= birth.accepted
    && (!birth.touched ==> birth.due == birth.accepted && !birth.ending.ByErase?)
    && (birth.ending.StillOpen? ==> !birth.touched)
  }

  /**
   * START DATA* (END | REMOVED | ERROR), or REMOVED or ERROR alone, as the stream was ended last. What was delivered
   * is exactly what was due.
   */
  ghost predicate Finished<T>(b: seq<Popped<T>>, birth: Birth<T>) {
    && b != [] && LastPop(b[|b| - 1], birth)
    && (if |b| == 1 then !b[0].End? else Opened(b[..|b| - 1], birth.id))
    && Items(b[..|b| - 1]) == birth.due && DueOk(birth)
  }

  /** The stream is in the state its last `end` or `erase` left. */
  ghost predicate EndsAs<T>(s: Stream<T>, birth: Birth<T>) {
    match birth.ending
    case StillOpen => s.status.Open? && s.content == None
    case ByEnd(last) => s.status.Completed? && s.content == last
    case ByErase(err) =>
      && s.content == None && s.data == []
      && if err == 0 then s.status.Deleted? else s.status.Failed? && s.err == err % 0x1_0000
  }

  /** The output so far of a stream still in the queue. */
  ghost predicate Unfinished<T>(b: seq<Popped<T>>, s: Stream<T>, birth: Birth<T>) {
    && birth.id == s.id
    && (if s.polling then Opened(b, s.id) else b == [])
    && Items(b) + s.data == birth.due && |Items(b)| == birth.taken
    && EndsAs(s, birth) && DueOk(birth)
  }

  /** The output is one block per birth, in order. */
  ghost predicate Explains<T>(r: Run<T>, blocks: seq<seq<Popped<T>>>) {
    && |blocks| == |r.births| >= |r.q|
    && Flat(blocks) == r.out
    && WellFormed(r.q)
    && var done := |r.births| - |r.q|;
      && (forall k | 0 <= k < done :: Finished(blocks[k], r.births[k]))
      && (forall k | done <= k < |blocks| :: Unfinished(blocks[k], r.q[k - done], r.births[k]))
  }

  function RunOf<T>(cmds: seq<Command<T>>): (r: Run<T>)
    ensures |r.q| <= |r.births|
  {
    if cmds == [] then Run([], [], []) else Step(RunOf(cmds[..|cmds| - 1]), cmds[|cmds| - 1])
  }

  // ---------------------------------------------------------------- every operation keeps the queue well formed

  lemma EraseAbsent<T>(q: Streams<T>, id: int, err: nat)
    ensures !Has(q, id) ==> Erase(q, id, err) == q
  {
  }

  lemma BeginKeeps<T>(q: Streams<T>, id: int)
    requires WellFormed(q)
    ensures WellFormed(Begin(q, id))
  {
  }

  lemma UpdateKeeps<T>(q: Streams<T>, i: nat, s: Stream<T>)
    requires WellFormed(q) && i < |q| && s.id == q[i].id && (s.polling ==> i == 0 || q[i].polling)
    requires s.status.Deleted? || s.status.Failed? ==> s.data == []
    ensures WellFormed(q[i := s])
  {
  }

  lemma RestKeeps<T>(q: Streams<T>)
    requires WellFormed(q)
    ensures WellFormed(Rest(q))
  {
    if q != [] { UpdateKeeps(q, 0, q[0].(polling := true)); }
  }

  // ---------------------------------------------------------------- the output language

  /** Appending to a block after which all are empty appends to the whole output. */
  lemma {:induction false} FlatGrows<T>(blocks: seq<seq<Popped<T>>>, d: nat, p: Popped<T>)
    requires d < |blocks| && forall k | d < k < |blocks| :: blocks[k] == []
    ensures Flat(blocks[d := blocks[d] + [p]]) == Flat(blocks) + [p]
    decreases |blocks|
  {
    var n := |blocks| - 1;
    var blocks' := blocks[d := blocks[d] + [p]];
    if d == n {
      assert blocks'[..n] == blocks[..n];
    } else {
      FlatGrows(blocks[..n], d, p);
      assert blocks'[..n] == blocks[..n][d := blocks[..n][d] + [p]];
    }
  }

  lemma StartExplained<T>(r: Run<T>, id: int, blocks: seq<seq<Popped<T>>>)
    requires Explains(r, blocks) && !Has(r.q, id)
    ensures Explains(Step(r, DoStart(id)), blocks + [[]])
  {
    hide Finished, Unfinished, WellFormed, Flat;
    BeginKeeps(r.q, id);
    NewUnfinished<T>(id);
    FlatNone(blocks);
  }

  lemma NewUnfinished<T>(id: int)
    ensures Unfinished<T>([], Stream(id, false, Open, 0, [], None), Born(id))
  {
  }

  lemma FlatNone<T>(blocks: seq<seq<T>>)
    ensures Flat(blocks + [[]]) == Flat(blocks)
  {
    assert (blocks + [[]])[..|blocks|] == blocks;
  }

  /** A change of one stream that its birth keeps up with. */
  lemma UpdateExplained<T>(r: Run<T>, i: nat, s: Stream<T>, birth: Birth<T>, blocks: seq<seq<Popped<T>>>)
    requires Explains(r, blocks) && i < |r.q| && s.id == r.q[i].id && s.polling == r.q[i].polling
    requires s.status.Deleted? || s.status.Failed? ==> s.data == []
    requires Unfinished(blocks[|r.births| - |r.q| + i], s, birth)
    ensures Explains(Run(r.q[i := s], r.births[|r.births| - |r.q| + i := birth], r.out), blocks)
  {
    hide WellFormed, Finished, Unfinished, Flat;
    UpdateKeeps(r.q, i, s);
  }

  lemma ClearKeeps<T>(q: Streams<T>)
    requires WellFormed(q)
    ensures WellFormed(Clear(q))
  {
  }

  /** How a stream's own block stays explained. */
  lemma ErasedUnfinished<T>(b: seq<Popped<T>>, s: Stream<T>, err: nat, birth: Birth<T>)
    requires Unfinished(b, s, birth)
    ensures Unfinished(b, Erased(s, err), EraseBirth(birth, err))
  {
    assert Items(b) + [] == Items(b);
    assert (Items(b) + s.data)[..|Items(b)|] == Items(b);
    if s.data == [] { assert Items(b) + s.data == Items(b); }
  }

  lemma AppendedUnfinished<T>(b: seq<Popped<T>>, s: Stream<T>, item: T, birth: Birth<T>)
    requires Unfinished(b, s, birth) && s.status.Open?
    ensures Unfinished(b, s.(data := s.data + [item]), AcceptBirth(birth, [item]))
  {
    assert Items(b) + (s.data + [item]) == Items(b) + s.data + [item];
  }

  lemma ClearedBirth<T>(r: Run<T>, k: nat)
    requires |r.q| <= |r.births| && k < |r.births|
    ensures var r', done := Step(r, DoClear), |r.births| - |r.q|;
      && r'.q == Clear(r.q) && r'.out == r.out && |r'.births| == |r.births|
      && r'.births[k] == if k < done then r.births[k] else EraseBirth(r.births[k], 0)
  {
    hide Clear, EraseBirth;
  }

  lemma ClearExplained<T>(r: Run<T>, blocks: seq<seq<Popped<T>>>)
    requires Explains(r, blocks)
    ensures Explains(Step(r, DoClear), blocks)
  {
    hide Finished, Unfinished, WellFormed, Flat, Erased, EraseBirth, Step;
    ClearKeeps(r.q);
    var r', done := Step(r, DoClear), |r.births| - |r.q|;
    if r.births == [] {
      NothingCleared(r);
    } else {
      ClearedBirth(r, 0);
    }
    forall k | 0 <= k < done ensures Finished(blocks[k], r'.births[k]) {
      ClearedBirth(r, k);
    }
    forall k | done <= k < |blocks| ensures Unfinished(blocks[k], r'.q[k - done], r'.births[k]) {
      ClearedBirth(r, k);
      ErasedUnfinished(blocks[k], r.q[k - done], 0, r.births[k]);
    }
  }

  lemma NothingCleared<T>(r: Run<T>)
    requires |r.q| <= |r.births| == 0
    ensures Step(r, DoClear) == r
  {
  }

  lemma ItemsGrow<T>(b: seq<Popped<T>>, p: Popped<T>)
    ensures Items(b + [p]) == if p.Data? then Items(b) + [p.item] else Items(b)
  {
    assert (b + [p])[..|b|] == b;
  }

  lemma NoItems<T>()
    ensures Items<T>([]) == []
  {
  }

  lemma OpenedSome<T>(b: seq<Popped<T>>, id: int)
    requires Opened(b, id)
    ensures b != []
  {
  }

  lemma OpenedGrows<T>(b: seq<Popped<T>>, p: Popped<T>, id: int)
    requires if p.Start? then b == [] && p.id == id else p.Data? && p.id == id && Opened(b, id)
    ensures Opened(b + [p], id)
  {
  }

  /** What a pop adds to the block of the front stream. */
  lemma FrontBlock<T>(q: Streams<T>, b: seq<Popped<T>>, birth: Birth<T>)
    requires WellFormed(q) && !Front(q).Empty? && Unfinished(b, q[0], birth)
    ensures var p := Front(q);
      if p.Start? || p.Data? then
        && |Rest(q)| == |q| && Rest(q)[1..] == q[1..]
        && Unfinished(b + [p], Rest(q)[0], if p.Data? then birth.(taken := birth.taken + 1) else birth)
      else Rest(q) == q[1..] && Finished(b + [p], birth)
  {
    hide Items, Opened, WellFormed;
    var p := Front(q);
    var b' := b + [p];
    assert b'[..|b|] == b && b'[|b|] == p;
    ItemsGrow(b, p);
    if p.Start? || p.Data? { OpenedGrows(b, p, p.id); }
    NoItems<T>();
    if q[0].polling { OpenedSome(b, q[0].id); }
    if p.Data? { assert [p.item] + q[0].data[1..] == q[0].data; }
  }

  lemma PopExplained<T>(r: Run<T>, blocks: seq<seq<Popped<T>>>)
    requires Explains(r, blocks) && !Front(r.q).Empty?
    ensures var d := |r.births| - |r.q|; Explains(Step(r, DoPop), blocks[d := blocks[d] + [Front(r.q)]])
  {
    hide Finished, Front, Rest, Flat, Items, Opened, Terminal;
    FrontExists(r.q);
    var d, p := |r.births| - |r.q|, Front(r.q);
    var blocks' := blocks[d := blocks[d] + [p]];
    forall k | d < k < |blocks| ensures blocks[k] == [] {
      assert Unfinished(blocks[k], r.q[k - d], r.births[k]);
    }
    FlatGrows(blocks, d, p);
    RestKeeps(r.q);
    FrontBlock(r.q, blocks[d], r.births[d]);
    hide Unfinished, WellFormed;
    var q' := Rest(r.q);
    if p.Start? || p.Data? {
      forall j | 0 < j < |q'| ensures q'[j] == r.q[j] {
        assert q'[1..][j - 1] == r.q[1..][j - 1];
      }
    }
  }

  lemma FrontExists<T>(q: Streams<T>)
    requires !Front(q).Empty?
    ensures q != []
  {
  }

  lemma OpenTakes<T>(b: seq<Popped<T>>, s: Stream<T>, birth: Birth<T>)
    requires Unfinished(b, s, birth)
    ensures s.status.Open? <==> birth.ending.StillOpen?
  {
  }

  lemma RefusedExplained<T>(r: Run<T>, id: int, item: T, blocks: seq<seq<Popped<T>>>)
    requires Explains(r, blocks) && !Accepts(r.q, id)
    ensures Explains(Step(r, DoStream(id, item)), blocks)
  {
    hide Finished, Unfinished, WellFormed, Flat;
    if Has(r.q, id) {
      var i := Index(r.q, id);
      var k := |r.births| - |r.q| + i;
      OpenTakes(blocks[k], r.q[i], r.births[k]);
    }
  }

  lemma StreamExplained<T>(r: Run<T>, id: int, item: T, blocks: seq<seq<Popped<T>>>)
    requires Explains(r, blocks) && Accepts(r.q, id)
    ensures Explains(Step(r, DoStream(id, item)), blocks)
  {
    hide Finished, Unfinished, WellFormed, Flat;
    var i := Index(r.q, id);
    var k := |r.births| - |r.q| + i;
    OpenTakes(blocks[k], r.q[i], r.births[k]);
    AppendedUnfinished(blocks[k], r.q[i], item, r.births[k]);
    UpdateExplained(r, i, Append(r.q, id, item)[i], Step(r, DoStream(id, item)).births[k], blocks);
  }

  lemma CompletedUnfinished<T>(b: seq<Popped<T>>, s: Stream<T>, last: Option<T>, birth: Birth<T>)
    requires Unfinished(b, s, birth)
    ensures Unfinished(b, s.(status := Completed, content := if last.Some? then last else s.content),
                       EndBirth(birth, last))
  {
  }

  lemma EndExplained<T>(r: Run<T>, id: int, last: Option<T>, blocks: seq<seq<Popped<T>>>)
    requires Explains(r, blocks) && Has(r.q, id)
    ensures Explains(Step(r, DoEnd(id, last)), blocks)
  {
    hide Finished, Unfinished, WellFormed, Flat;
    var i := Index(r.q, id);
    var k := |r.births| - |r.q| + i;
    CompletedUnfinished(blocks[k], r.q[i], last, r.births[k]);
    UpdateExplained(r, i, Complete(r.q, id, last)[i], EndBirth(r.births[k], last), blocks);
  }

  lemma EraseExplained<T>(r: Run<T>, id: int, err: nat, blocks: seq<seq<Popped<T>>>)
    requires Explains(r, blocks) && Has(r.q, id)
    ensures Explains(Step(r, DoErase(id, err)), blocks)
  {
    hide Finished, Unfinished, WellFormed, Flat;
    var i := Index(r.q, id);
    var k := |r.births| - |r.q| + i;
    ErasedUnfinished(blocks[k], r.q[i], err, r.births[k]);
    UpdateExplained(r, i, Erased(r.q[i], err), EraseBirth(r.births[k], err), blocks);
  }

  lemma StepExplained<T>(r: Run<T>, c: Command<T>, blocks: seq<seq<Popped<T>>>) returns (blocks': seq<seq<Popped<T>>>)
    requires Explains(r, blocks)
    ensures Explains(Step(r, c), blocks')
  {
    hide Finished, Unfinished, WellFormed, Flat;
    blocks' := blocks;
    match c
    case DoStart(id) =>
      if !Has(r.q, id) {
        StartExplained(r, id, blocks);
        blocks' := blocks + [[]];
      }
    case DoStream(id, item) =>
      if Accepts(r.q, id) {
        StreamExplained(r, id, item, blocks);
      } else {
        RefusedExplained(r, id, item, blocks);
      }
    case DoEnd(id, last) =>
      if Has(r.q, id) { EndExplained(r, id, last, blocks); }
    case DoErase(id, err) =>
      if Has(r.q, id) { EraseExplained(r, id, err, blocks); }
    case DoClear =>
      ClearExplained(r, blocks);
    case DoPop =>
      if !Front(r.q).Empty? {
        PopExplained(r, blocks);
        var done := |r.births| - |r.q|;
        blocks' := blocks[done := blocks[done] + [Front(r.q)]];
      }
  }

  /**
   * Over any run the pops are one block per successful start, in start order: whole for the streams that are gone,
   * begun for the one being read, empty for those that wait. What an untouched stream accepted is what it delivered.
   */
  lemma {:induction false} OutputLanguage<T>(cmds: seq<Command<T>>) returns (blocks: seq<seq<Popped<T>>>)
    ensures Explains(RunOf(cmds), blocks)
    decreases |cmds|
  {
    if cmds == [] {
      blocks := [];
    } else {
      blocks := OutputLanguage(cmds[..|cmds| - 1]);
      blocks := StepExplained(RunOf(cmds[..|cmds| - 1]), cmds[|cmds| - 1], blocks);
    }
  }
}
