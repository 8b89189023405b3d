/** A repeated numeric field may arrive packed, one element a record, or in any mixture of the two. */
module PackedFields {
  import opened Wire
  import opened Descriptors
  import opened EncodeSpec
  import opened DecodeSpec
  import opened Merge

  /** One record of a repeated numeric field on the wire. */
  datatype Chunk = Packed(items: seq<Value>) | One(v: Value) {
    function Items(): seq<Value> {
      if Packed? then items else [v]
    }
  }

  predicate NumericArray(fields: Fields, k: nat) {
    k < |fields| && fields[k].atype.Static? && fields[k].htype.Repeated? && Packable(fields[k].ltype)
  }

  predicate Encodable(f: Field, c: Chunk)
    requires Supported(f) && f.atype.Static? && Packable(f.ltype)
  {
    match c
    case Packed(items) => TypedItems(f, items) && EncPacked(f, items).Out?
    case One(v) => TypedValue(f, v) && EncRecord(f, v).Out?
  }

  function ChunkBytes(f: Field, c: Chunk): Bytes
    requires Supported(f) && f.atype.Static? && Packable(f.ltype) && Encodable(f, c)
  {
    if c.Packed? then EncPacked(f, c.items).bytes else EncRecord(f, c.v).bytes
  }

  function ChunksBytes(f: Field, cs: seq<Chunk>): Bytes
    requires Supported(f) && f.atype.Static? && Packable(f.ltype)
    requires forall i | 0 <= i < |cs| :: Encodable(f, cs[i])
  {
    if cs == [] then [] else ChunkBytes(f, cs[0]) + ChunksBytes(f, cs[1..])
  }

  function AllItems(cs: seq<Chunk>): seq<Value> {
    if cs == [] then [] else cs[0].Items() + AllItems(cs[1..])
  }

  lemma ScansChunk(fields: Fields, k: nat, c: Chunk, m: Struct, tail: Bytes, seen: set<nat>)
    requires WellFormed(fields) && NumericArray(fields, k) && Shaped(fields, m) && m[k].Rep?
    requires Encodable(fields[k], c) && |ChunkBytes(fields[k], c)| < TWO32
    requires |m[k].items| + |c.Items()| <= fields[k].arraySize
    ensures ScanFields(fields, ChunkBytes(fields[k], c) + tail, m, seen)
      == ScanFields(fields, tail, m[k := Rep(m[k].items + c.Items())], seen)
  {
    hide ScanFields, EncPacked, EncRecord;
    if c.Packed? {
      ScansPacked(fields, k, c.items, m, tail, seen);
    } else {
      ScansRecord(fields, k, c.v, m, tail, seen);
    }
  }

  lemma {:induction false} OverfullPacked(f: Field, more: seq<Value>, items: seq<Value>)
    requires Packable(f.ltype) && TypedItems(f, more) && EncNums(f, more).Out?
    requires |items| <= f.arraySize < |items| + |more|
    ensures !DecPacked(f, EncNums(f, more).bytes, items).ok
    decreases |more|
  {
    hide DecNum, EncNum;
    var rest := EncNums(f, more[1..]).bytes;
    DecodesNum(f, more[0].n, rest, Stale);
    if |items| < f.arraySize {
      OverfullPacked(f, more[1..], items + [more[0]]);
    }
  }

  /** A tagged payload its slot rejects fails the whole decode. */
  lemma BadRecord(fields: Fields, k: nat, wt: nat, payload: Bytes, tail: Bytes, m: Struct, seen: set<nat>)
    requires WellFormed(fields) && k < |fields| && Shaped(fields, m) && wt < 8
    requires !DecSlot(fields[k], wt, payload + tail, m[k]).ok
    ensures !ScanFields(fields, EncTag(wt, fields[k].tag) + payload + tail, m, seen).ok
  {
    hide DecSlot, EncTag, ReadTag, Mark, Find, ShapedSlot;
    assert EncTag(wt, fields[k].tag) + payload + tail == EncTag(wt, fields[k].tag) + (payload + tail);
    DecodesTag(wt, fields[k].tag, payload + tail);
    FindTag(fields, k);
  }

  lemma OverfullChunk(fields: Fields, k: nat, c: Chunk, m: Struct, tail: Bytes, seen: set<nat>)
    requires WellFormed(fields) && NumericArray(fields, k) && Shaped(fields, m) && m[k].Rep?
    requires Encodable(fields[k], c) && |ChunkBytes(fields[k], c)| < TWO32
    requires |m[k].items| <= fields[k].arraySize < |m[k].items| + |c.Items()|
    ensures !ScanFields(fields, ChunkBytes(fields[k], c) + tail, m, seen).ok
  {
    hide ScanFields, EncTag, DecPacked, EncNums, ReadString, DecElement;
    var f := fields[k];
    if c.Packed? {
      var body := EncNums(f, c.items).bytes;
      OverfullPacked(f, c.items, m[k].items);
      DecodesString(body, tail);
      BadRecord(fields, k, WT_STRING, EncString(body), tail, m, seen);
    } else {
      BadRecord(fields, k, WireType(f.ltype), EncValue(f, c.v).bytes, tail, m, seen);
    }
  }

  /** The first chunk of several, when it fits. */
  lemma FirstChunk(fields: Fields, k: nat, cs: seq<Chunk>, m: Struct, items: seq<Value>, tail: Bytes, seen: set<nat>)
    requires WellFormed(fields) && NumericArray(fields, k) && |m| == |fields| && Shaped(fields, m[k := Rep(items)])
    requires cs != [] && forall i | 0 <= i < |cs| :: Encodable(fields[k], cs[i])
    requires |ChunksBytes(fields[k], cs)| < TWO32
    requires |items| + |cs[0].Items()| <= fields[k].arraySize
    ensures var now := m[k := Rep(items + cs[0].Items())];
      && Shaped(fields, now)
      && ScanFields(fields, ChunksBytes(fields[k], cs) + tail, m[k := Rep(items)], seen)
        == ScanFields(fields, ChunksBytes(fields[k], cs[1..]) + tail, now, seen)
  {
    assert Supported(fields[k]);
    hide ScanFields, ChunkBytes, Encodable, Shaped, WellFormed, Supported;
    var m0, xs := m[k := Rep(items)], cs[0].Items();
    var rest := ChunksBytes(fields[k], cs[1..]);
    assert ChunksBytes(fields[k], cs) + tail == ChunkBytes(fields[k], cs[0]) + (rest + tail);
    ScansChunk(fields, k, cs[0], m0, rest + tail, seen);
    assert m0[k := Rep(items + xs)] == m[k := Rep(items + xs)];
    StaysShaped(fields, k, m0, Rep(items + xs));
  }

  lemma ItemsInTurn(cs: seq<Chunk>, items: seq<Value>)
    requires cs != []
    ensures items + cs[0].Items() + AllItems(cs[1..]) == items + AllItems(cs)
  {
  }

  lemma {:induction false} ScansChunks(fields: Fields, k: nat, cs: seq<Chunk>, m: Struct, items: seq<Value>,
                                       tail: Bytes, seen: set<nat>)
    requires WellFormed(fields) && NumericArray(fields, k) && |m| == |fields| && Shaped(fields, m[k := Rep(items)])
    requires forall i | 0 <= i < |cs| :: Encodable(fields[k], cs[i])
    requires |ChunksBytes(fields[k], cs)| < TWO32 && |items| + |AllItems(cs)| <= fields[k].arraySize
    ensures Shaped(fields, m[k := Rep(items + AllItems(cs))])
    ensures ScanFields(fields, ChunksBytes(fields[k], cs) + tail, m[k := Rep(items)], seen)
      == ScanFields(fields, tail, m[k := Rep(items + AllItems(cs))], seen)
    decreases |cs|
  {
    assert Supported(fields[k]);
    if cs == [] {
      assert items + [] == items && ChunksBytes(fields[k], cs) + tail == tail;
    } else {
      assert |ChunksBytes(fields[k], cs[1..])| < TWO32 && |AllItems(cs)| == |cs[0].Items()| + |AllItems(cs[1..])|;
      hide *;
      var items' := items + cs[0].Items();
      FirstChunk(fields, k, cs, m, items, tail, seen);
      ItemsInTurn(cs, items);
      ScansChunks(fields, k, cs[1..], m, items', tail, seen);
    }
  }

  lemma {:induction false} OverfullChunks(fields: Fields, k: nat, cs: seq<Chunk>, m: Struct, items: seq<Value>,
                                          tail: Bytes, seen: set<nat>)
    requires WellFormed(fields) && NumericArray(fields, k) && |m| == |fields| && Shaped(fields, m[k := Rep(items)])
    requires forall i | 0 <= i < |cs| :: Encodable(fields[k], cs[i])
    requires |ChunksBytes(fields[k], cs)| < TWO32
    requires |items| <= fields[k].arraySize < |items| + |AllItems(cs)|
    ensures !ScanFields(fields, ChunksBytes(fields[k], cs) + tail, m[k := Rep(items)], seen).ok
    decreases |cs|
  {
    assert Supported(fields[k]);
    hide ScanFields, ChunkBytes, Encodable, Shaped, WellFormed, Supported;
    if |items| + |cs[0].Items()| > fields[k].arraySize {
      var rest := ChunksBytes(fields[k], cs[1..]);
      assert ChunksBytes(fields[k], cs) + tail == ChunkBytes(fields[k], cs[0]) + (rest + tail);
      OverfullChunk(fields, k, cs[0], m[k := Rep(items)], rest + tail, seen);
    } else {
      FirstChunk(fields, k, cs, m, items, tail, seen);
      OverfullChunks(fields, k, cs[1..], m, items + cs[0].Items(), tail, seen);
    }
  }

  /** However the elements are cut into records, decoding gives the same array, or fails exactly when it overflows. */
  lemma PackedAndUnpackedAgree(fields: Fields, k: nat, cs: seq<Chunk>, m: Struct)
    requires WellFormed(fields) && NumericArray(fields, k) && Shaped(fields, m) && m[k].Rep?
    requires |m[k].items| <= fields[k].arraySize
    requires forall i | 0 <= i < |cs| :: Encodable(fields[k], cs[i])
    requires |ChunksBytes(fields[k], cs)| < TWO32
    ensures var r := ScanFields(fields, ChunksBytes(fields[k], cs), m, {});
      && (r.ok <==> |m[k].items| + |AllItems(cs)| <= fields[k].arraySize)
      && (r.ok ==> r.rest == [] && r.out == m[k := Rep(m[k].items + AllItems(cs))])
  {
    assert Supported(fields[k]);
    hide Encodable, Shaped, WellFormed, Supported;
    assert |m| == |fields| by { ShapedLength(fields, m); }
    assert m[k := Rep(m[k].items)] == m;
    assert ChunksBytes(fields[k], cs) + [] == ChunksBytes(fields[k], cs);
    if |m[k].items| + |AllItems(cs)| <= fields[k].arraySize {
      ScansChunks(fields, k, cs, m, m[k].items, [], {});
    } else {
      OverfullChunks(fields, k, cs, m, m[k].items, [], {});
    }
  }

  lemma ShapedLength(fields: Fields, m: Struct)
    requires Shaped(fields, m)
    ensures |m| == |fields|
  {
  }
}
