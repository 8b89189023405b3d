/** Decoding an encoded message into a struct merges the message into it. */
module Merge {
  import opened Bits
  import opened Wire
  import opened Descriptors
  import opened EncodeSpec
  import opened DecodeSpec

  // ---------------------------------------------------------------- the merge of two structs

  /** `base` overlaid with `m`: present scalars replace, submessages merge, arrays append. */
  function Merged(fields: Fields, base: Struct, m: Struct): (r: Struct)
    requires WellFormed(fields) && Shaped(fields, base) && Typed(fields, m)
    ensures Shaped(fields, r)
    decreases fields, 4, 0
  {
    seq(|fields|, i requires 0 <= i < |fields| => MergedSlot(fields[i], base[i], m[i]))
  }

  function MergedSlot(f: Field, b: Slot, s: Slot): (r: Slot)
    requires Supported(f) && ShapedSlot(f, b) && TypedSlot(f, s)
    ensures ShapedSlot(f, r)
    decreases f, 3, 0
  {
    if f.atype.Callback? then
      if b.bound && s.bound && s.text.bytes != [] then Cb(true, s.text) else b
    else if f.htype.Required? then Single(MergedValue(f, b.v, s.v))
    else if f.htype.Optional? then if s.has then Opt(true, MergedValue(f, b.v, s.v)) else b
    else Rep(b.items + NewItems(f, s.items))
  }

  function MergedValue(f: Field, b: Value, v: Value): (r: Value)
    requires Supported(f) && f.atype.Static? && ShapedValue(f, b) && TypedValue(f, v)
    ensures ShapedValue(f, r)
    decreases f, 0, 0
  {
    if f.ltype.Submessage? then Msg(Merged(f.sub, b.slots, v.slots)) else v
  }

  /** A new array cell starts from defaults with null callbacks. */
  function NewItem(f: Field, v: Value): Value
    requires Supported(f) && f.atype.Static? && TypedValue(f, v)
    decreases f, 0, 1
  {
    if f.ltype.Submessage? then Msg(Merged(f.sub, Blank(f.sub), v.slots)) else v
  }

  function NewItems(f: Field, items: seq<Value>): (r: seq<Value>)
    requires Supported(f) && f.atype.Static? && TypedItems(f, items)
    ensures |r| == |items|
    decreases f, 1, |items|
  {
    if items == [] then [] else [NewItem(f, items[0])] + NewItems(f, items[1..])
  }

  /** Every required field is set; only a required callback can be missing. */
  predicate Complete(fields: Fields, m: Struct)
    requires WellFormed(fields) && Typed(fields, m)
    decreases fields, 1
  {
    forall i | 0 <= i < |fields| :: CompleteSlot(fields[i], m[i])
  }

  predicate CompleteSlot(f: Field, s: Slot)
    requires Supported(f) && TypedSlot(f, s)
    decreases f, 1
  {
    if f.atype.Callback? then f.htype.Required? ==> s.bound
    else if f.htype.Required? then CompleteValue(f, s.v)
    else if f.htype.Optional? then s.has ==> CompleteValue(f, s.v)
    else forall i | 0 <= i < |s.items| :: CompleteValue(f, s.items[i])
  }

  predicate CompleteValue(f: Field, v: Value)
    requires Supported(f) && f.atype.Static? && TypedValue(f, v)
    decreases f, 0
  {
    f.ltype.Submessage? ==> Complete(f.sub, v.slots)
  }

  /** No array overflows when `m` is merged into `base`. */
  predicate Room(fields: Fields, base: Struct, m: Struct)
    requires WellFormed(fields) && Shaped(fields, base) && Typed(fields, m)
    decreases fields, 1
  {
    forall i | 0 <= i < |fields| :: RoomSlot(fields[i], base[i], m[i])
  }

  predicate RoomSlot(f: Field, b: Slot, s: Slot)
    requires Supported(f) && ShapedSlot(f, b) && TypedSlot(f, s)
    decreases f, 1
  {
    if f.atype.Callback? then true
    else if f.htype.Required? then RoomValue(f, b.v, s.v)
    else if f.htype.Optional? then s.has ==> RoomValue(f, b.v, s.v)
    else
      && |b.items| + |s.items| <= f.arraySize
      && forall i | 0 <= i < |s.items| :: NewItemRoom(f, s.items[i])
  }

  predicate NewItemRoom(f: Field, v: Value)
    requires Supported(f) && f.atype.Static? && TypedValue(f, v)
    decreases f, 0
  {
    f.ltype.Submessage? ==> Room(f.sub, Blank(f.sub), v.slots)
  }

  predicate RoomValue(f: Field, b: Value, v: Value)
    requires Supported(f) && f.atype.Static? && ShapedValue(f, b) && TypedValue(f, v)
    decreases f, 0
  {
    f.ltype.Submessage? ==> Room(f.sub, b.slots, v.slots)
  }

  // ---------------------------------------------------------------- leaves

  lemma DecodesTag(wt: nat, tag: nat, tail: Bytes)
    requires 1 <= tag < MAX_TAG && wt < 8
    ensures ReadTag(EncTag(wt, tag) + tail) == Tag(tag, wt, tail)
  {
    hide ReadVarint32, EncVarint;
    VarintRoundTrip32(8 * tag + wt, tail);
  }

  lemma DecodesString(body: Bytes, tail: Bytes)
    requires |body| < TWO32
    ensures ReadString(EncString(body) + tail) == Got(body, tail)
  {
    hide ReadVarint32, EncVarint;
    assert EncString(body) + tail == EncVarint(|body|) + (body + tail);
    VarintRoundTrip32(|body|, body + tail);
    assert (body + tail)[..|body|] == body && (body + tail)[|body|..] == tail;
  }

  /** The value stored for what the encoder wrote is the value itself. */
  lemma StoresValue(f: Field, n: int)
    requires Packable(f.ltype) && !f.ltype.Fixed32? && !f.ltype.Fixed64?
    requires ValidSize(f.dataSize) && InRange(f, n)
    ensures var raw := if f.ltype.UVarint? then n else if f.ltype.SVarint? then ZigZag(n) else Unsigned64(n);
      0 <= raw < TWO64 && Wide(f, raw) == n && Clamp(f, n) == n
  {
    hide ZigZag, UnZigZag;
    if f.ltype.UVarint? {
    } else {
      SignedUnsigned(n, f.dataSize);
      if f.ltype.SVarint? {
        ZigZagRoundTrip(n);
      } else if f.dataSize < 8 {
        SignedUnsigned(n, 4);
      }
    }
  }

  /**
   * A varint that was read is accepted exactly when its widened value fits the field, and is then stored as that.
   * A plain signed field of 4 bytes takes any varint, because it is cut to 32 bits before it is compared.
   */
  lemma AcceptsWhatFits(f: Field, bs: Bytes, was: Value)
    requires f.ltype.Varint? || f.ltype.UVarint? || f.ltype.SVarint?
    requires ReadVarint64(bs).Got? && ValidSize(f.dataSize)
    ensures var raw, r := ReadVarint64(bs).value, DecNum(f, bs, was);
      && (r.ok <==> InRange(f, Wide(f, raw)))
      && (r.ok ==> r.out == Num(Wide(f, raw)) && r.rest == ReadVarint64(bs).rest)
      && (f.ltype.Varint? && f.dataSize >= 4 ==> r.ok)
  {
    hide ReadVarint64, Wide;
    var n := Wide(f, ReadVarint64(bs).value);
    if f.ltype.UVarint? {
      ModIsSame(n, 2 * Half(f.dataSize));
    } else {
      SignedIsSame(n, f.dataSize);
      if f.ltype.Varint? && f.dataSize >= 4 { WideFits(f, ReadVarint64(bs).value); }
    }
  }

  lemma ModIsSame(n: int, m: nat)
    requires m > 0
    ensures n % m == n <==> 0 <= n < m
  {
    if 0 <= n < m { SmallMod(n, m); }
  }

  lemma SignedIsSame(n: int, d: nat)
    requires ValidSize(d)
    ensures Signed(n, d) == n <==> FitsInt(n, d)
  {
    if FitsInt(n, d) {
      SignedUnsigned(n, d);
    }
  }

  lemma WideFits(f: Field, raw: nat)
    requires f.ltype.Varint? && (f.dataSize == 4 || f.dataSize == 8)
    ensures FitsInt(Wide(f, raw), f.dataSize)
  {
  }

  lemma DecodesNum(f: Field, n: int, tail: Bytes, was: Value)
    requires Packable(f.ltype) && InRange(f, n) && EncNum(f, n).Out?
    ensures DecNum(f, EncNum(f, n).bytes + tail, was) == Decoded(true, tail, Num(n))
    ensures EncNum(f, n).bytes != []
  {
    hide ReadVarint64, EncVarint, Wide, Clamp, ReadFixed, FixedBytes, ZigZag, Pow2;
    if f.ltype.Fixed32? || f.ltype.Fixed64? {
      Pow2Values();
      FixedRoundTrip(n, if f.ltype.Fixed32? then 4 else 8, tail);
    } else {
      StoresValue(f, n);
      var raw := if f.ltype.UVarint? then n else if f.ltype.SVarint? then ZigZag(n) else Unsigned64(n);
      VarintRoundTrip64(raw, tail);
      VarintRoundTrip64(raw, []);
      assert EncVarint(raw) + [] == EncVarint(raw);
    }
  }

  lemma {:induction false} DecodesPacked(f: Field, more: seq<Value>, items: seq<Value>)
    requires Packable(f.ltype) && TypedItems(f, more) && EncNums(f, more).Out?
    requires |items| + |more| <= f.arraySize
    ensures DecPacked(f, EncNums(f, more).bytes, items) == Decoded(true, [], items + more)
    decreases |more|
  {
    hide DecNum, EncNum;
    if more == [] {
      assert items + more == items;
    } else {
      var first, rest := EncNum(f, more[0].n).bytes, EncNums(f, more[1..]).bytes;
      DecodesNum(f, more[0].n, rest, Stale);
      DecodesPacked(f, more[1..], items + [more[0]]);
      assert items + [more[0]] + more[1..] == items + more;
    }
  }

  // ---------------------------------------------------------------- records

  function MarkAll(fields: Fields, k: nat, seen: set<nat>): set<nat>
    requires k <= |fields|
    decreases |fields| - k
  {
    if k == |fields| then seen else MarkAll(fields, k + 1, Mark(fields, k, seen))
  }

  lemma {:induction false} MarkAllSees(fields: Fields, k: nat, seen: set<nat>)
    requires k <= |fields|
    ensures seen <= MarkAll(fields, k, seen)
    ensures forall i | k <= i < |fields| && Tracked(fields, i) :: i in MarkAll(fields, k, seen)
    decreases |fields| - k
  {
    if k < |fields| {
      MarkAllSees(fields, k + 1, Mark(fields, k, seen));
    }
  }

  /** One tagged payload that its slot accepts. */
  lemma OneRecord(fields: Fields, k: nat, wt: nat, payload: Bytes, tail: Bytes, m: Struct, seen: set<nat>)
    requires WellFormed(fields) && k < |fields| && Shaped(fields, m) && wt < 8
    requires DecSlot(fields[k], wt, payload + tail, m[k]).ok
    requires DecSlot(fields[k], wt, payload + tail, m[k]).rest == tail
    ensures var m' := m[k := DecSlot(fields[k], wt, payload + tail, m[k]).out];
      ScanFields(fields, EncTag(wt, fields[k].tag) + payload + tail, m, seen)
        == ScanFields(fields, tail, m', Mark(fields, k, seen))
  {
    hide DecSlot, EncTag, ReadTag, Mark, Shaped, Find, ShapedSlot;
    var bs := EncTag(wt, fields[k].tag) + payload + tail;
    assert bs == EncTag(wt, fields[k].tag) + (payload + tail);
    DecodesTag(wt, fields[k].tag, payload + tail);
    FindTag(fields, k);
  }

  // ---------------------------------------------------------------- decoding is merging

  /** The fields before `k` are merged, the others still as they were. */
  function MergedUpTo(fields: Fields, base: Struct, m: Struct, k: nat): Struct
    requires WellFormed(fields) && Shaped(fields, base) && Typed(fields, m) && k <= |fields|
  {
    Merged(fields, base, m)[..k] + base[k..]
  }

  lemma DecodesValue(f: Field, v: Value, tail: Bytes, was: Value)
    requires Supported(f) && f.atype.Static? && TypedValue(f, v) && ShapedValue(f, was)
    requires CompleteValue(f, v) && RoomValue(f, was, v)
    requires EncValue(f, v).Out? && |EncValue(f, v).bytes| < TWO32
    ensures DecValue(f, EncValue(f, v).bytes + tail, was) == Decoded(true, tail, MergedValue(f, was, v))
    decreases f, 0, 0
  {
    if f.ltype.Submessage? {
      var body := EncMessage(f.sub, v.slots).bytes;
      assert |body| < TWO32;
      DecodesString(body, tail);
      DecodesMessage(f.sub, v.slots, was.slots);
    } else {
      DecodesNum(f, v.n, tail, was);
    }
  }

  lemma DecodesElement(f: Field, v: Value, tail: Bytes)
    requires Supported(f) && f.atype.Static? && TypedValue(f, v)
    requires CompleteValue(f, v) && NewItemRoom(f, v)
    requires EncValue(f, v).Out? && |EncValue(f, v).bytes| < TWO32
    ensures DecElement(f, EncValue(f, v).bytes + tail) == Decoded(true, tail, NewItem(f, v))
    decreases f, 0, 0
  {
    if f.ltype.Submessage? {
      var body := EncMessage(f.sub, v.slots).bytes;
      assert |body| < TWO32;
      DecodesString(body, tail);
      DecodesMessage(f.sub, v.slots, Blank(f.sub));
    } else {
      DecodesNum(f, v.n, tail, Stale);
    }
  }

  /** One single-element record appends its element. */
  lemma ScansRecord(fields: Fields, k: nat, v: Value, m: Struct, tail: Bytes, seen: set<nat>)
    requires WellFormed(fields) && k < |fields| && Shaped(fields, m)
    requires fields[k].atype.Static? && fields[k].htype.Repeated? && TypedValue(fields[k], v)
    requires CompleteValue(fields[k], v) && NewItemRoom(fields[k], v)
    requires m[k].Rep? && |m[k].items| < fields[k].arraySize
    requires EncRecord(fields[k], v).Out? && |EncRecord(fields[k], v).bytes| < TWO32
    ensures ScanFields(fields, EncRecord(fields[k], v).bytes + tail, m, seen)
      == ScanFields(fields, tail, m[k := Rep(m[k].items + [NewItem(fields[k], v)])], seen)
    decreases fields, 1, 0
  {
    hide ScanFields, DecElement, Mark, EncTag, EncValue, NewItem, NewItemRoom, CompleteValue, TypedValue;
    var f := fields[k];
    var payload := EncValue(f, v).bytes;
    DecodesElement(f, v, tail);
    assert DecSlot(f, WireType(f.ltype), payload + tail, m[k])
      == Decoded(true, tail, Rep(m[k].items + [NewItem(f, v)]));
    OneRecord(fields, k, WireType(f.ltype), payload, tail, m, seen);
    assert Mark(fields, k, seen) == seen by { RepeatedUntracked(fields, k, seen); }
  }

  lemma RepeatedUntracked(fields: Fields, k: nat, seen: set<nat>)
    requires k < |fields| && fields[k].htype.Repeated?
    ensures Mark(fields, k, seen) == seen
  {
  }

  /** The first record of a run. */
  lemma ScansFirst(fields: Fields, k: nat, more: seq<Value>, m: Struct, items: seq<Value>, tail: Bytes, seen: set<nat>)
    requires WellFormed(fields) && k < |fields| == |m| && Shaped(fields, m[k := Rep(items)])
    requires fields[k].atype.Static? && fields[k].htype.Repeated? && more != [] && TypedItems(fields[k], more)
    requires CompleteValue(fields[k], more[0]) && NewItemRoom(fields[k], more[0])
    requires |items| < fields[k].arraySize
    requires EncRecords(fields[k], more).Out? && |EncRecords(fields[k], more).bytes| < TWO32
    ensures EncRecords(fields[k], more[1..]).Out?
    ensures |EncRecords(fields[k], more[1..]).bytes| <= |EncRecords(fields[k], more).bytes|
    ensures var items' := items + [NewItem(fields[k], more[0])];
      && Shaped(fields, m[k := Rep(items')])
      && ScanFields(fields, EncRecords(fields[k], more).bytes + tail, m[k := Rep(items)], seen)
        == ScanFields(fields, EncRecords(fields[k], more[1..]).bytes + tail, m[k := Rep(items')], seen)
    decreases fields, 1, |more|, 0
  {
    hide ScanFields, Shaped, ShapedSlot, EncRecord, NewItem, NewItemRoom, CompleteValue, TypedValue;
    var f := fields[k];
    assert Supported(f);
    hide Supported, WellFormed;
    var first, rest := EncRecord(f, more[0]).bytes, EncRecords(f, more[1..]).bytes;
    assert EncRecords(f, more).bytes + tail == first + (rest + tail);
    ScansRecord(fields, k, more[0], m[k := Rep(items)], rest + tail, seen);
    var items' := items + [NewItem(f, more[0])];
    assert m[k := Rep(items)][k := Rep(items')] == m[k := Rep(items')];
    StaysShaped(fields, k, m[k := Rep(items)], Rep(items'));
  }

  /** A run of single-element records appends its elements. */
  lemma {:induction false} ScansRecords(fields: Fields, k: nat, more: seq<Value>, m: Struct, items: seq<Value>,
                                        tail: Bytes, seen: set<nat>)
    requires WellFormed(fields) && k < |fields| == |m| && Shaped(fields, m[k := Rep(items)])
    requires fields[k].atype.Static? && fields[k].htype.Repeated? && TypedItems(fields[k], more)
    requires forall i | 0 <= i < |more| :: CompleteValue(fields[k], more[i]) && NewItemRoom(fields[k], more[i])
    requires |items| + |more| <= fields[k].arraySize
    requires EncRecords(fields[k], more).Out? && |EncRecords(fields[k], more).bytes| < TWO32
    ensures ScanFields(fields, EncRecords(fields[k], more).bytes + tail, m[k := Rep(items)], seen)
      == ScanFields(fields, tail, m[k := Rep(items + NewItems(fields[k], more))], seen)
    decreases fields, 1, |more|
  {
    hide ScanFields, Shaped, ShapedSlot, EncRecord, NewItem, NewItemRoom, CompleteValue, TypedValue;
    var f := fields[k];
    assert Supported(f);
    hide Supported, WellFormed;
    if more == [] {
      assert items + [] == items;
      assert EncRecords(f, more).bytes + tail == tail;
    } else {
      hide EncRecords;
      ScansFirst(fields, k, more, m, items, tail, seen);
      var items' := items + [NewItem(f, more[0])];
      ScansRecords(fields, k, more[1..], m, items', tail, seen);
      assert items' + NewItems(f, more[1..]) == items + NewItems(f, more);
    }
  }

  lemma StaysShaped(fields: Fields, k: nat, m: Struct, s: Slot)
    requires k < |fields| && Shaped(fields, m) && (ShapedSlot(fields[k], s) || (m[k].Rep? && s.Rep?))
    ensures Shaped(fields, m[k := s])
  {
  }

  lemma {:induction false} NewNums(f: Field, items: seq<Value>)
    requires Supported(f) && f.atype.Static? && TypedItems(f, items) && Packable(f.ltype)
    ensures NewItems(f, items) == items
    decreases |items|
  {
    if items != [] { NewNums(f, items[1..]); }
  }

  /** The packed form appends all its elements at once. */
  lemma ScansPacked(fields: Fields, k: nat, more: seq<Value>, m: Struct, tail: Bytes, seen: set<nat>)
    requires WellFormed(fields) && k < |fields| && Shaped(fields, m)
    requires fields[k].atype.Static? && fields[k].htype.Repeated? && TypedItems(fields[k], more)
    requires Packable(fields[k].ltype)
    requires m[k].Rep? && |m[k].items| + |more| <= fields[k].arraySize
    requires EncPacked(fields[k], more).Out? && |EncPacked(fields[k], more).bytes| < TWO32
    ensures ScanFields(fields, EncPacked(fields[k], more).bytes + tail, m, seen)
      == ScanFields(fields, tail, m[k := Rep(m[k].items + more)], seen)
  {
    var f := fields[k];
    var body := EncNums(f, more).bytes;
    DecodesString(body, tail);
    DecodesPacked(f, more, m[k].items);
    OneRecord(fields, k, WT_STRING, EncString(body), tail, m, seen);
  }

  lemma ScansSlot(fields: Fields, k: nat, s: Slot, m: Struct, tail: Bytes, seen: set<nat>)
    requires WellFormed(fields) && k < |fields| && Shaped(fields, m)
    requires TypedSlot(fields[k], s) && CompleteSlot(fields[k], s) && RoomSlot(fields[k], m[k], s)
    requires EncSlot(fields[k], s).Out? && |EncSlot(fields[k], s).bytes| < TWO32
    ensures ScanFields(fields, EncSlot(fields[k], s).bytes + tail, m, seen)
      == ScanFields(fields, tail, m[k := MergedSlot(fields[k], m[k], s)], Mark(fields, k, seen))
    decreases fields, 2
  {
    hide ScanFields;
    assert ShapedSlot(fields[k], m[k]);
    if fields[k].atype.Callback? {
      ScansCallback(fields, k, s, m, tail, seen);
    } else if fields[k].htype.Repeated? {
      ScansArray(fields, k, s, m, tail, seen);
    } else {
      ScansSingular(fields, k, s, m, tail, seen);
    }
  }

  lemma ScansSingular(fields: Fields, k: nat, s: Slot, m: Struct, tail: Bytes, seen: set<nat>)
    requires WellFormed(fields) && k < |fields| && Shaped(fields, m)
    requires fields[k].atype.Static? && !fields[k].htype.Repeated? && ShapedSlot(fields[k], m[k])
    requires TypedSlot(fields[k], s) && CompleteSlot(fields[k], s) && RoomSlot(fields[k], m[k], s)
    requires EncSlot(fields[k], s).Out? && |EncSlot(fields[k], s).bytes| < TWO32
    ensures ScanFields(fields, EncSlot(fields[k], s).bytes + tail, m, seen)
      == ScanFields(fields, tail, m[k := MergedSlot(fields[k], m[k], s)], Mark(fields, k, seen))
    decreases fields, 1, 0
  {
    hide ScanFields, EncValue, EncTag, DecValue, MergedValue, CompleteValue, RoomValue, Mark;
    var f := fields[k];
    if f.htype.Required? || s.has {
      var payload := EncValue(f, s.v).bytes;
      assert EncSlot(f, s).bytes == EncTag(WireType(f.ltype), f.tag) + payload;
      DecodesValue(f, s.v, tail, m[k].v);
      assert DecSlot(f, WireType(f.ltype), payload + tail, m[k])
        == Decoded(true, tail, MergedSlot(f, m[k], s));
      OneRecord(fields, k, WireType(f.ltype), payload, tail, m, seen);
    } else {
      assert EncSlot(f, s).bytes + tail == tail;
      NothingScanned(fields, k, s, m, seen);
    }
  }

  /** A slot that writes nothing changes nothing. */
  lemma NothingScanned(fields: Fields, k: nat, s: Slot, m: Struct, seen: set<nat>)
    requires WellFormed(fields) && k < |fields| && Shaped(fields, m) && ShapedSlot(fields[k], m[k])
    requires TypedSlot(fields[k], s) && CompleteSlot(fields[k], s)
    requires (s.Cb? && !s.bound) || (s.Opt? && !s.has) || (s.Rep? && s.items == [])
    ensures m[k := MergedSlot(fields[k], m[k], s)] == m && Mark(fields, k, seen) == seen
  {
    if s.Rep? { assert m[k].items + [] == m[k].items; }
  }

  lemma ScansArray(fields: Fields, k: nat, s: Slot, m: Struct, tail: Bytes, seen: set<nat>)
    requires WellFormed(fields) && k < |fields| && Shaped(fields, m)
    requires fields[k].atype.Static? && fields[k].htype.Repeated? && ShapedSlot(fields[k], m[k])
    requires TypedSlot(fields[k], s) && CompleteSlot(fields[k], s) && RoomSlot(fields[k], m[k], s)
    requires EncSlot(fields[k], s).Out? && |EncSlot(fields[k], s).bytes| < TWO32
    ensures ScanFields(fields, EncSlot(fields[k], s).bytes + tail, m, seen)
      == ScanFields(fields, tail, m[k := MergedSlot(fields[k], m[k], s)], Mark(fields, k, seen))
    decreases fields, 1, |s.items| + 1
  {
    hide ScanFields, EncRecords, EncPacked, NewItems, Packable, NewItemRoom, CompleteValue, TypedValue;
    var f := fields[k];
    assert Mark(fields, k, seen) == seen;
    if s.items == [] {
      assert EncSlot(f, s).bytes + tail == tail;
      NothingScanned(fields, k, s, m, seen);
    } else if Packable(f.ltype) {
      ScansPacked(fields, k, s.items, m, tail, seen);
      NewNums(f, s.items);
    } else {
      assert m[k := Rep(m[k].items)] == m;
      ScansRecords(fields, k, s.items, m, m[k].items, tail, seen);
    }
  }

  lemma ScansCallback(fields: Fields, k: nat, s: Slot, m: Struct, tail: Bytes, seen: set<nat>)
    requires WellFormed(fields) && k < |fields| && Shaped(fields, m) && ShapedSlot(fields[k], m[k])
    requires fields[k].atype.Callback? && TypedSlot(fields[k], s) && CompleteSlot(fields[k], s)
    requires |EncSlot(fields[k], s).bytes| < TWO32
    ensures ScanFields(fields, EncSlot(fields[k], s).bytes + tail, m, seen)
      == ScanFields(fields, tail, m[k := MergedSlot(fields[k], m[k], s)], Mark(fields, k, seen))
  {
    hide ScanFields, EncTag, Skip, ReadString, Mark;
    var f := fields[k];
    if s.bound {
      var body := s.text.bytes;
      DecodesString(body, tail);
      SkipsString(body, tail);
      assert DecSlot(f, WT_STRING, EncString(body) + tail, m[k])
        == Decoded(true, tail, MergedSlot(f, m[k], s));
      OneRecord(fields, k, WT_STRING, EncString(body), tail, m, seen);
    } else {
      assert EncSlot(f, s).bytes + tail == tail;
      NothingScanned(fields, k, s, m, seen);
    }
  }

  lemma SkipsString(body: Bytes, tail: Bytes)
    requires |body| < TWO32
    ensures Skip(WT_STRING, EncString(body) + tail) == Got((), tail)
  {
    hide ReadVarint32, EncVarint;
    assert EncString(body) + tail == EncVarint(|body|) + (body + tail);
    VarintRoundTrip32(|body|, body + tail);
    assert (body + tail)[|body|..] == tail;
  }

  lemma {:induction false} ScansFields(fields: Fields, k: nat, base: Struct, m: Struct, tail: Bytes, seen: set<nat>)
    requires WellFormed(fields) && k <= |fields| && Shaped(fields, base) && Typed(fields, m)
    requires Complete(fields, m) && Room(fields, base, m)
    requires EncMessage(fields[k..], m[k..]).Out? && |EncMessage(fields[k..], m[k..]).bytes| < TWO32
    ensures Shaped(fields, MergedUpTo(fields, base, m, k))
    ensures ScanFields(fields, EncMessage(fields[k..], m[k..]).bytes + tail, MergedUpTo(fields, base, m, k), seen)
      == ScanFields(fields, tail, Merged(fields, base, m), MarkAll(fields, k, seen))
    decreases fields, 3, |fields| - k
  {
    hide ScanFields, EncSlot, Mark, MergedSlot, TypedSlot, ShapedSlot, CompleteSlot, RoomSlot;
    var now := MergedUpTo(fields, base, m, k);
    if k == |fields| {
      assert now == Merged(fields, base, m);
      assert EncMessage(fields[k..], m[k..]).bytes + tail == tail;
    } else {
      assert fields[k..][1..] == fields[k + 1..] && m[k..][1..] == m[k + 1..];
      var first, rest := EncSlot(fields[k], m[k]).bytes, EncMessage(fields[k + 1..], m[k + 1..]).bytes;
      assert EncMessage(fields[k..], m[k..]).bytes + tail == first + (rest + tail);
      assert now[k] == base[k];
      ScansSlot(fields, k, m[k], now, rest + tail, seen);
      assert now[k := MergedSlot(fields[k], base[k], m[k])] == MergedUpTo(fields, base, m, k + 1);
      ScansFields(fields, k + 1, base, m, tail, Mark(fields, k, seen));
    }
  }

  /** Decoding what the encoder wrote merges the message into whatever the struct held, and uses up the input. */
  lemma DecodesMessage(fields: Fields, m: Struct, base: Struct)
    requires WellFormed(fields) && Shaped(fields, base) && Typed(fields, m)
    requires Complete(fields, m) && Room(fields, base, m)
    requires EncMessage(fields, m).Out? && |EncMessage(fields, m).bytes| < TWO32
    ensures DecodeNoInit(fields, EncMessage(fields, m).bytes, base) == Decoded(true, [], Merged(fields, base, m))
    decreases fields, 4
  {
    var bs := EncMessage(fields, m).bytes;
    assert fields[0..] == fields && m[0..] == m && bs + [] == bs;
    assert MergedUpTo(fields, base, m, 0) == base;
    ScansFields(fields, 0, base, m, [], {});
    MarkAllSees(fields, 0, {});
  }
}
