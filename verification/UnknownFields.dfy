/** Every parser reads only what it consumes, so unknown fields can be inserted anywhere between fields. */
module UnknownFields {
  import opened Wire
  import opened Descriptors
  import opened EncodeSpec
  import opened DecodeSpec
  import opened Merge

  lemma TagLocal(bs: Bytes, more: Bytes)
    requires ReadTag(bs).Tag?
    ensures ReadTag(bs + more) == ReadTag(bs).(rest := ReadTag(bs).rest + more)
  {
    hide ReadVarint32;
    Varint32Local(bs, more);
  }

  lemma {:induction false} SkipVarintLocal(bs: Bytes, more: Bytes)
    requires SkipVarint(bs).Got?
    ensures SkipVarint(bs + more) == Got((), SkipVarint(bs).rest + more)
  {
    assert (bs + more)[1..] == bs[1..] + more;
    if bs[0] >= 128 { SkipVarintLocal(bs[1..], more); }
  }

  lemma DropLocal(bs: Bytes, n: nat, more: Bytes)
    requires n <= |bs|
    ensures (bs + more)[..n] == bs[..n] && (bs + more)[n..] == bs[n..] + more
  {
  }

  lemma SkipLocal(wt: nat, bs: Bytes, more: Bytes)
    requires Skip(wt, bs).Got?
    ensures Skip(wt, bs + more) == Got((), Skip(wt, bs).rest + more)
  {
    hide ReadVarint32, SkipVarint;
    if wt == WT_VARINT {
      SkipVarintLocal(bs, more);
    } else if wt == WT_STRING {
      Varint32Local(bs, more);
      var r := ReadVarint32(bs);
      DropLocal(r.rest, r.value, more);
    } else {
      DropLocal(bs, if wt == WT_64BIT then 8 else 4, more);
    }
  }

  lemma StringLocal(bs: Bytes, more: Bytes)
    requires ReadString(bs).Got?
    ensures ReadString(bs + more) == Got(ReadString(bs).value, ReadString(bs).rest + more)
  {
    hide ReadVarint32;
    Varint32Local(bs, more);
    var r := ReadVarint32(bs);
    DropLocal(r.rest, r.value, more);
  }

  lemma RawLocal(wt: nat, bs: Bytes, more: Bytes)
    requires ReadRaw(wt, bs).Got?
    ensures ReadRaw(wt, bs + more) == Got(ReadRaw(wt, bs).value, ReadRaw(wt, bs).rest + more)
  {
    hide SkipVarint;
    if wt == WT_VARINT {
      SkipVarintLocal(bs, more);
      DropLocal(bs, |bs| - |SkipVarint(bs).rest|, more);
    } else {
      DropLocal(bs, if wt == WT_64BIT then 8 else 4, more);
    }
  }

  lemma NumLocal(f: Field, bs: Bytes, was: Value, more: Bytes)
    requires Packable(f.ltype) && DecNum(f, bs, was).ok
    ensures DecNum(f, bs + more, was) == DecNum(f, bs, was).(rest := DecNum(f, bs, was).rest + more)
  {
    hide Varint64From, ReadFixed, Wide, Clamp;
    if f.ltype.Fixed32? {
      FixedLocal(bs, 4, more);
    } else if f.ltype.Fixed64? {
      FixedLocal(bs, 8, more);
    } else {
      Varint64Local(bs, 0, 0, more);
    }
  }

  lemma ValueLocal(f: Field, bs: Bytes, was: Value, more: Bytes)
    requires Supported(f) && f.atype.Static? && ShapedValue(f, was) && DecValue(f, bs, was).ok
    ensures DecValue(f, bs + more, was) == DecValue(f, bs, was).(rest := DecValue(f, bs, was).rest + more)
  {
    hide ReadString, DecNum, DecodeNoInit, Shaped, WellFormed;
    if f.ltype.Submessage? {
      StringLocal(bs, more);
    } else {
      NumLocal(f, bs, was, more);
    }
  }

  lemma ElementLocal(f: Field, bs: Bytes, more: Bytes)
    requires Supported(f) && f.atype.Static? && DecElement(f, bs).ok
    ensures DecElement(f, bs + more) == DecElement(f, bs).(rest := DecElement(f, bs).rest + more)
  {
    hide ReadString, DecNum, DecodeNoInit, Shaped, WellFormed, Blank;
    if f.ltype.Submessage? {
      StringLocal(bs, more);
    } else {
      NumLocal(f, bs, Stale, more);
    }
  }

  lemma RepeatedLocal(f: Field, wt: nat, bs: Bytes, items: seq<Value>, more: Bytes)
    requires Supported(f) && f.atype.Static? && DecRepeated(f, wt, bs, items).ok
    ensures var r := DecRepeated(f, wt, bs, items);
      DecRepeated(f, wt, bs + more, items) == r.(rest := r.rest + more)
  {
    hide ReadString, DecElement, DecPacked, WellFormed;
    if wt == WT_STRING && Packable(f.ltype) {
      StringLocal(bs, more);
    } else {
      ElementLocal(f, bs, more);
    }
  }

  lemma SlotLocal(f: Field, wt: nat, bs: Bytes, s: Slot, more: Bytes)
    requires Supported(f) && ShapedSlot(f, s) && DecSlot(f, wt, bs, s).ok
    ensures DecSlot(f, wt, bs + more, s) == DecSlot(f, wt, bs, s).(rest := DecSlot(f, wt, bs, s).rest + more)
  {
    hide Skip, ReadString, ReadRaw, DecValue, DecRepeated;
    if f.atype.Callback? {
      if !s.bound {
        SkipLocal(wt, bs, more);
      } else if wt == WT_STRING {
        StringLocal(bs, more);
      } else {
        RawLocal(wt, bs, more);
      }
    } else if f.htype.Repeated? {
      RepeatedLocal(f, wt, bs, s.items, more);
    } else {
      ValueLocal(f, bs, s.v, more);
    }
  }

  /** `a` is a run of complete fields: it scans to its end without an end marker. */
  predicate CompleteFields(fields: Fields, a: Bytes, m: Struct, seen: set<nat>)
    requires WellFormed(fields) && Shaped(fields, m)
  {
    var r := ScanFields(fields, a, m, seen);
    r.ok && !r.ended && r.rest == []
  }

  /** After complete fields the scan goes on with the rest of the input. */
  lemma {:induction false} ScanLocal(fields: Fields, a: Bytes, more: Bytes, m: Struct, seen: set<nat>)
    requires WellFormed(fields) && Shaped(fields, m) && CompleteFields(fields, a, m, seen)
    ensures var r := ScanFields(fields, a, m, seen);
      ScanFields(fields, a + more, m, seen) == ScanFields(fields, more, r.out, r.seen)
    decreases |a|
  {
    hide Skip, ReadTag, DecSlot, Mark, ShapedSlot, Supported, Find;
    if a == [] {
      assert a + more == more;
    } else {
      TagLocal(a, more);
      var t := ReadTag(a);
      var i := Find(fields, t.tag);
      if i == |fields| {
        SkipLocal(t.wt, t.rest, more);
        ScanLocal(fields, Skip(t.wt, t.rest).rest, more, m, seen);
      } else {
        ScanSlotLocal(fields, i, t.wt, t.rest, more, m);
        var r := DecSlot(fields[i], t.wt, t.rest, m[i]);
        ScanLocal(fields, r.rest, more, m[i := r.out], Mark(fields, i, seen));
      }
    }
  }

  lemma ScanSlotLocal(fields: Fields, i: nat, wt: nat, bs: Bytes, more: Bytes, m: Struct)
    requires WellFormed(fields) && Shaped(fields, m) && i < |fields|
    requires DecSlot(fields[i], wt, bs, m[i]).ok
    ensures var r := DecSlot(fields[i], wt, bs, m[i]);
      && DecSlot(fields[i], wt, bs + more, m[i]) == r.(rest := r.rest + more)
      && Shaped(fields, m[i := r.out])
  {
    SlotLocal(fields[i], wt, bs, m[i], more);
  }

  /** One whole field whose tag the descriptor does not have. */
  predicate UnknownField(fields: Fields, u: Bytes) {
    var t := ReadTag(u);
    && t.Tag?
    && (forall f | f in fields :: f.tag != t.tag)
    && Skip(t.wt, t.rest) == Got((), [])
  }

  lemma ScanSkipsUnknown(fields: Fields, u: Bytes, more: Bytes, m: Struct, seen: set<nat>)
    requires WellFormed(fields) && Shaped(fields, m) && UnknownField(fields, u)
    ensures ScanFields(fields, u + more, m, seen) == ScanFields(fields, more, m, seen)
  {
    hide Skip, ReadTag, DecSlot, Mark, Shaped, ShapedSlot, Supported;
    var t := ReadTag(u);
    TagLocal(u, more);
    SkipLocal(t.wt, t.rest, more);
    assert [] + more == more;
    assert u != [] by { EmptyHasNoTag(); }
    assert Find(fields, t.tag) == |fields|;
  }

  lemma EmptyHasNoTag()
    ensures ReadTag([]) == End([])
  {
  }

  lemma ScanIgnoresUnknown(fields: Fields, a: Bytes, u: Bytes, b: Bytes, m: Struct, seen: set<nat>)
    requires WellFormed(fields) && Shaped(fields, m) && UnknownField(fields, u) && CompleteFields(fields, a, m, seen)
    ensures ScanFields(fields, a + u + b, m, seen) == ScanFields(fields, a + b, m, seen)
  {
    hide *;
    assert a + u + b == a + (u + b);
    ScanLocal(fields, a, u + b, m, seen);
    ScanLocal(fields, a, b, m, seen);
    var r := ScanFields(fields, a, m, seen);
    ScanSkipsUnknown(fields, u, b, r.out, r.seen);
  }

  /** An unknown field between complete fields changes neither success nor the decoded struct. */
  lemma UnknownFieldsAreTransparent(fields: Fields, a: Bytes, u: Bytes, b: Bytes, dest: Struct)
    requires WellFormed(fields) && Shaped(fields, dest) && UnknownField(fields, u)
    requires CompleteFields(fields, a, SetDefaults(fields, dest), {})
    ensures Decode(fields, a + u + b, dest) == Decode(fields, a + b, dest)
  {
    hide ScanFields, SetDefaults, Shaped, WellFormed, UnknownField, AllSeen, CompleteFields;
    ScanIgnoresUnknown(fields, a, u, b, SetDefaults(fields, dest), {});
  }

  /** What the encoder writes is a run of complete fields. */
  lemma EncodingIsCompleteFields(fields: Fields, m: Struct, base: Struct)
    requires WellFormed(fields) && Shaped(fields, base) && Typed(fields, m)
    requires Complete(fields, m) && Room(fields, base, m)
    requires EncMessage(fields, m).Out? && |EncMessage(fields, m).bytes| < TWO32
    ensures CompleteFields(fields, EncMessage(fields, m).bytes, base, {})
  {
    var bs := EncMessage(fields, m).bytes;
    assert fields[0..] == fields && m[0..] == m && bs + [] == bs;
    assert MergedUpTo(fields, base, m, 0) == base;
    ScansFields(fields, 0, base, m, [], {});
  }
}
