/** The concatenation of two encodings is an encoding of the two messages merged. */
module Concatenation {
  import opened Wire
  import opened Descriptors
  import opened EncodeSpec
  import opened DecodeSpec
  import opened Merge
  import opened RoundTrip

  /** The merge of two messages: last present scalar, merged submessages, joined arrays, last non-empty string. */
  function Combined(fields: Fields, a: Struct, b: Struct): (r: Struct)
    requires Typed(fields, a) && Typed(fields, b)
    ensures Typed(fields, r)
    decreases fields, 2
  {
    seq(|fields|, i requires 0 <= i < |fields| => CombinedSlot(fields[i], a[i], b[i]))
  }

  function CombinedSlot(f: Field, a: Slot, b: Slot): (r: Slot)
    requires TypedSlot(f, a) && TypedSlot(f, b)
    ensures TypedSlot(f, r)
    decreases f, 1
  {
    match b
    case Cb(bound, text) => if (bound && text.bytes != []) || !a.bound then b else a
    case Single(v) => Single(CombinedValue(f, a.v, v))
    case Opt(has, v) =>
      if !has then a
      else Opt(true, if a.has then CombinedValue(f, a.v, v) else v)
    case Rep(items) => Rep(a.items + items)
  }

  function CombinedValue(f: Field, a: Value, b: Value): (r: Value)
    requires TypedValue(f, a) && TypedValue(f, b)
    ensures TypedValue(f, r)
    decreases f, 0
  {
    if f.ltype.Submessage? then Msg(Combined(f.sub, a.slots, b.slots)) else b
  }

  lemma {:induction false} NewItemsAppend(f: Field, xs: seq<Value>, ys: seq<Value>)
    requires Supported(f) && f.atype.Static? && TypedItems(f, xs) && TypedItems(f, ys)
    ensures TypedItems(f, xs + ys) && NewItems(f, xs + ys) == NewItems(f, xs) + NewItems(f, ys)
    decreases |xs|
  {
    hide NewItem, TypedValue, Supported;
    if xs == [] {
      assert xs + ys == ys;
    } else {
      NewItemsAppend(f, xs[1..], ys);
      assert (xs + ys)[1..] == xs[1..] + ys;
    }
  }

  /** Merging one message and then the other is merging their combination. */
  lemma {:induction false} MergesInTurn(fields: Fields, base: Struct, a: Struct, b: Struct)
    requires WellFormed(fields) && Shaped(fields, base) && Typed(fields, a) && Typed(fields, b)
    ensures Merged(fields, Merged(fields, base, a), b) == Merged(fields, base, Combined(fields, a, b))
    decreases fields, 2
  {
    forall i | 0 <= i < |fields|
      ensures MergedSlot(fields[i], Merged(fields, base, a)[i], b[i])
        == MergedSlot(fields[i], base[i], Combined(fields, a, b)[i])
    {
      SlotMergesInTurn(fields[i], base[i], a[i], b[i]);
    }
  }

  lemma SlotMergesInTurn(f: Field, base: Slot, a: Slot, b: Slot)
    requires Supported(f) && ShapedSlot(f, base) && TypedSlot(f, a) && TypedSlot(f, b)
    ensures MergedSlot(f, MergedSlot(f, base, a), b) == MergedSlot(f, base, CombinedSlot(f, a, b))
    decreases f, 1
  {
    if b.Rep? {
      NewItemsAppend(f, a.items, b.items);
      assert base.items + NewItems(f, a.items) + NewItems(f, b.items)
        == base.items + (NewItems(f, a.items) + NewItems(f, b.items));
    } else if b.Single? || b.Opt? {
      ValueMergesInTurn(f, base.v, a.v, b.v);
    }
  }

  lemma ValueMergesInTurn(f: Field, base: Value, a: Value, b: Value)
    requires Supported(f) && f.atype.Static? && ShapedValue(f, base) && TypedValue(f, a) && TypedValue(f, b)
    ensures MergedValue(f, MergedValue(f, base, a), b) == MergedValue(f, base, CombinedValue(f, a, b))
    decreases f, 0
  {
    if f.ltype.Submessage? { MergesInTurn(f.sub, base.slots, a.slots, b.slots); }
  }

  lemma {:induction false} CombinedComplete(fields: Fields, a: Struct, b: Struct)
    requires WellFormed(fields) && Typed(fields, a) && Typed(fields, b)
    requires Complete(fields, a) && Complete(fields, b)
    ensures Complete(fields, Combined(fields, a, b))
    decreases fields, 2
  {
    forall i | 0 <= i < |fields| ensures CompleteSlot(fields[i], Combined(fields, a, b)[i]) {
      assert CompleteSlot(fields[i], a[i]) && CompleteSlot(fields[i], b[i]);
      CombinedSlotComplete(fields[i], a[i], b[i]);
    }
  }

  lemma CombinedSlotComplete(f: Field, a: Slot, b: Slot)
    requires Supported(f) && TypedSlot(f, a) && TypedSlot(f, b) && CompleteSlot(f, a) && CompleteSlot(f, b)
    ensures CompleteSlot(f, CombinedSlot(f, a, b))
    decreases f, 1
  {
    if b.Single? || (b.Opt? && a.has && b.has) {
      CombinedValueComplete(f, a.v, b.v);
    }
  }

  lemma CombinedValueComplete(f: Field, a: Value, b: Value)
    requires Supported(f) && f.atype.Static? && TypedValue(f, a) && TypedValue(f, b)
    requires CompleteValue(f, a) && CompleteValue(f, b)
    ensures CompleteValue(f, CombinedValue(f, a, b))
    decreases f, 0
  {
    if f.ltype.Submessage? { CombinedComplete(f.sub, a.slots, b.slots); }
  }

  /** Room for the combination is room for both in turn. */
  lemma {:induction false} RoomInTurn(fields: Fields, base: Struct, a: Struct, b: Struct)
    requires WellFormed(fields) && Shaped(fields, base) && Typed(fields, a) && Typed(fields, b)
    requires Room(fields, base, Combined(fields, a, b))
    ensures Room(fields, base, a) && Room(fields, Merged(fields, base, a), b)
    decreases fields, 2
  {
    forall i | 0 <= i < |fields|
      ensures RoomSlot(fields[i], base[i], a[i]) && RoomSlot(fields[i], Merged(fields, base, a)[i], b[i])
    {
      assert RoomSlot(fields[i], base[i], Combined(fields, a, b)[i]);
      SlotRoomInTurn(fields[i], base[i], a[i], b[i]);
    }
  }

  lemma SlotRoomInTurn(f: Field, base: Slot, a: Slot, b: Slot)
    requires Supported(f) && ShapedSlot(f, base) && TypedSlot(f, a) && TypedSlot(f, b)
    requires RoomSlot(f, base, CombinedSlot(f, a, b))
    ensures RoomSlot(f, base, a) && RoomSlot(f, MergedSlot(f, base, a), b)
    decreases f, 1
  {
    if b.Rep? {
      var items := a.items + b.items;
      forall i | 0 <= i < |a.items| ensures NewItemRoom(f, a.items[i]) { assert NewItemRoom(f, items[i]); }
      forall i | 0 <= i < |b.items| ensures NewItemRoom(f, b.items[i]) { assert NewItemRoom(f, items[|a.items| + i]); }
    } else if b.Single? || (b.Opt? && a.has && b.has) {
      ValueRoomInTurn(f, base.v, a.v, b.v);
    }
  }

  lemma ValueRoomInTurn(f: Field, base: Value, a: Value, b: Value)
    requires Supported(f) && f.atype.Static? && ShapedValue(f, base) && TypedValue(f, a) && TypedValue(f, b)
    requires RoomValue(f, base, CombinedValue(f, a, b))
    ensures RoomValue(f, base, a) && RoomValue(f, MergedValue(f, base, a), b)
    decreases f, 0
  {
    if f.ltype.Submessage? { RoomInTurn(f.sub, base.slots, a.slots, b.slots); }
  }

  /** Two encodings in a row decode as the second merged over the first. */
  lemma DecodesBoth(fields: Fields, a: Struct, b: Struct, base: Struct)
    requires WellFormed(fields) && Shaped(fields, base) && Typed(fields, a) && Typed(fields, b)
    requires Complete(fields, a) && Complete(fields, b)
    requires Room(fields, base, a) && Room(fields, Merged(fields, base, a), b)
    requires EncMessage(fields, a).Out? && |EncMessage(fields, a).bytes| < TWO32
    requires EncMessage(fields, b).Out? && |EncMessage(fields, b).bytes| < TWO32
    ensures DecodeNoInit(fields, EncMessage(fields, a).bytes + EncMessage(fields, b).bytes, base)
      == Decoded(true, [], Merged(fields, Merged(fields, base, a), b))
  {
    var x, y := EncMessage(fields, a).bytes, EncMessage(fields, b).bytes;
    var half := Merged(fields, base, a);
    assert fields[0..] == fields && a[0..] == a && b[0..] == b && y + [] == y;
    assert MergedUpTo(fields, base, a, 0) == base && MergedUpTo(fields, half, b, 0) == half;
    ScansFields(fields, 0, base, a, y, {});
    var seen := MarkAll(fields, 0, {});
    ScansFields(fields, 0, half, b, [], seen);
    MarkAllSees(fields, 0, seen);
  }

  /** Decoding the concatenation of two encodings is decoding the encoding of the combined message. */
  lemma ConcatenationMerges(fields: Fields, a: Struct, b: Struct, dest: Struct)
    requires WellFormed(fields) && Shaped(fields, dest) && Typed(fields, a) && Typed(fields, b)
    requires Complete(fields, a) && Complete(fields, b)
    requires EncMessage(fields, a).Out? && |EncMessage(fields, a).bytes| < TWO32
    requires EncMessage(fields, b).Out? && |EncMessage(fields, b).bytes| < TWO32
    requires var c := EncMessage(fields, Combined(fields, a, b)); c.Out? && |c.bytes| < TWO32
    ensures var r := Decode(fields, EncMessage(fields, a).bytes + EncMessage(fields, b).bytes, dest);
      && r.ok && r.rest == []
      && r == Decode(fields, EncMessage(fields, Combined(fields, a, b)).bytes, dest)
  {
    var base, c := SetDefaults(fields, dest), Combined(fields, a, b);
    DefaultsAreReset(fields, dest);
    EncodableHasRoom(fields, base, c);
    RoomInTurn(fields, base, a, b);
    DecodesBoth(fields, a, b, base);
    MergesInTurn(fields, base, a, b);
    CombinedComplete(fields, a, b);
    DecodeInvertsEncode(fields, c, dest);
  }
}
