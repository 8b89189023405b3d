/** Decoding an encoding gives the message back. */
module RoundTrip {
  import opened Wire
  import opened Descriptors
  import opened EncodeSpec
  import opened DecodeSpec
  import opened Merge

  /** No array element and no option is set, and numbers have their defaults, at any depth of singular submessages. */
  predicate Reset(fields: Fields, m: Struct)
    requires Shaped(fields, m)
    decreases fields, 1
  {
    forall i | 0 <= i < |fields| :: ResetSlot(fields[i], m[i])
  }

  predicate ResetSlot(f: Field, s: Slot)
    requires ShapedSlot(f, s)
    decreases f, 1
  {
    match s
    case Cb(_, _) => true
    case Rep(items) => items == []
    case Single(v) => ResetValue(f, v)
    case Opt(has, v) => !has && ResetValue(f, v)
  }

  predicate ResetValue(f: Field, v: Value)
    requires ShapedValue(f, v)
    decreases f, 0
  {
    if f.ltype.Submessage? then Reset(f.sub, v.slots) else v == Num(f.dflt)
  }

  lemma {:induction false} DefaultsAreReset(fields: Fields, m: Struct)
    requires Shaped(fields, m)
    ensures Reset(fields, SetDefaults(fields, m))
    decreases fields, 1
  {
    forall i | 0 <= i < |fields| ensures ResetSlot(fields[i], SetDefaults(fields, m)[i]) {
      if m[i].Single? || m[i].Opt? {
        DefaultIsReset(fields[i], m[i].v);
      }
    }
  }

  lemma DefaultIsReset(f: Field, v: Value)
    requires ShapedValue(f, v)
    ensures ResetValue(f, DefaultValue(f, v))
    decreases f, 0
  {
    if f.ltype.Submessage? { DefaultsAreReset(f.sub, v.slots); }
  }

  lemma {:induction false} BlankIsReset(fields: Fields)
    requires WellFormed(fields)
    ensures Reset(fields, Blank(fields))
    decreases fields
  {
    forall i | 0 <= i < |fields| ensures ResetSlot(fields[i], Blank(fields)[i]) {
      var f := fields[i];
      assert Supported(f);
      if f.atype.Static? && f.ltype.Submessage? {
        BlankIsReset(f.sub);
      }
    }
  }

  lemma {:induction false} EncodesSlot(fields: Fields, m: Struct, i: nat)
    requires AllSupported(fields) && Typed(fields, m) && EncMessage(fields, m).Out? && i < |fields|
    ensures EncSlot(fields[i], m[i]).Out? && |EncSlot(fields[i], m[i]).bytes| <= |EncMessage(fields, m).bytes|
    decreases |fields|
  {
    hide EncSlot, TypedSlot, Supported;
    if i > 0 { EncodesSlot(fields[1..], m[1..], i - 1); }
  }

  lemma {:induction false} EncodesItem(f: Field, items: seq<Value>, i: nat)
    requires Supported(f) && f.atype.Static? && TypedItems(f, items)
    requires EncRecords(f, items).Out? && i < |items|
    ensures EncValue(f, items[i]).Out?
    decreases |items|
  {
    hide EncValue, TypedValue, Supported;
    if i > 0 { EncodesItem(f, items[1..], i - 1); }
  }

  /** What can be encoded fits a freshly reset struct. */
  lemma {:induction false} EncodableHasRoom(fields: Fields, base: Struct, m: Struct)
    requires WellFormed(fields) && Shaped(fields, base) && Typed(fields, m)
    requires Reset(fields, base) && EncMessage(fields, m).Out?
    ensures Room(fields, base, m)
    decreases fields, 2
  {
    forall i | 0 <= i < |fields| ensures RoomSlot(fields[i], base[i], m[i]) {
      EncodesSlot(fields, m, i);
      SlotHasRoom(fields[i], base[i], m[i]);
    }
  }

  lemma SlotHasRoom(f: Field, b: Slot, s: Slot)
    requires Supported(f) && ShapedSlot(f, b) && TypedSlot(f, s)
    requires ResetSlot(f, b) && EncSlot(f, s).Out?
    ensures RoomSlot(f, b, s)
    decreases f, 1
  {
    if s.Rep? {
      forall i | 0 <= i < |s.items| ensures NewItemRoom(f, s.items[i]) {
        if f.ltype.Submessage? {
          EncodesItem(f, s.items, i);
          BlankIsReset(f.sub);
          EncodableHasRoom(f.sub, Blank(f.sub), s.items[i].slots);
        }
      }
    } else if s.Single? || (s.Opt? && s.has) {
      ValueHasRoom(f, b.v, s.v);
    }
  }

  lemma ValueHasRoom(f: Field, b: Value, v: Value)
    requires Supported(f) && f.atype.Static? && ShapedValue(f, b) && TypedValue(f, v)
    requires ResetValue(f, b) && EncValue(f, v).Out?
    ensures RoomValue(f, b, v)
    decreases f, 0
  {
    if f.ltype.Submessage? { EncodableHasRoom(f.sub, b.slots, v.slots); }
  }

  /** `pb_decode` of an encoding: success, all input used, and the message over the defaults. */
  lemma DecodeInvertsEncode(fields: Fields, m: Struct, dest: Struct)
    requires WellFormed(fields) && Shaped(fields, dest) && Typed(fields, m) && Complete(fields, m)
    requires EncMessage(fields, m).Out? && |EncMessage(fields, m).bytes| < TWO32
    ensures Decode(fields, EncMessage(fields, m).bytes, dest)
      == Decoded(true, [], Merged(fields, SetDefaults(fields, dest), m))
  {
    var base := SetDefaults(fields, dest);
    DefaultsAreReset(fields, dest);
    EncodableHasRoom(fields, base, m);
    DecodesMessage(fields, m, base);
  }

  lemma {:induction false} MarkAllMarks(fields: Fields, k: nat, seen: set<nat>)
    requires k <= |fields|
    ensures forall i :: i in MarkAll(fields, k, seen) <==> i in seen || (k <= i < |fields| && Tracked(fields, i))
    decreases |fields| - k
  {
    if k < |fields| { MarkAllMarks(fields, k + 1, Mark(fields, k, seen)); }
  }

  /**
   * Required fields are demanded of every call: an encoding that lacks the first `k` fields is accepted exactly when
   * none of them is among the first 64 required ones, even if the struct already holds them.
   */
  lemma RequiredAreDemanded(fields: Fields, m: Struct, base: Struct, k: nat)
    requires WellFormed(fields) && Shaped(fields, base) && Typed(fields, m) && k <= |fields|
    requires Complete(fields, m) && Room(fields, base, m)
    requires EncMessage(fields[k..], m[k..]).Out? && |EncMessage(fields[k..], m[k..]).bytes| < TWO32
    ensures Shaped(fields, MergedUpTo(fields, base, m, k))
    ensures DecodeNoInit(fields, EncMessage(fields[k..], m[k..]).bytes, MergedUpTo(fields, base, m, k)).ok <==>
              forall i | 0 <= i < k :: !(fields[i].htype.Required? && RequiredBefore(fields, i) < 64)
  {
    hide ShapedSlot, TypedSlot, Complete, Room, Supported, EncMessage, MergedUpTo, Merged, RequiredBefore, AllSeen;
    var bs := EncMessage(fields[k..], m[k..]).bytes;
    assert bs + [] == bs;
    ScansFields(fields, k, base, m, [], {});
    DemandsFirst(fields, k);
    NothingLeft(fields, MarkAll(fields, k, {}), base, m);
  }

  lemma DemandsFirst(fields: Fields, k: nat)
    requires k <= |fields|
    ensures AllSeen(fields, MarkAll(fields, k, {})) <==>
              forall i | 0 <= i < k :: !(fields[i].htype.Required? && RequiredBefore(fields, i) < 64)
  {
    hide RequiredBefore;
    MarkAllMarks(fields, k, {});
    assert forall i | 0 <= i < |fields| ::
        Tracked(fields, i) <==> fields[i].htype.Required? && RequiredBefore(fields, i) < 64;
  }

  lemma NothingLeft(fields: Fields, seen: set<nat>, base: Struct, m: Struct)
    requires WellFormed(fields) && Shaped(fields, base) && Typed(fields, m)
    ensures ScanFields(fields, [], Merged(fields, base, m), seen) ==
              Scan(true, false, [], Merged(fields, base, m), seen)
  {
  }

  // ---------------------------------------------------------------- the same message

  /** The string an accessor returns for a callback field. */
  function Shown(s: Slot): Bytes
    requires s.Cb?
  {
    if s.bound && s.text.Text? then s.text.bytes else []
  }

  /**
   * `out` reads like `m`: same required values, same present options, same elements, same strings; an absent number
   * reads as its declared default.
   */
  predicate Same(fields: Fields, out: Struct, m: Struct)
    requires Shaped(fields, out) && Typed(fields, m)
    decreases fields, 2
  {
    forall i | 0 <= i < |fields| :: SameSlot(fields[i], out[i], m[i])
  }

  predicate SameSlot(f: Field, o: Slot, s: Slot)
    requires ShapedSlot(f, o) && TypedSlot(f, s)
    decreases f, 1
  {
    match s
    case Cb(_, _) => Shown(o) == Shown(s)
    case Single(v) => SameValue(f, o.v, v)
    case Opt(has, v) => o.has == has && if has then SameValue(f, o.v, v) else DefaultNumber(f, o.v)
    case Rep(items) => |o.items| == |items| && forall i | 0 <= i < |items| :: SameValue(f, o.items[i], items[i])
  }

  predicate DefaultNumber(f: Field, v: Value) {
    f.ltype.Submessage? || v == Num(f.dflt)
  }

  predicate SameValue(f: Field, o: Value, v: Value)
    requires TypedValue(f, v)
    decreases f, 0
  {
    if f.ltype.Submessage? then o.Msg? && Shaped(f.sub, o.slots) && Same(f.sub, o.slots, v.slots) else o == v
  }

  /** Every string callback outside array cells is bound, with no string yet. */
  predicate Listening(fields: Fields, m: Struct)
    requires Shaped(fields, m)
    decreases fields, 1
  {
    forall i | 0 <= i < |fields| :: ListeningSlot(fields[i], m[i])
  }

  predicate ListeningSlot(f: Field, s: Slot)
    requires ShapedSlot(f, s)
    decreases f, 1
  {
    match s
    case Cb(bound, text) => bound && text.NoText?
    case Rep(_) => true
    case Single(v) => ListeningValue(f, v)
    case Opt(_, v) => ListeningValue(f, v)
  }

  predicate ListeningValue(f: Field, v: Value)
    requires ShapedValue(f, v)
    decreases f, 0
  {
    f.ltype.Submessage? ==> Listening(f.sub, v.slots)
  }

  predicate CallbackFree(fields: Fields)
    decreases fields
  {
    forall i | 0 <= i < |fields| ::
      !fields[i].atype.Callback? && (fields[i].ltype.Submessage? ==> CallbackFree(fields[i].sub))
  }

  /** No string callbacks inside array cells, where nobody binds them. */
  predicate PlainCells(fields: Fields)
    decreases fields
  {
    forall i | 0 <= i < |fields| && fields[i].ltype.Submessage? ::
      if fields[i].htype.Repeated? then CallbackFree(fields[i].sub) else PlainCells(fields[i].sub)
  }

  lemma {:induction false} DefaultsListen(fields: Fields, m: Struct)
    requires Shaped(fields, m) && Listening(fields, m)
    ensures Listening(fields, SetDefaults(fields, m))
    decreases fields, 1
  {
    forall i | 0 <= i < |fields| ensures ListeningSlot(fields[i], SetDefaults(fields, m)[i]) {
      assert ListeningSlot(fields[i], m[i]);
      if m[i].Single? || m[i].Opt? {
        DefaultListens(fields[i], m[i].v);
      }
    }
  }

  lemma DefaultListens(f: Field, v: Value)
    requires ShapedValue(f, v) && ListeningValue(f, v)
    ensures ListeningValue(f, DefaultValue(f, v))
    decreases f, 0
  {
    if f.ltype.Submessage? { DefaultsListen(f.sub, v.slots); }
  }

  lemma {:induction false} NewItemAt(f: Field, items: seq<Value>, i: nat)
    requires Supported(f) && f.atype.Static? && TypedItems(f, items) && i < |items|
    ensures NewItems(f, items)[i] == NewItem(f, items[i])
    decreases |items|
  {
    hide NewItem;
    if i > 0 { NewItemAt(f, items[1..], i - 1); }
  }

  /** A reset, listening struct reads like the message merged into it. */
  lemma {:induction false} MergedReadsSame(fields: Fields, base: Struct, m: Struct)
    requires WellFormed(fields) && Shaped(fields, base) && Typed(fields, m) && Reset(fields, base)
    requires CallbackFree(fields) || (PlainCells(fields) && Listening(fields, base))
    ensures Same(fields, Merged(fields, base, m), m)
    decreases fields, 2
  {
    forall i | 0 <= i < |fields| ensures SameSlot(fields[i], Merged(fields, base, m)[i], m[i]) {
      assert ResetSlot(fields[i], base[i]);
      if CallbackFree(fields) {
        assert fields[i].ltype.Submessage? ==> CallbackFree(fields[i].sub);
      } else {
        assert ListeningSlot(fields[i], base[i]);
      }
      MergedSlotReadsSame(fields[i], base[i], m[i]);
    }
  }

  lemma MergedSlotReadsSame(f: Field, b: Slot, s: Slot)
    requires Supported(f) && ShapedSlot(f, b) && TypedSlot(f, s) && ResetSlot(f, b)
    requires f.atype.Callback? ==> ListeningSlot(f, b)
    requires f.ltype.Submessage? && f.htype.Repeated? ==> CallbackFree(f.sub)
    requires f.ltype.Submessage? && !f.htype.Repeated? ==>
      CallbackFree(f.sub) || (PlainCells(f.sub) && ListeningSlot(f, b))
    ensures SameSlot(f, MergedSlot(f, b, s), s)
    decreases f, 1
  {
    if s.Rep? {
      assert MergedSlot(f, b, s).items == NewItems(f, s.items);
      forall i | 0 <= i < |s.items| ensures SameValue(f, NewItems(f, s.items)[i], s.items[i]) {
        NewItemAt(f, s.items, i);
        if f.ltype.Submessage? {
          BlankIsReset(f.sub);
          MergedReadsSame(f.sub, Blank(f.sub), s.items[i].slots);
        }
      }
    } else if s.Single? || s.Opt? {
      MergedValueReadsSame(f, b.v, s.v);
    }
  }

  lemma MergedValueReadsSame(f: Field, b: Value, v: Value)
    requires Supported(f) && f.atype.Static? && ShapedValue(f, b) && TypedValue(f, v) && ResetValue(f, b)
    requires f.ltype.Submessage? ==> CallbackFree(f.sub) || (PlainCells(f.sub) && ListeningValue(f, b))
    ensures SameValue(f, MergedValue(f, b, v), v)
    decreases f, 0
  {
    if f.ltype.Submessage? { MergedReadsSame(f.sub, b.slots, v.slots); }
  }

  /** Round trip as the application sees it. An empty string that was sent reads back as the empty string. */
  lemma RoundTrips(fields: Fields, m: Struct, dest: Struct)
    requires WellFormed(fields) && PlainCells(fields) && Shaped(fields, dest) && Listening(fields, dest)
    requires Typed(fields, m) && Complete(fields, m)
    requires EncMessage(fields, m).Out? && |EncMessage(fields, m).bytes| < TWO32
    ensures var r := Decode(fields, EncMessage(fields, m).bytes, dest);
      r.ok && r.rest == [] && Same(fields, r.out, m)
  {
    DecodeInvertsEncode(fields, m, dest);
    DefaultsAreReset(fields, dest);
    DefaultsListen(fields, dest);
    MergedReadsSame(fields, SetDefaults(fields, dest), m);
  }
}
