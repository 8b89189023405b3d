/** The message objects of the SDK, `NanoPBDecoder` and `NanoPBEncoder`. */
module NanoPB {
  import opened Wire
  import opened Descriptors
  import opened EncodeSpec
  import opened DecodeSpec
  import opened InputStream
  import opened OutputStream
  import opened Merge
  import opened RoundTrip
  import Decoder
  import Encoder

  // ---------------------------------------------------------------- what parsing remembers

  /** `clear_super_data`: every string that a callback has delivered is dropped. */
  function Cleared(fields: Fields, m: Struct): (r: Struct)
    requires Shaped(fields, m)
    ensures Shaped(fields, r)
    decreases fields, 1
  {
    seq(|fields|, i requires 0 <= i < |fields| => ClearedSlot(fields[i], m[i]))
  }

  function ClearedSlot(f: Field, s: Slot): (r: Slot)
    requires ShapedSlot(f, s)
    ensures ShapedSlot(f, r)
    decreases f, 1
  {
    match s
    case Cb(bound, text) => if bound then Cb(true, NoText) else s
    case Single(v) => Single(ClearedValue(f, v))
    case Opt(has, v) => Opt(has, ClearedValue(f, v))
    case Rep(_) => s
  }

  function ClearedValue(f: Field, v: Value): (r: Value)
    requires ShapedValue(f, v)
    ensures ShapedValue(f, r)
    decreases f, 0
  {
    if f.ltype.Submessage? then Msg(Cleared(f.sub, v.slots)) else v
  }

  /** The same callbacks are bound, and the unbound ones hold the same. */
  predicate Wired(fields: Fields, a: Struct, b: Struct)
    requires Shaped(fields, a) && Shaped(fields, b)
    decreases fields, 1
  {
    forall i | 0 <= i < |fields| :: WiredSlot(fields[i], a[i], b[i])
  }

  predicate WiredSlot(f: Field, a: Slot, b: Slot)
    requires ShapedSlot(f, a) && ShapedSlot(f, b)
    decreases f, 1
  {
    match a
    case Cb(bound, text) => b.bound == bound && (!bound ==> b == a)
    case Rep(_) => true
    case Single(v) => WiredValue(f, v, b.v)
    case Opt(_, v) => WiredValue(f, v, b.v)
  }

  predicate WiredValue(f: Field, a: Value, b: Value)
    requires ShapedValue(f, a) && ShapedValue(f, b)
    decreases f, 0
  {
    f.ltype.Submessage? ==> Wired(f.sub, a.slots, b.slots)
  }

  lemma {:induction false} WiredRefl(fields: Fields, a: Struct)
    requires Shaped(fields, a)
    ensures Wired(fields, a, a)
    decreases fields, 2
  {
    forall i | 0 <= i < |fields| ensures WiredSlot(fields[i], a[i], a[i]) {
      WiredReflSlot(fields[i], a[i]);
    }
  }

  lemma WiredReflSlot(f: Field, a: Slot)
    requires ShapedSlot(f, a)
    ensures WiredSlot(f, a, a)
    decreases f, 1
  {
    if a.Single? || a.Opt? { WiredReflValue(f, a.v); }
  }

  lemma WiredReflValue(f: Field, v: Value)
    requires ShapedValue(f, v)
    ensures WiredValue(f, v, v)
    decreases f, 0
  {
    if f.ltype.Submessage? { WiredRefl(f.sub, v.slots); }
  }

  lemma {:induction false} WiredTrans(fields: Fields, a: Struct, b: Struct, c: Struct)
    requires Shaped(fields, a) && Shaped(fields, b) && Shaped(fields, c)
    requires Wired(fields, a, b) && Wired(fields, b, c)
    ensures Wired(fields, a, c)
    decreases fields, 2
  {
    forall i | 0 <= i < |fields| ensures WiredSlot(fields[i], a[i], c[i]) {
      WiredTransSlot(fields[i], a[i], b[i], c[i]);
    }
  }

  lemma WiredTransSlot(f: Field, a: Slot, b: Slot, c: Slot)
    requires ShapedSlot(f, a) && ShapedSlot(f, b) && ShapedSlot(f, c)
    requires WiredSlot(f, a, b) && WiredSlot(f, b, c)
    ensures WiredSlot(f, a, c)
    decreases f, 1
  {
    if a.Single? || a.Opt? { WiredTransValue(f, a.v, b.v, c.v); }
  }

  lemma WiredTransValue(f: Field, a: Value, b: Value, c: Value)
    requires ShapedValue(f, a) && ShapedValue(f, b) && ShapedValue(f, c)
    requires WiredValue(f, a, b) && WiredValue(f, b, c)
    ensures WiredValue(f, a, c)
    decreases f, 0
  {
    if f.ltype.Submessage? { WiredTrans(f.sub, a.slots, b.slots, c.slots); }
  }

  /** Clearing and setting defaults keep the wiring. */
  lemma {:induction false} StaysWired(fields: Fields, a: Struct)
    requires Shaped(fields, a)
    ensures Wired(fields, a, Cleared(fields, a)) && Wired(fields, a, SetDefaults(fields, a))
    decreases fields, 2
  {
    forall i | 0 <= i < |fields|
      ensures WiredSlot(fields[i], a[i], Cleared(fields, a)[i])
      ensures WiredSlot(fields[i], a[i], SetDefaults(fields, a)[i])
    {
      StaysWiredSlot(fields[i], a[i]);
    }
  }

  lemma StaysWiredSlot(f: Field, a: Slot)
    requires ShapedSlot(f, a)
    ensures WiredSlot(f, a, ClearedSlot(f, a)) && WiredSlot(f, a, DefaultSlot(f, a))
    decreases f, 1
  {
    if a.Single? || a.Opt? { StaysWiredValue(f, a.v); }
  }

  lemma StaysWiredValue(f: Field, v: Value)
    requires ShapedValue(f, v)
    ensures WiredValue(f, v, ClearedValue(f, v)) && WiredValue(f, v, DefaultValue(f, v))
    decreases f, 0
  {
    if f.ltype.Submessage? { StaysWired(f.sub, v.slots); }
  }

  /** After clearing and setting defaults nothing but the wiring is left. */
  lemma {:induction false} NothingElseLeft(fields: Fields, a: Struct, b: Struct)
    requires Shaped(fields, a) && Shaped(fields, b) && Wired(fields, a, b)
    ensures SetDefaults(fields, Cleared(fields, a)) == SetDefaults(fields, Cleared(fields, b))
    decreases fields, 2
  {
    forall i | 0 <= i < |fields|
      ensures SetDefaults(fields, Cleared(fields, a))[i] == SetDefaults(fields, Cleared(fields, b))[i]
    {
      NothingElseInSlot(fields[i], a[i], b[i]);
    }
  }

  lemma NothingElseInSlot(f: Field, a: Slot, b: Slot)
    requires ShapedSlot(f, a) && ShapedSlot(f, b) && WiredSlot(f, a, b)
    ensures DefaultSlot(f, ClearedSlot(f, a)) == DefaultSlot(f, ClearedSlot(f, b))
    decreases f, 1
  {
    if a.Single? || a.Opt? { NothingElseInValue(f, a.v, b.v); }
  }

  lemma NothingElseInValue(f: Field, a: Value, b: Value)
    requires ShapedValue(f, a) && ShapedValue(f, b) && WiredValue(f, a, b)
    ensures DefaultValue(f, ClearedValue(f, a)) == DefaultValue(f, ClearedValue(f, b))
    decreases f, 0
  {
    if f.ltype.Submessage? { NothingElseLeft(f.sub, a.slots, b.slots); }
  }

  // ---------------------------------------------------------------- decoding keeps the wiring

  lemma DecValueWired(f: Field, bs: Bytes, was: Value)
    requires Supported(f) && f.atype.Static? && ShapedValue(f, was)
    ensures WiredValue(f, was, DecValue(f, bs, was).out)
    decreases |bs|, 3
  {
    if f.ltype.Submessage? {
      var r := ReadString(bs);
      if r.Got? {
        DecodeNoInitWired(f.sub, r.value, was.slots);
      } else {
        WiredRefl(f.sub, was.slots);
      }
    }
  }

  lemma DecSlotWired(f: Field, wt: nat, bs: Bytes, s: Slot)
    requires Supported(f) && ShapedSlot(f, s)
    ensures WiredSlot(f, s, DecSlot(f, wt, bs, s).out)
    decreases |bs|, 5
  {
    hide DecValue, DecRepeated;
    if f.atype.Static? && !f.htype.Repeated? {
      DecValueWired(f, bs, s.v);
    }
  }

  lemma {:induction false} ScanWired(fields: Fields, bs: Bytes, m: Struct, seen: set<nat>)
    requires WellFormed(fields) && Shaped(fields, m)
    ensures Wired(fields, m, ScanFields(fields, bs, m, seen).out)
    decreases |bs|, 0
  {
    hide DecSlot, ShapedSlot, WiredSlot, Skip, ReadTag;
    if bs != [] && ReadTag(bs).Tag? {
      var i, wt, rest := Find(fields, ReadTag(bs).tag), ReadTag(bs).wt, ReadTag(bs).rest;
      if i == |fields| {
        if Skip(wt, rest).Got? {
          ScanWired(fields, Skip(wt, rest).rest, m, seen);
        } else {
          WiredRefl(fields, m);
        }
      } else {
        var r := DecSlot(fields[i], wt, rest, m[i]);
        var m' := m[i := r.out];
        DecSlotWired(fields[i], wt, rest, m[i]);
        OneWired(fields, m, i, r.out);
        if r.ok {
          ScanWired(fields, r.rest, m', Mark(fields, i, seen));
          WiredTrans(fields, m, m', ScanFields(fields, r.rest, m', Mark(fields, i, seen)).out);
        }
      }
    } else {
      WiredRefl(fields, m);
    }
  }

  lemma OneWired(fields: Fields, m: Struct, i: nat, s: Slot)
    requires Shaped(fields, m) && i < |fields| && ShapedSlot(fields[i], s) && WiredSlot(fields[i], m[i], s)
    ensures Shaped(fields, m[i := s]) && Wired(fields, m, m[i := s])
  {
    var m' := m[i := s];
    forall j | 0 <= j < |fields| ensures ShapedSlot(fields[j], m'[j]) && WiredSlot(fields[j], m[j], m'[j]) {
      if j != i { WiredReflSlot(fields[j], m[j]); }
    }
  }

  lemma DecodeNoInitWired(fields: Fields, bs: Bytes, m: Struct)
    requires WellFormed(fields) && Shaped(fields, m)
    ensures Wired(fields, m, DecodeNoInit(fields, bs, m).out)
    decreases |bs|, 1
  {
    ScanWired(fields, bs, m, {});
  }

  /** What parsing gives on an object last seen as `m`. */
  function Parsed(fields: Fields, data: Bytes, m: Struct): (r: Decoded<Struct>)
    requires WellFormed(fields) && Shaped(fields, m)
    ensures Shaped(fields, r.out)
  {
    Decode(fields, data, Cleared(fields, m))
  }

  /** Parsing has no memory: of the object's past only its wiring matters, and parsing keeps that. */
  lemma ParsingHasNoMemory(fields: Fields, data: Bytes, fresh': Struct, used: Struct)
    requires WellFormed(fields) && Shaped(fields, fresh') && Shaped(fields, used) && Wired(fields, fresh', used)
    ensures Parsed(fields, data, used) == Parsed(fields, data, fresh')
    ensures Wired(fields, fresh', Parsed(fields, data, used).out)
  {
    hide WellFormed, Shaped, DecodeNoInit, Wired, SetDefaults, Cleared;
    NothingElseLeft(fields, fresh', used);
    var cleared := Cleared(fields, fresh');
    var start := SetDefaults(fields, cleared);
    StaysWired(fields, fresh');
    StaysWired(fields, cleared);
    WiredTrans(fields, fresh', cleared, start);
    DecodeNoInitWired(fields, data, start);
    WiredTrans(fields, fresh', start, DecodeNoInit(fields, data, start).out);
  }

  /** Forgetting a bound string keeps the wiring. */
  lemma TextRebound(fields: Fields, m: Struct, i: nat)
    requires Shaped(fields, m) && i < |fields| && m[i].Cb? && m[i].bound
    ensures Shaped(fields, m[i := Cb(true, NoText)]) && Wired(fields, m, m[i := Cb(true, NoText)])
  {
    assert ShapedSlot(fields[i], m[i]);
    assert fields[i].atype.Callback?;
    OneWired(fields, m, i, Cb(true, NoText));
  }

  class NanoPBDecoder {
    const fields: Fields
    var slots: Struct
    /** The struct as the constructor left it: defaults, with the string callbacks bound. */
    ghost const made: Struct

    ghost predicate Valid()
      reads this
    {
      WellFormed(fields) && Shaped(fields, made) && Shaped(fields, slots) && Wired(fields, made, slots)
    }

    constructor (fields: Fields, made: Struct)
      requires WellFormed(fields) && Shaped(fields, made)
      ensures Valid() && this.fields == fields && this.made == made && slots == made
    {
      this.fields, this.slots, this.made := fields, made, made;
      new;
      WiredRefl(fields, made);
    }

    method ClearSuperData()
      requires Valid()
      modifies this
      ensures Valid() && slots == Cleared(fields, old(slots))
    {
      hide Wired, Shaped, Cleared, WellFormed;
      StaysWired(fields, slots);
      WiredTrans(fields, made, slots, Cleared(fields, slots));
      slots := Cleared(fields, slots);
    }

    /** The outcome is that of a new object, whatever this one parsed before and however that ended. */
    method ParseFromArray(data: Bytes) returns (ok: bool)
      requires Valid()
      modifies this
      ensures Valid()
      ensures ok == Parsed(fields, data, made).ok && slots == Parsed(fields, data, made).out
    {
      hide Wired, Shaped, Cleared, WellFormed, Decode;
      ParsingHasNoMemory(fields, data, made, slots);
      ClearSuperData();
      var stream := new IStream(data, 0, |data|);
      assert stream.Rest() == data;
      ok, slots := Decoder.DecodeMessage(stream, fields, slots);
    }

    /** `release_voice`, `release_text`: hands the string out and forgets it. */
    method ReleaseString(i: nat) returns (text: Text)
      requires Valid() && i < |fields| && slots[i].Cb? && slots[i].bound
      modifies this
      ensures Valid() && text == old(slots[i].text) && slots == old(slots)[i := Cb(true, NoText)]
    {
      text := slots[i].text;
      TextRebound(fields, slots, i);
      WiredTrans(fields, made, slots, slots[i := Cb(true, NoText)]);
      slots := slots[i := Cb(true, NoText)];
    }
  }

  // ---------------------------------------------------------------- requests

  lemma TypedUpdate(fields: Fields, m: Struct, i: nat, s: Slot)
    requires Typed(fields, m) && i < |fields| && TypedSlot(fields[i], s)
    ensures Typed(fields, m[i := s])
  {
  }

  lemma TextTyped(f: Field, s: Slot, t: Slot)
    requires TypedSlot(f, s) && s.Cb? && t.Cb? && (t.bound ==> t.text.Text?)
    ensures TypedSlot(f, t)
  {
  }

  lemma NumberTyped(f: Field, s: Slot, n: int)
    requires TypedSlot(f, s) && (s.Single? || s.Opt?) && TypedValue(f, Num(n))
    ensures TypedSlot(f, if s.Opt? then Opt(true, Num(n)) else Single(Num(n)))
  {
  }

  const ENCODE_BUFFER_SIZE: nat := 1024 * 1024

  lemma {:induction false} ListeningIsClear(fields: Fields, m: Struct)
    requires Shaped(fields, m) && Listening(fields, m)
    ensures Cleared(fields, m) == m
    decreases fields, 2
  {
    forall i | 0 <= i < |fields| ensures Cleared(fields, m)[i] == m[i] {
      ListeningIsClearSlot(fields[i], m[i]);
    }
  }

  lemma ListeningIsClearSlot(f: Field, s: Slot)
    requires ShapedSlot(f, s) && ListeningSlot(f, s)
    ensures ClearedSlot(f, s) == s
    decreases f, 1
  {
    if s.Single? || s.Opt? { ListeningIsClearValue(f, s.v); }
  }

  lemma ListeningIsClearValue(f: Field, v: Value)
    requires ShapedValue(f, v) && ListeningValue(f, v)
    ensures ClearedValue(f, v) == v
    decreases f, 0
  {
    if f.ltype.Submessage? { ListeningIsClear(f.sub, v.slots); }
  }

  /** What one object serializes another reads back, even one that has parsed, or failed to parse, before. */
  lemma MessageExchange(fields: Fields, m: Struct, made: Struct, used: Struct)
    requires WellFormed(fields) && PlainCells(fields) && Typed(fields, m) && Complete(fields, m)
    requires Shaped(fields, made) && Listening(fields, made) && Shaped(fields, used) && Wired(fields, made, used)
    requires EncMessage(fields, m).Out? && |EncMessage(fields, m).bytes| <= ENCODE_BUFFER_SIZE
    ensures var r := Parsed(fields, EncMessage(fields, m).bytes, used);
      r.ok && r.rest == [] && Same(fields, r.out, m)
  {
    hide Shaped, Typed, Complete, Listening, PlainCells, EncSlot, Decode, Wired, Cleared, Same, Supported;
    ParsingHasNoMemory(fields, EncMessage(fields, m).bytes, made, used);
    ListeningIsClear(fields, made);
    RoundTrips(fields, m, made);
  }

  class NanoPBEncoder {
    const fields: Fields
    /** `encodeBuffer`, shared by all encoders under its lock. */
    const buffer: array<byte>
    var slots: Struct

    ghost predicate Valid()
      reads this
    {
      WellFormed(fields) && Typed(fields, slots) && buffer.Length == ENCODE_BUFFER_SIZE
    }

    constructor (fields: Fields, buffer: array<byte>, made: Struct)
      requires WellFormed(fields) && Typed(fields, made) && buffer.Length == ENCODE_BUFFER_SIZE
      ensures Valid() && this.fields == fields && this.buffer == buffer && slots == made
    {
      this.fields, this.buffer, this.slots := fields, buffer, made;
    }

    /** The setters of string fields: keep a copy and bind the callback to it. */
    method SetString(i: nat, str: Bytes)
      requires Valid() && i < |fields| && slots[i].Cb?
      modifies this
      ensures Valid() && slots == old(slots)[i := Cb(true, Text(str))]
    {
      TextTyped(fields[i], slots[i], Cb(true, Text(str)));
      TypedUpdate(fields, slots, i, Cb(true, Text(str)));
      slots := slots[i := Cb(true, Text(str))];
    }

    /** The setters of numbers, which also set the has-flag of an option. */
    method SetNumber(i: nat, n: int)
      requires Valid() && i < |fields| && (slots[i].Single? || slots[i].Opt?) && TypedValue(fields[i], Num(n))
      modifies this
      ensures Valid()
      ensures slots == old(slots)[i := if old(slots)[i].Opt? then Opt(true, Num(n)) else Single(Num(n))]
    {
      var slot := if slots[i].Opt? then Opt(true, Num(n)) else Single(Num(n));
      NumberTyped(fields[i], slots[i], n);
      TypedUpdate(fields, slots, i, slot);
      slots := slots[i := slot];
    }

    /** The bytes of the message, unless it has no encoding or a longer one than the buffer holds. */
    method SerializeToString() returns (ok: bool, str: Bytes)
      requires Valid()
      modifies buffer
      ensures ok <==> EncMessage(fields, slots).Out? && |EncMessage(fields, slots).bytes| <= 1024 * 1024
      ensures ok ==> str == EncMessage(fields, slots).bytes
    {
      hide Typed, EncMessage, EncSlot, Supported;
      str := [];
      var stream := new OStream.Window(buffer, 0, buffer.Length);
      ghost var t0 := stream.View();
      ok := Encoder.EncodeMessage(stream, fields, slots);
      if ok {
        str := buffer[..stream.bytesWritten];
        assert EncMessage(fields, slots).bytes ==
               Splice(t0.mem, 0, EncMessage(fields, slots).bytes)[..stream.bytesWritten];
      }
    }
  }
}
