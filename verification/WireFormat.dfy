/**
 * The Protocol Buffers wire format, read by a grammar that shares nothing with the codec: records of a varint key,
 * 8 * tag + wire type, and a payload of wire type 0, 1, 2 or 5. What the encoder writes is read by it as the message.
 */
module WireFormat {
  import opened Bits
  import opened Wire
  import opened Descriptors
  import opened EncodeSpec
  import opened DecodeSpec
  import opened Merge
  import opened UnknownFields

  // ---------------------------------------------------------------- the grammar

  datatype Payload = VarintP(n: int) | Fixed64P(n: int) | LengthP(body: Bytes) | Fixed32P(n: int)

  datatype Record = Record(tag: nat, payload: Payload)

  /** Groups of seven bits, the lowest first; the last byte has its high bit clear. */
  function Base128(bs: Bytes): (r: Read<nat>)
    ensures r.Got? ==> |r.rest| < |bs|
  {
    if bs == [] then Bad
    else if bs[0] < 0x80 then Got(bs[0], bs[1..])
    else match Base128(bs[1..])
      case Bad => Bad
      case Got(v, rest) => Got(bs[0] - 0x80 + 0x80 * v, rest)
  }

  function LittleEndian(bs: Bytes): nat {
    if bs == [] then 0 else bs[0] + 0x100 * LittleEndian(bs[1..])
  }

  function PayloadOf(wt: nat, bs: Bytes): (r: Read<Payload>)
    ensures r.Got? ==> |r.rest| < |bs|
  {
    if wt == 0 then
      match Base128(bs)
      case Bad => Bad
      case Got(v, rest) => Got(VarintP(v), rest)
    else if wt == 1 && |bs| >= 8 then Got(Fixed64P(LittleEndian(bs[..8])), bs[8..])
    else if wt == 5 && |bs| >= 4 then Got(Fixed32P(LittleEndian(bs[..4])), bs[4..])
    else if wt == 2 then
      match Base128(bs)
      case Bad => Bad
      case Got(n, rest) => if |rest| < n then Bad else Got(LengthP(rest[..n]), rest[n..])
    else Bad
  }

  function RecordAt(bs: Bytes): (r: Read<Record>)
    ensures r.Got? ==> |r.rest| < |bs|
  {
    match Base128(bs)
    case Bad => Bad
    case Got(key, rest) =>
      match PayloadOf(key % 8, rest)
      case Bad => Bad
      case Got(payload, rest') => Got(Record(key / 8, payload), rest')
  }

  /** All records of a message, if the bytes are a sequence of them. */
  function Parse(bs: Bytes): Read<seq<Record>>
    decreases |bs|
  {
    if bs == [] then Got([], [])
    else match RecordAt(bs)
      case Bad => Bad
      case Got(record, rest) => Prepend([record], Parse(rest))
  }

  function Prepend<T>(items: seq<T>, more: Read<seq<T>>): Read<seq<T>> {
    if more.Bad? then Bad else Got(items + more.value, more.rest)
  }

  /** The numbers of a packed field. */
  function ParsePacked(wt: nat, bs: Bytes): Read<seq<Payload>>
    decreases |bs|
  {
    if bs == [] then Got([], [])
    else match PayloadOf(wt, bs)
      case Bad => Bad
      case Got(payload, rest) => Prepend([payload], ParsePacked(wt, rest))
  }

  // ---------------------------------------------------------------- what a message says

  /** Negative numbers are sent as 64-bit two's complement, or zigzag. */
  function NumberPayload(f: Field, n: int): Payload {
    if f.ltype.Fixed32? then Fixed32P(n)
    else if f.ltype.Fixed64? then Fixed64P(n)
    else if f.ltype.UVarint? || n >= 0 then VarintP(if f.ltype.SVarint? then 2 * n else n)
    else VarintP(if f.ltype.SVarint? then -2 * n - 1 else n + 0x1_0000_0000_0000_0000)
  }

  function NumberPayloads(f: Field, items: seq<Value>): seq<Payload>
    requires Packable(f.ltype) && TypedItems(f, items)
  {
    seq(|items|, i requires 0 <= i < |items| => NumberPayload(f, items[i].n))
  }

  /** A submessage is its own encoding, of which the same is true. */
  function ValuePayload(f: Field, v: Value): Payload
    requires Supported(f) && f.atype.Static? && TypedValue(f, v)
  {
    if f.ltype.Submessage? then
      assert WellFormed(f.sub);
      var body := EncMessage(f.sub, v.slots);
      LengthP(if body.Out? then body.bytes else [])
    else NumberPayload(f, v.n)
  }

  function ItemRecords(f: Field, items: seq<Value>): seq<Record>
    requires Supported(f) && f.atype.Static? && TypedItems(f, items)
  {
    seq(|items|, i requires 0 <= i < |items| => Record(f.tag, ValuePayload(f, items[i])))
  }

  /** The wire type of a packed field's numbers. */
  function NumberWireType(t: LType): nat {
    if t.Fixed32? then 5 else if t.Fixed64? then 1 else 0
  }

  /** The records of one field: none, one, or one for each element; numbers are packed into one. */
  ghost predicate SaysSlot(f: Field, s: Slot, records: seq<Record>)
    requires Supported(f) && TypedSlot(f, s)
  {
    match s
    case Cb(bound, text) => records == if bound then [Record(f.tag, LengthP(text.bytes))] else []
    case Single(v) => records == [Record(f.tag, ValuePayload(f, v))]
    case Opt(has, v) => records == if has then [Record(f.tag, ValuePayload(f, v))] else []
    case Rep(items) =>
      if items == [] || !Packable(f.ltype) then records == ItemRecords(f, items)
      else
        && |records| == 1 && records[0].tag == f.tag && records[0].payload.LengthP?
        && ParsePacked(NumberWireType(f.ltype), records[0].payload.body) == Got(NumberPayloads(f, items), [])
  }

  function Count(f: Field, s: Slot): nat {
    match s
    case Cb(bound, _) => if bound then 1 else 0
    case Single(_) => 1
    case Opt(has, _) => if has then 1 else 0
    case Rep(items) => if items != [] && Packable(f.ltype) then 1 else |items|
  }

  /** The records of a message: those of its fields, in descriptor order. */
  ghost predicate SaysMessage(fields: Fields, m: Struct, records: seq<Record>)
    requires AllSupported(fields) && Typed(fields, m)
  {
    if fields == [] then records == []
    else
      var n := Count(fields[0], m[0]);
      && n <= |records|
      && SaysSlot(fields[0], m[0], records[..n])
      && SaysMessage(fields[1..], m[1..], records[n..])
  }

  /** Arrays within their declared size, and numbers of a size C has. */
  predicate Encodable(fields: Fields, m: Struct)
    requires AllSupported(fields) && Typed(fields, m)
    decreases fields, 1
  {
    forall i | 0 <= i < |fields| :: EncodableSlot(fields[i], m[i])
  }

  predicate EncodableSlot(f: Field, s: Slot)
    requires Supported(f) && TypedSlot(f, s)
    decreases f, 1
  {
    match s
    case Cb(_, _) => true
    case Single(v) => EncodableValue(f, v)
    case Opt(has, v) => has ==> EncodableValue(f, v)
    case Rep(items) => |items| <= f.arraySize && forall i | 0 <= i < |items| :: EncodableValue(f, items[i])
  }

  predicate EncodableValue(f: Field, v: Value)
    requires Supported(f) && f.atype.Static? && TypedValue(f, v)
    decreases f, 0
  {
    if f.ltype.Submessage? then
      assert WellFormed(f.sub);
      Encodable(f.sub, v.slots)
    else f.ltype.Fixed32? || f.ltype.Fixed64? || f.dataSize in {1, 2, 4, 8}
  }

  // ---------------------------------------------------------------- what can be encoded

  lemma {:induction false} EncodesExactlyWhen(fields: Fields, m: Struct)
    requires AllSupported(fields) && Typed(fields, m)
    ensures EncMessage(fields, m).Out? <==> Encodable(fields, m)
    decreases fields, 3, 0
  {
    if fields == [] {
    } else {
      EncodesExactlyWhen(fields[1..], m[1..]);
      SlotEncodesWhen(fields[0], m[0]);
      assert Encodable(fields, m) <==> EncodableSlot(fields[0], m[0]) && Encodable(fields[1..], m[1..]) by {
        EncodableSplits(fields, m);
      }
    }
  }

  lemma EncodableSplits(fields: Fields, m: Struct)
    requires AllSupported(fields) && Typed(fields, m) && fields != []
    ensures Encodable(fields, m) <==> EncodableSlot(fields[0], m[0]) && Encodable(fields[1..], m[1..])
  {
    hide EncodableSlot, TypedSlot, Supported;
    forall i | 0 < i < |fields| ensures fields[i] == fields[1..][i - 1] && m[i] == m[1..][i - 1] {}
    if EncodableSlot(fields[0], m[0]) && Encodable(fields[1..], m[1..]) {
      forall i | 0 <= i < |fields| ensures EncodableSlot(fields[i], m[i]) {
        if i > 0 { assert EncodableSlot(fields[1..][i - 1], m[1..][i - 1]); }
      }
    }
    if Encodable(fields, m) {
      forall i | 0 <= i < |fields| - 1 ensures EncodableSlot(fields[1..][i], m[1..][i]) {
        assert EncodableSlot(fields[i + 1], m[i + 1]);
      }
    }
  }

  lemma SlotEncodesWhen(f: Field, s: Slot)
    requires Supported(f) && TypedSlot(f, s)
    ensures EncSlot(f, s).Out? <==> EncodableSlot(f, s)
    decreases f, 2
  {
    if s.Rep? {
      if Packable(f.ltype) {
        NumsEncodeWhen(f, s.items);
      } else {
        RecordsEncodeWhen(f, s.items);
      }
    } else if s.Single? || s.Opt? {
      ValueEncodesWhen(f, s.v);
    }
  }

  lemma ValueEncodesWhen(f: Field, v: Value)
    requires Supported(f) && f.atype.Static? && TypedValue(f, v)
    ensures EncValue(f, v).Out? <==> EncodableValue(f, v)
    decreases f, 0
  {
    if f.ltype.Submessage? { EncodesExactlyWhen(f.sub, v.slots); }
  }

  lemma {:induction false} NumsEncodeWhen(f: Field, items: seq<Value>)
    requires Supported(f) && f.atype.Static? && Packable(f.ltype) && TypedItems(f, items)
    ensures EncNums(f, items).Out? <==> forall i | 0 <= i < |items| :: EncodableValue(f, items[i])
    decreases |items|
  {
    if items == [] {
    } else {
      NumsEncodeWhen(f, items[1..]);
      assert forall i | 0 < i < |items| :: items[i] == items[1..][i - 1];
    }
  }

  lemma {:induction false} RecordsEncodeWhen(f: Field, items: seq<Value>)
    requires Supported(f) && f.atype.Static? && TypedItems(f, items)
    ensures EncRecords(f, items).Out? <==> forall i | 0 <= i < |items| :: EncodableValue(f, items[i])
    decreases f, 1, |items|
  {
    hide TypedValue, EncodableValue, EncValue, Supported;
    if items == [] {
    } else {
      ValueEncodesWhen(f, items[0]);
      RecordsEncodeWhen(f, items[1..]);
      assert forall i | 0 < i < |items| :: items[i] == items[1..][i - 1];
    }
  }

  // ---------------------------------------------------------------- what the encoder writes

  lemma {:induction false} Base128Inverts(v: nat, tail: Bytes)
    ensures Base128(EncVarint(v) + tail) == Got(v, tail)
    decreases v
  {
    FirstGroup(v, tail);
    if v < 128 {
      assert ([v] + tail)[1..] == tail;
    } else {
      Base128Inverts(v / 128, tail);
      var more := EncVarint(v / 128) + tail;
      assert ([v % 128 + 128] + more)[1..] == more;
    }
  }

  lemma {:induction false} LittleEndianInverts(v: nat, n: nat)
    requires v < Pow2(8 * n)
    ensures LittleEndian(FixedBytes(v, n)) == v
    decreases n
  {
    hide Pow2;
    Pow2Zero();
    if n > 0 {
      Pow2Add(8, 8 * (n - 1));
      Pow2Values();
      LittleEndianInverts(v / 256, n - 1);
      assert FixedBytes(v, n)[1..] == FixedBytes(v / 256, n - 1);
    }
  }

  lemma FixedParses(v: nat, n: nat, tail: Bytes)
    requires v < Pow2(8 * n)
    ensures (FixedBytes(v, n) + tail)[..n] == FixedBytes(v, n) && (FixedBytes(v, n) + tail)[n..] == tail
    ensures LittleEndian((FixedBytes(v, n) + tail)[..n]) == v
  {
    LittleEndianInverts(v, n);
  }

  /** A key and what follows it. */
  lemma KeyParses(tag: nat, wt: nat, bs: Bytes)
    requires wt < 8
    ensures RecordAt(EncTag(wt, tag) + bs) ==
      if PayloadOf(wt, bs).Bad? then Bad else Got(Record(tag, PayloadOf(wt, bs).value), PayloadOf(wt, bs).rest)
  {
    hide Base128, EncVarint, PayloadOf;
    Base128Inverts(8 * tag + wt, bs);
  }

  lemma NumParses(f: Field, n: int, tail: Bytes)
    requires Packable(f.ltype) && InRange(f, n) && EncNum(f, n).Out?
    ensures PayloadOf(NumberWireType(f.ltype), EncNum(f, n).bytes + tail) == Got(NumberPayload(f, n), tail)
    ensures EncNum(f, n).bytes != []
  {
    hide Base128, EncVarint, LittleEndian, FixedBytes, ZigZag, Pow2;
    Pow2Values();
    if f.ltype.Fixed32? {
      FixedParses(n, 4, tail);
    } else if f.ltype.Fixed64? {
      FixedParses(n, 8, tail);
    } else {
      assert FitsInt(n, f.dataSize) || f.ltype.UVarint?;
      var raw := if f.ltype.UVarint? then n else if f.ltype.SVarint? then ZigZag(n) else Unsigned64(n);
      if f.ltype.SVarint? {
        ZigZagValue(n);
      } else if f.ltype.Varint? {
        SignedWord(n);
      }
      Base128Inverts(raw, tail);
      Base128Inverts(raw, []);
      assert EncVarint(raw) + [] == EncVarint(raw);
      assert Base128([]) == Bad by { NoDigits(); }
    }
  }

  lemma NoDigits()
    ensures Base128([]) == Bad
  {
  }

  lemma SignedWord(n: int)
    requires FitsInt(n, 8)
    ensures Unsigned64(n) == if n < 0 then n + 0x1_0000_0000_0000_0000 else n
  {
  }

  lemma StringParses(body: Bytes, tail: Bytes)
    requires |body| < TWO64
    ensures PayloadOf(2, EncString(body) + tail) == Got(LengthP(body), tail)
  {
    hide Base128, EncVarint;
    assert EncString(body) + tail == EncVarint(|body|) + (body + tail);
    Base128Inverts(|body|, body + tail);
    assert (body + tail)[..|body|] == body && (body + tail)[|body|..] == tail;
  }

  /** The wire type of a field's records, when they are not packed. */
  function FieldWireType(t: LType): nat {
    if Packable(t) then NumberWireType(t) else 2
  }

  lemma ValueParses(f: Field, v: Value, tail: Bytes)
    requires Supported(f) && f.atype.Static? && TypedValue(f, v)
    requires EncValue(f, v).Out? && |EncValue(f, v).bytes| < TWO64
    ensures PayloadOf(FieldWireType(f.ltype), EncValue(f, v).bytes + tail) == Got(ValuePayload(f, v), tail)
  {
    hide EncNum, EncMessage, PayloadOf, EncVarint;
    if f.ltype.Submessage? {
      StringParses(EncMessage(f.sub, v.slots).bytes, tail);
    } else {
      NumParses(f, v.n, tail);
    }
  }

  /** One record in front of others. */
  lemma ParseRecord(bs: Bytes, record: Record, tail: Bytes)
    requires RecordAt(bs) == Got(record, tail)
    ensures Parse(bs) == Prepend([record], Parse(tail))
  {
    hide Base128, PayloadOf;
    NoDigits();
    assert bs != [];
  }

  lemma RecordSays(f: Field, v: Value, tail: Bytes)
    requires Supported(f) && f.atype.Static? && TypedValue(f, v)
    requires EncRecord(f, v).Out? && |EncRecord(f, v).bytes| < TWO64
    ensures RecordAt(EncRecord(f, v).bytes + tail) == Got(Record(f.tag, ValuePayload(f, v)), tail)
    ensures Parse(EncRecord(f, v).bytes + tail) == Prepend([Record(f.tag, ValuePayload(f, v))], Parse(tail))
  {
    hide EncTag, EncValue, PayloadOf, RecordAt, Parse, ValuePayload;
    var payload := EncValue(f, v).bytes;
    assert WireType(f.ltype) == FieldWireType(f.ltype);
    assert EncRecord(f, v).bytes + tail == EncTag(FieldWireType(f.ltype), f.tag) + (payload + tail);
    ValueParses(f, v, tail);
    KeyParses(f.tag, FieldWireType(f.ltype), payload + tail);
    ParseRecord(EncRecord(f, v).bytes + tail, Record(f.tag, ValuePayload(f, v)), tail);
  }

  lemma StringSays(tag: nat, body: Bytes, tail: Bytes)
    requires |body| < TWO64
    ensures var bs := EncTag(WT_STRING, tag) + EncString(body);
      && RecordAt(bs + tail) == Got(Record(tag, LengthP(body)), tail)
      && Parse(bs + tail) == Prepend([Record(tag, LengthP(body))], Parse(tail))
  {
    hide EncTag, EncString, PayloadOf, RecordAt, Parse;
    var bs := EncTag(WT_STRING, tag) + EncString(body);
    assert bs + tail == EncTag(WT_STRING, tag) + (EncString(body) + tail);
    StringParses(body, tail);
    KeyParses(tag, 2, EncString(body) + tail);
    ParseRecord(bs + tail, Record(tag, LengthP(body)), tail);
  }

  lemma NothingSaid(bs: Bytes, tail: Bytes)
    requires bs == []
    ensures Parse(bs + tail) == Prepend([], Parse(tail))
  {
    assert bs + tail == tail;
    if Parse(tail).Got? { assert [] + Parse(tail).value == Parse(tail).value; }
  }

  lemma {:induction false} RecordsSay(f: Field, items: seq<Value>, tail: Bytes)
    requires Supported(f) && f.atype.Static? && TypedItems(f, items)
    requires EncRecords(f, items).Out? && |EncRecords(f, items).bytes| < TWO64
    ensures Parse(EncRecords(f, items).bytes + tail) == Prepend(ItemRecords(f, items), Parse(tail))
    decreases |items|
  {
    hide EncRecord, Parse, ValuePayload, TypedValue, Supported;
    if items == [] {
      NothingSaid(EncRecords(f, items).bytes, tail);
    } else {
      var first, rest := EncRecord(f, items[0]).bytes, EncRecords(f, items[1..]).bytes;
      assert EncRecords(f, items).bytes + tail == first + (rest + tail);
      RecordSays(f, items[0], rest + tail);
      RecordsSay(f, items[1..], tail);
      assert ItemRecords(f, items) == [Record(f.tag, ValuePayload(f, items[0]))] + ItemRecords(f, items[1..]);
      PrependTwice([Record(f.tag, ValuePayload(f, items[0]))], ItemRecords(f, items[1..]), Parse(tail));
    }
  }

  lemma PrependTwice<T>(a: seq<T>, b: seq<T>, more: Read<seq<T>>)
    ensures Prepend(a, Prepend(b, more)) == Prepend(a + b, more)
  {
    if more.Got? { assert a + (b + more.value) == a + b + more.value; }
  }

  lemma {:induction false} PackedSays(f: Field, items: seq<Value>)
    requires Packable(f.ltype) && TypedItems(f, items) && EncNums(f, items).Out?
    ensures ParsePacked(NumberWireType(f.ltype), EncNums(f, items).bytes) == Got(NumberPayloads(f, items), [])
    decreases |items|
  {
    hide EncNum, PayloadOf, NumberPayload;
    if items == [] {
    } else {
      var first, rest := EncNum(f, items[0].n).bytes, EncNums(f, items[1..]).bytes;
      NumParses(f, items[0].n, rest);
      PackedSays(f, items[1..]);
      assert NumberPayloads(f, items) == [NumberPayload(f, items[0].n)] + NumberPayloads(f, items[1..]);
    }
  }

  lemma SlotSays(f: Field, s: Slot, tail: Bytes) returns (records: seq<Record>)
    requires Supported(f) && TypedSlot(f, s)
    requires EncSlot(f, s).Out? && |EncSlot(f, s).bytes| < TWO64
    ensures SaysSlot(f, s, records) && |records| == Count(f, s)
    ensures Parse(EncSlot(f, s).bytes + tail) == Prepend(records, Parse(tail))
  {
    hide EncRecord, EncRecords, Parse, ValuePayload, EncNums, EncTag, EncString, ParsePacked;
    match s
    case Cb(bound, text) =>
      if bound {
        StringLength(f.tag, text.bytes);
        StringSays(f.tag, text.bytes, tail);
        records := [Record(f.tag, LengthP(text.bytes))];
      } else {
        records := [];
        NothingSaid(EncSlot(f, s).bytes, tail);
      }
    case Single(v) =>
      RecordSays(f, v, tail);
      records := [Record(f.tag, ValuePayload(f, v))];
    case Opt(has, v) =>
      if has {
        RecordSays(f, v, tail);
        records := [Record(f.tag, ValuePayload(f, v))];
      } else {
        records := [];
        NothingSaid(EncSlot(f, s).bytes, tail);
      }
    case Rep(items) =>
      records := ArraySays(f, items, tail);
  }

  lemma StringLength(tag: nat, body: Bytes)
    ensures |body| <= |EncTag(WT_STRING, tag) + EncString(body)|
  {
  }

  lemma ArraySays(f: Field, items: seq<Value>, tail: Bytes) returns (records: seq<Record>)
    requires Supported(f) && f.atype.Static? && f.htype.Repeated? && TypedItems(f, items)
    requires EncArray(f, items).Out? && |EncArray(f, items).bytes| < TWO64
    ensures SaysSlot(f, Rep(items), records) && |records| == Count(f, Rep(items))
    ensures Parse(EncArray(f, items).bytes + tail) == Prepend(records, Parse(tail))
  {
    hide EncRecords, Parse, ValuePayload, EncNums, EncTag, EncString, ParsePacked;
    if items == [] {
      records := [];
      NothingSaid(EncArray(f, items).bytes, tail);
    } else if Packable(f.ltype) {
      var body := EncNums(f, items).bytes;
      StringLength(f.tag, body);
      StringSays(f.tag, body, tail);
      PackedSays(f, items);
      records := [Record(f.tag, LengthP(body))];
    } else {
      RecordsSay(f, items, tail);
      records := ItemRecords(f, items);
    }
  }

  /**
   * What the encoder writes, read by the grammar: the records of the fields in descriptor order, with the tags, wire
   * types and payloads the format prescribes for their values.
   */
  lemma {:induction false} EncodingSays(fields: Fields, m: Struct) returns (records: seq<Record>)
    requires AllSupported(fields) && Typed(fields, m)
    requires EncMessage(fields, m).Out? && |EncMessage(fields, m).bytes| < TWO64
    ensures Parse(EncMessage(fields, m).bytes) == Got(records, []) && SaysMessage(fields, m, records)
    decreases |fields|
  {
    hide EncSlot, SaysSlot, Count, TypedSlot, Supported, RecordAt;
    if fields == [] {
      records := [];
    } else {
      var more := EncodingSays(fields[1..], m[1..]);
      var rest := EncMessage(fields[1..], m[1..]).bytes;
      var first := SlotSays(fields[0], m[0], rest);
      records := first + more;
      assert records[..|first|] == first && records[|first|..] == more;
    }
  }

  // ---------------------------------------------------------------- what the decoder reads

  /** How many bytes a varint takes. */
  function Width(bs: Bytes): nat
    requires Base128(bs).Got?
  {
    |bs| - |Base128(bs).rest|
  }

  /** A varint the 32-bit loop takes: up to five bytes, below 2^32. */
  predicate Short(bs: Bytes) {
    Base128(bs).Got? && Base128(bs).value < 0x1_0000_0000 && Width(bs) <= 5
  }

  lemma WidthStep(bs: Bytes)
    requires Base128(bs).Got? && bs[0] >= 0x80
    ensures Base128(bs[1..]).Got? && Width(bs) == Width(bs[1..]) + 1 && Width(bs[1..]) >= 1
    ensures Base128(bs).rest == Base128(bs[1..]).rest
    ensures Base128(bs).value == bs[0] - 0x80 + 0x80 * Base128(bs[1..]).value
  {
  }

  lemma Loop32Step(bs: Bytes, k: nat, acc: nat) returns (acc': nat)
    requires bs != [] && bs[0] >= 0x80 && k <= 21 && acc < Pow2(k)
    ensures acc' == acc + (bs[0] - 0x80) * Pow2(k) < Pow2(k + 7)
    ensures Varint32From(bs, k, acc) == Varint32From(bs[1..], k + 7, acc')
  {
    hide Pow2, Or, Shl, SignByte;
    Pow2Values();
    Pow2Monotonic(7, 32 - k);
    var b := bs[0] % 128;
    WholeGroup(acc, b, k, 32);
    acc' := Or(acc, Shl(b, k, TWO32));
  }

  lemma Loop32Last(bs: Bytes, k: nat, acc: nat, total: nat)
    requires k == 7 || k == 14 || k == 21 || k == 28
    requires bs != [] && bs[0] < 0x80 && acc < Pow2(k) && bs[0] < Pow2(32 - k) && total == acc + bs[0] * Pow2(k)
    ensures Varint32From(bs, k, acc) == Got(total, bs[1..])
  {
    hide Pow2, Or, Shl, SignByte;
    Pow2Values();
    SmallMod(bs[0], 128);
    WholeGroup(acc, bs[0], k, 32);
  }

  /** The 32-bit loop after its first byte computes the base-128 value. */
  lemma {:induction false} Loop32Reads(bs: Bytes, k: nat, acc: nat, total: nat)
    requires k == 7 || k == 14 || k == 21 || k == 28
    requires acc < Pow2(k) && Base128(bs).Got? && Base128(bs).value < Pow2(32 - k)
    requires k + 7 * Width(bs) <= 35 && total == acc + Base128(bs).value * Pow2(k)
    ensures Varint32From(bs, k, acc) == Got(total, Base128(bs).rest)
    decreases |bs|
  {
    hide Pow2, Varint32From;
    if bs[0] < 0x80 {
      Loop32Last(bs, k, acc, total);
    } else {
      WidthStep(bs);
      var acc' := Loop32Step(bs, k, acc);
      LoopGroups(bs, k, 32, acc, acc');
      Loop32Reads(bs[1..], k + 7, acc', total);
    }
  }

  /** What is left to read after one group. */
  lemma LoopGroups(bs: Bytes, k: nat, width: nat, acc: nat, acc': nat)
    requires k + 7 <= width && Base128(bs).Got? && bs[0] >= 0x80 && acc' == acc + (bs[0] - 0x80) * Pow2(k)
    requires Base128(bs).value < Pow2(width - k)
    ensures Base128(bs[1..]).Got? && Base128(bs[1..]).value < Pow2(width - (k + 7))
    ensures acc' + Base128(bs[1..]).value * Pow2(k + 7) == acc + Base128(bs).value * Pow2(k)
  {
    hide Pow2;
    WidthStep(bs);
    var b, v, v' := bs[0] - 0x80, Base128(bs).value, Base128(bs[1..]).value;
    SmallerGroups(v', v, width - k);
    DivModUnique(v, 128, v', b);
    SplitGroups(v, k);
  }

  lemma SmallerGroups(v': nat, v: nat, n: nat)
    requires n >= 7 && v < Pow2(n) && 128 * v' <= v
    ensures v' < Pow2(n - 7)
  {
    hide Pow2;
    Pow2Plus7(n - 7);
  }

  /** The 32-bit loop reads every short varint, padded or not. */
  lemma ReadsShort(bs: Bytes)
    requires Short(bs)
    ensures ReadVarint32(bs) == Got(Base128(bs).value, Base128(bs).rest)
  {
    hide Pow2, Varint32From;
    Pow2Values();
    if bs[0] >= 0x80 {
      WidthStep(bs);
      var v' := Base128(bs[1..]).value;
      SmallerGroups(v', Base128(bs).value, 32);
      Loop32Reads(bs[1..], 7, bs[0] % 128, Base128(bs).value);
    }
  }

  lemma Loop64Step(bs: Bytes, k: nat, acc: nat) returns (acc': nat)
    requires bs != [] && bs[0] >= 0x80 && k <= 56 && acc < Pow2(k)
    ensures acc' == acc + (bs[0] - 0x80) * Pow2(k) < Pow2(k + 7)
    ensures Varint64From(bs, k, acc) == Varint64From(bs[1..], k + 7, acc')
  {
    hide Pow2, Or, Shl;
    Pow2Values();
    Pow2Monotonic(7, 64 - k);
    var b := bs[0] % 128;
    WholeGroup(acc, b, k, 64);
    acc' := Or(acc, Shl(b, k, TWO64));
  }

  lemma Loop64Last(bs: Bytes, k: nat, acc: nat, total: nat)
    requires k < 64 && bs != [] && bs[0] < 0x80 && acc < Pow2(k) && bs[0] < Pow2(64 - k)
    requires total == acc + bs[0] * Pow2(k)
    ensures Varint64From(bs, k, acc) == Got(total, bs[1..])
  {
    hide Pow2, Or, Shl;
    Pow2Values();
    SmallMod(bs[0], 128);
    WholeGroup(acc, bs[0], k, 64);
  }

  lemma {:induction false} Loop64Reads(bs: Bytes, k: nat, acc: nat, total: nat)
    requires k < 64 && k % 7 == 0 && acc < Pow2(k) && Base128(bs).Got? && Base128(bs).value < Pow2(64 - k)
    requires k + 7 * Width(bs) <= 70 && total == acc + Base128(bs).value * Pow2(k)
    ensures Varint64From(bs, k, acc) == Got(total, Base128(bs).rest)
    decreases |bs|
  {
    hide Pow2, Varint64From;
    if bs[0] < 0x80 {
      Loop64Last(bs, k, acc, total);
    } else {
      WidthStep(bs);
      var acc' := Loop64Step(bs, k, acc);
      LoopGroups(bs, k, 64, acc, acc');
      Loop64Reads(bs[1..], k + 7, acc', total);
    }
  }

  /** The 64-bit loop reads every varint of up to ten bytes below 2^64, padded or not. */
  lemma ReadsVarint(bs: Bytes)
    requires Base128(bs).Got? && Base128(bs).value < 0x1_0000_0000_0000_0000 && Width(bs) <= 10
    ensures ReadVarint64(bs) == Got(Base128(bs).value, Base128(bs).rest)
  {
    hide Pow2, Varint64From;
    Pow2Values();
    Pow2Zero();
    Loop64Reads(bs, 0, 0, Base128(bs).value);
  }

  /** The key of a record; a zero key ends the message. */
  lemma ReadsKey(bs: Bytes)
    requires Short(bs)
    ensures var key, rest := Base128(bs).value, Base128(bs).rest;
      ReadTag(bs) == if key == 0 then DecodeSpec.End(rest) else Tag(key / 8, key % 8, rest)
  {
    hide ReadVarint32, Base128;
    ReadsShort(bs);
  }

  lemma {:induction false} SkipsDigits(bs: Bytes)
    ensures SkipVarint(bs).Got? <==> Base128(bs).Got?
    ensures Base128(bs).Got? ==> SkipVarint(bs) == Got((), Base128(bs).rest)
    decreases |bs|
  {
    if bs != [] && bs[0] >= 128 { SkipsDigits(bs[1..]); }
  }

  /** Skipping takes exactly one payload: any varint, 8 bytes, 4 bytes, or a length and its bytes; other types fail. */
  lemma SkipsPayload(wt: nat, bs: Bytes)
    requires wt == 2 ==> Short(bs)
    ensures Skip(wt, bs).Got? <==> PayloadOf(wt, bs).Got?
    ensures PayloadOf(wt, bs).Got? ==> Skip(wt, bs) == Got((), PayloadOf(wt, bs).rest)
  {
    hide Base128, SkipVarint, ReadVarint32, LittleEndian;
    SkipsDigits(bs);
    if wt == 2 { ReadsShort(bs); }
  }

  /** A string or submessage is the bytes its length says. */
  lemma ReadsBody(bs: Bytes)
    requires Short(bs)
    ensures ReadString(bs).Got? <==> PayloadOf(2, bs).Got?
    ensures PayloadOf(2, bs).Got? ==> ReadString(bs) == Got(PayloadOf(2, bs).value.body, PayloadOf(2, bs).rest)
  {
    hide Base128, ReadVarint32;
    ReadsShort(bs);
  }

  /** What a callback is handed of a number: its bytes, a varint of up to ten. */
  lemma ReadsRaw(wt: nat, bs: Bytes)
    ensures var p := PayloadOf(wt, bs);
      && (ReadRaw(wt, bs).Got? <==> wt != 2 && p.Got? && |bs| - |p.rest| <= 10)
      && (ReadRaw(wt, bs).Got? ==> ReadRaw(wt, bs).rest == p.rest && bs == ReadRaw(wt, bs).value + p.rest)
  {
    hide Base128, SkipVarint, LittleEndian;
    SkipsDigits(bs);
    DigitsTail(bs);
  }

  lemma {:induction false} DigitsTail(bs: Bytes)
    ensures Base128(bs).Got? ==> bs[|bs| - |Base128(bs).rest|..] == Base128(bs).rest
    decreases |bs|
  {
    if bs != [] && bs[0] >= 128 { DigitsTail(bs[1..]); }
  }

  // ---------------------------------------------------------------- unknown records

  /** One whole record with a tag the descriptor does not have. */
  ghost predicate UnknownRecord(fields: Fields, u: Bytes) {
    && Short(u) && Base128(u).value != 0
    && (Base128(u).value % 8 == 2 ==> Short(Base128(u).rest))
    && RecordAt(u).Got? && RecordAt(u).rest == []
    && forall f | f in fields :: f.tag != RecordAt(u).value.tag
  }

  lemma UnknownRecordIsSkipped(fields: Fields, u: Bytes)
    requires UnknownRecord(fields, u)
    ensures UnknownField(fields, u)
  {
    hide Base128, PayloadOf, Skip, ReadTag;
    ReadsKey(u);
    SkipsPayload(Base128(u).value % 8, Base128(u).rest);
  }

  /** A record with an unlisted tag between complete fields changes neither success nor the decoded struct. */
  lemma UnknownRecordsAreTransparent(fields: Fields, a: Bytes, u: Bytes, b: Bytes, dest: Struct)
    requires WellFormed(fields) && Shaped(fields, dest) && UnknownRecord(fields, u)
    requires CompleteFields(fields, a, SetDefaults(fields, dest), {})
    ensures Decode(fields, a + u + b, dest) == Decode(fields, a + b, dest)
  {
    hide *;
    UnknownRecordIsSkipped(fields, u);
    UnknownFieldsAreTransparent(fields, a, u, b, dest);
  }

  predicate Unlisted(fields: Fields, tag: nat) {
    forall f | f in fields :: f.tag != tag
  }

  lemma {:induction false} KeyWidth(v: nat, tail: Bytes)
    requires v < TWO32
    ensures Short(EncVarint(v) + tail) && Base128(EncVarint(v) + tail) == Got(v, tail)
  {
    hide EncVarint, Pow2, Base128;
    Pow2Values();
    EncVarintLength(v, 5);
    Base128Inverts(v, tail);
  }

  /** Whatever the encoder writes as one record of an unlisted tag is skipped. */
  lemma WrittenRecordUnknown(fields: Fields, tag: nat, wt: nat, payload: Bytes, value: Payload)
    requires 1 <= tag < MAX_TAG && wt < 8 && Unlisted(fields, tag)
    requires PayloadOf(wt, payload) == Got(value, []) && (wt == 2 ==> Short(payload))
    ensures UnknownField(fields, EncTag(wt, tag) + payload)
  {
    hide EncVarint, PayloadOf, Base128, Short, UnknownField;
    KeyWidth(8 * tag + wt, payload);
    KeyParses(tag, wt, payload);
    UnknownRecordIsSkipped(fields, EncTag(wt, tag) + payload);
  }

  lemma SubmessageShort(f: Field, v: Value)
    requires Supported(f) && f.atype.Static? && f.ltype.Submessage? && TypedValue(f, v)
    requires EncValue(f, v).Out? && |EncValue(f, v).bytes| < TWO32
    ensures Short(EncValue(f, v).bytes)
  {
    hide EncVarint, Short, EncMessage;
    assert WellFormed(f.sub);
    var body := EncMessage(f.sub, v.slots).bytes;
    KeyWidth(|body|, body);
  }

  lemma ScanSkipsRecord(fields: Fields, f: Field, v: Value, more: Bytes, m: Struct, seen: set<nat>)
    requires WellFormed(fields) && Shaped(fields, m) && Unlisted(fields, f.tag)
    requires Supported(f) && f.atype.Static? && TypedValue(f, v)
    requires EncRecord(f, v).Out? && |EncRecord(f, v).bytes| < TWO32
    ensures ScanFields(fields, EncRecord(f, v).bytes + more, m, seen) == ScanFields(fields, more, m, seen)
  {
    hide EncTag, EncVarint, ScanFields, PayloadOf, Short, UnknownField, EncNum, EncMessage, Shaped, WellFormed;
    var payload := EncValue(f, v).bytes;
    ValueParses(f, v, []);
    assert payload + [] == payload;
    if f.ltype.Submessage? { SubmessageShort(f, v); }
    WrittenRecordUnknown(fields, f.tag, FieldWireType(f.ltype), payload, ValuePayload(f, v));
    ScanSkipsUnknown(fields, EncRecord(f, v).bytes, more, m, seen);
  }

  lemma ScanSkipsString(fields: Fields, tag: nat, body: Bytes, more: Bytes, m: Struct, seen: set<nat>)
    requires WellFormed(fields) && Shaped(fields, m) && 1 <= tag < MAX_TAG && Unlisted(fields, tag) && |body| < TWO32
    ensures ScanFields(fields, EncTag(WT_STRING, tag) + EncString(body) + more, m, seen)
      == ScanFields(fields, more, m, seen)
  {
    hide EncTag, EncVarint, ScanFields, PayloadOf, Short, UnknownField, Shaped, WellFormed;
    StringParses(body, []);
    assert EncString(body) + [] == EncString(body);
    KeyWidth(|body|, body);
    WrittenRecordUnknown(fields, tag, 2, EncString(body), LengthP(body));
    ScanSkipsUnknown(fields, EncTag(WT_STRING, tag) + EncString(body), more, m, seen);
  }

  lemma {:induction false} ScanSkipsRecords(fields: Fields, f: Field, items: seq<Value>, more: Bytes, m: Struct,
                                            seen: set<nat>)
    requires WellFormed(fields) && Shaped(fields, m) && Unlisted(fields, f.tag)
    requires Supported(f) && f.atype.Static? && TypedItems(f, items)
    requires EncRecords(f, items).Out? && |EncRecords(f, items).bytes| < TWO32
    ensures ScanFields(fields, EncRecords(f, items).bytes + more, m, seen) == ScanFields(fields, more, m, seen)
    decreases |items|
  {
    hide EncRecord, ScanFields, Shaped, WellFormed, Supported, TypedValue;
    if items == [] {
      assert EncRecords(f, items).bytes + more == more;
    } else {
      var first, rest := EncRecord(f, items[0]).bytes, EncRecords(f, items[1..]).bytes;
      assert EncRecords(f, items).bytes + more == first + (rest + more);
      ScanSkipsRecord(fields, f, items[0], rest + more, m, seen);
      ScanSkipsRecords(fields, f, items[1..], more, m, seen);
    }
  }

  lemma ScanSkipsSlot(fields: Fields, f: Field, s: Slot, more: Bytes, m: Struct, seen: set<nat>)
    requires WellFormed(fields) && Shaped(fields, m) && Unlisted(fields, f.tag)
    requires Supported(f) && TypedSlot(f, s) && EncSlot(f, s).Out? && |EncSlot(f, s).bytes| < TWO32
    ensures ScanFields(fields, EncSlot(f, s).bytes + more, m, seen) == ScanFields(fields, more, m, seen)
  {
    hide EncRecord, EncRecords, EncNums, EncTag, EncString, ScanFields, Shaped, WellFormed;
    if EncSlot(f, s).bytes == [] {
      assert EncSlot(f, s).bytes + more == more;
    } else if s.Cb? {
      StringLength(f.tag, s.text.bytes);
      ScanSkipsString(fields, f.tag, s.text.bytes, more, m, seen);
    } else if s.Rep? {
      if Packable(f.ltype) {
        StringLength(f.tag, EncNums(f, s.items).bytes);
        ScanSkipsString(fields, f.tag, EncNums(f, s.items).bytes, more, m, seen);
      } else {
        ScanSkipsRecords(fields, f, s.items, more, m, seen);
      }
    } else {
      ScanSkipsRecord(fields, f, s.v, more, m, seen);
    }
  }

  predicate AllUnlisted(fields: Fields, others: Fields) {
    forall f | f in others :: Unlisted(fields, f.tag)
  }

  lemma {:induction false} ScanSkipsMessage(fields: Fields, others: Fields, x: Struct, more: Bytes, m: Struct,
                                            seen: set<nat>)
    requires WellFormed(fields) && Shaped(fields, m) && AllUnlisted(fields, others)
    requires AllSupported(others) && Typed(others, x)
    requires EncMessage(others, x).Out? && |EncMessage(others, x).bytes| < TWO32
    ensures ScanFields(fields, EncMessage(others, x).bytes + more, m, seen) == ScanFields(fields, more, m, seen)
    decreases |others|
  {
    hide EncSlot, ScanFields, Shaped, WellFormed, Supported, TypedSlot, Unlisted;
    if others == [] {
      assert EncMessage(others, x).bytes + more == more;
    } else {
      var first, rest := EncSlot(others[0], x[0]).bytes, EncMessage(others[1..], x[1..]).bytes;
      assert EncMessage(others, x).bytes + more == first + (rest + more);
      assert others[0] in others;
      ScanSkipsSlot(fields, others[0], x[0], rest + more, m, seen);
      ScanSkipsMessage(fields, others[1..], x[1..], more, m, seen);
    }
  }

  /** A newer sender's extra fields, whatever they hold, are invisible to a decoder that does not list them. */
  lemma ForeignFieldsAreTransparent(fields: Fields, a: Bytes, others: Fields, x: Struct, b: Bytes, dest: Struct)
    requires WellFormed(fields) && Shaped(fields, dest) && AllUnlisted(fields, others)
    requires CompleteFields(fields, a, SetDefaults(fields, dest), {})
    requires AllSupported(others) && Typed(others, x)
    requires EncMessage(others, x).Out? && |EncMessage(others, x).bytes| < TWO32
    ensures Decode(fields, a + EncMessage(others, x).bytes + b, dest) == Decode(fields, a + b, dest)
  {
    hide ScanFields, SetDefaults, Shaped, WellFormed, AllSeen, AllUnlisted, EncMessage, AllSupported, CompleteFields;
    var u, base := EncMessage(others, x).bytes, SetDefaults(fields, dest);
    var r := ScanFields(fields, a, base, {});
    assert a + u + b == a + (u + b);
    ScanLocal(fields, a, u + b, base, {});
    ScanLocal(fields, a, b, base, {});
    ScanSkipsMessage(fields, others, x, b, r.out, r.seen);
  }

  lemma ScanEnds(fields: Fields, tail: Bytes, m: Struct, seen: set<nat>)
    requires WellFormed(fields) && Shaped(fields, m)
    ensures ScanFields(fields, [0] + tail, m, seen) == Scan(true, true, tail, m, seen)
  {
    hide Shaped, WellFormed, DecSlot, Skip, Find;
    assert ([0] + tail)[1..] == tail;
    ReadsKey([0] + tail);
  }

  lemma ScanEndsAfter(fields: Fields, a: Bytes, tail: Bytes, m: Struct)
    requires WellFormed(fields) && Shaped(fields, m) && CompleteFields(fields, a, m, {})
    ensures var r := ScanFields(fields, a, m, {});
      && r == Scan(true, false, [], r.out, r.seen)
      && ScanFields(fields, a + ([0] + tail), m, {}) == Scan(true, true, tail, r.out, r.seen)
  {
    hide Shaped, WellFormed, ScanFields;
    var r := ScanFields(fields, a, m, {});
    ScanLocal(fields, a, [0] + tail, m, {});
    ScanEnds(fields, tail, r.out, r.seen);
  }

  /** A zero byte after complete fields ends the message; what follows stays unread. */
  lemma ZeroTagEnds(fields: Fields, a: Bytes, tail: Bytes, dest: Struct)
    requires WellFormed(fields) && Shaped(fields, dest)
    requires CompleteFields(fields, a, SetDefaults(fields, dest), {})
    ensures Decode(fields, a + ([0] + tail), dest) == Decode(fields, a, dest).(rest := tail)
  {
    hide SetDefaults, Shaped, WellFormed, AllSeen, ScanFields, CompleteFields;
    ScanEndsAfter(fields, a, tail, SetDefaults(fields, dest));
  }
}
