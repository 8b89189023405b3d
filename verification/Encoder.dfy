/** The encoder, `pb_encode.c`, writing to streams. */
module Encoder {
  import opened Wire
  import opened Descriptors
  import opened EncodeSpec
  import opened OutputStream
  import opened FieldIterator

  // ---------------------------------------------------------------- varints

  /** The groups of `v` with the continuation bit set on all of them. */
  function Groups(v: nat): Bytes {
    if v == 0 then [] else [v % 128 + 128] + Groups(v / 128)
  }

  lemma {:induction false} GroupsAndVarint(v: nat)
    requires v > 0
    ensures var g := Groups(v); g != [] && g[|g| - 1] >= 128 && EncVarint(v) == g[..|g| - 1] + [g[|g| - 1] - 128]
    decreases v
  {
    if v >= 128 {
      GroupsAndVarint(v / 128);
      var g, h := Groups(v), Groups(v / 128);
      assert g == [v % 128 + 128] + h;
      assert g[..|g| - 1] == [v % 128 + 128] + h[..|h| - 1];
    } else {
      assert Groups(v) == [v + 128];
    }
  }

  lemma GroupsStep(v: nat)
    ensures Groups(v) == if v == 0 then [] else [v % 128 + 128] + Groups(v / 128)
  {
  }

  /** The loop over the groups, each with its continuation bit. */
  method FillGroups(v: nat, buffer: array<byte>) returns (n: nat)
    requires |Groups(v)| <= buffer.Length
    modifies buffer
    ensures n == |Groups(v)| && buffer[..n] == Groups(v)
  {
    hide Groups;
    n := 0;
    var value := v;
    while value != 0
      invariant n <= buffer.Length && buffer[..n] + Groups(value) == Groups(v)
    {
      GroupsStep(value);
      assert |Groups(v)| > n;
      ghost var done := buffer[..n];
      buffer[n] := value % 0x80 + 0x80;
      assert buffer[..n + 1] == done + [value % 0x80 + 0x80];
      value := value / 0x80;
      n := n + 1;
    }
    GroupsStep(0);
  }

  /** A multi-byte varint in its ten-byte buffer; `n` bytes of it are used. */
  method VarintBuffer(v: nat) returns (buffer: array<byte>, n: nat)
    requires 0 < v < TWO64
    ensures fresh(buffer) && n <= buffer.Length && buffer[..n] == EncVarint(v)
  {
    GroupsAndVarint(v);
    EncVarintShortest(v, []);
    hide EncVarint, Groups;
    buffer := new byte[10];
    n := FillGroups(v, buffer);
    buffer[n - 1] := buffer[n - 1] - 0x80;
    assert buffer[..n] == Groups(v)[..n - 1] + [Groups(v)[n - 1] - 128];
  }

  method EncodeVarint(stream: OStream, v: nat) returns (ok: bool)
    requires stream.Valid() && v < TWO64
    modifies stream, stream.buf
    ensures stream.Valid() && After(old(stream.View()), stream.View(), ok, Out(EncVarint(v)))
  {
    if v <= 0x7F {
      ok := stream.Write([v]);
      return;
    }
    var buffer, n := VarintBuffer(v);
    ok := stream.Write(buffer[..n]);
  }

  method EncodeSvarint(stream: OStream, n: int) returns (ok: bool)
    requires stream.Valid() && FitsInt(n, 8)
    modifies stream, stream.buf
    ensures stream.Valid() && After(old(stream.View()), stream.View(), ok, Out(EncVarint(ZigZag(n))))
  {
    ZigZagRoundTrip(n);
    ok := EncodeVarint(stream, ZigZag(n));
  }

  // ---------------------------------------------------------------- fixed width, tags, strings

  method EncodeFixed32(stream: OStream, v: nat) returns (ok: bool)
    requires stream.Valid() && v < TWO32
    modifies stream, stream.buf
    ensures stream.Valid() && After(old(stream.View()), stream.View(), ok, Out(FixedBytes(v, 4)))
  {
    var bytes := [v % 0x100, v / 0x100 % 0x100, v / 0x1_0000 % 0x100, v / 0x100_0000 % 0x100];
    assert bytes == FixedBytes(v, 4) by { Fixed4(v); }
    ok := stream.Write(bytes);
  }

  lemma Fixed4(v: nat)
    ensures FixedBytes(v, 4) == [v % 0x100, v / 0x100 % 0x100, v / 0x1_0000 % 0x100, v / 0x100_0000 % 0x100]
  {
    var a, b, c := v / 0x100, v / 0x1_0000, v / 0x100_0000;
    assert FixedBytes(c, 1) == [c % 256];
    assert FixedBytes(b, 2) == [b % 256] + FixedBytes(c, 1);
    assert FixedBytes(a, 3) == [a % 256] + FixedBytes(b, 2);
  }

  method EncodeFixed64(stream: OStream, v: nat) returns (ok: bool)
    requires stream.Valid() && v < TWO64
    modifies stream, stream.buf
    ensures stream.Valid() && After(old(stream.View()), stream.View(), ok, Out(FixedBytes(v, 8)))
  {
    var high := v / TWO32;
    var bytes := [v % 0x100, v / 0x100 % 0x100, v / 0x1_0000 % 0x100, v / 0x100_0000 % 0x100,
                  high % 0x100, high / 0x100 % 0x100, high / 0x1_0000 % 0x100, high / 0x100_0000 % 0x100];
    assert bytes == FixedBytes(v, 8) by {
      Fixed4(v);
      Fixed4(high);
      FixedSplit(v);
    }
    ok := stream.Write(bytes);
  }

  lemma FixedSplit(v: nat)
    ensures FixedBytes(v, 8) == FixedBytes(v, 4) + FixedBytes(v / TWO32, 4)
  {
    var a, b, c, d := v / 0x100, v / 0x1_0000, v / 0x100_0000, v / TWO32;
    assert c / 0x100 == d && b / 0x100 == c && a / 0x100 == b;
    assert FixedBytes(c, 5) == [c % 256] + FixedBytes(d, 4);
    assert FixedBytes(b, 6) == [b % 256] + FixedBytes(c, 5);
    assert FixedBytes(a, 7) == [a % 256] + FixedBytes(b, 6);
    assert FixedBytes(c, 1) == [c % 256];
    assert FixedBytes(b, 2) == [b % 256] + FixedBytes(c, 1);
    assert FixedBytes(a, 3) == [a % 256] + FixedBytes(b, 2);
  }

  method EncodeTag(stream: OStream, wt: nat, tag: nat) returns (ok: bool)
    requires stream.Valid() && wt < 8 && tag < MAX_TAG
    modifies stream, stream.buf
    ensures stream.Valid() && After(old(stream.View()), stream.View(), ok, Out(EncTag(wt, tag)))
  {
    ok := EncodeVarint(stream, 8 * tag + wt);
  }

  method EncodeTagForField(stream: OStream, f: Field) returns (ok: bool)
    requires stream.Valid() && Supported(f)
    modifies stream, stream.buf
    ensures stream.Valid() && After(old(stream.View()), stream.View(), ok, Out(EncTag(WireType(f.ltype), f.tag)))
  {
    var wt;
    match f.ltype {
      case Varint => wt := WT_VARINT;
      case UVarint => wt := WT_VARINT;
      case SVarint => wt := WT_VARINT;
      case Fixed32 => wt := WT_32BIT;
      case Fixed64 => wt := WT_64BIT;
      case ByteArray => wt := WT_STRING;
      case CString => wt := WT_STRING;
      case Submessage => wt := WT_STRING;
    }
    ok := EncodeTag(stream, wt, f.tag);
  }

  method EncodeString(stream: OStream, bs: Bytes) returns (ok: bool)
    requires stream.Valid()
    modifies stream, stream.buf
    ensures stream.Valid() && After(old(stream.View()), stream.View(), ok, Out(EncString(bs)))
  {
    ghost var t0, prefix := stream.View(), Out(EncVarint(|bs| % TWO64));
    ok := EncodeVarint(stream, |bs| % TWO64);
    if !ok {
      FailedFirst(t0, stream.View(), prefix, Out(bs));
      return;
    }
    ghost var t1 := stream.View();
    ok := stream.Write(bs);
    AfterBoth(t0, t1, stream.View(), ok, prefix, Out(bs));
  }

  // ---------------------------------------------------------------- values

  /** The scalar encoders `pb_enc_varint` to `pb_enc_fixed64`. */
  method EncodeNum(stream: OStream, f: Field, n: int) returns (ok: bool)
    requires stream.Valid() && Packable(f.ltype) && InRange(f, n)
    modifies stream, stream.buf
    ensures stream.Valid() && After(old(stream.View()), stream.View(), ok, EncNum(f, n))
  {
    match f.ltype {
      case Fixed32 => ok := EncodeFixed32(stream, n);
      case Fixed64 => ok := EncodeFixed64(stream, n);
      case Varint =>
        if !ValidSize(f.dataSize) { return false; }
        ok := EncodeVarint(stream, Unsigned64(n));
      case UVarint =>
        if !ValidSize(f.dataSize) { return false; }
        ok := EncodeVarint(stream, n);
      case SVarint =>
        if !ValidSize(f.dataSize) { return false; }
        ok := EncodeSvarint(stream, n);
    }
  }

  /** Packed content, element by element. */
  method EncodeNums(stream: OStream, f: Field, items: seq<Value>) returns (ok: bool)
    requires stream.Valid() && Packable(f.ltype) && TypedItems(f, items)
    modifies stream, stream.buf
    ensures stream.Valid() && After(old(stream.View()), stream.View(), ok, EncNums(f, items))
  {
    hide After, EncNum;
    ghost var t0, done := stream.View(), Out([]);
    NothingWritten(t0);
    for i := 0 to |items|
      invariant stream.Valid() && After(t0, stream.View(), true, done)
      invariant EncNums(f, items) == done.Then(EncNums(f, items[i..]))
    {
      ghost var ti, head, rest := stream.View(), EncNum(f, items[i].n), EncNums(f, items[i + 1..]);
      assert EncNums(f, items[i..]) == head.Then(rest) by { assert items[i..][1..] == items[i + 1..]; }
      ok := EncodeNum(stream, f, items[i].n);
      if !ok {
        FailedFirst(ti, stream.View(), head, rest);
        AfterBoth(t0, ti, stream.View(), false, done, head.Then(rest));
        return;
      }
      AfterBoth(t0, ti, stream.View(), true, done, head);
      Associate(done, head, rest);
      done := done.Then(head);
    }
    assert done.Then(EncNums(f, items[|items|..])) == done by { AppendNothing(done); }
    return true;
  }

  lemma Associate(a: Encoded, b: Encoded, c: Encoded)
    ensures a.Then(b.Then(c)) == a.Then(b).Then(c)
  {
    if a.Out? && b.Out? && c.Out? {
      assert a.bytes + (b.bytes + c.bytes) == a.bytes + b.bytes + c.bytes;
    }
  }

  lemma AppendNothing(a: Encoded)
    ensures a.Then(Out([])) == a
  {
    if a.Out? { assert a.bytes + [] == a.bytes; }
  }

  lemma {:induction false} FixedItemsSize(f: Field, items: seq<Value>)
    requires (f.ltype.Fixed32? || f.ltype.Fixed64?) && TypedItems(f, items)
    ensures EncNums(f, items).Out?
    ensures |EncNums(f, items).bytes| == (if f.ltype.Fixed32? then 4 else 8) * |items|
    decreases |items|
  {
    hide FixedBytes;
    if items != [] { FixedItemsSize(f, items[1..]); }
  }

  /** The size of packed content: computed for fixed widths, measured with a counting stream otherwise. */
  method PackedSize(f: Field, items: seq<Value>) returns (ok: bool, size: nat)
    requires Packable(f.ltype) && TypedItems(f, items)
    ensures ok == EncNums(f, items).Out?
    ensures ok ==> size == |EncNums(f, items).bytes|
  {
    if f.ltype.Fixed32? || f.ltype.Fixed64? {
      FixedItemsSize(f, items);
      return true, (if f.ltype.Fixed32? then 4 else 8) * |items|;
    }
    var sizeStream := new OStream.Sizing();
    ok := EncodeNums(sizeStream, f, items);
    size := sizeStream.bytesWritten;
  }

  method EncodePacked(stream: OStream, f: Field, items: seq<Value>) returns (ok: bool)
    requires stream.Valid() && Supported(f) && Packable(f.ltype) && TypedItems(f, items)
    modifies stream, stream.buf
    ensures stream.Valid() && After(old(stream.View()), stream.View(), ok, EncPacked(f, items))
  {
    hide EncNums, EncTag, EncVarint;
    ghost var t0, body := stream.View(), EncNums(f, items);
    ghost var tag := Out(EncTag(WT_STRING, f.tag));
    ok := EncodeTag(stream, WT_STRING, f.tag);
    ghost var t1 := stream.View();
    ghost var content := if body.Out? then Out(EncString(body.bytes)) else Refused;
    assert EncPacked(f, items) == tag.Then(content);
    if !ok {
      FailedFirst(t0, t1, tag, content);
      return;
    }
    var size;
    ok, size := PackedSize(f, items);
    if !ok {
      RefusedNext(t0, t1, tag);
      return;
    }
    ghost var prefix := Out(EncVarint(size % TWO64));
    ok := EncodeVarint(stream, size % TWO64);
    ghost var t2 := stream.View();
    if !ok {
      FailedFirst(t1, t2, prefix, body);
      AfterBoth(t0, t1, t2, false, tag, content);
      return;
    }
    if stream.sizing {
      stream.Count(size);
      ok := true;
    } else {
      ok := EncodeNums(stream, f, items);
    }
    AfterBoth(t1, t2, stream.View(), ok, prefix, body);
    AfterBoth(t0, t1, stream.View(), ok, tag, content);
  }

  lemma RefusedNext(t0: Tape, t1: Tape, a: Encoded)
    requires t0.Valid() && After(t0, t1, true, a)
    ensures After(t0, t1, false, a.Then(Refused))
  {
  }

  // ---------------------------------------------------------------- fields and messages

  method EncodeValue(stream: OStream, f: Field, v: Value) returns (ok: bool)
    requires stream.Valid() && Supported(f) && f.atype.Static? && TypedValue(f, v)
    modifies stream, stream.buf
    ensures stream.Valid() && After(old(stream.View()), stream.View(), ok, EncValue(f, v))
    decreases f, 0
  {
    if f.ltype.Submessage? {
      ok := EncodeSubmessage(stream, f.sub, v.slots);
    } else {
      ok := EncodeNum(stream, f, v.n);
    }
  }

  method EncodeRecord(stream: OStream, f: Field, v: Value) returns (ok: bool)
    requires stream.Valid() && Supported(f) && f.atype.Static? && TypedValue(f, v)
    modifies stream, stream.buf
    ensures stream.Valid() && After(old(stream.View()), stream.View(), ok, EncRecord(f, v))
    decreases f, 1
  {
    hide After, EncTag, EncValue, TypedValue;
    ghost var t0, tag := stream.View(), Out(EncTag(WireType(f.ltype), f.tag));
    ok := EncodeTagForField(stream, f);
    if !ok {
      FailedFirst(t0, stream.View(), tag, EncValue(f, v));
      return;
    }
    ghost var t1 := stream.View();
    ok := EncodeValue(stream, f, v);
    AfterBoth(t0, t1, stream.View(), ok, tag, EncValue(f, v));
  }

  /** The unpacked loop of `encode_array`. */
  method EncodeRecords(stream: OStream, f: Field, items: seq<Value>) returns (ok: bool)
    requires stream.Valid() && Supported(f) && f.atype.Static? && TypedItems(f, items)
    modifies stream, stream.buf
    ensures stream.Valid() && After(old(stream.View()), stream.View(), ok, EncRecords(f, items))
    decreases f, 2
  {
    hide After, EncRecord, TypedValue, Supported;
    ghost var t0, done := stream.View(), Out([]);
    NothingWritten(t0);
    for i := 0 to |items|
      invariant stream.Valid() && After(t0, stream.View(), true, done)
      invariant EncRecords(f, items) == done.Then(EncRecords(f, items[i..]))
    {
      ghost var ti, head, rest := stream.View(), EncRecord(f, items[i]), EncRecords(f, items[i + 1..]);
      assert EncRecords(f, items[i..]) == head.Then(rest) by { assert items[i..][1..] == items[i + 1..]; }
      ok := EncodeRecord(stream, f, items[i]);
      if !ok {
        FailedFirst(ti, stream.View(), head, rest);
        AfterBoth(t0, ti, stream.View(), false, done, head.Then(rest));
        return;
      }
      AfterBoth(t0, ti, stream.View(), true, done, head);
      Associate(done, head, rest);
      done := done.Then(head);
    }
    assert done.Then(EncRecords(f, items[|items|..])) == done by { AppendNothing(done); }
    return true;
  }

  method EncodeArray(stream: OStream, f: Field, items: seq<Value>) returns (ok: bool)
    requires stream.Valid() && Supported(f) && f.atype.Static? && TypedItems(f, items)
    modifies stream, stream.buf
    ensures stream.Valid() && After(old(stream.View()), stream.View(), ok, EncArray(f, items))
    decreases f, 3
  {
    if |items| == 0 {
      NothingWritten(stream.View());
      return true;
    }
    if |items| > f.arraySize {
      return false;
    }
    if Packable(f.ltype) {
      ok := EncodePacked(stream, f, items);
    } else {
      ok := EncodeRecords(stream, f, items);
    }
  }

  method EncodeBasicField(stream: OStream, f: Field, s: Slot) returns (ok: bool)
    requires stream.Valid() && Supported(f) && f.atype.Static? && TypedSlot(f, s)
    modifies stream, stream.buf
    ensures stream.Valid() && After(old(stream.View()), stream.View(), ok, EncSlot(f, s))
    decreases f, 4
  {
    match f.htype {
      case Required =>
        ok := EncodeRecord(stream, f, s.v);
      case Optional =>
        if s.has {
          ok := EncodeRecord(stream, f, s.v);
        } else {
          NothingWritten(stream.View());
          ok := true;
        }
      case Repeated =>
        ok := EncodeArray(stream, f, s.items);
    }
  }

  /** `encode_callback_field` with the callback `encode_string`, or none. */
  method EncodeCallbackField(stream: OStream, f: Field, s: Slot) returns (ok: bool)
    requires stream.Valid() && Supported(f) && f.atype.Callback? && TypedSlot(f, s)
    modifies stream, stream.buf
    ensures stream.Valid() && After(old(stream.View()), stream.View(), ok, EncSlot(f, s))
  {
    ghost var t0 := stream.View();
    if !s.bound {
      NothingWritten(t0);
      return true;
    }
    ghost var tag, text := Out(EncTag(WT_STRING, f.tag)), Out(EncString(s.text.bytes));
    ok := EncodeTagForField(stream, f);
    if !ok {
      FailedFirst(t0, stream.View(), tag, text);
      return;
    }
    ghost var t1 := stream.View();
    ok := EncodeString(stream, s.text.bytes);
    AfterBoth(t0, t1, stream.View(), ok, tag, text);
  }

  method EncodeField(stream: OStream, f: Field, s: Slot) returns (ok: bool)
    requires stream.Valid() && Supported(f) && TypedSlot(f, s)
    modifies stream, stream.buf
    ensures stream.Valid() && After(old(stream.View()), stream.View(), ok, EncSlot(f, s))
    decreases f, 5
  {
    match f.atype {
      case Static => ok := EncodeBasicField(stream, f, s);
      case Callback => ok := EncodeCallbackField(stream, f, s);
    }
  }

  /** `pb_encode` */
  method EncodeMessage(stream: OStream, fields: Fields, m: Struct) returns (ok: bool)
    requires stream.Valid() && WellFormed(fields) && Typed(fields, m)
    modifies stream, stream.buf
    ensures stream.Valid() && After(old(stream.View()), stream.View(), ok, EncMessage(fields, m))
    decreases fields, 6
  {
    hide After, EncSlot, TypedSlot, Supported;
    ghost var t0, done := stream.View(), Out([]);
    NothingWritten(t0);
    var iter := new FieldIter(fields);
    var i, more := 0, true;
    assert fields[0..] == fields && m[0..] == m;
    assert done.Then(EncMessage(fields, m)) == EncMessage(fields, m) by { NothingFirst(EncMessage(fields, m)); }
    while more
      invariant iter.Valid() && fresh(iter) && iter.fields == fields
      invariant 0 <= i <= |fields| && (more <==> i < |fields|) && (more ==> iter.pos == i)
      invariant stream.Valid() && After(t0, stream.View(), true, done)
      invariant AllSupported(fields[i..]) && EncMessage(fields, m) == done.Then(EncMessage(fields[i..], m[i..]))
      decreases |fields| - i
    {
      ghost var ti, head, rest := stream.View(), EncSlot(fields[i], m[i]), EncMessage(fields[i + 1..], m[i + 1..]);
      assert EncMessage(fields[i..], m[i..]) == head.Then(rest) by {
        assert fields[i..][1..] == fields[i + 1..] && m[i..][1..] == m[i + 1..];
      }
      ok := EncodeField(stream, fields[iter.pos], m[iter.pos]);
      if !ok {
        FailedFirst(ti, stream.View(), head, rest);
        AfterBoth(t0, ti, stream.View(), false, done, head.Then(rest));
        return;
      }
      AfterBoth(t0, ti, stream.View(), true, done, head);
      Associate(done, head, rest);
      done := done.Then(head);
      more := iter.Next();
      i := i + 1;
    }
    assert done.Then(EncMessage(fields[|fields|..], m[|fields|..])) == done by { AppendNothing(done); }
    return true;
  }

  lemma NothingFirst(a: Encoded)
    ensures Out([]).Then(a) == a
  {
    if a.Out? { assert [] + a.bytes == a.bytes; }
  }

  /** What a submessage adds to the stream. */
  function EncBody(fields: Fields, m: Struct): Encoded
    requires WellFormed(fields) && Typed(fields, m)
  {
    var body := EncMessage(fields, m);
    if body.Out? then Out(EncString(body.bytes)) else Refused
  }

  /** `pb_encode_submessage`: measured with a counting stream first, then written through a window of that size. */
  method EncodeSubmessage(stream: OStream, fields: Fields, m: Struct) returns (ok: bool)
    requires stream.Valid() && WellFormed(fields) && Typed(fields, m)
    modifies stream, stream.buf
    ensures stream.Valid() && After(old(stream.View()), stream.View(), ok, EncBody(fields, m))
    decreases fields, 7
  {
    assert AllSupported(fields);
    hide EncMessage, EncVarint, Typed, WellFormed, AllSupported;
    ghost var t0, body := stream.View(), EncMessage(fields, m);
    var substream := new OStream.Sizing();
    ok := EncodeMessage(substream, fields, m);
    if !ok {
      return;
    }
    var size := substream.bytesWritten;
    ghost var prefix := Out(EncVarint(size % TWO64));
    ok := EncodeVarint(stream, size % TWO64);
    ghost var t1 := stream.View();
    if !ok {
      FailedFirst(t0, t1, prefix, body);
      return;
    }
    if stream.sizing {
      stream.Count(size);
      AfterBoth(t0, t1, stream.View(), true, prefix, body);
      return;
    }
    if stream.bytesWritten + size > stream.maxSize {
      AfterBoth(t0, t1, t1, false, prefix, body);
      return false;
    }
    var window := new OStream.Window(stream.buf, stream.state, size);
    ghost var w0 := window.View();
    var status := EncodeMessage(window, fields, m);
    ghost var w1 := window.View();
    stream.bytesWritten := stream.bytesWritten + window.bytesWritten;
    stream.state := window.state;
    WindowFilled(t1, w0, w1, stream.View(), status, body, size);
    AfterBoth(t0, t1, stream.View(), true, prefix, body);
    if window.bytesWritten != size {
      return false;
    }
    return status;
  }

  /** A window of exactly the measured size is filled completely, and so is that part of the parent. */
  lemma WindowFilled(t1: Tape, w0: Tape, w1: Tape, t2: Tape, status: bool, body: Encoded, size: nat)
    requires t1.Valid() && !t1.sizing && body.Out? && size == |body.bytes| && t1.written + size <= t1.maxSize
    requires w0 == Tape(false, t1.mem, t1.state, size, 0) && After(w0, w1, status, body)
    requires t2 == t1.(mem := w1.mem, state := w1.state, written := t1.written + w1.written)
    ensures status && w1.written == size && After(t1, t2, true, body)
  {
  }

  /** `pb_get_encoded_size` */
  method GetEncodedSize(fields: Fields, m: Struct) returns (ok: bool, size: nat)
    requires WellFormed(fields) && Typed(fields, m)
    ensures ok == EncMessage(fields, m).Out?
    ensures ok ==> size == |EncMessage(fields, m).bytes|
  {
    var stream := new OStream.Sizing();
    ok := EncodeMessage(stream, fields, m);
    size := stream.bytesWritten;
  }
}
