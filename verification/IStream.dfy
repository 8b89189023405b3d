/** Input streams over a buffer, `pb_istream_t`, and the scalar readers of `pb_decode.c`. */
module InputStream {
  import opened Bits
  import opened Wire
  import opened EncodeSpec
  import opened DecodeSpec

  class IStream {
    const buf: Bytes
    var state: nat
    var bytesLeft: nat

    ghost predicate Valid()
      reads this
    {
      state + bytesLeft <= |buf|
    }

    /** The unread input. */
    ghost function Rest(): Bytes
      reads this
      requires Valid()
    {
      buf[state..state + bytesLeft]
    }

    function End(): nat
      reads this
    {
      state + bytesLeft
    }

    /** `pb_istream_from_buffer`, and substreams of a limited length. */
    constructor (buf: Bytes, state: nat, bytesLeft: nat)
      requires state + bytesLeft <= |buf|
      ensures Valid() && this.buf == buf && this.state == state && this.bytesLeft == bytesLeft
    {
      this.buf, this.state, this.bytesLeft := buf, state, bytesLeft;
    }

    method Read(count: nat) returns (ok: bool, bs: Bytes)
      requires Valid()
      modifies this
      ensures Valid() && End() == old(End())
      ensures ok == (count <= |old(Rest())|)
      ensures ok ==> bs == old(Rest())[..count] && Rest() == old(Rest())[count..]
    {
      if bytesLeft < count {
        return false, [];
      }
      bs := buf[state..state + count];
      state := state + count;
      bytesLeft := bytesLeft - count;
      return true, bs;
    }

    method ReadByte() returns (ok: bool, b: byte)
      requires Valid()
      modifies this
      ensures Valid() && End() == old(End())
      ensures ok == (old(Rest()) != [])
      ensures ok ==> b == old(Rest())[0] && Rest() == old(Rest())[1..]
      ensures !ok ==> Rest() == old(Rest())
    {
      if bytesLeft == 0 {
        return false, 0;
      }
      b := buf[state];
      state := state + 1;
      bytesLeft := bytesLeft - 1;
      return true, b;
    }
  }

  /** `pb_decode_varint32_eof` */
  method DecodeVarint32Eof(stream: IStream) returns (ok: bool, dest: nat, eof: bool)
    requires stream.Valid()
    modifies stream
    ensures stream.Valid() && stream.End() == old(stream.End())
    ensures var r := ReadVarint32(old(stream.Rest()));
      ok == r.Got? && (ok ==> dest == r.value && stream.Rest() == r.rest)
    ensures eof == (old(stream.Rest()) == [])
    ensures eof ==> !ok && stream.Rest() == []
  {
    hide Or, Shl;
    ghost var input := stream.Rest();
    dest, eof := 0, false;
    var b;
    ok, b := stream.ReadByte();
    if !ok {
      eof := true;
      return;
    }
    if b < 0x80 {
      dest := b;
      return;
    }
    var bitpos: nat, result: nat, more := 7, b % 0x80, true;
    while more
      invariant stream.Valid() && stream.End() == old(stream.End()) && 0 <= bitpos < 256
      invariant b >= 0x80 <==> more
      invariant more ==> ReadVarint32(input) == Varint32From(stream.Rest(), bitpos, result)
      invariant !more && bitpos == 35 && (b / 16) % 8 != 0 ==> ReadVarint32(input) == Bad
      invariant !more && !(bitpos == 35 && (b / 16) % 8 != 0) ==> ReadVarint32(input) == Got(result, stream.Rest())
      decreases stream.bytesLeft, more
    {
      ok, b := stream.ReadByte();
      if !ok {
        return;
      }
      if bitpos >= 32 {
        var signExtension := if bitpos < 63 then 0xFF else 0x01;
        if b % 0x80 != 0 && (result / 0x8000_0000 == 0 || b != signExtension) {
          return false, 0, false;
        }
      } else {
        result := Or(result, Shl(b % 0x80, bitpos, TWO32));
      }
      bitpos := (bitpos + 7) % 256;
      more := b >= 0x80;
    }
    if bitpos == 35 && (b / 16) % 8 != 0 {
      return false, 0, false;
    }
    return true, result, false;
  }

  method DecodeVarint32(stream: IStream) returns (ok: bool, dest: nat)
    requires stream.Valid()
    modifies stream
    ensures stream.Valid() && stream.End() == old(stream.End())
    ensures var r := ReadVarint32(old(stream.Rest()));
      ok == r.Got? && (ok ==> dest == r.value && stream.Rest() == r.rest)
  {
    var eof;
    ok, dest, eof := DecodeVarint32Eof(stream);
  }

  /** `pb_decode_varint` */
  method DecodeVarint(stream: IStream) returns (ok: bool, dest: nat)
    requires stream.Valid()
    modifies stream
    ensures stream.Valid() && stream.End() == old(stream.End())
    ensures var r := ReadVarint64(old(stream.Rest()));
      ok == r.Got? && (ok ==> dest == r.value && stream.Rest() == r.rest)
  {
    hide Or, Shl;
    ghost var input := stream.Rest();
    var bitpos, result, more := 0, 0, true;
    dest := 0;
    while more
      invariant stream.Valid() && stream.End() == old(stream.End()) && 0 <= bitpos <= 70
      invariant more ==> ReadVarint64(input) == Varint64From(stream.Rest(), bitpos, result)
      invariant !more ==> ReadVarint64(input) == Got(result, stream.Rest())
      decreases stream.bytesLeft, more
    {
      if bitpos >= 64 {
        return false, 0;
      }
      var b;
      ok, b := stream.ReadByte();
      if !ok {
        return;
      }
      result := Or(result, Shl(b % 0x80, bitpos, TWO64));
      bitpos := bitpos + 7;
      more := b >= 0x80;
    }
    return true, result;
  }

  method DecodeFixed(stream: IStream, n: nat) returns (ok: bool, dest: nat)
    requires stream.Valid() && (n == 4 || n == 8)
    modifies stream
    ensures stream.Valid() && stream.End() == old(stream.End())
    ensures var r := ReadFixed(old(stream.Rest()), n);
      ok == r.Got? && (ok ==> dest == r.value && stream.Rest() == r.rest)
  {
    dest := 0;
    var bs;
    ok, bs := stream.Read(n);
    if !ok {
      return;
    }
    dest := Word(bs, 0);
    if n == 8 {
      dest := dest + Word(bs, 4) * TWO32;
      FixedHalves(bs);
    } else {
      FixedFour(bs);
    }
  }

  /** Four bytes of a buffer as a little-endian word. */
  function Word(bs: Bytes, i: nat): nat
    requires i + 4 <= |bs|
  {
    bs[i] as int + bs[i + 1] as int * 0x100 + bs[i + 2] as int * 0x1_0000 + bs[i + 3] as int * 0x100_0000
  }

  lemma FixedFour(bs: Bytes)
    requires |bs| >= 4
    ensures FixedValue(bs) == Word(bs, 0) + FixedValue(bs[4..]) * TWO32
  {
    assert FixedValue(bs[3..]) == bs[3] + 256 * FixedValue(bs[4..]) by { assert bs[3..][1..] == bs[4..]; }
    assert FixedValue(bs[2..]) == bs[2] + 256 * FixedValue(bs[3..]) by { assert bs[2..][1..] == bs[3..]; }
    assert FixedValue(bs[1..]) == bs[1] + 256 * FixedValue(bs[2..]) by { assert bs[1..][1..] == bs[2..]; }
  }

  lemma FixedHalves(bs: Bytes)
    requires |bs| == 8
    ensures FixedValue(bs) == Word(bs, 0) + Word(bs, 4) * TWO32
  {
    FixedFour(bs);
    FixedFour(bs[4..]);
    assert bs[4..][4..] == [];
  }

  // ---------------------------------------------------------------- skipping and substreams

  method SkipVarintBytes(stream: IStream) returns (ok: bool)
    requires stream.Valid()
    modifies stream
    ensures stream.Valid() && stream.End() == old(stream.End())
    ensures var r := SkipVarint(old(stream.Rest())); ok == r.Got? && (ok ==> stream.Rest() == r.rest)
  {
    var more := true;
    while more
      invariant stream.Valid() && stream.End() == old(stream.End())
      invariant SkipVarint(old(stream.Rest())) == (if more then SkipVarint(stream.Rest()) else Got((), stream.Rest()))
      decreases stream.bytesLeft, more
    {
      var bs;
      ok, bs := stream.Read(1);
      if !ok {
        return;
      }
      more := bs[0] >= 0x80;
    }
    return true;
  }

  /** `pb_skip_field` */
  method SkipField(stream: IStream, wt: nat) returns (ok: bool)
    requires stream.Valid()
    modifies stream
    ensures stream.Valid() && stream.End() == old(stream.End())
    ensures var r := Skip(wt, old(stream.Rest())); ok == r.Got? && (ok ==> stream.Rest() == r.rest)
  {
    var skipped;
    if wt == WT_VARINT {
      ok := SkipVarintBytes(stream);
    } else if wt == WT_64BIT {
      ok, skipped := stream.Read(8);
    } else if wt == WT_STRING {
      var n;
      ok, n := DecodeVarint32(stream);
      if ok {
        ok, skipped := stream.Read(n);
      }
    } else if wt == WT_32BIT {
      ok, skipped := stream.Read(4);
    } else {
      ok := false;
    }
  }

  /** `pb_decode_tag`; `eof` at the end of input and on a zero tag word. */
  method DecodeTag(stream: IStream) returns (ok: bool, tag: nat, wt: nat, eof: bool)
    requires stream.Valid()
    modifies stream
    ensures stream.Valid() && stream.End() == old(stream.End())
    ensures match ReadTag(old(stream.Rest()))
      case Tag(t, w, rest) => ok && tag == t && wt == w && stream.Rest() == rest
      case End(rest) => !ok && eof && stream.Rest() == rest
      case BadTag => !ok && !eof
  {
    tag, wt := 0, 0;
    var word;
    ok, word, eof := DecodeVarint32Eof(stream);
    if !ok {
      return;
    }
    if word == 0 {
      return false, 0, 0, true;
    }
    return true, word / 8, word % 8, false;
  }

  /** `read_raw_value` with a ten-byte buffer. */
  method ReadRawValue(stream: IStream, wt: nat) returns (ok: bool, bs: Bytes)
    requires stream.Valid()
    modifies stream
    ensures stream.Valid() && stream.End() == old(stream.End())
    ensures var r := ReadRaw(wt, old(stream.Rest()));
      ok == r.Got? && (ok ==> bs == r.value && stream.Rest() == r.rest)
  {
    if wt == WT_VARINT {
      ok, bs := ReadRawVarint(stream);
    } else if wt == WT_64BIT {
      ok, bs := stream.Read(8);
    } else if wt == WT_32BIT {
      ok, bs := stream.Read(4);
    } else {
      ok, bs := false, [];
    }
  }

  method ReadRawVarint(stream: IStream) returns (ok: bool, bs: Bytes)
    requires stream.Valid()
    modifies stream
    ensures stream.Valid() && stream.End() == old(stream.End())
    ensures var r := ReadRaw(WT_VARINT, old(stream.Rest()));
      ok == r.Got? && (ok ==> bs == r.value && stream.Rest() == r.rest)
  {
    ghost var input := stream.Rest();
    bs := [];
    var more := true;
    while more
      invariant stream.Valid() && stream.End() == old(stream.End())
      invariant |bs| <= 10 && input == bs + stream.Rest()
      invariant SkipVarint(input) == (if more then SkipVarint(stream.Rest()) else Got((), stream.Rest()))
      decreases stream.bytesLeft, more
    {
      if |bs| + 1 > 10 {
        return false, bs;
      }
      ghost var before := stream.Rest();
      var one;
      ok, one := stream.Read(1);
      if !ok {
        return;
      }
      assert before == [one[0]] + stream.Rest();
      assert bs + before == bs + [one[0]] + stream.Rest();
      bs := bs + [one[0]];
      more := one[0] >= 0x80;
    }
    assert input[..|bs|] == bs && input[|bs|..] == stream.Rest();
    return true, bs;
  }

  /** `pb_make_string_substream`: the parent keeps its position but gives up the substream's bytes. */
  method MakeSubstream(stream: IStream) returns (ok: bool, sub: IStream)
    requires stream.Valid()
    modifies stream
    ensures stream.Valid() && stream.End() <= old(stream.End())
    ensures fresh(sub) && sub.Valid() && sub.buf == stream.buf
    ensures ok == ReadString(old(stream.Rest())).Got?
    ensures ok ==> sub.Rest() == ReadString(old(stream.Rest())).value && sub.state == stream.state
    ensures ok ==> stream.bytesLeft + sub.End() == old(stream.End())
    ensures ok ==> stream.buf[sub.End()..old(stream.End())] == ReadString(old(stream.Rest())).rest
  {
    var size;
    ok, size := DecodeVarint32(stream);
    sub := new IStream(stream.buf, stream.state, stream.bytesLeft);
    if !ok {
      return;
    }
    if sub.bytesLeft < size {
      return false, sub;
    }
    sub.bytesLeft := size;
    stream.bytesLeft := stream.bytesLeft - size;
    ghost var rest := ReadVarint32(old(stream.Rest())).rest;
    assert rest[..size] == sub.Rest();
    assert rest[size..] == stream.buf[sub.End()..old(stream.End())];
  }

  /** `pb_close_string_substream`: skips what the substream left and moves the parent behind it. */
  method CloseSubstream(stream: IStream, sub: IStream)
    requires stream != sub && sub.Valid() && sub.buf == stream.buf && sub.End() + stream.bytesLeft <= |stream.buf|
    modifies stream, sub
    ensures stream.Valid() && stream.state == old(sub.End()) && stream.bytesLeft == old(stream.bytesLeft)
  {
    if sub.bytesLeft > 0 {
      var ok, skipped := sub.Read(sub.bytesLeft);
    }
    stream.state := sub.state;
  }
}
