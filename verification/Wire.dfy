/** Scalar wire formats: base-128 varints, zigzag and little-endian fixed-width fields. */
module Wire {
  import opened Bits

  type byte = x: int | 0 <= x < 256
  type Bytes = seq<byte>

  const TWO32: nat := 0x1_0000_0000
  const TWO64: nat := 0x1_0000_0000_0000_0000

  /** The outcome of reading from the front of a byte string. */
  datatype Read<+T> = Got(value: T, rest: Bytes) | Bad

  // ---------------------------------------------------------------- varints

  function EncVarint(v: nat): Bytes {
    if v < 128 then [v] else [v % 128 + 128] + EncVarint(v / 128)
  }

  function ReadVarint64(bs: Bytes): (r: Read<nat>)
    ensures r.Got? ==> |r.rest| < |bs|
  {
    Varint64From(bs, 0, 0)
  }

  /** The 64-bit decoding loop, entered with `acc` read so far and the next byte shifted by `bitpos`. */
  function Varint64From(bs: Bytes, bitpos: nat, acc: nat): (r: Read<nat>)
    ensures r.Got? ==> |r.rest| < |bs|
  {
    if bitpos >= 64 || bs == [] then Bad
    else
      var acc' := Or(acc, Shl(bs[0] % 128, bitpos, TWO64));
      if bs[0] < 128 then Got(acc', bs[1..]) else Varint64From(bs[1..], bitpos + 7, acc')
  }

  function ReadVarint32(bs: Bytes): (r: Read<nat>)
    ensures r.Got? ==> |r.rest| < |bs|
  {
    if bs == [] then Bad
    else if bs[0] < 128 then Got(bs[0], bs[1..])
    else Varint32From(bs[1..], 7, bs[0] % 128)
  }

  /** The 32-bit decoding loop; `bitpos` is an 8-bit counter and wraps. */
  function Varint32From(bs: Bytes, bitpos: nat, acc: nat): (r: Read<nat>)
    ensures r.Got? ==> |r.rest| < |bs|
  {
    if bs == [] || (bitpos >= 32 && !SignByte(bs[0], bitpos, acc)) then Bad
    else
      var acc' := if bitpos >= 32 then acc else Or(acc, Shl(bs[0] % 128, bitpos, TWO32));
      var bitpos' := (bitpos + 7) % 256;
      if bs[0] >= 128 then Varint32From(bs[1..], bitpos', acc')
      else if bitpos' == 35 && (bs[0] / 16) % 8 != 0 then Bad
      else Got(acc', bs[1..])
  }

  /** Bytes beyond bit 32 may only be padding or the sign extension of a negative value. */
  predicate SignByte(b: byte, bitpos: nat, acc: nat) {
    b % 128 == 0 || (acc / 0x8000_0000 != 0 && b == if bitpos < 63 then 0xFF else 0x01)
  }

  /** A successful read drops at least one byte and does not depend on what follows. */
  lemma {:induction false} Varint64Local(bs: Bytes, bitpos: nat, acc: nat, more: Bytes)
    requires Varint64From(bs, bitpos, acc).Got?
    ensures var r := Varint64From(bs, bitpos, acc);
      && bs == bs[..|bs| - |r.rest|] + r.rest
      && Varint64From(bs + more, bitpos, acc) == Got(r.value, r.rest + more)
  {
    assert (bs + more)[1..] == bs[1..] + more;
    if bs[0] >= 128 {
      Varint64Local(bs[1..], bitpos + 7, Or(acc, Shl(bs[0] % 128, bitpos, TWO64)), more);
    }
  }

  lemma {:induction false} Varint32FromLocal(bs: Bytes, bitpos: nat, acc: nat, more: Bytes)
    requires Varint32From(bs, bitpos, acc).Got?
    ensures var r := Varint32From(bs, bitpos, acc);
      && bs == bs[..|bs| - |r.rest|] + r.rest
      && Varint32From(bs + more, bitpos, acc) == Got(r.value, r.rest + more)
  {
    assert (bs + more)[1..] == bs[1..] + more;
    if bs[0] >= 128 {
      var acc' := if bitpos >= 32 then acc else Or(acc, Shl(bs[0] % 128, bitpos, TWO32));
      Varint32FromLocal(bs[1..], (bitpos + 7) % 256, acc', more);
    }
  }

  lemma Varint32Local(bs: Bytes, more: Bytes)
    requires ReadVarint32(bs).Got?
    ensures var r := ReadVarint32(bs);
      && bs == bs[..|bs| - |r.rest|] + r.rest
      && ReadVarint32(bs + more) == Got(r.value, r.rest + more)
  {
    assert (bs + more)[1..] == bs[1..] + more;
    if bs[0] >= 128 {
      Varint32FromLocal(bs[1..], 7, bs[0] % 128, more);
    }
  }

  /** What one loop step adds: the group `b`, as far as it fits the word. */
  lemma GroupValue(acc: nat, b: nat, k: nat, width: nat)
    requires k <= width && acc < Pow2(k) && b < 128
    ensures Or(acc, Shl(b, k, Pow2(width))) == acc + (b % Pow2(width - k)) * Pow2(k)
    ensures Or(acc, Shl(b, k, Pow2(width))) < Pow2(k + 7)
  {
    hide *;
    var c, p := b % Pow2(width - k), Pow2(k);
    ShlValue(b, k, width);
    OrDisjoint(acc, c, k);
    Pow2Plus7(k);
    assert c <= b by { ModAtMost(b, Pow2(width - k)); }
    MulMono(c, 127, p);
  }

  lemma ModAtMost(x: nat, m: nat)
    requires m > 0
    ensures 0 <= x % m <= x
  {
  }

  /** A group that fits is added whole. */
  lemma WholeGroup(acc: nat, b: nat, k: nat, width: nat)
    requires k <= width && acc < Pow2(k) && b < 128 && b < Pow2(width - k)
    ensures Or(acc, Shl(b, k, Pow2(width))) == acc + b * Pow2(k) < Pow2(k + 7)
  {
    hide *;
    GroupValue(acc, b, k, width);
    SmallMod(b, Pow2(width - k));
  }

  lemma SplitGroups(v: nat, k: nat)
    ensures (v % 128) * Pow2(k) + (v / 128) * Pow2(k + 7) == v * Pow2(k)
  {
    hide *;
    Pow2Plus7(k);
    Distribute(v / 128, 128, v % 128, Pow2(k));
  }

  /** The remaining groups fit the remaining bits, with at least one whole group left. */
  lemma GroupsLeft(v: nat, n: nat)
    requires 128 <= v < Pow2(n)
    ensures n > 7 && v / 128 < Pow2(n - 7)
  {
    if n <= 7 {
      Pow2Monotonic(n, 7);
      assert false;
    }
    Pow2Plus7(n - 7);
  }

  /** The first byte of a varint and the groups after it. */
  lemma FirstGroup(v: nat, rest: Bytes)
    ensures EncVarint(v) + rest ==
      if v < 128 then [v] + rest else [v % 128 + 128] + (EncVarint(v / 128) + rest)
  {
  }

  lemma Varint64Byte(b: byte, rest: Bytes, k: nat, acc: nat)
    requires k < 64
    ensures var acc' := Or(acc, Shl(b % 128, k, TWO64));
      Varint64From([b] + rest, k, acc) == if b < 128 then Got(acc', rest) else Varint64From(rest, k + 7, acc')
  {
    assert ([b] + rest)[1..] == rest;
  }

  /** The last group of a varint. */
  lemma Varint64Last(v: nat, k: nat, acc: nat, rest: Bytes)
    requires k < 64 && acc < Pow2(k) && v < 128 && v < Pow2(64 - k)
    ensures Varint64From(EncVarint(v) + rest, k, acc) == Got(acc + v * Pow2(k), rest)
  {
    hide Pow2, Or, Shl, EncVarint, Varint64From;
    Pow2Values();
    WholeGroup(acc, v, k, 64);
    FirstGroup(v, rest);
    Varint64Byte(v, rest, k, acc);
  }

  /** Any other group. */
  lemma Varint64Step(v: nat, k: nat, acc: nat, rest: Bytes)
    requires k < 57 && acc < Pow2(k) && v >= 128
    ensures acc + (v % 128) * Pow2(k) < Pow2(k + 7)
    ensures Varint64From(EncVarint(v) + rest, k, acc) ==
      Varint64From(EncVarint(v / 128) + rest, k + 7, acc + (v % 128) * Pow2(k))
  {
    hide Pow2, Or, Shl, EncVarint, Varint64From;
    var b := v % 128;
    Pow2Values();
    Pow2Monotonic(7, 64 - k);
    WholeGroup(acc, b, k, 64);
    FirstGroup(v, rest);
    Varint64Byte(b + 128, EncVarint(v / 128) + rest, k, acc);
  }

  /** The decoding loop inverts the encoder, from any intermediate position. */
  lemma {:induction false} Varint64Inverts(v: nat, k: nat, acc: nat, rest: Bytes)
    requires k < 64 && acc < Pow2(k) && v < Pow2(64 - k)
    ensures Varint64From(EncVarint(v) + rest, k, acc) == Got(acc + v * Pow2(k), rest)
    decreases v
  {
    hide Pow2, EncVarint, Varint64From;
    if v < 128 {
      Varint64Last(v, k, acc, rest);
    } else {
      GroupsLeft(v, 64 - k);
      Varint64Step(v, k, acc, rest);
      Varint64Inverts(v / 128, k + 7, acc + (v % 128) * Pow2(k), rest);
      SplitGroups(v, k);
    }
  }

  lemma VarintRoundTrip64(v: nat, rest: Bytes)
    requires v < TWO64
    ensures ReadVarint64(EncVarint(v) + rest) == Got(v, rest)
  {
    Pow2Values();
    Varint64Inverts(v, 0, 0, rest);
  }

  lemma {:induction false} EncVarintLength(v: nat, n: nat)
    requires n >= 1
    ensures |EncVarint(v)| <= n <==> v < Pow2(7 * n)
    decreases n
  {
    Pow2Values();
    if n == 1 {
    } else {
      Pow2Add(7, 7 * (n - 1));
      if v < 128 {
        Pow2Monotonic(7, 7 * n);
      } else {
        EncVarintLength(v / 128, n - 1);
      }
    }
  }

  lemma {:induction false} Varint64Bound(bs: Bytes, k: nat, acc: nat)
    requires acc < Pow2(k) && Varint64From(bs, k, acc).Got?
    ensures var r := Varint64From(bs, k, acc);
      r.value < Pow2(k + 7 * (|bs| - |r.rest|))
  {
    hide Pow2, Or, Shl;
    Pow2Values();
    GroupValue(acc, bs[0] % 128, k, 64);
    if bs[0] >= 128 {
      Varint64Bound(bs[1..], k + 7, Or(acc, Shl(bs[0] % 128, k, TWO64)));
      var n := |bs[1..]| - |Varint64From(bs, k, acc).rest|;
      assert k + 7 + 7 * n == k + 7 * (n + 1);
    } else {
      assert |bs| - |bs[1..]| == 1;
    }
  }

  /** The encoder's output is the shortest byte string the decoder reads as that value, at most 10 bytes. */
  lemma EncVarintShortest(v: nat, bs: Bytes)
    requires v < TWO64
    ensures |EncVarint(v)| <= 10
    ensures ReadVarint64(bs).Got? && ReadVarint64(bs).value == v ==>
      |EncVarint(v)| <= |bs| - |ReadVarint64(bs).rest|
  {
    hide Pow2, EncVarint, Varint64From;
    Pow2Values();
    Pow2Zero();
    Pow2Monotonic(64, 70);
    EncVarintLength(v, 10);
    if ReadVarint64(bs).Got? && ReadVarint64(bs).value == v {
      Varint64Bound(bs, 0, 0);
      EncVarintLength(v, |bs| - |ReadVarint64(bs).rest|);
    }
  }

  /** One byte of the 32-bit loop, before the sign bytes. */
  lemma Varint32Byte(b: byte, rest: Bytes, k: nat, acc: nat)
    requires k < 32
    ensures var acc' := Or(acc, Shl(b % 128, k, TWO32));
      Varint32From([b] + rest, k, acc) ==
        if b >= 128 then Varint32From(rest, k + 7, acc')
        else if k == 28 && (b / 16) % 8 != 0 then Bad
        else Got(acc', rest)
  {
    hide Or, Shl, SignByte;
    assert ([b] + rest)[1..] == rest;
  }

  /** One continuation byte of the 32-bit loop below bit 28. */
  lemma Varint32Step(v: nat, k: nat, acc: nat, rest: Bytes)
    requires k <= 21 && acc < Pow2(k) && v >= 128
    ensures acc + (v % 128) * Pow2(k) < Pow2(k + 7)
    ensures Varint32From(EncVarint(v) + rest, k, acc) ==
      Varint32From(EncVarint(v / 128) + rest, k + 7, acc + (v % 128) * Pow2(k))
  {
    hide Pow2, Or, Shl, EncVarint, Varint32From;
    var b := v % 128;
    Pow2Values();
    Pow2Monotonic(7, 32 - k);
    WholeGroup(acc, b, k, 32);
    FirstGroup(v, rest);
    Varint32Byte(b + 128, EncVarint(v / 128) + rest, k, acc);
  }

  lemma Varint32Last(v: nat, k: nat, acc: nat, rest: Bytes)
    requires k == 7 || k == 14 || k == 21 || k == 28
    requires acc < Pow2(k) && v < Pow2(32 - k) && v < 128
    ensures Varint32From(EncVarint(v) + rest, k, acc) == Got(acc + v * Pow2(k), rest)
  {
    hide Pow2, Or, Shl, EncVarint, Varint32From;
    Pow2Values();
    WholeGroup(acc, v, k, 32);
    FirstGroup(v, rest);
    Varint32Byte(v, rest, k, acc);
  }

  lemma {:induction false} Varint32FromInverts(v: nat, k: nat, acc: nat, rest: Bytes)
    requires k == 7 || k == 14 || k == 21 || k == 28
    requires acc < Pow2(k) && v < Pow2(32 - k)
    ensures Varint32From(EncVarint(v) + rest, k, acc) == Got(acc + v * Pow2(k), rest)
    decreases v
  {
    hide Pow2, EncVarint, Varint32From;
    if v < 128 {
      Varint32Last(v, k, acc, rest);
    } else {
      GroupsLeft(v, 32 - k);
      Varint32Step(v, k, acc, rest);
      Varint32FromInverts(v / 128, k + 7, acc + (v % 128) * Pow2(k), rest);
      SplitGroups(v, k);
    }
  }

  lemma VarintRoundTrip32(v: nat, rest: Bytes)
    requires v < TWO32
    ensures ReadVarint32(EncVarint(v) + rest) == Got(v, rest)
  {
    hide Pow2, Varint32From;
    if v < 128 {
      assert EncVarint(v) + rest == [v] + rest;
    } else {
      var b := v % 128;
      assert EncVarint(v) + rest == [b + 128] + (EncVarint(v / 128) + rest);
      Pow2Values();
      GroupsLeft(v, 32);
      Varint32FromInverts(v / 128, 7, b, rest);
    }
  }

  /** The sign bytes after bit 35 of a negative 32-bit value: four times 0xFF, then 0x01. */
  lemma SignTail(acc: nat, rest: Bytes)
    requires acc / 0x8000_0000 != 0
    ensures Varint32From(EncVarint(0x1FFF_FFFF) + rest, 35, acc) == Got(acc, rest)
  {
    hide Varint32From, EncVarint;
    SignBytes();
    SignTailEnd(rest, acc);
    SignTailStep([0x01] + rest, 56, acc);
    SignTailStep([0xFF] + ([0x01] + rest), 49, acc);
    SignTailStep([0xFF] + ([0xFF] + ([0x01] + rest)), 42, acc);
    SignTailStep([0xFF] + ([0xFF] + ([0xFF] + ([0x01] + rest))), 35, acc);
    assert EncVarint(0x1FFF_FFFF) + rest == [0xFF] + ([0xFF] + ([0xFF] + ([0xFF] + ([0x01] + rest))));
  }

  lemma SignBytes()
    ensures EncVarint(0x1FFF_FFFF) == [0xFF, 0xFF, 0xFF, 0xFF, 0x01]
  {
    assert EncVarint(0xFF) == [0xFF, 0x01] by { assert EncVarint(1) == [1]; }
    assert EncVarint(0x7FFF) == [0xFF] + EncVarint(0xFF);
    assert EncVarint(0x3F_FFFF) == [0xFF] + EncVarint(0x7FFF);
    assert EncVarint(0x1FFF_FFFF) == [0xFF] + EncVarint(0x3F_FFFF);
  }

  lemma SignTailEnd(rest: Bytes, acc: nat)
    requires acc / 0x8000_0000 != 0
    ensures Varint32From([0x01] + rest, 63, acc) == Got(acc, rest)
  {
    assert ([0x01] + rest)[1..] == rest;
  }

  lemma SignTailStep(bs: Bytes, k: nat, acc: nat)
    requires 32 <= k < 63 && acc / 0x8000_0000 != 0
    ensures Varint32From([0xFF] + bs, k, acc) == Varint32From(bs, k + 7, acc)
  {
    assert ([0xFF] + bs)[1..] == bs;
  }

  /** The four low groups of a word, then the group that straddles bit 32. */
  lemma Varint32LowGroups(v: nat, rest: Bytes)
    requires v >= 0x1000_0000
    ensures ReadVarint32(EncVarint(v) + rest) ==
      Varint32From(EncVarint(v / 0x1000_0000) + rest, 28, v % 0x1000_0000)
  {
    hide Pow2, Varint32From;
    assert Pow2(7) == 0x80 && Pow2(14) == 0x4000 && Pow2(21) == 0x20_0000 by {
      Pow2Values();
      Pow2Plus7(7);
      Pow2Plus7(14);
    }
    var v1 := v / 128;
    var v2 := v / 0x4000;
    var v3 := v / 0x20_0000;
    assert v1 / 128 == v2 && v2 / 128 == v3 && v3 / 128 == v / 0x1000_0000;
    assert EncVarint(v) + rest == [v % 128 + 128] + (EncVarint(v1) + rest);
    Varint32Step(v1, 7, v % 128, rest);
    assert v % 128 + (v1 % 128) * 0x80 == v % 0x4000;
    Varint32Step(v2, 14, v % 0x4000, rest);
    assert v % 0x4000 + (v2 % 128) * 0x4000 == v % 0x20_0000;
    Varint32Step(v3, 21, v % 0x20_0000, rest);
    assert v % 0x20_0000 + (v3 % 128) * 0x20_0000 == v % 0x1000_0000;
  }

  /** A negative 32-bit value is sent as its 64-bit sign extension; the 32-bit reader returns its low word. */
  lemma VarintNegative32(low: nat, rest: Bytes)
    requires 0x8000_0000 <= low < TWO32
    ensures ReadVarint32(EncVarint(low + TWO32 * (TWO32 - 1)) + rest) == Got(low, rest)
  {
    hide Pow2, Or, Shl;
    Pow2Values();
    var v := low + TWO32 * (TWO32 - 1);
    Varint32LowGroups(v, rest);
    var v4, a4 := v / 0x1000_0000, v % 0x1000_0000;
    var high := low / 0x1000_0000;
    assert v4 == high + 16 * (TWO32 - 1);
    var b := v4 % 128;
    assert b == 112 + high && v4 / 128 == 0x1FFF_FFFF;
    GroupValue(a4, b, 28, 32);
    assert b % 16 == high && a4 + high * 0x1000_0000 == low;
    assert EncVarint(v4) + rest == [b + 128] + (EncVarint(0x1FFF_FFFF) + rest);
    SignTail(low, rest);
  }

  lemma LowWordCore(a: nat, q: nat, r: nat, m: nat, p: nat)
    requires m * p == TWO32 && r < m && a < p
    ensures (a + (q * m + r) * p) % TWO32 == a + r * p
  {
    Distribute(q, m, r, p);
    MulMono(r + 1, m, p);
    Distribute(1, r, 1, p);
    DivModUnique(a + (q * m + r) * p, TWO32, q, a + r * p);
  }

  /** Below bit 32 the 32-bit loop keeps what a 64-bit accumulator has modulo 2^32. */
  lemma LowWord(a: nat, b: nat, k: nat)
    requires k <= 28 && a < Pow2(k) && b < 128
    ensures a + (b % Pow2(32 - k)) * Pow2(k) == (a + b * Pow2(k)) % TWO32
  {
    hide Pow2;
    var m := Pow2(32 - k);
    Pow2Values();
    Pow2Add(32 - k, k);
    LowWordCore(a, b / m, b % m, m, Pow2(k));
    assert (b / m) * m + b % m == b;
  }

  lemma HighWordCore(a: nat, c: nat, p: nat)
    ensures (a + c * (p * TWO32)) % TWO32 == a % TWO32
  {
    Reassociate(c, p, TWO32);
    DivModUnique(a + (c * p) * TWO32, TWO32, a / TWO32 + c * p, a % TWO32);
  }

  lemma Reassociate(a: int, b: int, c: int)
    ensures a * (b * c) == (a * b) * c
  {
  }

  /** From bit 32 on nothing reaches the low word. */
  lemma HighWord(a: nat, c: nat, k: nat)
    requires k >= 32
    ensures (a + c * Pow2(k)) % TWO32 == a % TWO32
  {
    hide Pow2;
    Pow2Values();
    Pow2Add(k - 32, 32);
    HighWordCore(a, c, Pow2(k - 32));
  }

  /** One step of both loops keeps the accumulators equal modulo 2^32. */
  lemma StepsAgree(b: nat, k: nat, a64: nat)
    requires k <= 63 && k % 7 == 0 && a64 < Pow2(k) && b < 128
    ensures var a64' := Or(a64, Shl(b, k, TWO64));
      var a32 := a64 % TWO32;
      && a64' < Pow2(k + 7)
      && a64' % TWO32 == if k >= 32 then a32 else Or(a32, Shl(b, k, TWO32))
  {
    hide Pow2, Or, Shl;
    Pow2Values();
    GroupValue(a64, b, k, 64);
    if k >= 32 {
      HighWord(a64, b % Pow2(64 - k), k);
    } else {
      LowStepsAgree(b, k, a64);
    }
  }

  lemma LowStepsAgree(b: nat, k: nat, a64: nat)
    requires k <= 28 && a64 < Pow2(k) && b < 128
    ensures Or(a64, Shl(b, k, TWO64)) % TWO32 == Or(a64 % TWO32, Shl(b, k, TWO32))
  {
    hide Pow2, Or, Shl;
    Pow2Values();
    assert a64 < TWO32 && 128 <= Pow2(64 - k) by {
      Pow2Monotonic(k, 28);
      Pow2Monotonic(7, 64 - k);
    }
    SmallMod(a64, TWO32);
    WholeGroup(a64, b, k, 64);
    LowWord(a64, b, k);
    GroupValue(a64, b, k, 32);
  }

  lemma {:induction false} LoopsAgree(bs: Bytes, k: nat, a64: nat)
    requires k % 7 == 0 && a64 < Pow2(k)
    requires Varint32From(bs, k, a64 % TWO32).Got? && Varint64From(bs, k, a64).Got?
    ensures Varint32From(bs, k, a64 % TWO32).rest == Varint64From(bs, k, a64).rest
    ensures Varint32From(bs, k, a64 % TWO32).value == Varint64From(bs, k, a64).value % TWO32
    decreases |bs|
  {
    hide Pow2, Or, Shl, SignByte;
    StepsAgree(bs[0] % 128, k, a64);
    if bs[0] >= 128 {
      LoopsAgree(bs[1..], k + 7, Or(a64, Shl(bs[0] % 128, k, TWO64)));
    }
  }

  /** Both decoders read the same value modulo 2^32 wherever both accept. */
  lemma VarintReadersAgree(bs: Bytes)
    requires ReadVarint32(bs).Got? && ReadVarint64(bs).Got?
    ensures ReadVarint32(bs).rest == ReadVarint64(bs).rest
    ensures ReadVarint32(bs).value == ReadVarint64(bs).value % TWO32
  {
    hide Or, Shl, Pow2;
    var b := bs[0] % 128;
    Pow2Values();
    Pow2Zero();
    WholeGroup(0, b, 0, 64);
    if bs[0] >= 128 {
      LoopsAgree(bs[1..], 7, b);
    }
  }

  // ---------------------------------------------------------------- signed words and zigzag

  /** Half the number of values of an integer of `d` bytes. */
  function Half(d: nat): (h: nat)
    ensures h > 0
  {
    if d == 1 then 0x80 else if d == 2 then 0x8000
    else if d == 4 then 0x8000_0000 else 0x8000_0000_0000_0000
  }

  /** The two's complement reading of the low `d` bytes. */
  function Signed(u: int, d: nat): int {
    var w := u % (2 * Half(d));
    if w < Half(d) then w else w - 2 * Half(d)
  }

  function Unsigned64(n: int): nat {
    n % TWO64
  }

  /** `~((uint64)n << 1)` for negative values, `(uint64)n << 1` otherwise. */
  function ZigZag(n: int): nat {
    var twice := Shl(Unsigned64(n), 1, TWO64);
    if n < 0 then (TWO64 - 1 - twice) % TWO64 else twice
  }

  function UnZigZag(v: nat): int {
    if v % 2 == 1 then Signed((TWO64 - 1 - v / 2) % TWO64, 8) else Signed(v / 2, 8)
  }

  /** `n` is a signed integer of `d` bytes. */
  predicate FitsInt(n: int, d: nat) {
    -(Half(d) as int) <= n < Half(d)
  }

  /** Narrowing a 64-bit word to `w`, one of the smaller powers of two, keeps what fits. */
  lemma NarrowedWord(n: int, w: nat, q: nat)
    requires q > 0 && q * w == TWO64 && 0 <= 2 * n + w < 2 * w
    ensures Unsigned64(n) % w == n % w == if n < 0 then n + w else n
  {
    if n < 0 {
      DivModUnique(n + TWO64, TWO64, 0, n + TWO64);
      assert (q - 1) * w == q * w - w;
      DivModUnique(n + TWO64, w, q - 1, n + w);
      DivModUnique(n, w, -1, n + w);
    } else {
      SmallMod(n, w);
      SmallMod(n, TWO64);
    }
  }

  lemma SignedUnsigned(n: int, d: nat)
    requires FitsInt(n, d) && (d == 1 || d == 2 || d == 4 || d == 8)
    ensures Unsigned64(n) < TWO64 && Signed(Unsigned64(n), d) == n
    ensures Signed(n, d) == n
  {
    hide Unsigned64;
    if d == 1 {
      NarrowedWord(n, 0x100, 0x100_0000_0000_0000);
    } else if d == 2 {
      NarrowedWord(n, 0x1_0000, 0x1_0000_0000_0000);
    } else if d == 4 {
      NarrowedWord(n, TWO32, TWO32);
    } else {
      NarrowedWord(n, TWO64, 1);
    }
    assert Unsigned64(n) < TWO64 by { UnsignedSmall(n); }
  }

  lemma UnsignedSmall(n: int)
    ensures Unsigned64(n) < TWO64
  {
  }

  lemma ZigZagValue(n: int)
    requires FitsInt(n, 8)
    ensures ZigZag(n) == if n < 0 then -2 * n - 1 else 2 * n
  {
    hide Pow2;
    Pow2Zero();
    var u := Unsigned64(n);
    assert Shl(u, 1, TWO64) == (u * 2) % TWO64;
    assert Shl(u, 1, TWO64) == if n < 0 then 2 * n + TWO64 else 2 * n;
  }

  lemma ZigZagRoundTrip(n: int)
    requires FitsInt(n, 8)
    ensures ZigZag(n) < TWO64 && UnZigZag(ZigZag(n)) == n
  {
    hide ZigZag;
    ZigZagValue(n);
  }

  // ---------------------------------------------------------------- fixed width

  function FixedBytes(v: nat, n: nat): (bs: Bytes)
    ensures |bs| == n
  {
    if n == 0 then [] else [v % 256] + FixedBytes(v / 256, n - 1)
  }

  function FixedValue(bs: Bytes): nat {
    if bs == [] then 0 else bs[0] + 256 * FixedValue(bs[1..])
  }

  function ReadFixed(bs: Bytes, n: nat): Read<nat> {
    if |bs| < n then Bad else Got(FixedValue(bs[..n]), bs[n..])
  }

  lemma {:induction false} FixedInverts(v: nat, n: nat)
    requires v < Pow2(8 * n)
    ensures FixedValue(FixedBytes(v, n)) == v
  {
    hide Pow2;
    Pow2Zero();
    if n > 0 {
      Pow2Add(8, 8 * (n - 1));
      Pow2Values();
      FixedInverts(v / 256, n - 1);
      assert FixedBytes(v, n)[1..] == FixedBytes(v / 256, n - 1);
    }
  }

  lemma FixedRoundTrip(v: nat, n: nat, rest: Bytes)
    requires v < Pow2(8 * n)
    ensures ReadFixed(FixedBytes(v, n) + rest, n) == Got(v, rest)
  {
    FixedInverts(v, n);
    assert (FixedBytes(v, n) + rest)[..n] == FixedBytes(v, n);
    assert (FixedBytes(v, n) + rest)[n..] == rest;
  }

  lemma FixedLocal(bs: Bytes, n: nat, more: Bytes)
    requires ReadFixed(bs, n).Got?
    ensures ReadFixed(bs + more, n) == Got(ReadFixed(bs, n).value, ReadFixed(bs, n).rest + more)
  {
    assert (bs + more)[..n] == bs[..n];
    assert (bs + more)[n..] == bs[n..] + more;
  }
}
