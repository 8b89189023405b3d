/** The bitmap of required fields that `pb_decode_noinit` keeps and checks. */
module RequiredBits {
  import opened Bits
  import opened Wire
  import opened Descriptors

  const ALL_BITS: nat := 0xFFFF_FFFF

  /** Two 32-bit words. */
  datatype Bitmap = Bitmap(lo: nat, hi: nat) {
    predicate Valid() {
      lo < TWO32 && hi < TWO32
    }

    function Word(i: nat): nat {
      if i == 0 then lo else hi
    }

    /** `fields_seen[j >> 5] |= 1 << (j & 31)` */
    function Set(j: nat): (r: Bitmap)
      requires Valid() && j < MAX_REQUIRED
      ensures r.Valid()
    {
      var mask := Shl(1, j % 32, TWO32);
      assert Or(lo, mask) < TWO32 && Or(hi, mask) < TWO32 by {
        Pow2Values();
        OrBound(lo, mask, 32);
        OrBound(hi, mask, 32);
      }
      if j / 32 == 0 then Bitmap(Or(lo, mask), hi) else Bitmap(lo, Or(hi, mask))
    }

    predicate Has(j: nat) {
      Bit(Word(j / 32), j % 32)
    }

    /** The final check for `count` required fields: whole words first, then the remaining bits. */
    predicate Full(count: nat)
      requires count <= MAX_REQUIRED
    {
      && (count / 32 > 0 ==> lo == ALL_BITS)
      && (count / 32 > 1 ==> hi == ALL_BITS)
      && (count % 32 != 0 ==> Word(count / 32) == ALL_BITS / Pow2(32 - count % 32))
    }
  }

  lemma {:induction false} BitOfPow2(k: nat, i: nat)
    ensures Bit(Pow2(k), i) <==> i == k
    decreases i
  {
    if i > 0 {
      if k > 0 {
        assert Pow2(k) / 2 == Pow2(k - 1);
        BitOfPow2(k - 1, i - 1);
      } else {
        ZeroBits(i - 1);
      }
    }
  }

  lemma {:induction false} ZeroBits(i: nat)
    ensures !Bit(0, i)
  {
    if i > 0 { ZeroBits(i - 1); }
  }

  lemma SetBit(b: Bitmap, j: nat, i: nat)
    requires b.Valid() && j < MAX_REQUIRED && i < MAX_REQUIRED
    ensures b.Set(j).Has(i) <==> b.Has(i) || i == j
  {
    hide Or, Bit;
    var mask := Shl(1, j % 32, TWO32);
    assert mask == Pow2(j % 32) by {
      Pow2Values();
      Pow2Monotonic(j % 32, 31);
    }
    BitOfPow2(j % 32, i % 32);
    OrBit(b.lo, mask, i % 32);
    OrBit(b.hi, mask, i % 32);
  }

  /** The low `r` of the `n` bits of `w` are set and the others clear. */
  predicate LowBits(w: nat, r: nat, n: nat) {
    forall i: nat | i < n :: Bit(w, i) <==> i < r
  }

  /** Only `2^r - 1` has exactly its low `r` bits set. */
  lemma {:induction false} LowOnes(w: nat, r: nat, n: nat)
    requires r <= n && w < Pow2(n)
    ensures w == Pow2(r) - 1 <==> LowBits(w, r, n)
    decreases n
  {
    if n > 0 {
      var r' := if r == 0 then 0 else r - 1;
      LowOnes(w / 2, r', n - 1);
      assert w == Pow2(r) - 1 <==> w / 2 == Pow2(r') - 1 && (w % 2 == 1 <==> 0 < r);
      LowBitsHalved(w, r, n);
    }
  }

  lemma LowBitsHalved(w: nat, r: nat, n: nat)
    requires r <= n && n > 0
    ensures LowBits(w, r, n) <==> LowBits(w / 2, if r == 0 then 0 else r - 1, n - 1) && (w % 2 == 1 <==> 0 < r)
  {
    var r' := if r == 0 then 0 else r - 1;
    if LowBits(w, r, n) {
      forall i: nat | i < n - 1 ensures Bit(w / 2, i) <==> i < r' {
        assert Bit(w, i + 1) == Bit(w / 2, i);
      }
      assert Bit(w, 0) <==> 0 < r;
    }
    if LowBits(w / 2, r', n - 1) && (w % 2 == 1 <==> 0 < r) {
      forall i: nat | i < n ensures Bit(w, i) <==> i < r {
        if i > 0 { assert Bit(w, i) == Bit(w / 2, i - 1); }
      }
    }
  }

  lemma AllBitsShifted(r: nat)
    requires r <= 32
    ensures ALL_BITS / Pow2(32 - r) == Pow2(r) - 1
  {
    hide Pow2;
    Pow2Values();
    Pow2Add(r, 32 - r);
    var p := Pow2(32 - r);
    Distribute(1, Pow2(r), -1, p);
    DivModUnique(ALL_BITS, p, Pow2(r) - 1, p - 1);
  }

  /** Every bit of `w` in a range is set, or every one is clear. */
  predicate OnesIn(w: nat, from: nat, to: nat) {
    forall i: nat | from <= i < to :: Bit(w, i)
  }

  predicate ZerosIn(w: nat, from: nat, to: nat) {
    forall i: nat | from <= i < to :: !Bit(w, i)
  }

  /** One word of the check: with no bit from `r` on set, it holds the low `r` ones iff all of those are set. */
  lemma WordFull(w: nat, r: nat)
    requires w < TWO32 && r <= 32 && ZerosIn(w, r, 32)
    ensures w == ALL_BITS / Pow2(32 - r) <==> OnesIn(w, 0, r)
  {
    hide Pow2, Bit;
    Pow2Values();
    AllBitsShifted(r);
    LowOnes(w, r, 32);
    assert LowBits(w, r, 32) ==> OnesIn(w, 0, r);
    assert OnesIn(w, 0, r) ==> LowBits(w, r, 32);
  }

  function Lows(count: nat): nat {
    if count < 32 then count else 32
  }

  function Highs(count: nat): nat {
    if count < 32 then 0 else count - 32
  }

  /** All bits below `count` are set, word by word. */
  lemma BitsByWord(b: Bitmap, count: nat)
    requires b.Valid() && count <= MAX_REQUIRED
    ensures (forall j: nat | j < count :: b.Has(j)) <==> OnesIn(b.lo, 0, Lows(count)) && OnesIn(b.hi, 0, Highs(count))
    ensures (forall j: nat | count <= j < MAX_REQUIRED :: !b.Has(j)) <==>
      ZerosIn(b.lo, Lows(count), 32) && ZerosIn(b.hi, Highs(count), 32)
  {
    hide Bit;
    forall i: nat | i < 32 ensures Bit(b.lo, i) == b.Has(i) {}
    forall i: nat | i < 32 ensures Bit(b.hi, i) == b.Has(32 + i) {}
    forall j: nat | j < 64 ensures b.Has(j) == if j < 32 then Bit(b.lo, j) else Bit(b.hi, j - 32) {}
  }

  /** Checking a word of which nothing is required is checking that it is zero, which it is. */
  lemma FullByWords(b: Bitmap, count: nat)
    requires b.Valid() && count <= MAX_REQUIRED
    requires ZerosIn(b.lo, Lows(count), 32) && ZerosIn(b.hi, Highs(count), 32)
    ensures b.Full(count) <==> b.lo == ALL_BITS / Pow2(32 - Lows(count)) && b.hi == ALL_BITS / Pow2(32 - Highs(count))
  {
    hide Bit, Pow2;
    Pow2Zero();
    if Lows(count) == 0 { WordFull(b.lo, 0); }
    if Highs(count) == 0 { WordFull(b.hi, 0); }
  }

  /** When no bit from `count` on is set, the check passes iff all bits below are. */
  lemma FullIffAllSet(b: Bitmap, count: nat)
    requires b.Valid() && count <= MAX_REQUIRED
    requires forall j: nat | count <= j < MAX_REQUIRED :: !b.Has(j)
    ensures b.Full(count) <==> forall j: nat | j < count :: b.Has(j)
  {
    hide Bit, Pow2;
    BitsByWord(b, count);
    FullByWords(b, count);
    WordFull(b.lo, Lows(count));
    WordFull(b.hi, Highs(count));
  }

  // ---------------------------------------------------------------- bits and fields

  /** Bit `j` says whether the `j`-th required field is among those seen. */
  ghost predicate Represents(b: Bitmap, fields: Fields, seen: set<nat>) {
    && b.Valid()
    && (forall i | i in seen :: i < |fields| && Tracked(fields, i))
    && (forall j: nat | j < MAX_REQUIRED ::
          b.Has(j) <==> exists i :: i in seen && RequiredBefore(fields, i) == j)
  }

  lemma NothingSeen(fields: Fields)
    ensures Represents(Bitmap(0, 0), fields, {})
  {
    forall j: nat | j < MAX_REQUIRED ensures !Bitmap(0, 0).Has(j) {
      ZeroBits(j % 32);
    }
  }

  /** What the decoder does on meeting field `i`. */
  function Meet(b: Bitmap, fields: Fields, i: nat): Bitmap
    requires b.Valid() && i < |fields|
  {
    if Tracked(fields, i) then b.Set(RequiredBefore(fields, i)) else b
  }

  lemma MeetMarks(b: Bitmap, fields: Fields, seen: set<nat>, i: nat)
    requires Represents(b, fields, seen) && i < |fields|
    ensures Represents(Meet(b, fields, i), fields, Mark(fields, i, seen))
  {
    if Tracked(fields, i) {
      var k := RequiredBefore(fields, i);
      var b', seen' := b.Set(k), seen + {i};
      forall j: nat | j < MAX_REQUIRED
        ensures b'.Has(j) <==> exists i :: i in seen' && RequiredBefore(fields, i) == j
      {
        SetBit(b, k, j);
        assert i in seen';
        if exists x :: x in seen && RequiredBefore(fields, x) == j {
          var x :| x in seen && RequiredBefore(fields, x) == j;
          assert x in seen';
        }
      }
    }
  }

  lemma {:induction false} RequiredBeforeGrows(fields: Fields, i: nat, j: nat)
    requires i <= j <= |fields|
    ensures RequiredBefore(fields, i) <= RequiredBefore(fields, j)
    ensures i < j && fields[i].htype.Required? ==> RequiredBefore(fields, i) < RequiredBefore(fields, j)
    decreases j
  {
    if i < j { RequiredBeforeGrows(fields, i, j - 1); }
  }

  /** The position of the `j`-th required field. */
  lemma {:induction false} RequiredField(fields: Fields, j: nat, n: nat) returns (i: nat)
    requires n <= |fields| && j < RequiredBefore(fields, n)
    ensures i < n && fields[i].htype.Required? && RequiredBefore(fields, i) == j
    decreases n
  {
    if j < RequiredBefore(fields, n - 1) {
      i := RequiredField(fields, j, n - 1);
    } else {
      i := n - 1;
    }
  }

  function Checked(fields: Fields): nat {
    var n := RequiredBefore(fields, |fields|);
    if n > MAX_REQUIRED then MAX_REQUIRED else n
  }

  /** The bitmap check passes iff each of the first 64 required fields was met. */
  lemma CheckIsSoundAndComplete(b: Bitmap, fields: Fields, seen: set<nat>)
    requires Represents(b, fields, seen)
    ensures b.Full(Checked(fields)) <==> AllSeen(fields, seen)
    ensures AllSeen(fields, seen) <==>
              forall i | 0 <= i < |fields| && fields[i].htype.Required? && RequiredBefore(fields, i) < 64 :: i in seen
  {
    var count := Checked(fields);
    forall j: nat | count <= j < MAX_REQUIRED ensures !b.Has(j) {
      if b.Has(j) {
        var i :| i in seen && RequiredBefore(fields, i) == j;
        RequiredBeforeGrows(fields, i, |fields|);
        assert false;
      }
    }
    FullIffAllSet(b, count);
    if forall j: nat | j < count :: b.Has(j) {
      forall i | 0 <= i < |fields| && Tracked(fields, i) ensures i in seen {
        var j := RequiredBefore(fields, i);
        RequiredBeforeGrows(fields, i, |fields|);
        assert b.Has(j);
        var x :| x in seen && RequiredBefore(fields, x) == j;
        SamePlace(fields, i, x);
      }
    }
    if AllSeen(fields, seen) {
      forall j: nat | j < count ensures b.Has(j) {
        var i := RequiredField(fields, j, |fields|);
        assert Tracked(fields, i);
      }
    }
  }

  lemma SamePlace(fields: Fields, i: nat, x: nat)
    requires i < |fields| && x < |fields| && fields[i].htype.Required? && fields[x].htype.Required?
    requires RequiredBefore(fields, i) == RequiredBefore(fields, x)
    ensures i == x
  {
    if i < x {
      RequiredBeforeGrows(fields, i, x);
    } else if x < i {
      RequiredBeforeGrows(fields, x, i);
    }
  }
}
