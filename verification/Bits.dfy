/** Powers of two and the bitwise operations of fixed-width unsigned words, on natural numbers. */
module Bits {

  function Pow2(n: nat): (p: nat)
    ensures p >= 1
  {
    if n == 0 then 1 else 2 * Pow2(n - 1)
  }

  /** Bit `i` of the word `w`. */
  predicate Bit(w: nat, i: nat) {
    if i == 0 then w % 2 == 1 else Bit(w / 2, i - 1)
  }

  /** C's `a | b`. */
  function Or(a: nat, b: nat): nat
    decreases a + b
  {
    if a == 0 && b == 0 then 0
    else 2 * Or(a / 2, b / 2) + if a % 2 == 1 || b % 2 == 1 then 1 else 0
  }

  /** C's `b << k` in an unsigned word that counts modulo `word`. */
  function Shl(b: nat, k: nat, word: nat): nat
    requires word > 0
  {
    (b * Pow2(k)) % word
  }

  lemma {:induction false} OrBit(a: nat, b: nat, i: nat)
    ensures Bit(Or(a, b), i) <==> Bit(a, i) || Bit(b, i)
    decreases i
  {
    assert Or(a, b) / 2 == Or(a / 2, b / 2);
    if i > 0 {
      OrBit(a / 2, b / 2, i - 1);
    }
  }

  lemma {:induction false} OrZero(b: nat)
    ensures Or(0, b) == b
  {
    if b > 0 { OrZero(b / 2); }
  }

  lemma {:induction false} Pow2Add(m: nat, n: nat)
    ensures Pow2(m + n) == Pow2(m) * Pow2(n)
  {
    if m > 0 {
      Pow2Add(m - 1, n);
      assert Pow2(m + n) == 2 * Pow2(m - 1 + n);
      assert 2 * (Pow2(m - 1) * Pow2(n)) == (2 * Pow2(m - 1)) * Pow2(n);
    }
  }

  lemma {:induction false} Pow2Monotonic(m: nat, n: nat)
    requires m <= n
    ensures Pow2(m) <= Pow2(n)
  {
    if m < n { Pow2Monotonic(m, n - 1); }
  }

  lemma Pow2Values()
    ensures Pow2(7) == 0x80 && Pow2(8) == 0x100 && Pow2(31) == 0x8000_0000 && Pow2(32) == 0x1_0000_0000
    ensures Pow2(28) == 0x1000_0000 && Pow2(4) == 16
    ensures Pow2(35) == 0x8_0000_0000
    ensures Pow2(63) == 0x8000_0000_0000_0000 && Pow2(64) == 0x1_0000_0000_0000_0000
  {
    hide Pow2;
    Pow2Small();
    Pow2Add(8, 8);
    Pow2Add(16, 16);
    Pow2Add(7, 7);
    Pow2Add(14, 14);
    Pow2Add(28, 3);
    Pow2Add(28, 7);
    Pow2Add(32, 31);
    Pow2Add(32, 32);
  }

  lemma Pow2Small()
    ensures Pow2(3) == 8 && Pow2(4) == 16 && Pow2(7) == 0x80 && Pow2(8) == 0x100
  {
    assert Pow2(3) == 8;
    assert Pow2(4) == 16;
  }

  /** Quotient and remainder are the only way to split `x`. */
  lemma DivModUnique(x: int, d: int, q: int, r: int)
    requires 0 <= r < d && x == q * d + r
    ensures x / d == q && x % d == r
  {
    var t := q - x / d;
    Subtract(q, x / d, d);
    if t != 0 {
      MulFar(t, d);
      assert false;
    }
  }

  lemma Subtract(a: int, b: int, d: int)
    ensures (a - b) * d == a * d - b * d
  {
  }

  lemma MulFar(t: int, d: int)
    requires d > 0 && t != 0
    ensures t * d >= d || t * d <= -d
  {
  }

  lemma Distribute(q: int, m: int, r: int, p: int)
    ensures (q * m + r) * p == q * (m * p) + r * p
  {
  }

  lemma MulLess(r: int, m: int, p: int)
    requires 0 <= r < m && p >= 1
    ensures 0 <= r * p < m * p
  {
  }

  lemma ModScaled(b: nat, m: nat, p: nat)
    requires m >= 1 && p >= 1
    ensures m * p >= 1 && (b * p) % (m * p) == (b % m) * p
  {
    var q, r := b / m, b % m;
    Distribute(q, m, r, p);
    MulLess(r, m, p);
    DivModUnique(b * p, m * p, q, r * p);
  }

  /** A shift keeps the low bits of what it shifts. */
  lemma ShlValue(b: nat, k: nat, width: nat)
    requires k <= width
    ensures Shl(b, k, Pow2(width)) == (b % Pow2(width - k)) * Pow2(k)
  {
    hide Pow2;
    Pow2Add(width - k, k);
    ModScaled(b, Pow2(width - k), Pow2(k));
  }

  /** Or-ing into free high bits is addition. */
  lemma {:induction false} OrDisjoint(a: nat, b: nat, k: nat)
    requires a < Pow2(k)
    ensures Or(a, b * Pow2(k)) == a + b * Pow2(k)
    decreases k
  {
    if k == 0 {
      OrZero(b);
    } else {
      var c := b * Pow2(k - 1);
      assert Pow2(k) == 2 * Pow2(k - 1);
      assert b * Pow2(k) == 2 * c by { Distribute(b, 2, 0, Pow2(k - 1)); }
      hide Pow2;
      OrDisjoint(a / 2, b, k - 1);
      if a == 0 && c == 0 {
      } else {
        assert Or(a, 2 * c) == 2 * Or(a / 2, c) + a % 2;
      }
    }
  }

  lemma {:induction false} OrBound(a: nat, b: nat, n: nat)
    requires a < Pow2(n) && b < Pow2(n)
    ensures Or(a, b) < Pow2(n)
    decreases n
  {
    if n > 0 && (a != 0 || b != 0) { OrBound(a / 2, b / 2, n - 1); }
  }

  lemma Pow2Plus7(k: nat)
    ensures Pow2(k + 7) == 128 * Pow2(k)
  {
    assert Pow2(k + 7) == 2 * Pow2(k + 6);
    assert Pow2(k + 6) == 2 * Pow2(k + 5);
    assert Pow2(k + 5) == 2 * Pow2(k + 4);
    assert Pow2(k + 4) == 2 * Pow2(k + 3);
    assert Pow2(k + 3) == 2 * Pow2(k + 2);
    assert Pow2(k + 2) == 2 * Pow2(k + 1);
  }

  lemma MulMono(a: int, b: int, p: int)
    requires a <= b && p >= 0
    ensures a * p <= b * p
  {
  }

  /** Digits below a power of two stay below it. */
  lemma SmallMod(x: nat, m: nat)
    requires x < m
    ensures x % m == x
  {
  }

  lemma Pow2Zero()
    ensures Pow2(0) == 1 && Pow2(1) == 2
  {
    assert Pow2(1) == 2;
  }
}
