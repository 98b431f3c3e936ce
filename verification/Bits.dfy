/**
 Unsigned 64-bit words as natural numbers, with the C bit operators defined digit by digit.
 Every fact about masks and shifts is reduced to facts about single bits (`Bit`), and two
 words with the same bits are the same word (`SameBits`).
 */
module Bits {

  const WIDTH: nat := 64

  function Pow2(k: nat): (p: nat)
    ensures p > 0
  {
    if k == 0 then 1 else 2 * Pow2(k - 1)
  }

  /** Bit i of x. */
  predicate Bit(x: nat, i: nat) {
    if i == 0 then x % 2 == 1 else Bit(x / 2, i - 1)
  }

  function Digit(b: bool): nat { if b then 1 else 0 }

  /** Bitwise operators on the k lowest bits. */
  function AndK(x: nat, y: nat, k: nat): nat {
    if k == 0 then 0 else 2 * AndK(x / 2, y / 2, k - 1) + Digit(x % 2 == 1 && y % 2 == 1)
  }

  function OrK(x: nat, y: nat, k: nat): nat {
    if k == 0 then 0 else 2 * OrK(x / 2, y / 2, k - 1) + Digit(x % 2 == 1 || y % 2 == 1)
  }

  function NotK(x: nat, k: nat): nat {
    if k == 0 then 0 else 2 * NotK(x / 2, k - 1) + Digit(x % 2 == 0)
  }

  function ShlK(x: nat, s: nat, k: nat): nat {
    if s == 0 then x else 2 * ShlK(x, s - 1, k) % Pow2(k)
  }

  /** The C operators `&`, `|`, `~`, `<<` and `>>` on u64. */
  function And(x: nat, y: nat): nat { AndK(x, y, WIDTH) }
  function Or(x: nat, y: nat): nat { OrK(x, y, WIDTH) }
  function Not(x: nat): nat { NotK(x, WIDTH) }
  function Shl(x: nat, s: nat): nat { ShlK(x, s, WIDTH) }
  function Shr(x: nat, s: nat): nat { if s == 0 then x else Shr(x / 2, s - 1) }

  /** BIT(n) and MASK(n) of inc/defs.h. */
  function BIT(n: nat): nat { Pow2(n) }
  function MASK(n: nat): nat { Pow2(n) - 1 }

  // ---- Bits of the results -------------------------------------------------

  lemma {:induction false} AndKBit(x: nat, y: nat, k: nat, i: nat)
    ensures Bit(AndK(x, y, k), i) <==> i < k && Bit(x, i) && Bit(y, i)
    decreases k
  {
    if k == 0 { ZeroBit(i); } else {
      Halve(AndK(x / 2, y / 2, k - 1), Digit(x % 2 == 1 && y % 2 == 1));
      if i > 0 {
        AndKBit(x / 2, y / 2, k - 1, i - 1);
        assert AndK(x, y, k) / 2 == AndK(x / 2, y / 2, k - 1);
      }
    }
  }

  lemma {:induction false} OrKBit(x: nat, y: nat, k: nat, i: nat)
    ensures Bit(OrK(x, y, k), i) <==> i < k && (Bit(x, i) || Bit(y, i))
    decreases k
  {
    if k == 0 { ZeroBit(i); } else {
      Halve(OrK(x / 2, y / 2, k - 1), Digit(x % 2 == 1 || y % 2 == 1));
      if i > 0 {
        OrKBit(x / 2, y / 2, k - 1, i - 1);
        assert OrK(x, y, k) / 2 == OrK(x / 2, y / 2, k - 1);
      }
    }
  }

  lemma {:induction false} NotKBit(x: nat, k: nat, i: nat)
    ensures Bit(NotK(x, k), i) <==> i < k && !Bit(x, i)
    decreases k
  {
    if k == 0 { ZeroBit(i); } else {
      Halve(NotK(x / 2, k - 1), Digit(x % 2 == 0));
      if i > 0 {
        NotKBit(x / 2, k - 1, i - 1);
        assert NotK(x, k) / 2 == NotK(x / 2, k - 1);
      }
    }
  }

  lemma Halve(a: nat, d: nat)
    requires d < 2
    ensures (2 * a + d) / 2 == a && (2 * a + d) % 2 == d
  {}

  lemma {:induction false} ZeroBit(i: nat)
    ensures !Bit(0, i)
  {
    if i > 0 { ZeroBit(i - 1); }
  }

  lemma {:induction false} Pow2Bit(n: nat, i: nat)
    ensures Bit(Pow2(n), i) <==> i == n
  {
    if n == 0 {
      if i > 0 { ZeroBit(i - 1); }
    } else if i > 0 {
      Pow2Bit(n - 1, i - 1);
    }
  }

  lemma {:induction false} MaskBit(n: nat, i: nat)
    ensures Bit(MASK(n), i) <==> i < n
  {
    if n == 0 { ZeroBit(i); } else if i > 0 {
      MaskBit(n - 1, i - 1);
      assert MASK(n) / 2 == MASK(n - 1);
    }
  }

  lemma {:induction false} ShrBit(x: nat, s: nat, i: nat)
    ensures Bit(Shr(x, s), i) <==> Bit(x, i + s)
  {
    if s > 0 { ShrBit(x / 2, s - 1, i); }
  }

  lemma {:induction false} ShlKBit(x: nat, s: nat, k: nat, i: nat)
    requires x < Pow2(k)
    ensures ShlK(x, s, k) < Pow2(k)
    ensures Bit(ShlK(x, s, k), i) <==> i < k && s <= i && Bit(x, i - s)
  {
    if s == 0 {
      if i >= k { HighBitsClear(x, k, i); }
    } else {
      var y := ShlK(x, s - 1, k);
      ModBit(2 * y, k, i);
      if i > 0 { ShlKBit(x, s - 1, k, i - 1); }
    }
  }

  /** Shifting right by s divides by 2^s. */
  lemma {:induction false} ShrIsDiv(x: nat, s: nat)
    ensures Shr(x, s) == x / Pow2(s)
  {
    if s > 0 {
      ShrIsDiv(x / 2, s - 1);
      DivDiv(x, Pow2(s - 1));
    }
  }

  lemma ModBit(x: nat, k: nat, i: nat)
    ensures Bit(x % Pow2(k), i) <==> i < k && Bit(x, i)
  {
    AndMaskIsMod(x, k, k);
    AndKBit(x, MASK(k), k, i);
    MaskBit(k, i);
  }

  lemma DivDiv(x: nat, d: nat)
    requires d > 0
    ensures x / (2 * d) == (x / 2) / d
  {
    var q, r := (x / 2) / d, (x / 2) % d;
    assert x == (2 * d) * q + (2 * r + x % 2);
    DivUnique(x, 2 * d, q, 2 * r + x % 2);
  }

  /** Reducing modulo a multiple of d keeps the remainder modulo d. */
  lemma ModModStep(x: nat, d: nat, k: nat)
    requires d > 0 && k > 0
    ensures d * k > 0 && x % (d * k) % d == x % d
  {
    MulGap(d, k, 0);
    var q, r := x / (d * k), x % (d * k);
    assert x == d * (k * q) + r;
    ModShift(x, d, k * q, r);
  }

  lemma ModShift(x: nat, d: nat, m: nat, r: nat)
    requires d > 0 && x == d * m + r
    ensures r % d == x % d
  {
    assert r == d * (r / d) + r % d;
    assert d * m + d * (r / d) == d * (m + r / d);
    DivUnique(x, d, m + r / d, r % d);
  }

  lemma DivUnique(x: nat, d: nat, q: nat, r: nat)
    requires d > 0 && x == d * q + r && r < d
    ensures x / d == q && x % d == r
  {
    var q', r' := x / d, x % d;
    assert d * q' + r' == d * q + r;
    if q' > q { MulGap(d, q', q); }
    if q' < q { MulGap(d, q, q'); }
  }

  lemma MulGap(d: nat, m: int, n: int)
    requires m > n
    ensures d * m >= d * n + d
  {
    assert d * m == d * n + d * (m - n);
    assert d * (m - n) == d + d * (m - n - 1);
    assert d * (m - n - 1) >= 0;
  }

  // ---- Bits and magnitude --------------------------------------------------

  /** A word is determined by its bits. */
  lemma {:induction false} SameBits(x: nat, y: nat, k: nat)
    requires x < Pow2(k) && y < Pow2(k)
    requires forall i :: 0 <= i < k ==> (Bit(x, i) <==> Bit(y, i))
    ensures x == y
  {
    if k > 0 {
      assert Bit(x, 0) <==> Bit(y, 0);
      forall i | 0 <= i < k - 1 ensures Bit(x / 2, i) <==> Bit(y / 2, i) {
        assert Bit(x, i + 1) <==> Bit(y, i + 1);
      }
      SameBits(x / 2, y / 2, k - 1);
    }
  }

  lemma {:induction false} HighBitsClear(x: nat, k: nat, i: nat)
    requires x < Pow2(k) && i >= k
    ensures !Bit(x, i)
  {
    if k == 0 { ZeroBit(i); } else { HighBitsClear(x / 2, k - 1, i - 1); }
  }

  /** A word whose bits from k on are clear is below 2^k. */
  lemma {:induction false} BoundedByBits(x: nat, k: nat, n: nat)
    requires x < Pow2(n) && k <= n
    requires forall i :: k <= i < n ==> !Bit(x, i)
    ensures x < Pow2(k)
  {
    if k < n {
      if k == 0 { ZeroByBits(x, n); } else {
        forall i | k - 1 <= i < n - 1 ensures !Bit(x / 2, i) { assert !Bit(x, i + 1); }
        BoundedByBits(x / 2, k - 1, n - 1);
      }
    }
  }

  lemma {:induction false} ZeroByBits(x: nat, n: nat)
    requires x < Pow2(n)
    requires forall i :: 0 <= i < n ==> !Bit(x, i)
    ensures x == 0
  {
    forall i | 0 <= i < n ensures Bit(x, i) <==> Bit(0, i) { ZeroBit(i); }
    SameBits(x, 0, n);
  }

  lemma {:induction false} AlignedLowBits(x: nat, k: nat, i: nat)
    requires x % Pow2(k) == 0 && i < k
    ensures !Bit(x, i)
  {
    ModBit(x, k, i);
    ZeroBit(i);
  }

  lemma {:induction false} AndBound(x: nat, y: nat, k: nat)
    ensures AndK(x, y, k) < Pow2(k)
  { if k > 0 { AndBound(x / 2, y / 2, k - 1); } }

  lemma {:induction false} OrBound(x: nat, y: nat, k: nat)
    ensures OrK(x, y, k) < Pow2(k)
  { if k > 0 { OrBound(x / 2, y / 2, k - 1); } }

  lemma {:induction false} NotBound(x: nat, k: nat)
    ensures NotK(x, k) < Pow2(k)
  { if k > 0 { NotBound(x / 2, k - 1); } }

  /** Masking with MASK(n) is taking the remainder modulo 2^n. */
  lemma {:induction false} AndMaskIsMod(x: nat, n: nat, k: nat)
    requires n <= k
    ensures AndK(x, MASK(n), k) == x % Pow2(n)
  {
    if n == 0 {
      AndZero(x, k);
    } else {
      assert MASK(n) / 2 == MASK(n - 1) && MASK(n) % 2 == 1;
      AndMaskIsMod(x / 2, n - 1, k - 1);
      ModStep(x, Pow2(n - 1));
    }
  }

  lemma ModStep(x: nat, d: nat)
    requires d > 0
    ensures x % (2 * d) == 2 * ((x / 2) % d) + x % 2
  {
    var q, r := (x / 2) / d, (x / 2) % d;
    assert x == (2 * d) * q + (2 * r + x % 2);
    DivUnique(x, 2 * d, q, 2 * r + x % 2);
  }

  lemma {:induction false} AndZero(x: nat, k: nat)
    ensures AndK(x, 0, k) == 0
  { if k > 0 { AndZero(x / 2, k - 1); } }

  // ---- The same facts for whole words --------------------------------------

  lemma AndBit(x: nat, y: nat, i: nat)
    requires i < WIDTH
    ensures Bit(And(x, y), i) <==> Bit(x, i) && Bit(y, i)
  { AndKBit(x, y, WIDTH, i); }

  lemma OrBit(x: nat, y: nat, i: nat)
    requires i < WIDTH
    ensures Bit(Or(x, y), i) <==> Bit(x, i) || Bit(y, i)
  { OrKBit(x, y, WIDTH, i); }

  /** Clearing mask bits: `x &= ~m`. */
  lemma AndNotBit(x: nat, m: nat, i: nat)
    requires i < WIDTH
    ensures Bit(And(x, Not(m)), i) <==> Bit(x, i) && !Bit(m, i)
  { AndBit(x, Not(m), i); NotKBit(m, WIDTH, i); }

  /** `(x & BIT(n)) != 0` tests bit n. */
  lemma TestBit(x: nat, n: nat)
    requires n < WIDTH
    ensures And(x, BIT(n)) != 0 <==> Bit(x, n)
  {
    if Bit(x, n) {
      AndBit(x, BIT(n), n); Pow2Bit(n, n); ZeroBit(n);
    } else {
      AndBound(x, BIT(n), WIDTH);
      forall i | 0 <= i < WIDTH ensures !Bit(And(x, BIT(n)), i) { AndBit(x, BIT(n), i); Pow2Bit(n, i); }
      ZeroByBits(And(x, BIT(n)), WIDTH);
    }
  }

  /** The mask of a field of n bits starting at bit s. */
  function FieldMask(n: nat, s: nat): nat { Shl(MASK(n), s) }

  lemma FieldMaskBit(n: nat, s: nat, i: nat)
    requires n <= WIDTH && i < WIDTH
    ensures Bit(FieldMask(n, s), i) <==> s <= i < s + n
  {
    Pow2Mono(n, WIDTH);
    ShlKBit(MASK(n), s, WIDTH, i);
    if s <= i { MaskBit(n, i - s); }
  }

  lemma {:induction false} Pow2Mono(a: nat, b: nat)
    requires a <= b
    ensures Pow2(a) <= Pow2(b)
  { if a < b { Pow2Mono(a, b - 1); } }

  lemma {:induction false} Pow2Add(a: nat, b: nat)
    ensures Pow2(a + b) == Pow2(a) * Pow2(b)
  { if b > 0 { Pow2Add(a, b - 1); } }

  lemma Pow2Values()
    ensures Pow2(12) == 4096
    ensures Pow2(52) == 0x10_0000_0000_0000
    ensures Pow2(55) == 0x80_0000_0000_0000
    ensures Pow2(64) == 0x1_0000_0000_0000_0000
  {
    assert Pow2(12) == 4096;
    Pow2Add(12, 12); Pow2Add(24, 24);
    Pow2Add(48, 4); Pow2Add(52, 3); Pow2Add(52, 12);
  }
}
