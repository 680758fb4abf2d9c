/**
 Powers of two and alignment, defined by halving so that every proof about
 them is linear arithmetic plus induction on the exponent.
 */
module Bits {

  function Pow2(k: nat): (r: nat)
    ensures r >= 1
  {
    if k == 0 then 1 else 2 * Pow2(k - 1)
  }

  /** a is a multiple of 2^k. */
  predicate Aligned(a: nat, k: nat) {
    k == 0 || (a % 2 == 0 && Aligned(a / 2, k - 1))
  }

  /** a with its k low bits cleared. */
  function Floor(a: nat, k: nat): nat {
    if k == 0 then a else 2 * Floor(a / 2, k - 1)
  }

  /** Bitwise or. */
  function Or(a: nat, b: nat): nat
    decreases a + b
  {
    if a == 0 then b
    else if b == 0 then a
    else 2 * Or(a / 2, b / 2) + (if a % 2 == 1 || b % 2 == 1 then 1 else 0)
  }

  /** bits.Len64: the number of bits needed to write x; 0 for 0. */
  function Len(x: nat): nat {
    if x == 0 then 0 else 1 + Len(x / 2)
  }

  /** bits.TrailingZeros64 of a non-zero word. */
  function TrailingZeros(x: nat): nat
    requires x > 0
  {
    if x % 2 == 1 then 0 else 1 + TrailingZeros(x / 2)
  }

  function Min(a: nat, b: nat): nat { if a <= b then a else b }

  lemma Pow2Strict(j: nat, k: nat)
    requires j < k
    ensures 2 * Pow2(j) <= Pow2(k)
  {
    if j + 1 < k { Pow2Strict(j, k - 1); }
  }

  lemma Pow2Monotone(j: nat, k: nat)
    requires j <= k
    ensures Pow2(j) <= Pow2(k)
  {
    if j < k { Pow2Strict(j, k); }
  }

  lemma MulTwice(a: nat, b: nat)
    ensures (2 * a) * b == 2 * (a * b)
  {
  }

  /** A shift by n is a shift by n - 1, doubled. */
  lemma ShiftStep(h: nat, n: nat)
    requires n > 0
    ensures h * Pow2(n) == 2 * (h * Pow2(n - 1))
  {
    MulTwice(Pow2(n - 1), h);
  }

  lemma {:induction false} Pow2Sum(j: nat, k: nat)
    ensures Pow2(j + k) == Pow2(j) * Pow2(k)
  {
    if j > 0 {
      Pow2Sum(j - 1, k);
      MulTwice(Pow2(j - 1), Pow2(k));
    }
  }

  lemma HalfWordIsPow2()
    ensures Pow2(32) == 0x1_0000_0000
  {
    ShortIsPow2();
    Pow2Sum(16, 16);
  }

  lemma ShortIsPow2()
    ensures Pow2(16) == 0x1_0000
  {
    ByteIsPow2();
    Pow2Sum(8, 8);
  }

  lemma ByteIsPow2()
    ensures Pow2(8) == 0x100
  {
  }

  lemma WordIsPow2()
    ensures Pow2(64) == 0x1_0000_0000_0000_0000
  {
    HalfWordIsPow2();
    Pow2Sum(32, 32);
  }

  lemma ZeroAligned(k: nat)
    ensures Aligned(0, k)
  {
  }

  lemma AlignedWeaken(a: nat, j: nat, k: nat)
    requires j <= k && Aligned(a, k)
    ensures Aligned(a, j)
  {
    if j > 0 { AlignedWeaken(a / 2, j - 1, k - 1); }
  }

  lemma AlignedStep(a: nat, k: nat)
    requires Aligned(a, k)
    ensures Aligned(a + Pow2(k), k)
    ensures !Aligned(a, k + 1) ==> Aligned(a + Pow2(k), k + 1)
  {
    if k > 0 {
      AlignedStep(a / 2, k - 1);
      assert (a + Pow2(k)) / 2 == a / 2 + Pow2(k - 1);
    } else {
      assert Aligned(a, 1) <==> a % 2 == 0;
      assert Aligned(a + 1, 1) <==> (a + 1) % 2 == 0;
    }
  }

  /** Two aligned blocks that share an address are nested. */
  lemma {:induction false} Laminar(x: nat, j: nat, y: nat, k: nat, a: nat)
    requires j <= k && Aligned(x, j) && Aligned(y, k)
    requires x <= a < x + Pow2(j) && y <= a < y + Pow2(k)
    ensures y <= x && x + Pow2(j) <= y + Pow2(k)
  {
    if j > 0 {
      Laminar(x / 2, j - 1, y / 2, k - 1, a / 2);
    }
  }

  /** An aligned block that starts inside an address space stays inside it. */
  lemma AlignedFits(a: nat, k: nat, w: nat)
    requires k <= w && Aligned(a, k) && a < Pow2(w)
    ensures a + Pow2(k) <= Pow2(w)
  {
    ZeroAligned(w);
    Laminar(a, k, 0, w, a);
  }

  lemma {:induction false} FloorBounds(a: nat, k: nat)
    ensures Aligned(Floor(a, k), k)
    ensures Floor(a, k) <= a < Floor(a, k) + Pow2(k)
  {
    if k > 0 {
      FloorBounds(a / 2, k - 1);
      assert Floor(a, k) / 2 == Floor(a / 2, k - 1);
    }
  }

  /** Floor is the only aligned block start whose block contains a. */
  lemma {:induction false} FloorUnique(a: nat, k: nat, x: nat)
    requires Aligned(x, k) && x <= a < x + Pow2(k)
    ensures Floor(a, k) == x
  {
    FloorBounds(a, k);
    Laminar(x, k, Floor(a, k), k, a);
    Laminar(Floor(a, k), k, x, k, a);
  }

  /** Setting the k low bits of an aligned word adds 2^k - 1 to it. */
  lemma {:induction false} OrLowMask(a: nat, k: nat)
    requires Aligned(a, k)
    ensures Or(a, Pow2(k) - 1) == a + Pow2(k) - 1
  {
    if k > 0 {
      OrLowMask(a / 2, k - 1);
      assert (Pow2(k) - 1) / 2 == Pow2(k - 1) - 1;
      assert (Pow2(k) - 1) % 2 == 1;
    }
  }

  lemma {:induction false} LenBounds(x: nat)
    requires x > 0
    ensures Len(x) >= 1
    ensures Pow2(Len(x) - 1) <= x < Pow2(Len(x))
  {
    if x > 1 { LenBounds(x / 2); }
  }

  lemma {:induction false} TrailingZerosExact(x: nat)
    requires x > 0
    ensures forall k: nat :: Aligned(x, k) <==> k <= TrailingZeros(x)
  {
    if x % 2 == 0 { TrailingZerosExact(x / 2); }
    forall k: nat ensures Aligned(x, k) <==> k <= TrailingZeros(x) {
      if k > 0 && x % 2 == 0 {
        assert Aligned(x / 2, k - 1) <==> k - 1 <= TrailingZeros(x / 2);
      }
    }
  }

  lemma TrailingZerosBound(x: nat, w: nat)
    requires 0 < x < Pow2(w)
    ensures TrailingZeros(x) < w
  {
    if w > 0 && x % 2 == 0 { TrailingZerosBound(x / 2, w - 1); }
  }

  /** Alignment of a number written as h * 2^n + l with l below 2^n. */
  lemma {:induction false} AlignedLow(h: nat, n: nat, l: nat, k: nat)
    requires 0 < l < Pow2(n)
    ensures Aligned(h * Pow2(n) + l, k) <==> Aligned(l, k)
  {
    if n > 0 && k > 0 {
      var v := h * Pow2(n) + l;
      ShiftStep(h, n);
      assert v % 2 == l % 2;
      if l % 2 == 0 {
        assert v / 2 == h * Pow2(n - 1) + l / 2;
        AlignedLow(h, n - 1, l / 2, k - 1);
      }
    }
  }

  /** Alignment of a number whose n low bits are zero. */
  lemma {:induction false} AlignedHigh(h: nat, n: nat, k: nat)
    ensures k <= n ==> Aligned(h * Pow2(n), k)
    ensures k > n ==> (Aligned(h * Pow2(n), k) <==> Aligned(h, k - n))
  {
    if n > 0 && k > 0 {
      ShiftStep(h, n);
      AlignedHigh(h, n - 1, k - 1);
    }
  }
}
