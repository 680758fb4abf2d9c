/** 128-bit integers as two 64-bit words, and the 64-bit operations both packages build on. */
module Words {
  import opened Bits

  type word = x: nat | x < 0x1_0000_0000_0000_0000

  datatype U128 = U128(hi: word, lo: word)

  /** The number of 128-bit values. */
  const SPACE: nat := 0x1_0000_0000_0000_0000_0000_0000_0000_0000

  const ALL_ONES: word := 0xFFFF_FFFF_FFFF_FFFF

  /** The number the two words stand for. */
  function Val(u: U128): nat { u.hi * 0x1_0000_0000_0000_0000 + u.lo }

  function FromNat(v: nat): U128
    requires v < SPACE
  {
    U128(v / 0x1_0000_0000_0000_0000, v % 0x1_0000_0000_0000_0000)
  }

  /** uint64 addition. */
  function WrapAdd(a: word, b: word): word {
    if a + b < 0x1_0000_0000_0000_0000 then a + b else a + b - 0x1_0000_0000_0000_0000
  }

  /** uint64 subtraction. */
  function WrapSub(a: word, b: word): word {
    if b <= a then a - b else a - b + 0x1_0000_0000_0000_0000
  }

  /** 1 << k in uint64: a shift count of 64 or more gives 0. */
  function ShiftedOne(k: nat): word {
    WordIsPow2();
    if k < 64 then (Pow2Strict(k, 64); Pow2(k)) else 0
  }

  /** x >> n. */
  function ShiftRight(x: word, n: nat): word {
    if n == 0 then x else ShiftRight(x / 2, n - 1)
  }

  /** x | y. */
  function OrWord(x: word, y: word): word {
    WordIsPow2();
    OrBound(x, y, 64);
    Or(x, y)
  }

  lemma {:induction false} OrBound(a: nat, b: nat, k: nat)
    requires a < Pow2(k) && b < Pow2(k)
    ensures Or(a, b) < Pow2(k)
    decreases k
  {
    if a != 0 && b != 0 { OrBound(a / 2, b / 2, k - 1); }
  }

  lemma ShiftRightOnes(s: nat, n: nat)
    requires s + n == 64
    ensures ShiftRight(ALL_ONES, n) == Pow2(s) - 1
  {
    WordIsPow2();
    ShiftRightLow(s, n, ALL_ONES);
  }

  lemma {:induction false} ShiftRightLow(s: nat, n: nat, x: word)
    requires x == Pow2(s + n) - 1
    ensures ShiftRight(x, n) == Pow2(s) - 1
  {
    if n > 0 { ShiftRightLow(s, n - 1, x / 2); }
  }

  lemma SpaceIsPow2()
    ensures Pow2(128) == SPACE
  {
    WordIsPow2();
    Pow2Sum(64, 64);
  }

  lemma ValRange(u: U128)
    ensures Val(u) < SPACE
  {
  }

  /** Values compare as their words do, high word first. */
  lemma ValOrder(a: U128, b: U128)
    ensures Val(a) < Val(b) <==> a.hi < b.hi || (a.hi == b.hi && a.lo < b.lo)
    ensures Val(a) == Val(b) <==> a == b
  {
  }

  /** Trailing zero bits: the low word decides unless it is zero. */
  function ZeroBits(u: U128): nat {
    if u.lo != 0 then TrailingZeros(u.lo)
    else if u.hi != 0 then 64 + TrailingZeros(u.hi)
    else 128
  }

  /** The word-wise count answers every alignment question up to the full width. */
  lemma ZeroBitsSpec(u: U128, k: nat)
    requires k <= 128
    ensures Aligned(Val(u), k) <==> k <= ZeroBits(u)
    ensures ZeroBits(u) <= 128
  {
    WordIsPow2();
    if u.lo != 0 {
      AlignedLow(u.hi, 64, u.lo, k);
      TrailingZerosExact(u.lo);
      TrailingZerosBound(u.lo, 64);
    } else if u.hi != 0 {
      AlignedHigh(u.hi, 64, k);
      TrailingZerosExact(u.hi);
      TrailingZerosBound(u.hi, 64);
    } else {
      ZeroAligned(k);
    }
  }

  /** Bit length read off the words. */
  lemma LenWords(u: U128)
    requires Val(u) > 0
    ensures u.hi != 0 ==> Len(Val(u)) == 64 + Len(u.hi)
    ensures u.hi == 0 ==> Len(Val(u)) == Len(u.lo)
  {
    WordIsPow2();
    if u.hi != 0 {
      LenShifted(u.hi, 64, u.lo);
    }
  }

  lemma {:induction false} LenShifted(h: nat, n: nat, l: nat)
    requires h > 0 && l < Pow2(n)
    ensures Len(h * Pow2(n) + l) == n + Len(h)
  {
    if n > 0 {
      ShiftStep(h, n);
      var x := h * Pow2(n) + l;
      assert x / 2 == h * Pow2(n - 1) + l / 2;
      assert x > 0;
      LenShifted(h, n - 1, l / 2);
      assert Len(x) == 1 + Len(x / 2);
    } else {
      assert h * Pow2(0) == h;
    }
  }
}
