/** The two-word arithmetic of the normalize package, refined to arithmetic on naturals. */
module NormalizeWords {
  import opened Bits
  import opened Words
  import opened Splitting
  import opened Wrappers

  function Cmp(a: U128, b: U128): int {
    if a.hi != b.hi then (if a.hi < b.hi then -1 else 1)
    else if a.lo != b.lo then (if a.lo < b.lo then -1 else 1)
    else 0
  }

  /** The successor, and whether it wrapped past the maximum. */
  function Add1(a: U128): (U128, bool) {
    var lo := WrapAdd(a.lo, 1);
    if lo == 0 then
      var hi := WrapAdd(a.hi, 1);
      if hi == 0 then (U128(0, 0), true) else (U128(hi, lo), false)
    else (U128(a.hi, lo), false)
  }

  /** a - b for a >= b. */
  function Sub(a: U128, b: U128): U128 {
    var lo := WrapSub(a.lo, b.lo);
    var hi := WrapSub(a.hi, b.hi);
    U128(if a.lo < b.lo then WrapSub(hi, 1) else hi, lo)
  }

  /** Trailing zero bits of the address, capped at the address width. */
  function ZerosAt(u: U128, bits: nat): nat { Min(ZeroBits(u), bits) }

  /** Largest k with 2^k at most span + 1. */
  function FloorLog2(span: U128): nat {
    var (n, wrapped) := Add1(span);
    if wrapped then 128
    else if n.hi != 0 then 63 + Len(n.hi)
    else if n.lo != 0 then Len(n.lo) - 1
    else 0 // never reached: the successor of a value below the maximum is not zero
  }

  /** The block size as two words; a shift of 64 in one word gives 0. */
  function StepOf(k: nat): U128 {
    if k >= 64 then U128(ShiftedOne(k - 64), 0) else U128(0, ShiftedOne(k))
  }

  /** start + step, or None when the carry tests say the sum wrapped. */
  function AddStep(start: U128, step: U128): Option<U128> {
    var lo := WrapAdd(start.lo, step.lo);
    var hi := WrapAdd(start.hi, step.hi);
    if lo < start.lo then
      var carried := WrapAdd(hi, 1);
      if carried == 0 && step.hi == 0 then None else Some(U128(carried, lo))
    else if hi < start.hi then None
    else Some(U128(hi, lo))
  }

  /** start + 2^k. */
  function Advance(start: U128, k: nat): Option<U128> {
    AddStep(start, StepOf(k))
  }

  lemma CmpSpec(a: U128, b: U128)
    ensures Cmp(a, b) < 0 <==> Val(a) < Val(b)
    ensures Cmp(a, b) == 0 <==> Val(a) == Val(b)
    ensures Cmp(a, b) > 0 <==> Val(a) > Val(b)
  {
  }

  /** add1 is exact and flags exactly the maximum. */
  lemma Add1Spec(a: U128)
    ensures Add1(a).1 <==> Val(a) + 1 == SPACE
    ensures !Add1(a).1 ==> Val(Add1(a).0) == Val(a) + 1
  {
  }

  lemma SubSpec(a: U128, b: U128)
    requires Val(b) <= Val(a)
    ensures Val(Sub(a, b)) == Val(a) - Val(b)
  {
  }

  /** The capped count answers every alignment question up to the address width. */
  lemma ZerosAtSpec(u: U128, bits: nat, k: nat)
    requires k <= bits <= 128
    ensures Aligned(Val(u), k) <==> k <= ZerosAt(u, bits)
    ensures ZerosAt(u, bits) <= bits
  {
    ZeroBitsSpec(u, k);
  }

  /** floorLog2 is the exponent of the largest power of two that fits in span + 1 addresses. */
  lemma FloorLog2Spec(span: U128)
    ensures FloorLog2(span) <= 128
    ensures Pow2(FloorLog2(span)) <= Val(span) + 1 < Pow2(FloorLog2(span) + 1)
  {
    Add1Spec(span);
    SpaceIsPow2();
    var n := Add1(span).0;
    if !Add1(span).1 {
      LenBounds(Val(n));
      LenWords(n);
      ValRange(n);
      LenAtMost(Val(n), 128);
    }
  }

  lemma {:induction false} LenAtMost(x: nat, w: nat)
    requires x < Pow2(w)
    ensures Len(x) <= w
  {
    if x > 0 { LenAtMost(x / 2, w - 1); }
  }

  lemma StepOfSpec(k: nat)
    requires k <= 128
    ensures StepOf(k).hi == 0 || StepOf(k).lo == 0
    ensures Val(StepOf(k)) == if k < 128 then Pow2(k) else 0
  {
    WordIsPow2();
    if 64 <= k < 128 { Pow2Sum(k - 64, 64); }
  }

  lemma AddStepSpec(start: U128, step: U128)
    requires step.hi == 0 || step.lo == 0
    ensures AddStep(start, step).None? <==> Val(start) + Val(step) >= SPACE
    ensures AddStep(start, step).Some? ==> Val(AddStep(start, step).value) == Val(start) + Val(step)
  {
  }

  /** The carry tests break exactly when the true sum reaches 2^128. */
  lemma AdvanceExact(start: U128, k: nat)
    requires k < 128
    ensures Advance(start, k).None? <==> Val(start) + Pow2(k) >= SPACE
    ensures Advance(start, k).Some? ==> Val(Advance(start, k).value) == Val(start) + Pow2(k)
  {
    StepOfSpec(k);
    AddStepSpec(start, StepOf(k));
  }

  /** A step of 2^128 is computed as zero, so the cursor does not move. */
  lemma AdvanceStuck(start: U128)
    ensures Advance(start, 128) == Some(start)
  {
    assert StepOf(128) == U128(0, 0);
  }

  /** min(align, span): the exponent the loop picks at a cursor. */
  function PickBlock(start: U128, end: U128, bits: nat): nat {
    Min(ZerosAt(start, bits), FloorLog2(Sub(end, start)))
  }

  /** A block fits exactly when both limits allow it. */
  lemma {:induction false} FitsWithin(start: U128, end: U128, bits: nat, j: nat)
    requires Val(start) <= Val(end) < Pow2(bits) && bits <= 128
    ensures Fits(Val(start), Val(end), bits, j) <==> j <= PickBlock(start, end, bits)
  {
    var fit := FloorLog2(Sub(end, start));
    SubSpec(end, start);
    FloorLog2Spec(Sub(end, start));
    ZerosAtSpec(start, bits, Min(j, bits));
    FitsIff(Val(start), Val(end), bits, ZerosAt(start, bits), fit, j);
  }

  lemma {:induction false} PickBlockSpec(start: U128, end: U128, bits: nat)
    requires Val(start) <= Val(end) < Pow2(bits) && bits <= 128
    ensures LargestBlock(Val(start), Val(end), bits, PickBlock(start, end, bits))
  {
    forall j: nat ensures Fits(Val(start), Val(end), bits, j) <==> j <= PickBlock(start, end, bits) {
      FitsWithin(start, end, bits, j);
    }
  }

  /** The range from 0 to 2^128 - 1. */
  predicate IsFull(start: U128, end: U128) {
    Val(start) == 0 && Val(end) + 1 == SPACE
  }

  /** One iteration of the splitting loop: the next cursor, or None when the loop breaks. */
  function NextCursor(start: U128, end: U128, bits: nat): Option<U128> {
    var next := Advance(start, PickBlock(start, end, bits));
    if next.Some? && Cmp(next.value, end) <= 0 then next else None
  }

  /** Below 2^128 the cursor moves past the block, and the loop breaks exactly when that leaves the range. */
  lemma {:induction false} NextCursorSpec(start: U128, end: U128, bits: nat)
    requires Val(start) <= Val(end) < Pow2(bits) && bits <= 128
    requires PickBlock(start, end, bits) < 128
    ensures var next := Val(start) + Pow2(PickBlock(start, end, bits));
            && (NextCursor(start, end, bits).None? <==> next > Val(end))
            && (NextCursor(start, end, bits).Some? ==> Val(NextCursor(start, end, bits).value) == next)
  {
    var k := PickBlock(start, end, bits);
    AdvanceExact(start, k);
    ValRange(end);
    if Advance(start, k).Some? { CmpSpec(Advance(start, k).value, end); }
  }

  /** The largest block has 2^128 addresses on the full 128-bit range only. */
  lemma FullNeedsFullWidth(c: nat, e: nat, w: nat, k: nat)
    requires c <= e < Pow2(w) && w <= 128 && LargestBlock(c, e, w, k)
    ensures k <= w
    ensures k == 128 <==> c == 0 && e + 1 == SPACE
  {
    SpaceIsPow2();
    WholeSpaceBlock(c, e, w, k);
    if w < 128 { Pow2Strict(w, 128); }
  }

  lemma FullCursorStays(start: U128, end: U128, bits: nat)
    requires PickBlock(start, end, bits) == 128 && Val(start) <= Val(end)
    ensures NextCursor(start, end, bits) == Some(start)
  {
    AdvanceStuck(start);
    CmpSpec(start, end);
  }

  /** The block exponent is 128 on the full 128-bit range only, and then the cursor stays put. */
  lemma {:induction false} FullBlock(start: U128, end: U128, bits: nat)
    requires Val(start) <= Val(end) < Pow2(bits) && bits <= 128
    ensures PickBlock(start, end, bits) <= bits
    ensures PickBlock(start, end, bits) == 128 <==> IsFull(start, end)
    ensures IsFull(start, end) ==> NextCursor(start, end, bits) == Some(start)
  {
    PickBlockSpec(start, end, bits);
    FullNeedsFullWidth(Val(start), Val(end), bits, PickBlock(start, end, bits));
    if IsFull(start, end) { FullCursorStays(start, end, bits); }
  }

  /** The cursor n iterations on; None once the loop has broken out. */
  function CursorAfter(cursor: Option<U128>, end: U128, bits: nat, n: nat): Option<U128>
    decreases n
  {
    if n == 0 || cursor.None? then cursor
    else CursorAfter(NextCursor(cursor.value, end, bits), end, bits, n - 1)
  }

  lemma {:induction false} FixedCursorStays(start: U128, end: U128, bits: nat, n: nat)
    requires NextCursor(start, end, bits) == Some(start)
    ensures CursorAfter(Some(start), end, bits, n) == Some(start)
    decreases n
  {
    if n > 0 { FixedCursorStays(start, end, bits, n - 1); }
  }

  lemma {:induction false} OtherRangesStop(start: U128, end: U128, bits: nat) returns (n: nat)
    requires Val(start) <= Val(end) < Pow2(bits) && bits <= 128 && !IsFull(start, end)
    ensures CursorAfter(Some(start), end, bits, n).None?
    decreases Val(end) - Val(start)
  {
    FullBlock(start, end, bits);
    NextCursorSpec(start, end, bits);
    var next := NextCursor(start, end, bits);
    if next.None? {
      n := 1;
    } else {
      n := OtherRangesStop(next.value, end, bits);
      n := n + 1;
    }
  }

  /** The loop of rangeToCIDRs terminates on every range but the full 128-bit one. */
  lemma {:induction false} LoopStopsIff(start: U128, end: U128, bits: nat)
    requires Val(start) <= Val(end) < Pow2(bits) && bits <= 128
    ensures (exists n: nat :: CursorAfter(Some(start), end, bits, n).None?) <==> !IsFull(start, end)
  {
    if IsFull(start, end) {
      FullBlock(start, end, bits);
      forall n: nat ensures !CursorAfter(Some(start), end, bits, n).None? { FixedCursorStays(start, end, bits, n); }
    } else {
      var n := OtherRangesStop(start, end, bits);
    }
  }
}
