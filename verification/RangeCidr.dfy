/** The parse package's range splitter: its own two-word arithmetic and loop, refined to the greedy split. */
module RangeCidr {
  import opened Bits
  import opened Words
  import opened Prefixes
  import opened Splitting
  import opened BlockCount
  import opened Wrappers

  predicate LessWords(a: U128, b: U128) {
    if a.hi != b.hi then a.hi < b.hi else a.lo < b.lo
  }

  /** bits.Sub64: difference and borrow out. */
  function Sub64(x: word, y: word, borrow: word): (word, word)
    requires borrow <= 1
  {
    (WrapSub(WrapSub(x, y), borrow), if x < y + borrow then 1 else 0)
  }

  /** bits.Add64: sum and carry out. */
  function Add64(x: word, y: word, carry: word): (word, word)
    requires carry <= 1
  {
    (WrapAdd(WrapAdd(x, y), carry), if x + y + carry >= 0x1_0000_0000_0000_0000 then 1 else 0)
  }

  function Sub(a: U128, b: U128): U128 {
    var (lo, borrow) := Sub64(a.lo, b.lo, 0);
    var (hi, _) := Sub64(a.hi, b.hi, borrow);
    U128(hi, lo)
  }

  function Add1(a: U128): U128 {
    var (lo, carry) := Add64(a.lo, 1, 0);
    var (hi, _) := Add64(a.hi, 0, carry);
    U128(hi, lo)
  }

  /** a + 2^k and whether the addition overflowed 128 bits. */
  function AddPow2(a: U128, k: nat): (U128, bool) {
    if k >= 128 then (U128(0, 0), true)
    else
      var b := if k < 64 then U128(0, ShiftedOne(k)) else U128(ShiftedOne(k - 64), 0);
      var (lo, carry) := Add64(a.lo, b.lo, 0);
      var (hi, over) := Add64(a.hi, b.hi, carry);
      (U128(hi, lo), over != 0)
  }

  function BitLen(a: U128): nat {
    if a.hi != 0 then 64 + Len(a.hi) else Len(a.lo)
  }

  /** Largest k with 2^k at most span + 1, capped at the address width. */
  function MaxBlock(span: U128, addrBits: nat): int {
    if span.hi == ALL_ONES && span.lo == ALL_ONES then addrBits
    else
      var k := BitLen(Add1(span)) - 1;
      if k > addrBits then addrBits else k
  }

  lemma LessSpec(a: U128, b: U128)
    ensures LessWords(a, b) <==> Val(a) < Val(b)
  {
  }

  lemma SubSpec(a: U128, b: U128)
    requires Val(b) <= Val(a)
    ensures Val(Sub(a, b)) == Val(a) - Val(b)
  {
  }

  lemma Add1Spec(a: U128)
    requires Val(a) + 1 < SPACE
    ensures Val(Add1(a)) == Val(a) + 1
  {
  }

  lemma AddWords(a: U128, b: U128)
    ensures var (lo, carry) := Add64(a.lo, b.lo, 0);
            var (hi, over) := Add64(a.hi, b.hi, carry);
            && (over != 0 <==> Val(a) + Val(b) >= SPACE)
            && (over == 0 ==> Val(U128(hi, lo)) == Val(a) + Val(b))
  {
  }

  /** addPow2 is exact and flags exactly the sums that reach 2^128. */
  lemma AddPow2Spec(a: U128, k: nat)
    requires k <= 128
    ensures AddPow2(a, k).1 <==> Val(a) + Pow2(k) >= SPACE
    ensures !AddPow2(a, k).1 ==> Val(AddPow2(a, k).0) == Val(a) + Pow2(k)
  {
    if k == 128 {
      SpaceIsPow2();
    } else {
      var b := if k < 64 then U128(0, ShiftedOne(k)) else U128(ShiftedOne(k - 64), 0);
      OneShifted(k);
      AddWords(a, b);
    }
  }

  lemma OneShifted(k: nat)
    requires k < 128
    ensures Val(if k < 64 then U128(0, ShiftedOne(k)) else U128(ShiftedOne(k - 64), 0)) == Pow2(k)
  {
    WordIsPow2();
    if k >= 64 { Pow2Sum(k - 64, 64); }
  }

  lemma BitLenSpec(a: U128)
    requires Val(a) > 0
    ensures BitLen(a) == Len(Val(a))
  {
    LenWords(a);
  }

  /** Below the maximum, maxBlock is the capped logarithm of span + 1. */
  lemma MaxBlockIs(span: U128, w: nat)
    requires Val(span) + 1 < SPACE
    ensures MaxBlock(span, w) == if Len(Val(span) + 1) - 1 > w then w else Len(Val(span) + 1) - 1
  {
    Add1Spec(span);
    BitLenSpec(Add1(span));
  }

  lemma LogFits(n: nat, j: nat)
    requires n > 0
    ensures Len(n) >= 1
    ensures j <= Len(n) - 1 <==> Pow2(j) <= n
  {
    LenBounds(n);
    if j <= Len(n) - 1 { Pow2Monotone(j, Len(n) - 1); } else { Pow2Monotone(Len(n), j); }
  }

  /** maxBlock answers every question of fit up to the address width. */
  lemma MaxBlockSpec(span: U128, w: nat, j: nat)
    requires w <= 128 && j <= w
    ensures 0 <= MaxBlock(span, w) <= w
    ensures j <= MaxBlock(span, w) <==> Pow2(j) <= Val(span) + 1
  {
    ValRange(span);
    if Val(span) + 1 == SPACE {
      ValOrder(span, U128(ALL_ONES, ALL_ONES));
      Pow2Monotone(j, 128);
      SpaceIsPow2();
    } else {
      MaxBlockIs(span, w);
      LogFits(Val(span) + 1, j);
    }
  }

  /** The exponent the loop picks at a cursor. */
  function PickBlock(s: U128, e: U128, w: nat): int {
    var k: int := if ZeroBits(s) > w then w else ZeroBits(s);
    var k2 := MaxBlock(Sub(e, s), w);
    if k2 < k then k2 else k
  }

  lemma {:induction false} PickFits(s: U128, e: U128, w: nat, j: nat)
    requires Val(s) <= Val(e) < Pow2(w) && w <= 128
    ensures 0 <= PickBlock(s, e, w) <= w
    ensures Fits(Val(s), Val(e), w, j) <==> j <= PickBlock(s, e, w)
  {
    var i := Min(j, w);
    SubSpec(e, s);
    ZeroBitsSpec(s, i);
    MaxBlockSpec(Sub(e, s), w, i);
  }

  lemma {:induction false} PickBlockSpec(s: U128, e: U128, w: nat)
    requires Val(s) <= Val(e) < Pow2(w) && w <= 128
    ensures 0 <= PickBlock(s, e, w)
    ensures LargestBlock(Val(s), Val(e), w, PickBlock(s, e, w))
  {
    PickFits(s, e, w, 0);
    forall j: nat ensures Fits(Val(s), Val(e), w, j) <==> j <= PickBlock(s, e, w) { PickFits(s, e, w, j); }
  }

  /** An address: its family and its value. */
  datatype Addr = Addr(fam: Family, value: nat)

  predicate ValidAddr(a: Addr) { a.value < Pow2(Width(a.fam)) }

  function AddrToU128(a: Addr): U128
    requires ValidAddr(a)
  {
    AddrInSpace(a);
    if a.fam == V4 then U128(0, a.value) else FromNat(a.value)
  }

  lemma AddrInSpace(a: Addr)
    requires ValidAddr(a)
    ensures a.value < SPACE
    ensures a.fam == V4 ==> a.value < 0x1_0000_0000
  {
    HalfWordIsPow2();
    SpaceIsPow2();
  }

  lemma AddrToU128Spec(a: Addr)
    requires ValidAddr(a)
    ensures Val(AddrToU128(a)) == a.value
  {
    AddrInSpace(a);
  }

  function U128ToAddr(u: U128, f: Family): nat {
    if f == V4 then u.lo % 0x1_0000_0000 else Val(u)
  }

  lemma U128ToAddrSpec(u: U128, f: Family)
    requires Val(u) < Pow2(Width(f))
    ensures U128ToAddr(u, f) == Val(u)
  {
    if f == V4 { HalfWordIsPow2(); }
  }

  method EmitBlock(s: U128, e: U128, f: Family) returns (p: Prefix, k: nat)
    requires Val(s) <= Val(e) < Pow2(Width(f))
    ensures LargestBlock(Val(s), Val(e), Width(f), k) && k <= Width(f)
    ensures p == RawPrefix(f, Val(s), Width(f) - k)
  {
    PickBlockSpec(s, e, Width(f));
    U128ToAddrSpec(s, f);
    k := PickBlock(s, e, Width(f));
    p := RawPrefix(f, U128ToAddr(s, f), Width(f) - k);
  }

  /** The next cursor, or None when the loop returns. */
  function NextCursor(s: U128, e: U128, k: nat): Option<U128> {
    var (next, overflow) := AddPow2(s, k);
    if overflow || LessWords(e, next) then None else Some(next)
  }

  lemma NextCursorSpec(s: U128, e: U128, k: nat)
    requires k <= 128
    ensures NextCursor(s, e, k).None? <==> Val(s) + Pow2(k) > Val(e)
    ensures NextCursor(s, e, k).Some? ==> Val(NextCursor(s, e, k).value) == Val(s) + Pow2(k)
  {
    AddPow2Spec(s, k);
    LessSpec(e, AddPow2(s, k).0);
    ValRange(e);
  }

  /** What one turn of the loop must do: emit the head of the split and move to its tail. */
  ghost predicate GoodTurn(s: U128, e: U128, f: Family, p: Prefix, next: Option<U128>)
    requires Val(s) <= Val(e) < Pow2(Width(f))
  {
    var whole := Split(f, Val(s), Val(e));
    if next.None? then whole == [p]
    else Val(s) < Val(next.value) <= Val(e) && whole == [p] + Split(f, Val(next.value), Val(e))
  }

  method SplitTurn(s: U128, e: U128, f: Family) returns (p: Prefix, next: Option<U128>)
    requires Val(s) <= Val(e) < Pow2(Width(f))
    ensures GoodTurn(s, e, f, p, next)
  {
    var k;
    p, k := EmitBlock(s, e, f);
    NextCursorSpec(s, e, k);
    next := NextCursor(s, e, k);
    ghost var q := SplitStep(f, Val(s), Val(e), k);
  }

  /** The loop of rangeToPrefixes over its two-word cursor. */
  method SplitWords(start: U128, end: U128, f: Family) returns (out: seq<Prefix>)
    requires Val(start) <= Val(end) < Pow2(Width(f))
    ensures out == Split(f, Val(start), Val(end))
  {
    out := [];
    var s := start;
    ghost var whole := Split(f, Val(start), Val(end));
    ghost var todo := whole;
    while true
      invariant Val(start) <= Val(s) <= Val(end)
      invariant todo == Split(f, Val(s), Val(end))
      invariant whole == out + todo
      decreases Val(end) - Val(s)
    {
      var p, next := SplitTurn(s, end, f);
      ghost var done := out;
      out := out + [p];
      if next.None? {
        break;
      }
      s := next.value;
      todo := Split(f, Val(s), Val(end));
      assert done + ([p] + todo) == out + todo;
    }
  }

  /**
   Splits an inclusive range into blocks. Unlike the normalize package's
   splitter this one also handles the full IPv6 range.
   */
  method RangeToPrefixes(start: Addr, end: Addr) returns (out: seq<Prefix>)
    requires ValidAddr(start) && ValidAddr(end) && start.fam == end.fam && start.value <= end.value
    ensures out == Split(start.fam, start.value, end.value)
    ensures |out| <= 2 * Width(start.fam) - 2
  {
    SplitCountBound(start.fam, start.value, end.value);
    AddrToU128Spec(start);
    AddrToU128Spec(end);
    out := SplitWords(AddrToU128(start), AddrToU128(end), start.fam);
  }

  /** A parsed `start-end` entry: rejected on mixed families or a reversed range, split otherwise. */
  method RangeEntry(start: Addr, end: Addr) returns (out: Option<seq<Prefix>>)
    requires ValidAddr(start) && ValidAddr(end)
    ensures out.Some? <==> start.fam == end.fam && start.value <= end.value
    ensures out.Some? ==> out.value == Split(start.fam, start.value, end.value)
    ensures out.Some? ==>
              forall f, a: nat :: Covers(out.value, f, a) <==> f == start.fam && start.value <= a <= end.value
  {
    if start.fam != end.fam || end.value < start.value {
      return None;
    }
    var ps := RangeToPrefixes(start, end);
    SplitTiles(start.fam, start.value, end.value);
    forall f, a: nat ensures Covers(ps, f, a) <==> f == start.fam && start.value <= a <= end.value {
      TilingCovers(ps, start.fam, start.value, end.value, f, a);
    }
    out := Some(ps);
  }
}
