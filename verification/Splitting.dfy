/**
 Splitting an inclusive address range into CIDR blocks, on mathematical
 naturals: the reference that both two-word implementations refine.
 */
module Splitting {
  import opened Bits
  import opened Prefixes

  /** An aligned block of 2^k addresses starts at c, inside a w-bit space, and ends by e. */
  ghost predicate Fits(c: nat, e: nat, w: nat, k: nat) {
    k <= w && Aligned(c, k) && c + Pow2(k) <= e + 1
  }

  /** 2^k is the largest block that fits at c. */
  ghost predicate LargestBlock(c: nat, e: nat, w: nat, k: nat) {
    Fits(c, e, w, k) && forall j: nat :: Fits(c, e, w, j) ==> j <= k
  }

  /** A block fits exactly when both the alignment of c and the remaining span allow it. */
  lemma FitsIff(c: nat, e: nat, w: nat, align: nat, fit: nat, j: nat)
    requires align <= w && (j <= w ==> (Aligned(c, j) <==> j <= align))
    requires c <= e && Pow2(fit) <= e - c + 1 < Pow2(fit + 1)
    ensures Fits(c, e, w, j) <==> j <= Min(align, fit)
  {
    if j <= fit { Pow2Monotone(j, fit); } else { Pow2Monotone(fit + 1, j); }
  }

  /** The exponent of that block: the smaller of what alignment and the remaining span allow. */
  function BlockExp(c: nat, e: nat, w: nat): nat
    requires c <= e
  {
    Min(AlignExp(c, w), SpanExp(e - c + 1))
  }

  /** The exponent of the largest power of two within n addresses. */
  function SpanExp(n: nat): (k: nat)
    requires n > 0
    ensures Pow2(k) <= n < Pow2(k + 1)
  {
    LenBounds(n);
    Len(n) - 1
  }

  /** The alignment of c, capped at the width; zero is aligned for the full width. */
  function AlignExp(c: nat, w: nat): nat {
    if c == 0 then w else Min(TrailingZeros(c), w)
  }

  lemma AlignExpSpec(c: nat, w: nat, j: nat)
    requires j <= w
    ensures Aligned(c, j) <==> j <= AlignExp(c, w)
  {
    if c == 0 { ZeroAligned(j); } else { TrailingZerosExact(c); }
  }

  lemma BlockExpFits(c: nat, e: nat, w: nat, j: nat)
    requires c <= e
    ensures Fits(c, e, w, j) <==> j <= BlockExp(c, e, w)
  {
    if j <= w { AlignExpSpec(c, w, j); }
    FitsIff(c, e, w, AlignExp(c, w), SpanExp(e - c + 1), j);
  }

  lemma BlockExpLargest(c: nat, e: nat, w: nat)
    requires c <= e
    ensures LargestBlock(c, e, w, BlockExp(c, e, w))
  {
    forall j: nat ensures Fits(c, e, w, j) <==> j <= BlockExp(c, e, w) { BlockExpFits(c, e, w, j); }
  }

  lemma LargestBlockUnique(c: nat, e: nat, w: nat, j: nat, k: nat)
    requires LargestBlock(c, e, w, j) && LargestBlock(c, e, w, k)
    ensures j == k
  {
  }

  /** Only the range of all w-bit addresses has a block as large as the space. */
  lemma WholeSpaceBlock(c: nat, e: nat, w: nat, k: nat)
    requires c <= e < Pow2(w) && LargestBlock(c, e, w, k)
    ensures k == w <==> c == 0 && e + 1 == Pow2(w)
  {
    if k == w { AlignedFits(c, w, w); }
    if c == 0 && e + 1 == Pow2(w) {
      ZeroAligned(w);
      assert Fits(c, e, w, w);
    }
  }

  /** p is a block that the greedy rule may emit at its own start when the range ends at e. */
  ghost predicate GreedyBlock(p: Prefix, f: Family, e: nat) {
    && p.fam == f && Masked(p) == p && Base(p) == p.addr && Last(p) <= e
    && LargestBlock(p.addr, e, Width(f), Host(p))
  }

  /** Block i starts right after block i - 1. */
  ghost predicate Follows(ps: seq<Prefix>, i: nat)
    requires 0 < i < |ps|
  {
    ps[i].addr == Last(ps[i - 1]) + 1
  }

  /** Blocks are consecutive, start at c, end at e, and each is the largest at its start. */
  ghost predicate GreedyTiling(ps: seq<Prefix>, f: Family, c: nat, e: nat) {
    && |ps| > 0 && ps[0].addr == c && Last(ps[|ps| - 1]) == e
    && (forall i :: 0 < i < |ps| ==> Follows(ps, i))
    && forall i :: 0 <= i < |ps| ==> GreedyBlock(ps[i], f, e)
  }

  /** The greedy split of the range [c, e]: the one tiling of it by largest blocks. */
  ghost function Split(f: Family, c: nat, e: nat): seq<Prefix>
    requires c <= e < Pow2(Width(f))
  {
    TilingExists(f, c, e);
    var r: seq<Prefix> :| GreedyTiling(r, f, c, e);
    r
  }

  lemma SplitTiles(f: Family, c: nat, e: nat)
    requires c <= e < Pow2(Width(f))
    ensures GreedyTiling(Split(f, c, e), f, c, e)
  {
    TilingExists(f, c, e);
  }

  lemma LargestBlockIsGreedy(f: Family, c: nat, e: nat, k: nat)
    requires c <= e < Pow2(Width(f)) && LargestBlock(c, e, Width(f), k)
    ensures GreedyBlock(RawPrefix(f, c, Width(f) - k), f, e)
  {
    FloorUnique(c, k, c);
  }

  lemma TilingCons(p: Prefix, ps: seq<Prefix>, f: Family, e: nat)
    requires GreedyBlock(p, f, e) && GreedyTiling(ps, f, Last(p) + 1, e)
    ensures GreedyTiling([p] + ps, f, p.addr, e)
  {
    var qs := [p] + ps;
    forall i | 0 < i < |qs| ensures Follows(qs, i) {
      if i > 1 { assert Follows(ps, i - 1); }
    }
  }

  /** Emitting the largest block at the cursor until the end is reached yields a tiling. */
  lemma {:induction false} TilingExists(f: Family, c: nat, e: nat)
    requires c <= e < Pow2(Width(f))
    ensures exists ps: seq<Prefix> :: GreedyTiling(ps, f, c, e)
    decreases e - c
  {
    var k := BlockExp(c, e, Width(f));
    BlockExpLargest(c, e, Width(f));
    LargestBlockIsGreedy(f, c, e, k);
    var p: Prefix := RawPrefix(f, c, Width(f) - k);
    if Last(p) == e {
      assert GreedyTiling([p], f, c, e);
    } else {
      TilingExists(f, Last(p) + 1, e);
      var rest: seq<Prefix> :| GreedyTiling(rest, f, Last(p) + 1, e);
      TilingCons(p, rest, f, e);
    }
  }

  /** Each block of a tiling ends before the later ones start. */
  lemma {:induction false} TilingDisjoint(ps: seq<Prefix>, f: Family, c: nat, e: nat, i: nat, j: nat)
    requires GreedyTiling(ps, f, c, e) && i < j < |ps|
    ensures Last(ps[i]) < ps[j].addr
    decreases j
  {
    assert Follows(ps, j);
    assert GreedyBlock(ps[j - 1], f, e);
    if i < j - 1 { TilingDisjoint(ps, f, c, e, i, j - 1); }
  }

  /** Blocks do not leave the range. */
  lemma TilingWithin(ps: seq<Prefix>, f: Family, c: nat, e: nat, i: nat)
    requires GreedyTiling(ps, f, c, e) && i < |ps|
    ensures GreedyBlock(ps[i], f, e) && c <= ps[i].addr
  {
    assert GreedyBlock(ps[0], f, e);
    if i > 0 { TilingDisjoint(ps, f, c, e, 0, i); }
  }

  /** The blocks up to the n-th leave no address out. */
  lemma {:induction false} TilingReaches(ps: seq<Prefix>, f: Family, c: nat, e: nat, n: nat, a: nat)
    requires GreedyTiling(ps, f, c, e) && n < |ps| && c <= a <= Last(ps[n])
    ensures exists i :: 0 <= i <= n && Contains(ps[i], f, a)
  {
    assert GreedyBlock(ps[n], f, e);
    if a < ps[n].addr {
      assert Follows(ps, n);
      TilingReaches(ps, f, c, e, n - 1, a);
    } else {
      assert Contains(ps[n], f, a);
    }
  }

  /** A tiling covers its range exactly. */
  lemma TilingCovers(ps: seq<Prefix>, f: Family, c: nat, e: nat, g: Family, a: nat)
    requires GreedyTiling(ps, f, c, e)
    ensures Covers(ps, g, a) <==> g == f && c <= a <= e
  {
    if Covers(ps, g, a) {
      var p: Prefix :| p in ps && Contains(p, g, a);
      var i :| 0 <= i < |ps| && ps[i] == p;
      TilingWithin(ps, f, c, e, i);
    }
    if g == f && c <= a <= e { TilingReaches(ps, f, c, e, |ps| - 1, a); }
  }

  /** Two greedy tilings of one range agree at every index. */
  lemma {:induction false} TilingsAgree(ps: seq<Prefix>, qs: seq<Prefix>, f: Family, c: nat, e: nat, i: nat)
    requires GreedyTiling(ps, f, c, e) && GreedyTiling(qs, f, c, e)
    requires i < |ps| && i < |qs|
    ensures ps[i] == qs[i]
  {
    if i > 0 {
      TilingsAgree(ps, qs, f, c, e, i - 1);
      assert Follows(ps, i) && Follows(qs, i);
    }
    assert GreedyBlock(ps[i], f, e) && GreedyBlock(qs[i], f, e);
    LargestBlockUnique(ps[i].addr, e, Width(f), Host(ps[i]), Host(qs[i]));
  }

  lemma TilingNotLonger(ps: seq<Prefix>, qs: seq<Prefix>, f: Family, c: nat, e: nat)
    requires GreedyTiling(ps, f, c, e) && GreedyTiling(qs, f, c, e)
    ensures |qs| <= |ps|
  {
    if |ps| < |qs| {
      TilingsAgree(ps, qs, f, c, e, |ps| - 1);
      TilingDisjoint(qs, f, c, e, |ps| - 1, |ps|);
      TilingWithin(qs, f, c, e, |ps|);
    }
  }

  /** The greedy tiling is unique, so every splitter that meets the description emits the same list. */
  lemma GreedyTilingUnique(ps: seq<Prefix>, qs: seq<Prefix>, f: Family, c: nat, e: nat)
    requires GreedyTiling(ps, f, c, e) && GreedyTiling(qs, f, c, e)
    ensures ps == qs
  {
    TilingNotLonger(ps, qs, f, c, e);
    TilingNotLonger(qs, ps, f, c, e);
    forall i | 0 <= i < |ps| ensures ps[i] == qs[i] { TilingsAgree(ps, qs, f, c, e, i); }
  }

  lemma SplitOne(p: Prefix, f: Family, e: nat)
    requires GreedyBlock(p, f, e) && Last(p) == e && e < Pow2(Width(f))
    ensures Split(f, p.addr, e) == [p]
  {
    SplitTiles(f, p.addr, e);
    GreedyTilingUnique(Split(f, p.addr, e), [p], f, p.addr, e);
  }

  lemma SplitMore(p: Prefix, f: Family, e: nat)
    requires GreedyBlock(p, f, e) && Last(p) < e < Pow2(Width(f))
    ensures Split(f, p.addr, e) == [p] + Split(f, Last(p) + 1, e)
  {
    SplitTiles(f, p.addr, e);
    SplitTiles(f, Last(p) + 1, e);
    TilingCons(p, Split(f, Last(p) + 1, e), f, e);
    GreedyTilingUnique(Split(f, p.addr, e), [p] + Split(f, Last(p) + 1, e), f, p.addr, e);
  }

  /** One step of the split: the largest block at the cursor, then the split of what is left. */
  lemma SplitStep(f: Family, c: nat, e: nat, k: nat) returns (p: Prefix)
    requires c <= e < Pow2(Width(f)) && LargestBlock(c, e, Width(f), k)
    ensures p == RawPrefix(f, c, Width(f) - k) && c + Pow2(k) <= e + 1
    ensures c + Pow2(k) > e ==> Split(f, c, e) == [p]
    ensures c + Pow2(k) <= e ==> Split(f, c, e) == [p] + Split(f, c + Pow2(k), e)
  {
    LargestBlockIsGreedy(f, c, e, k);
    p := RawPrefix(f, c, Width(f) - k);
    assert Last(p) == c + Pow2(k) - 1;
    if Last(p) == e { SplitOne(p, f, e); } else { SplitMore(p, f, e); }
  }

  /** No prefix inside [s, e] lies across the boundary between c - 1 and c. */
  ghost predicate NoStraddle(f: Family, s: nat, c: nat, e: nat) {
    forall d: Prefix :: d.fam == f && s <= Base(d) < c <= Last(d) ==> e < Last(d)
  }

  /** A wider prefix that starts at the block's own address does not fit in the range. */
  lemma WiderDoesNotFit(p: Prefix, d: Prefix, f: Family, e: nat)
    requires GreedyBlock(p, f, e)
    requires d.fam == f && d.len < p.len && Base(d) == p.addr
    ensures e < Last(d)
  {
    BaseBounds(d);
    if Last(d) <= e { assert Fits(p.addr, e, Width(f), Host(d)); }
  }

  lemma NoStraddleAdvances(f: Family, s: nat, p: Prefix, e: nat)
    requires s <= p.addr && NoStraddle(f, s, p.addr, e) && GreedyBlock(p, f, e)
    ensures NoStraddle(f, s, Last(p) + 1, e)
  {
    forall d: Prefix | d.fam == f && s <= Base(d) < Last(p) + 1 <= Last(d)
      ensures e < Last(d)
    {
      if d.len < p.len {
        Nested(p, d, Last(p));
        if Base(d) == p.addr { WiderDoesNotFit(p, d, f, e); }
      } else {
        Nested(d, p, Last(p));
      }
    }
  }

  lemma {:induction false} TilingNoStraddle(ps: seq<Prefix>, f: Family, c: nat, e: nat, i: nat)
    requires GreedyTiling(ps, f, c, e) && i < |ps|
    ensures NoStraddle(f, c, ps[i].addr, e)
  {
    if i > 0 {
      TilingNoStraddle(ps, f, c, e, i - 1);
      TilingWithin(ps, f, c, e, i - 1);
      NoStraddleAdvances(f, c, ps[i - 1], e);
      assert Follows(ps, i);
    }
  }

  /** Every greedy block is maximal in its range: any wider prefix around it reaches outside. */
  lemma TilingMaximal(ps: seq<Prefix>, f: Family, c: nat, e: nat, i: nat, d: Prefix)
    requires GreedyTiling(ps, f, c, e) && i < |ps|
    requires d.fam == f && d.len < ps[i].len && Contains(d, f, ps[i].addr)
    ensures Base(d) < c || e < Last(d)
  {
    TilingNoStraddle(ps, f, c, e, i);
    assert GreedyBlock(ps[i], f, e);
    if Base(d) == ps[i].addr { WiderDoesNotFit(ps[i], d, f, e); }
  }
}
