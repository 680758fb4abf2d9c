/** How many blocks a range splits into: at most 2w - 2 in a w-bit space, and that many for [1, 2^w - 2]. */
module BlockCount {
  import opened Bits
  import opened Prefixes
  import opened Splitting

  lemma SmallAlignment(c: nat, k: nat, w: nat)
    requires 0 < c < Pow2(w) && Aligned(c, k)
    ensures k < w
  {
    TrailingZerosExact(c);
    TrailingZerosBound(c, w);
  }

  /** Once the span is smaller than the alignment, every block is smaller than the one before. */
  lemma {:induction false} FallingCount(f: Family, c: nat, e: nat, m: nat)
    requires c <= e < Pow2(Width(f)) && m <= Width(f)
    requires Aligned(c, m) && e - c + 1 < Pow2(m)
    ensures |Split(f, c, e)| <= m
    decreases m
  {
    BlockExpLargest(c, e, Width(f));
    var k := BlockExp(c, e, Width(f));
    var p := SplitStep(f, c, e, k);
    if k >= m { Pow2Monotone(m, k); }
    AlignedWeaken(c, k + 1, m);
    assert !Fits(c, e, Width(f), k + 1);
    if c + Pow2(k) <= e {
      AlignedStep(c, k);
      FallingCount(f, c + Pow2(k), e, k);
    }
  }

  /** Past a block that its address has limited, the cursor is better aligned. */
  lemma {:induction false} RiseOn(c: nat, w: nat, j: nat, k: nat)
    requires Aligned(c, j) && Aligned(c, k) && !Aligned(c, k + 1) && 0 < c + Pow2(k) < Pow2(w)
    ensures j <= k && k + 1 < w && Aligned(c + Pow2(k), k + 1)
  {
    AlignedStep(c, k);
    if j > k { AlignedWeaken(c, k + 1, j); }
    SmallAlignment(c + Pow2(k), k + 1, w);
  }

  /** Past a block that the end has limited, the span is smaller than the alignment. */
  lemma {:induction false} FallOn(c: nat, e: nat, w: nat, k: nat)
    requires 0 < c < Pow2(w) && LargestBlock(c, e, w, k) && Aligned(c, k + 1) && c + Pow2(k) <= e
    ensures k + 1 < w && Aligned(c + Pow2(k), k) && e - (c + Pow2(k)) + 1 < Pow2(k)
  {
    AlignedStep(c, k);
    SmallAlignment(c, k + 1, w);
    assert !Fits(c, e, w, k + 1);
  }

  /** A block that ends the range, or that the end has limited: few blocks are left. */
  lemma {:induction false} LastRise(f: Family, c: nat, e: nat, j: nat, k: nat)
    requires 0 < c <= e < Pow2(Width(f)) && j < Width(f) && LargestBlock(c, e, Width(f), k)
    requires c + Pow2(k) > e || Aligned(c, k + 1)
    ensures |Split(f, c, e)| <= 2 * Width(f) - 2 - j
  {
    var p := SplitStep(f, c, e, k);
    if c + Pow2(k) <= e {
      FallOn(c, e, Width(f), k);
      FallingCount(f, c + Pow2(k), e, k);
    }
  }

  lemma {:induction false} MoreRise(f: Family, c: nat, e: nat, j: nat, k: nat)
    requires 0 < c <= e < Pow2(Width(f)) && Aligned(c, j) && LargestBlock(c, e, Width(f), k)
    requires c + Pow2(k) <= e && !Aligned(c, k + 1)
    ensures j <= k && k + 1 < Width(f) && Aligned(c + Pow2(k), k + 1)
    ensures |Split(f, c, e)| == 1 + |Split(f, c + Pow2(k), e)|
  {
    RiseOn(c, Width(f), j, k);
    var p := SplitStep(f, c, e, k);
  }

  /** From a cursor aligned to 2^j: blocks grow with the alignment, then fall. */
  lemma {:induction false} RisingCount(f: Family, c: nat, e: nat, j: nat)
    requires 0 < c <= e < Pow2(Width(f)) && j < Width(f) && Aligned(c, j)
    ensures |Split(f, c, e)| <= 2 * Width(f) - 2 - j
    decreases Width(f) - j
  {
    var k := BlockExp(c, e, Width(f));
    BlockExpLargest(c, e, Width(f));
    if c + Pow2(k) > e || Aligned(c, k + 1) {
      LastRise(f, c, e, j, k);
    } else {
      MoreRise(f, c, e, j, k);
      RisingCount(f, c + Pow2(k), e, k + 1);
    }
  }

  /** No range needs more than 62 IPv4 or 254 IPv6 prefixes. */
  lemma SplitCountBound(f: Family, c: nat, e: nat)
    requires c <= e < Pow2(Width(f))
    ensures |Split(f, c, e)| <= 2 * Width(f) - 2
  {
    var w := Width(f);
    ZeroAligned(w);
    if c > 0 {
      assert Aligned(c, 0);
      RisingCount(f, c, e, 0);
    } else if e + 1 < Pow2(w) {
      FallingCount(f, c, e, w);
    } else {
      var p := SplitStep(f, c, e, w);
    }
  }

  lemma {:induction false} Pow2Alignment(j: nat, k: nat)
    ensures Aligned(Pow2(j), k) <==> k <= j
  {
    if j > 0 && k > 0 { Pow2Alignment(j - 1, k - 1); }
  }

  lemma {:induction false} OneShortBlock(c: nat, e: nat, m: nat, w: nat)
    requires 1 <= m <= w && Aligned(c, m) && e + 2 == c + Pow2(m)
    ensures LargestBlock(c, e, w, m - 1)
  {
    AlignedWeaken(c, m - 1, m);
    Pow2Strict(m - 1, m);
    forall j: nat | Fits(c, e, w, j) ensures j <= m - 1 {
      if m <= j { Pow2Monotone(m, j); }
    }
  }

  lemma {:induction false} OneShortStep(f: Family, c: nat, e: nat, k: nat)
    requires e < Pow2(Width(f)) && e + 2 == c + Pow2(k) + Pow2(k) && Pow2(k) >= 2
    requires LargestBlock(c, e, Width(f), k)
    ensures Aligned(c + Pow2(k), k) && |Split(f, c, e)| == 1 + |Split(f, c + Pow2(k), e)|
  {
    AlignedStep(c, k);
    var p := SplitStep(f, c, e, k);
  }

  /** All of an aligned block but its last address needs one block of every smaller size. */
  lemma {:induction false} FallingExact(f: Family, c: nat, e: nat, m: nat)
    requires 1 <= m <= Width(f) && Aligned(c, m) && e + 2 == c + Pow2(m) && c <= e < Pow2(Width(f))
    ensures |Split(f, c, e)| == m
    decreases m
  {
    OneShortBlock(c, e, m, Width(f));
    if m == 1 {
      var p := SplitStep(f, c, e, 0);
    } else {
      Pow2Strict(0, m - 1);
      OneShortStep(f, c, e, m - 1);
      FallingExact(f, c + Pow2(m - 1), e, m - 1);
    }
  }

  lemma OddCursorBlock(j: nat, w: nat)
    requires j + 1 < w
    ensures LargestBlock(Pow2(j), Pow2(w) - 2, w, j)
    ensures Pow2(j) + Pow2(j) == Pow2(j + 1) <= Pow2(w) - 2
  {
    Pow2Strict(j + 1, w);
    forall k: nat ensures Aligned(Pow2(j), k) <==> k <= j { Pow2Alignment(j, k); }
  }

  lemma {:induction false} RisingExact(f: Family, c: nat, e: nat, j: nat)
    requires j < Width(f) && c == Pow2(j) <= e && e + 2 == Pow2(Width(f))
    ensures |Split(f, c, e)| == 2 * Width(f) - 2 - j
    decreases Width(f) - j
  {
    if j == Width(f) - 1 {
      Pow2Alignment(j, j);
      FallingExact(f, c, e, j);
    } else {
      OddCursorBlock(j, Width(f));
      var p := SplitStep(f, c, e, j);
      RisingExact(f, Pow2(j + 1), e, j + 1);
    }
  }

  /** The bound is attained: all of the space but its first and last address. */
  lemma SplitCountAttained(f: Family)
    ensures 1 <= Pow2(Width(f)) - 2
    ensures |Split(f, 1, Pow2(Width(f)) - 2)| == 2 * Width(f) - 2
  {
    Pow2Strict(1, Width(f));
    RisingExact(f, 1, Pow2(Width(f)) - 2, 0);
  }

  /** A block that its address would allow to be larger is followed by smaller ones of the same kind. */
  lemma FallingStep(c: nat, e: nat, w: nat, k: nat, j: nat)
    requires LargestBlock(c, e, w, k) && LargestBlock(c + Pow2(k), e, w, j)
    requires Aligned(c, k + 1) && k < w
    ensures j < k && Aligned(c + Pow2(k), j + 1)
  {
    assert !Fits(c, e, w, k + 1);
    AlignedStep(c, k);
    if k <= j { Pow2Monotone(k, j); }
    AlignedWeaken(c + Pow2(k), j + 1, k);
  }

  /** Blocks limited by their address grow. */
  lemma RisingStep(c: nat, e: nat, w: nat, k: nat, j: nat)
    requires LargestBlock(c, e, w, k) && LargestBlock(c + Pow2(k), e, w, j)
    requires !Aligned(c, k + 1) && !Aligned(c + Pow2(k), j + 1)
    ensures k < j
  {
    AlignedStep(c, k);
    if j <= k { AlignedWeaken(c + Pow2(k), j + 1, k + 1); }
  }

  /** Only the end of the range keeps the block from being twice as large. */
  predicate EndLimited(p: Prefix) { Aligned(p.addr, Host(p) + 1) }

  lemma Neighbours(ps: seq<Prefix>, f: Family, c: nat, e: nat, i: nat)
    requires GreedyTiling(ps, f, c, e) && 0 < i < |ps| && e < Pow2(Width(f))
    ensures EndLimited(ps[i - 1]) ==> EndLimited(ps[i]) && Host(ps[i]) < Host(ps[i - 1])
    ensures !EndLimited(ps[i - 1]) && !EndLimited(ps[i]) ==> Host(ps[i - 1]) < Host(ps[i])
  {
    assert Follows(ps, i);
    TwoBlocks(ps[i - 1], ps[i], f, e);
  }

  /** Two greedy blocks, the second right after the first. */
  lemma {:induction false} TwoBlocks(p: Prefix, q: Prefix, f: Family, e: nat)
    requires GreedyBlock(p, f, e) && GreedyBlock(q, f, e) && q.addr == p.addr + Pow2(Host(p)) && e < Pow2(Width(f))
    ensures EndLimited(p) ==> EndLimited(q) && Host(q) < Host(p)
    ensures !EndLimited(p) && !EndLimited(q) ==> Host(p) < Host(q)
  {
    if EndLimited(p) {
      AlignedWeaken(p.addr, Host(p), Host(p) + 1);
      AlignedStep(p.addr, Host(p));
      SmallAlignment(q.addr, Host(p), Width(f));
      FallingStep(p.addr, e, Width(f), Host(p), Host(q));
    } else if !EndLimited(q) {
      RisingStep(p.addr, e, Width(f), Host(p), Host(q));
    }
  }

  /** How block i compares with the one before: larger up to t, then smaller; only right after t may it be as large. */
  predicate Turns(ps: seq<Prefix>, t: nat, i: nat)
    requires 0 < i < |ps|
  {
    if i <= t then Host(ps[i - 1]) < Host(ps[i])
    else if i == t + 1 then Host(ps[i]) <= Host(ps[i - 1])
    else Host(ps[i]) < Host(ps[i - 1])
  }

  lemma {:induction false} TurnExists(ps: seq<Prefix>, f: Family, c: nat, e: nat, n: nat) returns (t: nat)
    requires GreedyTiling(ps, f, c, e) && n < |ps| && e < Pow2(Width(f))
    ensures t <= n && (EndLimited(ps[n]) || t == n)
    ensures forall i :: 0 < i <= n ==> Turns(ps, t, i)
  {
    if n == 0 {
      t := 0;
    } else {
      var u := TurnExists(ps, f, c, e, n - 1);
      Neighbours(ps, f, c, e, n);
      t := if Host(ps[n - 1]) < Host(ps[n]) then n else u;
      forall i | 0 < i <= n ensures Turns(ps, t, i) {
        if i < n { assert Turns(ps, u, i); }
      }
    }
  }

  /** Block sizes strictly rise to a turn and strictly fall after it, with at most one equal pair, at the turn. */
  lemma SplitRisesThenFalls(f: Family, c: nat, e: nat) returns (t: nat)
    requires c <= e < Pow2(Width(f))
    ensures t < |Split(f, c, e)|
    ensures forall i :: 0 < i < |Split(f, c, e)| ==> Turns(Split(f, c, e), t, i)
  {
    SplitTiles(f, c, e);
    t := TurnExists(Split(f, c, e), f, c, e, |Split(f, c, e)| - 1);
  }
}
