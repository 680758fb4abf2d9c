/** The normalize package: loops over prefixes and two-word ranges, proved against the canonical form. */
module Normalize {
  import opened Bits
  import opened Words
  import opened NormalizeWords
  import opened Prefixes
  import opened Ranges
  import opened Splitting
  import opened BlockCount
  import opened Aggregation
  import opened Filtering
  import opened Suppression
  import opened Sorting
  import opened Wrappers

  /** The result of code that, on some inputs, never returns. */
  datatype Outcome<+T> = Done(value: T) | Diverges

  datatype IpRange = IpRange(start: U128, end: U128)

  function ToU128(addr: nat, bits: nat): U128
    requires bits == 32 ==> addr < 0x1_0000_0000
    requires addr < SPACE
  {
    if bits == 32 then U128(0, addr) else FromNat(addr)
  }

  /** The address back from its words; an IPv4 address is the low 32 bits. */
  function ToAddr(u: U128, bits: nat): nat {
    if bits == 32 then u.lo % 0x1_0000_0000 else Val(u)
  }

  /** The host bits of a prefix, all set. */
  function HostMask(span: nat): U128
    requires span <= 128
  {
    if span == 0 then U128(0, 0)
    else if span > 64 then U128(ShiftRight(ALL_ONES, 128 - span), ALL_ONES)
    else if span == 64 then U128(0, ALL_ONES)
    else U128(0, ShiftRight(ALL_ONES, 64 - span))
  }

  function RangeOf(p: Prefix): IpRange {
    AddrInWords(p);
    var bits := Width(p.fam);
    var start := ToU128(p.addr, bits);
    var mask := HostMask(bits - p.len);
    IpRange(start, OrWords(start, mask))
  }

  lemma AddrInWords(p: Prefix)
    ensures p.addr < SPACE
    ensures p.fam == V4 ==> p.addr < 0x1_0000_0000
  {
    HalfWordIsPow2();
    SpaceIsPow2();
  }

  lemma ToU128Spec(addr: nat, bits: nat)
    requires bits == 32 ==> addr < 0x1_0000_0000
    requires addr < SPACE
    ensures Val(ToU128(addr, bits)) == addr
    ensures ToAddr(ToU128(addr, bits), bits) == addr
  {
  }

  lemma ToAddrSpec(u: U128, f: Family)
    requires Val(u) < Pow2(Width(f))
    ensures ToAddr(u, Width(f)) == Val(u)
  {
    if f == V4 { HalfWordIsPow2(); }
  }

  function OrWords(u: U128, m: U128): U128 { U128(OrWord(u.hi, m.hi), OrWord(u.lo, m.lo)) }

  lemma OrLowWord(start: U128, span: nat)
    requires span <= 64 && Aligned(Val(start), span)
    ensures Val(OrWords(start, U128(0, ShiftRight(ALL_ONES, 64 - span)))) == Val(start) + Pow2(span) - 1
  {
    LowAligned(start, span);
    OrLowMask(start.lo, span);
    ShiftRightOnes(span, 64 - span);
  }

  lemma OrBothWords(start: U128, span: nat)
    requires 64 < span <= 128 && Aligned(Val(start), span)
    ensures Val(OrWords(start, U128(ShiftRight(ALL_ONES, 128 - span), ALL_ONES))) == Val(start) + Pow2(span) - 1
  {
    WordIsPow2();
    HighAligned(start, span);
    OrLowMask(start.hi, span - 64);
    ShiftRightOnes(span - 64, 128 - span);
    Pow2Sum(span - 64, 64);
  }

  /** Or-ing in the host mask reaches the last address of an aligned block. */
  lemma OrHostMask(start: U128, span: nat)
    requires span <= 128 && Aligned(Val(start), span)
    ensures Val(OrWords(start, HostMask(span))) == Val(start) + Pow2(span) - 1
  {
    if span <= 64 {
      OrLowWord(start, span);
      ShiftRightOnes(64, 0);
      ShiftRightOnes(0, 64);
    } else {
      OrBothWords(start, span);
    }
  }

  lemma LowAligned(u: U128, k: nat)
    requires k <= 64 && Aligned(Val(u), k)
    ensures Aligned(u.lo, k)
  {
    WordIsPow2();
    if u.lo != 0 { AlignedLow(u.hi, 64, u.lo, k); } else { ZeroAligned(k); }
  }

  lemma HighAligned(u: U128, k: nat)
    requires k > 64 && Aligned(Val(u), k)
    ensures u.lo == 0 && Aligned(u.hi, k - 64)
  {
    WordIsPow2();
    AlignedWeaken(Val(u), 64, k);
    LowAligned(u, 64);
    if u.lo > 0 {
      TrailingZerosExact(u.lo);
      TrailingZerosBound(u.lo, 64);
    }
    AlignedHigh(u.hi, 64, k);
  }

  /** The range of a masked prefix is exactly its addresses. */
  lemma RangeOfMasked(p: Prefix)
    requires Masked(p) == p
    ensures Val(RangeOf(p).start) == Base(p) && Val(RangeOf(p).end) == Last(p)
  {
    AddrInWords(p);
    BaseBounds(p);
    ToU128Spec(p.addr, Width(p.fam));
    OrHostMask(ToU128(p.addr, Width(p.fam)), Host(p));
  }

  /** The natural-number ranges that two-word ranges stand for. */
  function Values(rs: seq<IpRange>): (vs: seq<Range>)
    ensures |vs| == |rs|
    ensures forall i :: 0 <= i < |rs| ==> vs[i] == Range(Val(rs[i].start), Val(rs[i].end))
  {
    seq(|rs|, i requires 0 <= i < |rs| => Range(Val(rs[i].start), Val(rs[i].end)))
  }

  predicate RangeLe(a: IpRange, b: IpRange) {
    var c := Cmp(a.start, b.start);
    if c != 0 then c < 0 else Cmp(a.end, b.end) <= 0
  }

  lemma RangeLeTotal()
    ensures TotalPreorder(RangeLe)
  {
  }

  lemma ValuesMember(rs: seq<IpRange>, a: nat)
    ensures InRange(Values(rs), a) <==> exists r :: r in rs && Val(r.start) <= a <= Val(r.end)
  {
    if InRange(Values(rs), a) {
      var i :| 0 <= i < |Values(rs)| && Values(rs)[i].start <= a <= Values(rs)[i].end;
      assert rs[i] in rs;
    }
    if r :| r in rs && Val(r.start) <= a <= Val(r.end) {
      var i :| 0 <= i < |rs| && rs[i] == r;
      assert Values(rs)[i].start <= a <= Values(rs)[i].end;
    }
  }

  lemma ValuesSnoc(rs: seq<IpRange>, r: IpRange)
    ensures Values(rs + [r]) == Values(rs) + [Range(Val(r.start), Val(r.end))]
  {
  }

  lemma SortedSameAddresses(xs: seq<IpRange>, ys: seq<IpRange>)
    requires forall r :: r in xs <==> r in ys
    ensures SameAddresses(Values(xs), Values(ys))
  {
    forall a: nat ensures InRange(Values(xs), a) <==> InRange(Values(ys), a) {
      ValuesMember(xs, a);
      ValuesMember(ys, a);
    }
  }

  /** Widening the last range of a separated list to take in r adds exactly r's addresses. */
  lemma AbsorbLast(out: seq<Range>, cur: Range, r: Range)
    requires Separated(out + [cur]) && r.start <= r.end
    requires cur.start <= r.start <= cur.end + 1
    ensures var wide := Range(cur.start, if r.end > cur.end then r.end else cur.end);
            && Separated(out + [wide])
            && forall a: nat :: InRange(out + [wide], a) <==> InRange(out + [cur], a) || r.start <= a <= r.end
  {
    var wide := Range(cur.start, if r.end > cur.end then r.end else cur.end);
    var o, n := out + [cur], out + [wide];
    assert Separated(n) by {
      forall i, j | 0 <= i < j < |n| ensures n[i].end + 1 < n[j].start {
        assert n[i] == o[i] && o[i].end + 1 < o[j].start;
      }
      assert o[|out|] == cur;
      forall i | 0 <= i < |n| ensures n[i].start <= n[i].end { assert i < |out| ==> n[i] == o[i]; }
    }
    forall a: nat ensures InRange(n, a) <==> InRange(o, a) || r.start <= a <= r.end {
      InRangeSnoc(out, cur, a);
      InRangeSnoc(out, wide, a);
    }
  }

  lemma AppendApart(out: seq<Range>, cur: Range, r: Range)
    requires Separated(out + [cur]) && r.start <= r.end && cur.end + 1 < r.start
    ensures Separated(out + [cur] + [r])
  {
    var o := out + [cur];
    var n := o + [r];
    forall i, j | 0 <= i < j < |n| ensures n[i].end + 1 < n[j].start {
      assert n[i] == o[i];
      assert o[|out|] == cur;
      if j < |o| {
        assert n[j] == o[j];
      } else if i < |out| {
        assert o[i].end + 1 < o[|out|].start;
      }
    }
    forall i | 0 <= i < |n| ensures n[i].start <= n[i].end { assert i < |o| ==> n[i] == o[i]; }
  }

  /** out is the coalesced form of the ranges seen so far. */
  ghost predicate Coalesced(out: seq<Range>, seen: seq<Range>) {
    Separated(out) && SameAddresses(out, seen)
  }

  lemma CoalesceAbsorb(out: seq<Range>, cur: Range, r: Range, seen: seq<Range>)
    requires Coalesced(out + [cur], seen) && r.start <= r.end && cur.start <= r.start <= cur.end + 1
    ensures Coalesced(out + [Range(cur.start, if r.end > cur.end then r.end else cur.end)], seen + [r])
  {
    AbsorbLast(out, cur, r);
    forall a: nat ensures InRange(seen + [r], a) <==> InRange(out + [cur], a) || r.start <= a <= r.end {
      InRangeSnoc(seen, r, a);
    }
  }

  lemma CoalesceAppend(out: seq<Range>, cur: Range, r: Range, seen: seq<Range>)
    requires Coalesced(out + [cur], seen) && r.start <= r.end && cur.end + 1 < r.start
    ensures Coalesced(out + [cur] + [r], seen + [r])
  {
    AppendApart(out, cur, r);
    forall a: nat ensures InRange(seen + [r], a) <==> InRange(out + [cur] + [r], a) {
      InRangeSnoc(seen, r, a);
      InRangeSnoc(out + [cur], r, a);
    }
  }

  method SortRanges(rs: seq<IpRange>) returns (s: seq<IpRange>)
    requires Proper(Values(rs))
    ensures |s| == |rs| && Proper(Values(s)) && SameAddresses(Values(s), Values(rs))
    ensures forall i, j :: 0 <= i < j < |s| ==> Val(s[i].start) <= Val(s[j].start)
  {
    s := Sort(rs, RangeLe);
    RangeLeTotal();
    SortSpec(rs, RangeLe);
    SortMembers(rs, RangeLe);
    SortedSameAddresses(s, rs);
    forall i | 0 <= i < |s| ensures Values(s)[i].start <= Values(s)[i].end {
      assert s[i] in rs;
      var k :| 0 <= k < |rs| && rs[k] == s[i];
      assert Values(rs)[k].start <= Values(rs)[k].end;
    }
    forall i, j | 0 <= i < j < |s| ensures Val(s[i].start) <= Val(s[j].start) {
      assert RangeLe(s[i], s[j]);
      CmpSpec(s[i].start, s[j].start);
    }
  }

  /**
   The tests of the merge loop, in words: does r overlap or directly follow
   cur, and does it end later. The successor of the maximum wraps and then
   does not count as adjacent.
   */
  method MergeTests(r: IpRange, cur: IpRange) returns (touches: bool, longer: bool)
    ensures touches <==> Val(r.start) <= Val(cur.end) + 1
    ensures longer <==> Val(r.end) > Val(cur.end)
  {
    var (next, wrapped) := Add1(cur.end);
    touches := Cmp(r.start, cur.end) <= 0 || (!wrapped && Cmp(r.start, next) == 0);
    longer := Cmp(r.end, cur.end) > 0;
    CmpSpec(r.start, cur.end);
    CmpSpec(r.end, cur.end);
    CmpSpec(r.start, next);
    Add1Spec(cur.end);
    ValRange(r.start);
  }

  /** One turn of the merge loop keeps the output coalesced. */
  lemma MergeStep(init: seq<IpRange>, cur: IpRange, r: IpRange, seen: seq<IpRange>, next: seq<IpRange>)
    requires Coalesced(Values(init + [cur]), Values(seen))
    requires Val(cur.start) <= Val(r.start) <= Val(r.end)
    requires next == if Val(r.start) <= Val(cur.end) + 1
                     then init + [if Val(r.end) > Val(cur.end) then IpRange(cur.start, r.end) else cur]
                     else init + [cur] + [r]
    ensures Coalesced(Values(next), Values(seen + [r]))
  {
    var vc, vr := Range(Val(cur.start), Val(cur.end)), Range(Val(r.start), Val(r.end));
    ValuesSnoc(init, cur);
    ValuesSnoc(seen, r);
    if Val(r.start) <= Val(cur.end) + 1 {
      ValuesSnoc(init, if Val(r.end) > Val(cur.end) then IpRange(cur.start, r.end) else cur);
      CoalesceAbsorb(Values(init), vc, vr, Values(seen));
    } else {
      ValuesSnoc(init + [cur], r);
      CoalesceAppend(Values(init), vc, vr, Values(seen));
    }
  }

  /** Sorts by start and coalesces overlapping or adjacent ranges. */
  method MergeRanges(rs: seq<IpRange>) returns (out: seq<IpRange>)
    requires Proper(Values(rs))
    ensures Values(out) == Merged(Values(rs))
  {
    if |rs| == 0 {
      return [];
    }
    var sorted := SortRanges(rs);
    out := [sorted[0]];
    assert Values(out) == Values(sorted[..1]);
    assert Values(sorted)[0].start <= Values(sorted)[0].end;
    for i := 1 to |sorted|
      invariant |out| > 0 && Coalesced(Values(out), Values(sorted[..i]))
      invariant Val(out[|out| - 1].start) <= Val(sorted[i - 1].start)
    {
      ghost var init := out[..|out| - 1];
      var r := sorted[i];
      var cur := out[|out| - 1];
      assert out == init + [cur] && sorted[..i + 1] == sorted[..i] + [r];
      assert Values(sorted)[i].start <= Values(sorted)[i].end;
      var touches, longer := MergeTests(r, cur);
      if touches {
        if longer {
          out := out[|out| - 1 := IpRange(cur.start, r.end)];
        }
      } else {
        out := out + [r];
      }
      MergeStep(init, cur, r, sorted[..i], out);
    }
    assert sorted[..|sorted|] == sorted;
    MergedSpec(Values(rs));
    SeparatedUnique(Values(out), Merged(Values(rs)));
  }

  /** What one turn of the splitting loop must do: emit the head of the split and move to its tail. */
  ghost predicate GoodTurn(start: U128, end: U128, f: Family, p: Prefix, next: Option<U128>)
    requires Val(start) <= Val(end) < Pow2(Width(f))
  {
    var whole := Split(f, Val(start), Val(end));
    if IsFull(start, end) then next == Some(start)
    else if next.None? then whole == [p]
    else Val(start) < Val(next.value) <= Val(end) && whole == [p] + Split(f, Val(next.value), Val(end))
  }

  method EmitBlock(start: U128, end: U128, f: Family) returns (p: Prefix, k: nat)
    requires Val(start) <= Val(end) < Pow2(Width(f))
    ensures k == PickBlock(start, end, Width(f)) <= Width(f)
    ensures p == RawPrefix(f, Val(start), Width(f) - k)
  {
    PickBlockSpec(start, end, Width(f));
    ToAddrSpec(start, f);
    k := PickBlock(start, end, Width(f));
    p := RawPrefix(f, ToAddr(start, Width(f)), Width(f) - k);
  }

  method MoveCursor(start: U128, end: U128, f: Family, k: nat) returns (next: Option<U128>)
    requires Val(start) <= Val(end) < Pow2(Width(f)) && k == PickBlock(start, end, Width(f))
    ensures IsFull(start, end) ==> next == Some(start)
    ensures !IsFull(start, end) ==> LargestBlock(Val(start), Val(end), Width(f), k)
    ensures !IsFull(start, end) ==> (next.None? <==> Val(start) + Pow2(k) > Val(end))
    ensures !IsFull(start, end) && next.Some? ==> Val(next.value) == Val(start) + Pow2(k)
  {
    FullBlock(start, end, Width(f));
    PickBlockSpec(start, end, Width(f));
    if !IsFull(start, end) { NextCursorSpec(start, end, Width(f)); }
    next := NextCursor(start, end, Width(f));
  }

  /** One turn of the splitting loop: the block at the cursor, and the next cursor or None to stop. */
  method SplitTurn(start: U128, end: U128, f: Family) returns (p: Prefix, next: Option<U128>)
    requires Val(start) <= Val(end) < Pow2(Width(f))
    ensures GoodTurn(start, end, f, p, next)
  {
    var k;
    p, k := EmitBlock(start, end, f);
    next := MoveCursor(start, end, f, k);
    if !IsFull(start, end) {
      ghost var q := SplitStep(f, Val(start), Val(end), k);
    }
  }

  /**
   Emits the blocks of an inclusive range. On the full 128-bit range the step
   is computed as zero, the cursor stays put and the source loops for ever
   (LoopStopsIff); on every other range the result is the greedy split.
   */
  method RangeToCIDRs(r: IpRange, f: Family) returns (out: Outcome<seq<Prefix>>)
    requires Val(r.start) <= Val(r.end) < Pow2(Width(f))
    ensures out == if IsFull(r.start, r.end) then Diverges
                   else Done(Split(f, Val(r.start), Val(r.end)))
    ensures out.Done? ==> |out.value| <= 2 * Width(f) - 2
  {
    SplitCountBound(f, Val(r.start), Val(r.end));
    var ps: seq<Prefix> := [];
    var start := r.start;
    ghost var stuck, whole := IsFull(r.start, r.end), Split(f, Val(r.start), Val(r.end));
    ghost var todo := whole;
    while true
      invariant Val(r.start) <= Val(start) <= Val(r.end)
      invariant IsFull(start, r.end) == stuck
      invariant todo == Split(f, Val(start), Val(r.end))
      invariant !stuck ==> whole == ps + todo
      decreases Val(r.end) - Val(start)
    {
      var p, next := SplitTurn(start, r.end, f);
      ghost var done := ps;
      ps := ps + [p];
      if next == Some(start) {
        return Diverges;
      }
      if next.None? {
        break;
      }
      start := next.value;
      todo := Split(f, Val(start), Val(r.end));
      assert done + ([p] + todo) == ps + todo;
    }
    out := Done(ps);
  }

  /** Every IPv6 address is covered: the inputs on which aggregation never returns. */
  ghost predicate CoversAllV6(ps: seq<Prefix>) {
    forall a: nat :: a < SPACE ==> Covers(ps, V6, a)
  }

  /** What Aggregate computes: the canonical form, unless the IPv6 coverage is the whole space. */
  ghost function Aggregated(ps: seq<Prefix>): Outcome<seq<Prefix>> {
    if CoversAllV6(ps) then Diverges else Done(Canonical(ps))
  }

  /** The two prefixes of length one. */
  function Halves(f: Family): seq<Prefix> {
    Pow2Strict(Width(f) - 1, Width(f));
    [RawPrefix(f, 0, 1), RawPrefix(f, Pow2(Width(f) - 1), 1)]
  }

  /** Half b covers the 2^k addresses from b on. */
  lemma {:induction false} HalfContains(f: Family, k: nat, b: nat, a: nat)
    requires k + 1 == Width(f) && Aligned(b, k) && b < Pow2(Width(f)) && b <= a < b + Pow2(k)
    ensures Contains(RawPrefix(f, b, 1), f, a)
  {
    FloorUnique(b, k, b);
  }

  lemma HalfStarts(k: nat)
    ensures Aligned(0, k) && Aligned(Pow2(k), k) && Pow2(k + 1) == Pow2(k) + Pow2(k)
  {
    ZeroAligned(k);
    AlignedStep(0, k);
  }

  lemma HalvesCover(f: Family, k: nat, a: nat)
    requires k + 1 == Width(f) && a < Pow2(k + 1)
    ensures Covers(Halves(f), f, a)
  {
    HalfStarts(k);
    var half := if a < Pow2(k) then Halves(f)[0] else Halves(f)[1];
    HalfContains(f, k, half.addr, a);
    assert half in Halves(f);
  }

  /** The exclusion is needed: aggregating ::/1 and 8000::/1 never returns. */
  lemma HalvesNeverReturn()
    ensures Aggregated(Halves(V6)) == Diverges
  {
    SpaceIsPow2();
    forall a: nat | a < SPACE ensures Covers(Halves(V6), V6, a) { HalvesCover(V6, 127, a); }
  }

  ghost predicate HasFull(rs: seq<IpRange>) {
    exists i :: 0 <= i < |rs| && IsFull(rs[i].start, rs[i].end)
  }

  /** A coalesced IPv6 list holds the full range exactly when everything is covered. */
  lemma {:induction false} FullRangeIff(ps: seq<Prefix>, rs: seq<IpRange>)
    requires Values(rs) == Merged(RangesOf(ps, V6))
    ensures HasFull(rs) <==> CoversAllV6(ps)
  {
    var vs := Values(rs);
    MergedInSpace(ps, V6);
    SpaceIsPow2();
    if HasFull(rs) {
      var i :| 0 <= i < |rs| && IsFull(rs[i].start, rs[i].end);
      forall a: nat | a < SPACE ensures Covers(ps, V6, a) { assert vs[i].start <= a <= vs[i].end; }
    }
    if CoversAllV6(ps) {
      assert InRange(vs, 0);
      var i :| 0 <= i < |vs| && vs[i].start <= 0 <= vs[i].end;
      GapAround(vs, i);
      assert SPACE <= vs[i].end + 1;
      assert IsFull(rs[i].start, rs[i].end);
    }
  }

  lemma {:induction false} V4NeverFull(ps: seq<Prefix>, rs: seq<IpRange>)
    requires Values(rs) == Merged(RangesOf(ps, V4))
    ensures !HasFull(rs)
  {
    MergedInSpace(ps, V4);
    HalfWordIsPow2();
    forall i | 0 <= i < |rs| ensures !IsFull(rs[i].start, rs[i].end) {
      assert Values(rs)[i].end < Pow2(Width(V4));
    }
  }

  function RangeIn(p: Prefix, f: Family): seq<Range> {
    if p.fam == f then [Range(Base(p), Last(p))] else []
  }

  lemma {:induction false} RangesOfSnoc(ps: seq<Prefix>, p: Prefix, f: Family)
    ensures RangesOf(ps + [p], f) == RangesOf(ps, f) + RangeIn(p, f)
  {
    if ps == [] {
      assert ps + [p] == [p];
    } else {
      assert (ps + [p])[1..] == ps[1..] + [p];
      RangesOfSnoc(ps[1..], p, f);
      assert RangesOf(ps, f) == RangeIn(ps[0], f) + RangesOf(ps[1..], f);
      assert RangesOf(ps + [p], f) == RangeIn(ps[0], f) + (RangesOf(ps[1..], f) + RangeIn(p, f));
    }
  }

  /** One more prefix adds its range to its own family's list and nothing to the other's. */
  lemma {:induction false} CollectOwn(rs: seq<IpRange>, ps: seq<Prefix>, p: Prefix, r: IpRange)
    requires Values(rs) == RangesOf(ps, p.fam) && r == RangeOf(Masked(p))
    ensures Values(rs + [r]) == RangesOf(ps + [p], p.fam)
  {
    MaskedBase(p);
    RangeOfMasked(Masked(p));
    ValuesSnoc(rs, r);
    RangesOfSnoc(ps, p, p.fam);
  }

  lemma CollectOther(ps: seq<Prefix>, p: Prefix, f: Family)
    requires f != p.fam
    ensures RangesOf(ps + [p], f) == RangesOf(ps, f)
  {
    RangesOfSnoc(ps, p, f);
  }

  /** Collects the two-word ranges of each family. */
  method CollectRanges(prefixes: seq<Prefix>) returns (v4: seq<IpRange>, v6: seq<IpRange>)
    ensures Values(v4) == RangesOf(prefixes, V4) && Values(v6) == RangesOf(prefixes, V6)
  {
    v4, v6 := [], [];
    for i := 0 to |prefixes|
      invariant Values(v4) == RangesOf(prefixes[..i], V4)
      invariant Values(v6) == RangesOf(prefixes[..i], V6)
    {
      var p := prefixes[i];
      var r := RangeOf(Masked(p));
      assert prefixes[..i + 1] == prefixes[..i] + [p];
      if p.fam == V4 {
        CollectOwn(v4, prefixes[..i], p, r);
        CollectOther(prefixes[..i], p, V6);
        v4 := v4 + [r];
      } else {
        CollectOwn(v6, prefixes[..i], p, r);
        CollectOther(prefixes[..i], p, V4);
        v6 := v6 + [r];
      }
    }
    assert prefixes[..|prefixes|] == prefixes;
  }

  /** Appends the blocks of range i to those of the ranges before it. */
  method EmitNext(ps: seq<Prefix>, rs: seq<IpRange>, i: nat, f: Family) returns (out: Outcome<seq<Prefix>>)
    requires InSpace(Values(rs), f) && i < |rs| && ps == SplitAll(Values(rs), f, i)
    ensures out.Diverges? <==> IsFull(rs[i].start, rs[i].end)
    ensures out.Done? ==> out.value == SplitAll(Values(rs), f, i + 1)
  {
    assert Values(rs)[i].start <= Values(rs)[i].end < Pow2(Width(f));
    var blocks := RangeToCIDRs(rs[i], f);
    out := if blocks.Diverges? then Diverges else Done(ps + blocks.value);
  }

  /** Splits each range in turn and appends the blocks. */
  method EmitBlocks(rs: seq<IpRange>, f: Family) returns (out: Outcome<seq<Prefix>>)
    requires InSpace(Values(rs), f)
    ensures out.Diverges? <==> HasFull(rs)
    ensures out.Done? ==> out.value == SplitAll(Values(rs), f, |rs|)
  {
    out := Done([]);
    for i := 0 to |rs|
      invariant out.Done? && out.value == SplitAll(Values(rs), f, i)
      invariant forall j :: 0 <= j < i ==> !IsFull(rs[j].start, rs[j].end)
    {
      out := EmitNext(out.value, rs, i, f);
      if out.Diverges? {
        return;
      }
    }
  }

  method Aggregate(prefixes: seq<Prefix>) returns (out: Outcome<seq<Prefix>>)
    ensures out == Aggregated(prefixes)
  {
    var v4, v6 := CollectRanges(prefixes);
    RangesOfSpec(prefixes, V4);
    RangesOfSpec(prefixes, V6);
    MergedInSpace(prefixes, V4);
    MergedInSpace(prefixes, V6);
    var m4 := MergeRanges(v4);
    var m6 := MergeRanges(v6);
    V4NeverFull(prefixes, m4);
    FullRangeIff(prefixes, m6);
    var b4 := EmitBlocks(m4, V4);
    var b6 := EmitBlocks(m6, V6);
    if b4.Diverges? || b6.Diverges? {
      return Diverges;
    }
    CanonicalIsAssembled(prefixes);
    out := Done(b4.value + b6.value);
  }

  method OverlapsOwn(p: Prefix, own: seq<Prefix>) returns (hit: bool)
    ensures hit <==> OverlapsAny(p, own)
  {
    for i := 0 to |own|
      invariant forall j :: 0 <= j < i ==> !Overlaps(p, own[j])
    {
      if Overlaps(p, own[i]) {
        return true;
      }
    }
    hit := false;
  }

  /** Splits the input into what survives and what overlaps an own network, both in input order. */
  method Suppress(prefixes: seq<Prefix>, own: seq<Prefix>) returns (kept: seq<Prefix>, suppressed: seq<Prefix>)
    ensures kept == Kept(prefixes, own) && suppressed == Removed(prefixes, own)
  {
    if |own| == 0 {
      NoneHaving(prefixes, MeetsAny(own));
      return prefixes, [];
    }
    kept, suppressed := [], [];
    for i := 0 to |prefixes|
      invariant kept == Kept(prefixes[..i], own) && suppressed == Removed(prefixes[..i], own)
    {
      var p := prefixes[i];
      assert prefixes[..i + 1] == prefixes[..i] + [p];
      SplitSnoc(prefixes[..i], p, MeetsAny(own));
      var hit := OverlapsOwn(p, own);
      if hit {
        suppressed := suppressed + [p];
      } else {
        kept := kept + [p];
      }
    }
    assert prefixes[..|prefixes|] == prefixes;
  }

  datatype NormalizeResult = NormalizeResult(prefixes: seq<Prefix>, suppressed: seq<Prefix>)

  /** Suppress, then aggregate. */
  method Normalize(prefixes: seq<Prefix>, own: seq<Prefix>) returns (out: Outcome<NormalizeResult>)
    ensures out.Diverges? <==> CoversAllV6(Kept(prefixes, own))
    ensures out.Done? ==> out.value == NormalizeResult(Normalized(prefixes, own), Removed(prefixes, own))
  {
    var kept, suppressed := Suppress(prefixes, own);
    var agg := Aggregate(kept);
    if agg.Diverges? {
      return Diverges;
    }
    out := Done(NormalizeResult(agg.value, suppressed));
  }
}
