/**
 The canonical form of a list of prefixes: the maximal prefixes of the space
 it covers, in order. Coalescing each family's address ranges and splitting
 every range greedily produces exactly that list.
 */
module Aggregation {
  import opened Bits
  import opened Prefixes
  import opened Ranges
  import opened Splitting

  /** The inclusive address ranges of the prefixes of one family. */
  function RangesOf(ps: seq<Prefix>, f: Family): seq<Range> {
    if ps == [] then []
    else (if ps[0].fam == f then [Range(Base(ps[0]), Last(ps[0]))] else []) + RangesOf(ps[1..], f)
  }

  ghost predicate InSpace(rs: seq<Range>, f: Family) {
    Proper(rs) && forall i :: 0 <= i < |rs| ==> rs[i].end < Pow2(Width(f))
  }

  /** The greedy blocks of the first n ranges, in turn. */
  ghost function SplitAll(rs: seq<Range>, f: Family, n: nat): seq<Prefix>
    requires InSpace(rs, f) && n <= |rs|
  {
    if n == 0 then [] else SplitAll(rs, f, n - 1) + Split(f, rs[n - 1].start, rs[n - 1].end)
  }

  ghost function FamilyForm(ps: seq<Prefix>, f: Family): seq<Prefix> {
    RangesOfSpec(ps, f);
    MergedInSpace(ps, f);
    var m := Merged(RangesOf(ps, f));
    SplitAll(m, f, |m|)
  }

  /** IPv4 blocks, then IPv6 blocks. */
  ghost function Assembled(ps: seq<Prefix>): seq<Prefix> {
    FamilyForm(ps, V4) + FamilyForm(ps, V6)
  }

  lemma {:induction false} RangesOfCovers(ps: seq<Prefix>, f: Family, a: nat)
    ensures InRange(RangesOf(ps, f), a) <==> Covers(ps, f, a)
  {
    if ps != [] {
      RangesOfCovers(ps[1..], f, a);
      var rs := RangesOf(ps, f);
      assert ps == [ps[0]] + ps[1..];
      CoversConcat([ps[0]], ps[1..], f, a);
      assert Covers([ps[0]], f, a) <==> Contains(ps[0], f, a) by { assert ps[0] in [ps[0]]; }
      if ps[0].fam == f {
        InRangeCons(rs, a);
        assert rs[1..] == RangesOf(ps[1..], f);
      } else {
        assert rs == RangesOf(ps[1..], f);
      }
    }
  }

  lemma {:induction false} RangesOfSpec(ps: seq<Prefix>, f: Family)
    ensures InSpace(RangesOf(ps, f), f)
    ensures |RangesOf(ps, f)| <= |ps|
  {
    if ps != [] {
      RangesOfSpec(ps[1..], f);
      BaseBounds(ps[0]);
    }
  }

  lemma MergedInSpace(ps: seq<Prefix>, f: Family)
    ensures var m := Merged(RangesOf(ps, f));
            Separated(m) && InSpace(m, f) && forall a: nat :: InRange(m, a) <==> Covers(ps, f, a)
  {
    var rs := RangesOf(ps, f);
    RangesOfSpec(ps, f);
    MergedSpec(rs);
    forall a: nat ensures InRange(Merged(rs), a) <==> Covers(ps, f, a) { RangesOfCovers(ps, f, a); }
    forall i | 0 <= i < |Merged(rs)| ensures Merged(rs)[i].end < Pow2(Width(f)) {
      assert InRange(rs, Merged(rs)[i].end);
    }
  }

  lemma SplitCovers(f: Family, c: nat, e: nat, g: Family, a: nat)
    requires c <= e < Pow2(Width(f))
    ensures Covers(Split(f, c, e), g, a) <==> g == f && c <= a <= e
  {
    SplitTiles(f, c, e);
    TilingCovers(Split(f, c, e), f, c, e, g, a);
  }

  /** One more range and its blocks. */
  lemma CoversOneMore(ps: seq<Prefix>, qs: seq<Prefix>, rs: seq<Range>, r: Range, f: Family, g: Family, a: nat)
    requires Covers(ps, g, a) <==> g == f && InRange(rs, a)
    requires Covers(qs, g, a) <==> g == f && r.start <= a <= r.end
    ensures Covers(ps + qs, g, a) <==> g == f && InRange(rs + [r], a)
  {
    CoversConcat(ps, qs, g, a);
    InRangeSnoc(rs, r, a);
  }

  lemma {:induction false} SplitAllCovers(rs: seq<Range>, f: Family, n: nat, g: Family, a: nat)
    requires InSpace(rs, f) && n <= |rs|
    ensures Covers(SplitAll(rs, f, n), g, a) <==> g == f && InRange(rs[..n], a)
  {
    if n > 0 {
      SplitAllCovers(rs, f, n - 1, g, a);
      OneMoreCovers(rs, f, n, g, a);
    }
  }

  lemma OneMoreCovers(rs: seq<Range>, f: Family, n: nat, g: Family, a: nat)
    requires InSpace(rs, f) && 0 < n <= |rs|
    requires Covers(SplitAll(rs, f, n - 1), g, a) <==> g == f && InRange(rs[..n - 1], a)
    ensures Covers(SplitAll(rs, f, n), g, a) <==> g == f && InRange(rs[..n], a)
  {
    var init, r := SplitAll(rs, f, n - 1), rs[n - 1];
    SplitCovers(f, r.start, r.end, g, a);
    CoversOneMore(init, Split(f, r.start, r.end), rs[..n - 1], r, f, g, a);
    assert rs[..n] == rs[..n - 1] + [r];
  }

  /** A block of the form, with the range and the place in its tiling it comes from. */
  lemma {:induction false} SplitAllMember(rs: seq<Range>, f: Family, n: nat, p: Prefix) returns (i: nat, j: nat)
    requires InSpace(rs, f) && n <= |rs| && p in SplitAll(rs, f, n)
    ensures i < n && j < |Split(f, rs[i].start, rs[i].end)| && Split(f, rs[i].start, rs[i].end)[j] == p
    ensures GreedyBlock(p, f, rs[i].end) && rs[i].start <= p.addr
  {
    var last := Split(f, rs[n - 1].start, rs[n - 1].end);
    if p in last {
      i, j :| i == n - 1 && 0 <= j < |last| && last[j] == p;
      SplitTiles(f, rs[i].start, rs[i].end);
      TilingWithin(last, f, rs[i].start, rs[i].end, j);
    } else {
      i, j := SplitAllMember(rs, f, n - 1, p);
    }
  }

  /** p ends before q starts, IPv4 before IPv6. */
  predicate Precedes(p: Prefix, q: Prefix) {
    if p.fam == q.fam then Last(p) < q.addr else p.fam == V4
  }

  ghost predicate Apart(ps: seq<Prefix>) {
    forall i, j :: 0 <= i < j < |ps| ==> Precedes(ps[i], ps[j])
  }

  lemma ApartConcat(ps: seq<Prefix>, qs: seq<Prefix>)
    requires Apart(ps) && Apart(qs)
    requires forall p: Prefix, q: Prefix :: p in ps && q in qs ==> Precedes(p, q)
    ensures Apart(ps + qs)
  {
    var all := ps + qs;
    forall i, j | 0 <= i < j < |all| ensures Precedes(all[i], all[j]) {
      if j < |ps| {
        assert Precedes(ps[i], ps[j]);
      } else if i < |ps| {
        assert ps[i] in ps && qs[j - |ps|] in qs;
      } else {
        assert Precedes(qs[i - |ps|], qs[j - |ps|]);
      }
    }
  }

  lemma SplitApart(f: Family, c: nat, e: nat)
    requires c <= e < Pow2(Width(f))
    ensures Apart(Split(f, c, e))
  {
    var ps := Split(f, c, e);
    SplitTiles(f, c, e);
    forall i, j | 0 <= i < j < |ps| ensures Precedes(ps[i], ps[j]) {
      TilingDisjoint(ps, f, c, e, i, j);
      TilingWithin(ps, f, c, e, i);
      TilingWithin(ps, f, c, e, j);
    }
  }

  lemma SplitMember(f: Family, c: nat, e: nat, p: Prefix)
    requires c <= e < Pow2(Width(f)) && p in Split(f, c, e)
    ensures GreedyBlock(p, f, e) && c <= p.addr
  {
    var ps := Split(f, c, e);
    SplitTiles(f, c, e);
    var i :| 0 <= i < |ps| && ps[i] == p;
    TilingWithin(ps, f, c, e, i);
  }

  lemma {:induction false} SplitAllApart(rs: seq<Range>, f: Family, n: nat)
    requires InSpace(rs, f) && Separated(rs) && n <= |rs|
    ensures Apart(SplitAll(rs, f, n))
  {
    if n > 0 {
      SplitAllApart(rs, f, n - 1);
      OneMoreApart(rs, f, n);
    }
  }

  lemma OneMoreApart(rs: seq<Range>, f: Family, n: nat)
    requires InSpace(rs, f) && Separated(rs) && 0 < n <= |rs| && Apart(SplitAll(rs, f, n - 1))
    ensures Apart(SplitAll(rs, f, n))
  {
    var r := rs[n - 1];
    var init, last := SplitAll(rs, f, n - 1), Split(f, r.start, r.end);
    SplitApart(f, r.start, r.end);
    forall p: Prefix, q: Prefix | p in init && q in last ensures Precedes(p, q) { SplitAllBefore(rs, f, n - 1, p, q); }
    ApartConcat(init, last);
  }

  lemma {:induction false} SplitAllBefore(rs: seq<Range>, f: Family, n: nat, p: Prefix, q: Prefix)
    requires InSpace(rs, f) && Separated(rs) && n < |rs|
    requires p in SplitAll(rs, f, n) && q in Split(f, rs[n].start, rs[n].end)
    ensures Precedes(p, q)
  {
    SplitMember(f, rs[n].start, rs[n].end, q);
    var i, j := SplitAllMember(rs, f, n, p);
  }

  lemma FamilyFormCovers(ps: seq<Prefix>, f: Family, g: Family, a: nat)
    ensures Covers(FamilyForm(ps, f), g, a) <==> g == f && Covers(ps, f, a)
  {
    RangesOfSpec(ps, f);
    MergedInSpace(ps, f);
    var m := Merged(RangesOf(ps, f));
    SplitAllCovers(m, f, |m|, g, a);
    assert m[..|m|] == m;
  }

  lemma AssembledCovers(ps: seq<Prefix>)
    ensures SameCoverage(Assembled(ps), ps)
  {
    forall f, a: nat ensures Covers(Assembled(ps), f, a) <==> Covers(ps, f, a) {
      CoversConcat(FamilyForm(ps, V4), FamilyForm(ps, V6), f, a);
      FamilyFormCovers(ps, V4, f, a);
      FamilyFormCovers(ps, V6, f, a);
    }
  }

  /** Every emitted prefix is a maximal prefix of the covered space. */
  lemma FamilyFormMaximal(ps: seq<Prefix>, f: Family, p: Prefix)
    requires p in FamilyForm(ps, f)
    ensures p.fam == f && Maximal(p, ps)
  {
    RangesOfSpec(ps, f);
    MergedInSpace(ps, f);
    var m := Merged(RangesOf(ps, f));
    var i, j := SplitAllMember(m, f, |m|, p);
    var s, e := m[i].start, m[i].end;
    forall a: nat | Contains(p, f, a) ensures Covers(ps, f, a) { assert InRange(m, a); }
    forall w: Prefix | w.fam == f && w.len < p.len && Contains(w, f, p.addr) ensures !Inside(w, ps) {
      SplitTiles(f, s, e);
      TilingMaximal(Split(f, s, e), f, s, e, j, w);
      GapAround(m, i);
      var outside := if Base(w) < s then s - 1 else e + 1;
      assert Contains(w, f, outside) && !InRange(m, outside);
    }
  }

  lemma AssembledMembers(ps: seq<Prefix>, p: Prefix)
    ensures p in Assembled(ps) <==> Maximal(p, ps)
  {
    if p in FamilyForm(ps, V4) { FamilyFormMaximal(ps, V4, p); }
    if p in FamilyForm(ps, V6) { FamilyFormMaximal(ps, V6, p); }
    if Maximal(p, ps) {
      BaseBounds(p);
      AssembledCovers(ps);
      assert Contains(p, p.fam, p.addr);
      assert Covers(Assembled(ps), p.fam, p.addr);
      var q: Prefix :| q in Assembled(ps) && Contains(q, p.fam, p.addr);
      if q in FamilyForm(ps, V4) { FamilyFormMaximal(ps, V4, q); } else { FamilyFormMaximal(ps, V6, q); }
      MaximalUnique(p, q, ps, p.addr);
    }
  }

  /** Two maximal prefixes that share an address are the same prefix. */
  lemma MaximalUnique(p: Prefix, q: Prefix, ps: seq<Prefix>, a: nat)
    requires Maximal(p, ps) && Maximal(q, ps)
    requires Contains(p, p.fam, a) && Contains(q, p.fam, a)
    ensures p == q
  {
    BaseBounds(p);
    BaseBounds(q);
    if p.len < q.len { Nested(q, p, a); } else { Nested(p, q, a); }
  }

  lemma PrecedesMeans(p: Prefix, q: Prefix)
    requires Precedes(p, q) && Masked(q) == q
    ensures Less(p, q) && !Overlaps(p, q)
  {
    BaseBounds(p);
    OverlapsIffShare(p, q);
  }

  lemma AssembledApart(ps: seq<Prefix>)
    ensures Apart(Assembled(ps))
  {
    MergedInSpace(ps, V4);
    MergedInSpace(ps, V6);
    SplitAllApart(Merged(RangesOf(ps, V4)), V4, |Merged(RangesOf(ps, V4))|);
    SplitAllApart(Merged(RangesOf(ps, V6)), V6, |Merged(RangesOf(ps, V6))|);
    forall p: Prefix, q: Prefix | p in FamilyForm(ps, V4) && q in FamilyForm(ps, V6) ensures Precedes(p, q) {
      FamilyFormMaximal(ps, V4, p);
      FamilyFormMaximal(ps, V6, q);
    }
    ApartConcat(FamilyForm(ps, V4), FamilyForm(ps, V6));
  }

  lemma AssembledSorted(ps: seq<Prefix>)
    ensures StrictlySorted(Assembled(ps))
    ensures forall i, j :: 0 <= i < j < |Assembled(ps)| ==> !Overlaps(Assembled(ps)[i], Assembled(ps)[j])
  {
    var c := Assembled(ps);
    AssembledApart(ps);
    forall i, j | 0 <= i < j < |c| ensures Less(c[i], c[j]) && !Overlaps(c[i], c[j]) {
      AssembledMembers(ps, c[j]);
      PrecedesMeans(c[i], c[j]);
    }
  }

  /** Coalescing and splitting greedily finds the maximal prefixes of the covered space, all of them, in order. */
  lemma AssembledIsCanonical(ps: seq<Prefix>)
    ensures IsCanonical(Assembled(ps), ps)
  {
    AssembledSorted(ps);
    forall p: Prefix ensures p in Assembled(ps) <==> Maximal(p, ps) { AssembledMembers(ps, p); }
  }

  ghost predicate IsCanonical(c: seq<Prefix>, ps: seq<Prefix>) {
    StrictlySorted(c) && forall p: Prefix :: p in c <==> Maximal(p, ps)
  }

  /** The canonical form: the maximal prefixes of the covered space, in order. */
  ghost function Canonical(ps: seq<Prefix>): seq<Prefix> {
    AssembledIsCanonical(ps);
    var c: seq<Prefix> :| IsCanonical(c, ps);
    c
  }

  lemma CanonicalIsAssembled(ps: seq<Prefix>)
    ensures Canonical(ps) == Assembled(ps)
  {
    AssembledIsCanonical(ps);
    SortedListUnique(Canonical(ps), Assembled(ps));
  }

  /** Exact coverage: the canonical form neither drops nor adds an address. */
  lemma CanonicalCovers(ps: seq<Prefix>)
    ensures SameCoverage(Canonical(ps), ps)
  {
    CanonicalIsAssembled(ps);
    AssembledCovers(ps);
  }

  lemma CanonicalMembers(ps: seq<Prefix>, p: Prefix)
    ensures p in Canonical(ps) <==> Maximal(p, ps)
  {
    AssembledIsCanonical(ps);
  }

  /** Strictly sorted, IPv4 first, and no two prefixes share an address. */
  lemma CanonicalSorted(ps: seq<Prefix>)
    ensures StrictlySorted(Canonical(ps))
    ensures forall i, j :: 0 <= i < j < |Canonical(ps)| ==> !Overlaps(Canonical(ps)[i], Canonical(ps)[j])
  {
    CanonicalIsAssembled(ps);
    AssembledSorted(ps);
  }

  /** IPv4 before IPv6, and within a family every prefix ends before the next one starts. */
  lemma CanonicalOrder(ps: seq<Prefix>, i: nat, j: nat)
    requires i < j < |Canonical(ps)|
    ensures var p, q := Canonical(ps)[i], Canonical(ps)[j];
            if p.fam != q.fam then p.fam == V4 && q.fam == V6 else Last(p) < q.addr
  {
    CanonicalIsAssembled(ps);
    AssembledApart(ps);
    assert Precedes(Canonical(ps)[i], Canonical(ps)[j]);
  }

  lemma MaximalDependsOnCoverage(p: Prefix, xs: seq<Prefix>, ys: seq<Prefix>)
    requires SameCoverage(xs, ys)
    ensures Maximal(p, xs) <==> Maximal(p, ys)
  {
    assert forall q: Prefix :: Inside(q, xs) <==> Inside(q, ys);
  }

  /** Two inputs have the same canonical list exactly when they cover the same addresses. */
  lemma CanonicalIffSameCoverage(xs: seq<Prefix>, ys: seq<Prefix>)
    ensures Canonical(xs) == Canonical(ys) <==> SameCoverage(xs, ys)
  {
    CanonicalCovers(xs);
    CanonicalCovers(ys);
    if SameCoverage(xs, ys) {
      CanonicalSorted(xs);
      CanonicalSorted(ys);
      forall p: Prefix ensures p in Canonical(xs) <==> p in Canonical(ys) {
        CanonicalMembers(xs, p);
        CanonicalMembers(ys, p);
        MaximalDependsOnCoverage(p, xs, ys);
      }
      SortedListUnique(Canonical(xs), Canonical(ys));
    }
  }

  /** Canonicalizing a canonical list changes nothing. */
  lemma CanonicalIdempotent(ps: seq<Prefix>)
    ensures Canonical(Canonical(ps)) == Canonical(ps)
  {
    CanonicalCovers(ps);
    CanonicalIffSameCoverage(Canonical(ps), ps);
  }
}
