/** The canonical form is the shortest list with its coverage, and the only one of that length. */
module Minimality {
  import opened Bits
  import opened Counting
  import opened Prefixes
  import opened Aggregation

  ghost function CoveringIndex(qs: seq<Prefix>, p: Prefix): (k: nat)
    requires Covers(qs, p.fam, p.addr)
    ensures k < |qs| && Contains(qs[k], p.fam, p.addr)
  {
    var q: Prefix :| q in qs && Contains(q, p.fam, p.addr);
    var k :| 0 <= k < |qs| && qs[k] == q;
    k
  }

  /** A prefix of an exact cover that touches a maximal prefix lies inside it. */
  lemma CoverInsideMaximal(p: Prefix, q: Prefix, ps: seq<Prefix>)
    requires Maximal(p, ps) && Inside(q, ps) && Contains(q, p.fam, p.addr)
    ensures q.len >= p.len
    ensures forall a: nat :: Contains(q, p.fam, a) ==> Contains(p, p.fam, a)
  {
    BaseBounds(p);
    Nested(q, p, p.addr);
  }

  /** One prefix of an exact cover cannot meet two canonical prefixes. */
  lemma CoverMeetsOne(ps: seq<Prefix>, q: Prefix, i: nat, j: nat)
    requires i < j < |Canonical(ps)| && Inside(q, ps)
    ensures var c := Canonical(ps);
            !(Contains(q, c[i].fam, c[i].addr) && Contains(q, c[j].fam, c[j].addr))
  {
    var p, r := Canonical(ps)[i], Canonical(ps)[j];
    CanonicalSorted(ps);
    CanonicalMembers(ps, p);
    if Contains(q, p.fam, p.addr) && Contains(q, r.fam, r.addr) {
      CoverInsideMaximal(p, q, ps);
      BaseBounds(r);
      OverlapsIffShare(p, r);
    }
  }

  /** For each canonical prefix, a member of the cover that contains its first address. */
  ghost function Representatives(ps: seq<Prefix>, qs: seq<Prefix>): (w: seq<nat>)
    requires SameCoverage(qs, ps)
    ensures |w| == |Canonical(ps)|
    ensures forall i :: 0 <= i < |w| ==> w[i] < |qs| && Contains(qs[w[i]], Canonical(ps)[i].fam, Canonical(ps)[i].addr)
  {
    var c := Canonical(ps);
    CanonicalStartsCovered(ps, qs);
    seq(|c|, i requires 0 <= i < |c| && Covers(qs, c[i].fam, c[i].addr) => CoveringIndex(qs, c[i]))
  }

  lemma CanonicalStartsCovered(ps: seq<Prefix>, qs: seq<Prefix>)
    requires SameCoverage(qs, ps)
    ensures forall i :: 0 <= i < |Canonical(ps)| ==> Covers(qs, Canonical(ps)[i].fam, Canonical(ps)[i].addr)
  {
    var c := Canonical(ps);
    CanonicalCovers(ps);
    forall i | 0 <= i < |c| ensures Covers(qs, c[i].fam, c[i].addr) {
      BaseBounds(c[i]);
      assert Contains(c[i], c[i].fam, c[i].addr);
      assert Covers(c, c[i].fam, c[i].addr);
    }
  }

  lemma MemberInside(ps: seq<Prefix>, qs: seq<Prefix>, k: nat)
    requires SameCoverage(qs, ps) && k < |qs|
    ensures Inside(qs[k], ps)
  {
    forall a: nat | Contains(qs[k], qs[k].fam, a) ensures Covers(ps, qs[k].fam, a) {
      assert Covers(qs, qs[k].fam, a);
    }
  }

  lemma RepresentativesDistinct(ps: seq<Prefix>, qs: seq<Prefix>)
    requires SameCoverage(qs, ps)
    ensures Distinct(Representatives(ps, qs))
  {
    var w := Representatives(ps, qs);
    forall i, j | 0 <= i < j < |w| ensures w[i] != w[j] {
      MemberInside(ps, qs, w[i]);
      CoverMeetsOne(ps, qs[w[i]], i, j);
    }
  }

  /** Minimality: no list of prefixes with the same coverage is shorter than the canonical form. */
  lemma CanonicalMinimal(ps: seq<Prefix>, qs: seq<Prefix>)
    requires SameCoverage(qs, ps)
    ensures |Canonical(ps)| <= |qs|
  {
    RepresentativesDistinct(ps, qs);
    Pigeonhole(Representatives(ps, qs), |qs|);
  }

  /** In a cover no longer than the canonical form, every member represents some canonical prefix. */
  lemma EveryMemberRepresents(ps: seq<Prefix>, qs: seq<Prefix>, k: nat) returns (i: nat)
    requires SameCoverage(qs, ps) && |qs| == |Canonical(ps)| && k < |qs|
    ensures i < |Canonical(ps)| && Representatives(ps, qs)[i] == k
  {
    var w := Representatives(ps, qs);
    RepresentativesDistinct(ps, qs);
    i := Onto(w, |qs|, k);
  }

  /** A member of such a cover reaches every address of the canonical prefix it represents. */
  lemma MemberFills(ps: seq<Prefix>, qs: seq<Prefix>, i: nat, a: nat)
    requires SameCoverage(qs, ps) && |qs| == |Canonical(ps)| && i < |Canonical(ps)|
    requires var c := Canonical(ps)[i]; Contains(c, c.fam, a)
    ensures var c := Canonical(ps)[i]; Contains(qs[Representatives(ps, qs)[i]], c.fam, a)
  {
    var c, w := Canonical(ps), Representatives(ps, qs);
    CanonicalCovers(ps);
    assert Covers(c, c[i].fam, a);
    assert Covers(qs, c[i].fam, a);
    var q: Prefix :| q in qs && Contains(q, c[i].fam, a);
    var k :| 0 <= k < |qs| && qs[k] == q;
    var j := EveryMemberRepresents(ps, qs, k);
    MemberInside(ps, qs, k);
    CanonicalMembers(ps, c[j]);
    CoverInsideMaximal(c[j], q, ps);
    CanonicalSorted(ps);
    if i != j { OverlapsIffShare(c[Min(i, j)], c[if i < j then j else i]); }
  }

  /** A prefix inside p that reaches both ends of p is p. */
  lemma FillsIsSame(p: Prefix, q: Prefix)
    requires p.fam == q.fam && Masked(p) == p
    requires Base(p) <= Base(q) && Last(q) <= Last(p)
    requires Contains(q, p.fam, Base(p)) && Contains(q, p.fam, Last(p))
    ensures Masked(q) == p
  {
    if Host(p) < Host(q) { Pow2Strict(Host(p), Host(q)); }
    if Host(q) < Host(p) { Pow2Strict(Host(q), Host(p)); }
  }

  lemma MemberWithin(ps: seq<Prefix>, qs: seq<Prefix>, i: nat)
    requires SameCoverage(qs, ps) && i < |Canonical(ps)|
    ensures var c, q := Canonical(ps)[i], qs[Representatives(ps, qs)[i]];
            q.fam == c.fam && Masked(c) == c && Base(c) <= Base(q) && Last(q) <= Last(c)
  {
    var c, k := Canonical(ps)[i], Representatives(ps, qs)[i];
    CanonicalMembers(ps, c);
    MemberInside(ps, qs, k);
    CoverInsideMaximal(c, qs[k], ps);
    BaseBounds(qs[k]);
    assert Contains(qs[k], c.fam, Base(qs[k])) && Contains(qs[k], c.fam, Last(qs[k]));
  }

  /**
   The minimum is attained once: a list with the same coverage and the same
   length is the canonical form up to order and host bits.
   */
  lemma MinimalIsCanonical(ps: seq<Prefix>, qs: seq<Prefix>, k: nat)
    requires SameCoverage(qs, ps) && |qs| == |Canonical(ps)| && k < |qs|
    ensures Masked(qs[k]) in Canonical(ps)
  {
    var i := EveryMemberRepresents(ps, qs, k);
    var c := Canonical(ps)[i];
    MemberWithin(ps, qs, i);
    BaseBounds(c);
    MemberFills(ps, qs, i, Base(c));
    MemberFills(ps, qs, i, Last(c));
    FillsIsSame(c, qs[k]);
  }

  /** Aggregation never makes a list longer. */
  lemma CanonicalNotLonger(ps: seq<Prefix>)
    ensures |Canonical(ps)| <= |ps|
  {
    CanonicalMinimal(ps, ps);
  }

  /** Lists may be aggregated before they are merged without changing the result. */
  lemma CanonicalMerges(xs: seq<Prefix>, ys: seq<Prefix>)
    ensures Canonical(Canonical(xs) + Canonical(ys)) == Canonical(xs + ys)
  {
    CanonicalCovers(xs);
    CanonicalCovers(ys);
    forall f, a: nat ensures Covers(Canonical(xs) + Canonical(ys), f, a) <==> Covers(xs + ys, f, a) {
      CoversConcat(Canonical(xs), Canonical(ys), f, a);
      CoversConcat(xs, ys, f, a);
    }
    CanonicalIffSameCoverage(Canonical(xs) + Canonical(ys), xs + ys);
  }
}
