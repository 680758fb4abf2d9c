/** Suppression of the user's own networks, and how it combines with aggregation. */
module Suppression {
  import opened Prefixes
  import opened Filtering
  import opened Aggregation

  predicate OverlapsAny(p: Prefix, own: seq<Prefix>) {
    exists o: Prefix :: o in own && Overlaps(p, o)
  }

  function MeetsAny(own: seq<Prefix>): Prefix -> bool {
    (p: Prefix) => OverlapsAny(p, own)
  }

  /** The prefixes that survive suppression, in input order. */
  function Kept(ps: seq<Prefix>, own: seq<Prefix>): seq<Prefix> { Lacking(ps, MeetsAny(own)) }

  /** The prefixes that suppression removes, in input order. */
  function Removed(ps: seq<Prefix>, own: seq<Prefix>): seq<Prefix> { Having(ps, MeetsAny(own)) }

  /** What one alias publishes: suppress first, then aggregate. */
  ghost function Normalized(ps: seq<Prefix>, own: seq<Prefix>): seq<Prefix> {
    Canonical(Kept(ps, own))
  }

  lemma KeptMembers(ps: seq<Prefix>, own: seq<Prefix>, p: Prefix)
    ensures p in Kept(ps, own) <==> p in ps && !OverlapsAny(p, own)
  {
    SplitMembers(ps, MeetsAny(own), p);
  }

  /**
   A stable partition: element i lands in the kept list at the place given by
   how many earlier elements were kept, or in the removed list at the place
   given by how many earlier ones were removed, and nothing else is in either.
   */
  lemma StablePartition(ps: seq<Prefix>, own: seq<Prefix>, i: nat)
    requires i < |ps|
    ensures |Kept(ps, own)| + |Removed(ps, own)| == |ps|
    ensures |Kept(ps[..i], own)| + |Removed(ps[..i], own)| == i
    ensures var k := |Kept(ps[..i], own)|;
            if OverlapsAny(ps[i], own)
            then i - k < |Removed(ps, own)| && Removed(ps, own)[i - k] == ps[i]
            else k < |Kept(ps, own)| && Kept(ps, own)[k] == ps[i]
  {
    SplitLength(ps, MeetsAny(own));
    StableSplit(ps, MeetsAny(own), i);
  }

  /** An address is published exactly when an input prefix that overlaps no own network contains it. */
  lemma NormalizedExact(ps: seq<Prefix>, own: seq<Prefix>, f: Family, a: nat)
    ensures Covers(Normalized(ps, own), f, a)
       <==> exists p: Prefix :: p in ps && !OverlapsAny(p, own) && Contains(p, f, a)
  {
    CanonicalCovers(Kept(ps, own));
    if p: Prefix :| p in Kept(ps, own) && Contains(p, f, a) { KeptMembers(ps, own, p); }
    if p: Prefix :| p in ps && !OverlapsAny(p, own) && Contains(p, f, a) { KeptMembers(ps, own, p); }
  }

  /** Nothing published is one of the user's own addresses. */
  lemma NormalizedAvoidsOwn(ps: seq<Prefix>, own: seq<Prefix>, f: Family, a: nat)
    requires Covers(Normalized(ps, own), f, a)
    ensures !Covers(own, f, a)
  {
    NormalizedExact(ps, own, f, a);
    var p: Prefix :| p in ps && !OverlapsAny(p, own) && Contains(p, f, a);
    if o: Prefix :| o in own && Contains(o, f, a) { OverlapsIffShare(p, o); }
  }

  /** A prefix inside another that avoids every own network avoids them too. */
  lemma NarrowerAvoids(p: Prefix, b: Prefix, own: seq<Prefix>)
    requires !OverlapsAny(b, own) && b.fam == p.fam
    requires forall a: nat :: Contains(p, p.fam, a) ==> Contains(b, p.fam, a)
    ensures !OverlapsAny(p, own)
  {
    forall o: Prefix | o in own ensures !Overlaps(p, o) {
      OverlapsIffShare(p, o);
      OverlapsIffShare(b, o);
    }
  }

  /** Every input prefix lies inside the canonical block it shares an address with. */
  lemma InputInsideBlock(ps: seq<Prefix>, p: Prefix, b: Prefix, a: nat)
    requires p in ps && b in Canonical(ps)
    requires Contains(p, b.fam, a) && Contains(b, b.fam, a)
    ensures forall x: nat :: Contains(p, b.fam, x) ==> Contains(b, b.fam, x)
  {
    CanonicalMembers(ps, b);
    assert Inside(p, ps);
    if p.len < b.len {
      BaseBounds(b);
      Nested(b, p, a);
    } else {
      Nested(p, b, a);
    }
  }

  /**
   What aggregating first would lose: exactly the addresses of surviving
   inputs that sit in a merged block touching an own network. In particular
   suppressing first never publishes less.
   */
  lemma SuppressFirstGains(ps: seq<Prefix>, own: seq<Prefix>, f: Family, a: nat)
    ensures Covers(Kept(Canonical(ps), own), f, a) ==> Covers(Normalized(ps, own), f, a)
    ensures Covers(Normalized(ps, own), f, a) && !Covers(Kept(Canonical(ps), own), f, a)
       <==> exists b: Prefix, p: Prefix ::
              b in Canonical(ps) && OverlapsAny(b, own) && Contains(b, f, a)
              && p in ps && !OverlapsAny(p, own) && Contains(p, f, a)
  {
    NormalizedExact(ps, own, f, a);
    CanonicalCovers(ps);
    if Covers(Kept(Canonical(ps), own), f, a) {
      var b: Prefix :| b in Kept(Canonical(ps), own) && Contains(b, f, a);
      KeptMembers(Canonical(ps), own, b);
      assert Covers(Canonical(ps), f, a);
      var p: Prefix :| p in ps && Contains(p, f, a);
      InputInsideBlock(ps, p, b, a);
      NarrowerAvoids(p, b, own);
      forall c: Prefix | c in Canonical(ps) && Contains(c, f, a) ensures c == b {
        CanonicalMembers(ps, b);
        CanonicalMembers(ps, c);
        MaximalUnique(b, c, ps, a);
      }
    } else if Covers(Normalized(ps, own), f, a) {
      var p: Prefix :| p in ps && !OverlapsAny(p, own) && Contains(p, f, a);
      assert Covers(Canonical(ps), f, a);
      var b: Prefix :| b in Canonical(ps) && Contains(b, f, a);
      KeptMembers(Canonical(ps), own, b);
    }
  }

  /** Two inputs that together fill a wider prefix are merged into a block around it. */
  lemma HalvesMerge(low: Prefix, high: Prefix, whole: Prefix, b: Prefix)
    requires low.fam == high.fam == whole.fam && Base(whole) == Base(low)
    requires Last(low) + 1 == Base(high) && Last(high) == Last(whole)
    requires b in Canonical([low, high]) && Contains(b, high.fam, Base(high))
    ensures forall x: nat :: Contains(whole, whole.fam, x) ==> Contains(b, whole.fam, x)
  {
    var ps := [low, high];
    CanonicalMembers(ps, b);
    BaseBounds(b);
    BaseBounds(high);
    forall x: nat | Contains(whole, whole.fam, x) ensures Covers(ps, whole.fam, x) {
      assert Contains(if x <= Last(low) then low else high, whole.fam, x);
    }
    assert Contains(whole, whole.fam, Base(high)) by { BaseBounds(low); }
    if b.len > whole.len { Nested(b, whole, Base(high)); } else { Nested(whole, b, Base(high)); }
  }

  lemma ExampleBlocks(low: Prefix, high: Prefix, mine: Prefix, whole: Prefix)
    requires low == Ipv4(0x01020300, 25) && high == Ipv4(0x01020380, 25)
    requires mine == Ipv4(0x01020300, 26) && whole == Ipv4(0x01020300, 24)
    ensures Base(low) == Base(mine) == Base(whole) == 0x01020300
    ensures Last(low) == 0x0102037F && Base(high) == 0x01020380 && Last(high) == Last(whole) == 0x010203FF
    ensures Last(mine) == 0x0102033F
  {
  }

  /**
   The gain is real: with inputs 1.2.3.0/25 and 1.2.3.128/25 and own network
   1.2.3.0/26, the address 1.2.3.128 is published, but aggregating first
   would have merged it into a /24 and dropped it.
   */
  lemma SuppressFirstGainsStrictly()
    ensures var ps: seq<Prefix> := [Ipv4(0x01020300, 25), Ipv4(0x01020380, 25)];
            var own: seq<Prefix> := [Ipv4(0x01020300, 26)];
            Covers(Normalized(ps, own), V4, 0x01020380) && !Covers(Kept(Canonical(ps), own), V4, 0x01020380)
  {
    var low: Prefix, high: Prefix := Ipv4(0x01020300, 25), Ipv4(0x01020380, 25);
    var mine: Prefix, whole: Prefix := Ipv4(0x01020300, 26), Ipv4(0x01020300, 24);
    ExampleBlocks(low, high, mine, whole);
    LateSuppressionDrops(low, high, mine, whole);
  }

  /** If one half of a merged pair touches an own network and the other does not, suppressing late drops both. */
  lemma LateSuppressionDrops(low: Prefix, high: Prefix, mine: Prefix, whole: Prefix)
    requires low.fam == high.fam == whole.fam == mine.fam && Base(whole) == Base(low) == Base(mine)
    requires Last(low) + 1 == Base(high) && Last(high) == Last(whole) && Last(mine) < Base(high)
    ensures var ps, a := [low, high], Base(high);
            Covers(Normalized(ps, [mine]), low.fam, a) && !Covers(Kept(Canonical(ps), [mine]), low.fam, a)
  {
    var ps, own, f, a := [low, high], [mine], low.fam, Base(high);
    BaseBounds(high);
    BaseBounds(mine);
    BaseBounds(low);
    assert mine in own;
    assert high in ps && Contains(high, f, a);
    assert !OverlapsAny(high, own) by { OverlapsIffShare(high, mine); }
    NormalizedExact(ps, own, f, a);
    if b: Prefix :| b in Kept(Canonical(ps), own) && Contains(b, f, a) {
      KeptMembers(Canonical(ps), own, b);
      HalvesMerge(low, high, whole, b);
      assert Contains(whole, f, Base(mine)) && Contains(mine, f, Base(mine));
      OverlapsIffShare(b, mine);
    }
  }
}
