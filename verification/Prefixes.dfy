/**
 CIDR prefixes (section 3.1 of RFC 4632, section 2.3 of RFC 4291) as the
 standard library's netip values hold them: a family, an address that may have
 host bits set, and a prefix length. Address space is counted in naturals.
 */
module Prefixes {
  import opened Bits

  datatype Family = V4 | V6

  function Width(f: Family): nat {
    match f
    case V4 => 32
    case V6 => 128
  }

  datatype RawPrefix = RawPrefix(fam: Family, addr: nat, len: nat)

  type Prefix = p: RawPrefix | p.len <= Width(p.fam) && p.addr < Pow2(Width(p.fam))
    witness RawPrefix(V4, 0, 0)

  /** An IPv4 prefix from its 32-bit address. */
  function Ipv4(addr: nat, len: nat): Prefix
    requires addr < 0x1_0000_0000 && len <= 32
  {
    HalfWordIsPow2();
    RawPrefix(V4, addr, len)
  }

  /** Number of host bits. */
  function Host(p: Prefix): nat { Width(p.fam) - p.len }

  /** First address of the prefix. */
  function Base(p: Prefix): nat { Floor(p.addr, Host(p)) }

  /** Last address of the prefix. */
  function Last(p: Prefix): nat { Base(p) + Pow2(Host(p)) - 1 }

  /** netip.Prefix.Masked. */
  function Masked(p: Prefix): Prefix {
    FloorBounds(p.addr, Host(p));
    RawPrefix(p.fam, Base(p), p.len)
  }

  predicate Contains(p: Prefix, f: Family, a: nat) {
    p.fam == f && Base(p) <= a <= Last(p)
  }

  /** netip.Prefix.Overlaps: same family and same address after masking both to the shorter length. */
  predicate Overlaps(p: Prefix, o: Prefix) {
    && p.fam == o.fam
    && var host := Width(p.fam) - Min(p.len, o.len);
    Floor(p.addr, host) == Floor(o.addr, host)
  }

  ghost predicate Covers(ps: seq<Prefix>, f: Family, a: nat) {
    exists p: Prefix :: p in ps && Contains(p, f, a)
  }

  ghost predicate SameCoverage(ps: seq<Prefix>, qs: seq<Prefix>) {
    forall f, a: nat :: Covers(ps, f, a) <==> Covers(qs, f, a)
  }

  /** Every address of q is covered by ps. */
  ghost predicate Inside(q: Prefix, ps: seq<Prefix>) {
    forall a: nat :: Contains(q, q.fam, a) ==> Covers(ps, q.fam, a)
  }

  /** q is a masked prefix inside the space of ps, and no wider prefix around it is. */
  ghost predicate Maximal(q: Prefix, ps: seq<Prefix>) {
    && Masked(q) == q
    && Inside(q, ps)
    && forall w: Prefix :: w.fam == q.fam && w.len < q.len && Contains(w, q.fam, q.addr) ==> !Inside(w, ps)
  }

  /** Three-way comparison: IPv4 before IPv6, then address, then length. */
  function ComparePrefix(a: Prefix, b: Prefix): int {
    if a.fam != b.fam then (if a.fam == V4 then -1 else 1)
    else if a.addr != b.addr then (if a.addr < b.addr then -1 else 1)
    else a.len - b.len
  }

  predicate Less(a: Prefix, b: Prefix) { ComparePrefix(a, b) < 0 }

  predicate StrictlySorted(ps: seq<Prefix>) {
    forall i, j :: 0 <= i < j < |ps| ==> Less(ps[i], ps[j])
  }

  /** The order, said outright: IPv4 first, then by address, then the shorter length. */
  lemma LessMeans(a: Prefix, b: Prefix)
    ensures Less(a, b) <==> if a.fam != b.fam then a.fam == V4
                            else a.addr < b.addr || (a.addr == b.addr && a.len < b.len)
  {
  }

  lemma BaseBounds(p: Prefix)
    ensures Base(p) <= p.addr <= Last(p) < Pow2(Width(p.fam))
    ensures Aligned(Base(p), Host(p))
  {
    FloorBounds(p.addr, Host(p));
    AlignedFits(Base(p), Host(p), Width(p.fam));
  }

  /** A prefix whose address has no host bits is its own mask, and masking changes no membership. */
  lemma MaskedBase(p: Prefix)
    ensures Base(Masked(p)) == Base(p)
    ensures Masked(Masked(p)) == Masked(p)
    ensures forall f, a: nat :: Contains(Masked(p), f, a) <==> Contains(p, f, a)
  {
    FloorBounds(p.addr, Host(p));
    FloorUnique(Base(p), Host(p), Base(p));
  }

  /** Two prefixes of one family that share an address are nested. */
  lemma Nested(p: Prefix, w: Prefix, a: nat)
    requires w.fam == p.fam && w.len <= p.len
    requires Contains(p, p.fam, a) && Contains(w, p.fam, a)
    ensures Base(w) <= Base(p) && Last(p) <= Last(w)
    ensures w.len == p.len ==> Base(w) == Base(p)
  {
    BaseBounds(p);
    BaseBounds(w);
    Laminar(Base(p), Host(p), Base(w), Host(w), a);
  }

  /** Overlaps is exactly sharing an address. */
  lemma OverlapsIffShare(p: Prefix, o: Prefix)
    ensures Overlaps(p, o) <==> exists a: nat :: Contains(p, p.fam, a) && Contains(o, p.fam, a)
  {
    if p.fam == o.fam {
      if p.len <= o.len { OverlapsShorter(p, o); } else { OverlapsShorter(o, p); }
    }
  }

  lemma OverlapsShorter(w: Prefix, p: Prefix)
    requires w.fam == p.fam && w.len <= p.len
    ensures Overlaps(w, p) == Overlaps(p, w)
    ensures Overlaps(w, p) ==> Contains(p, p.fam, p.addr) && Contains(w, p.fam, p.addr)
    ensures forall a: nat :: Contains(p, p.fam, a) && Contains(w, p.fam, a) ==> Overlaps(w, p)
  {
    BaseBounds(p);
    FloorBounds(p.addr, Host(w));
    forall a: nat | Contains(p, p.fam, a) && Contains(w, p.fam, a)
      ensures Overlaps(w, p)
    {
      Nested(p, w, a);
      BaseBounds(w);
      FloorUnique(p.addr, Host(w), Base(w));
    }
  }

  lemma LessTransitive(a: Prefix, b: Prefix, c: Prefix)
    requires Less(a, b) && Less(b, c)
    ensures Less(a, c)
  {
  }

  lemma HeadIsLeast(xs: seq<Prefix>, p: Prefix)
    requires StrictlySorted(xs) && xs != [] && p in xs
    ensures p == xs[0] || Less(xs[0], p)
    ensures p in xs[1..] <==> p != xs[0]
  {
    if p in xs[1..] {
      var k :| 1 <= k < |xs| && xs[k] == p;
      assert Less(xs[0], xs[k]);
    }
  }

  /** A strictly sorted list is determined by its elements. */
  lemma {:induction false} SortedListUnique(xs: seq<Prefix>, ys: seq<Prefix>)
    requires StrictlySorted(xs) && StrictlySorted(ys)
    requires forall p: Prefix :: p in xs <==> p in ys
    ensures xs == ys
  {
    assert forall i :: 0 <= i < |xs| ==> xs[i] in ys;
    assert forall i :: 0 <= i < |ys| ==> ys[i] in xs;
    if xs != [] && ys != [] {
      HeadIsLeast(xs, ys[0]);
      HeadIsLeast(ys, xs[0]);
      forall p: Prefix ensures p in xs[1..] <==> p in ys[1..] {
        if p in xs { HeadIsLeast(xs, p); HeadIsLeast(ys, p); }
      }
      SortedListUnique(xs[1..], ys[1..]);
    }
  }

  lemma CoversConcat(ps: seq<Prefix>, qs: seq<Prefix>, f: Family, a: nat)
    ensures Covers(ps + qs, f, a) <==> Covers(ps, f, a) || Covers(qs, f, a)
  {
    if p: Prefix :| p in ps && Contains(p, f, a) { assert p in ps + qs; }
    if p: Prefix :| p in qs && Contains(p, f, a) { assert p in ps + qs; }
  }
}
