/** The last-good snapshot: its canonical list of prefixes and its text form, one prefix per line. */
module Snapshot {
  import opened Counting
  import opened Prefixes
  import opened Sorting

  function MaskAll(ps: seq<Prefix>): seq<Prefix> {
    if ps == [] then [] else [Masked(ps[0])] + MaskAll(ps[1..])
  }

  predicate PrefixLe(a: Prefix, b: Prefix) { ComparePrefix(a, b) <= 0 }

  /** slices.Compact: drops repeats of the element before. */
  function Compact(ps: seq<Prefix>): seq<Prefix> {
    if |ps| <= 1 then ps
    else if ps[0] == ps[1] then Compact(ps[1..])
    else [ps[0]] + Compact(ps[1..])
  }

  /** The list a snapshot holds: masked, sorted, without duplicates. */
  function SnapshotOf(ps: seq<Prefix>): seq<Prefix> {
    Compact(Sort(MaskAll(ps), PrefixLe))
  }

  /** p is the mask of one of ps. */
  ghost predicate MaskedIn(p: Prefix, ps: seq<Prefix>) {
    exists q: Prefix :: q in ps && Masked(q) == p
  }

  ghost predicate AllMasked(ps: seq<Prefix>) {
    forall i :: 0 <= i < |ps| ==> Masked(ps[i]) == ps[i]
  }

  lemma {:induction false} MaskAllMembers(ps: seq<Prefix>, p: Prefix)
    ensures p in MaskAll(ps) <==> MaskedIn(p, ps)
    ensures |MaskAll(ps)| == |ps|
  {
    if ps != [] {
      MaskAllMembers(ps[1..], p);
      if p in MaskAll(ps) && p != Masked(ps[0]) {
        var q: Prefix :| q in ps[1..] && Masked(q) == p;
        assert q in ps;
      }
    }
  }

  lemma PrefixLeTotal()
    ensures TotalPreorder(PrefixLe)
  {
  }

  /** Compacting a sorted list leaves a strictly sorted one with the same members. */
  lemma {:induction false} CompactSpec(ps: seq<Prefix>)
    requires SortedBy(ps, PrefixLe)
    ensures StrictlySorted(Compact(ps))
    ensures forall p: Prefix :: p in Compact(ps) <==> p in ps
    ensures |Compact(ps)| <= |ps| && (ps != [] ==> Compact(ps) != [] && Compact(ps)[0] == ps[0])
  {
    if |ps| > 1 {
      CompactSpec(ps[1..]);
      var tail := Compact(ps[1..]);
      assert PrefixLe(ps[0], ps[1]);
      assert ps[1] == ps[1..][0];
      if ps[0] != ps[1] {
        ConsSorted(ps[0], tail);
      }
      assert forall p: Prefix :: p in ps <==> p == ps[0] || p in ps[1..];
    }
  }

  lemma ConsSorted(p: Prefix, tail: seq<Prefix>)
    requires StrictlySorted(tail) && tail != [] && Less(p, tail[0])
    ensures StrictlySorted([p] + tail)
  {
    forall j | 0 <= j < |tail| ensures Less(p, tail[j]) {
      if j > 0 { LessTransitive(p, tail[0], tail[j]); }
    }
  }

  /** A snapshot is strictly sorted and holds exactly the masked inputs. */
  lemma SnapshotSpec(ps: seq<Prefix>)
    ensures StrictlySorted(SnapshotOf(ps))
    ensures forall p: Prefix :: p in SnapshotOf(ps) <==> MaskedIn(p, ps)
    ensures |SnapshotOf(ps)| <= |ps| && (ps != [] ==> SnapshotOf(ps) != [])
  {
    PrefixLeTotal();
    SortSpec(MaskAll(ps), PrefixLe);
    SortMembers(MaskAll(ps), PrefixLe);
    CompactSpec(Sort(MaskAll(ps), PrefixLe));
    forall p: Prefix ensures p in SnapshotOf(ps) <==> MaskedIn(p, ps) { MaskAllMembers(ps, p); }
    MaskAllMembers(ps, RawPrefix(V4, 0, 0));
  }

  lemma SnapshotMasked(ps: seq<Prefix>)
    ensures AllMasked(SnapshotOf(ps))
  {
    var s := SnapshotOf(ps);
    SnapshotSpec(ps);
    forall i | 0 <= i < |s| ensures Masked(s[i]) == s[i] {
      assert s[i] in s;
      var q: Prefix :| q in ps && Masked(q) == s[i];
      MaskedBase(q);
    }
  }

  /** The file's order: IPv4 before IPv6, then by address, and of equal addresses the shorter length first. */
  lemma SnapshotOrder(ps: seq<Prefix>, i: nat, j: nat)
    requires i < j < |SnapshotOf(ps)|
    ensures var p, q := SnapshotOf(ps)[i], SnapshotOf(ps)[j];
            if p.fam != q.fam then p.fam == V4 && q.fam == V6
            else p.addr < q.addr || (p.addr == q.addr && p.len < q.len)
  {
    SnapshotSpec(ps);
    LessMeans(SnapshotOf(ps)[i], SnapshotOf(ps)[j]);
  }

  /** Snapshotting keeps the covered addresses. */
  lemma SnapshotCovers(ps: seq<Prefix>)
    ensures SameCoverage(SnapshotOf(ps), ps)
  {
    SnapshotSpec(ps);
    forall f, a: nat ensures Covers(SnapshotOf(ps), f, a) <==> Covers(ps, f, a) {
      if p: Prefix :| p in SnapshotOf(ps) && Contains(p, f, a) {
        var q: Prefix :| q in ps && Masked(q) == p;
        MaskedBase(q);
      }
      if q: Prefix :| q in ps && Contains(q, f, a) {
        MaskedBase(q);
        assert Masked(q) in SnapshotOf(ps);
      }
    }
  }

  ghost predicate SameMasked(xs: seq<Prefix>, ys: seq<Prefix>) {
    forall p: Prefix :: MaskedIn(p, xs) <==> MaskedIn(p, ys)
  }

  /** Two lists give the same snapshot exactly when they have the same set of masked prefixes. */
  lemma SnapshotIffSameMasked(xs: seq<Prefix>, ys: seq<Prefix>)
    ensures SnapshotOf(xs) == SnapshotOf(ys) <==> SameMasked(xs, ys)
  {
    SnapshotSpec(xs);
    SnapshotSpec(ys);
    if SameMasked(xs, ys) { SortedListUnique(SnapshotOf(xs), SnapshotOf(ys)); }
  }

  /** Snapshotting a snapshot changes nothing. */
  lemma SnapshotIdempotent(ps: seq<Prefix>)
    ensures SnapshotOf(SnapshotOf(ps)) == SnapshotOf(ps)
  {
    var s := SnapshotOf(ps);
    SnapshotSpec(ps);
    SnapshotMasked(ps);
    SnapshotSpec(s);
    forall p: Prefix ensures p in SnapshotOf(s) <==> p in s {
      if p in s {
        var i :| 0 <= i < |s| && s[i] == p;
        assert Masked(p) == p;
      }
      if p in SnapshotOf(s) {
        var q: Prefix :| q in s && Masked(q) == p;
        var i :| 0 <= i < |s| && s[i] == q;
      }
    }
    SortedListUnique(SnapshotOf(s), s);
  }

  /** The snapshot is as long as the input exactly when no two entries mask to the same prefix. */
  lemma SnapshotSizeIff(ps: seq<Prefix>)
    ensures |SnapshotOf(ps)| == |ps| <==> Distinct(MaskAll(ps))
    ensures |SnapshotOf(ps)| == |Elements(MaskAll(ps))|
  {
    var s := SnapshotOf(ps);
    SnapshotSpec(ps);
    forall i, j | 0 <= i < j < |s| ensures s[i] != s[j] { assert Less(s[i], s[j]); }
    DistinctIff(s);
    DistinctIff(MaskAll(ps));
    MaskAllMembers(ps, RawPrefix(V4, 0, 0));
    forall p: Prefix ensures p in Elements(s) <==> p in Elements(MaskAll(ps)) {
      MaskAllMembers(ps, p);
    }
    assert Elements(s) == Elements(MaskAll(ps));
  }
}
