/** Lists of inclusive ranges over the naturals and their coalesced form. */
module Ranges {
  import opened Counting

  datatype Range = Range(start: nat, end: nat)

  ghost predicate InRange(rs: seq<Range>, a: nat) {
    exists i :: 0 <= i < |rs| && rs[i].start <= a <= rs[i].end
  }

  ghost predicate Proper(rs: seq<Range>) {
    forall i :: 0 <= i < |rs| ==> rs[i].start <= rs[i].end
  }

  ghost predicate SameAddresses(xs: seq<Range>, ys: seq<Range>) {
    forall a: nat :: InRange(xs, a) <==> InRange(ys, a)
  }

  /** Sorted, with at least one address missing between neighbours. */
  ghost predicate Separated(rs: seq<Range>) {
    && Proper(rs)
    && forall i, j :: 0 <= i < j < |rs| ==> rs[i].end + 1 < rs[j].start
  }

  /** Adds one range to a separated list, absorbing whatever it touches. */
  function AddRange(rs: seq<Range>, r: Range): (out: seq<Range>)
    ensures out != []
    decreases |rs|
  {
    if rs == [] then [r]
    else if r.end + 1 < rs[0].start then [r] + rs
    else if rs[0].end + 1 < r.start then [rs[0]] + AddRange(rs[1..], r)
    else AddRange(rs[1..], Hull(rs[0], r))
  }

  /** The smallest range around two. */
  function Hull(p: Range, r: Range): Range {
    Range(if r.start < p.start then r.start else p.start, if r.end > p.end then r.end else p.end)
  }

  /** The coalesced form of a list of ranges, whatever its order. */
  function Merged(rs: seq<Range>): seq<Range> {
    if rs == [] then [] else AddRange(Merged(rs[1..]), rs[0])
  }

  lemma InRangeCons(rs: seq<Range>, a: nat)
    requires rs != []
    ensures InRange(rs, a) <==> rs[0].start <= a <= rs[0].end || InRange(rs[1..], a)
  {
    if i :| 1 <= i < |rs| && rs[i].start <= a <= rs[i].end { assert rs[i] == rs[1..][i - 1]; }
    if i :| 0 <= i < |rs[1..]| && rs[1..][i].start <= a <= rs[1..][i].end { assert rs[i + 1] == rs[1..][i]; }
  }

  lemma InRangeSnoc(rs: seq<Range>, r: Range, a: nat)
    ensures InRange(rs + [r], a) <==> InRange(rs, a) || r.start <= a <= r.end
  {
    var all := rs + [r];
    if InRange(rs, a) {
      var i :| 0 <= i < |rs| && rs[i].start <= a <= rs[i].end;
      assert all[i] == rs[i];
    }
    assert all[|rs|] == r;
  }

  lemma {:induction false} AddRangeCovers(rs: seq<Range>, r: Range, a: nat)
    requires Proper(rs) && r.start <= r.end
    ensures InRange(AddRange(rs, r), a) <==> InRange(rs, a) || r.start <= a <= r.end
    decreases |rs|
  {
    var out := AddRange(rs, r);
    InRangeCons(out, a);
    if rs != [] {
      InRangeCons(rs, a);
      if r.end + 1 < rs[0].start {
        assert out[1..] == rs;
      } else if rs[0].end + 1 < r.start {
        assert out[1..] == AddRange(rs[1..], r);
        AddRangeCovers(rs[1..], r, a);
      } else {
        AddRangeCovers(rs[1..], Hull(rs[0], r), a);
      }
    }
  }

  ghost predicate StartsAbove(rs: seq<Range>, b: nat) {
    forall i :: 0 <= i < |rs| ==> b < rs[i].start
  }

  /** A list that starts above b still does after adding a range that starts above b. */
  lemma {:induction false} AddRangeStarts(rs: seq<Range>, r: Range, b: nat)
    requires StartsAbove(rs, b) && b < r.start
    ensures StartsAbove(AddRange(rs, r), b)
    decreases |rs|
  {
    if rs != [] {
      assert StartsAbove(rs[1..], b);
      if rs[0].end + 1 < r.start {
        AddRangeStarts(rs[1..], r, b);
      } else if rs[0].start <= r.end + 1 {
        AddRangeStarts(rs[1..], Hull(rs[0], r), b);
      }
    }
  }

  lemma {:induction false} AddRangeSeparated(rs: seq<Range>, r: Range)
    requires Separated(rs) && r.start <= r.end
    ensures Separated(AddRange(rs, r))
    decreases |rs|
  {
    if rs != [] {
      if r.end + 1 < rs[0].start {
      } else if rs[0].end + 1 < r.start {
        AddRangeSeparated(rs[1..], r);
        AddRangeStarts(rs[1..], r, rs[0].end + 1);
      } else {
        AddRangeSeparated(rs[1..], Hull(rs[0], r));
      }
    }
  }

  /** Coalescing keeps the addresses and leaves a gap between neighbours. */
  lemma {:induction false} MergedSpec(rs: seq<Range>)
    requires Proper(rs)
    ensures Separated(Merged(rs)) && SameAddresses(Merged(rs), rs)
  {
    if rs != [] {
      MergedSpec(rs[1..]);
      AddRangeSeparated(Merged(rs[1..]), rs[0]);
      forall a: nat ensures InRange(Merged(rs), a) <==> InRange(rs, a) {
        AddRangeCovers(Merged(rs[1..]), rs[0], a);
        InRangeCons(rs, a);
        assert InRange(Merged(rs[1..]), a) <==> InRange(rs[1..], a);
      }
    }
  }

  /** The addresses just outside a member of a separated list are uncovered. */
  lemma GapAround(rs: seq<Range>, i: nat)
    requires Separated(rs) && i < |rs|
    ensures !InRange(rs, rs[i].end + 1)
    ensures rs[i].start > 0 ==> !InRange(rs, rs[i].start - 1)
  {
  }

  lemma SeparatedTail(rs: seq<Range>, a: nat)
    requires Separated(rs) && rs != []
    ensures Separated(rs[1..])
    ensures InRange(rs[1..], a) <==> InRange(rs, a) && a > rs[0].end
  {
    InRangeCons(rs, a);
    if InRange(rs[1..], a) {
      var i :| 0 <= i < |rs[1..]| && rs[1..][i].start <= a <= rs[1..][i].end;
      assert rs[1..][i] == rs[i + 1];
    }
  }

  lemma FirstRange(xs: seq<Range>, ys: seq<Range>)
    requires Separated(xs) && Separated(ys) && SameAddresses(xs, ys) && xs != []
    ensures ys != [] && ys[0].start <= xs[0].start
    ensures ys[0].start == xs[0].start ==> ys[0].end <= xs[0].end
  {
    assert InRange(xs, xs[0].start);
    var i :| 0 <= i < |ys| && ys[i].start <= xs[0].start <= ys[i].end;
    GapAround(xs, 0);
    assert InRange(ys, xs[0].end + 1) <==> InRange(xs, xs[0].end + 1);
  }

  /** A separated list is determined by the addresses it covers. */
  lemma {:induction false} SeparatedUnique(xs: seq<Range>, ys: seq<Range>)
    requires Separated(xs) && Separated(ys) && SameAddresses(xs, ys)
    ensures xs == ys
  {
    if xs != [] { FirstRange(xs, ys); }
    if ys != [] { FirstRange(ys, xs); }
    if xs != [] && ys != [] {
      forall a: nat ensures InRange(xs[1..], a) <==> InRange(ys[1..], a) {
        SeparatedTail(xs, a);
        SeparatedTail(ys, a);
      }
      assert Separated(xs[1..]) && Separated(ys[1..]);
      SeparatedUnique(xs[1..], ys[1..]);
    }
  }

  /** Coalesced ranges are the fewest: no list of ranges for the same addresses is shorter. */
  lemma SeparatedFewest(rs: seq<Range>, qs: seq<Range>)
    requires Separated(rs) && SameAddresses(rs, qs)
    ensures |rs| <= |qs|
  {
    forall i | 0 <= i < |rs| ensures InRange(qs, rs[i].start) {
      assert InRange(rs, rs[i].start);
    }
    var w := seq(|rs|, i requires 0 <= i < |rs| && InRange(qs, rs[i].start) => Holder(qs, rs[i].start));
    forall i, j | 0 <= i < j < |rs| ensures w[i] != w[j] {
      GapAround(rs, i);
      assert !InRange(qs, rs[i].end + 1);
    }
    Pigeonhole(w, |qs|);
  }

  ghost function Holder(qs: seq<Range>, a: nat): (k: nat)
    requires InRange(qs, a)
    ensures k < |qs| && qs[k].start <= a <= qs[k].end
  {
    var k :| 0 <= k < |qs| && qs[k].start <= a <= qs[k].end;
    k
  }
}
