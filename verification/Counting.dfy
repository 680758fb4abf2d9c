/** The pigeonhole principle for lists of indices. */
module Counting {

  ghost predicate Distinct<T>(w: seq<T>) {
    forall i, j :: 0 <= i < j < |w| ==> w[i] != w[j]
  }

  ghost function Elements<T>(w: seq<T>): set<T> { set x | x in w }

  ghost function Below(m: nat): (r: set<nat>)
    ensures forall x: nat :: x in r <==> x < m
  {
    if m == 0 then {} else Below(m - 1) + {m - 1}
  }

  /** A list has as many elements as entries exactly when no two entries are equal. */
  lemma {:induction false} DistinctIff<T>(w: seq<T>)
    ensures |Elements(w)| <= |w|
    ensures |Elements(w)| == |w| <==> Distinct(w)
  {
    if w != [] {
      var init, last := w[..|w| - 1], w[|w| - 1];
      DistinctIff(init);
      assert w == init + [last];
      assert Elements(w) == Elements(init) + {last};
      if last in init {
        var k :| 0 <= k < |init| && init[k] == last;
        assert w[k] == w[|w| - 1];
        assert Elements(w) == Elements(init);
      }
    }
  }

  lemma {:induction false} BelowCount(m: nat)
    ensures |Below(m)| == m
  {
    if m > 0 { BelowCount(m - 1); }
  }

  lemma {:induction false} SubsetCount<T>(a: set<T>, b: set<T>)
    requires a <= b
    ensures |a| <= |b|
  {
    if a != {} {
      var x :| x in a;
      SubsetCount(a - {x}, b - {x});
    }
  }

  /** Distinct indices below m number at most m. */
  lemma Pigeonhole(w: seq<nat>, m: nat)
    requires Distinct(w) && forall i :: 0 <= i < |w| ==> w[i] < m
    ensures |w| <= m
  {
    DistinctIff(w);
    BelowCount(m);
    assert Elements(w) <= Below(m);
    SubsetCount(Elements(w), Below(m));
  }

  lemma ProperSubsetCount<T>(a: set<T>, b: set<T>, x: T)
    requires a <= b && x in b && x !in a
    ensures |a| < |b|
  {
    SubsetCount(a, b - {x});
  }

  /** m distinct indices below m leave none out. */
  lemma Onto(w: seq<nat>, m: nat, k: nat) returns (i: nat)
    requires Distinct(w) && |w| == m && k < m && forall i :: 0 <= i < |w| ==> w[i] < m
    ensures i < |w| && w[i] == k
  {
    DistinctIff(w);
    BelowCount(m);
    assert Elements(w) <= Below(m);
    if k !in Elements(w) { ProperSubsetCount(Elements(w), Below(m), k); }
    i :| 0 <= i < |w| && w[i] == k;
  }
}
