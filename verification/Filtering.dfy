/** Splitting a list of prefixes by a test, both parts in input order. */
module Filtering {
  import opened Prefixes

  /** The prefixes that meet the test. */
  function Having(ps: seq<Prefix>, test: Prefix -> bool): seq<Prefix> {
    if ps == [] then [] else (if test(ps[0]) then [ps[0]] else []) + Having(ps[1..], test)
  }

  /** The prefixes that do not. */
  function Lacking(ps: seq<Prefix>, test: Prefix -> bool): seq<Prefix> {
    if ps == [] then [] else (if test(ps[0]) then [] else [ps[0]]) + Lacking(ps[1..], test)
  }

  lemma {:induction false} SplitMembers(ps: seq<Prefix>, test: Prefix -> bool, p: Prefix)
    ensures p in Having(ps, test) <==> p in ps && test(p)
    ensures p in Lacking(ps, test) <==> p in ps && !test(p)
  {
    if ps != [] { SplitMembers(ps[1..], test, p); }
  }

  lemma {:induction false} SplitLength(ps: seq<Prefix>, test: Prefix -> bool)
    ensures |Lacking(ps, test)| + |Having(ps, test)| == |ps|
    ensures Having(ps, test) == [] ==> Lacking(ps, test) == ps
  {
    if ps != [] { SplitLength(ps[1..], test); }
  }

  lemma {:induction false} NoneHaving(ps: seq<Prefix>, test: Prefix -> bool)
    requires forall i :: 0 <= i < |ps| ==> !test(ps[i])
    ensures Lacking(ps, test) == ps && Having(ps, test) == []
  {
    if ps != [] { NoneHaving(ps[1..], test); }
  }

  lemma {:induction false} LackingConcat(ps: seq<Prefix>, qs: seq<Prefix>, test: Prefix -> bool)
    ensures Lacking(ps + qs, test) == Lacking(ps, test) + Lacking(qs, test)
  {
    if ps == [] {
      assert ps + qs == qs;
    } else {
      var head := if test(ps[0]) then [] else [ps[0]];
      assert (ps + qs)[1..] == ps[1..] + qs;
      LackingConcat(ps[1..], qs, test);
      assert head + (Lacking(ps[1..], test) + Lacking(qs, test)) == (head + Lacking(ps[1..], test)) + Lacking(qs, test);
    }
  }

  lemma {:induction false} HavingConcat(ps: seq<Prefix>, qs: seq<Prefix>, test: Prefix -> bool)
    ensures Having(ps + qs, test) == Having(ps, test) + Having(qs, test)
  {
    if ps == [] {
      assert ps + qs == qs;
    } else {
      var head := if test(ps[0]) then [ps[0]] else [];
      assert (ps + qs)[1..] == ps[1..] + qs;
      HavingConcat(ps[1..], qs, test);
      assert head + (Having(ps[1..], test) + Having(qs, test)) == (head + Having(ps[1..], test)) + Having(qs, test);
    }
  }

  lemma SplitSnoc(ps: seq<Prefix>, p: Prefix, test: Prefix -> bool)
    ensures Lacking(ps + [p], test) == Lacking(ps, test) + if test(p) then [] else [p]
    ensures Having(ps + [p], test) == Having(ps, test) + if test(p) then [p] else []
  {
    LackingConcat(ps, [p], test);
    HavingConcat(ps, [p], test);
  }

  /** Element i lands where the number of earlier elements in its part says. */
  lemma StableSplit(ps: seq<Prefix>, test: Prefix -> bool, i: nat)
    requires i < |ps|
    ensures |Lacking(ps[..i], test)| + |Having(ps[..i], test)| == i
    ensures var k := |Lacking(ps[..i], test)|;
            if test(ps[i])
            then i - k < |Having(ps, test)| && Having(ps, test)[i - k] == ps[i]
            else k < |Lacking(ps, test)| && Lacking(ps, test)[k] == ps[i]
  {
    var before, after := ps[..i], ps[i..];
    assert ps == before + after && after[0] == ps[i];
    SplitLength(before, test);
    LackingConcat(before, after, test);
    HavingConcat(before, after, test);
    assert Lacking(after, test) == (if test(ps[i]) then [] else [ps[i]]) + Lacking(after[1..], test);
    assert Having(after, test) == (if test(ps[i]) then [ps[i]] else []) + Having(after[1..], test);
  }
}
