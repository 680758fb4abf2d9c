/** The order of a run's results: the feeds' names, each where it first occurs in the aliases. */
module RunOrder {
  import opened State
  import opened Health
  import opened PipelineSpec
  import opened RunHistory

  /** The names of the first n feeds of a list. */
  function NamesIn(feeds: seq<Feed>, n: nat): seq<string>
    requires n <= |feeds|
  {
    if n == 0 then [] else NamesIn(feeds, n - 1) + [feeds[n - 1].name]
  }

  /** The names in the first n aliases, one list after the other. */
  function NamesOf(aliases: seq<AliasSpec>, n: nat): seq<string>
    requires n <= |aliases|
  {
    if n == 0 then [] else NamesOf(aliases, n - 1) + NamesIn(aliases[n - 1].feeds, |aliases[n - 1].feeds|)
  }

  /** The distinct elements in order of first occurrence. */
  function WithoutRepeats(names: seq<string>): seq<string> {
    if names == [] then []
    else
      var init, last := WithoutRepeats(names[..|names| - 1]), names[|names| - 1];
      if last in init then init else init + [last]
  }

  lemma WithoutRepeatsSnoc(names: seq<string>, name: string)
    ensures var d := WithoutRepeats(names);
            WithoutRepeats(names + [name]) == if name in d then d else d + [name]
  {
    assert (names + [name])[..|names|] == names;
  }

  /** Where a name first occurs; past the end if nowhere. */
  function FirstIndex(names: seq<string>, name: string): nat {
    if names == [] || names[0] == name then 0 else 1 + FirstIndex(names[1..], name)
  }

  lemma {:induction false} FirstIndexSnoc(names: seq<string>, last: string, name: string)
    ensures FirstIndex(names, name) <= |names|
    ensures name in names <==> FirstIndex(names, name) < |names|
    ensures FirstIndex(names + [last], name)
         == if name in names then FirstIndex(names, name) else if name == last then |names| else |names| + 1
  {
    if names != [] {
      assert (names + [last])[1..] == names[1..] + [last];
      FirstIndexSnoc(names[1..], last, name);
    }
  }

  lemma {:induction false} WithoutRepeatsMembers(names: seq<string>, name: string)
    ensures name in WithoutRepeats(names) <==> name in names
  {
    if names != [] { WithoutRepeatsMembers(names[..|names| - 1], name); }
  }

  /** Of two distinct elements, the one that occurs first comes first. */
  lemma {:induction false} WithoutRepeatsInOrder(names: seq<string>, i: nat, j: nat)
    requires i < j < |WithoutRepeats(names)|
    ensures FirstIndex(names, WithoutRepeats(names)[i]) < FirstIndex(names, WithoutRepeats(names)[j])
  {
    var init, last := names[..|names| - 1], names[|names| - 1];
    var d := WithoutRepeats(names);
    assert names == init + [last];
    assert d[i] == WithoutRepeats(init)[i];
    WithoutRepeatsMembers(init, d[i]);
    WithoutRepeatsMembers(init, d[j]);
    FirstIndexSnoc(init, last, d[i]);
    FirstIndexSnoc(init, last, d[j]);
    if j < |WithoutRepeats(init)| { WithoutRepeatsInOrder(init, i, j); }
  }

  /** Unless the run has failed, the order lists the distinct names visited so far. */
  ghost predicate InOrder(pr: Progress, names: seq<string>) {
    Listed(pr) && (pr.error.None? ==> pr.order == WithoutRepeats(names))
  }

  lemma VisitAppends(opts: Options, pr: Progress, feed: Feed)
    requires Listed(pr)
    ensures VisitFeed(opts, pr, feed).error.None? ==>
              pr.error.None?
              && VisitFeed(opts, pr, feed).order == if feed.name in pr.order then pr.order else pr.order + [feed.name]
  {
  }

  lemma FeedInOrder(opts: Options, pr: Progress, names: seq<string>, feed: Feed)
    requires InOrder(pr, names)
    ensures InOrder(VisitFeed(opts, pr, feed), names + [feed.name])
  {
    FeedListed(opts, pr, feed);
    VisitAppends(opts, pr, feed);
    WithoutRepeatsSnoc(names, feed.name);
  }

  lemma {:induction false} FeedsInOrder(opts: Options, pr: Progress, names: seq<string>, feeds: seq<Feed>, n: nat)
    requires n <= |feeds| && InOrder(pr, names)
    ensures InOrder(VisitFeeds(opts, pr, feeds, n), names + NamesIn(feeds, n))
  {
    if n == 0 {
      assert names + NamesIn(feeds, 0) == names;
    } else {
      var before := names + NamesIn(feeds, n - 1);
      FeedsInOrder(opts, pr, names, feeds, n - 1);
      FeedInOrder(opts, VisitFeeds(opts, pr, feeds, n - 1), before, feeds[n - 1]);
      assert names + NamesIn(feeds, n) == before + [feeds[n - 1].name];
    }
  }

  lemma {:induction false} AliasesInOrder(opts: Options, s: StoreState, aliases: seq<AliasSpec>, n: nat)
    requires n <= |aliases|
    ensures InOrder(VisitAliases(opts, Start(s), aliases, n), NamesOf(aliases, n))
  {
    if n > 0 {
      var feeds := aliases[n - 1].feeds;
      AliasesInOrder(opts, s, aliases, n - 1);
      FeedsInOrder(opts, VisitAliases(opts, Start(s), aliases, n - 1), NamesOf(aliases, n - 1), feeds, |feeds|);
    }
  }

  /** A finished run reports the distinct names of all its aliases, each once, in order of first occurrence. */
  lemma {:induction false} ResultsInOrder(s: StoreState, opts: Options, aliases: seq<AliasSpec>)
    requires RunSpec(s, opts, aliases).1.Finished?
    ensures var results, names := RunSpec(s, opts, aliases).1.feeds, WithoutRepeats(NamesOf(aliases, |aliases|));
            |results| == |names| && forall i :: 0 <= i < |names| ==> results[i].feed.name == names[i]
  {
    var results, names := RunSpec(s, opts, aliases).1.feeds, WithoutRepeats(NamesOf(aliases, |aliases|));
    AliasesInOrder(opts, s, aliases, |aliases|);
    forall i | 0 <= i < |results| ensures |results| == |names| && results[i].feed.name == names[i] {
      ReportedResult(s, opts, aliases, i);
    }
  }

  /** Of two results, the one whose name occurs first in the aliases comes first. */
  lemma {:induction false} EarlierNameReportedFirst(s: StoreState, opts: Options, aliases: seq<AliasSpec>,
                                                    i: nat, j: nat)
    requires RunSpec(s, opts, aliases).1.Finished? && i < j < |RunSpec(s, opts, aliases).1.feeds|
    ensures var results, names := RunSpec(s, opts, aliases).1.feeds, NamesOf(aliases, |aliases|);
            FirstIndex(names, results[i].feed.name) < FirstIndex(names, results[j].feed.name) < |names|
  {
    var names := NamesOf(aliases, |aliases|);
    ResultsInOrder(s, opts, aliases);
    WithoutRepeatsInOrder(names, i, j);
    WithoutRepeatsMembers(names, WithoutRepeats(names)[j]);
    FirstIndexSnoc(names, "", WithoutRepeats(names)[j]);
  }
}
