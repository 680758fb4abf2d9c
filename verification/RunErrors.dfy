/** When a run gives up: exactly when it must read a snapshot file that does not load. */
module RunErrors {
  import opened Health
  import opened State
  import opened PipelineSpec
  import opened FeedHistory
  import opened RunLocality
  import opened Wrappers

  /** The answer makes the run read the cached list: a 304, or nothing usable while the baseline is recent. */
  predicate ReadsCache(e: Entry, opts: Options, ans: Answer) {
    || ans.NotModified?
    || (&& !(ans.Parsed? && Usable(ans.prefixes, opts.suppress) != [])
        && e.state.lastGoodAt != 0 && opts.now - e.state.lastGoodAt <= StaleMaxOf(opts))
  }

  /** The feed's snapshot does not load, and its run must read it. */
  predicate Unreadable(e: Entry, opts: Options, feed: Feed) {
    CachedIn(e).Err? && ReadsCache(e, opts, opts.fetch(feed, e.state.etag, e.state.lastModified))
  }

  lemma StepErrsIff(e: Entry, feed: Feed, opts: Options)
    ensures StepEntry(e, feed, opts).Err? <==> Unreadable(e, opts, feed)
  {
  }

  /** The feed at which the loop over an alias's feeds fails. */
  lemma {:induction false} FeedsFirstError(opts: Options, pr: Progress, feeds: seq<Feed>, n: nat) returns (j: nat)
    requires n <= |feeds| && pr.error.None? && VisitFeeds(opts, pr, feeds, n).error.Some?
    ensures j < n && VisitFeeds(opts, pr, feeds, j).error.None?
    ensures VisitFeed(opts, VisitFeeds(opts, pr, feeds, j), feeds[j]).error.Some?
  {
    if VisitFeeds(opts, pr, feeds, n - 1).error.None? {
      j := n - 1;
    } else {
      j := FeedsFirstError(opts, pr, feeds, n - 1);
    }
  }

  /** The alias in which the run fails. */
  lemma {:induction false} AliasesFirstError(opts: Options, s: StoreState, aliases: seq<AliasSpec>, n: nat)
    returns (k: nat)
    requires n <= |aliases| && VisitAliases(opts, Start(s), aliases, n).error.Some?
    ensures k < n && VisitAliases(opts, Start(s), aliases, k).error.None?
    ensures var feeds := aliases[k].feeds;
            VisitFeeds(opts, VisitAliases(opts, Start(s), aliases, k), feeds, |feeds|).error.Some?
  {
    if VisitAliases(opts, Start(s), aliases, n - 1).error.None? {
      k := n - 1;
    } else {
      k := AliasesFirstError(opts, s, aliases, n - 1);
    }
  }

  lemma {:induction false} FoundStays(feeds: seq<Feed>, m: nat, n: nat, name: string)
    requires m <= n <= |feeds| && FindIn(feeds, m, name).Some?
    ensures FindIn(feeds, n, name) == FindIn(feeds, m, name)
  {
    if m < n { FoundStays(feeds, m, n - 1, name); }
  }

  lemma {:induction false} FoundForGood(aliases: seq<AliasSpec>, m: nat, n: nat, name: string)
    requires m <= n <= |aliases| && FindFeed(aliases, m, name).Some?
    ensures FindFeed(aliases, n, name) == FindFeed(aliases, m, name)
  {
    if m < n { FoundForGood(aliases, m, n - 1, name); }
  }

  lemma {:induction false} FailingVisit(s: StoreState, opts: Options, pr: Progress, feed: Feed, found: Option<Feed>)
    requires LocalAt(feed.name, s, opts, pr, found) && pr.error.None? && VisitFeed(opts, pr, feed).error.Some?
    ensures found.None? && StepEntry(EntryOf(s, feed.name), feed, opts).Err?
  {
  }

  /** A feed whose name is in none of the feeds before it is the one found under its name. */
  lemma {:induction false} FirstOfItsName(aliases: seq<AliasSpec>, k: nat, j: nat)
    requires k < |aliases| && j < |aliases[k].feeds|
    requires var name := aliases[k].feeds[j].name;
             Prefer(FindFeed(aliases, k, name), FindIn(aliases[k].feeds, j, name)).None?
    ensures FindFeed(aliases, |aliases|, aliases[k].feeds[j].name) == Some(aliases[k].feeds[j])
  {
    var feeds := aliases[k].feeds;
    assert FindIn(feeds, j + 1, feeds[j].name) == Some(feeds[j]);
    FoundStays(feeds, j + 1, |feeds|, feeds[j].name);
    FoundForGood(aliases, k + 1, |aliases|, feeds[j].name);
  }

  /** The step that fails is the first of its name, from the store the run started with. */
  lemma {:induction false} ErrorSource(s: StoreState, opts: Options, aliases: seq<AliasSpec>) returns (feed: Feed)
    requires VisitAliases(opts, Start(s), aliases, |aliases|).error.Some?
    ensures FindFeed(aliases, |aliases|, feed.name) == Some(feed)
    ensures StepEntry(EntryOf(s, feed.name), feed, opts).Err?
  {
    var k := AliasesFirstError(opts, s, aliases, |aliases|);
    var start, feeds := VisitAliases(opts, Start(s), aliases, k), aliases[k].feeds;
    var j := FeedsFirstError(opts, start, feeds, |feeds|);
    feed := feeds[j];
    var found := FindFeed(aliases, k, feed.name);
    RunIsLocal(feed.name, s, opts, aliases, k);
    FeedsAreLocal(feed.name, s, opts, start, found, feeds, j);
    FailingVisit(s, opts, VisitFeeds(opts, start, feeds, j), feed, Prefer(found, FindIn(feeds, j, feed.name)));
    FirstOfItsName(aliases, k, j);
  }

  ghost predicate SomeUnreadable(s: StoreState, opts: Options, aliases: seq<AliasSpec>) {
    exists name: string :: UnreadableByName(s, opts, aliases, name)
  }

  predicate UnreadableByName(s: StoreState, opts: Options, aliases: seq<AliasSpec>, name: string) {
    var found := FindFeed(aliases, |aliases|, name);
    found.Some? && Unreadable(EntryOf(s, name), opts, found.value)
  }

  /** A run aborts exactly when some feed's snapshot does not load and its answer makes the run read it. */
  lemma {:induction false} AbortsIff(s: StoreState, opts: Options, aliases: seq<AliasSpec>)
    ensures RunSpec(s, opts, aliases).1.Aborted? <==> SomeUnreadable(s, opts, aliases)
  {
    if RunSpec(s, opts, aliases).1.Aborted? {
      var feed := ErrorSource(s, opts, aliases);
      StepErrsIff(EntryOf(s, feed.name), feed, opts);
      assert UnreadableByName(s, opts, aliases, feed.name);
    }
    if name: string :| UnreadableByName(s, opts, aliases, name) {
      RunIsLocal(name, s, opts, aliases, |aliases|);
      StepErrsIff(EntryOf(s, name), FindFeed(aliases, |aliases|, name).value, opts);
    }
  }
}
