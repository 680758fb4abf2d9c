/** Safety over whole histories of update cycles, from an empty store. */
module RunHistory {
  import opened Prefixes
  import opened Suppression
  import opened State
  import opened Health
  import opened PipelineSpec
  import opened FeedHistory
  import opened RunLocality
  import opened Wrappers

  /** One invocation of the program. */
  datatype Cycle = Cycle(opts: Options, aliases: seq<AliasSpec>)

  ghost predicate ValidClock(cycles: seq<Cycle>) {
    forall i :: 0 <= i < |cycles| ==> cycles[i].opts.now > 0
  }

  /** The store after the first n cycles, whatever they fetched, suppressed and aliased. */
  ghost function StoreAfter(cycles: seq<Cycle>, n: nat): StoreState
    requires n <= |cycles|
  {
    if n == 0 then EMPTY_STORE
    else RunSpec(StoreAfter(cycles, n - 1), cycles[n - 1].opts, cycles[n - 1].aliases).0
  }

  /** How cycle i ended. */
  ghost function EndOf(cycles: seq<Cycle>, i: nat): RunEnd
    requires i < |cycles|
  {
    RunSpec(StoreAfter(cycles, i), cycles[i].opts, cycles[i].aliases).1
  }

  ghost predicate StoreOk(s: StoreState) {
    forall name: string :: EntryOk(EntryOf(s, name))
  }

  /** No error so far, a sound store, and clean lists only. */
  ghost predicate ProgressOk(pr: Progress) {
    && pr.error.None? && StoreOk(pr.store)
    && forall name :: name in pr.outcomes ==> Clean(pr.outcomes[name].prefixes)
  }

  lemma WithEntryOk(s: StoreState, name: string, e: Entry)
    requires StoreOk(s) && EntryOk(e)
    requires EntryOf(s, name).snapshot.Some? ==> e.snapshot.Some?
    ensures StoreOk(WithEntry(s, name, e))
  {
    forall other: string ensures EntryOk(EntryOf(WithEntry(s, name, e), other)) {
      EntryAfter(s, name, e, other);
      assert EntryOk(EntryOf(s, other));
    }
  }

  lemma VisitOk(opts: Options, pr: Progress, feed: Feed)
    requires ProgressOk(pr) && opts.now > 0
    ensures ProgressOk(VisitFeed(opts, pr, feed))
  {
    if feed.name !in pr.outcomes {
      var e := EntryOf(pr.store, feed.name);
      assert EntryOk(e);
      StepKeeps(e, feed, opts);
      ServedIsClean(e, feed, opts);
      if e.snapshot.Some? { StepKeepsFile(e, feed, opts); }
      WithEntryOk(pr.store, feed.name, StepEntry(e, feed, opts).value.next);
    }
  }

  lemma {:induction false} FeedsOk(opts: Options, pr: Progress, feeds: seq<Feed>, n: nat)
    requires n <= |feeds| && ProgressOk(pr) && opts.now > 0
    ensures ProgressOk(VisitFeeds(opts, pr, feeds, n))
  {
    if n > 0 {
      FeedsOk(opts, pr, feeds, n - 1);
      VisitOk(opts, VisitFeeds(opts, pr, feeds, n - 1), feeds[n - 1]);
    }
  }

  lemma {:induction false} AliasesOk(opts: Options, s: StoreState, aliases: seq<AliasSpec>, n: nat)
    requires n <= |aliases| && StoreOk(s) && opts.now > 0
    ensures ProgressOk(VisitAliases(opts, Start(s), aliases, n))
  {
    if n > 0 {
      AliasesOk(opts, s, aliases, n - 1);
      FeedsOk(opts, VisitAliases(opts, Start(s), aliases, n - 1), aliases[n - 1].feeds, |aliases[n - 1].feeds|);
    }
  }

  lemma RunStore(s: StoreState, opts: Options, aliases: seq<AliasSpec>)
    ensures RunSpec(s, opts, aliases).0 == VisitAliases(opts, Start(s), aliases, |aliases|).store
  {
  }

  /** In every reachable store each feed's record and snapshot fit together. */
  lemma {:induction false} ReachableStoreOk(cycles: seq<Cycle>, n: nat)
    requires n <= |cycles| && ValidClock(cycles)
    ensures StoreOk(StoreAfter(cycles, n))
  {
    if n == 0 {
      EmptyEntryOk();
      assert forall name: string :: EntryOf(EMPTY_STORE, name) == EMPTY_ENTRY;
    } else {
      var c := cycles[n - 1];
      ReachableStoreOk(cycles, n - 1);
      AliasesOk(c.opts, StoreAfter(cycles, n - 1), c.aliases, |c.aliases|);
      RunStore(StoreAfter(cycles, n - 1), c.opts, c.aliases);
    }
  }

  /** No prefix of a merged alias input overlaps private space or is a default route. */
  lemma {:induction false} MergedClean(outcomes: map<string, FeedOutcome>, feeds: seq<Feed>, n: nat)
    requires n <= |feeds| && forall name :: name in outcomes ==> Clean(outcomes[name].prefixes)
    ensures Clean(MergedLists(outcomes, feeds, n))
  {
    if n > 0 {
      MergedClean(outcomes, feeds, n - 1);
    }
  }

  /** The addresses that must never be blocked: private space and the run's own networks. */
  ghost predicate Forbidden(own: seq<Prefix>, f: Family, a: nat) {
    Private(f, a) || Covers(own, f, a)
  }

  lemma CleanAvoidsPrivate(ps: seq<Prefix>, own: seq<Prefix>, f: Family, a: nat)
    requires Clean(ps) && Covers(Normalized(ps, own), f, a)
    ensures !Forbidden(own, f, a)
  {
    NormalizedAvoidsOwn(ps, own, f, a);
    NormalizedExact(ps, own, f, a);
    var p: Prefix :| p in ps && !OverlapsAny(p, own) && Contains(p, f, a);
    var i :| 0 <= i < |ps| && ps[i] == p;
    assert Public(ps[i]);
  }

  /** A run from a sound store never aborts, and publishes one set per alias that avoids every forbidden address. */
  lemma RunIsSafe(s: StoreState, opts: Options, aliases: seq<AliasSpec>)
    requires StoreOk(s) && opts.now > 0
    ensures !RunSpec(s, opts, aliases).1.Aborted?
    ensures RunSpec(s, opts, aliases).1.Finished? ==>
              var sets := RunSpec(s, opts, aliases).1.sets;
              |sets| == |aliases|
              && forall i, f, a: nat :: 0 <= i < |sets| && Covers(sets[i].prefixes, f, a) ==>
                   !Forbidden(opts.suppress, f, a)
  {
    var pr := VisitAliases(opts, Start(s), aliases, |aliases|);
    AliasesOk(opts, s, aliases, |aliases|);
    var sets := AliasSets(opts, pr.outcomes, aliases);
    forall i, f, a: nat | 0 <= i < |sets| && Covers(sets[i].prefixes, f, a) ensures !Forbidden(opts.suppress, f, a) {
      MergedClean(pr.outcomes, aliases[i].feeds, |aliases[i].feeds|);
      CleanAvoidsPrivate(AliasInput(pr.outcomes, aliases[i]), opts.suppress, f, a);
    }
  }

  /**
   Whole-history safety: from an empty store, after any cycles with any fetch
   outcomes, suppress lists and aliases, no cycle aborts on its own store, and
   no set any cycle publishes covers private space or that cycle's own networks.
   */
  lemma HistoryIsSafe(cycles: seq<Cycle>, n: nat)
    requires n < |cycles| && ValidClock(cycles)
    ensures !EndOf(cycles, n).Aborted?
    ensures EndOf(cycles, n).Finished? ==>
              forall i, f, a: nat :: 0 <= i < |EndOf(cycles, n).sets| && Covers(EndOf(cycles, n).sets[i].prefixes, f, a)
                 ==> !Forbidden(cycles[n].opts.suppress, f, a)
  {
    ReachableStoreOk(cycles, n);
    RunIsSafe(StoreAfter(cycles, n), cycles[n].opts, cycles[n].aliases);
  }

  /** The run of one feed in a cycle that fetched it for real. */
  ghost function RowIn(cycles: seq<Cycle>, n: nat, name: string): Row
    requires n < |cycles| && FindFeed(cycles[n].aliases, |cycles[n].aliases|, name).Some?
  {
    var c := cycles[n];
    var feed := FindFeed(c.aliases, |c.aliases|, name).value;
    var e := EntryOf(StoreAfter(cycles, n), name);
    var pr := VisitAliases(c.opts, Start(StoreAfter(cycles, n)), c.aliases, |c.aliases|);
    Row(feed, c.opts, AnswerFor(e, feed, c.opts), e,
        if name in pr.outcomes then pr.outcomes[name] else FeedOutcome(FeedResult(feed, OK, 0, 0, 0, false, false), []),
        EntryOf(pr.store, name))
  }

  /** The runs of one feed among the first n cycles: those that were real and named it. */
  ghost function RowsOf(cycles: seq<Cycle>, n: nat, name: string): seq<Row>
    requires n <= |cycles|
  {
    if n == 0 then []
    else if cycles[n - 1].opts.dryRun || FindFeed(cycles[n - 1].aliases, |cycles[n - 1].aliases|, name).None?
    then RowsOf(cycles, n - 1, name)
    else RowsOf(cycles, n - 1, name) + [RowIn(cycles, n - 1, name)]
  }

  lemma CycleIsLocal(cycles: seq<Cycle>, n: nat, name: string)
    requires n < |cycles| && ValidClock(cycles)
    ensures var c := cycles[n];
            var found := FindFeed(c.aliases, |c.aliases|, name);
            if c.opts.dryRun || found.None?
            then EntryOf(StoreAfter(cycles, n + 1), name) == EntryOf(StoreAfter(cycles, n), name)
            else IsRun(RowIn(cycles, n, name))
                 && RowIn(cycles, n, name).after == EntryOf(StoreAfter(cycles, n + 1), name)
  {
    var c := cycles[n];
    var s := StoreAfter(cycles, n);
    var found := FindFeed(c.aliases, |c.aliases|, name);
    ReachableStoreOk(cycles, n);
    AliasesOk(c.opts, s, c.aliases, |c.aliases|);
    RunIsLocal(name, s, c.opts, c.aliases, |c.aliases|);
    RunStore(s, c.opts, c.aliases);
    if found.Some? && c.opts.dryRun { RehearsalKeepsEntry(EntryOf(s, name), found.value, c.opts); }
  }

  /** A history that ends where the store is, for one feed. */
  ghost predicate Explains(rows: seq<Row>, e: Entry) {
    History(rows) && AfterRuns(rows, |rows|) == e
  }

  /**
   Each feed's share of a reachable store is what its own runs made of it, so
   everything known of one feed's history holds in every history of cycles.
   */
  lemma {:induction false} FeedHasItsOwnHistory(cycles: seq<Cycle>, n: nat, name: string)
    requires n <= |cycles| && ValidClock(cycles)
    ensures Explains(RowsOf(cycles, n, name), EntryOf(StoreAfter(cycles, n), name))
  {
    if n == 0 {
      assert RowsOf(cycles, 0, name) == [] && EntryOf(EMPTY_STORE, name) == EMPTY_ENTRY;
    } else {
      FeedHasItsOwnHistory(cycles, n - 1, name);
      OneMoreCycle(cycles, n - 1, name);
    }
  }

  lemma OneMoreCycle(cycles: seq<Cycle>, n: nat, name: string)
    requires n < |cycles| && ValidClock(cycles)
    requires Explains(RowsOf(cycles, n, name), EntryOf(StoreAfter(cycles, n), name))
    ensures Explains(RowsOf(cycles, n + 1, name), EntryOf(StoreAfter(cycles, n + 1), name))
  {
    var c := cycles[n];
    CycleIsLocal(cycles, n, name);
    if !c.opts.dryRun && FindFeed(c.aliases, |c.aliases|, name).Some? {
      AppendRun(RowsOf(cycles, n, name), RowIn(cycles, n, name));
    }
  }

  lemma AppendRun(rows: seq<Row>, r: Row)
    requires History(rows) && IsRun(r) && r.before == AfterRuns(rows, |rows|)
    ensures History(rows + [r])
  {
    var all := rows + [r];
    forall i {:trigger IsRun(all[i])} | 0 <= i < |all| ensures IsRun(all[i]) {
      if i < |rows| { assert IsRun(rows[i]); }
    }
    forall i {:trigger Linked(all, i)} | 0 <= i < |all| ensures Linked(all, i) {
      if i < |rows| { assert Linked(rows, i); }
    }
  }

  lemma {:induction false} FeedsOnlyAppend(opts: Options, pr: Progress, feeds: seq<Feed>, m: nat, n: nat)
    requires m <= n <= |feeds|
    ensures VisitFeeds(opts, pr, feeds, m).order <= VisitFeeds(opts, pr, feeds, n).order
  {
    if m < n {
      FeedsOnlyAppend(opts, pr, feeds, m, n - 1);
      var before := VisitFeeds(opts, pr, feeds, n - 1);
      VisitOnlyAppends(opts, before, feeds[n - 1]);
      PrefixChain(VisitFeeds(opts, pr, feeds, m).order, before.order, VisitFeed(opts, before, feeds[n - 1]).order);
    }
  }

  lemma PrefixChain(a: seq<string>, b: seq<string>, c: seq<string>)
    requires a <= b <= c
    ensures a <= c
  {
  }

  lemma VisitOnlyAppends(opts: Options, pr: Progress, feed: Feed)
    ensures pr.order <= VisitFeed(opts, pr, feed).order
  {
  }

  /** Later aliases only append to the order, even when an error ends the run. */
  lemma {:induction false} AliasesOnlyAppend(opts: Options, s: StoreState, aliases: seq<AliasSpec>, m: nat, n: nat)
    requires m <= n <= |aliases|
    ensures VisitAliases(opts, Start(s), aliases, m).order <= VisitAliases(opts, Start(s), aliases, n).order
  {
    if m < n {
      AliasesOnlyAppend(opts, s, aliases, m, n - 1);
      var feeds := aliases[n - 1].feeds;
      FeedsOnlyAppend(opts, VisitAliases(opts, Start(s), aliases, n - 1), feeds, 0, |feeds|);
    }
  }

  /** The i-th reported result is the outcome of the i-th feed in the order, which is the first of its name. */
  lemma {:induction false} ReportedResult(s: StoreState, opts: Options, aliases: seq<AliasSpec>, i: nat)
    requires RunSpec(s, opts, aliases).1.Finished? && i < |RunSpec(s, opts, aliases).1.feeds|
    ensures var pr, res := VisitAliases(opts, Start(s), aliases, |aliases|), RunSpec(s, opts, aliases).1.feeds[i];
            && |pr.order| == |RunSpec(s, opts, aliases).1.feeds| && pr.order[i] in pr.outcomes
            && res == pr.outcomes[pr.order[i]].result && res.feed.name == pr.order[i]
            && FindFeed(aliases, |aliases|, res.feed.name) == Some(res.feed)
  {
    var pr := VisitAliases(opts, Start(s), aliases, |aliases|);
    OrderVisited(opts, s, aliases, |aliases|);
    assert pr.order[i] in pr.order;
    RunIsLocal(pr.order[i], s, opts, aliases, |aliases|);
  }

  /** A finished run reports no name twice, each result under the first definition of its name. */
  lemma {:induction false} ReportsEachFeedOnce(s: StoreState, opts: Options, aliases: seq<AliasSpec>, i: nat, j: nat)
    requires RunSpec(s, opts, aliases).1.Finished? && i < j < |RunSpec(s, opts, aliases).1.feeds|
    ensures var feeds := RunSpec(s, opts, aliases).1.feeds;
            && feeds[i].feed.name != feeds[j].feed.name
            && FindFeed(aliases, |aliases|, feeds[i].feed.name) == Some(feeds[i].feed)
            && FindFeed(aliases, |aliases|, feeds[j].feed.name) == Some(feeds[j].feed)
  {
    ReportedResult(s, opts, aliases, i);
    ReportedResult(s, opts, aliases, j);
    OrderVisited(opts, s, aliases, |aliases|);
  }

  /** Every feed named in an alias is reported. */
  lemma ReportsEveryFeed(s: StoreState, opts: Options, aliases: seq<AliasSpec>, name: string) returns (i: nat)
    requires RunSpec(s, opts, aliases).1.Finished? && FindFeed(aliases, |aliases|, name).Some?
    ensures i < |RunSpec(s, opts, aliases).1.feeds| && RunSpec(s, opts, aliases).1.feeds[i].feed.name == name
  {
    var pr := VisitAliases(opts, Start(s), aliases, |aliases|);
    RunIsLocal(name, s, opts, aliases, |aliases|);
    OrderVisited(opts, s, aliases, |aliases|);
    assert name in pr.order;
    i :| 0 <= i < |pr.order| && pr.order[i] == name;
    ReportedResult(s, opts, aliases, i);
  }

  /** A finished run is healthy exactly when every reported feed is OK. */
  lemma HealthyIffAllOk(s: StoreState, opts: Options, aliases: seq<AliasSpec>)
    requires RunSpec(s, opts, aliases).1.Finished?
    ensures var end := RunSpec(s, opts, aliases).1;
            end.healthy <==> forall i :: 0 <= i < |end.feeds| ==> end.feeds[i].status == OK
  {
    var pr := VisitAliases(opts, Start(s), aliases, |aliases|);
    var feeds := RunSpec(s, opts, aliases).1.feeds;
    OrderVisited(opts, s, aliases, |aliases|);
    forall i | 0 <= i < |feeds| ensures pr.order[i] in pr.outcomes && feeds[i] == pr.outcomes[pr.order[i]].result {
      ReportedResult(s, opts, aliases, i);
    }
    if forall i :: 0 <= i < |feeds| ==> feeds[i].status == OK {
      forall name | name in pr.outcomes ensures pr.outcomes[name].result.status == OK {
        var i :| 0 <= i < |pr.order| && pr.order[i] == name;
        assert feeds[i].status == OK;
      }
    }
  }
}
