/** One update cycle on a store object: the pipeline's loops, proved against the cycle as a function. */
module Pipeline {
  import opened Prefixes
  import opened State
  import opened Health
  import opened PipelineSpec
  import opened Wrappers
  import Normalize

  lemma CachedIsEntry(s: StoreState, name: string)
    ensures Cached(s, name) == CachedIn(EntryOf(s, name))
  {
  }

  /** Maps the answer to what the health check sees; a 304 reads the cached list. */
  method GatherInput(store: Store, opts: Options, feed: Feed, prev: FeedState, ans: Answer) returns (r: Result<Input>)
    requires prev == Loaded(store.Model(), feed.name)
    ensures r == InputFor(EntryOf(store.Model(), feed.name), feed, opts, ans)
  {
    var inp := Input(feed, false, false, "", NO_STATS, [], prev, opts.now, opts.suppress);
    match ans {
      case FetchError =>
        inp := inp.(fetchFailed := true);
      case NotModified(_, _) =>
        inp := inp.(notModified := true);
        inp := inp.(bodySha256 := prev.bodySha256);
        var cached := store.LastGood(feed.name);
        CachedIsEntry(store.Model(), feed.name);
        if cached.Err? {
          return Err(cached.error);
        }
        inp := inp.(prefixes := cached.value);
      case Unparsable(sha, _, _) =>
        inp := inp.(bodySha256 := sha);
        inp := inp.(fetchFailed := true);
      case Parsed(sha, ps, stats, _, _) =>
        inp := inp.(bodySha256 := sha);
        inp := inp.(prefixes := ps);
        inp := inp.(stats := stats);
    }
    r := Ok(inp);
  }

  /** Decides what aliases consume: nothing, the cached list, or the fresh one. */
  method Consume(store: Store, feed: Feed, inp: Input, ev: Evaluation) returns (r: Result<seq<Prefix>>)
    ensures r == Consumed(EntryOf(store.Model(), feed.name), inp, ev)
  {
    if ev.dropFeed {
      r := Ok([]);
    } else if ev.useLastGood || inp.notModified {
      CachedIsEntry(store.Model(), feed.name);
      r := store.LastGood(feed.name);
    } else {
      r := Ok(ev.prefixes);
    }
  }

  /** Writes the next state, and the snapshot after an OK run on new content. */
  method Persist(store: Store, feed: Feed, ans: Answer, inp: Input, ev: Evaluation)
    modifies store
    ensures store.Model() == WithEntry(old(store.Model()), feed.name,
                                       Persisted(EntryOf(old(store.Model()), feed.name), ans, inp, ev))
  {
    var next := ev.nextState;
    if !ans.FetchError? {
      if ans.etag != "" {
        next := next.(etag := ans.etag);
      }
      if ans.lastModified != "" {
        next := next.(lastModified := ans.lastModified);
      }
    }
    ghost var before := store.Model();
    store.Save(feed.name, next);
    if ev.status == OK && !inp.notModified && |ev.prefixes| > 0 {
      store.SaveLastGood(feed.name, ev.prefixes);
    } else {
      assert feed.name in before.files ==> before.files[feed.name := before.files[feed.name]] == before.files;
    }
  }

  /** Fetch, evaluate, choose what to serve, persist unless rehearsing. */
  method RunFeed(store: Store, opts: Options, feed: Feed) returns (out: Result<FeedOutcome>)
    modifies store
    ensures var step := StepEntry(EntryOf(old(store.Model()), feed.name), feed, opts);
            if step.Err? then out == Err(step.error) && store.Model() == old(store.Model())
            else out == Ok(step.value.outcome)
                 && store.Model() == AfterFeed(old(store.Model()), feed.name, step.value.next, opts.dryRun)
  {
    var prev, found := store.Load(feed.name);
    var ans := opts.fetch(feed, prev.etag, prev.lastModified);
    var inp := GatherInput(store, opts, feed, prev, ans);
    if inp.Err? {
      return Err(inp.error);
    }
    var ev := Evaluate(inp.value, opts.thresholds);
    var prefixes := Consume(store, feed, inp.value, ev);
    if prefixes.Err? {
      return Err(prefixes.error);
    }
    if !opts.dryRun {
      Persist(store, feed, ans, inp.value, ev);
    }
    var result := FeedResult(feed, ev.status, |prefixes.value|, prev.lastGoodCount,
                             ev.nextState.lastGoodAt, ev.useLastGood, ev.dropFeed);
    out := Ok(FeedOutcome(result, prefixes.value));
  }

  /** After an error the rest of the loop changes nothing. */
  lemma {:induction false} ErrorStays(opts: Options, pr: Progress, feeds: seq<Feed>, m: nat, n: nat)
    requires m <= n <= |feeds| && VisitFeeds(opts, pr, feeds, m).error.Some?
    ensures VisitFeeds(opts, pr, feeds, n) == VisitFeeds(opts, pr, feeds, m)
  {
    if m < n { ErrorStays(opts, pr, feeds, m, n - 1); }
  }

  lemma {:induction false} ErrorEndsRun(opts: Options, pr: Progress, aliases: seq<AliasSpec>, m: nat, n: nat)
    requires m <= n <= |aliases| && VisitAliases(opts, pr, aliases, m).error.Some?
    ensures VisitAliases(opts, pr, aliases, n) == VisitAliases(opts, pr, aliases, m)
  {
    if m < n {
      ErrorEndsRun(opts, pr, aliases, m, n - 1);
      ErrorStays(opts, VisitAliases(opts, pr, aliases, n - 1), aliases[n - 1].feeds, 0, |aliases[n - 1].feeds|);
    }
  }

  /** Runs one feed unless this run has already fetched it, and records its outcome. */
  method VisitOne(store: Store, opts: Options, feed: Feed,
                  done: map<string, FeedOutcome>, seen: seq<string>, well: bool)
    returns (outcomes: map<string, FeedOutcome>, order: seq<string>, healthy: bool, error: Option<string>)
    modifies store
    ensures Progress(store.Model(), outcomes, order, healthy, error)
         == VisitFeed(opts, Progress(old(store.Model()), done, seen, well, None), feed)
  {
    outcomes, order, healthy, error := done, seen, well, None;
    if feed.name in outcomes {
      return;
    }
    var out := RunFeed(store, opts, feed);
    if out.Err? {
      error := Some(out.error);
      return;
    }
    outcomes := outcomes[feed.name := out.value];
    order := order + [feed.name];
    if out.value.result.status != OK {
      healthy := false;
    }
  }

  /** The inner fetch loop: the feeds of one alias that this run has not fetched yet. */
  method FetchAlias(store: Store, opts: Options, feeds: seq<Feed>,
                    done: map<string, FeedOutcome>, seen: seq<string>, well: bool)
    returns (outcomes: map<string, FeedOutcome>, order: seq<string>, healthy: bool, error: Option<string>)
    modifies store
    ensures Progress(store.Model(), outcomes, order, healthy, error)
         == VisitFeeds(opts, Progress(old(store.Model()), done, seen, well, None), feeds, |feeds|)
  {
    outcomes, order, healthy, error := done, seen, well, None;
    ghost var before := Progress(store.Model(), done, seen, well, None);
    for j := 0 to |feeds|
      invariant error.None?
      invariant Progress(store.Model(), outcomes, order, healthy, error) == VisitFeeds(opts, before, feeds, j)
    {
      outcomes, order, healthy, error := VisitOne(store, opts, feeds[j], outcomes, order, healthy);
      if error.Some? {
        ErrorStays(opts, before, feeds, j + 1, |feeds|);
        return;
      }
    }
  }

  /** The fetch loops: every distinct feed once, in order of first occurrence. */
  method FetchAll(store: Store, opts: Options, aliases: seq<AliasSpec>)
    returns (outcomes: map<string, FeedOutcome>, order: seq<string>, healthy: bool, error: Option<string>)
    modifies store
    ensures Progress(store.Model(), outcomes, order, healthy, error)
         == VisitAliases(opts, Start(old(store.Model())), aliases, |aliases|)
  {
    outcomes, order, healthy, error := map[], [], true, None;
    ghost var start := Start(store.Model());
    for i := 0 to |aliases|
      invariant error.None?
      invariant Progress(store.Model(), outcomes, order, healthy, error) == VisitAliases(opts, start, aliases, i)
    {
      outcomes, order, healthy, error := FetchAlias(store, opts, aliases[i].feeds, outcomes, order, healthy);
      if error.Some? {
        ErrorEndsRun(opts, start, aliases, i + 1, |aliases|);
        return;
      }
    }
  }

  /** Concatenates the lists of an alias's feeds. */
  method MergeLists(outcomes: map<string, FeedOutcome>, al: AliasSpec) returns (merged: seq<Prefix>)
    ensures merged == AliasInput(outcomes, al)
  {
    merged := [];
    for j := 0 to |al.feeds|
      invariant merged == MergedLists(outcomes, al.feeds, j)
    {
      if al.feeds[j].name in outcomes {
        merged := merged + outcomes[al.feeds[j].name].prefixes;
      }
    }
  }

  /** The normalized set of one alias. */
  method BuildSet(opts: Options, outcomes: map<string, FeedOutcome>, al: AliasSpec)
    returns (r: Normalize.Outcome<AliasSet>)
    ensures r.Diverges? <==> AliasHangs(opts, outcomes, al)
    ensures r.Done? ==> r.value == AliasSetFor(opts, outcomes, al)
  {
    var merged := MergeLists(outcomes, al);
    var norm := Normalize.Normalize(merged, opts.suppress);
    if norm.Diverges? {
      return Normalize.Diverges;
    }
    r := Normalize.Done(AliasSet(al.name, al.action, al.direction, norm.value.prefixes));
  }

  /** One normalized set per alias, in config order. */
  method BuildSets(opts: Options, outcomes: map<string, FeedOutcome>, aliases: seq<AliasSpec>)
    returns (r: Normalize.Outcome<seq<AliasSet>>)
    ensures r.Diverges? <==> SomeAliasHangs(opts, outcomes, aliases)
    ensures r.Done? ==> |r.value| == |aliases|
    ensures r.Done? ==> forall i :: 0 <= i < |aliases| ==> r.value[i] == AliasSetFor(opts, outcomes, aliases[i])
  {
    var sets: seq<AliasSet> := [];
    for i := 0 to |aliases|
      invariant |sets| == i && forall j :: 0 <= j < i ==> sets[j] == AliasSetFor(opts, outcomes, aliases[j])
      invariant forall j :: 0 <= j < i ==> !AliasHangs(opts, outcomes, aliases[j])
    {
      var built := BuildSet(opts, outcomes, aliases[i]);
      if built.Diverges? {
        return Normalize.Diverges;
      }
      sets := sets + [built.value];
    }
    r := Normalize.Done(sets);
  }

  method CollectResults(outcomes: map<string, FeedOutcome>, order: seq<string>) returns (results: seq<FeedResult>)
    requires forall name :: name in order ==> name in outcomes
    ensures results == FeedResults(outcomes, order)
  {
    results := [];
    for i := 0 to |order|
      invariant results == FeedResults(outcomes, order)[..i]
    {
      results := results + [outcomes[order[i]].result];
    }
  }

  /** One update cycle: fetch and evaluate every feed once, build the alias sets, hand them to the targets. */
  method Run(store: Store, opts: Options, aliases: seq<AliasSpec>) returns (end: RunEnd)
    modifies store
    ensures (store.Model(), end) == RunSpec(old(store.Model()), opts, aliases)
  {
    OrderVisited(opts, store.Model(), aliases, |aliases|);
    var outcomes, order, healthy, error := FetchAll(store, opts, aliases);
    if error.Some? {
      return Aborted(error.value);
    }
    var results := CollectResults(outcomes, order);
    var sets := BuildSets(opts, outcomes, aliases);
    if sets.Diverges? {
      return Hung;
    }
    assert sets.value == AliasSets(opts, outcomes, aliases);
    end := Finished(results, sets.value, healthy, !opts.dryRun);
  }
}
