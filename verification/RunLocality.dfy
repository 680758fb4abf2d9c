/** Feeds do not interfere: what a run does to one feed depends on that feed's share of the store alone. */
module RunLocality {
  import opened State
  import opened Health
  import opened PipelineSpec
  import opened Wrappers

  /** The first of the first n feeds with the given name. */
  function FindIn(feeds: seq<Feed>, n: nat, name: string): Option<Feed>
    requires n <= |feeds|
  {
    if n == 0 then None
    else Prefer(FindIn(feeds, n - 1, name), if feeds[n - 1].name == name then Some(feeds[n - 1]) else None)
  }

  /** The first feed with the given name in the first n aliases. */
  function FindFeed(aliases: seq<AliasSpec>, n: nat, name: string): Option<Feed>
    requires n <= |aliases|
  {
    if n == 0 then None
    else Prefer(FindFeed(aliases, n - 1, name), FindIn(aliases[n - 1].feeds, |aliases[n - 1].feeds|, name))
  }

  function Prefer(a: Option<Feed>, b: Option<Feed>): Option<Feed> { if a.Some? then a else b }

  lemma EntryAfter(s: StoreState, name: string, e: Entry, other: string)
    requires EntryOf(s, name).snapshot.Some? ==> e.snapshot.Some?
    ensures EntryOf(WithEntry(s, name, e), other) == if other == name then e else EntryOf(s, other)
  {
  }

  lemma StepKeepsFile(e: Entry, feed: Feed, opts: Options)
    requires StepEntry(e, feed, opts).Ok? && e.snapshot.Some?
    ensures StepEntry(e, feed, opts).value.next.snapshot.Some?
  {
  }

  lemma RehearsalKeepsEntry(e: Entry, feed: Feed, opts: Options)
    requires StepEntry(e, feed, opts).Ok? && opts.dryRun
    ensures StepEntry(e, feed, opts).value.next == e
  {
  }

  /** What the loop has done for one name: nothing yet, or one step from the store the run started with. */
  ghost predicate LocalAt(name: string, s: StoreState, opts: Options, pr: Progress, found: Option<Feed>) {
    pr.error.None? ==>
      if found.None? then name !in pr.outcomes && EntryOf(pr.store, name) == EntryOf(s, name)
      else
        && name in pr.outcomes && found.value.name == name
        && StepEntry(EntryOf(s, name), found.value, opts) == Ok(Step(pr.outcomes[name], EntryOf(pr.store, name)))
  }

  lemma VisitIsLocal(name: string, s: StoreState, opts: Options, pr: Progress, feed: Feed, found: Option<Feed>)
    requires LocalAt(name, s, opts, pr, found)
    ensures LocalAt(name, s, opts, VisitFeed(opts, pr, feed),
                    Prefer(found, if feed.name == name then Some(feed) else None))
  {
    if pr.error.None? && feed.name !in pr.outcomes {
      var e := EntryOf(pr.store, feed.name);
      var step := StepEntry(e, feed, opts);
      if step.Ok? {
        if e.snapshot.Some? { StepKeepsFile(e, feed, opts); }
        EntryAfter(pr.store, feed.name, step.value.next, name);
        if opts.dryRun { RehearsalKeepsEntry(e, feed, opts); }
      }
    }
  }

  lemma {:induction false} FeedsAreLocal(name: string, s: StoreState, opts: Options, pr: Progress, found: Option<Feed>,
                                         feeds: seq<Feed>, n: nat)
    requires n <= |feeds| && LocalAt(name, s, opts, pr, found)
    ensures LocalAt(name, s, opts, VisitFeeds(opts, pr, feeds, n), Prefer(found, FindIn(feeds, n, name)))
  {
    if n > 0 {
      FeedsAreLocal(name, s, opts, pr, found, feeds, n - 1);
      VisitIsLocal(name, s, opts, VisitFeeds(opts, pr, feeds, n - 1), feeds[n - 1],
                   Prefer(found, FindIn(feeds, n - 1, name)));
    }
  }

  /**
   After a run without error, a feed named in some alias has taken exactly one
   step, with the first definition of that name and from the entry the run
   started with; every other entry is untouched.
   */
  lemma {:induction false} RunIsLocal(name: string, s: StoreState, opts: Options, aliases: seq<AliasSpec>, n: nat)
    requires n <= |aliases|
    ensures LocalAt(name, s, opts, VisitAliases(opts, Start(s), aliases, n), FindFeed(aliases, n, name))
  {
    if n > 0 {
      RunIsLocal(name, s, opts, aliases, n - 1);
      FeedsAreLocal(name, s, opts, VisitAliases(opts, Start(s), aliases, n - 1), FindFeed(aliases, n - 1, name),
                    aliases[n - 1].feeds, |aliases[n - 1].feeds|);
    }
  }

  /** A rehearsed and a real step from one entry come out the same. */
  lemma StepRehearses(e: Entry, feed: Feed, opts: Options, dry: bool)
    ensures var actual, rehearsed := StepEntry(e, feed, opts), StepEntry(e, feed, opts.(dryRun := dry));
            if actual.Err? then rehearsed == Err(actual.error)
            else rehearsed.Ok? && rehearsed.value.outcome == actual.value.outcome
  {
    var ans := AnswerFor(e, feed, opts);
    assert AnswerFor(e, feed, opts.(dryRun := dry)) == ans;
    assert InputFor(e, feed, opts.(dryRun := dry), ans) == InputFor(e, feed, opts, ans);
  }

  /** A rehearsal in step with a real run: same answers so far, and its store is still the initial one. */
  ghost predicate InStep(s: StoreState, actual: Progress, rehearsed: Progress) {
    && rehearsed.outcomes == actual.outcomes && rehearsed.order == actual.order
    && rehearsed.healthy == actual.healthy && rehearsed.error == actual.error
    && rehearsed.store == s
    && forall name :: name !in actual.outcomes ==> EntryOf(actual.store, name) == EntryOf(s, name)
  }

  lemma VisitStaysInStep(s: StoreState, opts: Options, actual: Progress, rehearsed: Progress, feed: Feed)
    requires InStep(s, actual, rehearsed)
    ensures InStep(s, VisitFeed(opts.(dryRun := false), actual, feed),
                   VisitFeed(opts.(dryRun := true), rehearsed, feed))
  {
    if actual.error.None? && feed.name !in actual.outcomes {
      var e := EntryOf(s, feed.name);
      StepRehearses(e, feed, opts.(dryRun := false), true);
      var step := StepEntry(e, feed, opts.(dryRun := false));
      if step.Ok? {
        if e.snapshot.Some? { StepKeepsFile(e, feed, opts.(dryRun := false)); }
        forall name | name !in actual.outcomes && name != feed.name
          ensures EntryOf(WithEntry(actual.store, feed.name, step.value.next), name) == EntryOf(s, name)
        {
          EntryAfter(actual.store, feed.name, step.value.next, name);
        }
      }
    }
  }

  lemma {:induction false} FeedsStayInStep(s: StoreState, opts: Options, actual: Progress, rehearsed: Progress,
                                          feeds: seq<Feed>, n: nat)
    requires n <= |feeds| && InStep(s, actual, rehearsed)
    ensures InStep(s, VisitFeeds(opts.(dryRun := false), actual, feeds, n),
                   VisitFeeds(opts.(dryRun := true), rehearsed, feeds, n))
  {
    if n > 0 {
      FeedsStayInStep(s, opts, actual, rehearsed, feeds, n - 1);
      VisitStaysInStep(s, opts, VisitFeeds(opts.(dryRun := false), actual, feeds, n - 1),
                       VisitFeeds(opts.(dryRun := true), rehearsed, feeds, n - 1), feeds[n - 1]);
    }
  }

  lemma {:induction false} AliasesStayInStep(s: StoreState, opts: Options, aliases: seq<AliasSpec>, n: nat)
    requires n <= |aliases|
    ensures InStep(s, VisitAliases(opts.(dryRun := false), Start(s), aliases, n),
                   VisitAliases(opts.(dryRun := true), Start(s), aliases, n))
  {
    if n > 0 {
      AliasesStayInStep(s, opts, aliases, n - 1);
      FeedsStayInStep(s, opts, VisitAliases(opts.(dryRun := false), Start(s), aliases, n - 1),
                      VisitAliases(opts.(dryRun := true), Start(s), aliases, n - 1),
                      aliases[n - 1].feeds, |aliases[n - 1].feeds|);
    }
  }

  lemma SetsRehearse(opts: Options, outcomes: map<string, FeedOutcome>, aliases: seq<AliasSpec>)
    ensures AliasSets(opts.(dryRun := false), outcomes, aliases) == AliasSets(opts.(dryRun := true), outcomes, aliases)
    ensures SomeAliasHangs(opts.(dryRun := false), outcomes, aliases)
         == SomeAliasHangs(opts.(dryRun := true), outcomes, aliases)
  {
    forall i | 0 <= i < |aliases|
      ensures AliasHangs(opts.(dryRun := false), outcomes, aliases[i])
           == AliasHangs(opts.(dryRun := true), outcomes, aliases[i])
    {
    }
  }

  /** A rehearsal ends as the real run does, except that nothing is applied, and leaves the store alone. */
  lemma DryRunRehearses(s: StoreState, opts: Options, aliases: seq<AliasSpec>)
    ensures RunSpec(s, opts.(dryRun := true), aliases).0 == s
    ensures var actual := RunSpec(s, opts.(dryRun := false), aliases).1;
            var rehearsed := RunSpec(s, opts.(dryRun := true), aliases).1;
            rehearsed == if actual.Finished? then actual.(applied := false) else actual
  {
    AliasesStayInStep(s, opts, aliases, |aliases|);
    var pr := VisitAliases(opts.(dryRun := false), Start(s), aliases, |aliases|);
    SetsRehearse(opts, pr.outcomes, aliases);
  }
}
