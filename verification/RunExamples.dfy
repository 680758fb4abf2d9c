/** Runs of a single feed: one that never returns, and one that is unhealthy only because the feed is STALE. */
module RunExamples {
  import opened Words
  import opened Prefixes
  import opened Filtering
  import opened Suppression
  import opened Normalize
  import opened State
  import opened Health
  import opened PipelineSpec
  import opened RunLocality
  import opened RunHistory
  import opened Scenarios
  import opened DocumentedRules
  import opened Wrappers

  /** A run over one alias with one feed is one step of that feed. */
  lemma {:induction false} OneFeedRun(s: StoreState, opts: Options, al: AliasSpec, feed: Feed)
    requires al.feeds == [feed] && StepEntry(EntryOf(s, feed.name), feed, opts).Ok?
    ensures var step, pr := StepEntry(EntryOf(s, feed.name), feed, opts).value, VisitAliases(opts, Start(s), [al], 1);
            && pr.store == AfterFeed(s, feed.name, step.next, opts.dryRun)
            && pr.outcomes == map[feed.name := step.outcome] && pr.order == [feed.name]
            && pr.healthy == (step.outcome.result.status == OK) && pr.error == None
  {
    assert VisitAliases(opts, Start(s), [al], 0) == Start(s);
    assert VisitFeeds(opts, Start(s), al.feeds, 0) == Start(s);
    assert VisitFeeds(opts, Start(s), al.feeds, 1) == VisitFeed(opts, Start(s), feed);
  }

  lemma HalvesPass()
    ensures Usable(Halves(V6), []) == Halves(V6) && Poison(Halves(V6), []) == []
  {
    assert forall o: Prefix :: o in Rfc1918() ==> o.fam == V4;
    NoneHaving(Halves(V6), FailsFloor([]));
  }

  /** A first list the floor leaves alone is healthy. */
  lemma HealthyStep(feed: Feed, ps: seq<Prefix>, now: int) returns (step: Step)
    requires ps != [] && Usable(ps, []) == ps && Poison(ps, []) == [] && now > 0
    ensures StepEntry(EMPTY_ENTRY, feed, Answering(Parsed("a", ps, NO_STATS, "", ""), now)) == Ok(step)
    ensures step.outcome.result.status == OK && step.outcome.prefixes == ps
    ensures step.next.state.bodySha256 == "a" && step.next.state.unchangedSince == now
  {
    step := StepEntry(EMPTY_ENTRY, feed, Answering(Parsed("a", ps, NO_STATS, "", ""), now)).value;
  }

  /** One feed that answers ::/1 and 8000::/1 passes every check as OK, and the whole update never returns. */
  lemma OneFeedHangs(feed: Feed, al: AliasSpec, now: int) returns (cycles: seq<Cycle>)
    requires al.feeds == [feed] && now > 0
    ensures cycles == [Cycle(Answering(Parsed("a", Halves(V6), NO_STATS, "", ""), now), [al])]
    ensures StepEntry(EMPTY_ENTRY, feed, cycles[0].opts).Ok?
    ensures StepEntry(EMPTY_ENTRY, feed, cycles[0].opts).value.outcome.result.status == OK
    ensures EndOf(cycles, 0) == Hung
  {
    var opts := Answering(Parsed("a", Halves(V6), NO_STATS, "", ""), now);
    cycles := [Cycle(opts, [al])];
    HalvesPass();
    var step := HealthyStep(feed, Halves(V6), now);
    OneFeedRun(EMPTY_STORE, opts, al, feed);
    HalvesHang(opts, map[feed.name := step.outcome], al, feed);
    assert [al][0] == al;
  }

  lemma HalvesHang(opts: Options, outcomes: map<string, FeedOutcome>, al: AliasSpec, feed: Feed)
    requires al.feeds == [feed] && feed.name in outcomes && outcomes[feed.name].prefixes == Halves(V6)
    requires opts.suppress == []
    ensures AliasHangs(opts, outcomes, al)
  {
    AliasOfOne(outcomes, al, feed);
    NoneHaving(Halves(V6), MeetsAny([]));
    SpaceIsPow2();
    forall a: nat | a < SPACE ensures Covers(Halves(V6), V6, a) { HalvesCover(V6, 127, a); }
  }

  lemma AliasOfOne(outcomes: map<string, FeedOutcome>, al: AliasSpec, feed: Feed)
    requires al.feeds == [feed] && feed.name in outcomes
    ensures AliasInput(outcomes, al) == outcomes[feed.name].prefixes
  {
    assert MergedLists(outcomes, al.feeds, 0) == [];
  }

  /** A healthy list whose bytes are still the same past its cadence and stale_max. */
  lemma StaleStep(e: Entry, feed: Feed, p: Prefix, now: int, later: int) returns (step: Step)
    requires !Poisoned(p, []) && now > 0 && feed.cadenceHours > 0
    requires later - now > feed.cadenceHours * HOUR + 14 * DAY
    requires e.state.bodySha256 == "a" && e.state.unchangedSince == now
    ensures StepEntry(e, feed, Answering(Parsed("a", [p], NO_STATS, "", ""), later)) == Ok(step)
    ensures step.outcome.result.status == Stale && step.outcome.prefixes == [p]
  {
    NoneHaving([p], FailsFloor([]));
    step := StepEntry(e, feed, Answering(Parsed("a", [p], NO_STATS, "", ""), later)).value;
  }

  /** An alias of one feed that serves one IPv4 prefix does not cover IPv6. */
  lemma OnePrefixReturns(opts: Options, outcomes: map<string, FeedOutcome>, al: AliasSpec, feed: Feed, p: Prefix)
    requires al.feeds == [feed] && feed.name in outcomes && outcomes[feed.name].prefixes == [p]
    requires p.fam == V4
    ensures !SomeAliasHangs(opts, outcomes, [al])
  {
    AliasOfOne(outcomes, al, feed);
    KeptMembers([p], opts.suppress, p);
    forall q: Prefix | q in Kept([p], opts.suppress) ensures q.fam == V4 { KeptMembers([p], opts.suppress, q); }
    assert !Covers(Kept([p], opts.suppress), V6, 0);
    assert forall i :: 0 <= i < 1 ==> [al][i] == al;
  }

  /** The same bytes again past cadence and stale_max: the only feed is STALE, and that makes the run unhealthy. */
  lemma OnlyStale(feed: Feed, al: AliasSpec, p: Prefix, now: int, later: int) returns (cycles: seq<Cycle>)
    requires al.feeds == [feed] && feed.cadenceHours > 0 && p.fam == V4 && !Poisoned(p, [])
    requires now > 0 && later - now > feed.cadenceHours * HOUR + 14 * DAY
    ensures |cycles| == 2 && cycles[0].opts.now == now && cycles[1].opts.now == later
    ensures EndOf(cycles, 1).Finished? && !EndOf(cycles, 1).healthy && NoneFailedOrSuspect(EndOf(cycles, 1).feeds)
    ensures |EndOf(cycles, 1).feeds| == 1 && EndOf(cycles, 1).feeds[0].status == Stale
  {
    var ans := Parsed("a", [p], NO_STATS, "", "");
    cycles := [Cycle(Answering(ans, now), [al]), Cycle(Answering(ans, later), [al])];
    var s := StoreAfter(cycles, 1);
    NoneHaving([p], FailsFloor([]));
    var first := HealthyStep(feed, [p], now);
    FirstRunStores(cycles[0].opts, al, feed, first);
    assert StoreAfter(cycles, 0) == EMPTY_STORE;
    var step := StaleStep(EntryOf(s, feed.name), feed, p, now, later);
    OneFeedRun(s, cycles[1].opts, al, feed);
    OnePrefixReturns(cycles[1].opts, map[feed.name := step.outcome], al, feed, p);
  }

  lemma FirstRunStores(opts: Options, al: AliasSpec, feed: Feed, step: Step)
    requires al.feeds == [feed] && !opts.dryRun && StepEntry(EMPTY_ENTRY, feed, opts) == Ok(step)
    ensures EntryOf(RunSpec(EMPTY_STORE, opts, [al]).0, feed.name) == step.next
  {
    assert EntryOf(EMPTY_STORE, feed.name) == EMPTY_ENTRY;
    OneFeedRun(EMPTY_STORE, opts, al, feed);
    RunStore(EMPTY_STORE, opts, [al]);
    EntryAfter(EMPTY_STORE, feed.name, step.next, feed.name);
  }
}
