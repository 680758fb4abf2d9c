/** What a run publishes, address by address, in terms of the store it starts from. */
module Published {
  import opened Words
  import opened Prefixes
  import opened Aggregation
  import opened Minimality
  import opened Suppression
  import opened State
  import opened Health
  import opened PipelineSpec
  import opened RunLocality
  import opened RunHistory
  import opened RunLaws
  import opened Filtering
  import opened Wrappers

  /** What a feed serves: said from the answer to its first definition and its own entry in the initial store. */
  function ServedBy(s: StoreState, opts: Options, aliases: seq<AliasSpec>, name: string): seq<Prefix> {
    var found := FindFeed(aliases, |aliases|, name);
    if found.None? then []
    else
      var e := EntryOf(s, name);
      Serving(e, opts, opts.fetch(found.value, e.state.etag, e.state.lastModified))
  }

  /** Some feed of the alias serves a prefix that touches no own network and contains the address. */
  ghost predicate Wanted(s: StoreState, opts: Options, aliases: seq<AliasSpec>, i: nat, f: Family, a: nat)
    requires i < |aliases|
  {
    exists j, p: Prefix :: 0 <= j < |aliases[i].feeds| && Contributes(s, opts, aliases, aliases[i].feeds[j].name, p)
                           && Contains(p, f, a)
  }

  predicate Contributes(s: StoreState, opts: Options, aliases: seq<AliasSpec>, name: string, p: Prefix) {
    p in ServedBy(s, opts, aliases, name) && !OverlapsAny(p, opts.suppress)
  }

  /** The outcome recorded for a name during the run is what that feed serves. */
  lemma {:induction false} OutcomeIsServed(s: StoreState, opts: Options, aliases: seq<AliasSpec>, name: string)
    requires VisitAliases(opts, Start(s), aliases, |aliases|).error.None?
    ensures PrefixesOf(VisitAliases(opts, Start(s), aliases, |aliases|).outcomes, name)
         == ServedBy(s, opts, aliases, name)
  {
    var found := FindFeed(aliases, |aliases|, name);
    RunIsLocal(name, s, opts, aliases, |aliases|);
    if found.Some? { StepServes(EntryOf(s, name), found.value, opts); }
  }

  lemma {:induction false} MergedMembers(outcomes: map<string, FeedOutcome>, feeds: seq<Feed>, n: nat, p: Prefix)
    requires n <= |feeds|
    ensures p in MergedLists(outcomes, feeds, n) <==> exists j :: 0 <= j < n && p in PrefixesOf(outcomes, feeds[j].name)
  {
    if n > 0 { MergedMembers(outcomes, feeds, n - 1, p); }
  }

  lemma {:induction false} InputIsServed(s: StoreState, opts: Options, aliases: seq<AliasSpec>, i: nat, p: Prefix)
    requires VisitAliases(opts, Start(s), aliases, |aliases|).error.None? && i < |aliases|
    ensures p in AliasInput(VisitAliases(opts, Start(s), aliases, |aliases|).outcomes, aliases[i])
       <==> exists j :: 0 <= j < |aliases[i].feeds| && p in ServedBy(s, opts, aliases, aliases[i].feeds[j].name)
  {
    var outcomes, feeds := VisitAliases(opts, Start(s), aliases, |aliases|).outcomes, aliases[i].feeds;
    MergedMembers(outcomes, feeds, |feeds|, p);
    forall j | 0 <= j < |feeds|
      ensures PrefixesOf(outcomes, feeds[j].name) == ServedBy(s, opts, aliases, feeds[j].name)
    {
      OutcomeIsServed(s, opts, aliases, feeds[j].name);
    }
  }

  /** The surviving part of an alias's input covers exactly the wanted addresses. */
  lemma {:induction false} SurvivorsWanted(s: StoreState, opts: Options, aliases: seq<AliasSpec>, i: nat,
                                           f: Family, a: nat)
    requires VisitAliases(opts, Start(s), aliases, |aliases|).error.None? && i < |aliases|
    ensures var outcomes := VisitAliases(opts, Start(s), aliases, |aliases|).outcomes;
            Covers(Kept(AliasInput(outcomes, aliases[i]), opts.suppress), f, a) <==> Wanted(s, opts, aliases, i, f, a)
  {
    var merged := AliasInput(VisitAliases(opts, Start(s), aliases, |aliases|).outcomes, aliases[i]);
    if p: Prefix :| p in Kept(merged, opts.suppress) && Contains(p, f, a) {
      KeptMembers(merged, opts.suppress, p);
      InputIsServed(s, opts, aliases, i, p);
      var j :| 0 <= j < |aliases[i].feeds| && p in ServedBy(s, opts, aliases, aliases[i].feeds[j].name);
      assert Contributes(s, opts, aliases, aliases[i].feeds[j].name, p);
    }
    if j, p: Prefix :| 0 <= j < |aliases[i].feeds| && Contributes(s, opts, aliases, aliases[i].feeds[j].name, p)
                       && Contains(p, f, a) {
      InputIsServed(s, opts, aliases, i, p);
      KeptMembers(merged, opts.suppress, p);
    }
  }

  /**
   A finished run publishes an address for an alias if and only if one of the
   alias's feeds serves it in a prefix that touches no own network.
   */
  lemma PublishedExactly(s: StoreState, opts: Options, aliases: seq<AliasSpec>, i: nat, f: Family, a: nat)
    requires RunSpec(s, opts, aliases).1.Finished? && i < |aliases|
    ensures i < |RunSpec(s, opts, aliases).1.sets|
    ensures Covers(RunSpec(s, opts, aliases).1.sets[i].prefixes, f, a) <==> Wanted(s, opts, aliases, i, f, a)
  {
    var merged := AliasInput(VisitAliases(opts, Start(s), aliases, |aliases|).outcomes, aliases[i]);
    CanonicalCovers(Kept(merged, opts.suppress));
    SurvivorsWanted(s, opts, aliases, i, f, a);
  }

  /** A fresh answer contributes exactly its harmless entries, be the feed OK, SUSPECT or STALE. */
  lemma {:induction false} FreshContribution(s: StoreState, opts: Options, aliases: seq<AliasSpec>, feed: Feed,
                                             p: Prefix)
    requires FindFeed(aliases, |aliases|, feed.name) == Some(feed)
    requires var st := EntryOf(s, feed.name).state;
             var ans := opts.fetch(feed, st.etag, st.lastModified);
             ans.Parsed? && exists q: Prefix :: q in ans.prefixes && Harmless(q, opts.suppress)
    ensures var st := EntryOf(s, feed.name).state;
            Contributes(s, opts, aliases, feed.name, p)
            <==> p in opts.fetch(feed, st.etag, st.lastModified).prefixes && Harmless(p, opts.suppress)
  {
    var e := EntryOf(s, feed.name);
    var ans := opts.fetch(feed, e.state.etag, e.state.lastModified);
    var q: Prefix :| q in ans.prefixes && Harmless(q, opts.suppress);
    UsableIffClean(q, opts.suppress);
    SplitMembers(ans.prefixes, FailsFloor(opts.suppress), q);
    FreshMembers(e, opts, ans, p);
    OverlapsAnyIffShares(p, opts.suppress);
  }

  /** Set i carries alias i's name, action and direction, and a run is applied unless it is a rehearsal. */
  lemma HandsOver(s: StoreState, opts: Options, aliases: seq<AliasSpec>, i: nat)
    requires RunSpec(s, opts, aliases).1.Finished? && i < |aliases|
    ensures var end := RunSpec(s, opts, aliases).1;
            && |end.sets| == |aliases|
            && end.sets[i].name == aliases[i].name
            && end.sets[i].action == aliases[i].action
            && end.sets[i].direction == aliases[i].direction
            && (end.applied <==> !opts.dryRun)
  {
  }

  /** Every published list is in order: IPv4 first, and each prefix ends before the next one starts. */
  lemma PublishedInOrder(s: StoreState, opts: Options, aliases: seq<AliasSpec>, i: nat, j: nat, k: nat)
    requires RunSpec(s, opts, aliases).1.Finished? && i < |aliases|
    requires i < |RunSpec(s, opts, aliases).1.sets| && j < k < |RunSpec(s, opts, aliases).1.sets[i].prefixes|
    ensures var ps := RunSpec(s, opts, aliases).1.sets[i].prefixes;
            var p, q := ps[j], ps[k];
            if p.fam != q.fam then p.fam == V4 && q.fam == V6 else Last(p) < q.addr
  {
    var outcomes := VisitAliases(opts, Start(s), aliases, |aliases|).outcomes;
    CanonicalOrder(Kept(AliasInput(outcomes, aliases[i]), opts.suppress), j, k);
  }

  /** No list that covers exactly the wanted addresses is shorter than the published one. */
  lemma PublishedFewest(s: StoreState, opts: Options, aliases: seq<AliasSpec>, i: nat, qs: seq<Prefix>)
    requires RunSpec(s, opts, aliases).1.Finished? && i < |aliases|
    requires forall f, a: nat :: Covers(qs, f, a) <==> Wanted(s, opts, aliases, i, f, a)
    ensures i < |RunSpec(s, opts, aliases).1.sets| && |RunSpec(s, opts, aliases).1.sets[i].prefixes| <= |qs|
  {
    var kept := Kept(AliasInput(VisitAliases(opts, Start(s), aliases, |aliases|).outcomes, aliases[i]), opts.suppress);
    forall f, a: nat ensures Covers(qs, f, a) <==> Covers(kept, f, a) { SurvivorsWanted(s, opts, aliases, i, f, a); }
    CanonicalMinimal(kept, qs);
  }

  ghost predicate WantsAllV6(s: StoreState, opts: Options, aliases: seq<AliasSpec>, i: nat)
    requires i < |aliases|
  {
    forall a: nat :: a < SPACE ==> Wanted(s, opts, aliases, i, V6, a)
  }

  ghost predicate SomeWantsAllV6(s: StoreState, opts: Options, aliases: seq<AliasSpec>) {
    exists i: nat :: i < |aliases| && WantsAllV6(s, opts, aliases, i)
  }

  lemma RunHangsIff(s: StoreState, opts: Options, aliases: seq<AliasSpec>)
    requires StoreOk(s) && opts.now > 0
    ensures RunSpec(s, opts, aliases).1.Hung? <==> SomeWantsAllV6(s, opts, aliases)
  {
    AliasesOk(opts, s, aliases, |aliases|);
    var outcomes := VisitAliases(opts, Start(s), aliases, |aliases|).outcomes;
    if i: nat :| i < |aliases| && AliasHangs(opts, outcomes, aliases[i]) { HangsAlias(s, opts, aliases, i); }
    if i: nat :| i < |aliases| && WantsAllV6(s, opts, aliases, i) { HangsAlias(s, opts, aliases, i); }
  }

  /** A cycle from a reachable store fails to return if and only if every IPv6 address is wanted for some alias. */
  lemma {:induction false} HangsIff(cycles: seq<Cycle>, n: nat)
    requires n < |cycles| && ValidClock(cycles)
    ensures EndOf(cycles, n).Hung? <==> SomeWantsAllV6(StoreAfter(cycles, n), cycles[n].opts, cycles[n].aliases)
  {
    ReachableStoreOk(cycles, n);
    RunHangsIff(StoreAfter(cycles, n), cycles[n].opts, cycles[n].aliases);
  }

  lemma {:induction false} HangsAlias(s: StoreState, opts: Options, aliases: seq<AliasSpec>, i: nat)
    requires VisitAliases(opts, Start(s), aliases, |aliases|).error.None? && i < |aliases|
    ensures AliasHangs(opts, VisitAliases(opts, Start(s), aliases, |aliases|).outcomes, aliases[i])
       <==> WantsAllV6(s, opts, aliases, i)
  {
    forall a: nat { SurvivorsWanted(s, opts, aliases, i, V6, a); }
  }
}
