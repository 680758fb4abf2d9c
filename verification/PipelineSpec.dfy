/** One update cycle as a function of the store: the reference the pipeline's loops are proved against. */
module PipelineSpec {
  import opened Prefixes
  import opened Suppression
  import opened Normalize
  import opened Snapshot
  import opened SnapshotText
  import opened State
  import opened Health
  import opened Wrappers

  /** A SHA-256 in hex: any non-empty string. */
  type Digest = s: string | s != "" witness "0"

  /** Whatever the fetch and the parser may come back with. */
  datatype Answer =
    | FetchError
    | NotModified(etag: string, lastModified: string)
    | Unparsable(sha: Digest, etag: string, lastModified: string)
    | Parsed(sha: Digest, prefixes: seq<Prefix>, stats: Stats, etag: string, lastModified: string)

  /** The fetcher sees the feed and the validators of the last fetch. */
  datatype Options = Options(
    fetch: (Feed, string, string) -> Answer,
    suppress: seq<Prefix>,
    thresholds: Thresholds,
    now: int,
    dryRun: bool)

  /** One feed's share of the store. */
  datatype Entry = Entry(state: FeedState, snapshot: Option<string>)

  const EMPTY_ENTRY := Entry(ZERO_STATE, None)

  function EntryOf(s: StoreState, name: string): Entry {
    Entry(Loaded(s, name), if name in s.files then Some(s.files[name]) else None)
  }

  function CachedIn(e: Entry): Result<seq<Prefix>> {
    if e.snapshot.Some? then Decode(e.snapshot.value) else Ok([])
  }

  datatype FeedResult = FeedResult(
    feed: Feed,
    status: Status,
    entries: nat,
    prevEntries: nat,
    lastGoodAt: int,
    usedLastGood: bool,
    dropped: bool)

  /** What one feed contributes to the run. */
  datatype FeedOutcome = FeedOutcome(result: FeedResult, prefixes: seq<Prefix>)

  datatype Step = Step(outcome: FeedOutcome, next: Entry)

  const NO_STATS := Stats(0, 0)

  function AnswerFor(e: Entry, feed: Feed, opts: Options): Answer {
    opts.fetch(feed, e.state.etag, e.state.lastModified)
  }

  /** What the health check sees for an answer; a 304 stands for the cached list. */
  function InputFor(e: Entry, feed: Feed, opts: Options, ans: Answer): Result<Input> {
    var base := Input(feed, false, false, "", NO_STATS, [], e.state, opts.now, opts.suppress);
    match ans
    case FetchError => Ok(base.(fetchFailed := true))
    case NotModified(_, _) =>
      var cached := CachedIn(e);
      if cached.Err? then Err(cached.error)
      else Ok(base.(notModified := true, bodySha256 := e.state.bodySha256, prefixes := cached.value))
    case Unparsable(sha, _, _) => Ok(base.(fetchFailed := true, bodySha256 := sha))
    case Parsed(sha, ps, stats, _, _) => Ok(base.(bodySha256 := sha, prefixes := ps, stats := stats))
  }

  /** What the aliases consume. */
  function Consumed(e: Entry, inp: Input, ev: Evaluation): Result<seq<Prefix>> {
    if ev.dropFeed then Ok([])
    else if ev.useLastGood || inp.notModified then CachedIn(e)
    else Ok(ev.prefixes)
  }

  function WithValidators(st: FeedState, ans: Answer): FeedState {
    if ans.FetchError? then st
    else st.(etag := if ans.etag != "" then ans.etag else st.etag,
             lastModified := if ans.lastModified != "" then ans.lastModified else st.lastModified)
  }

  /** The baseline snapshot moves only on an OK run that fetched new content. */
  predicate SavesSnapshot(inp: Input, ev: Evaluation) {
    ev.status == OK && !inp.notModified && |ev.prefixes| > 0
  }

  function Persisted(e: Entry, ans: Answer, inp: Input, ev: Evaluation): Entry {
    Entry(WithValidators(ev.nextState, ans),
          if SavesSnapshot(inp, ev) then Some(Encode(SnapshotOf(ev.prefixes))) else e.snapshot)
  }

  function ResultOf(feed: Feed, e: Entry, ev: Evaluation, consumed: seq<Prefix>): FeedResult {
    FeedResult(feed, ev.status, |consumed|, e.state.lastGoodCount, ev.nextState.lastGoodAt, ev.useLastGood, ev.dropFeed)
  }

  /** One feed in one run: its outcome, and its share of the store afterwards. */
  function StepEntry(e: Entry, feed: Feed, opts: Options): Result<Step> {
    var ans := AnswerFor(e, feed, opts);
    var inp := InputFor(e, feed, opts, ans);
    if inp.Err? then Err(inp.error)
    else
      var ev := Evaluated(inp.value, opts.thresholds);
      var consumed := Consumed(e, inp.value, ev);
      if consumed.Err? then Err(consumed.error)
      else Ok(Step(FeedOutcome(ResultOf(feed, e, ev, consumed.value), consumed.value),
                   if opts.dryRun then e else Persisted(e, ans, inp.value, ev)))
  }

  function WithEntry(s: StoreState, name: string, e: Entry): StoreState {
    StoreState(s.feeds[name := e.state], if e.snapshot.Some? then s.files[name := e.snapshot.value] else s.files)
  }

  function AfterFeed(s: StoreState, name: string, e: Entry, dryRun: bool): StoreState {
    if dryRun then s else WithEntry(s, name, e)
  }

  datatype AliasSpec = AliasSpec(name: string, action: string, direction: string, feeds: seq<Feed>)

  datatype AliasSet = AliasSet(name: string, action: string, direction: string, prefixes: seq<Prefix>)

  /** The state of the fetch loop. */
  datatype Progress = Progress(
    store: StoreState,
    outcomes: map<string, FeedOutcome>,
    order: seq<string>,
    healthy: bool,
    error: Option<string>)

  function Start(s: StoreState): Progress { Progress(s, map[], [], true, None) }

  /** A feed already fetched in this run is skipped; an error ends the loop. */
  function VisitFeed(opts: Options, pr: Progress, feed: Feed): Progress {
    if pr.error.Some? || feed.name in pr.outcomes then pr
    else
      var step := StepEntry(EntryOf(pr.store, feed.name), feed, opts);
      if step.Err? then pr.(error := Some(step.error))
      else Progress(AfterFeed(pr.store, feed.name, step.value.next, opts.dryRun),
                    pr.outcomes[feed.name := step.value.outcome],
                    pr.order + [feed.name],
                    pr.healthy && step.value.outcome.result.status == OK,
                    None)
  }

  /** The first n feeds of a list. */
  function VisitFeeds(opts: Options, pr: Progress, feeds: seq<Feed>, n: nat): Progress
    requires n <= |feeds|
  {
    if n == 0 then pr else VisitFeed(opts, VisitFeeds(opts, pr, feeds, n - 1), feeds[n - 1])
  }

  /** The feeds of the first n aliases. */
  function VisitAliases(opts: Options, pr: Progress, aliases: seq<AliasSpec>, n: nat): Progress
    requires n <= |aliases|
  {
    if n == 0 then pr
    else VisitFeeds(opts, VisitAliases(opts, pr, aliases, n - 1), aliases[n - 1].feeds, |aliases[n - 1].feeds|)
  }

  function PrefixesOf(outcomes: map<string, FeedOutcome>, name: string): seq<Prefix> {
    if name in outcomes then outcomes[name].prefixes else []
  }

  /** The lists of the first n feeds, one after the other. */
  function MergedLists(outcomes: map<string, FeedOutcome>, feeds: seq<Feed>, n: nat): seq<Prefix>
    requires n <= |feeds|
  {
    if n == 0 then [] else MergedLists(outcomes, feeds, n - 1) + PrefixesOf(outcomes, feeds[n - 1].name)
  }

  function AliasInput(outcomes: map<string, FeedOutcome>, al: AliasSpec): seq<Prefix> {
    MergedLists(outcomes, al.feeds, |al.feeds|)
  }

  /** Building the alias never returns when its surviving prefixes cover all of IPv6. */
  ghost predicate AliasHangs(opts: Options, outcomes: map<string, FeedOutcome>, al: AliasSpec) {
    CoversAllV6(Kept(AliasInput(outcomes, al), opts.suppress))
  }

  ghost function AliasSetFor(opts: Options, outcomes: map<string, FeedOutcome>, al: AliasSpec): AliasSet {
    AliasSet(al.name, al.action, al.direction, Normalized(AliasInput(outcomes, al), opts.suppress))
  }

  ghost predicate SomeAliasHangs(opts: Options, outcomes: map<string, FeedOutcome>, aliases: seq<AliasSpec>) {
    exists i :: 0 <= i < |aliases| && AliasHangs(opts, outcomes, aliases[i])
  }

  /** One set per alias, in config order. */
  ghost function AliasSets(opts: Options, outcomes: map<string, FeedOutcome>, aliases: seq<AliasSpec>)
    : (sets: seq<AliasSet>)
    ensures |sets| == |aliases|
    ensures forall i :: 0 <= i < |aliases| ==> sets[i] == AliasSetFor(opts, outcomes, aliases[i])
  {
    seq(|aliases|, i requires 0 <= i < |aliases| => AliasSetFor(opts, outcomes, aliases[i]))
  }

  function FeedResults(outcomes: map<string, FeedOutcome>, order: seq<string>): seq<FeedResult>
    requires forall name :: name in order ==> name in outcomes
  {
    seq(|order|, i requires 0 <= i < |order| && order[i] in outcomes => outcomes[order[i]].result)
  }

  /** How a run ends: an error, no return, or the sets handed to the targets (applied unless rehearsed). */
  datatype RunEnd =
    | Aborted(error: string)
    | Hung
    | Finished(feeds: seq<FeedResult>, sets: seq<AliasSet>, healthy: bool, applied: bool)

  lemma {:induction false} OrderVisited(opts: Options, s: StoreState, aliases: seq<AliasSpec>, n: nat)
    requires n <= |aliases|
    ensures Listed(VisitAliases(opts, Start(s), aliases, n))
  {
    if n > 0 {
      OrderVisited(opts, s, aliases, n - 1);
      var feeds := aliases[n - 1].feeds;
      FeedsListed(opts, VisitAliases(opts, Start(s), aliases, n - 1), feeds, |feeds|);
    }
  }

  /** The order holds each fetched feed exactly once, and healthy says that all of them came back OK. */
  ghost predicate Listed(pr: Progress) {
    && (forall name :: name in pr.order <==> name in pr.outcomes)
    && (forall i, j :: 0 <= i < j < |pr.order| ==> pr.order[i] != pr.order[j])
    && (pr.healthy <==> AllOk(pr.outcomes))
  }

  ghost predicate AllOk(outcomes: map<string, FeedOutcome>) {
    forall name :: name in outcomes ==> outcomes[name].result.status == OK
  }

  lemma HealthyWith(outcomes: map<string, FeedOutcome>, name: string, out: FeedOutcome)
    requires name !in outcomes
    ensures AllOk(outcomes[name := out]) <==> AllOk(outcomes) && out.result.status == OK
  {
    var all := outcomes[name := out];
    assert all[name] == out;
    forall other | other in outcomes ensures all[other] == outcomes[other] {
    }
  }

  lemma {:induction false} FeedsListed(opts: Options, pr: Progress, feeds: seq<Feed>, n: nat)
    requires n <= |feeds| && Listed(pr)
    ensures Listed(VisitFeeds(opts, pr, feeds, n))
  {
    if n > 0 {
      FeedsListed(opts, pr, feeds, n - 1);
      FeedListed(opts, VisitFeeds(opts, pr, feeds, n - 1), feeds[n - 1]);
    }
  }

  lemma FeedListed(opts: Options, pr: Progress, feed: Feed)
    requires Listed(pr)
    ensures Listed(VisitFeed(opts, pr, feed))
  {
    var next := VisitFeed(opts, pr, feed);
    if next != pr && next.error.None? {
      assert next.order == pr.order + [feed.name];
      forall name ensures name in next.order <==> name in next.outcomes {
        assert name in next.order <==> name in pr.order || name == feed.name;
      }
      forall i, j | 0 <= i < j < |next.order| ensures next.order[i] != next.order[j] {
        assert pr.order[i] in pr.order;
      }
      HealthyWith(pr.outcomes, feed.name, next.outcomes[feed.name]);
    }
  }

  /** One update cycle: the store afterwards and how the run ended. */
  ghost function RunSpec(s: StoreState, opts: Options, aliases: seq<AliasSpec>): (StoreState, RunEnd) {
    OrderVisited(opts, s, aliases, |aliases|);
    var pr := VisitAliases(opts, Start(s), aliases, |aliases|);
    if pr.error.Some? then (pr.store, Aborted(pr.error.value))
    else if SomeAliasHangs(opts, pr.outcomes, aliases) then (pr.store, Hung)
    else (pr.store, Finished(FeedResults(pr.outcomes, pr.order), AliasSets(opts, pr.outcomes, aliases),
                             pr.healthy, !opts.dryRun))
  }
}
