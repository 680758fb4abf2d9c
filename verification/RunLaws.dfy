/**
 One run of a feed, said outright from what came back and what was on record:
 its status, what it serves and what it reports. Nothing here refers to the
 evaluation's own functions, and every setting and default is a number.
 */
module RunLaws {
  import opened Prefixes
  import opened Filtering
  import opened Health
  import opened PipelineSpec
  import opened FeedHistory
  import opened FeedTimeline

  function CachedOf(e: Entry): seq<Prefix> {
    var cached := CachedIn(e);
    if cached.Ok? then cached.value else []
  }

  /** The entries the run judges: the parsed ones, or the cached list on a 304. */
  function Judged(r: Row): seq<Prefix> {
    match r.ans
    case Parsed(_, ps, _, _, _) => ps
    case NotModified(_, _) => CachedOf(r.before)
    case FetchError => []
    case Unparsable(_, _, _) => []
  }

  /** How many of them the floor leaves, repeats included. */
  function EntryCount(r: Row): nat { |Usable(Judged(r), r.opts.suppress)| }

  /** An entry of the run is a default route, or holds a private or own address. */
  ghost predicate HasPoison(r: Row) {
    exists p: Prefix :: p in Judged(r) && !Harmless(p, r.opts.suppress)
  }

  ghost predicate Harmless(p: Prefix, own: seq<Prefix>) {
    p.len > 0 && forall a: nat :: Contains(p, p.fam, a) ==> !Private(p.fam, a) && !Covers(own, p.fam, a)
  }

  /** The fetch or the parser failed, or nothing usable was parsed. */
  predicate NothingCameBack(r: Row) {
    r.ans.FetchError? || r.ans.Unparsable? || (r.ans.Parsed? && EntryCount(r) == 0)
  }

  /** The bytes are those on record, for longer than the cadence plus stale_max. */
  predicate Overdue(r: Row) {
    && (r.ans.NotModified? || (r.ans.Parsed? && r.ans.sha == r.before.state.bodySha256))
    && r.before.state.unchangedSince != 0 && r.feed.cadenceHours > 0
    && r.opts.now - r.before.state.unchangedSince > r.feed.cadenceHours * 3_600_000_000_000 + StaleMaxIn(r)
  }

  /** The feed's own threshold, or the global one, or 40 percent. */
  function DeltaPctIn(r: Row): int {
    if r.feed.deltaThresholdPct > 0 then r.feed.deltaThresholdPct
    else if r.opts.thresholds.deltaPct == 0 then 40 else r.opts.thresholds.deltaPct
  }

  /** The count grew or shrank by more than the threshold since the baseline, if there is one. */
  predicate Swung(r: Row) {
    var n, base := EntryCount(r), r.before.state.lastGoodCount;
    base > 0 && (100 * (n - base) > DeltaPctIn(r) * base || 100 * (base - n) > DeltaPctIn(r) * base)
  }

  /** More than the allowed share of the candidate lines was rejected; without such lines the share is 0. */
  predicate TooManyRejected(r: Row) {
    var st := if r.ans.Parsed? then r.ans.stats else Stats(0, 0);
    var ratio := if r.opts.thresholds.rejectedRatio == 0.0 then 0.10 else r.opts.thresholds.rejectedRatio;
    if st.parsed + st.rejected == 0 then ratio < 0.0
    else st.rejected as real > ratio * (st.parsed + st.rejected) as real
  }

  lemma PoisonMeans(r: Row)
    ensures HasPoison(r) <==> Poison(Judged(r), r.opts.suppress) != []
    ensures HasPoison(r) <==> EntryCount(r) < |Judged(r)|
  {
    var ps, own := Judged(r), r.opts.suppress;
    SplitLength(ps, FailsFloor(own));
    forall p: Prefix ensures p in Poison(ps, own) <==> p in ps && !Harmless(p, own) {
      SplitMembers(ps, FailsFloor(own), p);
      UsableIffClean(p, own);
    }
    if Poison(ps, own) != [] { assert Poison(ps, own)[0] in Poison(ps, own); }
  }

  lemma SwungMeans(inp: Input, th: Thresholds, r: Row)
    requires inp.feed == r.feed && inp.prev == r.before.state && th == Effective(r.opts.thresholds)
    requires Count(inp) == EntryCount(r)
    ensures CountSwung(inp, th) <==> Swung(r)
  {
    var pct, base := DeltaPctIn(r), r.before.state.lastGoodCount;
    assert -pct * base == -(pct * base);
  }

  lemma ShareAbove(a: real, b: real, ratio: real)
    requires b > 0.0
    ensures a / b > ratio <==> a > ratio * b
  {
    var q := a / b;
    assert q * b == a;
    if q > ratio { assert (q - ratio) * b > 0.0; } else { assert (ratio - q) * b >= 0.0; }
  }

  lemma DriftMeans(inp: Input, th: Thresholds, r: Row)
    requires inp.stats == (if r.ans.Parsed? then r.ans.stats else Stats(0, 0)) && th == Effective(r.opts.thresholds)
    ensures FormatDrifted(inp, th) <==> TooManyRejected(r)
  {
    var st := inp.stats;
    if st.parsed + st.rejected > 0 {
      ShareAbove(st.rejected as real, (st.parsed + st.rejected) as real, th.rejectedRatio);
    }
  }

  /** What the evaluation was given for this run. */
  lemma RunInput(r: Row) returns (inp: Input)
    requires IsRun(r)
    ensures StatusIn(r) == StatusOf(inp, Effective(r.opts.thresholds))
    ensures inp.feed == r.feed && inp.prev == r.before.state && inp.now == r.opts.now && inp.own == r.opts.suppress
    ensures inp.prefixes == Judged(r) && inp.stats == if r.ans.Parsed? then r.ans.stats else Stats(0, 0)
    ensures inp.fetchFailed == (r.ans.FetchError? || r.ans.Unparsable?) && inp.notModified == r.ans.NotModified?
    ensures r.ans.Parsed? ==> inp.bodySha256 == r.ans.sha
  {
    inp := InputFor(r.before, r.feed, r.opts, r.ans).value;
  }

  /** The status of every run: the most severe of the findings, each in its own terms. */
  lemma StatusLaw(r: Row)
    requires IsRun(r)
    ensures StatusIn(r) == Failed <==> NothingCameBack(r)
    ensures StatusIn(r) == Stale <==> !NothingCameBack(r) && Overdue(r)
    ensures StatusIn(r) == Suspect <==>
              !NothingCameBack(r) && !Overdue(r) && (HasPoison(r) || Swung(r) || TooManyRejected(r))
    ensures StatusIn(r) == OK <==>
              !NothingCameBack(r) && !Overdue(r) && !HasPoison(r) && !Swung(r) && !TooManyRejected(r)
  {
    var inp := RunInput(r);
    PoisonMeans(r);
    SwungMeans(inp, Effective(r.opts.thresholds), r);
    DriftMeans(inp, Effective(r.opts.thresholds), r);
  }

  /** What a feed serves for an answer: the usable fresh entries, the cached list, or nothing. */
  function Serving(e: Entry, opts: Options, ans: Answer): seq<Prefix> {
    if ans.Parsed? && Usable(ans.prefixes, opts.suppress) != [] then Usable(ans.prefixes, opts.suppress)
    else if ans.NotModified? then CachedOf(e)
    else if e.state.lastGoodAt != 0 && opts.now - e.state.lastGoodAt <= StaleMaxOf(opts) then CachedOf(e)
    else []
  }

  /** A step serves that: SUSPECT and STALE feeds serve what they fetched, less what the floor took. */
  lemma StepServes(e: Entry, feed: Feed, opts: Options)
    requires StepEntry(e, feed, opts).Ok?
    ensures StepEntry(e, feed, opts).value.outcome.prefixes
         == Serving(e, opts, opts.fetch(feed, e.state.etag, e.state.lastModified))
  {
  }

  /** An entry is served fresh exactly when it was parsed and is harmless. */
  lemma FreshMembers(e: Entry, opts: Options, ans: Answer, p: Prefix)
    requires ans.Parsed? && Usable(ans.prefixes, opts.suppress) != []
    ensures p in Serving(e, opts, ans) <==> p in ans.prefixes && Harmless(p, opts.suppress)
  {
    SplitMembers(ans.prefixes, FailsFloor(opts.suppress), p);
    UsableIffClean(p, opts.suppress);
  }

  /** A run that fetched something usable serves exactly that, whatever its status. */
  lemma ServesFetched(r: Row)
    requires IsRun(r) && r.ans.Parsed? && StatusIn(r) != Failed
    ensures r.outcome.prefixes == ContentOf(r) != []
  {
    StatusLaw(r);
    StepServes(r.before, r.feed, r.opts);
  }

  /** What a run reports and notes beside its status. */
  lemma ReportLaw(r: Row)
    requires IsRun(r)
    ensures var res := r.outcome.result;
            && res.feed == r.feed && res.entries == |r.outcome.prefixes|
            && res.prevEntries == r.before.state.lastGoodCount && res.lastGoodAt == r.after.state.lastGoodAt
    ensures r.after.state.lastStatus == match StatusIn(r)
                                        case OK => "OK"
                                        case Suspect => "SUSPECT"
                                        case Stale => "STALE"
                                        case Failed => "FAILED"
  {
  }

  /** The record names the status of the latest run, and nothing before the first. */
  lemma LastStatusIsLatest(rows: seq<Row>, n: nat)
    requires History(rows) && n <= |rows|
    ensures AfterRuns(rows, n).state.lastStatus == if n == 0 then "" else StatusName(StatusIn(rows[n - 1]))
  {
    if n > 0 {
      RunAt(rows, n - 1);
      ReportLaw(rows[n - 1]);
    }
  }
}
