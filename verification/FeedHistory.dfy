/** What one feed's share of the store says about its whole history of runs. */
module FeedHistory {
  import opened Prefixes
  import opened Filtering
  import opened Suppression
  import opened Snapshot
  import opened SnapshotText
  import opened Health
  import opened PipelineSpec
  import opened Wrappers

  /** No default route and no private address. */
  ghost predicate Clean(ps: seq<Prefix>) {
    forall i :: 0 <= i < |ps| ==> Public(ps[i])
  }

  /** The relation between the record and the snapshot that every run keeps. */
  ghost predicate EntryOk(e: Entry) {
    && CachedIn(e).Ok?
    && Clean(CachedIn(e).value)
    && |CachedIn(e).value| <= e.state.lastGoodCount
    && (e.state.lastGoodCount > 0 ==> CachedIn(e).value != [])
    && (e.state.lastGoodAt == 0 ==> e.state.lastGoodCount == 0)
    && (e.state.unchangedSince == 0 ==> e.state.bodySha256 == "")
  }

  lemma EmptyEntryOk()
    ensures EntryOk(EMPTY_ENTRY)
  {
  }

  lemma CleanUsable(ps: seq<Prefix>, own: seq<Prefix>)
    ensures Clean(Usable(ps, own))
  {
    var usable := Usable(ps, own);
    forall i | 0 <= i < |usable| ensures Public(usable[i]) {
      SplitMembers(ps, FailsFloor(own), usable[i]);
      UsableIffClean(usable[i], own);
    }
  }

  /** Masking moves no prefix onto a network it did not overlap. */
  lemma MaskedOverlap(p: Prefix, own: seq<Prefix>)
    ensures OverlapsAny(Masked(p), own) <==> OverlapsAny(p, own)
  {
    MaskedBase(p);
    forall o: Prefix ensures Overlaps(Masked(p), o) <==> Overlaps(p, o) {
      OverlapsIffShare(p, o);
      OverlapsIffShare(Masked(p), o);
    }
  }

  lemma CleanSnapshot(ps: seq<Prefix>)
    requires Clean(ps)
    ensures Clean(SnapshotOf(ps))
  {
    var s := SnapshotOf(ps);
    SnapshotSpec(ps);
    forall i | 0 <= i < |s| ensures Public(s[i]) {
      assert s[i] in s;
      var q: Prefix :| q in ps && Masked(q) == s[i];
      var k :| 0 <= k < |ps| && ps[k] == q;
      MaskedBase(q);
    }
  }

  /** What a snapshot taken from a non-empty clean list looks like when read back. */
  lemma FreshSnapshot(ps: seq<Prefix>)
    requires Clean(ps) && ps != []
    ensures var c := Decode(Encode(SnapshotOf(ps)));
            c == Ok(SnapshotOf(ps)) && Clean(c.value) && 0 < |c.value| <= |ps|
  {
    SnapshotSpec(ps);
    SnapshotMasked(ps);
    DecodeEncode(SnapshotOf(ps));
    CleanSnapshot(ps);
  }

  /** A run keeps the relation between record and snapshot. */
  lemma PersistKeeps(e: Entry, ans: Answer, inp: Input, th: Thresholds)
    requires EntryOk(e) && inp.prev == e.state && inp.now > 0
    requires inp.notModified ==> inp.prefixes == CachedIn(e).value
    ensures EntryOk(Persisted(e, ans, inp, Evaluated(inp, th)))
  {
    var ev := Evaluated(inp, th);
    CleanUsable(inp.prefixes, inp.own);
    SplitLength(inp.prefixes, FailsFloor(inp.own));
    if SavesSnapshot(inp, ev) { FreshSnapshot(ev.prefixes); }
  }

  lemma StepKeeps(e: Entry, feed: Feed, opts: Options)
    requires EntryOk(e) && opts.now > 0
    ensures StepEntry(e, feed, opts).Ok?
    ensures EntryOk(StepEntry(e, feed, opts).value.next)
  {
    var ans := AnswerFor(e, feed, opts);
    var inp := InputFor(e, feed, opts, ans).value;
    if !opts.dryRun { PersistKeeps(e, ans, inp, opts.thresholds); }
  }

  /** What a run serves is clean, on the fresh, the 304 and the last-good path alike. */
  lemma ServedIsClean(e: Entry, feed: Feed, opts: Options)
    requires EntryOk(e)
    ensures StepEntry(e, feed, opts).Ok? && Clean(StepEntry(e, feed, opts).value.outcome.prefixes)
  {
    var inp := InputFor(e, feed, opts, AnswerFor(e, feed, opts)).value;
    CleanUsable(inp.prefixes, inp.own);
  }

  /** One real (not rehearsed) run of the feed: what came back, and its share of the store before and after. */
  datatype Row = Row(feed: Feed, opts: Options, ans: Answer, before: Entry, outcome: FeedOutcome, after: Entry)

  ghost predicate IsRun(r: Row) {
    && r.opts.now > 0 && !r.opts.dryRun
    && r.ans == AnswerFor(r.before, r.feed, r.opts)
    && StepEntry(r.before, r.feed, r.opts) == Ok(Step(r.outcome, r.after))
  }

  ghost predicate Linked(rows: seq<Row>, i: nat)
    requires i < |rows|
  {
    rows[i].before == AfterRuns(rows, i)
  }

  /** The feed's share of the store after its first n runs; nothing is stored before the first. */
  function AfterRuns(rows: seq<Row>, n: nat): Entry
    requires n <= |rows|
  {
    if n == 0 then EMPTY_ENTRY else rows[n - 1].after
  }

  /** A whole history of one feed, from an empty store. */
  ghost predicate History(rows: seq<Row>) {
    && (forall i {:trigger IsRun(rows[i])} :: 0 <= i < |rows| ==> IsRun(rows[i]))
    && forall i {:trigger Linked(rows, i)} :: 0 <= i < |rows| ==> Linked(rows, i)
  }

  /** The clock never runs backwards. */
  ghost predicate Monotone(rows: seq<Row>) {
    forall i, j :: 0 <= i < j < |rows| ==> rows[i].opts.now <= rows[j].opts.now
  }

  function StatusIn(r: Row): Status { r.outcome.result.status }

  /** The hash of the bytes the run fetched; empty when it fetched none. */
  function HashIn(r: Row): string {
    if r.ans.Unparsable? || r.ans.Parsed? then r.ans.sha else ""
  }

  /** stale_max in nanoseconds; 14 days when not set. */
  function StaleMaxIn(r: Row): int { StaleMaxOf(r.opts) }

  function StaleMaxOf(opts: Options): int {
    if opts.thresholds.staleMax == 0 then 1_209_600_000_000_000 else opts.thresholds.staleMax
  }

  /** The run is OK on new content, so it took the snapshot. */
  predicate TookSnapshot(r: Row) { StatusIn(r) == OK && r.ans.Parsed? }

  /** How a run moves the record. */
  predicate MovesRecord(r: Row) {
    var prev, next, now, w := r.before.state, r.after.state, r.opts.now, HashIn(r);
    && now > 0
    && next.lastGoodAt == (if StatusIn(r) == OK then now else prev.lastGoodAt)
    && next.lastGoodCount == (if StatusIn(r) == OK then r.outcome.result.entries else prev.lastGoodCount)
    && next.failingSince == (if StatusIn(r) != Failed then 0
                             else if prev.failingSince == 0 then now else prev.failingSince)
    && next.bodySha256 == (if w != "" then w else prev.bodySha256)
    && next.unchangedSince == (if prev.unchangedSince == 0 || (w != "" && w != prev.bodySha256)
                               then now else prev.unchangedSince)
  }

  /** How a run chooses between serving, falling back and dropping. */
  predicate FailsSafely(r: Row) {
    var at, res := r.before.state.lastGoodAt, r.outcome.result;
    && (res.usedLastGood <==> StatusIn(r) == Failed && at != 0 && r.opts.now - at <= StaleMaxIn(r))
    && (res.dropped <==> StatusIn(r) == Failed && !res.usedLastGood)
    && (res.dropped ==> r.outcome.prefixes == [])
  }

  /** What a run serves and snapshots. */
  predicate Serves(r: Row) {
    && (r.outcome.result.usedLastGood || r.ans.NotModified? ==> CachedIn(r.before) == Ok(r.outcome.prefixes))
    && (StatusIn(r) == OK ==> r.ans.Parsed? || r.ans.NotModified?)
    && (TookSnapshot(r) ==> r.outcome.prefixes != []
                            && r.after.snapshot == Some(Encode(SnapshotOf(r.outcome.prefixes))))
    && (!TookSnapshot(r) ==> r.after.snapshot == r.before.snapshot)
  }

  lemma RunMovesRecord(r: Row)
    requires IsRun(r) && EntryOk(r.before)
    ensures MovesRecord(r)
  {
    MovesHash(r);
    if StatusIn(r) == OK { OkEntries(r); }
  }

  lemma MovesHash(r: Row)
    requires IsRun(r) && (r.before.state.unchangedSince == 0 ==> r.before.state.bodySha256 == "")
    ensures var prev, next, w := r.before.state, r.after.state, HashIn(r);
            && next.bodySha256 == (if w != "" then w else prev.bodySha256)
            && next.unchangedSince == (if prev.unchangedSince == 0 || (w != "" && w != prev.bodySha256)
                                       then r.opts.now else prev.unchangedSince)
  {
  }

  /** An OK run has dropped nothing, so it reports as many entries as it counted. */
  lemma OkEntries(r: Row)
    requires IsRun(r) && StatusIn(r) == OK
    ensures r.after.state.lastGoodCount == r.outcome.result.entries
  {
    var inp := InputFor(r.before, r.feed, r.opts, r.ans).value;
    SplitLength(inp.prefixes, FailsFloor(inp.own));
  }

  lemma RunFailsSafely(r: Row)
    requires IsRun(r)
    ensures FailsSafely(r)
  {
  }

  lemma RunServes(r: Row)
    requires IsRun(r)
    ensures Serves(r)
  {
    var inp := InputFor(r.before, r.feed, r.opts, r.ans).value;
    SplitLength(inp.prefixes, FailsFloor(inp.own));
  }

  lemma RunKeeps(r: Row)
    requires IsRun(r) && EntryOk(r.before)
    ensures EntryOk(r.after) && Clean(r.outcome.prefixes)
  {
    StepKeeps(r.before, r.feed, r.opts);
    ServedIsClean(r.before, r.feed, r.opts);
  }

  /** The i-th run starts from what the runs before it left. */
  lemma RunAt(rows: seq<Row>, i: nat)
    requires History(rows) && i < |rows|
    ensures IsRun(rows[i]) && rows[i].before == AfterRuns(rows, i) && rows[i].after == AfterRuns(rows, i + 1)
  {
    assert IsRun(rows[i]) && Linked(rows, i);
  }

  /** The relation between record and snapshot holds at every point of every history. */
  lemma {:induction false} HistoryKeeps(rows: seq<Row>, n: nat)
    requires History(rows) && n <= |rows|
    ensures EntryOk(AfterRuns(rows, n))
  {
    if n == 0 {
      EmptyEntryOk();
    } else {
      HistoryKeeps(rows, n - 1);
      RunAt(rows, n - 1);
      assert EntryOk(rows[n - 1].before);
      RunKeeps(rows[n - 1]);
    }
  }

  /** What is known of the i-th run of a history. */
  lemma RunFacts(rows: seq<Row>, i: nat)
    requires History(rows) && i < |rows|
    ensures rows[i].before == AfterRuns(rows, i)
    ensures MovesRecord(rows[i]) && FailsSafely(rows[i])
  {
    HistoryKeeps(rows, i);
    RunAt(rows, i);
    RunMovesRecord(rows[i]);
    RunFailsSafely(rows[i]);
  }

  lemma ServeFacts(rows: seq<Row>, i: nat)
    requires History(rows) && i < |rows|
    ensures rows[i].before == AfterRuns(rows, i) && Serves(rows[i])
  {
    RunAt(rows, i);
    RunServes(rows[i]);
  }
}
