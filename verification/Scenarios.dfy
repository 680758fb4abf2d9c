/** Histories built run by run: what single answers do to a feed. */
module Scenarios {
  import opened Prefixes
  import opened Filtering
  import opened Snapshot
  import opened SnapshotText
  import opened Health
  import opened PipelineSpec
  import opened FeedHistory
  import opened RunHistory
  import opened Wrappers

  const DEFAULTS := Thresholds(0, 0.0, 0)

  function Answering(ans: Answer, now: int): Options {
    Options((f: Feed, etag: string, lastModified: string) => ans, [], DEFAULTS, now, false)
  }

  /** One more real run of a feed, whatever it comes back with. */
  lemma NextRun(rows: seq<Row>, feed: Feed, ans: Answer, now: int) returns (longer: seq<Row>, r: Row)
    requires History(rows) && now > 0
    ensures longer == rows + [r] && History(longer)
    ensures r.feed == feed && r.ans == ans && r.opts == Answering(ans, now) && r.before == AfterRuns(rows, |rows|)
  {
    var e, opts := AfterRuns(rows, |rows|), Answering(ans, now);
    HistoryKeeps(rows, |rows|);
    StepKeeps(e, feed, opts);
    var step := StepEntry(e, feed, opts).value;
    r := Row(feed, opts, ans, e, step.outcome, step.next);
    AppendRun(rows, r);
    longer := rows + [r];
  }

  const DAY := 24 * HOUR

  /** A healthy first run: one usable prefix, stored with its hash and entity tag. */
  lemma HealthyFirst(feed: Feed, p: Prefix, etag: string, now: int) returns (rows: seq<Row>, r: Row)
    requires !Poisoned(p, []) && now > 0
    ensures rows == [r] && History(rows) && StatusIn(r) == OK && CachedIn(r.after) == Ok([Masked(p)])
    ensures r.ans == Parsed("a", [p], NO_STATS, etag, "") && r.opts.now == now
    ensures r.after.state.lastGoodAt == now && r.after.state.lastGoodCount == 1 && r.after.state.failingSince == 0
    ensures r.after.state.unchangedSince == now && r.after.state.bodySha256 == "a"
  {
    rows, r := NextRun([], feed, Parsed("a", [p], NO_STATS, etag, ""), now);
    RunAt(rows, 0);
    HealthyOne(r, p);
    ServeFacts(rows, 0);
    SnapshotOfOne(p);
    SnapshotMasked([p]);
    DecodeEncode(SnapshotOf([p]));
  }

  /** One usable prefix in place of one or none is a healthy list, when its bytes are new. */
  lemma HealthyOne(r: Row, p: Prefix)
    requires IsRun(r) && r.opts == Answering(r.ans, r.opts.now)
    requires r.ans.Parsed? && r.ans.prefixes == [p] && r.ans.stats == NO_STATS && !Poisoned(p, [])
    requires r.before.state.lastGoodCount <= 1 && r.before.state.bodySha256 != r.ans.sha
    ensures StatusIn(r) == OK && r.outcome.prefixes == [p]
    ensures r.after.state.lastGoodAt == r.opts.now && r.after.state.lastGoodCount == 1
    ensures r.after.state.failingSince == 0
    ensures r.after.state.unchangedSince == r.opts.now && r.after.state.bodySha256 == r.ans.sha
  {
    NoneHaving([p], FailsFloor([]));
  }

  lemma SnapshotOfOne(p: Prefix)
    ensures SnapshotOf([p]) == [Masked(p)]
  {
    SnapshotSizeIff([p]);
    SnapshotSpec([p]);
    assert SnapshotOf([p])[0] in SnapshotOf([p]);
    assert MaskedIn(SnapshotOf([p])[0], [p]);
  }

  /** An empty page fails the feed and keeps the snapshot, but stores its own hash and entity tag. */
  lemma EmptyPage(r: Row)
    requires IsRun(r) && r.ans.Parsed? && r.ans.prefixes == []
    ensures StatusIn(r) == Failed && r.after.snapshot == r.before.snapshot
    ensures r.ans.etag != "" ==> r.after.state.etag == r.ans.etag
  {
  }

  /** A 304 not long after the content changed is healthy and serves the one cached prefix. */
  lemma NothingNew(r: Row, p: Prefix)
    requires IsRun(r) && r.ans.NotModified? && r.opts == Answering(r.ans, r.opts.now)
    requires !Poisoned(p, []) && CachedIn(r.before) == Ok([Masked(p)]) && r.before.state.lastGoodCount == 1
    requires r.opts.now - r.before.state.unchangedSince <= 14 * DAY
    ensures StatusIn(r) == OK && r.outcome.prefixes == [Masked(p)] && r.after.state.lastGoodAt == r.opts.now
  {
    MaskedOverlap(p, Rfc1918() + []);
    NoneHaving([Masked(p)], FailsFloor([]));
  }
}
