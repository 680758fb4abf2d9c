/** Two places where a feed's history may surprise: when exactly, and an input that shows it. */
module FeedLimits {
  import opened Counting
  import opened Prefixes
  import opened Filtering
  import opened Snapshot
  import opened SnapshotText
  import opened Health
  import opened PipelineSpec
  import opened FeedHistory
  import opened FeedTimeline
  import opened RunLaws
  import opened Scenarios
  import opened Wrappers

  /**
   An empty first page is FAILED and dropped, but its entity tag is stored. A
   304 to that tag is OK with no entries, and a failure soon after falls back
   to that empty list: a fallback is not always non-empty.
   */
  lemma EmptyFallback(feed: Feed, t0: int, t1: int, t2: int) returns (rows: seq<Row>)
    requires 0 < t0 <= t1 <= t0 + 14 * DAY && t1 <= t2 <= t1 + 14 * DAY
    ensures |rows| == 3 && History(rows) && Monotone(rows)
    ensures rows[0].ans == Parsed("b", [], NO_STATS, "y", "") && rows[0].outcome.result.dropped
    ensures rows[1].ans.NotModified? && rows[1].before.state.etag == "y"
    ensures StatusIn(rows[1]) == OK && rows[1].outcome.prefixes == []
    ensures rows[2].ans.FetchError? && rows[2].outcome.result.usedLastGood && rows[2].outcome.prefixes == []
  {
    var one, r0 := NextRun([], feed, Parsed("b", [], NO_STATS, "y", ""), t0);
    var two, r1 := NextRun(one, feed, NotModified("", ""), t1);
    var three, r2 := NextRun(two, feed, FetchError, t2);
    rows := three;
    assert rows == [r0, r1, r2];
    EmptyFirstPage(rows);
    EmptyAnswer(rows);
    RunFacts(rows, 2);
    ServeFacts(rows, 2);
    assert IsRun(rows[2]);
  }

  lemma EmptyFirstPage(rows: seq<Row>)
    requires |rows| == 3 && History(rows) && rows[0].ans == Parsed("b", [], NO_STATS, "y", "")
    ensures rows[0].outcome.result.dropped && rows[1].before.state.etag == "y"
    ensures CachedIn(rows[1].before) == Ok([]) && rows[1].before.state.lastGoodCount == 0
    ensures rows[1].before.state.unchangedSince == rows[0].opts.now
  {
    RunFacts(rows, 0);
    RunAt(rows, 0);
    RunAt(rows, 1);
    EmptyPage(rows[0]);
  }

  lemma EmptyAnswer(rows: seq<Row>)
    requires |rows| == 3 && History(rows) && rows[1].opts == Answering(rows[1].ans, rows[1].opts.now)
    requires rows[1].ans.NotModified? && CachedIn(rows[1].before) == Ok([]) && rows[1].before.state.lastGoodCount == 0
    requires rows[1].opts.now - rows[1].before.state.unchangedSince <= 14 * DAY
    ensures StatusIn(rows[1]) == OK && rows[1].outcome.prefixes == []
    ensures CachedIn(rows[2].before) == Ok([]) && rows[2].before.state.lastGoodAt == rows[1].opts.now
  {
    RunFacts(rows, 1);
    ServeFacts(rows, 1);
    RunAt(rows, 1);
    RunAt(rows, 2);
  }

  /**
   The baseline counts duplicates and the snapshot does not, so a 304 right
   after a healthy run reads as a shrunken feed exactly when deduplication
   removed more than the threshold percentage. Whatever list and settings: the
   content may also be overdue, overlap a network suppressed since, or meet a
   rejected ratio that no answer can satisfy.
   */
  lemma NotModifiedStatus(rows: seq<Row>, i: nat)
    requires History(rows) && i + 1 < |rows| && TookSnapshot(rows[i]) && rows[i + 1].ans.NotModified?
    ensures var ps, r := rows[i].outcome.prefixes, rows[i + 1];
            StatusIn(r) == if Overdue(r) then Stale
                           else if Poison(SnapshotOf(ps), r.opts.suppress) != []
                                || 100 * (|ps| - |SnapshotOf(ps)|) > DeltaPctIn(r) * |ps|
                                || r.opts.thresholds.rejectedRatio < 0.0 then Suspect
                           else OK
  {
    var ps, r := rows[i].outcome.prefixes, rows[i + 1];
    NotModifiedJudges(rows, i);
    StatusLaw(r);
    PoisonMeans(r);
    SplitLength(SnapshotOf(ps), FailsFloor(r.opts.suppress));
    SnapshotSpec(ps);
    ServeFacts(rows, i);
    SwingOfShrunk(DeltaPctIn(r), |ps|, EntryCount(r));
  }

  /** A 304 right after a run that took the snapshot judges the snapshot against that run's count. */
  lemma NotModifiedJudges(rows: seq<Row>, i: nat)
    requires History(rows) && i + 1 < |rows| && TookSnapshot(rows[i]) && rows[i + 1].ans.NotModified?
    ensures IsRun(rows[i + 1]) && Judged(rows[i + 1]) == SnapshotOf(rows[i].outcome.prefixes)
    ensures rows[i + 1].before.state.lastGoodCount == |rows[i].outcome.prefixes|
  {
    RunAt(rows, i + 1);
    SnapshotLoadsBack(rows, i, i + 1);
    BaselineAfterOk(rows, i);
  }

  lemma BaselineAfterOk(rows: seq<Row>, i: nat)
    requires History(rows) && i < |rows| && StatusIn(rows[i]) == OK
    ensures AfterRuns(rows, i + 1).state.lastGoodCount == |rows[i].outcome.prefixes|
  {
    RunAt(rows, i);
    ReportLaw(rows[i]);
    LastGoodIsLatestOk(rows, i, i + 1);
  }

  lemma SwingOfShrunk(pct: int, base: nat, n: nat)
    requires n <= base && 0 < base
    ensures 100 * (n - base) > pct * base || 100 * (base - n) > pct * base <==> 100 * (base - n) > pct * base
  {
    if pct >= 0 { assert pct * base >= 0; } else { assert pct * base < 0; }
  }

  lemma TripleSnapshot(p: Prefix)
    ensures SnapshotOf([p, p, p]) == [Masked(p)]
  {
    var ps := [p, p, p];
    SnapshotSizeIff(ps);
    SnapshotSpec(ps);
    assert ps[1..] == [p, p] && ps[1..][1..] == [p] && ps[1..][1..][1..] == [];
    assert MaskAll([p]) == [Masked(p)];
    assert MaskAll([p, p]) == [Masked(p), Masked(p)];
    assert Elements(MaskAll(ps)) == {Masked(p)};
    assert SnapshotOf(ps)[0] in SnapshotOf(ps);
    assert MaskedIn(SnapshotOf(ps)[0], ps);
  }

  lemma TripleUsable(p: Prefix)
    requires !Poisoned(p, [])
    ensures Usable([p, p, p], []) == [p, p, p] && Poison([p, p, p], []) == []
    ensures Usable([Masked(p)], []) == [Masked(p)] && Poison([Masked(p)], []) == []
  {
    NoneHaving([p, p, p], FailsFloor([]));
    MaskedOverlap(p, Rfc1918() + []);
    NoneHaving([Masked(p)], FailsFloor([]));
  }

  lemma TripleStored(feed: Feed, p: Prefix, now: int)
    requires !Poisoned(p, []) && now > 0
    ensures var first := StepEntry(EMPTY_ENTRY, feed, Answering(Parsed("0", [p, p, p], NO_STATS, "", ""), now));
            && first.Ok? && first.value.outcome.result.status == OK
            && CachedIn(first.value.next) == Ok([Masked(p)])
            && first.value.next.state.lastGoodCount == 3 && first.value.next.state.unchangedSince == now
  {
    TripleHealthy(feed, p, now);
    TripleSnapshot(p);
    SnapshotMasked([p, p, p]);
    DecodeEncode(SnapshotOf([p, p, p]));
  }

  lemma TripleHealthy(feed: Feed, p: Prefix, now: int)
    requires !Poisoned(p, []) && now > 0
    ensures var first := StepEntry(EMPTY_ENTRY, feed, Answering(Parsed("0", [p, p, p], NO_STATS, "", ""), now));
            && first.Ok? && first.value.outcome.result.status == OK
            && first.value.next.snapshot == Some(Encode(SnapshotOf([p, p, p])))
            && first.value.next.state.lastGoodCount == 3 && first.value.next.state.unchangedSince == now
  {
    TripleUsable(p);
  }

  /** Three copies of one prefix are a healthy list of three, and then a 304 is SUSPECT: one entry against three. */
  lemma DuplicatesThenNotModified(feed: Feed, p: Prefix, now: int)
    requires !Poisoned(p, []) && now > 0 && feed.deltaThresholdPct == 0
    ensures var first := StepEntry(EMPTY_ENTRY, feed, Answering(Parsed("0", [p, p, p], NO_STATS, "", ""), now));
            && first.Ok? && first.value.outcome.result.status == OK
            && var second := StepEntry(first.value.next, feed, Answering(NotModified("", ""), now));
               second.Ok? && second.value.outcome.result.status == Suspect
  {
    TripleStored(feed, p, now);
    TripleUsable(p);
    var e := StepEntry(EMPTY_ENTRY, feed, Answering(Parsed("0", [p, p, p], NO_STATS, "", ""), now)).value.next;
    SuspectOf(e, feed, p, now);
  }

  lemma SuspectOf(e: Entry, feed: Feed, p: Prefix, now: int)
    requires CachedIn(e) == Ok([Masked(p)]) && e.state.lastGoodCount == 3 && e.state.unchangedSince == now
    requires Usable([Masked(p)], []) == [Masked(p)] && Poison([Masked(p)], []) == [] && feed.deltaThresholdPct == 0
    ensures var second := StepEntry(e, feed, Answering(NotModified("", ""), now));
            second.Ok? && second.value.outcome.result.status == Suspect
  {
    var opts := Answering(NotModified("", ""), now);
    var inp := InputFor(e, feed, opts, AnswerFor(e, feed, opts)).value;
    assert Count(inp) == 1 && CountSwung(inp, Effective(DEFAULTS));
  }
}
