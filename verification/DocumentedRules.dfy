/** What the documents say of a feed's history: when exactly the code does that, and a history where it does not. */
module DocumentedRules {
  import opened Prefixes
  import opened State
  import opened Health
  import opened PipelineSpec
  import opened FeedHistory
  import opened FeedTimeline
  import opened Scenarios
  import opened RunHistory

  /** When the FAILED streak of this run began, as the record before the run tells it. */
  function StreakStart(r: Row): int {
    if r.before.state.failingSince == 0 then r.opts.now else r.before.state.failingSince
  }

  /** The documented rule: a feed FAILED for longer than stale_max is dropped. */
  predicate DocumentedDrop(r: Row) {
    StatusIn(r) == Failed && r.opts.now - StreakStart(r) > StaleMaxIn(r)
  }

  /** The streak is no older than stale_max, but no OK run is that recent. */
  predicate StreakOutpaced(r: Row) {
    var at := r.before.state.lastGoodAt;
    r.opts.now - StreakStart(r) <= StaleMaxIn(r) && (at == 0 || r.opts.now - at > StaleMaxIn(r))
  }

  lemma StreakStartIsFirstFailure(rows: seq<Row>, k: nat, i: nat)
    requires History(rows) && k <= i < |rows|
    requires forall j :: k <= j <= i ==> StatusIn(rows[j]) == Failed
    requires k > 0 ==> StatusIn(rows[k - 1]) != Failed
    ensures StreakStart(rows[i]) == rows[k].opts.now
  {
    RunFacts(rows, i);
    RunFacts(rows, k);
    FailingSinceIsStreakStart(rows, k, i);
  }

  /** The last OK run is never younger than a later failing streak. */
  lemma {:induction false} BaselineBeforeStreak(rows: seq<Row>, n: nat)
    requires History(rows) && Monotone(rows) && n <= |rows|
    ensures var st := AfterRuns(rows, n).state;
            && (n > 0 ==> st.lastGoodAt <= rows[n - 1].opts.now)
            && (st.failingSince != 0 ==> st.lastGoodAt <= st.failingSince)
  {
    if n > 0 {
      BaselineBeforeStreak(rows, n - 1);
      RunFacts(rows, n - 1);
    }
  }

  /** Whatever the documents drop, the code drops. */
  lemma DocumentedDropIsDropped(rows: seq<Row>, i: nat)
    requires History(rows) && Monotone(rows) && i < |rows| && DocumentedDrop(rows[i])
    ensures rows[i].outcome.result.dropped
  {
    RunFacts(rows, i);
    BaselineBeforeStreak(rows, i);
  }

  /** A FAILED run follows the documented rule exactly when its streak is not outpaced; otherwise it drops early. */
  lemma DropAsDocumentedIff(rows: seq<Row>, i: nat)
    requires History(rows) && Monotone(rows) && i < |rows| && StatusIn(rows[i]) == Failed
    ensures (rows[i].outcome.result.dropped <==> DocumentedDrop(rows[i])) <==> !StreakOutpaced(rows[i])
    ensures StreakOutpaced(rows[i])
       <==> rows[i].opts.now - StreakStart(rows[i]) <= StaleMaxIn(rows[i]) && !RecentOk(rows, i)
  {
    RunFacts(rows, i);
    FallbackIffRecentOk(rows, i);
    if DocumentedDrop(rows[i]) { DocumentedDropIsDropped(rows, i); }
  }

  /** An OK run, then 15 quiet days, then one failure: dropped at once, though the streak has just begun. */
  lemma DroppedAtFirstFailure(feed: Feed, p: Prefix, now: int) returns (rows: seq<Row>)
    requires !Poisoned(p, []) && now > 0
    ensures |rows| == 2 && History(rows) && Monotone(rows) && StatusIn(rows[0]) == OK
    ensures rows[1].ans.FetchError? && rows[1].opts.now == now + 15 * DAY
    ensures rows[1].outcome.result.dropped && !DocumentedDrop(rows[1])
    ensures rows[1].after.state.failingSince == rows[1].opts.now
  {
    var first, good := HealthyFirst(feed, p, "", now);
    var bad;
    rows, bad := NextRun(first, feed, FetchError, now + 15 * DAY);
    RunAt(rows, 1);
    FailsLate(bad);
  }

  lemma FailsLate(r: Row)
    requires IsRun(r) && r.ans.FetchError? && r.opts == Answering(r.ans, r.opts.now)
    requires r.before.state.failingSince == 0 && r.opts.now - r.before.state.lastGoodAt > 14 * DAY
    ensures r.outcome.result.dropped && !DocumentedDrop(r) && r.after.state.failingSince == r.opts.now
  {
  }

  /** Run k is the first that fetched the bytes whose hash is stored after n runs. */
  ghost predicate FirstSeen(rows: seq<Row>, k: nat, n: nat)
    requires n <= |rows|
  {
    && k < n && HashIn(rows[k]) == LastHash(rows, n)
    && forall j :: 0 <= j < k ==> HashIn(rows[j]) != LastHash(rows, n)
  }

  lemma {:induction false} FirstWith(rows: seq<Row>, hash: string, c: nat) returns (k: nat)
    requires c < |rows| && HashIn(rows[c]) == hash
    ensures k <= c && HashIn(rows[k]) == hash && forall j :: 0 <= j < k ==> HashIn(rows[j]) != hash
  {
    if j :| 0 <= j < c && HashIn(rows[j]) == hash { k := FirstWith(rows, hash, j); } else { k := c; }
  }

  lemma FirstSeenExists(rows: seq<Row>, n: nat) returns (k: nat)
    requires 0 < n <= |rows|
    ensures FirstSeen(rows, k, n)
  {
    var c := ContentStartExists(rows, n);
    LastHashSince(rows, c, n);
    k := FirstWith(rows, LastHash(rows, n), c);
  }

  ghost predicate StrictClock(rows: seq<Row>) {
    forall i, j :: 0 <= i < j < |rows| ==> rows[i].opts.now < rows[j].opts.now
  }

  /**
   UnchangedSince is when the stored hash was first seen exactly when the
   current content never appeared before it began (or both runs share an instant).
   */
  lemma UnchangedSinceIsFirstSeenIff(rows: seq<Row>, k: nat, c: nat, n: nat)
    requires History(rows) && n <= |rows| && FirstSeen(rows, k, n) && ContentStart(rows, c, n)
    ensures AfterRuns(rows, n).state.unchangedSince == rows[k].opts.now <==> rows[c].opts.now == rows[k].opts.now
    ensures StrictClock(rows) ==>
              (AfterRuns(rows, n).state.unchangedSince == rows[k].opts.now
               <==> forall j :: 0 <= j < c ==> HashIn(rows[j]) != HashIn(rows[c]))
  {
    UnchangedSinceIsContentStart(rows, c, n);
    LastHashSince(rows, c, n);
  }

  /** Content a, then b, then a again: the clock shows the third run, and the hash was first seen in the first. */
  lemma ReturnedContent(feed: Feed, p: Prefix, t0: int, t1: int, t2: int) returns (rows: seq<Row>)
    requires 0 < t0 < t1 < t2
    ensures |rows| == 3 && History(rows) && StrictClock(rows)
    ensures rows[0].opts.now == t0 && rows[2].opts.now == t2
    ensures HashIn(rows[0]) == "a" && HashIn(rows[1]) == "b" && HashIn(rows[2]) == "a"
    ensures FirstSeen(rows, 0, 3) && AfterRuns(rows, 3).state.bodySha256 == "a"
    ensures AfterRuns(rows, 3).state.unchangedSince == t2
  {
    var one, r0 := NextRun([], feed, Parsed("a", [p], NO_STATS, "", ""), t0);
    var two, r1 := NextRun(one, feed, Parsed("b", [p], NO_STATS, "", ""), t1);
    var three, r2 := NextRun(two, feed, Parsed("a", [p], NO_STATS, "", ""), t2);
    rows := three;
    assert rows == [r0, r1, r2];
    ReturnRestartsClock(rows);
  }

  lemma ReturnRestartsClock(rows: seq<Row>)
    requires |rows| == 3 && History(rows)
    requires HashIn(rows[0]) == HashIn(rows[2]) != "" && HashIn(rows[1]) !in ["", HashIn(rows[0])]
    ensures FirstSeen(rows, 0, 3) && AfterRuns(rows, 3).state.bodySha256 == HashIn(rows[0])
    ensures AfterRuns(rows, 3).state.unchangedSince == rows[2].opts.now
  {
    assert LastHash(rows, 2) == HashIn(rows[1]) && LastHash(rows, 3) == HashIn(rows[2]);
    assert ContentStart(rows, 2, 3);
    UnchangedSinceIsContentStart(rows, 2, 3);
  }

  /** No feed is FAILED or SUSPECT: the runs for which the documents ask no warning exit. */
  predicate NoneFailedOrSuspect(results: seq<FeedResult>) {
    forall i :: 0 <= i < |results| ==> results[i].status != Failed && results[i].status != Suspect
  }

  /** A run that needs no warning by the documents is unhealthy exactly when some feed is STALE. */
  lemma UnhealthyBeyondDocumentsIff(s: StoreState, opts: Options, aliases: seq<AliasSpec>)
    requires RunSpec(s, opts, aliases).1.Finished?
    ensures var end := RunSpec(s, opts, aliases).1;
            && (end.healthy ==> NoneFailedOrSuspect(end.feeds))
            && (NoneFailedOrSuspect(end.feeds) ==>
                  (!end.healthy <==> exists i :: 0 <= i < |end.feeds| && end.feeds[i].status == Stale))
  {
    HealthyIffAllOk(s, opts, aliases);
  }
}
