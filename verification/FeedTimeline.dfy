/** The bookkeeping fields of a feed read back as facts about its history of runs. */
module FeedTimeline {
  import opened Prefixes
  import opened Snapshot
  import opened SnapshotText
  import opened Health
  import opened PipelineSpec
  import opened FeedHistory
  import opened Wrappers

  ghost predicate NoneOk(rows: seq<Row>, from: nat, to: nat)
    requires to <= |rows|
  {
    forall j :: from <= j < to ==> StatusIn(rows[j]) != OK
  }

  /** The last-good baseline is the latest OK run's time and entry count. */
  lemma {:induction false} LastGoodIsLatestOk(rows: seq<Row>, k: nat, n: nat)
    requires History(rows) && k < n <= |rows|
    requires StatusIn(rows[k]) == OK && NoneOk(rows, k + 1, n)
    ensures AfterRuns(rows, n).state.lastGoodAt == rows[k].opts.now
    ensures AfterRuns(rows, n).state.lastGoodCount == rows[k].outcome.result.entries
  {
    RunFacts(rows, n - 1);
    if k < n - 1 { LastGoodIsLatestOk(rows, k, n - 1); }
  }

  /** Before the first OK run there is no baseline and no snapshot. */
  lemma {:induction false} NothingBeforeFirstOk(rows: seq<Row>, n: nat)
    requires History(rows) && n <= |rows| && NoneOk(rows, 0, n)
    ensures AfterRuns(rows, n).state.lastGoodAt == 0 && AfterRuns(rows, n).state.lastGoodCount == 0
    ensures AfterRuns(rows, n).snapshot == None
  {
    if n > 0 {
      RunFacts(rows, n - 1);
      ServeFacts(rows, n - 1);
      NothingBeforeFirstOk(rows, n - 1);
    }
  }

  /** FailingSince is the start of the trailing FAILED streak, and zero when the last run did not fail. */
  lemma {:induction false} FailingSinceIsStreakStart(rows: seq<Row>, k: nat, n: nat)
    requires History(rows) && k <= n <= |rows|
    requires forall j :: k <= j < n ==> StatusIn(rows[j]) == Failed
    requires k > 0 ==> StatusIn(rows[k - 1]) != Failed
    ensures AfterRuns(rows, n).state.failingSince == if k == n then 0 else rows[k].opts.now
  {
    if n > 0 {
      RunFacts(rows, n - 1);
      if k < n {
        RunFacts(rows, k);
        FailingSinceIsStreakStart(rows, k, n - 1);
      }
    }
  }

  /** The latest non-empty hash among the first n runs. */
  function LastHash(rows: seq<Row>, n: nat): string
    requires n <= |rows|
  {
    if n == 0 then "" else if HashIn(rows[n - 1]) != "" then HashIn(rows[n - 1]) else LastHash(rows, n - 1)
  }

  /** Run k first brought the content the feed still has after n runs (or was the first run and none brought any). */
  ghost predicate ContentStart(rows: seq<Row>, k: nat, n: nat)
    requires n <= |rows|
  {
    && k < n
    && (forall j :: k < j < n ==> HashIn(rows[j]) == "" || HashIn(rows[j]) == HashIn(rows[k]))
    && if HashIn(rows[k]) == "" then k == 0 else LastHash(rows, k) != HashIn(rows[k])
  }

  lemma {:induction false} BodyIsLastHash(rows: seq<Row>, n: nat)
    requires History(rows) && n <= |rows|
    ensures AfterRuns(rows, n).state.bodySha256 == LastHash(rows, n)
    ensures AfterRuns(rows, n).state.unchangedSince == 0 <==> n == 0
  {
    if n > 0 {
      RunFacts(rows, n - 1);
      BodyIsLastHash(rows, n - 1);
    }
  }

  lemma {:induction false} LastHashSince(rows: seq<Row>, k: nat, n: nat)
    requires n <= |rows| && ContentStart(rows, k, n)
    ensures LastHash(rows, n) == HashIn(rows[k])
  {
    if k < n - 1 {
      LastHashSince(rows, k, n - 1);
    } else if HashIn(rows[k]) == "" {
      assert LastHash(rows, 0) == "";
    }
  }

  /** The staleness clock starts at the run that first brought the current content. */
  lemma {:induction false} UnchangedSinceIsContentStart(rows: seq<Row>, k: nat, n: nat)
    requires History(rows) && n <= |rows| && ContentStart(rows, k, n)
    ensures AfterRuns(rows, n).state.bodySha256 == HashIn(rows[k])
    ensures AfterRuns(rows, n).state.unchangedSince == rows[k].opts.now
  {
    RunFacts(rows, n - 1);
    BodyIsLastHash(rows, n - 1);
    if k < n - 1 {
      UnchangedSinceIsContentStart(rows, k, n - 1);
    } else if HashIn(rows[k]) == "" {
      assert LastHash(rows, 0) == "";
    }
  }

  /** Such a run always exists, so the clock is characterized after every non-empty history. */
  lemma {:induction false} ContentStartExists(rows: seq<Row>, n: nat) returns (k: nat)
    requires 0 < n <= |rows|
    ensures ContentStart(rows, k, n)
  {
    var h := HashIn(rows[n - 1]);
    if h != "" && LastHash(rows, n - 1) != h {
      k := n - 1;
    } else if n == 1 {
      k := 0;
    } else {
      k := ContentStartExists(rows, n - 1);
      LastHashSince(rows, k, n - 1);
    }
  }

  /** The snapshot is the canonical form of what the latest OK run with new content served. */
  lemma {:induction false} SnapshotIsLatestFresh(rows: seq<Row>, k: nat, n: nat)
    requires History(rows) && k < n <= |rows| && TookSnapshot(rows[k])
    requires forall j :: k < j < n ==> !TookSnapshot(rows[j])
    ensures AfterRuns(rows, n).snapshot == Some(Encode(SnapshotOf(rows[k].outcome.prefixes)))
  {
    ServeFacts(rows, n - 1);
    if k < n - 1 { SnapshotIsLatestFresh(rows, k, n - 1); }
  }

  /** And it loads back as a non-empty list with the coverage that run served. */
  lemma SnapshotLoadsBack(rows: seq<Row>, k: nat, n: nat)
    requires History(rows) && k < n <= |rows| && TookSnapshot(rows[k])
    requires forall j :: k < j < n ==> !TookSnapshot(rows[j])
    ensures var served := rows[k].outcome.prefixes;
            && CachedIn(AfterRuns(rows, n)) == Ok(SnapshotOf(served))
            && SnapshotOf(served) != [] && SameCoverage(SnapshotOf(served), served)
  {
    var served := rows[k].outcome.prefixes;
    SnapshotIsLatestFresh(rows, k, n);
    ServeFacts(rows, k);
    SnapshotMasked(served);
    DecodeEncode(SnapshotOf(served));
    SnapshotSpec(served);
    SnapshotCovers(served);
  }

  /** What the floor left of the bytes a run fetched. */
  function ContentOf(r: Row): seq<Prefix> {
    if r.ans.Parsed? then Usable(r.ans.prefixes, r.opts.suppress) else []
  }

  lemma TookServed(rows: seq<Row>, k: nat)
    requires History(rows) && k < |rows| && TookSnapshot(rows[k])
    ensures rows[k].outcome.prefixes == ContentOf(rows[k])
    ensures CachedIn(rows[k].after) == Ok(SnapshotOf(ContentOf(rows[k])))
  {
    assert IsRun(rows[k]);
    SnapshotLoadsBack(rows, k, k + 1);
  }

  /** The latest of the first n runs that took the snapshot. */
  function LastTaker(rows: seq<Row>, n: nat): Option<nat>
    requires n <= |rows|
  {
    if n == 0 then None else if TookSnapshot(rows[n - 1]) then Some(n - 1) else LastTaker(rows, n - 1)
  }

  /** The content the cached list stands for: that of the latest run that took the snapshot, or nothing. */
  function CachedContent(rows: seq<Row>, n: nat): seq<Prefix>
    requires n <= |rows|
  {
    if n == 0 then [] else if TookSnapshot(rows[n - 1]) then ContentOf(rows[n - 1]) else CachedContent(rows, n - 1)
  }

  lemma {:induction false} LastTakerSpec(rows: seq<Row>, n: nat)
    requires n <= |rows|
    ensures LastTaker(rows, n).None? ==>
              CachedContent(rows, n) == [] && forall j :: 0 <= j < n ==> !TookSnapshot(rows[j])
    ensures LastTaker(rows, n).Some? ==>
              var m := LastTaker(rows, n).value;
              && m < n && TookSnapshot(rows[m]) && CachedContent(rows, n) == ContentOf(rows[m])
              && forall j :: m < j < n ==> !TookSnapshot(rows[j])
  {
    if n > 0 { LastTakerSpec(rows, n - 1); }
  }

  /** The cached list is always the snapshot of that content. */
  lemma {:induction false} CachedIsSnapshot(rows: seq<Row>, n: nat)
    requires History(rows) && n <= |rows|
    ensures CachedIn(AfterRuns(rows, n)) == Ok(SnapshotOf(CachedContent(rows, n)))
  {
    if n == 0 {
      NothingCached();
    } else {
      CachedIsSnapshot(rows, n - 1);
      CachedStep(rows, n);
    }
  }

  lemma NothingCached()
    ensures CachedIn(EMPTY_ENTRY) == Ok(SnapshotOf([]))
  {
    SnapshotSpec([]);
  }

  /** What one more run does to the cached list. */
  lemma CachedStep(rows: seq<Row>, n: nat)
    requires History(rows) && 0 < n <= |rows|
    ensures CachedIn(AfterRuns(rows, n))
         == if TookSnapshot(rows[n - 1]) then Ok(SnapshotOf(ContentOf(rows[n - 1])))
            else CachedIn(AfterRuns(rows, n - 1))
    ensures TookSnapshot(rows[n - 1]) ==> SnapshotOf(ContentOf(rows[n - 1])) != []
  {
    ServeFacts(rows, n - 1);
    if TookSnapshot(rows[n - 1]) {
      TookServed(rows, n - 1);
      SnapshotSpec(ContentOf(rows[n - 1]));
    }
  }

  /** The cached list is the snapshot of what the latest OK run served, be it fetched or a 304. */
  lemma {:induction false} CachedIsLatestOk(rows: seq<Row>, k: nat, n: nat)
    requires History(rows) && k < n <= |rows| && StatusIn(rows[k]) == OK && NoneOk(rows, k + 1, n)
    ensures CachedIn(AfterRuns(rows, n)) == Ok(SnapshotOf(rows[k].outcome.prefixes))
  {
    ServeFacts(rows, n - 1);
    if k < n - 1 {
      CachedIsLatestOk(rows, k, n - 1);
    } else if TookSnapshot(rows[k]) {
      TookServed(rows, k);
    } else {
      CachedIsSnapshot(rows, k);
      SnapshotIdempotent(CachedContent(rows, k));
    }
  }

  /** A snapshot once taken is never lost and never empty again. */
  lemma {:induction false} SnapshotNeverEmpties(rows: seq<Row>, m: nat, n: nat)
    requires History(rows) && m <= n <= |rows|
    requires CachedIn(AfterRuns(rows, m)).Ok? && CachedIn(AfterRuns(rows, m)).value != []
    ensures CachedIn(AfterRuns(rows, n)).Ok? && CachedIn(AfterRuns(rows, n)).value != []
  {
    if m < n {
      SnapshotNeverEmpties(rows, m, n - 1);
      CachedStep(rows, n);
    }
  }

  /** The latest OK run before i, if any run before i was OK. */
  lemma {:induction false} LatestOk(rows: seq<Row>, i: nat) returns (k: nat)
    requires i <= |rows| && !NoneOk(rows, 0, i)
    ensures k < i && StatusIn(rows[k]) == OK && NoneOk(rows, k + 1, i)
  {
    if StatusIn(rows[i - 1]) == OK {
      k := i - 1;
    } else {
      assert !NoneOk(rows, 0, i - 1);
      k := LatestOk(rows, i - 1);
    }
  }

  /** An OK run before i lies within the stale_max of run i. */
  ghost predicate RecentOk(rows: seq<Row>, i: nat)
    requires i < |rows|
  {
    exists k :: 0 <= k < i && StatusIn(rows[k]) == OK && rows[i].opts.now - rows[k].opts.now <= StaleMaxIn(rows[i])
  }

  lemma RecentOkIffLatest(rows: seq<Row>, i: nat, k: nat)
    requires k < i < |rows| && Monotone(rows)
    requires StatusIn(rows[k]) == OK && NoneOk(rows, k + 1, i)
    ensures RecentOk(rows, i) <==> rows[i].opts.now - rows[k].opts.now <= StaleMaxIn(rows[i])
  {
    forall j | 0 <= j < i && StatusIn(rows[j]) == OK ensures rows[j].opts.now <= rows[k].opts.now {
      assert j <= k;
    }
  }

  /** A failed run serves the snapshot exactly when some OK run lies within stale_max, and drops the feed otherwise. */
  lemma FallbackIffRecentOk(rows: seq<Row>, i: nat)
    requires History(rows) && Monotone(rows) && i < |rows| && StatusIn(rows[i]) == Failed
    ensures rows[i].outcome.result.usedLastGood <==> RecentOk(rows, i)
    ensures rows[i].outcome.result.dropped <==> !RecentOk(rows, i)
  {
    RunFacts(rows, i);
    if NoneOk(rows, 0, i) {
      NothingBeforeFirstOk(rows, i);
    } else {
      var k := LatestOk(rows, i);
      LastGoodIsLatestOk(rows, k, i);
      RunFacts(rows, k);
      RecentOkIffLatest(rows, i, k);
    }
  }

  lemma {:induction false} BaselineHeld(rows: seq<Row>, i: nat, j: nat)
    requires History(rows) && i <= j <= |rows| && NoneOk(rows, i, j)
    ensures AfterRuns(rows, j).state.lastGoodAt == AfterRuns(rows, i).state.lastGoodAt
  {
    if i < j {
      BaselineHeld(rows, i, j - 1);
      RunFacts(rows, j - 1);
    }
  }

  /** Once a failed run drops the feed, later failed runs drop it too until an OK run, whatever lies between. */
  lemma DropPersists(rows: seq<Row>, i: nat, j: nat)
    requires History(rows) && Monotone(rows) && i < j < |rows|
    requires rows[i].outcome.result.dropped && StatusIn(rows[j]) == Failed
    requires NoneOk(rows, i, j)
    requires StaleMaxIn(rows[j]) <= StaleMaxIn(rows[i])
    ensures rows[j].outcome.result.dropped && rows[j].outcome.prefixes == []
  {
    RunFacts(rows, i);
    RunFacts(rows, j);
    BaselineHeld(rows, i, j);
  }

  /** A fallback serves an empty list exactly when the baseline count is zero. */
  lemma FallbackServesSomething(rows: seq<Row>, i: nat)
    requires History(rows) && i < |rows| && rows[i].outcome.result.usedLastGood
    ensures rows[i].before.state.lastGoodCount > 0 <==> rows[i].outcome.prefixes != []
  {
    ServeFacts(rows, i);
    HistoryKeeps(rows, i);
  }

  /** An OK run serves nothing exactly when it is a 304 with nothing cached: the zero-entry check skips a 304. */
  lemma OkServesNothingIff(rows: seq<Row>, i: nat)
    requires History(rows) && i < |rows| && StatusIn(rows[i]) == OK
    ensures rows[i].outcome.prefixes == [] <==> rows[i].ans.NotModified? && CachedIn(rows[i].before) == Ok([])
  {
    ServeFacts(rows, i);
  }
}
