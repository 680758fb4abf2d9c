/**
 What a 304 stands for. The request carries the latest entity tag and the
 latest modification date received, so the answer speaks of the bytes those
 came with; the stored hash and the cached list may be of other runs.
 */
module Validators {
  import opened Prefixes
  import opened Snapshot
  import opened Health
  import opened PipelineSpec
  import opened FeedHistory
  import opened FeedTimeline
  import opened Scenarios
  import opened Wrappers

  function TagIn(r: Row): string { if r.ans.FetchError? then "" else r.ans.etag }

  function DateIn(r: Row): string { if r.ans.FetchError? then "" else r.ans.lastModified }

  predicate Fetched(r: Row) { r.ans.Unparsable? || r.ans.Parsed? }

  /** The latest entity tag among the first n answers. */
  function LastTag(rows: seq<Row>, n: nat): string
    requires n <= |rows|
  {
    if n == 0 then "" else if TagIn(rows[n - 1]) != "" then TagIn(rows[n - 1]) else LastTag(rows, n - 1)
  }

  function LastDate(rows: seq<Row>, n: nat): string
    requires n <= |rows|
  {
    if n == 0 then "" else if DateIn(rows[n - 1]) != "" then DateIn(rows[n - 1]) else LastDate(rows, n - 1)
  }

  lemma RunMovesValidators(r: Row)
    requires IsRun(r)
    ensures r.after.state.etag == if TagIn(r) != "" then TagIn(r) else r.before.state.etag
    ensures r.after.state.lastModified == if DateIn(r) != "" then DateIn(r) else r.before.state.lastModified
  {
  }

  lemma {:induction false} StoredValidators(rows: seq<Row>, n: nat)
    requires History(rows) && n <= |rows|
    ensures AfterRuns(rows, n).state.etag == LastTag(rows, n)
    ensures AfterRuns(rows, n).state.lastModified == LastDate(rows, n)
  {
    if n > 0 {
      StoredValidators(rows, n - 1);
      RunAt(rows, n - 1);
      RunMovesValidators(rows[n - 1]);
    }
  }

  /** Every request carries the latest validators received, whatever became of the bytes they came with. */
  lemma {:induction false} RequestCarriesLatest(rows: seq<Row>, i: nat)
    requires History(rows) && i < |rows|
    ensures rows[i].ans == rows[i].opts.fetch(rows[i].feed, LastTag(rows, i), LastDate(rows, i))
  {
    RunAt(rows, i);
    StoredValidators(rows, i);
  }

  /**
   The run that fetched the bytes the latest entity tag names: the run whose
   answer carried it, or the run an answering 304 vouched for.
   */
  function TagSource(rows: seq<Row>, n: nat): Option<nat>
    requires n <= |rows|
    decreases n, 0
  {
    if n == 0 then None
    else if TagIn(rows[n - 1]) == "" then TagSource(rows, n - 1)
    else if Fetched(rows[n - 1]) then Some(n - 1)
    else Vouched(rows, n - 1)
  }

  function DateSource(rows: seq<Row>, n: nat): Option<nat>
    requires n <= |rows|
    decreases n, 0
  {
    if n == 0 then None
    else if DateIn(rows[n - 1]) == "" then DateSource(rows, n - 1)
    else if Fetched(rows[n - 1]) then Some(n - 1)
    else Vouched(rows, n - 1)
  }

  /**
   The run whose bytes a 304 in run i says are still current; None when no
   fetched answer came with a validator. A server that gets both validators
   decides by the tag (section 13.2.2 of RFC 9110).
   */
  function Vouched(rows: seq<Row>, i: nat): Option<nat>
    requires i <= |rows|
    decreases i, 1
  {
    if LastTag(rows, i) != "" then TagSource(rows, i) else DateSource(rows, i)
  }

  lemma {:induction false} SourceIsFetched(rows: seq<Row>, n: nat)
    requires n <= |rows|
    ensures TagSource(rows, n).Some? ==> TagSource(rows, n).value < n && Fetched(rows[TagSource(rows, n).value])
    ensures DateSource(rows, n).Some? ==> DateSource(rows, n).value < n && Fetched(rows[DateSource(rows, n).value])
  {
    if n > 0 { SourceIsFetched(rows, n - 1); }
  }

  /**
   A 304 serves the snapshot of the bytes it vouches for exactly when the
   cached content, of the latest run that took the snapshot, has the same
   masked prefixes; in particular when that run fetched those bytes.
   */
  lemma {:induction false} NotModifiedServesVouchedIff(rows: seq<Row>, k: nat, i: nat)
    requires History(rows) && i < |rows| && rows[i].ans.NotModified? && Vouched(rows, i) == Some(k)
    ensures k < i && Fetched(rows[k])
    ensures rows[i].outcome.prefixes == SnapshotOf(ContentOf(rows[k]))
       <==> SameMasked(CachedContent(rows, i), ContentOf(rows[k]))
    ensures LastTaker(rows, i) == Some(k) ==> rows[i].outcome.prefixes == SnapshotOf(ContentOf(rows[k]))
  {
    SourceIsFetched(rows, i);
    LastTakerSpec(rows, i);
    ServeFacts(rows, i);
    CachedIsSnapshot(rows, i);
    SnapshotIffSameMasked(CachedContent(rows, i), ContentOf(rows[k]));
  }

  /** Run k fetched the bytes whose hash is stored before run i. */
  ghost predicate Supplies(rows: seq<Row>, k: nat, i: nat)
    requires i <= |rows|
  {
    k < i && HashIn(rows[k]) != "" && forall j :: k < j < i ==> HashIn(rows[j]) == ""
  }

  lemma {:induction false} SnapshotSinceSupplier(rows: seq<Row>, k: nat, i: nat)
    requires History(rows) && i <= |rows| && Supplies(rows, k, i)
    ensures AfterRuns(rows, i).snapshot == rows[k].after.snapshot
    ensures AfterRuns(rows, i).state.bodySha256 == HashIn(rows[k])
  {
    RunFacts(rows, i - 1);
    ServeFacts(rows, i - 1);
    if k < i - 1 { SnapshotSinceSupplier(rows, k, i - 1); }
  }

  /**
   What the record alone says: the list a 304 serves is the snapshot of the
   bytes whose hash is stored exactly when their run took the snapshot, or the
   list cached before it happened to be the same. The 304 need not be about
   those bytes: TagOutlivesHash and SnapshotOutrunsTag.
   */
  lemma NotModifiedServesRecordedIff(rows: seq<Row>, k: nat, i: nat)
    requires History(rows) && i < |rows| && rows[i].ans.NotModified? && Supplies(rows, k, i)
    ensures rows[i].outcome.prefixes == SnapshotOf(ContentOf(rows[k]))
       <==> TookSnapshot(rows[k]) || CachedIn(rows[k].before) == Ok(SnapshotOf(ContentOf(rows[k])))
  {
    ServeFacts(rows, i);
    SnapshotSinceSupplier(rows, k, i);
    ServeFacts(rows, k);
    if TookSnapshot(rows[k]) { TookServed(rows, k); }
  }

  /**
   A list with tag x, then an empty page without a tag, then a 304 to x: the
   stored hash is the empty page's, but the list of tag x is served, rightly.
   */
  lemma TagOutlivesHash(feed: Feed, p: Prefix, t0: int, t1: int, t2: int) returns (rows: seq<Row>)
    requires !Poisoned(p, []) && 0 < t0 < t1 < t2
    ensures |rows| == 3 && History(rows) && rows[2].ans.NotModified? && rows[2].before.state.etag == "x"
    ensures StatusIn(rows[0]) == OK && StatusIn(rows[1]) == Failed
    ensures Vouched(rows, 2) == Some(0) && rows[2].outcome.prefixes == SnapshotOf(ContentOf(rows[0])) == [Masked(p)]
    ensures Supplies(rows, 1, 2) && rows[2].outcome.prefixes != SnapshotOf(ContentOf(rows[1]))
  {
    var one, r0 := HealthyFirst(feed, p, "x", t0);
    var two, r1 := NextRun(one, feed, Parsed("b", [], NO_STATS, "", ""), t1);
    var three, r2 := NextRun(two, feed, NotModified("", ""), t2);
    rows := three;
    assert rows == [r0, r1, r2];
    RunAt(rows, 1);
    EmptyPage(r1);
    TookServed(rows, 0);
    VouchedFirst(rows);
  }

  lemma {:induction false} VouchedFirst(rows: seq<Row>)
    requires |rows| == 3 && History(rows) && StatusIn(rows[0]) == OK && Fetched(rows[0]) && TagIn(rows[0]) != ""
    requires Fetched(rows[1]) && TagIn(rows[1]) == "" && rows[2].ans.NotModified?
    ensures Vouched(rows, 2) == Some(0) && rows[2].before.state.etag == TagIn(rows[0]) && Supplies(rows, 1, 2)
    ensures rows[2].outcome.prefixes == SnapshotOf(ContentOf(rows[if TookSnapshot(rows[1]) then 1 else 0]))
  {
    ServeFacts(rows, 0);
    ServeFacts(rows, 2);
    StoredValidators(rows, 2);
    CachedIsSnapshot(rows, 2);
    assert LastTag(rows, 1) == TagIn(rows[0]) && LastTag(rows, 2) == LastTag(rows, 1);
    assert TagSource(rows, 2) == TagSource(rows, 1) == Some(0);
    assert LastTaker(rows, 1) == Some(0);
  }

  /**
   A list with tag x, then another list without a tag, both OK, then a 304 to
   x: the second list is served, though the server vouched for the first.
   */
  lemma SnapshotOutrunsTag(feed: Feed, p: Prefix, q: Prefix, t0: int, t1: int, t2: int) returns (rows: seq<Row>)
    requires !Poisoned(p, []) && !Poisoned(q, []) && Masked(p) != Masked(q) && 0 < t0 < t1 < t2
    ensures |rows| == 3 && History(rows) && rows[2].ans.NotModified? && rows[2].before.state.etag == "x"
    ensures StatusIn(rows[0]) == OK && TookSnapshot(rows[1]) && Supplies(rows, 1, 2)
    ensures Vouched(rows, 2) == Some(0) && SnapshotOf(ContentOf(rows[0])) == [Masked(p)]
    ensures rows[2].outcome.prefixes == [Masked(q)]
  {
    var one, r0 := HealthyFirst(feed, p, "x", t0);
    var two, r1 := NextRun(one, feed, Parsed("b", [q], NO_STATS, "", ""), t1);
    var three, r2 := NextRun(two, feed, NotModified("", ""), t2);
    rows := three;
    assert rows == [r0, r1, r2];
    RunAt(rows, 1);
    HealthyOne(r1, q);
    TookServed(rows, 0);
    TookServed(rows, 1);
    SnapshotOfOne(q);
    VouchedFirst(rows);
  }

  lemma DroppedForEmptyPage(feed: Feed, p: Prefix, now: int) returns (rows: seq<Row>)
    requires !Poisoned(p, []) && now > 0
    ensures |rows| == 2 && History(rows) && StatusIn(rows[0]) == OK
    ensures rows[0].opts.now == now && rows[1].opts.now == now + 15 * DAY
    ensures rows[1].ans == Parsed("b", [], NO_STATS, "y", "") && rows[1].outcome.result.dropped
    ensures rows[1].after.state.etag == "y" && CachedIn(rows[1].after) == Ok([Masked(p)])
    ensures rows[1].after.state.lastGoodCount == 1 && rows[1].after.state.unchangedSince == now + 15 * DAY
  {
    var first, good := HealthyFirst(feed, p, "x", now);
    var empty;
    rows, empty := NextRun(first, feed, Parsed("b", [], NO_STATS, "y", ""), now + 15 * DAY);
    RunAt(rows, 1);
    EmptyPage(empty);
    RunFacts(rows, 1);
  }

  /**
   A good list; 15 days later an empty page, FAILED and past stale_max, so the
   feed is dropped, but its entity tag is stored; then a 304 to that tag: the
   old list is served again as OK, with a new baseline time.
   */
  lemma DroppedListRevived(feed: Feed, p: Prefix, now: int, later: int) returns (rows: seq<Row>)
    requires !Poisoned(p, []) && now > 0 && now + 15 * DAY <= later <= now + 29 * DAY
    ensures |rows| == 3 && History(rows) && Monotone(rows) && StatusIn(rows[0]) == OK
    ensures rows[1].ans == Parsed("b", [], NO_STATS, "y", "") && rows[1].outcome.result.dropped
    ensures rows[2].ans.NotModified? && rows[2].opts.now == later && rows[2].before.state.etag == "y"
    ensures StatusIn(rows[2]) == OK && rows[2].outcome.prefixes == [Masked(p)] && Supplies(rows, 1, 2)
    ensures Vouched(rows, 2) == Some(1)
    ensures rows[2].after.state.lastGoodAt == later && ContentOf(rows[1]) == []
  {
    var two := DroppedForEmptyPage(feed, p, now);
    var same;
    rows, same := NextRun(two, feed, NotModified("", ""), later);
    RunAt(rows, 2);
    NothingNew(same, p);
    OwnTag(rows, 2);
  }

  /** After fetched bytes with a tag of their own, a 304 vouches for those. */
  lemma {:induction false} OwnTag(rows: seq<Row>, i: nat)
    requires 0 < i <= |rows| && Fetched(rows[i - 1]) && TagIn(rows[i - 1]) != ""
    ensures Vouched(rows, i) == Some(i - 1) && Supplies(rows, i - 1, i)
  {
  }
}
