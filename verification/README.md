# Verified model of framedrag's aggregation and feed health

framedrag fetches IP-reputation feeds, checks each feed's health, and turns the
feeds of every alias into one short, sorted list of CIDR prefixes that must not
block private space or the user's own networks. This project models the two
parts that carry that promise and proves properties of them in Dafny 4.11.

**Addresses and aggregation.** `Bits`, `Words`, `Prefixes`, `Splitting`,
`BlockCount`, `Ranges`, `Aggregation`, `Minimality` and `Suppression` hold the
mathematics on naturals; `NormalizeWords`, `Normalize` and `RangeCidr` hold the
two packages' own 64-bit word arithmetic and loops, proved against it;
`Splitters` compares the two range splitters. A prefix keeps its host bits, as
netip values do; CIDR prefixes follow section 3.1 of RFC 4632 (IPv4) and
section 2.3 of RFC 4291 (IPv6).

- `Splitting.Split` is the greedy tiling of a range: consecutive blocks, each
  the largest aligned block that fits at its start. It is specified, not
  computed: `GreedyTilingUnique` shows there is only one.
- `Aggregation.Canonical` is the sorted list of the maximal prefixes of the
  covered space, defined without any loop. `AssembledIsCanonical` proves that
  coalescing and greedy splitting find it; exact coverage, disjointness,
  canonicity and minimality follow.
- A `Normalize.Outcome` is `Diverges` where the Go loop never returns: on the
  full IPv6 range the step 2^128 is computed as zero. `LoopStopsIff` proves
  that this is the only such range, and every method result says exactly when
  it happens.

**Feeds over time.** `Snapshot`, `SnapshotText` and `State` model the store
(`State.Store` is the object, `StoreState` its value), `Health` the evaluation
of one feed, `PipelineSpec` one update cycle as a function of the store, and
`Pipeline` the same cycle as loops over a `Store`. `FeedHistory` and
`FeedTimeline` prove what the stored record says about one feed's whole
history; `RunLocality` proves that feeds do not interfere and that a rehearsal
predicts the real run; `RunHistory` puts this together for every sequence of
cycles from an empty store. `Published` says address by address what a finished
run publishes, `RunOrder` in which order it reports its feeds, and `RunErrors`
when it gives up.
`RunLaws` says what one run does outright, from the answer and the record, with
every constant as a number and without the evaluation's own functions.
`DocumentedRules` compares the documents' rules with the code, `Validators` says
what a 304 stands for, and `FeedLimits` shows two more histories that may
surprise, all with the exact conditions. `RunExamples` holds two whole runs.
`Scenarios`, `Filtering`, `Sorting`, `Counting` and `Wrappers` are support.

Fetching, decompression and parsing appear as an arbitrary `Answer` per feed
and cycle. It may depend on the feed and on the stored validators. The clock is
an integer with 0 as the zero time; lemmas about ages state that it is positive
and, where needed, that it never runs backwards.

A lemma that is not inductive carries `{:induction false}` where Dafny would
otherwise guess an induction hypothesis from a precondition that applies a
function to a datatype or a sequence. The well-definedness part of such a
hypothesis is not limited to values of the parameter's type, so it can
contradict other facts; no proof here relies on one.

## Where the code and its documents differ

The model follows the code.

- Section 7 of the repository's design document lists aggregation before
  suppression; the code suppresses first (`internal/normalize/normalize.go:5-8,30-33`).
  `SuppressFirstGains` says exactly which addresses the other order would lose.
- Its section 6 drops a feed that has been FAILED for longer than stale_max; the
  code measures the age of the last OK run (`internal/health/health.go:210-224`),
  so SUSPECT, STALE and missing runs in between count too. `DropAsDocumentedIff`
  proves that the two choices differ exactly when the streak is no older than
  stale_max and no OK run is that recent; then the code drops early
  (`DroppedAtFirstFailure`), and it never drops late (`DocumentedDropIsDropped`).
- The same section says a FAILED feed does not produce an empty list; the
  tag of an empty page is stored, a 304 to it is OK with no entries, and a
  failure after that falls back to the empty list. `FallbackServesSomething` and
  `OkServesNothingIff` give the exact conditions and `EmptyFallback` such a
  history.
- It asks for a non-zero exit on FAILED or SUSPECT; the code is stricter and
  also exits so on STALE (`internal/health/health.go:46-48`;
  `UnhealthyBeyondDocumentsIff`, `OnlyStale`).
- `internal/state/state.go:23-24` describes `UnchangedSince` as when the hash was
  first seen; after contents a, b, a it is the start of the second a
  (`ReturnedContent`). `UnchangedSinceIsFirstSeenIff` proves that the comment
  holds exactly when the current content had not appeared before it began.
- A 304 is taken to stand for the cached list
  (`internal/pipeline/pipeline.go:164-171`). The request carries the latest
  validators received (`RequestCarriesLatest`), and those of FAILED and SUSPECT
  answers are stored as well (`internal/pipeline/pipeline.go:225-232`), so the
  bytes a 304 vouches for, the bytes whose hash is stored and the cached list can
  be of three different runs. `NotModifiedServesVouchedIff` proves exactly when
  the list served is that of the bytes the validators name;
  `DroppedListRevived` and `SnapshotOutrunsTag` show histories where it is not,
  `TagOutlivesHash` one where it is although the stored hash is of other bytes.
- `internal/normalize/normalize.go:62-66` promises a minimal list for every
  input; the two halves of the IPv6 space never come back (`HalvesNeverReturn`),
  and a feed that serves them stops the whole update (`OneFeedHangs`).

## Model

| member | source | states |
|---|---|---|
| NormalizeWords.CmpSpec | internal/normalize/normalize.go:91-105 | the sign of cmp is the order of the 128-bit values |
| NormalizeWords.Add1Spec | internal/normalize/normalize.go:107-117 | add1 is exact and reports a wrap on the maximum only |
| NormalizeWords.SubSpec | internal/normalize/normalize.go:119-127 | two-word subtraction with borrow is exact for a >= b |
| NormalizeWords.ZerosAtSpec | internal/normalize/normalize.go:242-254 | the capped zero count answers every alignment question up to the address width |
| NormalizeWords.FloorLog2Spec | internal/normalize/normalize.go:256-269 | floorLog2 is the exponent of the largest power of two within span + 1 addresses |
| NormalizeWords.AdvanceExact | internal/normalize/normalize.go:217-234 | below 2^128 the carry tests break exactly when start + 2^k reaches 2^128, and otherwise the sum is exact |
| NormalizeWords.AdvanceStuck | internal/normalize/normalize.go:219-225 | a step of 2^128 is zero, so the cursor does not move |
| NormalizeWords.PickBlockSpec | internal/normalize/normalize.go:211-215 | min(align, span) is the largest aligned block that fits at the cursor |
| NormalizeWords.LoopStopsIff | internal/normalize/normalize.go:207-240 | the splitting loop stops on every range except the full 128-bit one |
| Normalize.RangeOfMasked | internal/normalize/normalize.go:155-175 | the or-ed host mask makes the range of a masked prefix exactly its addresses |
| Normalize.MergeTests | internal/normalize/normalize.go:192-196 | the overlap-or-adjacent test, with its wrap case, means start <= end + 1 |
| Normalize.MergeRanges | internal/normalize/normalize.go:177-204 | sorting and coalescing yields the merged form of the input ranges |
| Ranges.MergedSpec | internal/normalize/normalize.go:177-178 | the merged form keeps the addresses and leaves at least one address between neighbours |
| Ranges.SeparatedUnique | internal/normalize/normalize.go:177-178 | a separated list is determined by its addresses |
| Ranges.SeparatedFewest | internal/normalize/normalize.go:177-178 | no list of ranges with the same addresses is shorter |
| Splitting.GreedyTilingUnique | internal/normalize/normalize.go:206-240 | the greedy tiling of a range is unique |
| Splitting.TilingCovers | internal/normalize/normalize.go:206-240 | a greedy tiling covers its range exactly, in its own family only |
| Splitting.TilingDisjoint | internal/normalize/normalize.go:206-240 | each block ends before every later one starts |
| Splitting.TilingMaximal | internal/normalize/normalize.go:206-240 | every wider prefix around a greedy block leaves the range |
| BlockCount.SplitCountBound | internal/normalize/normalize.go:206-240 | a range splits into at most 2w - 2 prefixes (62 for IPv4, 254 for IPv6) |
| BlockCount.SplitCountAttained | internal/normalize/normalize.go:206-240 | the range of all but the first and last address needs exactly that many |
| BlockCount.SplitRisesThenFalls | internal/normalize/normalize.go:206-240 | block sizes strictly rise up to a turn and strictly fall after it, with at most one equal pair, right at the turn |
| Normalize.RangeToCIDRs | internal/normalize/normalize.go:206-240 | the loop emits the greedy tiling, at most 2w - 2 blocks, and diverges on exactly the full IPv6 range |
| Aggregation.CanonicalCovers | internal/normalize/normalize.go:62-66 | aggregation covers exactly the input's addresses |
| Aggregation.AssembledIsCanonical | internal/normalize/normalize.go:67-85 | coalescing and splitting greedily gives exactly the maximal prefixes of the covered space, strictly sorted |
| Aggregation.CanonicalSorted | internal/normalize/normalize.go:64-66 | the result is strictly sorted, IPv4 first, and pairwise disjoint |
| Aggregation.CanonicalOrder | internal/normalize/normalize.go:64-85 | IPv4 before IPv6, and within a family each prefix ends before the next one starts |
| Aggregation.CanonicalIffSameCoverage | internal/normalize/normalize.go:62-85 | two inputs aggregate to the same list if and only if they cover the same addresses |
| Aggregation.CanonicalIdempotent | internal/normalize/normalize.go:62-85 | aggregating again changes nothing |
| Minimality.CanonicalMinimal | internal/normalize/normalize.go:62-66 | no list with exactly the same coverage is shorter |
| Minimality.MinimalIsCanonical | internal/normalize/normalize.go:62-66 | a list of that length with the same coverage is the result up to order and host bits |
| Minimality.CanonicalNotLonger | internal/normalize/normalize.go:62-66 | aggregation never makes a list longer |
| Minimality.CanonicalMerges | internal/normalize/normalize.go:62-85 | aggregating parts before merging them gives the same list |
| Normalize.Aggregate | internal/normalize/normalize.go:67-85 | the loops return the canonical form, and diverge exactly when every IPv6 address is covered |
| Normalize.HalvesNeverReturn | internal/normalize/normalize.go:67-85 | ::/1 with 8000::/1 is an input on which aggregation diverges |
| Prefixes.OverlapsIffShare | internal/normalize/normalize.go:53-60 | two prefixes overlap if and only if they share an address |
| Normalize.Suppress | internal/normalize/normalize.go:35-51 | the loop returns what overlaps no own network and what does, both in input order |
| Suppression.StablePartition | internal/normalize/normalize.go:35-51 | every input element lands at the place its predecessors determine, in exactly one of the two lists |
| Suppression.NormalizedExact | internal/normalize/normalize.go:28-33 | an address is published if and only if an input prefix that overlaps no own network contains it |
| Suppression.NormalizedAvoidsOwn | internal/normalize/normalize.go:35-37 | no published address is one of the user's own |
| Suppression.SuppressFirstGains | internal/normalize/normalize.go:5-8 | suppressing first never publishes less, and gains exactly the surviving inputs inside merged blocks that touch an own network |
| Suppression.SuppressFirstGainsStrictly | internal/normalize/normalize_test.go:98-106 | the repository's own example gains an address |
| Normalize.Normalize | internal/normalize/normalize.go:28-33 | suppress then aggregate, with the exact condition under which it diverges |
| RangeCidr.LessSpec | internal/parse/rangecidr.go:162-167 | less is the order of the values |
| RangeCidr.SubSpec | internal/parse/rangecidr.go:169-174 | subtraction through Sub64 borrows is exact |
| RangeCidr.Add1Spec | internal/parse/rangecidr.go:176-181 | add1 is exact below the maximum |
| RangeCidr.AddPow2Spec | internal/parse/rangecidr.go:183-197 | addPow2 is exact and flags exactly the sums that reach 2^128, k = 128 included |
| RangeCidr.BitLenSpec | internal/parse/rangecidr.go:209-214 | bitLen is the bit length of the value |
| RangeCidr.MaxBlockSpec | internal/parse/rangecidr.go:124-135 | maxBlock answers every question of fit up to the address width |
| RangeCidr.PickBlockSpec | internal/parse/rangecidr.go:106-114 | the loop picks the largest aligned block that fits at the cursor |
| RangeCidr.RangeToPrefixes | internal/parse/rangecidr.go:93-122 | the loop emits the greedy tiling of every range, full ones included, in at most 2w - 2 blocks |
| RangeCidr.RangeEntry | internal/parse/rangecidr.go:57-62 | mixed families and reversed ranges are rejected; an accepted range is covered exactly, by its greedy tiling |
| Splitters.SplittersAgree | internal/parse/rangecidr.go:97-122 | at every cursor both splitters pick the same block and, except on the full 128-bit range, move alike |
| Splitters.FullRangeIsOneBlock | internal/parse/rangecidr.go:127-129 | a full range is the single prefix of length zero |
| Snapshot.SnapshotSpec | internal/state/dir.go:111-123 | the snapshot list is strictly sorted and holds exactly the masked inputs |
| Snapshot.SnapshotOrder | internal/state/dir.go:133-140 | IPv4 before IPv6, then by address, and of equal addresses the shorter length first |
| Snapshot.SnapshotCovers | internal/state/dir.go:111-123 | it covers the same addresses as the input |
| Snapshot.SnapshotIffSameMasked | internal/state/dir.go:111-123 | two inputs give the same snapshot if and only if they have the same masked prefixes |
| Snapshot.SnapshotSizeIff | internal/state/dir.go:115-123 | it is as long as the input if and only if no two entries mask alike |
| SnapshotText.DecodeEncode | internal/state/dir.go:93-130 | loading the text of a canonical list gives the list back |
| SnapshotText.LoadsIff | internal/state/dir.go:93-108 | a file loads if and only if every line but an empty last one is a canonical prefix |
| SnapshotText.LoadedEntries | internal/state/dir.go:93-108 | what loads is one masked entry per line, in order, without the empty last line |
| State.SnapshotRoundTrip | internal/state/dir.go:81-131 | LastGood after SaveLastGood is the snapshot list, with the saved coverage, and other feeds are untouched |
| State.ResaveIsIdle | internal/state/dir.go:81-131 | saving what was loaded changes nothing |
| State.SameFileIff | internal/state/dir.go:111-131 | two lists are stored as the same file if and only if their masked prefixes agree |
| State.ReadLines | internal/state/dir.go:93-108 | the line loop returns the decoded list or the first error |
| State.Canonicalize | internal/state/dir.go:114-123 | mask, sort and compact yield the snapshot list |
| State.BuildText | internal/state/dir.go:125-129 | the builder loop writes one line per prefix |
| State.Store.Load | internal/state/dir.go:51-68 | a missing record loads as the zero state |
| State.Store.Save | internal/state/dir.go:70-79 | replaces this feed's record and nothing else |
| State.Store.LastGood | internal/state/dir.go:81-109 | a missing file is an empty list; otherwise the decoded file |
| State.Store.SaveLastGood | internal/state/dir.go:111-131 | replaces this feed's snapshot file and nothing else |
| Health.IsPoisoned | internal/health/health.go:145-154 | default routes and overlaps with the floor, whichever comes first |
| Health.SplitPoison | internal/health/health.go:142-160 | the floor loop partitions the entries in order |
| Health.RaiseContentChecks | internal/health/health.go:178-208 | the three content checks raise to the most severe finding |
| Health.Evaluate | internal/health/health.go:122-250 | the checks and the failure policy yield the most severe finding, the fallback-or-drop choice and the next record |
| RunLaws.StatusLaw | internal/health/health.go:122-208 | the status of every run from its answer and the record: FAILED, STALE, SUSPECT and OK each if and only if their findings, in numbers, defaults included |
| RunLaws.StepServes | internal/pipeline/pipeline.go:207-219 | what every run serves, from its answer and the record: the usable fresh entries whatever the status, the cached list, or nothing |
| RunLaws.FreshMembers | internal/health/health.go:142-160 | a fresh answer serves exactly the parsed entries that are no default route and hold no private or own address |
| RunLaws.ServesFetched | internal/pipeline/pipeline.go:217-218 | a run that fetched something usable serves it, SUSPECT and STALE included |
| RunLaws.ReportLaw | internal/pipeline/pipeline.go:243-254 | the entry count, baseline count and last-good time a run reports, and the status name it stores |
| RunLaws.LastStatusIsLatest | internal/health/health.go:247 | the record names the status of the latest run |
| Health.PrivateSpace | internal/health/health.go:112-116 | the private networks are exactly the IPv4 addresses 10.0.0.0 to 10.255.255.255, 172.16.0.0 to 172.31.255.255 and 192.168.0.0 to 192.168.255.255 (section 3 of RFC 1918) |
| Health.UsableIffClean | internal/health/health.go:142-160 | an entry passes the floor if and only if it is no default route and no address of it lies in those intervals or in the user's own networks |
| Pipeline.Persist | internal/pipeline/pipeline.go:221-241 | writes validators and record, and the snapshot after an OK run on new content only |
| Pipeline.RunFeed | internal/pipeline/pipeline.go:152-255 | one feed's outcome and the store after it; an error or a rehearsal leaves the store as it was |
| Pipeline.FetchAll | internal/pipeline/pipeline.go:86-106 | the nested loops visit every distinct feed once, stopping at the first error |
| Pipeline.BuildSets | internal/pipeline/pipeline.go:111-128 | one normalized set per alias, or divergence exactly when some alias diverges |
| Pipeline.Run | internal/pipeline/pipeline.go:73-144 | the cycle's store and end are those of the cycle as a function |
| PipelineSpec.OrderVisited | internal/pipeline/pipeline.go:86-109 | the order lists each fetched feed exactly once, and healthy means all of them are OK |
| FeedHistory.HistoryKeeps | internal/pipeline/pipeline.go:221-241 | at every point of every history the snapshot loads, holds no default route and no private overlap, is no longer than LastGoodCount, and is empty exactly when that is zero |
| FeedHistory.ServedIsClean | internal/pipeline/pipeline.go:207-219 | what a run serves holds no default route and no private overlap on the fresh, 304 and last-good paths |
| FeedHistory.RunMovesRecord | internal/health/health.go:210-247 | how one run moves baseline, failing streak and staleness clock |
| FeedHistory.RunServes | internal/pipeline/pipeline.go:207-241 | what a run serves and snapshots: a fallback or a 304 serves the list that was cached, only fetched content can be cached, and then it is non-empty and exactly what was served |
| FeedHistory.RunFailsSafely | internal/health/health.go:210-224 | a failed run falls back or drops, never both, by the age of the baseline alone; a dropped feed serves nothing; no other run does either |
| FeedTimeline.LastGoodIsLatestOk | internal/state/state.go:16-19 | LastGoodAt and LastGoodCount are the time and entry count of the latest OK run |
| FeedTimeline.NothingBeforeFirstOk | internal/health/health.go:241-246 | before the first OK run there is no baseline and no snapshot |
| FeedTimeline.FailingSinceIsStreakStart | internal/state/state.go:25-26 | FailingSince is the start of the trailing FAILED streak, zero without one |
| FeedTimeline.BodyIsLastHash | internal/health/health.go:232-239 | the stored hash is the latest non-empty one, and the clock is set by the first run |
| FeedTimeline.UnchangedSinceIsContentStart | internal/health/health.go:232-239 | UnchangedSince is the run that began the current content |
| FeedTimeline.ContentStartExists | internal/health/health.go:232-239 | every non-empty history has such a run |
| DocumentedRules.UnchangedSinceIsFirstSeenIff | internal/state/state.go:23-24 | UnchangedSince is when the stored hash was first seen if and only if no run before the current content carried that hash (for any clock: or the two runs share an instant) |
| DocumentedRules.FirstSeenExists | internal/state/state.go:23-24 | after every non-empty history there is a run in which the stored hash was first seen |
| DocumentedRules.ReturnedContent | internal/state/state.go:23-24 | contents a, b, a: the hash was first seen in the first run, the clock shows the third |
| FeedTimeline.SnapshotLoadsBack | internal/pipeline/pipeline.go:233-240 | the snapshot is the canonical form of what the latest OK run on new content served |
| FeedTimeline.CachedIsLatestOk | internal/state/state.go:36-38 | the cached list is the snapshot of what the latest OK run served, 304s included |
| FeedTimeline.SnapshotNeverEmpties | internal/pipeline/pipeline.go:236-240 | a non-empty snapshot never becomes empty |
| FeedTimeline.FallbackIffRecentOk | internal/health/health.go:210-224 | a FAILED run serves the snapshot if and only if an OK run lies within stale_max, and drops the feed otherwise |
| FeedTimeline.DropPersists | internal/health/health.go:210-224 | once dropped, every later FAILED run drops it until the next OK run, across SUSPECT and STALE runs |
| DocumentedRules.StreakStartIsFirstFailure | internal/health/health.go:225-230 | the streak start read off the record is the time of the streak's first FAILED run |
| DocumentedRules.DocumentedDropIsDropped | internal/health/health.go:210-224 | a feed FAILED for longer than stale_max is dropped |
| DocumentedRules.DropAsDocumentedIff | internal/health/health.go:210-230 | a FAILED run follows the documented rule if and only if its streak is older than stale_max or some OK run is no older than that |
| DocumentedRules.DroppedAtFirstFailure | internal/health/health.go:210-230 | an OK run and, 15 days later, the first failure: dropped at once |
| Validators.RequestCarriesLatest | internal/pipeline/pipeline.go:160 | every request carries the latest entity tag and the latest modification date received, whatever became of the bytes they came with |
| Validators.NotModifiedServesVouchedIff | internal/pipeline/pipeline.go:160-171 | what a 304 serves is the snapshot of the bytes its validators name if and only if the latest run that took the snapshot had the same masked prefixes, in particular when it fetched those bytes |
| Validators.NotModifiedServesRecordedIff | internal/pipeline/pipeline.go:164-171 | it is the snapshot of the bytes whose hash is stored if and only if their run took the snapshot, or the list cached before was already equal |
| Validators.TagOutlivesHash | internal/pipeline/pipeline.go:225-232 | a list with tag x, an empty page without a tag, a 304 to x: the list of x is served while the stored hash is the empty page's |
| Validators.SnapshotOutrunsTag | internal/pipeline/pipeline.go:225-240 | a list with tag x, another list without a tag, a 304 to x: the second list is served for a tag that names the first |
| Validators.DroppedListRevived | internal/pipeline/pipeline.go:221-240 | a list dropped as too old is served again, as OK, by a 304 to the entity tag of an empty page |
| FeedTimeline.FallbackServesSomething | internal/pipeline/pipeline.go:211-216 | a fallback serves a non-empty list if and only if LastGoodCount is positive |
| FeedTimeline.OkServesNothingIff | internal/health/health.go:172-176 | an OK run serves nothing if and only if it is a 304 with nothing cached |
| FeedLimits.EmptyFallback | internal/health/health.go:172-176 | an empty page with a tag (FAILED and dropped), a 304 to that tag (OK with nothing), a fetch error: an empty fallback |
| FeedLimits.NotModifiedStatus | internal/health/health.go:162-208 | the status of a 304 right after a healthy fetch: STALE when overdue, else SUSPECT exactly when deduplication removed more than the delta threshold, a since suppressed network touches the snapshot, or the rejected ratio is set below zero, else OK |
| FeedLimits.DuplicatesThenNotModified | internal/health/health.go:184-190 | a list of three copies followed by a 304 is such a history |
| RunLocality.RunIsLocal | internal/pipeline/pipeline.go:86-106 | a named feed takes one step, from its own entry and its first definition; all other entries stay |
| RunLocality.DryRunRehearses | internal/pipeline/pipeline.go:221-223 | a dry run yields the real run's results and sets and leaves the store unchanged |
| RunHistory.ReachableStoreOk | internal/pipeline/pipeline.go:221-241 | in every reachable store each feed's record and snapshot satisfy the invariant of HistoryKeeps |
| RunHistory.HistoryIsSafe | internal/pipeline/pipeline.go:111-128 | over every history from an empty store, no cycle aborts on its own store and no published set covers a private address (the intervals of PrivateSpace) or an address of that cycle's own networks |
| Published.PublishedExactly | internal/pipeline/pipeline.go:111-128 | a finished run publishes an address for an alias if and only if one of its feeds serves it, as StepServes says from the answers, in a prefix that touches no own network |
| Published.FreshContribution | internal/pipeline/pipeline.go:111-128 | a fresh answer with something usable contributes exactly its harmless entries |
| Published.HandsOver | internal/pipeline/pipeline.go:122-138 | one set per alias with that alias's name, action and direction, applied if and only if the run is no rehearsal |
| Published.PublishedInOrder | internal/normalize/normalize.go:62-66 | every published list has IPv4 before IPv6, and each prefix ends before the next one starts |
| Published.PublishedFewest | internal/normalize/normalize.go:62-66 | no list that covers exactly those addresses is shorter than the published set |
| RunErrors.AbortsIff | internal/pipeline/pipeline.go:96-99 | a run gives up if and only if some feed's snapshot does not load and its answer makes the run read it |
| Published.HangsIff | internal/pipeline/pipeline.go:118 | a cycle fails to return if and only if every IPv6 address is served in that way for some alias |
| RunExamples.OneFeedHangs | internal/pipeline/pipeline.go:118 | one feed that answers the two halves of IPv6 is OK and keeps the whole cycle from returning |
| RunHistory.FeedHasItsOwnHistory | internal/pipeline/pipeline.go:86-106 | each feed's entry in a reachable store is the result of its own real runs |
| RunHistory.AliasesOnlyAppend | internal/pipeline/pipeline.go:91-109 | later aliases only append to the order, also when an error ends the run |
| RunOrder.AliasesInOrder | internal/pipeline/pipeline.go:86-106 | unless an error has ended the run, the order is the list of the distinct names so far, by first occurrence |
| RunOrder.ResultsInOrder | internal/pipeline/pipeline.go:86-109 | a finished run reports the distinct names of all aliases' feeds, by first occurrence |
| RunOrder.EarlierNameReportedFirst | internal/pipeline/pipeline.go:86-109 | of two results, the one whose name occurs first in the aliases comes first |
| RunHistory.ReportsEachFeedOnce | internal/pipeline/pipeline.go:86-109 | no name is reported twice, each under its first definition |
| RunHistory.ReportsEveryFeed | internal/pipeline/pipeline.go:86-109 | every feed named in an alias is reported |
| RunHistory.HealthyIffAllOk | internal/pipeline/pipeline.go:68-70 | the run is healthy if and only if every reported feed is OK |
| DocumentedRules.UnhealthyBeyondDocumentsIff | internal/health/health.go:46-48 | a run without FAILED or SUSPECT feeds is unhealthy if and only if some feed is STALE; a healthy run has neither |
| RunExamples.OnlyStale | internal/health/health.go:198-208 | two cycles with the same bytes, the second past cadence plus stale_max: its only feed is STALE and the run unhealthy |

## Left out

- HTTP, retries, decompression, SHA-256, format detection and the line parsers: they appear as an arbitrary answer; a hash is any non-empty string.
- Address parsing, printing and byte order: an address is its number. The snapshot file uses a printed form of this project's own that parses back and contains no newline.
- Invalid prefixes (the zero netip.Prefix), zones and IPv4-mapped addresses: a prefix always has a family, an address of its width and a length within it.
- The algorithm of slices.SortFunc: an insertion sort stands in for it; the lists it sorts are values, not slices sorted in place.
- State files as JSON, their corruption, file names, atomic writes, and any failing write: the store's two maps are keyed by feed name and every write succeeds; a corrupt snapshot file is modelled.
- A process that dies between the two writes of one feed.
- Targets: a finished run hands its sets over, applied or rehearsed; errors of a target are not modelled.
- Reasons, logs, tables and the CLI; catalog and configuration.
- Rounding of float64 and overflow of int and time.Duration: the delta check is a cross-multiplied integer comparison, the rejected ratio is a real, durations are unbounded.
- A clock that runs backwards: the two lemmas about ages need it monotone, the others only positive.
- FeedTimeline.DropPersists: states the case of a stale_max that does not grow between the two runs, since raising the setting legitimately revives a dropped feed.
- Pipeline.Run: an aborted run only keeps its error; the partial result the code returns beside it, and the errors and reports of targets, are not modelled.
- State.Store.Load: a record file that does not parse is not modelled, so loading a record never fails.
