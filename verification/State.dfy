/** Per-feed state and last-good snapshots: the store as a value, and as the object the pipeline updates. */
module State {
  import opened Prefixes
  import opened Sorting
  import opened Snapshot
  import opened SnapshotText
  import opened Wrappers

  /** The durable record of one feed. Times count from an arbitrary epoch; 0 is the zero time. */
  datatype FeedState = FeedState(
    etag: string,
    lastModified: string,
    lastGoodAt: int,
    lastGoodCount: nat,
    bodySha256: string,
    unchangedSince: int,
    failingSince: int,
    lastStatus: string)

  const ZERO_STATE := FeedState("", "", 0, 0, "", 0, 0, "")

  /** What is on disk: one record and one snapshot file per feed name. */
  datatype StoreState = StoreState(feeds: map<string, FeedState>, files: map<string, string>)

  const EMPTY_STORE := StoreState(map[], map[])

  function Loaded(s: StoreState, feed: string): FeedState {
    if feed in s.feeds then s.feeds[feed] else ZERO_STATE
  }

  function Cached(s: StoreState, feed: string): Result<seq<Prefix>> {
    if feed in s.files then Decode(s.files[feed]) else Ok([])
  }

  function WithState(s: StoreState, feed: string, st: FeedState): StoreState {
    s.(feeds := s.feeds[feed := st])
  }

  function WithSnapshot(s: StoreState, feed: string, ps: seq<Prefix>): StoreState {
    s.(files := s.files[feed := Encode(SnapshotOf(ps))])
  }

  /** What was saved for a feed is what loads: the canonical list, with the coverage that was saved. */
  lemma SnapshotRoundTrip(s: StoreState, feed: string, ps: seq<Prefix>)
    ensures Cached(WithSnapshot(s, feed, ps), feed) == Ok(SnapshotOf(ps))
    ensures SameCoverage(SnapshotOf(ps), ps)
    ensures forall other :: other != feed ==> Cached(WithSnapshot(s, feed, ps), other) == Cached(s, other)
  {
    SnapshotMasked(ps);
    DecodeEncode(SnapshotOf(ps));
    SnapshotCovers(ps);
  }

  /** Saving again what was loaded leaves the store as it is. */
  lemma ResaveIsIdle(s: StoreState, feed: string, ps: seq<Prefix>)
    ensures var t := WithSnapshot(s, feed, ps);
            Cached(t, feed).Ok? && WithSnapshot(t, feed, Cached(t, feed).value) == t
  {
    SnapshotRoundTrip(s, feed, ps);
    SnapshotIdempotent(ps);
  }

  /** Two lists are saved as the same file exactly when they have the same masked prefixes. */
  lemma SameFileIff(s: StoreState, feed: string, xs: seq<Prefix>, ys: seq<Prefix>)
    ensures WithSnapshot(s, feed, xs) == WithSnapshot(s, feed, ys) <==> SameMasked(xs, ys)
  {
    SnapshotIffSameMasked(xs, ys);
    SnapshotRoundTrip(s, feed, xs);
    SnapshotRoundTrip(s, feed, ys);
  }

  lemma {:induction false} MaskAllSnoc(ps: seq<Prefix>, p: Prefix)
    ensures MaskAll(ps + [p]) == MaskAll(ps) + [Masked(p)]
  {
    if ps == [] {
      assert ps + [p] == [p];
    } else {
      assert (ps + [p])[1..] == ps[1..] + [p];
      MaskAllSnoc(ps[1..], p);
    }
  }

  lemma {:induction false} EncodeSnoc(ps: seq<Prefix>, p: Prefix)
    ensures Encode(ps + [p]) == Encode(ps) + PrintPrefix(p) + "\n"
  {
    if ps == [] {
      assert ps + [p] == [p];
      assert Encode([]) == "";
    } else {
      assert (ps + [p])[1..] == ps[1..] + [p];
      EncodeSnoc(ps[1..], p);
    }
  }

  /** The text of a canonical list, line by line. */
  method BuildText(canon: seq<Prefix>) returns (text: string)
    ensures text == Encode(canon)
  {
    text := "";
    for i := 0 to |canon|
      invariant text == Encode(canon[..i])
    {
      assert canon[..i + 1] == canon[..i] + [canon[i]];
      EncodeSnoc(canon[..i], canon[i]);
      text := text + PrintPrefix(canon[i]);
      text := text + "\n";
    }
    assert canon[..|canon|] == canon;
  }

  /** The masked, sorted, deduplicated list. */
  method Canonicalize(prefixes: seq<Prefix>) returns (canon: seq<Prefix>)
    ensures canon == SnapshotOf(prefixes)
  {
    canon := [];
    for i := 0 to |prefixes|
      invariant canon == MaskAll(prefixes[..i])
    {
      assert prefixes[..i + 1] == prefixes[..i] + [prefixes[i]];
      MaskAllSnoc(prefixes[..i], prefixes[i]);
      canon := canon + [Masked(prefixes[i])];
    }
    assert prefixes[..|prefixes|] == prefixes;
    canon := Sort(canon, PrefixLe);
    canon := Compact(canon);
  }

  /** done, then whatever the remaining lines decode to. */
  function Resume(done: seq<Prefix>, rest: Result<seq<Prefix>>): Result<seq<Prefix>> {
    if rest.Err? then rest else Ok(done + rest.value)
  }

  lemma {:induction false} ResumeNext(done: seq<Prefix>, lines: seq<string>)
    requires lines != [] && lines != [""] && CanonicalLine(lines[0])
    ensures Resume(done, DecodeLines(lines)) == Resume(done + [ParsePrefix(lines[0]).value], DecodeLines(lines[1..]))
  {
    var p := ParsePrefix(lines[0]).value;
    var rest := DecodeLines(lines[1..]);
    if rest.Ok? { assert done + ([p] + rest.value) == (done + [p]) + rest.value; }
  }

  /** Reads the lines of a snapshot file; a line that is not a canonical prefix is an error. */
  method ReadLines(lines: seq<string>) returns (r: Result<seq<Prefix>>)
    ensures r == DecodeLines(lines)
  {
    var prefixes: seq<Prefix> := [];
    assert lines[0..] == lines;
    assert DecodeLines(lines).Ok? ==> [] + DecodeLines(lines).value == DecodeLines(lines).value;
    for i := 0 to |lines|
      invariant DecodeLines(lines) == Resume(prefixes, DecodeLines(lines[i..]))
    {
      var line := lines[i];
      assert lines[i..][0] == line && lines[i..][1..] == lines[i + 1..];
      if line == "" && i == |lines| - 1 {
        assert lines[i..] == [""];
        continue;
      }
      assert lines[i..] != [""];
      var p := ParsePrefix(line);
      if p.None? {
        return Err("unparsable line");
      }
      if Masked(p.value) != p.value {
        return Err("not a canonical prefix");
      }
      ResumeNext(prefixes, lines[i..]);
      prefixes := prefixes + [p.value];
    }
    assert lines[|lines|..] == [] && prefixes + [] == prefixes;
    r := Ok(prefixes);
  }

  class Store {
    var feeds: map<string, FeedState>
    var files: map<string, string>

    function Model(): StoreState
      reads this
    {
      StoreState(feeds, files)
    }

    constructor ()
      ensures Model() == EMPTY_STORE
    {
      feeds, files := map[], map[];
    }

    method Load(feed: string) returns (st: FeedState, found: bool)
      ensures st == Loaded(Model(), feed) && (found <==> feed in feeds)
    {
      if feed !in feeds {
        return ZERO_STATE, false;
      }
      st, found := feeds[feed], true;
    }

    method Save(feed: string, st: FeedState)
      modifies this`feeds
      ensures Model() == WithState(old(Model()), feed, st)
    {
      feeds := feeds[feed := st];
    }

    method LastGood(feed: string) returns (r: Result<seq<Prefix>>)
      ensures r == Cached(Model(), feed)
    {
      if feed !in files {
        return Ok([]);
      }
      r := ReadLines(SplitLines(files[feed]));
    }

    method SaveLastGood(feed: string, prefixes: seq<Prefix>)
      modifies this`files
      ensures Model() == WithSnapshot(old(Model()), feed, prefixes)
    {
      var canon := Canonicalize(prefixes);
      var text := BuildText(canon);
      files := files[feed := text];
    }
  }
}
