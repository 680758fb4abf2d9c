/** Health evaluation of one feed in one run: the sanity floor, the checks, and the next state. */
module Health {
  import opened Bits
  import opened Prefixes
  import opened Filtering
  import opened Suppression
  import opened State

  /** Order is severity. */
  datatype Status = OK | Suspect | Stale | Failed

  function Severity(s: Status): nat {
    match s
    case OK => 0
    case Suspect => 1
    case Stale => 2
    case Failed => 3
  }

  function StatusName(s: Status): string {
    match s
    case OK => "OK"
    case Suspect => "SUSPECT"
    case Stale => "STALE"
    case Failed => "FAILED"
  }

  function Raise(current: Status, s: Status): Status {
    if Severity(s) > Severity(current) then s else current
  }

  /** Durations are in nanoseconds. */
  const HOUR: int := 3_600_000_000_000

  datatype Thresholds = Thresholds(deltaPct: int, rejectedRatio: real, staleMax: int)

  /** Zero fields take the defaults: 40%, 10%, 14 days. */
  function Effective(th: Thresholds): Thresholds {
    Thresholds(if th.deltaPct == 0 then 40 else th.deltaPct,
               if th.rejectedRatio == 0.0 then 0.10 else th.rejectedRatio,
               if th.staleMax == 0 then 14 * 24 * HOUR else th.staleMax)
  }

  datatype Stats = Stats(parsed: nat, rejected: nat)

  function RejectedRatio(st: Stats): real {
    if st.parsed + st.rejected == 0 then 0.0
    else (st.rejected as real) / ((st.parsed + st.rejected) as real)
  }

  datatype Feed = Feed(name: string, url: string, deltaThresholdPct: int, cadenceHours: int)

  datatype Input = Input(
    feed: Feed,
    fetchFailed: bool,
    notModified: bool,
    bodySha256: string,
    stats: Stats,
    prefixes: seq<Prefix>,
    prev: FeedState,
    now: int,
    own: seq<Prefix>)

  datatype Evaluation = Evaluation(
    status: Status,
    prefixes: seq<Prefix>,
    dropped: seq<Prefix>,
    useLastGood: bool,
    dropFeed: bool,
    nextState: FeedState)

  /** RFC 1918 section 3: 10/8, 172.16/12, 192.168/16. */
  function Rfc1918(): seq<Prefix> {
    [Ipv4(0x0A00_0000, 8), Ipv4(0xAC10_0000, 12), Ipv4(0xC0A8_0000, 16)]
  }

  /**
   The private addresses, all IPv4: 10.0.0.0 to 10.255.255.255, 172.16.0.0 to
   172.31.255.255 and 192.168.0.0 to 192.168.255.255.
   */
  predicate Private(f: Family, a: nat) {
    && f == V4
    && (|| 0x0A00_0000 <= a <= 0x0AFF_FFFF
        || 0xAC10_0000 <= a <= 0xAC1F_FFFF
        || 0xC0A8_0000 <= a <= 0xC0A8_FFFF)
  }

  /** No default route, and no private address in it. */
  ghost predicate Public(p: Prefix) {
    p.len > 0 && forall a: nat :: Contains(p, p.fam, a) ==> !Private(p.fam, a)
  }

  /** A default route, or an overlap with private space or the user's own networks. */
  predicate Poisoned(p: Prefix, own: seq<Prefix>) {
    p.len == 0 || OverlapsAny(p, Rfc1918() + own)
  }

  function FailsFloor(own: seq<Prefix>): Prefix -> bool {
    (p: Prefix) => Poisoned(p, own)
  }

  function Usable(ps: seq<Prefix>, own: seq<Prefix>): seq<Prefix> { Lacking(ps, FailsFloor(own)) }

  function Poison(ps: seq<Prefix>, own: seq<Prefix>): seq<Prefix> { Having(ps, FailsFloor(own)) }

  function Count(inp: Input): nat { |Usable(inp.prefixes, inp.own)| }

  /** Nothing usable came back. A 304 is exempt from the zero-entry check. */
  predicate IsFailed(inp: Input) {
    inp.fetchFailed || (Count(inp) == 0 && !inp.notModified)
  }

  /** The entry count moved by more than the threshold percentage since the last good run. */
  predicate CountSwung(inp: Input, th: Thresholds) {
    var pct := if inp.feed.deltaThresholdPct > 0 then inp.feed.deltaThresholdPct else th.deltaPct;
    var prev := inp.prev.lastGoodCount;
    prev > 0 && (100 * (Count(inp) - prev) > pct * prev || 100 * (Count(inp) - prev) < -pct * prev)
  }

  predicate FormatDrifted(inp: Input, th: Thresholds) {
    RejectedRatio(inp.stats) > th.rejectedRatio
  }

  /** Byte-identical for longer than the cadence plus stale_max. */
  predicate IsStale(inp: Input, th: Thresholds) {
    && (inp.notModified || (inp.bodySha256 != "" && inp.bodySha256 == inp.prev.bodySha256))
    && inp.prev.unchangedSince != 0
    && inp.feed.cadenceHours > 0
    && inp.now - inp.prev.unchangedSince > inp.feed.cadenceHours * HOUR + th.staleMax
  }

  /** The most severe finding. */
  function StatusOf(inp: Input, th: Thresholds): Status {
    if IsFailed(inp) then Failed
    else if IsStale(inp, th) then Stale
    else if Poison(inp.prefixes, inp.own) != [] || CountSwung(inp, th) || FormatDrifted(inp, th) then Suspect
    else OK
  }

  /** A failed feed falls back to its snapshot while its last good run is recent enough. */
  predicate CanFallBack(inp: Input, th: Thresholds) {
    inp.prev.lastGoodAt != 0 && inp.now - inp.prev.lastGoodAt <= th.staleMax
  }

  predicate NewContent(inp: Input) {
    (inp.bodySha256 != "" && inp.bodySha256 != inp.prev.bodySha256) || inp.prev.unchangedSince == 0
  }

  function NextState(inp: Input, status: Status): FeedState {
    inp.prev.(
      failingSince := if status != Failed then 0
                      else if inp.prev.failingSince == 0 then inp.now
                      else inp.prev.failingSince,
      bodySha256 := if NewContent(inp) then inp.bodySha256 else inp.prev.bodySha256,
      unchangedSince := if NewContent(inp) then inp.now else inp.prev.unchangedSince,
      lastGoodAt := if status == OK then inp.now else inp.prev.lastGoodAt,
      lastGoodCount := if status == OK then Count(inp) else inp.prev.lastGoodCount,
      lastStatus := StatusName(status))
  }

  /** The verdict, as its parts are specified above. */
  function Evaluated(inp: Input, thresholds: Thresholds): Evaluation {
    var th := Effective(thresholds);
    var status := StatusOf(inp, th);
    Evaluation(status, Usable(inp.prefixes, inp.own), Poison(inp.prefixes, inp.own),
               status == Failed && CanFallBack(inp, th),
               status == Failed && !CanFallBack(inp, th),
               NextState(inp, status))
  }

  lemma {:induction false} BlockAt(h: nat, n: nat)
    requires n <= 32 && h * Pow2(n) < 0x1_0000_0000
    ensures Base(Ipv4(h * Pow2(n), 32 - n)) == h * Pow2(n)
    ensures Last(Ipv4(h * Pow2(n), 32 - n)) == h * Pow2(n) + Pow2(n) - 1
  {
    AlignedHigh(h, n, n);
    FloorUnique(h * Pow2(n), n, h * Pow2(n));
  }

  /** RFC 1918 as intervals of addresses. */
  lemma PrivateSpace(f: Family, a: nat)
    ensures Covers(Rfc1918(), f, a) <==> Private(f, a)
  {
    ShortIsPow2();
    Pow2Sum(16, 8);
    Pow2Sum(16, 4);
    ByteIsPow2();
    BlockAt(0x0A, 24);
    BlockAt(0xAC1, 20);
    BlockAt(0xC0A8, 16);
    assert Contains(Rfc1918()[0], f, a) <==> f == V4 && 0x0A00_0000 <= a <= 0x0AFF_FFFF;
    assert Contains(Rfc1918()[1], f, a) <==> f == V4 && 0xAC10_0000 <= a <= 0xAC1F_FFFF;
    assert Contains(Rfc1918()[2], f, a) <==> f == V4 && 0xC0A8_0000 <= a <= 0xC0A8_FFFF;
  }

  /** A prefix overlaps one of a list exactly when it shares an address with the list. */
  lemma OverlapsAnyIffShares(p: Prefix, own: seq<Prefix>)
    ensures OverlapsAny(p, own) <==> exists a: nat :: Contains(p, p.fam, a) && Covers(own, p.fam, a)
  {
    if OverlapsAny(p, own) {
      var o: Prefix :| o in own && Overlaps(p, o);
      OverlapsIffShare(p, o);
      var a: nat :| Contains(p, p.fam, a) && Contains(o, p.fam, a);
      assert Covers(own, p.fam, a);
    }
    if a: nat :| Contains(p, p.fam, a) && Covers(own, p.fam, a) {
      var o: Prefix :| o in own && Contains(o, p.fam, a);
      OverlapsIffShare(p, o);
    }
  }

  /** The floor keeps an entry exactly when it is no default route and holds no private or own address. */
  lemma UsableIffClean(p: Prefix, own: seq<Prefix>)
    ensures !Poisoned(p, own)
       <==> Public(p) && forall a: nat :: Contains(p, p.fam, a) ==> !Covers(own, p.fam, a)
  {
    OverlapsAnyIffShares(p, Rfc1918() + own);
    forall a: nat ensures Covers(Rfc1918() + own, p.fam, a) <==> Private(p.fam, a) || Covers(own, p.fam, a) {
      CoversConcat(Rfc1918(), own, p.fam, a);
      PrivateSpace(p.fam, a);
    }
  }

  /** The floor loop: splits the parsed entries, stopping at the first network each one overlaps. */
  method SplitPoison(prefixes: seq<Prefix>, own: seq<Prefix>) returns (usable: seq<Prefix>, dropped: seq<Prefix>)
    ensures usable == Usable(prefixes, own) && dropped == Poison(prefixes, own)
  {
    usable, dropped := [], [];
    var floor := Rfc1918() + own;
    for i := 0 to |prefixes|
      invariant usable == Usable(prefixes[..i], own) && dropped == Poison(prefixes[..i], own)
    {
      var p := prefixes[i];
      assert prefixes[..i + 1] == prefixes[..i] + [p];
      SplitSnoc(prefixes[..i], p, FailsFloor(own));
      var poisoned := IsPoisoned(p, floor);
      if poisoned {
        dropped := dropped + [p];
      } else {
        usable := usable + [p];
      }
    }
    assert prefixes[..|prefixes|] == prefixes;
  }

  method IsPoisoned(p: Prefix, floor: seq<Prefix>) returns (poisoned: bool)
    ensures poisoned <==> p.len == 0 || OverlapsAny(p, floor)
  {
    poisoned := p.len == 0;
    for i := 0 to |floor|
      invariant poisoned <==> p.len == 0 || exists j :: 0 <= j < i && Overlaps(p, floor[j])
    {
      if poisoned {
        break;
      }
      if Overlaps(p, floor[i]) {
        poisoned := true;
      }
    }
  }

  /** Runs the checks in order, raising the status, then applies the failure policy. */
  method Evaluate(inp: Input, thresholds: Thresholds) returns (ev: Evaluation)
    ensures ev == Evaluated(inp, thresholds)
  {
    var th := Effective(thresholds);
    var status := OK;
    var next := inp.prev;
    var usable, dropped := SplitPoison(inp.prefixes, inp.own);
    if |dropped| > 0 {
      status := Raise(status, Suspect);
    }
    var entryCount := |usable|;
    if inp.fetchFailed {
      status := Raise(status, Failed);
    } else if entryCount == 0 && !inp.notModified {
      status := Raise(status, Failed);
    } else {
      status := RaiseContentChecks(status, inp, th, entryCount);
    }
    var useLastGood, dropFeed := false, false;
    if status == Failed {
      var lastGoodAge := 0;
      var hasLastGood := inp.prev.lastGoodAt != 0;
      if hasLastGood {
        lastGoodAge := inp.now - inp.prev.lastGoodAt;
      }
      if hasLastGood && lastGoodAge <= th.staleMax {
        useLastGood := true;
      } else {
        dropFeed := true;
      }
      if inp.prev.failingSince == 0 {
        next := next.(failingSince := inp.now);
      }
    } else {
      next := next.(failingSince := 0);
    }
    if inp.bodySha256 != "" && inp.bodySha256 != inp.prev.bodySha256 {
      next := next.(bodySha256 := inp.bodySha256);
      next := next.(unchangedSince := inp.now);
    } else if inp.prev.unchangedSince == 0 {
      next := next.(unchangedSince := inp.now);
      next := next.(bodySha256 := inp.bodySha256);
    }
    if status == OK {
      next := next.(lastGoodAt := inp.now);
      next := next.(lastGoodCount := entryCount);
    }
    next := next.(lastStatus := StatusName(status));
    ev := Evaluation(status, usable, dropped, useLastGood, dropFeed, next);
  }

  /** Checks 3 to 5: count delta, rejected-line ratio, staleness. */
  method RaiseContentChecks(before: Status, inp: Input, th: Thresholds, entryCount: nat) returns (status: Status)
    requires entryCount == Count(inp)
    ensures status == if IsStale(inp, th) then Raise(before, Stale)
                      else if CountSwung(inp, th) || FormatDrifted(inp, th) then Raise(before, Suspect)
                      else before
  {
    status := before;
    var deltaPct := th.deltaPct;
    if inp.feed.deltaThresholdPct > 0 {
      deltaPct := inp.feed.deltaThresholdPct;
    }
    var prev := inp.prev.lastGoodCount;
    if prev > 0 {
      var moved := 100 * (entryCount - prev);
      if moved > deltaPct * prev || moved < -deltaPct * prev {
        status := Raise(status, Suspect);
      }
    }
    if RejectedRatio(inp.stats) > th.rejectedRatio {
      status := Raise(status, Suspect);
    }
    var identical := inp.notModified || (inp.bodySha256 != "" && inp.bodySha256 == inp.prev.bodySha256);
    if identical && inp.prev.unchangedSince != 0 && inp.feed.cadenceHours > 0 {
      var age := inp.now - inp.prev.unchangedSince;
      if age > inp.feed.cadenceHours * HOUR + th.staleMax {
        status := Raise(status, Stale);
      }
    }
  }
}
