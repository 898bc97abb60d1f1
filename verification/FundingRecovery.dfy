/** Runs of fetches, aborted fetches and clears; and picking up after an abort. */
module FundingRecovery {
  import Ordering
  import opened Wrappers
  import opened RemoteHistory
  import opened FundingRateCache
  import opened FundingFetch
  import opened FundingSuccess
  import opened FundingTheorems
  import opened FundingExactness

  // --- safety over runs ---

  /** One operation on the table; `AbortedFetch` stops, for whatever reason, before the gap numbered `gapsDone`. */
  datatype Operation =
    | CompleteFetch(symbol: string, start: int, end: int)
    | AbortedFetch(symbol: string, start: int, end: int, gapsDone: nat)
    | Clear(only: Option<string>)

  /** The table after the first `k` gaps of a fetch. */
  function AfterGaps(market: Market, rows: map<Key, Row>, symbol: string, start: int, end: int, k: nat): map<Key, Row> {
    var gaps := WindowGaps(rows, symbol, start, end);
    if symbol !in market then rows
    else FillGaps(market[symbol], rows, symbol, if k < |gaps| then gaps[..k] else gaps).rows
  }

  function Apply(market: Market, rows: map<Key, Row>, op: Operation): map<Key, Row> {
    match op
    case CompleteFetch(symbol, start, end) => Fetch(market, rows, symbol, start, end).rows
    case AbortedFetch(symbol, start, end, k) => AfterGaps(market, rows, symbol, start, end, k)
    case Clear(only) => Cleared(rows, only)
  }

  function Run(market: Market, rows: map<Key, Row>, ops: seq<Operation>): map<Key, Row>
    decreases |ops|
  {
    if ops == [] then rows else Run(market, Apply(market, rows, ops[0]), ops[1..])
  }

  /** After any run every row of the table is the remote one at its key. */
  lemma {:induction false} RunAgrees(market: Market, rows: map<Key, Row>, ops: seq<Operation>)
    requires ValidMarket(market) && Agrees(market, rows)
    ensures Agrees(market, Run(market, rows, ops))
    decreases |ops|
  {
    if ops != [] {
      match ops[0] {
        case CompleteFetch(symbol, start, end) => FetchCharacterised(market, rows, symbol, start, end);
        case AbortedFetch(symbol, start, end, k) =>
          if symbol in market {
            var gaps := WindowGaps(rows, symbol, start, end);
            FillGapsAgrees(market, rows, symbol, if k < |gaps| then gaps[..k] else gaps);
          }
        case Clear(only) =>
      }
      RunAgrees(market, Apply(market, rows, ops[0]), ops[1..]);
    }
  }

  /** A fetch stopped by a missing mark price leaves the table as after some of its gaps. */
  lemma {:induction false} FailureIsAbort(l: Listing, rows: map<Key, Row>, symbol: string, gaps: seq<Range>)
    returns (k: nat)
    requires FillGaps(l, rows, symbol, gaps).error.Some?
    ensures k < |gaps| && GapEvents(l, symbol, gaps[k]).Err?
    ensures FillGaps(l, rows, symbol, gaps[..k]) == Fill(FillGaps(l, rows, symbol, gaps).rows, None)
    decreases |gaps|
  {
    match GapEvents(l, symbol, gaps[0])
    case Err(e) => k := 0;
    case Ok(events) =>
      k := FailureIsAbort(l, Upserted(rows, NAME, symbol, events), symbol, gaps[1..]);
      k := k + 1;
      assert gaps[..k][1..] == gaps[1..][..k - 1];
  }

  /** A failed fetch of a listed symbol leaves the table of the gaps before the first one with an unpriced rate. */
  lemma FailedFetchIsAbort(market: Market, rows: map<Key, Row>, symbol: string, start: int, end: int) returns (k: nat)
    requires ValidMarket(market) && Agrees(market, rows) && symbol in market
    requires Fetch(market, rows, symbol, start, end).result.Err?
    ensures var l, gaps := market[symbol], WindowGaps(rows, symbol, start, end);
            k < |gaps| && AllPriced(l, gaps[..k]) && !GapPriced(l, gaps[k])
    ensures Fetch(market, rows, symbol, start, end).rows == AfterGaps(market, rows, symbol, start, end, k)
    ensures forall t :: HasRow(Fetch(market, rows, symbol, start, end).rows, symbol, t) <==>
              HasRow(rows, symbol, t) ||
              (t in ToMap(market[symbol].rates) && InSomeGap(WindowGaps(rows, symbol, start, end)[..k], t))
  {
    var l, gaps := market[symbol], WindowGaps(rows, symbol, start, end);
    k := FailureIsAbort(l, rows, symbol, gaps);
    FillGapsOk(l, rows, symbol, gaps[..k]);
    GapEventsOk(l, symbol, gaps[k]);
    FillGapsAgrees(market, rows, symbol, gaps[..k]);
  }

  // --- picking up after an abort ---

  /** Every gap but the last ends at a cached row. */
  lemma {:induction false} InteriorGapsEndAtRows(cached: seq<FundingEvent>, i: nat)
    requires i < |InteriorGaps(cached)|
    ensures exists c :: c in cached && c.timestamp == InteriorGaps(cached)[i].hi
  {
    var n := |cached|;
    var earlier := InteriorGaps(cached[..n - 1]);
    if i < |earlier| {
      InteriorGapsEndAtRows(cached[..n - 1], i);
    } else {
      assert cached[n - 1] in cached;
    }
  }

  lemma GapsEndAtRows(cached: seq<FundingEvent>, start: int, end: int, i: nat)
    requires cached != [] && i < |Gaps(cached, start, end)| - 1
    ensures exists c :: c in cached && c.timestamp == Gaps(cached, start, end)[i].hi
  {
    var leading, interior := LeadingGap(cached, start), InteriorGaps(cached);
    if i < |leading| {
      assert cached[0] in cached;
    } else {
      InteriorGapsEndAtRows(cached, i - |leading|);
    }
  }

  /** The rows `c` of a window, some of whose gaps have been filled; `t` is an instant none of those gaps holds. */
  ghost predicate PartlyFilled(c: seq<FundingEvent>, start: int, end: int, k: nat, t: int) {
    && Chronological(c) && PositiveIntervals(c) && WithinWindow(c, start, end)
    && k <= |Gaps(c, start, end)|
    && start <= t <= end && (forall i :: 0 <= i < |c| ==> c[i].timestamp != t)
    && !InSomeGap(Gaps(c, start, end)[..k], t)
  }

  /** A row `x` stored by a filled gap. */
  ghost predicate StoredByGap(c: seq<FundingEvent>, start: int, end: int, k: nat, x: int)
    requires k <= |Gaps(c, start, end)|
  {
    && start <= x <= end && (forall i :: 0 <= i < |c| ==> c[i].timestamp != x)
    && InSomeGap(Gaps(c, start, end)[..k], x)
  }

  lemma SameNeighbours(c: seq<FundingEvent>, t: int, x: int)
    requires Chronological(c) && forall i :: 0 <= i < |c| ==> c[i].timestamp != t && c[i].timestamp != x
    requires Before(c, t).Some? ==> Before(c, t).value.timestamp < x
    requires After(c, t).Some? ==> x < After(c, t).value.timestamp
    ensures Before(c, x) == Before(c, t) && After(c, x) == After(c, t)
  {
    BeforeIsNearest(c, t);
    AfterIsNearest(c, t);
    BeforeIsNearest(c, x);
    AfterIsNearest(c, x);
  }

  /** If a filled gap stored a row between the neighbours of `t`, no gap at all holds `t`. */
  lemma OneGapBetweenRows(c: seq<FundingEvent>, start: int, end: int, k: nat, t: int, x: int)
    requires PartlyFilled(c, start, end, k, t) && StoredByGap(c, start, end, k, x)
    requires Before(c, x) == Before(c, t) && After(c, x) == After(c, t)
    ensures !InSomeGap(Gaps(c, start, end), t)
  {
    var gaps := Gaps(c, start, end);
    var i :| 0 <= i < k && gaps[..k][i].lo <= x <= gaps[..k][i].hi;
    forall j | 0 <= j < |gaps|
      ensures !(gaps[j].lo <= t <= gaps[j].hi)
    {
      if j < k {
        assert gaps[..k][j] == gaps[j];
      } else {
        GapShape(c, start, end);
        GapsEndAtRows(c, start, end, i);
        AfterIsNearest(c, x);
        AfterIsNearest(c, t);
      }
    }
  }

  lemma FirstGaps(gaps: seq<Range>, k: nat, t: int)
    requires k <= |gaps| && InSomeGap(gaps[..k], t)
    ensures InSomeGap(gaps, t)
  {
    assert gaps == gaps[..k] + gaps[k..];
    InSomeGapAppend(gaps[..k], gaps[k..], t);
  }

  /** A row stored by a filled gap lies outside the neighbours of `t`, or `t` is in the blind interval after a row. */
  lemma StoredElsewhere(c: seq<FundingEvent>, start: int, end: int, k: nat, t: int, x: int)
    requires PartlyFilled(c, start, end, k, t) && StoredByGap(c, start, end, k, x)
    ensures var p, q := Before(c, t), After(c, t);
            || (p.Some? && x <= p.value.timestamp)
            || (q.Some? && q.value.timestamp <= x)
            || (p.Some? && t < p.value.timestamp + Interval(p.value) <= x)
  {
    var p, q := Before(c, t), After(c, t);
    if (p.Some? ==> p.value.timestamp < x) && (q.Some? ==> x < q.value.timestamp) {
      SameNeighbours(c, t, x);
      OneGapBetweenRows(c, start, end, k, t, x);
      GapsCoverage(c, start, end, t);
      GapsCoverage(c, start, end, x);
      FirstGaps(Gaps(c, start, end), k, x);
    }
  }

  /** `d` holds the rows `c` and rows stored by the first `k` gaps. */
  ghost predicate FilledIn(c: seq<FundingEvent>, d: seq<FundingEvent>, start: int, end: int, k: nat)
    requires k <= |Gaps(c, start, end)|
  {
    && Chronological(d)
    && (forall ev :: ev in c ==> ev in d)
    && (forall ev :: ev in d ==> ev in c || StoredByGap(c, start, end, k, ev.timestamp))
  }

  /** Rows stored by some of the gaps do not change what is passed over elsewhere. */
  lemma FillingKeepsVerdict(c: seq<FundingEvent>, d: seq<FundingEvent>, start: int, end: int, k: nat, t: int)
    requires PartlyFilled(c, start, end, k, t) && FilledIn(c, d, start, end, k)
    requires forall i :: 0 <= i < |d| ==> d[i].timestamp != t
    ensures PassedOver(Before(d, t), After(d, t), start, end, t) <==>
            PassedOver(Before(c, t), After(c, t), start, end, t)
  {
    var p, q := Before(c, t), After(c, t);
    BeforeIsNearest(c, t);
    AfterIsNearest(c, t);
    BeforeIsNearest(d, t);
    AfterIsNearest(d, t);
    BeforeUnchanged(c, d, start, end, k, t);
    var q' := After(d, t);
    if q'.Some? && q'.value !in c {
      StoredElsewhere(c, start, end, k, t, q'.value.timestamp);
    }
    if q'.Some? && q.Some? {
      SameInstant(d, q'.value, q.value);
    }
  }

  lemma BeforeUnchanged(c: seq<FundingEvent>, d: seq<FundingEvent>, start: int, end: int, k: nat, t: int)
    requires PartlyFilled(c, start, end, k, t) && FilledIn(c, d, start, end, k)
    requires forall i :: 0 <= i < |d| ==> d[i].timestamp != t
    ensures Before(d, t) == Before(c, t)
  {
    BeforeIsNearest(c, t);
    AfterIsNearest(c, t);
    BeforeIsNearest(d, t);
    var p' := Before(d, t);
    if p'.Some? {
      if p'.value !in c {
        StoredElsewhere(c, start, end, k, t, p'.value.timestamp);
      }
      if Before(c, t).Some? {
        SameInstant(d, p'.value, Before(c, t).value);
      }
    }
  }

  lemma SameInstant(d: seq<FundingEvent>, a: FundingEvent, b: FundingEvent)
    requires Chronological(d) && a in d && b in d
    ensures a.timestamp == b.timestamp ==> a == b
  {
  }

  /** The table once the first `k` gaps of a window have been filled without an error. */
  ghost predicate Interrupted(market: Market, rows: map<Key, Row>, symbol: string, start: int, end: int, k: nat,
                              stored: map<Key, Row>) {
    && ValidMarket(market) && Agrees(market, rows) && symbol in market
    && k <= |WindowGaps(rows, symbol, start, end)|
    && FillGaps(market[symbol], rows, symbol, WindowGaps(rows, symbol, start, end)[..k]) == Fill(stored, None)
  }

  lemma InterruptedRows(market: Market, rows: map<Key, Row>, symbol: string, start: int, end: int, k: nat,
                        stored: map<Key, Row>)
    requires Interrupted(market, rows, symbol, start, end, k, stored)
    ensures Agrees(market, stored)
    ensures forall t :: HasRow(stored, symbol, t) <==>
              HasRow(rows, symbol, t) ||
              (t in ToMap(market[symbol].rates) && InSomeGap(WindowGaps(rows, symbol, start, end)[..k], t))
    ensures FilledIn(Cached(rows, NAME, symbol, start, end), Cached(stored, NAME, symbol, start, end), start, end, k)
  {
    FillGapsAgrees(market, rows, symbol, WindowGaps(rows, symbol, start, end)[..k]);
    CachedRemote(market, rows, symbol, start, end);
    CachedRemote(market, stored, symbol, start, end);
    var c, d := Cached(rows, NAME, symbol, start, end), Cached(stored, NAME, symbol, start, end);
    forall ev | ev in d && ev !in c ensures StoredByGap(c, start, end, k, ev.timestamp) {
      forall i | 0 <= i < |c| ensures c[i].timestamp != ev.timestamp {
        assert c[i] in c;
      }
    }
  }

  lemma DeliversUnchanged(market: Market, rows: map<Key, Row>, symbol: string, start: int, end: int, k: nat,
                          stored: map<Key, Row>, t: int)
    requires Interrupted(market, rows, symbol, start, end, k, stored)
    requires t in ToMap(market[symbol].rates) && start <= t <= end
    ensures Delivers(stored, symbol, start, end, t) <==> Delivers(rows, symbol, start, end, t)
  {
    var gaps := WindowGaps(rows, symbol, start, end);
    var c, d := Cached(rows, NAME, symbol, start, end), Cached(stored, NAME, symbol, start, end);
    InterruptedRows(market, rows, symbol, start, end, k, stored);
    if HasRow(rows, symbol, t) {
    } else if InSomeGap(gaps[..k], t) {
      FirstGaps(gaps, k, t);
      RemoteGapCoverage(market, rows, symbol, start, end, t);
    } else {
      CachedAround(market, rows, symbol, start, end, t);
      CachedAround(market, stored, symbol, start, end, t);
      FillingKeepsVerdict(c, d, start, end, k, t);
    }
  }

  /** The cached rows of a window around an instant that has no row. */
  lemma CachedAround(market: Market, rows: map<Key, Row>, symbol: string, start: int, end: int, t: int)
    requires ValidMarket(market) && Agrees(market, rows) && symbol in market
    requires start <= t <= end && t in ToMap(market[symbol].rates) && !HasRow(rows, symbol, t)
    ensures var c := Cached(rows, NAME, symbol, start, end);
            && Chronological(c) && PositiveIntervals(c) && WithinWindow(c, start, end)
            && forall i :: 0 <= i < |c| ==> c[i].timestamp != t
  {
    CachedRemote(market, rows, symbol, start, end);
    var c := Cached(rows, NAME, symbol, start, end);
    forall i | 0 <= i < |c| ensures c[i].timestamp != t && c[i].intervalHours > 0 {
      assert c[i] in c;
    }
  }

  /** A fetch after an abort succeeds if and only if each rate in one of the gaps now left has a kline in that gap. */
  lemma RefetchSucceedsIff(market: Market, rows: map<Key, Row>, symbol: string, start: int, end: int, k: nat,
                           stored: map<Key, Row>)
    requires Interrupted(market, rows, symbol, start, end, k, stored)
    ensures Fetch(market, stored, symbol, start, end).result.Ok? <==>
            AllPriced(market[symbol], WindowGaps(stored, symbol, start, end))
  {
    FetchSucceedsIff(market, stored, symbol, start, end);
  }

  /**
   * However far an aborted fetch got: where the uninterrupted fetch succeeds, fetching again lists the same if and
   * only if each rate in one of the gaps now left has a kline in that gap, at most one interval back.
   */
  lemma RefetchAfterAbort(market: Market, rows: map<Key, Row>, symbol: string, start: int, end: int, k: nat,
                          stored: map<Key, Row>)
    requires Interrupted(market, rows, symbol, start, end, k, stored)
    requires Fetch(market, rows, symbol, start, end).result.Ok?
    ensures Fetch(market, stored, symbol, start, end).result == Fetch(market, rows, symbol, start, end).result <==>
            AllPriced(market[symbol], WindowGaps(stored, symbol, start, end))
  {
    RefetchSucceedsIff(market, rows, symbol, start, end, k, stored);
    if AllPriced(market[symbol], WindowGaps(stored, symbol, start, end)) {
      RefetchLists(market, rows, symbol, start, end, k, stored);
    }
  }

  lemma RefetchLists(market: Market, rows: map<Key, Row>, symbol: string, start: int, end: int, k: nat,
                     stored: map<Key, Row>)
    requires Interrupted(market, rows, symbol, start, end, k, stored)
    requires Fetch(market, rows, symbol, start, end).result.Ok? && Fetch(market, stored, symbol, start, end).result.Ok?
    ensures Fetch(market, stored, symbol, start, end).result == Fetch(market, rows, symbol, start, end).result
  {
    var whole := Fetch(market, rows, symbol, start, end).result;
    var again := Fetch(market, stored, symbol, start, end).result;
    InterruptedRows(market, rows, symbol, start, end, k, stored);
    FetchCharacterised(market, rows, symbol, start, end);
    FetchCharacterised(market, stored, symbol, start, end);
    forall ev ensures ev in whole.value <==> ev in again.value {
      if IsRemote(market[symbol], symbol, ev) && start <= ev.timestamp <= end {
        DeliversUnchanged(market, rows, symbol, start, end, k, stored, ev.timestamp);
      }
    }
    SameMembersSameList(whole.value, again.value);
  }

  /** With a kline at each event both succeed, and so list the same. */
  lemma RefetchOnTime(market: Market, rows: map<Key, Row>, symbol: string, start: int, end: int, k: nat,
                      stored: map<Key, Row>)
    requires Interrupted(market, rows, symbol, start, end, k, stored) && KlinesOnTime(market[symbol])
    ensures Fetch(market, rows, symbol, start, end).result.Ok?
    ensures Fetch(market, stored, symbol, start, end).result == Fetch(market, rows, symbol, start, end).result
  {
    InterruptedRows(market, rows, symbol, start, end, k, stored);
    FetchCharacterised(market, rows, symbol, start, end);
    FetchCharacterised(market, stored, symbol, start, end);
    RefetchLists(market, rows, symbol, start, end, k, stored);
  }

  // --- a fetch that cannot be repeated ---

  /** Two hourly events, each some minutes after its kline. */
  const LATE_RATES := [Stamped(360_000, 0.1), Stamped(6_840_000, 0.1)]
  const LATE: Market := map["BTCUSDT" := Listing(1, LATE_RATES, [Stamped(0, 0.1), Stamped(3_600_000, 0.1)])]

  const LATE_EVENTS := [EventAt("BTCUSDT", 360_000, Row(0.1, 0.1, 1)), EventAt("BTCUSDT", 6_840_000, Row(0.1, 0.1, 1))]

  lemma LateMaps()
    ensures ValidMarket(LATE) && Spaced(LATE["BTCUSDT"])
    ensures ToMap(LATE["BTCUSDT"].rates) == map[360_000 := 0.1, 6_840_000 := 0.1]
    ensures ToMap(LATE["BTCUSDT"].klines) == map[0 := 0.1, 3_600_000 := 0.1]
  {
    TwoRecords(LATE_RATES, 360_000, 6_840_000);
    TwoRecords(LATE["BTCUSDT"].klines, 0, 3_600_000);
  }

  lemma LateRows(t: int)
    ensures t == 360_000 || t == 6_840_000 ==> RemoteRow(LATE["BTCUSDT"], t) == Some(Row(0.1, 0.1, 1))
    ensures t != 360_000 && t != 6_840_000 ==> RemoteRow(LATE["BTCUSDT"], t) == None
  {
    var l := LATE["BTCUSDT"];
    LateMaps();
    if t == 360_000 {
      FloorIs(ToMap(l.klines), t, IntervalOf(l), 0);
    } else if t == 6_840_000 {
      FloorIs(ToMap(l.klines), t, IntervalOf(l), 3_600_000);
    }
  }

  lemma LatePriced(g: Range)
    requires g == Range(0, 7_200_000)
    ensures AllPriced(LATE["BTCUSDT"], [g])
  {
    var l := LATE["BTCUSDT"];
    LateMaps();
    forall t | t in ToMap(l.rates) && g.lo <= t <= g.hi ensures Priced(l, g, t) {
      var k := if t == 360_000 then 0 else 3_600_000;
      assert k in ToMap(l.klines) && g.lo <= k <= t && t - k <= IntervalOf(l);
    }
  }

  lemma LateCached(stored: map<Key, Row>)
    requires Agrees(LATE, stored)
    requires HasRow(stored, "BTCUSDT", 360_000) && HasRow(stored, "BTCUSDT", 6_840_000)
    ensures Cached(stored, NAME, "BTCUSDT", 0, 7_200_000) == LATE_EVENTS
  {
    CachedRemote(LATE, stored, "BTCUSDT", 0, 7_200_000);
    var c := Cached(stored, NAME, "BTCUSDT", 0, 7_200_000);
    forall ev ensures ev in c <==> ev in LATE_EVENTS {
      LateRows(ev.timestamp);
      LateEvent(ev);
    }
    SameMembersSameList(c, LATE_EVENTS);
  }

  lemma LateEvent(ev: FundingEvent)
    ensures ev in LATE_EVENTS <==>
            ev.symbol == "BTCUSDT" && RowOf(ev) == Row(0.1, 0.1, 1) &&
              (ev.timestamp == 360_000 || ev.timestamp == 6_840_000)
  {
  }

  /** Both events are stored by a fetch of [0, 7_200_000] into an empty table. */
  lemma LateStored(stored: map<Key, Row>, gaps: seq<Range>)
    requires gaps == [Range(0, 7_200_000)] && stored == FillGaps(LATE["BTCUSDT"], map[], "BTCUSDT", gaps).rows
    ensures FillGaps(LATE["BTCUSDT"], map[], "BTCUSDT", gaps) == Fill(stored, None)
    ensures Agrees(LATE, stored) && Cached(stored, NAME, "BTCUSDT", 0, 7_200_000) == LATE_EVENTS
  {
    LateMaps();
    LatePriced(gaps[0]);
    FillGapsOk(LATE["BTCUSDT"], map[], "BTCUSDT", gaps);
    FillGapsAgrees(LATE, map[], "BTCUSDT", gaps);
    OneGap(gaps, 360_000);
    OneGap(gaps, 6_840_000);
    LateCached(stored);
  }

  lemma LateGaps(cached: seq<FundingEvent>)
    requires cached == LATE_EVENTS
    ensures Gaps(cached, 0, 7_200_000) == [Range(3_960_000, 6_840_000)]
  {
    assert cached[..1] == [cached[0]];
    assert InteriorGaps(cached[..1]) == [];
  }

  lemma EmptyWindow(symbol: string, start: int, end: int)
    ensures Cached(map[], NAME, symbol, start, end) == [] &&
            WindowGaps(map[], symbol, start, end) == [Range(start, end)]
  {
    assert CachedTimes(map[], NAME, symbol, start, end) == {};
  }

  /** The first fetch lists and stores both events. */
  lemma LateFirst(stored: map<Key, Row>)
    requires stored == FillGaps(LATE["BTCUSDT"], map[], "BTCUSDT", WindowGaps(map[], "BTCUSDT", 0, 7_200_000)[..1]).rows
    ensures Interrupted(LATE, map[], "BTCUSDT", 0, 7_200_000, 1, stored) && Spaced(LATE["BTCUSDT"])
    ensures Cached(stored, NAME, "BTCUSDT", 0, 7_200_000) == LATE_EVENTS
    ensures Fetch(LATE, map[], "BTCUSDT", 0, 7_200_000) == Outcome(Ok(LATE_EVENTS), stored)
  {
    var gaps := WindowGaps(map[], "BTCUSDT", 0, 7_200_000);
    LateMaps();
    EmptyWindow("BTCUSDT", 0, 7_200_000);
    assert gaps[..1] == gaps;
    LateStored(stored, gaps);
  }

  lemma LateKline()
    ensures forall k :: k in Near(ToMap(LATE["BTCUSDT"].klines), 6_840_000, IntervalOf(LATE["BTCUSDT"])) ==>
            k < 3_960_000
  {
    LateMaps();
  }

  /**
   * Both events have a mark price, and a fetch into an empty table succeeds. Yet once it has filled its only gap, be it
   * interrupted there or not, fetching again fails: the gap left between the two rows starts after the second one's
   * kline.
   */
  lemma RefetchCanFail(stored: map<Key, Row>)
    requires stored == FillGaps(LATE["BTCUSDT"], map[], "BTCUSDT", WindowGaps(map[], "BTCUSDT", 0, 7_200_000)[..1]).rows
    ensures Interrupted(LATE, map[], "BTCUSDT", 0, 7_200_000, 1, stored) && Spaced(LATE["BTCUSDT"])
    ensures Fetch(LATE, map[], "BTCUSDT", 0, 7_200_000) == Outcome(Ok(LATE_EVENTS), stored)
    ensures Fetch(LATE, stored, "BTCUSDT", 0, 7_200_000).result.Err?
  {
    LateFirst(stored);
    LateAgain(stored);
  }

  lemma LateAgain(stored: map<Key, Row>)
    requires Cached(stored, NAME, "BTCUSDT", 0, 7_200_000) == LATE_EVENTS
    ensures Fetch(LATE, stored, "BTCUSDT", 0, 7_200_000).result.Err?
  {
    LateMaps();
    LateGaps(Cached(stored, NAME, "BTCUSDT", 0, 7_200_000));
    LateKline();
    EarlierKlineFailsFetch(LATE, stored, "BTCUSDT", 0, 7_200_000, Range(3_960_000, 6_840_000), 6_840_000);
  }
}
