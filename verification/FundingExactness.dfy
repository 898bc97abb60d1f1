/** When the remote events are at least one interval apart: exactly which of them a fetch returns. */
module FundingExactness {
  import opened Wrappers
  import opened RemoteHistory
  import opened FundingRateCache
  import opened FundingFetch
  import opened FundingTheorems

  ghost predicate Spaced(l: Listing) {
    forall t, u :: t in ToMap(l.rates) && u in ToMap(l.rates) && t < u ==> u - t >= l.intervalHours * MS_PER_HOUR
  }

  /** 1 when the first remote event of the window falls in a start slack too short to be a leading gap. */
  function LostAtStart(cached: seq<FundingEvent>, window: seq<FundingEvent>, start: int): nat {
    if cached != [] && window != [] && window[0].timestamp < cached[0].timestamp &&
       cached[0].timestamp - start <= Tolerance(cached[0])
    then 1 else 0
  }

  /** 1 when the last remote event of the window falls in an end slack too short to be a trailing gap. */
  function LostAtEnd(cached: seq<FundingEvent>, window: seq<FundingEvent>, end: int): nat {
    if cached != [] && window != [] && cached[|cached| - 1].timestamp < window[|window| - 1].timestamp &&
       end - cached[|cached| - 1].timestamp <= Tolerance(cached[|cached| - 1])
    then 1 else 0
  }

  /** The cached rows `c` of a window among its remote events `w`, `step` milliseconds or more apart. */
  ghost predicate Inside(c: seq<FundingEvent>, w: seq<FundingEvent>, start: int, end: int, step: int) {
    && Chronological(c) && Chronological(w) && WithinWindow(w, start, end)
    && (forall ev :: ev in c ==> ev in w && Interval(ev) == step)
    && (forall i, j :: 0 <= i < j < |w| ==> w[j].timestamp - w[i].timestamp >= step)
    && step > 0
  }

  /** An uncached remote event is passed over only at an end of the window, inside a short slack. */
  lemma OnlyEdgesAreLost(c: seq<FundingEvent>, w: seq<FundingEvent>, start: int, end: int, step: int, i: nat)
    requires Inside(c, w, start, end, step) && i < |w| && w[i] !in c
    ensures PassedOver(Before(c, w[i].timestamp), After(c, w[i].timestamp), start, end, w[i].timestamp) <==>
            (i == 0 && LostAtStart(c, w, start) == 1) || (i == |w| - 1 && LostAtEnd(c, w, end) == 1)
  {
    var t := w[i].timestamp;
    forall k | 0 <= k < |c| ensures c[k].timestamp != t {
      var j := IndexOf(c[k], w);
    }
    BeforeIsNearest(c, t);
    AfterIsNearest(c, t);
    match (Before(c, t), After(c, t)) {
      case (None, None) =>
      case (None, Some(f)) =>
        FirstAfter(c, t, f);
        LostBeforeFirst(c, w, start, end, step, i);
      case (Some(l), None) =>
        LastBefore(c, t, l);
        LostAfterLast(c, w, start, end, step, i);
      case (Some(l), Some(f)) =>
        var j := IndexOf(l, w);
        var k := IndexOf(f, w);
    }
  }

  lemma LostBeforeFirst(c: seq<FundingEvent>, w: seq<FundingEvent>, start: int, end: int, step: int, i: nat)
    requires Inside(c, w, start, end, step) && i < |w| && c != [] && w[i].timestamp < c[0].timestamp
    ensures LostAtEnd(c, w, end) == 1 ==> i < |w| - 1
    ensures c[0].timestamp - start <= Tolerance(c[0]) <==> i == 0 && LostAtStart(c, w, start) == 1
  {
    var k := IndexOf(c[0], w);
    assert i > 0 ==> w[i].timestamp - w[0].timestamp >= step;
  }

  lemma LostAfterLast(c: seq<FundingEvent>, w: seq<FundingEvent>, start: int, end: int, step: int, i: nat)
    requires Inside(c, w, start, end, step) && i < |w| && c != [] && c[|c| - 1].timestamp < w[i].timestamp
    ensures LostAtStart(c, w, start) == 1 ==> i > 0
    ensures w[i].timestamp >= c[|c| - 1].timestamp + step
    ensures end - c[|c| - 1].timestamp <= Tolerance(c[|c| - 1]) <==> i == |w| - 1 && LostAtEnd(c, w, end) == 1
  {
    var k := IndexOf(c[|c| - 1], w);
    assert i < |w| - 1 ==> w[|w| - 1].timestamp - w[i].timestamp >= step;
  }

  lemma IndexOf(ev: FundingEvent, w: seq<FundingEvent>) returns (i: nat)
    requires ev in w
    ensures i < |w| && w[i] == ev
  {
    i :| 0 <= i < |w| && w[i] == ev;
  }

  lemma FirstAfter(c: seq<FundingEvent>, t: int, f: FundingEvent)
    requires Chronological(c) && Before(c, t) == None && After(c, t) == Some(f)
    requires forall k :: 0 <= k < |c| ==> c[k].timestamp != t
    ensures c != [] && c[0] == f
  {
    BeforeIsNearest(c, t);
  }

  lemma LastBefore(c: seq<FundingEvent>, t: int, l: FundingEvent)
    requires Chronological(c) && Before(c, t) == Some(l) && After(c, t) == None
    requires forall k :: 0 <= k < |c| ==> c[k].timestamp != t
    ensures c != [] && c[|c| - 1] == l
  {
    AfterIsNearest(c, t);
  }

  /** The window's cached rows sit among its remote events, one interval or more apart. */
  lemma CachedInside(market: Market, rows: map<Key, Row>, symbol: string, start: int, end: int)
    requires ValidMarket(market) && Agrees(market, rows) && symbol in market && Spaced(market[symbol])
    ensures Inside(Cached(rows, NAME, symbol, start, end), RemoteWindow(market[symbol], symbol, start, end),
                   start, end, market[symbol].intervalHours * MS_PER_HOUR)
  {
    var l := market[symbol];
    var c, w := Cached(rows, NAME, symbol, start, end), RemoteWindow(l, symbol, start, end);
    CachedRemote(market, rows, symbol, start, end);
    RemoteWindowHas(l, symbol, start, end);
    assert forall i :: 0 <= i < |w| ==> w[i] in w;
    assert l.intervalHours * MS_PER_HOUR > 0;
  }

  /** The remote window without its lost ends. */
  function Kept(cached: seq<FundingEvent>, window: seq<FundingEvent>, start: int, end: int): seq<FundingEvent>
    requires LostAtStart(cached, window, start) + LostAtEnd(cached, window, end) <= |window|
  {
    window[LostAtStart(cached, window, start)..|window| - LostAtEnd(cached, window, end)]
  }

  lemma LostEndsFit(c: seq<FundingEvent>, w: seq<FundingEvent>, start: int, end: int, step: int)
    requires Inside(c, w, start, end, step)
    ensures LostAtStart(c, w, start) + LostAtEnd(c, w, end) <= |w|
    ensures LostAtStart(c, w, start) == 1 ==> step <= c[0].timestamp - start <= step * 3 / 2
    ensures LostAtEnd(c, w, end) == 1 ==> step <= end - c[|c| - 1].timestamp <= step * 3 / 2
  {
    if c != [] {
      var j := IndexOf(c[0], w);
      var k := IndexOf(c[|c| - 1], w);
    }
  }

  /** Cached events are never among the lost ends. */
  lemma CachedIsKept(c: seq<FundingEvent>, w: seq<FundingEvent>, start: int, end: int, step: int, i: nat)
    requires Inside(c, w, start, end, step) && i < |w| && w[i] in c
    ensures LostAtStart(c, w, start) <= i < |w| - LostAtEnd(c, w, end)
  {
    var j := IndexOf(w[i], c);
  }

  /** The index form of what a fetch delivers of the remote window. */
  lemma DeliversKept(market: Market, rows: map<Key, Row>, symbol: string, start: int, end: int, i: nat)
    requires ValidMarket(market) && Agrees(market, rows) && symbol in market && Spaced(market[symbol])
    requires i < |RemoteWindow(market[symbol], symbol, start, end)|
    ensures var w := RemoteWindow(market[symbol], symbol, start, end);
            var c := Cached(rows, NAME, symbol, start, end);
            Delivers(rows, symbol, start, end, w[i].timestamp) <==>
              LostAtStart(c, w, start) <= i < |w| - LostAtEnd(c, w, end)
  {
    var l := market[symbol];
    var c, w := Cached(rows, NAME, symbol, start, end), RemoteWindow(l, symbol, start, end);
    var step := l.intervalHours * MS_PER_HOUR;
    CachedInside(market, rows, symbol, start, end);
    CachedRemote(market, rows, symbol, start, end);
    RemoteWindowHas(l, symbol, start, end);
    assert w[i] in w;
    if w[i] in c {
      CachedIsKept(c, w, start, end, step, i);
    } else {
      OnlyEdgesAreLost(c, w, start, end, step, i);
    }
  }

  /** An event of a chronological list is in a slice if and only if its position is. */
  lemma SliceHas(w: seq<FundingEvent>, a: nat, b: nat, i: nat)
    requires Chronological(w) && a <= b <= |w| && i < |w|
    ensures w[i] in w[a..b] <==> a <= i < b
  {
    if w[i] in w[a..b] {
      var j := IndexOf(w[i], w[a..b]);
      assert w[a + j] == w[i];
    }
    if a <= i < b {
      assert w[a..b][i - a] == w[i];
    }
  }

  lemma KeptAt(c: seq<FundingEvent>, w: seq<FundingEvent>, start: int, end: int, i: nat)
    requires Chronological(w) && i < |w| && LostAtStart(c, w, start) + LostAtEnd(c, w, end) <= |w|
    ensures w[i] in Kept(c, w, start, end) <==> LostAtStart(c, w, start) <= i < |w| - LostAtEnd(c, w, end)
  {
    SliceHas(w, LostAtStart(c, w, start), |w| - LostAtEnd(c, w, end), i);
  }

  lemma KeptIsPart(c: seq<FundingEvent>, w: seq<FundingEvent>, start: int, end: int, ev: FundingEvent)
    requires LostAtStart(c, w, start) + LostAtEnd(c, w, end) <= |w|
    ensures ev in Kept(c, w, start, end) ==> ev in w
  {
  }

  /** The cached rows and the remote events of a window. */
  ghost predicate WindowOf(market: Market, rows: map<Key, Row>, symbol: string, start: int, end: int,
                           c: seq<FundingEvent>, w: seq<FundingEvent>)
  {
    && ValidMarket(market) && Agrees(market, rows) && symbol in market && Spaced(market[symbol])
    && c == Cached(rows, NAME, symbol, start, end) && w == RemoteWindow(market[symbol], symbol, start, end)
    && LostAtStart(c, w, start) + LostAtEnd(c, w, end) <= |w|
  }

  lemma KeptHas(market: Market, rows: map<Key, Row>, symbol: string, start: int, end: int,
                c: seq<FundingEvent>, w: seq<FundingEvent>, ev: FundingEvent)
    requires WindowOf(market, rows, symbol, start, end, c, w)
    ensures ev in Kept(c, w, start, end) <==>
            IsRemote(market[symbol], symbol, ev) && start <= ev.timestamp <= end &&
              Delivers(rows, symbol, start, end, ev.timestamp)
  {
    RemoteWindowHas(market[symbol], symbol, start, end);
    KeptIsPart(c, w, start, end, ev);
    if ev in w {
      var i := IndexOf(ev, w);
      KeptAt(c, w, start, end, i);
      DeliversKept(market, rows, symbol, start, end, i);
    }
  }

  lemma FetchListsKept(market: Market, rows: map<Key, Row>, symbol: string, start: int, end: int,
                       c: seq<FundingEvent>, w: seq<FundingEvent>, value: seq<FundingEvent>)
    requires WindowOf(market, rows, symbol, start, end, c, w) && Chronological(value)
    requires forall ev :: ev in value <==>
               IsRemote(market[symbol], symbol, ev) && start <= ev.timestamp <= end &&
                 Delivers(rows, symbol, start, end, ev.timestamp)
    ensures value == Kept(c, w, start, end)
  {
    var kept := Kept(c, w, start, end);
    assert Chronological(kept) by {
      RemoteWindowHas(market[symbol], symbol, start, end);
    }
    forall ev ensures ev in value <==> ev in kept {
      KeptHas(market, rows, symbol, start, end, c, w, ev);
    }
    SameMembersSameList(value, kept);
  }

  /**
   * A successful fetch returns the remote window in order, except at most one event just before the first
   * cached row and one just after the last, each lost exactly when that end's slack is too short to be a gap.
   */
  lemma FetchExact(market: Market, rows: map<Key, Row>, symbol: string, start: int, end: int)
    requires ValidMarket(market) && Agrees(market, rows) && symbol in market && Spaced(market[symbol])
    ensures var c, w := Cached(rows, NAME, symbol, start, end), RemoteWindow(market[symbol], symbol, start, end);
            var r := Fetch(market, rows, symbol, start, end).result;
            && LostAtStart(c, w, start) + LostAtEnd(c, w, end) <= |w|
            && (r.Ok? ==> r.value == Kept(c, w, start, end))
            && (KlinesOnTime(market[symbol]) ==> r.Ok?)
  {
    var c, w := Cached(rows, NAME, symbol, start, end), RemoteWindow(market[symbol], symbol, start, end);
    CachedInside(market, rows, symbol, start, end);
    LostEndsFit(c, w, start, end, market[symbol].intervalHours * MS_PER_HOUR);
    FetchCharacterised(market, rows, symbol, start, end);
    if Fetch(market, rows, symbol, start, end).result.Ok? {
      FetchListsKept(market, rows, symbol, start, end, c, w, Fetch(market, rows, symbol, start, end).result.value);
    }
  }

  /** An event is lost only where the slack measures between one and one and a half intervals. */
  lemma LossNeedsShortSlack(market: Market, rows: map<Key, Row>, symbol: string, start: int, end: int)
    requires ValidMarket(market) && Agrees(market, rows) && symbol in market && Spaced(market[symbol])
    ensures var c, w := Cached(rows, NAME, symbol, start, end), RemoteWindow(market[symbol], symbol, start, end);
            var step := market[symbol].intervalHours * MS_PER_HOUR;
            && (LostAtStart(c, w, start) == 1 ==> step <= c[0].timestamp - start <= step * 3 / 2)
            && (LostAtEnd(c, w, end) == 1 ==> step <= end - c[|c| - 1].timestamp <= step * 3 / 2)
  {
    CachedInside(market, rows, symbol, start, end);
    LostEndsFit(Cached(rows, NAME, symbol, start, end), RemoteWindow(market[symbol], symbol, start, end),
                start, end, market[symbol].intervalHours * MS_PER_HOUR);
  }

  /** With on-time klines, the fetch is the whole remote window if and only if neither end loses its event. */
  lemma FetchIsWholeWindowIff(market: Market, rows: map<Key, Row>, symbol: string, start: int, end: int)
    requires ValidMarket(market) && Agrees(market, rows) && symbol in market
    requires Spaced(market[symbol]) && KlinesOnTime(market[symbol])
    ensures var c, w := Cached(rows, NAME, symbol, start, end), RemoteWindow(market[symbol], symbol, start, end);
            Fetch(market, rows, symbol, start, end).result == Ok(w) <==>
              LostAtStart(c, w, start) == 0 && LostAtEnd(c, w, end) == 0
  {
    FetchExact(market, rows, symbol, start, end);
    var c, w := Cached(rows, NAME, symbol, start, end), RemoteWindow(market[symbol], symbol, start, end);
    assert w[0..|w|] == w;
    assert |Kept(c, w, start, end)| == |w| - LostAtStart(c, w, start) - LostAtEnd(c, w, end);
  }

  // --- fetches that lose an event ---

  /** A successful fetch lists an event at `t` if and only if the remote one has a mark price and is delivered. */
  lemma ListsIff(market: Market, rows: map<Key, Row>, symbol: string, start: int, end: int, t: int)
    requires ValidMarket(market) && Agrees(market, rows) && symbol in market && start <= t <= end
    requires Fetch(market, rows, symbol, start, end).result.Ok?
    ensures HasEventAt(Fetch(market, rows, symbol, start, end).result.value, t) <==>
            RemoteRow(market[symbol], t).Some? && Delivers(rows, symbol, start, end, t)
  {
    var value := Fetch(market, rows, symbol, start, end).result.value;
    FetchCharacterised(market, rows, symbol, start, end);
    if HasEventAt(value, t) {
      var i :| 0 <= i < |value| && value[i].timestamp == t;
      assert value[i] in value;
    }
    if RemoteRow(market[symbol], t).Some? && Delivers(rows, symbol, start, end, t) {
      var ev := EventAt(symbol, t, RemoteRow(market[symbol], t).value);
      var i := IndexOf(ev, value);
    }
  }

  /** An uncached event that comes less than an interval after the row before it is never fetched. */
  lemma EarlyEventIsNotFetched(market: Market, rows: map<Key, Row>, symbol: string, start: int, end: int, t: int,
                               l: FundingEvent)
    requires ValidMarket(market) && Agrees(market, rows) && symbol in market && start <= t <= end
    requires Fetch(market, rows, symbol, start, end).result.Ok? && !HasRow(rows, symbol, t)
    requires Before(Cached(rows, NAME, symbol, start, end), t) == Some(l) && t < l.timestamp + Interval(l)
    ensures !HasEventAt(Fetch(market, rows, symbol, start, end).result.value, t)
  {
    ListsIff(market, rows, symbol, start, end, t);
  }

  /**
   * An uncached event that comes an interval or more after the last row is fetched if and only if the window is long
   * enough.
   */
  lemma EndEventIsFetchedIff(market: Market, rows: map<Key, Row>, symbol: string, start: int, end: int, t: int,
                             l: FundingEvent)
    requires ValidMarket(market) && Agrees(market, rows) && symbol in market && start <= t <= end
    requires Fetch(market, rows, symbol, start, end).result.Ok? && !HasRow(rows, symbol, t) &&
             RemoteRow(market[symbol], t).Some?
    requires var c := Cached(rows, NAME, symbol, start, end); Before(c, t) == Some(l) && After(c, t) == None
    requires t >= l.timestamp + Interval(l)
    ensures HasEventAt(Fetch(market, rows, symbol, start, end).result.value, t) <==> end - l.timestamp > Tolerance(l)
  {
    ListsIff(market, rows, symbol, start, end, t);
  }

  /** An hourly symbol with three rates, the middle one at `mid`, each with a kline of its own. */
  function ThreeRates(mid: int): Market {
    var h := [Stamped(0, 0.1), Stamped(mid, 0.1), Stamped(7_200_000, 0.1)];
    map["BTCUSDT" := Listing(1, h, h)]
  }

  function StoredAt(times: set<int>): map<Key, Row> {
    map t | t in times :: Key(NAME, "BTCUSDT", t) := Row(0.1, 0.1, 1)
  }

  lemma ThreeRatesValid(mid: int)
    requires 0 < mid < 7_200_000
    ensures ValidMarket(ThreeRates(mid)) && KlinesOnTime(ThreeRates(mid)["BTCUSDT"])
    ensures forall t :: t in {0, mid, 7_200_000} ==> RemoteRow(ThreeRates(mid)["BTCUSDT"], t) == Some(Row(0.1, 0.1, 1))
  {
    var l := ThreeRates(mid)["BTCUSDT"];
    ThreeRatesMap(l.rates, mid);
    forall t | t in {0, mid, 7_200_000} ensures RemoteRow(l, t) == Some(Row(0.1, 0.1, 1)) {
      FloorIs(ToMap(l.klines), t, MS_PER_HOUR, t);
    }
  }

  lemma ThreeRatesMap(h: seq<Stamped<real>>, mid: int)
    requires h == [Stamped(0, 0.1), Stamped(mid, 0.1), Stamped(7_200_000, 0.1)]
    ensures ToMap(h) == map[0 := 0.1, mid := 0.1, 7_200_000 := 0.1]
  {
    var h1, h2 := h[1..], h[2..];
    assert h1[1..] == h2 && h2[1..] == [];
    assert ToMap(h2) == map[7_200_000 := 0.1];
    assert ToMap(h1) == map[mid := 0.1] + ToMap(h2);
  }

  lemma ThreeRatesStored(mid: int, times: set<int>, end: int)
    requires 0 < mid < 7_200_000 && times <= {0, mid, 7_200_000}
    ensures ValidMarket(ThreeRates(mid)) && Agrees(ThreeRates(mid), StoredAt(times)) &&
            KlinesOnTime(ThreeRates(mid)["BTCUSDT"])
    ensures RemoteRow(ThreeRates(mid)["BTCUSDT"], mid).Some?
    ensures var c := Cached(StoredAt(times), NAME, "BTCUSDT", 0, end);
            && Chronological(c) && (forall ev :: ev in c ==> ev.timestamp in times && ev.intervalHours == 1)
            && (forall t :: t in times && 0 <= t <= end ==> EventAt("BTCUSDT", t, Row(0.1, 0.1, 1)) in c)
  {
    ThreeRatesValid(mid);
    StoredCached(times, end);
  }

  lemma StoredCached(times: set<int>, end: int)
    ensures var c := Cached(StoredAt(times), NAME, "BTCUSDT", 0, end);
            && Chronological(c) && (forall ev :: ev in c ==> ev.timestamp in times && ev.intervalHours == 1)
            && (forall t :: t in times && 0 <= t <= end ==> EventAt("BTCUSDT", t, Row(0.1, 0.1, 1)) in c)
  {
    var rows := StoredAt(times);
    var c := Cached(rows, NAME, "BTCUSDT", 0, end);
    CachedOrdered(rows, NAME, "BTCUSDT", 0, end);
    forall ev | ev in c ensures ev.timestamp in times && ev.intervalHours == 1 {
      CachedHas(rows, NAME, "BTCUSDT", 0, end, ev);
    }
    forall t | t in times && 0 <= t <= end ensures EventAt("BTCUSDT", t, Row(0.1, 0.1, 1)) in c {
      CachedHas(rows, NAME, "BTCUSDT", 0, end, EventAt("BTCUSDT", t, Row(0.1, 0.1, 1)));
    }
  }

  /** An event arriving early, be it by a millisecond, is skipped between two cached ones two intervals apart. */
  lemma EarlyEventIsSkipped(mid: int, times: set<int>)
    requires 0 < mid < 3_600_000 && times == {0, 7_200_000}
    ensures RemoteRow(ThreeRates(mid)["BTCUSDT"], mid).Some? && Agrees(ThreeRates(mid), StoredAt(times))
    ensures var r := Fetch(ThreeRates(mid), StoredAt(times), "BTCUSDT", 0, 7_200_000).result;
            r.Ok? && !HasEventAt(r.value, mid)
  {
    var market, rows := ThreeRates(mid), StoredAt(times);
    ThreeRatesStored(mid, times, 7_200_000);
    var c := Cached(rows, NAME, "BTCUSDT", 0, 7_200_000);
    SparseNeighbours(c, mid);
    FetchCharacterised(market, rows, "BTCUSDT", 0, 7_200_000);
    EarlyEventIsNotFetched(market, rows, "BTCUSDT", 0, 7_200_000, mid, Before(c, mid).value);
  }

  lemma SparseNeighbours(c: seq<FundingEvent>, t: int)
    requires Chronological(c) && 0 < t < 7_200_000
    requires forall ev :: ev in c ==> ev.timestamp == 0 || ev.timestamp == 7_200_000
    requires exists ev :: ev in c && ev.timestamp == 0
    ensures Before(c, t).Some? && Before(c, t).value in c && Before(c, t).value.timestamp == 0
    ensures After(c, t).Some? ==> After(c, t).value in c && After(c, t).value.timestamp == 7_200_000
  {
    BeforeIsNearest(c, t);
    AfterIsNearest(c, t);
  }

  /** A punctual event one interval after the last cached row is lost while the window ends within 1.5 intervals. */
  lemma ShortEndSlackLosesEvent(end: int, times: set<int>)
    requires 3_600_000 <= end < 7_200_000 && times == {0}
    ensures RemoteRow(ThreeRates(3_600_000)["BTCUSDT"], 3_600_000).Some? &&
            Agrees(ThreeRates(3_600_000), StoredAt(times))
    ensures var r := Fetch(ThreeRates(3_600_000), StoredAt(times), "BTCUSDT", 0, end).result;
            r.Ok? && (HasEventAt(r.value, 3_600_000) <==> end > 5_400_000)
  {
    var market, rows := ThreeRates(3_600_000), StoredAt(times);
    ThreeRatesStored(3_600_000, times, end);
    var c := Cached(rows, NAME, "BTCUSDT", 0, end);
    SparseNeighbours(c, 3_600_000);
    FetchCharacterised(market, rows, "BTCUSDT", 0, end);
    EndEventIsFetchedIff(market, rows, "BTCUSDT", 0, end, 3_600_000, Before(c, 3_600_000).value);
  }
}
