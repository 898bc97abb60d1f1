/** When a fetch succeeds: every rate it asks for needs a kline inside the gap that asks for it. */
module FundingSuccess {
  import opened Wrappers
  import opened RemoteHistory
  import opened FundingRateCache
  import opened FundingFetch
  import opened FundingTheorems

  function IntervalOf(l: Listing): int {
    l.intervalHours * MS_PER_HOUR
  }

  /** Some kline that opens within the gap lies at most one interval before `t`. */
  ghost predicate Priced(l: Listing, g: Range, t: int) {
    exists k :: k in ToMap(l.klines) && g.lo <= k <= t && t - k <= IntervalOf(l)
  }

  ghost predicate GapPriced(l: Listing, g: Range) {
    forall t :: t in ToMap(l.rates) && g.lo <= t <= g.hi ==> Priced(l, g, t)
  }

  ghost predicate AllPriced(l: Listing, gaps: seq<Range>) {
    forall i :: 0 <= i < |gaps| ==> GapPriced(l, gaps[i])
  }

  lemma PricedIsFound(l: Listing, g: Range, t: int)
    requires l.intervalHours > 0 && g.lo <= t <= g.hi
    ensures FloorKline(Within(ToMap(l.klines), g.lo, g.hi), t, IntervalOf(l)).Some? <==> Priced(l, g, t)
  {
    var near := Near(Within(ToMap(l.klines), g.lo, g.hi), t, IntervalOf(l));
    if Priced(l, g, t) {
      var k :| k in ToMap(l.klines) && g.lo <= k <= t && t - k <= IntervalOf(l);
      assert k in near;
    }
    if near != {} {
      var k :| k in near;
      assert k in ToMap(l.klines) && g.lo <= k <= t && t - k <= IntervalOf(l);
    }
  }

  ghost predicate AllFound(rates: seq<Stamped<real>>, klines: map<int, real>, tolerance: int) {
    forall i :: 0 <= i < |rates| ==> FloorKline(klines, rates[i].time, tolerance).Some?
  }

  lemma {:induction false} MergedOk(symbol: string, rates: seq<Stamped<real>>, klines: map<int, real>,
                                    intervalHours: int)
    ensures Merged(symbol, rates, klines, intervalHours).Ok? <==> AllFound(rates, klines, intervalHours * MS_PER_HOUR)
  {
    if rates != [] {
      var front, last := rates[..|rates| - 1], rates[|rates| - 1];
      MergedOk(symbol, front, klines, intervalHours);
      AllFoundNext(front, last, klines, intervalHours * MS_PER_HOUR);
      assert rates == front + [last];
    }
  }

  lemma AllFoundNext(front: seq<Stamped<real>>, last: Stamped<real>, klines: map<int, real>, tolerance: int)
    ensures AllFound(front + [last], klines, tolerance) <==>
            AllFound(front, klines, tolerance) && FloorKline(klines, last.time, tolerance).Some?
  {
    var all := front + [last];
    assert all[|front|] == last && forall i :: 0 <= i < |front| ==> all[i] == front[i];
  }

  /** The error names the first rate without a mark price. */
  lemma {:induction false} MergedError(symbol: string, rates: seq<Stamped<real>>, klines: map<int, real>,
                                       intervalHours: int) returns (i: nat)
    requires Merged(symbol, rates, klines, intervalHours).Err?
    ensures i < |rates| && Merged(symbol, rates, klines, intervalHours) == Err(MissingMarkPrice(rates[i].time))
    ensures FloorKline(klines, rates[i].time, intervalHours * MS_PER_HOUR).None?
    ensures AllFound(rates[..i], klines, intervalHours * MS_PER_HOUR)
  {
    var front := rates[..|rates| - 1];
    if Merged(symbol, front, klines, intervalHours).Err? {
      i := MergedError(symbol, front, klines, intervalHours);
      assert front[..i] == rates[..i];
    } else {
      i := |rates| - 1;
      MergedOk(symbol, front, klines, intervalHours);
    }
  }

  lemma GapEventsOk(l: Listing, symbol: string, g: Range)
    requires ValidListing(l)
    ensures GapEvents(l, symbol, g).Ok? <==> GapPriced(l, g)
  {
    var rates, klines := InRange(l.rates, g.lo, g.hi), Within(ToMap(l.klines), g.lo, g.hi);
    MergedOk(symbol, rates, klines, l.intervalHours);
    if GapPriced(l, g) {
      forall i | 0 <= i < |rates| ensures FloorKline(klines, rates[i].time, IntervalOf(l)).Some? {
        RangeTimes(l.rates, g.lo, g.hi, rates[i].time);
        PricedIsFound(l, g, rates[i].time);
      }
    }
    if AllFound(rates, klines, IntervalOf(l)) {
      forall t | t in ToMap(l.rates) && g.lo <= t <= g.hi ensures Priced(l, g, t) {
        RangeTimes(l.rates, g.lo, g.hi, t);
        var i :| 0 <= i < |rates| && rates[i].time == t;
        PricedIsFound(l, g, t);
      }
    }
  }

  lemma {:induction false} FillGapsOk(l: Listing, rows: map<Key, Row>, symbol: string, gaps: seq<Range>)
    requires ValidListing(l)
    ensures FillGaps(l, rows, symbol, gaps).error.None? <==> AllPriced(l, gaps)
    decreases |gaps|
  {
    if gaps != [] {
      GapEventsOk(l, symbol, gaps[0]);
      assert AllPriced(l, gaps) <==> GapPriced(l, gaps[0]) && AllPriced(l, gaps[1..]) by {
        assert forall i :: 0 <= i < |gaps[1..]| ==> gaps[1..][i] == gaps[i + 1];
        assert forall i :: 0 < i < |gaps| ==> gaps[i] == gaps[1..][i - 1];
      }
      var r := GapEvents(l, symbol, gaps[0]);
      if r.Ok? {
        FillGapsOk(l, Upserted(rows, NAME, symbol, r.value), symbol, gaps[1..]);
      }
    }
  }

  /**
   * A fetch of a listed symbol succeeds if and only if every rate in a gap has a kline in that gap, close before it.
   */
  lemma FetchSucceedsIff(market: Market, rows: map<Key, Row>, symbol: string, start: int, end: int)
    requires ValidMarket(market)
    ensures Fetch(market, rows, symbol, start, end).result.Ok? <==>
            symbol in market && AllPriced(market[symbol], WindowGaps(rows, symbol, start, end))
  {
    if symbol in market {
      FillGapsOk(market[symbol], rows, symbol, WindowGaps(rows, symbol, start, end));
    }
  }

  /** A gap fails the fetch as soon as one of its rates takes its mark price from a kline that opens before the gap. */
  lemma EarlierKlineFailsFetch(market: Market, rows: map<Key, Row>, symbol: string, start: int, end: int, g: Range,
                               t: int)
    requires ValidMarket(market) && symbol in market && g in WindowGaps(rows, symbol, start, end)
    requires t in ToMap(market[symbol].rates) && g.lo <= t <= g.hi
    requires forall k :: k in Near(ToMap(market[symbol].klines), t, IntervalOf(market[symbol])) ==> k < g.lo
    ensures Fetch(market, rows, symbol, start, end).result.Err?
  {
    var l, gaps := market[symbol], WindowGaps(rows, symbol, start, end);
    var i :| 0 <= i < |gaps| && gaps[i] == g;
    FetchSucceedsIff(market, rows, symbol, start, end);
    OnePriced(l, gaps, i, t);
    NotPriced(l, g, t);
  }

  lemma OnePriced(l: Listing, gaps: seq<Range>, i: nat, t: int)
    requires i < |gaps| && t in ToMap(l.rates) && gaps[i].lo <= t <= gaps[i].hi
    ensures AllPriced(l, gaps) ==> Priced(l, gaps[i], t)
  {
    if AllPriced(l, gaps) {
      assert GapPriced(l, gaps[i]);
    }
  }

  lemma NotPriced(l: Listing, g: Range, t: int)
    requires forall k :: k in Near(ToMap(l.klines), t, IntervalOf(l)) ==> k < g.lo
    ensures !Priced(l, g, t)
  {
    assert forall k :: k in ToMap(l.klines) && k <= t && t - k <= IntervalOf(l) ==>
                         k in Near(ToMap(l.klines), t, IntervalOf(l));
  }

  // --- which error ---

  /** The earliest rate of the gap that has no kline close before it in the gap. */
  ghost predicate FirstUnpriced(l: Listing, g: Range, t: int) {
    && t in ToMap(l.rates) && g.lo <= t <= g.hi && !Priced(l, g, t)
    && forall u :: u in ToMap(l.rates) && g.lo <= u < t ==> Priced(l, g, u)
  }

  lemma GapErrorIs(l: Listing, symbol: string, g: Range) returns (t: int)
    requires ValidListing(l) && !GapPriced(l, g)
    ensures FirstUnpriced(l, g, t) && GapEvents(l, symbol, g) == Err(MissingMarkPrice(t))
  {
    var rates, klines := InRange(l.rates, g.lo, g.hi), Within(ToMap(l.klines), g.lo, g.hi);
    GapEventsOk(l, symbol, g);
    var i := MergedError(symbol, rates, klines, l.intervalHours);
    t := rates[i].time;
    RangeTimes(l.rates, g.lo, g.hi, t);
    PricedIsFound(l, g, t);
    InRangeOrdered(l.rates, g.lo, g.hi);
    forall u | u in ToMap(l.rates) && g.lo <= u < t ensures Priced(l, g, u) {
      RangeTimes(l.rates, g.lo, g.hi, u);
      var j :| 0 <= j < |rates| && rates[j].time == u;
      assert rates[..i][j] == rates[j];
      PricedIsFound(l, g, u);
    }
  }

  lemma {:induction false} FillErrorIs(l: Listing, rows: map<Key, Row>, symbol: string, gaps: seq<Range>)
    returns (i: nat, t: int)
    requires ValidListing(l) && !AllPriced(l, gaps)
    ensures i < |gaps| && AllPriced(l, gaps[..i]) && FirstUnpriced(l, gaps[i], t)
    ensures FillGaps(l, rows, symbol, gaps).error == Some(MissingMarkPrice(t))
    decreases |gaps|
  {
    GapEventsOk(l, symbol, gaps[0]);
    var r := GapEvents(l, symbol, gaps[0]);
    if r.Err? {
      i := 0;
      t := GapErrorIs(l, symbol, gaps[0]);
    } else {
      assert !AllPriced(l, gaps[1..]) by {
        assert forall k :: 0 < k < |gaps| ==> gaps[k] == gaps[1..][k - 1];
      }
      i, t := FillErrorIs(l, Upserted(rows, NAME, symbol, r.value), symbol, gaps[1..]);
      i := i + 1;
      assert forall k :: 0 < k < i ==> gaps[..i][k] == gaps[1..][..i - 1][k - 1];
    }
  }

  /** A fetch of an unlisted symbol says so and leaves the table alone. */
  lemma UnlistedSymbolFails(market: Market, rows: map<Key, Row>, symbol: string, start: int, end: int)
    requires symbol !in market
    ensures Fetch(market, rows, symbol, start, end).result == Err(UnknownSymbol(symbol))
    ensures Fetch(market, rows, symbol, start, end).rows == rows
  {
  }

  /** A failed fetch of a listed symbol names the earliest unpriced rate of the first gap that has one. */
  lemma FetchErrorIs(market: Market, rows: map<Key, Row>, symbol: string, start: int, end: int) returns (i: nat, t: int)
    requires ValidMarket(market) && symbol in market
    requires !AllPriced(market[symbol], WindowGaps(rows, symbol, start, end))
    ensures var gaps := WindowGaps(rows, symbol, start, end);
            i < |gaps| && AllPriced(market[symbol], gaps[..i]) && FirstUnpriced(market[symbol], gaps[i], t)
    ensures Fetch(market, rows, symbol, start, end).result == Err(MissingMarkPrice(t))
  {
    i, t := FillErrorIs(market[symbol], rows, symbol, WindowGaps(rows, symbol, start, end));
  }

  // --- a punctual kline outside its gap ---

  /** An eight-hourly symbol whose funding events come a few milliseconds after their klines. */
  const JITTERED: Market :=
    map["BTCUSDT" := Listing(
      8, [Stamped(7, 0.1), Stamped(28_800_013, 0.1)], [Stamped(0, 0.1), Stamped(28_800_000, 0.1)])]

  const FIRST_STORED: map<Key, Row> := map[Key(NAME, "BTCUSDT", 7) := Row(0.1, 0.1, 8)]

  lemma JitteredMaps()
    ensures ValidMarket(JITTERED)
    ensures ToMap(JITTERED["BTCUSDT"].rates) == map[7 := 0.1, 28_800_013 := 0.1]
    ensures ToMap(JITTERED["BTCUSDT"].klines) == map[0 := 0.1, 28_800_000 := 0.1]
  {
    var l := JITTERED["BTCUSDT"];
    TwoRecords(l.rates, 7, 28_800_013);
    TwoRecords(l.klines, 0, 28_800_000);
  }

  lemma TwoRecords(h: seq<Stamped<real>>, t: int, u: int)
    requires h == [Stamped(t, 0.1), Stamped(u, 0.1)] && t != u
    ensures ToMap(h) == map[t := 0.1, u := 0.1]
  {
    var rest := h[1..];
    assert rest[1..] == [] && ToMap(rest) == map[u := 0.1];
  }

  lemma FirstStoredGaps(end: int)
    requires end > 7 + 43_200_000
    ensures WindowGaps(FIRST_STORED, "BTCUSDT", 7, end) == [Range(28_800_007, end)]
  {
    var c := Cached(FIRST_STORED, NAME, "BTCUSDT", 7, end);
    var ev := EventAt("BTCUSDT", 7, Row(0.1, 0.1, 8));
    CachedOrdered(FIRST_STORED, NAME, "BTCUSDT", 7, end);
    forall x ensures x in c <==> x in [ev] {
      CachedHas(FIRST_STORED, NAME, "BTCUSDT", 7, end, x);
    }
    SameMembersSameList(c, [ev]);
  }

  lemma JitteredRows()
    ensures RemoteRow(JITTERED["BTCUSDT"], 7) == Some(Row(0.1, 0.1, 8))
    ensures RemoteRow(JITTERED["BTCUSDT"], 28_800_013) == Some(Row(0.1, 0.1, 8))
    ensures Agrees(JITTERED, FIRST_STORED)
  {
    var l := JITTERED["BTCUSDT"];
    JitteredMaps();
    FloorIs(ToMap(l.klines), 7, IntervalOf(l), 0);
    FloorIs(ToMap(l.klines), 28_800_013, IntervalOf(l), 28_800_000);
  }

  /** Both events have a mark price and the table agrees, and yet fetching on from the first one fails at the second. */
  lemma JitterFailsFetch(end: int)
    requires end > 7 + 43_200_000
    ensures ValidMarket(JITTERED) && Agrees(JITTERED, FIRST_STORED)
    ensures RemoteRow(JITTERED["BTCUSDT"], 7).Some? && RemoteRow(JITTERED["BTCUSDT"], 28_800_013).Some?
    ensures Fetch(JITTERED, FIRST_STORED, "BTCUSDT", 7, end).result.Err?
  {
    JitteredMaps();
    JitteredRows();
    FirstStoredGaps(end);
    EarlierKlineFailsFetch(JITTERED, FIRST_STORED, "BTCUSDT", 7, end, Range(28_800_007, end), 28_800_013);
  }
}
