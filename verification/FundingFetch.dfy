/** Fetching funding rates: find the gaps, page each one, join rates with mark prices, store, read back. */
module FundingFetch {
  import opened Wrappers
  import opened Ordering
  import opened RemoteHistory
  import opened FundingRateCache

  const NAME := "binance_usdm"
  const RATE_PAGE := 1000
  const KLINE_PAGE := 1500

  /** What the exchange holds for one symbol: its funding interval, its rates and its mark-price klines. */
  datatype Listing = Listing(intervalHours: int, rates: seq<Stamped<real>>, klines: seq<Stamped<real>>)

  type Market = map<string, Listing>

  ghost predicate ValidListing(l: Listing) {
    l.intervalHours > 0 && StrictlyAscending(l.rates) && StrictlyAscending(l.klines)
  }

  ghost predicate ValidMarket(market: Market) {
    forall s :: s in market ==> ValidListing(market[s])
  }

  datatype FetchError = UnknownSymbol(symbol: string) | MissingMarkPrice(ms: int)

  // --- the join ---

  /** The kline times a funding time may take its price from. */
  function Near(klines: map<int, real>, ft: int, tolerance: int): set<int> {
    set t | t in klines && t <= ft && (t == ft || ft - t <= tolerance)
  }

  /** The price of the latest kline at or before `ft`, unless it is further back than the tolerance. */
  function FloorKline(klines: map<int, real>, ft: int, tolerance: int): Option<real> {
    var near := Near(klines, ft, tolerance);
    if near == {} then None else Some(klines[Max(near)])
  }

  /** The joined events, or the first funding time without a mark price. */
  function Merged(symbol: string, rates: seq<Stamped<real>>, klines: map<int, real>, intervalHours: int)
    : Result<seq<FundingEvent>, FetchError>
  {
    if rates == [] then Ok([])
    else
      var last := rates[|rates| - 1];
      match Merged(symbol, rates[..|rates| - 1], klines, intervalHours)
      case Err(e) => Err(e)
      case Ok(events) =>
        match FloorKline(klines, last.time, intervalHours * MS_PER_HOUR)
        case None => Err(MissingMarkPrice(last.time))
        case Some(mark) => Ok(events + [FundingEvent(last.time, symbol, last.value, mark, intervalHours)])
  }

  lemma {:induction false} FirstErrorStays(symbol: string, rates: seq<Stamped<real>>, klines: map<int, real>,
                                           intervalHours: int, k: nat)
    requires k <= |rates| && Merged(symbol, rates[..k], klines, intervalHours).Err?
    ensures Merged(symbol, rates, klines, intervalHours) == Merged(symbol, rates[..k], klines, intervalHours)
  {
    if k == |rates| {
      assert rates[..k] == rates;
    } else {
      assert rates[..|rates| - 1][..k] == rates[..k];
      FirstErrorStays(symbol, rates[..|rates| - 1], klines, intervalHours, k);
    }
  }

  /** The dictionary lookup with its bisect fallback finds the floor kline. */
  method FindMark(klines: map<int, real>, klineTimes: seq<int>, ft: int, tolerance: int) returns (mark: Option<real>)
    requires Increasing(klineTimes) && forall t :: t in klineTimes <==> t in klines
    ensures mark == FloorKline(klines, ft, tolerance)
  {
    if ft in klines {
      FloorIs(klines, ft, tolerance, ft);
      return Some(klines[ft]);
    }
    var idx := BisectRight(klineTimes, ft) - 1;
    BisectFloor(klineTimes, ft);
    if idx >= 0 && ft - klineTimes[idx] <= tolerance {
      FloorIs(klines, ft, tolerance, klineTimes[idx]);
      return Some(klines[klineTimes[idx]]);
    }
    NoFloor(klines, ft, tolerance);
    return None;
  }

  lemma FloorIs(klines: map<int, real>, ft: int, tolerance: int, t: int)
    requires t in Near(klines, ft, tolerance)
    requires forall u :: u in klines && u <= ft ==> u <= t
    ensures FloorKline(klines, ft, tolerance) == Some(klines[t])
  {
    assert Max(Near(klines, ft, tolerance)) == t;
  }

  lemma NoFloor(klines: map<int, real>, ft: int, tolerance: int)
    requires forall u :: u in klines && u <= ft ==> u != ft && ft - u > tolerance
    ensures FloorKline(klines, ft, tolerance) == None
  {
    assert Near(klines, ft, tolerance) == {};
  }

  method Merge(symbol: string, rates: seq<Stamped<real>>, klines: map<int, real>, intervalHours: int)
    returns (r: Result<seq<FundingEvent>, FetchError>)
    ensures r == Merged(symbol, rates, klines, intervalHours)
  {
    var events := [];
    var klineTimes := Listed(klines.Keys);
    var tolerance := intervalHours * MS_PER_HOUR;
    for i := 0 to |rates|
      invariant Merged(symbol, rates[..i], klines, intervalHours) == Ok(events)
    {
      var ft := rates[i].time;
      var mark := FindMark(klines, klineTimes, ft, tolerance);
      assert rates[..i + 1][..i] == rates[..i];
      if mark.None? {
        FirstErrorStays(symbol, rates, klines, intervalHours, i + 1);
        return Err(MissingMarkPrice(ft));
      }
      events := events + [FundingEvent(ft, symbol, rates[i].value, mark.value, intervalHours)];
    }
    assert rates[..|rates|] == rates;
    return Ok(events);
  }

  // --- paging ---

  /** The cursor loop over the rate endpoint collects exactly the rates of the range. */
  method FetchRatePages(l: Listing, start: int, end: int) returns (allRates: seq<Stamped<real>>)
    requires ValidListing(l)
    ensures allRates == InRange(l.rates, start, end)
  {
    allRates := [];
    var cursor := start;
    while cursor <= end
      invariant allRates + InRange(l.rates, cursor, end) == InRange(l.rates, start, end)
      decreases end - cursor
    {
      var batch := Page(l.rates, cursor, end, RATE_PAGE);
      if batch == [] {
        break;
      }
      PageThenRest(l.rates, cursor, end, RATE_PAGE, batch);
      allRates := allRates + batch;
      if |batch| < RATE_PAGE {
        break;
      }
      cursor := batch[|batch| - 1].time + 1;
    }
    if cursor > end {
      NothingInside(l.rates, cursor, end);
    }
  }

  lemma {:induction false} NothingInside<T>(h: seq<Stamped<T>>, lo: int, hi: int)
    requires hi < lo
    ensures InRange(h, lo, hi) == []
  {
    if h != [] {
      NothingInside(h[1..], lo, hi);
    }
  }

  lemma ToMapNext(known: map<int, real>, rows: seq<Stamped<real>>, row: Stamped<real>)
    ensures known + ToMap(rows + [row]) == (known + ToMap(rows))[row.time := row.value]
  {
    ToMapAppend(rows, [row]);
    assert ToMap([row]) == map[row.time := row.value];
  }

  /** One page of klines written into the dictionary, row by row. */
  method AddRows(known: map<int, real>, batch: seq<Stamped<real>>) returns (result: map<int, real>)
    ensures result == known + ToMap(batch)
  {
    result := known;
    for i := 0 to |batch|
      invariant result == known + ToMap(batch[..i])
    {
      ToMapNext(known, batch[..i], batch[i]);
      assert batch[..i + 1] == batch[..i] + [batch[i]];
      result := result[batch[i].time := batch[i].value];
    }
    assert batch[..|batch|] == batch;
  }

  /** With the klines `left` still to come, `result` grows into `whole`. */
  ghost predicate GrowsInto(result: map<int, real>, left: seq<Stamped<real>>, whole: map<int, real>) {
    result + ToMap(left) == whole
  }

  lemma PageGrows(result: map<int, real>, page: seq<Stamped<real>>, rest: seq<Stamped<real>>,
                  left: seq<Stamped<real>>, whole: map<int, real>)
    requires left == page + rest && GrowsInto(result, left, whole)
    ensures GrowsInto(result + ToMap(page), rest, whole)
  {
    ToMapAppend(page, rest);
    JoinedInTurn(result, ToMap(page), ToMap(rest));
  }

  lemma JoinedInTurn(a: map<int, real>, b: map<int, real>, c: map<int, real>)
    ensures a + (b + c) == (a + b) + c
  {
  }

  lemma Grown(result: map<int, real>, left: seq<Stamped<real>>, whole: map<int, real>)
    requires left == [] && GrowsInto(result, left, whole)
    ensures result == whole
  {
  }

  lemma AllStillLeft(klines: seq<Stamped<real>>, start: int, end: int)
    ensures GrowsInto(map[], InRange(klines, start, end), Within(ToMap(klines), start, end))
  {
    ToMapInRange(klines, start, end);
    assert map[] + ToMap(InRange(klines, start, end)) == ToMap(InRange(klines, start, end));
  }

  /** The cursor loop over the kline endpoint collects exactly the klines of the range, keyed by open time. */
  method FetchKlines(l: Listing, start: int, end: int) returns (result: map<int, real>)
    requires ValidListing(l)
    ensures result == Within(ToMap(l.klines), start, end)
  {
    result := map[];
    var cursor := start;
    ghost var left, whole := InRange(l.klines, start, end), Within(ToMap(l.klines), start, end);
    AllStillLeft(l.klines, start, end);
    while cursor <= end
      invariant left == InRange(l.klines, cursor, end) && GrowsInto(result, left, whole)
      decreases end - cursor
    {
      var batch := Page(l.klines, cursor, end, KLINE_PAGE);
      if batch == [] {
        break;
      }
      PageThenRest(l.klines, cursor, end, KLINE_PAGE, batch);
      ghost var rest := left[|batch|..];
      PageGrows(result, batch, rest, left, whole);
      result := AddRows(result, batch);
      left := rest;
      if |batch| < KLINE_PAGE {
        break;
      }
      cursor := batch[|batch| - 1].time + 1;
    }
    if cursor > end {
      NothingInside(l.klines, cursor, end);
    }
    Grown(result, left, whole);
  }

  // --- the fetch ---

  /** What one gap contributes. */
  function GapEvents(l: Listing, symbol: string, g: Range): Result<seq<FundingEvent>, FetchError> {
    Merged(symbol, InRange(l.rates, g.lo, g.hi), Within(ToMap(l.klines), g.lo, g.hi), l.intervalHours)
  }

  datatype Fill = Fill(rows: map<Key, Row>, error: Option<FetchError>)

  /** Filling gaps in order; a missing mark price stops it, keeping what earlier gaps stored. */
  function FillGaps(l: Listing, rows: map<Key, Row>, symbol: string, gaps: seq<Range>): Fill
    decreases |gaps|
  {
    if gaps == [] then Fill(rows, None)
    else
      match GapEvents(l, symbol, gaps[0])
      case Err(e) => Fill(rows, Some(e))
      case Ok(events) => FillGaps(l, Upserted(rows, NAME, symbol, events), symbol, gaps[1..])
  }

  function WindowGaps(rows: map<Key, Row>, symbol: string, start: int, end: int): seq<Range> {
    Gaps(Cached(rows, NAME, symbol, start, end), start, end)
  }

  datatype Outcome = Outcome(result: Result<seq<FundingEvent>, FetchError>, rows: map<Key, Row>)

  /** One fetch as a function of the market and the table. */
  function Fetch(market: Market, rows: map<Key, Row>, symbol: string, start: int, end: int): Outcome {
    if symbol !in market then Outcome(Err(UnknownSymbol(symbol)), rows)
    else
      var fill := FillGaps(market[symbol], rows, symbol, WindowGaps(rows, symbol, start, end));
      match fill.error
      case Some(e) => Outcome(Err(e), fill.rows)
      case None => Outcome(Ok(Cached(fill.rows, NAME, symbol, start, end)), fill.rows)
  }

  class BinanceUsdmExchange {
    const market: Market
    const cache: SqliteFundingRateCache
    var intervalCache: map<string, int>

    ghost predicate Valid()
      reads this
    {
      && ValidMarket(market)
      && forall s :: s in intervalCache ==> s in market && intervalCache[s] == market[s].intervalHours
    }

    constructor (market: Market, cache: SqliteFundingRateCache)
      requires ValidMarket(market)
      ensures Valid() && this.market == market && this.cache == cache
    {
      this.market, this.cache := market, cache;
      intervalCache := map[];
    }

    method GetInterval(symbol: string) returns (r: Result<int, FetchError>)
      requires Valid()
      modifies this`intervalCache
      ensures Valid()
      ensures r == if symbol in market then Ok(market[symbol].intervalHours) else Err(UnknownSymbol(symbol))
    {
      if symbol in intervalCache {
        return Ok(intervalCache[symbol]);
      }
      if symbol in market {
        intervalCache := intervalCache[symbol := market[symbol].intervalHours];
        return Ok(market[symbol].intervalHours);
      }
      return Err(UnknownSymbol(symbol));
    }

    method FetchFundingRates(symbol: string, start: int, end: int) returns (r: Result<seq<FundingEvent>, FetchError>)
      requires Valid()
      modifies this`intervalCache, cache
      ensures Valid()
      ensures Outcome(r, cache.rows) == Fetch(market, old(cache.rows), symbol, start, end)
    {
      var interval := GetInterval(symbol);
      if interval.Err? {
        return Err(interval.error);
      }
      var l := market[symbol];
      var gaps := cache.MissingRanges(NAME, symbol, start, end);
      for i := 0 to |gaps|
        invariant Valid()
        invariant FillGaps(l, old(cache.rows), symbol, gaps) == FillGaps(l, cache.rows, symbol, gaps[i..])
      {
        var rates := FetchRatePages(l, gaps[i].lo, gaps[i].hi);
        if rates == [] {
          continue;
        }
        var klines := FetchKlines(l, gaps[i].lo, gaps[i].hi);
        var events := Merge(symbol, rates, klines, interval.value);
        if events.Err? {
          return Err(events.error);
        }
        cache.Put(NAME, symbol, events.value);
      }
      var events := cache.Get(NAME, symbol, start, end);
      return Ok(events);
    }
  }
}
