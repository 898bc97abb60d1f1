/** What the table alone tells before a fetch: whether the result is sure to be the whole remote window. */
module FundingGuarantee {
  import opened Wrappers
  import opened Ordering
  import opened RemoteHistory
  import opened FundingRateCache
  import opened FundingFetch
  import opened FundingSuccess
  import opened FundingTheorems
  import opened FundingExactness

  /** A market that the table may have been filled from, with events an interval apart and a kline at each. */
  ghost predicate Fits(market: Market, rows: map<Key, Row>, symbol: string) {
    && ValidMarket(market) && Agrees(market, rows)
    && symbol in market && Spaced(market[symbol]) && KlinesOnTime(market[symbol])
  }

  ghost predicate IsWhole(market: Market, rows: map<Key, Row>, symbol: string, start: int, end: int)
    requires symbol in market
  {
    Fetch(market, rows, symbol, start, end).result == Ok(RemoteWindow(market[symbol], symbol, start, end))
  }

  ghost predicate AlwaysWhole(rows: map<Key, Row>, symbol: string, start: int, end: int) {
    forall market :: Fits(market, rows, symbol) ==> IsWhole(market, rows, symbol, start, end)
  }

  /** Every row of the symbol keeps `distance` milliseconds from `t`. */
  ghost predicate RoomAt(rows: map<Key, Row>, symbol: string, t: int, distance: int) {
    forall k :: k in rows && k.exchange == NAME && k.symbol == symbol ==> k.ms - t >= distance || t - k.ms >= distance
  }

  /** The start slack is between 1 and 1.5 intervals, and no row outside the window rules out an event in it. */
  ghost predicate StartAtRisk(rows: map<Key, Row>, symbol: string, start: int, end: int) {
    var c := Cached(rows, NAME, symbol, start, end);
    && c != []
    && Interval(c[0]) <= c[0].timestamp - start <= Tolerance(c[0])
    && RoomAt(rows, symbol, c[0].timestamp - Interval(c[0]), Interval(c[0]))
  }

  ghost predicate EndAtRisk(rows: map<Key, Row>, symbol: string, start: int, end: int) {
    var c := Cached(rows, NAME, symbol, start, end);
    && c != []
    && var last := c[|c| - 1];
       && Interval(last) <= end - last.timestamp <= Tolerance(last)
       && RoomAt(rows, symbol, last.timestamp + Interval(last), Interval(last))
  }

  // --- without a risk every fitting market is fetched whole ---

  /**
   * The rows of a fitting market are rates of it, all one interval or more apart from each other and from any other
   * rate.
   */
  lemma RowsApart(market: Market, rows: map<Key, Row>, symbol: string, t: int, k: Key)
    requires Fits(market, rows, symbol) && t in ToMap(market[symbol].rates)
    requires k in rows && k.exchange == NAME && k.symbol == symbol && k.ms != t
    ensures k.ms - t >= IntervalOf(market[symbol]) || t - k.ms >= IntervalOf(market[symbol])
  {
  }

  lemma LossIsRisk(market: Market, rows: map<Key, Row>, symbol: string, start: int, end: int, c: seq<FundingEvent>,
                   w: seq<FundingEvent>)
    requires Fits(market, rows, symbol)
    requires c == Cached(rows, NAME, symbol, start, end) && w == RemoteWindow(market[symbol], symbol, start, end)
    ensures LostAtStart(c, w, start) == 1 ==> StartAtRisk(rows, symbol, start, end)
    ensures LostAtEnd(c, w, end) == 1 ==> EndAtRisk(rows, symbol, start, end)
  {
    var l := market[symbol];
    CachedInside(market, rows, symbol, start, end);
    LossNeedsShortSlack(market, rows, symbol, start, end);
    RemoteWindowHas(l, symbol, start, end);
    if LostAtStart(c, w, start) == 1 {
      var t := c[0].timestamp - Interval(c[0]);
      assert w[0] in w && c[0] in c;
      FirstInWindow(rows, symbol, start, end, c);
      forall k | k in rows && k.exchange == NAME && k.symbol == symbol
        ensures k.ms - t >= IntervalOf(l) || t - k.ms >= IntervalOf(l)
      {
        if k.ms < c[0].timestamp {
          RowsApart(market, rows, symbol, w[0].timestamp, k);
        }
      }
    }
    if LostAtEnd(c, w, end) == 1 {
      var last, final := c[|c| - 1], w[|w| - 1];
      var t := last.timestamp + Interval(last);
      assert final in w && last in c;
      LastInWindow(rows, symbol, start, end, c);
      forall k | k in rows && k.exchange == NAME && k.symbol == symbol
        ensures k.ms - t >= IntervalOf(l) || t - k.ms >= IntervalOf(l)
      {
        if k.ms > last.timestamp {
          RowsApart(market, rows, symbol, final.timestamp, k);
        }
      }
    }
  }

  /** No row of the symbol lies between the start of the window and its first cached row. */
  lemma FirstInWindow(rows: map<Key, Row>, symbol: string, start: int, end: int, c: seq<FundingEvent>)
    requires c == Cached(rows, NAME, symbol, start, end) && c != []
    ensures start <= c[0].timestamp <= end && HasRow(rows, symbol, c[0].timestamp)
    ensures forall k :: k in rows && k.exchange == NAME && k.symbol == symbol && k.ms < c[0].timestamp ==> k.ms < start
  {
    CachedOrdered(rows, NAME, symbol, start, end);
    CachedHas(rows, NAME, symbol, start, end, c[0]);
    forall k | k in rows && k.exchange == NAME && k.symbol == symbol && k.ms < c[0].timestamp ensures k.ms < start {
      CachedHas(rows, NAME, symbol, start, end, EventAt(symbol, k.ms, rows[k]));
    }
  }

  lemma LastInWindow(rows: map<Key, Row>, symbol: string, start: int, end: int, c: seq<FundingEvent>)
    requires c == Cached(rows, NAME, symbol, start, end) && c != []
    ensures start <= c[|c| - 1].timestamp <= end && HasRow(rows, symbol, c[|c| - 1].timestamp)
    ensures forall k :: k in rows && k.exchange == NAME && k.symbol == symbol && k.ms > c[|c| - 1].timestamp ==>
            k.ms > end
  {
    CachedOrdered(rows, NAME, symbol, start, end);
    CachedHas(rows, NAME, symbol, start, end, c[|c| - 1]);
    forall k | k in rows && k.exchange == NAME && k.symbol == symbol && k.ms > c[|c| - 1].timestamp ensures k.ms > end {
      CachedHas(rows, NAME, symbol, start, end, EventAt(symbol, k.ms, rows[k]));
    }
  }

  // --- with a risk some fitting market is not ---

  function StoredTimes(rows: map<Key, Row>, symbol: string): set<int> {
    set k | k in rows && k.exchange == NAME && k.symbol == symbol :: k.ms
  }

  function RowAt(rows: map<Key, Row>, symbol: string, t: int): Row {
    if Key(NAME, symbol, t) in rows then rows[Key(NAME, symbol, t)] else Row(0.0, 0.0, 0)
  }

  function RatesOf(rows: map<Key, Row>, symbol: string, times: seq<int>): seq<Stamped<real>> {
    seq(|times|, i requires 0 <= i < |times| => Stamped(times[i], RowAt(rows, symbol, times[i]).rate))
  }

  function KlinesOf(rows: map<Key, Row>, symbol: string, times: seq<int>): seq<Stamped<real>> {
    seq(|times|, i requires 0 <= i < |times| => Stamped(times[i], RowAt(rows, symbol, times[i]).markPrice))
  }

  lemma LookUp(h: seq<Stamped<real>>, times: seq<int>, t: int)
    requires StrictlyAscending(h) && |h| == |times| && forall i :: 0 <= i < |times| ==> h[i].time == times[i]
    ensures t in ToMap(h) <==> t in times
    ensures forall i :: 0 <= i < |times| && times[i] == t ==> t in ToMap(h) && ToMap(h)[t] == h[i].value
  {
    ToMapHas(h, t);
    if t in ToMap(h) {
      var i :| 0 <= i < |h| && h[i] == Stamped(t, ToMap(h)[t]);
      assert times[i] == t;
    }
  }

  /** The listing that holds the rows of the symbol and one more event at `t`. */
  function WithEventAt(rows: map<Key, Row>, symbol: string, t: int, intervalHours: int): Listing {
    var times := Listed(StoredTimes(rows, symbol) + {t});
    Listing(intervalHours, RatesOf(rows, symbol, times), KlinesOf(rows, symbol, times))
  }

  lemma TimesHas(rows: map<Key, Row>, symbol: string, t: int, u: int)
    ensures u in Listed(StoredTimes(rows, symbol) + {t}) <==> u == t || HasRow(rows, symbol, u)
  {
    assert HasRow(rows, symbol, u) ==> Key(NAME, symbol, u).ms in StoredTimes(rows, symbol);
  }

  lemma OnTimeRow(l: Listing, t: int, rate: real, markPrice: real)
    requires l.intervalHours > 0 && t in ToMap(l.rates) && t in ToMap(l.klines)
    requires ToMap(l.rates)[t] == rate && ToMap(l.klines)[t] == markPrice
    ensures RemoteRow(l, t) == Some(Row(rate, markPrice, l.intervalHours))
  {
    FloorIs(ToMap(l.klines), t, IntervalOf(l), t);
  }

  lemma ExtendedAt(rows: map<Key, Row>, symbol: string, t: int, intervalHours: int, u: int)
    requires intervalHours > 0
    ensures var l := WithEventAt(rows, symbol, t, intervalHours);
            && ValidListing(l)
            && (u in ToMap(l.rates) <==> u == t || HasRow(rows, symbol, u))
            && (u in ToMap(l.rates) ==> u in ToMap(l.klines))
            && (u in ToMap(l.rates) ==>
                  var row := RowAt(rows, symbol, u);
                  RemoteRow(l, u) == Some(Row(row.rate, row.markPrice, intervalHours)))
  {
    var times := Listed(StoredTimes(rows, symbol) + {t});
    var l := WithEventAt(rows, symbol, t, intervalHours);
    var row := RowAt(rows, symbol, u);
    LookUp(l.rates, times, u);
    LookUp(l.klines, times, u);
    TimesHas(rows, symbol, t, u);
    if u in times {
      var i :| 0 <= i < |times| && times[i] == u;
      OnTimeRow(l, u, row.rate, row.markPrice);
    }
  }

  /** Where the rows leave room at `t`, the market with an event there fits the table. */
  lemma ExtendedFits(market: Market, rows: map<Key, Row>, symbol: string, t: int) returns (extended: Market)
    requires Fits(market, rows, symbol) && RoomAt(rows, symbol, t, IntervalOf(market[symbol]))
    ensures Fits(extended, rows, symbol) && t in ToMap(extended[symbol].rates)
    ensures extended[symbol].intervalHours == market[symbol].intervalHours
  {
    var hours := market[symbol].intervalHours;
    var l := WithEventAt(rows, symbol, t, hours);
    extended := market[symbol := l];
    ExtendedAt(rows, symbol, t, hours, t);
    ExtendedAgrees(market, rows, symbol, t, extended);
    ExtendedSpaced(market, rows, symbol, t, l);
    forall u | u in ToMap(l.rates) ensures u in ToMap(l.klines) {
      ExtendedAt(rows, symbol, t, hours, u);
    }
  }

  lemma ExtendedAgrees(market: Market, rows: map<Key, Row>, symbol: string, t: int, extended: Market)
    requires Fits(market, rows, symbol)
    requires extended == market[symbol := WithEventAt(rows, symbol, t, market[symbol].intervalHours)]
    ensures Agrees(extended, rows)
  {
    forall k | k in rows && k.exchange == NAME
      ensures k.symbol in extended && RemoteRow(extended[k.symbol], k.ms) == Some(rows[k])
    {
      if k.symbol == symbol {
        assert k == Key(NAME, symbol, k.ms);
        ExtendedAt(rows, symbol, t, market[symbol].intervalHours, k.ms);
      }
    }
  }

  lemma ExtendedSpaced(market: Market, rows: map<Key, Row>, symbol: string, t: int, l: Listing)
    requires Fits(market, rows, symbol) && RoomAt(rows, symbol, t, IntervalOf(market[symbol]))
    requires l == WithEventAt(rows, symbol, t, market[symbol].intervalHours)
    ensures Spaced(l)
  {
    forall u, v | u in ToMap(l.rates) && v in ToMap(l.rates) && u < v
      ensures v - u >= IntervalOf(l)
    {
      ExtendedAt(rows, symbol, t, l.intervalHours, u);
      ExtendedAt(rows, symbol, t, l.intervalHours, v);
      if u != t && v != t {
        assert Key(NAME, symbol, u) in rows && Key(NAME, symbol, v) in rows;
      } else if u == t {
        assert Key(NAME, symbol, v) in rows;
      } else {
        assert Key(NAME, symbol, u) in rows;
      }
    }
  }

  /** A fetch loses an event that lies in a short slack. */
  lemma SlackEventIsLost(market: Market, rows: map<Key, Row>, symbol: string, start: int, end: int,
                         c: seq<FundingEvent>, t: int)
    requires Fits(market, rows, symbol) && c == Cached(rows, NAME, symbol, start, end) && c != []
    requires t in ToMap(market[symbol].rates) && start <= t <= end
    requires || (t < c[0].timestamp && c[0].timestamp - start <= Tolerance(c[0]))
             || (c[|c| - 1].timestamp < t && end - c[|c| - 1].timestamp <= Tolerance(c[|c| - 1]))
    ensures !IsWhole(market, rows, symbol, start, end)
  {
    var w := RemoteWindow(market[symbol], symbol, start, end);
    var i := OnTimeEvent(market[symbol], symbol, start, end, t, w);
    SlackIsLoss(c, w, start, end, t);
    NotWhole(market, rows, symbol, start, end, c, w);
  }

  lemma SlackIsLoss(c: seq<FundingEvent>, w: seq<FundingEvent>, start: int, end: int, t: int)
    requires c != [] && w != [] && w[0].timestamp <= t <= w[|w| - 1].timestamp
    requires || (t < c[0].timestamp && c[0].timestamp - start <= Tolerance(c[0]))
             || (c[|c| - 1].timestamp < t && end - c[|c| - 1].timestamp <= Tolerance(c[|c| - 1]))
    ensures LostAtStart(c, w, start) == 1 || LostAtEnd(c, w, end) == 1
  {
  }

  lemma NotWhole(market: Market, rows: map<Key, Row>, symbol: string, start: int, end: int,
                 c: seq<FundingEvent>, w: seq<FundingEvent>)
    requires Fits(market, rows, symbol)
    requires c == Cached(rows, NAME, symbol, start, end) && w == RemoteWindow(market[symbol], symbol, start, end)
    requires LostAtStart(c, w, start) == 1 || LostAtEnd(c, w, end) == 1
    ensures !IsWhole(market, rows, symbol, start, end)
  {
    FetchIsWholeWindowIff(market, rows, symbol, start, end);
  }

  /** With a kline at each rate, a rate of the window is one of its remote events. */
  lemma OnTimeEvent(l: Listing, symbol: string, start: int, end: int, t: int, w: seq<FundingEvent>) returns (i: nat)
    requires ValidListing(l) && KlinesOnTime(l) && t in ToMap(l.rates) && start <= t <= end
    requires w == RemoteWindow(l, symbol, start, end)
    ensures i < |w| && w[i].timestamp == t && w[0].timestamp <= t <= w[|w| - 1].timestamp
  {
    OnTimeRow(l, t, ToMap(l.rates)[t], ToMap(l.klines)[t]);
    RemoteWindowHas(l, symbol, start, end);
    i := IndexOf(EventAt(symbol, t, RemoteRow(l, t).value), w);
  }

  lemma RiskIsLoss(market: Market, rows: map<Key, Row>, symbol: string, start: int, end: int)
    requires Fits(market, rows, symbol)
    requires StartAtRisk(rows, symbol, start, end) || EndAtRisk(rows, symbol, start, end)
    ensures !AlwaysWhole(rows, symbol, start, end)
  {
    var c := Cached(rows, NAME, symbol, start, end);
    CachedRemote(market, rows, symbol, start, end);
    FirstInWindow(rows, symbol, start, end, c);
    LastInWindow(rows, symbol, start, end, c);
    assert c[0] in c && c[|c| - 1] in c;
    var t := if StartAtRisk(rows, symbol, start, end) then c[0].timestamp - Interval(c[0])
             else c[|c| - 1].timestamp + Interval(c[|c| - 1]);
    var extended := ExtendedFits(market, rows, symbol, t);
    SlackEventIsLost(extended, rows, symbol, start, end, c, t);
  }

  /**
   * Whatever the remote side holds, as long as it fits the table, the fetch is the whole remote window if and only if
   * neither end of the window is at risk, which the table alone decides.
   */
  lemma GuaranteedWholeIff(market: Market, rows: map<Key, Row>, symbol: string, start: int, end: int)
    requires Fits(market, rows, symbol)
    ensures AlwaysWhole(rows, symbol, start, end) <==>
            !StartAtRisk(rows, symbol, start, end) && !EndAtRisk(rows, symbol, start, end)
  {
    if StartAtRisk(rows, symbol, start, end) || EndAtRisk(rows, symbol, start, end) {
      RiskIsLoss(market, rows, symbol, start, end);
    } else {
      forall m | Fits(m, rows, symbol) ensures IsWhole(m, rows, symbol, start, end) {
        var c, w := Cached(rows, NAME, symbol, start, end), RemoteWindow(m[symbol], symbol, start, end);
        LossIsRisk(m, rows, symbol, start, end, c, w);
        FetchIsWholeWindowIff(m, rows, symbol, start, end);
      }
    }
  }
}
