/** What the funding-rate cache and its fetch guarantee about the remote history. */
module FundingTheorems {
  import Ordering
  import opened Wrappers
  import opened RemoteHistory
  import opened FundingRateCache
  import opened FundingFetch

  // --- the local copy agrees with the remote ---

  /** The row the exchange's data calls for at `t`: its rate, and the floor mark price over the whole history. */
  function RemoteRow(l: Listing, t: int): Option<Row> {
    if t !in ToMap(l.rates) then None
    else
      match FloorKline(ToMap(l.klines), t, l.intervalHours * MS_PER_HOUR)
      case None => None
      case Some(mark) => Some(Row(ToMap(l.rates)[t], mark, l.intervalHours))
  }

  /** Every row stored for this exchange is the remote one at its key. */
  ghost predicate Agrees(market: Market, rows: map<Key, Row>) {
    forall k :: k in rows && k.exchange == NAME ==>
      k.symbol in market && RemoteRow(market[k.symbol], k.ms) == Some(rows[k])
  }

  /**
   * A lookup among the klines of a range finds the whole history's floor kline if that one opens in the range, else
   * none.
   */
  lemma FloorWithin(klines: map<int, real>, lo: int, hi: int, ft: int, tolerance: int)
    requires lo <= ft <= hi
    ensures var near := Near(klines, ft, tolerance);
            FloorKline(Within(klines, lo, hi), ft, tolerance) ==
              if near != {} && lo <= Ordering.Max(near) then FloorKline(klines, ft, tolerance) else None
    ensures ft in klines ==> FloorKline(Within(klines, lo, hi), ft, tolerance) == Some(klines[ft])
  {
    var part, near := Within(klines, lo, hi), Near(klines, ft, tolerance);
    if near != {} && lo <= Ordering.Max(near) {
      forall u | u in part && u <= ft ensures u <= Ordering.Max(near) {
        assert Ordering.Max(near) < u ==> u in near;
      }
      FloorIs(part, ft, tolerance, Ordering.Max(near));
    } else {
      assert Near(part, ft, tolerance) <= near;
      assert forall t :: t in Near(part, ft, tolerance) ==> lo <= t;
    }
    if ft in klines {
      assert ft in near;
      FloorIs(part, ft, tolerance, ft);
    }
  }

  /** `events` are remote events, one for each of `rates` in order. */
  ghost predicate Faithful(l: Listing, symbol: string, rates: seq<Stamped<real>>, events: seq<FundingEvent>) {
    |events| == |rates| &&
    forall i :: 0 <= i < |rates| ==>
      events[i].timestamp == rates[i].time && events[i].symbol == symbol &&
      RemoteRow(l, rates[i].time) == Some(RowOf(events[i]))
  }

  lemma {:induction false} MergedFaithful(l: Listing, symbol: string, rates: seq<Stamped<real>>, g: Range)
    requires forall i :: 0 <= i < |rates| ==>
               g.lo <= rates[i].time <= g.hi && rates[i].time in ToMap(l.rates) &&
                 ToMap(l.rates)[rates[i].time] == rates[i].value
    ensures var r := Merged(symbol, rates, Within(ToMap(l.klines), g.lo, g.hi), l.intervalHours);
            && (r.Ok? ==> Faithful(l, symbol, rates, r.value))
            && (KlinesOnTime(l) ==> r.Ok?)
  {
    if rates != [] {
      var last := rates[|rates| - 1];
      MergedFaithful(l, symbol, rates[..|rates| - 1], g);
      FloorWithin(ToMap(l.klines), g.lo, g.hi, last.time, l.intervalHours * MS_PER_HOUR);
    }
  }

  /** Every rate has a kline opening at its own millisecond. */
  ghost predicate KlinesOnTime(l: Listing) {
    forall t :: t in ToMap(l.rates) ==> t in ToMap(l.klines)
  }

  /** What a gap contributes: the remote events of the gap, all of them; it only fails without on-time klines. */
  lemma GapEventsFaithful(l: Listing, symbol: string, g: Range)
    requires ValidListing(l)
    ensures var r := GapEvents(l, symbol, g);
            && (r.Ok? ==> Faithful(l, symbol, InRange(l.rates, g.lo, g.hi), r.value))
            && (KlinesOnTime(l) ==> r.Ok?)
  {
    var rates := InRange(l.rates, g.lo, g.hi);
    forall i | 0 <= i < |rates|
      ensures g.lo <= rates[i].time <= g.hi && rates[i].time in ToMap(l.rates) &&
              ToMap(l.rates)[rates[i].time] == rates[i].value
    {
      InRangeHas(l.rates, g.lo, g.hi, rates[i]);
      var j :| 0 <= j < |l.rates| && l.rates[j] == rates[i];
      ToMapHas(l.rates, rates[i].time);
    }
    MergedFaithful(l, symbol, rates, g);
  }

  /** Whether the table holds a row of this exchange at `t`. */
  predicate HasRow(rows: map<Key, Row>, symbol: string, t: int) {
    Key(NAME, symbol, t) in rows
  }

  /** Upserting remote events adds their keys and leaves every other row alone. */
  lemma {:induction false} UpsertedRows(l: Listing, rows: map<Key, Row>, symbol: string, events: seq<FundingEvent>,
                                        k: Key)
    requires forall i :: 0 <= i < |events| ==> RemoteRow(l, events[i].timestamp) == Some(RowOf(events[i]))
    ensures var stored := Upserted(rows, NAME, symbol, events);
            && (k in stored <==> k in rows || (k.exchange == NAME && k.symbol == symbol && HasEventAt(events, k.ms)))
            && (k in stored ==>
                  (k in rows && stored[k] == rows[k]) || (k.symbol == symbol && RemoteRow(l, k.ms) == Some(stored[k])))
  {
    var n := |events|;
    if n > 0 {
      UpsertedRows(l, rows, symbol, events[..n - 1], k);
      HasEventAppend(events[..n - 1], events[n - 1], k.ms);
      assert events == events[..n - 1] + [events[n - 1]];
    }
  }

  lemma FaithfulTimes(l: Listing, symbol: string, g: Range, events: seq<FundingEvent>, t: int)
    requires Faithful(l, symbol, InRange(l.rates, g.lo, g.hi), events)
    ensures HasEventAt(events, t) <==> t in ToMap(l.rates) && g.lo <= t <= g.hi
  {
    RangeTimes(l.rates, g.lo, g.hi, t);
    var rates := InRange(l.rates, g.lo, g.hi);
    assert forall i :: 0 <= i < |events| ==> events[i].timestamp == rates[i].time;
  }

  /** Storing a gap keeps the agreement and adds exactly the rates of the gap. */
  lemma StoreGap(market: Market, rows: map<Key, Row>, symbol: string, g: Range, events: seq<FundingEvent>)
    requires Agrees(market, rows) && symbol in market && ValidListing(market[symbol])
    requires Faithful(market[symbol], symbol, InRange(market[symbol].rates, g.lo, g.hi), events)
    ensures Agrees(market, Upserted(rows, NAME, symbol, events))
    ensures forall s, t :: HasRow(Upserted(rows, NAME, symbol, events), s, t) <==>
              HasRow(rows, s, t) || (s == symbol && t in ToMap(market[symbol].rates) && g.lo <= t <= g.hi)
  {
    var l, stored := market[symbol], Upserted(rows, NAME, symbol, events);
    assert forall i :: 0 <= i < |events| ==> events[i].timestamp == InRange(l.rates, g.lo, g.hi)[i].time;
    forall k | k in stored && k.exchange == NAME
      ensures k.symbol in market && RemoteRow(market[k.symbol], k.ms) == Some(stored[k])
    {
      UpsertedRows(l, rows, symbol, events, k);
    }
    forall s, t
      ensures HasRow(stored, s, t) <==> HasRow(rows, s, t) || (s == symbol && t in ToMap(l.rates) && g.lo <= t <= g.hi)
    {
      UpsertedRows(l, rows, symbol, events, Key(NAME, s, t));
      FaithfulTimes(l, symbol, g, events, t);
    }
  }

  ghost predicate HasTime<T>(h: seq<Stamped<T>>, t: int) {
    exists i :: 0 <= i < |h| && h[i].time == t
  }

  lemma RangeTimes<T>(h: seq<Stamped<T>>, lo: int, hi: int, t: int)
    ensures HasTime(InRange(h, lo, hi), t) <==> t in ToMap(h) && lo <= t <= hi
  {
    var r := InRange(h, lo, hi);
    ToMapInRange(h, lo, hi);
    ToMapHas(r, t);
    assert t in ToMap(r) <==> t in ToMap(h) && lo <= t <= hi;
    if t in ToMap(r) {
      var i :| 0 <= i < |r| && r[i] == Stamped(t, ToMap(r)[t]);
    }
  }

  /** Filling gaps keeps the agreement; on success it has added exactly the rates inside some gap. */
  lemma {:induction false} FillGapsAgrees(market: Market, rows: map<Key, Row>, symbol: string, gaps: seq<Range>)
    requires Agrees(market, rows) && symbol in market && ValidListing(market[symbol])
    ensures Agrees(market, FillGaps(market[symbol], rows, symbol, gaps).rows)
    ensures FillGaps(market[symbol], rows, symbol, gaps).error.None? ==>
              forall s, t :: HasRow(FillGaps(market[symbol], rows, symbol, gaps).rows, s, t) <==>
                HasRow(rows, s, t) || (s == symbol && t in ToMap(market[symbol].rates) && InSomeGap(gaps, t))
    ensures KlinesOnTime(market[symbol]) ==> FillGaps(market[symbol], rows, symbol, gaps).error.None?
    decreases |gaps|
  {
    if gaps != [] {
      var l, g := market[symbol], gaps[0];
      GapEventsFaithful(l, symbol, g);
      var r := GapEvents(l, symbol, g);
      if r.Ok? {
        StoreGap(market, rows, symbol, g, r.value);
        FillGapsAgrees(market, Upserted(rows, NAME, symbol, r.value), symbol, gaps[1..]);
        forall t ensures InSomeGap(gaps, t) <==> g.lo <= t <= g.hi || InSomeGap(gaps[1..], t) {
          assert gaps == [g] + gaps[1..];
          InSomeGapAppend([g], gaps[1..], t);
          OneGap([g], t);
        }
      }
    }
  }

  // --- what one fetch returns ---

  ghost predicate IsRemote(l: Listing, symbol: string, ev: FundingEvent) {
    ev.symbol == symbol && RemoteRow(l, ev.timestamp) == Some(RowOf(ev))
  }

  lemma CachedRemote(market: Market, rows: map<Key, Row>, symbol: string, start: int, end: int)
    requires Agrees(market, rows) && symbol in market
    ensures forall ev :: ev in Cached(rows, NAME, symbol, start, end) <==>
              IsRemote(market[symbol], symbol, ev) && start <= ev.timestamp <= end && HasRow(rows, symbol, ev.timestamp)
    ensures forall ev :: ev in Cached(rows, NAME, symbol, start, end) ==>
            ev.intervalHours == market[symbol].intervalHours
    ensures Chronological(Cached(rows, NAME, symbol, start, end)) &&
            WithinWindow(Cached(rows, NAME, symbol, start, end), start, end)
  {
    CachedOrdered(rows, NAME, symbol, start, end);
    forall ev
      ensures ev in Cached(rows, NAME, symbol, start, end) <==>
              IsRemote(market[symbol], symbol, ev) && start <= ev.timestamp <= end && HasRow(rows, symbol, ev.timestamp)
    {
      CachedHas(rows, NAME, symbol, start, end, ev);
    }
  }

  /** Whether a fetch delivers the remote event at `t`: it is cached, or its neighbouring rows do not pass it over. */
  predicate Delivers(rows: map<Key, Row>, symbol: string, start: int, end: int, t: int) {
    var cached := Cached(rows, NAME, symbol, start, end);
    HasRow(rows, symbol, t) || !PassedOver(Before(cached, t), After(cached, t), start, end, t)
  }

  lemma RemoteGapCoverage(market: Market, rows: map<Key, Row>, symbol: string, start: int, end: int, t: int)
    requires ValidMarket(market) && Agrees(market, rows) && symbol in market
    requires t in ToMap(market[symbol].rates) && start <= t <= end
    ensures HasRow(rows, symbol, t) || InSomeGap(WindowGaps(rows, symbol, start, end), t) <==>
            Delivers(rows, symbol, start, end, t)
  {
    CachedRemote(market, rows, symbol, start, end);
    var cached := Cached(rows, NAME, symbol, start, end);
    if !HasRow(rows, symbol, t) {
      forall i | 0 <= i < |cached| ensures cached[i].timestamp != t && cached[i].intervalHours > 0 {
        assert cached[i] in cached;
      }
      GapsCoverage(cached, start, end, t);
    }
  }

  /** A fetch keeps the agreement, and one that succeeds lists the remote events it delivers, each once, in order. */
  lemma FetchCharacterised(market: Market, rows: map<Key, Row>, symbol: string, start: int, end: int)
    requires ValidMarket(market) && Agrees(market, rows)
    ensures Agrees(market, Fetch(market, rows, symbol, start, end).rows)
    ensures var o := Fetch(market, rows, symbol, start, end);
            o.result.Ok? ==>
              && symbol in market && Chronological(o.result.value)
              && forall ev :: ev in o.result.value <==>
                   IsRemote(market[symbol], symbol, ev) && start <= ev.timestamp <= end &&
                     Delivers(rows, symbol, start, end, ev.timestamp)
    ensures symbol in market && KlinesOnTime(market[symbol]) ==> Fetch(market, rows, symbol, start, end).result.Ok?
  {
    if symbol in market {
      var o := Fetch(market, rows, symbol, start, end);
      FillGapsAgrees(market, rows, symbol, WindowGaps(rows, symbol, start, end));
      if o.result.Ok? {
        CachedRemote(market, o.rows, symbol, start, end);
        forall ev
          ensures ev in o.result.value <==>
                  IsRemote(market[symbol], symbol, ev) && start <= ev.timestamp <= end &&
                    Delivers(rows, symbol, start, end, ev.timestamp)
        {
          if IsRemote(market[symbol], symbol, ev) && start <= ev.timestamp <= end {
            RemoteGapCoverage(market, rows, symbol, start, end, ev.timestamp);
          }
        }
      }
    }
  }

  // --- the remote window ---

  /** The remote events of some rates: those that have a mark price. */
  function RemoteEvents(l: Listing, symbol: string, rates: seq<Stamped<real>>): seq<FundingEvent> {
    if rates == [] then []
    else
      var rest := RemoteEvents(l, symbol, rates[1..]);
      match RemoteRow(l, rates[0].time)
      case None => rest
      case Some(row) => [EventAt(symbol, rates[0].time, row)] + rest
  }

  function RemoteWindow(l: Listing, symbol: string, start: int, end: int): seq<FundingEvent> {
    RemoteEvents(l, symbol, InRange(l.rates, start, end))
  }

  lemma {:induction false} RemoteEventsHas(l: Listing, symbol: string, rates: seq<Stamped<real>>, ev: FundingEvent)
    ensures ev in RemoteEvents(l, symbol, rates) <==>
            IsRemote(l, symbol, ev) && HasTime(rates, ev.timestamp)
  {
    if rates != [] {
      RemoteEventsHas(l, symbol, rates[1..], ev);
      HasTimeFirst(rates, ev.timestamp);
    }
  }

  lemma HasTimeFirst<T>(h: seq<Stamped<T>>, t: int)
    requires h != []
    ensures HasTime(h, t) <==> h[0].time == t || HasTime(h[1..], t)
  {
    if HasTime(h[1..], t) {
      var i :| 0 <= i < |h[1..]| && h[1..][i].time == t;
      assert h[i + 1].time == t;
    }
    if HasTime(h, t) {
      var i :| 0 <= i < |h| && h[i].time == t;
      if i > 0 {
        assert h[1..][i - 1].time == t;
      }
    }
  }

  lemma {:induction false} RemoteEventsOrdered(l: Listing, symbol: string, rates: seq<Stamped<real>>)
    requires StrictlyAscending(rates)
    ensures Chronological(RemoteEvents(l, symbol, rates))
  {
    if rates != [] {
      var rest := RemoteEvents(l, symbol, rates[1..]);
      RemoteEventsOrdered(l, symbol, rates[1..]);
      forall i | 0 <= i < |rest| ensures rates[0].time < rest[i].timestamp {
        RemoteEventsHas(l, symbol, rates[1..], rest[i]);
        var j :| 0 <= j < |rates[1..]| && rates[1..][j].time == rest[i].timestamp;
        assert rates[j + 1].time == rest[i].timestamp;
      }
    }
  }

  lemma RemoteWindowHas(l: Listing, symbol: string, start: int, end: int)
    requires ValidListing(l)
    ensures Chronological(RemoteWindow(l, symbol, start, end))
    ensures forall ev :: ev in RemoteWindow(l, symbol, start, end) <==>
            IsRemote(l, symbol, ev) && start <= ev.timestamp <= end
  {
    var rates := InRange(l.rates, start, end);
    InRangeOrdered(l.rates, start, end);
    RemoteEventsOrdered(l, symbol, rates);
    forall ev
      ensures ev in RemoteWindow(l, symbol, start, end) <==> IsRemote(l, symbol, ev) && start <= ev.timestamp <= end
    {
      RemoteEventsHas(l, symbol, rates, ev);
      RangeTimes(l.rates, start, end, ev.timestamp);
    }
  }
}
