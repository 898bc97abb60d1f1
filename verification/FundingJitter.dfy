/** When the remote events drift by less than half an interval: exactly which of them a fetch loses. */
module FundingJitter {
  import opened Wrappers
  import opened RemoteHistory
  import opened FundingRateCache
  import opened FundingFetch
  import opened FundingSuccess
  import opened FundingTheorems
  import opened FundingExactness

  /** Rates are at least one interval less the drift apart, and the drift is less than half an interval. */
  ghost predicate Drifting(l: Listing, drift: int) {
    && 0 <= 2 * drift < IntervalOf(l)
    && forall t, u :: t in ToMap(l.rates) && u in ToMap(l.rates) && t < u ==> u - t >= IntervalOf(l) - drift
  }

  /** The cached rows `c` of a window among its remote events `w`, `step - drift` milliseconds or more apart. */
  ghost predicate Among(c: seq<FundingEvent>, w: seq<FundingEvent>, start: int, end: int, step: int, drift: int) {
    && Chronological(c) && Chronological(w) && WithinWindow(w, start, end)
    && (forall ev :: ev in c ==> ev in w && Interval(ev) == step)
    && (forall i, j :: 0 <= i < j < |w| ==> w[j].timestamp - w[i].timestamp >= step - drift)
    && 0 <= 2 * drift < step
  }

  /** `t` lies before the first cached row, in a slack too short to be a leading gap. */
  predicate InStartSlack(c: seq<FundingEvent>, start: int, t: int) {
    c != [] && t < c[0].timestamp && c[0].timestamp - start <= Tolerance(c[0])
  }

  /** `t` lies after the last cached row, in a slack too short to be a trailing gap. */
  predicate InEndSlack(c: seq<FundingEvent>, end: int, t: int) {
    c != [] && c[|c| - 1].timestamp < t && end - c[|c| - 1].timestamp <= Tolerance(c[|c| - 1])
  }

  /** The event right before is cached, and this one comes less than an interval after it. */
  predicate EarlyAfterRow(c: seq<FundingEvent>, w: seq<FundingEvent>, step: int, i: nat)
    requires i < |w|
  {
    i > 0 && w[i - 1] in c && w[i].timestamp - w[i - 1].timestamp < step
  }

  /** The three ways to be lost. */
  predicate Lost(c: seq<FundingEvent>, w: seq<FundingEvent>, start: int, end: int, step: int, i: nat)
    requires i < |w|
  {
    && w[i] !in c
    && (InStartSlack(c, start, w[i].timestamp) || InEndSlack(c, end, w[i].timestamp) || EarlyAfterRow(c, w, step, i))
  }

  /** The last cached event before an uncached one, when that is early after it, is its predecessor. */
  lemma EarlyIsNext(c: seq<FundingEvent>, w: seq<FundingEvent>, start: int, end: int, step: int, drift: int, i: nat,
                    l: FundingEvent)
    requires Among(c, w, start, end, step, drift) && i < |w| && l in c && l.timestamp < w[i].timestamp
    requires forall k :: 0 <= k < |c| && c[k].timestamp < w[i].timestamp ==> c[k].timestamp <= l.timestamp
    ensures w[i].timestamp < l.timestamp + step <==> EarlyAfterRow(c, w, step, i)
  {
    var j := IndexOf(l, w);
    assert j < i;
    if j + 1 < i {
      assert w[i].timestamp - w[j + 1].timestamp >= step - drift && w[j + 1].timestamp - w[j].timestamp >= step - drift;
      if w[i - 1] in c {
        var k := IndexOf(w[i - 1], c);
      }
    }
  }

  /** Between two rows at most 1.5 intervals apart an event is early after the first. */
  lemma BetweenCloseRows(c: seq<FundingEvent>, w: seq<FundingEvent>, start: int, end: int, step: int, drift: int,
                         i: nat, l: FundingEvent, f: FundingEvent)
    requires Among(c, w, start, end, step, drift) && i < |w| && l in c && f in c
    requires l.timestamp < w[i].timestamp < f.timestamp && f.timestamp - l.timestamp <= Tolerance(l)
    ensures w[i].timestamp < l.timestamp + step
  {
    var k := IndexOf(f, w);
    assert i < k;
  }

  /** An uncached remote event is passed over in exactly three ways. */
  lemma PassedOverIsLost(c: seq<FundingEvent>, w: seq<FundingEvent>, start: int, end: int, step: int, drift: int,
                         i: nat)
    requires Among(c, w, start, end, step, drift) && i < |w| && w[i] !in c
    ensures PassedOver(Before(c, w[i].timestamp), After(c, w[i].timestamp), start, end, w[i].timestamp) <==>
            Lost(c, w, start, end, step, i)
  {
    var t := w[i].timestamp;
    forall k | 0 <= k < |c| ensures c[k].timestamp != t {
      var j := IndexOf(c[k], w);
    }
    BeforeIsNearest(c, t);
    AfterIsNearest(c, t);
    match (Before(c, t), After(c, t)) {
      case (None, None) =>
        assert c == [];
      case (None, Some(f)) =>
        FirstAfter(c, t, f);
        NothingBefore(c, w, step, i);
      case (Some(l), None) =>
        LastBefore(c, t, l);
        EarlyIsNext(c, w, start, end, step, drift, i, l);
      case (Some(l), Some(f)) =>
        EarlyIsNext(c, w, start, end, step, drift, i, l);
        if f.timestamp - l.timestamp <= Tolerance(l) {
          BetweenCloseRows(c, w, start, end, step, drift, i, l, f);
        }
    }
  }

  lemma NothingBefore(c: seq<FundingEvent>, w: seq<FundingEvent>, step: int, i: nat)
    requires i < |w| && Chronological(w) && forall k :: 0 <= k < |c| ==> w[i].timestamp < c[k].timestamp
    ensures !EarlyAfterRow(c, w, step, i)
  {
    if i > 0 {
      assert forall k :: 0 <= k < |c| ==> c[k] != w[i - 1];
    }
  }

  /** At most two events lie in a short slack at an end, and at most one when the drift is below a quarter interval. */
  lemma FewInSlack(c: seq<FundingEvent>, w: seq<FundingEvent>, start: int, end: int, step: int, drift: int, i: nat)
    requires Among(c, w, start, end, step, drift) && i < |w|
    ensures InStartSlack(c, start, w[i].timestamp) ==> i <= 1 && (4 * drift < step ==> i == 0)
    ensures InEndSlack(c, end, w[i].timestamp) ==> i >= |w| - 2 && (4 * drift < step ==> i == |w| - 1)
  {
    if InStartSlack(c, start, w[i].timestamp) {
      FewBeforeFirst(c, w, start, end, step, drift, i);
    }
    if InEndSlack(c, end, w[i].timestamp) {
      FewAfterLast(c, w, start, end, step, drift, i);
    }
  }

  /** What lies between an event and the next two. */
  lemma StepsApart(c: seq<FundingEvent>, w: seq<FundingEvent>, start: int, end: int, step: int, drift: int, i: int)
    requires Among(c, w, start, end, step, drift)
    ensures 0 <= i && i + 1 < |w| ==> w[i + 1].timestamp - w[i].timestamp >= step - drift
    ensures 0 <= i && i + 2 < |w| ==> w[i + 2].timestamp - w[i].timestamp >= 2 * (step - drift)
  {
    if 0 <= i && i + 2 < |w| {
      assert w[i + 1].timestamp - w[i].timestamp >= step - drift;
    }
  }

  lemma FewBeforeFirst(c: seq<FundingEvent>, w: seq<FundingEvent>, start: int, end: int, step: int, drift: int, i: nat)
    requires Among(c, w, start, end, step, drift) && i < |w| && InStartSlack(c, start, w[i].timestamp)
    ensures i <= 1 && (4 * drift < step ==> i == 0)
  {
    var k := IndexOf(c[0], w);
    StepsApart(c, w, start, end, step, drift, i - 1);
    StepsApart(c, w, start, end, step, drift, i - 2);
  }

  lemma FewAfterLast(c: seq<FundingEvent>, w: seq<FundingEvent>, start: int, end: int, step: int, drift: int, i: nat)
    requires Among(c, w, start, end, step, drift) && i < |w| && InEndSlack(c, end, w[i].timestamp)
    ensures i >= |w| - 2 && (4 * drift < step ==> i == |w| - 1)
  {
    var k := IndexOf(c[|c| - 1], w);
    StepsApart(c, w, start, end, step, drift, i);
  }

  lemma CachedAmong(market: Market, rows: map<Key, Row>, symbol: string, start: int, end: int, drift: int)
    requires ValidMarket(market) && Agrees(market, rows) && symbol in market && Drifting(market[symbol], drift)
    ensures Among(Cached(rows, NAME, symbol, start, end), RemoteWindow(market[symbol], symbol, start, end),
                  start, end, IntervalOf(market[symbol]), drift)
  {
    var l := market[symbol];
    var c, w := Cached(rows, NAME, symbol, start, end), RemoteWindow(l, symbol, start, end);
    CachedRemote(market, rows, symbol, start, end);
    RemoteWindowHas(l, symbol, start, end);
    assert forall i :: 0 <= i < |w| ==> w[i] in w;
  }

  lemma DeliversUnderDrift(market: Market, rows: map<Key, Row>, symbol: string, start: int, end: int, drift: int,
                           i: nat)
    requires ValidMarket(market) && Agrees(market, rows) && symbol in market && Drifting(market[symbol], drift)
    requires i < |RemoteWindow(market[symbol], symbol, start, end)|
    ensures var c, w := Cached(rows, NAME, symbol, start, end), RemoteWindow(market[symbol], symbol, start, end);
            Delivers(rows, symbol, start, end, w[i].timestamp) <==>
              !Lost(c, w, start, end, IntervalOf(market[symbol]), i)
  {
    var l := market[symbol];
    var c, w := Cached(rows, NAME, symbol, start, end), RemoteWindow(l, symbol, start, end);
    CachedAmong(market, rows, symbol, start, end, drift);
    CachedRemote(market, rows, symbol, start, end);
    RemoteWindowHas(l, symbol, start, end);
    assert w[i] in w;
    if w[i] !in c {
      PassedOverIsLost(c, w, start, end, IntervalOf(l), drift, i);
    }
  }

  /**
   * With any drift below half an interval, a successful fetch lists the remote window, in order, less the uncached
   * events in a short slack at either end and those coming less than an interval right after a cached row.
   */
  lemma FetchUnderDrift(market: Market, rows: map<Key, Row>, symbol: string, start: int, end: int, drift: int)
    requires ValidMarket(market) && Agrees(market, rows) && symbol in market && Drifting(market[symbol], drift)
    requires Fetch(market, rows, symbol, start, end).result.Ok?
    ensures var c, w := Cached(rows, NAME, symbol, start, end), RemoteWindow(market[symbol], symbol, start, end);
            var value := Fetch(market, rows, symbol, start, end).result.value;
            && Chronological(value) && (forall ev :: ev in value ==> ev in w)
            && (forall i :: 0 <= i < |w| ==>
                 (w[i] in value <==> !Lost(c, w, start, end, IntervalOf(market[symbol]), i)))
  {
    var l := market[symbol];
    var c, w := Cached(rows, NAME, symbol, start, end), RemoteWindow(l, symbol, start, end);
    var value := Fetch(market, rows, symbol, start, end).result.value;
    FetchCharacterised(market, rows, symbol, start, end);
    RemoteWindowHas(l, symbol, start, end);
    forall i | 0 <= i < |w| ensures w[i] in value <==> !Lost(c, w, start, end, IntervalOf(l), i) {
      assert w[i] in w;
      DeliversUnderDrift(market, rows, symbol, start, end, drift, i);
    }
  }

  /**
   * At either end at most two are lost, one when the drift is below a quarter interval; else the one right after a
   * row.
   */
  lemma LossUnderDrift(market: Market, rows: map<Key, Row>, symbol: string, start: int, end: int, drift: int, i: nat)
    requires ValidMarket(market) && Agrees(market, rows) && symbol in market && Drifting(market[symbol], drift)
    requires i < |RemoteWindow(market[symbol], symbol, start, end)|
    ensures var c, w := Cached(rows, NAME, symbol, start, end), RemoteWindow(market[symbol], symbol, start, end);
            var step := IntervalOf(market[symbol]);
            Lost(c, w, start, end, step, i) ==>
              || (i > 0 && w[i - 1] in c && w[i].timestamp - w[i - 1].timestamp < step)
              || i <= (if 4 * drift < step then 0 else 1)
              || i >= |w| - (if 4 * drift < step then 1 else 2)
  {
    CachedAmong(market, rows, symbol, start, end, drift);
    FewInSlack(Cached(rows, NAME, symbol, start, end), RemoteWindow(market[symbol], symbol, start, end),
               start, end, IntervalOf(market[symbol]), drift, i);
  }
}
