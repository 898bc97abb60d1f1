/** When a window is settled for good: nothing is missing after a fetch, and another one changes nothing. */
module FundingSettling {
  import Ordering
  import opened Wrappers
  import opened RemoteHistory
  import opened FundingRateCache
  import opened FundingFetch
  import opened FundingSuccess
  import opened FundingTheorems
  import opened FundingExactness

  // --- the rates of a window as events, priced or not ---

  /** The remote event of a rate; without a mark price it only stands for the instant. */
  function RateEvent(l: Listing, symbol: string, r: Stamped<real>): FundingEvent {
    match RemoteRow(l, r.time)
    case Some(row) => EventAt(symbol, r.time, row)
    case None => FundingEvent(r.time, symbol, r.value, 0.0, l.intervalHours)
  }

  function RateWindow(l: Listing, symbol: string, start: int, end: int): seq<FundingEvent> {
    var rates := InRange(l.rates, start, end);
    seq(|rates|, i requires 0 <= i < |rates| => RateEvent(l, symbol, rates[i]))
  }

  lemma RateAt(l: Listing, symbol: string, start: int, end: int, i: nat)
    requires ValidListing(l) && i < |RateWindow(l, symbol, start, end)|
    ensures var ev := RateWindow(l, symbol, start, end)[i];
            && ev.timestamp in ToMap(l.rates) && start <= ev.timestamp <= end && Interval(ev) == IntervalOf(l)
            && (RemoteRow(l, ev.timestamp).Some? ==> IsRemote(l, symbol, ev))
  {
    var r := InRange(l.rates, start, end)[i];
    RangeTimes(l.rates, start, end, r.time);
  }

  lemma RateIndex(l: Listing, symbol: string, start: int, end: int, t: int) returns (j: nat)
    requires ValidListing(l) && t in ToMap(l.rates) && start <= t <= end
    ensures j < |RateWindow(l, symbol, start, end)| && RateWindow(l, symbol, start, end)[j].timestamp == t
  {
    RangeTimes(l.rates, start, end, t);
    j :| 0 <= j < |InRange(l.rates, start, end)| && InRange(l.rates, start, end)[j].time == t;
  }

  lemma RateWindowOrdered(l: Listing, symbol: string, start: int, end: int)
    requires ValidListing(l)
    ensures Chronological(RateWindow(l, symbol, start, end)) &&
            WithinWindow(RateWindow(l, symbol, start, end), start, end)
  {
    InRangeOrdered(l.rates, start, end);
    var w := RateWindow(l, symbol, start, end);
    forall i | 0 <= i < |w| ensures start <= w[i].timestamp <= end {
      RateAt(l, symbol, start, end, i);
    }
  }

  lemma RatesApart(l: Listing, symbol: string, start: int, end: int)
    requires ValidListing(l) && Spaced(l)
    ensures var w := RateWindow(l, symbol, start, end);
            forall i, j :: 0 <= i < j < |w| ==> w[j].timestamp - w[i].timestamp >= IntervalOf(l)
  {
    RateWindowOrdered(l, symbol, start, end);
    var w := RateWindow(l, symbol, start, end);
    forall i, j | 0 <= i < j < |w| ensures w[j].timestamp - w[i].timestamp >= IntervalOf(l) {
      RateAt(l, symbol, start, end, i);
      RateAt(l, symbol, start, end, j);
    }
  }

  lemma RemoteIsRate(l: Listing, symbol: string, start: int, end: int, ev: FundingEvent) returns (j: nat)
    requires ValidListing(l) && IsRemote(l, symbol, ev) && start <= ev.timestamp <= end
    ensures j < |RateWindow(l, symbol, start, end)| && RateWindow(l, symbol, start, end)[j] == ev
  {
    j := RateIndex(l, symbol, start, end, ev.timestamp);
  }

  /** The window's cached rows sit among its rates. */
  lemma CachedAmongRates(market: Market, rows: map<Key, Row>, symbol: string, start: int, end: int)
    requires ValidMarket(market) && Agrees(market, rows) && symbol in market && Spaced(market[symbol])
    ensures Inside(Cached(rows, NAME, symbol, start, end), RateWindow(market[symbol], symbol, start, end),
                   start, end, IntervalOf(market[symbol]))
  {
    var l := market[symbol];
    var c, w := Cached(rows, NAME, symbol, start, end), RateWindow(l, symbol, start, end);
    CachedRemote(market, rows, symbol, start, end);
    RateWindowOrdered(l, symbol, start, end);
    RatesApart(l, symbol, start, end);
    forall ev | ev in c ensures ev in w && Interval(ev) == IntervalOf(l) {
      var j := RemoteIsRate(l, symbol, start, end, ev);
    }
  }

  // --- what a successful fetch has stored ---

  lemma StoredAfter(market: Market, rows: map<Key, Row>, symbol: string, start: int, end: int, t: int)
    requires ValidMarket(market) && Agrees(market, rows) && Fetch(market, rows, symbol, start, end).result.Ok?
    requires symbol in market && t in ToMap(market[symbol].rates) && start <= t <= end
    ensures HasRow(Fetch(market, rows, symbol, start, end).rows, symbol, t) <==> Delivers(rows, symbol, start, end, t)
  {
    FillGapsAgrees(market, rows, symbol, WindowGaps(rows, symbol, start, end));
    RemoteGapCoverage(market, rows, symbol, start, end, t);
  }

  lemma RateDelivered(market: Market, rows: map<Key, Row>, symbol: string, start: int, end: int,
                      c: seq<FundingEvent>, w: seq<FundingEvent>, i: nat)
    requires ValidMarket(market) && Agrees(market, rows) && symbol in market && Spaced(market[symbol])
    requires c == Cached(rows, NAME, symbol, start, end) && w == RateWindow(market[symbol], symbol, start, end) &&
             i < |w|
    ensures Delivers(rows, symbol, start, end, w[i].timestamp) <==>
            LostAtStart(c, w, start) <= i < |w| - LostAtEnd(c, w, end)
  {
    var step := IntervalOf(market[symbol]);
    CachedAmongRates(market, rows, symbol, start, end);
    CachedRemote(market, rows, symbol, start, end);
    RateAt(market[symbol], symbol, start, end, i);
    if w[i] in c {
      CachedIsKept(c, w, start, end, step, i);
    } else {
      OnlyEdgesAreLost(c, w, start, end, step, i);
      NoRowOfUncached(market, rows, symbol, start, end, w[i]);
    }
  }

  lemma NoRowOfUncached(market: Market, rows: map<Key, Row>, symbol: string, start: int, end: int, ev: FundingEvent)
    requires Agrees(market, rows) && symbol in market && start <= ev.timestamp <= end &&
             ev !in Cached(rows, NAME, symbol, start, end)
    requires RemoteRow(market[symbol], ev.timestamp).Some? ==> IsRemote(market[symbol], symbol, ev)
    ensures !HasRow(rows, symbol, ev.timestamp)
  {
    CachedRemote(market, rows, symbol, start, end);
  }

  lemma KeptOrdered(c: seq<FundingEvent>, w: seq<FundingEvent>, start: int, end: int)
    requires Chronological(w) && LostAtStart(c, w, start) + LostAtEnd(c, w, end) <= |w|
    ensures Chronological(Kept(c, w, start, end))
  {
  }

  /** After a successful fetch the table holds the window's rates less their lost ends. */
  lemma StoredIsKept(market: Market, rows: map<Key, Row>, symbol: string, start: int, end: int)
    requires ValidMarket(market) && Agrees(market, rows) && symbol in market && Spaced(market[symbol])
    requires Fetch(market, rows, symbol, start, end).result.Ok?
    ensures var c, w := Cached(rows, NAME, symbol, start, end), RateWindow(market[symbol], symbol, start, end);
            && LostAtStart(c, w, start) + LostAtEnd(c, w, end) <= |w|
            && Cached(Fetch(market, rows, symbol, start, end).rows, NAME, symbol, start, end) == Kept(c, w, start, end)
  {
    var l, o := market[symbol], Fetch(market, rows, symbol, start, end);
    var c, w := Cached(rows, NAME, symbol, start, end), RateWindow(l, symbol, start, end);
    CachedAmongRates(market, rows, symbol, start, end);
    LostEndsFit(c, w, start, end, IntervalOf(l));
    FetchCharacterised(market, rows, symbol, start, end);
    CachedRemote(market, o.rows, symbol, start, end);
    var d, kept := Cached(o.rows, NAME, symbol, start, end), Kept(c, w, start, end);
    KeptOrdered(c, w, start, end);
    forall ev ensures ev in d <==> ev in kept {
      StoredEvent(market, rows, symbol, start, end, c, w, ev);
    }
    SameMembersSameList(d, kept);
  }

  lemma StoredEvent(market: Market, rows: map<Key, Row>, symbol: string, start: int, end: int,
                    c: seq<FundingEvent>, w: seq<FundingEvent>, ev: FundingEvent)
    requires ValidMarket(market) && Agrees(market, rows) && symbol in market && Spaced(market[symbol])
    requires Fetch(market, rows, symbol, start, end).result.Ok?
    requires c == Cached(rows, NAME, symbol, start, end) && w == RateWindow(market[symbol], symbol, start, end)
    requires LostAtStart(c, w, start) + LostAtEnd(c, w, end) <= |w|
    ensures ev in Kept(c, w, start, end) <==>
            ev in Cached(Fetch(market, rows, symbol, start, end).rows, NAME, symbol, start, end)
  {
    var stored := Fetch(market, rows, symbol, start, end).rows;
    FetchCharacterised(market, rows, symbol, start, end);
    CachedRemote(market, stored, symbol, start, end);
    KeptIsPart(c, w, start, end, ev);
    if ev in Cached(stored, NAME, symbol, start, end) {
      var i := RemoteIsRate(market[symbol], symbol, start, end, ev);
    }
    if ev in w {
      var i := IndexOf(ev, w);
      StoredRate(market, rows, symbol, start, end, c, w, i);
    }
  }

  lemma StoredRate(market: Market, rows: map<Key, Row>, symbol: string, start: int, end: int,
                   c: seq<FundingEvent>, w: seq<FundingEvent>, i: nat)
    requires ValidMarket(market) && Agrees(market, rows) && symbol in market && Spaced(market[symbol])
    requires Fetch(market, rows, symbol, start, end).result.Ok?
    requires c == Cached(rows, NAME, symbol, start, end) && w == RateWindow(market[symbol], symbol, start, end) &&
             i < |w|
    requires LostAtStart(c, w, start) + LostAtEnd(c, w, end) <= |w|
    ensures w[i] in Kept(c, w, start, end) <==>
            w[i] in Cached(Fetch(market, rows, symbol, start, end).rows, NAME, symbol, start, end)
  {
    var l, stored := market[symbol], Fetch(market, rows, symbol, start, end).rows;
    RateAt(l, symbol, start, end, i);
    RateWindowOrdered(l, symbol, start, end);
    KeptAt(c, w, start, end, i);
    RateDelivered(market, rows, symbol, start, end, c, w, i);
    StoredAfter(market, rows, symbol, start, end, w[i].timestamp);
    FetchCharacterised(market, rows, symbol, start, end);
    CachedRemote(market, stored, symbol, start, end);
    if HasRow(stored, symbol, w[i].timestamp) {
      assert RemoteRow(l, w[i].timestamp).Some?;
    }
  }

  // --- close spacing leaves no gap ---

  /** One and a half of the symbol's intervals. */
  function Slack(l: Listing): int {
    (IntervalOf(l) * 3) / 2
  }

  /** Each remote rate but the last is followed by another within 1.5 intervals. */
  ghost predicate Dense(l: Listing) {
    forall t, u {:trigger FollowedSoon(l, t, u)} :: t in ToMap(l.rates) && u in ToMap(l.rates) && t < u ==>
      FollowedSoon(l, t, u)
  }

  ghost predicate FollowedSoon(l: Listing, t: int, u: int) {
    exists v :: v in ToMap(l.rates) && t < v <= u && v - t <= Slack(l)
  }

  /** The history goes on before and after the window. */
  ghost predicate ContinuesPast(l: Listing, start: int, end: int) {
    (exists t :: t in ToMap(l.rates) && t < start) && (exists t :: t in ToMap(l.rates) && t > end)
  }

  /** Some rate of the history lies in the window. */
  ghost predicate HoldsARate(l: Listing, start: int, end: int) {
    exists t :: t in ToMap(l.rates) && start <= t <= end
  }

  lemma DenseInside(l: Listing, symbol: string, start: int, end: int, i: nat)
    requires ValidListing(l) && Dense(l) && i + 1 < |RateWindow(l, symbol, start, end)|
    ensures var w := RateWindow(l, symbol, start, end);
            w[i + 1].timestamp - w[i].timestamp <= Slack(l)
  {
    var w := RateWindow(l, symbol, start, end);
    RateWindowOrdered(l, symbol, start, end);
    RateAt(l, symbol, start, end, i);
    RateAt(l, symbol, start, end, i + 1);
    assert FollowedSoon(l, w[i].timestamp, w[i + 1].timestamp);
    var v :| v in ToMap(l.rates) && w[i].timestamp < v <= w[i + 1].timestamp && v - w[i].timestamp <= Slack(l);
    var j := RateIndex(l, symbol, start, end, v);
    assert i < j <= i + 1;
  }

  lemma DenseAtStart(l: Listing, symbol: string, start: int, end: int)
    requires ValidListing(l) && Dense(l) && ContinuesPast(l, start, end) && RateWindow(l, symbol, start, end) != []
    ensures RateWindow(l, symbol, start, end)[0].timestamp - start <= Slack(l)
  {
    var first := RateWindow(l, symbol, start, end)[0].timestamp;
    RateWindowOrdered(l, symbol, start, end);
    RateAt(l, symbol, start, end, 0);
    var earlier := set t | t in ToMap(l.rates) && t < start;
    var t :| t in ToMap(l.rates) && t < start;
    assert t in earlier;
    var t0 := Ordering.Max(earlier);
    assert FollowedSoon(l, t0, first);
    var v :| v in ToMap(l.rates) && t0 < v <= first && v - t0 <= Slack(l);
    assert v !in earlier;
    var j := RateIndex(l, symbol, start, end, v);
  }

  lemma DenseAtEnd(l: Listing, symbol: string, start: int, end: int)
    requires ValidListing(l) && Dense(l) && ContinuesPast(l, start, end) && RateWindow(l, symbol, start, end) != []
    ensures var w := RateWindow(l, symbol, start, end); end - w[|w| - 1].timestamp <= Slack(l)
  {
    var w := RateWindow(l, symbol, start, end);
    RateWindowOrdered(l, symbol, start, end);
    RateAt(l, symbol, start, end, |w| - 1);
    var t1 :| t1 in ToMap(l.rates) && t1 > end;
    assert FollowedSoon(l, w[|w| - 1].timestamp, t1);
    var u :| u in ToMap(l.rates) && w[|w| - 1].timestamp < u <= t1 && u - w[|w| - 1].timestamp <= Slack(l);
    if u <= end {
      var k := RateIndex(l, symbol, start, end, u);
    }
  }

  ghost predicate StepsWithin(d: seq<FundingEvent>, slack: int) {
    forall i, j :: 0 <= i < j < |d| && j == i + 1 ==> d[j].timestamp - d[i].timestamp <= slack
  }

  ghost predicate CloseTogether(w: seq<FundingEvent>, start: int, end: int, slack: int) {
    w != [] && w[0].timestamp - start <= slack && end - w[|w| - 1].timestamp <= slack && StepsWithin(w, slack)
  }

  lemma StepsWithinNext(front: seq<FundingEvent>, last: FundingEvent, slack: int)
    requires front != []
    ensures StepsWithin(front + [last], slack) <==>
            StepsWithin(front, slack) && last.timestamp - front[|front| - 1].timestamp <= slack
  {
    var d, n := front + [last], |front|;
    assert d[n] == last && d[n - 1] == front[n - 1];
    assert forall i :: 0 <= i < n ==> d[i] == front[i];
  }

  lemma {:induction false} InteriorGapsNone(d: seq<FundingEvent>, slack: int)
    requires forall i :: 0 <= i < |d| ==> Tolerance(d[i]) == slack
    ensures InteriorGaps(d) == [] <==> StepsWithin(d, slack)
  {
    var n := |d|;
    if n >= 2 {
      var front, last := d[..n - 1], d[n - 1];
      InteriorGapsNone(front, slack);
      StepsWithinNext(front, last, slack);
      assert d == front + [last];
      assert InteriorGap(d[n - 2], last) == [] <==> last.timestamp - d[n - 2].timestamp <= slack;
    }
  }

  /** A window has no gap exactly when its rows are close together and close to its ends. */
  lemma NoGapsIff(d: seq<FundingEvent>, start: int, end: int, slack: int)
    requires forall i :: 0 <= i < |d| ==> Tolerance(d[i]) == slack
    ensures Gaps(d, start, end) == [] <==> CloseTogether(d, start, end, slack)
  {
    InteriorGapsNone(d, slack);
  }

  /** What a loss leaves first and last is still close to the window's ends, for it reaches the cached rows. */
  lemma KeptNearEnds(c: seq<FundingEvent>, w: seq<FundingEvent>, start: int, end: int, step: int, slack: int)
    requires Inside(c, w, start, end, step) && CloseTogether(w, start, end, slack)
    requires forall i :: 0 <= i < |w| ==> Tolerance(w[i]) == slack
    ensures var a, b := LostAtStart(c, w, start), |w| - LostAtEnd(c, w, end);
            a < b && w[a].timestamp - start <= slack && end - w[b - 1].timestamp <= slack
  {
    if c != [] {
      var j := IndexOf(c[0], w);
      var k := IndexOf(c[|c| - 1], w);
      CachedIsKept(c, w, start, end, step, j);
      CachedIsKept(c, w, start, end, step, k);
      var a, b := LostAtStart(c, w, start), |w| - LostAtEnd(c, w, end);
      assert w[a].timestamp <= w[j].timestamp && w[k].timestamp <= w[b - 1].timestamp;
    }
  }

  /** A stretch of a closely spaced list leaves no gap in a window it nearly fills. */
  lemma NoGapsAround(w: seq<FundingEvent>, a: nat, b: nat, start: int, end: int, slack: int)
    requires a < b <= |w| && CloseTogether(w, start, end, slack)
    requires w[a].timestamp - start <= slack && end - w[b - 1].timestamp <= slack
    requires forall i :: 0 <= i < |w| ==> Tolerance(w[i]) == slack
    ensures Gaps(w[a..b], start, end) == []
  {
    var kept := w[a..b];
    forall i, j | 0 <= i < j < |kept| && j == i + 1 ensures kept[j].timestamp - kept[i].timestamp <= slack {
      assert kept[i] == w[a + i] && kept[j] == w[a + j];
    }
    NoGapsIff(kept, start, end, slack);
  }

  lemma CloseWindow(l: Listing, symbol: string, start: int, end: int)
    requires ValidListing(l) && Dense(l) && ContinuesPast(l, start, end) && RateWindow(l, symbol, start, end) != []
    ensures CloseTogether(RateWindow(l, symbol, start, end), start, end, Slack(l))
  {
    var w := RateWindow(l, symbol, start, end);
    DenseAtStart(l, symbol, start, end);
    DenseAtEnd(l, symbol, start, end);
    forall i, j | 0 <= i < j < |w| && j == i + 1 ensures w[j].timestamp - w[i].timestamp <= Slack(l) {
      DenseInside(l, symbol, start, end, i);
    }
  }

  lemma NoGapsKept(c: seq<FundingEvent>, w: seq<FundingEvent>, start: int, end: int, step: int, slack: int)
    requires Inside(c, w, start, end, step) && CloseTogether(w, start, end, slack)
    requires forall i :: 0 <= i < |w| ==> Tolerance(w[i]) == slack
    ensures LostAtStart(c, w, start) + LostAtEnd(c, w, end) <= |w| && Gaps(Kept(c, w, start, end), start, end) == []
  {
    KeptNearEnds(c, w, start, end, step, slack);
    var a, b := LostAtStart(c, w, start), |w| - LostAtEnd(c, w, end);
    NoGapsAround(w, a, b, start, end, slack);
    assert Kept(c, w, start, end) == w[a..b];
  }

  /**
   * With rates between one and 1.5 intervals apart, continuing past both ends of a window that holds one, any
   * successful fetch settles the window: nothing is missing afterwards, and fetching again stores nothing and lists
   * the same.
   */
  lemma FetchSettles(market: Market, rows: map<Key, Row>, symbol: string, start: int, end: int)
    requires ValidMarket(market) && Agrees(market, rows) && symbol in market
    requires Spaced(market[symbol]) && Dense(market[symbol])
    requires ContinuesPast(market[symbol], start, end) && HoldsARate(market[symbol], start, end)
    requires Fetch(market, rows, symbol, start, end).result.Ok?
    ensures var o := Fetch(market, rows, symbol, start, end);
            WindowGaps(o.rows, symbol, start, end) == [] && Fetch(market, o.rows, symbol, start, end) == o
  {
    var l, o := market[symbol], Fetch(market, rows, symbol, start, end);
    var c, w := Cached(rows, NAME, symbol, start, end), RateWindow(l, symbol, start, end);
    var t :| t in ToMap(l.rates) && start <= t <= end;
    var j := RateIndex(l, symbol, start, end, t);
    CloseWindow(l, symbol, start, end);
    CachedAmongRates(market, rows, symbol, start, end);
    forall i | 0 <= i < |w| ensures Tolerance(w[i]) == Slack(l) {
      RateAt(l, symbol, start, end, i);
    }
    NoGapsKept(c, w, start, end, IntervalOf(l), Slack(l));
    StoredIsKept(market, rows, symbol, start, end);
  }
}
