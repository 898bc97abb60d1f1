/** Fetching a window again: what is left over by a successful fetch, and that no repetition removes it. */
module FundingRepeat {
  import opened Wrappers
  import opened RemoteHistory
  import opened FundingRateCache
  import opened FundingFetch
  import opened FundingSuccess
  import opened FundingTheorems
  import opened FundingExactness
  import opened FundingJitter
  import opened FundingRecovery
  import opened FundingSettling

  // --- any spacing: a repetition changes nothing ---

  lemma CompleteIsInterrupted(market: Market, rows: map<Key, Row>, symbol: string, start: int, end: int)
    requires ValidMarket(market) && Agrees(market, rows) && symbol in market
    requires Fetch(market, rows, symbol, start, end).result.Ok?
    ensures Interrupted(market, rows, symbol, start, end, |WindowGaps(rows, symbol, start, end)|,
                        Fetch(market, rows, symbol, start, end).rows)
  {
    var gaps := WindowGaps(rows, symbol, start, end);
    assert gaps[..|gaps|] == gaps;
  }

  /** Whatever gaps a successful fetch leaves in its window, they hold no rate that is not already stored. */
  lemma LeftGapsAreSpent(market: Market, rows: map<Key, Row>, symbol: string, start: int, end: int, t: int)
    requires ValidMarket(market) && Agrees(market, rows) && Fetch(market, rows, symbol, start, end).result.Ok?
    requires symbol in market && t in ToMap(market[symbol].rates) && start <= t <= end
    requires InSomeGap(WindowGaps(Fetch(market, rows, symbol, start, end).rows, symbol, start, end), t)
    ensures HasRow(Fetch(market, rows, symbol, start, end).rows, symbol, t)
  {
    var stored := Fetch(market, rows, symbol, start, end).rows;
    FetchCharacterised(market, rows, symbol, start, end);
    CompleteIsInterrupted(market, rows, symbol, start, end);
    DeliversUnchanged(market, rows, symbol, start, end, |WindowGaps(rows, symbol, start, end)|, stored, t);
    RemoteGapCoverage(market, stored, symbol, start, end, t);
    StoredAfter(market, rows, symbol, start, end, t);
  }

  lemma {:induction false} FillingKeepsOthers(l: Listing, rows: map<Key, Row>, symbol: string, gaps: seq<Range>, k: Key)
    requires ValidListing(l) && (k.exchange != NAME || k.symbol != symbol)
    ensures var filled := FillGaps(l, rows, symbol, gaps).rows;
            (k in filled <==> k in rows) && (k in rows ==> filled[k] == rows[k])
    decreases |gaps|
  {
    if gaps != [] {
      var r := GapEvents(l, symbol, gaps[0]);
      if r.Ok? {
        UpsertKeepsOthers(rows, NAME, symbol, r.value, k);
        FillingKeepsOthers(l, Upserted(rows, NAME, symbol, r.value), symbol, gaps[1..], k);
      }
    }
  }

  /** The rates of the gaps are all stored already. */
  ghost predicate Spent(l: Listing, rows: map<Key, Row>, symbol: string, gaps: seq<Range>) {
    forall t :: t in ToMap(l.rates) && InSomeGap(gaps, t) ==> HasRow(rows, symbol, t)
  }

  lemma SpentGapsAddNothing(market: Market, rows: map<Key, Row>, symbol: string, gaps: seq<Range>)
    requires ValidMarket(market) && Agrees(market, rows) && symbol in market &&
             Spent(market[symbol], rows, symbol, gaps)
    requires FillGaps(market[symbol], rows, symbol, gaps).error.None?
    ensures FillGaps(market[symbol], rows, symbol, gaps).rows == rows
  {
    var filled := FillGaps(market[symbol], rows, symbol, gaps).rows;
    FillGapsAgrees(market, rows, symbol, gaps);
    forall k ensures (k in filled <==> k in rows) && (k in rows ==> filled[k] == rows[k]) {
      if k.exchange == NAME && k.symbol == symbol {
        assert k == Key(NAME, symbol, k.ms);
        assert HasRow(filled, symbol, k.ms) <==> HasRow(rows, symbol, k.ms);
      } else {
        FillingKeepsOthers(market[symbol], rows, symbol, gaps, k);
      }
    }
  }

  /** Filling spent gaps leaves the table as it is, even where it stops at an error. */
  lemma SpentGapsKeepTable(market: Market, rows: map<Key, Row>, symbol: string, gaps: seq<Range>)
    requires ValidMarket(market) && Agrees(market, rows) && symbol in market &&
             Spent(market[symbol], rows, symbol, gaps)
    ensures FillGaps(market[symbol], rows, symbol, gaps).rows == rows
  {
    var l := market[symbol];
    if FillGaps(l, rows, symbol, gaps).error.Some? {
      var k := FailureIsAbort(l, rows, symbol, gaps);
      forall t | t in ToMap(l.rates) && InSomeGap(gaps[..k], t) ensures HasRow(rows, symbol, t) {
        FirstGaps(gaps, k, t);
      }
      SpentGapsAddNothing(market, rows, symbol, gaps[..k]);
    } else {
      SpentGapsAddNothing(market, rows, symbol, gaps);
    }
  }

  lemma LeftGapsInWindow(market: Market, rows: map<Key, Row>, symbol: string, start: int, end: int, t: int)
    requires ValidMarket(market) && Agrees(market, rows) && symbol in market
    requires InSomeGap(WindowGaps(rows, symbol, start, end), t)
    ensures start <= t <= end
  {
    var c := Cached(rows, NAME, symbol, start, end);
    CachedRemote(market, rows, symbol, start, end);
    assert PositiveIntervals(c) by {
      assert forall i :: 0 <= i < |c| ==> c[i] in c;
    }
    if c == [] {
      OneGap(Gaps(c, start, end), t);
    } else {
      GapShape(c, start, end);
    }
  }

  /**
   * With any spacing of the events: fetching a window again after a success leaves the very same table, and gives the
   * same list or fails; it fails on a rate that is stored already but has no kline in the gap that asks for it.
   */
  lemma RepeatChangesNothing(market: Market, rows: map<Key, Row>, symbol: string, start: int, end: int)
    requires ValidMarket(market) && Agrees(market, rows) && symbol in market
    requires Fetch(market, rows, symbol, start, end).result.Ok?
    ensures var o := Fetch(market, rows, symbol, start, end);
            var again := Fetch(market, o.rows, symbol, start, end);
            again.rows == o.rows &&
            (again.result == o.result <==> AllPriced(market[symbol], WindowGaps(o.rows, symbol, start, end)))
  {
    var l, o := market[symbol], Fetch(market, rows, symbol, start, end);
    FetchCharacterised(market, rows, symbol, start, end);
    FetchSucceedsIff(market, o.rows, symbol, start, end);
    var gaps := WindowGaps(o.rows, symbol, start, end);
    forall t | t in ToMap(l.rates) && InSomeGap(gaps, t) ensures HasRow(o.rows, symbol, t) {
      LeftGapsInWindow(market, o.rows, symbol, start, end, t);
      LeftGapsAreSpent(market, rows, symbol, start, end, t);
    }
    SpentGapsKeepTable(market, o.rows, symbol, gaps);
  }

  /** However often a window is fetched again after a success, the table and the gaps it leaves stay what they are. */
  lemma {:induction false} NoRepetitionHelps(market: Market, rows: map<Key, Row>, symbol: string, start: int, end: int,
                                             ops: seq<Operation>)
    requires ValidMarket(market) && Agrees(market, rows) && symbol in market
    requires Fetch(market, rows, symbol, start, end).result.Ok?
    requires forall i :: 0 <= i < |ops| ==> ops[i] == CompleteFetch(symbol, start, end)
    ensures Run(market, Fetch(market, rows, symbol, start, end).rows, ops) ==
            Fetch(market, rows, symbol, start, end).rows
  {
    if ops != [] {
      RepeatChangesNothing(market, rows, symbol, start, end);
      NoRepetitionHelps(market, rows, symbol, start, end, ops[1..]);
    }
  }

  // --- drifting events: when nothing is left ---

  /** The window's cached rows sit among its rates, which drift. */
  lemma CachedAmongDrifting(market: Market, rows: map<Key, Row>, symbol: string, start: int, end: int, drift: int)
    requires ValidMarket(market) && Agrees(market, rows) && symbol in market && Drifting(market[symbol], drift)
    ensures Among(Cached(rows, NAME, symbol, start, end), RateWindow(market[symbol], symbol, start, end),
                  start, end, IntervalOf(market[symbol]), drift)
  {
    var l := market[symbol];
    var c, w := Cached(rows, NAME, symbol, start, end), RateWindow(l, symbol, start, end);
    CachedRemote(market, rows, symbol, start, end);
    RateWindowOrdered(l, symbol, start, end);
    forall i, j | 0 <= i < j < |w| ensures w[j].timestamp - w[i].timestamp >= IntervalOf(l) - drift {
      RateAt(l, symbol, start, end, i);
      RateAt(l, symbol, start, end, j);
    }
    forall ev | ev in c ensures ev in w && Interval(ev) == IntervalOf(l) {
      var j := RemoteIsRate(l, symbol, start, end, ev);
    }
  }

  /** The rows `d` of the window after a successful fetch: the rates `w` that were not lost. */
  ghost predicate Survivors(c: seq<FundingEvent>, w: seq<FundingEvent>, d: seq<FundingEvent>, start: int, end: int,
                            step: int) {
    && Chronological(d) && (forall ev :: ev in d ==> ev in w)
    && forall i :: 0 <= i < |w| ==> (w[i] in d <==> !Lost(c, w, start, end, step, i))
  }

  lemma StoredAreSurvivors(market: Market, rows: map<Key, Row>, symbol: string, start: int, end: int, drift: int)
    requires ValidMarket(market) && Agrees(market, rows) && symbol in market && Drifting(market[symbol], drift)
    requires Fetch(market, rows, symbol, start, end).result.Ok?
    ensures Survivors(Cached(rows, NAME, symbol, start, end), RateWindow(market[symbol], symbol, start, end),
                      Cached(Fetch(market, rows, symbol, start, end).rows, NAME, symbol, start, end),
                      start, end, IntervalOf(market[symbol]))
  {
    var l, stored := market[symbol], Fetch(market, rows, symbol, start, end).rows;
    var c, w := Cached(rows, NAME, symbol, start, end), RateWindow(l, symbol, start, end);
    var d := Cached(stored, NAME, symbol, start, end);
    FetchCharacterised(market, rows, symbol, start, end);
    CachedRemote(market, stored, symbol, start, end);
    forall ev | ev in d ensures ev in w {
      var j := RemoteIsRate(l, symbol, start, end, ev);
    }
    forall i | 0 <= i < |w| ensures w[i] in d <==> !Lost(c, w, start, end, IntervalOf(l), i) {
      SurvivesIff(market, rows, symbol, start, end, drift, c, w, i);
    }
  }

  lemma SurvivesIff(market: Market, rows: map<Key, Row>, symbol: string, start: int, end: int, drift: int,
                    c: seq<FundingEvent>, w: seq<FundingEvent>, i: nat)
    requires ValidMarket(market) && Agrees(market, rows) && symbol in market && Drifting(market[symbol], drift)
    requires Fetch(market, rows, symbol, start, end).result.Ok?
    requires c == Cached(rows, NAME, symbol, start, end) && w == RateWindow(market[symbol], symbol, start, end) &&
             i < |w|
    ensures w[i] in Cached(Fetch(market, rows, symbol, start, end).rows, NAME, symbol, start, end) <==>
            !Lost(c, w, start, end, IntervalOf(market[symbol]), i)
  {
    var l, stored := market[symbol], Fetch(market, rows, symbol, start, end).rows;
    RateAt(l, symbol, start, end, i);
    StoredAfter(market, rows, symbol, start, end, w[i].timestamp);
    FetchCharacterised(market, rows, symbol, start, end);
    RowIsCached(market, rows, symbol, start, end, w[i]);
    RowIsCached(market, stored, symbol, start, end, w[i]);
    if w[i] !in c {
      CachedAmongDrifting(market, rows, symbol, start, end, drift);
      PassedOverIsLost(c, w, start, end, IntervalOf(l), drift, i);
    }
  }

  lemma RowIsCached(market: Market, rows: map<Key, Row>, symbol: string, start: int, end: int, ev: FundingEvent)
    requires Agrees(market, rows) && symbol in market && start <= ev.timestamp <= end
    requires RemoteRow(market[symbol], ev.timestamp).Some? ==> IsRemote(market[symbol], symbol, ev)
    ensures ev in Cached(rows, NAME, symbol, start, end) <==> HasRow(rows, symbol, ev.timestamp)
  {
    CachedRemote(market, rows, symbol, start, end);
    if HasRow(rows, symbol, ev.timestamp) {
      assert RemoteRow(market[symbol], ev.timestamp).Some?;
    }
  }

  /** An early event whose loss does not show: the events around it are still at most 1.5 intervals apart. */
  predicate Bridged(w: seq<FundingEvent>, slack: int, i: nat)
    requires i < |w|
  {
    0 < i < |w| - 1 && w[i + 1].timestamp - w[i - 1].timestamp <= slack
  }

  /** A loss that leaves no gap. */
  predicate LeavesNoGap(c: seq<FundingEvent>, w: seq<FundingEvent>, start: int, end: int, slack: int, i: nat)
    requires i < |w|
  {
    InStartSlack(c, start, w[i].timestamp) || InEndSlack(c, end, w[i].timestamp) || Bridged(w, slack, i)
  }

  ghost predicate LossesLeaveNoGap(c: seq<FundingEvent>, w: seq<FundingEvent>, start: int, end: int, step: int,
                                   slack: int) {
    forall i :: 0 <= i < |w| && Lost(c, w, start, end, step, i) ==> LeavesNoGap(c, w, start, end, slack, i)
  }

  /** The rates of a window, some of them cached, and what a fetch has left of them. */
  ghost predicate AfterFetch(c: seq<FundingEvent>, w: seq<FundingEvent>, d: seq<FundingEvent>, start: int, end: int,
                          step: int, drift: int, slack: int)
  {
    && Among(c, w, start, end, step, drift) && Survivors(c, w, d, start, end, step)
    && CloseTogether(w, start, end, slack)
    && (forall ev :: ev in w ==> Tolerance(ev) == slack)
  }

  /** What follows an early event, lost but not at an end, survives. */
  lemma NextSurvives(c: seq<FundingEvent>, w: seq<FundingEvent>, d: seq<FundingEvent>, start: int, end: int,
                     step: int, drift: int, slack: int, i: nat)
    requires AfterFetch(c, w, d, start, end, step, drift, slack) && i < |w| && Lost(c, w, start, end, step, i)
    requires !InStartSlack(c, start, w[i].timestamp) && !InEndSlack(c, end, w[i].timestamp)
    ensures i > 0 && w[i - 1] in c && w[i - 1] in d
    ensures i + 1 < |w| ==> w[i + 1] in d
    ensures i + 1 == |w| ==> end - w[i - 1].timestamp > slack
  {
    var k := IndexOf(w[i - 1], c);
    assert !Lost(c, w, start, end, step, i - 1);
    var m := IndexOf(c[|c| - 1], w);
    assert m >= i - 1 && m != i;
    if i + 1 < |w| {
      assert !EarlyAfterRow(c, w, step, i + 1);
    } else {
      assert m == i - 1;
    }
  }

  /** Neighbours among the survivors are neighbours among the rates up to what was lost between them. */
  lemma LostBetween(c: seq<FundingEvent>, w: seq<FundingEvent>, d: seq<FundingEvent>, start: int, end: int, step: int,
                    k: nat, i: nat, j: nat, m: nat)
    requires Chronological(w) && Survivors(c, w, d, start, end, step)
    requires k + 1 < |d| && i < m < j < |w| && d[k] == w[i] && d[k + 1] == w[j]
    ensures Lost(c, w, start, end, step, m)
  {
    if w[m] in d {
      var n := IndexOf(w[m], d);
    }
  }

  lemma NoGapMeansNoLoss(c: seq<FundingEvent>, w: seq<FundingEvent>, d: seq<FundingEvent>, start: int, end: int,
                         step: int, drift: int, slack: int, i: nat)
    requires AfterFetch(c, w, d, start, end, step, drift, slack) && i < |w| && Lost(c, w, start, end, step, i)
    requires CloseTogether(d, start, end, slack)
    ensures LeavesNoGap(c, w, start, end, slack, i)
  {
    if !InStartSlack(c, start, w[i].timestamp) && !InEndSlack(c, end, w[i].timestamp) {
      NextSurvives(c, w, d, start, end, step, drift, slack, i);
      var k := IndexOf(w[i - 1], d);
      if i + 1 < |w| {
        var n := IndexOf(w[i + 1], d);
        AdjacentSurvivors(c, w, d, start, end, step, i, k, n);
      } else {
        LastSurvivor(w, d, i, k);
      }
    }
  }

  lemma AdjacentSurvivors(c: seq<FundingEvent>, w: seq<FundingEvent>, d: seq<FundingEvent>, start: int, end: int,
                          step: int,
                          i: nat, k: nat, n: nat)
    requires Chronological(w) && Survivors(c, w, d, start, end, step)
    requires 0 < i < |w| - 1 && Lost(c, w, start, end, step, i)
    requires k < |d| && n < |d| && d[k] == w[i - 1] && d[n] == w[i + 1]
    ensures n == k + 1
  {
    if n > k + 1 {
      var m := IndexOf(d[k + 1], w);
    }
  }

  lemma LastSurvivor(w: seq<FundingEvent>, d: seq<FundingEvent>, i: nat, k: nat)
    requires Chronological(w) && Chronological(d) && (forall ev :: ev in d ==> ev in w)
    requires 0 < i == |w| - 1 && w[i] !in d && k < |d| && d[k] == w[i - 1]
    ensures k == |d| - 1
  {
    if k < |d| - 1 {
      var m := IndexOf(d[k + 1], w);
    }
  }

  lemma CloseSurvivors(c: seq<FundingEvent>, w: seq<FundingEvent>, d: seq<FundingEvent>, start: int, end: int,
                       step: int, drift: int, slack: int, k: nat)
    requires AfterFetch(c, w, d, start, end, step, drift, slack) && k + 1 < |d|
    requires LossesLeaveNoGap(c, w, start, end, step, slack)
    ensures d[k + 1].timestamp - d[k].timestamp <= slack
  {
    var i := IndexOf(d[k], w);
    var j := IndexOf(d[k + 1], w);
    assert i < j;
    if i + 1 < j {
      LostBetween(c, w, d, start, end, step, k, i, j, i + 1);
      NotInSlack(c, w, start, end, step, i, j);
      NextSurvives(c, w, d, start, end, step, drift, slack, i + 1);
      if i + 2 < j {
        LostBetween(c, w, d, start, end, step, k, i, j, i + 2);
      }
    }
  }

  /** A slack that holds an event holds everything beyond it. */
  lemma EarlierInStartSlack(c: seq<FundingEvent>, w: seq<FundingEvent>, start: int, end: int, step: int, i: nat, j: nat)
    requires Chronological(c) && Chronological(w) && i < j < |w| && InStartSlack(c, start, w[j].timestamp)
    ensures Lost(c, w, start, end, step, i)
  {
    assert forall k :: 0 <= k < |c| ==> c[k] != w[i];
  }

  lemma LaterInEndSlack(c: seq<FundingEvent>, w: seq<FundingEvent>, start: int, end: int, step: int, i: nat, j: nat)
    requires Chronological(c) && Chronological(w) && i < j < |w| && InEndSlack(c, end, w[i].timestamp)
    ensures Lost(c, w, start, end, step, j)
  {
    assert forall k :: 0 <= k < |c| ==> c[k] != w[j];
  }

  /** What lies between two survivors lies in no slack. */
  lemma NotInSlack(c: seq<FundingEvent>, w: seq<FundingEvent>, start: int, end: int, step: int, i: nat, j: nat)
    requires Chronological(c) && Chronological(w) && i + 1 < j < |w|
    requires !Lost(c, w, start, end, step, i) && !Lost(c, w, start, end, step, j)
    ensures !InStartSlack(c, start, w[i + 1].timestamp) && !InEndSlack(c, end, w[i + 1].timestamp)
  {
    if InStartSlack(c, start, w[i + 1].timestamp) {
      EarlierInStartSlack(c, w, start, end, step, i, i + 1);
    }
    if InEndSlack(c, end, w[i + 1].timestamp) {
      LaterInEndSlack(c, w, start, end, step, i + 1, j);
    }
  }

  // --- the ends ---

  lemma SomethingSurvives(c: seq<FundingEvent>, w: seq<FundingEvent>, d: seq<FundingEvent>, start: int, end: int,
                          step: int, drift: int, slack: int)
    requires AfterFetch(c, w, d, start, end, step, drift, slack)
    ensures d != [] && forall ev :: ev in c ==> ev in d
  {
    forall ev | ev in c ensures ev in d {
      var i := IndexOf(ev, w);
      assert !Lost(c, w, start, end, step, i);
    }
    if c == [] {
      assert !Lost(c, w, start, end, step, 0);
    } else {
      assert c[0] in d;
    }
  }

  lemma ReachesStart(d: seq<FundingEvent>, start: int, ev: FundingEvent, slack: int)
    requires Chronological(d) && ev in d && ev.timestamp - start <= slack
    ensures d[0].timestamp - start <= slack
  {
    var k := IndexOf(ev, d);
  }

  lemma ReachesEnd(d: seq<FundingEvent>, end: int, ev: FundingEvent, slack: int)
    requires Chronological(d) && ev in d && end - ev.timestamp <= slack
    ensures end - d[|d| - 1].timestamp <= slack
  {
    var k := IndexOf(ev, d);
  }

  lemma CloseAtStart(c: seq<FundingEvent>, w: seq<FundingEvent>, d: seq<FundingEvent>, start: int, end: int,
                     step: int, drift: int, slack: int)
    requires AfterFetch(c, w, d, start, end, step, drift, slack) && d != [] && forall ev :: ev in c ==> ev in d
    ensures d[0].timestamp - start <= slack
  {
    if Lost(c, w, start, end, step, 0) {
      FirstLostInSlack(c, w, start, end, step, drift);
      assert c[0] in c && Tolerance(c[0]) == slack;
      ReachesStart(d, start, c[0], slack);
    } else {
      ReachesStart(d, start, w[0], slack);
    }
  }

  lemma FirstLostInSlack(c: seq<FundingEvent>, w: seq<FundingEvent>, start: int, end: int, step: int, drift: int)
    requires Among(c, w, start, end, step, drift) && w != [] && Lost(c, w, start, end, step, 0)
    ensures InStartSlack(c, start, w[0].timestamp)
  {
    if c != [] {
      var m := IndexOf(c[|c| - 1], w);
    }
  }

  lemma CloseAtEnd(c: seq<FundingEvent>, w: seq<FundingEvent>, d: seq<FundingEvent>, start: int, end: int,
                   step: int, drift: int, slack: int)
    requires AfterFetch(c, w, d, start, end, step, drift, slack) && d != [] && forall ev :: ev in c ==> ev in d
    requires LossesLeaveNoGap(c, w, start, end, step, slack)
    ensures end - d[|d| - 1].timestamp <= slack
  {
    if Lost(c, w, start, end, step, |w| - 1) {
      LastLostInSlack(c, w, start, end, step, drift, slack);
      var last := c[|c| - 1];
      assert last in c && Tolerance(last) == slack;
      ReachesEnd(d, end, last, slack);
    } else {
      ReachesEnd(d, end, w[|w| - 1], slack);
    }
  }

  lemma LastLostInSlack(c: seq<FundingEvent>, w: seq<FundingEvent>, start: int, end: int, step: int, drift: int,
                        slack: int)
    requires Among(c, w, start, end, step, drift) && w != [] && LeavesNoGap(c, w, start, end, slack, |w| - 1)
    ensures InEndSlack(c, end, w[|w| - 1].timestamp)
  {
    if c != [] {
      var m := IndexOf(c[0], w);
    }
  }

  lemma NoLossMeansNoGap(c: seq<FundingEvent>, w: seq<FundingEvent>, d: seq<FundingEvent>, start: int, end: int,
                         step: int, drift: int, slack: int)
    requires AfterFetch(c, w, d, start, end, step, drift, slack)
    requires LossesLeaveNoGap(c, w, start, end, step, slack)
    ensures CloseTogether(d, start, end, slack)
  {
    SomethingSurvives(c, w, d, start, end, step, drift, slack);
    CloseAtStart(c, w, d, start, end, step, drift, slack);
    CloseAtEnd(c, w, d, start, end, step, drift, slack);
    CloseSteps(c, w, d, start, end, step, drift, slack);
  }

  lemma CloseSteps(c: seq<FundingEvent>, w: seq<FundingEvent>, d: seq<FundingEvent>, start: int, end: int,
                   step: int, drift: int, slack: int)
    requires AfterFetch(c, w, d, start, end, step, drift, slack) && LossesLeaveNoGap(c, w, start, end, step, slack)
    ensures StepsWithin(d, slack)
  {
    forall k, n | 0 <= k < n < |d| && n == k + 1 ensures d[n].timestamp - d[k].timestamp <= slack {
      CloseSurvivors(c, w, d, start, end, step, drift, slack, k);
    }
  }

  lemma FetchedRates(market: Market, rows: map<Key, Row>, symbol: string, start: int, end: int, drift: int)
    requires ValidMarket(market) && Agrees(market, rows) && symbol in market
    requires Drifting(market[symbol], drift) && Dense(market[symbol])
    requires ContinuesPast(market[symbol], start, end) && HoldsARate(market[symbol], start, end)
    requires Fetch(market, rows, symbol, start, end).result.Ok?
    ensures AfterFetch(Cached(rows, NAME, symbol, start, end), RateWindow(market[symbol], symbol, start, end),
                    Cached(Fetch(market, rows, symbol, start, end).rows, NAME, symbol, start, end),
                    start, end, IntervalOf(market[symbol]), drift, Slack(market[symbol]))
  {
    var l, w := market[symbol], RateWindow(market[symbol], symbol, start, end);
    var t :| t in ToMap(l.rates) && start <= t <= end;
    var j := RateIndex(l, symbol, start, end, t);
    CloseWindow(l, symbol, start, end);
    CachedAmongDrifting(market, rows, symbol, start, end, drift);
    StoredAreSurvivors(market, rows, symbol, start, end, drift);
    forall ev | ev in w ensures Tolerance(ev) == Slack(l) {
      var i := IndexOf(ev, w);
      RateAt(l, symbol, start, end, i);
    }
  }

  /**
   * With events that drift by less than half an interval and follow each other within 1.5 intervals, a successful fetch
   * settles its window if and only if each event it loses lies in a short slack at an end or between events that are
   * still at most 1.5 intervals apart. Otherwise no number of repetitions settles it, by `NoRepetitionHelps`.
   */
  lemma SettledUnderDriftIff(market: Market, rows: map<Key, Row>, symbol: string, start: int, end: int, drift: int)
    requires ValidMarket(market) && Agrees(market, rows) && symbol in market
    requires Drifting(market[symbol], drift) && Dense(market[symbol])
    requires ContinuesPast(market[symbol], start, end) && HoldsARate(market[symbol], start, end)
    requires Fetch(market, rows, symbol, start, end).result.Ok?
    ensures var c, w := Cached(rows, NAME, symbol, start, end), RateWindow(market[symbol], symbol, start, end);
            var step, slack := IntervalOf(market[symbol]), Slack(market[symbol]);
            WindowGaps(Fetch(market, rows, symbol, start, end).rows, symbol, start, end) == [] <==>
              LossesLeaveNoGap(c, w, start, end, step, slack)
  {
    var l := market[symbol];
    var c, w := Cached(rows, NAME, symbol, start, end), RateWindow(l, symbol, start, end);
    var d := Cached(Fetch(market, rows, symbol, start, end).rows, NAME, symbol, start, end);
    FetchedRates(market, rows, symbol, start, end, drift);
    SettledIff(c, w, d, start, end, IntervalOf(l), drift, Slack(l));
  }

  lemma SettledIff(c: seq<FundingEvent>, w: seq<FundingEvent>, d: seq<FundingEvent>, start: int, end: int,
                   step: int, drift: int, slack: int)
    requires AfterFetch(c, w, d, start, end, step, drift, slack)
    ensures Gaps(d, start, end) == [] <==>
            LossesLeaveNoGap(c, w, start, end, step, slack)
  {
    assert forall i :: 0 <= i < |d| ==> d[i] in d;
    NoGapsIff(d, start, end, slack);
    if CloseTogether(d, start, end, slack) {
      forall i | 0 <= i < |w| && Lost(c, w, start, end, step, i) ensures LeavesNoGap(c, w, start, end, slack, i) {
        NoGapMeansNoLoss(c, w, d, start, end, step, drift, slack, i);
      }
    } else if LossesLeaveNoGap(c, w, start, end, step, slack) {
      NoLossMeansNoGap(c, w, d, start, end, step, drift, slack);
    }
  }

  /** With a drift below a quarter interval such bridges do not occur: only what is lost at an end leaves no gap. */
  lemma NoBridgeBelowQuarter(c: seq<FundingEvent>, w: seq<FundingEvent>, start: int, end: int, step: int, drift: int,
                             slack: int, i: nat)
    requires Among(c, w, start, end, step, drift) && 4 * drift < step && slack == (step * 3) / 2 && i < |w|
    ensures !Bridged(w, slack, i)
  {
    StepsApart(c, w, start, end, step, drift, i - 1);
  }
}
