/**
 * One table shared by many fetches: any interleaving of their writes, and what a fetch lists in the midst of others.
 */
module FundingSharing {
  import opened Wrappers
  import opened RemoteHistory
  import opened FundingRateCache
  import opened FundingFetch
  import opened FundingSuccess
  import opened FundingTheorems
  import opened FundingExactness

  /** One step of some fetch on the table, filling one gap of its list, or a clear. */
  datatype Action = StoreRange(symbol: string, range: Range) | ClearRows(only: Option<string>)

  /** A range is stored when its rates can all be priced; otherwise its fetch stops and the table stays. */
  function Acted(market: Market, rows: map<Key, Row>, a: Action): map<Key, Row> {
    match a
    case ClearRows(only) => Cleared(rows, only)
    case StoreRange(symbol, range) =>
      if symbol !in market then rows
      else
        match GapEvents(market[symbol], symbol, range)
        case Err(_) => rows
        case Ok(events) => Upserted(rows, NAME, symbol, events)
  }

  function ActedAll(market: Market, rows: map<Key, Row>, actions: seq<Action>): map<Key, Row> {
    if actions == [] then rows
    else Acted(market, ActedAll(market, rows, actions[..|actions| - 1]), actions[|actions| - 1])
  }

  lemma ActedAgrees(market: Market, rows: map<Key, Row>, a: Action)
    requires ValidMarket(market) && Agrees(market, rows)
    ensures Agrees(market, Acted(market, rows, a))
  {
    if a.StoreRange? && a.symbol in market {
      var r := GapEvents(market[a.symbol], a.symbol, a.range);
      GapEventsFaithful(market[a.symbol], a.symbol, a.range);
      if r.Ok? {
        StoreGap(market, rows, a.symbol, a.range, r.value);
      }
    }
  }

  /**
   * However the writes of any number of fetches, of any symbols and ranges, and clears interleave, every row is
   * remote.
   */
  lemma {:induction false} SharedTableAgrees(market: Market, rows: map<Key, Row>, actions: seq<Action>)
    requires ValidMarket(market) && Agrees(market, rows)
    ensures Agrees(market, ActedAll(market, rows, actions))
  {
    if actions != [] {
      var front := actions[..|actions| - 1];
      SharedTableAgrees(market, rows, front);
      ActedAgrees(market, ActedAll(market, rows, front), actions[|actions| - 1]);
    }
  }

  // --- what is stored without clears ---

  /** The action stores the rates of its range, and `t` is one of them. */
  ghost predicate Stores(market: Market, a: Action, symbol: string, t: int) {
    && a.StoreRange? && a.symbol == symbol && symbol in market
    && GapPriced(market[symbol], a.range)
    && t in ToMap(market[symbol].rates) && a.range.lo <= t <= a.range.hi
  }

  ghost predicate SomeStores(market: Market, actions: seq<Action>, symbol: string, t: int) {
    exists i :: 0 <= i < |actions| && Stores(market, actions[i], symbol, t)
  }

  ghost predicate OnlyStores(actions: seq<Action>) {
    forall i :: 0 <= i < |actions| ==> actions[i].StoreRange?
  }

  lemma ActedRows(market: Market, rows: map<Key, Row>, a: Action, symbol: string, t: int)
    requires ValidMarket(market) && Agrees(market, rows) && a.StoreRange?
    ensures HasRow(Acted(market, rows, a), symbol, t) <==> HasRow(rows, symbol, t) || Stores(market, a, symbol, t)
  {
    if a.symbol in market {
      var r := GapEvents(market[a.symbol], a.symbol, a.range);
      GapEventsFaithful(market[a.symbol], a.symbol, a.range);
      GapEventsOk(market[a.symbol], a.symbol, a.range);
      if r.Ok? {
        StoreGap(market, rows, a.symbol, a.range, r.value);
      }
    }
  }

  lemma SomeStoresNext(market: Market, front: seq<Action>, last: Action, symbol: string, t: int)
    ensures SomeStores(market, front + [last], symbol, t) <==>
            SomeStores(market, front, symbol, t) || Stores(market, last, symbol, t)
  {
    var all := front + [last];
    assert all[|front|] == last;
    if SomeStores(market, front, symbol, t) {
      var i :| 0 <= i < |front| && Stores(market, front[i], symbol, t);
      assert all[i] == front[i];
    }
  }

  /** The rows after any interleaving of stores: those before it, and the rates of every range that could be stored. */
  lemma {:induction false} SharedRows(market: Market, rows: map<Key, Row>, actions: seq<Action>, symbol: string, t: int)
    requires ValidMarket(market) && Agrees(market, rows) && OnlyStores(actions)
    ensures HasRow(ActedAll(market, rows, actions), symbol, t) <==>
            HasRow(rows, symbol, t) || SomeStores(market, actions, symbol, t)
  {
    if actions != [] {
      var front, last := actions[..|actions| - 1], actions[|actions| - 1];
      SharedRows(market, rows, front, symbol, t);
      SharedTableAgrees(market, rows, front);
      ActedRows(market, ActedAll(market, rows, front), last, symbol, t);
      SomeStoresNext(market, front, last, symbol, t);
      assert actions == front + [last];
    }
  }

  // --- a fetch in the midst of others ---

  /** Since a fetch computed its gaps from `rows`, it has stored each of them, and others may have stored anything. */
  ghost predicate FetchedAmid(market: Market, rows: map<Key, Row>, actions: seq<Action>, symbol: string, start: int,
                              end: int) {
    && ValidMarket(market) && Agrees(market, rows) && symbol in market && OnlyStores(actions)
    && AllPriced(market[symbol], WindowGaps(rows, symbol, start, end))
    && forall i :: 0 <= i < |WindowGaps(rows, symbol, start, end)| ==>
         StoreRange(symbol, WindowGaps(rows, symbol, start, end)[i]) in actions
  }

  lemma OwnGapIsStored(market: Market, rows: map<Key, Row>, actions: seq<Action>, symbol: string, start: int,
                       end: int, t: int)
    requires FetchedAmid(market, rows, actions, symbol, start, end)
    requires t in ToMap(market[symbol].rates) && InSomeGap(WindowGaps(rows, symbol, start, end), t)
    ensures SomeStores(market, actions, symbol, t)
  {
    var gaps := WindowGaps(rows, symbol, start, end);
    var i :| 0 <= i < |gaps| && gaps[i].lo <= t <= gaps[i].hi;
    assert GapPriced(market[symbol], gaps[i]);
    var k :| 0 <= k < |actions| && actions[k] == StoreRange(symbol, gaps[i]);
    assert Stores(market, actions[k], symbol, t);
  }

  /**
   * What a fetch lists whose gaps come from an older table: the remote events of the window, each once and in order,
     that
   * it would have delivered on its own, or that others have stored since.
   */
  lemma SharedFetchLists(market: Market, rows: map<Key, Row>, actions: seq<Action>, symbol: string, start: int,
                         end: int,
                         ev: FundingEvent)
    requires FetchedAmid(market, rows, actions, symbol, start, end)
    ensures Chronological(Cached(ActedAll(market, rows, actions), NAME, symbol, start, end))
    ensures ev in Cached(ActedAll(market, rows, actions), NAME, symbol, start, end) <==>
            && IsRemote(market[symbol], symbol, ev) && start <= ev.timestamp <= end
            && (Delivers(rows, symbol, start, end, ev.timestamp) || SomeStores(market, actions, symbol, ev.timestamp))
  {
    var stored := ActedAll(market, rows, actions);
    SharedTableAgrees(market, rows, actions);
    CachedRemote(market, stored, symbol, start, end);
    if IsRemote(market[symbol], symbol, ev) && start <= ev.timestamp <= end {
      SharedRows(market, rows, actions, symbol, ev.timestamp);
      RemoteGapCoverage(market, rows, symbol, start, end, ev.timestamp);
      if InSomeGap(WindowGaps(rows, symbol, start, end), ev.timestamp) {
        OwnGapIsStored(market, rows, actions, symbol, start, end, ev.timestamp);
      }
    }
  }

  /** So a fetch in the midst of others lists no less than it would have listed on its own. */
  lemma SharedFetchListsNoLess(market: Market, rows: map<Key, Row>, actions: seq<Action>, symbol: string, start: int,
                               end: int,
                               ev: FundingEvent)
    requires FetchedAmid(market, rows, actions, symbol, start, end)
    ensures Fetch(market, rows, symbol, start, end).result.Ok?
    ensures ev in Fetch(market, rows, symbol, start, end).result.value ==>
            ev in Cached(ActedAll(market, rows, actions), NAME, symbol, start, end)
  {
    FetchSucceedsIff(market, rows, symbol, start, end);
    FetchCharacterised(market, rows, symbol, start, end);
    SharedFetchLists(market, rows, actions, symbol, start, end, ev);
  }
}
