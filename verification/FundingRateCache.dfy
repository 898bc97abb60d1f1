/** The local table of funding events and the computation of what a window still misses. */
module FundingRateCache {
  import opened Wrappers
  import opened Ordering

  const MS_PER_HOUR := 3_600_000

  datatype FundingEvent = FundingEvent(timestamp: int, symbol: string, rate: real, markPrice: real, intervalHours: int)

  /** Primary key and payload of one table row; the fetch time column is not modelled. */
  datatype Key = Key(exchange: string, symbol: string, ms: int)
  datatype Row = Row(rate: real, markPrice: real, intervalHours: int)

  datatype Range = Range(lo: int, hi: int)

  function RowOf(ev: FundingEvent): Row {
    Row(ev.rate, ev.markPrice, ev.intervalHours)
  }

  function EventAt(symbol: string, ms: int, row: Row): FundingEvent {
    FundingEvent(ms, symbol, row.rate, row.markPrice, row.intervalHours)
  }

  // --- the table ---

  /** INSERT OR REPLACE of `events`, in order, under (exchange, symbol). */
  function Upserted(rows: map<Key, Row>, exchange: string, symbol: string, events: seq<FundingEvent>): map<Key, Row> {
    if events == [] then rows
    else
      var last := events[|events| - 1];
      Upserted(rows, exchange, symbol, events[..|events| - 1])[Key(exchange, symbol, last.timestamp) := RowOf(last)]
  }

  /** The milliseconds within [start, end] that have a row. */
  function CachedTimes(rows: map<Key, Row>, exchange: string, symbol: string, start: int, end: int): set<int> {
    set k | k in rows && k.exchange == exchange && k.symbol == symbol && start <= k.ms <= end :: k.ms
  }

  function EventsAt(rows: map<Key, Row>, exchange: string, symbol: string, times: seq<int>): (evs: seq<FundingEvent>)
    requires forall i :: 0 <= i < |times| ==> Key(exchange, symbol, times[i]) in rows
    ensures |evs| == |times|
    ensures forall i :: 0 <= i < |evs| ==> evs[i] == EventAt(symbol, times[i], rows[Key(exchange, symbol, times[i])])
  {
    seq(|times|, i requires 0 <= i < |times| => EventAt(symbol, times[i], rows[Key(exchange, symbol, times[i])]))
  }

  /** The cached events of a window in ascending order. */
  function Cached(rows: map<Key, Row>, exchange: string, symbol: string, start: int, end: int): seq<FundingEvent> {
    EventsAt(rows, exchange, symbol, Listed(CachedTimes(rows, exchange, symbol, start, end)))
  }

  predicate InWindow(rows: map<Key, Row>, exchange: string, symbol: string, start: int, end: int, ev: FundingEvent) {
    start <= ev.timestamp <= end && ev.symbol == symbol &&
    var k := Key(exchange, symbol, ev.timestamp);
    k in rows && rows[k] == RowOf(ev)
  }

  ghost predicate Chronological(evs: seq<FundingEvent>) {
    forall i, j :: 0 <= i < j < |evs| ==> evs[i].timestamp < evs[j].timestamp
  }

  lemma CachedOrdered(rows: map<Key, Row>, exchange: string, symbol: string, start: int, end: int)
    ensures Chronological(Cached(rows, exchange, symbol, start, end))
    ensures WithinWindow(Cached(rows, exchange, symbol, start, end), start, end)
  {
  }

  /** `Cached` lists a row of the window if and only if the table holds it. */
  lemma CachedHas(rows: map<Key, Row>, exchange: string, symbol: string, start: int, end: int, ev: FundingEvent)
    ensures ev in Cached(rows, exchange, symbol, start, end) <==> InWindow(rows, exchange, symbol, start, end, ev)
  {
    var times := Listed(CachedTimes(rows, exchange, symbol, start, end));
    if InWindow(rows, exchange, symbol, start, end, ev) {
      assert Key(exchange, symbol, ev.timestamp).ms in CachedTimes(rows, exchange, symbol, start, end);
      var i :| 0 <= i < |times| && times[i] == ev.timestamp;
      assert Cached(rows, exchange, symbol, start, end)[i] == ev;
    }
  }

  /** A strictly ascending list is determined by its members. */
  lemma {:induction false} SameMembersSameList(a: seq<FundingEvent>, b: seq<FundingEvent>)
    requires Chronological(a) && Chronological(b)
    requires forall ev :: ev in a <==> ev in b
    ensures a == b
  {
    assert a != [] ==> a[0] in b;
    assert b != [] ==> b[0] in a;
    if a != [] {
      assert a[0] in b && b[0] in a;
      assert a[0] == b[0];
      forall ev
        ensures ev in a[1..] <==> ev in b[1..]
      {
        assert ev in a[1..] <==> ev in a && ev != a[0];
        assert ev in b[1..] <==> ev in b && ev != b[0];
      }
      SameMembersSameList(a[1..], b[1..]);
    }
  }

  ghost predicate HasEventAt(events: seq<FundingEvent>, t: int) {
    exists i :: 0 <= i < |events| && events[i].timestamp == t
  }

  lemma HasEventAppend(events: seq<FundingEvent>, ev: FundingEvent, t: int)
    ensures HasEventAt(events + [ev], t) <==> HasEventAt(events, t) || ev.timestamp == t
  {
    var all := events + [ev];
    assert all[|events|] == ev;
    if HasEventAt(events, t) {
      var i :| 0 <= i < |events| && events[i].timestamp == t;
      assert all[i].timestamp == t;
    }
  }

  /** Upserting writes the keys of the events and leaves every other row alone. */
  lemma {:induction false} UpsertKeepsOthers(rows: map<Key, Row>, exchange: string, symbol: string,
                                             events: seq<FundingEvent>, k: Key)
    requires !(k.exchange == exchange && k.symbol == symbol && HasEventAt(events, k.ms))
    ensures var stored := Upserted(rows, exchange, symbol, events);
            (k in stored <==> k in rows) && (k in rows ==> stored[k] == rows[k])
  {
    var n := |events|;
    if n > 0 {
      HasEventAppend(events[..n - 1], events[n - 1], k.ms);
      assert events == events[..n - 1] + [events[n - 1]];
      UpsertKeepsOthers(rows, exchange, symbol, events[..n - 1], k);
    }
  }

  /** Of several events of one millisecond the last one stays. */
  lemma {:induction false} LastUpsertWins(rows: map<Key, Row>, exchange: string, symbol: string,
                                          events: seq<FundingEvent>, i: nat)
    requires i < |events| && forall j :: i < j < |events| ==> events[j].timestamp != events[i].timestamp
    ensures var stored, k := Upserted(rows, exchange, symbol, events), Key(exchange, symbol, events[i].timestamp);
            k in stored && stored[k] == RowOf(events[i])
  {
    if i < |events| - 1 {
      LastUpsertWins(rows, exchange, symbol, events[..|events| - 1], i);
    }
  }

  /** Reading after storing: the stored events replace those of their milliseconds, and nothing else changes. */
  lemma GetAfterPut(rows: map<Key, Row>, exchange: string, symbol: string, events: seq<FundingEvent>, start: int,
                    end: int, ev: FundingEvent)
    requires Chronological(events) && forall i :: 0 <= i < |events| ==> events[i].symbol == symbol
    ensures ev in Cached(Upserted(rows, exchange, symbol, events), exchange, symbol, start, end) <==>
            if HasEventAt(events, ev.timestamp) then ev in events && start <= ev.timestamp <= end
            else ev in Cached(rows, exchange, symbol, start, end)
  {
    CachedHas(Upserted(rows, exchange, symbol, events), exchange, symbol, start, end, ev);
    CachedHas(rows, exchange, symbol, start, end, ev);
    if HasEventAt(events, ev.timestamp) {
      var i :| 0 <= i < |events| && events[i].timestamp == ev.timestamp;
      LastUpsertWins(rows, exchange, symbol, events, i);
      assert ev in events ==> ev == events[i];
    } else {
      UpsertKeepsOthers(rows, exchange, symbol, events, Key(exchange, symbol, ev.timestamp));
    }
  }

  /** Storing under one exchange and symbol changes no reading of another. */
  lemma GetElsewhere(rows: map<Key, Row>, exchange: string, symbol: string, events: seq<FundingEvent>,
                     exchange': string, symbol': string, start: int, end: int)
    requires exchange != exchange' || symbol != symbol'
    ensures Cached(Upserted(rows, exchange, symbol, events), exchange', symbol', start, end) ==
            Cached(rows, exchange', symbol', start, end)
  {
    var stored := Upserted(rows, exchange, symbol, events);
    CachedOrdered(stored, exchange', symbol', start, end);
    CachedOrdered(rows, exchange', symbol', start, end);
    forall ev
      ensures ev in Cached(stored, exchange', symbol', start, end) <==>
              ev in Cached(rows, exchange', symbol', start, end)
    {
      CachedHas(stored, exchange', symbol', start, end, ev);
      CachedHas(rows, exchange', symbol', start, end, ev);
      UpsertKeepsOthers(rows, exchange, symbol, events, Key(exchange', symbol', ev.timestamp));
    }
    SameMembersSameList(Cached(stored, exchange', symbol', start, end), Cached(rows, exchange', symbol', start, end));
  }

  /** DELETE of everything, or of one symbol; an empty symbol deletes everything, like no symbol. */
  function Cleared(rows: map<Key, Row>, symbol: Option<string>): map<Key, Row> {
    if symbol.Some? && symbol.value != "" then map k | k in rows && k.symbol != symbol.value :: rows[k]
    else map[]
  }

  /** Key by key: a clear with a symbol drops the rows of that symbol on every exchange; one without drops all rows. */
  lemma SurvivesClear(rows: map<Key, Row>, symbol: Option<string>, k: Key)
    ensures k in Cleared(rows, symbol) <==> k in rows && symbol.Some? && symbol.value != "" && k.symbol != symbol.value
    ensures k in Cleared(rows, symbol) ==> Cleared(rows, symbol)[k] == rows[k]
  {
  }

  // --- missing ranges ---

  function Interval(ev: FundingEvent): int {
    ev.intervalHours * MS_PER_HOUR
  }

  /** One and a half intervals, halved downwards. */
  function Tolerance(ev: FundingEvent): int {
    (Interval(ev) * 3) / 2
  }

  function LeadingGap(cached: seq<FundingEvent>, start: int): seq<Range>
    requires cached != []
  {
    var first := cached[0];
    if first.timestamp - start > Tolerance(first) then [Range(start, first.timestamp)] else []
  }

  function InteriorGap(prev: FundingEvent, next: FundingEvent): seq<Range> {
    if next.timestamp - prev.timestamp > Tolerance(prev)
    then [Range(prev.timestamp + Interval(prev), next.timestamp)] else []
  }

  function InteriorGaps(cached: seq<FundingEvent>): seq<Range> {
    var n := |cached|;
    if n < 2 then [] else InteriorGaps(cached[..n - 1]) + InteriorGap(cached[n - 2], cached[n - 1])
  }

  function TrailingGap(cached: seq<FundingEvent>, end: int): seq<Range>
    requires cached != []
  {
    var last := cached[|cached| - 1];
    if end - last.timestamp > Tolerance(last) then [Range(last.timestamp + Interval(last), end)] else []
  }

  /** The gaps of a window around its cached events. */
  function Gaps(cached: seq<FundingEvent>, start: int, end: int): seq<Range> {
    if cached == [] then [Range(start, end)]
    else LeadingGap(cached, start) + InteriorGaps(cached) + TrailingGap(cached, end)
  }

  ghost predicate InSomeGap(gaps: seq<Range>, t: int) {
    exists i :: 0 <= i < |gaps| && gaps[i].lo <= t <= gaps[i].hi
  }

  /** The last row before `t`, and the first row after it. */
  function Before(cached: seq<FundingEvent>, t: int): Option<FundingEvent> {
    var n := |cached|;
    if n == 0 then None
    else if cached[n - 1].timestamp < t then Some(cached[n - 1])
    else Before(cached[..n - 1], t)
  }

  function After(cached: seq<FundingEvent>, t: int): Option<FundingEvent> {
    if cached == [] then None
    else if t < cached[0].timestamp then Some(cached[0])
    else After(cached[1..], t)
  }

  lemma {:induction false} BeforeIsNearest(cached: seq<FundingEvent>, t: int)
    requires Chronological(cached)
    ensures match Before(cached, t)
            case None => forall i :: 0 <= i < |cached| ==> t <= cached[i].timestamp
            case Some(p) => p in cached && p.timestamp < t &&
                            forall i :: 0 <= i < |cached| && cached[i].timestamp < t ==>
                              cached[i].timestamp <= p.timestamp
  {
    var n := |cached|;
    if n > 0 && cached[n - 1].timestamp >= t {
      BeforeIsNearest(cached[..n - 1], t);
    }
  }

  lemma {:induction false} AfterIsNearest(cached: seq<FundingEvent>, t: int)
    requires Chronological(cached)
    ensures match After(cached, t)
            case None => forall i :: 0 <= i < |cached| ==> cached[i].timestamp <= t
            case Some(q) => q in cached && t < q.timestamp &&
                            forall i :: 0 <= i < |cached| && t < cached[i].timestamp ==>
                              q.timestamp <= cached[i].timestamp
  {
    if cached != [] && cached[0].timestamp <= t {
      AfterIsNearest(cached[1..], t);
      forall i | 0 <= i < |cached| && (After(cached, t).None? || t < cached[i].timestamp)
        ensures After(cached, t).None? ==> cached[i].timestamp <= t
        ensures After(cached, t).Some? ==> After(cached, t).value.timestamp <= cached[i].timestamp
      {
        if i > 0 { assert cached[1..][i - 1] == cached[i]; }
      }
    }
  }

  /** Whether the fetch of [start, end] passes over the instant between the neighbouring rows `p` and `q`. */
  predicate PassedOver(p: Option<FundingEvent>, q: Option<FundingEvent>, start: int, end: int, t: int) {
    match (p, q)
    case (None, None) => false
    case (None, Some(f)) => f.timestamp - start <= Tolerance(f)
    case (Some(l), None) => end - l.timestamp <= Tolerance(l) || t < l.timestamp + Interval(l)
    case (Some(l), Some(f)) => f.timestamp - l.timestamp <= Tolerance(l) || t < l.timestamp + Interval(l)
  }

  // --- what the gaps look like ---

  ghost predicate PositiveIntervals(cached: seq<FundingEvent>) {
    forall i :: 0 <= i < |cached| ==> cached[i].intervalHours > 0
  }

  ghost predicate WithinWindow(cached: seq<FundingEvent>, start: int, end: int) {
    forall i :: 0 <= i < |cached| ==> start <= cached[i].timestamp <= end
  }

  /** Non-empty ranges inside (lo, hi], each ending before the next begins. */
  ghost predicate Laid(gaps: seq<Range>, lo: int, hi: int) {
    && (forall i :: 0 <= i < |gaps| ==> lo < gaps[i].lo < gaps[i].hi <= hi)
    && (forall i, j :: 0 <= i < j < |gaps| ==> gaps[i].hi < gaps[j].lo)
  }

  lemma {:induction false} InteriorGapsLaid(cached: seq<FundingEvent>)
    requires Chronological(cached) && PositiveIntervals(cached) && cached != []
    ensures Laid(InteriorGaps(cached), cached[0].timestamp, cached[|cached| - 1].timestamp)
  {
    if |cached| >= 2 {
      InteriorGapsLaid(cached[..|cached| - 1]);
    }
  }

  lemma {:induction false} AfterAppend(front: seq<FundingEvent>, c: FundingEvent, t: int)
    ensures After(front + [c], t) ==
            if After(front, t).Some? then After(front, t) else if t < c.timestamp then Some(c) else None
  {
    if front != [] {
      AfterAppend(front[1..], c, t);
      assert (front + [c])[1..] == front[1..] + [c];
    }
  }

  lemma {:induction false} NoneAfter(cached: seq<FundingEvent>, t: int)
    requires forall i :: 0 <= i < |cached| ==> cached[i].timestamp <= t
    ensures After(cached, t) == None
  {
    if cached != [] {
      NoneAfter(cached[1..], t);
    }
  }

  lemma NoGapPastLast(cached: seq<FundingEvent>, t: int)
    requires Chronological(cached) && PositiveIntervals(cached) && cached != [] && cached[|cached| - 1].timestamp < t
    ensures !InSomeGap(InteriorGaps(cached), t)
  {
    InteriorGapsLaid(cached);
  }

  /** Whether `t` lies between two rows that do not pass it over. */
  ghost predicate AskedFor(cached: seq<FundingEvent>, start: int, end: int, t: int) {
    Before(cached, t).Some? && After(cached, t).Some? && !PassedOver(Before(cached, t), After(cached, t), start, end, t)
  }

  /** Between two neighbouring rows, the interior gaps cover exactly what is not passed over. */
  lemma {:induction false} InteriorCoverage(cached: seq<FundingEvent>, start: int, end: int, t: int)
    requires Chronological(cached) && PositiveIntervals(cached)
    requires forall i :: 0 <= i < |cached| ==> cached[i].timestamp != t
    ensures InSomeGap(InteriorGaps(cached), t) <==> AskedFor(cached, start, end, t)
  {
    var n := |cached|;
    if n > 0 && cached[n - 1].timestamp < t {
      NoGapPastLast(cached, t);
      NoneAfter(cached, t);
    } else if n >= 2 {
      var front, p, c := cached[..n - 1], cached[n - 2], cached[n - 1];
      assert cached == front + [c];
      InSomeGapAppend(InteriorGaps(front), InteriorGap(p, c), t);
      if p.timestamp < t {
        NoGapPastLast(front, t);
        NewestPair(front, p, c, start, end, t);
      } else {
        EarlierPair(front, p, c, start, end, t);
        InteriorCoverage(front, start, end, t);
      }
    } else {
      BeforeIsNearest(cached, t);
    }
  }

  lemma NewestPair(front: seq<FundingEvent>, p: FundingEvent, c: FundingEvent, start: int, end: int, t: int)
    requires Chronological(front) && PositiveIntervals(front) && front != [] && front[|front| - 1] == p
    requires p.timestamp < t < c.timestamp
    ensures InSomeGap(InteriorGap(p, c), t) <==> AskedFor(front + [c], start, end, t)
  {
    AfterAppend(front, c, t);
    NoneAfter(front, t);
    LastPairCoverage(p, c, start, end, t);
    assert (front + [c])[..|front|] == front && Before(front, t) == Some(p);
  }

  lemma EarlierPair(front: seq<FundingEvent>, p: FundingEvent, c: FundingEvent, start: int, end: int, t: int)
    requires Chronological(front) && PositiveIntervals(front) && front != [] && front[|front| - 1] == p
    requires t < p.timestamp < c.timestamp
    ensures !InSomeGap(InteriorGap(p, c), t) &&
            (AskedFor(front + [c], start, end, t) <==> AskedFor(front, start, end, t))
  {
    AfterAppend(front, c, t);
    AfterIsNearest(front, t);
    LastPairCoverage(p, c, start, end, t);
    assert (front + [c])[..|front|] == front;
  }

  lemma LastPairCoverage(p: FundingEvent, c: FundingEvent, start: int, end: int, t: int)
    requires p.intervalHours > 0 && p.timestamp < c.timestamp && t < c.timestamp
    ensures InSomeGap(InteriorGap(p, c), t) <==> p.timestamp < t && !PassedOver(Some(p), Some(c), start, end, t)
  {
    var gaps := InteriorGap(p, c);
    if gaps != [] {
      assert InSomeGap(gaps, t) <==> gaps[0].lo <= t <= gaps[0].hi;
    }
  }

  lemma InSomeGapAppend(a: seq<Range>, b: seq<Range>, t: int)
    ensures InSomeGap(a + b, t) <==> InSomeGap(a, t) || InSomeGap(b, t)
  {
    if InSomeGap(a, t) {
      var i :| 0 <= i < |a| && a[i].lo <= t <= a[i].hi;
      assert (a + b)[i] == a[i];
    }
    if InSomeGap(b, t) {
      var i :| 0 <= i < |b| && b[i].lo <= t <= b[i].hi;
      assert (a + b)[|a| + i] == b[i];
    }
  }

  /** An instant without a row is in some gap if and only if its neighbouring rows do not pass it over. */
  lemma GapsCoverage(cached: seq<FundingEvent>, start: int, end: int, t: int)
    requires Chronological(cached) && PositiveIntervals(cached) && WithinWindow(cached, start, end)
    requires start <= t <= end && forall i :: 0 <= i < |cached| ==> cached[i].timestamp != t
    ensures InSomeGap(Gaps(cached, start, end), t) <==> !PassedOver(Before(cached, t), After(cached, t), start, end, t)
  {
    if cached == [] {
      assert Gaps(cached, start, end)[0].lo <= t <= Gaps(cached, start, end)[0].hi;
    } else {
      var leading, interior, trailing := LeadingGap(cached, start), InteriorGaps(cached), TrailingGap(cached, end);
      InSomeGapAppend(leading, interior, t);
      InSomeGapAppend(leading + interior, trailing, t);
      InteriorCoverage(cached, start, end, t);
      BeforeIsNearest(cached, t);
      AfterIsNearest(cached, t);
      OneGap(leading, t);
      OneGap(trailing, t);
    }
  }

  lemma OneGap(gaps: seq<Range>, t: int)
    requires |gaps| <= 1
    ensures InSomeGap(gaps, t) <==> gaps != [] && gaps[0].lo <= t <= gaps[0].hi
  {
    if gaps != [] && gaps[0].lo <= t <= gaps[0].hi {
      assert InSomeGap(gaps, t);
    }
  }

  /** A row lies in a gap at its right end only. */
  ghost predicate ClearOf(gaps: seq<Range>, cached: seq<FundingEvent>) {
    forall i, j :: 0 <= i < |gaps| && 0 <= j < |cached| ==>
      cached[j].timestamp < gaps[i].lo || gaps[i].hi <= cached[j].timestamp
  }

  lemma {:induction false} InteriorGapsClear(cached: seq<FundingEvent>)
    requires Chronological(cached) && PositiveIntervals(cached)
    ensures ClearOf(InteriorGaps(cached), cached)
  {
    var n := |cached|;
    if n >= 2 {
      InteriorGapsClear(cached[..n - 1]);
      InteriorGapsLaid(cached[..n - 1]);
    }
  }

  /**
   * The gaps of a window: inside it, non-empty, ascending, disjoint, rows only at right ends. The one exception is an
   * empty window without rows, whose only gap is as empty as itself.
   */
  lemma GapShape(cached: seq<FundingEvent>, start: int, end: int)
    requires Chronological(cached) && PositiveIntervals(cached) && WithinWindow(cached, start, end)
    ensures Laid(Gaps(cached, start, end), start - 1, end) <==> cached != [] || start < end
    ensures ClearOf(Gaps(cached, start, end), cached)
  {
    if cached == [] {
      assert Gaps(cached, start, end)[0] == Range(start, end);
    } else {
      GapShapeAroundRows(cached, start, end);
    }
  }

  lemma GapShapeAroundRows(cached: seq<FundingEvent>, start: int, end: int)
    requires Chronological(cached) && PositiveIntervals(cached) && WithinWindow(cached, start, end) && cached != []
    ensures Laid(Gaps(cached, start, end), start - 1, end) && ClearOf(Gaps(cached, start, end), cached)
  {
    var leading, interior, trailing := LeadingGap(cached, start), InteriorGaps(cached), TrailingGap(cached, end);
    var first, last := cached[0].timestamp, cached[|cached| - 1].timestamp;
    InteriorGapsLaid(cached);
    InteriorGapsClear(cached);
    Joined(leading, interior, cached, start - 1, first, last);
    Joined(leading + interior, trailing, cached, start - 1, last, end);
  }

  lemma Joined(a: seq<Range>, b: seq<Range>, cached: seq<FundingEvent>, lo: int, mid: int, hi: int)
    requires lo <= mid <= hi && Laid(a, lo, mid) && Laid(b, mid, hi)
    requires ClearOf(a, cached) && ClearOf(b, cached)
    ensures Laid(a + b, lo, hi) && ClearOf(a + b, cached)
  {
  }

  /** Every instant of the window that no gap asks for is within one and a half intervals of some row. */
  lemma NothingFarIsPassedOver(cached: seq<FundingEvent>, start: int, end: int, t: int)
    requires Chronological(cached) && PositiveIntervals(cached) && WithinWindow(cached, start, end)
    requires start <= t <= end && !InSomeGap(Gaps(cached, start, end), t)
    ensures exists c :: c in cached && -5_400_000 * c.intervalHours <= t - c.timestamp <= 5_400_000 * c.intervalHours
  {
    if c :| c in cached && c.timestamp == t {
    } else {
      GapsCoverage(cached, start, end, t);
      BeforeIsNearest(cached, t);
      AfterIsNearest(cached, t);
      var c := if Before(cached, t).Some? then Before(cached, t).value else After(cached, t).value;
      assert c in cached && -5_400_000 * c.intervalHours <= t - c.timestamp <= 5_400_000 * c.intervalHours;
    }
  }

  lemma InteriorGapsNext(cached: seq<FundingEvent>, i: nat)
    requires i + 1 < |cached|
    ensures InteriorGaps(cached[..i + 2]) == InteriorGaps(cached[..i + 1]) + InteriorGap(cached[i], cached[i + 1])
  {
    assert cached[..i + 2][..i + 1] == cached[..i + 1];
  }

  /** The loop over neighbouring rows. */
  method InteriorRanges(cached: seq<FundingEvent>) returns (gaps: seq<Range>)
    requires cached != []
    ensures gaps == InteriorGaps(cached)
  {
    gaps := [];
    for i := 0 to |cached| - 1
      invariant gaps == InteriorGaps(cached[..i + 1])
    {
      var prev, next := cached[i], cached[i + 1];
      InteriorGapsNext(cached, i);
      if next.timestamp - prev.timestamp > Tolerance(prev) {
        gaps := gaps + [Range(prev.timestamp + Interval(prev), next.timestamp)];
      }
    }
    assert cached[..|cached|] == cached;
  }

  /** The three branches of `missing_ranges` over the cached rows of the window. */
  method RangesAround(cached: seq<FundingEvent>, start: int, end: int) returns (gaps: seq<Range>)
    ensures gaps == Gaps(cached, start, end)
  {
    if cached == [] {
      return [Range(start, end)];
    }
    gaps := [];
    var first := cached[0];
    if first.timestamp - start > Tolerance(first) {
      gaps := gaps + [Range(start, first.timestamp)];
    }
    assert gaps == LeadingGap(cached, start);
    var interior := InteriorRanges(cached);
    gaps := gaps + interior;
    var last := cached[|cached| - 1];
    if end - last.timestamp > Tolerance(last) {
      gaps := gaps + [Range(last.timestamp + Interval(last), end)];
    }
  }

  class SqliteFundingRateCache {
    var rows: map<Key, Row>

    constructor ()
      ensures rows == map[]
    {
      rows := map[];
    }

    method Put(exchange: string, symbol: string, events: seq<FundingEvent>)
      modifies this
      ensures rows == Upserted(old(rows), exchange, symbol, events)
    {
      if events == [] {
        return;
      }
      for i := 0 to |events|
        invariant rows == Upserted(old(rows), exchange, symbol, events[..i])
      {
        rows := rows[Key(exchange, symbol, events[i].timestamp) := RowOf(events[i])];
        assert events[..i + 1][..i] == events[..i];
      }
      assert events[..|events|] == events;
    }

    method Get(exchange: string, symbol: string, start: int, end: int) returns (events: seq<FundingEvent>)
      ensures events == Cached(rows, exchange, symbol, start, end)
    {
      var times := Listed(CachedTimes(rows, exchange, symbol, start, end));
      events := [];
      for i := 0 to |times|
        invariant |events| == i
        invariant forall j :: 0 <= j < i ==> events[j] == Cached(rows, exchange, symbol, start, end)[j]
      {
        var row := rows[Key(exchange, symbol, times[i])];
        events := events + [FundingEvent(times[i], symbol, row.rate, row.markPrice, row.intervalHours)];
      }
    }

    method MissingRanges(exchange: string, symbol: string, start: int, end: int) returns (gaps: seq<Range>)
      ensures gaps == Gaps(Cached(rows, exchange, symbol, start, end), start, end)
    {
      var cached := Get(exchange, symbol, start, end);
      gaps := RangesAround(cached, start, end);
    }

    method Clear(symbol: Option<string>) returns (count: nat)
      modifies this
      ensures rows == Cleared(old(rows), symbol)
      ensures count == |old(rows)| - |rows|
    {
      if symbol.Some? && symbol.value != "" {
        var doomed := set k | k in rows && k.symbol == symbol.value;
        count := |doomed|;
        assert rows.Keys == (rows.Keys - doomed) + doomed;
        rows := rows - doomed;
        assert rows.Keys == old(rows).Keys - doomed;
      } else {
        count := |rows|;
        rows := map[];
      }
    }
  }
}
