/** Fetching an account's funding income: weekly windows, pages inside each, de-duplication, a final sort. */
module IncomeFetch {
  import opened Wrappers
  import opened RemoteHistory

  const PAGE := 1000
  const SEVEN_DAYS := 604_800_000

  datatype Income = Income(symbol: string, amount: real, tranId: string)

  type Record = Stamped<Income>

  /** What the endpoint shows of the history under the optional symbol filter. */
  function Visible(h: seq<Record>, symbol: Option<string>): seq<Record> {
    if h == [] then []
    else if symbol.None? || h[0].value.symbol == symbol.value then [h[0]] + Visible(h[1..], symbol)
    else Visible(h[1..], symbol)
  }

  // --- one window ---

  /** Everything the pages of [cursor, end] yield. */
  function WindowPages(h: seq<Record>, cursor: int, end: int): seq<Record>
    decreases if cursor <= end then end - cursor + 1 else 0
  {
    var page := Page(h, cursor, end, PAGE);
    if |page| < PAGE then page
    else
      InRangeHas(h, cursor, end, page[|page| - 1]);
      page + WindowPages(h, page[|page| - 1].time + 1, end)
  }

  /** All pages of a window: the first one, and when it is full those after it. */
  lemma FirstPageThenRest(h: seq<Record>, cursor: int, end: int, all: seq<Record>)
    returns (page: seq<Record>, rest: seq<Record>)
    requires all == WindowPages(h, cursor, end)
    ensures page == Page(h, cursor, end, PAGE)
    ensures |page| < PAGE ==> all == page && rest == []
    ensures |page| == PAGE ==>
              && cursor <= page[PAGE - 1].time <= end
              && rest == WindowPages(h, page[PAGE - 1].time + 1, end) && all == page + rest
  {
    page, rest := Page(h, cursor, end, PAGE), [];
    if |page| == PAGE {
      InRangeHas(h, cursor, end, page[PAGE - 1]);
      rest := WindowPages(h, page[PAGE - 1].time + 1, end);
    }
  }

  /** Some full page of the window ends within the millisecond of `r` but before `r`. */
  ghost predicate SplitOff(h: seq<Record>, cursor: int, end: int, r: Record)
    decreases if cursor <= end then end - cursor + 1 else 0
  {
    var page := Page(h, cursor, end, PAGE);
    |page| == PAGE &&
    var last := page[|page| - 1].time;
    InRangeHas(h, cursor, end, page[|page| - 1]);
    (last == r.time && r !in page) || SplitOff(h, last + 1, end, r)
  }

  /** The pager of [cursor, end] comes to ask for the page from `c` on. */
  ghost predicate Visits(h: seq<Record>, cursor: int, end: int, c: int)
    decreases if cursor <= end then end - cursor + 1 else 0
  {
    c == cursor ||
    var page := Page(h, cursor, end, PAGE);
    |page| == PAGE &&
    (InRangeHas(h, cursor, end, page[PAGE - 1]);
     Visits(h, page[PAGE - 1].time + 1, end, c))
  }

  /** The full page from `c` on ends within the millisecond of `r`, which is not on it. */
  ghost predicate CutsOff(h: seq<Record>, c: int, end: int, r: Record) {
    var page := Page(h, c, end, PAGE);
    |page| == PAGE && page[PAGE - 1].time == r.time && r !in page
  }

  /** `r` is split off exactly when one of the full pages the pager asks for ends within its millisecond without it. */
  lemma {:induction false} SplitOffIff(h: seq<Record>, cursor: int, end: int, r: Record)
    ensures SplitOff(h, cursor, end, r) <==> exists c :: Visits(h, cursor, end, c) && CutsOff(h, c, end, r)
    decreases if cursor <= end then end - cursor + 1 else 0
  {
    var page := Page(h, cursor, end, PAGE);
    assert Visits(h, cursor, end, cursor);
    if |page| == PAGE {
      var next := page[PAGE - 1].time + 1;
      InRangeHas(h, cursor, end, page[PAGE - 1]);
      SplitOffIff(h, next, end, r);
      if CutsOff(h, cursor, end, r) {
        assert SplitOff(h, cursor, end, r);
      } else if SplitOff(h, next, end, r) {
        var c :| Visits(h, next, end, c) && CutsOff(h, c, end, r);
        assert Visits(h, cursor, end, c);
      }
      if c :| Visits(h, cursor, end, c) && CutsOff(h, c, end, r) {
        assert c == cursor || Visits(h, next, end, c);
      }
    }
  }

  /** The pages of a window yield exactly its records that no full page splits off. */
  lemma {:induction false} WindowPagesHas(h: seq<Record>, cursor: int, end: int, r: Record)
    requires Ascending(h)
    ensures r in WindowPages(h, cursor, end) <==> r in h && cursor <= r.time <= end && !SplitOff(h, cursor, end, r)
    decreases if cursor <= end then end - cursor + 1 else 0
  {
    var page, rest := FirstPageThenRest(h, cursor, end, WindowPages(h, cursor, end));
    InRangeHas(h, cursor, end, r);
    if |page| == PAGE {
      WindowPagesHas(h, page[PAGE - 1].time + 1, end, r);
      FullPageHas(h, cursor, end, page, r);
    }
  }

  /** A record of the range is on its full first page, or split off by it, or stamped later. */
  lemma FullPageHas(h: seq<Record>, cursor: int, end: int, page: seq<Record>, r: Record)
    requires Ascending(h) && page == Page(h, cursor, end, PAGE) && |page| == PAGE &&
             cursor <= page[PAGE - 1].time <= end
    ensures r in page ==> r in InRange(h, cursor, end) && r.time <= page[PAGE - 1].time
    ensures r in InRange(h, cursor, end) && r.time < page[PAGE - 1].time ==> r in page
    ensures SplitOff(h, cursor, end, r) <==>
            (page[PAGE - 1].time == r.time && r !in page) || SplitOff(h, page[PAGE - 1].time + 1, end, r)
    ensures SplitOff(h, page[PAGE - 1].time + 1, end, r) ==> page[PAGE - 1].time < r.time
  {
    InRangeOrdered(h, cursor, end);
    SplitOffIsLater(h, page[PAGE - 1].time + 1, end, r);
    PageIsPrefix(InRange(h, cursor, end), r);
  }

  lemma PageIsPrefix(all: seq<Record>, r: Record)
    requires Ascending(all) && |all| >= PAGE
    ensures r in all && r.time < all[PAGE - 1].time ==> r in all[..PAGE]
    ensures r in all[..PAGE] ==> r in all && r.time <= all[PAGE - 1].time
  {
    if r in all {
      var i :| 0 <= i < |all| && all[i] == r;
      if i < PAGE {
        assert all[..PAGE][i] == r;
      }
    }
    if r in all[..PAGE] {
      var i :| 0 <= i < PAGE && all[..PAGE][i] == r;
      assert all[i] == r;
    }
  }

  lemma {:induction false} SplitOffIsLater(h: seq<Record>, cursor: int, end: int, r: Record)
    ensures SplitOff(h, cursor, end, r) ==> cursor <= r.time <= end
    decreases if cursor <= end then end - cursor + 1 else 0
  {
    var page := Page(h, cursor, end, PAGE);
    if |page| == PAGE {
      InRangeHas(h, cursor, end, page[PAGE - 1]);
      SplitOffIsLater(h, page[PAGE - 1].time + 1, end, r);
    }
  }

  ghost predicate UniqueIds(rs: seq<Record>) {
    forall i, j :: 0 <= i < j < |rs| ==> rs[i].value.tranId != rs[j].value.tranId
  }

  // --- all windows ---

  datatype Window = Window(lo: int, hi: int)

  function WindowEnd(lo: int, end: int): int {
    if lo + SEVEN_DAYS < end then lo + SEVEN_DAYS else end
  }

  /** The weekly windows of [start, end]; neighbours share an endpoint. */
  function Windows(start: int, end: int): seq<Window>
    decreases end - start
  {
    if start < end then [Window(start, WindowEnd(start, end))] + Windows(WindowEnd(start, end), end) else []
  }

  predicate Seen(acc: seq<Record>, id: string) {
    exists i :: 0 <= i < |acc| && acc[i].value.tranId == id
  }

  /** `acc` with the records of `recs` whose transaction id is new. */
  function AddNew(acc: seq<Record>, recs: seq<Record>): seq<Record>
    decreases |recs|
  {
    if recs == [] then acc
    else AddNew(if Seen(acc, recs[0].value.tranId) then acc else acc + [recs[0]], recs[1..])
  }

  /** What the outer loop has collected once it is through, starting from `acc` at `start`. */
  function Collected(h: seq<Record>, start: int, end: int, acc: seq<Record>): seq<Record>
    decreases end - start
  {
    if start < end then
      Collected(h, WindowEnd(start, end), end, AddNew(acc, WindowPages(h, start, WindowEnd(start, end))))
    else acc
  }

  /** Python's stable sort by time stamp. */
  function Insert(sorted: seq<Record>, r: Record): seq<Record> {
    if sorted == [] || sorted[|sorted| - 1].time <= r.time then sorted + [r]
    else Insert(sorted[..|sorted| - 1], r) + [sorted[|sorted| - 1]]
  }

  function SortedByTime(rs: seq<Record>): seq<Record> {
    if rs == [] then [] else Insert(SortedByTime(rs[..|rs| - 1]), rs[|rs| - 1])
  }

  /** One income fetch. */
  function Fetched(h: seq<Record>, start: int, end: int): seq<Record> {
    SortedByTime(Collected(h, start, end, []))
  }

  // --- the loops ---

  method IterIncomePages(h: seq<Record>, start: int, end: int) returns (yielded: seq<Record>)
    ensures yielded == WindowPages(h, start, end)
  {
    yielded := [];
    var cursor := start;
    while true
      invariant yielded + WindowPages(h, cursor, end) == WindowPages(h, start, end)
      decreases if cursor <= end then end - cursor + 1 else 0
    {
      var batch := Page(h, cursor, end, PAGE);
      ghost var page, rest := FirstPageThenRest(h, cursor, end, WindowPages(h, cursor, end));
      if batch == [] {
        return;
      }
      ghost var before := yielded;
      yielded := yielded + batch;
      if |batch| < PAGE {
        return;
      }
      assert yielded + rest == before + (batch + rest);
      cursor := batch[|batch| - 1].time + 1;
    }
  }

  method FetchFundingIncome(history: seq<Record>, start: int, end: int, symbol: Option<string>)
    returns (records: seq<Record>)
    ensures records == Fetched(Visible(history, symbol), start, end)
  {
    var shown := Visible(history, symbol);
    records := [];
    var seenTranIds: set<string> := {};
    var windowStart := start;
    while windowStart < end
      invariant Collected(shown, windowStart, end, records) == Collected(shown, start, end, [])
      invariant forall id :: id in seenTranIds <==> Seen(records, id)
    {
      var windowEnd := if windowStart + SEVEN_DAYS < end then windowStart + SEVEN_DAYS else end;
      var recs := IterIncomePages(shown, windowStart, windowEnd);
      ghost var before := records;
      for i := 0 to |recs|
        invariant AddNew(records, recs[i..]) == AddNew(before, recs)
        invariant forall id :: id in seenTranIds <==> Seen(records, id)
      {
        if recs[i].value.tranId in seenTranIds {
          continue;
        }
        SeenAppend(records, recs[i]);
        seenTranIds := seenTranIds + {recs[i].value.tranId};
        records := records + [recs[i]];
      }
      windowStart := windowEnd;
    }
    records := SortedByTime(records);
  }

  lemma SeenAppend(acc: seq<Record>, r: Record)
    ensures forall id :: Seen(acc + [r], id) <==> Seen(acc, id) || id == r.value.tranId
  {
    forall id ensures Seen(acc + [r], id) <==> Seen(acc, id) || id == r.value.tranId {
      if i :| 0 <= i < |acc| && acc[i].value.tranId == id {
        assert (acc + [r])[i].value.tranId == id;
      }
      assert (acc + [r])[|acc|] == r;
    }
  }

  // --- what a fetch delivers ---

  lemma {:induction false} VisibleHas(h: seq<Record>, symbol: Option<string>, r: Record)
    ensures r in Visible(h, symbol) <==> r in h && (symbol.None? || r.value.symbol == symbol.value)
  {
    if h != [] {
      VisibleHas(h[1..], symbol, r);
      assert h == [h[0]] + h[1..];
    }
  }

  /** The filter keeps the time order and the uniqueness of the ids. */
  lemma {:induction false} VisibleOrdered(h: seq<Record>, symbol: Option<string>)
    requires Ascending(h) && UniqueIds(h)
    ensures Ascending(Visible(h, symbol)) && UniqueIds(Visible(h, symbol))
  {
    if h != [] {
      VisibleOrdered(h[1..], symbol);
      var rest := Visible(h[1..], symbol);
      forall i | 0 <= i < |rest| ensures h[0].time <= rest[i].time && h[0].value.tranId != rest[i].value.tranId {
        VisibleHas(h[1..], symbol, rest[i]);
      }
    }
  }

  /** A list gathered from the history `h` so far: each record once, in time order, none later than `at`. */
  ghost predicate Gathered(h: seq<Record>, acc: seq<Record>, at: int) {
    && UniqueIds(acc) && Ascending(acc)
    && (forall i :: 0 <= i < |acc| ==> acc[i] in h && acc[i].time <= at)
  }

  ghost predicate FromWindow(h: seq<Record>, recs: seq<Record>, lo: int, hi: int) {
    forall i :: 0 <= i < |recs| ==> recs[i] in h && lo <= recs[i].time <= hi
  }

  lemma {:induction false} AddNewGathers(h: seq<Record>, acc: seq<Record>, recs: seq<Record>, at: int, hi: int)
    requires UniqueIds(h) && Gathered(h, acc, at) && at <= hi && Ascending(recs) && FromWindow(h, recs, at, hi)
    ensures Gathered(h, AddNew(acc, recs), hi)
    ensures forall r :: r in AddNew(acc, recs) <==> r in acc || r in recs
    decreases |recs|
  {
    if recs != [] {
      var r0 := recs[0];
      assert recs == [r0] + recs[1..];
      if Seen(acc, r0.value.tranId) {
        var i :| 0 <= i < |acc| && acc[i].value.tranId == r0.value.tranId;
        SameRecord(h, acc[i], r0);
        AddNewGathers(h, acc, recs[1..], at, hi);
      } else {
        AddNewGathers(h, acc + [r0], recs[1..], r0.time, hi);
      }
    }
  }

  lemma SameRecord(h: seq<Record>, a: Record, b: Record)
    requires UniqueIds(h) && a in h && b in h && a.value.tranId == b.value.tranId
    ensures a == b
  {
  }

  lemma WindowPagesInside(h: seq<Record>, cursor: int, end: int)
    requires Ascending(h)
    ensures FromWindow(h, WindowPages(h, cursor, end), cursor, end)
  {
    var pages := WindowPages(h, cursor, end);
    forall i | 0 <= i < |pages| ensures pages[i] in h && cursor <= pages[i].time <= end {
      WindowPagesHas(h, cursor, end, pages[i]);
    }
  }

  lemma {:induction false} WindowPagesOrdered(h: seq<Record>, cursor: int, end: int, all: seq<Record>)
    requires Ascending(h) && all == WindowPages(h, cursor, end)
    ensures Ascending(all)
    decreases if cursor <= end then end - cursor + 1 else 0
  {
    var page, rest := FirstPageThenRest(h, cursor, end, all);
    PageOrdered(h, cursor, end);
    if |page| == PAGE {
      var next := page[PAGE - 1].time + 1;
      WindowPagesOrdered(h, next, end, rest);
      WindowPagesInside(h, next, end);
      AscendingJoined(page, rest);
    }
  }

  lemma PageOrdered(h: seq<Record>, cursor: int, end: int)
    requires Ascending(h)
    ensures Ascending(Page(h, cursor, end, PAGE))
  {
    InRangeOrdered(h, cursor, end);
  }

  lemma AscendingJoined(a: seq<Record>, b: seq<Record>)
    requires Ascending(a) && Ascending(b) && (a != [] ==> forall j :: 0 <= j < |b| ==> a[|a| - 1].time <= b[j].time)
    ensures Ascending(a + b)
  {
    var ab := a + b;
    forall i, j | 0 <= i < j < |ab| ensures ab[i].time <= ab[j].time {
      assert ab[i] == if i < |a| then a[i] else b[i - |a|];
      assert ab[j] == if j < |a| then a[j] else b[j - |a|];
    }
  }

  /** Whether some window holding the millisecond of `r` yields it. */
  ghost predicate Yielded(h: seq<Record>, ws: seq<Window>, r: Record) {
    exists i :: 0 <= i < |ws| && ws[i].lo <= r.time <= ws[i].hi && !SplitOff(h, ws[i].lo, ws[i].hi, r)
  }

  lemma {:induction false} CollectedHas(h: seq<Record>, start: int, end: int, acc: seq<Record>)
    requires Ascending(h) && UniqueIds(h) && Gathered(h, acc, start) && start <= end
    ensures Gathered(h, Collected(h, start, end, acc), end)
    ensures forall r :: r in Collected(h, start, end, acc) <==>
            r in acc || (r in h && Yielded(h, Windows(start, end), r))
    decreases end - start
  {
    if start < end {
      var next := WindowEnd(start, end);
      var recs := WindowPages(h, start, next);
      var acc' := AddNew(acc, recs);
      WindowPagesOrdered(h, start, next, recs);
      WindowPagesInside(h, start, next);
      AddNewGathers(h, acc, recs, start, next);
      CollectedHas(h, next, end, acc');
      forall r ensures r in acc' || (r in h && Yielded(h, Windows(next, end), r)) <==>
                       r in acc || (r in h && Yielded(h, Windows(start, end), r)) {
        WindowPagesHas(h, start, next, r);
        YieldedFirst(h, start, end, r);
      }
    }
  }

  lemma YieldedFirst(h: seq<Record>, start: int, end: int, r: Record)
    requires start < end
    ensures Yielded(h, Windows(start, end), r) <==>
            (start <= r.time <= WindowEnd(start, end) && !SplitOff(h, start, WindowEnd(start, end), r)) ||
            Yielded(h, Windows(WindowEnd(start, end), end), r)
  {
    var ws, rest := Windows(start, end), Windows(WindowEnd(start, end), end);
    if Yielded(h, rest, r) {
      var i :| 0 <= i < |rest| && rest[i].lo <= r.time <= rest[i].hi && !SplitOff(h, rest[i].lo, rest[i].hi, r);
      assert ws[i + 1] == rest[i];
    }
    if Yielded(h, ws, r) {
      var i :| 0 <= i < |ws| && ws[i].lo <= r.time <= ws[i].hi && !SplitOff(h, ws[i].lo, ws[i].hi, r);
      if i > 0 {
        assert ws[i] == rest[i - 1];
      }
    }
    assert ws[0] == Window(start, WindowEnd(start, end));
  }

  lemma {:induction false} SortKeepsSorted(rs: seq<Record>)
    requires Ascending(rs)
    ensures SortedByTime(rs) == rs
  {
    if rs != [] {
      SortKeepsSorted(rs[..|rs| - 1]);
    }
  }

  /** The records stamped `t`, in order. */
  function StampedAt(rs: seq<Record>, t: int): seq<Record> {
    if rs == [] then []
    else StampedAt(rs[..|rs| - 1], t) + if rs[|rs| - 1].time == t then [rs[|rs| - 1]] else []
  }

  lemma {:induction false} InsertHas(sorted: seq<Record>, r: Record, x: Record)
    ensures x in Insert(sorted, r) <==> x in sorted || x == r
  {
    if sorted != [] {
      InsertHas(sorted[..|sorted| - 1], r, x);
      assert sorted == sorted[..|sorted| - 1] + [sorted[|sorted| - 1]];
    }
  }

  lemma {:induction false} InsertSorts(sorted: seq<Record>, r: Record)
    requires Ascending(sorted)
    ensures Ascending(Insert(sorted, r))
  {
    if sorted != [] && sorted[|sorted| - 1].time > r.time {
      var front, last := sorted[..|sorted| - 1], sorted[|sorted| - 1];
      var placed := Insert(front, r);
      InsertSorts(front, r);
      if placed != [] {
        InsertHas(front, r, placed[|placed| - 1]);
      }
      AscendingJoined(placed, [last]);
    }
  }

  lemma {:induction false} InsertIsStable(sorted: seq<Record>, r: Record, t: int)
    requires Ascending(sorted)
    ensures StampedAt(Insert(sorted, r), t) == StampedAt(sorted + [r], t)
  {
    var n := |sorted|;
    assert (sorted + [r])[..n] == sorted;
    if n > 0 && sorted[n - 1].time > r.time {
      var front, last := sorted[..n - 1], sorted[n - 1];
      InsertIsStable(front, r, t);
      assert (front + [r])[..n - 1] == front;
      assert (Insert(front, r) + [last])[..|Insert(front, r)|] == Insert(front, r);
      if t == last.time {
        assert r.time != t;
      }
    }
  }

  /** The final sort is one by time, and stable: it keeps the records of each millisecond in their order. */
  lemma {:induction false} SortIsStable(rs: seq<Record>, t: int)
    ensures Ascending(SortedByTime(rs))
    ensures StampedAt(SortedByTime(rs), t) == StampedAt(rs, t)
  {
    if rs != [] {
      var front, last := rs[..|rs| - 1], rs[|rs| - 1];
      SortIsStable(front, t);
      InsertSorts(SortedByTime(front), last);
      InsertIsStable(SortedByTime(front), last, t);
      assert (SortedByTime(front) + [last])[..|SortedByTime(front)|] == SortedByTime(front);
    }
  }

  /**
   * The result holds each record at most once, in time order, and it holds a remote record exactly when
   * the record lies in a window whose pages do not split it off.
   */
  lemma FetchedHas(h: seq<Record>, start: int, end: int)
    requires Ascending(h) && UniqueIds(h)
    ensures Ascending(Fetched(h, start, end)) && UniqueIds(Fetched(h, start, end))
    ensures forall r :: r in Fetched(h, start, end) <==> r in h && Yielded(h, Windows(start, end), r)
  {
    if start <= end {
      CollectedHas(h, start, end, []);
      SortKeepsSorted(Collected(h, start, end, []));
    }
  }

  lemma {:induction false} WindowsCover(start: int, end: int, t: int) returns (i: nat)
    requires start < end && start <= t <= end
    ensures i < |Windows(start, end)| && Windows(start, end)[i].lo <= t <= Windows(start, end)[i].hi
    decreases end - start
  {
    if t <= WindowEnd(start, end) {
      i := 0;
    } else {
      i := WindowsCover(WindowEnd(start, end), end, t);
      i := i + 1;
    }
  }

  lemma {:induction false} WindowsInside(start: int, end: int, i: nat)
    requires i < |Windows(start, end)|
    ensures start <= Windows(start, end)[i].lo < Windows(start, end)[i].hi <= end
    ensures Windows(start, end)[i].hi - Windows(start, end)[i].lo <= SEVEN_DAYS
    decreases end - start
  {
    if i > 0 {
      WindowsInside(WindowEnd(start, end), end, i - 1);
    }
  }

  /**
   * A remote record of [start, end] that the fetch omits is cut off by a full page that the pager of its window asks
   * for.
   */
  lemma OmittedIsSplitOff(h: seq<Record>, start: int, end: int, r: Record) returns (w: Window, c: int)
    requires Ascending(h) && UniqueIds(h) && start < end
    requires r in h && start <= r.time <= end && r !in Fetched(h, start, end)
    ensures w in Windows(start, end) && w.lo <= r.time <= w.hi
    ensures Visits(h, w.lo, w.hi, c) && CutsOff(h, c, w.hi, r)
    ensures w.hi - w.lo <= 604_800_000 && |Page(h, c, w.hi, 1000)| == 1000 && Page(h, c, w.hi, 1000)[999].time == r.time
  {
    FetchedHas(h, start, end);
    var i := WindowsCover(start, end, r.time);
    WindowsInside(start, end, i);
    w := Windows(start, end)[i];
    SplitOffIff(h, w.lo, w.hi, r);
    c :| Visits(h, w.lo, w.hi, c) && CutsOff(h, c, w.hi, r);
  }

  // --- order ---

  /** `a` stands before `b` in the history. */
  ghost predicate Precedes(h: seq<Record>, a: Record, b: Record) {
    exists i, j :: 0 <= i < j < |h| && h[i] == a && h[j] == b
  }

  /** `rs` is in the order of the history. */
  ghost predicate InOrder(h: seq<Record>, rs: seq<Record>) {
    forall i, j :: 0 <= i < j < |rs| ==> Precedes(h, rs[i], rs[j])
  }

  lemma NotBoth(h: seq<Record>, a: Record, b: Record)
    requires UniqueIds(h) && Precedes(h, a, b)
    ensures !Precedes(h, b, a)
  {
    var i, j :| 0 <= i < j < |h| && h[i] == a && h[j] == b;
    forall k, l | 0 <= k < l < |h| ensures !(h[k] == b && h[l] == a) {
      assert k != j ==> h[k] != b;
      assert l != i ==> h[l] != a;
    }
  }

  lemma EarlierPrecedes(h: seq<Record>, a: Record, b: Record)
    requires Ascending(h) && a in h && b in h && a.time < b.time
    ensures Precedes(h, a, b)
  {
    var i :| 0 <= i < |h| && h[i] == a;
    var j :| 0 <= j < |h| && h[j] == b;
    assert i < j;
  }

  lemma {:induction false} InRangeInOrder(h: seq<Record>, lo: int, hi: int)
    ensures InOrder(h, InRange(h, lo, hi))
  {
    if h != [] {
      var r, rest := InRange(h, lo, hi), InRange(h[1..], lo, hi);
      InRangeInOrder(h[1..], lo, hi);
      forall i, j | 0 <= i < j < |r| ensures Precedes(h, r[i], r[j]) {
        if r == rest {
          PrecedesInTail(h, r[i], r[j]);
        } else if i > 0 {
          PrecedesInTail(h, rest[i - 1], rest[j - 1]);
        } else {
          InRangeHas(h[1..], lo, hi, rest[j - 1]);
          var k :| 0 <= k < |h[1..]| && h[1..][k] == rest[j - 1];
          assert h[0] == r[0] && h[k + 1] == r[j];
        }
      }
    }
  }

  lemma PrecedesInTail(h: seq<Record>, a: Record, b: Record)
    requires h != [] && Precedes(h[1..], a, b)
    ensures Precedes(h, a, b)
  {
    var i, j :| 0 <= i < j < |h[1..]| && h[1..][i] == a && h[1..][j] == b;
    assert h[i + 1] == a && h[j + 1] == b;
  }

  ghost predicate AllPrecede(h: seq<Record>, a: seq<Record>, b: seq<Record>) {
    forall i, j :: 0 <= i < |a| && 0 <= j < |b| ==> Precedes(h, a[i], b[j])
  }

  lemma PageInOrder(h: seq<Record>, cursor: int, end: int)
    ensures InOrder(h, Page(h, cursor, end, PAGE))
  {
    InRangeInOrder(h, cursor, end);
  }

  /** The records of a full page stand before those of the pages after it. */
  lemma PageBeforeRest(h: seq<Record>, cursor: int, end: int)
    requires Ascending(h) && |Page(h, cursor, end, PAGE)| == PAGE
    ensures var page := Page(h, cursor, end, PAGE);
            var rest := WindowPages(h, page[PAGE - 1].time + 1, end);
            AllPrecede(h, page, rest)
  {
    var page := Page(h, cursor, end, PAGE);
    var rest := WindowPages(h, page[PAGE - 1].time + 1, end);
    InRangeOrdered(h, cursor, end);
    forall i, j | 0 <= i < |page| && 0 <= j < |rest| ensures Precedes(h, page[i], rest[j]) {
      InRangeHas(h, cursor, end, page[i]);
      WindowPagesHas(h, page[PAGE - 1].time + 1, end, rest[j]);
      EarlierPrecedes(h, page[i], rest[j]);
    }
  }

  lemma {:induction false} WindowPagesInOrder(h: seq<Record>, cursor: int, end: int, all: seq<Record>)
    requires Ascending(h) && all == WindowPages(h, cursor, end)
    ensures InOrder(h, all)
    decreases if cursor <= end then end - cursor + 1 else 0
  {
    var page, rest := FirstPageThenRest(h, cursor, end, all);
    PageInOrder(h, cursor, end);
    if |page| == PAGE {
      WindowPagesInOrder(h, page[PAGE - 1].time + 1, end, rest);
      PageBeforeRest(h, cursor, end);
      InOrderJoined(h, page, rest);
    }
  }

  lemma InOrderJoined(h: seq<Record>, a: seq<Record>, b: seq<Record>)
    requires InOrder(h, a) && InOrder(h, b) && AllPrecede(h, a, b)
    ensures InOrder(h, a + b)
  {
    var ab := a + b;
    forall i, j | 0 <= i < j < |ab| ensures Precedes(h, ab[i], ab[j]) {
      assert ab[i] == if i < |a| then a[i] else b[i - |a|];
      assert ab[j] == if j < |a| then a[j] else b[j - |a|];
    }
  }

  /** What a page splits off comes last within its millisecond. */
  lemma {:induction false} SplitOffTail(h: seq<Record>, cursor: int, end: int, a: Record, b: Record)
    requires UniqueIds(h) && Precedes(h, a, b) && a.time == b.time && cursor <= a.time <= end
    requires SplitOff(h, cursor, end, a)
    ensures SplitOff(h, cursor, end, b)
    decreases if cursor <= end then end - cursor + 1 else 0
  {
    var all, page := InRange(h, cursor, end), Page(h, cursor, end, PAGE);
    var last := page[|page| - 1].time;
    InRangeHas(h, cursor, end, page[|page| - 1]);
    if last == a.time && a !in page {
      InRangeHas(h, cursor, end, a);
      InRangeInOrder(h, cursor, end);
      LaterMissesPage(h, all, a, b);
    } else {
      SplitOffIsLater(h, last + 1, end, a);
      SplitOffTail(h, last + 1, end, a, b);
    }
  }

  lemma LaterMissesPage(h: seq<Record>, all: seq<Record>, a: Record, b: Record)
    requires UniqueIds(h) && InOrder(h, all) && Precedes(h, a, b)
    requires |all| >= PAGE && a in all && a !in all[..PAGE]
    ensures b !in all[..PAGE]
  {
    var i :| 0 <= i < |all| && all[i] == a;
    NotBoth(h, a, b);
    assert forall k :: 0 <= k < PAGE ==> all[..PAGE][k] == all[k] && all[..PAGE][k] in all[..PAGE];
    forall j | 0 <= j < PAGE ensures all[..PAGE][j] != b {
      assert all[..PAGE][j] == all[j] != a;
      assert j < i ==> Precedes(h, all[j], all[i]);
    }
  }

  /** Within the millisecond `at`, `acc` holds an initial stretch of the history's records. */
  ghost predicate TieClosed(h: seq<Record>, acc: seq<Record>, at: int) {
    forall a, b :: Precedes(h, a, b) && a.time == b.time == at && b in acc ==> a in acc
  }

  lemma WindowPagesTieClosed(h: seq<Record>, cursor: int, end: int)
    requires Ascending(h) && UniqueIds(h) && cursor <= end
    ensures TieClosed(h, WindowPages(h, cursor, end), end)
  {
    forall a, b | Precedes(h, a, b) && a.time == b.time == end && b in WindowPages(h, cursor, end)
      ensures a in WindowPages(h, cursor, end)
    {
      WindowPagesHas(h, cursor, end, a);
      WindowPagesHas(h, cursor, end, b);
      if SplitOff(h, cursor, end, a) {
        SplitOffTail(h, cursor, end, a, b);
      }
    }
  }

  lemma OneStandsFirst(h: seq<Record>, a: Record, b: Record)
    requires a in h && b in h && a != b
    ensures Precedes(h, a, b) || Precedes(h, b, a)
  {
    var i :| 0 <= i < |h| && h[i] == a;
    var j :| 0 <= j < |h| && h[j] == b;
    assert i < j || j < i;
  }

  lemma {:induction false} AddNewInOrder(h: seq<Record>, acc: seq<Record>, recs: seq<Record>)
    requires UniqueIds(h) && InOrder(h, acc) && InOrder(h, recs)
    requires (forall i :: 0 <= i < |acc| ==> acc[i] in h) && (forall i :: 0 <= i < |recs| ==> recs[i] in h)
    requires forall i, j :: 0 <= i < |acc| && 0 <= j < |recs| ==> recs[j] in acc || Precedes(h, acc[i], recs[j])
    ensures InOrder(h, AddNew(acc, recs))
    decreases |recs|
  {
    if recs != [] {
      if Seen(acc, recs[0].value.tranId) {
        AddNewInOrder(h, acc, recs[1..]);
      } else {
        assert recs[0] !in acc by {
          assert forall i :: 0 <= i < |acc| ==> acc[i].value.tranId != recs[0].value.tranId;
        }
        AddNewInOrder(h, acc + [recs[0]], recs[1..]);
      }
    }
  }

  lemma {:induction false} CollectedInOrder(h: seq<Record>, start: int, end: int, acc: seq<Record>)
    requires Ascending(h) && UniqueIds(h) && Gathered(h, acc, start) && start <= end
    requires InOrder(h, acc) && TieClosed(h, acc, start)
    ensures InOrder(h, Collected(h, start, end, acc))
    decreases end - start
  {
    if start < end {
      var next := WindowEnd(start, end);
      var recs := WindowPages(h, start, next);
      WindowPagesOrdered(h, start, next, recs);
      WindowPagesInside(h, start, next);
      WindowPagesInOrder(h, start, next, recs);
      WindowPagesTieClosed(h, start, next);
      AddNewGathers(h, acc, recs, start, next);
      forall i, j | 0 <= i < |acc| && 0 <= j < |recs|
        ensures recs[j] in acc || Precedes(h, acc[i], recs[j])
      {
        if acc[i].time < recs[j].time {
          EarlierPrecedes(h, acc[i], recs[j]);
        } else if recs[j] !in acc {
          OneStandsFirst(h, acc[i], recs[j]);
        }
      }
      AddNewInOrder(h, acc, recs);
      CollectedInOrder(h, next, end, AddNew(acc, recs));
    }
  }

  lemma {:induction false} SameOrderSameList(h: seq<Record>, x: seq<Record>, y: seq<Record>)
    requires UniqueIds(h) && UniqueIds(x) && UniqueIds(y) && InOrder(h, x) && InOrder(h, y)
    requires forall r :: r in x <==> r in y
    ensures x == y
  {
    assert x != [] ==> x[0] in y;
    assert y != [] ==> y[0] in x;
    if x != [] {
      if x[0] != y[0] {
        assert Precedes(h, x[0], y[0]) && Precedes(h, y[0], x[0]);
        NotBoth(h, x[0], y[0]);
      }
      forall r ensures r in x[1..] <==> r in y[1..] {
        assert r in x[1..] <==> r in x && r != x[0];
        assert r in y[1..] <==> r in y && r != y[0];
      }
      SameOrderSameList(h, x[1..], y[1..]);
    }
  }

  // --- the whole result ---

  /** The records of `rs` that some window yields. */
  ghost function OnlyYielded(h: seq<Record>, ws: seq<Window>, rs: seq<Record>): seq<Record> {
    if rs == [] then []
    else (if Yielded(h, ws, rs[0]) then [rs[0]] else []) + OnlyYielded(h, ws, rs[1..])
  }

  lemma {:induction false} OnlyYieldedHas(h: seq<Record>, ws: seq<Window>, rs: seq<Record>, r: Record)
    ensures r in OnlyYielded(h, ws, rs) <==> r in rs && Yielded(h, ws, r)
  {
    if rs != [] {
      OnlyYieldedHas(h, ws, rs[1..], r);
      assert rs == [rs[0]] + rs[1..];
    }
  }

  lemma {:induction false} OnlyYieldedInOrder(h: seq<Record>, ws: seq<Window>, rs: seq<Record>)
    requires InOrder(h, rs)
    ensures InOrder(h, OnlyYielded(h, ws, rs))
  {
    if rs != [] {
      var rest := OnlyYielded(h, ws, rs[1..]);
      OnlyYieldedInOrder(h, ws, rs[1..]);
      forall i | 0 <= i < |rest| ensures Precedes(h, rs[0], rest[i]) {
        OnlyYieldedHas(h, ws, rs[1..], rest[i]);
        var j :| 0 <= j < |rs[1..]| && rs[1..][j] == rest[i];
        assert rs[j + 1] == rest[i];
      }
      InOrderJoined(h, [rs[0]], rest);
    }
  }

  lemma {:induction false} OnlyYieldedUnique(h: seq<Record>, ws: seq<Window>, rs: seq<Record>)
    requires UniqueIds(rs)
    ensures UniqueIds(OnlyYielded(h, ws, rs))
  {
    if rs != [] {
      var rest := OnlyYielded(h, ws, rs[1..]);
      OnlyYieldedUnique(h, ws, rs[1..]);
      forall i | 0 <= i < |rest| ensures rs[0].value.tranId != rest[i].value.tranId {
        OnlyYieldedHas(h, ws, rs[1..], rest[i]);
        var j :| 0 <= j < |rs[1..]| && rs[1..][j] == rest[i];
        assert rs[j + 1] == rest[i];
      }
    }
  }

  lemma {:induction false} AllYielded(h: seq<Record>, ws: seq<Window>, rs: seq<Record>)
    ensures |OnlyYielded(h, ws, rs)| <= |rs|
    ensures OnlyYielded(h, ws, rs) == rs <==> forall i :: 0 <= i < |rs| ==> Yielded(h, ws, rs[i])
  {
    if rs != [] {
      AllYielded(h, ws, rs[1..]);
      assert rs == [rs[0]] + rs[1..];
      assert (forall i :: 0 <= i < |rs| ==> Yielded(h, ws, rs[i])) <==>
             Yielded(h, ws, rs[0]) && forall i :: 0 <= i < |rs[1..]| ==> Yielded(h, ws, rs[1..][i]) by {
        assert forall i :: 0 <= i < |rs[1..]| ==> rs[1..][i] == rs[i + 1];
        assert forall i :: 0 < i < |rs| ==> rs[i] == rs[1..][i - 1];
      }
    }
  }

  lemma {:induction false} InRangeUnique(h: seq<Record>, lo: int, hi: int)
    requires UniqueIds(h)
    ensures UniqueIds(InRange(h, lo, hi))
  {
    if h != [] {
      var rest := InRange(h[1..], lo, hi);
      InRangeUnique(h[1..], lo, hi);
      forall i | 0 <= i < |rest| ensures rest[i].value.tranId != h[0].value.tranId {
        InRangeHas(h[1..], lo, hi, rest[i]);
      }
    }
  }

  /**
   * A fetch of a non-empty period is the remote history of [start, end], in its own order even within a
   * millisecond, less the records that every window holding them splits off.
   */
  lemma FetchedIs(h: seq<Record>, start: int, end: int)
    requires Ascending(h) && UniqueIds(h) && start < end
    ensures Fetched(h, start, end) == OnlyYielded(h, Windows(start, end), InRange(h, start, end))
    ensures Fetched(h, start, end) == InRange(h, start, end) <==>
            forall i :: 0 <= i < |InRange(h, start, end)| ==> Yielded(h, Windows(start, end), InRange(h, start, end)[i])
  {
    var ws, all := Windows(start, end), InRange(h, start, end);
    CollectedHas(h, start, end, []);
    CollectedInOrder(h, start, end, []);
    SortKeepsSorted(Collected(h, start, end, []));
    FetchedHas(h, start, end);
    InRangeInOrder(h, start, end);
    InRangeUnique(h, start, end);
    OnlyYieldedInOrder(h, ws, all);
    OnlyYieldedUnique(h, ws, all);
    AllYielded(h, ws, all);
    forall r ensures r in Fetched(h, start, end) <==> r in OnlyYielded(h, ws, all) {
      OnlyYieldedHas(h, ws, all, r);
      InRangeHas(h, start, end, r);
      YieldedInside(h, start, end, r);
    }
    SameOrderSameList(h, Fetched(h, start, end), OnlyYielded(h, ws, all));
  }

  lemma YieldedInside(h: seq<Record>, start: int, end: int, r: Record)
    ensures Yielded(h, Windows(start, end), r) ==> start <= r.time <= end
  {
    var ws := Windows(start, end);
    if Yielded(h, ws, r) {
      var i :| 0 <= i < |ws| && ws[i].lo <= r.time <= ws[i].hi && !SplitOff(h, ws[i].lo, ws[i].hi, r);
      WindowsInside(start, end, i);
    }
  }

  /** No full page of any window splits a millisecond. */
  ghost predicate NoSplit(h: seq<Record>, ws: seq<Window>) {
    forall i, r :: 0 <= i < |ws| && r in h && ws[i].lo <= r.time <= ws[i].hi ==> !SplitOff(h, ws[i].lo, ws[i].hi, r)
  }

  /** When no full page splits a millisecond, the fetch is the remote history of [start, end]. */
  lemma FetchedExact(h: seq<Record>, start: int, end: int)
    requires Ascending(h) && UniqueIds(h) && start < end && NoSplit(h, Windows(start, end))
    ensures Fetched(h, start, end) == InRange(h, start, end)
  {
    FetchedIs(h, start, end);
    var all := InRange(h, start, end);
    forall i | 0 <= i < |all| ensures Yielded(h, Windows(start, end), all[i]) {
      InRangeHas(h, start, end, all[i]);
      var w := WindowsCover(start, end, all[i].time);
    }
  }

  /** In a history without shared milliseconds no page splits one. */
  lemma {:induction false} DistinctIsNotSplit(h: seq<Record>, cursor: int, end: int, r: Record)
    requires StrictlyAscending(h) && r in h
    ensures !SplitOff(h, cursor, end, r)
    decreases if cursor <= end then end - cursor + 1 else 0
  {
    var page := Page(h, cursor, end, PAGE);
    if |page| == PAGE {
      var last := page[PAGE - 1];
      InRangeHas(h, cursor, end, last);
      DistinctIsNotSplit(h, last.time + 1, end, r);
      assert last.time == r.time ==> last == r;
    }
  }

  /** A fetch is exact for a history without shared milliseconds, however long. */
  lemma DistinctTimesExact(h: seq<Record>, start: int, end: int)
    requires StrictlyAscending(h) && UniqueIds(h) && start < end
    ensures NoSplit(h, Windows(start, end)) && Fetched(h, start, end) == InRange(h, start, end)
  {
    var ws := Windows(start, end);
    forall i, r | 0 <= i < |ws| && r in h && ws[i].lo <= r.time <= ws[i].hi
      ensures !SplitOff(h, ws[i].lo, ws[i].hi, r)
    {
      DistinctIsNotSplit(h, ws[i].lo, ws[i].hi, r);
    }
    FetchedExact(h, start, end);
  }

  /** A fetch is exact when no window holds a full page of records, whatever milliseconds they share. */
  lemma ShortWindowsExact(h: seq<Record>, start: int, end: int)
    requires Ascending(h) && UniqueIds(h) && start < end
    requires forall i :: 0 <= i < |Windows(start, end)| ==>
             |InRange(h, Windows(start, end)[i].lo, Windows(start, end)[i].hi)| < PAGE
    ensures NoSplit(h, Windows(start, end)) && Fetched(h, start, end) == InRange(h, start, end)
  {
    FetchedExact(h, start, end);
  }

  /** Two records of one millisecond across the end of the first page: the second one is lost. */
  lemma TieAcrossPagesIsLost(h: seq<Record>, start: int, end: int, all: seq<Record>)
    requires Ascending(h) && UniqueIds(h) && start < end <= start + SEVEN_DAYS
    requires all == InRange(h, start, end) && |all| > PAGE && all[PAGE].time == all[PAGE - 1].time
    ensures all[PAGE] in h && all[PAGE] !in Fetched(h, start, end)
  {
    var ws, r := Windows(start, end), all[PAGE];
    InRangeHas(h, start, end, r);
    InRangeUnique(h, start, end);
    FetchedHas(h, start, end);
    assert forall i :: 0 <= i < PAGE ==> all[..PAGE][i] == all[i] != r;
    assert SplitOff(h, start, end, r);
    assert WindowEnd(start, end) == end && Windows(end, end) == [];
    assert ws == [Window(start, end)];
  }

  /** Of the records of one millisecond no page shows those past the thousandth. */
  lemma {:induction false} CrowdedIsSplit(h: seq<Record>, cursor: int, end: int, t: int, k: nat)
    requires Ascending(h) && UniqueIds(h) && cursor <= t <= end && PAGE <= k < |InRange(h, t, t)|
    ensures SplitOff(h, cursor, end, InRange(h, t, t)[k])
    decreases end - cursor
  {
    var all, page := InRange(h, cursor, end), Page(h, cursor, end, PAGE);
    var n, r := |InRange(h, cursor, t - 1)|, InRange(h, t, t)[k];
    InRangeHas(h, t, t, r);
    AroundMillisecond(h, cursor, end, t, k);
    assert page == all[..PAGE];
    var last := page[PAGE - 1];
    InRangeHas(h, cursor, end, last);
    InRangeUnique(h, cursor, end);
    if last.time < t {
      CrowdedIsSplit(h, last.time + 1, end, t, k);
    } else {
      InRangeOrdered(h, cursor, end);
      assert last.time == t;
      assert forall i :: 0 <= i < PAGE ==> page[i] == all[i] != all[n + k];
    }
  }

  lemma AroundMillisecond(h: seq<Record>, cursor: int, end: int, t: int, k: nat)
    requires Ascending(h) && cursor <= t <= end && k < |InRange(h, t, t)|
    ensures var all, n := InRange(h, cursor, end), |InRange(h, cursor, t - 1)|;
            n + k < |all| && all[n + k] == InRange(h, t, t)[k]
  {
    InRangeSplit(h, cursor, t - 1, end);
    InRangeSplit(h, t, t, end);
  }

  /**
   * Of more than a thousand records in one millisecond all past the thousandth are lost, whatever else the history
   * holds.
   */
  lemma CrowdedMillisecond(h: seq<Record>, start: int, end: int, t: int, k: nat)
    requires Ascending(h) && UniqueIds(h) && start <= t <= end && PAGE <= k < |InRange(h, t, t)|
    ensures InRange(h, t, t)[k] in h && InRange(h, t, t)[k] !in Fetched(h, start, end)
  {
    var ws, r := Windows(start, end), InRange(h, t, t)[k];
    InRangeHas(h, t, t, r);
    FetchedHas(h, start, end);
    forall i | 0 <= i < |ws| && ws[i].lo <= r.time <= ws[i].hi ensures SplitOff(h, ws[i].lo, ws[i].hi, r) {
      CrowdedIsSplit(h, ws[i].lo, ws[i].hi, t, k);
    }
  }
}
