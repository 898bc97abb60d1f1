/** The funding history of an account: its income records, their total, and the totals per symbol and month. */
module AccountHistory {
  import opened Wrappers
  import opened RemoteHistory
  import opened IncomeFetch

  datatype HistoryResult = HistoryResult(
    start: int, end: int, records: seq<Record>, total: real, bySymbol: map<string, real>, byMonth: map<string, real>)

  datatype HistoryError = StartNotBeforeEnd

  function Sum(rs: seq<Record>): real {
    if rs == [] then 0.0 else Sum(rs[..|rs| - 1]) + rs[|rs| - 1].value.amount
  }

  /** The sum of the records with key `k`. */
  function SumOf(rs: seq<Record>, key: Record -> string, k: string): real {
    if rs == [] then 0.0
    else SumOf(rs[..|rs| - 1], key, k) + if key(rs[|rs| - 1]) == k then rs[|rs| - 1].value.amount else 0.0
  }

  function KeysOf(rs: seq<Record>, key: Record -> string): set<string> {
    set r | r in rs :: key(r)
  }

  /** One bucket for each key that occurs, holding the sum of its own records. */
  function Grouped(rs: seq<Record>, key: Record -> string): map<string, real> {
    map k | k in KeysOf(rs, key) :: SumOf(rs, key, k)
  }

  function SymbolOf(r: Record): string {
    r.value.symbol
  }

  /** Adding to a bucket, starting it at zero when it is new. */
  function Credited(buckets: map<string, real>, k: string, amount: real): map<string, real> {
    buckets[k := (if k in buckets then buckets[k] else 0.0) + amount]
  }

  lemma {:induction false} NoRecordsNoSum(rs: seq<Record>, key: Record -> string, k: string)
    requires k !in KeysOf(rs, key)
    ensures SumOf(rs, key, k) == 0.0
  {
    if rs != [] {
      assert rs[|rs| - 1] in rs;
      assert forall r :: r in rs[..|rs| - 1] ==> r in rs;
      NoRecordsNoSum(rs[..|rs| - 1], key, k);
    }
  }

  lemma GroupedNext(rs: seq<Record>, key: Record -> string)
    requires rs != []
    ensures var last := rs[|rs| - 1];
            Grouped(rs, key) == Credited(Grouped(rs[..|rs| - 1], key), key(last), last.value.amount)
  {
    var front, last := rs[..|rs| - 1], rs[|rs| - 1];
    assert rs == front + [last];
    assert KeysOf(rs, key) == KeysOf(front, key) + {key(last)};
    if key(last) !in KeysOf(front, key) {
      NoRecordsNoSum(front, key, key(last));
    }
  }

  /** The loop leaves the total of the records and a bucket per symbol and per month. */
  method RunAccountHistory(history: seq<Record>, start: int, end: int, symbol: Option<string>, monthOf: int -> string)
    returns (r: Result<HistoryResult, HistoryError>)
    ensures start >= end ==> r == Err(StartNotBeforeEnd)
    ensures start < end ==>
              var records := Fetched(Visible(history, symbol), start, end);
              r == Ok(HistoryResult(start, end, records, Sum(records),
                                    Grouped(records, SymbolOf), Grouped(records, (x: Record) => monthOf(x.time))))
    ensures r.Ok? ==> r.value.total == BucketSum(r.value.bySymbol) == BucketSum(r.value.byMonth)
  {
    if start >= end {
      return Err(StartNotBeforeEnd);
    }
    var records := FetchFundingIncome(history, start, end, symbol);
    var month := (x: Record) => monthOf(x.time);
    var total, bySymbol, byMonth := 0.0, map[], map[];
    for i := 0 to |records|
      invariant total == Sum(records[..i])
      invariant bySymbol == Grouped(records[..i], SymbolOf)
      invariant byMonth == Grouped(records[..i], month)
    {
      var rec := records[i];
      total := total + rec.value.amount;
      bySymbol := Credited(bySymbol, rec.value.symbol, rec.value.amount);
      byMonth := Credited(byMonth, monthOf(rec.time), rec.value.amount);
      assert records[..i + 1][..i] == records[..i];
      GroupedNext(records[..i + 1], SymbolOf);
      GroupedNext(records[..i + 1], month);
    }
    assert records[..|records|] == records;
    GroupingConserves(records, SymbolOf);
    GroupingConserves(records, month);
    return Ok(HistoryResult(start, end, records, total, bySymbol, byMonth));
  }

  // --- conservation ---

  /** The sum of all buckets. */
  ghost function BucketSum(m: map<string, real>): real {
    if m == map[] then 0.0
    else
      var k :| k in m;
      m[k] + BucketSum(m - {k})
  }

  lemma {:induction false} BucketSumTake(m: map<string, real>, k: string)
    requires k in m
    ensures BucketSum(m) == m[k] + BucketSum(m - {k})
    decreases |m|
  {
    var j :| j in m && BucketSum(m) == m[j] + BucketSum(m - {j});
    if j != k {
      BucketSumTake(m - {j}, k);
      BucketSumTake(m - {k}, j);
      assert m - {j} - {k} == m - {k} - {j};
    }
  }

  lemma BucketSumCredited(m: map<string, real>, k: string, amount: real)
    ensures BucketSum(Credited(m, k, amount)) == BucketSum(m) + amount
  {
    var c := Credited(m, k, amount);
    BucketSumTake(c, k);
    assert c - {k} == m - {k};
    if k in m {
      BucketSumTake(m, k);
    } else {
      assert m - {k} == m;
    }
  }

  /** Grouping by any key, in any order of the records, neither loses nor invents an amount. */
  lemma {:induction false} GroupingConserves(rs: seq<Record>, key: Record -> string)
    ensures BucketSum(Grouped(rs, key)) == Sum(rs)
  {
    if rs == [] {
      assert Grouped(rs, key) == map[];
    } else {
      GroupingConserves(rs[..|rs| - 1], key);
      GroupedNext(rs, key);
      BucketSumCredited(Grouped(rs[..|rs| - 1], key), key(rs[|rs| - 1]), rs[|rs| - 1].value.amount);
    }
  }

  lemma {:induction false} SumAppend(a: seq<Record>, b: seq<Record>, key: Record -> string, k: string)
    ensures Sum(a + b) == Sum(a) + Sum(b)
    ensures SumOf(a + b, key, k) == SumOf(a, key, k) + SumOf(b, key, k)
  {
    if b == [] {
      assert a + b == a;
    } else {
      assert (a + b)[..|a + b| - 1] == a + b[..|b| - 1];
      SumAppend(a, b[..|b| - 1], key, k);
    }
  }

  /** Two adjoining histories add up to the one over both periods, less the records of the shared instant. */
  lemma AdjoiningPeriods(h: seq<Record>, a: int, b: int, c: int, key: Record -> string, k: string)
    requires Ascending(h) && UniqueIds(h) && a < b < c
    requires NoSplit(h, Windows(a, b)) && NoSplit(h, Windows(b, c)) && NoSplit(h, Windows(a, c))
    ensures Sum(Fetched(h, a, c)) == Sum(Fetched(h, a, b)) + Sum(Fetched(h, b, c)) - Sum(InRange(h, b, b))
    ensures SumOf(Fetched(h, a, c), key, k) ==
            SumOf(Fetched(h, a, b), key, k) + SumOf(Fetched(h, b, c), key, k) - SumOf(InRange(h, b, b), key, k)
  {
    FetchedExact(h, a, b);
    FetchedExact(h, b, c);
    FetchedExact(h, a, c);
    InRangeSplit(h, a, b, c);
    InRangeSplit(h, b, b, c);
    SumAppend(InRange(h, a, b), InRange(h, b + 1, c), key, k);
    SumAppend(InRange(h, b, b), InRange(h, b + 1, c), key, k);
  }

  // --- what the sums are ---

  /** The total and each bucket grow record by record, by the amount of the record alone. */
  lemma OneMoreRecord(rs: seq<Record>, r: Record, key: Record -> string, k: string)
    ensures Sum([]) == 0.0 && Sum(rs + [r]) == Sum(rs) + r.value.amount
    ensures SumOf([], key, k) == 0.0
    ensures SumOf(rs + [r], key, k) == SumOf(rs, key, k) + (if key(r) == k then r.value.amount else 0.0)
  {
    assert (rs + [r])[..|rs|] == rs;
  }

  /** There is a bucket for each symbol and for each month that occurs, and for no other. */
  lemma BucketsAre(rs: seq<Record>, monthOf: int -> string, k: string)
    ensures k in Grouped(rs, SymbolOf) <==> exists i :: 0 <= i < |rs| && rs[i].value.symbol == k
    ensures k in Grouped(rs, (x: Record) => monthOf(x.time)) <==> exists i :: 0 <= i < |rs| && monthOf(rs[i].time) == k
  {
    var month := (x: Record) => monthOf(x.time);
    forall i | 0 <= i < |rs| ensures SymbolOf(rs[i]) in KeysOf(rs, SymbolOf) && month(rs[i]) in KeysOf(rs, month) {
      assert rs[i] in rs;
    }
  }

  /** Taking out one record takes out its amount. */
  lemma TakenOut(b: seq<Record>, i: nat, key: Record -> string, k: string)
    requires i < |b|
    ensures var rest := b[..i] + b[i + 1..];
            && multiset(rest) == multiset(b) - multiset{b[i]}
            && Sum(b) == Sum(rest) + b[i].value.amount
            && SumOf(b, key, k) == SumOf(rest, key, k) + (if key(b[i]) == k then b[i].value.amount else 0.0)
  {
    var head, tail := b[..i], b[i + 1..];
    assert b == head + ([b[i]] + tail);
    assert multiset(b) == multiset(head) + (multiset{b[i]} + multiset(tail));
    SumAppend(head, [b[i]] + tail, key, k);
    SumAppend([b[i]], tail, key, k);
    SumAppend(head, tail, key, k);
    OneMoreRecord([], b[i], key, k);
    assert [] + [b[i]] == [b[i]];
  }

  /** Neither the total nor a bucket depends on the order of the records. */
  lemma {:induction false} OrderIsIrrelevant(a: seq<Record>, b: seq<Record>, key: Record -> string, k: string)
    requires multiset(a) == multiset(b)
    ensures Sum(a) == Sum(b) && SumOf(a, key, k) == SumOf(b, key, k)
    decreases |a|
  {
    if a == [] {
      assert |b| == |multiset(b)| == 0;
    } else {
      var last := a[|a| - 1];
      assert last in multiset(a) && last in multiset(b);
      var i :| 0 <= i < |b| && b[i] == last;
      TakenOut(a, |a| - 1, key, k);
      TakenOut(b, i, key, k);
      OrderIsIrrelevant(a[..|a| - 1] + a[|a|..], b[..i] + b[i + 1..], key, k);
    }
  }
}
