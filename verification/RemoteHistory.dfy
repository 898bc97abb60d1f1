/** An immutable, time-ordered remote history and the paged endpoint that serves it. */
module RemoteHistory {

  /** One remote record: what it says and the millisecond it is stamped with. */
  datatype Stamped<+T> = Stamped(time: int, value: T)

  ghost predicate Ascending<T>(h: seq<Stamped<T>>) {
    forall i, j :: 0 <= i < j < |h| ==> h[i].time <= h[j].time
  }

  ghost predicate StrictlyAscending<T>(h: seq<Stamped<T>>) {
    forall i, j :: 0 <= i < j < |h| ==> h[i].time < h[j].time
  }

  /** The records stamped within [lo, hi], in order. */
  function InRange<T>(h: seq<Stamped<T>>, lo: int, hi: int): seq<Stamped<T>> {
    if h == [] then []
    else if lo <= h[0].time <= hi then [h[0]] + InRange(h[1..], lo, hi)
    else InRange(h[1..], lo, hi)
  }

  /** What the endpoint answers: the first `limit` records within [lo, hi]. */
  function Page<T>(h: seq<Stamped<T>>, lo: int, hi: int, limit: nat): seq<Stamped<T>> {
    var r := InRange(h, lo, hi);
    if |r| <= limit then r else r[..limit]
  }

  lemma {:induction false} InRangeHas<T>(h: seq<Stamped<T>>, lo: int, hi: int, x: Stamped<T>)
    ensures x in InRange(h, lo, hi) <==> x in h && lo <= x.time <= hi
  {
    if h != [] {
      InRangeHas(h[1..], lo, hi, x);
      assert h == [h[0]] + h[1..];
    }
  }

  lemma {:induction false} InRangeOrdered<T>(h: seq<Stamped<T>>, lo: int, hi: int)
    requires Ascending(h)
    ensures Ascending(InRange(h, lo, hi))
    ensures StrictlyAscending(h) ==> StrictlyAscending(InRange(h, lo, hi))
  {
    if h != [] {
      var rest := InRange(h[1..], lo, hi);
      InRangeOrdered(h[1..], lo, hi);
      forall i | 0 <= i < |rest|
        ensures h[0].time <= rest[i].time
        ensures StrictlyAscending(h) ==> h[0].time < rest[i].time
      {
        InRangeHas(h[1..], lo, hi, rest[i]);
      }
    }
  }

  lemma {:induction false} NothingYet<T>(h: seq<Stamped<T>>, lo: int, hi: int)
    requires forall i :: 0 <= i < |h| ==> hi < h[i].time
    ensures InRange(h, lo, hi) == []
  {
    if h != [] {
      NothingYet(h[1..], lo, hi);
    }
  }

  lemma {:induction false} LowerBoundFree<T>(h: seq<Stamped<T>>, lo: int, lo': int, hi: int)
    requires forall i :: 0 <= i < |h| ==> lo <= h[i].time && lo' <= h[i].time
    ensures InRange(h, lo, hi) == InRange(h, lo', hi)
  {
    if h != [] {
      LowerBoundFree(h[1..], lo, lo', hi);
    }
  }

  /** Cutting a range after `m` cuts the listing of an ordered history in two. */
  lemma {:induction false} InRangeSplit<T>(h: seq<Stamped<T>>, lo: int, m: int, hi: int)
    requires Ascending(h)
    requires lo - 1 <= m <= hi
    ensures InRange(h, lo, hi) == InRange(h, lo, m) + InRange(h, m + 1, hi)
  {
    if h != [] {
      var left, right := InRange(h[1..], lo, m), InRange(h[1..], m + 1, hi);
      InRangeSplit(h[1..], lo, m, hi);
      if m < h[0].time {
        NothingYet(h, lo, m);
        NothingYet(h[1..], lo, m);
        assert left + right == right;
      } else {
        assert InRange(h, m + 1, hi) == right;
        assert [h[0]] + (left + right) == ([h[0]] + left) + right;
      }
    }
  }

  /** In a history without shared milliseconds, the records after the k-th are those stamped later. */
  lemma {:induction false} InRangeResume<T>(h: seq<Stamped<T>>, lo: int, hi: int, k: nat)
    requires StrictlyAscending(h)
    requires 0 < k <= |InRange(h, lo, hi)|
    ensures lo <= InRange(h, lo, hi)[k - 1].time <= hi
    ensures InRange(h, lo, hi)[k..] == InRange(h, InRange(h, lo, hi)[k - 1].time + 1, hi)
  {
    var r, rest := InRange(h, lo, hi), InRange(h[1..], lo, hi);
    InRangeHas(h, lo, hi, r[k - 1]);
    if !(lo <= h[0].time <= hi) {
      InRangeResume(h[1..], lo, hi, k);
    } else if k == 1 {
      LowerBoundFree(h[1..], lo, h[0].time + 1, hi);
    } else {
      InRangeResume(h[1..], lo, hi, k - 1);
      InRangeHas(h[1..], lo, hi, rest[k - 2]);
    }
  }

  /** After a full page the range goes on a millisecond past the page's last record. */
  lemma PageThenRest<T>(h: seq<Stamped<T>>, lo: int, hi: int, limit: nat, page: seq<Stamped<T>>)
    requires StrictlyAscending(h) && page == Page(h, lo, hi, limit)
    ensures |page| < limit ==> InRange(h, lo, hi) == page
    ensures 0 < |page| == limit ==>
              && lo <= page[limit - 1].time <= hi
              && InRange(h, lo, hi) == page + InRange(h, page[limit - 1].time + 1, hi)
  {
    if 0 < |page| == limit {
      InRangeResume(h, lo, hi, limit);
      var r := InRange(h, lo, hi);
      assert r == r[..limit] + r[limit..];
    }
  }

  /** The history as a lookup table; a later record of the same millisecond overrides an earlier one. */
  function ToMap<T>(h: seq<Stamped<T>>): map<int, T> {
    if h == [] then map[] else map[h[0].time := h[0].value] + ToMap(h[1..])
  }

  lemma {:induction false} ToMapAppend<T>(a: seq<Stamped<T>>, b: seq<Stamped<T>>)
    ensures ToMap(a + b) == ToMap(a) + ToMap(b)
  {
    if a == [] {
      assert a + b == b;
    } else {
      ToMapAppend(a[1..], b);
      assert (a + b)[1..] == a[1..] + b;
    }
  }

  /** A lookup in a history without shared milliseconds finds the one record stamped so. */
  lemma {:induction false} ToMapHas<T>(h: seq<Stamped<T>>, t: int)
    ensures t in ToMap(h) ==> Stamped(t, ToMap(h)[t]) in h
    ensures forall i :: 0 <= i < |h| && h[i].time == t ==>
            t in ToMap(h) && (StrictlyAscending(h) ==> ToMap(h)[t] == h[i].value)
  {
    if h != [] {
      ToMapHas(h[1..], t);
      forall i | 0 <= i < |h| && h[i].time == t
        ensures t in ToMap(h) && (StrictlyAscending(h) ==> ToMap(h)[t] == h[i].value)
      {
        if i > 0 {
          assert h[1..][i - 1] == h[i];
        }
      }
    }
  }

  /** The part of a lookup table stamped within [lo, hi]. */
  function Within<T>(m: map<int, T>, lo: int, hi: int): map<int, T> {
    map t | t in m && lo <= t <= hi :: m[t]
  }

  /** Looking up a range of the history is looking up the whole history within that range. */
  lemma {:induction false} ToMapInRange<T>(h: seq<Stamped<T>>, lo: int, hi: int)
    ensures ToMap(InRange(h, lo, hi)) == Within(ToMap(h), lo, hi)
  {
    if h != [] {
      ToMapInRange(h[1..], lo, hi);
    }
  }
}
