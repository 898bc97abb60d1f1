/** Smallest and largest element of a set of instants, and its listing in ascending order. */
module Ordering {

  lemma Some<T>(s: set<T>) returns (x: T)
    requires s != {}
    ensures x in s
  {
    x :| x in s;
  }

  lemma {:induction false} MinExists(s: set<int>)
    requires s != {}
    ensures exists m :: m in s && forall x :: x in s ==> m <= x
  {
    var y := Some(s);
    if s != {y} {
      assert s - {y} != {} by { assert s == {y} + (s - {y}); }
      MinExists(s - {y});
      var z :| z in s - {y} && forall x :: x in s - {y} ==> z <= x;
      var m := if z < y then z else y;
      forall x | x in s ensures m <= x { assert x == y || x in s - {y}; }
    }
  }

  function Min(s: set<int>): (m: int)
    requires s != {}
    ensures m in s && forall x :: x in s ==> m <= x
  {
    MinExists(s);
    var m :| m in s && forall x :: x in s ==> m <= x;
    m
  }

  lemma {:induction false} MaxExists(s: set<int>)
    requires s != {}
    ensures exists m :: m in s && forall x :: x in s ==> x <= m
  {
    var y := Some(s);
    if s != {y} {
      assert s - {y} != {} by { assert s == {y} + (s - {y}); }
      MaxExists(s - {y});
      var z :| z in s - {y} && forall x :: x in s - {y} ==> x <= z;
      var m := if z > y then z else y;
      forall x | x in s ensures x <= m { assert x == y || x in s - {y}; }
    }
  }

  function Max(s: set<int>): (m: int)
    requires s != {}
    ensures m in s && forall x :: x in s ==> x <= m
  {
    MaxExists(s);
    var m :| m in s && forall x :: x in s ==> x <= m;
    m
  }

  predicate Increasing(q: seq<int>) {
    forall i, j :: 0 <= i < j < |q| ==> q[i] < q[j]
  }

  /** The elements of `s` from the smallest to the largest, as SQL's ORDER BY and Python's sorted list them. */
  function Listed(s: set<int>): (q: seq<int>)
    ensures Increasing(q)
    ensures forall x :: x in q <==> x in s
    ensures forall i :: 0 <= i < |q| ==> q[i] in s
  {
    if s == {} then [] else
      var m := Min(s);
      [m] + Listed(s - {m})
  }

  /** Python's bisect_right on an ascending list: how many of its elements are at most `x`. */
  function BisectRight(q: seq<int>, x: int): (n: nat)
    requires Increasing(q)
    ensures n <= |q|
    ensures forall i :: 0 <= i < n ==> q[i] <= x
    ensures forall i :: n <= i < |q| ==> x < q[i]
  {
    if q == [] then 0
    else if q[|q| - 1] <= x then |q|
    else BisectRight(q[..|q| - 1], x)
  }

  /** The element before the bisection point is the largest one that is at most `x`. */
  lemma BisectFloor(q: seq<int>, x: int)
    requires Increasing(q)
    ensures var n := BisectRight(q, x); forall u :: u in q && u <= x ==> n > 0 && u <= q[n - 1]
  {
    var n := BisectRight(q, x);
    forall u | u in q && u <= x
      ensures n > 0 && u <= q[n - 1]
    {
      var i :| 0 <= i < |q| && q[i] == u;
      assert i < n;
    }
  }
}
