/** Binary search over a sequence of integers, as the two library searches do it. */
module Bisect {

  ghost predicate Ascending(a: seq<int>) {
    forall i, j :: 0 <= i < j < |a| ==> a[i] <= a[j]
  }

  ghost predicate StrictlyAscending(a: seq<int>) {
    forall i, j :: 0 <= i < j < |a| ==> a[i] < a[j]
  }

  /** The insertion point after every element equal to x. Total: on an
      unsorted sequence it returns some position in range. */
  function BisectRight(a: seq<int>, x: int): (r: nat)
    ensures r <= |a|
    ensures Ascending(a) ==> (forall i :: 0 <= i < r ==> a[i] <= x) && (forall i :: r <= i < |a| ==> x < a[i])
  {
    RightBetween(a, x, 0, |a|)
  }

  function RightBetween(a: seq<int>, x: int, lo: nat, hi: nat): (r: nat)
    requires lo <= hi <= |a|
    ensures lo <= r <= hi
    ensures Ascending(a) && (forall i :: 0 <= i < lo ==> a[i] <= x) && (forall i :: hi <= i < |a| ==> x < a[i])
            ==> (forall i :: 0 <= i < r ==> a[i] <= x) && (forall i :: r <= i < |a| ==> x < a[i])
    decreases hi - lo
  {
    if lo == hi then lo
    else
      var mid := (lo + hi) / 2;
      if x < a[mid] then RightBetween(a, x, lo, mid) else RightBetween(a, x, mid + 1, hi)
  }

  /** The insertion point before every element equal to x. */
  function BisectLeft(a: seq<int>, x: int): (r: nat)
    ensures r <= |a|
    ensures Ascending(a) ==> (forall i :: 0 <= i < r ==> a[i] < x) && (forall i :: r <= i < |a| ==> x <= a[i])
  {
    LeftBetween(a, x, 0, |a|)
  }

  function LeftBetween(a: seq<int>, x: int, lo: nat, hi: nat): (r: nat)
    requires lo <= hi <= |a|
    ensures lo <= r <= hi
    ensures Ascending(a) && (forall i :: 0 <= i < lo ==> a[i] < x) && (forall i :: hi <= i < |a| ==> x <= a[i])
            ==> (forall i :: 0 <= i < r ==> a[i] < x) && (forall i :: r <= i < |a| ==> x <= a[i])
    decreases hi - lo
  {
    if lo == hi then lo
    else
      var mid := (lo + hi) / 2;
      if a[mid] < x then LeftBetween(a, x, mid + 1, hi) else LeftBetween(a, x, lo, mid)
  }

  /** On an ascending sequence the right insertion point is known by its neighbours. */
  lemma BisectRightIs(a: seq<int>, x: int, r: nat)
    requires Ascending(a) && r <= |a|
    requires r > 0 ==> a[r - 1] <= x
    requires r < |a| ==> x < a[r]
    ensures BisectRight(a, x) == r
  {
    var b := BisectRight(a, x);
    assert b < |a| ==> x < a[b];
    assert b > 0 ==> a[b - 1] <= x;
  }

  /** And so is the left one. */
  lemma BisectLeftIs(a: seq<int>, x: int, r: nat)
    requires Ascending(a) && r <= |a|
    requires r > 0 ==> a[r - 1] < x
    requires r < |a| ==> x <= a[r]
    ensures BisectLeft(a, x) == r
  {
    var b := BisectLeft(a, x);
    assert b < |a| ==> x <= a[b];
    assert b > 0 ==> a[b - 1] < x;
  }

  lemma BisectLeftRises(a: seq<int>, x: int, y: int)
    requires Ascending(a) && x <= y
    ensures BisectLeft(a, x) <= BisectLeft(a, y)
  {
    var p, q := BisectLeft(a, x), BisectLeft(a, y);
    assert q < |a| ==> y <= a[q];
    assert p > 0 ==> a[p - 1] < x;
  }
}
