/** A stable sort by a comparison, and what it keeps. */
module Sorting {
  import opened Prelude

  type Key = (int, int)

  predicate KeyLess(a: Key, b: Key) { a.0 < b.0 || (a.0 == b.0 && a.1 < b.1) }

  /** A comparison to sort by: asymmetric, and what is not less in two steps is
      not less in one. */
  ghost predicate Ordering<T(!new)>(less: (T, T) -> bool) {
    && (forall a, b :: less(a, b) ==> !less(b, a))
    && (forall a, b, c :: !less(b, a) && !less(c, b) ==> !less(c, a))
  }

  ghost predicate Sorted<T>(less: (T, T) -> bool, xs: seq<T>) {
    forall i, j :: 0 <= i < j < |xs| ==> !less(xs[j], xs[i])
  }

  /** Put x in front of the first element that is not less. */
  function Insert<T>(less: (T, T) -> bool, x: T, xs: seq<T>): (r: seq<T>)
    ensures |r| == |xs| + 1
  {
    if xs == [] then [x]
    else if !less(xs[0], x) then [x] + xs
    else [xs[0]] + Insert(less, x, xs[1..])
  }

  function SortBy<T>(less: (T, T) -> bool, xs: seq<T>): (r: seq<T>)
    ensures |r| == |xs|
  {
    if xs == [] then [] else Insert(less, xs[0], SortBy(less, xs[1..]))
  }

  /** Comparing integer pairs lexicographically is a comparison to sort by. */
  lemma KeyOrders<T(!new)>(less: (T, T) -> bool, key: T -> Key)
    requires forall a, b :: less(a, b) == KeyLess(key(a), key(b))
    ensures Ordering(less)
  {
  }

  lemma {:induction false} InsertPermutes<T>(less: (T, T) -> bool, x: T, xs: seq<T>)
    ensures multiset(Insert(less, x, xs)) == multiset(xs) + multiset{x}
  {
    if xs != [] && less(xs[0], x) {
      InsertPermutes(less, x, xs[1..]);
      assert xs == [xs[0]] + xs[1..];
    }
  }

  lemma {:induction false} InsertSorted<T(!new)>(less: (T, T) -> bool, x: T, xs: seq<T>)
    requires Ordering(less) && Sorted(less, xs)
    ensures Sorted(less, Insert(less, x, xs))
  {
    if xs != [] && less(xs[0], x) {
      var rest := Insert(less, x, xs[1..]);
      InsertSorted(less, x, xs[1..]);
      InsertPermutes(less, x, xs[1..]);
      forall j | 0 <= j < |rest| ensures !less(rest[j], xs[0]) {
        assert rest[j] in multiset(rest);
        assert rest[j] == x || rest[j] in xs[1..];
      }
    } else if xs != [] {
      forall j | 0 <= j < |xs| ensures !less(xs[j], x) {
        assert j > 0 ==> !less(xs[j], xs[0]);
      }
    }
  }

  /** The result holds the same elements as often, in order. */
  lemma {:induction false} SortSorts<T(!new)>(less: (T, T) -> bool, xs: seq<T>)
    requires Ordering(less)
    ensures Sorted(less, SortBy(less, xs))
  {
    if xs != [] {
      SortSorts(less, xs[1..]);
      InsertSorted(less, xs[0], SortBy(less, xs[1..]));
    }
  }

  lemma {:induction false} SortPermutes<T>(less: (T, T) -> bool, xs: seq<T>)
    ensures multiset(SortBy(less, xs)) == multiset(xs)
  {
    if xs != [] {
      SortPermutes(less, xs[1..]);
      InsertPermutes(less, xs[0], SortBy(less, xs[1..]));
      assert xs == [xs[0]] + xs[1..];
    }
  }

  /** Sorting loses and invents nothing. */
  lemma SortKeeps<T(!new)>(less: (T, T) -> bool, xs: seq<T>)
    ensures forall x :: x in SortBy(less, xs) <==> x in xs
  {
    SortPermutes(less, xs);
    assert forall x :: x in SortBy(less, xs) <==> x in multiset(SortBy(less, xs));
    assert forall x :: x in xs <==> x in multiset(xs);
  }

  lemma {:induction false} InsertStable<T(!new)>(less: (T, T) -> bool, x: T, xs: seq<T>, p: T -> bool)
    requires forall a, b :: p(a) && p(b) ==> !less(a, b)
    ensures Filter(p, Insert(less, x, xs)) == Filter(p, [x] + xs)
  {
    if xs != [] && less(xs[0], x) {
      InsertStable(less, x, xs[1..], p);
      assert [x] + xs == [x, xs[0]] + xs[1..];
      FilterConcat(p, [x], xs);
      FilterConcat(p, [x], xs[1..]);
      FilterConcat(p, [xs[0]], xs[1..]);
      FilterConcat(p, [xs[0]], Insert(less, x, xs[1..]));
      assert [xs[0]] + xs[1..] == xs;
    }
  }

  /** Stability: elements none of which is less than another keep their order. */
  lemma {:induction false} SortStable<T(!new)>(less: (T, T) -> bool, xs: seq<T>, p: T -> bool)
    requires forall a, b :: p(a) && p(b) ==> !less(a, b)
    ensures Filter(p, SortBy(less, xs)) == Filter(p, xs)
  {
    if xs != [] {
      SortStable(less, xs[1..], p);
      InsertStable(less, xs[0], SortBy(less, xs[1..]), p);
      FilterConcat(p, [xs[0]], SortBy(less, xs[1..]));
      FilterConcat(p, [xs[0]], xs[1..]);
      assert [xs[0]] + xs[1..] == xs;
    }
  }

  /** A list already in order is left alone. */
  lemma {:induction false} SortedStays<T>(less: (T, T) -> bool, xs: seq<T>)
    requires Sorted(less, xs)
    ensures SortBy(less, xs) == xs
  {
    if xs != [] {
      SortedStays(less, xs[1..]);
      assert [xs[0]] + xs[1..] == xs;
    }
  }

  ghost predicate Pairwise<T>(rel: (T, T) -> bool, xs: seq<T>) {
    forall i, j :: 0 <= i < j < |xs| ==> rel(xs[i], xs[j])
  }

  lemma {:induction false} InsertPairwise<T(!new)>(less: (T, T) -> bool, rel: (T, T) -> bool, x: T, xs: seq<T>)
    requires forall a, b :: rel(a, b) ==> rel(b, a)
    requires Pairwise(rel, xs) && forall i :: 0 <= i < |xs| ==> rel(x, xs[i])
    ensures Pairwise(rel, Insert(less, x, xs))
  {
    if xs != [] && less(xs[0], x) {
      var rest := Insert(less, x, xs[1..]);
      InsertPairwise(less, rel, x, xs[1..]);
      InsertPermutes(less, x, xs[1..]);
      forall j | 0 <= j < |rest| ensures rel(xs[0], rest[j]) {
        assert rest[j] in multiset(rest);
        assert rest[j] == x || rest[j] in xs[1..];
      }
    }
  }

  /** A symmetric relation between all pairs survives sorting. */
  lemma {:induction false} SortPairwise<T(!new)>(less: (T, T) -> bool, rel: (T, T) -> bool, xs: seq<T>)
    requires forall a, b :: rel(a, b) ==> rel(b, a)
    requires Pairwise(rel, xs)
    ensures Pairwise(rel, SortBy(less, xs))
  {
    if xs != [] {
      var rest := SortBy(less, xs[1..]);
      SortPairwise(less, rel, xs[1..]);
      SortPermutes(less, xs[1..]);
      forall j | 0 <= j < |rest| ensures rel(xs[0], rest[j]) {
        assert rest[j] in multiset(rest);
        assert rest[j] in xs[1..];
      }
      InsertPairwise(less, rel, xs[0], rest);
    }
  }
}
