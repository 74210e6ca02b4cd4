/** Totals over lists: what they come to does not depend on the order, and
    splitting a list by a key loses and doubles nothing. */
module Tallies {
  import opened Prelude
  import opened Sorting

  function Init<T>(xs: seq<T>): seq<T>
    requires xs != []
  {
    xs[..|xs| - 1]
  }

  function Last<T>(xs: seq<T>): T
    requires xs != []
  {
    xs[|xs| - 1]
  }

  function Weigh<T>(w: T -> int, xs: seq<T>): int {
    if xs == [] then 0 else Weigh(w, Init(xs)) + w(Last(xs))
  }

  /** The elements under one key, in order. */
  function Group<T, K(==)>(key: T -> Option<K>, xs: seq<T>, k: K): seq<T> {
    if xs == [] then []
    else Group(key, Init(xs), k) + (if key(Last(xs)) == Some(k) then [Last(xs)] else [])
  }

  /** The keys in order of first appearance: an insertion-ordered dictionary's. */
  function FirstSeen<T(!new), K(==,!new)>(key: T -> Option<K>, xs: seq<T>): (ks: seq<K>)
    ensures Distinct(ks)
    ensures forall k :: k in ks <==> exists x :: x in xs && key(x) == Some(k)
  {
    if xs == [] then []
    else
      var ks := FirstSeen(key, Init(xs));
      match key(Last(xs))
      case None => ks
      case Some(k) => if k in ks then ks else ks + [k]
  }

  lemma FirstSeenStep<T(!new), K(!new)>(key: T -> Option<K>, xs: seq<T>, x: T)
    ensures FirstSeen(key, xs + [x]) ==
            if key(x).Some? && key(x).value !in FirstSeen(key, xs) then FirstSeen(key, xs) + [key(x).value]
            else FirstSeen(key, xs)
  {
    assert Init(xs + [x]) == xs && Last(xs + [x]) == x;
  }

  ghost predicate Distinct<K>(ks: seq<K>) {
    forall i, j :: 0 <= i < j < |ks| ==> ks[i] != ks[j]
  }

  function WithoutAt<T>(xs: seq<T>, i: nat): seq<T>
    requires i < |xs|
  {
    xs[..i] + xs[i + 1..]
  }

  lemma WithoutAtCounts<T>(xs: seq<T>, i: nat)
    requires i < |xs|
    ensures multiset(xs) == multiset(WithoutAt(xs, i)) + multiset{xs[i]}
  {
    assert xs == xs[..i] + [xs[i]] + xs[i + 1..];
  }

  lemma InitCounts<T>(xs: seq<T>)
    requires xs != []
    ensures multiset(xs) == multiset(Init(xs)) + multiset{Last(xs)}
  {
    assert xs == Init(xs) + [Last(xs)];
  }

  /** Take the last element of xs out of a reordering of xs. */
  lemma MatchLast<T>(xs: seq<T>, ys: seq<T>) returns (i: nat)
    requires xs != [] && multiset(xs) == multiset(ys)
    ensures i < |ys| && ys[i] == Last(xs)
    ensures multiset(Init(xs)) == multiset(WithoutAt(ys, i))
  {
    hide *;
    InitCounts(xs);
    assert Last(xs) in multiset(ys);
    i :| 0 <= i < |ys| && ys[i] == Last(xs);
    WithoutAtCounts(ys, i);
    assert multiset(Init(xs)) == multiset(xs) - multiset{Last(xs)};
  }

  lemma {:induction false} WeighWithout<T>(w: T -> int, xs: seq<T>, i: nat)
    requires i < |xs|
    ensures Weigh(w, xs) == Weigh(w, WithoutAt(xs, i)) + w(xs[i])
  {
    if i == |xs| - 1 {
      assert WithoutAt(xs, i) == Init(xs);
    } else {
      WeighWithout(w, Init(xs), i);
      assert Init(WithoutAt(xs, i)) == WithoutAt(Init(xs), i);
      assert Last(WithoutAt(xs, i)) == Last(xs);
    }
  }

  lemma {:induction false} WeighPermutes<T>(w: T -> int, xs: seq<T>, ys: seq<T>)
    requires multiset(xs) == multiset(ys)
    ensures Weigh(w, xs) == Weigh(w, ys)
  {
    if xs == [] {
      assert |multiset(ys)| == 0;
    } else {
      var i := MatchLast(xs, ys);
      WeighPermutes(w, Init(xs), WithoutAt(ys, i));
      WeighWithout(w, ys, i);
    }
  }

  lemma {:induction false} GroupHolds<T, K>(key: T -> Option<K>, xs: seq<T>, k: K, x: T)
    ensures x in Group(key, xs, k) <==> x in xs && key(x) == Some(k)
  {
    if xs != [] {
      GroupHolds(key, Init(xs), k, x);
      assert xs == Init(xs) + [Last(xs)];
    }
  }

  lemma GroupEmpty<T, K>(key: T -> Option<K>, xs: seq<T>, k: K)
    requires forall x :: x in xs ==> key(x) != Some(k)
    ensures Group(key, xs, k) == []
  {
    if Group(key, xs, k) != [] { GroupHolds(key, xs, k, Group(key, xs, k)[0]); }
  }

  /** A group keeps each of its elements as often as the list has it. */
  lemma {:induction false} GroupCounts<T(!new), K>(key: T -> Option<K>, xs: seq<T>, k: K, x: T)
    ensures multiset(Group(key, xs, k))[x] == if key(x) == Some(k) then multiset(xs)[x] else 0
  {
    if xs != [] {
      GroupCounts(key, Init(xs), k, x);
      assert xs == Init(xs) + [Last(xs)];
    }
  }

  lemma GroupPermutes<T(!new), K>(key: T -> Option<K>, xs: seq<T>, ys: seq<T>, k: K)
    requires multiset(xs) == multiset(ys)
    ensures multiset(Group(key, xs, k)) == multiset(Group(key, ys, k))
  {
    forall x: T ensures multiset(Group(key, xs, k))[x] == multiset(Group(key, ys, k))[x] {
      GroupCounts(key, xs, k, x);
      GroupCounts(key, ys, k, x);
    }
  }

  lemma {:induction false} DistinctCounts<K>(ks: seq<K>, k: K)
    requires Distinct(ks)
    ensures multiset(ks)[k] == if k in ks then 1 else 0
  {
    if ks != [] {
      DistinctCounts(Init(ks), k);
      assert ks == Init(ks) + [Last(ks)];
    }
  }

  lemma FirstSeenPermutes<T(!new), K(!new)>(key: T -> Option<K>, xs: seq<T>, ys: seq<T>)
    requires multiset(xs) == multiset(ys)
    ensures multiset(FirstSeen(key, xs)) == multiset(FirstSeen(key, ys))
  {
    assert forall x :: x in xs <==> x in multiset(xs);
    assert forall x :: x in ys <==> x in multiset(ys);
    forall k: K ensures multiset(FirstSeen(key, xs))[k] == multiset(FirstSeen(key, ys))[k] {
      DistinctCounts(FirstSeen(key, xs), k);
      DistinctCounts(FirstSeen(key, ys), k);
    }
  }

  // ----- splitting by key

  function SumGroups<T(!new), K(==)>(w: T -> int, key: T -> Option<K>, xs: seq<T>, ks: seq<K>): int {
    if ks == [] then 0 else SumGroups(w, key, xs, Init(ks)) + Weigh(w, Group(key, xs, Last(ks)))
  }

  lemma WeighSnoc<T>(w: T -> int, xs: seq<T>, x: T)
    ensures Weigh(w, xs + [x]) == Weigh(w, xs) + w(x)
  {
    assert Init(xs + [x]) == xs;
  }

  lemma GroupSnoc<T, K>(key: T -> Option<K>, xs: seq<T>, x: T, k: K)
    ensures Group(key, xs + [x], k) == if key(x) == Some(k) then Group(key, xs, k) + [x] else Group(key, xs, k)
  {
    assert Init(xs + [x]) == xs && Last(xs + [x]) == x;
  }

  lemma GroupStep<T, K>(key: T -> Option<K>, xs: seq<T>, k: K)
    requires xs != []
    ensures Group(key, xs, k)
         == if key(Last(xs)) == Some(k) then Group(key, Init(xs), k) + [Last(xs)] else Group(key, Init(xs), k)
  {
  }

  lemma GroupWeighStep<T(!new), K>(w: T -> int, key: T -> Option<K>, xs: seq<T>, k: K)
    requires xs != []
    ensures Weigh(w, Group(key, xs, k)) ==
            Weigh(w, Group(key, Init(xs), k)) + if key(Last(xs)) == Some(k) then w(Last(xs)) else 0
  {
    hide Group, Weigh;
    GroupStep(key, xs, k);
    if key(Last(xs)) == Some(k) { WeighSnoc(w, Group(key, Init(xs), k), Last(xs)); }
  }

  /** One more element adds to exactly the group of its key. */
  lemma {:induction false} SumGroupsStep<T(!new), K>(w: T -> int, key: T -> Option<K>, xs: seq<T>, ks: seq<K>)
    requires xs != [] && Distinct(ks)
    ensures SumGroups(w, key, xs, ks) == SumGroups(w, key, Init(xs), ks) +
            if key(Last(xs)).Some? && key(Last(xs)).value in ks then w(Last(xs)) else 0
  {
    hide Group, Weigh;
    if ks != [] {
      SumGroupsStep(w, key, xs, Init(ks));
      GroupWeighStep(w, key, xs, Last(ks));
      assert ks == Init(ks) + [Last(ks)];
    }
  }

  lemma {:induction false} SumGroupsEmpty<T(!new), K>(w: T -> int, key: T -> Option<K>, ks: seq<K>)
    ensures SumGroups(w, key, [], ks) == 0
  {
    if ks != [] { SumGroupsEmpty(w, key, Init(ks)); }
  }

  /** Conservation: the groups together weigh what the list weighs. */
  lemma {:induction false} GroupsConserve<T(!new), K>(w: T -> int, key: T -> Option<K>, xs: seq<T>, ks: seq<K>)
    requires Distinct(ks)
    requires forall x :: x in xs && key(x).Some? ==> key(x).value in ks
    requires forall x :: x in xs && key(x).None? ==> w(x) == 0
    ensures SumGroups(w, key, xs, ks) == Weigh(w, xs)
  {
    if xs == [] {
      SumGroupsEmpty(w, key, ks);
    } else {
      assert Last(xs) in xs;
      GroupsConserve(w, key, Init(xs), ks);
      SumGroupsStep(w, key, xs, ks);
    }
  }

  lemma SameFirst<T>(less: (T, T) -> bool, xs: seq<T>, ys: seq<T>)
    requires xs != [] && ys != []
    requires Sorted(less, xs) && Sorted(less, ys) && multiset(xs) == multiset(ys)
    ensures xs[0] in ys && ys[0] in xs
    ensures xs[0] == ys[0] || (!less(xs[0], ys[0]) && !less(ys[0], xs[0]))
  {
    assert xs[0] in multiset(ys) && ys[0] in multiset(xs);
    var i :| 0 <= i < |ys| && ys[i] == xs[0];
    var j :| 0 <= j < |xs| && xs[j] == ys[0];
  }

  lemma SameRest<T>(xs: seq<T>, ys: seq<T>)
    requires xs != [] && ys != [] && xs[0] == ys[0] && multiset(xs) == multiset(ys)
    ensures multiset(xs[1..]) == multiset(ys[1..])
  {
    assert xs == [xs[0]] + xs[1..] && ys == [ys[0]] + ys[1..];
    assert multiset(xs[1..]) == multiset(xs) - multiset{xs[0]} == multiset(ys[1..]);
  }

  /** Sorted by an order that tells all elements apart, a list of given elements
      is one list. */
  lemma {:induction false} SortedUnique<T(!new)>(less: (T, T) -> bool, xs: seq<T>, ys: seq<T>)
    requires Sorted(less, xs) && Sorted(less, ys) && multiset(xs) == multiset(ys)
    requires forall a, b :: a in xs && b in xs && !less(a, b) && !less(b, a) ==> a == b
    ensures xs == ys
  {
    if xs == [] {
      assert |multiset(ys)| == 0;
    } else {
      assert |multiset(ys)| == |xs|;
      SameFirst(less, xs, ys);
      SameRest(xs, ys);
      SortedUnique(less, xs[1..], ys[1..]);
    }
  }
}
