/** Shared value types and the few sequence functions every module uses. */
module Prelude {

  datatype Option<+T> = None | Some(value: T)

  datatype Result<+T, +E> = Ok(value: T) | Err(error: E)

  function Min(a: int, b: int): int { if a <= b then a else b }

  function Max(a: int, b: int): int { if a >= b then a else b }

  /** An address with the Thumb bit cleared. */
  function Masked(address: nat): nat { address - address % 2 }

  function Reverse<T>(xs: seq<T>): (r: seq<T>)
    ensures |r| == |xs|
    ensures forall i :: 0 <= i < |xs| ==> r[i] == xs[|xs| - 1 - i]
  {
    if xs == [] then [] else Reverse(xs[1..]) + [xs[0]]
  }

  lemma ReverseTwice<T>(xs: seq<T>)
    ensures Reverse(Reverse(xs)) == xs
  {
  }

  lemma Regroup<T>(a: seq<T>, b: seq<T>, c: seq<T>)
    ensures (a + b) + c == a + (b + c)
  {
  }

  /** The elements satisfying p, in order. */
  function Filter<T(!new)>(p: T -> bool, xs: seq<T>): (r: seq<T>)
    ensures |r| <= |xs|
    ensures forall x :: x in r <==> x in xs && p(x)
  {
    if xs == [] then []
    else if p(xs[0]) then [xs[0]] + Filter(p, xs[1..])
    else Filter(p, xs[1..])
  }

  lemma {:induction false} FilterConcat<T(!new)>(p: T -> bool, xs: seq<T>, ys: seq<T>)
    ensures Filter(p, xs + ys) == Filter(p, xs) + Filter(p, ys)
  {
    hide Filter;
    if xs == [] {
      assert xs + ys == ys;
      FilterEmpty(p);
    } else {
      FilterConcat(p, xs[1..], ys);
      FilterStep(p, xs);
      FilterStep(p, xs + ys);
      assert (xs + ys)[1..] == xs[1..] + ys;
      Regroup([xs[0]], Filter(p, xs[1..]), Filter(p, ys));
    }
  }

  lemma FilterEmpty<T(!new)>(p: T -> bool)
    ensures Filter(p, []) == []
  {
  }

  lemma FilterStep<T(!new)>(p: T -> bool, xs: seq<T>)
    requires xs != []
    ensures Filter(p, xs) == if p(xs[0]) then [xs[0]] + Filter(p, xs[1..]) else Filter(p, xs[1..])
  {
  }

  lemma {:induction false} FilterNone<T(!new)>(p: T -> bool, xs: seq<T>)
    requires forall i :: 0 <= i < |xs| ==> !p(xs[i])
    ensures Filter(p, xs) == []
  {
    if xs != [] { FilterNone(p, xs[1..]); }
  }

  /** The first element satisfying p is the first that survives the filter. */
  lemma {:induction false} FilterFirst<T(!new)>(p: T -> bool, xs: seq<T>, i: nat)
    requires i < |xs| && p(xs[i]) && forall j :: 0 <= j < i ==> !p(xs[j])
    ensures Filter(p, xs) != [] && Filter(p, xs)[0] == xs[i]
  {
    if i > 0 { FilterFirst(p, xs[1..], i - 1); }
  }

  /** And the last one is the last. */
  lemma {:induction false} FilterLast<T(!new)>(p: T -> bool, xs: seq<T>, i: nat)
    requires i < |xs| && p(xs[i]) && forall j :: i < j < |xs| ==> !p(xs[j])
    ensures Filter(p, xs) != [] && Filter(p, xs)[|Filter(p, xs)| - 1] == xs[i]
  {
    if i > 0 { FilterLast(p, xs[1..], i - 1); } else { FilterNone(p, xs[1..]); }
  }
}
