/** Putting a probe window into time order: the orientation is read off the
    window's own cycle stamps, and the stamps are remapped with the counters. */
module Timestamps {
  import opened Prelude
  import opened Sorting

  /** One cycle stamp, on the counter at index of its window. */
  datatype Stamp = Stamp(cycle: nat, index: int, adjust: int)

  function IndexKey(s: Stamp): Key { (s.index, 0) }

  predicate IndexLess(a: Stamp, b: Stamp) { KeyLess(IndexKey(a), IndexKey(b)) }

  /** Neighbours i and i + 1 differ in index and in cycle. */
  predicate Differ(ordered: seq<Stamp>, i: nat)
    requires i < |ordered| - 1
  {
    ordered[i].index != ordered[i + 1].index && ordered[i].cycle != ordered[i + 1].cycle
  }

  /** The directions in which cycles move between neighbours in index order. */
  function Directions(ordered: seq<Stamp>): set<bool> {
    set i | 0 <= i < |ordered| - 1 && Differ(ordered, i) :: ordered[i + 1].cycle > ordered[i].cycle
  }

  /** Some(true) for newest-first, Some(false) for oldest-first, None for stamps
      that show no direction, or both. */
  function DetectStampOrder(stamps: seq<Stamp>): Option<bool> {
    var directions := Directions(SortBy(IndexLess, stamps));
    if directions == {true} then Some(false)
    else if directions == {false} then Some(true)
    else None
  }

  function Moved(s: Stamp, total: nat, newestFirst: bool): Stamp {
    if newestFirst then s.(index := total - 1 - s.index) else s
  }

  /** In-range stamps, remapped, in the order they were given. */
  function Remapped(stamps: seq<Stamp>, total: nat, newestFirst: bool): seq<Stamp> {
    if stamps == [] then []
    else
      var rest := Remapped(stamps[1..], total, newestFirst);
      if 0 <= stamps[0].index < total then [Moved(stamps[0], total, newestFirst)] + rest else rest
  }

  function Orientation(stamps: seq<Stamp>, newestFirst: Option<bool>): bool {
    match newestFirst
    case Some(known) => known
    case None =>
      match DetectStampOrder(stamps)
      case Some(detected) => detected
      case None => true
  }

  function Chronologise(pcs: seq<nat>, stamps: seq<Stamp>, newestFirst: Option<bool>): (seq<nat>, seq<Stamp>) {
    var newest := Orientation(stamps, newestFirst);
    (if newest then Reverse(pcs) else pcs,
     SortBy(IndexLess, Remapped(stamps, |pcs|, newest)))
  }

  // ----- what detection decides

  ghost predicate OneCyclePerIndex(stamps: seq<Stamp>) {
    forall a, b :: a in stamps && b in stamps && a.index == b.index ==> a.cycle == b.cycle
  }

  predicate Moves(a: Stamp, b: Stamp, up: bool) {
    if up then a.cycle < b.cycle else b.cycle < a.cycle
  }

  /** Somewhere over increasing index the cycle moves this way. */
  ghost predicate PairMoves(stamps: seq<Stamp>, up: bool) {
    exists a, b :: a in stamps && b in stamps && a.index < b.index && Moves(a, b, up)
  }

  /** The cycles move this way over increasing index, and never the other way. */
  ghost predicate Trend(stamps: seq<Stamp>, up: bool) {
    PairMoves(stamps, up) && !PairMoves(stamps, !up)
  }

  lemma {:induction false} StillEverywhere(ordered: seq<Stamp>, up: bool, i: nat, j: nat)
    requires OneCyclePerIndex(ordered) && up !in Directions(ordered)
    requires i <= j < |ordered|
    ensures !Moves(ordered[i], ordered[j], up)
    decreases j
  {
    if i < j {
      StillEverywhere(ordered, up, i, j - 1);
      var a, b := ordered[j - 1], ordered[j - 1 + 1];
      assert a in ordered && b in ordered;
      if Differ(ordered, j - 1) {
        assert (b.cycle > a.cycle) in Directions(ordered);
      }
    }
  }

  lemma SortedIndices(stamps: seq<Stamp>, i: nat, j: nat)
    requires i < |SortBy(IndexLess, stamps)| && j < |SortBy(IndexLess, stamps)|
    ensures var o := SortBy(IndexLess, stamps); o[i].index < o[j].index ==> i < j
    ensures var o := SortBy(IndexLess, stamps); i <= j ==> o[i].index <= o[j].index
  {
    var o := SortBy(IndexLess, stamps);
    KeyOrders(IndexLess, IndexKey);
    SortSorts(IndexLess, stamps);
    if j < i { assert !IndexLess(o[i], o[j]); }
    if i < j { assert !IndexLess(o[j], o[i]); }
  }

  /** Looking at neighbours only misses no movement. */
  lemma DirectionIsMovement(stamps: seq<Stamp>, up: bool)
    requires OneCyclePerIndex(stamps)
    ensures up in Directions(SortBy(IndexLess, stamps)) <==> PairMoves(stamps, up)
  {
    hide SortBy, IndexLess;
    var o := SortBy(IndexLess, stamps);
    SortKeeps(IndexLess, stamps);
    if up in Directions(o) {
      var i :| 0 <= i < |o| - 1 && Differ(o, i) && (o[i + 1].cycle > o[i].cycle) == up;
      SortedIndices(stamps, i, i + 1);
      assert o[i] in stamps && o[i + 1] in stamps && Moves(o[i], o[i + 1], up);
    } else if PairMoves(stamps, up) {
      var a, b :| a in stamps && b in stamps && a.index < b.index && Moves(a, b, up);
      var i :| 0 <= i < |o| && o[i] == a;
      var j :| 0 <= j < |o| && o[j] == b;
      SortedIndices(stamps, i, j);
      StillEverywhere(o, up, i, j);
    }
  }

  /** Detection is exact: it answers precisely when the window has one
      direction, and it answers with that direction. */
  lemma DetectIs(stamps: seq<Stamp>)
    requires OneCyclePerIndex(stamps)
    ensures DetectStampOrder(stamps) == Some(false) <==> Trend(stamps, true)
    ensures DetectStampOrder(stamps) == Some(true) <==> Trend(stamps, false)
  {
    DirectionIsMovement(stamps, true);
    DirectionIsMovement(stamps, false);
    OneDirection(Directions(SortBy(IndexLess, stamps)));
  }

  lemma OneDirection(d: set<bool>)
    ensures d == {true} <==> true in d && false !in d
    ensures d == {false} <==> false in d && true !in d
  {
    if true in d && false !in d {
      assert forall x: bool :: x in d <==> x in {true};
    }
    if false in d && true !in d {
      assert forall x: bool :: x in d <==> x in {false};
    }
  }

  // ----- mirror images

  /** The stamps of the same window read from its other end. */
  function Mirror(stamps: seq<Stamp>, total: nat): (r: seq<Stamp>)
    ensures |r| == |stamps|
  {
    seq(|stamps|, i requires 0 <= i < |stamps| => Moved(stamps[i], total, true))
  }

  lemma MirrorMember(stamps: seq<Stamp>, total: nat, a: Stamp)
    ensures a in stamps ==> Moved(a, total, true) in Mirror(stamps, total)
    ensures a in Mirror(stamps, total) ==> Moved(a, total, true) in stamps
  {
    var m := Mirror(stamps, total);
    if a in stamps {
      var i :| 0 <= i < |stamps| && stamps[i] == a;
      assert m[i] == Moved(a, total, true);
    }
    if a in m {
      var i :| 0 <= i < |m| && m[i] == a;
      assert Moved(a, total, true) == stamps[i];
    }
  }

  lemma MirrorTwice(stamps: seq<Stamp>, total: nat)
    ensures Mirror(Mirror(stamps, total), total) == stamps
  {
  }

  lemma MirrorMoves(stamps: seq<Stamp>, total: nat, up: bool)
    requires PairMoves(stamps, up)
    ensures PairMoves(Mirror(stamps, total), !up)
  {
    var a, b :| a in stamps && b in stamps && a.index < b.index && Moves(a, b, up);
    MirrorMember(stamps, total, a);
    MirrorMember(stamps, total, b);
    var a', b' := Moved(a, total, true), Moved(b, total, true);
    assert b'.index < a'.index && Moves(b', a', !up);
  }

  lemma MirrorTrend(stamps: seq<Stamp>, total: nat, up: bool)
    requires Trend(stamps, up)
    ensures Trend(Mirror(stamps, total), !up)
  {
    MirrorMoves(stamps, total, up);
    MirrorTwice(stamps, total);
    if PairMoves(Mirror(stamps, total), up) {
      MirrorMoves(Mirror(stamps, total), total, up);
      assert false;
    }
  }

  /** Reading the window from the other end turns the verdict around. */
  lemma MirrorDetects(stamps: seq<Stamp>, total: nat)
    requires OneCyclePerIndex(stamps) && DetectStampOrder(stamps).Some?
    ensures DetectStampOrder(Mirror(stamps, total)) == Some(!DetectStampOrder(stamps).value)
  {
    MirrorOneCycle(stamps, total);
    DetectIs(stamps);
    DetectIs(Mirror(stamps, total));
    MirrorTrend(stamps, total, !DetectStampOrder(stamps).value);
  }

  lemma {:induction false} MirrorRemaps(stamps: seq<Stamp>, total: nat, newestFirst: bool)
    ensures Remapped(Mirror(stamps, total), total, !newestFirst) == Remapped(stamps, total, newestFirst)
  {
    if stamps != [] {
      MirrorRemaps(stamps[1..], total, newestFirst);
      assert Mirror(stamps, total)[1..] == Mirror(stamps[1..], total);
    }
  }

  lemma MirrorChronologise(pcs: seq<nat>, stamps: seq<Stamp>, newestFirst: bool)
    ensures Chronologise(Reverse(pcs), Mirror(stamps, |pcs|), Some(!newestFirst))
         == Chronologise(pcs, stamps, Some(newestFirst))
  {
    ReverseTwice(pcs);
    MirrorRemaps(stamps, |pcs|, newestFirst);
  }

  /** Read from its other end a window comes out the same if and only if the two
      ends are oriented against one another, or it is its own mirror image. */
  lemma EndsAgreeIff(pcs: seq<nat>, stamps: seq<Stamp>)
    ensures Chronologise(Reverse(pcs), Mirror(stamps, |pcs|), None) == Chronologise(pcs, stamps, None)
       <==> Orientation(Mirror(stamps, |pcs|), None) != Orientation(stamps, None) || OwnMirror(pcs, stamps)
  {
    hide DetectStampOrder, SortBy, Remapped;
    var seen, turned := Orientation(stamps, None), Orientation(Mirror(stamps, |pcs|), None);
    MirrorChronologise(pcs, stamps, !turned);
    assert Chronologise(Reverse(pcs), Mirror(stamps, |pcs|), None) == Chronologise(pcs, stamps, Some(!turned));
    assert Chronologise(pcs, stamps, None) == Chronologise(pcs, stamps, Some(seen));
  }

  /** Counters and stamps read the same from both ends. */
  ghost predicate OwnMirror(pcs: seq<nat>, stamps: seq<Stamp>) {
    && Reverse(pcs) == pcs
    && SortBy(IndexLess, Remapped(stamps, |pcs|, true)) == SortBy(IndexLess, Remapped(stamps, |pcs|, false))
  }

  lemma MirrorOneCycle(stamps: seq<Stamp>, total: nat)
    requires OneCyclePerIndex(stamps)
    ensures OneCyclePerIndex(Mirror(stamps, total))
  {
    var m := Mirror(stamps, total);
    forall a, b | a in m && b in m && a.index == b.index ensures a.cycle == b.cycle {
      MirrorMember(stamps, total, a);
      MirrorMember(stamps, total, b);
    }
  }

  /** With one cycle on each index, that is: the window has a direction, or is its
      own mirror image. */
  lemma DirectionOrMirrorIff(pcs: seq<nat>, stamps: seq<Stamp>)
    requires OneCyclePerIndex(stamps)
    ensures Chronologise(Reverse(pcs), Mirror(stamps, |pcs|), None) == Chronologise(pcs, stamps, None)
       <==> DetectStampOrder(stamps).Some? || OwnMirror(pcs, stamps)
  {
    hide Chronologise, DetectStampOrder, OwnMirror;
    var m := Mirror(stamps, |pcs|);
    EndsAgreeIff(pcs, stamps);
    MirrorOneCycle(stamps, |pcs|);
    MirrorTwice(stamps, |pcs|);
    if DetectStampOrder(stamps).Some? { MirrorDetects(stamps, |pcs|); }
    if DetectStampOrder(m).Some? { MirrorDetects(m, |pcs|); }
  }

  /** In particular a window with a direction comes out the same. */
  lemma OrientationIndependent(pcs: seq<nat>, stamps: seq<Stamp>)
    requires OneCyclePerIndex(stamps) && DetectStampOrder(stamps).Some?
    ensures Chronologise(Reverse(pcs), Mirror(stamps, |pcs|), None) == Chronologise(pcs, stamps, None)
  {
    hide *;
    DirectionOrMirrorIff(pcs, stamps);
  }

  // ----- what a chronologised window says

  lemma {:induction false} RemappedMembers(stamps: seq<Stamp>, total: nat, newestFirst: bool)
    ensures forall t :: t in Remapped(stamps, total, newestFirst)
              <==> 0 <= t.index < total && Moved(t, total, newestFirst) in stamps
  {
    if stamps != [] {
      RemappedMembers(stamps[1..], total, newestFirst);
      assert stamps == [stamps[0]] + stamps[1..];
      assert Moved(Moved(stamps[0], total, newestFirst), total, newestFirst) == stamps[0];
      assert forall t :: t == Moved(stamps[0], total, newestFirst) <==> Moved(t, total, newestFirst) == stamps[0];
    }
  }

  /** Exactly the in-range stamps survive, in index order, each still on the
      program-counter occurrence it arrived with. */
  lemma ChronologiseKeepsStamps(pcs: seq<nat>, stamps: seq<Stamp>, newestFirst: Option<bool>)
    ensures var (out, ordered) := Chronologise(pcs, stamps, newestFirst);
            var newest := Orientation(stamps, newestFirst);
            && |out| == |pcs|
            && (forall i, j :: 0 <= i < j < |ordered| ==> ordered[i].index <= ordered[j].index)
            && (forall t :: t in ordered <==> 0 <= t.index < |pcs| && Moved(t, |pcs|, newest) in stamps)
            && (forall t :: t in ordered ==> out[t.index] == pcs[Moved(t, |pcs|, newest).index])
  {
    var newest := Orientation(stamps, newestFirst);
    var r := Remapped(stamps, |pcs|, newest);
    RemappedMembers(stamps, |pcs|, newest);
    SortKeeps(IndexLess, r);
    forall i, j | 0 <= i < j < |SortBy(IndexLess, r)|
      ensures SortBy(IndexLess, r)[i].index <= SortBy(IndexLess, r)[j].index
    {
      SortedIndices(r, i, j);
    }
  }

  lemma TrendPair(stamps: seq<Stamp>, up: bool, a: Stamp, b: Stamp)
    requires OneCyclePerIndex(stamps) && Trend(stamps, up)
    requires a in stamps && b in stamps && a.index <= b.index
    ensures !Moves(a, b, !up)
  {
  }

  /** Detected windows come out with time running forward: a later index never
      carries an earlier cycle. */
  lemma ChronologisedCyclesRise(pcs: seq<nat>, stamps: seq<Stamp>)
    requires OneCyclePerIndex(stamps) && DetectStampOrder(stamps).Some?
    ensures var ordered := Chronologise(pcs, stamps, None).1;
            forall i, j :: 0 <= i < j < |ordered| ==> ordered[i].cycle <= ordered[j].cycle
  {
    ChronologiseKeepsStamps(pcs, stamps, None);
    DetectIs(stamps);
    var newest := DetectStampOrder(stamps).value;
    var ordered := Chronologise(pcs, stamps, None).1;
    forall i, j | 0 <= i < j < |ordered| ensures ordered[i].cycle <= ordered[j].cycle {
      var a, b := Moved(ordered[i], |pcs|, newest), Moved(ordered[j], |pcs|, newest);
      assert ordered[i] in ordered && ordered[j] in ordered;
      if newest { TrendPair(stamps, false, b, a); } else { TrendPair(stamps, true, a, b); }
    }
  }

  // ----- several cycles on one index

  function AtIndex(i: int): Stamp -> bool { (s: Stamp) => s.index == i }

  /** The stamps on one index, in the order they were given. */
  function OnIndex(stamps: seq<Stamp>, i: int): seq<Stamp> { Filter(AtIndex(i), stamps) }

  /** i and j carry stamps and no index between them does. */
  ghost predicate Neighbours(stamps: seq<Stamp>, i: int, j: int) {
    && i < j && OnIndex(stamps, i) != [] && OnIndex(stamps, j) != []
    && forall k :: i < k < j ==> OnIndex(stamps, k) == []
  }

  /** From the last stamp on index i to the first on the next, j, the cycle moves
      this way. */
  ghost predicate Crosses(stamps: seq<Stamp>, i: int, j: int, up: bool) {
    Neighbours(stamps, i, j) && Moves(OnIndex(stamps, i)[|OnIndex(stamps, i)| - 1], OnIndex(stamps, j)[0], up)
  }

  /** And from the last stamp on j to the first on the one before, i. */
  ghost predicate CrossesBack(stamps: seq<Stamp>, i: int, j: int, up: bool) {
    Neighbours(stamps, i, j) && Moves(OnIndex(stamps, j)[|OnIndex(stamps, j)| - 1], OnIndex(stamps, i)[0], up)
  }

  ghost predicate Onward(stamps: seq<Stamp>, up: bool) { exists i, j :: Crosses(stamps, i, j, up) }

  ghost predicate Backward(stamps: seq<Stamp>, up: bool) { exists i, j :: CrossesBack(stamps, i, j, up) }

  lemma OnSorted(stamps: seq<Stamp>, i: int)
    ensures OnIndex(SortBy(IndexLess, stamps), i) == OnIndex(stamps, i)
  {
    SortStable(IndexLess, stamps, AtIndex(i));
  }

  lemma OnIndexHas(stamps: seq<Stamp>, k: nat)
    requires k < |stamps|
    ensures OnIndex(stamps, stamps[k].index) != []
  {
    assert stamps[k] in Filter(AtIndex(stamps[k].index), stamps);
  }

  ghost predicate InIndexOrder(o: seq<Stamp>) { forall i, j :: 0 <= i < j < |o| ==> o[i].index <= o[j].index }

  /** Where the index changes in a sorted list, two groups meet end to front. */
  lemma SeamIs(o: seq<Stamp>, k: nat)
    requires InIndexOrder(o) && k + 1 < |o| && o[k].index != o[k + 1].index
    ensures var (i, j) := (o[k].index, o[k + 1].index);
            && Neighbours(o, i, j)
            && OnIndex(o, i)[|OnIndex(o, i)| - 1] == o[k] && OnIndex(o, j)[0] == o[k + 1]
  {
    var (i, j) := (o[k].index, o[k + 1].index);
    FilterLast(AtIndex(i), o, k);
    FilterFirst(AtIndex(j), o, k + 1);
    forall x | i < x < j ensures OnIndex(o, x) == [] {
      forall y | 0 <= y < |o| ensures !AtIndex(x)(o[y]) { }
      FilterNone(AtIndex(x), o);
    }
  }

  /** And every two neighbouring indices meet at such a place. */
  lemma {:induction false} SeamOf(o: seq<Stamp>, i: int, j: int, p: nat, q: nat) returns (k: nat)
    requires InIndexOrder(o) && Neighbours(o, i, j) && p < q < |o| && o[p].index == i && o[q].index == j
    ensures k + 1 < |o| && o[k].index == i && o[k + 1].index == j
    decreases q - p
  {
    OnIndexHas(o, p + 1);
    assert i <= o[p + 1].index <= j;
    if o[p + 1].index == i { k := SeamOf(o, i, j, p + 1, q); } else { k := p; }
  }

  lemma PlaceOf(o: seq<Stamp>, i: int) returns (p: nat)
    requires OnIndex(o, i) != []
    ensures p < |o| && o[p].index == i
  {
    var s := OnIndex(o, i)[0];
    assert s in OnIndex(o, i);
    p :| 0 <= p < |o| && o[p] == s;
  }

  lemma SortedOnward(o: seq<Stamp>, up: bool)
    requires InIndexOrder(o)
    ensures up in Directions(o) <==> Onward(o, up)
  {
    hide OnIndex, Crosses;
    if up in Directions(o) {
      var k :| 0 <= k < |o| - 1 && Differ(o, k) && (o[k + 1].cycle > o[k].cycle) == up;
      SeamCrosses(o, k, up);
    }
    if i, j :| Crosses(o, i, j, up) {
      var k := Seam(o, i, j, up);
      SeamCrosses(o, k, up);
      assert Differ(o, k);
    }
  }

  lemma SeamCrosses(o: seq<Stamp>, k: nat, up: bool)
    requires InIndexOrder(o) && k + 1 < |o| && o[k].index != o[k + 1].index
    ensures Crosses(o, o[k].index, o[k + 1].index, up) <==> Moves(o[k], o[k + 1], up)
  {
    hide OnIndex, Neighbours;
    SeamIs(o, k);
  }

  lemma Seam(o: seq<Stamp>, i: int, j: int, up: bool) returns (k: nat)
    requires InIndexOrder(o) && Crosses(o, i, j, up)
    ensures k + 1 < |o| && o[k].index == i < j == o[k + 1].index
  {
    var p := PlaceOf(o, i);
    var q := PlaceOf(o, j);
    k := SeamOf(o, i, j, p, q);
  }

  /** Detection looks at nothing but the first and last stamp of each index. */
  lemma DirectionsAreOnward(stamps: seq<Stamp>, up: bool)
    ensures up in Directions(SortBy(IndexLess, stamps)) <==> Onward(stamps, up)
  {
    hide SortBy, Directions, Onward;
    var o := SortBy(IndexLess, stamps);
    forall i, j | 0 <= i < j < |o| ensures o[i].index <= o[j].index { SortedIndices(stamps, i, j); }
    SortedOnward(o, up);
    forall i ensures OnIndex(o, i) == OnIndex(stamps, i) { OnSorted(stamps, i); }
    OnwardDepends(o, stamps, up);
  }

  lemma OnwardDepends(xs: seq<Stamp>, ys: seq<Stamp>, up: bool)
    requires forall i :: OnIndex(xs, i) == OnIndex(ys, i)
    ensures Onward(xs, up) <==> Onward(ys, up)
  {
    hide OnIndex;
    forall i, j ensures Crosses(xs, i, j, up) <==> Crosses(ys, i, j, up) { }
  }

  lemma {:induction false} OnMirror(stamps: seq<Stamp>, total: nat, i: int)
    ensures OnIndex(Mirror(stamps, total), total - 1 - i) == Mirror(OnIndex(stamps, i), total)
  {
    if stamps != [] {
      OnMirror(stamps[1..], total, i);
      assert Mirror(stamps, total)[1..] == Mirror(stamps[1..], total);
      if stamps[0].index == i { MirrorCons(stamps[0], OnIndex(stamps[1..], i), total); }
    }
  }

  lemma MirrorCons(s: Stamp, rest: seq<Stamp>, total: nat)
    ensures Mirror([s] + rest, total) == [Moved(s, total, true)] + Mirror(rest, total)
  {
  }

  lemma NeighboursMirror(stamps: seq<Stamp>, total: nat, i: int, j: int)
    ensures Neighbours(Mirror(stamps, total), total - 1 - j, total - 1 - i) <==> Neighbours(stamps, i, j)
  {
    hide OnIndex;
    forall k ensures (OnIndex(Mirror(stamps, total), total - 1 - k) == []) == (OnIndex(stamps, k) == []) {
      OnMirror(stamps, total, k);
    }
    var m := Mirror(stamps, total);
    if Neighbours(m, total - 1 - j, total - 1 - i) {
      forall k | i < k < j ensures OnIndex(stamps, k) == [] { assert OnIndex(m, total - 1 - k) == []; }
    }
    if Neighbours(stamps, i, j) {
      forall k | total - 1 - j < k < total - 1 - i ensures OnIndex(m, k) == [] {
        assert OnIndex(stamps, total - 1 - k) == [] && total - 1 - (total - 1 - k) == k;
      }
    }
  }

  lemma MirrorEnds(g: seq<Stamp>, total: nat)
    requires g != []
    ensures Mirror(g, total)[0].cycle == g[0].cycle && Mirror(g, total)[|g| - 1].cycle == g[|g| - 1].cycle
  {
  }

  /** Going onward in the mirror image is going backward in the window. */
  lemma MirrorOnward(stamps: seq<Stamp>, total: nat, up: bool)
    ensures Onward(Mirror(stamps, total), up) <==> Backward(stamps, up)
  {
    hide Mirror, Crosses, CrossesBack;
    var m := Mirror(stamps, total);
    if i, j :| Crosses(m, i, j, up) {
      CrossTurns(stamps, total, total - 1 - j, total - 1 - i, up);
      assert total - 1 - (total - 1 - i) == i && total - 1 - (total - 1 - j) == j;
    }
    if i, j :| CrossesBack(stamps, i, j, up) { CrossTurns(stamps, total, i, j, up); }
  }

  lemma CrossTurns(stamps: seq<Stamp>, total: nat, i: int, j: int, up: bool)
    ensures Crosses(Mirror(stamps, total), total - 1 - j, total - 1 - i, up) <==> CrossesBack(stamps, i, j, up)
  {
    hide OnIndex;
    NeighboursMirror(stamps, total, i, j);
    OnMirror(stamps, total, i);
    OnMirror(stamps, total, j);
    if Neighbours(stamps, i, j) {
      hide Mirror;
      MirrorEnds(OnIndex(stamps, i), total);
      MirrorEnds(OnIndex(stamps, j), total);
    }
  }

  /** The verdict on any window, and on its mirror image, from the first and last
      stamp of each index: newest-first when cycles only fall. */
  lemma VerdictsAre(stamps: seq<Stamp>, total: nat, newest: bool)
    ensures DetectStampOrder(stamps) == Some(newest) <==> Onward(stamps, !newest) && !Onward(stamps, newest)
    ensures DetectStampOrder(Mirror(stamps, total)) == Some(newest)
       <==> Backward(stamps, !newest) && !Backward(stamps, newest)
  {
    hide Directions, Onward, Backward, SortBy, Mirror;
    var m := Mirror(stamps, total);
    DirectionsAreOnward(stamps, true);
    DirectionsAreOnward(stamps, false);
    DirectionsAreOnward(m, true);
    DirectionsAreOnward(m, false);
    MirrorOnward(stamps, total, true);
    MirrorOnward(stamps, total, false);
    OneDirection(Directions(SortBy(IndexLess, stamps)));
    OneDirection(Directions(SortBy(IndexLess, m)));
    assert {true} != {false} by { assert true in {true} && true !in {false}; }
  }

  /** Mirroring turns a verdict around exactly when cycles only move one way
      going onward and only the other way going backward. Nothing is asked of
      the stamps. */
  lemma VerdictTurnsIff(stamps: seq<Stamp>, total: nat)
    ensures (exists v :: DetectStampOrder(stamps) == Some(v) && DetectStampOrder(Mirror(stamps, total)) == Some(!v))
       <==> exists up :: Onward(stamps, up) && !Onward(stamps, !up) && Backward(stamps, !up) && !Backward(stamps, up)
  {
    hide Onward, Backward, DetectStampOrder, Mirror;
    VerdictsAre(stamps, total, true);
    VerdictsAre(stamps, total, false);
    if up :| Onward(stamps, up) && !Onward(stamps, !up) && Backward(stamps, !up) && !Backward(stamps, up) {
      assert DetectStampOrder(stamps) == Some(!up) && DetectStampOrder(Mirror(stamps, total)) == Some(up);
    }
    if v :| DetectStampOrder(stamps) == Some(v) && DetectStampOrder(Mirror(stamps, total)) == Some(!v) {
      assert Onward(stamps, !v) && !Onward(stamps, v) && Backward(stamps, v) && !Backward(stamps, !v);
    }
  }

  /** So for any stamps at all the two ends of a window agree exactly when one of
      them, and not the other, shows cycles that only rise, or the window is its
      own mirror image. */
  lemma EndsAgreeByGroupsIff(pcs: seq<nat>, stamps: seq<Stamp>)
    ensures Chronologise(Reverse(pcs), Mirror(stamps, |pcs|), None) == Chronologise(pcs, stamps, None)
       <==> (Onward(stamps, true) && !Onward(stamps, false)) != (Backward(stamps, true) && !Backward(stamps, false))
            || OwnMirror(pcs, stamps)
  {
    hide Onward, Backward, DetectStampOrder, Mirror, Chronologise, OwnMirror;
    EndsAgreeIff(pcs, stamps);
    VerdictsAre(stamps, |pcs|, false);
    VerdictsAre(stamps, |pcs|, true);
  }

  /** The verdict need not turn: with two cycles on one index, this window and its
      mirror image are both called newest-first. */
  lemma RepeatedIndexMisleads(a: Stamp, b: Stamp, c: Stamp)
    requires a == Stamp(5, 0, 0) && b == Stamp(1, 1, 0) && c == Stamp(9, 1, 0)
    ensures DetectStampOrder([a, b, c]) == Some(true)
    ensures DetectStampOrder(Mirror([a, b, c], 2)) == Some(true)
  {
    assert DetectStampOrder([a, b, c]) == Some(true) by {
      SortedStays(IndexLess, [a, b, c]);
      FallsOnly([a, b, c], [a, b, c], 0);
    }
    var a', b', c' := Moved(a, 2, true), Moved(b, 2, true), Moved(c, 2, true);
    assert Mirror([a, b, c], 2) == [a', b', c'];
    assert DetectStampOrder([a', b', c']) == Some(true) by {
      RotateThree(a', b', c');
      FallsOnly([a', b', c'], [b', c', a'], 1);
    }
  }

  lemma RotateThree(a: Stamp, b: Stamp, c: Stamp)
    requires b.index == c.index < a.index
    ensures SortBy(IndexLess, [a, b, c]) == [b, c, a]
  {
    SortedStays(IndexLess, [b, c]);
    SortCons(a, [b, c]);
    assert [a] + [b, c] == [a, b, c];
    InsertPast(a, b, [c]);
    assert [b] + [c] == [b, c];
    InsertPast(a, c, []);
    assert [c] + [] == [c];
  }

  lemma SortCons(x: Stamp, rest: seq<Stamp>)
    ensures SortBy(IndexLess, [x] + rest) == Insert(IndexLess, x, SortBy(IndexLess, rest))
  {
    assert ([x] + rest)[1..] == rest;
  }

  lemma InsertPast(x: Stamp, y: Stamp, rest: seq<Stamp>)
    requires y.index < x.index
    ensures Insert(IndexLess, x, [y] + rest) == [y] + Insert(IndexLess, x, rest)
  {
    assert ([y] + rest)[1..] == rest;
  }

  lemma FallsOnly(stamps: seq<Stamp>, o: seq<Stamp>, k: nat)
    requires SortBy(IndexLess, stamps) == o
    requires |o| == 3 && k < 2 && Differ(o, k) && !Differ(o, 1 - k) && o[k + 1].cycle < o[k].cycle
    ensures DetectStampOrder(stamps) == Some(true)
  {
    assert (o[k + 1].cycle > o[k].cycle) in Directions(o);
    OneDirection(Directions(o));
    OneDirection({false});
  }
}
