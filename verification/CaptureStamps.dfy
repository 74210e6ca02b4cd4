/** What a capture's windows must be like for its blocks to carry stamps that
    cycle estimates can rest on. */
module CaptureStamps {
  import opened Prelude
  import opened Bisect
  import Sorting
  import opened Timestamps
  import opened Blocks
  import opened Windows
  import opened Estimates
  import opened Capture

  /** No counter of the window carries two stamps. */
  ghost predicate Single(stamps: seq<Stamp>, total: nat) {
    forall i :: 0 <= i < total ==> |OnIndex(stamps, i)| <= 1
  }

  predicate InWindow(s: Stamp, total: nat) { 0 <= s.index < total }

  /** Two counters of the window that carry cycles moving this way. */
  ghost predicate WindowMoves(stamps: seq<Stamp>, total: nat, up: bool) {
    exists a, b ::
      && a in stamps && b in stamps && InWindow(a, total) && InWindow(b, total)
      && a.index < b.index && Moves(a, b, up)
  }

  /** Two counters of the window that carry one cycle. */
  ghost predicate WindowRests(stamps: seq<Stamp>, total: nat) {
    exists a, b ::
      && a in stamps && b in stamps && InWindow(a, total) && InWindow(b, total)
      && a.index < b.index && a.cycle == b.cycle
  }

  // ----- sorted stamps with one stamp an index

  lemma {:induction false} FilterPair<T(!new)>(p: T -> bool, xs: seq<T>, a: nat, b: nat)
    requires a < b < |xs| && p(xs[a]) && p(xs[b])
    ensures |Filter(p, xs)| >= 2
  {
    if a > 0 {
      FilterPair(p, xs[1..], a - 1, b - 1);
    } else {
      assert xs[1..][b - 1] == xs[b];
      assert xs[b] in Filter(p, xs[1..]);
    }
  }

  lemma {:induction false} PairOf<T(!new)>(p: T -> bool, xs: seq<T>) returns (a: nat, b: nat)
    requires |Filter(p, xs)| >= 2
    ensures a < b < |xs| && p(xs[a]) && p(xs[b])
  {
    if p(xs[0]) {
      var y := Filter(p, xs[1..])[0];
      assert y in Filter(p, xs[1..]);
      var j :| 0 <= j < |xs[1..]| && xs[1..][j] == y;
      a, b := 0, j + 1;
    } else {
      a, b := PairOf(p, xs[1..]);
      a, b := a + 1, b + 1;
    }
  }

  ghost predicate Repeats(o: seq<Stamp>) { exists a, b :: 0 <= a < b < |o| && o[a].index == o[b].index }

  lemma RepeatsIff(o: seq<Stamp>)
    ensures Repeats(o) <==> exists i :: |OnIndex(o, i)| > 1
  {
    if i :| |OnIndex(o, i)| > 1 {
      var a, b := PairOf(AtIndex(i), o);
      assert o[a].index == o[b].index;
    }
    if a, b :| 0 <= a < b < |o| && o[a].index == o[b].index {
      FilterPair(AtIndex(o[a].index), o, a, b);
      assert |OnIndex(o, o[a].index)| > 1;
    }
  }

  /** In index order the indices strictly ascend when none repeats. */
  lemma SingleAscends(o: seq<Stamp>, indices: seq<int>)
    requires InIndexOrder(o) && |indices| == |o| && forall i :: 0 <= i < |o| ==> indices[i] == o[i].index
    ensures StrictlyAscending(indices) <==> forall i :: |OnIndex(o, i)| <= 1
  {
    hide OnIndex;
    RepeatsIff(o);
    assert Repeats(o) <==> !StrictlyAscending(indices);
  }

  /** Remapping keeps the number of stamps on each counter. */
  lemma {:induction false} RemappedOnIndex(stamps: seq<Stamp>, total: nat, newest: bool, i: int)
    ensures |OnIndex(Remapped(stamps, total, newest), i)|
         == if 0 <= i < total then |OnIndex(stamps, if newest then total - 1 - i else i)| else 0
  {
    if stamps != [] {
      RemappedOnIndex(stamps[1..], total, newest, i);
      var s, rest := Moved(stamps[0], total, newest), Remapped(stamps[1..], total, newest);
      assert ([s] + rest)[1..] == rest;
    }
  }

  lemma SingleRemapped(stamps: seq<Stamp>, total: nat, newest: bool)
    ensures Single(stamps, total) <==> forall i :: |OnIndex(Remapped(stamps, total, newest), i)| <= 1
  {
    hide OnIndex, Remapped;
    var r := Remapped(stamps, total, newest);
    forall i
      ensures |OnIndex(r, i)| == if 0 <= i < total then |OnIndex(stamps, if newest then total - 1 - i else i)| else 0
    {
      RemappedOnIndex(stamps, total, newest, i);
    }
    if forall i :: |OnIndex(r, i)| <= 1 {
      forall i | 0 <= i < total ensures |OnIndex(stamps, i)| <= 1 {
        var place := if newest then total - 1 - i else i;
        assert |OnIndex(r, place)| <= 1;
        assert (if newest then total - 1 - place else place) == i;
      }
    }
  }

  // ----- one window

  function OrderedStamps(stash: Stash): (r: seq<Stamp>)
    ensures Cycles(r) == BlockOf(stash).cycles
    ensures forall i :: 0 <= i < |r| ==> 0 <= r[i].index < |stash.window|
    ensures Indices(r) == BlockOf(stash).stampAt
  {
    OrderedInRange(stash);
    Chronologise(stash.window, stash.stamps, Observed(stash)).1
  }

  lemma OrderedSays(stash: Stash)
    ensures var o := OrderedStamps(stash);
            && InIndexOrder(o)
            && (forall t :: t in o <==>
                  InWindow(t, |stash.window|) && Moved(t, |stash.window|, ReadNewest(stash)) in stash.stamps)
            && (forall i :: |OnIndex(o, i)| == |OnIndex(Remapped(stash.stamps, |stash.window|, ReadNewest(stash)), i)|)
  {
    hide Sorting.SortBy, Remapped, OnIndex;
    ChronologiseKeepsStamps(stash.window, stash.stamps, Observed(stash));
    var r := Remapped(stash.stamps, |stash.window|, ReadNewest(stash));
    assert OrderedStamps(stash) == Sorting.SortBy(IndexLess, r);
    forall i ensures |OnIndex(OrderedStamps(stash), i)| == |OnIndex(r, i)| { OnSorted(r, i); }
  }

  ghost predicate Straight(o: seq<Stamp>) { forall i, j :: 0 <= i < j < |o| ==> o[i].index < o[j].index }

  ghost predicate Forward(o: seq<Stamp>) { forall i, j :: 0 <= i < j < |o| ==> o[i].cycle <= o[j].cycle }

  /** With one stamp on a counter, the cycles come out ascending exactly when the
      window shows none moving against the way it is read. */
  lemma ForwardIff(o: seq<Stamp>, stamps: seq<Stamp>, n: nat, newest: bool)
    requires Straight(o) && forall t :: t in o <==> InWindow(t, n) && Moved(t, n, newest) in stamps
    ensures Forward(o) <==> !WindowMoves(stamps, n, newest)
  {
    if a, b :| && a in stamps && b in stamps && InWindow(a, n) && InWindow(b, n)
               && a.index < b.index && Moves(a, b, newest)
    {
      assert Moved(Moved(a, n, newest), n, newest) == a && Moved(Moved(b, n, newest), n, newest) == b;
      PlacesMove(o, a, b, n, newest);
    }
    if i, j :| 0 <= i < j < |o| && o[i].cycle > o[j].cycle {
      var a, b := Moved(o[i], n, newest), Moved(o[j], n, newest);
      assert o[i] in o && o[j] in o;
      assert if newest then b.index < a.index && Moves(b, a, newest) else a.index < b.index && Moves(a, b, newest);
    }
  }

  lemma PlacesMove(o: seq<Stamp>, a: Stamp, b: Stamp, n: nat, newest: bool)
    requires Straight(o) && Moved(a, n, newest) in o && Moved(b, n, newest) in o
    requires a.index < b.index && Moves(a, b, newest)
    ensures !Forward(o)
  {
    var i :| 0 <= i < |o| && o[i] == Moved(a, n, newest);
    var j :| 0 <= j < |o| && o[j] == Moved(b, n, newest);
    assert if newest then !(i <= j) else !(j <= i);
  }

  ghost predicate Apart(o: seq<Stamp>) { forall i, j :: 0 <= i < j < |o| ==> o[i].cycle != o[j].cycle }

  lemma ApartIff(o: seq<Stamp>, stamps: seq<Stamp>, n: nat, newest: bool)
    requires Straight(o) && forall t :: t in o <==> InWindow(t, n) && Moved(t, n, newest) in stamps
    ensures Apart(o) <==> !WindowRests(stamps, n)
  {
    if a, b :| && a in stamps && b in stamps && InWindow(a, n) && InWindow(b, n)
               && a.index < b.index && a.cycle == b.cycle
    {
      assert Moved(Moved(a, n, newest), n, newest) == a && Moved(Moved(b, n, newest), n, newest) == b;
      PlacesRest(o, Moved(a, n, newest), Moved(b, n, newest));
    }
    if i, j :| 0 <= i < j < |o| && o[i].cycle == o[j].cycle {
      var a, b := Moved(o[i], n, newest), Moved(o[j], n, newest);
      assert o[i] in o && o[j] in o;
      assert if newest then b.index < a.index else a.index < b.index;
    }
  }

  lemma PlacesRest(o: seq<Stamp>, a: Stamp, b: Stamp)
    requires a in o && b in o && a.index != b.index && a.cycle == b.cycle
    ensures !Apart(o)
  {
    var i :| 0 <= i < |o| && o[i] == a;
    var j :| 0 <= j < |o| && o[j] == b;
    assert if i < j then o[i].cycle == o[j].cycle else o[j].cycle == o[i].cycle;
  }

  lemma StraightIs(o: seq<Stamp>)
    requires forall i :: 0 <= i < |o| ==> o[i].index >= 0
    ensures StrictlyAscending(Indices(o)) <==> Straight(o)
    ensures Ascending(Cycles(o)) <==> Forward(o)
    ensures StrictlyAscending(Cycles(o)) <==> Forward(o) && Apart(o)
  {
    assert forall i :: 0 <= i < |o| ==> Cycles(o)[i] == o[i].cycle;
    if StrictlyAscending(Cycles(o)) {
      forall i, j | 0 <= i < j < |o| ensures o[i].cycle < o[j].cycle { assert Cycles(o)[i] < Cycles(o)[j]; }
    }
    if Ascending(Cycles(o)) {
      forall i, j | 0 <= i < j < |o| ensures o[i].cycle <= o[j].cycle { assert Cycles(o)[i] <= Cycles(o)[j]; }
    }
  }

  /** Stamps that estimates can rest on, and that also tell cycles apart if strict. */
  ghost predicate Fit(b: TraceBlock, strict: bool) { WellStamped(b) && (strict ==> StrictlyAscending(b.cycles)) }

  /** One stamp on a counter, and no cycles moving against the way the window is
      read, nor resting if strict. */
  ghost predicate FitWindow(stash: Stash, strict: bool) {
    && Single(stash.stamps, |stash.window|)
    && !WindowMoves(stash.stamps, |stash.window|, ReadNewest(stash))
    && (strict ==> !WindowRests(stash.stamps, |stash.window|))
  }

  /** That is exactly what a window must be like to become such a block. */
  lemma FitIff(stash: Stash, strict: bool)
    ensures Fit(BlockOf(stash), strict) <==> FitWindow(stash, strict)
  {
    hide BlockOf, OrderedStamps, OnIndex, WindowMoves, WindowRests, Remapped, Straight, Forward, Apart;
    hide StrictlyAscending, Ascending, Single, ReadNewest;
    OrderedSays(stash);
    var o := OrderedStamps(stash);
    assert |BlockOf(stash).cycles| == |BlockOf(stash).stampAt| == |o|;
    SingleAscends(o, Indices(o));
    SingleRemapped(stash.stamps, |stash.window|, ReadNewest(stash));
    StraightIs(o);
    if Straight(o) {
      ForwardIff(o, stash.stamps, |stash.window|, ReadNewest(stash));
      ApartIff(o, stash.stamps, |stash.window|, ReadNewest(stash));
    }
  }

  /** A truthful window with one stamp on a counter is one. */
  lemma TruthfulFits(stash: Stash)
    requires Truthful(stash.stamps) && Single(stash.stamps, |stash.window|)
    ensures FitWindow(stash, false)
  {
    TruthfulOrientation(stash.stamps);
    assert ReadNewest(stash) == true;
  }

  // ----- a whole capture

  ghost predicate AllFit(blocks: seq<TraceBlock>, strict: bool) { forall b :: b in blocks ==> Fit(b, strict) }

  lemma AppendFits(v: StoreView, b: TraceBlock, strict: bool)
    requires AllFit(v.blocks, strict) && Fit(b, strict)
    ensures AllFit(Appended(v, b).blocks, strict)
  {
    hide Fit, Evicted, Total;
    var k := EvictedLeast(v.(blocks := v.blocks + [b], stats := Recorded(v.stats, b)));
  }

  lemma StepFits(run: Run, v: StoreView, k: nat, strict: bool)
    requires AllFit(v.blocks, strict) && FitWindow(run.StashOf(k), strict)
    ensures AllFit(InlineStep(v, run.StepOf(k)).blocks, strict)
  {
    hide Fit, FitWindow, BlockOf, Appended, Observed;
    FitIff(run.StashOf(k), strict);
    var noted := if Observed(run.StashOf(k)).Some? then v.(stampOrder := Observed(run.StashOf(k))) else v;
    AppendFits(noted, BlockOf(run.StashOf(k)), strict);
  }

  lemma {:induction false} LoopFits(run: Run, entry: StoreView, k: nat, strict: bool)
    requires AllFit(entry.blocks, strict) && forall j :: 0 <= j < k ==> FitWindow(run.StashOf(j), strict)
    ensures AllFit(run.Inline(entry, k).blocks, strict)
  {
    hide *;
    if k == 0 {
      LoopNext(run, entry, 0);
    } else {
      LoopFits(run, entry, k - 1, strict);
      InlineNext(run, entry, k - 1);
      StepFits(run, run.Inline(entry, k - 1), k - 1, strict);
    }
  }

  lemma CutFits(b: TraceBlock, n: nat, strict: bool)
    requires Fit(b, strict) && 0 < n < |b.pcs|
    ensures Fit(Cut(b, n), strict)
  {
    hide Cut;
    CutKeepsStamps(b, n);
  }

  lemma {:induction false} TakeFits(blocks: seq<TraceBlock>, n: int, strict: bool)
    requires AllFit(blocks, strict)
    ensures AllFit(Take(blocks, n), strict)
  {
    hide Fit, Cut;
    if n > 0 && blocks != [] {
      if |blocks[0].pcs| <= n {
        TakeFits(blocks[1..], n - |blocks[0].pcs|, strict);
      } else {
        CutFits(blocks[0], n, strict);
      }
    }
  }

  /** A capture of such windows holds such blocks only, whatever was evicted and
      wherever it was cut. */
  lemma CaptureFits(run: Run, entry: StoreView, strict: bool)
    requires AllFit(entry.blocks, strict)
    requires forall j :: 0 <= j < run.Turns() ==> FitWindow(run.StashOf(j), strict)
    ensures AllFit(run.Outcome(entry).blocks, strict)
  {
    hide AllFit, FitWindow, Take, Total;
    LoopFits(run, entry, run.Turns(), strict);
    TakeFits(run.Inline(entry, run.Turns()).blocks, run.target, strict);
  }

  lemma BlockRises(b: TraceBlock, x: int, y: int, block: nat)
    requires WellStamped(b) && x <= y
    requires EstimateCycle(b, x, block).Some? && EstimateCycle(b, y, block).Some?
    ensures EstimateCycle(b, x, block).value.cycle <= EstimateCycle(b, y, block).value.cycle
  {
    AnswersIff(b, x, block);
    AnswersIff(b, y, block);
    if |b.stampAt| >= 2 { EstimatesRise(b, x, y, block); }
  }

  /** So in a capture whose windows were truthful, with one stamp on a counter,
      the estimates of one block never run backwards. */
  lemma CaptureCyclesRise(run: Run, entry: StoreView, x: nat, y: nat)
    requires AllFit(entry.blocks, false) && x <= y < Total(run.Outcome(entry).blocks)
    requires forall j :: 0 <= j < run.Turns() ==>
             Truthful(run.StashOf(j).stamps) && Single(run.StashOf(j).stamps, |run.Window(j)|)
    requires BlockOfIndex(run.Outcome(entry).blocks, x) == BlockOfIndex(run.Outcome(entry).blocks, y)
    ensures Parallel(run.Outcome(entry).blocks) && NoneFalls(run.Outcome(entry).blocks, x, y)
  {
    hide *;
    forall j | 0 <= j < run.Turns() ensures FitWindow(run.StashOf(j), false) {
      WindowsAlike(run, j);
      TruthfulFits(run.StashOf(j));
    }
    CaptureFits(run, entry, false);
    BlocksRise(run.Outcome(entry).blocks, x, y);
  }

  lemma WindowsAlike(run: Run, k: nat)
    ensures run.StashOf(k).window == run.Window(k)
  {
  }

  /** Both indices are in the store, and their estimates, if any, are in order. */
  ghost predicate NoneFalls(blocks: seq<TraceBlock>, x: nat, y: nat)
    requires Parallel(blocks)
  {
    var from, to := StoreCycle(blocks, x), StoreCycle(blocks, y);
    && from.Ok? && to.Ok?
    && (from.value.Some? && to.value.Some? ==> from.value.value.cycle <= to.value.value.cycle)
  }

  lemma BlocksRise(blocks: seq<TraceBlock>, x: nat, y: nat)
    requires AllFit(blocks, false) && x <= y < Total(blocks)
    requires BlockOfIndex(blocks, x) == BlockOfIndex(blocks, y)
    ensures Parallel(blocks) && NoneFalls(blocks, x, y)
  {
    hide EstimateCycle, Starts, Total, BisectRight, Ascending, StrictlyAscending;
    assert forall i :: 0 <= i < |blocks| ==> blocks[i] in blocks;
    var p := BlockOfIndex(blocks, x);
    assert Fit(blocks[p], false);
    var (u, v) := (x - Starts(blocks, 0)[p], y - Starts(blocks, 0)[p]);
    if EstimateCycle(blocks[p], u, p).Some? && EstimateCycle(blocks[p], v, p).Some? { BlockRises(blocks[p], u, v, p); }
  }
}
