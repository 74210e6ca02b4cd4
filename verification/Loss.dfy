/** What the slice loop knows about loss: how much, where, and when its
    four-byte counter can be trusted. */
module Loss {
  import opened Prelude
  import opened Blocks
  import opened Histories
  import opened Provenance
  import opened Windows
  import opened Capture

  // ----- the counter

  /** Slice k fits the window, or the counter does not wrap during it. */
  predicate CounterSees(run: Run, k: nat) {
    |run.At(k).retired| <= run.Room() || run.Counter(k) + |run.At(k).retired| < COUNTER_WRAP
  }

  lemma WrappedDifference(a: nat, n: nat)
    ensures a % 0x1_0000_0000 + n < 0x1_0000_0000 ==>
              (a + n) % 0x1_0000_0000 - a % 0x1_0000_0000 == n
    ensures a % 0x1_0000_0000 + n >= 0x1_0000_0000 ==>
              (a + n) % 0x1_0000_0000 - a % 0x1_0000_0000 <= n - 0x1_0000_0000
  {
  }

  /** Subtraction never overstates the loss of a slice, and it is exact exactly
      when the slice fits the window or the counter did not wrap. */
  lemma LostInIs(run: Run, k: nat)
    ensures run.LostIn(k) + |run.Window(k)| <= |run.At(k).retired|
    ensures run.LostIn(k) + |run.Window(k)| == |run.At(k).retired| <==> CounterSees(run, k)
  {
    var n := |run.At(k).retired|;
    assert |run.Stream(k + 1)| == |run.Stream(k)| + n;
    WrappedDifference(run.executed + |run.Stream(k)|, n);
  }

  // ----- lifetime counters of the loop

  function LostUpTo(run: Run, k: nat): nat {
    if k == 0 then 0 else LostUpTo(run, k - 1) + run.LostIn(k - 1)
  }

  lemma {:induction false} LoopCounts(run: Run, capacity: nat, k: nat)
    ensures var v := run.Inline(Fresh(capacity), k);
            && v.capacity == capacity
            && v.stats.polls == k
            && v.stats.totalRead == run.Gathered(k)
            && v.stats.lost == LostUpTo(run, k)
            && v.stats.totalRead == v.stats.droppedInstructions + Total(v.blocks)
  {
    hide *;
    if k == 0 {
      NothingCounted(run, capacity);
    } else {
      LoopCounts(run, capacity, k - 1);
      InlineNext(run, Fresh(capacity), k - 1);
      StepCounts(run, run.Inline(Fresh(capacity), k - 1), k - 1);
      CountsStep(run, k - 1);
    }
  }

  lemma NothingCounted(run: Run, capacity: nat)
    ensures run.Inline(Fresh(capacity), 0) == Fresh(capacity) == StoreView(capacity, [], NO_STATS, None)
    ensures NO_STATS.polls == NO_STATS.totalRead == NO_STATS.lost == NO_STATS.droppedInstructions == 0
    ensures run.Gathered(0) == LostUpTo(run, 0) == Total([]) == 0
  {
  }

  lemma StepCounts(run: Run, v: StoreView, k: nat)
    ensures var w := InlineStep(v, run.StepOf(k));
            && w.capacity == v.capacity
            && w.stats.polls == v.stats.polls + 1
            && w.stats.totalRead == v.stats.totalRead + |run.Window(k)|
            && w.stats.lost == v.stats.lost + run.LostIn(k)
            && w.stats.totalRead - w.stats.droppedInstructions - Total(w.blocks)
               == v.stats.totalRead - v.stats.droppedInstructions - Total(v.blocks)
  {
    hide BlockOf, Appended, Total, Contents, Observed;
    var stash := run.StashOf(k);
    AppendAccounts(if Observed(stash).Some? then v.(stampOrder := Observed(stash)) else v, BlockOf(stash));
  }

  lemma CountsStep(run: Run, k: nat)
    ensures run.Gathered(0) == LostUpTo(run, 0) == |run.Stream(0)| == 0
    ensures run.Gathered(k + 1) == run.Gathered(k) + |run.Window(k)|
    ensures LostUpTo(run, k + 1) == LostUpTo(run, k) + run.LostIn(k)
    ensures |run.Stream(k + 1)| == |run.Stream(k)| + |run.At(k).retired|
  {
  }

  lemma {:induction false} SumsAreExact(run: Run, k: nat)
    ensures run.Gathered(k) + LostUpTo(run, k) <= |run.Stream(k)|
    ensures run.Gathered(k) + LostUpTo(run, k) == |run.Stream(k)| <==> forall j :: 0 <= j < k ==> CounterSees(run, j)
  {
    hide *;
    CountsStep(run, if k == 0 then 0 else k - 1);
    if k > 0 {
      SumsAreExact(run, k - 1);
      LostInIs(run, k - 1);
      assert (forall j :: 0 <= j < k ==> CounterSees(run, j))
        <==> (forall j :: 0 <= j < k - 1 ==> CounterSees(run, j)) && CounterSees(run, k - 1);
    }
  }

  /** Over a whole capture into a fresh store: one poll a slice, and what was
      read plus what was reported lost is what the core retired, if and only if
      no slice that overflowed the window also wrapped the counter. */
  lemma LossIsExactIff(run: Run, capacity: nat)
    ensures var v := run.Outcome(Fresh(capacity));
            && v.stats.polls == run.Turns()
            && v.stats.totalRead + v.stats.lost <= |run.Stream(run.Turns())|
            && (v.stats.totalRead + v.stats.lost == |run.Stream(run.Turns())|
                <==> forall j :: 0 <= j < run.Turns() ==> CounterSees(run, j))
  {
    LoopCounts(run, capacity, run.Turns());
    SumsAreExact(run, run.Turns());
  }

  /** The wrap does lose loss: one instruction too many for a full-sized window,
      run as the counter turns over, goes unreported. */
  lemma WrapHidesLoss(run: Run)
    requires run.ring == MAX_STRACE_ITEMS && run.executed == COUNTER_WRAP - 1
    requires |run.At(0).retired| == MAX_STRACE_ITEMS + 1
    ensures run.LostIn(0) == 0 && |run.Window(0)| == MAX_STRACE_ITEMS
  {
    StreamStep(run, 0);
    WrappedDifference(run.executed, |run.At(0).retired|);
  }

  /** For a slice that overflows the window within four bytes of instructions the
      counter either shows the whole loss or none of it. */
  lemma SeenOrSilent(run: Run, k: nat)
    requires run.Room() < |run.At(k).retired| < COUNTER_WRAP
    ensures CounterSees(run, k) <==> run.LostIn(k) > 0
    ensures CounterSees(run, k) <==> run.LostIn(k) == |run.At(k).retired| - run.Room()
  {
    LostInIs(run, k);
    StreamStep(run, k);
    WrappedDifference(run.executed + |run.Stream(k)|, |run.At(k).retired|);
  }

  // ----- where the loss is

  /** The counter is trustworthy and, if stamps were read, none lies. */
  ghost predicate Honest(run: Run, k: nat) {
    && (forall j :: 0 <= j < k ==> CounterSees(run, j))
    && (run.timestamps ==> forall j :: 0 <= j < k ==> Truthful(run.StashOf(j).stamps))
  }

  /** The block a slice becomes: its newest counters in retirement order, and
      exactly the rest of the slice recorded as lost before them. */
  lemma SliceBlock(run: Run, k: nat)
    requires CounterSees(run, k) && (run.timestamps ==> Truthful(run.StashOf(k).stamps))
    ensures var b := BlockOf(run.StashOf(k));
            && b.lostBefore + |b.pcs| == |run.At(k).retired|
            && b.pcs == run.At(k).retired[b.lostBefore..]
  {
    hide CounterSees, Truthful;
    if !run.timestamps { NoStampsTruthful(); }
    TruthfulBlock(run.StashOf(k));
    LostInIs(run, k);
    WindowKeepsNewest(run, k);
  }

  lemma WindowKeepsNewest(run: Run, k: nat)
    ensures Reverse(run.Window(k)) == run.At(k).retired[|run.At(k).retired| - |run.Window(k)|..]
  {
    var ran := run.At(k).retired;
    assert [] + ran == ran;
    ReverseTwice(Newest(Newest(ran, run.ring), MAX_STRACE_ITEMS));
    NewestNewest(ran, run.ring, MAX_STRACE_ITEMS);
  }

  lemma NoStampsTruthful()
    ensures Truthful([])
  {
  }

  lemma NewestNewest(xs: seq<nat>, a: nat, b: nat)
    ensures Newest(Newest(xs, a), b) == xs[|xs| - Min(|xs|, Min(a, b))..]
  {
  }

  /** Position in the true stream at which the account of the store begins. */
  function Origin(v: StoreView, stream: seq<nat>): int { |stream| - Total(v.blocks) - Lost(v.blocks) }

  ghost predicate Accounted(v: StoreView, stream: seq<nat>) {
    Origin(v, stream) >= 0 && Follows(v.blocks, Origin(v, stream), stream)
  }

  lemma SameBlocks(v: StoreView, w: StoreView, stream: seq<nat>)
    requires v.blocks == w.blocks
    ensures Accounted(v, stream) == Accounted(w, stream)
  {
    hide Follows;
  }

  lemma AppendFollows(v: StoreView, b: TraceBlock, stream: seq<nat>, more: seq<nat>)
    requires Accounted(v, stream)
    requires b.lostBefore + |b.pcs| == |more| && b.pcs == more[b.lostBefore..]
    ensures Accounted(Appended(v, b), stream + more)
  {
    hide Follows, Evicted, Total, Lost;
    var at, whole := Origin(v, stream), stream + more;
    MoreStream(v.blocks, at, stream, more);
    JoinFollows(v.blocks, [b], at, whole);
    LastFollows(b, |stream|, whole, more);
    JoinBlocks(v.blocks, [b]);
    OneBlock(b);
    var u := v.(blocks := v.blocks + [b], stats := Recorded(v.stats, b));
    assert Follows(u.blocks, at, whole) && End(u.blocks, at) == |whole|;
    EvictFollows(u, at, whole);
  }

  lemma EvictFollows(u: StoreView, at: nat, stream: seq<nat>)
    requires Follows(u.blocks, at, stream) && End(u.blocks, at) == |stream|
    ensures var w := Evicted(u); Origin(w, stream) >= 0 && Follows(w.blocks, Origin(w, stream), stream)
  {
    hide Evicted, Follows, Total, Lost;
    var k := EvictedLeast(u);
    DropFollows(u.blocks, at, stream, k);
    assert Evicted(u).blocks == u.blocks[k..];
    assert Origin(Evicted(u), stream) == End(u.blocks[..k], at);
  }

  lemma LastFollows(b: TraceBlock, at: nat, stream: seq<nat>, more: seq<nat>)
    requires b.lostBefore + |b.pcs| == |more| && b.pcs == more[b.lostBefore..]
    requires at + |more| == |stream| && stream[at..] == more
    ensures Follows([b], at, stream)
  {
    assert [b][1..] == [];
    assert stream[at + b.lostBefore..] == more[b.lostBefore..];
  }

  lemma SliceFollows(run: Run, v: StoreView, stream: seq<nat>, k: nat)
    requires Accounted(v, stream)
    requires CounterSees(run, k) && (run.timestamps ==> Truthful(run.StashOf(k).stamps))
    ensures Accounted(InlineStep(v, run.StepOf(k)), stream + run.At(k).retired)
  {
    hide BlockOf, Appended, Observed, Accounted, CounterSees, Truthful;
    var stash, ran := run.StashOf(k), run.At(k).retired;
    if |run.Window(k)| > 0 || run.LostIn(k) > 0 {
      SliceBlock(run, k);
      var noted := if Observed(stash).Some? then v.(stampOrder := Observed(stash)) else v;
      SameBlocks(v, noted, stream);
      AppendFollows(noted, BlockOf(stash), stream, ran);
    } else {
      NothingRan(run, k);
      assert stream + ran == stream;
      SameBlocks(v, Polled(v), stream);
    }
  }

  /** A slice with an empty window and no loss ran nothing, if the counter saw it. */
  lemma NothingRan(run: Run, k: nat)
    requires CounterSees(run, k) && |run.Window(k)| == 0 && run.LostIn(k) == 0
    ensures run.At(k).retired == []
  {
    hide CounterSees;
    LostInIs(run, k);
  }

  lemma HonestPrefix(run: Run, k: nat)
    requires Honest(run, k) && k > 0
    ensures Honest(run, k - 1)
    ensures CounterSees(run, k - 1) && (run.timestamps ==> Truthful(run.StashOf(k - 1).stamps))
  {
  }

  /** However much was evicted, the store is an exact account of the end of the
      true stream: slices of it, with exactly the recorded loss in between. */
  lemma {:induction false} LoopFollows(run: Run, capacity: nat, k: nat)
    requires Honest(run, k)
    ensures Accounted(run.Inline(Fresh(capacity), k), run.Stream(k))
  {
    if k > 0 {
      hide *;
      HonestPrefix(run, k);
      LoopFollows(run, capacity, k - 1);
      InlineNext(run, Fresh(capacity), k - 1);
      SliceFollows(run, run.Inline(Fresh(capacity), k - 1), run.Stream(k - 1), k - 1);
      StreamStep(run, k - 1);
    }
  }

  lemma StreamStep(run: Run, k: nat)
    ensures run.Stream(k + 1) == run.Stream(k) + run.At(k).retired
  {
  }

  /** The finished capture, truncated or not: each retained counter is one the
      core retired, positions only rise, and a boundary marks a place inside the
      stream if and only if instructions are missing there. */
  lemma CaptureLocatesLoss(run: Run, capacity: nat)
    requires Honest(run, run.Turns())
    ensures var v, s := run.Outcome(Fresh(capacity)), run.Stream(run.Turns());
            var at := Origin(run.Inline(Fresh(capacity), run.Turns()), s);
            && at >= 0
            && Follows(v.blocks, at, s)
            && (forall b :: 0 < b < Total(v.blocks) ==>
                  (b in Boundaries(v.blocks) <==> PositionAt(v.blocks, at, b) != PositionAt(v.blocks, at, b - 1) + 1))
  {
    hide *;
    OutcomeFollows(run, capacity);
    BoundariesAreHoles(run.Outcome(Fresh(capacity)).blocks,
                       Origin(run.Inline(Fresh(capacity), run.Turns()), run.Stream(run.Turns())));
  }

  lemma OutcomeFollows(run: Run, capacity: nat)
    requires Honest(run, run.Turns())
    ensures var s := run.Stream(run.Turns());
            var at := Origin(run.Inline(Fresh(capacity), run.Turns()), s);
            at >= 0 && Follows(run.Outcome(Fresh(capacity)).blocks, at, s)
  {
    hide Follows, Total, Origin, Take;
    var full, s := run.Inline(Fresh(capacity), run.Turns()), run.Stream(run.Turns());
    LoopFollows(run, capacity, run.Turns());
    if run.target < Total(full.blocks) { TakeFollows(full.blocks, Origin(full, s), s, run.target); }
  }

  lemma BoundariesAreHoles(blocks: seq<TraceBlock>, at: nat)
    ensures forall b :: 0 < b < Total(blocks) ==>
              (b in Boundaries(blocks) <==> PositionAt(blocks, at, b) != PositionAt(blocks, at, b - 1) + 1)
  {
    hide PositionAt, Total, BoundariesFrom;
    forall b | 0 < b < Total(blocks)
      ensures b in Boundaries(blocks) <==> PositionAt(blocks, at, b) != PositionAt(blocks, at, b - 1) + 1
    {
      HoleIff(blocks, at, 0, b);
      assert 0 + b == b;
    }
  }

  // ----- enough capacity

  /** Every counter handed back, in order. */
  function Collected(run: Run, k: nat): (r: seq<nat>)
    ensures |r| == run.Gathered(k)
  {
    if k == 0 then [] else Collected(run, k - 1) + BlockOf(run.StashOf(k - 1)).pcs
  }

  /** Nothing evicted so far, and everything collected still held. */
  ghost predicate Kept(v: StoreView, capacity: nat, all: seq<nat>) {
    && v.capacity == capacity && v.stats.droppedInstructions == 0 && v.stats.droppedBlocks == 0
    && Contents(v.blocks) == all
  }

  lemma StepKeeps(run: Run, v: StoreView, capacity: nat, all: seq<nat>, k: nat)
    requires Kept(v, capacity, all) && |all| + |run.Window(k)| <= capacity
    ensures Kept(InlineStep(v, run.StepOf(k)), capacity, all + BlockOf(run.StashOf(k)).pcs)
  {
    var b := BlockOf(run.StashOf(k));
    JoinBlocks(v.blocks, [b]);
    OneBlock(b);
    if |run.Window(k)| == 0 { assert all + b.pcs == all; }
  }

  lemma CollectedStep(run: Run, k: nat)
    ensures Collected(run, k + 1) == Collected(run, k) + BlockOf(run.StashOf(k)).pcs
  {
  }

  lemma FreshKeeps(run: Run, capacity: nat)
    ensures Kept(run.Inline(Fresh(capacity), 0), capacity, Collected(run, 0))
  {
    assert run.Inline(Fresh(capacity), 0) == Fresh(capacity);
  }

  lemma {:induction false} LoopKeepsAll(run: Run, capacity: nat, k: nat)
    requires run.Gathered(k) <= capacity
    ensures Kept(run.Inline(Fresh(capacity), k), capacity, Collected(run, k))
  {
    hide *;
    if k == 0 {
      FreshKeeps(run, capacity);
    } else {
      CountsStep(run, k - 1);
      CollectedStep(run, k - 1);
      LoopKeepsAll(run, capacity, k - 1);
      InlineNext(run, Fresh(capacity), k - 1);
      StepKeeps(run, run.Inline(Fresh(capacity), k - 1), capacity, Collected(run, k - 1), k - 1);
    }
  }

  lemma {:induction false} OvershootBounded(run: Run, k: nat)
    requires forall j :: 0 <= j < k ==> run.Gathered(j) < run.target
    ensures run.Gathered(k) <= Max(0, run.target - 1 + MAX_STRACE_ITEMS)
  {
    if k > 0 { assert run.Gathered(k - 1) < run.target; }
  }

  lemma {:induction false} TurnsBelowTarget(run: Run, k: nat)
    ensures forall j :: k <= j < run.TurnsFrom(k) ==> run.Gathered(j) < run.target
    decreases if run.limit > k then run.limit - k else 0
  {
    hide *;
    TurnsNext(run, k);
    if k < run.limit && run.Gathered(k) < run.target { TurnsBelowTarget(run, k + 1); }
  }

  lemma TurnsNext(run: Run, k: nat)
    ensures run.TurnsFrom(k) == if k < run.limit && run.Gathered(k) < run.target then run.TurnsFrom(k + 1) else k
  {
    hide *;
    TurnsStep(run, k);
  }

  /** One maximal slice of headroom over the target, as a capture always gives:
      nothing is evicted and the result is the oldest counters collected, as
      many as were asked for or as there are. */
  lemma HeadroomKeepsOldest(run: Run, capacity: nat)
    requires capacity >= run.target + MAX_STRACE_ITEMS
    ensures var v, all := run.Outcome(Fresh(capacity)), Collected(run, run.Turns());
            && v.stats.droppedInstructions == 0 && v.stats.droppedBlocks == 0
            && Contents(v.blocks) == all[..Max(0, Min(run.target, |all|))]
  {
    TurnsBelowTarget(run, 0);
    OvershootBounded(run, run.Turns());
    LoopKeepsAll(run, capacity, run.Turns());
    var v := run.Inline(Fresh(capacity), run.Turns());
    if run.target < Total(v.blocks) { TakeIs(v.blocks, run.target, 0); }
  }

  /** When every slice fits the window, nothing is missing: what was collected is
      the stream the core retired, instruction for instruction. */
  lemma {:induction false} CollectedIsStream(run: Run, k: nat)
    requires Honest(run, k) && forall j :: 0 <= j < k ==> |run.At(j).retired| <= run.Room()
    ensures Collected(run, k) == run.Stream(k)
  {
    hide *;
    if k == 0 {
      NothingCollected(run);
    } else {
      HonestPrefix(run, k);
      CollectedIsStream(run, k - 1);
      CollectedStep(run, k - 1);
      StreamStep(run, k - 1);
      WholeSlice(run, k - 1);
    }
  }

  lemma NothingCollected(run: Run)
    ensures Collected(run, 0) == run.Stream(0) == []
  {
  }

  lemma WholeSlice(run: Run, k: nat)
    requires CounterSees(run, k) && (run.timestamps ==> Truthful(run.StashOf(k).stamps))
    requires |run.At(k).retired| <= run.Room()
    ensures BlockOf(run.StashOf(k)).pcs == run.At(k).retired
  {
    SliceBlock(run, k);
    assert run.StashOf(k).window == run.Window(k);
  }

  /** So with headroom and no overflow a capture returns the first instructions
      the core retired, and reports nothing lost. */
  lemma CaptureIsPrefix(run: Run, capacity: nat)
    requires capacity >= run.target + MAX_STRACE_ITEMS && Honest(run, run.Turns())
    requires forall j :: 0 <= j < run.Turns() ==> |run.At(j).retired| <= run.Room()
    ensures var v, s := run.Outcome(Fresh(capacity)), run.Stream(run.Turns());
            && Contents(v.blocks) == s[..Max(0, Min(run.target, |s|))]
            && v.stats.lost == 0
  {
    hide *;
    HeadroomKeepsOldest(run, capacity);
    CollectedIsStream(run, run.Turns());
    LossIsExactIff(run, capacity);
    OutcomeReads(run, capacity);
  }

  lemma OutcomeReads(run: Run, capacity: nat)
    requires Honest(run, run.Turns())
    ensures run.Outcome(Fresh(capacity)).stats.totalRead == |Collected(run, run.Turns())|
    ensures forall j :: 0 <= j < run.Turns() ==> CounterSees(run, j)
  {
    LoopCounts(run, capacity, run.Turns());
  }

  // ----- what a silent slice does to a capture

  lemma LostApart(xs: seq<TraceBlock>, ys: seq<TraceBlock>)
    ensures Lost(xs + ys) == 0 ==> Lost(ys) == 0
    ensures Lost(xs) == 0 && Lost(ys) == 0 ==> Lost(xs + ys) == 0
  {
    JoinBlocks(xs, ys);
  }

  lemma AppendReportsNothing(v: StoreView, b: TraceBlock)
    requires Lost(v.blocks) == 0 && b.lostBefore == 0
    ensures Lost(Appended(v, b).blocks) == 0
  {
    hide Lost, Evicted, Total;
    var u := v.(blocks := v.blocks + [b], stats := Recorded(v.stats, b));
    OneBlock(b);
    LostApart(v.blocks, [b]);
    var n := EvictedLeast(u);
    assert u.blocks == u.blocks[..n] + u.blocks[n..];
    LostApart(u.blocks[..n], u.blocks[n..]);
  }

  lemma StepReportsNothing(run: Run, v: StoreView, k: nat)
    requires Lost(v.blocks) == 0 && run.LostIn(k) == 0
    ensures Lost(InlineStep(v, run.StepOf(k)).blocks) == 0
  {
    hide BlockOf, Observed, Lost, Appended;
    var noted := if Observed(run.StashOf(k)).Some? then v.(stampOrder := Observed(run.StashOf(k))) else v;
    AppendReportsNothing(noted, BlockOf(run.StashOf(k)));
  }

  lemma {:induction false} NoBoundaries(blocks: seq<TraceBlock>, offset: nat)
    requires Lost(blocks) == 0
    ensures BoundariesFrom(blocks, offset) == [] && Boundaries(blocks) == BoundariesFrom(blocks, 0)
  {
    if blocks != [] { NoBoundaries(blocks[1..], offset + |blocks[0].pcs|); }
  }

  /** One instruction, and then one too many for the window as the counter turns
      over: both slices look complete. */
  ghost predicate SilentRun(run: Run) {
    && run.ring == MAX_STRACE_ITEMS && run.executed == COUNTER_WRAP - 2 && !run.timestamps
    && |run.At(0).retired| == 1 && |run.At(1).retired| == MAX_STRACE_ITEMS + 1
    && run.limit == 2 && run.target > MAX_STRACE_ITEMS
  }

  lemma SilentTurns(run: Run)
    requires SilentRun(run)
    ensures run.Turns() == 2
    ensures run.Gathered(2) == MAX_STRACE_ITEMS + 1
    ensures run.Stream(2) == run.At(0).retired + run.At(1).retired
  {
    hide *;
    SilentFirst(run);
    StreamStep(run, 0);
    StreamStep(run, 1);
    CountsStep(run, 0);
    CountsStep(run, 1);
    TurnsNext(run, 0);
    TurnsNext(run, 1);
    TurnsNext(run, 2);
  }

  lemma SilentFirst(run: Run)
    requires SilentRun(run)
    ensures run.limit == 2 && run.target > MAX_STRACE_ITEMS > 0 && run.Turns() == run.TurnsFrom(0)
    ensures |run.Window(0)| == 1 && |run.Window(1)| == MAX_STRACE_ITEMS
    ensures run.Gathered(0) == 0 && run.Stream(0) == []
    ensures [] + run.At(0).retired == run.At(0).retired
  {
  }

  lemma SilentLosses(run: Run)
    requires SilentRun(run)
    ensures run.LostIn(0) == run.LostIn(1) == 0 && LostUpTo(run, 2) == 0
  {
    hide run.Window;
    StreamStep(run, 0);
    LostInIs(run, 0);
    SeenOrSilent(run, 1);
    CountsStep(run, 0);
    CountsStep(run, 1);
  }

  lemma SilentCollected(run: Run)
    requires SilentRun(run)
    ensures Collected(run, 2) == run.At(0).retired + run.At(1).retired[1..]
  {
    hide BlockOf, Truthful;
    NoStampsTruthful();
    forall k: nat ensures BlockOf(run.StashOf(k)).pcs == Reverse(run.Window(k)) { TruthfulBlock(run.StashOf(k)); }
    WindowKeepsNewest(run, 0);
    WindowKeepsNewest(run, 1);
    CollectedStep(run, 0);
    CollectedStep(run, 1);
  }

  /** So a capture can lack an instruction, report nothing lost and show no
      boundary: what the counter does not see is not located either. */
  lemma HiddenHole(run: Run, capacity: nat)
    requires SilentRun(run) && capacity > MAX_STRACE_ITEMS
    ensures var v := run.Outcome(Fresh(capacity));
            && v.stats.lost == 0 && Boundaries(v.blocks) == []
            && Contents(v.blocks) == run.At(0).retired + run.At(1).retired[1..]
    ensures run.Stream(run.Turns()) == run.At(0).retired + run.At(1).retired
  {
    hide *;
    SilentTurns(run);
    SilentLosses(run);
    SilentCollected(run);
    LoopCounts(run, capacity, 2);
    LoopKeepsAll(run, capacity, 2);
    ReportsNothing(run, capacity);
    NoBoundaries(run.Inline(Fresh(capacity), 2).blocks, 0);
    SilentOutcome(run, capacity);
  }

  lemma ReportsNothing(run: Run, capacity: nat)
    requires run.LostIn(0) == run.LostIn(1) == 0
    ensures Lost(run.Inline(Fresh(capacity), 2).blocks) == 0
  {
    hide InlineStep;
    InlineNext(run, Fresh(capacity), 0);
    InlineNext(run, Fresh(capacity), 1);
    StepReportsNothing(run, run.Inline(Fresh(capacity), 0), 0);
    StepReportsNothing(run, run.Inline(Fresh(capacity), 1), 1);
  }

  lemma SilentOutcome(run: Run, capacity: nat)
    requires SilentRun(run) && run.Turns() == 2 && |Collected(run, 2)| == MAX_STRACE_ITEMS + 1
    requires Kept(run.Inline(Fresh(capacity), 2), capacity, Collected(run, 2))
    ensures run.Outcome(Fresh(capacity)) == run.Inline(Fresh(capacity), 2)
    ensures Contents(run.Outcome(Fresh(capacity)).blocks) == Collected(run, 2)
  {
  }
}
