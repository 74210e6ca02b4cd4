/** Whether the boundaries of a finished capture tell where instructions are
    missing, whatever the counter saw. Positions come from the windows here, not
    from the loss that was recorded. */
module Located {
  import opened Prelude
  import opened Blocks
  import opened Windows
  import opened Capture
  import opened Loss

  // ----- which slice a counter came from, and where it stood in the stream

  function SliceAt(run: Run, k: nat, g: nat): (j: nat)
    requires g < run.Gathered(k)
    ensures j < k && run.Gathered(j) <= g < run.Gathered(j) + |run.Window(j)|
  {
    hide run.Window;
    if g >= run.Gathered(k - 1) then k - 1 else SliceAt(run, k - 1, g)
  }

  /** A window holds the end of its slice. */
  function TruePosition(run: Run, k: nat, g: nat): nat
    requires g < run.Gathered(k)
  {
    var j := SliceAt(run, k, g);
    |run.Stream(j)| + |run.At(j).retired| - |run.Window(j)| + (g - run.Gathered(j))
  }

  lemma {:induction false} GatheredRises(run: Run, j: nat, k: nat)
    requires j <= k
    ensures run.Gathered(j) <= run.Gathered(k)
    decreases k
  {
    if j < k { GatheredRises(run, j, k - 1); }
  }

  lemma {:induction false} SliceAtIs(run: Run, k: nat, g: nat, j: nat)
    requires j < k && run.Gathered(j) <= g < run.Gathered(j) + |run.Window(j)|
    ensures g < run.Gathered(k) && SliceAt(run, k, g) == j
    decreases k
  {
    hide run.Window;
    GatheredRises(run, j + 1, k);
    if j < k - 1 {
      GatheredRises(run, j + 1, k - 1);
      SliceAtIs(run, k - 1, g, j);
    }
  }

  /** Where anything comes back at all, a slice that gives nothing ran nothing. */
  lemma EmptyRanNothing(run: Run, j: nat)
    requires run.Room() > 0 && |run.Window(j)| == 0
    ensures run.At(j).retired == [] && run.LostIn(j) == 0 && CounterSees(run, j)
  {
    LostInIs(run, j);
  }

  lemma {:induction false} RoomNeeded(run: Run, k: nat)
    requires run.Gathered(k) > 0
    ensures run.Room() > 0
  {
    hide *;
    CountsStep(run, if k == 0 then 0 else k - 1);
    if k > 0 {
      WindowFits(run, k - 1);
      if run.Gathered(k - 1) > 0 { RoomNeeded(run, k - 1); }
    }
  }

  lemma WindowFits(run: Run, j: nat)
    ensures |run.Window(j)| <= run.Room()
  {
  }

  /** The last counter collected so far is the last one retired so far. */
  lemma {:induction false} LastPosition(run: Run, k: nat)
    requires run.Gathered(k) > 0
    ensures TruePosition(run, k, run.Gathered(k) - 1) == |run.Stream(k)| - 1
  {
    hide run.Window;
    RoomNeeded(run, k);
    CountsStep(run, k - 1);
    var g := run.Gathered(k) - 1;
    if |run.Window(k - 1)| == 0 {
      EmptyRanNothing(run, k - 1);
      LastPosition(run, k - 1);
    }
  }

  lemma {:induction false} SamePosition(run: Run, k: nat, m: nat, g: nat)
    requires k <= m && g < run.Gathered(k)
    ensures g < run.Gathered(m) && TruePosition(run, m, g) == TruePosition(run, k, g)
  {
    hide run.Window;
    SliceAtIs(run, m, g, SliceAt(run, k, g));
  }

  /** Instructions are missing right before a counter exactly where it begins a
      slice of which not all came back. */
  lemma GapIff(run: Run, k: nat, g: nat)
    requires 0 < g < run.Gathered(k)
    ensures var j := SliceAt(run, k, g);
            TruePosition(run, k, g) != TruePosition(run, k, g - 1) + 1
            <==> g == run.Gathered(j) && |run.At(j).retired| > |run.Window(j)|
  {
    hide run.Window;
    var j := SliceAt(run, k, g);
    if g == run.Gathered(j) {
      LastPosition(run, j);
      SamePosition(run, j, k, g - 1);
    } else {
      SliceAtIs(run, k, g - 1, j);
    }
  }

  // ----- the blocks of the slices

  function SliceBlocks(run: Run, k: nat): (r: seq<TraceBlock>)
    ensures Total(r) == run.Gathered(k)
  {
    if k == 0 then []
    else
      var before := SliceBlocks(run, k - 1);
      var b := BlockOf(run.StashOf(k - 1));
      JoinBlocks(before, [b]);
      OneBlock(b);
      if |run.Window(k - 1)| > 0 || run.LostIn(k - 1) > 0 then before + [b] else before
  }

  lemma {:induction false} BoundariesEnd(blocks: seq<TraceBlock>, offset: nat, x: nat)
    requires x in BoundariesFrom(blocks, offset)
    ensures offset <= x <= offset + Total(blocks)
  {
    if blocks != [] && !(x == offset) { BoundariesEnd(blocks[1..], offset + |blocks[0].pcs|, x); }
  }

  lemma {:induction false} JoinBoundaries(xs: seq<TraceBlock>, ys: seq<TraceBlock>, offset: nat)
    ensures BoundariesFrom(xs + ys, offset) == BoundariesFrom(xs, offset) + BoundariesFrom(ys, offset + Total(xs))
  {
    hide BoundariesFrom, Total;
    if xs == [] {
      NoBlocks(ys);
      NoneMarked(offset);
    } else {
      JoinBoundaries(xs[1..], ys, offset + |xs[0].pcs|);
      FirstBlock(xs);
      FirstBoundary(xs, offset);
      FirstBoundary(xs + ys, offset);
      assert (xs + ys)[1..] == xs[1..] + ys;
    }
  }

  lemma NoneMarked(offset: nat)
    ensures BoundariesFrom([], offset) == []
  {
  }

  lemma {:induction false} ShiftBoundaries(blocks: seq<TraceBlock>, offset: nat, shift: nat, x: nat)
    requires x > 0
    ensures x in BoundariesFrom(blocks, offset) <==> x + shift in BoundariesFrom(blocks, offset + shift)
  {
    if blocks != [] {
      ShiftBoundaries(blocks[1..], offset + |blocks[0].pcs|, shift, x);
      FirstBoundary(blocks, offset);
      FirstBoundary(blocks, offset + shift);
      hide BoundariesFrom;
      if x == offset && blocks[0].lostBefore == 0 { assert x + shift == offset + shift; }
      if x != offset { assert x + shift != offset + shift; }
    }
  }

  /** Boundaries inside the later part of a list are those of the whole. */
  lemma BoundaryInTail(xs: seq<TraceBlock>, ys: seq<TraceBlock>, x: nat)
    requires x > 0
    ensures x in Boundaries(ys) <==> x + Total(xs) in Boundaries(xs + ys)
  {
    JoinBoundaries(xs, ys, 0);
    ShiftBoundaries(ys, 0, Total(xs), x);
    if x + Total(xs) in BoundariesFrom(xs, 0) { BoundariesEnd(xs, 0, x + Total(xs)); }
  }

  lemma {:induction false} FilledBoundaries(blocks: seq<TraceBlock>, offset: nat, x: nat)
    requires x in BoundariesFrom(blocks, offset) && forall b :: b in blocks ==> b.pcs != []
    ensures x < offset + Total(blocks)
  {
    if blocks != [] && x != offset { FilledBoundaries(blocks[1..], offset + |blocks[0].pcs|, x); }
  }

  lemma {:induction false} SliceBlocksFilled(run: Run, k: nat)
    requires run.Room() > 0
    ensures forall b :: b in SliceBlocks(run, k) ==> b.pcs != []
  {
    hide BlockOf, run.Window, run.LostIn;
    if k > 0 {
      SliceBlocksFilled(run, k - 1);
      if |run.Window(k - 1)| == 0 { EmptyRanNothing(run, k - 1); }
    }
  }

  /** A boundary stands exactly where a slice begins that reported loss. */
  lemma {:induction false} MarkedIff(run: Run, k: nat, g: nat)
    requires 0 < g < run.Gathered(k)
    ensures var j := SliceAt(run, k, g);
            g in Boundaries(SliceBlocks(run, k)) <==> g == run.Gathered(j) && run.LostIn(j) > 0
  {
    hide BoundariesFrom, BlockOf, run.Window, run.LostIn, Total;
    RoomNeeded(run, k);
    var before, b := SliceBlocks(run, k - 1), BlockOf(run.StashOf(k - 1));
    if |run.Window(k - 1)| == 0 {
      EmptyRanNothing(run, k - 1);
      MarkedIff(run, k - 1, g);
    } else {
      JoinBoundaries(before, [b], 0);
      OneBoundary(b, run.Gathered(k - 1));
      if g < run.Gathered(k - 1) {
        MarkedIff(run, k - 1, g);
      } else if g in BoundariesFrom(before, 0) {
        SliceBlocksFilled(run, k - 1);
        FilledBoundaries(before, 0, g);
      }
    }
  }

  // ----- what the store keeps of them

  /** The store holds the slices' blocks but for the first d, and counted what
      those held. */
  ghost predicate HoldsTail(v: StoreView, blocks: seq<TraceBlock>, d: nat) {
    d <= |blocks| && v.blocks == blocks[d..] && v.stats.droppedInstructions == Total(blocks[..d])
  }

  lemma AppendTail(v: StoreView, blocks: seq<TraceBlock>, d: nat, b: TraceBlock) returns (e: nat)
    requires HoldsTail(v, blocks, d)
    ensures HoldsTail(Appended(v, b), blocks + [b], e)
  {
    hide Evicted, Total;
    var u := v.(blocks := v.blocks + [b], stats := Recorded(v.stats, b));
    var n := EvictedLeast(u);
    e := d + n;
    var all := blocks + [b];
    assert u.blocks == all[d..] && all[d..][n..] == all[e..];
    assert all[..e] == blocks[..d] + u.blocks[..n];
    JoinBlocks(blocks[..d], u.blocks[..n]);
  }

  lemma {:induction false} LoopTail(run: Run, capacity: nat, k: nat) returns (d: nat)
    ensures HoldsTail(run.Inline(Fresh(capacity), k), SliceBlocks(run, k), d)
  {
    hide *;
    if k == 0 {
      d := 0;
      FreshTail(run, capacity);
    } else {
      d := LoopTail(run, capacity, k - 1);
      InlineNext(run, Fresh(capacity), k - 1);
      d := StepTail(run, run.Inline(Fresh(capacity), k - 1), k - 1, d);
    }
  }

  lemma FreshTail(run: Run, capacity: nat)
    ensures HoldsTail(run.Inline(Fresh(capacity), 0), SliceBlocks(run, 0), 0)
  {
    assert run.Inline(Fresh(capacity), 0) == Fresh(capacity);
  }

  lemma StepTail(run: Run, v: StoreView, k: nat, d: nat) returns (e: nat)
    requires HoldsTail(v, SliceBlocks(run, k), d)
    ensures HoldsTail(InlineStep(v, run.StepOf(k)), SliceBlocks(run, k + 1), e)
  {
    hide BlockOf, Observed, Appended, Total, run.Window, run.LostIn;
    var stash := run.StashOf(k);
    if |run.Window(k)| > 0 || run.LostIn(k) > 0 {
      var noted := if Observed(stash).Some? then v.(stampOrder := Observed(stash)) else v;
      e := AppendTail(noted, SliceBlocks(run, k), d, BlockOf(stash));
    } else {
      e := d;
    }
  }

  lemma {:induction false} BelowHas(limit: int, xs: seq<nat>, x: nat)
    ensures x in Below(limit, xs) <==> x in xs && x < limit
  {
    if xs != [] {
      BelowHas(limit, xs[1..], x);
      assert xs == [xs[0]] + xs[1..];
    }
  }

  lemma OutcomeCuts(run: Run, capacity: nat)
    ensures run.Outcome(Fresh(capacity)) == Truncated(run.Inline(Fresh(capacity), run.Turns()), run.target)
  {
  }

  lemma Tail(v: StoreView, all: seq<TraceBlock>, d: nat)
    requires HoldsTail(v, all, d)
    ensures d <= |all| && all == all[..d] + v.blocks && v.stats.droppedInstructions == Total(all[..d])
  {
    hide Total;
  }

  lemma CutWithin(v: StoreView, all: seq<TraceBlock>, d: nat, target: int)
    requires HoldsTail(v, all, d)
    ensures var w := Truncated(v, target);
            && w.stats == v.stats && w.stats.droppedInstructions + Total(w.blocks) <= Total(all)
            && Contents(w.blocks) == Contents(all)[w.stats.droppedInstructions..][..Total(w.blocks)]
  {
    hide Total, Contents, Take, HoldsTail;
    Tail(v, all, d);
    JoinBlocks(all[..d], v.blocks);
    if target < Total(v.blocks) { TakeIs(v.blocks, target, 0); }
  }

  lemma CutMarks(v: StoreView, target: int, b: nat)
    requires b < Total(Truncated(v, target).blocks)
    ensures b in Boundaries(Truncated(v, target).blocks) <==> b in Boundaries(v.blocks)
  {
    hide Total, BoundariesFrom, Take, Below;
    if target < Total(v.blocks) {
      TakeIs(v.blocks, target, 0);
      BelowHas(target, Boundaries(v.blocks), b);
    }
  }

  /** What is retained lies within what was collected. */
  lemma OutcomeWithin(run: Run, capacity: nat)
    ensures var v := run.Outcome(Fresh(capacity));
            && v.stats.droppedInstructions + Total(v.blocks) <= run.Gathered(run.Turns())
            && Contents(v.blocks)
               == Contents(SliceBlocks(run, run.Turns()))[v.stats.droppedInstructions..][..Total(v.blocks)]
  {
    hide *;
    OutcomeCuts(run, capacity);
    var d := LoopTail(run, capacity, run.Turns());
    CutWithin(run.Inline(Fresh(capacity), run.Turns()), SliceBlocks(run, run.Turns()), d, run.target);
  }

  /** Index b of a finished capture is counter dropped + b of what was collected,
      and the boundaries are those of the slices. */
  lemma OutcomeTail(run: Run, capacity: nat, b: nat)
    requires 0 < b < Total(run.Outcome(Fresh(capacity)).blocks)
    ensures var v := run.Outcome(Fresh(capacity));
            b in Boundaries(v.blocks) <==>
              b + v.stats.droppedInstructions in Boundaries(SliceBlocks(run, run.Turns()))
  {
    hide *;
    OutcomeCuts(run, capacity);
    var full, all := run.Inline(Fresh(capacity), run.Turns()), SliceBlocks(run, run.Turns());
    var d := LoopTail(run, capacity, run.Turns());
    CutWithin(full, all, d, run.target);
    CutMarks(full, run.target, b);
    Tail(full, all, d);
    BoundaryInTail(all[..d], full.blocks, b);
  }

  // ----- the statement

  ghost predicate MarkedAt(v: StoreView, b: nat) { b in Boundaries(v.blocks) }

  /** Between items b - 1 and b of the capture instructions are missing. */
  ghost predicate MissingAt(run: Run, v: StoreView, b: nat)
    requires 0 < b && v.stats.droppedInstructions + b < run.Gathered(run.Turns())
  {
    var g := v.stats.droppedInstructions + b;
    TruePosition(run, run.Turns(), g) != TruePosition(run, run.Turns(), g - 1) + 1
  }

  ghost predicate AllLocated(run: Run, v: StoreView)
    requires v.stats.droppedInstructions + Total(v.blocks) <= run.Gathered(run.Turns())
  {
    forall b :: 0 < b < Total(v.blocks) ==> (MarkedAt(v, b) <==> MissingAt(run, v, b))
  }

  /** Every slice that begins inside what was retained is one the counter saw. */
  ghost predicate RetainedSeen(run: Run, v: StoreView) {
    forall j :: 0 <= j < run.Turns() && 0 < run.Gathered(j) - v.stats.droppedInstructions < Total(v.blocks) ==>
      CounterSees(run, j)
  }

  /** Below 2^32 instructions a slice reports loss exactly when it had some, if and
      only if the counter saw it. */
  lemma ReportsIff(run: Run, j: nat)
    requires |run.At(j).retired| < COUNTER_WRAP
    ensures (run.LostIn(j) > 0 <==> |run.At(j).retired| > |run.Window(j)|) <==> CounterSees(run, j)
  {
    hide CounterSees, run.LostIn;
    LostInIs(run, j);
    if |run.At(j).retired| > run.Room() { SeenOrSilent(run, j); } else { SeenWhole(run, j); }
  }

  lemma SeenWhole(run: Run, j: nat)
    requires |run.At(j).retired| <= run.Room()
    ensures CounterSees(run, j) && |run.Window(j)| == |run.At(j).retired|
  {
  }

  lemma LocatedAt(run: Run, capacity: nat, b: nat)
    requires 0 < b < Total(run.Outcome(Fresh(capacity)).blocks)
    ensures var v := run.Outcome(Fresh(capacity));
            var g := v.stats.droppedInstructions + b;
            && g < run.Gathered(run.Turns())
            && (MarkedAt(v, b) <==> g == run.Gathered(SliceAt(run, run.Turns(), g))
                                         && run.LostIn(SliceAt(run, run.Turns(), g)) > 0)
            && (MissingAt(run, v, b) <==> g == run.Gathered(SliceAt(run, run.Turns(), g))
                                          && |run.At(SliceAt(run, run.Turns(), g)).retired|
                                             > |run.Window(SliceAt(run, run.Turns(), g))|)
  {
    hide BoundariesFrom, Total, SliceBlocks, SliceAt, run.Outcome, run.Window, run.LostIn, run.Gathered;
    OutcomeWithin(run, capacity);
    OutcomeTail(run, capacity, b);
    var g := run.Outcome(Fresh(capacity)).stats.droppedInstructions + b;
    MarkedIff(run, run.Turns(), g);
    GapIff(run, run.Turns(), g);
  }

  lemma SliceBegins(run: Run, capacity: nat, j: nat)
    requires var v := run.Outcome(Fresh(capacity));
             && j < run.Turns() && |run.At(j).retired| < COUNTER_WRAP
             && 0 < run.Gathered(j) - v.stats.droppedInstructions < Total(v.blocks)
    requires var v := run.Outcome(Fresh(capacity));
             && v.stats.droppedInstructions + Total(v.blocks) <= run.Gathered(run.Turns())
             && AllLocated(run, v)
    ensures CounterSees(run, j)
  {
    hide *;
    CountsStep(run, j);
    RoomNeeded(run, run.Turns());
    if |run.Window(j)| == 0 {
      EmptyRanNothing(run, j);
    } else {
      var v := run.Outcome(Fresh(capacity));
      var b := run.Gathered(j) - v.stats.droppedInstructions;
      SliceAtIs(run, run.Turns(), run.Gathered(j), j);
      LocatedAt(run, capacity, b);
      AtOne(run, v, b);
      ReportsIff(run, j);
    }
  }

  lemma AtOne(run: Run, v: StoreView, b: nat)
    requires v.stats.droppedInstructions + Total(v.blocks) <= run.Gathered(run.Turns())
    requires AllLocated(run, v) && 0 < b < Total(v.blocks)
    ensures MarkedAt(v, b) <==> MissingAt(run, v, b)
  {
    hide MissingAt, MarkedAt;
  }

  /** With slices below 2^32 instructions, whatever was evicted or cut off, the
      boundaries of a capture mark exactly the places where instructions are
      missing if and only if the counter saw every slice that begins inside it. */
  lemma LocatedIff(run: Run, capacity: nat)
    requires forall j :: 0 <= j < run.Turns() ==> |run.At(j).retired| < COUNTER_WRAP
    ensures var v := run.Outcome(Fresh(capacity));
            && v.stats.droppedInstructions + Total(v.blocks) <= run.Gathered(run.Turns())
            && (AllLocated(run, v) <==> RetainedSeen(run, v))
  {
    hide Total, SliceAt, MarkedAt, MissingAt, CounterSees, run.Outcome, run.Window, run.LostIn, run.Gathered, run.At;
    OutcomeWithin(run, capacity);
    var v := run.Outcome(Fresh(capacity));
    if AllLocated(run, v) {
      forall j | 0 <= j < run.Turns() && 0 < run.Gathered(j) - v.stats.droppedInstructions < Total(v.blocks)
        ensures CounterSees(run, j)
      {
        SliceBegins(run, capacity, j);
      }
    }
    if RetainedSeen(run, v) {
      forall b | 0 < b < Total(v.blocks) ensures MarkedAt(v, b) <==> MissingAt(run, v, b) {
        LocatedAt(run, capacity, b);
        var j := SliceAt(run, run.Turns(), v.stats.droppedInstructions + b);
        ReportsIff(run, j);
      }
    }
  }

  // ----- the positions are true

  lemma {:induction false} StreamGrows(run: Run, j: nat, k: nat)
    requires j <= k
    ensures |run.Stream(j)| <= |run.Stream(k)| && run.Stream(k)[..|run.Stream(j)|] == run.Stream(j)
    decreases k
  {
    if j < k {
      StreamGrows(run, j, k - 1);
      StreamStep(run, k - 1);
    }
  }

  /** Of truthful windows each counter collected is the one retired there. */
  lemma {:induction false} CollectedTrue(run: Run, k: nat, g: nat)
    requires g < run.Gathered(k)
    requires run.timestamps ==> forall j :: 0 <= j < k ==> Truthful(run.StashOf(j).stamps)
    ensures Shows(run.Stream(k), TruePosition(run, k, g), Contents(SliceBlocks(run, k))[g])
  {
    hide BlockOf, Truthful, run.Window, run.LostIn, Contents, Total, TruePosition;
    var before, b := SliceBlocks(run, k - 1), BlockOf(run.StashOf(k - 1));
    JoinBlocks(before, [b]);
    OneBlock(b);
    StreamStep(run, k - 1);
    if g < run.Gathered(k - 1) {
      CollectedTrue(run, k - 1, g);
      SamePosition(run, k - 1, k, g);
    } else {
      SlicePosition(run, k - 1, g);
      SliceTrue(run, k - 1, g - run.Gathered(k - 1));
    }
  }

  lemma SlicePosition(run: Run, j: nat, g: nat)
    requires run.Gathered(j) <= g < run.Gathered(j + 1)
    ensures |run.Window(j)| <= |run.At(j).retired|
    ensures TruePosition(run, j + 1, g)
         == |run.Stream(j)| + |run.At(j).retired| - |run.Window(j)| + (g - run.Gathered(j))
  {
    LostInIs(run, j);
    hide run.Window;
    SliceAtIs(run, j + 1, g, j);
  }

  /** Counter i of a slice's block. */
  lemma SliceTrue(run: Run, j: nat, i: nat)
    requires i < |run.Window(j)| && (run.timestamps ==> Truthful(run.StashOf(j).stamps))
    ensures |run.Window(j)| <= |run.At(j).retired| && |BlockOf(run.StashOf(j)).pcs| == |run.Window(j)|
    ensures BlockOf(run.StashOf(j)).pcs[i] == run.At(j).retired[|run.At(j).retired| - |run.Window(j)| + i]
  {
    LostInIs(run, j);
    hide BlockOf, Truthful, run.Window, run.LostIn;
    if !run.timestamps { NoStampsTruthful(); }
    TruthfulBlock(run.StashOf(j));
    WindowKeepsNewest(run, j);
  }

  ghost predicate Shows(stream: seq<nat>, position: nat, counter: nat) {
    position < |stream| && stream[position] == counter
  }

  /** Item i of a capture is what the core retired where its window says. */
  ghost predicate StandsAt(run: Run, v: StoreView, i: nat)
    requires i < Total(v.blocks)
  {
    var g := v.stats.droppedInstructions + i;
    && g < run.Gathered(run.Turns())
    && Shows(run.Stream(run.Turns()), TruePosition(run, run.Turns(), g), Contents(v.blocks)[i])
  }

  lemma Nth(part: seq<nat>, all: seq<nat>, from: nat, n: nat, i: nat)
    requires from + n <= |all| && i < n && part == all[from..][..n]
    ensures part[i] == all[from + i]
  {
  }

  /** For truthful windows that holds of every item. */
  lemma PositionsTrue(run: Run, capacity: nat, i: nat)
    requires i < Total(run.Outcome(Fresh(capacity)).blocks)
    requires run.timestamps ==> forall j :: 0 <= j < run.Turns() ==> Truthful(run.StashOf(j).stamps)
    ensures StandsAt(run, run.Outcome(Fresh(capacity)), i)
  {
    hide Contents, Total, TruePosition, SliceBlocks, Truthful;
    hide run.Gathered, run.Stream, run.Turns, run.Outcome, run.StashOf;
    OutcomeWithin(run, capacity);
    var v, all := run.Outcome(Fresh(capacity)), Contents(SliceBlocks(run, run.Turns()));
    CollectedTrue(run, run.Turns(), v.stats.droppedInstructions + i);
    Nth(Contents(v.blocks), all, v.stats.droppedInstructions, Total(v.blocks), i);
  }
}
