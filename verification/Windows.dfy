/** A stashed window and the block it becomes. */
module Windows {
  import Sorting
  import opened Prelude
  import opened Timestamps
  import opened Blocks

  /** A drained window, raw: counters newest first, as the probe hands them over. */
  datatype Stash = Stash(window: seq<nat>, stamps: seq<Stamp>, lost: nat, haltReason: Option<int>, wallNs: int)

  function Cycles(ordered: seq<Stamp>): (r: seq<nat>)
    ensures |r| == |ordered|
    ensures forall i :: 0 <= i < |r| ==> r[i] == ordered[i].cycle
  {
    seq(|ordered|, i requires 0 <= i < |ordered| => ordered[i].cycle)
  }

  function Indices(ordered: seq<Stamp>): (r: seq<nat>)
    requires forall i :: 0 <= i < |ordered| ==> ordered[i].index >= 0
    ensures |r| == |ordered|
    ensures forall i :: 0 <= i < |r| ==> r[i] == ordered[i].index
  {
    seq(|ordered|, i requires 0 <= i < |ordered| => ordered[i].index)
  }

  function Observed(stash: Stash): Option<bool> {
    if stash.stamps == [] then None else DetectStampOrder(stash.stamps)
  }

  /** Which way a window is read. */
  function ReadNewest(stash: Stash): bool { Orientation(stash.stamps, Observed(stash)) }

  lemma OrderedInRange(stash: Stash)
    ensures var (out, ordered) := Chronologise(stash.window, stash.stamps, Observed(stash));
            && |out| == |stash.window|
            && forall i :: 0 <= i < |ordered| ==> 0 <= ordered[i].index < |out|
  {
    ChronologiseKeepsStamps(stash.window, stash.stamps, Observed(stash));
    var ordered := Chronologise(stash.window, stash.stamps, Observed(stash)).1;
    assert forall i :: 0 <= i < |ordered| ==> ordered[i] in ordered;
  }

  function BlockOf(stash: Stash): (b: TraceBlock)
    ensures |b.pcs| == |stash.window| && b.lostBefore == stash.lost
  {
    OrderedInRange(stash);
    var (chronological, ordered) := Chronologise(stash.window, stash.stamps, Observed(stash));
    TraceBlock(chronological, stash.lost, stash.haltReason, Some(stash.wallNs), Cycles(ordered), Indices(ordered))
  }

  /** The store after one window became a block. */
  function Flushed1(v: StoreView, stash: Stash): StoreView {
    var noted := if Observed(stash).Some? then v.(stampOrder := Observed(stash)) else v;
    Appended(noted, BlockOf(stash))
  }

  /** The store after every stashed window became a block, oldest first. */
  function Flushed(v: StoreView, pending: seq<Stash>): StoreView {
    if pending == [] then v
    else Flushed1(Flushed(v, pending[..|pending| - 1]), pending[|pending| - 1])
  }

  // ----- idle polls do not care when the stash is flushed

  lemma {:induction false} EvictPolled(v: StoreView)
    ensures Evicted(Polled(v)) == Polled(Evicted(v))
    decreases |v.blocks|
  {
    if Total(v.blocks) > v.capacity && |v.blocks| > 1 { EvictPolled(DropOldest(v)); }
  }

  lemma AppendPolled(v: StoreView, b: TraceBlock)
    ensures Appended(Polled(v), b) == Polled(Appended(v, b))
  {
    var u := v.(blocks := v.blocks + [b], stats := Recorded(v.stats, b));
    EvictPolled(u);
    assert Recorded(Polled(v).stats, b) == Polled(u).stats;
  }

  lemma {:induction false} FlushPolled(v: StoreView, pending: seq<Stash>)
    ensures Flushed(Polled(v), pending) == Polled(Flushed(v, pending))
  {
    hide *;
    if pending == [] {
      FlushNothing(v);
      FlushNothing(Polled(v));
    } else {
      var n := |pending| - 1;
      FlushPolled(v, pending[..n]);
      FlushLast(v, pending);
      FlushLast(Polled(v), pending);
      BlockPolled(Flushed(v, pending[..n]), pending[n]);
    }
  }

  lemma FlushNothing(v: StoreView)
    ensures Flushed(v, []) == v
  {
  }

  lemma FlushLast(v: StoreView, pending: seq<Stash>)
    requires pending != []
    ensures Flushed(v, pending) == Flushed1(Flushed(v, pending[..|pending| - 1]), pending[|pending| - 1])
  {
  }

  lemma BlockPolled(v: StoreView, stash: Stash)
    ensures Flushed1(Polled(v), stash) == Polled(Flushed1(v, stash))
  {
    hide Appended, BlockOf, Observed;
    AppendPolled(if Observed(stash).Some? then v.(stampOrder := Observed(stash)) else v, BlockOf(stash));
  }

  // ----- any schedule of flushes

  /** What the slice loop may do with a store and a stash of raw windows. */
  datatype Step = Keep(stash: Stash) | Idle | Flush

  datatype Deferred = Deferred(store: StoreView, pending: seq<Stash>)

  function DeferredStep(d: Deferred, step: Step): Deferred {
    match step
    case Keep(stash) => d.(pending := d.pending + [stash])
    case Idle => d.(store := Polled(d.store))
    case Flush => Deferred(Flushed(d.store, d.pending), [])
  }

  function DeferredRun(d: Deferred, steps: seq<Step>): Deferred {
    if steps == [] then d else DeferredStep(DeferredRun(d, steps[..|steps| - 1]), steps[|steps| - 1])
  }

  /** The simple loop: every window becomes a block at once. */
  function InlineStep(v: StoreView, step: Step): StoreView {
    match step
    case Keep(stash) => Flushed1(v, stash)
    case Idle => Polled(v)
    case Flush => v
  }

  function InlineSteps(v: StoreView, steps: seq<Step>): StoreView {
    if steps == [] then v else InlineStep(InlineSteps(v, steps[..|steps| - 1]), steps[|steps| - 1])
  }

  lemma StepTaken(v: StoreView, steps: seq<Step>, step: Step)
    ensures InlineSteps(v, steps + [step]) == InlineStep(InlineSteps(v, steps), step)
  {
    hide InlineStep;
    assert (steps + [step])[..|steps|] == steps;
  }

  /** Whenever the stash is flushed, however often or late, flushing what is
      left at the end gives the store that immediate appends would have given:
      blocks, statistics and observed stamp order alike. */
  lemma {:induction false} DeferredIsInline(v: StoreView, steps: seq<Step>)
    ensures var d := DeferredRun(Deferred(v, []), steps);
            Flushed(d.store, d.pending) == InlineSteps(v, steps)
  {
    hide DeferredStep, InlineStep;
    if steps != [] {
      DeferredIsInline(v, steps[..|steps| - 1]);
      StepOwesSame(DeferredRun(Deferred(v, []), steps[..|steps| - 1]), steps[|steps| - 1]);
    }
  }

  /** One step leaves the same to be flushed as taking it at once. */
  lemma StepOwesSame(d: Deferred, step: Step)
    ensures var e := DeferredStep(d, step);
            Flushed(e.store, e.pending) == InlineStep(Flushed(d.store, d.pending), step)
  {
    hide Flushed, Flushed1, Polled;
    match step
    case Keep(stash) =>
      FlushLast(d.store, d.pending + [stash]);
      assert (d.pending + [stash])[..|d.pending|] == d.pending;
    case Idle => FlushPolled(d.store, d.pending);
    case Flush => FlushNothing(Flushed(d.store, d.pending));
  }

  // ----- the bound on what is held

  function Held(pending: seq<Stash>): nat {
    if pending == [] then 0 else Held(pending[..|pending| - 1]) + |pending[|pending| - 1].window|
  }

  /** Counters in store and stash together stay within the capacity. */
  predicate Within(d: Deferred) { Total(d.store.blocks) + Held(d.pending) <= d.store.capacity }

  /** Flush early rather than hold more than the store may. */
  function Relieved(d: Deferred): Deferred { if Within(d) then d else DeferredStep(d, Flush) }

  // ----- what a truthful window becomes

  /** Newest first means a higher index is older: no stamp there may be later. */
  ghost predicate Truthful(stamps: seq<Stamp>) { !PairMoves(stamps, true) }

  lemma TruthfulOrientation(stamps: seq<Stamp>)
    requires Truthful(stamps)
    ensures DetectStampOrder(stamps) != Some(false)
  {
    var o := Sorting.SortBy(IndexLess, stamps);
    Sorting.SortKeeps(IndexLess, stamps);
    OneDirection(Directions(o));
    if true in Directions(o) {
      var i :| 0 <= i < |o| - 1 && Differ(o, i) && o[i + 1].cycle > o[i].cycle;
      SortedIndices(stamps, i, i + 1);
      assert o[i] in stamps && o[i + 1] in stamps && Moves(o[i], o[i + 1], true);
      assert false;
    }
  }

  /** A truthful window is turned round, so its block is in retirement order. */
  lemma TruthfulBlock(stash: Stash)
    requires Truthful(stash.stamps)
    ensures BlockOf(stash).pcs == Reverse(stash.window)
  {
    TruthfulOrientation(stash.stamps);
    assert Orientation(stash.stamps, Observed(stash)) == true;
  }
}
