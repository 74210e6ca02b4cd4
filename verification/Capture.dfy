/** The slice loop: run the core, halt it, drain the probe, stash the window,
    and detect loss by subtraction. */
module Capture {
  import opened Prelude
  import opened Timestamps
  import opened Blocks
  import opened Windows
  import opened Store

  const MAX_STRACE_ITEMS: nat := 0x1_0000
  const COUNTER_WRAP: nat := 0x1_0000_0000

  /** What one run of the core does: the counters it retires, and what the probe
      will report about them when asked. */
  datatype Slice = Slice(retired: seq<nat>, stamps: seq<Stamp>, haltReason: Option<int>, wallNs: int)

  /** A script says what each run of the core does; past its end nothing retires. */
  function Played(script: seq<Slice>, turn: nat): Slice {
    if turn < |script| then script[turn] else Slice([], [], None, 0)
  }

  function Newest<T>(xs: seq<T>, n: nat): (r: seq<T>)
    ensures |r| == Min(|xs|, n)
  {
    xs[Max(0, |xs| - n)..]
  }

  /** What one read of a buffer hands back: the newest items, newest first. */
  function Drained(pending: seq<nat>, maxItems: nat): (r: seq<nat>)
    ensures |r| == Min(|pending|, Min(maxItems, MAX_STRACE_ITEMS))
  {
    Reverse(Newest(pending, Min(maxItems, MAX_STRACE_ITEMS)))
  }

  /** A probe whose ring keeps the newest items, and whose read hands them back
      newest first and empties it. The core may retire anything at each run. */
  class Probe {
    const script: seq<Slice>
    const ring: nat
    var turn: nat
    var running: bool
    var executed: nat
    var pending: seq<nat>
    ghost var retired: seq<nat>

    constructor (script: seq<Slice>, ring: nat)
      ensures this.script == script && this.ring == ring && turn == 0
      ensures !running && executed == 0 && pending == [] && retired == []
    {
      this.script, this.ring := script, ring;
      turn, running, executed, pending, retired := 0, false, 0, [], [];
    }

    method Go()
      modifies this`running
      ensures running
    {
      running := true;
    }

    method Halt()
      modifies this
      ensures !running
      ensures !old(running) ==> unchanged(this`turn, this`executed, this`pending, this`retired)
      ensures old(running) ==>
                var ran := Played(script, old(turn)).retired;
                && turn == old(turn) + 1
                && executed == old(executed) + |ran|
                && pending == Newest(old(pending) + ran, ring)
                && retired == old(retired) + ran
    {
      if running {
        var ran := Played(script, turn).retired;
        executed := executed + |ran|;
        pending := Newest(pending + ran, ring);
        retired := retired + ran;
        turn := turn + 1;
      }
      running := false;
    }

    /** Four bytes of a counter that never stops. */
    function TotalExecuted(): nat
      reads this
    {
      executed % COUNTER_WRAP
    }

    method Read(maxItems: nat) returns (window: seq<nat>)
      modifies this`pending
      ensures window == Drained(old(pending), maxItems) && pending == []
    {
      window := Drained(pending, maxItems);
      pending := [];
    }

    method ReadEx(maxItems: nat) returns (window: seq<nat>, stamps: seq<Stamp>)
      requires turn > 0
      modifies this`pending
      ensures window == Drained(old(pending), maxItems) && pending == []
      ensures stamps == Returned(Played(script, turn - 1).stamps, Min(maxItems, MAX_STRACE_ITEMS))
    {
      window := Read(maxItems);
      stamps := Returned(Played(script, turn - 1).stamps, Min(maxItems, MAX_STRACE_ITEMS));
    }
  }

  /** The stamp buffer has room for as many stamps as items were asked for. */
  function Returned(stamps: seq<Stamp>, wanted: nat): seq<Stamp> { stamps[..Min(|stamps|, wanted)] }

  // ----- the loop as values

  /** One call of the loop: the probe as found, and what the caller asked for.
      limit is the smaller of the slice cap and the turn at which time is up. */
  datatype Run = Run(script: seq<Slice>, first: nat, ring: nat, executed: nat,
                     target: int, limit: nat, timestamps: bool, recordHalt: bool)
  {
    function At(k: nat): Slice { Played(script, first + k) }

    /** Everything the core truly retires in the first k slices. */
    function Stream(k: nat): seq<nat> { if k == 0 then [] else Stream(k - 1) + At(k - 1).retired }

    /** The window slice k hands back, newest first. */
    function Window(k: nat): (r: seq<nat>)
      ensures |r| == Min(|At(k).retired|, Room())
    {
      Drained(Newest([] + At(k).retired, ring), MAX_STRACE_ITEMS)
    }

    /** How many items of one slice can come back at all. */
    function Room(): nat { Min(ring, MAX_STRACE_ITEMS) }

    function Counter(k: nat): nat { (executed + |Stream(k)|) % COUNTER_WRAP }

    function LostIn(k: nat): nat { Max(0, Counter(k + 1) - Counter(k) - |Window(k)|) }

    function StashOf(k: nat): Stash {
      Stash(Window(k),
            if timestamps then Returned(At(k).stamps, MAX_STRACE_ITEMS) else [],
            LostIn(k),
            if recordHalt then At(k).haltReason else None,
            At(k).wallNs)
    }

    function StepOf(k: nat): Step { if |Window(k)| > 0 || LostIn(k) > 0 then Keep(StashOf(k)) else Idle }

    function Steps(k: nat): (r: seq<Step>)
      ensures |r| == k
    {
      if k == 0 then [] else Steps(k - 1) + [StepOf(k - 1)]
    }

    /** Counters handed back over the first k slices. */
    function Gathered(k: nat): nat { if k == 0 then 0 else Gathered(k - 1) + |Window(k - 1)| }

    /** The number of slices run, when k have been. */
    function TurnsFrom(k: nat): nat
      decreases if limit > k then limit - k else 0
    {
      if k < limit && Gathered(k) < target then TurnsFrom(k + 1) else k
    }

    function Turns(): nat { TurnsFrom(0) }

    /** The store after k slices had every window been appended at once. */
    function Inline(v: StoreView, k: nat): StoreView { InlineSteps(v, Steps(k)) }

    /** Store and stash after k slices, as the loop leaves them. */
    function LoopAt(entry: StoreView, k: nat): Deferred {
      if k == 0 then Deferred(entry, []) else Relieved(DeferredStep(LoopAt(entry, k - 1), StepOf(k - 1)))
    }

    function Outcome(v: StoreView): StoreView { Truncated(Inline(v, Turns()), target) }
  }

  datatype StreamingStats = StreamingStats(polls: nat, stitched: nat, gaps: nat, lost: nat, totalRead: nat,
                                           dropped: nat)

  function StatsOf(s: StoreStats): StreamingStats {
    StreamingStats(s.polls, s.stitched, s.gaps, s.lost, s.totalRead, s.droppedInstructions)
  }

  const BUDGET: real := (MAX_STRACE_ITEMS / 2) as real

  /** The next slice is sized to fill half the window at the measured rate, clamped. */
  function NextSliceMs(currentMs: real, advanced: int): real
    requires advanced > 0 && currentMs > 0.0
  {
    var rate := advanced as real / currentMs;
    assert rate > 0.0;
    var ideal := BUDGET / rate;
    var raised := if ideal > 0.05 then ideal else 0.05;
    if raised < 50.0 then raised else 50.0
  }

  predicate Aims(ms: real, rate: real) {
    && 0.05 <= ms <= 50.0
    && (rate * 50.0 <= BUDGET <==> ms == 50.0)
    && (rate * 0.05 >= BUDGET <==> ms == 0.05)
    && (0.05 < ms < 50.0 ==> rate * ms == BUDGET)
  }

  lemma Quotient(a: real, b: real)
    requires a > 0.0 && b > 0.0
    ensures a / b > 0.0 && b * (a / b) == a
  {
  }

  lemma ClampedAims(rate: real, ideal: real, ms: real)
    requires rate > 0.0 && rate * ideal == BUDGET
    requires ms == if ideal <= 0.05 then 0.05 else if ideal < 50.0 then ideal else 50.0
    ensures Aims(ms, rate)
  {
    AgainstBudget(rate, ideal, 50.0);
    AgainstBudget(rate, ideal, 0.05);
  }

  /** A slice of t retires the budget at least when it is at least the ideal one. */
  lemma AgainstBudget(rate: real, ideal: real, t: real)
    requires rate > 0.0 && rate * ideal == BUDGET
    ensures (rate * t <= BUDGET <==> t <= ideal) && (rate * t >= BUDGET <==> t >= ideal)
  {
    if t < ideal { ScaledAbove(rate, t, ideal); }
    if t > ideal { ScaledAbove(rate, ideal, t); }
  }

  /** The next slice retires the budget at the rate just measured; where that
      takes more than 50 ms or less than 0.05, it takes just that long. */
  lemma TunerAims(currentMs: real, advanced: int)
    requires advanced > 0 && currentMs > 0.0
    ensures Aims(NextSliceMs(currentMs, advanced), advanced as real / currentMs)
  {
    hide Aims;
    var rate := advanced as real / currentMs;
    Quotient(advanced as real, currentMs);
    Quotient(BUDGET, rate);
    ClampedAims(rate, BUDGET / rate, NextSliceMs(currentMs, advanced));
  }

  lemma ScaledAbove(rate: real, a: real, b: real)
    requires rate > 0.0 && a < b
    ensures rate * a < rate * b
  {
  }

  method Tune(sliceMs: Option<real>, currentMs: real, advanced: int) returns (ms: real)
    requires sliceMs.None? ==> 0.05 <= currentMs <= 50.0
    ensures sliceMs.None? ==> 0.05 <= ms <= 50.0
    ensures ms == if sliceMs.None? && advanced > 0 then NextSliceMs(currentMs, advanced) else currentMs
  {
    ms := currentMs;
    if sliceMs.None? && advanced > 0 && currentMs > 0.0 {
      TunerAims(currentMs, advanced);
      ms := NextSliceMs(currentMs, advanced);
    }
  }

  method BuildBlocks(store: TraceStore, pending: seq<Stash>)
    requires store.Valid()
    modifies store
    ensures store.Valid() && store.View() == Flushed(old(store.View()), pending)
  {
    hide Appended, Chronologise, DetectStampOrder, Cycles, Indices;
    for i := 0 to |pending|
      invariant store.Valid() && store.View() == Flushed(old(store.View()), pending[..i])
    {
      var stash := pending[i];
      var observed := if stash.stamps != [] then DetectStampOrder(stash.stamps) else None;
      if observed.Some? { store.stampOrder := observed; }
      OrderedInRange(stash);
      var (chronological, ordered) := Chronologise(stash.window, stash.stamps, observed);
      var _ := store.AppendBlock(chronological, stash.lost, stash.haltReason, Some(stash.wallNs),
                                 Cycles(ordered), Indices(ordered));
      assert pending[..i + 1][..i] == pending[..i];
    }
    assert pending[..|pending|] == pending;
  }

  ghost function RunOf(probe: Probe, target: int, maxSlices: nat, expiresAfter: Option<nat>,
                       timestamps: bool, recordHalt: bool): Run
    reads probe
  {
    var limit := if expiresAfter.Some? && expiresAfter.value < maxSlices then expiresAfter.value else maxSlices;
    Run(probe.script, probe.turn, probe.ring, probe.executed, target, limit, timestamps, recordHalt)
  }

  /** The probe stands where i slices of the run have left it. */
  ghost predicate Stands(probe: Probe, run: Run, i: nat, retired: seq<nat>)
    reads probe
  {
    && probe.script == run.script && probe.ring == run.ring
    && !probe.running && probe.pending == [] && probe.turn == run.first + i
    && probe.executed == run.executed + |run.Stream(i)| && probe.retired == retired + run.Stream(i)
  }

  lemma StandsSays(probe: Probe, run: Run, i: nat, retired: seq<nat>)
    requires Stands(probe, run, i, retired)
    ensures probe.script == run.script && probe.ring == run.ring && !probe.running && probe.pending == []
    ensures probe.turn == run.first + i && probe.retired == retired + run.Stream(i)
    ensures probe.executed == run.executed + |run.Stream(i)| && probe.TotalExecuted() == run.Counter(i)
    ensures run.At(i) == Played(probe.script, probe.turn)
  {
  }

  lemma StandsNext(probe: Probe, run: Run, i: nat, retired: seq<nat>)
    requires probe.script == run.script && probe.ring == run.ring && !probe.running && probe.turn == run.first + i + 1
    requires probe.retired == retired + run.Stream(i) + run.At(i).retired
    requires probe.executed == run.executed + |run.Stream(i)| + |run.At(i).retired|
    ensures probe.TotalExecuted() == run.Counter(i + 1)
    ensures probe.pending == [] ==> Stands(probe, run, i + 1, retired)
  {
    Regroup(retired, run.Stream(i), run.At(i).retired);
  }

  /** What a slice's window, stamps and counter difference make is its stash. */
  lemma StashIs(run: Run, i: nat, stash: Stash)
    requires stash.window == Drained(Newest([] + run.At(i).retired, run.ring), MAX_STRACE_ITEMS)
    requires stash.stamps == if run.timestamps then Returned(run.At(i).stamps, MAX_STRACE_ITEMS) else []
    requires stash.lost == Max(0, run.Counter(i + 1) - run.Counter(i) - |stash.window|)
    requires stash.haltReason == if run.recordHalt then run.At(i).haltReason else None
    requires stash.wallNs == run.At(i).wallNs
    ensures stash == run.StashOf(i)
  {
    hide Drained, Newest, Returned;
  }

  lemma MostItems()
    ensures Min(MAX_STRACE_ITEMS, MAX_STRACE_ITEMS) == MAX_STRACE_ITEMS
    ensures forall n :: n <= Max(0, n) && 0 <= Max(0, n)
  {
  }

  /** Run, halt and drain once. What it reports is slice i of the run. */
  method RunSlice(probe: Probe, timestamps: bool, recordHalt: bool, ghost run: Run, ghost i: nat,
                  ghost retired: seq<nat>)
    returns (stash: Stash, advanced: int)
    requires Stands(probe, run, i, retired) && run.timestamps == timestamps && run.recordHalt == recordHalt
    modifies probe
    ensures Stands(probe, run, i + 1, retired) && stash == run.StashOf(i)
  {
    hide *;
    MostItems();
    StandsSays(probe, run, i, retired);
    var before: int := probe.TotalExecuted();
    probe.Go();
    probe.Halt();
    StandsNext(probe, run, i, retired);
    var after: int := probe.TotalExecuted();
    advanced := after - before;
    var window, stamps := [], [];
    if timestamps {
      window, stamps := probe.ReadEx(MAX_STRACE_ITEMS);
    } else {
      window := probe.Read(MAX_STRACE_ITEMS);
    }
    StandsNext(probe, run, i, retired);
    var ran := Played(probe.script, probe.turn - 1);
    var lost: nat := Max(0, advanced - |window|);
    stash := Stash(window, stamps, lost, if recordHalt then ran.haltReason else None, ran.wallNs);
    StashIs(run, i, stash);
  }

  lemma StepsNext(run: Run, entry: StoreView, i: nat)
    ensures run.Steps(i + 1) == run.Steps(i) + [run.StepOf(i)]
    ensures run.Inline(entry, i) == InlineSteps(entry, run.Steps(i))
    ensures run.Inline(entry, i + 1) == InlineSteps(entry, run.Steps(i + 1))
  {
    hide InlineSteps;
  }

  lemma InlineNext(run: Run, entry: StoreView, i: nat)
    ensures run.Inline(entry, i + 1) == InlineStep(run.Inline(entry, i), run.StepOf(i))
  {
    hide *;
    StepsNext(run, entry, i);
    StepTaken(entry, run.Steps(i), run.StepOf(i));
  }

  // ----- the loop as values

  lemma LoopNext(run: Run, entry: StoreView, k: nat)
    ensures run.LoopAt(entry, k + 1) == Relieved(DeferredStep(run.LoopAt(entry, k), run.StepOf(k)))
    ensures run.LoopAt(entry, 0) == Deferred(entry, []) && run.Inline(entry, 0) == entry
  {
  }

  // ----- what it holds

  lemma Hold(pending: seq<Stash>, stash: Stash)
    ensures Held(pending + [stash]) == Held(pending) + |stash.window|
  {
    assert (pending + [stash])[..|pending|] == pending;
  }

  /** No block is larger than a window can be, and the store keeps its bound. */
  ghost predicate Lean(v: StoreView, room: nat) { Bounded(v) && forall b :: b in v.blocks ==> |b.pcs| <= room }

  lemma LeanTotal(v: StoreView, room: nat)
    requires Lean(v, room)
    ensures Total(v.blocks) <= Max(v.capacity, room)
  {
    if Total(v.blocks) > v.capacity && |v.blocks| == 1 {
      assert v.blocks == [v.blocks[0]] && v.blocks[0] in v.blocks;
      OneBlock(v.blocks[0]);
    }
  }

  lemma AppendLean(v: StoreView, b: TraceBlock, room: nat)
    requires Lean(v, room) && |b.pcs| <= room
    ensures Lean(Appended(v, b), room) && Appended(v, b).capacity == v.capacity
  {
    hide Evicted, Total;
    AppendedBounded(v, b);
    var k := EvictedLeast(v.(blocks := v.blocks + [b], stats := Recorded(v.stats, b)));
  }

  lemma {:induction false} FlushLean(v: StoreView, pending: seq<Stash>, room: nat)
    requires Lean(v, room) && forall s :: s in pending ==> |s.window| <= room
    ensures Lean(Flushed(v, pending), room) && Flushed(v, pending).capacity == v.capacity
  {
    hide Appended, BlockOf, Observed;
    if pending != [] {
      var last := pending[|pending| - 1];
      FlushLean(v, pending[..|pending| - 1], room);
      var w := Flushed(v, pending[..|pending| - 1]);
      assert last in pending;
      AppendLean(if Observed(last).Some? then w.(stampOrder := Observed(last)) else w, BlockOf(last), room);
    }
  }

  /** What the loop holds after k slices, and while slice k is at hand. */
  lemma {:induction false} LoopLean(run: Run, entry: StoreView, k: nat)
    requires Lean(entry, run.Room())
    ensures var d := run.LoopAt(entry, k);
            && d.store.capacity == entry.capacity
            && Lean(d.store, run.Room()) && (forall s :: s in d.pending ==> |s.window| <= run.Room())
            && (d.pending == [] || Within(d))
  {
    hide *;
    LoopNext(run, entry, if k == 0 then 0 else k - 1);
    if k > 0 {
      LoopLean(run, entry, k - 1);
      TurnLean(run, run.LoopAt(entry, k - 1), k - 1);
    } else {
      NothingPending(entry);
    }
  }

  lemma NothingPending(v: StoreView)
    ensures Deferred(v, []).store == v && Deferred(v, []).pending == []
  {
  }

  lemma StepLean(run: Run, d: Deferred, k: nat)
    requires Lean(d.store, run.Room()) && forall s :: s in d.pending ==> |s.window| <= run.Room()
    ensures var e := DeferredStep(d, run.StepOf(k));
            && e.store.capacity == d.store.capacity
            && Lean(e.store, run.Room()) && forall s :: s in e.pending ==> |s.window| <= run.Room()
  {
    hide Flushed, Held, Total, run.LostIn;
    var e := DeferredStep(d, run.StepOf(k));
    assert forall s :: s in e.pending ==> s in d.pending || s == run.StashOf(k);
  }

  lemma RelievedLean(d: Deferred, room: nat)
    requires Lean(d.store, room) && forall s :: s in d.pending ==> |s.window| <= room
    ensures var e := Relieved(d);
            && e.store.capacity == d.store.capacity
            && Lean(e.store, room) && (forall s :: s in e.pending ==> |s.window| <= room)
            && (e.pending == [] || Within(e))
  {
    hide Flushed, Within, Lean;
    FlushLean(d.store, d.pending, room);
  }

  lemma TurnLean(run: Run, d: Deferred, k: nat)
    requires Lean(d.store, run.Room()) && forall s :: s in d.pending ==> |s.window| <= run.Room()
    ensures var e := Relieved(DeferredStep(d, run.StepOf(k)));
            && e.store.capacity == d.store.capacity
            && Lean(e.store, run.Room()) && (forall s :: s in e.pending ==> |s.window| <= run.Room())
            && (e.pending == [] || Within(e))
  {
    hide Relieved, DeferredStep, Within, Lean;
    StepLean(run, d, k);
    RelievedLean(DeferredStep(d, run.StepOf(k)), run.Room());
  }

  /** Store and stash together never hold more than the capacity or one window,
      whichever is larger, after a slice; and one window more while the slice is
      at hand. */
  lemma LoopBounded(run: Run, entry: StoreView, k: nat)
    requires Lean(entry, run.Room())
    ensures var d, most := run.LoopAt(entry, k), Max(entry.capacity, run.Room());
            && Total(d.store.blocks) + Held(d.pending) <= most
            && Total(DeferredStep(d, run.StepOf(k)).store.blocks) + Held(DeferredStep(d, run.StepOf(k)).pending)
               <= most + |run.Window(k)|
            && most <= Max(entry.capacity, MAX_STRACE_ITEMS) && |run.Window(k)| <= MAX_STRACE_ITEMS
  {
    hide *;
    var d := run.LoopAt(entry, k);
    LoopLean(run, entry, k);
    LeanTotal(d.store, run.Room());
    RoomBounded(run, entry.capacity, k);
    LeanHeld(d, Max(entry.capacity, run.Room()));
    StepHolds(run, d, k);
  }

  lemma LeanHeld(d: Deferred, most: nat)
    requires Total(d.store.blocks) <= most && d.store.capacity <= most && (d.pending == [] || Within(d))
    ensures Total(d.store.blocks) + Held(d.pending) <= most
  {
    hide Total;
  }

  lemma StepHolds(run: Run, d: Deferred, k: nat)
    ensures var e := DeferredStep(d, run.StepOf(k));
            Total(e.store.blocks) + Held(e.pending) <= Total(d.store.blocks) + Held(d.pending) + |run.Window(k)|
  {
    hide Total, Held, run.LostIn, run.Window;
    Hold(d.pending, run.StashOf(k));
  }

  lemma RoomBounded(run: Run, capacity: nat, k: nat)
    ensures capacity <= Max(capacity, run.Room()) <= Max(capacity, MAX_STRACE_ITEMS)
    ensures |run.Window(k)| <= MAX_STRACE_ITEMS
  {
  }

  /** A fresh store is lean. */
  lemma FreshLean(capacity: nat, room: nat)
    ensures Lean(Fresh(capacity), room)
  {
  }

  // ----- what it owes

  lemma RelievedOwesSame(d: Deferred)
    ensures Flushed(Relieved(d).store, Relieved(d).pending) == Flushed(d.store, d.pending)
  {
    hide Flushed, InlineStep, Within;
    StepOwesSame(d, Flush);
    assert InlineStep(Flushed(d.store, d.pending), Flush) == Flushed(d.store, d.pending) by { FlushIsNothing(d); }
  }

  lemma FlushIsNothing(d: Deferred)
    ensures InlineStep(Flushed(d.store, d.pending), Flush) == Flushed(d.store, d.pending)
  {
  }

  /** Flushing what the loop still holds gives the store of immediate appends. */
  lemma {:induction false} LoopIsInline(run: Run, entry: StoreView, k: nat)
    ensures Flushed(run.LoopAt(entry, k).store, run.LoopAt(entry, k).pending) == run.Inline(entry, k)
  {
    hide *;
    LoopNext(run, entry, if k == 0 then 0 else k - 1);
    if k == 0 {
      FlushNothing(entry);
    } else {
      LoopIsInline(run, entry, k - 1);
      StepOwesSame(run.LoopAt(entry, k - 1), run.StepOf(k - 1));
      RelievedOwesSame(DeferredStep(run.LoopAt(entry, k - 1), run.StepOf(k - 1)));
      InlineNext(run, entry, k - 1);
    }
  }

  // ----- the loop

  /** The store object and the stash are those of d. */
  ghost predicate Holds(store: TraceStore, pending: seq<Stash>, stashed: nat, d: Deferred)
    reads store
  {
    store.Valid() && Deferred(store.View(), pending) == d && stashed == Held(pending)
  }

  /** Stash a productive slice, or count an idle one. */
  method Note(store: TraceStore, pending: seq<Stash>, stashed: nat, stash: Stash, ghost run: Run, ghost d: Deferred,
              ghost i: nat)
    returns (pending': seq<Stash>, stashed': nat)
    requires Holds(store, pending, stashed, d) && stash == run.StashOf(i)
    modifies store`stats
    ensures Holds(store, pending', stashed', DeferredStep(d, run.StepOf(i)))
  {
    hide Held;
    pending', stashed' := pending, stashed;
    if |stash.window| > 0 || stash.lost > 0 {
      Hold(pending, stash);
      pending' := pending + [stash];
      stashed' := stashed + |stash.window|;
    } else {
      store.NoteIdlePoll();
    }
  }

  /** Build the blocks early when store and stash exceed the capacity. */
  method Relieve(store: TraceStore, pending: seq<Stash>, stashed: nat, ghost d: Deferred)
    returns (pending': seq<Stash>, stashed': nat)
    requires Holds(store, pending, stashed, d)
    modifies store
    ensures Holds(store, pending', stashed', Relieved(d))
  {
    pending', stashed' := pending, stashed;
    if store.length + stashed > store.capacity {
      BuildBlocks(store, pending);
      pending' := [];
      stashed' := 0;
    }
  }

  /** The loop between turns: i slices done, their windows in store and stash. */
  ghost predicate Between(probe: Probe, store: TraceStore, pending: seq<Stash>, stashed: nat, appended: nat,
                          run: Run, entry: StoreView, retired: seq<nat>, i: nat)
    reads probe, store
  {
    && Stands(probe, run, i, retired)
    && Holds(store, pending, stashed, run.LoopAt(entry, i))
    && appended == run.Gathered(i)
  }

  method OneTurn(probe: Probe, store: TraceStore, pending: seq<Stash>, stashed: nat, appended: nat,
                 timestamps: bool, recordHalt: bool, sliceMs: Option<real>, currentMs: real,
                 ghost run: Run, ghost entry: StoreView, ghost retired: seq<nat>, ghost i: nat)
    returns (pending': seq<Stash>, stashed': nat, appended': nat, ms: real)
    requires Between(probe, store, pending, stashed, appended, run, entry, retired, i)
    requires run.timestamps == timestamps && run.recordHalt == recordHalt
    requires sliceMs.None? ==> 0.05 <= currentMs <= 50.0
    modifies probe, store
    ensures sliceMs.None? ==> 0.05 <= ms <= 50.0
    ensures Between(probe, store, pending', stashed', appended', run, entry, retired, i + 1)
  {
    hide Holds, Stands, NextSliceMs, DeferredStep, Relieved;
    LoopNext(run, entry, i);
    ghost var d := run.LoopAt(entry, i);
    var stash, advanced := RunSlice(probe, timestamps, recordHalt, run, i, retired);
    pending', stashed' := Note(store, pending, stashed, stash, run, d, i);
    appended' := appended + |stash.window|;
    ms := Tune(sliceMs, currentMs, advanced);
    pending', stashed' := Relieve(store, pending', stashed', DeferredStep(d, run.StepOf(i)));
  }

  lemma TurnsStep(run: Run, i: nat)
    ensures run.Turns() == run.TurnsFrom(0)
    ensures i < run.limit && run.Gathered(i) < run.target ==> run.TurnsFrom(i) == run.TurnsFrom(i + 1)
    ensures i >= run.limit || run.Gathered(i) >= run.target ==> run.TurnsFrom(i) == i
  {
  }

  lemma EmptyStash(probe: Probe, store: TraceStore, run: Run)
    requires store.Valid() && Stands(probe, run, 0, probe.retired)
    ensures Between(probe, store, [], 0, 0, run, store.View(), probe.retired, 0)
  {
  }

  lemma BetweenSays(probe: Probe, store: TraceStore, pending: seq<Stash>, stashed: nat, appended: nat,
                    run: Run, entry: StoreView, retired: seq<nat>, i: nat)
    requires Between(probe, store, pending, stashed, appended, run, entry, retired, i)
    ensures appended == run.Gathered(i)
  {
  }

  /** Run slices until the target is reached, the cap is hit or time is up. Store
      and stash are left as the loop on values leaves them. */
  method SliceLoop(probe: Probe, store: TraceStore, target: int, sliceMs: Option<real>, maxSlices: nat,
                   expiresAfter: Option<nat>, timestamps: bool, recordHalt: bool, ghost run: Run)
    returns (pending: seq<Stash>)
    requires store.Valid() && Stands(probe, run, 0, probe.retired)
    requires run.timestamps == timestamps && run.recordHalt == recordHalt && run.target == target
    requires run.limit == if expiresAfter.Some? && expiresAfter.value < maxSlices then expiresAfter.value else maxSlices
    modifies probe, store
    ensures exists stashed, appended ::
              Between(probe, store, pending, stashed, appended, run, old(store.View()), old(probe.retired), run.Turns())
  {
    hide *;
    EmptyStash(probe, store, run);
    TurnsStep(run, 0);
    ghost var entry, retired := store.View(), probe.retired;
    var currentMs := match sliceMs case Some(ms) => ms case None => 0.5;
    var appended: nat, stashed: nat, i: nat := 0, 0, 0;
    pending := [];
    while i < maxSlices
      invariant i <= run.limit
      invariant Between(probe, store, pending, stashed, appended, run, entry, retired, i)
      invariant run.TurnsFrom(i) == run.Turns()
      invariant sliceMs.None? ==> 0.05 <= currentMs <= 50.0
      decreases maxSlices - i
    {
      TurnsStep(run, i);
      BetweenSays(probe, store, pending, stashed, appended, run, entry, retired, i);
      if appended >= target { break; }
      if expiresAfter.Some? && i >= expiresAfter.value { break; }

      pending, stashed, appended, currentMs :=
        OneTurn(probe, store, pending, stashed, appended, timestamps, recordHalt, sliceMs, currentMs,
                run, entry, retired, i);
      i := i + 1;
    }
    TurnsStep(run, i);
    BetweenSays(probe, store, pending, stashed, appended, run, entry, retired, i);
  }

  /** Collect target items in slices. Deferring the blocks changes nothing: the
      store ends exactly as if every window had become a block at once. */
  method ReadExtended(probe: Probe, store: TraceStore, target: int, sliceMs: Option<real>, maxSlices: nat,
                      expiresAfter: Option<nat>, timestamps: bool, recordHalt: bool)
    returns (stats: StreamingStats)
    requires store.Valid() && !probe.running && probe.pending == []
    modifies probe, store
    ensures var run := old(RunOf(probe, target, maxSlices, expiresAfter, timestamps, recordHalt));
            && store.Valid()
            && store.View() == run.Outcome(old(store.View()))
            && stats == StatsOf(store.stats)
            && Stands(probe, run, run.Turns(), old(probe.retired))
  {
    ghost var run := RunOf(probe, target, maxSlices, expiresAfter, timestamps, recordHalt);
    ghost var entry := store.View();
    var pending := SliceLoop(probe, store, target, sliceMs, maxSlices, expiresAfter, timestamps, recordHalt, run);
    LoopIsInline(run, entry, run.Turns());
    BuildBlocks(store, pending);
    store.TruncateTo(target);
    stats := StatsOf(store.stats);
  }
}
