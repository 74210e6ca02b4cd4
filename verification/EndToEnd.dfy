/** The claim that rests on every layer: from the probe's ring to the finished
    frame list, no frame reaches across lost instructions. */
module EndToEnd {
  import opened Prelude
  import opened Resolved
  import opened Blocks
  import opened Provenance
  import opened Store
  import opened Capture
  import opened Loss
  import opened Frames
  import opened FrameShape
  import opened FrameResults

  function BreaksOf(boundaries: seq<nat>): set<int> { set b: int | b in boundaries }

  function StoreFrames(v: StoreView, resolver: Resolver, maxDepth: int): seq<CallFrame> {
    FramesOf(Context(resolver, maxDepth, BreaksOf(Boundaries(v.blocks))), Contents(v.blocks)).frames
  }

  /** A frame's instructions are consecutive in the stream the core retired. */
  ghost predicate Unbroken(f: CallFrame, blocks: seq<TraceBlock>, at: nat, stream: seq<nat>) {
    && f.startIndex < f.endIndex <= Total(blocks)
    && forall i :: f.startIndex <= i < f.endIndex ==>
         && PositionAt(blocks, at, i) == PositionAt(blocks, at, f.startIndex) + (i - f.startIndex)
         && PositionAt(blocks, at, i) < |stream|
         && stream[PositionAt(blocks, at, i)] == Contents(blocks)[i]
  }

  ghost predicate AllUnbroken(frames: seq<CallFrame>, blocks: seq<TraceBlock>, at: nat, stream: seq<nat>) {
    forall k :: 0 <= k < |frames| ==> Unbroken(frames[k], blocks, at, stream)
  }

  lemma FrameUnbroken(v: StoreView, at: nat, stream: seq<nat>, resolver: Resolver, maxDepth: int, k: nat)
    requires Follows(v.blocks, at, stream) && k < |StoreFrames(v, resolver, maxDepth)|
    ensures Unbroken(StoreFrames(v, resolver, maxDepth)[k], v.blocks, at, stream)
  {
    var f := StoreFrames(v, resolver, maxDepth)[k];
    var ctx := Context(resolver, maxDepth, BreaksOf(Boundaries(v.blocks)));
    EachFrame(ctx, Contents(v.blocks), k);
    assert f.startIndex < f.endIndex <= Total(v.blocks) && NoBreak(ctx.breaks, f.startIndex, f.endIndex);
    forall i: nat | f.startIndex <= i < f.endIndex
      ensures PositionAt(v.blocks, at, i) == PositionAt(v.blocks, at, f.startIndex) + (i - f.startIndex)
      ensures PositionAt(v.blocks, at, i) < |stream|
      ensures stream[PositionAt(v.blocks, at, i)] == Contents(v.blocks)[i]
    {
      forall b | f.startIndex < b <= i ensures b !in Boundaries(v.blocks) {
        assert b in Boundaries(v.blocks) ==> b in ctx.breaks;
      }
      NoBoundaryNoHole(v.blocks, at, f.startIndex, i);
      PositionsShow(v.blocks, at, stream, i);
    }
  }

  /** For any core, any ring, any capacity, any eviction and the final cut:
      every frame built from a capture covers instructions that were retired one
      after the other. */
  lemma NoFrameSpansLoss(run: Run, capacity: nat, resolver: Resolver, maxDepth: int)
    requires Honest(run, run.Turns())
    ensures var v, s := run.Outcome(Fresh(capacity)), run.Stream(run.Turns());
            var at := Origin(run.Inline(Fresh(capacity), run.Turns()), s);
            at >= 0 && AllUnbroken(StoreFrames(v, resolver, maxDepth), v.blocks, at, s)
  {
    CaptureLocatesLoss(run, capacity);
    var v, s := run.Outcome(Fresh(capacity)), run.Stream(run.Turns());
    var at := Origin(run.Inline(Fresh(capacity), run.Turns()), s);
    forall k | 0 <= k < |StoreFrames(v, resolver, maxDepth)|
      ensures Unbroken(StoreFrames(v, resolver, maxDepth)[k], v.blocks, at, s)
    {
      FrameUnbroken(v, at, s, resolver, maxDepth, k);
    }
  }

  // ----- a hole the counter does not see

  ghost predicate ResolvesNothing(resolver: Resolver) {
    forall a: nat :: resolver.function_(a) == None
  }

  lemma StaysOpen(ctx: Context, m: Machine, n: nat, address: nat)
    requires ResolvesNothing(ctx.resolver) && ctx.breaks == {}
    ensures m.stack == [] ==> Step(ctx, m, n, address) == Push(m, OpenFrame(ctx, n, address, 0, true))
    ensures m.stack != [] && Top(m.stack).unknown ==> Step(ctx, m, n, address) == m
  {
  }

  lemma {:induction false} OneOpen(ctx: Context, addresses: seq<nat>, n: nat)
    requires ResolvesNothing(ctx.resolver) && ctx.breaks == {} && 0 < n <= |addresses|
    ensures After(ctx, addresses, n) == Machine([OpenFrame(ctx, 0, addresses[0], 0, true)], [])
  {
    StaysOpen(ctx, After(ctx, addresses, n - 1), n - 1, addresses[n - 1]);
    if n > 1 { OneOpen(ctx, addresses, n - 1); }
  }

  /** Code that resolves to nothing, without a break, is one frame. */
  lemma OneFrame(ctx: Context, addresses: seq<nat>)
    requires ResolvesNothing(ctx.resolver) && ctx.breaks == {} && addresses != []
    ensures var f := FramesOf(ctx, addresses).frames;
            |f| == 1 && f[0].startIndex == 0 && f[0].endIndex == |addresses|
  {
    OneOpen(ctx, addresses, |addresses|);
    var raw := Raw(ctx, addresses);
    assert raw == [Closed(OpenFrame(ctx, 0, addresses[0], 0, true), |addresses|, true)];
    ResultMembers(ctx, addresses);
  }

  /** The second instruction retired is missing, and one frame covers the rest. */
  ghost predicate OneFrameOverHole(frames: seq<CallFrame>, blocks: seq<TraceBlock>, stream: seq<nat>) {
    && |stream| == Total(blocks) + 1 > 2 && Contents(blocks) == stream[..1] + stream[2..]
    && |frames| == 1 && frames[0].startIndex == 0 && frames[0].endIndex == Total(blocks)
  }

  /** So a condition on the counter is needed: after a silent slice the second
      item of the capture is the third instruction retired, inside a frame. */
  lemma FrameSpansHiddenHole(run: Run, capacity: nat, resolver: Resolver, maxDepth: int)
    requires SilentRun(run) && capacity > MAX_STRACE_ITEMS && ResolvesNothing(resolver)
    ensures var v := run.Outcome(Fresh(capacity));
            OneFrameOverHole(StoreFrames(v, resolver, maxDepth), v.blocks, run.Stream(run.Turns()))
  {
    hide *;
    HiddenHole(run, capacity);
    SilentLengths(run);
    Framed(run.Outcome(Fresh(capacity)), run.Stream(run.Turns()), resolver, maxDepth);
  }

  lemma SilentLengths(run: Run)
    requires SilentRun(run)
    ensures var s := run.At(0).retired + run.At(1).retired;
            |s| > 2 && s[..1] == run.At(0).retired && s[2..] == run.At(1).retired[1..]
  {
  }

  lemma Framed(v: StoreView, s: seq<nat>, resolver: Resolver, maxDepth: int)
    requires Boundaries(v.blocks) == [] && |s| > 2 && Contents(v.blocks) == s[..1] + s[2..]
    requires ResolvesNothing(resolver)
    ensures OneFrameOverHole(StoreFrames(v, resolver, maxDepth), v.blocks, s)
  {
    hide Boundaries, Contents, Total, FramesOf;
    OneFrame(Context(resolver, maxDepth, BreaksOf(Boundaries(v.blocks))), Contents(v.blocks));
  }

  /** A capture and its frames, the frames built straight off the store. */
  method CaptureFrames(probe: Probe, capacity: nat, target: int, sliceMs: Option<real>, maxSlices: nat,
                       expiresAfter: Option<nat>, timestamps: bool, recordHalt: bool,
                       resolver: Resolver, maxDepth: int, ghost run: Run)
    returns (store: TraceStore, result: FrameResult, ghost at: nat)
    requires capacity > 0 && !probe.running && probe.pending == []
    requires run == RunOf(probe, target, maxSlices, expiresAfter, timestamps, recordHalt)
    requires Honest(run, run.Turns())
    modifies probe
    ensures fresh(store) && store.Valid()
    ensures probe.retired == old(probe.retired) + run.Stream(run.Turns())
    ensures AllUnbroken(result.frames, store.blocks, at, run.Stream(run.Turns()))
  {
    hide *;
    store := new TraceStore(capacity);
    var _ := ReadExtended(probe, store, target, sliceMs, maxSlices, expiresAfter, timestamps, recordHalt);
    StandsRetired(probe, run, run.Turns(), old(probe.retired));
    var boundaries := store.LossBoundaries();
    var addresses := Flat(store.blocks);
    result := BuildCallFrames(addresses, resolver, maxDepth, boundaries);
    NoFrameSpansLoss(run, capacity, resolver, maxDepth);
    ViewBlocks(store);
    StoreFramesAre(store.View(), resolver, maxDepth, boundaries, addresses);
    at := Origin(run.Inline(Fresh(capacity), run.Turns()), run.Stream(run.Turns()));
  }

  lemma StandsRetired(probe: Probe, run: Run, i: nat, retired: seq<nat>)
    requires Stands(probe, run, i, retired)
    ensures probe.retired == retired + run.Stream(i)
  {
  }

  lemma ViewBlocks(store: TraceStore)
    ensures store.View().blocks == store.blocks
  {
  }

  lemma StoreFramesAre(v: StoreView, resolver: Resolver, maxDepth: int, boundaries: seq<nat>, addresses: seq<nat>)
    requires boundaries == Boundaries(v.blocks) && addresses == Contents(v.blocks)
    ensures FramesOf(Context(resolver, maxDepth, set b: int | b in boundaries), addresses).frames
         == StoreFrames(v, resolver, maxDepth)
  {
    assert (set b: int | b in boundaries) == BreaksOf(Boundaries(v.blocks));
  }

  /** Iterating the store, block after block. */
  method Flat(blocks: seq<TraceBlock>) returns (r: seq<nat>)
    ensures r == Contents(blocks)
  {
    r := [];
    for i := 0 to |blocks|
      invariant r == Contents(blocks[..i])
    {
      assert blocks[..i + 1] == blocks[..i] + [blocks[i]];
      JoinBlocks(blocks[..i], [blocks[i]]);
      OneBlock(blocks[i]);
      r := r + blocks[i].pcs;
    }
    assert blocks[..|blocks|] == blocks;
  }
}
