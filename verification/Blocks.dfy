/** The trace store as a value: what it holds, and what each of its operations
    makes of that. */
module Blocks {
  import opened Prelude
  import opened Bisect

  /** What the core retired between two halts, oldest counter first. */
  datatype TraceBlock = TraceBlock(
    pcs: seq<nat>,
    lostBefore: nat,          // instructions the probe dropped just before it
    haltReason: Option<int>,
    wallNs: Option<int>,
    cycles: seq<nat>,         // sparse cycle stamps, parallel to stampAt
    stampAt: seq<nat>
  )

  datatype StoreStats = StoreStats(
    polls: nat, stitched: nat, gaps: nat, lost: nat, totalRead: nat,
    droppedBlocks: nat, droppedInstructions: nat
  )

  const NO_STATS := StoreStats(0, 0, 0, 0, 0, 0, 0)

  /** Everything a store remembers, apart from its index of block starts. */
  datatype StoreView = StoreView(capacity: nat, blocks: seq<TraceBlock>, stats: StoreStats, stampOrder: Option<bool>)

  function Fresh(capacity: nat): StoreView { StoreView(capacity, [], NO_STATS, None) }

  // ----- the flat stream under the blocks

  function Total(blocks: seq<TraceBlock>): nat {
    if blocks == [] then 0 else |blocks[0].pcs| + Total(blocks[1..])
  }

  function Contents(blocks: seq<TraceBlock>): (r: seq<nat>)
    ensures |r| == Total(blocks)
  {
    if blocks == [] then [] else blocks[0].pcs + Contents(blocks[1..])
  }

  /** Where each block begins, when the first begins at offset. */
  function Starts(blocks: seq<TraceBlock>, offset: nat): (r: seq<nat>)
    ensures |r| == |blocks|
    ensures forall s :: s in r ==> offset <= s
  {
    if blocks == [] then [] else [offset] + Starts(blocks[1..], offset + |blocks[0].pcs|)
  }

  /** Starts of the blocks that lost instructions, other than position zero. */
  function BoundariesFrom(blocks: seq<TraceBlock>, offset: nat): (r: seq<nat>)
    ensures forall b :: b in r ==> b >= offset && b > 0
  {
    if blocks == [] then []
    else
      var rest := BoundariesFrom(blocks[1..], offset + |blocks[0].pcs|);
      if blocks[0].lostBefore > 0 && offset > 0 then [offset] + rest else rest
  }

  function Boundaries(blocks: seq<TraceBlock>): seq<nat> { BoundariesFrom(blocks, 0) }

  function Lost(blocks: seq<TraceBlock>): nat {
    if blocks == [] then 0 else blocks[0].lostBefore + Lost(blocks[1..])
  }

  // ----- operations

  function Recorded(stats: StoreStats, block: TraceBlock): StoreStats {
    var counted := stats.(polls := stats.polls + 1, totalRead := stats.totalRead + |block.pcs|);
    if block.lostBefore > 0 then
      counted.(gaps := counted.gaps + 1, lost := counted.lost + block.lostBefore)
    else if |block.pcs| > 0 then
      counted.(stitched := counted.stitched + 1)
    else counted
  }

  function DropOldest(v: StoreView): StoreView
    requires v.blocks != []
  {
    v.(blocks := v.blocks[1..],
       stats := v.stats.(droppedBlocks := v.stats.droppedBlocks + 1,
                         droppedInstructions := v.stats.droppedInstructions + |v.blocks[0].pcs|))
  }

  /** What is left of an over-full store: whole blocks go, oldest first, and the
      last one stays whatever its size. */
  function Evicted(v: StoreView): StoreView
    decreases |v.blocks|
  {
    if Total(v.blocks) > v.capacity && |v.blocks| > 1 then Evicted(DropOldest(v)) else v
  }

  function Appended(v: StoreView, block: TraceBlock): StoreView {
    Evicted(v.(blocks := v.blocks + [block], stats := Recorded(v.stats, block)))
  }

  function Polled(v: StoreView): StoreView { v.(stats := v.stats.(polls := v.stats.polls + 1)) }

  /** The first n instructions of a block, with the stamps still in range. */
  function Cut(block: TraceBlock, n: nat): TraceBlock
    requires 0 < n < |block.pcs|
  {
    var limit := BisectRight(block.stampAt, n - 1);
    block.(pcs := block.pcs[..n],
           cycles := block.cycles[..Min(limit, |block.cycles|)],
           stampAt := block.stampAt[..limit])
  }

  function Take(blocks: seq<TraceBlock>, n: int): seq<TraceBlock> {
    if n <= 0 || blocks == [] then []
    else if |blocks[0].pcs| <= n then [blocks[0]] + Take(blocks[1..], n - |blocks[0].pcs|)
    else [Cut(blocks[0], n)]
  }

  function Truncated(v: StoreView, count: int): StoreView {
    if count >= Total(v.blocks) then v else v.(blocks := Take(v.blocks, count))
  }

  // ----- joining block lists

  lemma FirstBlock(blocks: seq<TraceBlock>)
    requires blocks != []
    ensures Total(blocks) == |blocks[0].pcs| + Total(blocks[1..])
    ensures Contents(blocks) == blocks[0].pcs + Contents(blocks[1..])
    ensures Lost(blocks) == blocks[0].lostBefore + Lost(blocks[1..])
  {
  }

  lemma NoBlocks(ys: seq<TraceBlock>)
    ensures [] + ys == ys && Total([]) == 0 && Contents([]) == [] && Lost([]) == 0
  {
  }

  lemma {:induction false} JoinBlocks(xs: seq<TraceBlock>, ys: seq<TraceBlock>)
    ensures Total(xs + ys) == Total(xs) + Total(ys)
    ensures Contents(xs + ys) == Contents(xs) + Contents(ys)
    ensures Lost(xs + ys) == Lost(xs) + Lost(ys)
  {
    hide *;
    if xs == [] {
      NoBlocks(ys);
    } else {
      JoinBlocks(xs[1..], ys);
      FirstBlock(xs);
      FirstBlock(xs + ys);
      assert (xs + ys)[1..] == xs[1..] + ys;
      Regroup(xs[0].pcs, Contents(xs[1..]), Contents(ys));
    }
  }

  lemma FirstStart(blocks: seq<TraceBlock>, offset: nat)
    requires blocks != []
    ensures Starts(blocks, offset) == [offset] + Starts(blocks[1..], offset + |blocks[0].pcs|)
  {
  }

  lemma NoStarts(offset: nat)
    ensures Starts([], offset) == []
  {
  }

  lemma {:induction false} JoinStarts(xs: seq<TraceBlock>, ys: seq<TraceBlock>, offset: nat)
    ensures Starts(xs + ys, offset) == Starts(xs, offset) + Starts(ys, offset + Total(xs))
  {
    hide *;
    if xs == [] {
      NoBlocks(ys);
      NoStarts(offset);
    } else {
      JoinStarts(xs[1..], ys, offset + |xs[0].pcs|);
      FirstBlock(xs);
      FirstStart(xs, offset);
      FirstStart(xs + ys, offset);
      assert (xs + ys)[1..] == xs[1..] + ys;
      Regroup([offset], Starts(xs[1..], offset + |xs[0].pcs|), Starts(ys, offset + Total(xs)));
    }
  }

  lemma OneBlock(b: TraceBlock)
    ensures Total([b]) == |b.pcs| && Contents([b]) == b.pcs && Lost([b]) == b.lostBefore
  {
    assert [b][1..] == [];
  }

  // ----- indexing

  lemma {:induction false} StartsAscend(blocks: seq<TraceBlock>, offset: nat)
    ensures Ascending(Starts(blocks, offset))
  {
    if blocks != [] {
      var rest := Starts(blocks[1..], offset + |blocks[0].pcs|);
      StartsAscend(blocks[1..], offset + |blocks[0].pcs|);
      forall j | 0 <= j < |rest| ensures offset <= rest[j] { assert rest[j] in rest; }
    }
  }

  lemma {:induction false} StartIs(blocks: seq<TraceBlock>, offset: nat, p: nat)
    requires p < |blocks|
    ensures Starts(blocks, offset)[p] == offset + Total(blocks[..p])
    ensures Total(blocks[..p]) + |blocks[p].pcs| <= Total(blocks)
    ensures Contents(blocks)[Total(blocks[..p])..][..|blocks[p].pcs|] == blocks[p].pcs
    ensures p + 1 < |blocks| ==> Starts(blocks, offset)[p + 1] == offset + Total(blocks[..p]) + |blocks[p].pcs|
    ensures p + 1 == |blocks| ==> Total(blocks) == Total(blocks[..p]) + |blocks[p].pcs|
  {
    assert blocks == blocks[..p] + ([blocks[p]] + blocks[p + 1..]);
    JoinBlocks(blocks[..p], [blocks[p]] + blocks[p + 1..]);
    JoinStarts(blocks[..p], [blocks[p]] + blocks[p + 1..], offset);
    JoinBlocks([blocks[p]], blocks[p + 1..]);
    OneBlock(blocks[p]);
    assert ([blocks[p]] + blocks[p + 1..])[1..] == blocks[p + 1..];
  }

  lemma StartsAtZero(blocks: seq<TraceBlock>)
    requires Total(blocks) > 0
    ensures blocks != [] && Starts(blocks, 0)[0] == 0
  {
  }

  lemma Part(xs: seq<nat>, from: nat, part: seq<nat>, i: nat)
    requires from <= |xs| && |part| <= |xs| - from && xs[from..][..|part|] == part
    requires from <= i < from + |part|
    ensures part[i - from] == xs[i]
  {
  }

  /** The bisect over block starts finds the block that holds an item of the
      flat stream, and its offset there. Empty blocks never claim an index. */
  lemma LocateIs(blocks: seq<TraceBlock>, index: nat)
    requires index < Total(blocks)
    ensures var p := BisectRight(Starts(blocks, 0), index) - 1;
            && 0 <= p < |blocks|
            && 0 <= index - Starts(blocks, 0)[p] < |blocks[p].pcs|
            && blocks[p].pcs[index - Starts(blocks, 0)[p]] == Contents(blocks)[index]
  {
    hide Starts, Total, Contents, BisectRight;
    var starts := Starts(blocks, 0);
    StartsAscend(blocks, 0);
    var p: int := BisectRight(starts, index) - 1;
    StartsAtZero(blocks);
    assert p >= 0;
    assert starts[p] <= index;
    StartIs(blocks, 0, p);
    assert p + 1 < |blocks| ==> index < starts[p + 1];
    Part(Contents(blocks), Total(blocks[..p]), blocks[p].pcs, index);
  }

  // ----- eviction

  /** Without its first j blocks the store is still over its bound, by more than
      one block. */
  ghost predicate OverWithout(v: StoreView, j: nat) {
    j <= |v.blocks| && Total(v.blocks[j..]) > v.capacity && |v.blocks| - j > 1
  }

  lemma OverLater(v: StoreView, j: nat)
    requires |v.blocks| > 1
    ensures OverWithout(v, 0) <==> Total(v.blocks) > v.capacity
    ensures j > 0 ==> (OverWithout(v, j) <==> OverWithout(DropOldest(v), j - 1))
  {
    assert v.blocks[0..] == v.blocks;
    if 0 < j <= |v.blocks| { assert v.blocks[j..] == v.blocks[1..][j - 1..]; }
  }

  /** Eviction removes the fewest oldest blocks that restore the bound, and
      never the last one. */
  lemma {:induction false} EvictedLeast(v: StoreView) returns (k: nat)
    ensures k <= |v.blocks| && Evicted(v).blocks == v.blocks[k..]
    ensures Total(v.blocks[k..]) <= v.capacity || |v.blocks| - k <= 1
    ensures forall j :: 0 <= j < k ==> OverWithout(v, j)
    ensures Evicted(v).capacity == v.capacity && Evicted(v).stampOrder == v.stampOrder
    ensures Evicted(v).stats == v.stats.(droppedBlocks := v.stats.droppedBlocks + k,
                                         droppedInstructions := v.stats.droppedInstructions + Total(v.blocks[..k]))
    decreases |v.blocks|
  {
    hide Total, Evicted, OverWithout;
    EvictStep(v);
    if Total(v.blocks) > v.capacity && |v.blocks| > 1 {
      var d := DropOldest(v);
      var k' := EvictedLeast(d);
      k := k' + 1;
      FirstBlock(v.blocks[..k]);
      assert v.blocks[1..][k'..] == v.blocks[k..];
      assert v.blocks[..k][1..] == v.blocks[1..][..k'];
      forall j | 0 <= j < k ensures OverWithout(v, j) {
        OverLater(v, j);
        if j > 0 { assert OverWithout(d, j - 1); }
      }
    } else {
      k := 0;
      assert v.blocks[0..] == v.blocks;
      NoBlocks(v.blocks[..0]);
    }
  }

  lemma EvictStep(v: StoreView)
    ensures Evicted(v) == if Total(v.blocks) > v.capacity && |v.blocks| > 1 then Evicted(DropOldest(v)) else v
  {
  }

  ghost predicate Bounded(v: StoreView) { Total(v.blocks) <= v.capacity || |v.blocks| <= 1 }

  lemma AppendedBounded(v: StoreView, b: TraceBlock)
    ensures Bounded(Appended(v, b))
  {
    var k := EvictedLeast(v.(blocks := v.blocks + [b], stats := Recorded(v.stats, b)));
  }

  // ----- truncation

  /** The entries smaller than limit, in order. */
  function Below(limit: int, xs: seq<nat>): seq<nat> {
    if xs == [] then [] else (if xs[0] < limit then [xs[0]] else []) + Below(limit, xs[1..])
  }

  lemma {:induction false} NoneBelow(limit: int, blocks: seq<TraceBlock>, offset: nat)
    requires limit <= offset
    ensures Below(limit, BoundariesFrom(blocks, offset)) == []
  {
    if blocks != [] {
      var rest := BoundariesFrom(blocks[1..], offset + |blocks[0].pcs|);
      NoneBelow(limit, blocks[1..], offset + |blocks[0].pcs|);
      assert ([offset] + rest)[1..] == rest;
    }
  }

  /** Truncation keeps exactly the first items, and exactly the loss boundaries
      among them. */
  lemma {:induction false} TakeIs(blocks: seq<TraceBlock>, n: int, offset: nat)
    requires n <= Total(blocks)
    ensures Contents(Take(blocks, n)) == Contents(blocks)[..Max(n, 0)]
    ensures BoundariesFrom(Take(blocks, n), offset) == Below(offset + n, BoundariesFrom(blocks, offset))
  {
    if n <= 0 || blocks == [] {
      NoneBelow(offset + n, blocks, offset);
    } else if |blocks[0].pcs| <= n {
      TakeIs(blocks[1..], n - |blocks[0].pcs|, offset + |blocks[0].pcs|);
      TakeWhole(blocks, n, offset);
    } else {
      TakePart(blocks, n, offset);
    }
  }

  lemma FirstBoundary(blocks: seq<TraceBlock>, offset: nat)
    requires blocks != []
    ensures BoundariesFrom(blocks, offset)
         == (if blocks[0].lostBefore > 0 && offset > 0 then [offset] else [])
            + BoundariesFrom(blocks[1..], offset + |blocks[0].pcs|)
  {
  }

  lemma OneBoundary(b: TraceBlock, offset: nat)
    ensures BoundariesFrom([b], offset) == if b.lostBefore > 0 && offset > 0 then [offset] else []
  {
    assert [b][1..] == [];
  }

  lemma BelowFirst(limit: int, x: nat, xs: seq<nat>)
    ensures Below(limit, [x] + xs) == (if x < limit then [x] else []) + Below(limit, xs)
    ensures [] + xs == xs
  {
    assert ([x] + xs)[1..] == xs;
  }

  lemma TakeWhole(blocks: seq<TraceBlock>, n: int, offset: nat)
    requires n > 0 && blocks != [] && |blocks[0].pcs| <= n <= Total(blocks)
    requires var size := |blocks[0].pcs|;
             && Contents(Take(blocks[1..], n - size)) == Contents(blocks[1..])[..n - size]
             && BoundariesFrom(Take(blocks[1..], n - size), offset + size)
                == Below(offset + n, BoundariesFrom(blocks[1..], offset + size))
    ensures Contents(Take(blocks, n)) == Contents(blocks)[..n]
    ensures BoundariesFrom(Take(blocks, n), offset) == Below(offset + n, BoundariesFrom(blocks, offset))
  {
    hide Contents, BoundariesFrom, Below, Cut, Total;
    var size := |blocks[0].pcs|;
    var kept := Take(blocks[1..], n - size);
    assert Take(blocks, n) == [blocks[0]] + kept;
    assert Take(blocks, n)[1..] == kept;
    FirstBlock(blocks);
    FirstBlock(Take(blocks, n));
    FirstBoundary(blocks, offset);
    FirstBoundary(Take(blocks, n), offset);
    BelowFirst(offset + n, offset, BoundariesFrom(blocks[1..], offset + size));
  }

  lemma TakePart(blocks: seq<TraceBlock>, n: int, offset: nat)
    requires n > 0 && blocks != [] && n < |blocks[0].pcs|
    ensures Contents(Take(blocks, n)) == Contents(blocks)[..n]
    ensures BoundariesFrom(Take(blocks, n), offset) == Below(offset + n, BoundariesFrom(blocks, offset))
  {
    hide Contents, BoundariesFrom, Below, BisectRight;
    var c := Cut(blocks[0], n);
    var rest := BoundariesFrom(blocks[1..], offset + |blocks[0].pcs|);
    OneBlock(c);
    FirstBlock(blocks);
    OneBoundary(c, offset);
    FirstBoundary(blocks, offset);
    NoneBelow(offset + n, blocks[1..], offset + |blocks[0].pcs|);
    BelowFirst(offset + n, offset, rest);
  }

  /** A cut block keeps exactly its stamps below the cut, cycles alongside. */
  lemma CutKeepsStamps(block: TraceBlock, n: nat)
    requires 0 < n < |block.pcs| && Ascending(block.stampAt) && |block.cycles| == |block.stampAt|
    ensures var c := Cut(block, n);
            && |c.cycles| == |c.stampAt| <= |block.stampAt|
            && c.stampAt == block.stampAt[..|c.stampAt|] && c.cycles == block.cycles[..|c.stampAt|]
            && (forall i :: 0 <= i < |block.stampAt| ==> (i < |c.stampAt| <==> block.stampAt[i] < n))
  {
  }
}
