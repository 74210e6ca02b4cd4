/** Where the retained instructions sit in the stream the core truly retired.
    Blocks carry no positions; the loss recorded on them determines all of them
    once the position before the first block is known. */
module Provenance {
  import opened Blocks

  /** Position in the true stream of retained instruction i, when the loss
      before the first block begins at position at. */
  function PositionAt(blocks: seq<TraceBlock>, at: nat, i: nat): (p: nat)
    requires i < Total(blocks)
    ensures at <= p
  {
    var first, size := at + blocks[0].lostBefore, |blocks[0].pcs|;
    if i < size then first + i else PositionAt(blocks[1..], first + size, i - size)
  }

  /** The position just past everything the blocks account for. */
  function End(blocks: seq<TraceBlock>, at: nat): nat { at + Lost(blocks) + Total(blocks) }

  /** The blocks are what they claim: slices of the stream, loss in between. */
  ghost predicate Follows(blocks: seq<TraceBlock>, at: nat, stream: seq<nat>) {
    blocks == [] ||
    var first := at + blocks[0].lostBefore;
    && first + |blocks[0].pcs| <= |stream|
    && blocks[0].pcs == stream[first..first + |blocks[0].pcs|]
    && Follows(blocks[1..], first + |blocks[0].pcs|, stream)
  }

  lemma NoneFollows(at: nat, stream: seq<nat>)
    ensures Follows([], at, stream) && End([], at) == at
  {
  }

  lemma FirstFollows(blocks: seq<TraceBlock>, at: nat, stream: seq<nat>)
    requires blocks != []
    ensures var first := at + blocks[0].lostBefore;
            Follows(blocks, at, stream) <==>
              && first + |blocks[0].pcs| <= |stream|
              && blocks[0].pcs == stream[first..first + |blocks[0].pcs|]
              && Follows(blocks[1..], first + |blocks[0].pcs|, stream)
    ensures End(blocks, at) == End(blocks[1..], at + blocks[0].lostBefore + |blocks[0].pcs|)
  {
  }

  lemma FirstAt(blocks: seq<TraceBlock>, at: nat, i: nat)
    requires i < Total(blocks)
    ensures blocks != [] && Total(blocks) == |blocks[0].pcs| + Total(blocks[1..])
    ensures var first, size := at + blocks[0].lostBefore, |blocks[0].pcs|;
            PositionAt(blocks, at, i) ==
              if i < size then first + i else PositionAt(blocks[1..], first + size, i - size)
  {
  }

  // ----- positions

  /** Positions rise with the index. */
  lemma {:induction false} PositionsRise(blocks: seq<TraceBlock>, at: nat, i: nat, j: nat)
    requires i < j < Total(blocks)
    ensures PositionAt(blocks, at, i) < PositionAt(blocks, at, j)
  {
    var first, size := at + blocks[0].lostBefore, |blocks[0].pcs|;
    if i >= size { PositionsRise(blocks[1..], first + size, i - size, j - size); }
  }

  /** Each retained counter is the one the core retired at its position. */
  lemma {:induction false} PositionsShow(blocks: seq<TraceBlock>, at: nat, stream: seq<nat>, i: nat)
    requires Follows(blocks, at, stream) && i < Total(blocks)
    ensures PositionAt(blocks, at, i) < |stream|
    ensures stream[PositionAt(blocks, at, i)] == Contents(blocks)[i]
  {
    hide *;
    FirstAt(blocks, at, i);
    FirstBlock(blocks);
    FirstFollows(blocks, at, stream);
    var first, size := at + blocks[0].lostBefore, |blocks[0].pcs|;
    if i < size {
      assert stream[first..first + size][i] == stream[first + i];
    } else {
      PositionsShow(blocks[1..], first + size, stream, i - size);
    }
  }

  lemma {:induction false} FirstPosition(blocks: seq<TraceBlock>, at: nat, offset: nat)
    requires Total(blocks) > 0 && offset > 0
    ensures offset in BoundariesFrom(blocks, offset) <==> PositionAt(blocks, at, 0) != at
  {
    var lost, size := blocks[0].lostBefore, |blocks[0].pcs|;
    var rest := BoundariesFrom(blocks[1..], offset + size);
    if lost > 0 {
      assert offset in [offset] + rest;
    } else if size == 0 {
      FirstPosition(blocks[1..], at, offset);
    } else {
      assert offset !in rest;
    }
  }

  /** Loss is located exactly: two neighbouring items are neighbours in the true
      stream precisely when no boundary lies between them. */
  lemma {:induction false} HoleIff(blocks: seq<TraceBlock>, at: nat, offset: nat, b: nat)
    requires 0 < b < Total(blocks)
    ensures offset + b in BoundariesFrom(blocks, offset)
       <==> PositionAt(blocks, at, b) != PositionAt(blocks, at, b - 1) + 1
  {
    var first, size := at + blocks[0].lostBefore, |blocks[0].pcs|;
    var rest := BoundariesFrom(blocks[1..], offset + size);
    assert offset + b in BoundariesFrom(blocks, offset) <==> offset + b in rest;
    if b < size {
      assert offset + b !in rest;
    } else if b == size {
      FirstPosition(blocks[1..], first + size, offset + size);
    } else {
      HoleIff(blocks[1..], first + size, offset + size, b - size);
    }
  }

  /** A stretch with no boundary strictly inside it was retired without a gap. */
  lemma {:induction false} NoBoundaryNoHole(blocks: seq<TraceBlock>, at: nat, s: nat, i: nat)
    requires s <= i < Total(blocks)
    requires forall b :: s < b <= i ==> b !in Boundaries(blocks)
    ensures PositionAt(blocks, at, i) == PositionAt(blocks, at, s) + (i - s)
    decreases i
  {
    if s < i {
      NoBoundaryNoHole(blocks, at, s, i - 1);
      HoleIff(blocks, at, 0, i);
      assert 0 + i !in Boundaries(blocks);
    }
  }

  // ----- joining, dropping and truncating

  lemma {:induction false} JoinPositions(xs: seq<TraceBlock>, ys: seq<TraceBlock>, at: nat, i: nat)
    requires i < Total(xs + ys)
    ensures i < Total(xs) ==> PositionAt(xs + ys, at, i) == PositionAt(xs, at, i)
    ensures Total(xs) <= i ==>
              && i - Total(xs) < Total(ys)
              && PositionAt(xs + ys, at, i) == PositionAt(ys, End(xs, at), i - Total(xs))
  {
    hide *;
    JoinBlocks(xs, ys);
    if xs == [] {
      NoBlocks(ys);
      NoneFollows(at, []);
    } else {
      var first, size := at + xs[0].lostBefore, |xs[0].pcs|;
      assert (xs + ys)[1..] == xs[1..] + ys;
      FirstBlock(xs);
      FirstFollows(xs, at, []);
      FirstAt(xs + ys, at, i);
      if i < Total(xs) { FirstAt(xs, at, i); }
      if i >= size { JoinPositions(xs[1..], ys, first + size, i - size); }
    }
  }

  lemma {:induction false} JoinFollows(xs: seq<TraceBlock>, ys: seq<TraceBlock>, at: nat, stream: seq<nat>)
    ensures Follows(xs + ys, at, stream) <==> Follows(xs, at, stream) && Follows(ys, End(xs, at), stream)
  {
    hide *;
    if xs == [] {
      NoBlocks(ys);
      NoneFollows(at, stream);
    } else {
      JoinFollows(xs[1..], ys, at + xs[0].lostBefore + |xs[0].pcs|, stream);
      FirstFollows(xs, at, stream);
      FirstFollows(xs + ys, at, stream);
      assert (xs + ys)[1..] == xs[1..] + ys;
    }
  }

  lemma JoinEnd(xs: seq<TraceBlock>, ys: seq<TraceBlock>, at: nat)
    ensures End(xs + ys, at) == End(ys, End(xs, at))
  {
    JoinBlocks(xs, ys);
  }

  /** Dropping the oldest blocks leaves every other item where it was. */
  lemma DropFollows(blocks: seq<TraceBlock>, at: nat, stream: seq<nat>, k: nat)
    requires Follows(blocks, at, stream) && k <= |blocks|
    ensures Follows(blocks[k..], End(blocks[..k], at), stream)
    ensures End(blocks[k..], End(blocks[..k], at)) == End(blocks, at)
    ensures Total(blocks[..k]) + Total(blocks[k..]) == Total(blocks)
    ensures forall i :: 0 <= i < Total(blocks[k..]) ==>
              PositionAt(blocks[k..], End(blocks[..k], at), i) == PositionAt(blocks, at, Total(blocks[..k]) + i)
  {
    hide *;
    var xs, ys := blocks[..k], blocks[k..];
    assert xs + ys == blocks;
    JoinFollows(xs, ys, at, stream);
    JoinEnd(xs, ys, at);
    JoinBlocks(xs, ys);
    forall i | 0 <= i < Total(ys) ensures PositionAt(ys, End(xs, at), i) == PositionAt(blocks, at, Total(xs) + i) {
      JoinPositions(xs, ys, at, Total(xs) + i);
    }
  }

  lemma CutSize(b: TraceBlock, n: nat)
    requires 0 < n < |b.pcs|
    ensures |Cut(b, n).pcs| == n && Cut(b, n).pcs == b.pcs[..n] && Cut(b, n).lostBefore == b.lostBefore
  {
  }

  /** Truncation leaves every item it keeps where it was. */
  lemma {:induction false} TakeFollows(blocks: seq<TraceBlock>, at: nat, stream: seq<nat>, n: int)
    requires Follows(blocks, at, stream) && n <= Total(blocks)
    ensures Follows(Take(blocks, n), at, stream)
  {
    hide Follows, Total, Cut;
    if n <= 0 {
      NoneFollows(at, stream);
    } else {
      NoBlocks([]);
      FirstBlock(blocks);
      FirstFollows(blocks, at, stream);
      var taken := Take(blocks, n);
      FirstFollows(taken, at, stream);
      var first, size := at + blocks[0].lostBefore, |blocks[0].pcs|;
      if size <= n {
        TakeFollows(blocks[1..], first + size, stream, n - size);
        assert taken == [blocks[0]] + Take(blocks[1..], n - size) && taken[1..] == Take(blocks[1..], n - size);
      } else {
        CutSize(blocks[0], n);
        assert taken[0].pcs == stream[first..first + n];
        assert taken[1..] == [];
        NoneFollows(first + n, stream);
      }
    }
  }

  lemma {:induction false} TakePositions(blocks: seq<TraceBlock>, at: nat, n: int, i: nat)
    requires n <= Total(blocks) && i < n
    ensures i < Total(Take(blocks, n))
    ensures PositionAt(Take(blocks, n), at, i) == PositionAt(blocks, at, i)
  {
    hide PositionAt, Cut, Total;
    FirstAt(blocks, at, i);
    var first, size := at + blocks[0].lostBefore, |blocks[0].pcs|;
    var taken := Take(blocks, n);
    FirstBlock(taken);
    if size <= n {
      var kept := Take(blocks[1..], n - size);
      assert taken == [blocks[0]] + kept && taken[1..] == kept;
      if size <= i { TakePositions(blocks[1..], first + size, n - size, i - size); }
    } else {
      CutSize(blocks[0], n);
    }
    FirstAt(taken, at, i);
  }

  lemma {:induction false} MoreStream(blocks: seq<TraceBlock>, at: nat, stream: seq<nat>, more: seq<nat>)
    requires Follows(blocks, at, stream)
    ensures Follows(blocks, at, stream + more)
  {
    if blocks != [] {
      var first, size := at + blocks[0].lostBefore, |blocks[0].pcs|;
      MoreStream(blocks[1..], first + size, stream, more);
      assert (stream + more)[first..first + size] == stream[first..first + size];
    }
  }
}
