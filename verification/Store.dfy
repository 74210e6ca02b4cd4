/** The trace store as an object, with the index of block starts it looks
    instructions up by. */
module Store {
  import opened Prelude
  import opened Bisect
  import opened Blocks

  /** The boundaries as the store reads them, off its two parallel lists. */
  function MarkedStarts(starts: seq<nat>, blocks: seq<TraceBlock>): seq<nat>
    requires |starts| == |blocks|
  {
    if blocks == [] then []
    else
      var first := if blocks[0].lostBefore > 0 && starts[0] > 0 then [starts[0]] else [];
      first + MarkedStarts(starts[1..], blocks[1..])
  }

  lemma {:induction false} MarkedStartsAre(blocks: seq<TraceBlock>, offset: nat)
    ensures MarkedStarts(Starts(blocks, offset), blocks) == BoundariesFrom(blocks, offset)
  {
    if blocks != [] {
      MarkedStartsAre(blocks[1..], offset + |blocks[0].pcs|);
      assert Starts(blocks, offset)[1..] == Starts(blocks[1..], offset + |blocks[0].pcs|);
    }
  }

  /** A new block starts where the stream so far ends. */
  lemma NextStart(blocks: seq<TraceBlock>, block: TraceBlock)
    ensures Total(blocks + [block]) == Total(blocks) + |block.pcs|
    ensures Starts(blocks + [block], 0) == Starts(blocks, 0) + [Total(blocks)]
  {
    JoinBlocks(blocks, [block]);
    JoinStarts(blocks, [block], 0);
    OneBlock(block);
    assert [block][1..] == [];
  }

  class TraceStore {
    const capacity: nat
    var blocks: seq<TraceBlock>
    var starts: seq<nat>
    var length: nat
    var stats: StoreStats
    var stampOrder: Option<bool>

    /** The index of starts and the cached length agree with the blocks. */
    ghost predicate Valid()
      reads this
    {
      capacity > 0 && starts == Starts(blocks, 0) && length == Total(blocks)
    }

    ghost function View(): StoreView
      reads this
    {
      StoreView(capacity, blocks, stats, stampOrder)
    }

    constructor (capacity: nat)
      requires capacity > 0
      ensures Valid() && View() == Fresh(capacity)
    {
      this.capacity := capacity;
      blocks, starts, length := [], [], 0;
      stats, stampOrder := NO_STATS, None;
    }

    /** A capacity that is not positive is refused. */
    static method Open(capacity: int) returns (r: Result<TraceStore, string>)
      ensures capacity <= 0 ==> r == Err("capacity must be positive")
      ensures capacity > 0 ==> r.Ok? && fresh(r.value) && r.value.Valid() && r.value.View() == Fresh(capacity)
    {
      if capacity <= 0 { return Err("capacity must be positive"); }
      var store := new TraceStore(capacity);
      r := Ok(store);
    }

    /** Append one drained slice, evicting oldest blocks past the capacity.
        Stamps that are not parallel are refused and leave no trace. */
    method AppendBlock(pcs: seq<nat>, lostBefore: nat, haltReason: Option<int>, wallNs: Option<int>,
                       cycles: seq<nat>, stampAt: seq<nat>)
      returns (r: Result<TraceBlock, string>)
      requires Valid()
      modifies this
      ensures Valid()
      ensures |cycles| != |stampAt| ==> r.Err? && View() == old(View())
      ensures |cycles| == |stampAt| ==>
                var b := TraceBlock(pcs, lostBefore, haltReason, wallNs, cycles, stampAt);
                r == Ok(b) && View() == Appended(old(View()), b)
    {
      var block := TraceBlock(pcs, lostBefore, haltReason, wallNs, cycles, stampAt);
      if |cycles| != |stampAt| { return Err("parallel arrays"); }
      stats := stats.(polls := stats.polls + 1);
      stats := stats.(totalRead := stats.totalRead + |pcs|);
      if lostBefore > 0 {
        stats := stats.(gaps := stats.gaps + 1);
        stats := stats.(lost := stats.lost + lostBefore);
      } else if |pcs| > 0 {
        stats := stats.(stitched := stats.stitched + 1);
      }
      hide Starts, Total, Evicted;
      NextStart(blocks, block);
      starts := starts + [length];
      blocks := blocks + [block];
      length := length + |pcs|;
      Evict();
      r := Ok(block);
    }

    method NoteIdlePoll()
      requires Valid()
      modifies this`stats
      ensures Valid() && View() == Polled(old(View()))
    {
      stats := stats.(polls := stats.polls + 1);
    }

    method Evict()
      requires Valid()
      modifies this
      ensures Valid() && View() == Evicted(old(View()))
    {
      var dropped := 0;
      while length > capacity && |blocks| > 1
        invariant length == Total(blocks) && capacity > 0
        invariant Evicted(View()) == Evicted(old(View()))
        invariant dropped == 0 ==> starts == Starts(blocks, 0)
        decreases |blocks|
      {
        var block := blocks[0];
        ghost var before := View();
        blocks := blocks[1..];
        length := length - |block.pcs|;
        stats := stats.(droppedBlocks := stats.droppedBlocks + 1);
        stats := stats.(droppedInstructions := stats.droppedInstructions + |block.pcs|);
        assert View() == DropOldest(before);
        dropped := dropped + 1;
      }
      if dropped > 0 { RebuildStarts(); }
    }

    method RebuildStarts()
      requires capacity > 0
      modifies this`starts, this`length
      ensures Valid()
    {
      var fresh' := [];
      var offset := 0;
      for i := 0 to |blocks|
        invariant fresh' == Starts(blocks[..i], 0)
        invariant offset == Total(blocks[..i])
      {
        assert blocks[..i + 1] == blocks[..i] + [blocks[i]];
        JoinStarts(blocks[..i], [blocks[i]], 0);
        JoinBlocks(blocks[..i], [blocks[i]]);
        OneBlock(blocks[i]);
        assert Starts([blocks[i]], offset) == [offset] by { assert [blocks[i]][1..] == []; }
        fresh' := fresh' + [offset];
        offset := offset + |blocks[i].pcs|;
      }
      assert blocks[..|blocks|] == blocks;
      starts := fresh';
      length := offset;
    }

    /** Keep the oldest count instructions, splitting a block if it must. */
    method TruncateTo(count: int)
      requires Valid()
      modifies this
      ensures Valid() && View() == Truncated(old(View()), count)
    {
      if count >= length { return; }
      if count <= 0 {
        blocks := [];
        RebuildStarts();
        return;
      }
      var keep: seq<TraceBlock> := [];
      var remaining := count;
      for i := 0 to |blocks|
        invariant keep + Take(blocks[i..], remaining) == Take(blocks, count)
      {
        if remaining <= 0 { break; }
        var block := blocks[i];
        assert blocks[i..][1..] == blocks[i + 1..];
        if |block.pcs| <= remaining {
          assert keep + ([block] + Take(blocks[i + 1..], remaining - |block.pcs|))
              == (keep + [block]) + Take(blocks[i + 1..], remaining - |block.pcs|);
          keep := keep + [block];
          remaining := remaining - |block.pcs|;
        } else {
          var limit := BisectRight(block.stampAt, remaining - 1);
          keep := keep + [TraceBlock(block.pcs[..remaining], block.lostBefore, block.haltReason, block.wallNs,
                                     block.cycles[..Min(limit, |block.cycles|)], block.stampAt[..limit])];
          remaining := 0;
        }
      }
      assert keep == Take(blocks, count);
      blocks := keep;
      RebuildStarts();
    }

    /** The block that holds an index, counted from the end when negative. */
    function BlockIndexAt(index: int): (r: Result<nat, string>)
      requires Valid()
      reads this
      ensures var i := if index < 0 then index + length else index;
              if 0 <= i < length
              then r.Ok? && r.value < |blocks| && 0 <= i - starts[r.value] < |blocks[r.value].pcs|
                   && blocks[r.value].pcs[i - starts[r.value]] == Contents(blocks)[i]
              else r == Err("trace index out of range")
    {
      var i := if index < 0 then index + length else index;
      if !(0 <= i < length) then Err("trace index out of range")
      else
        LocateIs(blocks, i);
        Ok(BisectRight(starts, i) - 1)
    }

    /** Indexing through starts and the bisect is indexing the flat stream. */
    function Item(index: int): (r: Result<nat, string>)
      requires Valid()
      reads this
      ensures r == var i := if index < 0 then index + length else index;
                   if 0 <= i < length then Ok(Contents(blocks)[i]) else Err("trace index out of range")
    {
      var i := if index < 0 then index + length else index;
      match BlockIndexAt(index)
      case Err(e) => Err(e)
      case Ok(position) =>
        Ok(blocks[position].pcs[i - starts[position]])
    }

    function LossBoundaries(): (r: seq<nat>)
      requires Valid()
      reads this
      ensures r == Boundaries(blocks)
    {
      MarkedStartsAre(blocks, 0);
      MarkedStarts(starts, blocks)
    }
  }
}
