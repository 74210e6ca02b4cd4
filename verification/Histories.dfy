/** What holds of a store after any sequence of operations on it. */
module Histories {
  import opened Prelude
  import opened Blocks

  datatype Op = Append(block: TraceBlock) | Idle | Truncate(count: int)

  function Apply(v: StoreView, op: Op): StoreView {
    match op
    case Append(block) => Appended(v, block)
    case Idle => Polled(v)
    case Truncate(count) => Truncated(v, count)
  }

  function ApplyAll(v: StoreView, ops: seq<Op>): StoreView {
    if ops == [] then v else Apply(ApplyAll(v, ops[..|ops| - 1]), ops[|ops| - 1])
  }

  /** Everything ever appended, in order. */
  function Offered(ops: seq<Op>): seq<nat> {
    if ops == [] then []
    else
      var last := ops[|ops| - 1];
      Offered(ops[..|ops| - 1]) + if last.Append? then last.block.pcs else []
  }

  /** Loss ever reported, whether or not the block that reported it survives. */
  function Reported(ops: seq<Op>): nat {
    if ops == [] then 0
    else
      var last := ops[|ops| - 1];
      Reported(ops[..|ops| - 1]) + if last.Append? then last.block.lostBefore else 0
  }

  /** Instructions removed by truncation along the way. */
  function Trimmed(v: StoreView, ops: seq<Op>): nat {
    if ops == [] then 0
    else
      var before := ApplyAll(v, ops[..|ops| - 1]);
      var last := ops[|ops| - 1];
      Trimmed(v, ops[..|ops| - 1])
      + if last.Truncate? && last.count < Total(before.blocks) then Total(before.blocks) - Max(last.count, 0) else 0
  }

  predicate IsPoll(op: Op) { !op.Truncate? }

  function Polls(ops: seq<Op>): nat {
    if ops == [] then 0 else Polls(ops[..|ops| - 1]) + if IsPoll(ops[|ops| - 1]) then 1 else 0
  }

  // ----- any history, truncations included

  lemma AppendAccounts(v: StoreView, b: TraceBlock)
    ensures var w := Appended(v, b);
            && w.stats.totalRead == v.stats.totalRead + |b.pcs|
            && w.stats.lost == v.stats.lost + b.lostBefore
            && w.stats.polls == v.stats.polls + 1
            && w.stats.droppedInstructions + Total(w.blocks) == v.stats.droppedInstructions + Total(v.blocks) + |b.pcs|
            && w.stats.droppedInstructions >= v.stats.droppedInstructions
            && Contents(w.blocks)
               == (Contents(v.blocks) + b.pcs)[w.stats.droppedInstructions - v.stats.droppedInstructions..]
            && w.capacity == v.capacity && w.stampOrder == v.stampOrder
  {
    var u := v.(blocks := v.blocks + [b], stats := Recorded(v.stats, b));
    var k := EvictedLeast(u);
    JoinBlocks(v.blocks, [b]);
    OneBlock(b);
    assert u.blocks == u.blocks[..k] + u.blocks[k..];
    JoinBlocks(u.blocks[..k], u.blocks[k..]);
  }

  /** Conservation over any history: what was read is held, evicted or trimmed;
      the lifetime counters count every append, evicted or not; and the store
      keeps to its capacity unless a single block exceeds it. */
  lemma {:induction false} HistoryAccounts(capacity: nat, ops: seq<Op>)
    ensures var v := ApplyAll(Fresh(capacity), ops);
            && v.capacity == capacity
            && v.stats.totalRead == |Offered(ops)|
            && v.stats.totalRead == v.stats.droppedInstructions + Trimmed(Fresh(capacity), ops) + Total(v.blocks)
            && v.stats.lost == Reported(ops)
            && v.stats.polls == Polls(ops)
            && Bounded(v)
  {
    if ops != [] {
      var before := ApplyAll(Fresh(capacity), ops[..|ops| - 1]);
      HistoryAccounts(capacity, ops[..|ops| - 1]);
      match ops[|ops| - 1]
      case Append(b) =>
        AppendAccounts(before, b);
        AppendedBounded(before, b);
      case Idle =>
      case Truncate(count) =>
        if count < Total(before.blocks) {
          TakeIs(before.blocks, count, 0);
          TakeCount(before.blocks, count);
        }
    }
  }

  lemma {:induction false} TakeCount(blocks: seq<TraceBlock>, n: int)
    ensures |Take(blocks, n)| <= |blocks|
  {
    if n > 0 && blocks != [] && |blocks[0].pcs| <= n {
      TakeCount(blocks[1..], n - |blocks[0].pcs|);
    }
  }

  // ----- histories without truncation

  ghost predicate Whole(ops: seq<Op>) { forall i :: 0 <= i < |ops| ==> !ops[i].Truncate? }

  /** With no truncation the store holds a suffix of everything appended: item j
      is absolute item origin + j, and everything before origin was evicted. */
  lemma {:induction false} HistoryIsSuffix(capacity: nat, ops: seq<Op>)
    requires Whole(ops)
    ensures var v := ApplyAll(Fresh(capacity), ops);
            && v.stats.droppedInstructions <= |Offered(ops)|
            && Contents(v.blocks) == Offered(ops)[v.stats.droppedInstructions..]
  {
    if ops != [] {
      var shorter := ops[..|ops| - 1];
      var before := ApplyAll(Fresh(capacity), shorter);
      HistoryIsSuffix(capacity, shorter);
      if ops[|ops| - 1].Append? {
        var b := ops[|ops| - 1].block;
        AppendAccounts(before, b);
        SuffixOfSuffix(Offered(shorter), b.pcs, before.stats.droppedInstructions,
                       ApplyAll(Fresh(capacity), ops).stats.droppedInstructions);
      }
    }
  }

  lemma SuffixOfSuffix(xs: seq<nat>, more: seq<nat>, a: nat, b: nat)
    requires a <= |xs| && a <= b <= |xs| + |more|
    ensures (xs[a..] + more)[b - a..] == (xs + more)[b..]
  {
  }

  // ----- a store that only ever truncated at the end

  /** The store then holds the first count items of that suffix. */
  lemma TruncatedHistory(capacity: nat, ops: seq<Op>, count: nat)
    requires Whole(ops)
    ensures ApplyAll(Fresh(capacity), ops).stats.droppedInstructions <= |Offered(ops)|
    ensures var v := ApplyAll(Fresh(capacity), ops + [Truncate(count)]);
            var kept := Offered(ops)[ApplyAll(Fresh(capacity), ops).stats.droppedInstructions..];
            Contents(v.blocks) == kept[..Max(0, Min(count, |kept|))]
  {
    var v := ApplyAll(Fresh(capacity), ops);
    assert (ops + [Truncate(count)])[..|ops|] == ops;
    HistoryIsSuffix(capacity, ops);
    if count < Total(v.blocks) { TakeIs(v.blocks, count, 0); }
  }
}
