/** Where everything in a captured block comes from: its counters, its stamps and
    its loss, traced back to the slice whose window it was. */
module StampOrigins {
  import opened Prelude
  import opened Bisect
  import Sorting
  import opened Tallies
  import opened Timestamps
  import opened Blocks
  import opened Windows
  import opened Capture
  import opened Loss
  import opened Located

  // ----- one window

  /** Where item i of a window goes: it is turned round unless read oldest first. */
  function Place(i: int, total: nat, newest: bool): int { if newest then total - 1 - i else i }

  /** A place and a cycle. */
  type Mark = (int, int)

  /** The marks of a window's stamps, those outside it left out. */
  function Marks(stamps: seq<Stamp>, total: nat, newest: bool): seq<Mark> {
    if stamps == [] then []
    else
      var rest := Marks(stamps[1..], total, newest);
      var s := stamps[0];
      if 0 <= s.index < total then [(Place(s.index, total, newest), s.cycle)] + rest else rest
  }

  function BlockMarks(b: TraceBlock): (r: seq<Mark>)
    requires |b.cycles| == |b.stampAt|
    ensures |r| == |b.stampAt| && forall k :: 0 <= k < |r| ==> r[k] == (b.stampAt[k], b.cycles[k])
  {
    seq(|b.stampAt|, k requires 0 <= k < |b.stampAt| => (b.stampAt[k], b.cycles[k]))
  }

  function StampMarks(stamps: seq<Stamp>): (r: seq<Mark>)
    ensures |r| == |stamps| && forall k :: 0 <= k < |r| ==> r[k] == (stamps[k].index, stamps[k].cycle)
  {
    seq(|stamps|, k requires 0 <= k < |stamps| => (stamps[k].index, stamps[k].cycle))
  }

  function Bears(m: Mark): Stamp -> int { (s: Stamp) => if (s.index, s.cycle) == m then 1 else 0 }

  lemma {:induction false} MarksCount(stamps: seq<Stamp>, m: Mark)
    ensures multiset(StampMarks(stamps))[m] == Weigh(Bears(m), stamps)
  {
    if stamps != [] {
      MarksCount(Init(stamps), m);
      assert StampMarks(stamps) == StampMarks(Init(stamps)) + [(Last(stamps).index, Last(stamps).cycle)];
    }
  }

  lemma MarksPermute(xs: seq<Stamp>, ys: seq<Stamp>)
    requires multiset(xs) == multiset(ys)
    ensures multiset(StampMarks(xs)) == multiset(StampMarks(ys))
  {
    forall m: Mark ensures multiset(StampMarks(xs))[m] == multiset(StampMarks(ys))[m] {
      MarksCount(xs, m);
      MarksCount(ys, m);
      WeighPermutes(Bears(m), xs, ys);
    }
  }

  lemma {:induction false} RemappedMarks(stamps: seq<Stamp>, total: nat, newest: bool)
    ensures StampMarks(Remapped(stamps, total, newest)) == Marks(stamps, total, newest)
  {
    if stamps != [] { RemappedMarks(stamps[1..], total, newest); }
  }

  /** A block carries every stamp of its window that lies in it, as often as given,
      on the place its counter went to. */
  lemma WindowMarks(stash: Stash)
    ensures var b := BlockOf(stash);
            && |b.cycles| == |b.stampAt|
            && multiset(BlockMarks(b)) == multiset(Marks(stash.stamps, |stash.window|, ReadNewest(stash)))
            && Ascending(b.stampAt)
  {
    hide Sorting.SortBy, DetectStampOrder, Remapped;
    OrderedInRange(stash);
    var r := Remapped(stash.stamps, |stash.window|, ReadNewest(stash));
    var o := Sorting.SortBy(IndexLess, r);
    ChronologiseKeepsStamps(stash.window, stash.stamps, Observed(stash));
    Sorting.SortPermutes(IndexLess, r);
    MarksPermute(o, r);
    RemappedMarks(stash.stamps, |stash.window|, ReadNewest(stash));
    assert BlockMarks(BlockOf(stash)) == StampMarks(o);
  }

  /** And every counter of its window. */
  lemma WindowCounters(stash: Stash, i: nat)
    requires i < |stash.window|
    ensures var b := BlockOf(stash);
            |b.pcs| == |stash.window| && b.pcs[i] == stash.window[Place(i, |stash.window|, ReadNewest(stash))]
  {
    hide Sorting.SortBy, DetectStampOrder, Remapped;
  }

  // ----- a slice's block, cut or not

  /** The marks below a cut. */
  function MarksBelow(marks: seq<Mark>, n: int): seq<Mark> {
    if marks == [] then []
    else (if marks[0].0 < n then [marks[0]] else []) + MarksBelow(marks[1..], n)
  }

  /** The first counters of slice j's window, placed, with its stamps on them, and
      the slice's loss, halt reason and time. */
  ghost predicate FromSlice(run: Run, j: nat, b: TraceBlock) {
    var stash := run.StashOf(j);
    var newest, total := ReadNewest(stash), |run.Window(j)|;
    && |b.pcs| <= total
    && (forall i :: 0 <= i < |b.pcs| ==> b.pcs[i] == run.Window(j)[Place(i, total, newest)])
    && |b.cycles| == |b.stampAt| && Ascending(b.stampAt)
    && multiset(BlockMarks(b)) == multiset(MarksBelow(Marks(stash.stamps, total, newest), |b.pcs|))
    && stash.stamps == (if run.timestamps then Returned(run.At(j).stamps, MAX_STRACE_ITEMS) else [])
    && b.lostBefore == run.LostIn(j)
    && b.haltReason == (if run.recordHalt then run.At(j).haltReason else None)
    && b.wallNs == Some(run.At(j).wallNs)
  }

  lemma {:induction false} AllBelow(marks: seq<Mark>, n: int)
    requires forall k :: 0 <= k < |marks| ==> marks[k].0 < n
    ensures MarksBelow(marks, n) == marks
  {
    if marks != [] {
      AllBelow(marks[1..], n);
      assert marks == [marks[0]] + marks[1..];
    }
  }

  lemma {:induction false} MarksInside(stamps: seq<Stamp>, total: nat, newest: bool)
    ensures forall k :: 0 <= k < |Marks(stamps, total, newest)| ==> 0 <= Marks(stamps, total, newest)[k].0 < total
  {
    if stamps != [] { MarksInside(stamps[1..], total, newest); }
  }

  lemma SliceFrom(run: Run, j: nat)
    ensures FromSlice(run, j, BlockOf(run.StashOf(j)))
  {
    hide BlockOf, Marks, MarksBelow, Ascending, Orientation, Observed;
    hide run.Window, run.LostIn;
    var stash := run.StashOf(j);
    WindowMarks(stash);
    MarksInside(stash.stamps, |stash.window|, ReadNewest(stash));
    AllBelow(Marks(stash.stamps, |stash.window|, ReadNewest(stash)), |stash.window|);
    forall i | 0 <= i < |stash.window|
      ensures BlockOf(stash).pcs[i] == stash.window[Place(i, |stash.window|, ReadNewest(stash))]
    {
      WindowCounters(stash, i);
    }
    BlockKeeps(stash);
  }

  lemma BlockKeeps(stash: Stash)
    ensures var b := BlockOf(stash);
            b.lostBefore == stash.lost && b.haltReason == stash.haltReason && b.wallNs == Some(stash.wallNs)
  {
  }

  lemma {:induction false} BelowTwice(marks: seq<Mark>, m: int, n: int)
    requires n <= m
    ensures MarksBelow(MarksBelow(marks, m), n) == MarksBelow(marks, n)
  {
    if marks != [] {
      BelowTwice(marks[1..], m, n);
      var rest := MarksBelow(marks[1..], m);
      if marks[0].0 < m { assert ([marks[0]] + rest)[1..] == rest; } else { assert MarksBelow(marks, m) == rest; }
    }
  }

  lemma {:induction false} BelowCounts(marks: seq<Mark>, n: int, m: Mark)
    ensures multiset(MarksBelow(marks, n))[m] == if m.0 < n then multiset(marks)[m] else 0
  {
    if marks != [] {
      BelowCounts(marks[1..], n, m);
      assert marks == [marks[0]] + marks[1..];
    }
  }

  lemma BelowPermutes(xs: seq<Mark>, ys: seq<Mark>, n: int)
    requires multiset(xs) == multiset(ys)
    ensures multiset(MarksBelow(xs, n)) == multiset(MarksBelow(ys, n))
  {
    forall m: Mark ensures multiset(MarksBelow(xs, n))[m] == multiset(MarksBelow(ys, n))[m] {
      BelowCounts(xs, n, m);
      BelowCounts(ys, n, m);
    }
  }

  /** In order, the marks below a cut come first. */
  lemma {:induction false} BelowPrefix(marks: seq<Mark>, n: int, k: nat)
    requires k <= |marks| && forall i :: 0 <= i < |marks| ==> (marks[i].0 < n <==> i < k)
    ensures MarksBelow(marks, n) == marks[..k]
  {
    if marks != [] {
      BelowPrefix(marks[1..], n, if k == 0 then 0 else k - 1);
      if k > 0 { assert marks[..k] == [marks[0]] + marks[1..][..k - 1]; } else { assert marks[0].0 >= n; }
    }
  }

  lemma CutFrom(run: Run, j: nat, b: TraceBlock, n: nat)
    requires FromSlice(run, j, b) && 0 < n < |b.pcs|
    ensures FromSlice(run, j, Cut(b, n))
  {
    hide Cut, Marks, MarksBelow, run.Window, run.LostIn, run.At;
    CutKeepsStamps(b, n);
    CutCounters(b, n);
    var c := Cut(b, n);
    BelowPrefix(BlockMarks(b), n, |c.stampAt|);
    assert BlockMarks(c) == BlockMarks(b)[..|c.stampAt|];
    var marks := Marks(run.StashOf(j).stamps, |run.Window(j)|, ReadNewest(run.StashOf(j)));
    BelowPermutes(BlockMarks(b), MarksBelow(marks, |b.pcs|), n);
    BelowTwice(marks, |b.pcs|, n);
  }

  lemma CutCounters(b: TraceBlock, n: nat)
    requires 0 < n < |b.pcs|
    ensures var c := Cut(b, n);
            && c.pcs == b.pcs[..n] && c.lostBefore == b.lostBefore && c.haltReason == b.haltReason
               && c.wallNs == b.wallNs
  {
  }

  // ----- a whole capture

  /** The slice a kept block came from. */
  lemma {:induction false} SliceOf(run: Run, k: nat, q: nat) returns (j: nat)
    requires q < |SliceBlocks(run, k)|
    ensures j < k && SliceBlocks(run, k)[q] == BlockOf(run.StashOf(j))
    ensures Total(SliceBlocks(run, k)[..q]) == run.Gathered(j)
  {
    hide BlockOf, Total, run.Window, run.LostIn;
    var before := SliceBlocks(run, k - 1);
    if q < |before| {
      j := SliceOf(run, k - 1, q);
      assert SliceBlocks(run, k)[..q] == before[..q];
    } else {
      j := k - 1;
      assert SliceBlocks(run, k)[..q] == before;
    }
  }

  lemma TakeBlocks(blocks: seq<TraceBlock>, n: int, p: nat)
    requires p < |Take(blocks, n)|
    ensures p < |blocks| && Total(Take(blocks, n)[..p]) == Total(blocks[..p])
    ensures Take(blocks, n)[p] == blocks[p]
            || exists m :: 0 < m < |blocks[p].pcs| && Take(blocks, n)[p] == Cut(blocks[p], m)
  {
    hide Cut;
    if |blocks[0].pcs| <= n {
      if p > 0 {
        TakeBlocks(blocks[1..], n - |blocks[0].pcs|, p - 1);
        var rest := Take(blocks[1..], n - |blocks[0].pcs|);
        assert Take(blocks, n) == [blocks[0]] + rest;
        assert Take(blocks, n)[..p] == [blocks[0]] + rest[..p - 1] && blocks[..p] == [blocks[0]] + blocks[1..][..p - 1];
        FirstBlock(Take(blocks, n)[..p]);
        FirstBlock(blocks[..p]);
        assert Take(blocks, n)[..p][1..] == rest[..p - 1] && blocks[..p][1..] == blocks[1..][..p - 1];
      }
    }
  }

  /** Each block of a finished capture into a fresh store, cut or not, is the block
      of one slice, and its counters are those collected from that slice on. */
  lemma CaptureFrom(run: Run, capacity: nat, p: nat) returns (j: nat)
    requires p < |run.Outcome(Fresh(capacity)).blocks|
    ensures j < run.Turns() && FromSlice(run, j, run.Outcome(Fresh(capacity)).blocks[p])
    ensures var v := run.Outcome(Fresh(capacity));
            v.stats.droppedInstructions + Total(v.blocks[..p]) == run.Gathered(j)
  {
    hide *;
    var n := run.Turns();
    var full, all := run.Inline(Fresh(capacity), n), SliceBlocks(run, n);
    OutcomeCuts(run, capacity);
    var d := LoopTail(run, capacity, n);
    Tail(full, all, d);
    CutBlock(full, run.target, p);
    j := SliceOf(run, n, d + p);
    SliceFrom(run, j);
    assert all[d + p] == full.blocks[p];
    assert all[..d + p] == all[..d] + full.blocks[..p];
    JoinBlocks(all[..d], full.blocks[..p]);
    var b := run.Outcome(Fresh(capacity)).blocks[p];
    if b != full.blocks[p] {
      var m :| 0 < m < |full.blocks[p].pcs| && b == Cut(full.blocks[p], m);
      CutFrom(run, j, full.blocks[p], m);
    }
  }

  lemma CutBlock(v: StoreView, target: int, p: nat)
    requires p < |Truncated(v, target).blocks|
    ensures var w := Truncated(v, target);
            && w.stats == v.stats && p < |v.blocks| && Total(w.blocks[..p]) == Total(v.blocks[..p])
            && (w.blocks[p] == v.blocks[p] || exists m ::
                0 < m < |v.blocks[p].pcs| && w.blocks[p] == Cut(v.blocks[p], m))
  {
    hide Cut, Total;
    if target < Total(v.blocks) { TakeBlocks(v.blocks, target, p); }
  }

  lemma {:induction false} MarkOrigin(stamps: seq<Stamp>, total: nat, newest: bool, m: Mark) returns (s: Stamp)
    requires m in Marks(stamps, total, newest)
    ensures s in stamps && 0 <= s.index < total && m == (Place(s.index, total, newest), s.cycle)
  {
    s := stamps[0];
    if !(0 <= s.index < total && m == (Place(s.index, total, newest), s.cycle)) {
      s := MarkOrigin(stamps[1..], total, newest, m);
    }
  }

  /** A stamp of a block that a slice's window became. */
  lemma SliceStamp(run: Run, j: nat, b: TraceBlock, k: nat) returns (s: Stamp)
    requires FromSlice(run, j, b) && k < |b.stampAt|
    ensures var total := |run.Window(j)|;
            && s in run.StashOf(j).stamps && 0 <= s.index < total && s.cycle == b.cycles[k]
            && b.stampAt[k] == Place(s.index, total, ReadNewest(run.StashOf(j))) < |b.pcs|
            && b.pcs[b.stampAt[k]] == run.Window(j)[s.index]
  {
    hide Marks, MarksBelow, run.Window, run.LostIn, run.At, Ascending, Orientation;
    var total, newest := |run.Window(j)|, ReadNewest(run.StashOf(j));
    var marks := Marks(run.StashOf(j).stamps, total, newest);
    var m := BlockMarks(b)[k];
    assert m in multiset(BlockMarks(b));
    BelowCounts(marks, |b.pcs|, m);
    assert m in multiset(MarksBelow(marks, |b.pcs|));
    s := MarkOrigin(run.StashOf(j).stamps, total, newest, m);
    assert b.pcs[b.stampAt[k]] == run.Window(j)[Place(b.stampAt[k], total, newest)];
  }

  /** In a capture of truthful windows every retained pair of counter and cycle is
      one the probe reported: the cycle of a stamp on the very window item that
      the counter is, which stood as far from the end of its slice as the stamp's
      index says. */
  lemma RetainedStamp(run: Run, capacity: nat, p: nat, k: nat) returns (j: nat, s: Stamp)
    requires p < |run.Outcome(Fresh(capacity)).blocks| && k < |run.Outcome(Fresh(capacity)).blocks[p].stampAt|
    requires forall i :: 0 <= i < run.Turns() ==> Truthful(run.StashOf(i).stamps)
    ensures var v := run.Outcome(Fresh(capacity));
            var b := v.blocks[p];
            && j < run.Turns() && run.timestamps && s in Returned(run.At(j).stamps, MAX_STRACE_ITEMS)
            && k < |b.cycles| && s.cycle == b.cycles[k]
            && b.stampAt[k] < |b.pcs| && 0 <= s.index < |run.Window(j)|
            && b.pcs[b.stampAt[k]] == run.Window(j)[s.index]
    ensures var v := run.Outcome(Fresh(capacity));
            var g := v.stats.droppedInstructions + Total(v.blocks[..p]) + v.blocks[p].stampAt[k];
            && g < run.Gathered(run.Turns())
            && TruePosition(run, run.Turns(), g) == |run.Stream(j + 1)| - 1 - s.index
  {
    hide *;
    j := CaptureFrom(run, capacity, p);
    var v := run.Outcome(Fresh(capacity));
    FromSays(run, j, v.blocks[p]);
    s := SliceStamp(run, j, v.blocks[p], k);
    NewestPlace(run, j, s.index);
    var g := run.Gathered(j) + v.blocks[p].stampAt[k];
    CountsStep(run, j);
    SlicePosition(run, j, g);
    GatheredRises(run, j + 1, run.Turns());
    SamePosition(run, j + 1, run.Turns(), g);
  }

  lemma FromSays(run: Run, j: nat, b: TraceBlock)
    requires FromSlice(run, j, b)
    ensures |b.cycles| == |b.stampAt| && |b.pcs| <= |run.Window(j)|
    ensures run.StashOf(j).stamps == if run.timestamps then Returned(run.At(j).stamps, MAX_STRACE_ITEMS) else []
  {
    hide Marks, MarksBelow, run.Window;
  }

  lemma NewestPlace(run: Run, j: nat, i: int)
    requires Truthful(run.StashOf(j).stamps)
    ensures Place(i, |run.Window(j)|, ReadNewest(run.StashOf(j))) == |run.Window(j)| - 1 - i
  {
    hide Truthful, run.Window;
    TruthfulOrientation(run.StashOf(j).stamps);
  }
}
