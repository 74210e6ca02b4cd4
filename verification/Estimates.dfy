/** Cycle counts between sparse stamps, and the inverse, in exact arithmetic. */
module Estimates {
  import opened Prelude
  import opened Bisect
  import opened Blocks
  import opened Arithmetic

  datatype CycleEstimate = CycleEstimate(cycle: int, exact: bool, span: int, block: nat, extrapolated: bool)

  /** An index that need not be whole: num / den. */
  datatype Ratio = Ratio(num: int, den: int)

  /** Division that truncates toward zero. */
  function TruncDiv(n: int, d: int): int
    requires d > 0
  {
    if n >= 0 then n / d else -((-n) / d)
  }

  /** The pair of stamps used for an offset, by its lower stamp. */
  function Segment(stamps: seq<nat>, offset: int): nat
    requires |stamps| >= 2
  {
    Min(Max(BisectLeft(stamps, offset) - 1, 0), |stamps| - 2)
  }

  /** The line through two stamps, truncated. */
  function Line(i0: int, c0: int, i1: int, c1: int, offset: int): int
    requires i0 < i1
  {
    TruncDiv(c0 * (i1 - i0) + (c1 - c0) * (offset - i0), i1 - i0)
  }

  function EstimateCycle(b: TraceBlock, offset: int, block: nat): Option<CycleEstimate>
    requires |b.cycles| == |b.stampAt|
  {
    var stamps := b.stampAt;
    if stamps == [] then None
    else
      var position := BisectLeft(stamps, offset);
      if position < |stamps| && stamps[position] == offset then
        Some(CycleEstimate(b.cycles[position], true, 0, block, false))
      else if |stamps| < 2 then None
      else
        var low := Segment(stamps, offset);
        var (i0, i1) := (stamps[low], stamps[low + 1]);
        if i1 - i0 <= 0 then None
        else
          Some(CycleEstimate(Line(i0, b.cycles[low], i1, b.cycles[low + 1], offset), false, i1 - i0, block,
                             !(i0 <= offset <= i1)))
  }

  /** Indices of the stamped blocks whose cycle range holds a cycle. */
  function Candidates(blocks: seq<TraceBlock>, cycle: int, from: nat): (r: seq<nat>)
    requires from <= |blocks|
    ensures forall i :: from <= i < |blocks| && InRange(blocks[i], cycle) ==> i in r
    ensures forall k :: 0 <= k < |r| ==> from <= r[k] < |blocks| && InRange(blocks[r[k]], cycle)
    ensures forall j, k :: 0 <= j < k < |r| ==> r[j] < r[k]
    decreases |blocks| - from
  {
    if from == |blocks| then []
    else
      var rest := Candidates(blocks, cycle, from + 1);
      if InRange(blocks[from], cycle) then [from] + rest else rest
  }

  predicate InRange(b: TraceBlock, cycle: int) {
    b.cycles != [] && b.cycles[0] <= cycle <= b.cycles[|b.cycles| - 1]
  }

  function IndexIn(b: TraceBlock, start: nat, cycle: int): Option<Ratio>
    requires |b.cycles| == |b.stampAt|
  {
    if |b.cycles| < 2 then None
    else
      var low := Min(Max(BisectRight(b.cycles, cycle) - 1, 0), |b.cycles| - 2);
      var c0: int := b.cycles[low];
      var c1: int := b.cycles[low + 1];
      var i0: int := b.stampAt[low];
      var i1: int := b.stampAt[low + 1];
      if c1 == c0 then Some(Ratio(start + i0, 1))
      else Some(Ratio((start + i0) * (c1 - c0) + (i1 - i0) * (cycle - c0), c1 - c0))
  }

  /** Stamp indices strictly ascend and cycles never fall. */
  ghost predicate WellStamped(b: TraceBlock) {
    |b.cycles| == |b.stampAt| && StrictlyAscending(b.stampAt) && Ascending(b.cycles)
  }

  // ----- arithmetic

  lemma TruncDivRises(n: int, m: int, d: int)
    requires n <= m && d > 0
    ensures TruncDiv(n, d) <= TruncDiv(m, d)
  {
    if n < 0 && m >= 0 {
      DivNonNegative(-n, d);
      DivNonNegative(m, d);
    } else if n >= 0 {
      DivRises(n, m, d);
    } else {
      DivRises(-m, -n, d);
    }
  }

  lemma DivNonNegative(n: int, d: int)
    requires n >= 0 && d > 0
    ensures n / d >= 0
  {
  }

  lemma TruncDivExact(c: int, d: int)
    requires c >= 0 && d > 0
    ensures TruncDiv(c * d, d) == c
  {
    MulRises(0, c, d);
    FloorBounds(c * d, d);
    LessByMul(c, c * d / d, d);
    assert (c + 1) * d == c * d + d;
    LessByMul(c * d / d, c, d);
  }

  lemma LineAtEnds(i0: int, c0: int, i1: int, c1: int)
    requires i0 < i1 && 0 <= c0 && 0 <= c1
    ensures Line(i0, c0, i1, c1, i0) == c0 && Line(i0, c0, i1, c1, i1) == c1
  {
    var s := i1 - i0;
    assert (c1 - c0) * (i0 - i0) == 0;
    TruncDivExact(c0, s);
    assert c0 * s + (c1 - c0) * s == c1 * s;
    TruncDivExact(c1, s);
  }

  lemma LineRises(i0: int, c0: int, i1: int, c1: int, a: int, b: int)
    requires i0 < i1 && c0 <= c1 && a <= b
    ensures Line(i0, c0, i1, c1, a) <= Line(i0, c0, i1, c1, b)
  {
    MulRises(a - i0, b - i0, c1 - c0);
    TruncDivRises(c0 * (i1 - i0) + (c1 - c0) * (a - i0), c0 * (i1 - i0) + (c1 - c0) * (b - i0), i1 - i0);
  }

  // ----- cycle estimates

  /** On a stamp the estimate is the stamp, and says it is exact. */
  lemma ExactAtStamps(b: TraceBlock, k: nat, block: nat)
    requires WellStamped(b) && k < |b.stampAt|
    ensures EstimateCycle(b, b.stampAt[k], block) == Some(CycleEstimate(b.cycles[k], true, 0, block, false))
  {
    BisectLeftIs(b.stampAt, b.stampAt[k], k);
  }

  ghost predicate Stamped2(b: TraceBlock) { WellStamped(b) && |b.stampAt| >= 2 }

  function SegmentLine(b: TraceBlock, low: nat, offset: int): int
    requires |b.cycles| == |b.stampAt| && low + 1 < |b.stampAt| && b.stampAt[low] < b.stampAt[low + 1]
  {
    Line(b.stampAt[low], b.cycles[low], b.stampAt[low + 1], b.cycles[low + 1], offset)
  }

  lemma SegmentBrackets(b: TraceBlock, offset: int)
    requires Stamped2(b)
    ensures var low := Segment(b.stampAt, offset);
            && low + 1 < |b.stampAt| && b.stampAt[low] < b.stampAt[low + 1]
            && (low > 0 ==> b.stampAt[low] < offset)
            && (low + 2 < |b.stampAt| ==> offset <= b.stampAt[low + 1])
  {
  }

  /** Exact or not, the estimate lies on the line of its segment. */
  lemma EstimateIsLine(b: TraceBlock, offset: int, block: nat)
    requires Stamped2(b)
    ensures var low := Segment(b.stampAt, offset);
            && low + 1 < |b.stampAt| && b.stampAt[low] < b.stampAt[low + 1]
            && EstimateCycle(b, offset, block).Some?
            && EstimateCycle(b, offset, block).value.cycle == SegmentLine(b, low, offset)
  {
    SegmentBrackets(b, offset);
    var low := Segment(b.stampAt, offset);
    LineAtEnds(b.stampAt[low], b.cycles[low], b.stampAt[low + 1], b.cycles[low + 1]);
  }

  lemma BracketedBySegment(b: TraceBlock, offset: int)
    requires Stamped2(b)
    ensures var low := Segment(b.stampAt, offset);
            && low + 1 < |b.stampAt| && b.stampAt[low] < b.stampAt[low + 1]
            && (b.stampAt[low] <= offset ==> b.cycles[low] <= SegmentLine(b, low, offset))
            && (offset <= b.stampAt[low + 1] ==> SegmentLine(b, low, offset) <= b.cycles[low + 1])
  {
    SegmentBrackets(b, offset);
    var low := Segment(b.stampAt, offset);
    var (i0, i1, c0, c1) := (b.stampAt[low], b.stampAt[low + 1], b.cycles[low], b.cycles[low + 1]);
    LineAtEnds(i0, c0, i1, c1);
    if i0 <= offset { LineRises(i0, c0, i1, c1, i0, offset); }
    if offset <= i1 { LineRises(i0, c0, i1, c1, offset, i1); }
  }

  lemma SegmentsRise(b: TraceBlock, x: int, y: int)
    requires Stamped2(b) && x <= y
    ensures Segment(b.stampAt, x) <= Segment(b.stampAt, y)
  {
    BisectLeftRises(b.stampAt, x, y);
  }

  /** Over the whole block, extrapolation included, a later instruction never
      gets an earlier cycle. */
  lemma EstimatesRise(b: TraceBlock, x: int, y: int, block: nat)
    requires Stamped2(b) && x <= y
    ensures EstimateCycle(b, x, block).Some? && EstimateCycle(b, y, block).Some?
    ensures EstimateCycle(b, x, block).value.cycle <= EstimateCycle(b, y, block).value.cycle
  {
    EstimateIsLine(b, x, block);
    EstimateIsLine(b, y, block);
    var p, q := Segment(b.stampAt, x), Segment(b.stampAt, y);
    SegmentsRise(b, x, y);
    if p == q {
      LineRises(b.stampAt[p], b.cycles[p], b.stampAt[p + 1], b.cycles[p + 1], x, y);
    } else {
      SegmentBrackets(b, x);
      SegmentBrackets(b, y);
      BracketedBySegment(b, x);
      BracketedBySegment(b, y);
      assert b.cycles[p + 1] <= b.cycles[q];
    }
  }

  /** Between two stamps the estimate lies between their cycles. */
  lemma EstimateBracketed(b: TraceBlock, k: nat, offset: int, block: nat)
    requires Stamped2(b) && k + 1 < |b.stampAt| && b.stampAt[k] <= offset <= b.stampAt[k + 1]
    ensures EstimateCycle(b, offset, block).Some?
    ensures b.cycles[k] <= EstimateCycle(b, offset, block).value.cycle <= b.cycles[k + 1]
  {
    ExactAtStamps(b, k, block);
    ExactAtStamps(b, k + 1, block);
    EstimatesRise(b, b.stampAt[k], offset, block);
    EstimatesRise(b, offset, b.stampAt[k + 1], block);
  }

  /** A block answers unless it has no stamps, or one that is not the one asked for. */
  lemma AnswersIff(b: TraceBlock, offset: int, block: nat)
    requires WellStamped(b)
    ensures EstimateCycle(b, offset, block).None? <==>
              b.stampAt == [] || (|b.stampAt| == 1 && offset != b.stampAt[0])
  {
    if |b.stampAt| >= 2 { SegmentBrackets(b, offset); }
  }

  /** An answer says truly what it rests on: exact exactly on a stamp,
      extrapolated exactly outside the stamped range, and otherwise as wide as the
      gap between the two stamps on either side. */
  lemma EstimateSays(b: TraceBlock, offset: int, block: nat)
    requires Stamped2(b)
    ensures EstimateCycle(b, offset, block).Some?
    ensures var e := EstimateCycle(b, offset, block).value;
            && e.block == block
            && (e.exact <==> exists k :: 0 <= k < |b.stampAt| && b.stampAt[k] == offset)
            && (e.extrapolated <==> offset < b.stampAt[0] || b.stampAt[|b.stampAt| - 1] < offset)
            && (!e.exact && !e.extrapolated ==>
                  exists k :: 0 <= k < |b.stampAt| - 1 && b.stampAt[k] < offset < b.stampAt[k + 1]
                              && e.span == b.stampAt[k + 1] - b.stampAt[k])
  {
    hide Line;
    SegmentBrackets(b, offset);
    var position, low := BisectLeft(b.stampAt, offset), Segment(b.stampAt, offset);
    var n := |b.stampAt|;
    assert b.stampAt[0] <= b.stampAt[low] && b.stampAt[low + 1] <= b.stampAt[n - 1];
    if k :| 0 <= k < n && b.stampAt[k] == offset {
      assert position == k;
    }
  }

  /** c is n / d, truncated toward zero. */
  predicate Truncates(c: int, n: int, d: int) {
    if n >= 0 then c * d <= n < (c + 1) * d else (c - 1) * d < n <= c * d
  }

  lemma TruncDivTruncates(n: int, d: int)
    requires d > 0
    ensures Truncates(TruncDiv(n, d), n, d)
  {
    if n >= 0 {
      FloorBounds(n, d);
    } else {
      FloorBounds(-n, d);
      var q := (-n) / d;
      assert (-q - 1) * d == -((q + 1) * d) && (-q) * d == -(q * d);
    }
  }

  /** Off the stamps an estimate lies on the line through two neighbouring ones:
      those around the offset, or, before all stamps and behind them, the first
      two and the last two, however far away. */
  lemma EstimateOnLine(b: TraceBlock, offset: int, block: nat)
    requires Stamped2(b) && forall k :: 0 <= k < |b.stampAt| ==> b.stampAt[k] != offset
    ensures EstimateCycle(b, offset, block).Some?
    ensures exists k ::
              && 0 <= k < |b.stampAt| - 1
              && (b.stampAt[k] < offset || k == 0) && (offset < b.stampAt[k + 1] || k == |b.stampAt| - 2)
              && Truncates(EstimateCycle(b, offset, block).value.cycle,
                           b.cycles[k] * (b.stampAt[k + 1] - b.stampAt[k])
                           + (b.cycles[k + 1] - b.cycles[k]) * (offset - b.stampAt[k]),
                           b.stampAt[k + 1] - b.stampAt[k])
  {
    hide TruncDiv, Truncates;
    var k := Segment(b.stampAt, offset);
    var (i0, i1, c0, c1) := (b.stampAt[k], b.stampAt[k + 1], b.cycles[k], b.cycles[k + 1]);
    TruncDivTruncates(c0 * (i1 - i0) + (c1 - c0) * (offset - i0), i1 - i0);
    assert (i0 < offset || k == 0) && (offset < i1 || k == |b.stampAt| - 2);
  }

  // ----- and back

  lemma CycleSegment(b: TraceBlock, low: nat, cycle: int)
    requires Stamped2(b) && StrictlyAscending(b.cycles) && low + 1 < |b.cycles|
    requires b.cycles[low] <= cycle
             && (cycle < b.cycles[low + 1] || (low + 2 == |b.cycles| && cycle == b.cycles[low + 1]))
    ensures Min(Max(BisectRight(b.cycles, cycle) - 1, 0), |b.cycles| - 2) == low
  {
    if cycle < b.cycles[low + 1] {
      BisectRightIs(b.cycles, cycle, low + 1);
    } else {
      BisectRightIs(b.cycles, cycle, low + 2);
    }
  }

  lemma IndexBySegment(b: TraceBlock, start: nat, low: nat, cycle: int)
    requires Stamped2(b) && StrictlyAscending(b.cycles) && low + 1 < |b.cycles|
    requires b.cycles[low] <= cycle
             && (cycle < b.cycles[low + 1] || (low + 2 == |b.cycles| && cycle == b.cycles[low + 1]))
    ensures var d := b.cycles[low + 1] - b.cycles[low];
            && d > 0
            && IndexIn(b, start, cycle) ==
                 Some(Ratio((start + b.stampAt[low]) * d
                            + (b.stampAt[low + 1] - b.stampAt[low]) * (cycle - b.cycles[low]), d))
  {
    hide BisectRight, Ascending, Min, Max;
    CycleSegment(b, low, cycle);
    assert b.cycles[low] < b.cycles[low + 1];
  }

  lemma StampCycleIndex(b: TraceBlock, start: nat, k: nat)
    requires Stamped2(b) && StrictlyAscending(b.cycles) && k < |b.cycles|
    ensures IndexIn(b, start, b.cycles[k]).Some?
    ensures var r := IndexIn(b, start, b.cycles[k]).value; r.den > 0 && r.num == (start + b.stampAt[k]) * r.den
  {
    hide IndexIn, Ascending;
    if k + 1 < |b.cycles| {
      IndexBySegment(b, start, k, b.cycles[k]);
    } else {
      var low := k - 1;
      IndexBySegment(b, start, low, b.cycles[k]);
      Factor(start + b.stampAt[low], b.stampAt[k] - b.stampAt[low], b.cycles[k] - b.cycles[low]);
    }
  }

  /** From an index inside the stamped range to its cycle and back: never past
      the index, and short of it by less than one cycle's worth of instructions,
      (i1 - i0) / (c1 - c0) of its segment. On a stamp it is exact. */
  lemma IndexOfEstimate(b: TraceBlock, start: nat, offset: nat)
    requires Stamped2(b) && StrictlyAscending(b.cycles)
    requires b.stampAt[0] <= offset <= b.stampAt[|b.stampAt| - 1]
    ensures EstimateCycle(b, offset, 0).Some?
    ensures IndexIn(b, start, EstimateCycle(b, offset, 0).value.cycle).Some?
    ensures var r := IndexIn(b, start, EstimateCycle(b, offset, 0).value.cycle).value;
            var low := Segment(b.stampAt, offset);
            && low + 1 < |b.stampAt| && r.den > 0
            && (EstimateCycle(b, offset, 0).value.exact ==> r.num == (start + offset) * r.den)
            && (!EstimateCycle(b, offset, 0).value.exact ==>
                  r.den == b.cycles[low + 1] - b.cycles[low]
                  && (start + offset) * r.den - (b.stampAt[low + 1] - b.stampAt[low]) < r.num
                     <= (start + offset) * r.den)
  {
    hide IndexIn, SegmentLine, Line;
    EstimateIsLine(b, offset, 0);
    SegmentBrackets(b, offset);
    var low := Segment(b.stampAt, offset);
    var position := BisectLeft(b.stampAt, offset);
    if b.stampAt[position] == offset {
      StampCycleIndex(b, start, position);
    } else {
      assert b.stampAt[low] < offset < b.stampAt[low + 1];
      IndexInside(b, start, low, offset);
    }
  }

  lemma IndexInside(b: TraceBlock, start: nat, low: nat, offset: nat)
    requires Stamped2(b) && StrictlyAscending(b.cycles) && low + 1 < |b.stampAt|
    requires b.stampAt[low] < offset < b.stampAt[low + 1]
    ensures IndexIn(b, start, SegmentLine(b, low, offset)).Some?
    ensures var r := IndexIn(b, start, SegmentLine(b, low, offset)).value;
            && r.den == b.cycles[low + 1] - b.cycles[low] > 0
            && (start + offset) * r.den - (b.stampAt[low + 1] - b.stampAt[low]) < r.num <= (start + offset) * r.den
  {
    var (i0, i1, c0, c1) := (b.stampAt[low], b.stampAt[low + 1], b.cycles[low], b.cycles[low + 1]);
    var (s, d, t) := (i1 - i0, c1 - c0, offset - i0);
    var c := SegmentLine(b, low, offset);
    InsideArithmetic(c0, d, s, t, c);
    IndexBySegment(b, start, low, c);
    Factor(start + i0, t, d);
  }

  lemma InsideArithmetic(c0: nat, d: int, s: int, t: int, c: int)
    requires d > 0 && 0 < t < s && c == TruncDiv(c0 * s + d * t, s)
    ensures c0 <= c < c0 + d
    ensures t * d - s < s * (c - c0) <= t * d
  {
    MulRises(0, c0, s);
    MulRises(0, t, d);
    FloorBounds(c0 * s + d * t, s);
    LessByMul(c0, c, s);
    MulRises(t + 1, s, d);
    Factor(c0, d, s);
    Factor(t, 1, d);
    LessByMul(c, c0 + d - 1, s);
    assert s * (c - c0) == c * s - c0 * s;
    Factor(c, 1, s);
  }

  /** Off the stamps as on them, an index lies on the line through two neighbouring
      ones: those around the cycle, or, before all and behind them, the first two
      and the last two. Where those carry one cycle it is the index of the first. */
  lemma IndexOnLine(b: TraceBlock, start: nat, cycle: int)
    requires Stamped2(b)
    ensures IndexIn(b, start, cycle).Some?
    ensures exists k ::
              && 0 <= k < |b.cycles| - 1
              && (b.cycles[k] <= cycle || k == 0) && (cycle < b.cycles[k + 1] || k == |b.cycles| - 2)
              && OnIndexLine(b, start, cycle, k, IndexIn(b, start, cycle).value)
  {
    var k := Min(Max(BisectRight(b.cycles, cycle) - 1, 0), |b.cycles| - 2);
    assert (b.cycles[k] <= cycle || k == 0) && (cycle < b.cycles[k + 1] || k == |b.cycles| - 2);
    assert OnIndexLine(b, start, cycle, k, IndexIn(b, start, cycle).value);
  }

  predicate OnIndexLine(b: TraceBlock, start: nat, cycle: int, k: nat, r: Ratio)
    requires |b.cycles| == |b.stampAt| && k + 1 < |b.cycles|
  {
    var d := b.cycles[k + 1] as int - b.cycles[k];
    if d == 0 then r == Ratio(start + b.stampAt[k], 1)
    else
      && r.den == d
      && r.num == (start + b.stampAt[k]) * d + (b.stampAt[k + 1] as int - b.stampAt[k]) * (cycle - b.cycles[k])
  }

  // ----- in a store

  ghost predicate Parallel(blocks: seq<TraceBlock>) {
    forall i :: 0 <= i < |blocks| ==> |blocks[i].cycles| == |blocks[i].stampAt|
  }

  /** A negative index counts from the end. */
  function FromEnd(blocks: seq<TraceBlock>, index: int): int { if index < 0 then index + Total(blocks) else index }

  predicate InStore(blocks: seq<TraceBlock>, index: int) { 0 <= FromEnd(blocks, index) < Total(blocks) }

  function BlockOfIndex(blocks: seq<TraceBlock>, index: int): (p: nat)
    requires InStore(blocks, index)
    ensures p < |blocks| && p < |Starts(blocks, 0)|
    ensures 0 <= FromEnd(blocks, index) - Starts(blocks, 0)[p] < |blocks[p].pcs|
  {
    LocateIs(blocks, FromEnd(blocks, index));
    BisectRight(Starts(blocks, 0), FromEnd(blocks, index)) - 1
  }

  /** The block is found first and only its own stamps are asked. Where the index
      counted from the end, so does the offset that is asked for. */
  function StoreCycle(blocks: seq<TraceBlock>, index: int): Result<Option<CycleEstimate>, string>
    requires Parallel(blocks)
  {
    if !InStore(blocks, index) then Err("trace index out of range")
    else
      var p := BlockOfIndex(blocks, index);
      Ok(EstimateCycle(blocks[p], index - Starts(blocks, 0)[p], p))
  }

  function StoreIndex(blocks: seq<TraceBlock>, cycle: int, block: Option<nat>): Option<Ratio>
    requires Parallel(blocks) && (block.Some? ==> block.value < |blocks|)
  {
    match block
    case Some(i) => IndexIn(blocks[i], Starts(blocks, 0)[i], cycle)
    case None =>
      var candidates := Candidates(blocks, cycle, 0);
      if |candidates| != 1 then None
      else
        IndexIn(blocks[candidates[0]], Starts(blocks, 0)[candidates[0]], cycle)
  }

  lemma {:induction false} SameStarts(xs: seq<TraceBlock>, ys: seq<TraceBlock>, offset: nat)
    requires |xs| == |ys| && forall i :: 0 <= i < |xs| ==> |xs[i].pcs| == |ys[i].pcs|
    ensures Starts(xs, offset) == Starts(ys, offset) && Total(xs) == Total(ys)
  {
    if xs != [] { SameStarts(xs[1..], ys[1..], offset + |xs[0].pcs|); }
  }

  lemma SameStampsSameEstimate(b: TraceBlock, c: TraceBlock, offset: int, block: nat)
    requires |b.cycles| == |b.stampAt| && b.cycles == c.cycles && b.stampAt == c.stampAt
    ensures EstimateCycle(b, offset, block) == EstimateCycle(c, offset, block)
  {
    hide Line, BisectLeft, Segment;
  }

  /** Nothing is interpolated across a seam: however the stamps of every other
      block change, an index of either sign keeps its estimate. */
  lemma SeamsDoNotLeak(blocks: seq<TraceBlock>, others: seq<TraceBlock>, index: int)
    requires Parallel(blocks) && Parallel(others)
    requires |blocks| == |others| && forall i :: 0 <= i < |blocks| ==> |blocks[i].pcs| == |others[i].pcs|
    requires InStore(blocks, index) ==>
               var p := BlockOfIndex(blocks, index);
               blocks[p].cycles == others[p].cycles && blocks[p].stampAt == others[p].stampAt
    ensures StoreCycle(others, index) == StoreCycle(blocks, index)
  {
    hide EstimateCycle, BisectRight, Starts, Total;
    SameStarts(blocks, others, 0);
    if InStore(blocks, index) {
      var p := BlockOfIndex(blocks, index);
      SameStampsSameEstimate(blocks[p], others[p], index - Starts(blocks, 0)[p], p);
    }
  }

  // ----- negative indices

  /** Outside the stamped range, on either side of it, the line through the stamps
      nearest gives one answer at offset and length before it. */
  predicate OutsideAlike(b: TraceBlock, offset: nat, length: nat)
    requires |b.cycles| == |b.stampAt| >= 2 && b.stampAt[0] < b.stampAt[1]
  {
    var n := |b.stampAt|;
    || (offset < b.stampAt[0] && SegmentLine(b, 0, offset - length) == SegmentLine(b, 0, offset))
    || (offset > b.stampAt[n - 1] && b.cycles[0] == b.cycles[n - 1]
        && b.stampAt[1] + b.stampAt[n - 2] == b.stampAt[n - 1] + b.stampAt[0])
  }

  lemma FirstSegment(b: TraceBlock, offset: int, block: nat)
    requires Stamped2(b) && offset < b.stampAt[0]
    ensures EstimateCycle(b, offset, block)
         == Some(CycleEstimate(SegmentLine(b, 0, offset), false, b.stampAt[1] - b.stampAt[0], block, true))
  {
    hide Line;
    BisectLeftIs(b.stampAt, offset, 0);
  }

  lemma LastSegment(b: TraceBlock, offset: int, block: nat)
    requires Stamped2(b) && offset > b.stampAt[|b.stampAt| - 1]
    ensures var n := |b.stampAt|;
            EstimateCycle(b, offset, block)
            == Some(CycleEstimate(SegmentLine(b, n - 2, offset), false, b.stampAt[n - 1] - b.stampAt[n - 2], block,
                                  true))
  {
    hide Line;
    BisectLeftIs(b.stampAt, offset, |b.stampAt|);
  }

  lemma WholeQuotient(c: nat, d: int)
    requires d > 0
    ensures TruncDiv(c * d, d) == c
  {
    FloorBounds(c * d, d);
    LessByMul(c, c * d / d, d);
    LessByMul(c * d / d, c, d);
  }

  lemma FlatLine(b: TraceBlock, low: nat, offset: int)
    requires Stamped2(b) && low + 1 < |b.stampAt| && b.cycles[low] == b.cycles[low + 1]
    ensures SegmentLine(b, low, offset) == b.cycles[low]
  {
    hide TruncDiv;
    var d := b.stampAt[low + 1] - b.stampAt[low];
    assert 0 * (offset - b.stampAt[low]) == 0;
    WholeQuotient(b.cycles[low], d);
  }

  /** An estimate asked for a whole stream too early is the right one only outside
      the stamps, and there only where the line through them does not tell. */
  lemma EarlierAlike(b: TraceBlock, offset: nat, length: nat, block: nat)
    requires Stamped2(b) && offset < length
    ensures EstimateCycle(b, offset - length, block) == EstimateCycle(b, offset, block)
            <==> OutsideAlike(b, offset, length)
  {
    hide Line, EstimateCycle, SegmentLine;
    var n := |b.stampAt|;
    FirstSegment(b, offset - length, block);
    if offset < b.stampAt[0] {
      FirstSegment(b, offset, block);
    } else if offset > b.stampAt[n - 1] {
      LastSegment(b, offset, block);
      if b.cycles[0] == b.cycles[n - 1] {
        FlatLine(b, 0, offset - length);
        FlatLine(b, n - 2, offset);
      } else {
        EstimatesRise(b, offset - length, b.stampAt[0], block);
        ExactAtStamps(b, 0, block);
        ExactAtStamps(b, n - 1, block);
        EstimatesRise(b, b.stampAt[n - 1], offset, block);
      }
    } else {
      EstimateSays(b, offset, block);
    }
  }

  /** When a negative index gets the estimate of the instruction it names: the
      block has no stamps, or one on another instruction, or the instruction lies
      outside the stamps where their line does not tell. */
  lemma NegativeIndexIff(blocks: seq<TraceBlock>, index: int)
    requires Parallel(blocks) && index < 0 && InStore(blocks, index) && WellStamped(blocks[BlockOfIndex(blocks, index)])
    ensures var p := BlockOfIndex(blocks, index);
            var b, offset := blocks[p], index + Total(blocks) - Starts(blocks, 0)[p];
            StoreCycle(blocks, index) == StoreCycle(blocks, index + Total(blocks)) <==>
              if |b.stampAt| < 2 then offset !in b.stampAt else OutsideAlike(b, offset, Total(blocks))
  {
    hide *;
    SameBlock(blocks, index);
    var p := BlockOfIndex(blocks, index);
    BlockNegativeIff(blocks[p], index + Total(blocks) - Starts(blocks, 0)[p], Total(blocks), p);
  }

  lemma SameBlock(blocks: seq<TraceBlock>, index: int)
    requires Parallel(blocks) && index < 0 && InStore(blocks, index)
    ensures InStore(blocks, index + Total(blocks))
    ensures var p := BlockOfIndex(blocks, index);
            && 0 <= index + Total(blocks) - Starts(blocks, 0)[p] < Total(blocks)
            && |blocks[p].cycles| == |blocks[p].stampAt|
            && StoreCycle(blocks, index) == Ok(EstimateCycle(blocks[p], index - Starts(blocks, 0)[p], p))
            && StoreCycle(blocks, index + Total(blocks))
               == Ok(EstimateCycle(blocks[p], index + Total(blocks) - Starts(blocks, 0)[p], p))
  {
    hide EstimateCycle, Starts, Total, BisectRight;
  }

  lemma BlockNegativeIff(b: TraceBlock, offset: nat, length: nat, block: nat)
    requires WellStamped(b) && offset < length
    ensures EstimateCycle(b, offset - length, block) == EstimateCycle(b, offset, block) <==>
              if |b.stampAt| < 2 then offset !in b.stampAt else OutsideAlike(b, offset, length)
  {
    hide EstimateCycle, OutsideAlike;
    if |b.stampAt| >= 2 {
      EarlierAlike(b, offset, length, block);
    } else {
      FewStamps(b, offset, offset - length, block);
    }
  }

  lemma FewStamps(b: TraceBlock, offset: nat, earlier: int, block: nat)
    requires WellStamped(b) && |b.stampAt| < 2 && earlier < 0
    ensures EstimateCycle(b, earlier, block) == None
    ensures EstimateCycle(b, offset, block).Some? <==> offset in b.stampAt
  {
    AnswersIff(b, offset, block);
    AnswersIff(b, earlier, block);
  }

  /** For the last of three instructions, stamped at both ends, it does not. */
  lemma NegativeIndexShows(blocks: seq<TraceBlock>)
    requires blocks == [TraceBlock([1, 2, 3], 0, None, None, [0, 10], [0, 2])]
    ensures Parallel(blocks)
    ensures StoreCycle(blocks, -1) == Ok(Some(CycleEstimate(-5, false, 2, 0, true)))
    ensures StoreCycle(blocks, 2) == Ok(Some(CycleEstimate(10, true, 0, 0, false)))
  {
    hide Line, EstimateCycle;
    OneBlock(blocks[0]);
    assert Starts(blocks, 0) == [0] by { assert Starts(blocks[1..], 3) == []; }
    BisectRightIs([0], 2, 1);
    FirstSegment(blocks[0], -1, 0);
    assert SegmentLine(blocks[0], 0, -1) == -5 by { MinusFive(); }
    ExactAtStamps(blocks[0], 1, 0);
  }

  lemma MinusFive()
    ensures Line(0, 0, 2, 10, -1) == -5
  {
  }

  /** A cycle is turned into an index only where exactly one stamped block's
      range holds it, and then by that block. */
  lemma OnlyOneBlockAnswers(blocks: seq<TraceBlock>, cycle: int, i: nat)
    requires Parallel(blocks) && i < |blocks| && InRange(blocks[i], cycle)
    ensures (forall j :: 0 <= j < |blocks| && j != i ==> !InRange(blocks[j], cycle)) ==>
              StoreIndex(blocks, cycle, None) == StoreIndex(blocks, cycle, Some(i))
    ensures (exists j :: 0 <= j < |blocks| && j != i && InRange(blocks[j], cycle)) ==>
              StoreIndex(blocks, cycle, None) == None
  {
    var c := Candidates(blocks, cycle, 0);
    assert i in c;
    assert 0 < |c| - 1 ==> c[0] < c[|c| - 1];
    if forall j :: 0 <= j < |blocks| && j != i ==> !InRange(blocks[j], cycle) {
      assert forall k :: 0 <= k < |c| ==> c[k] == i;
    } else {
      var j :| 0 <= j < |blocks| && j != i && InRange(blocks[j], cycle);
      assert j in c;
    }
  }

  lemma AnswerHasBlock(blocks: seq<TraceBlock>, cycle: int)
    requires Parallel(blocks) && StoreIndex(blocks, cycle, None).Some?
    ensures exists j :: 0 <= j < |blocks| && InRange(blocks[j], cycle)
  {
    assert InRange(blocks[Candidates(blocks, cycle, 0)[0]], cycle);
  }

  // ----- across seams

  function Stamped(blocks: seq<TraceBlock>): (r: seq<TraceBlock>)
    ensures forall i :: 0 <= i < |r| ==> r[i].cycles != []
  {
    if blocks == [] then []
    else (if blocks[0].cycles != [] then [blocks[0]] else []) + Stamped(blocks[1..])
  }

  predicate SeamsForward(stamped: seq<TraceBlock>)
    requires forall i :: 0 <= i < |stamped| ==> stamped[i].cycles != []
  {
    forall i :: 0 <= i < |stamped| - 1 ==> stamped[i].cycles[|stamped[i].cycles| - 1] <= stamped[i + 1].cycles[0]
  }

  /** Whether cycles run forward across seams; unknown below two stamped blocks. */
  function CyclesContinuous(blocks: seq<TraceBlock>): Option<bool> {
    if |Stamped(blocks)| < 2 then None else Some(SeamsForward(Stamped(blocks)))
  }

  /** Every cycle stamp of a store, oldest block first. */
  function AllCycles(blocks: seq<TraceBlock>): seq<nat> {
    if blocks == [] then [] else blocks[0].cycles + AllCycles(blocks[1..])
  }

  lemma {:induction false} OnlyStampedCount(blocks: seq<TraceBlock>)
    ensures AllCycles(Stamped(blocks)) == AllCycles(blocks)
  {
    if blocks != [] {
      OnlyStampedCount(blocks[1..]);
      var rest := Stamped(blocks[1..]);
      assert Stamped(blocks) == if blocks[0].cycles != [] then [blocks[0]] + rest else rest;
    }
  }

  lemma AscendingJoin(xs: seq<nat>, ys: seq<nat>)
    requires xs != [] && ys != []
    ensures Ascending(xs + ys) <==> Ascending(xs) && Ascending(ys) && xs[|xs| - 1] <= ys[0]
  {
    var all := xs + ys;
    if Ascending(all) {
      forall i, j | 0 <= i < j < |ys| ensures ys[i] <= ys[j] { assert all[|xs| + i] <= all[|xs| + j]; }
      forall i, j | 0 <= i < j < |xs| ensures xs[i] <= xs[j] { assert all[i] <= all[j]; }
      assert all[|xs| - 1] <= all[|xs|];
    }
  }

  lemma {:induction false} SeamsJoin(stamped: seq<TraceBlock>)
    requires stamped != [] && forall i :: 0 <= i < |stamped| ==> stamped[i].cycles != [] && Ascending(stamped[i].cycles)
    ensures AllCycles(stamped) != [] && AllCycles(stamped)[0] == stamped[0].cycles[0]
    ensures Ascending(AllCycles(stamped)) <==> SeamsForward(stamped)
  {
    hide Ascending;
    var rest := stamped[1..];
    if rest == [] {
      assert AllCycles(stamped) == stamped[0].cycles + AllCycles(rest) == stamped[0].cycles;
    } else {
      SeamsJoin(rest);
      AscendingJoin(stamped[0].cycles, AllCycles(rest));
      assert forall i :: 0 <= i < |rest| ==> rest[i] == stamped[i + 1];
      if SeamsForward(rest) && stamped[0].cycles[|stamped[0].cycles| - 1] <= rest[0].cycles[0] {
        forall i | 0 <= i < |stamped| - 1
          ensures stamped[i].cycles[|stamped[i].cycles| - 1] <= stamped[i + 1].cycles[0]
        {
          if i > 0 { assert rest[i - 1].cycles[|rest[i - 1].cycles| - 1] <= rest[i].cycles[0]; }
        }
      }
    }
  }

  lemma {:induction false} StampedAscend(blocks: seq<TraceBlock>)
    requires forall i :: 0 <= i < |blocks| ==> Ascending(blocks[i].cycles)
    ensures forall i :: 0 <= i < |Stamped(blocks)| ==> Ascending(Stamped(blocks)[i].cycles)
  {
    hide Ascending;
    if blocks != [] { StampedAscend(blocks[1..]); }
  }

  /** Comparing only the two stamps at each seam decides the whole store: cycles
      are called continuous exactly when no stamp anywhere is below an earlier
      one, unstamped blocks in between or not. */
  lemma ContinuousIff(blocks: seq<TraceBlock>)
    requires forall i :: 0 <= i < |blocks| ==> Ascending(blocks[i].cycles)
    requires |Stamped(blocks)| >= 2
    ensures CyclesContinuous(blocks) == Some(true) <==> Ascending(AllCycles(blocks))
  {
    hide Ascending;
    StampedAscend(blocks);
    OnlyStampedCount(blocks);
    SeamsJoin(Stamped(blocks));
  }
}
