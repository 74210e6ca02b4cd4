/** A view of a stream as rows: grouped into runs, indexed and iterated. */
module Rows {
  import opened Prelude
  import opened Resolved
  import opened Elf
  import opened SpanCache
  import opened Stretches
  import opened Symbols

  /** Trace addresses: even, and below the open bound. */
  ghost predicate Traced(addresses: seq<nat>) {
    forall i :: 0 <= i < |addresses| ==> addresses[i] % 2 == 0 && addresses[i] < ADDRESS_MAX
  }

  predicate Inside(span: Span, address: nat) { span.start <= address < span.end }

  /** Where symbolization of an image can change. */
  ghost function ImageCuts(image: Image): nat -> bool { Cuts(image.symbols, image.rows) }

  /** A run is not empty, and its span is the stretch around its first address and
      answers for each of its addresses. */
  ghost predicate RunOk(image: Image, addresses: seq<nat>, r: SpanRun) {
    && r.startIndex < r.endIndex <= |addresses|
    && Stretch(ImageCuts(image), addresses[r.startIndex], r.span.start, r.span.end)
    && forall i :: r.startIndex <= i < r.endIndex ==> Truthful(image, r.span, addresses[i])
  }

  /** One run begins where the one before ends, at an address outside its span. */
  ghost predicate Follows(addresses: seq<nat>, a: SpanRun, b: SpanRun) {
    && a.endIndex == b.startIndex < |addresses| && !Inside(a.span, addresses[b.startIndex])
  }

  /** The runs cover the first n addresses exactly, in order. */
  ghost predicate Partition(image: Image, addresses: seq<nat>, runs: seq<SpanRun>, n: nat) {
    && (forall k :: 0 <= k < |runs| ==> RunOk(image, addresses, runs[k]))
    && (forall k :: 0 <= k < |runs| - 1 ==> Follows(addresses, runs[k], runs[k + 1]))
    && (runs == [] ==> n == 0)
    && (runs != [] ==> runs[0].startIndex == 0 && runs[|runs| - 1].endIndex == n)
  }

  lemma AddRun(image: Image, addresses: seq<nat>, runs: seq<SpanRun>, r: SpanRun)
    requires Partition(image, addresses, runs, r.startIndex) && RunOk(image, addresses, r)
    requires runs != [] ==> Follows(addresses, runs[|runs| - 1], r)
    ensures Partition(image, addresses, runs + [r], r.endIndex)
  {
  }

  /** The run under way: it began outside the span of the last finished run, and
      everything since lies in its span. */
  ghost predicate Running(image: Image, addresses: seq<nat>, runs: seq<SpanRun>, span: Span, runStart: nat,
                          index: nat)
  {
    && RunOk(image, addresses, SpanRun(runStart, index, span))
    && Partition(image, addresses, runs, runStart)
    && (runs != [] ==> Follows(addresses, runs[|runs| - 1], SpanRun(runStart, index, span)))
    && (forall a: nat :: a % 2 == 0 && a < ADDRESS_MAX && Inside(span, a) ==> Truthful(image, span, a))
  }

  /** Group a stream into runs: whatever the caches held before, the runs
      partition the stream, and each one's span is right throughout it. */
  method SpanRuns(symbolizer: Symbolizer, addresses: seq<nat>) returns (runs: seq<SpanRun>)
    requires symbolizer.Valid() && Traced(addresses)
    modifies symbolizer`lineTable, symbolizer.elf`index, symbolizer.fnCache, symbolizer.srcCache
    ensures symbolizer.Valid() && Partition(symbolizer.image, addresses, runs, |addresses|)
    ensures CutWhereTold(symbolizer.image, addresses, runs)
  {
    hide Stretch, Cuts;
    runs := [];
    var span: Option<Span> := None;
    var runStart := 0;
    for index := 0 to |addresses|
      invariant symbolizer.Valid()
      invariant span.None? ==> index == 0 && runs == []
      invariant span.Some? ==> Running(symbolizer.image, addresses, runs, span.value, runStart, index)
    {
      var address := addresses[index];
      if span.Some? && Inside(span.value, address) { continue; }
      if span.Some? {
        AddRun(symbolizer.image, addresses, runs, SpanRun(runStart, index, span.value));
        runs := runs + [SpanRun(runStart, index, span.value)];
      }
      var resolved := symbolizer.ResolveSpan(address);
      span := Some(resolved);
      runStart := index;
    }
    if span.Some? {
      AddRun(symbolizer.image, addresses, runs, SpanRun(runStart, |addresses|, span.value));
      runs := runs + [SpanRun(runStart, |addresses|, span.value)];
    }
    RunsExact(symbolizer.image, addresses, runs);
  }

  ghost predicate OneRun(runs: seq<SpanRun>, i: nat) {
    exists k :: 0 <= k < |runs| && runs[k].startIndex <= i && i + 1 < runs[k].endIndex
  }

  /** Neighbours are in one run exactly when no place where symbolization can
      change lies between them. */
  ghost predicate CutWhereTold(image: Image, addresses: seq<nat>, runs: seq<SpanRun>) {
    forall i :: 0 <= i < |addresses| - 1 ==>
      (OneRun(runs, i) <==> Together(ImageCuts(image), addresses[i], addresses[i + 1]))
  }

  lemma {:induction false} RunHolding(image: Image, addresses: seq<nat>, runs: seq<SpanRun>, n: nat, i: nat)
    returns (k: nat)
    requires Partition(image, addresses, runs, n) && i < n
    ensures k < |runs| && runs[k].startIndex <= i < runs[k].endIndex
  {
    hide RunOk;
    var last := |runs| - 1;
    if runs[last].startIndex <= i {
      k := last;
    } else {
      EarlierRuns(image, addresses, runs);
      k := RunHolding(image, addresses, runs[..last], runs[last].startIndex, i);
    }
  }

  lemma EarlierRuns(image: Image, addresses: seq<nat>, runs: seq<SpanRun>)
    requires |runs| > 0 && Partition(image, addresses, runs, runs[|runs| - 1].endIndex)
    requires runs[|runs| - 1].startIndex > 0
    ensures Partition(image, addresses, runs[..|runs| - 1], runs[|runs| - 1].startIndex)
  {
    hide RunOk;
    if |runs| > 1 { assert Follows(addresses, runs[|runs| - 2], runs[|runs| - 2 + 1]); }
  }

  /** Runs do not overlap. */
  lemma {:induction false} RunsApart(image: Image, addresses: seq<nat>, runs: seq<SpanRun>, n: nat, k: nat, l: nat)
    requires Partition(image, addresses, runs, n) && k < l < |runs|
    ensures runs[k].endIndex <= runs[l].startIndex
    decreases l
  {
    assert Follows(addresses, runs[l - 1], runs[l - 1 + 1]);
    if k < l - 1 {
      RunsApart(image, addresses, runs, n, k, l - 1);
      assert RunOk(image, addresses, runs[l - 1]);
    }
  }

  lemma RunStretch(image: Image, addresses: seq<nat>, r: SpanRun, i: nat)
    requires RunOk(image, addresses, r) && r.startIndex <= i < r.endIndex
    ensures Stretch(ImageCuts(image), addresses[i], r.span.start, r.span.end)
  {
    assert Truthful(image, r.span, addresses[i]);
    StretchMoves(ImageCuts(image), addresses[r.startIndex], addresses[i], r.span.start, r.span.end);
  }

  lemma RunsExact(image: Image, addresses: seq<nat>, runs: seq<SpanRun>)
    requires Traced(addresses) && Partition(image, addresses, runs, |addresses|)
    ensures CutWhereTold(image, addresses, runs)
  {
    hide Partition, Stretch, Together, Cuts, RunOk;
    forall i | 0 <= i < |addresses| - 1
      ensures OneRun(runs, i) <==> Together(ImageCuts(image), addresses[i], addresses[i + 1])
    {
      RunExactAt(image, addresses, runs, i);
    }
  }

  lemma RunExactAt(image: Image, addresses: seq<nat>, runs: seq<SpanRun>, i: nat)
    requires Traced(addresses) && Partition(image, addresses, runs, |addresses|) && i < |addresses| - 1
    ensures OneRun(runs, i) <==> Together(ImageCuts(image), addresses[i], addresses[i + 1])
  {
    hide Stretch, Together, Cuts, RunOk;
    var k := RunHolding(image, addresses, runs, |addresses|, i);
    RunStarts(image, addresses, runs, k);
    RunStretch(image, addresses, runs[k], i);
    TogetherIff(ImageCuts(image), addresses[i], addresses[i + 1], runs[k].span.start, runs[k].span.end);
    if i + 1 < runs[k].endIndex {
      InSpan(image, addresses, runs[k], i + 1);
    } else {
      assert Follows(addresses, runs[k], runs[k + 1]);
      if l :| 0 <= l < |runs| && runs[l].startIndex <= i && i + 1 < runs[l].endIndex {
        if l < k { RunsApart(image, addresses, runs, |addresses|, l, k); }
        if k < l { RunsApart(image, addresses, runs, |addresses|, k, l); }
      }
    }
  }

  lemma InSpan(image: Image, addresses: seq<nat>, r: SpanRun, i: nat)
    requires RunOk(image, addresses, r) && r.startIndex <= i < r.endIndex
    ensures r.span.start <= addresses[i] < r.span.end
  {
    assert Truthful(image, r.span, addresses[i]);
  }

  // ----- rows

  datatype InstructionRow = InstructionRow(index: nat, address: nat, function_: Option<string>, file: Option<string>,
                                           line: Option<int>, runCount: Option<nat>)

  datatype InstructionRun = InstructionRun(startIndex: nat, endIndex: nat, address: nat, function_: Option<string>,
                                           file: Option<string>, line: Option<int>)

  /** A stream seen as rows; nothing is stored but what generates them. */
  datatype InstructionRows = InstructionRows(addresses: seq<nat>, runCountAt: Option<nat -> Option<nat>>,
                                             baseIndex: nat)

  function NameOf(f: Option<ResolvedFunction>): Option<string> { if f.Some? then Some(f.value.name) else None }
  function FileOf(s: Option<ResolvedSource>): Option<string> { if s.Some? then Some(s.value.file) else None }
  function LineOf(s: Option<ResolvedSource>): Option<int> { if s.Some? then Some(s.value.line) else None }

  function CountAt(view: InstructionRows, address: nat): Option<nat> {
    if view.runCountAt.Some? then view.runCountAt.value(address) else None
  }

  function MakeRow(view: InstructionRows, index: nat, function_: Option<ResolvedFunction>,
                   source: Option<ResolvedSource>)
    : InstructionRow
    requires index < |view.addresses|
  {
    var address := view.addresses[index];
    InstructionRow(view.baseIndex + index, address, NameOf(function_), FileOf(source), LineOf(source),
                   CountAt(view, address))
  }

  /** The row at a position, by the uncached lookups. */
  function RowAt(view: InstructionRows, image: Image, index: nat): InstructionRow
    requires index < |view.addresses|
  {
    MakeRow(view, index, FunctionAt(image, view.addresses[index]), SourceAt(image, view.addresses[index]))
  }

  /** What a row shows: its place in the whole stream, the address there, the name,
      file and line that address resolves to, and its own run count, if counts
      were given. */
  lemma RowSays(view: InstructionRows, image: Image, index: nat)
    requires index < |view.addresses|
    ensures var (row, address) := (RowAt(view, image, index), view.addresses[index]);
            && row.index == view.baseIndex + index && row.address == address
            && (match FunctionAt(image, address)
                case None => row.function_ == None
                case Some(f) => row.function_ == Some(f.name))
            && (match SourceAt(image, address)
                case None => row.file == None && row.line == None
                case Some(s) => row.file == Some(s.file) && row.line == Some(s.line))
            && (match view.runCountAt
                case None => row.runCount == None
                case Some(count) => row.runCount == count(address))
  {
  }

  function RowsTo(view: InstructionRows, image: Image, n: nat): (r: seq<InstructionRow>)
    requires n <= |view.addresses|
    ensures |r| == n && forall i :: 0 <= i < n ==> r[i] == RowAt(view, image, i)
  {
    if n == 0 then [] else RowsTo(view, image, n - 1) + [RowAt(view, image, n - 1)]
  }

  /** Indexing, from the end when negative: the row of the uncached lookups. */
  method GetItem(view: InstructionRows, symbolizer: Symbolizer, key: int) returns (r: Result<InstructionRow, string>)
    requires symbolizer.Valid()
    requires var i := if key < 0 then key + |view.addresses| else key;
             0 <= i < |view.addresses| ==> Plain(symbolizer.image, view.addresses[i])
    modifies symbolizer`lineTable, symbolizer.elf`index, symbolizer.fnCache, symbolizer.srcCache
    ensures symbolizer.Valid()
    ensures r == var i := if key < 0 then key + |view.addresses| else key;
                 if 0 <= i < |view.addresses| then Ok(RowAt(view, symbolizer.image, i))
                 else Err("instruction index out of range")
  {
    var index := if key < 0 then key + |view.addresses| else key;
    if !(0 <= index < |view.addresses|) { return Err("instruction index out of range"); }
    var span := symbolizer.ResolveSpan(view.addresses[index]);
    r := Ok(MakeRow(view, index, span.function_, span.source));
  }

  /** Iterating, one symbolization a run, gives at every position the very row
      that indexing gives there. */
  method Iterate(view: InstructionRows, symbolizer: Symbolizer) returns (rows: seq<InstructionRow>)
    requires symbolizer.Valid() && Traced(view.addresses)
    modifies symbolizer`lineTable, symbolizer.elf`index, symbolizer.fnCache, symbolizer.srcCache
    ensures symbolizer.Valid() && rows == RowsTo(view, symbolizer.image, |view.addresses|)
  {
    hide Partition, CutWhereTold, Stretch, ImageCuts, Follows, RowAt, MakeRow;
    var runs := SpanRuns(symbolizer, view.addresses);
    NoRuns(symbolizer.image, view.addresses, runs);
    if runs != [] { RunStarts(symbolizer.image, view.addresses, runs, |runs| - 1); }
    rows := [];
    for k := 0 to |runs|
      invariant symbolizer.Valid()
      invariant |rows| == if k == 0 then 0 else runs[k - 1].endIndex
      invariant |rows| <= |view.addresses| && rows == RowsTo(view, symbolizer.image, |rows|)
    {
      var run := runs[k];
      RunStarts(symbolizer.image, view.addresses, runs, k);
      for index := run.startIndex to run.endIndex
        invariant symbolizer.Valid()
        invariant |rows| == index <= |view.addresses| && rows == RowsTo(view, symbolizer.image, index)
      {
        RowOfRun(view, symbolizer.image, run, index);
        rows := rows + [MakeRow(view, index, run.span.function_, run.span.source)];
      }
    }
  }

  lemma RowOfRun(view: InstructionRows, image: Image, run: SpanRun, i: nat)
    requires RunOk(image, view.addresses, run) && run.startIndex <= i < run.endIndex
    ensures MakeRow(view, i, run.span.function_, run.span.source) == RowAt(view, image, i)
  {
    assert Truthful(image, run.span, view.addresses[i]);
  }

  lemma RunStarts(image: Image, addresses: seq<nat>, runs: seq<SpanRun>, k: nat)
    requires Partition(image, addresses, runs, |addresses|) && k < |runs|
    ensures RunOk(image, addresses, runs[k])
    ensures runs[k].startIndex < runs[k].endIndex <= |addresses|
    ensures runs[k].startIndex == if k == 0 then 0 else runs[k - 1].endIndex
    ensures k == |runs| - 1 ==> runs[k].endIndex == |addresses|
  {
    if k > 0 { assert Follows(addresses, runs[k - 1], runs[k - 1 + 1]); }
  }

  function MovedRun(view: InstructionRows, run: SpanRun): InstructionRun
    requires run.startIndex < |view.addresses|
  {
    InstructionRun(view.baseIndex + run.startIndex, view.baseIndex + run.endIndex, view.addresses[run.startIndex],
                   NameOf(run.span.function_), FileOf(run.span.source), LineOf(run.span.source))
  }

  /** A run of the view: in range, not empty, named by its first address, and
      with the function, file and line of every row in it. */
  ghost predicate ViewRunOk(view: InstructionRows, image: Image, run: InstructionRun) {
    && view.baseIndex <= run.startIndex < run.endIndex <= view.baseIndex + |view.addresses|
    && run.address == view.addresses[run.startIndex - view.baseIndex]
    && forall i :: run.startIndex <= view.baseIndex + i < run.endIndex && 0 <= i < |view.addresses| ==>
         var row := RowAt(view, image, i);
         run.function_ == row.function_ && run.file == row.file && run.line == row.line
  }

  lemma MovedRunOk(view: InstructionRows, image: Image, run: SpanRun)
    requires RunOk(image, view.addresses, run)
    ensures run.startIndex < |view.addresses| && ViewRunOk(view, image, MovedRun(view, run))
    ensures MovedRun(view, run).startIndex == view.baseIndex + run.startIndex
    ensures MovedRun(view, run).endIndex == view.baseIndex + run.endIndex
  {
    var moved := MovedRun(view, run);
    forall i | moved.startIndex <= view.baseIndex + i < moved.endIndex && 0 <= i < |view.addresses|
      ensures var row := RowAt(view, image, i);
              moved.function_ == row.function_ && moved.file == row.file && moved.line == row.line
    {
      assert Truthful(image, run.span, view.addresses[i]);
    }
  }

  /** Consecutive runs that cover the view, each agreeing with its rows. */
  ghost predicate ViewRunsOk(view: InstructionRows, image: Image, runs: seq<InstructionRun>) {
    && (forall k :: 0 <= k < |runs| ==> ViewRunOk(view, image, runs[k]))
    && (forall k :: 0 <= k < |runs| - 1 ==> runs[k].endIndex == runs[k + 1].startIndex)
    && (runs == [] <==> view.addresses == [])
    && (runs != [] ==>
          && runs[0].startIndex == view.baseIndex
          && runs[|runs| - 1].endIndex == view.baseIndex + |view.addresses|)
  }

  lemma NoRuns(image: Image, addresses: seq<nat>, runs: seq<SpanRun>)
    requires Partition(image, addresses, runs, |addresses|)
    ensures runs == [] <==> addresses == []
  {
    if runs != [] { RunStarts(image, addresses, runs, 0); }
  }

  ghost predicate OneViewRun(runs: seq<InstructionRun>, i: nat) {
    exists k :: 0 <= k < |runs| && runs[k].startIndex <= i && i + 1 < runs[k].endIndex
  }

  lemma MovedAlike(view: InstructionRows, spans: seq<SpanRun>, runs: seq<InstructionRun>, i: nat)
    requires |runs| == |spans|
    requires forall j :: 0 <= j < |runs| ==>
               && runs[j].startIndex == view.baseIndex + spans[j].startIndex
               && runs[j].endIndex == view.baseIndex + spans[j].endIndex
    ensures OneViewRun(runs, view.baseIndex + i) <==> OneRun(spans, i)
  {
    if k :| 0 <= k < |spans| && spans[k].startIndex <= i && i + 1 < spans[k].endIndex {
      assert runs[k].startIndex <= view.baseIndex + i;
    }
  }

  method MoveRuns(view: InstructionRows, spans: seq<SpanRun>, ghost image: Image) returns (runs: seq<InstructionRun>)
    requires Partition(image, view.addresses, spans, |view.addresses|)
    ensures ViewRunsOk(view, image, runs)
    ensures forall i :: OneViewRun(runs, view.baseIndex + i) <==> OneRun(spans, i)
  {
    hide ViewRunOk, RunOk, Follows, Partition, MovedRun;
    NoRuns(image, view.addresses, spans);
    runs := [];
    for k := 0 to |spans|
      invariant |runs| == k
      invariant forall j :: 0 <= j < k ==> ViewRunOk(view, image, runs[j])
      invariant forall j :: 0 <= j < k ==>
                  && runs[j].startIndex == view.baseIndex + spans[j].startIndex
                  && runs[j].endIndex == view.baseIndex + spans[j].endIndex
      invariant forall j :: 0 <= j < k - 1 ==> runs[j].endIndex == runs[j + 1].startIndex
    {
      RunStarts(image, view.addresses, spans, k);
      MovedRunOk(view, image, spans[k]);
      var run := MovedRun(view, spans[k]);
      runs := runs + [run];
    }
    if spans != [] {
      RunStarts(image, view.addresses, spans, 0);
      RunStarts(image, view.addresses, spans, |spans| - 1);
    }
    forall i: nat ensures OneViewRun(runs, view.baseIndex + i)
        <==> OneRun(spans, i) { MovedAlike(view, spans, runs, i); }
  }

  /** The runs of a view partition it, and each agrees with its rows. */
  method ViewRuns(view: InstructionRows, symbolizer: Symbolizer) returns (runs: seq<InstructionRun>)
    requires symbolizer.Valid() && Traced(view.addresses)
    modifies symbolizer`lineTable, symbolizer.elf`index, symbolizer.fnCache, symbolizer.srcCache
    ensures symbolizer.Valid() && ViewRunsOk(view, symbolizer.image, runs)
    ensures forall i :: 0 <= i < |view.addresses| - 1 ==>
              (OneViewRun(runs, view.baseIndex + i)
               <==> Together(ImageCuts(symbolizer.image), view.addresses[i], view.addresses[i + 1]))
  {
    hide Partition, ViewRunsOk, Together;
    var spans := SpanRuns(symbolizer, view.addresses);
    runs := MoveRuns(view, spans, symbolizer.image);
  }
}
