/** Coverage: execution counts of instruction starts, grouped by function and by
    source line. */
module Coverage {
  import opened Prelude
  import opened Resolved
  import opened Sorting
  import opened Tallies

  const HALFWORD_BYTES: int := 2

  /** counts has one entry per halfword from baseAddress. */
  datatype SectionCounts = SectionCounts(baseAddress: nat, instructionStarts: seq<nat>, counts: seq<nat>)

  datatype FunctionRow = FunctionRow(
    file: string, line: int, name: string,
    srcLines: nat, srcLinesCovered: nat,
    instructions: nat, instructionsCovered: nat, runCount: nat, instructionsExecuted: nat)

  datatype LineRow = LineRow(file: string, line: int, instructions: nat, instructionsCovered: nat, runCount: nat)

  datatype Totals = Totals(
    functions: nat, functionsCovered: nat, srcLines: int, srcLinesCovered: int,
    instructions: int, instructionsCovered: int, totalRunCount: int)

  /** Accumulators, one per function entry and one per source line. */
  datatype FunctionTally = FunctionTally(
    name: string, entry: nat, file: string, line: int,
    instructions: nat, instructionsCovered: nat, instructionsExecuted: nat, runCount: nat,
    lines: map<ResolvedSource, bool>)

  datatype LineTally = LineTally(file: string, line: int, instructions: nat, instructionsCovered: nat, runCount: nat)

  // ----- the instruction starts that resolve to a function

  /** One resolved instruction start. */
  datatype Start = Start(address: nat, entry: nat, name: string, source: Option<ResolvedSource>, count: nat)

  /** Executions of one address: none outside the counts. */
  function CountAt(section: SectionCounts, address: nat): nat {
    var slot := (address - section.baseAddress) / HALFWORD_BYTES;
    if 0 <= slot < |section.counts| then section.counts[slot] else 0
  }

  function StartAt(resolver: Resolver, section: SectionCounts, address: nat): seq<Start> {
    match resolver.function_(address)
    case None => []
    case Some(f) => [Start(address, Masked(f.addr), f.name, resolver.source(address), CountAt(section, address))]
  }

  function SectionStarts(resolver: Resolver, section: SectionCounts, addresses: seq<nat>): seq<Start> {
    if addresses == [] then []
    else SectionStarts(resolver, section, Init(addresses)) + StartAt(resolver, section, Last(addresses))
  }

  /** Every resolved start of every section, in the order they are walked. */
  function StartsOf(resolver: Resolver, sections: seq<SectionCounts>): seq<Start> {
    if sections == [] then []
    else StartsOf(resolver, Init(sections)) + SectionStarts(resolver, Last(sections), Last(sections).instructionStarts)
  }

  // ----- what a list of starts amounts to

  function Unit(s: Start): int { 1 }

  function Hit(s: Start): int { if s.count > 0 then 1 else 0 }

  function Executions(s: Start): int { s.count }

  function SourcedUnit(s: Start): int { if s.source.Some? then 1 else 0 }

  function SourcedHit(s: Start): int { if s.source.Some? && s.count > 0 then 1 else 0 }

  function EntryKey(s: Start): Option<nat> { Some(s.entry) }

  function SourceKey(s: Start): Option<ResolvedSource> { s.source }

  /** The source lines met. */
  function Lines(g: seq<Start>): set<ResolvedSource> { set s | s in g && s.source.Some? :: s.source.value }

  /** The source lines that ran. */
  function CoveredLines(g: seq<Start>): set<ResolvedSource> {
    set s | s in g && s.source.Some? && s.count > 0 :: s.source.value
  }

  /** Executions of the entry address, the last one met if it is met twice. */
  function EntryRuns(g: seq<Start>, entry: nat): nat {
    if g == [] then 0
    else if Last(g).address == entry then Last(g).count
    else EntryRuns(Init(g), entry)
  }

  /** The largest count. */
  function Peak(g: seq<Start>): (r: nat)
    ensures forall s :: s in g ==> s.count <= r
    ensures r == 0 || exists s :: s in g && s.count == r
  {
    if g == [] then 0
    else
      assert g == Init(g) + [Last(g)];
      Max(Peak(Init(g)), Last(g).count)
  }

  function OfEntry(starts: seq<Start>, entry: nat): seq<Start> { Group(EntryKey, starts, entry) }

  function OfLine(starts: seq<Start>, l: ResolvedSource): seq<Start> { Group(SourceKey, starts, l) }

  /** Where a function is listed: at its entry's source, else its first start's. */
  function HomeOf(resolver: Resolver, entry: nat, first: Start): ResolvedSource {
    match resolver.source(entry)
    case Some(s) => s
    case None => if first.source.Some? then first.source.value else ResolvedSource("", 0)
  }

  lemma {:induction false} WeighsNat(g: seq<Start>)
    ensures 0 <= Weigh(Hit, g) <= Weigh(Unit, g) == |g|
    ensures Weigh(Hit, g) <= Weigh(Executions, g)
  {
    if g != [] { WeighsNat(Init(g)); }
  }

  function FunctionRowOf(resolver: Resolver, starts: seq<Start>, entry: nat): FunctionRow {
    var g := OfEntry(starts, entry);
    WeighsNat(g);
    var first := if g == [] then Start(entry, entry, "", None, 0) else g[0];
    var home := HomeOf(resolver, entry, first);
    FunctionRow(home.file, home.line, first.name, |Lines(g)|, |CoveredLines(g)|,
                |g|, Weigh(Hit, g), EntryRuns(g, entry), Weigh(Executions, g))
  }

  function LineRowOf(starts: seq<Start>, l: ResolvedSource): LineRow {
    var g := OfLine(starts, l);
    WeighsNat(g);
    LineRow(l.file, l.line, |g|, Weigh(Hit, g), Peak(g))
  }

  function FunctionRowsOf(resolver: Resolver, starts: seq<Start>, entries: seq<nat>): (r: seq<FunctionRow>)
    ensures |r| == |entries|
  {
    if entries == [] then []
    else FunctionRowsOf(resolver, starts, Init(entries)) + [FunctionRowOf(resolver, starts, Last(entries))]
  }

  function LineRowsOf(starts: seq<Start>, ls: seq<ResolvedSource>): (r: seq<LineRow>)
    ensures |r| == |ls|
  {
    if ls == [] then []
    else LineRowsOf(starts, Init(ls)) + [LineRowOf(starts, Last(ls))]
  }

  // ----- columns

  function RowRan(r: FunctionRow): int { if r.instructionsCovered > 0 then 1 else 0 }
  function RowLines(r: FunctionRow): int { r.srcLines }
  function RowLinesCovered(r: FunctionRow): int { r.srcLinesCovered }
  function RowInstructions(r: FunctionRow): int { r.instructions }
  function RowCovered(r: FunctionRow): int { r.instructionsCovered }
  function RowRuns(r: FunctionRow): int { r.runCount }
  function RowExecuted(r: FunctionRow): int { r.instructionsExecuted }
  function LineRowInstructions(r: LineRow): int { r.instructions }
  function LineRowCovered(r: LineRow): int { r.instructionsCovered }

  lemma {:induction false} RanNat(rows: seq<FunctionRow>)
    ensures 0 <= Weigh(RowRan, rows) <= |rows|
  {
    if rows != [] { RanNat(Init(rows)); }
  }

  /** Column sums over rows, and how many rows ran at all. */
  function TotalsOf(rows: seq<FunctionRow>): Totals {
    RanNat(rows);
    Totals(|rows|, Weigh(RowRan, rows), Weigh(RowLines, rows), Weigh(RowLinesCovered, rows),
           Weigh(RowInstructions, rows), Weigh(RowCovered, rows), Weigh(RowRuns, rows))
  }

  // ----- the order rows come back in

  /** Text by code point, shorter first. */
  predicate TextLess(a: string, b: string) {
    if b == [] then false
    else if a == [] then true
    else a[0] < b[0] || (a[0] == b[0] && TextLess(a[1..], b[1..]))
  }

  predicate PlaceLess(file: string, line: int, file': string, line': int) {
    TextLess(file, file') || (file == file' && line < line')
  }

  predicate FunctionLess(a: FunctionRow, b: FunctionRow) {
    PlaceLess(a.file, a.line, b.file, b.line) || (a.file == b.file && a.line == b.line && TextLess(a.name, b.name))
  }

  predicate LineLess(a: LineRow, b: LineRow) { PlaceLess(a.file, a.line, b.file, b.line) }

  lemma {:induction false} TextAsymmetric(a: string, b: string)
    ensures !(TextLess(a, b) && TextLess(b, a))
    ensures !TextLess(a, b) && !TextLess(b, a) ==> a == b
    ensures !TextLess(a, a)
  {
    if a != [] { TextAsymmetric(a[1..], if b == [] then [] else b[1..]); }
    if a != [] && b != [] && a[0] == b[0] && a[1..] == b[1..] {
      assert a == [a[0]] + a[1..] && b == [b[0]] + b[1..];
    }
  }

  lemma {:induction false} TextTransitive(a: string, b: string, c: string)
    ensures TextLess(a, b) && TextLess(b, c) ==> TextLess(a, c)
  {
    if a != [] && b != [] && c != [] { TextTransitive(a[1..], b[1..], c[1..]); }
  }

  lemma PlaceOrder(f: string, l: int, f': string, l': int, f'': string, l'': int)
    ensures PlaceLess(f, l, f', l') ==> !PlaceLess(f', l', f, l)
    ensures PlaceLess(f, l, f', l') && PlaceLess(f', l', f'', l'') ==> PlaceLess(f, l, f'', l'')
    ensures !PlaceLess(f, l, f', l') && !PlaceLess(f', l', f, l) ==> f == f' && l == l'
  {
    hide TextLess;
    TextAsymmetric(f, f');
    TextAsymmetric(f', f'');
    TextAsymmetric(f, f'');
    TextTransitive(f, f', f'');
  }

  /** The first place where two texts differ decides, or else their lengths. */
  ghost predicate ComesBefore(a: string, b: string) {
    exists k :: 0 <= k < |b| && k <= |a| && a[..k] == b[..k] && (k == |a| || a[k] < b[k])
  }

  lemma {:induction false} TextLessIff(a: string, b: string)
    ensures TextLess(a, b) <==> ComesBefore(a, b)
  {
    if b != [] && a != [] {
      TextLessIff(a[1..], b[1..]);
      if k :| 0 <= k < |b| && k <= |a| && a[..k] == b[..k] && (k == |a| || a[k] < b[k]) {
        if k > 0 {
          assert a[..k][0] == b[..k][0];
          assert a[1..][..k - 1] == a[..k][1..] && b[1..][..k - 1] == b[..k][1..];
        }
      }
      if a[0] == b[0] && ComesBefore(a[1..], b[1..]) {
        var k :| 0 <= k < |b[1..]| && k <= |a[1..]| && a[1..][..k] == b[1..][..k]
            && (k == |a[1..]| || a[1..][k] < b[1..][k]);
        assert a[..k + 1] == [a[0]] + a[1..][..k] && b[..k + 1] == [b[0]] + b[1..][..k];
      }
      if a[0] < b[0] { assert a[..0] == b[..0]; }
    } else if b != [] {
      assert a[..0] == b[..0];
    }
  }

  /** Rows are ordered by file, then line, then name. */
  lemma FunctionLessIff(a: FunctionRow, b: FunctionRow)
    ensures FunctionLess(a, b) <==>
              || ComesBefore(a.file, b.file)
              || (a.file == b.file && a.line < b.line)
              || (a.file == b.file && a.line == b.line && ComesBefore(a.name, b.name))
  {
    hide TextLess, ComesBefore;
    TextLessIff(a.file, b.file);
    TextLessIff(a.name, b.name);
  }

  lemma LineLessIff(a: LineRow, b: LineRow)
    ensures LineLess(a, b) <==> ComesBefore(a.file, b.file) || (a.file == b.file && a.line < b.line)
  {
    hide TextLess, ComesBefore;
    TextLessIff(a.file, b.file);
  }

  lemma FunctionOrders()
    ensures Ordering(FunctionLess)
  {
    forall a: FunctionRow, b: FunctionRow, c: FunctionRow
      ensures FunctionLess(a, b) ==> !FunctionLess(b, a)
      ensures !FunctionLess(b, a) && !FunctionLess(c, b) ==> !FunctionLess(c, a)
    {
      FunctionOrder(a, b, c);
    }
  }

  lemma FunctionOrder(a: FunctionRow, b: FunctionRow, c: FunctionRow)
    ensures FunctionLess(a, b) ==> !FunctionLess(b, a)
    ensures !FunctionLess(b, a) && !FunctionLess(c, b) ==> !FunctionLess(c, a)
  {
    hide TextLess, PlaceLess;
    PlaceOrder(a.file, a.line, b.file, b.line, c.file, c.line);
    PlaceOrder(b.file, b.line, a.file, a.line, c.file, c.line);
    PlaceOrder(b.file, b.line, c.file, c.line, a.file, a.line);
    PlaceOrder(c.file, c.line, a.file, a.line, b.file, b.line);
    PlaceOrder(c.file, c.line, b.file, b.line, a.file, a.line);
    TextAsymmetric(a.name, b.name);
    TextAsymmetric(b.name, c.name);
    TextAsymmetric(c.name, a.name);
    TextTransitive(c.name, a.name, b.name);
    TextTransitive(b.name, c.name, a.name);
  }

  lemma LineOrders()
    ensures Ordering(LineLess)
    ensures forall a, b :: !LineLess(a, b) && !LineLess(b, a) ==> a.file == b.file && a.line == b.line
  {
    forall a: LineRow, b: LineRow, c: LineRow
      ensures LineLess(a, b) ==> !LineLess(b, a)
      ensures !LineLess(b, a) && !LineLess(c, b) ==> !LineLess(c, a)
      ensures !LineLess(a, b) && !LineLess(b, a) ==> a.file == b.file && a.line == b.line
    {
      LineOrder(a, b, c);
    }
  }

  lemma LineOrder(a: LineRow, b: LineRow, c: LineRow)
    ensures LineLess(a, b) ==> !LineLess(b, a)
    ensures !LineLess(b, a) && !LineLess(c, b) ==> !LineLess(c, a)
    ensures !LineLess(a, b) && !LineLess(b, a) ==> a.file == b.file && a.line == b.line
  {
    hide TextLess, PlaceLess;
    PlaceOrder(a.file, a.line, b.file, b.line, c.file, c.line);
    PlaceOrder(b.file, b.line, c.file, c.line, a.file, a.line);
    PlaceOrder(c.file, c.line, a.file, a.line, b.file, b.line);
  }

  // ----- the accumulators

  /** Which of the lines met have run. */
  function Marked(marks: map<ResolvedSource, bool>, s: Start): map<ResolvedSource, bool> {
    match s.source
    case None => marks
    case Some(l) => marks[l := (l in marks && marks[l]) || s.count > 0]
  }

  function MarksOf(g: seq<Start>): map<ResolvedSource, bool> {
    if g == [] then map[] else Marked(MarksOf(Init(g)), Last(g))
  }

  lemma {:induction false} MarksAre(g: seq<Start>, l: ResolvedSource)
    ensures l in MarksOf(g) <==> l in Lines(g)
    ensures l in MarksOf(g) && MarksOf(g)[l] <==> l in CoveredLines(g)
  {
    if g != [] {
      MarksAre(Init(g), l);
      LinesStep(Init(g), Last(g), l);
      assert g == Init(g) + [Last(g)];
    }
  }

  lemma LinesStep(g: seq<Start>, s: Start, l: ResolvedSource)
    ensures l in Lines(g + [s]) <==> l in Lines(g) || s.source == Some(l)
    ensures l in CoveredLines(g + [s]) <==> l in CoveredLines(g) || (s.source == Some(l) && s.count > 0)
  {
    assert forall x :: x in g + [s] <==> x in g || x == s;
    assert s in g + [s];
  }

  function FunctionTallyOf(resolver: Resolver, g: seq<Start>, entry: nat): FunctionTally
    requires g != []
  {
    WeighsNat(g);
    var home := HomeOf(resolver, entry, g[0]);
    FunctionTally(g[0].name, entry, home.file, home.line, |g|, Weigh(Hit, g), Weigh(Executions, g), EntryRuns(g, entry),
                  MarksOf(g))
  }

  function LineTallyOf(g: seq<Start>, l: ResolvedSource): LineTally {
    WeighsNat(g);
    LineTally(l.file, l.line, |g|, Weigh(Hit, g), Peak(g))
  }

  /** Every entry met has its accumulator, holding exactly its starts so far. */
  ghost predicate FunctionsKept(resolver: Resolver, starts: seq<Start>, functions: map<nat, FunctionTally>,
                                order: seq<nat>)
  {
    && order == FirstSeen(EntryKey, starts)
    && (forall k :: k in functions <==> k in order)
    && (forall k :: k in functions ==>
        OfEntry(starts, k) != [] && functions[k] == FunctionTallyOf(resolver, OfEntry(starts, k), k))
  }

  ghost predicate LinesKept(starts: seq<Start>, lines: map<ResolvedSource, LineTally>, order: seq<ResolvedSource>) {
    && order == FirstSeen(SourceKey, starts)
    && (forall k :: k in lines <==> k in order)
    && (forall k :: k in lines ==> lines[k] == LineTallyOf(OfLine(starts, k), k))
  }

  /** One start added to its function's accumulator. */
  function Added(t: FunctionTally, s: Start): FunctionTally {
    t.(instructions := t.instructions + 1,
       instructionsExecuted := t.instructionsExecuted + s.count,
       instructionsCovered := t.instructionsCovered + (if s.count > 0 then 1 else 0),
       runCount := if s.address == t.entry then s.count else t.runCount,
       lines := Marked(t.lines, s))
  }

  function LineAdded(t: LineTally, s: Start): LineTally {
    t.(instructions := t.instructions + 1,
       instructionsCovered := t.instructionsCovered + (if s.count > 0 then 1 else 0),
       runCount := Max(t.runCount, s.count))
  }

  lemma AddedFits(resolver: Resolver, g: seq<Start>, s: Start)
    requires g != []
    ensures Added(FunctionTallyOf(resolver, g, s.entry), s) == FunctionTallyOf(resolver, g + [s], s.entry)
  {
    assert Init(g + [s]) == g && Last(g + [s]) == s;
  }

  /** The first start of a function opens its accumulator. */
  lemma FirstFits(resolver: Resolver, s: Start)
    ensures var home := HomeOf(resolver, s.entry, s);
            Added(FunctionTally(s.name, s.entry, home.file, home.line, 0, 0, 0, 0, map[]), s)
            == FunctionTallyOf(resolver, [s], s.entry)
  {
    assert Init([s]) == [] && Last([s]) == s;
    assert [] + [s] == [s];
    WeighSnoc(Hit, [], s);
    WeighSnoc(Executions, [], s);
    assert MarksOf([s]) == Marked(MarksOf([]), s);
    assert EntryRuns([s], s.entry) == if s.address == s.entry then s.count else 0;
  }

  lemma LineAddedFits(g: seq<Start>, s: Start, l: ResolvedSource)
    ensures LineAdded(LineTallyOf(g, l), s) == LineTallyOf(g + [s], l)
  {
    assert Init(g + [s]) == g && Last(g + [s]) == s;
  }

  method RecordFunction(resolver: Resolver, functions: map<nat, FunctionTally>, order: seq<nat>, s: Start,
                        ghost starts: seq<Start>)
    returns (functions': map<nat, FunctionTally>, order': seq<nat>)
    requires FunctionsKept(resolver, starts, functions, order)
    ensures FunctionsKept(resolver, starts + [s], functions', order')
  {
    functions', order' := functions, order;
    if s.entry !in functions' {
      var entrySource := resolver.source(s.entry);
      if entrySource.None? { entrySource := s.source; }
      var file := if entrySource.Some? then entrySource.value.file else "";
      var line := if entrySource.Some? then entrySource.value.line else 0;
      functions' := functions'[s.entry := FunctionTally(s.name, s.entry, file, line, 0, 0, 0, 0, map[])];
      order' := order' + [s.entry];
    }
    functions' := functions'[s.entry := Added(functions'[s.entry], s)];
    RecordKeeps(resolver, starts, functions, order, s, functions', order');
  }

  lemma RecordKeepsAt(resolver: Resolver, starts: seq<Start>, functions: map<nat, FunctionTally>, order: seq<nat>,
                      s: Start, functions': map<nat, FunctionTally>, order': seq<nat>, k: nat)
    requires FunctionsKept(resolver, starts, functions, order) && k in functions'
    requires var home := HomeOf(resolver, s.entry, s);
             var blank := FunctionTally(s.name, s.entry, home.file, home.line, 0, 0, 0, 0, map[]);
             functions' == functions[s.entry := Added(if s.entry in functions then functions[s.entry] else blank, s)]
    ensures OfEntry(starts + [s], k) != [] && functions'[k] == FunctionTallyOf(resolver, OfEntry(starts + [s], k), k)
  {
    hide HomeOf, Added, FunctionTallyOf, Group, FirstSeen;
    GroupSnoc(EntryKey, starts, s, k);
    if k == s.entry {
      if k in functions {
        AddedFits(resolver, OfEntry(starts, k), s);
      } else {
        GroupEmpty(EntryKey, starts, k);
        FirstFits(resolver, s);
        assert [] + [s] == [s];
      }
    }
  }

  lemma RecordKeeps(resolver: Resolver, starts: seq<Start>, functions: map<nat, FunctionTally>, order: seq<nat>,
                    s: Start, functions': map<nat, FunctionTally>, order': seq<nat>)
    requires FunctionsKept(resolver, starts, functions, order)
    requires order' == if s.entry in functions then order else order + [s.entry]
    requires var home := HomeOf(resolver, s.entry, s);
             var blank := FunctionTally(s.name, s.entry, home.file, home.line, 0, 0, 0, 0, map[]);
             functions' == functions[s.entry := Added(if s.entry in functions then functions[s.entry] else blank, s)]
    ensures FunctionsKept(resolver, starts + [s], functions', order')
  {
    hide FirstSeen, FunctionTallyOf, OfEntry, Added, HomeOf;
    FirstSeenStep(EntryKey, starts, s);
    forall k | k in functions'
      ensures OfEntry(starts + [s], k) != [] && functions'[k] == FunctionTallyOf(resolver, OfEntry(starts + [s], k), k)
    {
      RecordKeepsAt(resolver, starts, functions, order, s, functions', order', k);
    }
  }

  method RecordLine(lines: map<ResolvedSource, LineTally>, order: seq<ResolvedSource>, s: Start,
                    ghost starts: seq<Start>)
    returns (lines': map<ResolvedSource, LineTally>, order': seq<ResolvedSource>)
    requires LinesKept(starts, lines, order)
    ensures LinesKept(starts + [s], lines', order')
  {
    lines', order' := lines, order;
    if s.source.Some? {
      var l := s.source.value;
      if l !in lines' {
        lines' := lines'[l := LineTally(l.file, l.line, 0, 0, 0)];
        order' := order' + [l];
      }
      lines' := lines'[l := LineAdded(lines'[l], s)];
    }
    LineRecordKeeps(starts, lines, order, s, lines', order');
  }

  lemma LineRecordKeeps(starts: seq<Start>, lines: map<ResolvedSource, LineTally>, order: seq<ResolvedSource>, s: Start,
                        lines': map<ResolvedSource, LineTally>, order': seq<ResolvedSource>)
    requires LinesKept(starts, lines, order)
    requires s.source.None? ==> lines' == lines && order' == order
    requires s.source.Some? ==>
               var l := s.source.value;
               && order' == (if l in lines then order else order + [l])
               && lines' == lines[l := LineAdded(if l in lines then lines[l]
                                                 else LineTally(l.file, l.line, 0, 0, 0), s)]
    ensures LinesKept(starts + [s], lines', order')
  {
    var more := starts + [s];
    assert Init(more) == starts && Last(more) == s;
    forall k | k in lines' ensures lines'[k] == LineTallyOf(OfLine(more, k), k) {
      GroupStep(SourceKey, more, k);
      if s.source == Some(k) {
        if k !in lines {
          GroupEmpty(SourceKey, starts, k);
          assert LineTallyOf([], k) == LineTally(k.file, k.line, 0, 0, 0);
        }
        LineAddedFits(OfLine(starts, k), s, k);
      }
    }
  }

  // ----- from accumulators to rows

  lemma SectionStartsStep(resolver: Resolver, section: SectionCounts, addresses: seq<nat>, j: nat)
    requires j < |addresses|
    ensures SectionStarts(resolver, section, addresses[..j + 1]) ==
            SectionStarts(resolver, section, addresses[..j]) + StartAt(resolver, section, addresses[j])
  {
    assert Init(addresses[..j + 1]) == addresses[..j];
  }

  lemma StartsOfStep(resolver: Resolver, sections: seq<SectionCounts>, i: nat)
    requires i < |sections|
    ensures StartsOf(resolver, sections[..i + 1]) ==
            StartsOf(resolver, sections[..i]) + SectionStarts(resolver, sections[i], sections[i].instructionStarts)
    ensures sections[i].instructionStarts[..|sections[i].instructionStarts|] == sections[i].instructionStarts
  {
    assert Init(sections[..i + 1]) == sections[..i];
  }

  lemma NothingKept(resolver: Resolver, sections: seq<SectionCounts>)
    ensures StartsOf(resolver, sections[..0]) == []
    ensures FunctionsKept(resolver, [], map[], []) && LinesKept([], map[], [])
  {
  }

  lemma NothingWalked(resolver: Resolver, section: SectionCounts)
    ensures SectionStarts(resolver, section, section.instructionStarts[..0]) == []
  {
  }

  method FunctionRowsFrom(resolver: Resolver, functions: map<nat, FunctionTally>, order: seq<nat>,
                          ghost starts: seq<Start>)
    returns (rows: seq<FunctionRow>)
    requires FunctionsKept(resolver, starts, functions, order)
    ensures rows == FunctionReport(resolver, starts)
  {
    hide FunctionsKept, HomeOf, OfEntry, FirstSeen, FunctionTallyOf, FunctionRowOf, SortBy, FunctionLess;
    OrderKept(resolver, starts, functions, order);
    rows := [];
    for i := 0 to |order|
      invariant rows == FunctionRowsOf(resolver, starts, order[..i])
    {
      assert Init(order[..i + 1]) == order[..i];
      TallyRow(resolver, starts, functions, order, i);
      var fn := functions[order[i]];
      rows := rows + [FunctionRow(fn.file, fn.line, fn.name, |fn.lines|, |set l | l in fn.lines && fn.lines[l]|,
                                  fn.instructions, fn.instructionsCovered, fn.runCount, fn.instructionsExecuted)];
    }
    assert order[..|order|] == order;
    rows := SortBy(FunctionLess, rows);
  }

  lemma MarksCount(g: seq<Start>)
    ensures |MarksOf(g)| == |Lines(g)| && |set l | l in MarksOf(g) && MarksOf(g)[l]| == |CoveredLines(g)|
  {
    hide MarksOf, Lines, CoveredLines;
    forall l ensures l in MarksOf(g) <==> l in Lines(g)
      ensures l in MarksOf(g) && MarksOf(g)[l] <==> l in CoveredLines(g) { MarksAre(g, l); }
    assert MarksOf(g).Keys == Lines(g);
    assert (set l | l in MarksOf(g) && MarksOf(g)[l]) == CoveredLines(g);
  }

  /** The line marks count the lines met and the lines that ran. */
  lemma TallyRow(resolver: Resolver, starts: seq<Start>, functions: map<nat, FunctionTally>, order: seq<nat>, i: nat)
    requires FunctionsKept(resolver, starts, functions, order) && i < |order|
    ensures order[i] in functions
    ensures var t := functions[order[i]];
            FunctionRow(t.file, t.line, t.name, |t.lines|, |set l | l in t.lines && t.lines[l]|,
                        t.instructions, t.instructionsCovered, t.runCount, t.instructionsExecuted)
            == FunctionRowOf(resolver, starts, order[i])
  {
    hide Lines, CoveredLines, MarksOf, Weigh, HomeOf, EntryRuns, Group, FirstSeen;
    assert order[i] in functions;
    MarksCount(OfEntry(starts, order[i]));
  }

  lemma OrderKept(resolver: Resolver, starts: seq<Start>, functions: map<nat, FunctionTally>, order: seq<nat>)
    requires FunctionsKept(resolver, starts, functions, order)
    ensures order == FirstSeen(EntryKey, starts)
  {
  }

  method LineRowsFrom(lines: map<ResolvedSource, LineTally>, order: seq<ResolvedSource>, ghost starts: seq<Start>)
    returns (rows: seq<LineRow>)
    requires LinesKept(starts, lines, order)
    ensures rows == LineReport(starts)
  {
    rows := [];
    for i := 0 to |order|
      invariant rows == LineRowsOf(starts, order[..i])
    {
      assert Init(order[..i + 1]) == order[..i] && order[i] in lines;
      var row := lines[order[i]];
      rows := rows + [LineRow(row.file, row.line, row.instructions, row.instructionsCovered, row.runCount)];
    }
    assert order[..|order|] == order;
    rows := SortBy(LineLess, rows);
  }

  // ----- the two operations

  /** Walk every instruction start of every section once, in order. The rows are
      those of the starts that resolve, grouped by function entry and by source
      line, sorted. */
  method BuildCoverageRows(sections: seq<SectionCounts>, resolver: Resolver)
    returns (functionRows: seq<FunctionRow>, lineRows: seq<LineRow>)
    ensures functionRows == FunctionReport(resolver, StartsOf(resolver, sections))
    ensures lineRows == LineReport(StartsOf(resolver, sections))
  {
    var functions: map<nat, FunctionTally>, order: seq<nat> := map[], [];
    var lines: map<ResolvedSource, LineTally>, lineOrder: seq<ResolvedSource> := map[], [];
    ghost var starts: seq<Start> := [];
    NothingKept(resolver, sections);
    hide StartsOf, SectionStarts, FunctionsKept, LinesKept, FunctionReport, LineReport;
    for i := 0 to |sections|
      invariant starts == StartsOf(resolver, sections[..i])
      invariant FunctionsKept(resolver, starts, functions, order) && LinesKept(starts, lines, lineOrder)
    {
      var section := sections[i];
      ghost var before := starts;
      NothingWalked(resolver, section);
      for j := 0 to |section.instructionStarts|
        invariant starts == before + SectionStarts(resolver, section, section.instructionStarts[..j])
        invariant FunctionsKept(resolver, starts, functions, order) && LinesKept(starts, lines, lineOrder)
      {
        var address := section.instructionStarts[j];
        SectionStartsStep(resolver, section, section.instructionStarts, j);
        var found := StartAt(resolver, section, address);
        if found != [] {
          functions, order := RecordFunction(resolver, functions, order, found[0], starts);
          lines, lineOrder := RecordLine(lines, lineOrder, found[0], starts);
          starts := starts + [found[0]];
        }
      }
      StartsOfStep(resolver, sections, i);
    }
    assert sections[..|sections|] == sections;
    functionRows := FunctionRowsFrom(resolver, functions, order, starts);
    lineRows := LineRowsFrom(lines, lineOrder, starts);
  }

  function FunctionReport(resolver: Resolver, starts: seq<Start>): seq<FunctionRow> {
    SortBy(FunctionLess, FunctionRowsOf(resolver, starts, FirstSeen(EntryKey, starts)))
  }

  function LineReport(starts: seq<Start>): seq<LineRow> {
    SortBy(LineLess, LineRowsOf(starts, FirstSeen(SourceKey, starts)))
  }

  method ComputeTotals(rows: seq<FunctionRow>) returns (totals: Totals)
    ensures totals == TotalsOf(rows)
  {
    totals := Totals(|rows|, 0, 0, 0, 0, 0, 0);
    for i := 0 to |rows|
      invariant totals == TotalsOf(rows[..i]).(functions := |rows|)
    {
      var row := rows[i];
      if row.instructionsCovered > 0 { totals := totals.(functionsCovered := totals.functionsCovered + 1); }
      totals := totals.(
        srcLines := totals.srcLines + row.srcLines,
        srcLinesCovered := totals.srcLinesCovered + row.srcLinesCovered,
        instructions := totals.instructions + row.instructions,
        instructionsCovered := totals.instructionsCovered + row.instructionsCovered,
        totalRunCount := totals.totalRunCount + row.runCount);
      assert Init(rows[..i + 1]) == rows[..i] && Last(rows[..i + 1]) == row;
    }
    assert rows[..|rows|] == rows;
  }
}
