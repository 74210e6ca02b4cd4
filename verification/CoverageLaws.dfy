/** What coverage rows conserve, and what does not depend on the walking order. */
module CoverageLaws {
  import opened Prelude
  import opened Resolved
  import opened Sorting
  import opened Tallies
  import opened Coverage

  // ----- conservation

  lemma {:induction false} FunctionColumns(resolver: Resolver, starts: seq<Start>, entries: seq<nat>)
    ensures var rows := FunctionRowsOf(resolver, starts, entries);
            && Weigh(RowInstructions, rows) == SumGroups(Unit, EntryKey, starts, entries)
            && Weigh(RowCovered, rows) == SumGroups(Hit, EntryKey, starts, entries)
            && Weigh(RowExecuted, rows) == SumGroups(Executions, EntryKey, starts, entries)
  {
    if entries != [] {
      hide Lines, CoveredLines, HomeOf, EntryRuns, Group;
      FunctionColumns(resolver, starts, Init(entries));
      var rows := FunctionRowsOf(resolver, starts, Init(entries));
      var row := FunctionRowOf(resolver, starts, Last(entries));
      WeighsNat(OfEntry(starts, Last(entries)));
      WeighSnoc(RowInstructions, rows, row);
      WeighSnoc(RowCovered, rows, row);
      WeighSnoc(RowExecuted, rows, row);
    }
  }

  /** Every resolved start is counted in exactly one function row, and so are its
      executions. */
  lemma FunctionsConserve(resolver: Resolver, starts: seq<Start>)
    ensures var rows := FunctionReport(resolver, starts);
            && Weigh(RowInstructions, rows) == |starts|
            && Weigh(RowCovered, rows) == Weigh(Hit, starts)
            && Weigh(RowExecuted, rows) == Weigh(Executions, starts)
  {
    hide FunctionRowsOf, Group, FunctionLess, FirstSeen, Weigh, SumGroups;
    var entries := FirstSeen(EntryKey, starts);
    var rows := FunctionRowsOf(resolver, starts, entries);
    FunctionColumns(resolver, starts, entries);
    GroupsConserve(Unit, EntryKey, starts, entries);
    GroupsConserve(Hit, EntryKey, starts, entries);
    GroupsConserve(Executions, EntryKey, starts, entries);
    WeighsNat(starts);
    SortPermutes(FunctionLess, rows);
    WeighPermutes(RowInstructions, SortBy(FunctionLess, rows), rows);
    WeighPermutes(RowCovered, SortBy(FunctionLess, rows), rows);
    WeighPermutes(RowExecuted, SortBy(FunctionLess, rows), rows);
  }

  lemma {:induction false} AllSourced(g: seq<Start>)
    requires forall s :: s in g ==> s.source.Some?
    ensures Weigh(SourcedUnit, g) == |g| && Weigh(SourcedHit, g) == Weigh(Hit, g)
  {
    if g != [] {
      assert Last(g) in g;
      AllSourced(Init(g));
    }
  }

  lemma {:induction false} LineColumns(starts: seq<Start>, ls: seq<ResolvedSource>)
    ensures Weigh(LineRowInstructions, LineRowsOf(starts, ls)) == SumGroups(SourcedUnit, SourceKey, starts, ls)
    ensures Weigh(LineRowCovered, LineRowsOf(starts, ls)) == SumGroups(SourcedHit, SourceKey, starts, ls)
  {
    if ls != [] {
      hide Group, Peak;
      LineColumns(starts, Init(ls));
      var row := LineRowOf(starts, Last(ls));
      var g := OfLine(starts, Last(ls));
      forall s | s in g ensures s.source.Some? { GroupHolds(SourceKey, starts, Last(ls), s); }
      AllSourced(g);
      WeighsNat(g);
      WeighSnoc(LineRowInstructions, LineRowsOf(starts, Init(ls)), row);
      WeighSnoc(LineRowCovered, LineRowsOf(starts, Init(ls)), row);
    }
  }

  /** Every resolved start that has a source is counted in exactly one line row. */
  lemma LinesConserve(starts: seq<Start>)
    ensures Weigh(LineRowInstructions, LineReport(starts)) == Weigh(SourcedUnit, starts)
    ensures Weigh(LineRowCovered, LineReport(starts)) == Weigh(SourcedHit, starts)
  {
    hide LineRowsOf, Group, LineLess, FirstSeen, Weigh, SumGroups;
    var ls := FirstSeen(SourceKey, starts);
    var rows := LineRowsOf(starts, ls);
    LineColumns(starts, ls);
    GroupsConserve(SourcedUnit, SourceKey, starts, ls);
    GroupsConserve(SourcedHit, SourceKey, starts, ls);
    SortPermutes(LineLess, rows);
    WeighPermutes(LineRowInstructions, SortBy(LineLess, rows), rows);
    WeighPermutes(LineRowCovered, SortBy(LineLess, rows), rows);
  }

  // ----- bounds within a row

  lemma {:induction false} GroupBounds(g: seq<Start>, entry: nat)
    ensures EntryRuns(g, entry) <= Weigh(Executions, g)
    ensures Weigh(Hit, g) == 0 <==> Weigh(Executions, g) == 0
    ensures Weigh(Hit, g) == 0 <==> Peak(g) == 0
    ensures Peak(g) <= Weigh(Executions, g)
    ensures |CoveredLines(g)| <= |Lines(g)| <= |g|
    ensures |CoveredLines(g)| <= Weigh(Hit, g)
  {
    hide Lines, CoveredLines;
    WeighsNat(g);
    if g == [] {
      NoLines();
    } else {
      GroupBounds(Init(g), entry);
      WeighsNat(Init(g));
      LineBounds(Init(g), Last(g));
      assert g == Init(g) + [Last(g)];
    }
  }

  lemma NoLines()
    ensures Lines([]) == {} && CoveredLines([]) == {}
  {
  }

  /** One more start meets at most one more line. */
  lemma LineBounds(g: seq<Start>, s: Start)
    ensures |Lines(g + [s])| <= |Lines(g)| + 1
    ensures |CoveredLines(g + [s])| <= |CoveredLines(g)| + if s.count > 0 then 1 else 0
    ensures |CoveredLines(g + [s])| <= |Lines(g + [s])|
  {
    hide Lines, CoveredLines;
    var extra := if s.source.Some? then {s.source.value} else {};
    var ran := if s.count > 0 then extra else {};
    forall l ensures l in Lines(g + [s]) <==> l in Lines(g) + extra
      ensures l in CoveredLines(g + [s]) <==> l in CoveredLines(g) + ran
    {
      LinesStep(g, s, l);
    }
    assert Lines(g + [s]) == Lines(g) + extra;
    assert CoveredLines(g + [s]) == CoveredLines(g) + ran;
    CoveredAmong(g + [s]);
    Within(CoveredLines(g + [s]), Lines(g + [s]));
    assert |Lines(g) + extra| <= |Lines(g)| + |extra|;
    assert |CoveredLines(g) + ran| <= |CoveredLines(g)| + |ran|;
  }

  lemma CoveredAmong(g: seq<Start>)
    ensures CoveredLines(g) <= Lines(g)
  {
  }

  lemma {:induction false} Within<T>(a: set<T>, b: set<T>)
    requires a <= b
    ensures |a| <= |b|
  {
    assert b == a + (b - a);
    assert |b| == |a| + |b - a|;
  }

  lemma {:induction false} FunctionRowsAt(resolver: Resolver, starts: seq<Start>, entries: seq<nat>, row: FunctionRow)
    ensures row in FunctionRowsOf(resolver, starts, entries)
            <==> exists k :: k in entries && row == FunctionRowOf(resolver, starts, k)
  {
    hide FunctionRowOf;
    if entries != [] {
      FunctionRowsAt(resolver, starts, Init(entries), row);
      assert entries == Init(entries) + [Last(entries)];
    }
  }

  lemma {:induction false} LineRowsAt(starts: seq<Start>, ls: seq<ResolvedSource>, row: LineRow)
    ensures row in LineRowsOf(starts, ls) <==> exists l :: l in ls && row == LineRowOf(starts, l)
  {
    hide LineRowOf;
    if ls != [] {
      LineRowsAt(starts, Init(ls), row);
      assert ls == Init(ls) + [Last(ls)];
    }
  }

  /** A report's function rows are those of the entries met, one each, and its
      line rows those of the lines met. */
  lemma ReportRows(resolver: Resolver, starts: seq<Start>, row: FunctionRow, line: LineRow)
    ensures row in FunctionReport(resolver, starts)
            <==> exists k :: k in FirstSeen(EntryKey, starts) && row == FunctionRowOf(resolver, starts, k)
    ensures line in LineReport(starts)
            <==> exists l :: l in FirstSeen(SourceKey, starts) && line == LineRowOf(starts, l)
    ensures |FunctionReport(resolver, starts)| == |FirstSeen(EntryKey, starts)|
    ensures |LineReport(starts)| == |FirstSeen(SourceKey, starts)|
  {
    hide FunctionRowOf, LineRowOf, FunctionRowsOf, LineRowsOf, FunctionLess, LineLess, FirstSeen, SortBy;
    var entries, ls := FirstSeen(EntryKey, starts), FirstSeen(SourceKey, starts);
    SortKeeps(FunctionLess, FunctionRowsOf(resolver, starts, entries));
    SortKeeps(LineLess, LineRowsOf(starts, ls));
    FunctionRowsAt(resolver, starts, entries, row);
    LineRowsAt(starts, ls, line);
  }

  /** In the row of every function met: covered counts never exceed totals, an
      entry runs no more often than its function executes instructions, and a
      function ran exactly when one of its instructions is covered. */
  lemma FunctionRowBounds(resolver: Resolver, starts: seq<Start>, first: Start)
    requires first in starts
    ensures var row := FunctionRowOf(resolver, starts, first.entry);
            && row.srcLinesCovered <= row.srcLines <= row.instructions
            && row.srcLinesCovered <= row.instructionsCovered <= row.instructions
            && row.runCount <= row.instructionsExecuted
            && row.instructionsCovered <= row.instructionsExecuted
            && (row.instructionsCovered == 0 <==> row.instructionsExecuted == 0)
            && row.instructions > 0
  {
    hide Group, HomeOf, Lines, CoveredLines, EntryRuns, Weigh;
    var k := first.entry;
    GroupHolds(EntryKey, starts, k, first);
    GroupBounds(OfEntry(starts, k), k);
    WeighsNat(OfEntry(starts, k));
  }

  /** A line is covered exactly when some instruction of it ran, and its run count
      is the largest of theirs, attained by one of them. */
  lemma LineRowBounds(starts: seq<Start>, first: Start)
    requires first in starts && first.source.Some?
    ensures var row := LineRowOf(starts, first.source.value);
            && 0 < row.instructions && row.instructionsCovered <= row.instructions
            && (row.instructionsCovered > 0 <==> row.runCount > 0)
            && (exists s :: s in starts && s.source == first.source && s.count == row.runCount)
            && (forall s :: s in starts && s.source == first.source ==> s.count <= row.runCount)
  {
    hide Group, Lines, CoveredLines, EntryRuns, Weigh;
    var l := first.source.value;
    var g := OfLine(starts, l);
    forall t ensures t in g <==> t in starts && SourceKey(t) == Some(l) { GroupHolds(SourceKey, starts, l, t); }
    GroupBounds(g, 0);
    WeighsNat(g);
    assert first in g && first.count <= Peak(g);
    if Peak(g) == 0 { assert first.count == Peak(g); }
  }

  // ----- order

  /** No two starts at a function's entry disagree on how often it ran. */
  ghost predicate Agree(g: seq<Start>, entry: nat) {
    forall s, t :: s in g && t in g && s.address == entry && t.address == entry ==> s.count == t.count
  }

  lemma {:induction false} EntryRunsIs(g: seq<Start>, entry: nat)
    ensures (exists s :: s in g && s.address == entry && s.count == EntryRuns(g, entry))
            || (EntryRuns(g, entry) == 0 && forall s :: s in g ==> s.address != entry)
  {
    if g != [] {
      EntryRunsIs(Init(g), entry);
      assert g == Init(g) + [Last(g)];
    }
  }

  lemma SameMembers<T>(xs: seq<T>, ys: seq<T>)
    requires multiset(xs) == multiset(ys)
    ensures forall x :: x in xs <==> x in ys
  {
    assert forall x :: x in xs <==> x in multiset(xs);
    assert forall x :: x in ys <==> x in multiset(ys);
  }

  lemma RunsStay(g: seq<Start>, h: seq<Start>, entry: nat)
    requires multiset(g) == multiset(h) && Agree(g, entry)
    ensures EntryRuns(g, entry) == EntryRuns(h, entry)
  {
    hide EntryRuns;
    SameMembers(g, h);
    EntryRunsIs(g, entry);
    EntryRunsIs(h, entry);
  }

  /** Bring the start at i to the end, where it decides the run count. */
  lemma MovedLast(g: seq<Start>, i: nat, entry: nat)
    requires i < |g| && g[i].address == entry
    ensures multiset(WithoutAt(g, i) + [g[i]]) == multiset(g)
    ensures EntryRuns(WithoutAt(g, i) + [g[i]], entry) == g[i].count
  {
    WithoutAtCounts(g, i);
  }

  /** A function's run count is the same in every walking order exactly when no
      two starts at its entry disagree. */
  lemma RunCountOrder(g: seq<Start>, entry: nat)
    ensures (forall h :: multiset(h) == multiset(g) ==> EntryRuns(h, entry) == EntryRuns(g, entry)) <==> Agree(g, entry)
  {
    if Agree(g, entry) {
      forall h | multiset(h) == multiset(g) ensures EntryRuns(h, entry) == EntryRuns(g, entry) {
        RunsStay(g, h, entry);
      }
    } else {
      var s, t :| s in g && t in g && s.address == entry && t.address == entry && s.count != t.count;
      var i :| 0 <= i < |g| && g[i] == s;
      var j :| 0 <= j < |g| && g[j] == t;
      MovedLast(g, i, entry);
      MovedLast(g, j, entry);
    }
  }

  /** Pairwise distinct start addresses never disagree. */
  lemma DistinctAgree(starts: seq<Start>, entry: nat)
    requires forall i, j :: 0 <= i < j < |starts| ==> starts[i].address != starts[j].address
    ensures Agree(OfEntry(starts, entry), entry)
  {
    forall s, t | s in OfEntry(starts, entry) && t in OfEntry(starts, entry) && s.address == entry && t.address == entry
      ensures s.count == t.count
    {
      GroupHolds(EntryKey, starts, entry, s);
      GroupHolds(EntryKey, starts, entry, t);
      var i :| 0 <= i < |starts| && starts[i] == s;
      var j :| 0 <= j < |starts| && starts[j] == t;
      assert i == j;
    }
  }

  lemma SectionStartsLast(resolver: Resolver, section: SectionCounts, xs: seq<nat>)
    requires xs != []
    ensures multiset(SectionStarts(resolver, section, xs)) ==
            multiset(SectionStarts(resolver, section, Init(xs))) + multiset(StartAt(resolver, section, Last(xs)))
  {
    hide StartAt;
  }

  lemma {:induction false} SectionStartsWithout(resolver: Resolver, section: SectionCounts, xs: seq<nat>, i: nat)
    requires i < |xs|
    ensures multiset(SectionStarts(resolver, section, xs)) ==
            multiset(SectionStarts(resolver, section, WithoutAt(xs, i))) + multiset(StartAt(resolver, section, xs[i]))
  {
    hide StartAt, SectionStarts;
    SectionStartsLast(resolver, section, xs);
    if i == |xs| - 1 {
      assert WithoutAt(xs, i) == Init(xs);
    } else {
      SectionStartsWithout(resolver, section, Init(xs), i);
      SectionStartsLast(resolver, section, WithoutAt(xs, i));
      assert Init(WithoutAt(xs, i)) == WithoutAt(Init(xs), i) && Last(WithoutAt(xs, i)) == Last(xs);
    }
  }

  /** The starts of one section may come in any order. */
  lemma {:induction false} SectionReorders(resolver: Resolver, section: SectionCounts, xs: seq<nat>, ys: seq<nat>)
    requires multiset(xs) == multiset(ys)
    ensures multiset(SectionStarts(resolver, section, xs)) == multiset(SectionStarts(resolver, section, ys))
  {
    hide StartAt;
    if xs == [] {
      assert |multiset(ys)| == 0;
    } else {
      var i := MatchLast(xs, ys);
      SectionReorders(resolver, section, Init(xs), WithoutAt(ys, i));
      SectionStartsWithout(resolver, section, ys, i);
    }
  }

  lemma {:induction false} StartsOfWithout(resolver: Resolver, ss: seq<SectionCounts>, i: nat)
    requires i < |ss|
    ensures multiset(StartsOf(resolver, ss)) ==
            multiset(StartsOf(resolver, WithoutAt(ss, i)))
            + multiset(SectionStarts(resolver, ss[i], ss[i].instructionStarts))
  {
    hide SectionStarts;
    if i == |ss| - 1 {
      assert WithoutAt(ss, i) == Init(ss);
    } else {
      StartsOfWithout(resolver, Init(ss), i);
      assert Init(WithoutAt(ss, i)) == WithoutAt(Init(ss), i) && Last(WithoutAt(ss, i)) == Last(ss);
    }
  }

  /** The sections may come in any order. */
  lemma {:induction false} SectionsReorder(resolver: Resolver, ss: seq<SectionCounts>, ts: seq<SectionCounts>)
    requires multiset(ss) == multiset(ts)
    ensures multiset(StartsOf(resolver, ss)) == multiset(StartsOf(resolver, ts))
  {
    hide SectionStarts;
    if ss == [] {
      assert |multiset(ts)| == 0;
    } else {
      var i := MatchLast(ss, ts);
      SectionsReorder(resolver, Init(ss), WithoutAt(ts, i));
      StartsOfWithout(resolver, ts, i);
    }
  }

  /** And so may the starts within any one of them. */
  lemma StartsReorder(resolver: Resolver, ss: seq<SectionCounts>, i: nat, addresses: seq<nat>)
    requires i < |ss| && multiset(addresses) == multiset(ss[i].instructionStarts)
    ensures multiset(StartsOf(resolver, ss[i := ss[i].(instructionStarts := addresses)]))
            == multiset(StartsOf(resolver, ss))
  {
    hide StartsOf;
    var section := ss[i].(instructionStarts := addresses);
    var ts := ss[i := section];
    assert WithoutAt(ts, i) == WithoutAt(ss, i);
    StartsOfWithout(resolver, ss, i);
    StartsOfWithout(resolver, ts, i);
    SectionReorders(resolver, ss[i], ss[i].instructionStarts, addresses);
    SameSection(resolver, ss[i], addresses);
  }

  /** The starts listed with a section do not change what one of them counts. */
  lemma {:induction false} SameSection(resolver: Resolver, section: SectionCounts, addresses: seq<nat>)
    ensures forall listed: seq<nat> :: SectionStarts(resolver, section.(instructionStarts := listed), addresses) ==
                                       SectionStarts(resolver, section, addresses)
  {
    if addresses != [] { SameSection(resolver, section, Init(addresses)); }
  }

  /** A row without its name and place. */
  function Figures(row: FunctionRow): FunctionRow { row.(file := "", line := 0, name := "") }

  lemma LinesStay(g: seq<Start>, h: seq<Start>)
    requires multiset(g) == multiset(h)
    ensures Lines(g) == Lines(h) && CoveredLines(g) == CoveredLines(h)
  {
    SameMembers(g, h);
  }

  /** Walked in another order, a function's numbers stay, provided no two starts at
      its entry disagree; its name and place stay if its starts agree on the name
      and its entry has a source. */
  lemma FunctionRowStays(resolver: Resolver, xs: seq<Start>, ys: seq<Start>, entry: nat)
    requires multiset(xs) == multiset(ys) && Agree(OfEntry(xs, entry), entry)
    ensures Figures(FunctionRowOf(resolver, xs, entry)) == Figures(FunctionRowOf(resolver, ys, entry))
    ensures resolver.source(entry).Some?
            && (forall s, t :: s in OfEntry(xs, entry) && t in OfEntry(xs, entry) ==> s.name == t.name)
            ==> FunctionRowOf(resolver, xs, entry) == FunctionRowOf(resolver, ys, entry)
  {
    hide Group, Lines, CoveredLines, EntryRuns, Agree;
    var g, h := OfEntry(xs, entry), OfEntry(ys, entry);
    GroupPermutes(EntryKey, xs, ys, entry);
    assert |g| == |multiset(g)| == |multiset(h)| == |h|;
    LinesStay(g, h);
    RunsStay(g, h, entry);
    WeighPermutes(Hit, g, h);
    WeighPermutes(Executions, g, h);
    SameMembers(g, h);
    if g != [] { assert g[0] in g && h[0] in h; }
  }

  lemma LineRowStays(xs: seq<Start>, ys: seq<Start>, l: ResolvedSource)
    requires multiset(xs) == multiset(ys)
    ensures LineRowOf(xs, l) == LineRowOf(ys, l)
  {
    hide Group;
    var g, h := OfLine(xs, l), OfLine(ys, l);
    GroupPermutes(SourceKey, xs, ys, l);
    assert |g| == |multiset(g)| == |multiset(h)| == |h|;
    WeighPermutes(Hit, g, h);
    SameMembers(g, h);
  }

  lemma {:induction false} LineRowsReorder(xs: seq<Start>, ys: seq<Start>, ks: seq<ResolvedSource>,
                                           ls: seq<ResolvedSource>)
    requires multiset(xs) == multiset(ys) && multiset(ks) == multiset(ls)
    ensures multiset(LineRowsOf(xs, ks)) == multiset(LineRowsOf(ys, ls))
  {
    hide LineRowOf, LineRowsOf;
    if ks == [] {
      assert |multiset(ls)| == 0;
      assert ks == ls;
      LineRowsNone(xs);
      LineRowsNone(ys);
    } else {
      var i := MatchLast(ks, ls);
      LineRowsReorder(xs, ys, Init(ks), WithoutAt(ls, i));
      LineRowsWithout(ys, ls, i);
      LineRowsStep(xs, ks);
      LineRowStays(xs, ys, Last(ks));
    }
  }

  lemma LineRowsNone(starts: seq<Start>)
    ensures LineRowsOf(starts, []) == []
  {
  }

  lemma LineRowsStep(starts: seq<Start>, ls: seq<ResolvedSource>)
    requires ls != []
    ensures multiset(LineRowsOf(starts, ls))
            == multiset(LineRowsOf(starts, Init(ls))) + multiset{LineRowOf(starts, Last(ls))}
  {
    hide LineRowOf;
  }

  lemma {:induction false} LineRowsWithout(starts: seq<Start>, ls: seq<ResolvedSource>, i: nat)
    requires i < |ls|
    ensures multiset(LineRowsOf(starts, ls))
            == multiset(LineRowsOf(starts, WithoutAt(ls, i))) + multiset{LineRowOf(starts, ls[i])}
  {
    hide LineRowOf, LineRowsOf;
    LineRowsStep(starts, ls);
    if i == |ls| - 1 {
      assert WithoutAt(ls, i) == Init(ls);
    } else {
      LineRowsWithout(starts, Init(ls), i);
      assert Init(WithoutAt(ls, i)) == WithoutAt(Init(ls), i) && Last(WithoutAt(ls, i)) == Last(ls);
      LineRowsStep(starts, WithoutAt(ls, i));
    }
  }

  /** The line report is the same list in every walking order. */
  lemma LineReportStays(xs: seq<Start>, ys: seq<Start>)
    requires multiset(xs) == multiset(ys)
    ensures LineReport(xs) == LineReport(ys)
  {
    hide LineRowsOf, LineLess, FirstSeen;
    var a, b := LineRowsOf(xs, FirstSeen(SourceKey, xs)), LineRowsOf(ys, FirstSeen(SourceKey, ys));
    FirstSeenPermutes(SourceKey, xs, ys);
    LineRowsReorder(xs, ys, FirstSeen(SourceKey, xs), FirstSeen(SourceKey, ys));
    LineOrders();
    SortSorts(LineLess, a);
    SortSorts(LineLess, b);
    SortPermutes(LineLess, a);
    SortPermutes(LineLess, b);
    SortKeeps(LineLess, a);
    forall r, q | r in LineReport(xs) && q in LineReport(xs) && !LineLess(r, q) && !LineLess(q, r) ensures r == q {
      LineRowsAt(xs, FirstSeen(SourceKey, xs), r);
      LineRowsAt(xs, FirstSeen(SourceKey, xs), q);
      OneRowPerLine(xs, r, q);
    }
    SortedUnique(LineLess, LineReport(xs), LineReport(ys));
  }

  lemma OneRowPerLine(starts: seq<Start>, r: LineRow, q: LineRow)
    requires (exists l :: r == LineRowOf(starts, l)) && (exists l :: q == LineRowOf(starts, l))
    requires r.file == q.file && r.line == q.line
    ensures r == q
  {
    var l :| r == LineRowOf(starts, l);
    var m :| q == LineRowOf(starts, m);
    assert l == ResolvedSource(r.file, r.line) == m;
  }

  lemma {:induction false} ColumnReorders(column: FunctionRow -> int, resolver: Resolver, xs: seq<Start>,
                                          ys: seq<Start>, ks: seq<nat>, ls: seq<nat>)
    requires multiset(ks) == multiset(ls)
    requires forall k :: column(FunctionRowOf(resolver, xs, k)) == column(FunctionRowOf(resolver, ys, k))
    ensures Weigh(column, FunctionRowsOf(resolver, xs, ks)) == Weigh(column, FunctionRowsOf(resolver, ys, ls))
  {
    hide FunctionRowOf;
    if ks == [] {
      assert |multiset(ls)| == 0;
    } else {
      var i := MatchLast(ks, ls);
      ColumnReorders(column, resolver, xs, ys, Init(ks), WithoutAt(ls, i));
      ColumnWithout(column, resolver, ys, ls, i);
      WeighSnoc(column, FunctionRowsOf(resolver, xs, Init(ks)), FunctionRowOf(resolver, xs, Last(ks)));
    }
  }

  lemma {:induction false} ColumnWithout(column: FunctionRow -> int, resolver: Resolver, starts: seq<Start>,
                                         ls: seq<nat>, i: nat)
    requires i < |ls|
    ensures Weigh(column, FunctionRowsOf(resolver, starts, ls)) ==
            Weigh(column, FunctionRowsOf(resolver, starts, WithoutAt(ls, i)))
            + column(FunctionRowOf(resolver, starts, ls[i]))
  {
    hide FunctionRowOf;
    WeighSnoc(column, FunctionRowsOf(resolver, starts, Init(ls)), FunctionRowOf(resolver, starts, Last(ls)));
    if i == |ls| - 1 {
      assert WithoutAt(ls, i) == Init(ls);
    } else {
      ColumnWithout(column, resolver, starts, Init(ls), i);
      assert Init(WithoutAt(ls, i)) == WithoutAt(Init(ls), i) && Last(WithoutAt(ls, i)) == Last(ls);
      WeighSnoc(column, FunctionRowsOf(resolver, starts, WithoutAt(Init(ls), i)),
                FunctionRowOf(resolver, starts, Last(ls)));
    }
  }

  /** Column sums of a report do not see the sorting. */
  lemma ReportColumn(column: FunctionRow -> int, resolver: Resolver, starts: seq<Start>)
    ensures Weigh(column, FunctionReport(resolver, starts)) ==
            Weigh(column, FunctionRowsOf(resolver, starts, FirstSeen(EntryKey, starts)))
  {
    hide FunctionRowsOf, FunctionLess, FirstSeen, Weigh;
    var rows := FunctionRowsOf(resolver, starts, FirstSeen(EntryKey, starts));
    SortPermutes(FunctionLess, rows);
    WeighPermutes(column, SortBy(FunctionLess, rows), rows);
  }

  /** No two starts at any entry disagree. */
  ghost predicate AllAgree(starts: seq<Start>) { forall k :: Agree(OfEntry(starts, k), k) }

  lemma FiguresStay(resolver: Resolver, xs: seq<Start>, ys: seq<Start>)
    requires multiset(xs) == multiset(ys) && AllAgree(xs)
    ensures forall k :: Figures(FunctionRowOf(resolver, xs, k)) == Figures(FunctionRowOf(resolver, ys, k))
  {
    hide Figures, FunctionRowOf, Agree, Group;
    forall k ensures Figures(FunctionRowOf(resolver, xs, k)) == Figures(FunctionRowOf(resolver, ys, k)) {
      FunctionRowStays(resolver, xs, ys, k);
    }
  }

  lemma ColumnStays(column: FunctionRow -> int, resolver: Resolver, xs: seq<Start>, ys: seq<Start>)
    requires multiset(xs) == multiset(ys)
    requires forall r :: column(r) == column(Figures(r))
    requires forall k :: Figures(FunctionRowOf(resolver, xs, k)) == Figures(FunctionRowOf(resolver, ys, k))
    ensures Weigh(column, FunctionReport(resolver, xs)) == Weigh(column, FunctionReport(resolver, ys))
  {
    hide FunctionRowsOf, FunctionRowOf, Weigh, SortBy, FirstSeen, FunctionReport, Figures;
    FirstSeenPermutes(EntryKey, xs, ys);
    ReportColumn(column, resolver, xs);
    ReportColumn(column, resolver, ys);
    forall k ensures column(FunctionRowOf(resolver, xs, k)) == column(FunctionRowOf(resolver, ys, k)) {
      var a, b := FunctionRowOf(resolver, xs, k), FunctionRowOf(resolver, ys, k);
      assert column(a) == column(Figures(a)) && column(b) == column(Figures(b));
    }
    ColumnReorders(column, resolver, xs, ys, FirstSeen(EntryKey, xs), FirstSeen(EntryKey, ys));
  }

  // ----- whole reports

  /** Both reports come back in their order, and no two line rows share a place. */
  lemma ReportsSorted(resolver: Resolver, starts: seq<Start>)
    ensures Sorted(FunctionLess, FunctionReport(resolver, starts))
    ensures var lines := LineReport(starts); forall i, j :: 0 <= i < j < |lines| ==> LineLess(lines[i], lines[j])
  {
    hide FunctionRowsOf, LineRowsOf, FunctionLess, LineLess, FirstSeen, SortBy;
    FunctionOrders();
    SortSorts(FunctionLess, FunctionRowsOf(resolver, starts, FirstSeen(EntryKey, starts)));
    LineOrders();
    var rows := LineRowsOf(starts, FirstSeen(SourceKey, starts));
    SortSorts(LineLess, rows);
    PlacesDiffer(starts, FirstSeen(SourceKey, starts));
    SortPairwise(LineLess, ElsewhereRow, rows);
    var lines := LineReport(starts);
    forall i, j | 0 <= i < j < |lines| ensures LineLess(lines[i], lines[j]) {
      assert ElsewhereRow(lines[i], lines[j]) && !LineLess(lines[j], lines[i]);
    }
  }

  predicate ElsewhereRow(r: LineRow, q: LineRow) { r.file != q.file || r.line != q.line }

  lemma {:induction false} PlacesDiffer(starts: seq<Start>, ls: seq<ResolvedSource>)
    requires Distinct(ls)
    ensures Pairwise(ElsewhereRow, LineRowsOf(starts, ls))
    ensures forall i :: 0 <= i < |ls| ==> LineRowsOf(starts, ls)[i] == LineRowOf(starts, ls[i])
  {
    if ls != [] { PlacesDiffer(starts, Init(ls)); }
  }

  function AllFigures(rows: seq<FunctionRow>): seq<FunctionRow> {
    if rows == [] then [] else AllFigures(Init(rows)) + [Figures(Last(rows))]
  }

  function Bears(f: FunctionRow): FunctionRow -> int { (r: FunctionRow) => if Figures(r) == f then 1 else 0 }

  lemma {:induction false} FiguresCount(rows: seq<FunctionRow>, f: FunctionRow)
    ensures multiset(AllFigures(rows))[f] == Weigh(Bears(f), rows)
  {
    if rows != [] { FiguresCount(Init(rows), f); }
  }

  lemma {:induction false} FiguresWeigh(column: FunctionRow -> int, rows: seq<FunctionRow>)
    requires forall r :: column(r) == column(Figures(r))
    ensures Weigh(column, AllFigures(rows)) == Weigh(column, rows) && |AllFigures(rows)| == |rows|
  {
    hide Figures;
    if rows != [] {
      FiguresWeigh(column, Init(rows));
      WeighSnoc(column, AllFigures(Init(rows)), Figures(Last(rows)));
    }
  }

  lemma ColumnByFigures(column: FunctionRow -> int, rows: seq<FunctionRow>, others: seq<FunctionRow>)
    requires multiset(AllFigures(rows)) == multiset(AllFigures(others))
    requires forall r :: column(r) == column(Figures(r))
    ensures Weigh(column, rows) == Weigh(column, others)
  {
    hide *;
    FiguresWeigh(column, rows);
    FiguresWeigh(column, others);
    WeighPermutes(column, AllFigures(rows), AllFigures(others));
  }

  /** Reports of the same figures have the same totals. */
  lemma TotalsByFigures(rows: seq<FunctionRow>, others: seq<FunctionRow>)
    requires multiset(AllFigures(rows)) == multiset(AllFigures(others))
    ensures TotalsOf(rows) == TotalsOf(others)
  {
    hide Weigh, AllFigures;
    FiguresWeigh(RowRan, rows);
    FiguresWeigh(RowRan, others);
    assert |AllFigures(rows)| == |multiset(AllFigures(rows))| == |AllFigures(others)|;
    ColumnByFigures(RowRan, rows, others);
    ColumnByFigures(RowLines, rows, others);
    ColumnByFigures(RowLinesCovered, rows, others);
    ColumnByFigures(RowInstructions, rows, others);
    ColumnByFigures(RowCovered, rows, others);
    ColumnByFigures(RowRuns, rows, others);
  }

  /** When none disagree, every walking order reports the same figures. */
  lemma ReportFiguresStay(resolver: Resolver, xs: seq<Start>, ys: seq<Start>)
    requires multiset(xs) == multiset(ys) && AllAgree(xs)
    ensures multiset(AllFigures(FunctionReport(resolver, xs))) == multiset(AllFigures(FunctionReport(resolver, ys)))
  {
    hide FunctionReport, FunctionRowOf, AllAgree, AllFigures, Weigh;
    FiguresStay(resolver, xs, ys);
    forall f: FunctionRow
      ensures multiset(AllFigures(FunctionReport(resolver, xs)))[f]
              == multiset(AllFigures(FunctionReport(resolver, ys)))[f]
    {
      ColumnStays(Bears(f), resolver, xs, ys);
      FiguresCount(FunctionReport(resolver, xs), f);
      FiguresCount(FunctionReport(resolver, ys), f);
    }
  }

  /** So the totals do not depend on the order in which starts are walked when
      start addresses are pairwise distinct. */
  lemma TotalsStay(resolver: Resolver, xs: seq<Start>, ys: seq<Start>)
    requires multiset(xs) == multiset(ys)
    requires forall i, j :: 0 <= i < j < |xs| ==> xs[i].address != xs[j].address
    ensures TotalsOf(FunctionReport(resolver, xs)) == TotalsOf(FunctionReport(resolver, ys))
  {
    hide Agree, TotalsOf, FunctionReport;
    forall k ensures Agree(OfEntry(xs, k), k) { DistinctAgree(xs, k); }
    ReportFiguresStay(resolver, xs, ys);
    TotalsByFigures(FunctionReport(resolver, xs), FunctionReport(resolver, ys));
  }

  /** Totals, row by row: no rows come to nothing, and one more row adds its own
      figures, and one to the functions covered if any instruction of it ran. */
  lemma TotalsGrow(rows: seq<FunctionRow>, r: FunctionRow)
    ensures TotalsOf([]) == Totals(0, 0, 0, 0, 0, 0, 0)
    ensures var (before, after) := (TotalsOf(rows), TotalsOf(rows + [r]));
            && after.functions == before.functions + 1
            && after.functionsCovered == before.functionsCovered + (if r.instructionsCovered > 0 then 1 else 0)
            && after.srcLines == before.srcLines + r.srcLines
            && after.srcLinesCovered == before.srcLinesCovered + r.srcLinesCovered
            && after.instructions == before.instructions + r.instructions
            && after.instructionsCovered == before.instructionsCovered + r.instructionsCovered
            && after.totalRunCount == before.totalRunCount + r.runCount
  {
    assert Init(rows + [r]) == rows && Last(rows + [r]) == r;
  }

  // ----- the orders a walk can take

  /** One section with its starts in another order. */
  ghost predicate SameStarts(a: SectionCounts, b: SectionCounts) {
    && b == a.(instructionStarts := b.instructionStarts)
    && multiset(a.instructionStarts) == multiset(b.instructionStarts)
  }

  ghost predicate SectionBySection(us: seq<SectionCounts>, ts: seq<SectionCounts>) {
    |us| == |ts| && forall i :: 0 <= i < |us| ==> SameStarts(us[i], ts[i])
  }

  /** The same sections in some order, each with its starts in some order. */
  ghost predicate Rewalks(ss: seq<SectionCounts>, ts: seq<SectionCounts>) {
    exists us :: multiset(us) == multiset(ss) && SectionBySection(us, ts)
  }

  lemma {:induction false} RewalkedStarts(resolver: Resolver, us: seq<SectionCounts>, ts: seq<SectionCounts>)
    requires SectionBySection(us, ts)
    ensures multiset(StartsOf(resolver, us)) == multiset(StartsOf(resolver, ts))
  {
    hide SectionStarts;
    if us != [] {
      RewalkedStarts(resolver, Init(us), Init(ts));
      var a, b := Last(us), Last(ts);
      assert SameStarts(a, b);
      SectionReorders(resolver, a, a.instructionStarts, b.instructionStarts);
      SameSection(resolver, a, b.instructionStarts);
    }
  }

  lemma RewalkReorders(resolver: Resolver, ss: seq<SectionCounts>, ts: seq<SectionCounts>)
    requires Rewalks(ss, ts)
    ensures multiset(StartsOf(resolver, ss)) == multiset(StartsOf(resolver, ts))
  {
    var us :| multiset(us) == multiset(ss) && SectionBySection(us, ts);
    SectionsReorder(resolver, ss, us);
    RewalkedStarts(resolver, us, ts);
  }

  /** Every start of a section at one address carries that address's count. */
  lemma {:induction false} CountOfSection(resolver: Resolver, section: SectionCounts, xs: seq<nat>, x: Start)
    requires x in SectionStarts(resolver, section, xs)
    ensures x.count == CountAt(section, x.address)
  {
    hide CountAt;
    if xs != [] && x in SectionStarts(resolver, section, Init(xs)) { CountOfSection(resolver, section, Init(xs), x); }
  }

  lemma {:induction false} SectionHolding(resolver: Resolver, ss: seq<SectionCounts>, x: Start) returns (i: nat)
    requires x in StartsOf(resolver, ss)
    ensures i < |ss| && x in SectionStarts(resolver, ss[i], ss[i].instructionStarts)
  {
    hide SectionStarts;
    if x in StartsOf(resolver, Init(ss)) { i := SectionHolding(resolver, Init(ss), x); } else { i := |ss| - 1; }
  }

  lemma {:induction false} GroupConcat<T, K>(key: T -> Option<K>, xs: seq<T>, ys: seq<T>, k: K)
    ensures Group(key, xs + ys, k) == Group(key, xs, k) + Group(key, ys, k)
  {
    if ys == [] {
      assert xs + ys == xs;
    } else {
      assert Init(xs + ys) == xs + Init(ys) && Last(xs + ys) == Last(ys);
      GroupConcat(key, xs, Init(ys), k);
    }
  }

  lemma {:induction false} RunsOfTail(g: seq<Start>, h: seq<Start>, entry: nat, count: nat)
    requires exists s :: s in h && s.address == entry
    requires forall s :: s in h && s.address == entry ==> s.count == count
    ensures EntryRuns(g + h, entry) == count
  {
    assert h == Init(h) + [Last(h)];
    assert Init(g + h) == g + Init(h) && Last(g + h) == Last(h);
    if Last(h).address != entry { RunsOfTail(g, Init(h), entry, count); }
  }

  /** The sections with one of them walked last. */
  function Postponed(ss: seq<SectionCounts>, i: nat): (r: seq<SectionCounts>)
    requires i < |ss|
    ensures multiset(r) == multiset(ss)
  {
    WithoutAtCounts(ss, i);
    WithoutAt(ss, i) + [ss[i]]
  }

  /** The section walked last decides the run count of a function entered in it. */
  lemma PostponedDecides(resolver: Resolver, ss: seq<SectionCounts>, i: nat, x: Start)
    requires i < |ss| && x in SectionStarts(resolver, ss[i], ss[i].instructionStarts) && x.entry == x.address
    ensures FunctionRowOf(resolver, StartsOf(resolver, Postponed(ss, i)), x.entry).runCount == x.count
  {
    hide SectionStarts, Group, EntryRuns, CountAt, HomeOf, Lines, CoveredLines, Weigh;
    var k, last := x.entry, SectionStarts(resolver, ss[i], ss[i].instructionStarts);
    var rest := StartsOf(resolver, WithoutAt(ss, i));
    assert Init(Postponed(ss, i)) == WithoutAt(ss, i) && Last(Postponed(ss, i)) == ss[i];
    assert StartsOf(resolver, Postponed(ss, i)) == rest + last;
    GroupConcat(EntryKey, rest, last, k);
    GroupHolds(EntryKey, last, k, x);
    CountOfSection(resolver, ss[i], ss[i].instructionStarts, x);
    forall s | s in OfEntry(last, k) && s.address == k ensures s.count == x.count {
      GroupHolds(EntryKey, last, k, s);
      CountOfSection(resolver, ss[i], ss[i].instructionStarts, s);
    }
    RunsOfTail(OfEntry(rest, k), OfEntry(last, k), k, x.count);
  }

  /** Every function has the same figures in both. */
  ghost predicate SameFigures(resolver: Resolver, ss: seq<SectionCounts>, ts: seq<SectionCounts>) {
    forall k :: Figures(FunctionRowOf(resolver, StartsOf(resolver, ts), k))
             == Figures(FunctionRowOf(resolver, StartsOf(resolver, ss), k))
  }

  /** When none disagree, no walk changes a function's figures, the figures of the
      report, or its totals. */
  lemma AgreedWalksAlike(resolver: Resolver, ss: seq<SectionCounts>, ts: seq<SectionCounts>)
    requires Rewalks(ss, ts) && AllAgree(StartsOf(resolver, ss))
    ensures SameFigures(resolver, ss, ts)
    ensures var xs, ys := StartsOf(resolver, ss), StartsOf(resolver, ts);
            && multiset(AllFigures(FunctionReport(resolver, xs))) == multiset(AllFigures(FunctionReport(resolver, ys)))
            && TotalsOf(FunctionReport(resolver, xs)) == TotalsOf(FunctionReport(resolver, ys))
  {
    hide Rewalks, AllAgree, StartsOf, FunctionReport, AllFigures, TotalsOf, FunctionRowOf;
    var xs, ys := StartsOf(resolver, ss), StartsOf(resolver, ts);
    RewalkReorders(resolver, ss, ts);
    FiguresStay(resolver, xs, ys);
    ReportFiguresStay(resolver, xs, ys);
    TotalsByFigures(FunctionReport(resolver, xs), FunctionReport(resolver, ys));
  }

  lemma OrdersRewalk(ss: seq<SectionCounts>, ts: seq<SectionCounts>)
    requires multiset(ts) == multiset(ss)
    ensures Rewalks(ss, ts)
  {
    assert SectionBySection(ts, ts);
  }

  lemma Disagreeing(xs: seq<Start>) returns (s: Start, t: Start)
    requires !AllAgree(xs)
    ensures s in xs && t in xs && s.entry == s.address == t.entry == t.address && s.count != t.count
  {
    hide Group;
    var k :| !Agree(OfEntry(xs, k), k);
    var g := OfEntry(xs, k);
    s, t :| s in g && t in g && s.address == k && t.address == k && s.count != t.count;
    GroupHolds(EntryKey, xs, k, s);
    GroupHolds(EntryKey, xs, k, t);
  }

  lemma FiguresTell(a: FunctionRow, b: FunctionRow)
    ensures Figures(a) == Figures(b) ==> a.runCount == b.runCount
  {
  }

  /** If two starts disagree, two orders of whole sections show it. */
  lemma OrdersDiffer(resolver: Resolver, ss: seq<SectionCounts>) returns (ts: seq<SectionCounts>)
    requires !AllAgree(StartsOf(resolver, ss))
    ensures multiset(ts) == multiset(ss) && !SameFigures(resolver, ss, ts)
  {
    hide StartsOf, FunctionRowOf, Figures, AllAgree, Postponed;
    var s, t := Disagreeing(StartsOf(resolver, ss));
    var i := SectionHolding(resolver, ss, s);
    var j := SectionHolding(resolver, ss, t);
    PostponedDecides(resolver, ss, i, s);
    PostponedDecides(resolver, ss, j, t);
    var k := s.entry;
    var row := FunctionRowOf(resolver, StartsOf(resolver, ss), k);
    FiguresTell(FunctionRowOf(resolver, StartsOf(resolver, Postponed(ss, i)), k), row);
    FiguresTell(FunctionRowOf(resolver, StartsOf(resolver, Postponed(ss, j)), k), row);
    ts := if row.runCount != s.count then Postponed(ss, i) else Postponed(ss, j);
  }

  /** Every function has the same figures in every order of the sections if and
      only if no two starts at any entry disagree; and starting points may be
      reordered within sections too. */
  lemma WalkingOrderIff(resolver: Resolver, ss: seq<SectionCounts>)
    ensures (forall ts :: multiset(ts) == multiset(ss) ==> SameFigures(resolver, ss, ts))
       <==> AllAgree(StartsOf(resolver, ss))
    ensures (forall ts :: Rewalks(ss, ts) ==> SameFigures(resolver, ss, ts)) <==> AllAgree(StartsOf(resolver, ss))
  {
    hide SameFigures, AllAgree, Rewalks;
    if AllAgree(StartsOf(resolver, ss)) {
      forall ts | Rewalks(ss, ts) ensures SameFigures(resolver, ss, ts) { AgreedWalksAlike(resolver, ss, ts); }
      forall ts | multiset(ts) == multiset(ss) ensures Rewalks(ss, ts) { OrdersRewalk(ss, ts); }
    } else {
      var ts := OrdersDiffer(resolver, ss);
      OrdersRewalk(ss, ts);
    }
  }

  // ----- totals can hide a disagreement

  /** Two sections over the same two functions, with their counts exchanged. */
  ghost predicate Exchanged(resolver: Resolver, s: SectionCounts, t: SectionCounts) {
    && s == SectionCounts(0x1000, [0x1000, 0x1002], [1, 2]) && t == SectionCounts(0x1000, [0x1000, 0x1002], [2, 1])
    && resolver.function_(0x1000) == Some(ResolvedFunction("f", 0x1000, 2))
    && resolver.function_(0x1002) == Some(ResolvedFunction("g", 0x1002, 2))
    && resolver.source(0x1000) == resolver.source(0x1002) == None
  }

  function Met(address: nat, name: string, count: nat): Start { Start(address, address, name, None, count) }

  lemma TwoStarts(resolver: Resolver, s: SectionCounts, a: nat, b: nat)
    requires s == SectionCounts(0x1000, [0x1000, 0x1002], [a, b])
    requires resolver.function_(0x1000) == Some(ResolvedFunction("f", 0x1000, 2))
    requires resolver.function_(0x1002) == Some(ResolvedFunction("g", 0x1002, 2))
    requires resolver.source(0x1000) == resolver.source(0x1002) == None
    ensures SectionStarts(resolver, s, s.instructionStarts) == [Met(0x1000, "f", a), Met(0x1002, "g", b)]
  {
    var xs := s.instructionStarts;
    assert Init(xs) == [0x1000] && Last(xs) == 0x1002;
    assert Init([0x1000]) == [] && Last([0x1000]) == 0x1000;
    assert CountAt(s, 0x1000) == a && CountAt(s, 0x1002) == b;
    assert SectionStarts(resolver, s, []) == [];
    assert SectionStarts(resolver, s, [0x1000]) == [] + [Met(0x1000, "f", a)] == [Met(0x1000, "f", a)];
    assert SectionStarts(resolver, s, xs) == [Met(0x1000, "f", a)] + [Met(0x1002, "g", b)];
  }

  lemma FourStarts(resolver: Resolver, s: SectionCounts, t: SectionCounts, a: nat, b: nat, c: nat, d: nat)
    requires SectionStarts(resolver, s, s.instructionStarts) == [Met(0x1000, "f", a), Met(0x1002, "g", b)]
    requires SectionStarts(resolver, t, t.instructionStarts) == [Met(0x1000, "f", c), Met(0x1002, "g", d)]
    ensures StartsOf(resolver, [s, t])
         == [Met(0x1000, "f", a), Met(0x1002, "g", b), Met(0x1000, "f", c), Met(0x1002, "g", d)]
  {
    hide SectionStarts;
    assert Init([s, t]) == [s] && Last([s, t]) == t && Init([s]) == [] && Last([s]) == s;
    assert StartsOf(resolver, []) == [];
    assert StartsOf(resolver, [s]) == [] + SectionStarts(resolver, s, s.instructionStarts);
  }

  /** The figures of a function met twice, without sources. */
  lemma TwiceMet(resolver: Resolver, xs: seq<Start>, k: nat, name: string, a: nat, b: nat)
    requires OfEntry(xs, k) == [Met(k, name, a), Met(k, name, b)] && a > 0 && b > 0
    ensures Figures(FunctionRowOf(resolver, xs, k)) == FunctionRow("", 0, "", 0, 0, 2, 2, b, a + b)
  {
    hide HomeOf, Group, Weigh;
    var g, one := OfEntry(xs, k), [Met(k, name, a)];
    assert g == one + [Met(k, name, b)] && [] + one == one;
    NothingWeighs(Hit);
    NothingWeighs(Executions);
    WeighSnoc(Hit, [], one[0]);
    WeighSnoc(Hit, one, Met(k, name, b));
    WeighSnoc(Executions, [], one[0]);
    WeighSnoc(Executions, one, Met(k, name, b));
    assert Lines(g) == {} && CoveredLines(g) == {};
  }

  lemma NothingWeighs<T>(w: T -> int)
    ensures Weigh(w, []) == 0
  {
  }

  /** What a walk met of the two functions, and in what order it met them first. */
  ghost predicate Grouped(xs: seq<Start>, fs: seq<Start>, gs: seq<Start>, seen: seq<nat>) {
    OfEntry(xs, 0x1000) == fs && OfEntry(xs, 0x1002) == gs && FirstSeen(EntryKey, xs) == seen
  }

  lemma FourGroups(xs: seq<Start>, a: nat, b: nat, c: nat, d: nat)
    requires xs == [Met(0x1000, "f", a), Met(0x1002, "g", b), Met(0x1000, "f", c), Met(0x1002, "g", d)]
    ensures Grouped(xs, [Met(0x1000, "f", a), Met(0x1000, "f", c)], [Met(0x1002, "g", b), Met(0x1002, "g", d)],
                    [0x1000, 0x1002])
  {
    hide *;
    var f, g, f', g' := xs[0], xs[1], xs[2], xs[3];
    Keys(a, b, c, d);
    NothingMet();
    assert [] + [f] == [f] && [] + [g] == [g] && [f] + [g] == [f, g] && [f, g] + [f'] == [f, g, f'];
    assert [f, g, f'] + [g'] == xs && [f] + [f'] == [f, f'] && [g] + [g'] == [g, g'];
    assert [] + [0x1000] == [0x1000] && [0x1000] + [0x1002] == [0x1000, 0x1002];
    OneMore([], f, [], [], []);
    OneMore([f], g, [f], [], [0x1000]);
    OneMore([f, g], f', [f], [g], [0x1000, 0x1002]);
    OneMore([f, g, f'], g', [f, f'], [g], [0x1000, 0x1002]);
  }

  lemma Keys(a: nat, b: nat, c: nat, d: nat)
    ensures Met(0x1000, "f", a).entry == Met(0x1000, "f", c).entry == 0x1000
    ensures Met(0x1002, "g", b).entry == Met(0x1002, "g", d).entry == 0x1002
  {
  }

  lemma OneMore(xs: seq<Start>, x: Start, fs: seq<Start>, gs: seq<Start>, seen: seq<nat>)
    requires Grouped(xs, fs, gs, seen)
    ensures Grouped(xs + [x], if x.entry == 0x1000 then fs + [x] else fs, if x.entry == 0x1002 then gs + [x] else gs,
                    if x.entry in seen then seen else seen + [x.entry])
  {
    hide Group, FirstSeen;
    GroupSnoc(EntryKey, xs, x, 0x1000);
    GroupSnoc(EntryKey, xs, x, 0x1002);
    FirstSeenStep(EntryKey, xs, x);
  }

  lemma NothingMet()
    ensures Grouped([], [], [], [])
  {
  }

  /** The walk gives both functions two instructions that ran; each run count is
      the one met last. */
  lemma FourFigures(resolver: Resolver, xs: seq<Start>, a: nat, b: nat, c: nat, d: nat)
    requires xs == [Met(0x1000, "f", a), Met(0x1002, "g", b), Met(0x1000, "f", c), Met(0x1002, "g", d)]
    requires a > 0 && b > 0 && c > 0 && d > 0
    ensures Figures(FunctionRowOf(resolver, xs, 0x1000)) == FunctionRow("", 0, "", 0, 0, 2, 2, c, a + c)
    ensures Figures(FunctionRowOf(resolver, xs, 0x1002)) == FunctionRow("", 0, "", 0, 0, 2, 2, d, b + d)
    ensures multiset(AllFigures(FunctionReport(resolver, xs)))
         == multiset{FunctionRow("", 0, "", 0, 0, 2, 2, c, a + c), FunctionRow("", 0, "", 0, 0, 2, 2, d, b + d)}
  {
    hide FunctionReport, FunctionRowOf, FirstSeen, Weigh, Group;
    FourGroups(xs, a, b, c, d);
    TwiceMet(resolver, xs, 0x1000, "f", a, c);
    TwiceMet(resolver, xs, 0x1002, "g", b, d);
    TwoRows(resolver, xs, 0x1000, 0x1002);
  }

  lemma TwoRows(resolver: Resolver, xs: seq<Start>, k: nat, l: nat)
    requires FirstSeen(EntryKey, xs) == [k, l]
    ensures multiset(AllFigures(FunctionReport(resolver, xs)))
         == multiset{Figures(FunctionRowOf(resolver, xs, k)), Figures(FunctionRowOf(resolver, xs, l))}
  {
    hide FunctionReport, FunctionRowOf, FirstSeen, Weigh, Figures, AllFigures;
    var p, q := FunctionRowOf(resolver, xs, k), FunctionRowOf(resolver, xs, l);
    RowsOfTwo(resolver, xs, k, l);
    var report := FunctionReport(resolver, xs);
    forall f: FunctionRow ensures multiset(AllFigures(report))[f] == multiset{Figures(p), Figures(q)}[f] {
      FiguresCount(report, f);
      ReportColumn(Bears(f), resolver, xs);
      NothingWeighs(Bears(f));
      WeighSnoc(Bears(f), [], p);
      WeighSnoc(Bears(f), [] + [p], q);
    }
  }

  lemma RowsOfTwo(resolver: Resolver, xs: seq<Start>, k: nat, l: nat)
    ensures FunctionRowsOf(resolver, xs, [k, l])
         == ([] + [FunctionRowOf(resolver, xs, k)]) + [FunctionRowOf(resolver, xs, l)]
  {
    hide FunctionRowOf;
    assert Init([k, l]) == [k] && Init([k]) == [];
  }

  lemma TwoOrders(ss: seq<SectionCounts>, s: SectionCounts, t: SectionCounts)
    requires multiset(ss) == multiset{s, t}
    ensures ss == [s, t] || ss == [t, s]
  {
    assert |ss| == |multiset(ss)| == 2;
    assert ss == [ss[0], ss[1]];
    assert multiset(ss) == multiset{ss[0], ss[1]};
    assert ss[0] in multiset{s, t};
    if ss[0] == s { assert multiset{ss[1]} == multiset(ss) - multiset{s} == multiset{t}; assert ss[1] in multiset{t}; }
    if ss[0] == t { assert multiset{ss[1]} == multiset(ss) - multiset{t} == multiset{s}; assert ss[1] in multiset{s}; }
  }

  /** Only a function's own row shows a disagreement for sure: here two starts
      disagree, and still every order of the sections gives the same totals and,
      as a multiset, the same figures. */
  lemma TotalsHideOrder(resolver: Resolver, s: SectionCounts, t: SectionCounts, ts: seq<SectionCounts>)
    requires Exchanged(resolver, s, t) && multiset(ts) == multiset{s, t}
    ensures !AllAgree(StartsOf(resolver, [s, t]))
    ensures var xs, ys := StartsOf(resolver, [s, t]), StartsOf(resolver, ts);
            && multiset(AllFigures(FunctionReport(resolver, xs))) == multiset(AllFigures(FunctionReport(resolver, ys)))
            && TotalsOf(FunctionReport(resolver, xs)) == TotalsOf(FunctionReport(resolver, ys))
  {
    hide StartsOf, SectionStarts, FunctionReport, AllFigures, TotalsOf, FunctionRowOf, Figures, SameFigures, AllAgree;
    TwoStarts(resolver, s, 1, 2);
    TwoStarts(resolver, t, 2, 1);
    FourStarts(resolver, s, t, 1, 2, 2, 1);
    FourStarts(resolver, t, s, 2, 1, 1, 2);
    var xs, ys := StartsOf(resolver, [s, t]), StartsOf(resolver, [t, s]);
    FourFigures(resolver, xs, 1, 2, 2, 1);
    FourFigures(resolver, ys, 2, 1, 1, 2);
    TwoOrders(ts, s, t);
    TotalsByFigures(FunctionReport(resolver, xs), FunctionReport(resolver, ys));
    FourGroups(xs, 1, 2, 2, 1);
    Disagree(xs);
  }

  lemma Disagree(xs: seq<Start>)
    requires OfEntry(xs, 0x1000) == [Met(0x1000, "f", 1), Met(0x1000, "f", 2)]
    ensures !AllAgree(xs)
  {
    hide Group;
    var g := OfEntry(xs, 0x1000);
    assert g[0] in g && g[1] in g && g[0].count != g[1].count;
    assert !Agree(g, 0x1000);
  }
}
