/** The line table: the rows of all units together, sorted once and looked up by
    bisection. */
module LineTables {
  import opened Prelude
  import opened Bisect
  import opened Sorting
  import opened Resolved
  import opened Elf

  datatype LineRow = LineRow(address: nat, file: string, line: int, isStmt: bool, endSequence: bool)

  /** End rows sort before real rows at their address, so a real row wins. */
  function RowKey(r: LineRow): Key { (r.address, if r.endSequence then 0 else 1) }

  predicate RowLess(a: LineRow, b: LineRow) { KeyLess(RowKey(a), RowKey(b)) }

  function Addresses(rows: seq<LineRow>): (r: seq<nat>)
    ensures |r| == |rows|
    ensures forall i :: 0 <= i < |r| ==> r[i] == rows[i].address
  {
    seq(|rows|, i requires 0 <= i < |rows| => rows[i].address)
  }

  /** A built table: rows in order, and their addresses. */
  datatype LineTable = LineTable(rows: seq<LineRow>, addresses: seq<nat>)

  function TableOf(rows: seq<LineRow>): (t: LineTable)
    ensures |t.rows| == |t.addresses|
  {
    var sorted := SortBy(RowLess, rows);
    LineTable(sorted, Addresses(sorted))
  }

  function RowSource(row: LineRow): Option<ResolvedSource> {
    if row.endSequence then None else Some(ResolvedSource(row.file, row.line))
  }

  function Resolve(t: LineTable, address: nat): Option<ResolvedSource>
    requires |t.rows| == |t.addresses|
  {
    if t.rows == [] then None
    else
      var position := BisectRight(t.addresses, address) - 1;
      if position < 0 then None else RowSource(t.rows[position])
  }

  datatype SourceSpan = SourceSpan(start: nat, end: nat, source: Option<ResolvedSource>)

  function SpanOf(t: LineTable, address: nat): SourceSpan
    requires |t.rows| == |t.addresses|
  {
    if t.rows == [] then SourceSpan(0, ADDRESS_MAX, None)
    else
      var position := BisectRight(t.addresses, address) - 1;
      if position < 0 then SourceSpan(0, t.addresses[0], None)
      else
        var end := if position + 1 < |t.addresses| then t.addresses[position + 1] else ADDRESS_MAX;
        SourceSpan(t.addresses[position], end, RowSource(t.rows[position]))
  }

  // ----- the simple reading: one pass over the rows as given

  /** The last row, real rows preferred, at the greatest address not above. */
  function Scan(rows: seq<LineRow>, address: nat): Option<LineRow> {
    if rows == [] then None
    else
      var best, r := Scan(rows[..|rows| - 1], address), rows[|rows| - 1];
      if r.address <= address && (best.None? || !RowLess(r, best.value)) then Some(r) else best
  }

  function ScanResolve(rows: seq<LineRow>, address: nat): Option<ResolvedSource> {
    match Scan(rows, address)
    case None => None
    case Some(row) => RowSource(row)
  }

  function SameKey(r: LineRow): LineRow -> bool { x => RowKey(x) == RowKey(r) }

  /** r is what a scan must find: not above, nothing beats it, last of its key. */
  ghost predicate IsLast(rows: seq<LineRow>, address: nat, r: LineRow) {
    && r in rows && r.address <= address
    && (forall x :: x in rows && x.address <= address ==> !RowLess(r, x))
    && Filter(SameKey(r), rows) != [] && Filter(SameKey(r), rows)[|Filter(SameKey(r), rows)| - 1] == r
  }

  lemma {:induction false} SameKeyFilter(xs: seq<LineRow>, a: LineRow, b: LineRow)
    requires RowKey(a) == RowKey(b)
    ensures Filter(SameKey(a), xs) == Filter(SameKey(b), xs)
  {
    if xs != [] { SameKeyFilter(xs[1..], a, b); }
  }

  lemma LastIsUnique(rows: seq<LineRow>, address: nat, a: LineRow, b: LineRow)
    requires IsLast(rows, address, a) && IsLast(rows, address, b)
    ensures a == b
  {
    assert !RowLess(a, b) && !RowLess(b, a);
    SameKeyFilter(rows, a, b);
  }

  ghost predicate ScanGoal(rows: seq<LineRow>, address: nat, found: Option<LineRow>) {
    match found
    case None => forall x :: x in rows ==> x.address > address
    case Some(r) => IsLast(rows, address, r)
  }

  lemma OneRow(r: LineRow, last: LineRow)
    ensures Filter(SameKey(r), [last]) == if RowKey(last) == RowKey(r) then [last] else []
  {
    assert [last][1..] == [];
  }

  lemma ScanExtends(before: seq<LineRow>, best: Option<LineRow>, last: LineRow, address: nat)
    requires ScanGoal(before, address, best)
    ensures ScanGoal(before + [last], address,
                     if last.address <= address && (best.None? || !RowLess(last, best.value))
                     then Some(last) else best)
  {
    hide Filter;
    OneRow(last, last);
    if best.Some? { OneRow(best.value, last); }
    if last.address <= address && (best.None? || !RowLess(last, best.value)) {
      FilterConcat(SameKey(last), before, [last]);
    } else if best.Some? {
      FilterConcat(SameKey(best.value), before, [last]);
    }
  }

  lemma {:induction false} ScanIsLast(rows: seq<LineRow>, address: nat)
    ensures ScanGoal(rows, address, Scan(rows, address))
  {
    if rows != [] {
      var n := |rows| - 1;
      ScanIsLast(rows[..n], address);
      hide ScanGoal;
      ScanExtends(rows[..n], Scan(rows[..n], address), rows[n], address);
      assert rows == rows[..n] + [rows[n]];
    }
  }

  lemma SortedRows(rows: seq<LineRow>)
    ensures var t := TableOf(rows);
            Sorted(RowLess, t.rows) && Ascending(t.addresses) && forall x :: x in t.rows <==> x in rows
  {
    KeyOrders(RowLess, RowKey);
    SortSorts(RowLess, rows);
    SortKeeps(RowLess, rows);
    var t := TableOf(rows);
    forall i, j | 0 <= i < j < |t.addresses| ensures t.addresses[i] <= t.addresses[j] {
      assert !RowLess(t.rows[j], t.rows[i]);
    }
  }

  lemma NothingBeats(sorted: seq<LineRow>, address: nat, p: nat, j: nat)
    requires Sorted(RowLess, sorted) && p < |sorted| && j < |sorted| && sorted[j].address <= address
    requires forall i :: p < i < |sorted| ==> address < sorted[i].address
    ensures !RowLess(sorted[p], sorted[j])
  {
    if j < p { assert !RowLess(sorted[p], sorted[j]); }
  }

  lemma RowsAbove(rows: seq<LineRow>, address: nat, p: nat)
    requires p < |TableOf(rows).rows| && p == BisectRight(TableOf(rows).addresses, address) - 1
    ensures TableOf(rows).rows[p].address <= address
    ensures forall i :: p < i < |TableOf(rows).rows| ==> address < TableOf(rows).rows[i].address
  {
    SortedRows(rows);
    var t := TableOf(rows);
    assert t.addresses[p] <= address;
    forall i | p < i < |t.rows| ensures address < t.rows[i].address { assert address < t.addresses[i]; }
  }

  lemma LastOfSorted(rows: seq<LineRow>, sorted: seq<LineRow>, address: nat, p: nat)
    requires Sorted(RowLess, sorted) && p < |sorted| && sorted[p].address <= address
    requires forall i :: p < i < |sorted| ==> address < sorted[i].address
    requires forall x :: x in sorted <==> x in rows
    requires Filter(SameKey(sorted[p]), sorted) == Filter(SameKey(sorted[p]), rows)
    ensures IsLast(rows, address, sorted[p])
  {
    hide RowLess, Sorted;
    var r := sorted[p];
    forall x | x in rows && x.address <= address ensures !RowLess(r, x) {
      var j :| 0 <= j < |sorted| && sorted[j] == x;
      NothingBeats(sorted, address, p, j);
    }
    forall j | p < j < |sorted| ensures !SameKey(r)(sorted[j]) {
      assert address < sorted[j].address;
    }
    FilterLast(SameKey(r), sorted, p);
  }

  lemma FoundIsLast(rows: seq<LineRow>, address: nat, p: nat)
    requires p < |TableOf(rows).rows| && p == BisectRight(TableOf(rows).addresses, address) - 1
    ensures IsLast(rows, address, TableOf(rows).rows[p])
  {
    hide BisectRight, Ascending, IsLast;
    SortedRows(rows);
    RowsAbove(rows, address, p);
    SortedFilter(rows, TableOf(rows).rows[p]);
    LastOfSorted(rows, TableOf(rows).rows, address, p);
  }

  lemma SortedFilter(rows: seq<LineRow>, r: LineRow)
    ensures Filter(SameKey(r), TableOf(rows).rows) == Filter(SameKey(r), rows)
  {
    SortStable(RowLess, rows, SameKey(r));
  }

  /** Sorting and bisecting find what one pass over the rows finds, whatever
      order the rows came in. */
  lemma ResolveIsScan(rows: seq<LineRow>, address: nat)
    ensures Resolve(TableOf(rows), address) == ScanResolve(rows, address)
  {
    var t := TableOf(rows);
    SortedRows(rows);
    ScanIsLast(rows, address);
    var p := BisectRight(t.addresses, address) - 1;
    if p < 0 {
      forall x | x in rows ensures x.address > address {
        var j :| 0 <= j < |t.rows| && t.rows[j] == x;
        assert t.addresses[j] == x.address;
      }
    } else {
      FoundIsLast(rows, address, p);
      assert t.rows[p] in rows && t.rows[p].address <= address;
      LastIsUnique(rows, address, t.rows[p], Scan(rows, address).value);
    }
  }

  /** No row lies at or below the address, or only end rows lie at the greatest
      row address at or below it. */
  ghost predicate Outside(rows: seq<LineRow>, address: nat) {
    forall r :: r in rows && r.address <= address && !r.endSequence ==>
      exists x :: x in rows && r.address < x.address <= address
  }

  /** An address resolves to nothing exactly when it is outside all code with
      line information: a real row loses only to a row at a greater address. */
  lemma ResolveNoneIff(rows: seq<LineRow>, address: nat)
    ensures Resolve(TableOf(rows), address) == None <==> Outside(rows, address)
  {
    ResolveIsScan(rows, address);
    ScanIsLast(rows, address);
    if Scan(rows, address).Some? {
      var r := Scan(rows, address).value;
      if r.endSequence {
        forall x | x in rows && x.address <= address && !x.endSequence
          ensures exists y :: y in rows && x.address < y.address <= address
        {
          assert !RowLess(r, x);
          assert r in rows && x.address < r.address <= address;
        }
      } else {
        forall x | x in rows && x.address <= address ensures x.address <= r.address {
          assert !RowLess(r, x);
        }
        assert r in rows && r.address <= address;
      }
    }
  }

  /** A span holds its address, and the answer is the same over all of it. */
  lemma SpanIsConstant(rows: seq<LineRow>, address: nat, other: nat)
    ensures var span := SpanOf(TableOf(rows), address);
            && span.source == ScanResolve(rows, address)
            && (address < ADDRESS_MAX ==> span.start <= address < span.end)
            && (span.start <= other < span.end ==> ScanResolve(rows, other) == span.source)
  {
    var t := TableOf(rows);
    SortedRows(rows);
    ResolveIsScan(rows, address);
    ResolveIsScan(rows, other);
    if t.rows == [] { return; }
    var span := SpanOf(t, address);
    var p := BisectRight(t.addresses, address) - 1;
    if span.start <= other < span.end { BisectRightIs(t.addresses, other, p + 1); }
  }
}
