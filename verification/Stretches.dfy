/** Where symbolization can change, and the widest ranges over which it does not.
    The places are read off the symbols and rows as given, unsorted. */
module Stretches {
  import opened Prelude
  import opened Bisect
  import opened Sorting
  import opened Elf
  import L = LineTables

  /** A function is entered here. */
  ghost predicate EntryCut(symbols: seq<Symbol>, c: nat) {
    exists x :: x in symbols && IsFunction(x) && Masked(x.value) == c
  }

  /** The largest function entered where x is. */
  ghost predicate Largest(symbols: seq<Symbol>, x: Symbol) {
    && x in symbols && IsFunction(x)
    && forall y :: y in symbols && IsFunction(y) && Masked(y.value) == Masked(x.value) ==> y.size <= x.size
  }

  /** It ends here, and no other function was entered before it did. */
  ghost predicate EndCut(symbols: seq<Symbol>, c: nat) { exists x :: EndsAt(symbols, x, c) }

  ghost predicate EndsAt(symbols: seq<Symbol>, x: Symbol, c: nat) {
    && Largest(symbols, x) && x.size > 0 && c == Masked(x.value) + x.size
    && forall e :: Masked(x.value) < e < c ==> !EntryCut(symbols, e)
  }

  ghost predicate FunctionCut(symbols: seq<Symbol>, c: nat) { EntryCut(symbols, c) || EndCut(symbols, c) }

  /** A row begins here. */
  ghost predicate RowCut(rows: seq<L.LineRow>, c: nat) { exists r :: r in rows && r.address == c }

  // ----- stretches between cuts

  /** From the nearest cut at or below a, or zero, to the nearest above, or the
      bound of all addresses. */
  ghost predicate Stretch(cut: nat -> bool, a: nat, start: nat, end: nat) {
    && start <= a < end <= ADDRESS_MAX
    && (start == 0 || cut(start)) && (end == ADDRESS_MAX || cut(end))
    && forall c :: start < c < end ==> !cut(c)
  }

  /** The same among rows, which may lie above the bound too. */
  ghost predicate RowStretch(rows: seq<L.LineRow>, a: nat, start: nat, end: nat) {
    && start <= a < end
    && (start == 0 || RowCut(rows, start))
    && (RowCut(rows, end) || (end == ADDRESS_MAX && forall c :: c > a ==> !RowCut(rows, c)))
    && forall c :: start < c < end ==> !RowCut(rows, c)
  }

  ghost function FunctionCuts(symbols: seq<Symbol>): nat -> bool { (c: nat) => FunctionCut(symbols, c) }

  /** Function entries, function ends and row addresses. */
  ghost predicate Cut(symbols: seq<Symbol>, rows: seq<L.LineRow>, c: nat) { FunctionCut(symbols, c) || RowCut(rows, c) }

  ghost function Cuts(symbols: seq<Symbol>, rows: seq<L.LineRow>): nat -> bool { (c: nat) => Cut(symbols, rows, c) }

  /** An address lies in one stretch. */
  lemma StretchOne(cut: nat -> bool, a: nat, s: nat, e: nat, s': nat, e': nat)
    requires Stretch(cut, a, s, e) && Stretch(cut, a, s', e')
    ensures s == s' && e == e'
  {
  }

  lemma RowStretchOne(rows: seq<L.LineRow>, a: nat, s: nat, e: nat, s': nat, e': nat)
    requires RowStretch(rows, a, s, e) && RowStretch(rows, a, s', e')
    ensures s == s' && e == e'
  {
    hide RowCut;
  }

  lemma StretchMoves(cut: nat -> bool, a: nat, b: nat, s: nat, e: nat)
    requires Stretch(cut, a, s, e) && s <= b < e
    ensures Stretch(cut, b, s, e)
  {
  }

  /** No cut lies between two addresses, the higher one's own place included. */
  ghost predicate Together(cut: nat -> bool, a: nat, b: nat) {
    forall c :: Min(a, b) < c <= Max(a, b) ==> !cut(c)
  }

  /** The stretch of one holds the other exactly then. */
  lemma TogetherIff(cut: nat -> bool, a: nat, b: nat, s: nat, e: nat)
    requires Stretch(cut, a, s, e) && b < ADDRESS_MAX
    ensures s <= b < e <==> Together(cut, a, b)
  {
    if b < s { assert cut(s); }
    if b >= e { assert cut(e); }
  }

  // ----- the function table

  lemma EntryListed(symbols: seq<Symbol>, q: nat)
    requires q < |IndexOf(symbols).addresses|
    ensures EntryCut(symbols, IndexOf(symbols).addresses[q])
  {
    KeptIsSymbol(symbols, q);
    var sorted := SortBy(SymbolLess, Filter(IsFunction, symbols));
    SortedSymbols(symbols);
    var i := KeptIsFirst(sorted, q);
    assert sorted[i] in Filter(IsFunction, symbols);
    assert IndexOf(symbols).addresses[q] == Masked(IndexOf(symbols).symbols[q].value);
  }

  lemma EntryKept(symbols: seq<Symbol>, c: nat) returns (q: nat)
    requires EntryCut(symbols, c)
    ensures q < |IndexOf(symbols).addresses| && IndexOf(symbols).addresses[q] == c
  {
    var x :| x in symbols && IsFunction(x) && Masked(x.value) == c;
    var sorted := SortBy(SymbolLess, Filter(IsFunction, symbols));
    SortedSymbols(symbols);
    var j :| 0 <= j < |sorted| && sorted[j] == x;
    q := EachEntryKept(sorted, j);
    assert IndexOf(symbols).addresses[q] == Masked(IndexOf(symbols).symbols[q].value);
  }

  /** The symbol kept at an entry is a largest one there. */
  lemma KeptIsLargest(symbols: seq<Symbol>, q: nat)
    requires q < |IndexOf(symbols).symbols|
    ensures Largest(symbols, IndexOf(symbols).symbols[q])
    ensures IndexOf(symbols).addresses[q] == Masked(IndexOf(symbols).symbols[q].value)
  {
    hide IndexOf, StrictlyAscending;
    var index, functions := IndexOf(symbols), Filter(IsFunction, symbols);
    IndexAscends(symbols);
    NextIsAbove(index.addresses, q);
    KeptIsBest(symbols, index.addresses[q], q);
    var s := index.symbols[q];
    assert s in functions;
    AtItsEntry(symbols, q);
    forall y | y in symbols && IsFunction(y) && Masked(y.value) == Masked(s.value) ensures y.size <= s.size {
      assert y in functions && Candidate(y, index.addresses[q]);
    }
  }

  lemma NextIsAbove(a: seq<nat>, q: nat)
    requires StrictlyAscending(a) && q < |a|
    ensures q + 1 < |a| ==> a[q] < a[q + 1]
  {
  }

  lemma AtItsEntry(symbols: seq<Symbol>, q: nat)
    requires q < |IndexOf(symbols).symbols|
    ensures IndexOf(symbols).addresses[q] == Masked(IndexOf(symbols).symbols[q].value)
  {
  }

  /** Entries between two kept neighbours there are none. */
  lemma NoEntryBetween(symbols: seq<Symbol>, p: nat, c: nat)
    requires p < |IndexOf(symbols).addresses|
    requires IndexOf(symbols).addresses[p] < c < NextStart(IndexOf(symbols), p)
    ensures !EntryCut(symbols, c)
  {
    hide IndexOf, EntryCut;
    IndexAscends(symbols);
    if EntryCut(symbols, c) {
      var q := EntryKept(symbols, c);
      EntryOrder(IndexOf(symbols).addresses, p, q);
    }
  }

  lemma FirstIsLeast(a: seq<nat>, q: nat)
    requires StrictlyAscending(a) && q < |a|
    ensures a[0] <= a[q]
  {
  }

  lemma NoEntryBelow(symbols: seq<Symbol>, c: nat)
    requires IndexOf(symbols).addresses != [] ==> c < IndexOf(symbols).addresses[0]
    ensures !EntryCut(symbols, c)
  {
    hide IndexOf, EntryCut;
    IndexAscends(symbols);
    if EntryCut(symbols, c) {
      var q := EntryKept(symbols, c);
      FirstIsLeast(IndexOf(symbols).addresses, q);
    }
  }

  /** Between an entry and the next the only end is the kept symbol's. */
  lemma EndBetween(symbols: seq<Symbol>, p: nat, c: nat)
    requires p < |IndexOf(symbols).addresses|
    requires IndexOf(symbols).addresses[p] < c < NextStart(IndexOf(symbols), p)
    ensures EndCut(symbols, c) <==>
              IndexOf(symbols).symbols[p].size > 0
                  && c == IndexOf(symbols).addresses[p] + IndexOf(symbols).symbols[p].size
  {
    hide IndexOf, EntryCut;
    var index := IndexOf(symbols);
    KeptIsLargest(symbols, p);
    EntryListed(symbols, p);
    if x :| EndsAt(symbols, x, c) {
      var e := Masked(x.value);
      EntryOf(symbols, x);
      if e < index.addresses[p] { assert false; }
      if e > index.addresses[p] { NoEntryBetween(symbols, p, e); }
    }
    if index.symbols[p].size > 0 && c == index.addresses[p] + index.symbols[p].size {
      forall e | index.addresses[p] < e < c ensures !EntryCut(symbols, e) { NoEntryBetween(symbols, p, e); }
      assert EndsAt(symbols, index.symbols[p], c);
    }
  }

  lemma EntryOf(symbols: seq<Symbol>, x: Symbol)
    requires Largest(symbols, x)
    ensures EntryCut(symbols, Masked(x.value))
  {
  }

  lemma NoEndBelow(symbols: seq<Symbol>, c: nat)
    requires IndexOf(symbols).addresses != [] ==> c <= IndexOf(symbols).addresses[0]
    ensures !EndCut(symbols, c)
  {
    hide IndexOf, EntryCut;
    if x :| EndsAt(symbols, x, c) {
      EntryOf(symbols, x);
      NoEntryBelow(symbols, Masked(x.value));
    }
  }

  /** The span the index gives is exactly the stretch around the address. */
  lemma FunctionSpanExact(symbols: seq<Symbol>, address: nat)
    requires SymbolsFit(symbols) && address < ADDRESS_MAX
    ensures var span := SpanOf(IndexOf(symbols), address);
            Stretch(FunctionCuts(symbols), Masked(address), span.start, span.end)
  {
    hide IndexOf, EntryCut, EndCut, BisectRight, Ascending;
    var index := IndexOf(symbols);
    IndexOrderly(symbols);
    SpanHolds(index, address);
    if index.addresses == [] {
      forall c: nat ensures !FunctionCut(symbols, c) { NoEntryBelow(symbols, c); NoEndBelow(symbols, c); }
    } else {
      var p := BisectRight(index.addresses, Masked(address)) - 1;
      BisectHolds(index.addresses, Masked(address));
      if p < 0 {
        forall c: nat | c < index.addresses[0] ensures !FunctionCut(symbols, c) {
          NoEntryBelow(symbols, c);
          NoEndBelow(symbols, c);
        }
        EntryListed(symbols, 0);
      } else {
        GapExact(symbols, address, p);
      }
    }
  }

  lemma BisectHolds(a: seq<nat>, x: nat)
    requires StrictlyAscending(a)
    ensures var p := BisectRight(a, x) - 1;
            -1 <= p < |a| && (p >= 0 ==> a[p] <= x) && (p + 1 < |a| ==> x < a[p + 1])
  {
  }

  lemma GapExact(symbols: seq<Symbol>, address: nat, p: nat)
    requires SymbolsFit(symbols) && address < ADDRESS_MAX && p < |IndexOf(symbols).addresses|
    requires IndexOf(symbols).addresses[p] <= Masked(address) < NextStart(IndexOf(symbols), p)
    ensures var span := SpanOf(IndexOf(symbols), address);
            Stretch(FunctionCuts(symbols), Masked(address), span.start, span.end)
  {
    hide IndexOf, EntryCut, EndCut, BisectRight, SpanOf, Resolve;
    var index := IndexOf(symbols);
    IndexOrderly(symbols);
    SpanIs(index, address, p);
    EntryListed(symbols, p);
    if p + 1 < |index.addresses| { EntryListed(symbols, p + 1); }
    forall c: nat | index.addresses[p] < c < NextStart(index, p)
      ensures FunctionCut(symbols, c) <==> index.symbols[p].size > 0 && c == index.addresses[p] + index.symbols[p].size
    {
      NoEntryBetween(symbols, p, c);
      EndBetween(symbols, p, c);
    }
  }

  // ----- the line table

  lemma RowsListed(rows: seq<L.LineRow>, c: nat)
    ensures RowCut(rows, c) <==> c in L.TableOf(rows).addresses
  {
    hide L.TableOf;
    L.SortedRows(rows);
    var t := L.TableOf(rows);
    TableParallel(rows);
    if r :| r in rows && r.address == c {
      var j :| 0 <= j < |t.rows| && t.rows[j] == r;
      assert t.addresses[j] == c;
    }
    if c in t.addresses {
      var j :| 0 <= j < |t.addresses| && t.addresses[j] == c;
      assert t.rows[j] in rows;
    }
  }

  lemma TableParallel(rows: seq<L.LineRow>)
    ensures var t := L.TableOf(rows); forall j :: 0 <= j < |t.rows| ==> t.addresses[j] == t.rows[j].address
  {
  }

  /** Over the whole of a row span it is the stretch around every address. */
  lemma RowSpanExact(rows: seq<L.LineRow>, query: nat, a: nat)
    requires var span := L.SpanOf(L.TableOf(rows), query); span.start <= a < span.end
    ensures var span := L.SpanOf(L.TableOf(rows), query); RowStretch(rows, a, span.start, span.end)
  {
    hide L.TableOf, RowCut, BisectRight, L.RowLess;
    L.SortedRows(rows);
    forall c: nat ensures RowCut(rows, c) <==> c in L.TableOf(rows).addresses { RowsListed(rows, c); }
    RowGap(rows, L.TableOf(rows), query, a);
  }

  lemma RowGap(rows: seq<L.LineRow>, t: L.LineTable, query: nat, a: nat)
    requires |t.rows| == |t.addresses| && Ascending(t.addresses)
    requires forall c :: RowCut(rows, c) <==> c in t.addresses
    requires L.SpanOf(t, query).start <= a < L.SpanOf(t, query).end
    ensures RowStretch(rows, a, L.SpanOf(t, query).start, L.SpanOf(t, query).end)
  {
    hide RowCut;
    if t.rows != [] {
      var p := BisectRight(t.addresses, query) - 1;
      assert p >= 0 ==> t.addresses[p] in t.addresses;
      assert p + 1 < |t.addresses| ==> t.addresses[p + 1] in t.addresses;
    }
  }

  // ----- both together

  lemma BothStretch(symbols: seq<Symbol>, rows: seq<L.LineRow>, a: nat, s: nat, e: nat, s': nat, e': nat)
    requires Stretch(FunctionCuts(symbols), a, s, e) && RowStretch(rows, a, s', e')
    ensures Stretch(Cuts(symbols, rows), a, Max(s, s'), Min(e, e'))
  {
    hide FunctionCut, RowCut;
    var both := Cuts(symbols, rows);
    assert forall c: nat :: FunctionCuts(symbols)(c) || RowCut(rows, c) <==> both(c);
    forall c | Max(s, s') < c < Min(e, e') ensures !both(c) { assert !FunctionCuts(symbols)(c) && !RowCut(rows, c); }
    assert s != 0 ==> both(s);
    assert e != ADDRESS_MAX ==> both(e);
    assert s' != 0 ==> both(s');
    assert e' < ADDRESS_MAX ==> both(e');
  }
}
