/** The function index of an image: symbols sorted by masked entry, one kept at
    each, and looked up by bisection. */
module Elf {
  import opened Prelude
  import opened Bisect
  import opened Sorting

  const STT_FUNC: nat := 2

  /** The open upper bound of an address span. */
  const ADDRESS_MAX: nat := 0x1_0000_0000_0000_0000

  datatype Symbol = Symbol(name: string, value: nat, size: nat, kind: nat)

  predicate IsFunction(s: Symbol) { s.kind == STT_FUNC && s.value != 0 }

  function SymbolKey(s: Symbol): Key {
    var size: int := s.size;
    (Masked(s.value), -size)
  }

  predicate SymbolLess(a: Symbol, b: Symbol) { KeyLess(SymbolKey(a), SymbolKey(b)) }

  datatype Index = Index(addresses: seq<nat>, symbols: seq<Symbol>)

  /** Of neighbours with one masked address only the first stays. */
  function Dedupe(sorted: seq<Symbol>): seq<Symbol> {
    if sorted == [] then []
    else
      var kept, last := Dedupe(sorted[..|sorted| - 1]), sorted[|sorted| - 1];
      if kept != [] && Masked(kept[|kept| - 1].value) == Masked(last.value) then kept else kept + [last]
  }

  function Entries(symbols: seq<Symbol>): (r: seq<nat>)
    ensures |r| == |symbols|
    ensures forall i :: 0 <= i < |r| ==> r[i] == Masked(symbols[i].value)
  {
    seq(|symbols|, i requires 0 <= i < |symbols| => Masked(symbols[i].value))
  }

  function IndexOf(symbols: seq<Symbol>): (r: Index)
    ensures |r.addresses| == |r.symbols|
  {
    var kept := Dedupe(SortBy(SymbolLess, Filter(IsFunction, symbols)));
    Index(Entries(kept), kept)
  }

  function Resolve(index: Index, address: nat): Option<Symbol>
    requires |index.addresses| == |index.symbols|
  {
    if index.addresses == [] then None
    else
      var target := Masked(address);
      var position := BisectRight(index.addresses, target) - 1;
      if position < 0 then None
      else
        var symbol := index.symbols[position];
        var start := index.addresses[position];
        if symbol.size > 0 then (if target < start + symbol.size then Some(symbol) else None)
        else if position + 1 < |index.addresses| && target >= index.addresses[position + 1] then None
        else Some(symbol)
  }

  datatype FunctionSpan = FunctionSpan(start: nat, end: nat, symbol: Option<Symbol>)

  function SpanOf(index: Index, address: nat): FunctionSpan
    requires |index.addresses| == |index.symbols|
  {
    if index.addresses == [] then FunctionSpan(0, ADDRESS_MAX, None)
    else
      var target := Masked(address);
      var position := BisectRight(index.addresses, target) - 1;
      if position < 0 then FunctionSpan(0, index.addresses[0], None)
      else
        var symbol := index.symbols[position];
        var start := index.addresses[position];
        var next := NextStart(index, position);
        if symbol.size == 0 then FunctionSpan(start, next, Some(symbol))
        else
          var end := Min(start + symbol.size, next);
          if target < end then FunctionSpan(start, end, Some(symbol)) else FunctionSpan(end, next, None)
  }

  function NextStart(index: Index, position: nat): nat
    requires position < |index.addresses|
  {
    if position + 1 < |index.addresses| then index.addresses[position + 1] else ADDRESS_MAX
  }

  // ----- the reader, index built on first use

  class ElfFile {
    const symbols: seq<Symbol>
    var index: Option<Index>

    ghost predicate Valid()
      reads this
    {
      index.None? || index.value == IndexOf(symbols)
    }

    constructor (symbols: seq<Symbol>)
      ensures Valid() && this.symbols == symbols && index.None?
    {
      this.symbols, index := symbols, None;
    }

    method BuildFunctionIndex() returns (r: Index)
      ensures r == IndexOf(symbols)
    {
      var functions := SortBy(SymbolLess, Filter(IsFunction, symbols));
      var deduped: seq<Symbol> := [];
      for i := 0 to |functions|
        invariant deduped == Dedupe(functions[..i])
      {
        var symbol := functions[i];
        assert functions[..i + 1][..i] == functions[..i];
        if deduped != [] && Masked(deduped[|deduped| - 1].value) == Masked(symbol.value) { continue; }
        deduped := deduped + [symbol];
      }
      assert functions[..|functions|] == functions;
      r := Index(Entries(deduped), deduped);
    }

    method ResolveFunction(address: nat) returns (r: Option<Symbol>)
      requires Valid()
      modifies this`index
      ensures Valid() && r == Resolve(IndexOf(symbols), address)
    {
      if index.None? {
        var built := BuildFunctionIndex();
        index := Some(built);
      }
      r := Resolve(index.value, address);
    }

    method SpanAt(address: nat) returns (r: FunctionSpan)
      requires Valid()
      modifies this`index
      ensures Valid() && r == SpanOf(IndexOf(symbols), address)
    {
      if index.None? {
        var built := BuildFunctionIndex();
        index := Some(built);
      }
      r := SpanOf(index.value, address);
    }
  }

  // ----- the simple reading: one pass over the symbols

  /** A function symbol that starts at or below the target. */
  predicate Candidate(s: Symbol, target: nat) { IsFunction(s) && Masked(s.value) <= target }

  /** A later entry, or the same entry and a larger size. */
  predicate Better(a: Symbol, b: Symbol) {
    Masked(a.value) > Masked(b.value) || (Masked(a.value) == Masked(b.value) && a.size > b.size)
  }

  /** The largest symbol at the greatest entry at or below the target; the first
      such in the symbol table. */
  function Scan(symbols: seq<Symbol>, target: nat): Option<Symbol> {
    if symbols == [] then None
    else
      var best, s := Scan(symbols[..|symbols| - 1], target), symbols[|symbols| - 1];
      if Candidate(s, target) && (best.None? || Better(s, best.value)) then Some(s) else best
  }

  function ScanResolve(symbols: seq<Symbol>, address: nat): Option<Symbol> {
    var target := Masked(address);
    match Scan(symbols, target)
    case None => None
    case Some(s) => if s.size > 0 && target >= Masked(s.value) + s.size then None else Some(s)
  }

  function SameKey(s: Symbol): Symbol -> bool { x => SymbolKey(x) == SymbolKey(s) }

  /** s is what a scan must find: a candidate, none better, first of its key. */
  ghost predicate IsBest(functions: seq<Symbol>, target: nat, s: Symbol) {
    && s in functions && Candidate(s, target)
    && (forall x :: x in functions && Candidate(x, target) ==> !Better(x, s))
    && Filter(SameKey(s), functions) != [] && Filter(SameKey(s), functions)[0] == s
  }

  lemma BestIsUnique(functions: seq<Symbol>, target: nat, a: Symbol, b: Symbol)
    requires IsBest(functions, target, a) && IsBest(functions, target, b)
    ensures a == b
  {
    assert !Better(a, b) && !Better(b, a);
    assert SymbolKey(a) == SymbolKey(b);
    SameKeyFilter(functions, a, b);
  }

  lemma {:induction false} SameKeyFilter(xs: seq<Symbol>, a: Symbol, b: Symbol)
    requires SymbolKey(a) == SymbolKey(b)
    ensures Filter(SameKey(a), xs) == Filter(SameKey(b), xs)
  {
    if xs != [] { SameKeyFilter(xs[1..], a, b); }
  }

  lemma {:induction false} ScanIsBest(symbols: seq<Symbol>, target: nat)
    ensures var functions := Filter(IsFunction, symbols);
            match Scan(symbols, target)
            case None => forall x :: x in functions ==> !Candidate(x, target)
            case Some(s) => IsBest(functions, target, s)
  {
    if symbols != [] {
      var n := |symbols| - 1;
      var before, last := symbols[..n], symbols[n];
      ScanIsBest(before, target);
      assert symbols == before + [last];
      FilterConcat(IsFunction, before, [last]);
      ScanExtends(Filter(IsFunction, before), Scan(before, target), last, target);
      assert Filter(IsFunction, [last]) == if IsFunction(last) then [last] else [];
    }
  }

  lemma ScanExtends(functions: seq<Symbol>, best: Option<Symbol>, last: Symbol, target: nat)
    requires forall x :: x in functions ==> IsFunction(x)
    requires match best
             case None => forall x :: x in functions ==> !Candidate(x, target)
             case Some(s) => IsBest(functions, target, s)
    ensures var more := functions + if IsFunction(last) then [last] else [];
            match (if Candidate(last, target) && (best.None? || Better(last, best.value)) then Some(last) else best)
            case None => forall x :: x in more ==> !Candidate(x, target)
            case Some(s) => IsBest(more, target, s)
  {
    if Candidate(last, target) && (best.None? || Better(last, best.value)) {
      FilterConcat(SameKey(last), functions, [last]);
      forall i | 0 <= i < |functions| ensures !SameKey(last)(functions[i]) {
        assert functions[i] in functions;
      }
      FilterNone(SameKey(last), functions);
    } else if best.Some? {
      FilterConcat(SameKey(best.value), functions, if IsFunction(last) then [last] else []);
    }
  }

  // ----- the kept symbols

  lemma {:induction false} DedupeAscends(sorted: seq<Symbol>)
    requires Sorted(SymbolLess, sorted)
    ensures StrictlyAscending(Entries(Dedupe(sorted)))
    ensures (Dedupe(sorted) == []) == (sorted == [])
    ensures sorted != [] ==>
              Masked(Dedupe(sorted)[|Dedupe(sorted)| - 1].value) == Masked(sorted[|sorted| - 1].value)
  {
    hide Entries, StrictlyAscending, SymbolLess, Sorted;
    if sorted == [] {
      NoEntries();
    } else {
      var n := |sorted| - 1;
      SortedPart(sorted, n);
      DedupeAscends(sorted[..n]);
      var kept := Dedupe(sorted[..n]);
      if n == 0 {
        OneEntry(sorted[n]);
      } else {
        EntriesGrow(kept, sorted[n]);
      }
    }
  }

  lemma NoEntries()
    ensures StrictlyAscending(Entries([]))
  {
  }

  lemma OneEntry(s: Symbol)
    ensures StrictlyAscending(Entries([] + [s]))
  {
  }

  lemma SortedPart(sorted: seq<Symbol>, n: nat)
    requires Sorted(SymbolLess, sorted) && n < |sorted|
    ensures Sorted(SymbolLess, sorted[..n])
    ensures n > 0 ==> Masked(sorted[n - 1].value) <= Masked(sorted[n].value)
  {
    assert n > 0 ==> !SymbolLess(sorted[n], sorted[n - 1]);
  }

  lemma EntriesGrow(kept: seq<Symbol>, last: Symbol)
    requires kept != [] && StrictlyAscending(Entries(kept)) && Masked(kept[|kept| - 1].value) <= Masked(last.value)
    ensures Masked(kept[|kept| - 1].value) != Masked(last.value) ==> StrictlyAscending(Entries(kept + [last]))
  {
    var old', entries := Entries(kept), Entries(kept + [last]);
    if Masked(kept[|kept| - 1].value) != Masked(last.value) {
      forall i, j | 0 <= i < j < |entries| ensures entries[i] < entries[j] {
        assert entries[i] == old'[i] <= old'[|kept| - 1];
        assert j < |kept| ==> entries[j] == old'[j];
      }
    }
  }

  /** sorted[i] is the first at its entry. */
  ghost predicate FirstAt(sorted: seq<Symbol>, i: nat) {
    i < |sorted| && forall j :: 0 <= j < i ==> Masked(sorted[j].value) < Masked(sorted[i].value)
  }

  lemma {:induction false} KeptIsFirst(sorted: seq<Symbol>, q: nat) returns (i: nat)
    requires Sorted(SymbolLess, sorted) && q < |Dedupe(sorted)|
    ensures FirstAt(sorted, i) && sorted[i] == Dedupe(sorted)[q]
  {
    var n := |sorted| - 1;
    var kept := Dedupe(sorted[..n]);
    DedupeAscends(sorted[..n]);
    if q < |kept| {
      i := KeptIsFirst(sorted[..n], q);
      assert forall j :: 0 <= j < i ==> sorted[..n][j] == sorted[j];
    } else {
      i := n;
      forall j | 0 <= j < n ensures Masked(sorted[j].value) < Masked(sorted[n].value) {
        assert !SymbolLess(sorted[n], sorted[n - 1]);
        assert j < n - 1 ==> !SymbolLess(sorted[n - 1], sorted[j]);
      }
    }
  }

  lemma {:induction false} EachEntryKept(sorted: seq<Symbol>, i: nat) returns (q: nat)
    requires Sorted(SymbolLess, sorted) && i < |sorted|
    ensures q < |Dedupe(sorted)| && Masked(Dedupe(sorted)[q].value) == Masked(sorted[i].value)
  {
    var n := |sorted| - 1;
    DedupeAscends(sorted);
    if i == n {
      q := |Dedupe(sorted)| - 1;
    } else {
      q := EachEntryKept(sorted[..n], i);
      assert Dedupe(sorted)[q] == Dedupe(sorted[..n])[q];
    }
  }

  lemma SortedSymbols(symbols: seq<Symbol>)
    ensures var functions := Filter(IsFunction, symbols);
            var sorted := SortBy(SymbolLess, functions);
            && Sorted(SymbolLess, sorted) && (forall x :: x in sorted <==> x in functions)
  {
    KeyOrders(SymbolLess, SymbolKey);
    SortSorts(SymbolLess, Filter(IsFunction, symbols));
    SortKeeps(SymbolLess, Filter(IsFunction, symbols));
  }

  /** What the bisection finds is what a scan must find. */
  lemma KeptIsBest(symbols: seq<Symbol>, target: nat, q: nat)
    requires q < |IndexOf(symbols).symbols| && IndexOf(symbols).addresses[q] <= target
    requires q + 1 < |IndexOf(symbols).symbols| ==> target < IndexOf(symbols).addresses[q + 1]
    ensures IsBest(Filter(IsFunction, symbols), target, IndexOf(symbols).symbols[q])
  {
    var functions := Filter(IsFunction, symbols);
    var sorted := SortBy(SymbolLess, functions);
    SortedSymbols(symbols);
    var s := Dedupe(sorted)[q];
    var i := KeptIsFirst(sorted, q);
    assert sorted[i] in functions;
    forall x | x in functions && Candidate(x, target) ensures !Better(x, s) {
      var j :| 0 <= j < |sorted| && sorted[j] == x;
      BestInOrder(sorted, target, q, i, j);
    }
    forall j | 0 <= j < i ensures !SameKey(s)(sorted[j]) {
      assert Masked(sorted[j].value) < Masked(sorted[i].value);
    }
    FilterFirst(SameKey(s), sorted, i);
    SortStable(SymbolLess, functions, SameKey(s));
  }

  lemma BestInOrder(sorted: seq<Symbol>, target: nat, q: nat, i: nat, j: nat)
    requires Sorted(SymbolLess, sorted) && q < |Dedupe(sorted)| && FirstAt(sorted, i) && sorted[i] == Dedupe(sorted)[q]
    requires q + 1 < |Dedupe(sorted)| ==> target < Masked(Dedupe(sorted)[q + 1].value)
    requires j < |sorted| && Masked(sorted[j].value) <= target
    ensures !Better(sorted[j], sorted[i])
  {
    var r := EachEntryKept(sorted, j);
    DedupeAscends(sorted);
    var entries := Entries(Dedupe(sorted));
    EntryOrder(entries, q, r);
    if j > i { assert !SymbolLess(sorted[j], sorted[i]); }
  }

  lemma EntryOrder(entries: seq<nat>, q: nat, r: nat)
    requires StrictlyAscending(entries) && q < |entries| && r < |entries|
    ensures r > q ==> entries[q + 1] <= entries[r]
    ensures r < q ==> entries[r] < entries[q]
  {
    assert r > q + 1 ==> entries[q + 1] < entries[r];
  }

  lemma IndexAscends(symbols: seq<Symbol>)
    ensures StrictlyAscending(IndexOf(symbols).addresses)
  {
    SortedSymbols(symbols);
    DedupeAscends(SortBy(SymbolLess, Filter(IsFunction, symbols)));
  }

  /** With nothing at or below the target, there is no candidate either. */
  lemma NothingBelow(symbols: seq<Symbol>, target: nat)
    requires forall q :: 0 <= q < |IndexOf(symbols).addresses| ==> target < IndexOf(symbols).addresses[q]
    ensures Scan(symbols, target) == None
  {
    var functions := Filter(IsFunction, symbols);
    var sorted := SortBy(SymbolLess, functions);
    SortedSymbols(symbols);
    ScanIsBest(symbols, target);
    assert Scan(symbols, target).Some? ==> Scan(symbols, target).value in functions;
    forall x | x in functions ensures !Candidate(x, target) {
      var j :| 0 <= j < |sorted| && sorted[j] == x;
      var q := EachEntryKept(sorted, j);
      assert IndexOf(symbols).addresses[q] == Masked(x.value);
    }
  }

  /** Sorting, deduplicating and bisecting find what one pass over the symbol
      table finds: the largest symbol at the greatest entry at or below the
      address, within its size when it has one. */
  lemma ResolveIsScan(symbols: seq<Symbol>, address: nat)
    ensures Resolve(IndexOf(symbols), address) == ScanResolve(symbols, address)
  {
    var index, target := IndexOf(symbols), Masked(address);
    IndexAscends(symbols);
    var position := BisectRight(index.addresses, target) - 1;
    if position < 0 {
      NothingBelow(symbols, target);
    } else {
      assert position + 1 < |index.addresses| ==> target < index.addresses[position + 1];
      KeptIsBest(symbols, target, position);
      ScanIsBest(symbols, target);
      BestIsScan(symbols, target, index.symbols[position]);
    }
  }

  lemma BestIsScan(symbols: seq<Symbol>, target: nat, s: Symbol)
    requires IsBest(Filter(IsFunction, symbols), target, s)
    ensures Scan(symbols, target) == Some(s)
  {
    ScanIsBest(symbols, target);
    assert Candidate(s, target);
    BestIsUnique(Filter(IsFunction, symbols), target, s, Scan(symbols, target).value);
  }

  // ----- which symbol of the table it is

  /** A function symbol: of type 2, anywhere but at zero, its entry not above. */
  ghost predicate Eligible(s: Symbol, target: nat) { s.kind == 2 && s.value != 0 && Masked(s.value) <= target }

  /** Symbol i is eligible, and every other eligible one has a lower entry, or the
      same entry and a smaller size, or is its equal in both and listed later. */
  ghost predicate Chosen(symbols: seq<Symbol>, target: nat, i: int) {
    && 0 <= i < |symbols| && Eligible(symbols[i], target)
    && forall j :: 0 <= j < |symbols| && Eligible(symbols[j], target) ==>
         || Masked(symbols[j].value) < Masked(symbols[i].value)
         || (Masked(symbols[j].value) == Masked(symbols[i].value) && symbols[j].size < symbols[i].size)
         || (Masked(symbols[j].value) == Masked(symbols[i].value) && symbols[j].size == symbols[i].size && i <= j)
  }

  lemma {:induction false} ScanChooses(symbols: seq<Symbol>, target: nat)
    ensures match Scan(symbols, target)
            case None => forall j :: 0 <= j < |symbols| ==> !Eligible(symbols[j], target)
            case Some(s) => exists i :: Chosen(symbols, target, i) && symbols[i] == s
  {
    if symbols != [] {
      var n := |symbols| - 1;
      ScanChooses(symbols[..n], target);
      var best, s := Scan(symbols[..n], target), symbols[n];
      if Eligible(s, target) && (best.None? || Better(s, best.value)) {
        assert Chosen(symbols, target, n);
      } else if best.Some? {
        var i :| Chosen(symbols[..n], target, i) && symbols[..n][i] == best.value;
        assert Chosen(symbols, target, i) && symbols[i] == best.value;
      }
    }
  }

  lemma ChosenIsScan(symbols: seq<Symbol>, target: nat, i: int)
    requires Chosen(symbols, target, i)
    ensures Scan(symbols, target) == Some(symbols[i])
  {
    hide Scan;
    ScanChooses(symbols, target);
    var k :| Chosen(symbols, target, k) && symbols[k] == Scan(symbols, target).value;
    assert i <= k && k <= i;
  }

  /** A lookup finds the one symbol that is chosen among those at or below the
      address, and finds it if and only if it has no size or the address is within
      it. */
  lemma ResolveChooses(symbols: seq<Symbol>, address: nat, s: Symbol)
    ensures Resolve(IndexOf(symbols), address) == Some(s)
            <==> exists i :: Chosen(symbols, Masked(address), i) && symbols[i] == s
                             && (s.size == 0 || Masked(address) < Masked(s.value) + s.size)
  {
    hide Resolve, IndexOf, Scan;
    ResolveIsScan(symbols, address);
    ScanChooses(symbols, Masked(address));
    forall i | Chosen(symbols, Masked(address), i) ensures Scan(symbols, Masked(address)) == Some(symbols[i]) {
      ChosenIsScan(symbols, Masked(address), i);
    }
  }

  // ----- spans

  ghost predicate SymbolsFit(symbols: seq<Symbol>) {
    forall i :: 0 <= i < |symbols| ==> symbols[i].value < ADDRESS_MAX
  }

  lemma KeptIsSymbol(symbols: seq<Symbol>, q: nat)
    requires q < |IndexOf(symbols).symbols|
    ensures IndexOf(symbols).symbols[q] in symbols
  {
    var sorted := SortBy(SymbolLess, Filter(IsFunction, symbols));
    SortedSymbols(symbols);
    var i := KeptIsFirst(sorted, q);
    assert sorted[i] in Filter(IsFunction, symbols);
  }

  /** An index with its entries in order and in range. */
  ghost predicate Orderly(index: Index) {
    && |index.addresses| == |index.symbols| && StrictlyAscending(index.addresses)
    && (forall q :: 0 <= q < |index.addresses| ==> index.addresses[q] < ADDRESS_MAX && index.addresses[q] % 2 == 0)
  }

  lemma IndexOrderly(symbols: seq<Symbol>)
    requires SymbolsFit(symbols)
    ensures Orderly(IndexOf(symbols))
  {
    IndexAscends(symbols);
    var index := IndexOf(symbols);
    forall q | 0 <= q < |index.addresses| ensures index.addresses[q] < ADDRESS_MAX && index.addresses[q] % 2 == 0 {
      KeptIsSymbol(symbols, q);
      var value := index.symbols[q].value;
      assert Masked(value) <= value;
    }
  }

  lemma SpanHolds(index: Index, address: nat)
    requires Orderly(index) && address < ADDRESS_MAX
    ensures var span := SpanOf(index, address);
            span.start <= Masked(address) < span.end && span.symbol == Resolve(index, address)
  {
  }

  /** Addresses of one span lie between the same entries. */
  lemma SpanOneGap(index: Index, address: nat, other: nat)
    requires Orderly(index) && address < ADDRESS_MAX && other < ADDRESS_MAX
    requires var span := SpanOf(index, address); span.start <= Masked(other) < span.end
    ensures BisectRight(index.addresses, Masked(other)) == BisectRight(index.addresses, Masked(address))
  {
    hide Resolve;
    if index.addresses != [] {
      BisectRightIs(index.addresses, Masked(other), BisectRight(index.addresses, Masked(address)));
    }
  }

  lemma SpanSame(index: Index, address: nat, other: nat)
    requires Orderly(index) && address < ADDRESS_MAX && other < ADDRESS_MAX
    ensures var span := SpanOf(index, address);
            && span.start <= Masked(address) < span.end
            && span.symbol == Resolve(index, address)
            && (span.start <= Masked(other) < span.end ==> Resolve(index, other) == span.symbol)
  {
    hide Masked, BisectRight;
    SpanHolds(index, address);
    var span := SpanOf(index, address);
    if span.start <= Masked(other) < span.end { SpanOneGap(index, address, other); }
  }

  /** The span and the answer between one entry and the next. */
  lemma SpanIs(index: Index, address: nat, p: nat)
    requires Orderly(index) && p < |index.addresses|
    requires index.addresses[p] <= Masked(address) < NextStart(index, p)
    ensures var symbol, start, next := index.symbols[p], index.addresses[p], NextStart(index, p);
            var end := if symbol.size == 0 then next else Min(start + symbol.size, next);
            SpanOf(index, address) == if Masked(address) < end then FunctionSpan(start, end, Some(symbol))
                                      else FunctionSpan(end, next, None)
    ensures Resolve(index, address).Some?
            <==> index.symbols[p].size == 0 || Masked(address) < index.addresses[p] + index.symbols[p].size
  {
    BisectRightIs(index.addresses, Masked(address), p + 1);
  }

  /** A span that starts at an odd address is a hole behind an odd-sized symbol. */
  lemma OddSpanIsHole(index: Index, address: nat)
    requires Orderly(index) && address < ADDRESS_MAX && SpanOf(index, address).start % 2 == 1
    ensures exists p :: 0 <= p < |index.addresses| && index.symbols[p].size > 0
              && SpanOf(index, address).start
                 == index.addresses[p] + index.symbols[p].size <= Masked(address) < NextStart(index, p)
  {
    if index.addresses != [] {
      var position := BisectRight(index.addresses, Masked(address)) - 1;
      if position >= 0 {
        assert index.addresses[position] <= Masked(address) < NextStart(index, position);
        SpanIs(index, address, position);
      }
    }
  }

  /** A span holds the address it was asked for, and over the whole of it the
      answer is the same as for that address. */
  lemma SpanIsConstant(symbols: seq<Symbol>, address: nat, other: nat)
    requires SymbolsFit(symbols) && address < ADDRESS_MAX && other < ADDRESS_MAX
    ensures var span := SpanOf(IndexOf(symbols), address);
            && span.start <= Masked(address) < span.end
            && span.symbol == ScanResolve(symbols, address)
            && (span.start <= Masked(other) < span.end ==> ScanResolve(symbols, other) == span.symbol)
  {
    hide IndexOf, SpanOf, Resolve, ScanResolve;
    IndexOrderly(symbols);
    ResolveIsScan(symbols, address);
    ResolveIsScan(symbols, other);
    SpanSame(IndexOf(symbols), address, other);
  }
}
