/** The symbolizer: cached lookups, spans and same-span runs. */
module Symbols {
  import opened Prelude
  import opened Resolved
  import opened Elf
  import L = LineTables
  import opened SpanCache
  import opened Stretches

  /** Both answers for a stretch of addresses. */
  datatype Span = Span(start: nat, end: nat, function_: Option<ResolvedFunction>, source: Option<ResolvedSource>)

  datatype SpanRun = SpanRun(startIndex: nat, endIndex: nat, span: Span)

  /** What an uncached symbolizer says of an address. */
  ghost predicate Truthful(image: Image, span: Span, address: nat) {
    && span.start <= address < span.end && span.function_ == FunctionAt(image, address)
    && span.source == SourceAt(image, address)
  }

  /** A cached function range answers for every even address in it. */
  ghost predicate AnswersEven(image: Image, e: Entry<Option<ResolvedFunction>>) {
    forall a: nat :: a % 2 == 0 && a < ADDRESS_MAX && e.start <= a < e.end ==> e.value == FunctionAt(image, a)
  }

  ghost predicate AnswersAll(image: Image, e: Entry<Option<ResolvedSource>>) {
    forall a: nat :: e.start <= a < e.end ==> e.value == SourceAt(image, a)
  }

  class Symbolizer {
    const image: Image
    const elf: ElfFile
    const fnCache: array<Option<Entry<Option<ResolvedFunction>>>>
    const srcCache: array<Option<Entry<Option<ResolvedSource>>>>
    var lineTable: Option<L.LineTable>

    ghost predicate Valid()
      reads this, elf, fnCache, srcCache
    {
      && WellFormed(image)
      && elf.Valid() && elf.symbols == image.symbols
      && Backed(image, fnCache[..]) && BackedSource(image, srcCache[..])
      && (lineTable.None? || lineTable.value == L.TableOf(image.rows))
    }

    constructor (image: Image)
      requires WellFormed(image)
      ensures Valid() && this.image == image && fresh(elf) && fresh(fnCache) && fresh(srcCache)
      ensures fnCache[..] == EmptyCache<Option<ResolvedFunction>>()
      ensures srcCache[..] == EmptyCache<Option<ResolvedSource>>()
    {
      this.image := image;
      elf := new ElfFile(image.symbols);
      fnCache := new Option<Entry<Option<ResolvedFunction>>>[SPAN_CACHE_SLOTS](i => None);
      srcCache := new Option<Entry<Option<ResolvedSource>>>[SPAN_CACHE_SLOTS](i => None);
      lineTable := None;
    }

    /** The line table, built on first use. */
    method LineTable() returns (t: L.LineTable)
      requires Valid()
      modifies this`lineTable
      ensures Valid() && t == L.TableOf(image.rows)
    {
      if lineTable.None? { lineTable := Some(L.TableOf(image.rows)); }
      t := lineTable.value;
    }

    /** The cached function range around an address. One slot may change, as the
        value-level cache says; the answer is the uncached one. */
    method FunctionSpan(address: nat) returns (e: Entry<Option<ResolvedFunction>>)
      requires Valid() && address < ADDRESS_MAX
      modifies elf`index, fnCache
      ensures Valid()
      ensures Backed(image, old(fnCache[..]))
      ensures (fnCache[..], e) == Ask(old(fnCache[..]), address, FreshFunction(image, address))
      ensures e.start <= address < e.end
      ensures Plain(image, address) ==> e.value == FunctionAt(image, address)
      ensures AnswersEven(image, e)
      ensures address % 2 == 0 ==> Stretch(FunctionCuts(image.symbols), address, e.start, e.end)
    {
      hide Slot, SpanOf, ScanResolve, Resolve, Plain;
      FreshFunctionSound(image, address, address);
      ghost var before := fnCache[..];
      var slot := Slot(address);
      var entry := fnCache[slot];
      if entry.Some? && entry.value.start <= address < entry.value.end {
        e := entry.value;
        ghost var q :| BackedBy(image, slot, e, q);
        if Plain(image, address) { SlotSound(image, q, address); }
        RangeAnswers(image, q);
        if address % 2 == 0 { FreshExact(image, q, address); }
        return;
      }
      var span := elf.SpanAt(WithThumbBit(address));
      var resolved := Named(image.demangled, span.symbol);
      var start, end := span.start, span.end;
      if !(start <= address < end) { start, end := address, address + 1; }
      e := Entry(start, end, resolved);
      fnCache[slot] := Some(e);
      assert fnCache[..] == before[slot := Some(e)];
      AskBacked(image, before, address);
      RangeAnswers(image, address);
      if address % 2 == 0 { FreshExact(image, address, address); }
    }

    method SourceSpan(address: nat) returns (e: Entry<Option<ResolvedSource>>)
      requires Valid()
      modifies this`lineTable, srcCache
      ensures Valid()
      ensures BackedSource(image, old(srcCache[..]))
      ensures (srcCache[..], e) == Ask(old(srcCache[..]), address, FreshSource(image, address))
      ensures address < ADDRESS_MAX ==> e.start <= address < e.end
      ensures e.value == SourceAt(image, address) && AnswersAll(image, e)
      ensures address < ADDRESS_MAX ==> RowStretch(image.rows, address, e.start, e.end)
    {
      ghost var before := srcCache[..];
      FreshSourceSound(image, address, address);
      var slot := Slot(address);
      var entry := srcCache[slot];
      if entry.Some? && entry.value.start <= address < entry.value.end {
        e := entry.value;
        SourceHitSound(image, before, address);
        ghost var q :| e == FreshSource(image, q);
        SourceAnswers(image, q);
        RowSpanExact(image.rows, q, address);
        return;
      }
      var table := LineTable();
      var span := L.SpanOf(table, address);
      e := Entry(span.start, span.end, span.source);
      srcCache[slot] := Some(e);
      assert srcCache[..] == before[slot := Some(e)];
      assert e == FreshSource(image, address);
      SourceMissBacked(image, before, srcCache[..], slot, address);
      SourceAnswers(image, address);
      if address < ADDRESS_MAX { RowSpanExact(image.rows, address, address); }
    }

    method ResolveFunction(address: nat) returns (r: Option<ResolvedFunction>)
      requires Valid() && Plain(image, address)
      modifies elf`index, fnCache
      ensures Valid() && r == FunctionAt(image, address)
    {
      var e := FunctionSpan(address);
      r := e.value;
    }

    method ResolveSource(address: nat) returns (r: Option<ResolvedSource>)
      requires Valid()
      modifies this`lineTable, srcCache
      ensures Valid() && r == SourceAt(image, address)
    {
      var e := SourceSpan(address);
      r := e.value;
    }

    /** Both answers, and a range around the address over which neither changes:
        it lies inside both cached ranges. */
    method ResolveSpan(address: nat) returns (span: Span)
      requires Valid() && Plain(image, address)
      modifies this`lineTable, elf`index, fnCache, srcCache
      ensures Valid() && Truthful(image, span, address)
      ensures forall a: nat :: a % 2 == 0 && a < ADDRESS_MAX && span.start <= a < span.end ==> Truthful(image, span, a)
      ensures address % 2 == 0 ==> Stretch(Cuts(image.symbols, image.rows), address, span.start, span.end)
    {
      hide Stretch, RowStretch;
      var f := FunctionSpan(address);
      var s := SourceSpan(address);
      span := Span(Max(f.start, s.start), Min(f.end, s.end), f.value, s.value);
      if address % 2 == 0 { BothStretch(image.symbols, image.rows, address, f.start, f.end, s.start, s.end); }
    }
  }

  lemma SourceMissBacked(image: Image, before: Cache<Option<ResolvedSource>>, after: Cache<Option<ResolvedSource>>,
                         slot: nat, address: nat)
    requires BackedSource(image, before) && slot < |before|
    requires after == before[slot := Some(FreshSource(image, address))]
    ensures BackedSource(image, after)
  {
  }

  /** A cached function range that holds an even address is the stretch around it. */
  lemma FreshExact(image: Image, q: nat, a: nat)
    requires WellFormed(image) && q < ADDRESS_MAX && a < ADDRESS_MAX && a % 2 == 0
    requires FreshFunction(image, q).start <= a < FreshFunction(image, q).end
    ensures Stretch(FunctionCuts(image.symbols), a, FreshFunction(image, q).start, FreshFunction(image, q).end)
  {
    hide SpanOf, IndexOf, FunctionCut, Named;
    MaskFacts(q);
    FunctionSpanExact(image.symbols, WithThumbBit(q));
    var span := SpanOf(IndexOf(image.symbols), WithThumbBit(q));
    if span.start <= q < span.end { StretchMoves(FunctionCuts(image.symbols), Masked(q), a, span.start, span.end); }
  }

  lemma RangeAnswers(image: Image, q: nat)
    requires WellFormed(image) && q < ADDRESS_MAX
    ensures AnswersEven(image, FreshFunction(image, q))
  {
    hide FreshFunction, FunctionAt, WellFormed;
    var e := FreshFunction(image, q);
    forall a: nat | a % 2 == 0 && a < ADDRESS_MAX && e.start <= a < e.end ensures e.value == FunctionAt(image, a) {
      MaskFacts(a);
      FreshFunctionSound(image, q, a);
    }
  }

  lemma SourceAnswers(image: Image, q: nat)
    ensures AnswersAll(image, FreshSource(image, q))
  {
    forall a: nat | FreshSource(image, q).start <= a < FreshSource(image, q).end
      ensures FreshSource(image, q).value == SourceAt(image, a)
    {
      FreshSourceSound(image, q, a);
    }
  }
}
