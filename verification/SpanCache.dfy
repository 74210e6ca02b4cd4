/** The direct-mapped span caches as values: 256 slots, one per 16-byte block
    modulo 256, each holding an answer and the whole address range it claims. */
module SpanCache {
  import opened Prelude
  import opened Resolved
  import opened Sorting
  import opened Elf
  import L = LineTables

  const SPAN_CACHE_SLOTS: nat := 256

  function Slot(address: nat): (s: nat)
    ensures s < SPAN_CACHE_SLOTS
  {
    (address / 16) % 256
  }

  datatype Entry<V> = Entry(start: nat, end: nat, value: V)

  type Cache<V> = seq<Option<Entry<V>>>

  predicate Hit<V>(cache: Cache<V>, address: nat)
    requires |cache| == SPAN_CACHE_SLOTS
  {
    var e := cache[Slot(address)];
    e.Some? && e.value.start <= address < e.value.end
  }

  /** Answer from the slot if its range holds the address, else replace it. */
  function Ask<V>(cache: Cache<V>, address: nat, fresh': Entry<V>): (Cache<V>, Entry<V>)
    requires |cache| == SPAN_CACHE_SLOTS
  {
    if Hit(cache, address) then (cache, cache[Slot(address)].value)
    else (cache[Slot(address) := Some(fresh')], fresh')
  }

  // ----- the uncached lookups

  /** An image as the symbolizer sees it. */
  datatype Image = Image(symbols: seq<Symbol>, demangled: map<string, string>, rows: seq<L.LineRow>)

  function Named(demangled: map<string, string>, symbol: Option<Symbol>): Option<ResolvedFunction> {
    match symbol
    case None => None
    case Some(s) =>
      Some(ResolvedFunction(if s.name in demangled then demangled[s.name] else s.name, s.value, s.size))
  }

  function WithThumbBit(address: nat): nat { Masked(address) + 1 }

  /** What one pass over the symbol table says of an address. */
  function FunctionAt(image: Image, address: nat): Option<ResolvedFunction> {
    Named(image.demangled, ScanResolve(image.symbols, address))
  }

  function SourceAt(image: Image, address: nat): Option<ResolvedSource> { L.ScanResolve(image.rows, address) }

  /** The uncached lookup with the range a miss would cache. */
  function FreshFunction(image: Image, address: nat): Entry<Option<ResolvedFunction>>
  {
    var span := SpanOf(IndexOf(image.symbols), WithThumbBit(address));
    var resolved := Named(image.demangled, span.symbol);
    if span.start <= address < span.end then Entry(span.start, span.end, resolved)
    else Entry(address, address + 1, resolved)
  }

  function FreshSource(image: Image, address: nat): Entry<Option<ResolvedSource>> {
    var span := L.SpanOf(L.TableOf(image.rows), address);
    Entry(span.start, span.end, span.source)
  }

  /** What an address resolves to is the symbol a pass finds, under its demangled
      name if there is one. */
  lemma FunctionAtSays(image: Image, address: nat)
    ensures match ScanResolve(image.symbols, address)
            case None => FunctionAt(image, address) == None
            case Some(s) =>
              && FunctionAt(image, address).Some?
              && var f := FunctionAt(image, address).value;
                 && f.addr == s.value && f.size == s.size
                 && (s.name in image.demangled ==> f.name == image.demangled[s.name])
                 && (s.name !in image.demangled ==> f.name == s.name)
  {
  }

  /** Sixteen neighbouring addresses share a slot, and a slot comes round again
      every 4096. */
  lemma SlotSays(k: nat, slot: nat, r: nat)
    requires slot < 256 && r < 16
    ensures Slot(4096 * k + 16 * slot + r) == slot
  {
    assert (4096 * k + 16 * slot + r) / 16 == 256 * k + slot;
  }

  // ----- soundness of the claimed ranges

  ghost predicate WellFormed(image: Image) { SymbolsFit(image.symbols) }

  lemma MaskFacts(a: nat)
    ensures Masked(a) <= a <= Masked(a) + 1 && Masked(a) % 2 == 0
    ensures Masked(WithThumbBit(a)) == Masked(a) && Masked(Masked(a)) == Masked(a)
    ensures a % 2 == 0 ==> Masked(a) == a
    ensures a < ADDRESS_MAX ==> WithThumbBit(a) < ADDRESS_MAX
  {
  }

  lemma ThumbBitIgnored(image: Image, a: nat)
    ensures ScanResolve(image.symbols, WithThumbBit(a)) == ScanResolve(image.symbols, a)
    ensures ScanResolve(image.symbols, Masked(a)) == ScanResolve(image.symbols, a)
  {
    MaskFacts(a);
  }

  /** The range cached for one query holds the query, answers it, and answers
      every address whose masked form lies in it. */
  lemma FreshFunctionSound(image: Image, query: nat, a: nat)
    requires WellFormed(image) && query < ADDRESS_MAX && a < ADDRESS_MAX
    ensures var e := FreshFunction(image, query);
            && e.start <= query < e.end && e.value == FunctionAt(image, query)
            && (e.start <= Masked(a) && a < e.end ==> e.value == FunctionAt(image, a))
  {
    hide SpanOf, ScanResolve, IndexOf, Named;
    MaskFacts(query);
    MaskFacts(a);
    ThumbBitIgnored(image, query);
    ThumbBitIgnored(image, a);
    SpanIsConstant(image.symbols, WithThumbBit(query), a);
  }

  lemma FreshSourceSound(image: Image, query: nat, a: nat)
    ensures var e := FreshSource(image, query);
            && (query < ADDRESS_MAX ==> e.start <= query < e.end) && e.value == SourceAt(image, query)
            && (e.start <= a < e.end ==> e.value == SourceAt(image, a))
  {
    L.SpanIsConstant(image.rows, query, a);
  }

  // ----- histories

  function EmptyCache<V>(): (cache: Cache<V>)
    ensures |cache| == SPAN_CACHE_SLOTS && forall s :: 0 <= s < |cache| ==> cache[s] == None
  {
    seq(SPAN_CACHE_SLOTS, i => None)
  }

  /** The function cache after a history of queries, oldest first. */
  function Replay(image: Image, history: seq<nat>): (cache: Cache<Option<ResolvedFunction>>)
    ensures |cache| == SPAN_CACHE_SLOTS
  {
    if history == [] then EmptyCache()
    else
      var last := history[|history| - 1];
      Ask(Replay(image, history[..|history| - 1]), last, FreshFunction(image, last)).0
  }

  function Answer(image: Image, cache: Cache<Option<ResolvedFunction>>, address: nat): Option<ResolvedFunction>
    requires |cache| == SPAN_CACHE_SLOTS
  {
    Ask(cache, address, FreshFunction(image, address)).1.value
  }

  ghost predicate BackedBy(image: Image, slot: nat, e: Entry<Option<ResolvedFunction>>, query: nat)
  {
    query < ADDRESS_MAX && Slot(query) == slot && e == FreshFunction(image, query)
  }

  /** Every cached entry came from some query that maps to its slot. */
  ghost predicate Backed(image: Image, cache: Cache<Option<ResolvedFunction>>) {
    && |cache| == SPAN_CACHE_SLOTS
    && (forall s :: 0 <= s < |cache| && cache[s].Some? ==> exists q :: BackedBy(image, s, cache[s].value, q))
  }

  lemma AskBacked(image: Image, cache: Cache<Option<ResolvedFunction>>, address: nat)
    requires Backed(image, cache) && address < ADDRESS_MAX
    ensures Backed(image, Ask(cache, address, FreshFunction(image, address)).0)
  {
    assert BackedBy(image, Slot(address), FreshFunction(image, address), address);
  }

  ghost predicate InRange(history: seq<nat>) { forall i :: 0 <= i < |history| ==> history[i] < ADDRESS_MAX }

  lemma {:induction false} ReplayBacked(image: Image, history: seq<nat>)
    requires InRange(history)
    ensures Backed(image, Replay(image, history))
  {
    if history != [] {
      ReplayBacked(image, history[..|history| - 1]);
      AskBacked(image, Replay(image, history[..|history| - 1]), history[|history| - 1]);
    }
  }

  // ----- odd addresses

  function OddEnd(image: Image, p: nat): nat
    requires p < |IndexOf(image.symbols).symbols|
  {
    IndexOf(image.symbols).addresses[p] + IndexOf(image.symbols).symbols[p].size
  }

  /** end is the odd end of a sized symbol with a hole after it, and x is an even
      address in the hole. */
  ghost predicate HoleBehind(image: Image, p: nat, end: nat, x: nat) {
    var index := IndexOf(image.symbols);
    && p < |index.symbols| && index.symbols[p].size > 0
    && end == index.addresses[p] + index.symbols[p].size && end % 2 == 1
    && end < x < NextStart(index, p) && x % 2 == 0
  }

  /** Such a hole, with the address sharing the end's slot. */
  ghost predicate OddHoleAt(image: Image, p: nat, x: nat) {
    && p < |IndexOf(image.symbols).symbols| && HoleBehind(image, p, OddEnd(image, p), x)
    && Slot(x) == Slot(OddEnd(image, p))
  }

  /** No hole in the image can answer for the odd end of the symbol before it. */
  ghost predicate OddSafe(image: Image) { forall p, x :: !OddHoleAt(image, p, x) }

  /** Addresses for which the cache is required to be invisible. */
  ghost predicate Plain(image: Image, a: nat) { a < ADDRESS_MAX && (a % 2 == 0 || OddSafe(image)) }

  /** A cached range that holds an odd address holds the even one below it too,
      unless it starts right there: as the narrowed range of a query for that
      very address, or as a hole behind an odd-sized symbol. */
  lemma OddStart(image: Image, query: nat, a: nat)
    requires WellFormed(image) && query < ADDRESS_MAX && a % 2 == 1 && FreshFunction(image, query).start == a
    ensures a == query || exists p :: HoleBehind(image, p, a, Masked(query))
  {
    hide IndexOf, SpanOf, Orderly, NextStart, Named;
    var index := IndexOf(image.symbols);
    IndexOrderly(image.symbols);
    MaskFacts(query);
    if a != query {
      OddSpanIsHole(index, WithThumbBit(query));
      var p :| 0 <= p < |index.addresses| && index.symbols[p].size > 0
        && a == index.addresses[p] + index.symbols[p].size <= Masked(query) < NextStart(index, p);
      assert HoleBehind(image, p, a, Masked(query));
    }
  }

  lemma SlotOfMasked(a: nat)
    ensures Slot(Masked(a)) == Slot(a)
  {
    assert Masked(a) / 16 == a / 16;
  }

  /** A plain address is the odd end of no hole that its slot could hold. */
  lemma PlainNoHole(image: Image, query: nat, a: nat, p: nat)
    requires Plain(image, a) && Slot(query) == Slot(a) && a % 2 == 1
    ensures !HoleBehind(image, p, a, Masked(query))
  {
    hide HoleBehind, Slot;
    SlotOfMasked(query);
    assert !OddHoleAt(image, p, Masked(query));
    if HoleBehind(image, p, a, Masked(query)) { HoleEnd(image, p, a, Masked(query)); }
  }

  lemma HoleEnd(image: Image, p: nat, end: nat, x: nat)
    requires HoleBehind(image, p, end, x)
    ensures p < |IndexOf(image.symbols).symbols| && end == OddEnd(image, p)
  {
  }

  /** A range cached for one query answers every address in it, unless it is a
      hole and the address the odd end before it. */
  lemma HitSound(image: Image, query: nat, a: nat)
    requires WellFormed(image) && query < ADDRESS_MAX && a < ADDRESS_MAX
    requires FreshFunction(image, query).start <= a < FreshFunction(image, query).end
    requires a % 2 == 1 ==> forall p :: !HoleBehind(image, p, a, Masked(query))
    ensures FreshFunction(image, query).value == FunctionAt(image, a)
  {
    hide FreshFunction, HoleBehind, WellFormed;
    FreshFunctionSound(image, query, a);
    MaskFacts(a);
    if FreshFunction(image, query).start == a && a % 2 == 1 { OddStart(image, query, a); }
  }

  lemma SlotSound(image: Image, query: nat, a: nat)
    requires WellFormed(image) && query < ADDRESS_MAX && Plain(image, a) && Slot(query) == Slot(a)
    ensures FreshFunction(image, query).start <= a < FreshFunction(image, query).end ==>
              FreshFunction(image, query).value == FunctionAt(image, a)
  {
    hide FreshFunction, HoleBehind, WellFormed, Slot;
    if FreshFunction(image, query).start <= a < FreshFunction(image, query).end {
      if a % 2 == 1 {
        forall p: nat ensures !HoleBehind(image, p, a, Masked(query)) { PlainNoHole(image, query, a, p); }
      }
      HitSound(image, query, a);
    }
  }

  /** After any history of in-range queries, whatever was hit, evicted or
      overwritten, a query gets what the uncached lookup says: for every even
      address, and for odd ones too when no odd hole can be cached. */
  lemma CacheTransparent(image: Image, history: seq<nat>, a: nat)
    requires WellFormed(image) && InRange(history) && Plain(image, a)
    ensures Answer(image, Replay(image, history), a) == FunctionAt(image, a)
  {
    ReplayBacked(image, history);
    var cache := Replay(image, history);
    FreshFunctionSound(image, a, a);
    if Hit(cache, a) {
      var q :| BackedBy(image, Slot(a), cache[Slot(a)].value, q);
      SlotSound(image, q, a);
    }
  }

  lemma HoleCached(image: Image, p: nat, x: nat)
    requires WellFormed(image) && OddHoleAt(image, p, x)
    ensures x < ADDRESS_MAX && OddEnd(image, p) < x < NextStart(IndexOf(image.symbols), p)
    ensures FreshFunction(image, x) == Entry(OddEnd(image, p), NextStart(IndexOf(image.symbols), p), None)
  {
    hide IndexOf, SpanOf, Slot, Resolve;
    var index := IndexOf(image.symbols);
    IndexOrderly(image.symbols);
    MaskFacts(x);
    SpanIs(index, WithThumbBit(x), p);
  }

  lemma EndInSymbol(image: Image, p: nat, x: nat)
    requires WellFormed(image) && OddHoleAt(image, p, x)
    ensures FunctionAt(image, OddEnd(image, p)).Some?
  {
    hide IndexOf, FunctionAt, ScanResolve, SpanOf, Resolve, NextStart, Orderly, Slot, Masked;
    IndexOrderly(image.symbols);
    EndBelow(image, p, x);
    SpanIs(IndexOf(image.symbols), OddEnd(image, p), p);
    ResolveIsScan(image.symbols, OddEnd(image, p));
    NamedWhenFound(image, OddEnd(image, p));
  }

  /** The odd end is an address whose masked form is still in the symbol. */
  lemma EndBelow(image: Image, p: nat, x: nat)
    requires OddHoleAt(image, p, x) && Orderly(IndexOf(image.symbols))
    ensures var index, end := IndexOf(image.symbols), OddEnd(image, p);
            && index.addresses[p] <= Masked(end) < NextStart(index, p)
            && Masked(end) < index.addresses[p] + index.symbols[p].size
  {
    hide IndexOf, NextStart, Slot;
  }

  lemma NamedWhenFound(image: Image, a: nat)
    ensures FunctionAt(image, a).Some? <==> ScanResolve(image.symbols, a).Some?
  {
    hide ScanResolve;
  }

  lemma ReplayOne(image: Image, x: nat)
    ensures Replay(image, [x]) == EmptyCache()[Slot(x) := Some(FreshFunction(image, x))]
  {
    assert [x][..0] == [];
  }

  /** Behind an odd hole the cache does show: ask for an address in the hole and
      then for the symbol's odd end, and the end is said to be in no function,
      though uncached it is in that symbol. */
  lemma OddHoleShows(image: Image, p: nat, x: nat)
    requires WellFormed(image) && OddHoleAt(image, p, x)
    ensures x < ADDRESS_MAX && OddEnd(image, p) < ADDRESS_MAX
    ensures Answer(image, Replay(image, [x]), OddEnd(image, p)) == None && FunctionAt(image, OddEnd(image, p)).Some?
  {
    hide IndexOf, FreshFunction, Replay, NextStart, FunctionAt;
    HoleCached(image, p, x);
    EndInSymbol(image, p, x);
    ReplayOne(image, x);
  }

  ghost predicate AlwaysTransparent(image: Image) {
    forall history: seq<nat>, a: nat :: InRange(history) && a < ADDRESS_MAX ==>
      Answer(image, Replay(image, history), a) == FunctionAt(image, a)
  }

  /** The cache is invisible for all addresses after all histories if and only
      if the symbol table has no odd hole sharing a slot with its start. */
  lemma TransparentIff(image: Image)
    requires WellFormed(image)
    ensures AlwaysTransparent(image) <==> OddSafe(image)
  {
    if OddSafe(image) {
      forall history: seq<nat>, a: nat | InRange(history) && a < ADDRESS_MAX
        ensures Answer(image, Replay(image, history), a) == FunctionAt(image, a)
      {
        CacheTransparent(image, history, a);
      }
    } else {
      var p, x :| OddHoleAt(image, p, x);
      OddHoleShows(image, p, x);
      assert InRange([x]);
    }
  }

  lemma IndexOfOne(s: Symbol)
    requires IsFunction(s)
    ensures IndexOf([s]).symbols == [s] && IndexOf([s]).addresses == [Masked(s.value)]
  {
    assert [s][1..] == [] && [s][..0] == [];
    assert Filter(IsFunction, [s]) == [s];
    assert SortBy(SymbolLess, [s]) == [s] by { assert SortBy(SymbolLess, []) == []; }
    assert Dedupe([s]) == [s] by { assert Dedupe([]) == []; }
  }

  /** Such images exist: one function of five bytes, at an ordinary address. */
  lemma OneOddHole(image: Image, p: nat, x: nat)
    requires image.symbols == [Symbol("f", 0x1001, 5, 2)] && p == 0 && x == 0x1006
    ensures WellFormed(image) && OddHoleAt(image, p, x) && !AlwaysTransparent(image)
  {
    hide AlwaysTransparent;
    IndexOfOne(image.symbols[0]);
    assert OddHoleAt(image, p, x) by {
      hide IndexOf;
      assert OddEnd(image, p) == 0x1005;
      assert HoleBehind(image, p, OddEnd(image, p), x);
    }
    hide *;
    TransparentIff(image);
    assert WellFormed(image) && !OddSafe(image) by { WellFormedOne(image, p, x); }
  }

  lemma WellFormedOne(image: Image, p: nat, x: nat)
    requires image.symbols == [Symbol("f", 0x1001, 5, 2)] && OddHoleAt(image, p, x)
    ensures WellFormed(image) && !OddSafe(image)
  {
    hide OddHoleAt;
  }

  // ----- the source half

  function ReplaySource(image: Image, history: seq<nat>): (cache: Cache<Option<ResolvedSource>>)
    ensures |cache| == SPAN_CACHE_SLOTS
  {
    if history == [] then EmptyCache()
    else
      var last := history[|history| - 1];
      Ask(ReplaySource(image, history[..|history| - 1]), last, FreshSource(image, last)).0
  }

  /** Every cached source range is one some query would be given afresh. */
  ghost predicate BackedSource(image: Image, cache: Cache<Option<ResolvedSource>>) {
    && |cache| == SPAN_CACHE_SLOTS
    && (forall s :: 0 <= s < |cache| && cache[s].Some? ==> exists q :: cache[s].value == FreshSource(image, q))
  }

  lemma {:induction false} ReplaySourceBacked(image: Image, history: seq<nat>)
    ensures BackedSource(image, ReplaySource(image, history))
  {
    if history != [] { ReplaySourceBacked(image, history[..|history| - 1]); }
  }

  lemma SourceHitSound(image: Image, cache: Cache<Option<ResolvedSource>>, a: nat)
    requires BackedSource(image, cache) && Hit(cache, a)
    ensures cache[Slot(a)].value.value == SourceAt(image, a)
  {
    var q :| cache[Slot(a)].value == FreshSource(image, q);
    FreshSourceSound(image, q, a);
  }

  /** The source cache is invisible for every address after every history. */
  lemma SourceTransparent(image: Image, history: seq<nat>, a: nat)
    ensures Ask(ReplaySource(image, history), a, FreshSource(image, a)).1.value == SourceAt(image, a)
  {
    ReplaySourceBacked(image, history);
    FreshSourceSound(image, a, a);
    if Hit(ReplaySource(image, history), a) { SourceHitSound(image, ReplaySource(image, history), a); }
  }
}
