/** Frames of a real image: what its symbol table guarantees the frame builder,
    and the builder run through the span caches. */
module ImageFrames {
  import opened Prelude
  import opened Resolved
  import opened Elf
  import opened SpanCache
  import opened Symbols
  import opened Rows
  import opened Frames
  import opened FrameOwner
  import opened FrameResults

  /** The uncached lookups of an image. */
  function ResolverOf(image: Image): Resolver {
    Resolver((a: nat) => FunctionAt(image, a), (a: nat) => SourceAt(image, a))
  }

  /** The symbol an address lies in is also the one its own entry lies in. */
  lemma EntryIsOwn(symbols: seq<Symbol>, address: nat)
    requires ScanResolve(symbols, address).Some?
    ensures ScanResolve(symbols, Masked(ScanResolve(symbols, address).value.value)) == ScanResolve(symbols, address)
  {
    var s := ScanResolve(symbols, address).value;
    var functions, entry := Filter(IsFunction, symbols), Masked(s.value);
    ScanIsBest(symbols, Masked(address));
    forall x | x in functions && Candidate(x, entry) ensures !Better(x, s) {
      assert Candidate(x, Masked(address));
    }
    assert IsBest(functions, entry, s);
    BestIsScan(symbols, entry, s);
    MaskFacts(s.value);
  }

  /** So entering a function at its entry always finds that function, in any image. */
  lemma ImageEntriesResolve(image: Image, addresses: seq<nat>)
    ensures EntriesResolve(ResolverOf(image), addresses)
  {
    forall i | 0 <= i < |addresses| ensures EntryResolves(ResolverOf(image), addresses[i]) {
      hide ScanResolve;
      if ScanResolve(image.symbols, addresses[i]).Some? { EntryIsOwn(image.symbols, addresses[i]); }
    }
  }

  /** For every image, stream, depth cap and boundary set: the innermost frame
      around an instruction is its own function's, or one of unknown code, unless
      the depth cap refused that call; and then it is not. */
  lemma InnermostInImage(image: Image, maxDepth: int, breaks: set<int>, addresses: seq<nat>, j: nat)
    requires j < |addresses|
    ensures var ctx := Context(ResolverOf(image), maxDepth, breaks);
            var f := FramesOf(ctx, addresses).frames;
            exists k: nat :: InnermostAt(f, k, j)
              && (Matches(ctx.resolver, f[k].address, addresses[j])
                  <==> !Blocked(ctx, After(ctx, addresses, j), j, addresses[j]))
  {
    hide *;
    ImageEntriesResolve(image, addresses);
    InnermostFrame(Context(ResolverOf(image), maxDepth, breaks), addresses, j);
  }

  // ----- through the caches

  lemma OpenLooksHere(ctx: Context, here: Resolver, index: nat, address: nat)
    requires here.function_(address) == ctx.resolver.function_(address)
    requires here.source(address) == ctx.resolver.source(address)
    ensures forall level: int, flag: bool ::
              OpenFrame(ctx.(resolver := here), index, address, level, flag)
              == OpenFrame(ctx, index, address, level, flag)
  {
  }

  /** A step looks only at what its own address resolves to. */
  lemma StepLooksHere(ctx: Context, here: Resolver, m: Machine, index: nat, address: nat)
    requires here.function_(address) == ctx.resolver.function_(address)
    requires here.source(address) == ctx.resolver.source(address)
    ensures Step(ctx.(resolver := here), m, index, address) == Step(ctx, m, index, address)
  {
    hide PopTo, FindFrom, OpenFrame;
    OpenLooksHere(ctx, here, index, address);
  }

  /** What one address resolves to, asked of the symbolizer. */
  method Look(symbolizer: Symbolizer, address: nat) returns (here: Resolver)
    requires symbolizer.Valid() && Plain(symbolizer.image, address)
    modifies symbolizer`lineTable, symbolizer.elf`index, symbolizer.fnCache, symbolizer.srcCache
    ensures symbolizer.Valid()
    ensures here.function_(address) == FunctionAt(symbolizer.image, address)
    ensures here.source(address) == SourceAt(symbolizer.image, address)
  {
    var f := symbolizer.ResolveFunction(address);
    var s := symbolizer.ResolveSource(address);
    here := Resolver((a: nat) => f, (a: nat) => s);
  }

  /** Built through the caches, whatever they held before, the frames of a trace
      are those of the uncached lookups. Asking for a source that a step then
      does not use changes no later answer. */
  method BuildImageFrames(addresses: seq<nat>, symbolizer: Symbolizer, maxDepth: int, boundaries: seq<int>)
    returns (r: FrameResult)
    requires symbolizer.Valid() && Traced(addresses)
    modifies symbolizer`lineTable, symbolizer.elf`index, symbolizer.fnCache, symbolizer.srcCache
    ensures symbolizer.Valid()
    ensures r == FramesOf(Context(ResolverOf(symbolizer.image), maxDepth, set b | b in boundaries), addresses)
  {
    hide Step, After, FramesOf, Normalised, FunctionAt, SourceAt;
    var closed: seq<Closed>, stack: seq<Open> := [], [];
    ghost var ctx := Context(ResolverOf(symbolizer.image), maxDepth, set b | b in boundaries);
    AfterAll(ctx, addresses);
    for index := 0 to |addresses|
      invariant symbolizer.Valid()
      invariant After(ctx, addresses, index) == Machine(stack, closed)
    {
      AfterStep(ctx, addresses, index);
      var here := Look(symbolizer, addresses[index]);
      StepLooksHere(ctx, here, Machine(stack, closed), index, addresses[index]);
      stack, closed := Advance(Context(here, maxDepth, set b | b in boundaries), stack, closed, index,
                               addresses[index]);
    }
    closed := CloseAtEnd(stack, closed, |addresses|);
    r := Normalised(closed);
  }
}
