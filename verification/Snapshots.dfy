/** Saving a store to bytes and reading it back. */
module Snapshots {
  import opened Prelude
  import opened Blocks
  import opened Histories
  import opened ByteArrays
  import opened Store

  /** The letters PYTRACE1. */
  const SNAPSHOT_MAGIC: seq<Byte> := [0x50, 0x59, 0x54, 0x52, 0x41, 0x43, 0x45, 0x31]
  const SNAPSHOT_VERSION := 1
  const LENGTH_BYTES: nat := 4
  const DEFAULT_TRACE_CAPACITY: nat := 10_000_000
  const PC_BYTES: nat := 4
  const CYCLE_BYTES: nat := 8
  const STAMP_BYTES: nat := 4

  /** What a caller stores alongside. */
  type Meta = map<string, string>

  datatype BlockSpec = BlockSpec(n: nat, stamps: nat, lostBefore: nat, haltReason: Option<int>, wallNs: Option<int>,
                                 clen: nat)

  /** A block's keys in a header; any of them may be missing. */
  datatype SpecKeys = SpecKeys(n: Option<nat>, stamps: Option<nat>, lostBefore: Option<nat>,
                               haltReason: Option<Option<int>>, wallNs: Option<Option<int>>, clen: Option<nat>)

  datatype StatKeys = StatKeys(polls: Option<nat>, stitched: Option<nat>, gaps: Option<nat>, lost: Option<nat>,
                               totalRead: Option<nat>, droppedBlocks: Option<nat>, droppedInstructions: Option<nat>)

  /** A header as decoded, None where a key is missing. */
  datatype Header = Header(version: Option<int>, codec: Option<string>, byteOrder: Option<string>,
                           capacity: Option<int>, stats: Option<StatKeys>, stampOrder: Option<bool>,
                           blocks: Option<seq<SpecKeys>>, meta: Option<Meta>)

  /** How a header becomes text and is read from it, if it can be. */
  datatype HeaderText = HeaderText(encode: Header -> seq<Byte>, decode: seq<Byte> -> Option<Header>)

  datatype Codec = Codec(compress: seq<Byte> -> seq<Byte>, decompress: seq<Byte> -> Option<seq<Byte>>)

  /** The codecs a build knows, besides "none". */
  type Codecs = map<string, Codec>

  predicate Known(codecs: Codecs, name: string) { name == "none" || name in codecs }

  function Packed(codecs: Codecs, name: string, payload: seq<Byte>): seq<Byte>
    requires Known(codecs, name)
  {
    if name == "none" then payload else codecs[name].compress(payload)
  }

  function Unpacked(codecs: Codecs, name: string, member: seq<Byte>): Option<seq<Byte>>
    requires Known(codecs, name)
  {
    if name == "none" then Some(member) else codecs[name].decompress(member)
  }

  function OrElse<T>(given: Option<T>, otherwise: T): T { if given.Some? then given.value else otherwise }

  function OrderName(little: bool): string { if little then "little" else "big" }

  // ----- writing

  function Payload(b: TraceBlock, little: bool): seq<Byte> {
    ToBytes(b.pcs, PC_BYTES, little) + ToBytes(b.cycles, CYCLE_BYTES, little) + ToBytes(b.stampAt, STAMP_BYTES, little)
  }

  function SpecOf(b: TraceBlock, clen: nat): BlockSpec {
    BlockSpec(|b.pcs|, |b.cycles|, b.lostBefore, b.haltReason, b.wallNs, clen)
  }

  function KeysOf(spec: BlockSpec): SpecKeys {
    SpecKeys(Some(spec.n), Some(spec.stamps), Some(spec.lostBefore), Some(spec.haltReason), Some(spec.wallNs),
             Some(spec.clen))
  }

  function Specs(codecs: Codecs, codec: string, blocks: seq<TraceBlock>, little: bool): (r: seq<SpecKeys>)
    requires Known(codecs, codec)
    ensures |r| == |blocks|
  {
    if blocks == [] then []
    else
      [KeysOf(SpecOf(blocks[0], |Packed(codecs, codec, Payload(blocks[0], little))|))]
      + Specs(codecs, codec, blocks[1..], little)
  }

  function Body(codecs: Codecs, codec: string, blocks: seq<TraceBlock>, little: bool): seq<Byte>
    requires Known(codecs, codec)
  {
    if blocks == [] then []
    else Packed(codecs, codec, Payload(blocks[0], little)) + Body(codecs, codec, blocks[1..], little)
  }

  function StatKeysOf(s: StoreStats): StatKeys {
    StatKeys(Some(s.polls), Some(s.stitched), Some(s.gaps), Some(s.lost), Some(s.totalRead),
             Some(s.droppedBlocks), Some(s.droppedInstructions))
  }

  function HeaderOf(v: StoreView, meta: Option<Meta>, codec: string, specs: seq<SpecKeys>, little: bool): Header {
    Header(Some(SNAPSHOT_VERSION), Some(codec), Some(OrderName(little)), Some(v.capacity), Some(StatKeysOf(v.stats)),
           v.stampOrder, Some(specs), Some(OrElse(meta, map[])))
  }

  /** Magic, length of the header, header, members. */
  function Written(encoded: seq<Byte>, members: seq<Byte>): Result<seq<Byte>, string> {
    if |encoded| >= Limit(LENGTH_BYTES) then Err("header too long")
    else Ok(SNAPSHOT_MAGIC + Word(|encoded|, LENGTH_BYTES) + encoded + members)
  }

  function Saved(v: StoreView, meta: Option<Meta>, codecs: Codecs, codec: string, text: HeaderText, little: bool)
    : Result<seq<Byte>, string>
  {
    if !Known(codecs, codec) then Err("Unknown snapshot codec")
    else
      Written(text.encode(HeaderOf(v, meta, codec, Specs(codecs, codec, v.blocks, little), little)),
              Body(codecs, codec, v.blocks, little))
  }

  // ----- reading

  function Native(bytes: seq<Byte>, width: nat, little: bool, swap: bool): Option<seq<nat>>
    requires width > 0
  {
    match FromBytes(bytes, width, little)
    case None => None
    case Some(xs) => Some(if swap then ByteSwap(xs, width) else xs)
  }

  function ReadBlock(spec: BlockSpec, payload: seq<Byte>, little: bool, swap: bool): Result<TraceBlock, string> {
    var offset := spec.n * PC_BYTES;
    var next := offset + spec.stamps * CYCLE_BYTES;
    var pcs := Native(UpTo(payload, 0, offset), PC_BYTES, little, swap);
    var cycles := Native(UpTo(payload, offset, spec.stamps * CYCLE_BYTES), CYCLE_BYTES, little, swap);
    var stampAt := Native(UpTo(payload, next, spec.stamps * STAMP_BYTES), STAMP_BYTES, little, swap);
    if pcs.None? || cycles.None? || stampAt.None? then Err("bytes length not a multiple of item size")
    else if |cycles.value| != |stampAt.value| then Err("parallel arrays")
    else Ok(TraceBlock(pcs.value, spec.lostBefore, spec.haltReason, spec.wallNs, cycles.value, stampAt.value))
  }

  /** A block's entry with nothing missing. */
  function Full(keys: SpecKeys): Option<BlockSpec> {
    if keys.n.None? || keys.stamps.None? || keys.lostBefore.None? || keys.haltReason.None? || keys.wallNs.None?
       || keys.clen.None? then None
    else
      Some(BlockSpec(keys.n.value, keys.stamps.value, keys.lostBefore.value, keys.haltReason.value, keys.wallNs.value,
                     keys.clen.value))
  }

  /** The next member of a body, as the block it holds. */
  function ReadMember(codecs: Codecs, codec: string, keys: SpecKeys, body: seq<Byte>, little: bool, swap: bool)
    : Result<TraceBlock, string>
    requires Known(codecs, codec)
  {
    match Full(keys)
    case None => Err("missing key")
    case Some(spec) =>
      match Unpacked(codecs, codec, UpTo(body, 0, spec.clen))
      case None => Err("cannot decompress")
      case Some(payload) => ReadBlock(spec, payload, little, swap)
  }

  function ReadBlocks(v: StoreView, codecs: Codecs, codec: string, specs: seq<SpecKeys>, body: seq<Byte>, little: bool,
                      swap: bool): Result<StoreView, string>
    requires Known(codecs, codec)
    decreases |specs|
  {
    if specs == [] then Ok(v)
    else
      match ReadMember(codecs, codec, specs[0], body, little, swap)
      case Err(e) => Err(e)
      case Ok(b) =>
        ReadBlocks(Appended(v, b), codecs, codec, specs[1..], body[Min(OrElse(specs[0].clen, 0), |body|)..], little,
                   swap)
  }

  /** The header and what follows it, unless the file is not a snapshot this
      build can read. */
  function Parsed(file: seq<Byte>, text: HeaderText): Result<(Header, seq<Byte>), string> {
    if UpTo(file, 0, |SNAPSHOT_MAGIC|) != SNAPSHOT_MAGIC then Err("not a pytrace trace snapshot")
    else if |file| < |SNAPSHOT_MAGIC| + LENGTH_BYTES then Err("no header length")
    else
      var start := |SNAPSHOT_MAGIC| + LENGTH_BYTES;
      var length := Value(file[|SNAPSHOT_MAGIC|..start]);
      match text.decode(UpTo(file, start, length))
      case None => Err("unreadable header")
      case Some(header) =>
        if header.version != Some(SNAPSHOT_VERSION) then Err("unreadable snapshot version")
        else Ok((header, file[Min(start + length, |file|)..]))
  }

  /** Counters as recorded; where a key is missing, as counted, but nothing dropped. */
  function Restored(counted: StoreStats, recorded: Option<StatKeys>): StoreStats {
    var keys := OrElse(recorded, StatKeys(None, None, None, None, None, None, None));
    StoreStats(OrElse(keys.polls, counted.polls), OrElse(keys.stitched, counted.stitched),
               OrElse(keys.gaps, counted.gaps), OrElse(keys.lost, counted.lost),
               OrElse(keys.totalRead, counted.totalRead),
               OrElse(keys.droppedBlocks, 0), OrElse(keys.droppedInstructions, 0))
  }

  function Loaded(file: seq<Byte>, codecs: Codecs, text: HeaderText, little: bool): Result<(StoreView, Meta), string> {
    match Parsed(file, text)
    case Err(e) => Err(e)
    case Ok((header, body)) =>
      var capacity := OrElse(header.capacity, DEFAULT_TRACE_CAPACITY);
      if header.codec.None? || !Known(codecs, header.codec.value) then Err("Unknown snapshot codec")
      else if capacity <= 0 then Err("capacity must be positive")
      else if header.blocks.None? then Err("missing key")
      else
        match ReadBlocks(Fresh(capacity), codecs, header.codec.value, header.blocks.value, body, little,
                         header.byteOrder != Some(OrderName(little)))
        case Err(e) => Err(e)
        case Ok(v) =>
          Ok((v.(stats := Restored(v.stats, header.stats), stampOrder := header.stampOrder),
              OrElse(header.meta, map[])))
  }

  /** A header, and what it says of the stream. */
  datatype Description = Description(header: Header, instructionCount: nat, blockCount: nat, boundaries: seq<nat>,
                                     stampedBlocks: nat)

  function SpecTotal(specs: seq<SpecKeys>): nat {
    if specs == [] then 0 else OrElse(specs[0].n, 0) + SpecTotal(specs[1..])
  }

  function SpecBoundaries(specs: seq<SpecKeys>, offset: nat): seq<nat> {
    if specs == [] then []
    else (if OrElse(specs[0].lostBefore, 0) > 0 && offset > 0 then [offset] else [])
         + SpecBoundaries(specs[1..], offset + OrElse(specs[0].n, 0))
  }

  function SpecStamped(specs: seq<SpecKeys>): nat {
    if specs == [] then 0 else (if OrElse(specs[0].stamps, 0) > 0 then 1 else 0) + SpecStamped(specs[1..])
  }

  predicate AllCounted(specs: seq<SpecKeys>) { forall i :: 0 <= i < |specs| ==> specs[i].n.Some? }

  function Described(file: seq<Byte>, text: HeaderText): Result<Description, string> {
    match Parsed(file, text)
    case Err(e) => Err(e)
    case Ok((header, _)) =>
      var specs := OrElse(header.blocks, []);
      if !AllCounted(specs) then Err("missing key")
      else Ok(Description(header, SpecTotal(specs), |specs|, SpecBoundaries(specs, 0), SpecStamped(specs)))
  }

  // ----- the methods

  lemma SaveStep(codecs: Codecs, codec: string, blocks: seq<TraceBlock>, little: bool, i: nat)
    requires Known(codecs, codec) && i < |blocks|
    ensures var member := Packed(codecs, codec, Payload(blocks[i], little));
            && Specs(codecs, codec, blocks[i..], little)
               == [KeysOf(SpecOf(blocks[i], |member|))] + Specs(codecs, codec, blocks[i + 1..], little)
            && Body(codecs, codec, blocks[i..], little) == member + Body(codecs, codec, blocks[i + 1..], little)
  {
    assert blocks[i..][1..] == blocks[i + 1..];
  }

  lemma SaveEnds(codecs: Codecs, codec: string, blocks: seq<TraceBlock>, little: bool,
                 specs: seq<SpecKeys>, members: seq<Byte>)
    requires Known(codecs, codec)
    ensures blocks[0..] == blocks
    ensures specs + Specs(codecs, codec, blocks[|blocks|..], little) == specs
    ensures members + Body(codecs, codec, blocks[|blocks|..], little) == members
  {
  }

  /** One compressed member a block, its lengths in the header. */
  method Members(blocks: seq<TraceBlock>, codecs: Codecs, codec: string, little: bool)
    returns (specs: seq<SpecKeys>, members: seq<Byte>)
    requires Known(codecs, codec)
    ensures specs == Specs(codecs, codec, blocks, little) && members == Body(codecs, codec, blocks, little)
  {
    hide Specs, Body, Packed, Payload, KeysOf;
    specs, members := [], [];
    SaveEnds(codecs, codec, blocks, little, specs, members);
    for i := 0 to |blocks|
      invariant specs + Specs(codecs, codec, blocks[i..], little) == Specs(codecs, codec, blocks, little)
      invariant members + Body(codecs, codec, blocks[i..], little) == Body(codecs, codec, blocks, little)
    {
      var member := Packed(codecs, codec, Payload(blocks[i], little));
      SaveStep(codecs, codec, blocks, little, i);
      Regroup(specs, [KeysOf(SpecOf(blocks[i], |member|))], Specs(codecs, codec, blocks[i + 1..], little));
      Regroup(members, member, Body(codecs, codec, blocks[i + 1..], little));
      specs := specs + [KeysOf(SpecOf(blocks[i], |member|))];
      members := members + member;
    }
    SaveEnds(codecs, codec, blocks, little, specs, members);
  }

  method Save(store: TraceStore, meta: Option<Meta>, codecs: Codecs, codec: string, text: HeaderText, little: bool)
    returns (r: Result<seq<Byte>, string>)
    requires store.Valid()
    ensures r == Saved(store.View(), meta, codecs, codec, text, little)
  {
    if !Known(codecs, codec) { return Err("Unknown snapshot codec"); }
    hide Specs, Body, Word, Limit;
    var specs, members := Members(store.blocks, codecs, codec, little);
    var encoded := text.encode(
      Header(Some(SNAPSHOT_VERSION), Some(codec), Some(OrderName(little)), Some(store.capacity),
             Some(StatKeysOf(store.stats)), store.stampOrder, Some(specs), Some(OrElse(meta, map[]))));
    if |encoded| >= Limit(LENGTH_BYTES) { return Err("header too long"); }
    r := Ok(SNAPSHOT_MAGIC + Word(|encoded|, LENGTH_BYTES) + encoded + members);
  }

  lemma ReadStep(v: StoreView, codecs: Codecs, codec: string, specs: seq<SpecKeys>, i: nat, body: seq<Byte>,
                 little: bool, swap: bool)
    requires Known(codecs, codec) && i < |specs|
    ensures var next := ReadMember(codecs, codec, specs[i], body, little, swap);
            ReadBlocks(v, codecs, codec, specs[i..], body, little, swap) ==
            if next.Err? then Err(next.error)
            else ReadBlocks(Appended(v, next.value), codecs, codec, specs[i + 1..],
                            body[Min(OrElse(specs[i].clen, 0), |body|)..], little, swap)
  {
    assert specs[i..][1..] == specs[i + 1..];
  }

  lemma ReadEnds(v: StoreView, codecs: Codecs, codec: string, specs: seq<SpecKeys>, body: seq<Byte>, little: bool,
                 swap: bool)
    requires Known(codecs, codec)
    ensures specs[0..] == specs
    ensures ReadBlocks(v, codecs, codec, specs[|specs|..], body, little, swap) == Ok(v)
  {
  }

  lemma ReadParallel(spec: BlockSpec, payload: seq<Byte>, little: bool, swap: bool)
    ensures var r := ReadBlock(spec, payload, little, swap); r.Ok? ==> |r.value.cycles| == |r.value.stampAt|
  {
  }

  /** Append every block of a snapshot body to a store. */
  method LoadBlocks(store: TraceStore, codecs: Codecs, codec: string, specs: seq<SpecKeys>, body0: seq<Byte>,
                    little: bool, swap: bool)
    returns (error: Option<string>)
    requires store.Valid() && Known(codecs, codec)
    modifies store
    ensures store.Valid()
    ensures var r := ReadBlocks(old(store.View()), codecs, codec, specs, body0, little, swap);
            match error
            case Some(e) => r == Err(e)
            case None => r == Ok(store.View())
  {
    hide ReadBlocks, ReadBlock, Unpacked, Appended, UpTo;
    ghost var goal := ReadBlocks(store.View(), codecs, codec, specs, body0, little, swap);
    ReadEnds(store.View(), codecs, codec, specs, body0, little, swap);
    var body := body0;
    for i := 0 to |specs|
      invariant store.Valid()
      invariant ReadBlocks(store.View(), codecs, codec, specs[i..], body, little, swap) == goal
    {
      ReadStep(store.View(), codecs, codec, specs, i, body, little, swap);
      var full := Full(specs[i]);
      if full.None? { return Some("missing key"); }
      var spec := full.value;
      var payload := Unpacked(codecs, codec, UpTo(body, 0, spec.clen));
      if payload.None? { return Some("cannot decompress"); }
      var block := ReadBlock(spec, payload.value, little, swap);
      if block.Err? { return Some(block.error); }
      ReadParallel(spec, payload.value, little, swap);
      var b := block.value;
      var _ := store.AppendBlock(b.pcs, b.lostBefore, b.haltReason, b.wallNs, b.cycles, b.stampAt);
      body := body[Min(spec.clen, |body|)..];
    }
    ReadEnds(store.View(), codecs, codec, specs, body, little, swap);
    error := None;
  }

  /** Check the magic and decode the header. */
  method ReadHeader(file: seq<Byte>, text: HeaderText) returns (r: Result<(Header, seq<Byte>), string>)
    ensures r == Parsed(file, text)
  {
    if UpTo(file, 0, |SNAPSHOT_MAGIC|) != SNAPSHOT_MAGIC { return Err("not a pytrace trace snapshot"); }
    var start := |SNAPSHOT_MAGIC| + LENGTH_BYTES;
    if |file| < start { return Err("no header length"); }
    var length := Value(file[|SNAPSHOT_MAGIC|..start]);
    var header := text.decode(UpTo(file, start, length));
    if header.None? { return Err("unreadable header"); }
    if header.value.version != Some(SNAPSHOT_VERSION) { return Err("unreadable snapshot version"); }
    r := Ok((header.value, file[Min(start + length, |file|)..]));
  }

  method Load(file: seq<Byte>, codecs: Codecs, text: HeaderText, little: bool)
    returns (r: Result<TraceStore, string>, meta: Meta)
    ensures r.Ok? <==> Loaded(file, codecs, text, little).Ok?
    ensures r.Err? ==> r.error == Loaded(file, codecs, text, little).error
    ensures r.Ok? ==> fresh(r.value) && r.value.Valid()
                      && Loaded(file, codecs, text, little) == Ok((r.value.View(), meta))
  {
    hide ReadBlocks, Parsed;
    meta := map[];
    var parsed := ReadHeader(file, text);
    if parsed.Err? { return Err(parsed.error), meta; }
    var (header, body) := parsed.value;
    if header.codec.None? || !Known(codecs, header.codec.value) { return Err("Unknown snapshot codec"), meta; }
    var swap := header.byteOrder != Some(OrderName(little));
    var opening := TraceStore.Open(OrElse(header.capacity, DEFAULT_TRACE_CAPACITY));
    if opening.Err? { return Err(opening.error), meta; }
    if header.blocks.None? { return Err("missing key"), meta; }
    var store := opening.value;
    var error := LoadBlocks(store, codecs, header.codec.value, header.blocks.value, body, little, swap);
    if error.Some? { return Err(error.value), meta; }
    store.stats := Restored(store.stats, header.stats);
    store.stampOrder := header.stampOrder;
    r, meta := Ok(store), OrElse(header.meta, map[]);
  }

  lemma DescribeStep(specs: seq<SpecKeys>, i: nat, offset: nat)
    requires i < |specs|
    ensures SpecTotal(specs[i..]) == OrElse(specs[i].n, 0) + SpecTotal(specs[i + 1..])
    ensures SpecStamped(specs[i..]) == (if OrElse(specs[i].stamps, 0) > 0 then 1 else 0) + SpecStamped(specs[i + 1..])
    ensures SpecBoundaries(specs[i..], offset)
         == (if OrElse(specs[i].lostBefore, 0) > 0 && offset > 0 then [offset] else [])
            + SpecBoundaries(specs[i + 1..], offset + OrElse(specs[i].n, 0))
  {
    hide SpecTotal, SpecStamped, SpecBoundaries;
    var rest := specs[i..];
    assert rest[0] == specs[i] && rest[1..] == specs[i + 1..];
    SpecCons(rest, offset);
  }

  lemma SpecCons(specs: seq<SpecKeys>, offset: nat)
    requires specs != []
    ensures SpecTotal(specs) == OrElse(specs[0].n, 0) + SpecTotal(specs[1..])
    ensures SpecStamped(specs) == (if OrElse(specs[0].stamps, 0) > 0 then 1 else 0) + SpecStamped(specs[1..])
    ensures SpecBoundaries(specs, offset)
         == (if OrElse(specs[0].lostBefore, 0) > 0 && offset > 0 then [offset] else [])
            + SpecBoundaries(specs[1..], offset + OrElse(specs[0].n, 0))
  {
  }

  lemma DescribeEnds(specs: seq<SpecKeys>, offset: nat)
    ensures specs[0..] == specs && SpecBoundaries(specs[|specs|..], offset) == []
    ensures SpecTotal(specs[|specs|..]) == 0 && SpecStamped(specs[|specs|..]) == 0
  {
  }

  /** The header alone: no member is read. */
  method Describe(file: seq<Byte>, text: HeaderText) returns (r: Result<Description, string>)
    ensures r == Described(file, text)
  {
    hide SpecTotal, SpecStamped, SpecBoundaries, Parsed;
    var parsed := ReadHeader(file, text);
    if parsed.Err? { return Err(parsed.error); }
    var header := parsed.value.0;
    var specs := OrElse(header.blocks, []);
    if i :| 0 <= i < |specs| && specs[i].n.None? { return Err("missing key"); }
    var offset: nat, stamped: nat, boundaries: seq<nat> := 0, 0, [];
    DescribeEnds(specs, offset);
    for i := 0 to |specs|
      invariant offset + SpecTotal(specs[i..]) == SpecTotal(specs)
      invariant stamped + SpecStamped(specs[i..]) == SpecStamped(specs)
      invariant boundaries + SpecBoundaries(specs[i..], offset) == SpecBoundaries(specs, 0)
    {
      var lostBefore: nat, n: nat := OrElse(specs[i].lostBefore, 0), specs[i].n.value;
      DescribeStep(specs, i, offset);
      var here := if lostBefore > 0 && offset > 0 then [offset] else [];
      Regroup(boundaries, here, SpecBoundaries(specs[i + 1..], offset + n));
      boundaries := boundaries + here;
      if OrElse(specs[i].stamps, 0) > 0 { stamped := stamped + 1; }
      offset := offset + n;
    }
    DescribeEnds(specs, offset);
    assert boundaries + [] == boundaries;
    r := Ok(Description(header, offset, |specs|, boundaries, stamped));
  }

  /** Files alike up to the end of their header are described alike, whatever
      members follow. */
  lemma DescribeIgnoresMembers(head: seq<Byte>, xs: seq<Byte>, ys: seq<Byte>, text: HeaderText)
    requires |head| >= |SNAPSHOT_MAGIC| + LENGTH_BYTES
    requires |SNAPSHOT_MAGIC| + LENGTH_BYTES + Value(head[|SNAPSHOT_MAGIC|..|SNAPSHOT_MAGIC| + LENGTH_BYTES]) <= |head|
    ensures Described(head + xs, text) == Described(head + ys, text)
  {
    hide SpecTotal, SpecStamped, SpecBoundaries, AllCounted, Value;
    HeadParsed(head, xs, text);
    HeadParsed(head, ys, text);
  }

  lemma HeadParsed(head: seq<Byte>, xs: seq<Byte>, text: HeaderText)
    requires |head| >= |SNAPSHOT_MAGIC| + LENGTH_BYTES
    requires |SNAPSHOT_MAGIC| + LENGTH_BYTES + Value(head[|SNAPSHOT_MAGIC|..|SNAPSHOT_MAGIC| + LENGTH_BYTES]) <= |head|
    ensures match Parsed(head, text)
            case Err(e) => Parsed(head + xs, text) == Err(e)
            case Ok((header, body)) => Parsed(head + xs, text) == Ok((header, body + xs))
  {
    hide Value;
    var start := |SNAPSHOT_MAGIC| + LENGTH_BYTES;
    var length := Value(head[|SNAPSHOT_MAGIC|..start]);
    assert (head + xs)[|SNAPSHOT_MAGIC|..start] == head[|SNAPSHOT_MAGIC|..start];
    assert UpTo(head + xs, 0, |SNAPSHOT_MAGIC|) == UpTo(head, 0, |SNAPSHOT_MAGIC|);
    assert UpTo(head + xs, start, length) == UpTo(head, start, length);
    assert (head + xs)[start + length..] == head[start + length..] + xs;
  }

  // ----- the round trip

  /** A block whose numbers fit the arrays that hold them. */
  ghost predicate Storable(b: TraceBlock) {
    && AllBelow(b.pcs, Limit(PC_BYTES)) && AllBelow(b.cycles, Limit(CYCLE_BYTES))
    && AllBelow(b.stampAt, Limit(STAMP_BYTES))
    && |b.cycles| == |b.stampAt|
  }

  ghost predicate AllStorable(blocks: seq<TraceBlock>) { forall i :: 0 <= i < |blocks| ==> Storable(blocks[i]) }

  ghost predicate Invertible(codecs: Codecs, codec: string) {
    Known(codecs, codec) && forall p: seq<Byte> :: Unpacked(codecs, codec, Packed(codecs, codec, p)) == Some(p)
  }

  lemma ThreeParts(a: seq<Byte>, b: seq<Byte>, c: seq<Byte>)
    ensures UpTo(a + b + c, 0, |a|) == a && UpTo(a + b + c, |a|, |b|) == b && UpTo(a + b + c, |a| + |b|, |c|) == c
  {
  }

  lemma PayloadParts(b: TraceBlock, little: bool)
    requires |b.cycles| == |b.stampAt|
    ensures var p, o := Payload(b, little), |b.pcs| * PC_BYTES;
            && UpTo(p, 0, o) == ToBytes(b.pcs, PC_BYTES, little)
            && UpTo(p, o, |b.cycles| * CYCLE_BYTES) == ToBytes(b.cycles, CYCLE_BYTES, little)
            && UpTo(p, o + |b.cycles| * CYCLE_BYTES, |b.cycles| * STAMP_BYTES)
               == ToBytes(b.stampAt, STAMP_BYTES, little)
  {
    hide UpTo, ToBytes;
    ThreeParts(ToBytes(b.pcs, PC_BYTES, little), ToBytes(b.cycles, CYCLE_BYTES, little),
               ToBytes(b.stampAt, STAMP_BYTES, little));
  }

  /** One block survives, whatever the byte orders of writer and reader. */
  lemma BlockRoundTrip(b: TraceBlock, clen: nat, writer: bool, reader: bool)
    requires Storable(b)
    ensures ReadBlock(SpecOf(b, clen), Payload(b, writer), reader, writer != reader) == Ok(b)
  {
    hide UpTo, Payload, ToBytes, FromBytes, ByteSwap;
    PayloadParts(b, writer);
    ArrayRoundTrip(b.pcs, PC_BYTES, writer, reader);
    ArrayRoundTrip(b.cycles, CYCLE_BYTES, writer, reader);
    ArrayRoundTrip(b.stampAt, STAMP_BYTES, writer, reader);
  }

  lemma NoEviction(v: StoreView, b: TraceBlock)
    requires Total(v.blocks + [b]) <= v.capacity || v.blocks == []
    ensures Appended(v, b) == v.(blocks := v.blocks + [b], stats := Recorded(v.stats, b))
  {
  }

  /** How many blocks come after a loss. */
  function AfterLoss(blocks: seq<TraceBlock>): nat {
    if blocks == [] then 0 else (if blocks[0].lostBefore > 0 then 1 else 0) + AfterLoss(blocks[1..])
  }

  /** How many blocks with anything in them come after none. */
  function Seamless(blocks: seq<TraceBlock>): nat {
    if blocks == [] then 0
    else (if blocks[0].lostBefore == 0 && blocks[0].pcs != [] then 1 else 0) + Seamless(blocks[1..])
  }

  /** Reloading appends every block and evicts none, because the whole fits. */
  lemma {:induction false} ReadBack(v: StoreView, codecs: Codecs, codec: string, rest: seq<TraceBlock>, writer: bool,
                                    reader: bool)
    requires Invertible(codecs, codec) && AllStorable(rest)
    requires Total(v.blocks + rest) <= v.capacity || |v.blocks + rest| <= 1
    ensures Known(codecs, codec)
    ensures var r := ReadBlocks(v, codecs, codec, Specs(codecs, codec, rest, writer),
                                Body(codecs, codec, rest, writer), reader,
                                writer != reader);
            && r.Ok? && r.value.blocks == v.blocks + rest && r.value.capacity == v.capacity
            && r.value.stats.polls == v.stats.polls + |rest|
            && r.value.stats.totalRead == v.stats.totalRead + Total(rest)
            && r.value.stats.lost == v.stats.lost + Lost(rest)
            && r.value.stats.gaps == v.stats.gaps + AfterLoss(rest)
            && r.value.stats.stitched == v.stats.stitched + Seamless(rest)
    decreases |rest|
  {
    hide *;
    KnownCodec(codecs, codec);
    if rest == [] {
      ReadNothing(v, codecs, codec, writer, reader);
      NoBlocks([]);
      assert v.blocks + rest == v.blocks;
      NothingCounted();
    } else {
      var b, tail := rest[0], rest[1..];
      FirstCounted(rest);
      FirstStorable(rest);
      FirstMember(codecs, codec, rest, writer, reader);
      ReadCons(v, codecs, codec, Specs(codecs, codec, rest, writer), Body(codecs, codec, rest, writer), reader,
               writer != reader);
      assert v.blocks + rest == (v.blocks + [b]) + tail;
      JoinBlocks(v.blocks + [b], tail);
      NoEviction(v, b);
      FirstBlock(rest);
      RecordedSays(v.stats, b);
      ReadBack(Appended(v, b), codecs, codec, tail, writer, reader);
    }
  }

  lemma RecordedSays(stats: StoreStats, b: TraceBlock)
    ensures var r := Recorded(stats, b);
            && r.polls == stats.polls + 1 && r.totalRead == stats.totalRead + |b.pcs|
               && r.lost == stats.lost + b.lostBefore
               && r.gaps == stats.gaps + (if b.lostBefore > 0 then 1 else 0)
               && r.stitched == stats.stitched + (if b.lostBefore == 0 && b.pcs != [] then 1 else 0)
  {
  }

  lemma NothingCounted()
    ensures AfterLoss([]) == 0 && Seamless([]) == 0
  {
  }

  lemma FirstCounted(blocks: seq<TraceBlock>)
    requires blocks != []
    ensures AfterLoss(blocks) == (if blocks[0].lostBefore > 0 then 1 else 0) + AfterLoss(blocks[1..])
    ensures Seamless(blocks)
         == (if blocks[0].lostBefore == 0 && blocks[0].pcs != [] then 1 else 0) + Seamless(blocks[1..])
  {
  }

  lemma ReadNothing(v: StoreView, codecs: Codecs, codec: string, writer: bool, reader: bool)
    requires Known(codecs, codec)
    ensures ReadBlocks(v, codecs, codec, Specs(codecs, codec, [], writer), Body(codecs, codec, [], writer), reader,
                       writer != reader) == Ok(v)
  {
  }

  lemma FirstStorable(rest: seq<TraceBlock>)
    requires AllStorable(rest) && rest != []
    ensures Storable(rest[0]) && AllStorable(rest[1..])
  {
  }

  lemma KnownCodec(codecs: Codecs, codec: string)
    requires Invertible(codecs, codec)
    ensures Known(codecs, codec)
  {
  }

  lemma ReadCons(v: StoreView, codecs: Codecs, codec: string, specs: seq<SpecKeys>, body: seq<Byte>, little: bool,
                 swap: bool)
    requires Known(codecs, codec) && specs != []
    requires ReadMember(codecs, codec, specs[0], body, little, swap).Ok?
    ensures ReadBlocks(v, codecs, codec, specs, body, little, swap)
            == ReadBlocks(Appended(v, ReadMember(codecs, codec, specs[0], body, little, swap).value), codecs, codec,
                          specs[1..], body[Min(OrElse(specs[0].clen, 0), |body|)..], little, swap)
  {
  }

  lemma FirstMember(codecs: Codecs, codec: string, rest: seq<TraceBlock>, writer: bool, reader: bool)
    requires Invertible(codecs, codec) && rest != [] && Storable(rest[0])
    ensures var specs, body := Specs(codecs, codec, rest, writer), Body(codecs, codec, rest, writer);
            && specs[1..] == Specs(codecs, codec, rest[1..], writer)
            && ReadMember(codecs, codec, specs[0], body, reader, writer != reader) == Ok(rest[0])
            && body[Min(OrElse(specs[0].clen, 0), |body|)..] == Body(codecs, codec, rest[1..], writer)
  {
    hide ReadBlock, Payload, Packed, Unpacked;
    var member := Packed(codecs, codec, Payload(rest[0], writer));
    var body := Body(codecs, codec, rest, writer);
    assert UpTo(body, 0, |member|) == member && body[|member|..] == Body(codecs, codec, rest[1..], writer);
    assert Full(KeysOf(SpecOf(rest[0], |member|))) == Some(SpecOf(rest[0], |member|));
    BlockRoundTrip(rest[0], |member|, writer, reader);
  }

  /** Headers survive being written down. */
  ghost predicate Legible(text: HeaderText) { forall h :: text.decode(text.encode(h)) == Some(h) }

  /** What is written parses back into header and members. */
  lemma WrittenParses(header: Header, members: seq<Byte>, text: HeaderText)
    requires Legible(text) && header.version == Some(SNAPSHOT_VERSION) && Written(text.encode(header), members).Ok?
    ensures Parsed(Written(text.encode(header), members).value, text) == Ok((header, members))
  {
    hide Limit, Word, Value;
    var encoded := text.encode(header);
    var length := Word(|encoded|, LENGTH_BYTES);
    var file := SNAPSHOT_MAGIC + length + encoded + members;
    var start := |SNAPSHOT_MAGIC| + LENGTH_BYTES;
    ValueOfWord(|encoded|, LENGTH_BYTES);
    assert UpTo(file, 0, |SNAPSHOT_MAGIC|) == SNAPSHOT_MAGIC;
    assert file[|SNAPSHOT_MAGIC|..start] == length;
    assert UpTo(file, start, |encoded|) == encoded;
    assert file[start + |encoded|..] == members;
  }

  /** Headers and payloads that can be written down given, saving fails for an
      unknown codec and for a header whose length needs more than four bytes, and
      for nothing else. */
  lemma SavedIff(v: StoreView, meta: Option<Meta>, codecs: Codecs, codec: string, text: HeaderText, little: bool)
    ensures Saved(v, meta, codecs, codec, text, little).Ok?
       <==> Known(codecs, codec)
            && |text.encode(HeaderOf(v, meta, codec, Specs(codecs, codec, v.blocks, little), little))| < 0x1_0000_0000
  {
    assert Limit(LENGTH_BYTES) == 0x1_0000_0000;
  }

  lemma OrderNamed(writer: bool, reader: bool)
    ensures Some(OrderName(writer)) != Some(OrderName(reader)) <==> writer != reader
  {
  }

  /** Every recorded counter wins over what reloading counted. */
  lemma StatsRestored(counted: StoreStats, s: StoreStats)
    ensures Restored(counted, Some(StatKeysOf(s))) == s
  {
  }

  /** A store comes back whole: blocks, capacity, every lifetime counter, the
      observed stamp order and what was stored alongside, whichever byte orders
      wrote and read it. */
  lemma RoundTrip(v: StoreView, meta: Option<Meta>, codecs: Codecs, codec: string, text: HeaderText, writer: bool,
                  reader: bool)
    requires v.capacity > 0 && Bounded(v) && AllStorable(v.blocks) && Invertible(codecs, codec) && Legible(text)
    requires Saved(v, meta, codecs, codec, text, writer).Ok?
    ensures Loaded(Saved(v, meta, codecs, codec, text, writer).value, codecs, text, reader)
            == Ok((v, OrElse(meta, map[])))
  {
    hide Written, Parsed, ReadBlocks, Specs, Body, Invertible, Legible, AllStorable, Restored, StatKeysOf, OrderName;
    var header := HeaderOf(v, meta, codec, Specs(codecs, codec, v.blocks, writer), writer);
    WrittenParses(header, Body(codecs, codec, v.blocks, writer), text);
    assert Fresh(v.capacity).blocks + v.blocks == v.blocks;
    ReadBack(Fresh(v.capacity), codecs, codec, v.blocks, writer, reader);
    OrderNamed(writer, reader);
    forall counted { StatsRestored(counted, v.stats); }
  }

  /** Whatever was done to a store, it can be saved and reloaded: no reachable
      store is too full for the reload to keep. */
  lemma ReachableRoundTrip(capacity: nat, ops: seq<Op>, meta: Option<Meta>, codecs: Codecs, codec: string,
                           text: HeaderText, writer: bool, reader: bool)
    requires capacity > 0 && Invertible(codecs, codec) && Legible(text)
    requires AllStorable(ApplyAll(Fresh(capacity), ops).blocks)
    ensures var v := ApplyAll(Fresh(capacity), ops);
            var saved := Saved(v, meta, codecs, codec, text, writer);
            saved.Ok? ==> Loaded(saved.value, codecs, text, reader) == Ok((v, OrElse(meta, map[])))
  {
    hide Saved, Loaded, Invertible, Legible, AllStorable;
    HistoryAccounts(capacity, ops);
    var v := ApplyAll(Fresh(capacity), ops);
    if Saved(v, meta, codecs, codec, text, writer).Ok? { RoundTrip(v, meta, codecs, codec, text, writer, reader); }
  }

  function StampedCount(blocks: seq<TraceBlock>): nat {
    if blocks == [] then 0 else (if |blocks[0].cycles| > 0 then 1 else 0) + StampedCount(blocks[1..])
  }

  lemma {:induction false} SpecsDescribe(codecs: Codecs, codec: string, blocks: seq<TraceBlock>, little: bool,
                                         offset: nat)
    requires Known(codecs, codec)
    ensures var specs := Specs(codecs, codec, blocks, little);
            && SpecTotal(specs) == Total(blocks) && SpecStamped(specs) == StampedCount(blocks)
            && SpecBoundaries(specs, offset) == BoundariesFrom(blocks, offset) && AllCounted(specs)
  {
    hide Total, BoundariesFrom, SpecTotal, SpecStamped, SpecBoundaries, Packed, Payload;
    var specs := Specs(codecs, codec, blocks, little);
    if blocks == [] {
      NothingDescribed(offset);
    } else {
      SpecsDescribe(codecs, codec, blocks[1..], little, offset + |blocks[0].pcs|);
      assert specs[1..] == Specs(codecs, codec, blocks[1..], little);
      SpecCons(specs, offset);
      FirstBlock(blocks);
      FirstBoundary(blocks, offset);
    }
  }

  lemma NothingDescribed(offset: nat)
    ensures SpecTotal([]) == Total([]) && SpecStamped([]) == 0
            && SpecBoundaries([], offset) == BoundariesFrom([], offset)
  {
  }

  /** The header alone tells what the loaded store would: how many instructions
      and blocks, where loss is, how many blocks are stamped. */
  lemma DescribeAgrees(v: StoreView, meta: Option<Meta>, codecs: Codecs, codec: string, text: HeaderText, writer: bool)
    requires Legible(text) && Saved(v, meta, codecs, codec, text, writer).Ok?
    ensures var d := Described(Saved(v, meta, codecs, codec, text, writer).value, text);
            && d.Ok? && d.value.instructionCount == Total(v.blocks) && d.value.blockCount == |v.blocks|
            && d.value.boundaries == Boundaries(v.blocks) && d.value.stampedBlocks == StampedCount(v.blocks)
            && d.value.header == HeaderOf(v, meta, codec, Specs(codecs, codec, v.blocks, writer), writer)
  {
    hide Written, Parsed, Specs, Body, Legible, AllCounted, SpecTotal, SpecStamped, SpecBoundaries, BoundariesFrom;
    SpecsDescribe(codecs, codec, v.blocks, writer, 0);
    WrittenParses(HeaderOf(v, meta, codec, Specs(codecs, codec, v.blocks, writer), writer),
                  Body(codecs, codec, v.blocks, writer), text);
  }

  // ----- the file, byte by byte

  /** Magic, the header's length low byte first, the header, and the members. */
  lemma SavedLooks(v: StoreView, meta: Option<Meta>, codecs: Codecs, codec: string, text: HeaderText, little: bool)
    requires Saved(v, meta, codecs, codec, text, little).Ok?
    ensures Known(codecs, codec)
    ensures var file := Saved(v, meta, codecs, codec, text, little).value;
            var encoded := text.encode(HeaderOf(v, meta, codec, Specs(codecs, codec, v.blocks, little), little));
            && |file| >= 12 + |encoded|
            && (forall i :: 0 <= i < 8 ==> file[i] == "PYTRACE1"[i] as int)
            && file[8..12] == Stored(|encoded|, 4, true)
            && file[12..12 + |encoded|] == encoded
            && file[12 + |encoded|..] == Body(codecs, codec, v.blocks, little)
  {
    hide Body, Specs, Limit, Word, HeaderOf;
    var encoded := text.encode(HeaderOf(v, meta, codec, Specs(codecs, codec, v.blocks, little), little));
    var file := Saved(v, meta, codecs, codec, text, little).value;
    assert file == SNAPSHOT_MAGIC + Word(|encoded|, LENGTH_BYTES) + encoded + Body(codecs, codec, v.blocks, little);
    forall i | 0 <= i < 8 ensures file[i] == "PYTRACE1"[i] as int { assert file[i] == SNAPSHOT_MAGIC[i]; }
  }

  /** A member holds its counters in four bytes each, then the cycles in eight, then
      the stamped places in four. */
  lemma PayloadSays(b: TraceBlock, little: bool)
    requires |b.cycles| == |b.stampAt|
    ensures var (p, n, m) := (Payload(b, little), |b.pcs|, |b.cycles|);
            && |p| == 4 * n + 12 * m
            && (forall i :: 0 <= i < n ==> p[4 * i..4 * i + 4] == Stored(b.pcs[i], 4, little))
            && (forall i :: 0 <= i < m ==> p[4 * n + 8 * i..4 * n + 8 * i + 8] == Stored(b.cycles[i], 8, little))
            && (forall i :: 0 <= i < m ==>
                  p[4 * n + 8 * m + 4 * i..4 * n + 8 * m + 4 * i + 4] == Stored(b.stampAt[i], 4, little))
  {
    hide Stored, ToBytes, UpTo;
    var (n, m) := (|b.pcs|, |b.cycles|);
    var (pcs, cycles, at) := (ToBytes(b.pcs, 4, little), ToBytes(b.cycles, 8, little), ToBytes(b.stampAt, 4, little));
    assert Payload(b, little) == [] + pcs + (cycles + at) == pcs + cycles + at == (pcs + cycles) + at + [];
    WordsWithin([], b.pcs, 4, little, cycles + at);
    WordsWithin(pcs, b.cycles, 8, little, at);
    WordsWithin(pcs + cycles, b.stampAt, 4, little, []);
  }

  ghost predicate Holds(bytes: seq<Byte>, from: nat, x: nat, width: nat, little: bool) {
    from + width <= |bytes| && bytes[from..from + width] == Stored(x, width, little)
  }

  lemma WordsWithin(pre: seq<Byte>, xs: seq<nat>, width: nat, little: bool, post: seq<Byte>)
    ensures var bytes := pre + ToBytes(xs, width, little) + post;
            forall i :: 0 <= i < |xs| ==> Holds(bytes, |pre| + i * width, xs[i], width, little)
  {
    hide Holds, Stored, ToBytes;
    var bytes := pre + ToBytes(xs, width, little) + post;
    forall i | 0 <= i < |xs| ensures Holds(bytes, |pre| + i * width, xs[i], width, little) {
      WordWithin(pre, xs, width, little, post, i);
    }
  }

  lemma WordWithin(pre: seq<Byte>, xs: seq<nat>, width: nat, little: bool, post: seq<Byte>, i: nat)
    requires i < |xs|
    ensures Holds(pre + ToBytes(xs, width, little) + post, |pre| + i * width, xs[i], width, little)
  {
    hide Stored, ToBytes;
    var bytes, from := pre + ToBytes(xs, width, little) + post, |pre| + i * width;
    WordAt(xs, width, little, i);
    assert i * width + width == (i + 1) * width;
    assert (|xs| - (i + 1)) * width >= 0;
    assert (|xs| - (i + 1)) * width == |xs| * width - (i + 1) * width;
  }

  // ----- missing keys

  /** A header with nothing but what its blocks need, and these counters. */
  function Bare(h: Header, stats: Option<StatKeys>): Header {
    h.(capacity := None, stats := stats, stampOrder := None, meta := None)
  }

  /** A value that was given, or another. */
  ghost predicate Kept<T>(given: Option<T>, otherwise: T, got: T) {
    match given
    case Some(x) => got == x
    case None => got == otherwise
  }

  /** A file with such a header still loads: at the default capacity, counting what
      it holds where a counter is missing, and with nothing stored alongside. */
  lemma BareLoads(v: StoreView, meta: Option<Meta>, codecs: Codecs, codec: string, text: HeaderText, writer: bool,
                  reader: bool, stats: Option<StatKeys>)
    requires Known(codecs, codec) && Invertible(codecs, codec) && Legible(text)
    requires AllStorable(v.blocks) && Total(v.blocks) <= 10_000_000
    requires var header := HeaderOf(v, meta, codec, Specs(codecs, codec, v.blocks, writer), writer);
             Written(text.encode(Bare(header, stats)), Body(codecs, codec, v.blocks, writer)).Ok?
    ensures var header := HeaderOf(v, meta, codec, Specs(codecs, codec, v.blocks, writer), writer);
            var file := Written(text.encode(Bare(header, stats)), Body(codecs, codec, v.blocks, writer)).value;
            var r := Loaded(file, codecs, text, reader);
            && r.Ok? && r.value.1 == map[]
            && r.value.0.capacity == 10_000_000 && r.value.0.blocks == v.blocks && r.value.0.stampOrder == None
            && var got := r.value.0.stats;
               if stats.None? then
                 got == StoreStats(|v.blocks|, Seamless(v.blocks), AfterLoss(v.blocks), Lost(v.blocks), Total(v.blocks),
                                   0, 0)
               else
                 && Kept(stats.value.polls, |v.blocks|, got.polls)
                 && Kept(stats.value.stitched, Seamless(v.blocks), got.stitched)
                 && Kept(stats.value.gaps, AfterLoss(v.blocks), got.gaps)
                 && Kept(stats.value.lost, Lost(v.blocks), got.lost)
                 && Kept(stats.value.totalRead, Total(v.blocks), got.totalRead)
                 && Kept(stats.value.droppedBlocks, 0, got.droppedBlocks)
                 && Kept(stats.value.droppedInstructions, 0, got.droppedInstructions)
  {
    hide Written, Parsed, ReadBlocks, Specs, Body, Invertible, Legible, AllStorable, OrderName, Total, Lost,
         Seamless, AfterLoss;
    KnownCodec(codecs, codec);
    var header := Bare(HeaderOf(v, meta, codec, Specs(codecs, codec, v.blocks, writer), writer), stats);
    WrittenParses(header, Body(codecs, codec, v.blocks, writer), text);
    assert Fresh(10_000_000).blocks + v.blocks == v.blocks;
    ReadBack(Fresh(10_000_000), codecs, codec, v.blocks, writer, reader);
    OrderNamed(writer, reader);
  }

  /** An entry of the block list with zero for a loss or stamps not mentioned. */
  function ZeroFilled(keys: SpecKeys): SpecKeys {
    keys.(stamps := if keys.stamps.Some? then keys.stamps else Some(0),
          lostBefore := if keys.lostBefore.Some? then keys.lostBefore else Some(0))
  }

  function AllZeroFilled(specs: seq<SpecKeys>): seq<SpecKeys> {
    if specs == [] then [] else [ZeroFilled(specs[0])] + AllZeroFilled(specs[1..])
  }

  /** A description takes them for zeros; only the number of instructions must be
      there. */
  lemma {:induction false} MissingAreZeros(specs: seq<SpecKeys>, offset: nat)
    ensures SpecTotal(specs) == SpecTotal(AllZeroFilled(specs))
    ensures SpecStamped(specs) == SpecStamped(AllZeroFilled(specs))
    ensures SpecBoundaries(specs, offset) == SpecBoundaries(AllZeroFilled(specs), offset)
  {
    hide SpecTotal, SpecStamped, SpecBoundaries;
    if specs != [] {
      SpecCons(specs, offset);
      SpecCons(AllZeroFilled(specs), offset);
      assert AllZeroFilled(specs)[1..] == AllZeroFilled(specs[1..]);
      MissingAreZeros(specs[1..], offset + OrElse(specs[0].n, 0));
    }
  }

  /** Without a byte order, arrays are taken for the other machine's. */
  lemma NoOrderSwaps(h: Header, members: seq<Byte>, codecs: Codecs, text: HeaderText, reader: bool)
    requires Legible(text) && h.version == Some(SNAPSHOT_VERSION)
    requires Written(text.encode(h.(byteOrder := None)), members).Ok?
    requires Written(text.encode(h.(byteOrder := Some(OrderName(!reader)))), members).Ok?
    ensures Loaded(Written(text.encode(h.(byteOrder := None)), members).value, codecs, text, reader)
         == Loaded(Written(text.encode(h.(byteOrder := Some(OrderName(!reader)))), members).value, codecs, text, reader)
  {
    hide Written, Parsed, ReadBlocks, Legible, OrderName;
    WrittenParses(h.(byteOrder := None), members, text);
    WrittenParses(h.(byteOrder := Some(OrderName(!reader))), members, text);
    OrderNamed(!reader, reader);
  }
}
