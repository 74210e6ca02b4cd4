/** The stack machine that infers call frames, as values and as the loop that
    runs it. */
module Frames {
  import opened Prelude
  import opened Sorting
  import opened Resolved

  const MIN_LEVEL: int := -32

  datatype CallFrame = CallFrame(
    name: string, address: nat, depth: int, startIndex: nat, endIndex: nat,
    file: Option<string>, line: Option<int>, openAtStart: bool, openAtEnd: bool
  )

  datatype FrameResult = FrameResult(frames: seq<CallFrame>, maxDepth: int)

  /** A frame still open: where it began, and at what level. */
  datatype Open = Open(
    name: string, address: nat, unknown: bool, level: int, startIndex: nat,
    file: Option<string>, line: Option<int>, openAtStart: bool
  )

  datatype Closed = Closed(frame: Open, endIndex: nat, openAtEnd: bool)

  datatype Machine = Machine(stack: seq<Open>, closed: seq<Closed>)

  /** Everything the builder is given besides the stream itself. */
  datatype Context = Context(resolver: Resolver, maxDepth: int, breaks: set<int>)

  // ----- names

  function HexDigit(n: nat): char
    requires n < 16
  {
    "0123456789abcdef"[n]
  }

  function Hex(n: nat, width: nat): string {
    if n == 0 && width == 0 then "" else Hex(n / 16, if width == 0 then 0 else width - 1) + [HexDigit(n % 16)]
  }

  function UnknownName(address: nat): string { "0x" + Hex(address, 8) }

  // ----- one instruction

  function OpenFrame(ctx: Context, index: nat, address: nat, level: int, openAtStart: bool): Open {
    var function_ := ctx.resolver.function_(address);
    var source := ctx.resolver.source(address);
    Open(
      if function_.Some? then function_.value.name else UnknownName(address),
      if function_.Some? then Masked(function_.value.addr) else address,
      function_.None?,
      level,
      index,
      if source.Some? then Some(source.value.file) else None,
      if source.Some? then Some(source.value.line) else None,
      openAtStart)
  }

  function Top(stack: seq<Open>): Open
    requires stack != []
  {
    stack[|stack| - 1]
  }

  function Push(m: Machine, frame: Open): Machine { m.(stack := m.stack + [frame]) }

  function Pop(m: Machine, index: nat, openAtEnd: bool): Machine
    requires m.stack != []
  {
    Machine(m.stack[..|m.stack| - 1], m.closed + [Closed(Top(m.stack), index, openAtEnd)])
  }

  /** Close frames from the top down until depth frames are left. */
  function PopTo(m: Machine, depth: nat, index: nat, openAtEnd: bool): Machine
    decreases |m.stack|
  {
    if |m.stack| <= depth then m else PopTo(Pop(m, index, openAtEnd), depth, index, openAtEnd)
  }

  /** The highest stack position holding this entry address, plus one; or zero. */
  function FindFrom(stack: seq<Open>, entry: nat, below: nat): (r: nat)
    requires below <= |stack|
    ensures r <= below
    ensures r > 0 ==> stack[r - 1].address == entry
    ensures forall p :: r <= p < below ==> stack[p].address != entry
  {
    if below == 0 then 0
    else if stack[below - 1].address == entry then below
    else FindFrom(stack, entry, below - 1)
  }

  function AtBreak(ctx: Context, m: Machine, index: nat): Machine {
    if index in ctx.breaks then PopTo(m, 0, index, true) else m
  }

  function Step(ctx: Context, before: Machine, index: nat, address: nat): Machine {
    var entry := ctx.resolver.Entry(address);
    var isEntry := entry.Some? && Masked(address) == entry.value;
    var m := AtBreak(ctx, before, index);
    if m.stack == [] then Push(m, OpenFrame(ctx, index, address, 0, true))
    else
      var top := Top(m.stack);
      var same := if entry.None? then top.unknown else top.address == entry.value;
      if same && !isEntry then m
      else if isEntry then
        if |m.stack| >= ctx.maxDepth then m else Push(m, OpenFrame(ctx, index, address, top.level + 1, false))
      else
        var found := if entry.Some? then FindFrom(m.stack, entry.value, |m.stack|) else 0;
        if found > 0 then PopTo(m, found, index, false)
        else Push(Pop(m, index, false), OpenFrame(ctx, index, address, Max(MIN_LEVEL, top.level - 1), true))
  }

  /** The machine after the first n instructions. */
  function After(ctx: Context, addresses: seq<nat>, n: nat): Machine
    requires n <= |addresses|
  {
    if n == 0 then Machine([], []) else Step(ctx, After(ctx, addresses, n - 1), n - 1, addresses[n - 1])
  }

  function CloseAll(stack: seq<Open>, end: nat): (r: seq<Closed>)
    ensures |r| == |stack|
    ensures forall i :: 0 <= i < |r| ==> r[i] == Closed(stack[i], end, true)
  {
    seq(|stack|, i requires 0 <= i < |stack| => Closed(stack[i], end, true))
  }

  /** The frames of a stream before levels are normalised. */
  function Raw(ctx: Context, addresses: seq<nat>): seq<Closed> {
    var m := After(ctx, addresses, |addresses|);
    m.closed + CloseAll(m.stack, |addresses|)
  }

  // ----- normalisation

  function MinLevel(closed: seq<Closed>): (r: int)
    requires closed != []
    ensures forall c :: c in closed ==> r <= c.frame.level
    ensures exists c :: c in closed && c.frame.level == r
  {
    if |closed| == 1 then closed[0].frame.level
    else
      assert closed == [closed[0]] + closed[1..];
      Min(closed[0].frame.level, MinLevel(closed[1..]))
  }

  function MaxLevel(closed: seq<Closed>): (r: int)
    requires closed != []
    ensures forall c :: c in closed ==> c.frame.level <= r
    ensures exists c :: c in closed && c.frame.level == r
  {
    if |closed| == 1 then closed[0].frame.level
    else
      assert closed == [closed[0]] + closed[1..];
      Max(closed[0].frame.level, MaxLevel(closed[1..]))
  }

  function Finished(c: Closed, minLevel: int): CallFrame {
    CallFrame(c.frame.name, c.frame.address, c.frame.level - minLevel, c.frame.startIndex, c.endIndex,
              c.frame.file, c.frame.line, c.frame.openAtStart, c.openAtEnd)
  }

  function FrameKey(f: CallFrame): Key { (f.startIndex, f.depth) }

  predicate FrameLess(a: CallFrame, b: CallFrame) { KeyLess(FrameKey(a), FrameKey(b)) }

  function Levelled(closed: seq<Closed>, minLevel: int): (r: seq<CallFrame>)
    ensures |r| == |closed|
    ensures forall i :: 0 <= i < |r| ==> r[i] == Finished(closed[i], minLevel)
  {
    seq(|closed|, i requires 0 <= i < |closed| => Finished(closed[i], minLevel))
  }

  function Normalised(closed: seq<Closed>): FrameResult {
    if closed == [] then FrameResult([], 0)
    else
      FrameResult(SortBy(FrameLess, Levelled(closed, MinLevel(closed))), MaxLevel(closed) - MinLevel(closed) + 1)
  }

  function FramesOf(ctx: Context, addresses: seq<nat>): FrameResult { Normalised(Raw(ctx, addresses)) }

  // ----- the builder

  lemma {:induction false} PopToIs(m: Machine, depth: nat, index: nat, openAtEnd: bool, keep: nat)
    requires depth <= keep <= |m.stack|
    ensures PopTo(m, depth, index, openAtEnd) == PopTo(PopTo(m, keep, index, openAtEnd), depth, index, openAtEnd)
    ensures PopTo(m, keep, index, openAtEnd).stack == m.stack[..keep]
    decreases |m.stack|
  {
    if |m.stack| > keep {
      PopToIs(Pop(m, index, openAtEnd), depth, index, openAtEnd, keep);
      assert m.stack[..|m.stack| - 1][..keep] == m.stack[..keep];
    } else {
      assert m.stack[..keep] == m.stack;
    }
  }

  /** Close the frames above depth, newest first. */
  method CloseAbove(stack: seq<Open>, closed: seq<Closed>, depth: nat, index: nat, openAtEnd: bool)
    returns (closed': seq<Closed>)
    requires depth <= |stack|
    ensures Machine(stack[..depth], closed') == PopTo(Machine(stack, closed), depth, index, openAtEnd)
  {
    closed' := closed;
    var position := |stack|;
    assert stack[..|stack|] == stack;
    while position > depth
      invariant depth <= position <= |stack|
      invariant PopTo(Machine(stack[..position], closed'), depth, index, openAtEnd)
             == PopTo(Machine(stack, closed), depth, index, openAtEnd)
    {
      position := position - 1;
      assert stack[..position + 1][..position] == stack[..position];
      closed' := closed' + [Closed(stack[position], index, openAtEnd)];
    }
  }

  /** The nearest open frame of a function, or -1. */
  method FindAncestor(stack: seq<Open>, entry: nat) returns (ancestor: int)
    ensures ancestor == FindFrom(stack, entry, |stack|) - 1
  {
    var position := |stack|;
    while position > 0
      invariant 0 <= position <= |stack|
      invariant FindFrom(stack, entry, |stack|) == FindFrom(stack, entry, position)
    {
      if stack[position - 1].address == entry { return position - 1; }
      position := position - 1;
    }
    ancestor := -1;
  }

  lemma NothingAbove(m: Machine, depth: nat, index: nat, openAtEnd: bool)
    ensures |m.stack| <= depth ==> PopTo(m, depth, index, openAtEnd) == m
    ensures m.stack[..0] == []
  {
  }

  /** One instruction, on the lists the builder keeps. */
  method Advance(ctx: Context, stack: seq<Open>, closed: seq<Closed>, index: nat, address: nat)
    returns (stack': seq<Open>, closed': seq<Closed>)
    ensures Machine(stack', closed') == Step(ctx, Machine(stack, closed), index, address)
  {
    hide OpenFrame, PopTo, FindFrom;
    NothingAbove(Machine(stack, closed), 0, index, true);
    stack', closed' := stack, closed;
    var function_ := ctx.resolver.function_(address);
    var entry := if function_.None? then None else Some(Masked(function_.value.addr));
    if index in ctx.breaks && stack != [] {
      closed' := CloseAbove(stack, closed, 0, index, true);
      stack' := [];
    }
    var isEntry := entry.Some? && Masked(address) == entry.value;
    if stack' == [] {
      stack' := stack' + [OpenFrame(ctx, index, address, 0, true)];
      return;
    }
    var top := stack'[|stack'| - 1];
    var same := if entry.None? then top.unknown else top.address == entry.value;
    if same && !isEntry { return; }
    if isEntry {
      if |stack'| >= ctx.maxDepth { return; }
      stack' := stack' + [OpenFrame(ctx, index, address, top.level + 1, false)];
      return;
    }
    var ancestor := -1;
    if entry.Some? { ancestor := FindAncestor(stack', entry.value); }
    if ancestor >= 0 {
      closed' := CloseAbove(stack', closed', ancestor + 1, index, false);
      stack' := stack'[..ancestor + 1];
      return;
    }
    closed' := closed' + [Closed(top, index, false)];
    stack' := stack'[..|stack'| - 1];
    stack' := stack' + [OpenFrame(ctx, index, address, Max(MIN_LEVEL, top.level - 1), true)];
  }

  /** Close what is still open when the stream ends. */
  method CloseAtEnd(stack: seq<Open>, closed: seq<Closed>, end: nat) returns (closed': seq<Closed>)
    ensures closed' == closed + CloseAll(stack, end)
  {
    closed' := closed;
    for i := 0 to |stack|
      invariant closed' == closed + CloseAll(stack, end)[..i]
    {
      closed' := closed' + [Closed(stack[i], end, true)];
    }
  }

  lemma AfterStep(ctx: Context, addresses: seq<nat>, n: nat)
    requires n < |addresses|
    ensures After(ctx, addresses, n + 1) == Step(ctx, After(ctx, addresses, n), n, addresses[n])
  {
  }

  lemma AfterAll(ctx: Context, addresses: seq<nat>)
    ensures After(ctx, addresses, 0) == Machine([], [])
    ensures var m := After(ctx, addresses, |addresses|);
            FramesOf(ctx, addresses) == Normalised(m.closed + CloseAll(m.stack, |addresses|))
  {
  }

  method BuildCallFrames(addresses: seq<nat>, resolver: Resolver, maxDepth: int, boundaries: seq<int>)
    returns (r: FrameResult)
    ensures r == FramesOf(Context(resolver, maxDepth, set b | b in boundaries), addresses)
  {
    hide *;
    var closed: seq<Closed>, stack: seq<Open> := [], [];
    var ctx := Context(resolver, maxDepth, set b | b in boundaries);
    AfterAll(ctx, addresses);
    for index := 0 to |addresses|
      invariant After(ctx, addresses, index) == Machine(stack, closed)
    {
      AfterStep(ctx, addresses, index);
      stack, closed := Advance(ctx, stack, closed, index, addresses[index]);
    }
    closed := CloseAtEnd(stack, closed, |addresses|);
    r := Normalised(closed);
  }
}
