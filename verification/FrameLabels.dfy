/** What a frame says of itself: the name and place of the instruction it began
    with, and whether its beginning was seen. */
module FrameLabels {
  import opened Prelude
  import opened Resolved
  import opened Frames
  import opened FrameShape
  import opened FrameResults

  /** The instruction is its function's first. */
  predicate IsEntry(ctx: Context, address: nat) { ctx.resolver.Entry(address) == Some(Masked(address)) }

  /** A frame's beginning was seen only if it began at its function's entry, in
      the middle of a stretch. */
  predicate BeganUnseen(ctx: Context, addresses: seq<nat>, i: nat)
    requires i < |addresses|
  {
    i == 0 || i in ctx.breaks || !IsEntry(ctx, addresses[i])
  }

  ghost predicate Labelled(ctx: Context, addresses: seq<nat>, f: Open) {
    && f.startIndex < |addresses|
    && f == OpenFrame(ctx, f.startIndex, addresses[f.startIndex], f.level, BeganUnseen(ctx, addresses, f.startIndex))
  }

  ghost predicate AllLabelled(ctx: Context, addresses: seq<nat>, m: Machine) {
    && (forall p :: 0 <= p < |m.stack| ==> Labelled(ctx, addresses, m.stack[p]))
    && (forall i :: 0 <= i < |m.closed| ==> Labelled(ctx, addresses, m.closed[i].frame))
  }

  lemma PopLabelled(ctx: Context, addresses: seq<nat>, m: Machine, n: nat, flag: bool)
    requires AllLabelled(ctx, addresses, m) && m.stack != []
    ensures AllLabelled(ctx, addresses, Pop(m, n, flag))
  {
    hide Labelled;
  }

  lemma {:induction false} PopToLabelled(ctx: Context, addresses: seq<nat>, m: Machine, depth: nat, n: nat, flag: bool)
    requires AllLabelled(ctx, addresses, m)
    ensures AllLabelled(ctx, addresses, PopTo(m, depth, n, flag))
    decreases |m.stack|
  {
    hide AllLabelled;
    if |m.stack| > depth {
      PopLabelled(ctx, addresses, m, n, flag);
      PopToLabelled(ctx, addresses, Pop(m, n, flag), depth, n, flag);
    }
  }

  lemma PushLabelled(ctx: Context, addresses: seq<nat>, m: Machine, f: Open)
    requires AllLabelled(ctx, addresses, m) && Labelled(ctx, addresses, f)
    ensures AllLabelled(ctx, addresses, Push(m, f))
  {
    hide Labelled;
  }

  lemma StepLabelled(ctx: Context, addresses: seq<nat>, before: Machine, n: nat)
    requires n < |addresses| && AllLabelled(ctx, addresses, before) && Shape(ctx.breaks, before, n, n)
    requires n > 0 ==> before.stack != []
    ensures AllLabelled(ctx, addresses, Step(ctx, before, n, addresses[n]))
  {
    hide AllLabelled, Shape, PopTo, FindFrom;
    var address := addresses[n];
    var m := AtBreak(ctx, before, n);
    BreakShape(ctx, before, n);
    if n == 0 { NoneBefore(ctx, before); }
    if n in ctx.breaks { PopToLabelled(ctx, addresses, before, 0, n, true); }
    var entry := ctx.resolver.Entry(address);
    var isEntry := entry.Some? && Masked(address) == entry.value;
    if m.stack == [] {
      PushLabelled(ctx, addresses, m, OpenFrame(ctx, n, address, 0, true));
      return;
    }
    var top := Top(m.stack);
    if (if entry.None? then top.unknown else top.address == entry.value) && !isEntry {
    } else if isEntry {
      if |m.stack| < ctx.maxDepth { PushLabelled(ctx, addresses, m, OpenFrame(ctx, n, address, top.level + 1, false)); }
    } else {
      var found := if entry.Some? then FindFrom(m.stack, entry.value, |m.stack|) else 0;
      if found > 0 {
        PopToLabelled(ctx, addresses, m, found, n, false);
      } else {
        PopLabelled(ctx, addresses, m, n, false);
        PushLabelled(ctx, addresses, Pop(m, n, false), OpenFrame(ctx, n, address, Max(MIN_LEVEL, top.level - 1), true));
      }
    }
  }

  /** Nothing is open before the first instruction. */
  lemma NoneBefore(ctx: Context, m: Machine)
    requires Shape(ctx.breaks, m, 0, 0)
    ensures m.stack == []
  {
    assert m.stack != [] ==> OpenOk(ctx.breaks, m.stack[0], 0);
  }

  lemma {:induction false} AfterLabelled(ctx: Context, addresses: seq<nat>, n: nat)
    requires n <= |addresses|
    ensures AllLabelled(ctx, addresses, After(ctx, addresses, n))
  {
    hide Shape, Step;
    if n > 0 {
      AfterLabelled(ctx, addresses, n - 1);
      AfterShape(ctx, addresses, n - 1);
      StepLabelled(ctx, addresses, After(ctx, addresses, n - 1), n - 1);
    }
  }

  /** In the finished raw list too. */
  lemma RawLabelled(ctx: Context, addresses: seq<nat>, i: nat)
    requires i < |Raw(ctx, addresses)|
    ensures Labelled(ctx, addresses, Raw(ctx, addresses)[i].frame)
  {
    hide Labelled, Step, After;
    AfterLabelled(ctx, addresses, |addresses|);
  }

  // ----- finished frames

  /** The label of a frame is that of the instruction it starts with, and it is
      open at its start exactly when its beginning was not seen: at the start of
      the stream, at a break, or anywhere but its function's entry. */
  lemma FrameLabel(ctx: Context, addresses: seq<nat>, k: nat)
    requires k < |FramesOf(ctx, addresses).frames|
    ensures var f := FramesOf(ctx, addresses).frames[k];
            && f.startIndex < |addresses|
            && (f.openAtStart <==> BeganUnseen(ctx, addresses, f.startIndex))
            && var (fn, source) := (ctx.resolver.function_(addresses[f.startIndex]),
                                    ctx.resolver.source(addresses[f.startIndex]));
               && f.name == (if fn.Some? then fn.value.name else UnknownName(addresses[f.startIndex]))
               && f.address == (if fn.Some? then Masked(fn.value.addr) else addresses[f.startIndex])
               && f.file == (if source.Some? then Some(source.value.file) else None)
               && f.line == (if source.Some? then Some(source.value.line) else None)
  {
    hide Raw, FramesOf, BeganUnseen;
    var raw := Raw(ctx, addresses);
    SomeRaw(ctx, addresses, k);
    ResultMembers(ctx, addresses);
    var i :| 0 <= i < |raw| && FramesOf(ctx, addresses).frames[k] == Finished(raw[i], MinLevel(raw));
    RawLabelled(ctx, addresses, i);
  }

  // ----- the name of an address that lies in no function

  predicate LowerHex(c: char) { '0' <= c <= '9' || 'a' <= c <= 'f' }

  function DigitRead(c: char): (d: nat)
    requires LowerHex(c)
  {
    if c <= '9' then c as int - '0' as int else c as int - 'a' as int + 10
  }

  ghost predicate AllHex(text: string) { forall i :: 0 <= i < |text| ==> LowerHex(text[i]) }

  /** The number hexadecimal digits stand for, the last weighing least. */
  function HexRead(text: string): nat
    requires AllHex(text)
  {
    if text == "" then 0 else 16 * HexRead(text[..|text| - 1]) + DigitRead(text[|text| - 1])
  }

  lemma DigitReads(n: nat)
    requires n < 16
    ensures LowerHex(HexDigit(n)) && DigitRead(HexDigit(n)) == n && (HexDigit(n) == '0' <==> n == 0)
  {
  }

  lemma {:induction false} HexReads(n: nat, width: nat)
    ensures var text := Hex(n, width);
            AllHex(text) && HexRead(text) == n && |text| >= width && (|text| > width ==> text[0] != '0')
  {
    if n != 0 || width != 0 {
      var rest, digit := Hex(n / 16, if width == 0 then 0 else width - 1), HexDigit(n % 16);
      HexReads(n / 16, if width == 0 then 0 else width - 1);
      DigitReads(n % 16);
      assert (rest + [digit])[..|rest|] == rest;
      assert rest == "" ==> n / 16 == 0;
    }
  }

  /** An address that lies in no function is named by itself: 0x and its lower-case
      hexadecimal digits, eight at least and padded no further. */
  lemma UnknownNameReads(address: nat)
    ensures var name := UnknownName(address);
            && |name| >= 10 && name[..2] == "0x"
            && AllHex(name[2..]) && HexRead(name[2..]) == address
            && (|name| > 10 ==> name[2] != '0')
  {
    HexReads(address, 8);
  }
}
