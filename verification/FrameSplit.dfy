/** A break makes reconstruction compositional: the two sides of a hole are
    reconstructed as if the other side did not exist. */
module FrameSplit {
  import opened Prelude
  import opened Resolved
  import opened Frames

  function ShiftOpen(f: Open, gap: nat): Open { f.(startIndex := f.startIndex + gap) }

  function ShiftClosed(c: Closed, gap: nat): Closed { Closed(ShiftOpen(c.frame, gap), c.endIndex + gap, c.openAtEnd) }

  function ShiftStack(stack: seq<Open>, gap: nat): (r: seq<Open>)
    ensures |r| == |stack|
    ensures forall i :: 0 <= i < |r| ==> r[i] == ShiftOpen(stack[i], gap)
  {
    seq(|stack|, i requires 0 <= i < |stack| => ShiftOpen(stack[i], gap))
  }

  function ShiftFrames(closed: seq<Closed>, gap: nat): (r: seq<Closed>)
    ensures |r| == |closed|
    ensures forall i :: 0 <= i < |r| ==> r[i] == ShiftClosed(closed[i], gap)
  {
    seq(|closed|, i requires 0 <= i < |closed| => ShiftClosed(closed[i], gap))
  }

  /** The same machine later in a longer stream, after frames already closed. */
  function Later(m: Machine, gap: nat, prior: seq<Closed>): Machine {
    Machine(ShiftStack(m.stack, gap), prior + ShiftFrames(m.closed, gap))
  }

  /** The part of the break set a stream starting at gap would be given. */
  function ShiftContext(ctx: Context, gap: nat): Context {
    ctx.(breaks := set b | b in ctx.breaks :: b - gap)
  }

  lemma ShiftedBreak(ctx: Context, gap: nat, n: int)
    ensures n in ShiftContext(ctx, gap).breaks <==> n + gap in ctx.breaks
  {
    var b := n + gap;
    assert b in ctx.breaks ==> b - gap in ShiftContext(ctx, gap).breaks;
  }

  lemma PopLater(m: Machine, gap: nat, prior: seq<Closed>, n: nat, flag: bool)
    requires m.stack != []
    ensures Pop(Later(m, gap, prior), n + gap, flag) == Later(Pop(m, n, flag), gap, prior)
  {
    var top := |m.stack| - 1;
    assert ShiftStack(m.stack, gap)[..top] == ShiftStack(m.stack[..top], gap);
    assert ShiftFrames(m.closed + [Closed(Top(m.stack), n, flag)], gap)
        == ShiftFrames(m.closed, gap) + [ShiftClosed(Closed(Top(m.stack), n, flag), gap)];
  }

  lemma {:induction false} PopToLater(m: Machine, depth: nat, gap: nat, prior: seq<Closed>, n: nat, flag: bool)
    ensures PopTo(Later(m, gap, prior), depth, n + gap, flag) == Later(PopTo(m, depth, n, flag), gap, prior)
    decreases |m.stack|
  {
    if |m.stack| > depth {
      PopLater(m, gap, prior, n, flag);
      PopToLater(Pop(m, n, flag), depth, gap, prior, n, flag);
    }
  }

  lemma PushLater(m: Machine, gap: nat, prior: seq<Closed>, f: Open)
    ensures Push(Later(m, gap, prior), ShiftOpen(f, gap)) == Later(Push(m, f), gap, prior)
  {
    assert ShiftStack(m.stack + [f], gap) == ShiftStack(m.stack, gap) + [ShiftOpen(f, gap)];
  }

  lemma {:induction false} FindLater(stack: seq<Open>, gap: nat, entry: nat, below: nat)
    requires below <= |stack|
    ensures FindFrom(ShiftStack(stack, gap), entry, below) == FindFrom(stack, entry, below)
  {
    if below > 0 && stack[below - 1].address != entry { FindLater(stack, gap, entry, below - 1); }
  }

  lemma OpenLater(ctx: Context, n: nat, address: nat, level: int, flag: bool, gap: nat)
    ensures OpenFrame(ctx, n + gap, address, level, flag)
         == ShiftOpen(OpenFrame(ShiftContext(ctx, gap), n, address, level, flag), gap)
  {
  }

  /** What happens after the break check. */
  lemma RestLater(ctx: Context, m: Machine, n: nat, address: nat, gap: nat, prior: seq<Closed>)
    requires n !in ShiftContext(ctx, gap).breaks
    ensures Step(ctx, Later(m, gap, prior), n + gap, address)
         == Later(Step(ShiftContext(ctx, gap), m, n, address), gap, prior)
  {
    var ctx' := ShiftContext(ctx, gap);
    ShiftedBreak(ctx, gap, n);
    var entry := ctx.resolver.Entry(address);
    var isEntry := entry.Some? && Masked(address) == entry.value;
    if m.stack == [] {
      OpenLater(ctx, n, address, 0, true, gap);
      PushLater(m, gap, prior, OpenFrame(ctx', n, address, 0, true));
      return;
    }
    var top := Top(m.stack);
    assert Top(ShiftStack(m.stack, gap)) == ShiftOpen(top, gap);
    if (if entry.None? then top.unknown else top.address == entry.value) && !isEntry {
    } else if isEntry {
      OpenLater(ctx, n, address, top.level + 1, false, gap);
      PushLater(m, gap, prior, OpenFrame(ctx', n, address, top.level + 1, false));
    } else {
      if entry.Some? { FindLater(m.stack, gap, entry.value, |m.stack|); }
      var found := if entry.Some? then FindFrom(m.stack, entry.value, |m.stack|) else 0;
      if found > 0 {
        PopToLater(m, found, gap, prior, n, false);
      } else {
        var level := Max(MIN_LEVEL, top.level - 1);
        PopLater(m, gap, prior, n, false);
        OpenLater(ctx, n, address, level, true, gap);
        PushLater(Pop(m, n, false), gap, prior, OpenFrame(ctx', n, address, level, true));
      }
    }
  }

  lemma AtBreakOpens(ctx: Context, m: Machine, n: nat, address: nat)
    requires n in ctx.breaks
    ensures PopTo(m, 0, n, true).stack == []
    ensures Step(ctx, m, n, address) == Push(PopTo(m, 0, n, true), OpenFrame(ctx, n, address, 0, true))
  {
    PopToIs(m, 0, n, true, 0);
  }

  lemma StepLater(ctx: Context, m: Machine, n: nat, address: nat, gap: nat, prior: seq<Closed>)
    ensures Step(ctx, Later(m, gap, prior), n + gap, address)
         == Later(Step(ShiftContext(ctx, gap), m, n, address), gap, prior)
  {
    var ctx' := ShiftContext(ctx, gap);
    ShiftedBreak(ctx, gap, n);
    if n in ctx'.breaks {
      AtBreakOpens(ctx', m, n, address);
      AtBreakOpens(ctx, Later(m, gap, prior), n + gap, address);
      PopToLater(m, 0, gap, prior, n, true);
      OpenLater(ctx, n, address, 0, true, gap);
      PushLater(PopTo(m, 0, n, true), gap, prior, OpenFrame(ctx', n, address, 0, true));
    } else {
      RestLater(ctx, m, n, address, gap, prior);
    }
  }

  lemma {:induction false} AfterPrefix(ctx: Context, a: seq<nat>, b: seq<nat>, n: nat)
    requires n <= |a|
    ensures After(ctx, a + b, n) == After(ctx, a, n)
  {
    hide *;
    AfterAll(ctx, a);
    AfterAll(ctx, a + b);
    if n > 0 {
      AfterPrefix(ctx, a, b, n - 1);
      AfterStep(ctx, a, n - 1);
      AfterStep(ctx, a + b, n - 1);
    }
  }

  /** All that was open when the stream broke off, closed from the top down. */
  function Sealed(ctx: Context, a: seq<nat>): seq<Closed> { PopTo(After(ctx, a, |a|), 0, |a|, true).closed }

  lemma FirstAfterBreak(ctx: Context, a: seq<nat>, b: seq<nat>)
    requires |a| in ctx.breaks && b != []
    ensures After(ctx, a + b, |a| + 1) == Later(After(ShiftContext(ctx, |a|), b, 1), |a|, Sealed(ctx, a))
  {
    var ctx' := ShiftContext(ctx, |a|);
    var m := After(ctx, a, |a|);
    AfterPrefix(ctx, a, b, |a|);
    AfterStep(ctx, a + b, |a|);
    AfterStep(ctx', b, 0);
    AtBreakOpens(ctx, m, |a|, b[0]);
    assert Step(ctx', Machine([], []), 0, b[0]) == Push(Machine([], []), OpenFrame(ctx', 0, b[0], 0, true));
    OpenLater(ctx, 0, b[0], 0, true, |a|);
    PushLater(Machine([], []), |a|, Sealed(ctx, a), OpenFrame(ctx', 0, b[0], 0, true));
    assert Later(Machine([], []), |a|, Sealed(ctx, a)) == Machine([], Sealed(ctx, a));
  }

  lemma {:induction false} AfterBreak(ctx: Context, a: seq<nat>, b: seq<nat>, k: nat)
    requires |a| in ctx.breaks && 0 < k <= |b|
    ensures After(ctx, a + b, |a| + k) == Later(After(ShiftContext(ctx, |a|), b, k), |a|, Sealed(ctx, a))
  {
    hide *;
    if k == 1 {
      FirstAfterBreak(ctx, a, b);
    } else {
      AfterBreak(ctx, a, b, k - 1);
      var ctx' := ShiftContext(ctx, |a|);
      AfterStep(ctx, a + b, |a| + (k - 1));
      AfterStep(ctx', b, k - 1);
      StepLater(ctx, After(ctx', b, k - 1), k - 1, b[k - 1], |a|, Sealed(ctx, a));
      assert (a + b)[|a| + (k - 1)] == b[k - 1];
    }
  }

  lemma {:induction false} SealedAsEnded(m: Machine, n: nat)
    ensures multiset(PopTo(m, 0, n, true).closed) == multiset(m.closed + CloseAll(m.stack, n))
    decreases |m.stack|
  {
    if m.stack == [] {
      assert m.closed + CloseAll(m.stack, n) == m.closed;
    } else {
      var last := [Closed(Top(m.stack), n, true)];
      var rest := CloseAll(m.stack[..|m.stack| - 1], n);
      SealedAsEnded(Pop(m, n, true), n);
      assert CloseAll(m.stack, n) == rest + last;
      assert multiset(m.closed + last + rest) == multiset(m.closed + (rest + last));
    }
  }

  lemma EndLater(m: Machine, gap: nat, prior: seq<Closed>, n: nat)
    ensures var l := Later(m, gap, prior);
            l.closed + CloseAll(l.stack, n + gap) == prior + ShiftFrames(m.closed + CloseAll(m.stack, n), gap)
  {
    assert ShiftFrames(m.closed + CloseAll(m.stack, n), gap)
        == ShiftFrames(m.closed, gap) + CloseAll(ShiftStack(m.stack, gap), n + gap);
  }

  /** With a break where two streams meet, the frames of the whole are the
      frames of the first and the frames of the second moved along: the same
      frames as often, whatever other breaks either part has. */
  lemma BreakSplits(ctx: Context, a: seq<nat>, b: seq<nat>)
    requires |a| in ctx.breaks
    ensures multiset(Raw(ctx, a + b))
         == multiset(Raw(ctx, a)) + multiset(ShiftFrames(Raw(ShiftContext(ctx, |a|), b), |a|))
  {
    SealedAsEnded(After(ctx, a, |a|), |a|);
    if b == [] {
      assert a + b == a;
      assert Raw(ShiftContext(ctx, |a|), b) == [];
    } else {
      RawLater(ctx, a, b);
    }
  }

  lemma RawLater(ctx: Context, a: seq<nat>, b: seq<nat>)
    requires |a| in ctx.breaks && b != []
    ensures Raw(ctx, a + b) == Sealed(ctx, a) + ShiftFrames(Raw(ShiftContext(ctx, |a|), b), |a|)
  {
    hide After, Sealed, ShiftFrames, CloseAll, Later, ShiftContext;
    AfterBreak(ctx, a, b, |b|);
    EndLater(After(ShiftContext(ctx, |a|), b, |b|), |a|, Sealed(ctx, a), |b|);
  }
}
