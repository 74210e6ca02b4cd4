/** The shape of every frame set: intervals that are never empty, never share a
    start, nest or keep apart, and never reach across a break. */
module FrameShape {
  import opened Prelude
  import opened Resolved
  import opened Frames

  ghost predicate NoBreak(breaks: set<int>, start: nat, end: nat) {
    forall b :: b in breaks ==> !(start < b < end)
  }

  ghost predicate ClosedOk(breaks: set<int>, c: Closed, limit: nat) {
    && c.frame.startIndex < c.endIndex <= limit
    && (c.openAtEnd <==> c.endIndex in breaks)
    && NoBreak(breaks, c.frame.startIndex, c.endIndex)
  }

  ghost predicate OpenOk(breaks: set<int>, f: Open, limit: nat) {
    f.startIndex < limit && NoBreak(breaks, f.startIndex, limit)
  }

  /** Two intervals with different starts are disjoint or nested. */
  ghost predicate Apart(s: nat, e: nat, s': nat, e': nat) {
    && s != s'
    && (e <= s' || e' <= s || (s <= s' && e' <= e) || (s' <= s && e <= e'))
  }

  ghost predicate ClosedApart(c: Closed, d: Closed) {
    Apart(c.frame.startIndex, c.endIndex, d.frame.startIndex, d.endIndex)
  }

  /** A closed frame and one still running. */
  ghost predicate Cross(c: Closed, f: Open) {
    c.frame.startIndex != f.startIndex && (c.endIndex <= f.startIndex || f.startIndex < c.frame.startIndex)
  }

  /** Closed frames end by closedLimit, open ones began before openLimit. */
  ghost predicate Shape(breaks: set<int>, m: Machine, closedLimit: nat, openLimit: nat) {
    && (forall i :: 0 <= i < |m.closed| ==> ClosedOk(breaks, m.closed[i], closedLimit))
    && (forall p :: 0 <= p < |m.stack| ==> OpenOk(breaks, m.stack[p], openLimit))
    && (forall p, q :: 0 <= p < q < |m.stack| ==> m.stack[p].startIndex < m.stack[q].startIndex)
    && (forall i, j :: 0 <= i < j < |m.closed| ==> ClosedApart(m.closed[i], m.closed[j]))
    && (forall i, p :: 0 <= i < |m.closed| && 0 <= p < |m.stack| ==> Cross(m.closed[i], m.stack[p]))
  }

  lemma PopShape(breaks: set<int>, m: Machine, n: nat, flag: bool)
    requires Shape(breaks, m, n, n) && m.stack != [] && (flag <==> n in breaks)
    ensures Shape(breaks, Pop(m, n, flag), n, n)
  {
    var r := Pop(m, n, flag);
    var last, top := |m.closed|, |m.stack| - 1;
    assert OpenOk(breaks, m.stack[top], n);
    assert ClosedOk(breaks, r.closed[last], n);
    forall i | 0 <= i < last ensures ClosedApart(r.closed[i], r.closed[last]) {
      assert Cross(m.closed[i], m.stack[top]) && ClosedOk(breaks, m.closed[i], n);
    }
    forall p | 0 <= p < top ensures Cross(r.closed[last], r.stack[p]) {
      assert m.stack[p].startIndex < m.stack[top].startIndex;
    }
  }

  lemma {:induction false} PopToShape(breaks: set<int>, m: Machine, depth: nat, n: nat, flag: bool)
    requires Shape(breaks, m, n, n) && (|m.stack| > depth ==> (flag <==> n in breaks))
    ensures Shape(breaks, PopTo(m, depth, n, flag), n, n)
    ensures |PopTo(m, depth, n, flag).stack| == Min(|m.stack|, depth)
    decreases |m.stack|
  {
    if |m.stack| > depth {
      PopShape(breaks, m, n, flag);
      PopToShape(breaks, Pop(m, n, flag), depth, n, flag);
    }
  }

  lemma PushShape(breaks: set<int>, m: Machine, frame: Open, n: nat)
    requires Shape(breaks, m, n, n) && frame.startIndex == n
    requires n in breaks ==> m.stack == []
    ensures Shape(breaks, Push(m, frame), n, n + 1)
  {
    var r := Push(m, frame);
    forall p | 0 <= p < |r.stack| ensures OpenOk(breaks, r.stack[p], n + 1) {
      if p < |m.stack| { assert OpenOk(breaks, m.stack[p], n); }
    }
    forall p, q | 0 <= p < q < |r.stack| ensures r.stack[p].startIndex < r.stack[q].startIndex {
      assert OpenOk(breaks, m.stack[p], n);
    }
    forall i, p | 0 <= i < |r.closed| && 0 <= p < |r.stack| ensures Cross(r.closed[i], r.stack[p]) {
      assert ClosedOk(breaks, m.closed[i], n);
      if p < |m.stack| { assert Cross(m.closed[i], m.stack[p]); }
    }
  }

  lemma StayShape(breaks: set<int>, m: Machine, n: nat)
    requires Shape(breaks, m, n, n) && n !in breaks
    ensures Shape(breaks, m, n, n + 1)
  {
    forall p | 0 <= p < |m.stack| ensures OpenOk(breaks, m.stack[p], n + 1) {
      assert OpenOk(breaks, m.stack[p], n);
    }
  }

  lemma LaterShape(breaks: set<int>, m: Machine, n: nat)
    requires Shape(breaks, m, n, n + 1)
    ensures Shape(breaks, m, n + 1, n + 1)
  {
    forall i | 0 <= i < |m.closed| ensures ClosedOk(breaks, m.closed[i], n + 1) {
      assert ClosedOk(breaks, m.closed[i], n);
    }
  }

  lemma BreakShape(ctx: Context, m: Machine, n: nat)
    requires Shape(ctx.breaks, m, n, n)
    ensures Shape(ctx.breaks, AtBreak(ctx, m, n), n, n)
    ensures n in ctx.breaks ==> AtBreak(ctx, m, n).stack == []
  {
    if n in ctx.breaks { PopToShape(ctx.breaks, m, 0, n, true); }
  }

  lemma StepShape(ctx: Context, before: Machine, n: nat, address: nat)
    requires Shape(ctx.breaks, before, n, n)
    ensures Shape(ctx.breaks, Step(ctx, before, n, address), n, n + 1)
    ensures Step(ctx, before, n, address).stack != []
  {
    hide Shape, PopTo, FindFrom;
    var m := AtBreak(ctx, before, n);
    BreakShape(ctx, before, n);
    var entry := ctx.resolver.Entry(address);
    var isEntry := entry.Some? && Masked(address) == entry.value;
    if m.stack == [] {
      PushShape(ctx.breaks, m, OpenFrame(ctx, n, address, 0, true), n);
      return;
    }
    var top := Top(m.stack);
    StayShape(ctx.breaks, m, n);
    if (if entry.None? then top.unknown else top.address == entry.value) && !isEntry {
    } else if isEntry {
      PushShape(ctx.breaks, m, OpenFrame(ctx, n, address, top.level + 1, false), n);
    } else {
      var found := if entry.Some? then FindFrom(m.stack, entry.value, |m.stack|) else 0;
      if found > 0 {
        PopToShape(ctx.breaks, m, found, n, false);
        StayShape(ctx.breaks, PopTo(m, found, n, false), n);
      } else {
        PopShape(ctx.breaks, m, n, false);
        PushShape(ctx.breaks, Pop(m, n, false), OpenFrame(ctx, n, address, Max(MIN_LEVEL, top.level - 1), true), n);
      }
    }
  }

  lemma ShapeAtStart(breaks: set<int>)
    ensures Shape(breaks, Machine([], []), 0, 0)
  {
  }

  lemma {:induction false} AfterShape(ctx: Context, addresses: seq<nat>, n: nat)
    requires n <= |addresses|
    ensures Shape(ctx.breaks, After(ctx, addresses, n), n, n)
    ensures n > 0 ==> Shape(ctx.breaks, After(ctx, addresses, n), n - 1, n) && After(ctx, addresses, n).stack != []
  {
    hide Step, Shape;
    if n == 0 {
      ShapeAtStart(ctx.breaks);
    } else {
      AfterShape(ctx, addresses, n - 1);
      StepShape(ctx, After(ctx, addresses, n - 1), n - 1, addresses[n - 1]);
      LaterShape(ctx.breaks, After(ctx, addresses, n), n - 1);
    }
  }

  // ----- the frames of a finished stream

  ghost predicate FrameOk(breaks: set<int>, c: Closed, length: nat) {
    && c.frame.startIndex < c.endIndex <= length
    && (c.openAtEnd <==> c.endIndex == length || c.endIndex in breaks)
    && NoBreak(breaks, c.frame.startIndex, c.endIndex)
  }

  /** Every frame is non-empty, open at its end exactly at the stream's end or a
      break, and reaches across no break; any two are disjoint or nested. */
  lemma RawShape(ctx: Context, addresses: seq<nat>)
    ensures var r := Raw(ctx, addresses);
            && (forall i :: 0 <= i < |r| ==> FrameOk(ctx.breaks, r[i], |addresses|))
            && (forall i, j :: 0 <= i < j < |r| ==> ClosedApart(r[i], r[j]))
  {
    var n := |addresses|;
    var m := After(ctx, addresses, n);
    var r := Raw(ctx, addresses);
    AfterShape(ctx, addresses, n);
    if n == 0 { return; }
    forall i | 0 <= i < |r| ensures FrameOk(ctx.breaks, r[i], n) {
      if i < |m.closed| {
        assert ClosedOk(ctx.breaks, m.closed[i], n - 1);
      } else {
        assert OpenOk(ctx.breaks, m.stack[i - |m.closed|], n);
      }
    }
    forall i, j | 0 <= i < j < |r| ensures ClosedApart(r[i], r[j]) {
      if j < |m.closed| {
        assert ClosedApart(m.closed[i], m.closed[j]);
      } else if i < |m.closed| {
        assert Cross(m.closed[i], m.stack[j - |m.closed|]) && ClosedOk(ctx.breaks, m.closed[i], n);
      } else {
        assert m.stack[i - |m.closed|].startIndex < m.stack[j - |m.closed|].startIndex;
      }
    }
  }
}
