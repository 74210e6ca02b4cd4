/** How deep a frame is listed, against the frame it lies in. */
module FrameDepths {
  import opened Prelude
  import opened Resolved
  import opened Frames
  import opened FrameShape
  import opened FrameOwner
  import opened FrameResults

  /** One level up when the call was seen; otherwise not above what it lies on. */
  ghost predicate Sits(below: Open, f: Open) {
    if f.openAtStart then f.level <= below.level else f.level == below.level + 1
  }

  ghost predicate StackSits(stack: seq<Open>) {
    && (stack != [] ==> stack[0].openAtStart)
    && (forall p :: 0 < p < |stack| ==> Sits(stack[p - 1], stack[p]))
  }

  lemma PartSits(stack: seq<Open>, depth: nat)
    requires StackSits(stack) && depth <= |stack|
    ensures StackSits(stack[..depth])
  {
    hide Sits;
  }

  lemma PushSits(stack: seq<Open>, f: Open)
    requires StackSits(stack)
    requires if stack == [] then f.openAtStart else Sits(Top(stack), f)
    ensures StackSits(stack + [f])
  {
    hide Sits;
  }

  /** A return into code never seen replaces the top frame by one not above what
      that frame lay on. */
  lemma ReplacedSits(stack: seq<Open>, f: Open)
    requires StackSits(stack) && stack != [] && f.openAtStart
    requires |stack| > 1 ==> stack[|stack| - 2].level >= MIN_LEVEL && f.level == Max(MIN_LEVEL, Top(stack).level - 1)
    ensures StackSits(stack[..|stack| - 1] + [f])
  {
    PartSits(stack, |stack| - 1);
    if |stack| > 1 { assert Sits(stack[|stack| - 2], stack[|stack| - 1]); }
    PushSits(stack[..|stack| - 1], f);
  }

  lemma StepSits(ctx: Context, before: Machine, n: nat, address: nat)
    requires StackSits(before.stack) && StackBounded(ctx, before)
    ensures StackSits(Step(ctx, before, n, address).stack)
  {
    hide StackSits, PopTo, FindFrom;
    var m := AtBreak(ctx, before, n);
    PopToStack(before, 0, n, true);
    PartSits(before.stack, 0);
    var entry := ctx.resolver.Entry(address);
    var isEntry := entry.Some? && Masked(address) == entry.value;
    if m.stack == [] {
      PushSits(m.stack, OpenFrame(ctx, n, address, 0, true));
      return;
    }
    assert m == before;
    var top := Top(m.stack);
    if (if entry.None? then top.unknown else top.address == entry.value) && !isEntry {
    } else if isEntry {
      PushSits(m.stack, OpenFrame(ctx, n, address, top.level + 1, false));
    } else {
      var found := if entry.Some? then FindFrom(m.stack, entry.value, |m.stack|) else 0;
      if found > 0 {
        PopToStack(m, found, n, false);
        PartSits(m.stack, found);
      } else {
        ReplacedSits(m.stack, OpenFrame(ctx, n, address, Max(MIN_LEVEL, top.level - 1), true));
      }
    }
  }

  lemma {:induction false} AfterSits(ctx: Context, addresses: seq<nat>, n: nat)
    requires n <= |addresses|
    ensures StackSits(After(ctx, addresses, n).stack)
  {
    hide Step, StackBounded;
    if n > 0 {
      AfterSits(ctx, addresses, n - 1);
      AfterBounded(ctx, addresses, n - 1);
      StepSits(ctx, After(ctx, addresses, n - 1), n - 1, addresses[n - 1]);
    }
  }

  // ----- raw frames

  /** g began earlier and outlasts c. */
  ghost predicate Encloses(g: Closed, c: Closed) {
    g.frame.startIndex < c.frame.startIndex && c.endIndex <= g.endIndex
  }

  lemma RawInRange(ctx: Context, addresses: seq<nat>, c: Closed)
    requires c in Raw(ctx, addresses)
    ensures c.frame.startIndex < c.endIndex <= |addresses|
  {
    hide Raw, ClosedApart, NoBreak;
    RawShape(ctx, addresses);
    var i :| 0 <= i < |Raw(ctx, addresses)| && Raw(ctx, addresses)[i] == c;
    assert FrameOk(ctx.breaks, c, |addresses|);
  }

  /** Of two frames that cover one instruction the earlier encloses the later. */
  lemma EarlierEncloses(ctx: Context, addresses: seq<nat>, b: Closed, c: Closed, n: nat)
    requires b in Raw(ctx, addresses) && c in Raw(ctx, addresses) && Covers(b, n) && Covers(c, n)
    requires b.frame.startIndex < c.frame.startIndex
    ensures Encloses(b, c)
  {
    hide Raw, FrameOk;
    var r := Raw(ctx, addresses);
    RawShape(ctx, addresses);
    var i :| 0 <= i < |r| && r[i] == b;
    var j :| 0 <= j < |r| && r[j] == c;
    assert if i < j then ClosedApart(r[i], r[j]) else ClosedApart(r[j], r[i]);
  }

  ghost predicate Rising(s: seq<Open>) { forall p, q :: 0 <= p < q < |s| ==> s[p].startIndex < s[q].startIndex }

  /** The stack right after a frame began. */
  lemma StackRises(ctx: Context, addresses: seq<nat>, n: nat)
    requires n < |addresses|
    ensures Rising(StackAt(ctx, addresses, n)) && StackSits(StackAt(ctx, addresses, n))
    ensures forall g :: g in StackAt(ctx, addresses, n) ==> g.startIndex <= n
  {
    hide After, StackSits;
    StackStarts(ctx, addresses, n);
    AfterSits(ctx, addresses, n + 1);
  }

  ghost predicate EndsIn(s: seq<Open>, f: Open) { s != [] && s[|s| - 1] == f }

  lemma LatestIsTop(s: seq<Open>, f: Open)
    requires f in s && Rising(s) && forall g :: g in s ==> g.startIndex <= f.startIndex
    ensures EndsIn(s, f)
  {
    var p :| 0 <= p < |s| && s[p] == f;
    assert s[|s| - 1] in s;
  }

  /** Right after its first instruction a frame is on top of the stack. */
  lemma BeganOnTop(ctx: Context, addresses: seq<nat>, c: Closed)
    requires c in Raw(ctx, addresses)
    ensures c.frame.startIndex < |addresses| && Covers(c, c.frame.startIndex)
    ensures EndsIn(StackAt(ctx, addresses, c.frame.startIndex), c.frame)
  {
    hide Raw, StackAt, EndsIn, Rising, StackSits;
    RawInRange(ctx, addresses, c);
    StackRises(ctx, addresses, c.frame.startIndex);
    CovererWasOpen(ctx, addresses, c.frame.startIndex, c);
    LatestIsTop(StackAt(ctx, addresses, c.frame.startIndex), c.frame);
  }

  /** below lies right under f at the top of s. */
  ghost predicate RightUnder(s: seq<Open>, below: Open, f: Open) { |s| > 1 && s[|s| - 2] == below && s[|s| - 1] == f }

  lemma UnderTop(s: seq<Open>, below: Open, f: Open)
    requires RightUnder(s, below, f) && Rising(s) && StackSits(s)
    ensures below in s && below.startIndex < f.startIndex && Sits(below, f)
    ensures forall g :: g in s && g.startIndex < f.startIndex ==> g.startIndex <= below.startIndex
    ensures forall g :: g in s && g.startIndex == below.startIndex ==> g == below
  {
    hide Sits;
    assert Sits(s[|s| - 1 - 1], s[|s| - 1]);
  }

  /** The frame below it on that stack encloses it. */
  lemma BelowEncloses(ctx: Context, addresses: seq<nat>, c: Closed, below: Open) returns (b: Closed)
    requires c in Raw(ctx, addresses) && c.frame.startIndex < |addresses|
    requires RightUnder(StackAt(ctx, addresses, c.frame.startIndex), below, c.frame)
    ensures b in Raw(ctx, addresses) && b.frame == below && Encloses(b, c) && Sits(below, c.frame)
  {
    hide Raw, StackAt, RightUnder, Rising, StackSits, Sits, Encloses;
    var n := c.frame.startIndex;
    StackRises(ctx, addresses, n);
    UnderTop(StackAt(ctx, addresses, n), below, c.frame);
    BeganOnTop(ctx, addresses, c);
    b := OpenCovers(ctx, addresses, n, below);
    EarlierEncloses(ctx, addresses, b, c, n);
  }

  /** g encloses c, and nothing that began after g does. */
  ghost predicate InnermostAround(r: seq<Closed>, g: Closed, c: Closed) {
    && g in r && c in r && Encloses(g, c)
    && forall h :: h in r && Encloses(h, c) ==> h.frame.startIndex <= g.frame.startIndex
  }

  lemma TwoDeep(s: seq<Open>, g: Open, f: Open) returns (below: Open)
    requires g in s && g != f && EndsIn(s, f)
    ensures RightUnder(s, below, f)
  {
    var p :| 0 <= p < |s| && s[p] == g;
    below := s[|s| - 2];
  }

  /** The innermost frame around another is the one it was opened on. */
  lemma InnermostSits(ctx: Context, addresses: seq<nat>, g: Closed, c: Closed)
    requires InnermostAround(Raw(ctx, addresses), g, c)
    ensures Sits(g.frame, c.frame)
  {
    hide Raw, StackAt, RightUnder, Rising, StackSits, Sits, EndsIn;
    var n := c.frame.startIndex;
    BeganOnTop(ctx, addresses, c);
    CovererWasOpen(ctx, addresses, n, g);
    var below := TwoDeep(StackAt(ctx, addresses, n), g.frame, c.frame);
    StackRises(ctx, addresses, n);
    UnderTop(StackAt(ctx, addresses, n), below, c.frame);
    var b := BelowEncloses(ctx, addresses, c, below);
  }

  // ----- finished frames

  /** f[l] is the innermost listed frame that encloses f[k]. */
  ghost predicate LiesIn(f: seq<CallFrame>, k: nat, l: nat) {
    && l < k < |f| && f[k].endIndex <= f[l].endIndex
    && forall i :: l < i < k ==> f[i].endIndex < f[k].endIndex
  }

  lemma ListedBefore(f: seq<CallFrame>, k: nat, a: CallFrame) returns (l: nat)
    requires Nested(f) && k < |f| && a in f && a.startIndex < f[k].startIndex
    ensures l < k && f[l] == a
  {
    l :| 0 <= l < |f| && f[l] == a;
  }

  lemma RawOf(ctx: Context, addresses: seq<nat>, k: nat) returns (c: Closed)
    requires k < |FramesOf(ctx, addresses).frames|
    ensures c in Raw(ctx, addresses) && FramesOf(ctx, addresses).frames[k] == Finished(c, MinLevel(Raw(ctx, addresses)))
  {
    hide Raw, FramesOf, MinLevel;
    SomeRaw(ctx, addresses, k);
    ResultMembers(ctx, addresses);
    var raw := Raw(ctx, addresses);
    var i :| 0 <= i < |raw| && FramesOf(ctx, addresses).frames[k] == Finished(raw[i], MinLevel(raw));
    c := raw[i];
  }

  /** What encloses a listed frame is listed before it. */
  lemma EncloserListed(ctx: Context, addresses: seq<nat>, k: nat, c: Closed, h: Closed) returns (m: nat)
    requires k < |FramesOf(ctx, addresses).frames| && h in Raw(ctx, addresses) && Encloses(h, c)
    requires FramesOf(ctx, addresses).frames[k] == Finished(c, MinLevel(Raw(ctx, addresses)))
    ensures m < k && FramesOf(ctx, addresses).frames[m] == Finished(h, MinLevel(Raw(ctx, addresses)))
  {
    hide Raw, FramesOf, MinLevel, Nested;
    SomeRaw(ctx, addresses, k);
    ResultMembers(ctx, addresses);
    FramesNest(ctx, addresses);
    var raw := Raw(ctx, addresses);
    var i :| 0 <= i < |raw| && raw[i] == h;
    assert Finished(raw[i], MinLevel(raw)) in FramesOf(ctx, addresses).frames;
    m := ListedBefore(FramesOf(ctx, addresses).frames, k, Finished(h, MinLevel(raw)));
  }

  lemma ListedInnermost(ctx: Context, addresses: seq<nat>, l: nat, k: nat, g: Closed, c: Closed)
    requires LiesIn(FramesOf(ctx, addresses).frames, k, l) && g in Raw(ctx, addresses) && c in Raw(ctx, addresses)
    requires FramesOf(ctx, addresses).frames[l] == Finished(g, MinLevel(Raw(ctx, addresses)))
    requires FramesOf(ctx, addresses).frames[k] == Finished(c, MinLevel(Raw(ctx, addresses)))
    ensures InnermostAround(Raw(ctx, addresses), g, c)
  {
    hide Raw, FramesOf, MinLevel;
    var f := FramesOf(ctx, addresses).frames;
    FramesNest(ctx, addresses);
    assert f[l].startIndex < f[k].startIndex;
    forall h | h in Raw(ctx, addresses) && Encloses(h, c) ensures h.frame.startIndex <= g.frame.startIndex {
      var m := EncloserListed(ctx, addresses, k, c, h);
      assert m <= l;
    }
  }

  /** For every stream: a frame is listed one depth below the innermost frame it
      lies in exactly when its call was seen, and otherwise no deeper than that
      frame. */
  lemma DepthRule(ctx: Context, addresses: seq<nat>, l: nat, k: nat)
    requires LiesIn(FramesOf(ctx, addresses).frames, k, l)
    ensures var f := FramesOf(ctx, addresses).frames;
            && (f[k].depth == f[l].depth + 1 <==> !f[k].openAtStart)
            && (f[k].depth <= f[l].depth <==> f[k].openAtStart)
  {
    hide Raw, FramesOf, MinLevel, InnermostAround;
    var g := RawOf(ctx, addresses, l);
    var c := RawOf(ctx, addresses, k);
    ListedInnermost(ctx, addresses, l, k, g, c);
    InnermostSits(ctx, addresses, g, c);
  }

  lemma CalledOnSome(s: seq<Open>, f: Open) returns (below: Open)
    requires EndsIn(s, f) && StackSits(s) && !f.openAtStart
    ensures RightUnder(s, below, f)
  {
    below := s[|s| - 2];
  }

  /** A frame whose call was seen does lie in one: its caller's, exactly one depth
      up, which began before it and outlasts it. */
  lemma CallerEncloses(ctx: Context, addresses: seq<nat>, k: nat)
    requires k < |FramesOf(ctx, addresses).frames| && !FramesOf(ctx, addresses).frames[k].openAtStart
    ensures var f := FramesOf(ctx, addresses).frames;
            exists l :: 0 <= l < k && f[l].depth == f[k].depth - 1
              && f[l].startIndex < f[k].startIndex && f[k].endIndex <= f[l].endIndex
  {
    hide Raw, FramesOf, StackAt, MinLevel, EndsIn, RightUnder, StackSits, Rising;
    var c := RawOf(ctx, addresses, k);
    BeganOnTop(ctx, addresses, c);
    StackRises(ctx, addresses, c.frame.startIndex);
    var below := CalledOnSome(StackAt(ctx, addresses, c.frame.startIndex), c.frame);
    var b := BelowEncloses(ctx, addresses, c, below);
    var l := EncloserListed(ctx, addresses, k, c, b);
  }

  // ----- the other case does occur

  /** One frame is open, at level 0 since the start. */
  ghost predicate In(m: Machine, f: nat) {
    m.closed == [] && |m.stack| == 1 && m.stack[0].address == f && m.stack[0].level == 0 && m.stack[0].startIndex == 0
  }

  ghost predicate InCallee(m: Machine, f: nat, g: nat) {
    && m.closed == [] && |m.stack| == 2 && In(Machine(m.stack[..1], []), f)
    && m.stack[1].address == g && m.stack[1].level == 1
  }

  ghost predicate InStranger(m: Machine) {
    && |m.closed| == 1 && |m.stack| == 2
    && m.stack[0].level == m.stack[1].level == 0 && m.stack[0].startIndex == 0 && m.stack[1].startIndex == 2
  }

  lemma Enters(ctx: Context, f: nat)
    requires f % 2 == 0 && ctx.resolver.Entry(f) == Some(f) && ctx.breaks == {}
    ensures In(Step(ctx, Machine([], []), 0, f), f)
  {
  }

  lemma Calls(ctx: Context, m: Machine, f: nat, g: nat)
    requires In(m, f) && ctx.breaks == {} && ctx.maxDepth >= 2
    requires g % 2 == 0 && ctx.resolver.Entry(g) == Some(g) && g != f
    ensures InCallee(Step(ctx, m, 1, g), f, g)
  {
    hide PopTo, FindFrom;
  }

  lemma ReturnsUnseen(ctx: Context, m: Machine, f: nat, g: nat, h: nat)
    requires InCallee(m, f, g) && ctx.breaks == {}
    requires ctx.resolver.Entry(h).Some? && ctx.resolver.Entry(h).value !in {f, g, Masked(h)}
    ensures InStranger(Step(ctx, m, 2, h))
  {
    hide PopTo, FindFrom;
    assert m.stack[..1][0] == m.stack[0];
  }

  lemma EndsWith(m: Machine, end: nat)
    requires InStranger(m)
    ensures var raw := m.closed + CloseAll(m.stack, end);
            && |raw| == 3 && raw[1] == Closed(m.stack[0], end, true) && raw[2] == Closed(m.stack[1], end, true)
            && raw[1].frame.startIndex == 0 && raw[2].frame.startIndex == 2 && raw[1].frame.level == raw[2].frame.level
  {
  }

  lemma RawIs(ctx: Context, addresses: seq<nat>)
    ensures var m := After(ctx, addresses, |addresses|);
            Raw(ctx, addresses) == m.closed + CloseAll(m.stack, |addresses|)
  {
  }

  /** Nesting is by interval, not by depth: enter f, be called into g, and then be
      seen inside some h that is on no stack. The frame of h lies within the
      frame of f, at the same level. */
  lemma NestedAtOneLevel(ctx: Context, f: nat, g: nat, h: nat)
    requires ctx.breaks == {} && ctx.maxDepth >= 2
    requires f % 2 == 0 && ctx.resolver.Entry(f) == Some(f)
    requires g % 2 == 0 && ctx.resolver.Entry(g) == Some(g) && g != f
    requires ctx.resolver.Entry(h).Some? && ctx.resolver.Entry(h).value !in {f, g, Masked(h)}
    ensures var raw := Raw(ctx, [f, g, h]);
            && |raw| == 3
            && raw[1].frame.startIndex == 0 && raw[1].endIndex == 3
            && raw[2].frame.startIndex == 2 && raw[2].endIndex == 3
            && raw[1].frame.level == raw[2].frame.level
  {
    hide *;
    var addresses := [f, g, h];
    AfterAll(ctx, addresses);
    AfterStep(ctx, addresses, 0);
    AfterStep(ctx, addresses, 1);
    AfterStep(ctx, addresses, 2);
    Enters(ctx, f);
    Calls(ctx, After(ctx, addresses, 1), f, g);
    ReturnsUnseen(ctx, After(ctx, addresses, 2), f, g, h);
    EndsWith(After(ctx, addresses, 3), 3);
    RawIs(ctx, addresses);
  }
}
