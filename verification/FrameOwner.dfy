/** Which frame an instruction belongs to, and how deep frames can get. */
module FrameOwner {
  import opened Prelude
  import opened Resolved
  import opened Frames
  import opened FrameShape

  // ----- the frames on the stack when an instruction ran are those around it

  ghost predicate Covers(c: Closed, j: nat) { c.frame.startIndex <= j < c.endIndex }

  /** f runs, or ran, past j. */
  ghost predicate Outlasts(m: Machine, j: nat, f: Open) {
    f in m.stack || exists i :: 0 <= i < |m.closed| && m.closed[i].frame == f && j < m.closed[i].endIndex
  }

  /** The frames that cover j, finished or not, are those of around. */
  ghost predicate Around(m: Machine, j: nat, around: seq<Open>) {
    && (forall f :: f in around ==> Outlasts(m, j, f))
    && (forall i :: 0 <= i < |m.closed| && Covers(m.closed[i], j) ==> m.closed[i].frame in around)
    && (forall p :: 0 <= p < |m.stack| && m.stack[p].startIndex <= j ==> m.stack[p] in around)
  }

  lemma PopOutlasts(m: Machine, j: nat, f: Open, n: nat, flag: bool)
    requires Outlasts(m, j, f) && j < n && m.stack != []
    ensures Outlasts(Pop(m, n, flag), j, f)
  {
    var r, top := Pop(m, n, flag), |m.stack| - 1;
    if f in m.stack {
      var p :| 0 <= p < |m.stack| && m.stack[p] == f;
      if p < top { assert r.stack[p] == f; } else { assert r.closed[|m.closed|].frame == f; }
    } else {
      var i :| 0 <= i < |m.closed| && m.closed[i].frame == f && j < m.closed[i].endIndex;
      assert r.closed[i] == m.closed[i];
    }
  }

  lemma PopAround(m: Machine, j: nat, around: seq<Open>, n: nat, flag: bool)
    requires Around(m, j, around) && j < n && m.stack != []
    ensures Around(Pop(m, n, flag), j, around)
  {
    hide Outlasts;
    forall f | f in around ensures Outlasts(Pop(m, n, flag), j, f) { PopOutlasts(m, j, f, n, flag); }
  }

  lemma {:induction false} PopToAround(m: Machine, depth: nat, j: nat, around: seq<Open>, n: nat, flag: bool)
    requires Around(m, j, around) && j < n
    ensures Around(PopTo(m, depth, n, flag), j, around)
    decreases |m.stack|
  {
    hide Around;
    if |m.stack| > depth {
      PopAround(m, j, around, n, flag);
      PopToAround(Pop(m, n, flag), depth, j, around, n, flag);
    }
  }

  lemma PushAround(m: Machine, frame: Open, j: nat, around: seq<Open>)
    requires Around(m, j, around) && j < frame.startIndex
    ensures Around(Push(m, frame), j, around)
  {
    forall f | f in around ensures Outlasts(Push(m, frame), j, f) { assert Outlasts(m, j, f); }
  }

  lemma StepAround(ctx: Context, before: Machine, n: nat, address: nat, j: nat, around: seq<Open>)
    requires Around(before, j, around) && j < n
    ensures Around(Step(ctx, before, n, address), j, around)
  {
    hide Around, PopTo, FindFrom;
    var m := AtBreak(ctx, before, n);
    if n in ctx.breaks { PopToAround(before, 0, j, around, n, true); }
    var entry := ctx.resolver.Entry(address);
    var isEntry := entry.Some? && Masked(address) == entry.value;
    if m.stack == [] {
      PushAround(m, OpenFrame(ctx, n, address, 0, true), j, around);
      return;
    }
    var top := Top(m.stack);
    if (if entry.None? then top.unknown else top.address == entry.value) && !isEntry {
    } else if isEntry {
      PushAround(m, OpenFrame(ctx, n, address, top.level + 1, false), j, around);
    } else {
      var found := if entry.Some? then FindFrom(m.stack, entry.value, |m.stack|) else 0;
      if found > 0 {
        PopToAround(m, found, j, around, n, false);
      } else {
        PopAround(m, j, around, n, false);
        PushAround(Pop(m, n, false), OpenFrame(ctx, n, address, Max(MIN_LEVEL, top.level - 1), true), j, around);
      }
    }
  }

  lemma AroundFirst(ctx: Context, addresses: seq<nat>, j: nat)
    requires j < |addresses|
    ensures Around(After(ctx, addresses, j + 1), j, After(ctx, addresses, j + 1).stack)
  {
    hide After;
    AfterShape(ctx, addresses, j + 1);
    var m := After(ctx, addresses, j + 1);
    forall i | 0 <= i < |m.closed| ensures !Covers(m.closed[i], j) { assert ClosedOk(ctx.breaks, m.closed[i], j); }
  }

  lemma {:induction false} AroundLater(ctx: Context, addresses: seq<nat>, j: nat, n: nat)
    requires j < n <= |addresses|
    ensures Around(After(ctx, addresses, n), j, After(ctx, addresses, j + 1).stack)
    decreases n
  {
    hide *;
    if n == j + 1 {
      AroundFirst(ctx, addresses, j);
    } else {
      AroundLater(ctx, addresses, j, n - 1);
      AfterStep(ctx, addresses, n - 1);
      StepAround(ctx, After(ctx, addresses, n - 1), n - 1, addresses[n - 1], j, After(ctx, addresses, j + 1).stack);
    }
  }

  lemma EndAround(m: Machine, j: nat, around: seq<Open>, n: nat)
    requires Around(m, j, around) && j < n && forall f :: f in around ==> f.startIndex <= j
    ensures var r := m.closed + CloseAll(m.stack, n);
            && (forall f :: f in around ==> exists i :: 0 <= i < |r| && Covers(r[i], j) && r[i].frame == f)
            && (forall i :: 0 <= i < |r| && Covers(r[i], j) ==> r[i].frame in around)
  {
    var r := m.closed + CloseAll(m.stack, n);
    forall f | f in around ensures exists i :: 0 <= i < |r| && Covers(r[i], j) && r[i].frame == f {
      assert Outlasts(m, j, f);
      if f in m.stack {
        var p :| 0 <= p < |m.stack| && m.stack[p] == f;
        assert Covers(r[|m.closed| + p], j);
      } else {
        var i :| 0 <= i < |m.closed| && m.closed[i].frame == f && j < m.closed[i].endIndex;
        assert Covers(r[i], j);
      }
    }
  }

  /** The frames that cover an instruction are exactly those that were on the
      stack when it ran. */
  lemma CoverersWereOpen(ctx: Context, addresses: seq<nat>, j: nat)
    requires j < |addresses|
    ensures var r, s := Raw(ctx, addresses), After(ctx, addresses, j + 1).stack;
            && (forall f :: f in s ==> exists i :: 0 <= i < |r| && Covers(r[i], j) && r[i].frame == f)
            && (forall i :: 0 <= i < |r| && Covers(r[i], j) ==> r[i].frame in s)
  {
    hide After, Covers, Around, CloseAll;
    StackStarts(ctx, addresses, j);
    AroundLater(ctx, addresses, j, |addresses|);
    var m := After(ctx, addresses, |addresses|);
    EndAround(m, j, After(ctx, addresses, j + 1).stack, |addresses|);
    assert Raw(ctx, addresses) == m.closed + CloseAll(m.stack, |addresses|);
  }

  function StackAt(ctx: Context, addresses: seq<nat>, j: nat): seq<Open>
    requires j < |addresses|
  {
    After(ctx, addresses, j + 1).stack
  }

  lemma OpenCovers(ctx: Context, addresses: seq<nat>, j: nat, f: Open) returns (c: Closed)
    requires j < |addresses| && f in StackAt(ctx, addresses, j)
    ensures c in Raw(ctx, addresses) && Covers(c, j) && c.frame == f
  {
    hide After, Raw, Covers;
    CoverersWereOpen(ctx, addresses, j);
    assert f in After(ctx, addresses, j + 1).stack;
    c := CoveredBy(Raw(ctx, addresses), j, f);
  }

  lemma CoveredBy(r: seq<Closed>, j: nat, f: Open) returns (c: Closed)
    requires exists i :: 0 <= i < |r| && Covers(r[i], j) && r[i].frame == f
    ensures c in r && Covers(c, j) && c.frame == f
  {
    hide Covers;
    var i :| 0 <= i < |r| && Covers(r[i], j) && r[i].frame == f;
    c := r[i];
  }

  lemma CovererWasOpen(ctx: Context, addresses: seq<nat>, j: nat, c: Closed)
    requires j < |addresses| && c in Raw(ctx, addresses) && Covers(c, j)
    ensures c.frame in StackAt(ctx, addresses, j)
  {
    hide After, Raw, Covers;
    CoverersWereOpen(ctx, addresses, j);
    var r := Raw(ctx, addresses);
    var i :| 0 <= i < |r| && r[i] == c;
  }

  /** Right after instruction j something is open, frames higher up began later,
      and none began after j. */
  lemma StackStarts(ctx: Context, addresses: seq<nat>, j: nat)
    requires j < |addresses|
    ensures var s := After(ctx, addresses, j + 1).stack;
            && s != [] && (forall f :: f in s ==> f.startIndex <= j)
            && (forall p, q :: 0 <= p < q < |s| ==> s[p].startIndex < s[q].startIndex)
  {
    hide After;
    AfterShape(ctx, addresses, j + 1);
    var s := After(ctx, addresses, j + 1).stack;
    forall f | f in s ensures f.startIndex <= j {
      var p :| 0 <= p < |s| && s[p] == f;
      assert OpenOk(ctx.breaks, s[p], j + 1);
    }
  }

  /** The frame on top right after instruction j. */
  function OwnerOf(ctx: Context, addresses: seq<nat>, j: nat): Open
    requires j < |addresses|
    requires After(ctx, addresses, j + 1).stack != []
  {
    Top(After(ctx, addresses, j + 1).stack)
  }

  /** Every instruction is covered, and the latest-started frame around it is
      the one that was on top when it ran. */
  lemma InnermostIsOwner(ctx: Context, addresses: seq<nat>, j: nat)
    requires j < |addresses|
    ensures After(ctx, addresses, j + 1).stack != []
    ensures var r := Raw(ctx, addresses);
            && (exists i :: 0 <= i < |r| && Covers(r[i], j) && r[i].frame == OwnerOf(ctx, addresses, j))
            && (forall i :: 0 <= i < |r| && Covers(r[i], j) ==>
                  r[i].frame.startIndex <= OwnerOf(ctx, addresses, j).startIndex)
  {
    hide After, Covers, Raw;
    StackStarts(ctx, addresses, j);
    CoverersWereOpen(ctx, addresses, j);
    var r, s := Raw(ctx, addresses), After(ctx, addresses, j + 1).stack;
    assert OwnerOf(ctx, addresses, j) in s;
    forall i | 0 <= i < |r| && Covers(r[i], j) ensures r[i].frame.startIndex <= Top(s).startIndex {
      var p :| 0 <= p < |s| && s[p] == r[i].frame;
    }
  }

  // ----- and its identity is the instruction's

  ghost predicate EntryResolves(resolver: Resolver, address: nat) {
    resolver.Entry(address).Some? ==> resolver.function_(resolver.Entry(address).value).Some?
  }

  /** Functions are entered at addresses that resolve. */
  ghost predicate EntriesResolve(resolver: Resolver, addresses: seq<nat>) {
    forall i :: 0 <= i < |addresses| ==> EntryResolves(resolver, addresses[i])
  }

  /** Unknown frames carry an address that resolves to nothing, the others one
      that resolves. */
  ghost predicate Faithful(resolver: Resolver, f: Open) {
    f.unknown <==> resolver.function_(f.address).None?
  }

  ghost predicate AllFaithful(resolver: Resolver, stack: seq<Open>) {
    forall p :: 0 <= p < |stack| ==> Faithful(resolver, stack[p])
  }

  /** A frame at this address stands for this instruction's function, or for
      unknown code when the instruction resolves to nothing. */
  ghost predicate Matches(resolver: Resolver, frameAddress: nat, address: nat) {
    match resolver.Entry(address)
    case Some(entry) => frameAddress == entry
    case None => resolver.function_(frameAddress).None?
  }

  /** The depth cap refuses a call out of the function on top. */
  predicate Blocked(ctx: Context, before: Machine, index: nat, address: nat) {
    var entry := ctx.resolver.Entry(address);
    var m := AtBreak(ctx, before, index);
    && m.stack != []
    && entry.Some? && Masked(address) == entry.value
    && |m.stack| >= ctx.maxDepth
    && Top(m.stack).address != entry.value
  }

  lemma {:induction false} PopToStack(m: Machine, depth: nat, n: nat, flag: bool)
    ensures PopTo(m, depth, n, flag).stack == m.stack[..Min(depth, |m.stack|)]
    decreases |m.stack|
  {
    if |m.stack| > depth {
      PopToStack(Pop(m, n, flag), depth, n, flag);
      assert m.stack[..|m.stack| - 1][..depth] == m.stack[..depth];
    }
  }

  lemma StepMatches(ctx: Context, before: Machine, n: nat, address: nat)
    requires EntryResolves(ctx.resolver, address) && AllFaithful(ctx.resolver, before.stack)
    ensures var after := Step(ctx, before, n, address);
            && after.stack != [] && AllFaithful(ctx.resolver, after.stack)
            && (Matches(ctx.resolver, Top(after.stack).address, address) <==> !Blocked(ctx, before, n, address))
  {
    var m := AtBreak(ctx, before, n);
    PopToStack(before, 0, n, true);
    var entry := ctx.resolver.Entry(address);
    var isEntry := entry.Some? && Masked(address) == entry.value;
    if m.stack == [] { return; }
    assert m == before;
    var top := Top(m.stack);
    assert Faithful(ctx.resolver, top);
    if (if entry.None? then top.unknown else top.address == entry.value) && !isEntry {
    } else if isEntry {
    } else {
      var found := if entry.Some? then FindFrom(m.stack, entry.value, |m.stack|) else 0;
      if found > 0 { PopToStack(m, found, n, false); }
    }
  }

  lemma OneResolves(resolver: Resolver, addresses: seq<nat>, i: nat)
    requires EntriesResolve(resolver, addresses) && i < |addresses|
    ensures EntryResolves(resolver, addresses[i])
  {
  }

  lemma EmptyMachine(ctx: Context)
    ensures StackBounded(ctx, Machine([], [])) && AllFaithful(ctx.resolver, Machine([], []).stack)
  {
  }

  lemma {:induction false} AfterFaithful(ctx: Context, addresses: seq<nat>, n: nat)
    requires n <= |addresses| && EntriesResolve(ctx.resolver, addresses)
    ensures AllFaithful(ctx.resolver, After(ctx, addresses, n).stack)
  {
    hide *;
    EmptyMachine(ctx);
    AfterAll(ctx, addresses);
    if n > 0 {
      OneResolves(ctx.resolver, addresses, n - 1);
      AfterStep(ctx, addresses, n - 1);
      AfterFaithful(ctx, addresses, n - 1);
      StepMatches(ctx, After(ctx, addresses, n - 1), n - 1, addresses[n - 1]);
    }
  }

  /** The innermost frame around an instruction stands for that instruction's
      function, unless the depth cap refused its call out of another function;
      and then it does not. */
  lemma OwnerMatchesIff(ctx: Context, addresses: seq<nat>, j: nat)
    requires j < |addresses| && EntriesResolve(ctx.resolver, addresses)
    ensures After(ctx, addresses, j + 1).stack != []
    ensures Matches(ctx.resolver, OwnerOf(ctx, addresses, j).address, addresses[j])
       <==> !Blocked(ctx, After(ctx, addresses, j), j, addresses[j])
  {
    AfterFaithful(ctx, addresses, j);
    StepMatches(ctx, After(ctx, addresses, j), j, addresses[j]);
  }

  // ----- bounds

  ghost predicate StackBounded(ctx: Context, m: Machine) {
    && |m.stack| <= Max(1, ctx.maxDepth)
    && (forall p :: 0 <= p < |m.stack| ==> MIN_LEVEL <= m.stack[p].level <= p)
    && (forall i :: 0 <= i < |m.closed| ==> MIN_LEVEL <= m.closed[i].frame.level < Max(1, ctx.maxDepth))
  }

  lemma {:induction false} PopToBounded(ctx: Context, m: Machine, depth: nat, n: nat, flag: bool)
    requires StackBounded(ctx, m)
    ensures StackBounded(ctx, PopTo(m, depth, n, flag))
    decreases |m.stack|
  {
    if |m.stack| > depth { PopToBounded(ctx, Pop(m, n, flag), depth, n, flag); }
  }

  lemma StepBounded(ctx: Context, before: Machine, n: nat, address: nat)
    requires StackBounded(ctx, before)
    ensures StackBounded(ctx, Step(ctx, before, n, address))
  {
    var m := AtBreak(ctx, before, n);
    PopToBounded(ctx, before, 0, n, true);
    if m.stack == [] { return; }
    var entry := ctx.resolver.Entry(address);
    var found := if entry.Some? then FindFrom(m.stack, entry.value, |m.stack|) else 0;
    PopToBounded(ctx, m, found, n, false);
    PopToBounded(ctx, m, |m.stack| - 1, n, false);
    PopToStack(m, |m.stack| - 1, n, false);
  }

  /** The stack never grows past the cap, and every level stays between the
      floor and the frame's place in the stack. */
  lemma {:induction false} AfterBounded(ctx: Context, addresses: seq<nat>, n: nat)
    requires n <= |addresses|
    ensures StackBounded(ctx, After(ctx, addresses, n))
  {
    hide *;
    EmptyMachine(ctx);
    AfterAll(ctx, addresses);
    if n > 0 {
      AfterStep(ctx, addresses, n - 1);
      AfterBounded(ctx, addresses, n - 1);
      StepBounded(ctx, After(ctx, addresses, n - 1), n - 1, addresses[n - 1]);
    }
  }
}
