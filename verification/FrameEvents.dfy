/** Where frames begin and end, and how deep they are listed, told from the stream
    and from the other listed frames alone. Together with their labels this leaves
    no choice in a frame list. */
module FrameEvents {
  import opened Prelude
  import opened Resolved
  import opened Frames
  import opened FrameOwner
  import opened FrameLabels
  import opened FrameResults
  import opened FrameDepths

  // ----- one instruction, on stacks

  /** p is the highest place of an entry address. */
  ghost predicate Latest(s: seq<Open>, entry: nat, p: nat) {
    p < |s| && s[p].address == entry && forall q :: p < q < |s| ==> s[q].address != entry
  }

  ghost predicate Replaces(ctx: Context, s: seq<Open>, j: nat, a: nat, t: seq<Open>)
    requires s != []
  {
    t == s[..|s| - 1] + [OpenFrame(ctx, j, a, Max(MIN_LEVEL, Top(s).level - 1), true)]
  }

  ghost predicate Returns(ctx: Context, s: seq<Open>, j: nat, a: nat, t: seq<Open>)
    requires s != []
  {
    match ctx.resolver.Entry(a)
    case None => if Top(s).unknown then t == s else Replaces(ctx, s, j, a, t)
    case Some(entry) =>
      if forall p :: 0 <= p < |s| ==> s[p].address != entry then Replaces(ctx, s, j, a, t)
      else exists p :: Latest(s, entry, p) && t == s[..p + 1]
  }

  /** From the frames open before instruction j to those open after it. */
  ghost predicate Turns(ctx: Context, s: seq<Open>, j: nat, a: nat, t: seq<Open>) {
    if s == [] || j in ctx.breaks then t == [OpenFrame(ctx, j, a, 0, true)]
    else if IsEntry(ctx, a) then
      t == if |s| >= ctx.maxDepth then s else s + [OpenFrame(ctx, j, a, Top(s).level + 1, false)]
    else Returns(ctx, s, j, a, t)
  }

  lemma StepTurns(ctx: Context, m: Machine, j: nat, a: nat)
    ensures Turns(ctx, m.stack, j, a, Step(ctx, m, j, a).stack)
  {
    hide OpenFrame;
    PopToStack(m, 0, j, true);
    if m.stack != [] && j !in ctx.breaks && !IsEntry(ctx, a) {
      var entry := ctx.resolver.Entry(a);
      if entry.Some? {
        var found := FindFrom(m.stack, entry.value, |m.stack|);
        PopToStack(m, found, j, false);
        if found > 0 { assert Latest(m.stack, entry.value, found - 1); }
        if Top(m.stack).address == entry.value { assert Latest(m.stack, entry.value, |m.stack| - 1); }
      }
    }
  }

  lemma StackTurns(ctx: Context, addresses: seq<nat>, j: nat)
    requires 0 < j < |addresses|
    ensures Turns(ctx, StackAt(ctx, addresses, j - 1), j, addresses[j], StackAt(ctx, addresses, j))
  {
    hide Step, Turns;
    AfterStep(ctx, addresses, j);
    StepTurns(ctx, After(ctx, addresses, j), j, addresses[j]);
  }

  // ----- listed frames and open ones

  ghost predicate Stands(f: CallFrame, o: Open, minLevel: int) {
    && f.startIndex == o.startIndex && f.address == o.address && f.openAtStart == o.openAtStart
    && f.depth == o.level - minLevel
  }

  ghost predicate OpenIsListed(f: seq<CallFrame>, j: nat, o: Open, minLevel: int) {
    exists k :: 0 <= k < |f| && Spans(f[k], j) && Stands(f[k], o, minLevel)
  }

  ghost predicate ListedIsOpen(c: CallFrame, s: seq<Open>, minLevel: int) {
    exists p :: 0 <= p < |s| && Stands(c, s[p], minLevel)
  }

  /** The listed frames around an instruction are those of a stack. */
  ghost predicate Mirrors(f: seq<CallFrame>, j: nat, s: seq<Open>, minLevel: int) {
    && (forall p :: 0 <= p < |s| ==> OpenIsListed(f, j, s[p], minLevel))
    && (forall k :: 0 <= k < |f| && Spans(f[k], j) ==> ListedIsOpen(f[k], s, minLevel))
  }

  lemma Listing(f: seq<CallFrame>, j: nat, s: seq<Open>, minLevel: int, p: nat) returns (k: nat)
    requires Mirrors(f, j, s, minLevel) && p < |s|
    ensures k < |f| && Spans(f[k], j) && Stands(f[k], s[p], minLevel)
  {
    hide ListedIsOpen, Stands;
    assert OpenIsListed(f, j, s[p], minLevel);
    k :| 0 <= k < |f| && Spans(f[k], j) && Stands(f[k], s[p], minLevel);
  }

  lemma Opening(f: seq<CallFrame>, j: nat, s: seq<Open>, minLevel: int, k: nat) returns (p: nat)
    requires Mirrors(f, j, s, minLevel) && k < |f| && Spans(f[k], j)
    ensures p < |s| && Stands(f[k], s[p], minLevel)
  {
    hide OpenIsListed, Stands;
    assert ListedIsOpen(f[k], s, minLevel);
    p :| 0 <= p < |s| && Stands(f[k], s[p], minLevel);
  }

  lemma RawListed(ctx: Context, addresses: seq<nat>, c: Closed) returns (k: nat)
    requires c in Raw(ctx, addresses)
    ensures k < |FramesOf(ctx, addresses).frames|
    ensures FramesOf(ctx, addresses).frames[k] == Finished(c, MinLevel(Raw(ctx, addresses)))
  {
    hide Raw, FramesOf, MinLevel, Finished;
    ResultMembers(ctx, addresses);
    var raw := Raw(ctx, addresses);
    var i :| 0 <= i < |raw| && raw[i] == c;
    k :| 0 <= k < |FramesOf(ctx, addresses).frames|
        && FramesOf(ctx, addresses).frames[k] == Finished(raw[i], MinLevel(raw));
  }

  lemma OpenListed(ctx: Context, addresses: seq<nat>, j: nat, p: nat) returns (k: nat)
    requires j < |addresses| && p < |StackAt(ctx, addresses, j)| && Raw(ctx, addresses) != []
    ensures var f := FramesOf(ctx, addresses).frames;
            k < |f| && Spans(f[k], j) && Stands(f[k], StackAt(ctx, addresses, j)[p], MinLevel(Raw(ctx, addresses)))
  {
    hide Raw, FramesOf, MinLevel, StackAt;
    var c := OpenCovers(ctx, addresses, j, StackAt(ctx, addresses, j)[p]);
    k := RawListed(ctx, addresses, c);
  }

  lemma ListedOpen(ctx: Context, addresses: seq<nat>, j: nat, k: nat) returns (p: nat)
    requires j < |addresses| && Raw(ctx, addresses) != []
    requires k < |FramesOf(ctx, addresses).frames| && Spans(FramesOf(ctx, addresses).frames[k], j)
    ensures p < |StackAt(ctx, addresses, j)|
    ensures Stands(FramesOf(ctx, addresses).frames[k], StackAt(ctx, addresses, j)[p], MinLevel(Raw(ctx, addresses)))
  {
    hide Raw, FramesOf, MinLevel, StackAt;
    var c := RawOf(ctx, addresses, k);
    CovererWasOpen(ctx, addresses, j, c);
    var s := StackAt(ctx, addresses, j);
    p :| 0 <= p < |s| && s[p] == c.frame;
  }

  lemma ListMirrors(ctx: Context, addresses: seq<nat>, j: nat)
    requires j < |addresses|
    ensures Raw(ctx, addresses) != []
    ensures Mirrors(FramesOf(ctx, addresses).frames, j, StackAt(ctx, addresses, j), MinLevel(Raw(ctx, addresses)))
  {
    hide Raw, FramesOf, MinLevel, StackAt, Stands, Spans;
    NoInstructionsNoFrames(ctx, addresses);
    var f, s, low := FramesOf(ctx, addresses).frames, StackAt(ctx, addresses, j), MinLevel(Raw(ctx, addresses));
    forall p | 0 <= p < |s| ensures OpenIsListed(f, j, s[p], low) { var k := OpenListed(ctx, addresses, j, p); }
    forall k | 0 <= k < |f| && Spans(f[k], j) ensures ListedIsOpen(f[k], s, low) {
      var p := ListedOpen(ctx, addresses, j, k);
    }
  }

  // ----- where a frame begins

  /** The starts of the frames around instruction j; no two frames share one. */
  function Around(f: seq<CallFrame>, j: nat): set<nat> {
    set k | 0 <= k < |f| && f[k].startIndex <= j < f[k].endIndex :: f[k].startIndex
  }

  /** A listed frame around j that began after all others around j. */
  predicate Innermost(f: seq<CallFrame>, j: nat, k: nat)
    requires k < |f|
  {
    && f[k].startIndex <= j < f[k].endIndex
    && forall l :: 0 <= l < |f| && f[l].startIndex <= j < f[l].endIndex ==> f[l].startIndex <= f[k].startIndex
  }

  /** Some frame around j stands for the function entered there. */
  predicate StandsAround(f: seq<CallFrame>, j: nat, entry: nat) {
    exists k :: 0 <= k < |f| && f[k].startIndex <= j < f[k].endIndex && f[k].address == entry
  }

  /** The frame began in code that resolves to nothing. */
  predicate Stranger(ctx: Context, addresses: seq<nat>, f: CallFrame)
    requires f.startIndex < |addresses|
  {
    ctx.resolver.function_(addresses[f.startIndex]).None?
  }

  ghost predicate BeginsAt(f: seq<CallFrame>, j: nat) { exists k :: 0 <= k < |f| && f[k].startIndex == j }

  function StartsOf(s: seq<Open>): set<nat> { set o | o in s :: o.startIndex }

  lemma StartsSnoc(s: seq<Open>, o: Open)
    ensures StartsOf(s + [o]) == StartsOf(s) + {o.startIndex}
  {
    assert forall x :: x in s + [o] <==> x in s || x == o;
  }

  lemma {:induction false} StartsCount(s: seq<Open>)
    requires Rising(s)
    ensures |StartsOf(s)| == |s|
  {
    hide StartsOf;
    if s == [] {
      NoStarts();
    } else {
      var init, top := s[..|s| - 1], s[|s| - 1];
      StartsCount(init);
      StartsSnoc(init, top);
      assert s == init + [top];
      NotAmong(init, top);
    }
  }

  lemma NoStarts()
    ensures StartsOf([]) == {}
  {
  }

  lemma NotAmong(s: seq<Open>, o: Open)
    requires Rising(s + [o])
    ensures o.startIndex !in StartsOf(s)
  {
    forall p | 0 <= p < |s| ensures s[p].startIndex < o.startIndex { assert (s + [o])[p].startIndex
        < (s + [o])[|s|].startIndex; }
  }

  /** As many frames are around an instruction as are open. */
  lemma AroundCount(f: seq<CallFrame>, j: nat, s: seq<Open>, minLevel: int)
    requires Mirrors(f, j, s, minLevel) && Rising(s)
    ensures |Around(f, j)| == |s|
  {
    hide Mirrors;
    StartsCount(s);
    var starts := StartsOf(s);
    forall x ensures x in Around(f, j) <==> x in starts {
      if x in Around(f, j) {
        var k :| 0 <= k < |f| && f[k].startIndex <= j < f[k].endIndex && f[k].startIndex == x;
        var p := Opening(f, j, s, minLevel, k);
        assert s[p] in s;
      }
      if x in starts {
        var o :| o in s && o.startIndex == x;
        var p :| 0 <= p < |s| && s[p] == o;
        var k := Listing(f, j, s, minLevel, p);
      }
    }
    assert Around(f, j) == starts;
  }

  lemma StandsCount(f: seq<CallFrame>, j: nat, s: seq<Open>, minLevel: int, entry: nat)
    requires Mirrors(f, j, s, minLevel)
    ensures StandsAround(f, j, entry) <==> exists p :: 0 <= p < |s| && s[p].address == entry
  {
    hide Mirrors;
    if k :| 0 <= k < |f| && f[k].startIndex <= j < f[k].endIndex && f[k].address == entry {
      var p := Opening(f, j, s, minLevel, k);
    }
    if p :| 0 <= p < |s| && s[p].address == entry {
      var k := Listing(f, j, s, minLevel, p);
    }
  }

  lemma TopIsLatest(s: seq<Open>, p: nat)
    requires Rising(s) && p < |s|
    ensures s[p].startIndex <= Top(s).startIndex && (s[p].startIndex == Top(s).startIndex <==> p == |s| - 1)
  {
  }

  /** The innermost frame is the one on top. */
  lemma InnermostIsTop(f: seq<CallFrame>, j: nat, s: seq<Open>, minLevel: int, k: nat)
    requires Mirrors(f, j, s, minLevel) && Rising(s) && s != [] && k < |f|
    ensures Innermost(f, j, k) ==> Stands(f[k], Top(s), minLevel)
    ensures Spans(f[k], j) && f[k].startIndex == Top(s).startIndex ==> Innermost(f, j, k)
  {
    hide Mirrors;
    if Innermost(f, j, k) {
      var p := Opening(f, j, s, minLevel, k);
      var l := Listing(f, j, s, minLevel, |s| - 1);
      TopIsLatest(s, p);
    }
    if Spans(f[k], j) && f[k].startIndex == Top(s).startIndex {
      forall l | 0 <= l < |f| && f[l].startIndex <= j < f[l].endIndex ensures f[l].startIndex <= f[k].startIndex {
        var p := Opening(f, j, s, minLevel, l);
      }
    }
  }

  lemma SomeInnermost(f: seq<CallFrame>, j: nat, s: seq<Open>, minLevel: int) returns (k: nat)
    requires Mirrors(f, j, s, minLevel) && Rising(s) && s != []
    ensures k < |f| && Innermost(f, j, k)
  {
    hide Mirrors;
    k := Listing(f, j, s, minLevel, |s| - 1);
    InnermostIsTop(f, j, s, minLevel, k);
  }

  ghost predicate NewIn(t: seq<Open>, j: nat) { exists p :: 0 <= p < |t| && t[p].startIndex == j }

  lemma BeginsIsNew(f: seq<CallFrame>, j: nat, t: seq<Open>, minLevel: int)
    requires Mirrors(f, j, t, minLevel) && forall k :: 0 <= k < |f| ==> f[k].startIndex < f[k].endIndex
    ensures BeginsAt(f, j) <==> NewIn(t, j)
  {
    hide Mirrors;
    if k :| 0 <= k < |f| && f[k].startIndex == j {
      var p := Opening(f, j, t, minLevel, k);
    }
    if p :| 0 <= p < |t| && t[p].startIndex == j {
      var k := Listing(f, j, t, minLevel, p);
    }
  }

  /** Which turns open a frame. */
  lemma TurnOpens(ctx: Context, s: seq<Open>, j: nat, a: nat, t: seq<Open>)
    requires Turns(ctx, s, j, a, t) && s != [] && forall p :: 0 <= p < |s| ==> s[p].startIndex < j
    ensures NewIn(t, j) <==>
              || j in ctx.breaks
              || (IsEntry(ctx, a) && |s| < ctx.maxDepth)
              || (!IsEntry(ctx, a)
                  && match ctx.resolver.Entry(a)
                     case Some(entry) => forall p :: 0 <= p < |s| ==> s[p].address != entry
                     case None => !Top(s).unknown)
  {
    assert t != [] && t[|t| - 1].startIndex == j ==> NewIn(t, j);
  }

  /** Instruction j enters its function and the cap leaves room. */
  predicate Called(ctx: Context, addresses: seq<nat>, f: seq<CallFrame>, j: nat)
    requires 0 < j < |addresses|
  {
    IsEntry(ctx, addresses[j]) && |Around(f, j - 1)| < ctx.maxDepth
  }

  /** Off its function's entry, no frame around the instruction before stands for
      that function; or it resolves to nothing, and the innermost frame does not. */
  ghost predicate CameUnseen(ctx: Context, addresses: seq<nat>, f: seq<CallFrame>, j: nat)
    requires 0 < j < |addresses| && forall k :: 0 <= k < |f| ==> f[k].startIndex < |addresses|
  {
    && !IsEntry(ctx, addresses[j])
    && match ctx.resolver.Entry(addresses[j])
       case Some(entry) => !StandsAround(f, j - 1, entry)
       case None => exists k :: 0 <= k < |f| && Innermost(f, j - 1, k) && !Stranger(ctx, addresses, f[k])
  }

  lemma ListInRange(ctx: Context, addresses: seq<nat>)
    ensures var f := FramesOf(ctx, addresses).frames;
            && (forall k :: 0 <= k < |f| ==> f[k].startIndex < f[k].endIndex <= |addresses|)
            && Nested(f)
  {
    hide FramesOf, Nested;
    var f := FramesOf(ctx, addresses).frames;
    FramesNest(ctx, addresses);
    forall k | 0 <= k < |f| ensures f[k].startIndex < f[k].endIndex <= |addresses| { EachFrame(ctx, addresses, k); }
  }

  /** An open frame is a stranger's exactly when its first instruction resolves to
      nothing. */
  lemma OpenStranger(ctx: Context, addresses: seq<nat>, j: nat, p: nat)
    requires j < |addresses| && p < |StackAt(ctx, addresses, j)|
    ensures var o := StackAt(ctx, addresses, j)[p];
            o.startIndex < |addresses| && (o.unknown <==> ctx.resolver.function_(addresses[o.startIndex]).None?)
  {
    hide After;
    AfterLabelled(ctx, addresses, j + 1);
    assert Labelled(ctx, addresses, StackAt(ctx, addresses, j)[p]);
  }

  /** The innermost frame around j is a stranger's exactly when the top one is. */
  lemma TopStranger(ctx: Context, addresses: seq<nat>, f: seq<CallFrame>, j: nat, minLevel: int)
    requires j < |addresses| && f == FramesOf(ctx, addresses).frames
    requires Mirrors(f, j, StackAt(ctx, addresses, j), minLevel)
    ensures StackAt(ctx, addresses, j) != [] && forall k :: 0 <= k < |f| ==> f[k].startIndex < |addresses|
    ensures forall k :: 0 <= k < |f| && Innermost(f, j, k) ==>
              (Stranger(ctx, addresses, f[k]) <==> Top(StackAt(ctx, addresses, j)).unknown)
    ensures exists k :: 0 <= k < |f| && Innermost(f, j, k)
  {
    hide FramesOf, StackAt, Mirrors, StackSits, Innermost, Nested;
    StackRises(ctx, addresses, j);
    NeverEmpty(ctx, addresses, j);
    ListInRange(ctx, addresses);
    var s := StackAt(ctx, addresses, j);
    OpenStranger(ctx, addresses, j, |s| - 1);
    forall k | 0 <= k < |f| && Innermost(f, j, k) ensures Stranger(ctx, addresses, f[k]) <==> Top(s).unknown {
      InnermostIsTop(f, j, s, minLevel, k);
    }
    var k := SomeInnermost(f, j, s, minLevel);
  }

  lemma NeverEmpty(ctx: Context, addresses: seq<nat>, j: nat)
    requires j < |addresses|
    ensures StackAt(ctx, addresses, j) != []
  {
    hide After;
    StackStarts(ctx, addresses, j);
  }

  lemma StartsBelow(ctx: Context, addresses: seq<nat>, j: nat)
    requires 0 < j < |addresses|
    ensures var s := StackAt(ctx, addresses, j - 1); forall p :: 0 <= p < |s| ==> s[p].startIndex < j
  {
    hide After, StackSits, Rising;
    StackRises(ctx, addresses, j - 1);
  }

  /** A frame begins at an instruction if and only if it is the first, or the first
      behind a break, or a call with room left, or comes from code not seen
      before. */
  lemma BeginsIff(ctx: Context, addresses: seq<nat>, j: nat)
    requires j < |addresses|
    ensures forall k :: 0 <= k < |FramesOf(ctx, addresses).frames| ==>
              FramesOf(ctx, addresses).frames[k].startIndex < |addresses|
    ensures var f := FramesOf(ctx, addresses).frames;
            BeginsAt(f, j) <==>
            j == 0 || j in ctx.breaks || Called(ctx, addresses, f, j) || CameUnseen(ctx, addresses, f, j)
  {
    hide FramesOf, StackAt, Mirrors, Raw, MinLevel, Turns, NewIn, BeginsAt, Nested, Innermost, StandsAround, Around;
    hide Rising, StackSits;
    ListInRange(ctx, addresses);
    ListMirrors(ctx, addresses, j);
    var f, t, low := FramesOf(ctx, addresses).frames, StackAt(ctx, addresses, j), MinLevel(Raw(ctx, addresses));
    BeginsIsNew(f, j, t, low);
    if j == 0 {
      FirstBegins(ctx, addresses);
    } else {
      var s := StackAt(ctx, addresses, j - 1);
      StackTurns(ctx, addresses, j);
      ListMirrors(ctx, addresses, j - 1);
      StackRises(ctx, addresses, j - 1);
      StartsBelow(ctx, addresses, j);
      TopStranger(ctx, addresses, f, j - 1, low);
      AroundCount(f, j - 1, s, low);
      TurnOpens(ctx, s, j, addresses[j], t);
      var entry := ctx.resolver.Entry(addresses[j]);
      if entry.Some? { StandsCount(f, j - 1, s, low, entry.value); }
    }
  }

  lemma FirstBegins(ctx: Context, addresses: seq<nat>)
    requires addresses != []
    ensures NewIn(StackAt(ctx, addresses, 0), 0)
    ensures StackAt(ctx, addresses, 0) == [OpenFrame(ctx, 0, addresses[0], 0, true)]
  {
    hide OpenFrame;
    AfterStep(ctx, addresses, 0);
    StepTurns(ctx, Machine([], []), 0, addresses[0]);
    StartOf(ctx, 0, addresses[0], 0, true);
    assert StackAt(ctx, addresses, 0)[0].startIndex == 0;
  }

  lemma StartOf(ctx: Context, j: nat, a: nat, level: int, flag: bool)
    ensures OpenFrame(ctx, j, a, level, flag).startIndex == j && OpenFrame(ctx, j, a, level, flag).level == level
    ensures OpenFrame(ctx, j, a, level, flag).openAtStart == flag
  {
  }

  // ----- where a frame ends

  ghost predicate GoneFrom(t: seq<Open>, start: nat) { forall q :: 0 <= q < |t| ==> t[q].startIndex != start }

  lemma EndsIsGone(f: seq<CallFrame>, j: nat, t: seq<Open>, minLevel: int, k: nat)
    requires 0 < j && Mirrors(f, j, t, minLevel) && Nested(f) && k < |f| && Spans(f[k], j - 1)
    ensures f[k].endIndex == j <==> GoneFrom(t, f[k].startIndex)
  {
    hide Mirrors;
    if f[k].endIndex != j {
      var p := Opening(f, j, t, minLevel, k);
    } else if !GoneFrom(t, f[k].startIndex) {
      var q :| 0 <= q < |t| && t[q].startIndex == f[k].startIndex;
      var l := Listing(f, j, t, minLevel, q);
      OneStart(f, k, l);
    }
  }

  lemma OneStart(f: seq<CallFrame>, k: nat, l: nat)
    requires Nested(f) && k < |f| && l < |f| && f[k].startIndex == f[l].startIndex
    ensures k == l
  {
  }

  lemma TurnCloses(ctx: Context, s: seq<Open>, j: nat, a: nat, t: seq<Open>, p: nat)
    requires Turns(ctx, s, j, a, t) && Rising(s) && p < |s| && forall q :: 0 <= q < |s| ==> s[q].startIndex < j
    ensures GoneFrom(t, s[p].startIndex) <==>
              || j in ctx.breaks
              || (!IsEntry(ctx, a)
                  && match ctx.resolver.Entry(a)
                     case None => p == |s| - 1 && !Top(s).unknown
                     case Some(entry) =>
                       if exists q :: 0 <= q < |s| && s[q].address == entry
                       then forall q :: 0 <= q < |s| && s[q].address == entry ==> q < p
                       else p == |s| - 1)
  {
    assert p < |t| && t[p] == s[p] ==> !GoneFrom(t, s[p].startIndex);
  }

  /** What ends off a function's entry: a return closes what began after the latest
      frame of the function returned to; one into code not seen, the innermost. */
  ghost predicate LeftAt(ctx: Context, addresses: seq<nat>, f: seq<CallFrame>, j: nat, k: nat)
    requires 0 < j < |addresses| && k < |f| && f[k].startIndex < |addresses|
  {
    && !IsEntry(ctx, addresses[j])
    && match ctx.resolver.Entry(addresses[j])
       case None => Innermost(f, j - 1, k) && !Stranger(ctx, addresses, f[k])
       case Some(entry) =>
         if StandsAround(f, j - 1, entry) then
           forall l :: 0 <= l < |f| && f[l].startIndex <= j - 1 < f[l].endIndex && f[l].address == entry ==>
             f[l].startIndex < f[k].startIndex
         else Innermost(f, j - 1, k)
  }

  /** The latest frame of the function that instruction j returns to. */
  lemma LaterThanStands(f: seq<CallFrame>, j: nat, s: seq<Open>, minLevel: int, k: nat, p: nat, entry: nat)
    requires Mirrors(f, j, s, minLevel) && Rising(s) && k < |f| && p < |s| && Stands(f[k], s[p], minLevel)
    ensures (forall l :: 0 <= l < |f| && f[l].startIndex <= j < f[l].endIndex && f[l].address == entry ==>
               f[l].startIndex < f[k].startIndex)
       <==> (forall q :: 0 <= q < |s| && s[q].address == entry ==> q < p)
  {
    hide Mirrors;
    if forall q :: 0 <= q < |s| && s[q].address == entry ==> q < p {
      forall l | 0 <= l < |f| && f[l].startIndex <= j < f[l].endIndex && f[l].address == entry
        ensures f[l].startIndex < f[k].startIndex
      {
        var q := Opening(f, j, s, minLevel, l);
      }
    }
    if forall l :: 0 <= l < |f| && f[l].startIndex <= j < f[l].endIndex && f[l].address == entry ==>
         f[l].startIndex < f[k].startIndex
    {
      forall q | 0 <= q < |s| && s[q].address == entry ensures q < p {
        var l := Listing(f, j, s, minLevel, q);
        assert f[l].startIndex < f[k].startIndex;
      }
    }
  }

  lemma InnermostPlace(f: seq<CallFrame>, j: nat, s: seq<Open>, minLevel: int, k: nat, p: nat)
    requires Mirrors(f, j, s, minLevel) && Rising(s) && k < |f| && p < |s|
    requires Spans(f[k], j) && Stands(f[k], s[p], minLevel)
    ensures Innermost(f, j, k) <==> p == |s| - 1
  {
    hide Mirrors, Innermost;
    InnermostIsTop(f, j, s, minLevel, k);
    TopIsLatest(s, p);
  }

  /** A frame around the instruction before ends at this one if and only if this
      one is behind a break, or off its function's entry and leaves that frame. */
  lemma EndsIff(ctx: Context, addresses: seq<nat>, j: nat, k: nat)
    requires 0 < j < |addresses| && k < |FramesOf(ctx, addresses).frames|
    requires Spans(FramesOf(ctx, addresses).frames[k], j - 1)
    ensures FramesOf(ctx, addresses).frames[k].startIndex < |addresses|
    ensures FramesOf(ctx, addresses).frames[k].endIndex == j
       <==> j in ctx.breaks || LeftAt(ctx, addresses, FramesOf(ctx, addresses).frames, j, k)
  {
    hide FramesOf, StackAt, Mirrors, Raw, MinLevel, Turns, Nested, Innermost, StandsAround, GoneFrom, Rising, StackSits;
    ListInRange(ctx, addresses);
    ListMirrors(ctx, addresses, j - 1);
    ListMirrors(ctx, addresses, j);
    var f, low := FramesOf(ctx, addresses).frames, MinLevel(Raw(ctx, addresses));
    var s, t := StackAt(ctx, addresses, j - 1), StackAt(ctx, addresses, j);
    var p := Opening(f, j - 1, s, low, k);
    EndsIsGone(f, j, t, low, k);
    StackTurns(ctx, addresses, j);
    StackRises(ctx, addresses, j - 1);
    StartsBelow(ctx, addresses, j);
    TurnCloses(ctx, s, j, addresses[j], t, p);
    InnermostPlace(f, j - 1, s, low, k, p);
    TopStranger(ctx, addresses, f, j - 1, low);
    var entry := ctx.resolver.Entry(addresses[j]);
    if entry.Some? {
      StandsCount(f, j - 1, s, low, entry.value);
      LaterThanStands(f, j - 1, s, low, k, p, entry.value);
    }
  }

  // ----- how deep a frame is listed

  lemma TurnLevels(ctx: Context, s: seq<Open>, j: nat, a: nat, t: seq<Open>, p: nat)
    requires Turns(ctx, s, j, a, t) && p < |t| && t[p].startIndex == j && forall q :: 0 <= q < |s| ==>
             s[q].startIndex < j
    ensures t[p].level ==
            if s == [] || j in ctx.breaks then 0
            else if IsEntry(ctx, a) then Top(s).level + 1 else Max(MIN_LEVEL, Top(s).level - 1)
  {
  }

  /** A stretch begins at one depth, 32 at most; a call seen is one deeper than the
      innermost frame before it; and code not seen before is one less deep than
      the frame it replaces, but never more than 32 above a stretch's beginning. */
  lemma DepthsAre(ctx: Context, addresses: seq<nat>, k: nat)
    requires k < |FramesOf(ctx, addresses).frames|
    ensures var f := FramesOf(ctx, addresses).frames;
            && f[k].startIndex < |addresses| && 0 <= f[0].depth <= 32
            && (f[k].startIndex == 0 || f[k].startIndex in ctx.breaks ==> f[k].depth == f[0].depth)
            && forall l :: f[k].startIndex != 0 && f[k].startIndex !in ctx.breaks
                           && 0 <= l < |f| && Innermost(f, f[k].startIndex - 1, l) ==>
                 f[k].depth == if IsEntry(ctx, addresses[f[k].startIndex]) then f[l].depth + 1
                               else Max(f[0].depth - 32, f[l].depth - 1)
  {
    hide FramesOf, StackAt, Mirrors, Raw, MinLevel, Turns, Nested, Innermost, StackSits, Rising, IsEntry;
    ListInRange(ctx, addresses);
    var f, j := FramesOf(ctx, addresses).frames, FramesOf(ctx, addresses).frames[k].startIndex;
    ListMirrors(ctx, addresses, j);
    var low, t := MinLevel(Raw(ctx, addresses)), StackAt(ctx, addresses, j);
    FirstDepth(ctx, addresses);
    var p := Opening(f, j, t, low, k);
    if j == 0 {
      FirstBegins(ctx, addresses);
      StartOf(ctx, 0, addresses[0], 0, true);
    } else {
      var s := StackAt(ctx, addresses, j - 1);
      StackTurns(ctx, addresses, j);
      ListMirrors(ctx, addresses, j - 1);
      StackRises(ctx, addresses, j - 1);
      StartsBelow(ctx, addresses, j);
      NeverEmpty(ctx, addresses, j - 1);
      TurnLevels(ctx, s, j, addresses[j], t, p);
      forall l | 0 <= l < |f| && Innermost(f, j - 1, l) ensures f[l].depth == Top(s).level - low {
        InnermostIsTop(f, j - 1, s, low, l);
      }
    }
  }

  /** The first frame is the one the stream begins with, at level 0. */
  lemma FirstDepth(ctx: Context, addresses: seq<nat>)
    requires addresses != []
    ensures Raw(ctx, addresses) != [] && FramesOf(ctx, addresses).frames != []
    ensures FramesOf(ctx, addresses).frames[0].startIndex == 0
    ensures FramesOf(ctx, addresses).frames[0].depth == -MinLevel(Raw(ctx, addresses))
    ensures 0 <= FramesOf(ctx, addresses).frames[0].depth <= 32
  {
    hide FramesOf, StackAt, Mirrors, Raw, MinLevel, Nested;
    ListMirrors(ctx, addresses, 0);
    FirstBegins(ctx, addresses);
    StartOf(ctx, 0, addresses[0], 0, true);
    var f, low := FramesOf(ctx, addresses).frames, MinLevel(Raw(ctx, addresses));
    var k := Listing(f, 0, StackAt(ctx, addresses, 0), low, 0);
    ListInRange(ctx, addresses);
    FirstIsLeast(f, k);
    LowestLevel(ctx, addresses);
    EachFrame(ctx, addresses, 0);
  }

  lemma FirstIsLeast(f: seq<CallFrame>, k: nat)
    requires Nested(f) && k < |f| && f[k].startIndex == 0
    ensures k == 0
  {
    assert f[0].startIndex >= 0;
  }

  lemma LowestLevel(ctx: Context, addresses: seq<nat>)
    requires Raw(ctx, addresses) != []
    ensures MinLevel(Raw(ctx, addresses)) >= MIN_LEVEL
  {
    hide Raw;
    var c := Lowest(Raw(ctx, addresses));
    LevelsBounded(ctx, addresses, c);
  }

  lemma Lowest(raw: seq<Closed>) returns (c: Closed)
    requires raw != []
    ensures c in raw && c.frame.level == MinLevel(raw)
  {
    var low := MinLevel(raw);
    c :| c in raw && c.frame.level == low;
  }

  /** Depths are counted from the least deep frame. */
  lemma SomeAtZero(ctx: Context, addresses: seq<nat>)
    requires addresses != []
    ensures exists k :: 0 <= k < |FramesOf(ctx, addresses).frames| && FramesOf(ctx, addresses).frames[k].depth == 0
  {
    hide Raw, FramesOf;
    NoInstructionsNoFrames(ctx, addresses);
    var raw := Raw(ctx, addresses);
    var c := Lowest(raw);
    var k := RawListed(ctx, addresses, c);
  }
}
