/** What a caller can rely on in a finished frame list. */
module FrameResults {
  import opened Prelude
  import opened Sorting
  import opened Frames
  import opened FrameShape
  import opened FrameOwner

  ghost predicate Spans(f: CallFrame, j: nat) { f.startIndex <= j < f.endIndex }

  ghost predicate FramesApart(f: CallFrame, g: CallFrame) {
    Apart(f.startIndex, f.endIndex, g.startIndex, g.endIndex)
  }

  /** The finished list holds exactly the raw frames, levels shifted. */
  lemma ResultMembers(ctx: Context, addresses: seq<nat>)
    requires Raw(ctx, addresses) != []
    ensures var raw, r := Raw(ctx, addresses), FramesOf(ctx, addresses);
            && |r.frames| == |raw|
            && (forall i :: 0 <= i < |raw| ==> Finished(raw[i], MinLevel(raw)) in r.frames)
            && (forall k :: 0 <= k < |r.frames| ==>
                  exists i :: 0 <= i < |raw| && r.frames[k] == Finished(raw[i], MinLevel(raw)))
  {
    var raw := Raw(ctx, addresses);
    var levelled := Levelled(raw, MinLevel(raw));
    SortKeeps(FrameLess, levelled);
    forall i | 0 <= i < |raw| ensures Finished(raw[i], MinLevel(raw)) in SortBy(FrameLess, levelled) {
      assert levelled[i] in levelled;
    }
    forall k | 0 <= k < |SortBy(FrameLess, levelled)|
      ensures exists i :: 0 <= i < |raw| && SortBy(FrameLess, levelled)[k] == Finished(raw[i], MinLevel(raw))
    {
      assert SortBy(FrameLess, levelled)[k] in levelled;
    }
  }

  lemma SomeRaw(ctx: Context, addresses: seq<nat>, k: nat)
    requires k < |FramesOf(ctx, addresses).frames|
    ensures Raw(ctx, addresses) != []
  {
  }

  ghost predicate GoodFrame(breaks: set<int>, f: CallFrame, length: nat, maxDepth: int) {
    && f.startIndex < f.endIndex <= length
    && 0 <= f.depth < maxDepth
    && (f.openAtEnd <==> f.endIndex == length || f.endIndex in breaks)
    && NoBreak(breaks, f.startIndex, f.endIndex)
  }

  lemma NoInstructionsNoFrames(ctx: Context, addresses: seq<nat>)
    ensures Raw(ctx, addresses) == [] <==> addresses == []
    ensures addresses == [] ==> FramesOf(ctx, addresses) == FrameResult([], 0)
  {
    if addresses != [] { AfterShape(ctx, addresses, |addresses|); }
  }

  /** Each frame of a finished list is non-empty and in range, its depth is
      within the reported one, it is open at its end exactly at the stream's end
      or a break, and it does not reach across a break. */
  lemma EachFrame(ctx: Context, addresses: seq<nat>, k: nat)
    requires k < |FramesOf(ctx, addresses).frames|
    ensures GoodFrame(ctx.breaks, FramesOf(ctx, addresses).frames[k], |addresses|, FramesOf(ctx, addresses).maxDepth)
  {
    NoInstructionsNoFrames(ctx, addresses);
    var raw := Raw(ctx, addresses);
    ResultMembers(ctx, addresses);
    RawShape(ctx, addresses);
    var i :| 0 <= i < |raw| && FramesOf(ctx, addresses).frames[k] == Finished(raw[i], MinLevel(raw));
    assert FrameOk(ctx.breaks, raw[i], |addresses|);
    assert raw[i] in raw;
  }

  /** Strictly in order of starts, a later one either past an earlier one or
      inside it. */
  ghost predicate Nested(f: seq<CallFrame>) {
    forall i, j :: 0 <= i < j < |f| ==>
      f[i].startIndex < f[j].startIndex && (f[i].endIndex <= f[j].startIndex || f[j].endIndex <= f[i].endIndex)
  }

  lemma SortedNest(frames: seq<CallFrame>)
    requires Pairwise(FramesApart, frames)
    requires forall f :: f in frames ==> f.startIndex < f.endIndex
    ensures Nested(SortBy(FrameLess, frames))
  {
    SortPairwise(FrameLess, FramesApart, frames);
    KeyOrders(FrameLess, FrameKey);
    SortSorts(FrameLess, frames);
    SortKeeps(FrameLess, frames);
    var f := SortBy(FrameLess, frames);
    forall i, j | 0 <= i < j < |f|
      ensures f[i].startIndex < f[j].startIndex && (f[i].endIndex <= f[j].startIndex || f[j].endIndex <= f[i].endIndex)
    {
      assert FramesApart(f[i], f[j]);
      assert !FrameLess(f[j], f[i]);
      assert f[i] in frames && f[j] in frames;
    }
  }

  lemma LevelledApart(ctx: Context, addresses: seq<nat>, minLevel: int)
    ensures var l := Levelled(Raw(ctx, addresses), minLevel);
            Pairwise(FramesApart, l) && forall f :: f in l ==> f.startIndex < f.endIndex
  {
    var raw := Raw(ctx, addresses);
    var l := Levelled(raw, minLevel);
    RawShape(ctx, addresses);
    forall i, j | 0 <= i < j < |l| ensures FramesApart(l[i], l[j]) {
      assert ClosedApart(raw[i], raw[j]);
    }
    forall f | f in l ensures f.startIndex < f.endIndex {
      var i :| 0 <= i < |l| && l[i] == f;
      assert FrameOk(ctx.breaks, raw[i], |addresses|);
    }
  }

  /** Finished frames nest, and are listed strictly in order of their starts. */
  lemma FramesNest(ctx: Context, addresses: seq<nat>)
    ensures Nested(FramesOf(ctx, addresses).frames)
  {
    NoInstructionsNoFrames(ctx, addresses);
    var raw := Raw(ctx, addresses);
    if raw != [] {
      LevelledApart(ctx, addresses, MinLevel(raw));
      SortedNest(Levelled(raw, MinLevel(raw)));
    }
  }

  /** The last listed frame around instruction j, and so the innermost. */
  ghost predicate InnermostAt(frames: seq<CallFrame>, k: nat, j: nat) {
    && k < |frames| && Spans(frames[k], j)
    && forall l :: k < l < |frames| ==> !Spans(frames[l], j)
  }

  lemma LastAround(raw: seq<Closed>, frames: seq<CallFrame>, minLevel: int, j: nat, i: nat) returns (k: nat)
    requires i < |raw| && Covers(raw[i], j)
    requires forall l :: 0 <= l < |raw| && Covers(raw[l], j) ==> raw[l].frame.startIndex <= raw[i].frame.startIndex
    requires Nested(frames) && Finished(raw[i], minLevel) in frames
    requires forall k :: 0 <= k < |frames| ==> exists l :: 0 <= l < |raw| && frames[k] == Finished(raw[l], minLevel)
    ensures InnermostAt(frames, k, j) && frames[k].address == raw[i].frame.address
  {
    k :| 0 <= k < |frames| && frames[k] == Finished(raw[i], minLevel);
    forall l | k < l < |frames| ensures !Spans(frames[l], j) {
      var i' :| 0 <= i' < |raw| && frames[l] == Finished(raw[i'], minLevel);
      var c, c' := raw[i], raw[i'];
      assert Covers(c', j) ==> c'.frame.startIndex <= c.frame.startIndex;
      assert frames[k].startIndex < frames[l].startIndex;
    }
    assert Spans(frames[k], j);
  }

  /** Every instruction lies in some frame, and in the list the last frame
      around it is the innermost. That frame stands for the instruction's own
      function, or for unknown code, if and only if the depth cap did not refuse
      its call out of another function. */
  lemma InnermostFrame(ctx: Context, addresses: seq<nat>, j: nat)
    requires j < |addresses| && EntriesResolve(ctx.resolver, addresses)
    ensures var f := FramesOf(ctx, addresses).frames;
            exists k: nat :: InnermostAt(f, k, j)
              && (Matches(ctx.resolver, f[k].address, addresses[j])
                  <==> !Blocked(ctx, After(ctx, addresses, j), j, addresses[j]))
  {
    hide *;
    NoInstructionsNoFrames(ctx, addresses);
    InnermostIsOwner(ctx, addresses, j);
    OwnerMatchesIff(ctx, addresses, j);
    ResultMembers(ctx, addresses);
    FramesNest(ctx, addresses);
    var raw, f := Raw(ctx, addresses), FramesOf(ctx, addresses).frames;
    var i :| 0 <= i < |raw| && Covers(raw[i], j) && raw[i].frame == OwnerOf(ctx, addresses, j);
    var k := LastAround(raw, f, MinLevel(raw), j, i);
  }

  /** The reported depth is exact: some frame is at depth zero and some at the
      depth below the reported one; and it exceeds the cap by at most the floor. */
  lemma ReportedDepth(ctx: Context, addresses: seq<nat>)
    requires addresses != []
    ensures var r := FramesOf(ctx, addresses);
            && (exists k :: 0 <= k < |r.frames| && r.frames[k].depth == 0)
            && (exists k :: 0 <= k < |r.frames| && r.frames[k].depth == r.maxDepth - 1)
            && 1 <= r.maxDepth <= Max(1, ctx.maxDepth) - MIN_LEVEL
  {
    hide Raw, FramesOf, MinLevel, MaxLevel, Finished;
    NoInstructionsNoFrames(ctx, addresses);
    DepthIs(ctx, addresses);
    var raw, r := Raw(ctx, addresses), FramesOf(ctx, addresses);
    var lowest := AtLevel(ctx, addresses, MinLevel(raw));
    var highest := AtLevel(ctx, addresses, MaxLevel(raw));
  }

  /** A level that some raw frame has, some finished frame has, as a depth. */
  lemma AtLevel(ctx: Context, addresses: seq<nat>, level: int) returns (k: nat)
    requires exists c :: c in Raw(ctx, addresses) && c.frame.level == level
    ensures k < |FramesOf(ctx, addresses).frames|
    ensures FramesOf(ctx, addresses).frames[k].depth == level - MinLevel(Raw(ctx, addresses))
    ensures MIN_LEVEL <= level < Max(1, ctx.maxDepth)
  {
    hide Raw, FramesOf, MinLevel;
    var raw, f := Raw(ctx, addresses), FramesOf(ctx, addresses).frames;
    var c :| c in raw && c.frame.level == level;
    ResultMembers(ctx, addresses);
    LevelsBounded(ctx, addresses, c);
    assert Finished(c, MinLevel(raw)) in f;
    k :| 0 <= k < |f| && f[k] == Finished(c, MinLevel(raw));
  }

  lemma DepthIs(ctx: Context, addresses: seq<nat>)
    requires Raw(ctx, addresses) != []
    ensures FramesOf(ctx, addresses).maxDepth == MaxLevel(Raw(ctx, addresses)) - MinLevel(Raw(ctx, addresses)) + 1
  {
    hide Raw;
  }

  lemma LevelsBounded(ctx: Context, addresses: seq<nat>, c: Closed)
    requires c in Raw(ctx, addresses)
    ensures MIN_LEVEL <= c.frame.level < Max(1, ctx.maxDepth)
  {
    AfterBounded(ctx, addresses, |addresses|);
    var m := After(ctx, addresses, |addresses|);
    var i :| 0 <= i < |Raw(ctx, addresses)| && Raw(ctx, addresses)[i] == c;
    if i >= |m.closed| { assert c.frame == m.stack[i - |m.closed|]; }
  }
}
