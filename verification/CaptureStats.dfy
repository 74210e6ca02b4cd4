/** What the statistics of a capture count, told from its slices. */
module CaptureStats {
  import opened Prelude
  import opened Blocks
  import opened Windows
  import opened Capture
  import opened Loss
  import opened Located

  /** The slices that reported loss. */
  function Gapped(run: Run, k: nat): set<nat> { set j | 0 <= j < k && run.LostIn(j) > 0 }

  /** The slices that gave counters and reported none. */
  function Stitched(run: Run, k: nat): set<nat> { set j | 0 <= j < k && run.LostIn(j) == 0 && |run.Window(j)| > 0 }

  lemma AppendRecords(v: StoreView, b: TraceBlock)
    ensures var w := Appended(v, b);
            && w.stats.gaps == v.stats.gaps + (if b.lostBefore > 0 then 1 else 0)
            && w.stats.stitched == v.stats.stitched + (if b.lostBefore == 0 && |b.pcs| > 0 then 1 else 0)
            && w.stats.droppedBlocks + |w.blocks| == v.stats.droppedBlocks + |v.blocks| + 1
            && w.stampOrder == v.stampOrder
  {
    hide Evicted, Total;
    var n := EvictedLeast(v.(blocks := v.blocks + [b], stats := Recorded(v.stats, b)));
  }

  /** The order a window shows, if it was kept and shows one. */
  function Shown(run: Run, j: nat): Option<bool> {
    if |run.Window(j)| > 0 || run.LostIn(j) > 0 then Observed(run.StashOf(j)) else None
  }

  lemma StepRecords(run: Run, v: StoreView, k: nat)
    ensures var w := InlineStep(v, run.StepOf(k));
            && w.stats.gaps == v.stats.gaps + (if run.LostIn(k) > 0 then 1 else 0)
            && w.stats.stitched == v.stats.stitched + (if run.LostIn(k) == 0 && |run.Window(k)| > 0 then 1 else 0)
            && w.stampOrder == (if Shown(run, k).Some? then Shown(run, k) else v.stampOrder)
  {
    hide BlockOf, Appended, Observed, run.Window, run.LostIn;
    var stash := run.StashOf(k);
    AppendRecords(if Observed(stash).Some? then v.(stampOrder := Observed(stash)) else v, BlockOf(stash));
  }

  lemma GrowsBy(run: Run, k: nat)
    ensures Gapped(run, k + 1) == Gapped(run, k) + (if run.LostIn(k) > 0 then {k} else {})
    ensures Stitched(run, k + 1) == Stitched(run, k) + (if run.LostIn(k) == 0 && |run.Window(k)| > 0 then {k} else {})
    ensures k !in Gapped(run, k) && k !in Stitched(run, k)
  {
    hide run.LostIn, run.Window;
  }

  lemma NoneYet(run: Run)
    ensures Gapped(run, 0) == {} && Stitched(run, 0) == {}
  {
  }

  lemma {:induction false} LoopRecords(run: Run, capacity: nat, k: nat)
    ensures var v := run.Inline(Fresh(capacity), k);
            v.stats.gaps == |Gapped(run, k)| && v.stats.stitched == |Stitched(run, k)|
  {
    hide *;
    if k == 0 {
      NothingCounted(run, capacity);
      NoneYet(run);
      NoneGapped();
    } else {
      LoopRecords(run, capacity, k - 1);
      InlineNext(run, Fresh(capacity), k - 1);
      StepRecords(run, run.Inline(Fresh(capacity), k - 1), k - 1);
      GrowsBy(run, k - 1);
    }
  }

  lemma NoneGapped()
    ensures NO_STATS.gaps == NO_STATS.stitched == 0
  {
  }

  /** The statistics a capture into a fresh store returns: its slices, those that
      stitched and those that gapped, what they reported lost and what they gave,
      and what of that was evicted. */
  lemma StatsSay(run: Run, capacity: nat)
    ensures var s := StatsOf(run.Outcome(Fresh(capacity)).stats);
            && s.polls == run.Turns()
            && s.stitched == |Stitched(run, run.Turns())| && s.gaps == |Gapped(run, run.Turns())|
            && s.lost == LostUpTo(run, run.Turns()) && s.totalRead == run.Gathered(run.Turns())
            && s.dropped == run.Gathered(run.Turns()) - Total(run.Inline(Fresh(capacity), run.Turns()).blocks)
  {
    hide run.Inline, run.Gathered, run.Turns, Total, Take, Gapped, Stitched, LostUpTo;
    OutcomeCuts(run, capacity);
    LoopRecords(run, capacity, run.Turns());
    LoopCounts(run, capacity, run.Turns());
  }

  /** The order remembered is the one shown last. */
  lemma {:induction false} OrderIsLast(run: Run, capacity: nat, k: nat)
    ensures match run.Inline(Fresh(capacity), k).stampOrder
            case None => forall j :: 0 <= j < k ==> Shown(run, j) == None
            case Some(order) => exists j :: 0 <= j < k && Shown(run, j) == Some(order)
                                            && forall i :: j < i < k ==> Shown(run, i) == None
  {
    hide *;
    if k == 0 {
      NothingCounted(run, capacity);
      FreshOrder(capacity);
    } else {
      OrderIsLast(run, capacity, k - 1);
      InlineNext(run, Fresh(capacity), k - 1);
      StepRecords(run, run.Inline(Fresh(capacity), k - 1), k - 1);
    }
  }

  lemma FreshOrder(capacity: nat)
    ensures StoreView(capacity, [], NO_STATS, None).stampOrder == None
  {
  }
}
