/**
 What retention removes and when: rows and gaps that lie wholly before a raw cutoff and count in clean
 minutes; and the watermark below which a reply without a row is not buffered any more, over every run the
 highest cutoff by which no older row was left.
 */
module Retention {
  import opened Common
  import opened PingAggregate
  import opened RawAggregate
  import opened SampleStore
  import opened TimeGrid
  import opened Coherence
  import RawCounts

  // The step moves to the cutoff, and no row is left that was sent before it.
  ghost predicate ClearsAt(a: Audit, step: Step, cutoff: int) {
    step == Advance(cutoff) && forall k <- a.s.tables.rows :: a.s.tables.rows[k].sent >= cutoff
  }

  ghost predicate Clears(steps: seq<Step>, n: nat, cutoff: int) {
    n < |steps| && ClearsAt(After(steps[..n]), steps[n], cutoff)
  }

  ghost predicate HighestCleared(steps: seq<Step>, through: int) {
    && (through == START.prunedThrough || exists n: nat :: Clears(steps, n, through))
    && (forall n: nat, cutoff: int :: Clears(steps, n, cutoff) ==> cutoff <= through)
    && START.prunedThrough <= through
  }

  lemma WriteKeeps(s: State, e: Event, s': State)
    requires Apply(s, e) == Some(s')
    ensures s'.prunedThrough == s.prunedThrough
  {
    hide MinuteOf, Marks, LastMissed, Answer;
  }

  // Only a cutoff that leaves no older row behind moves the watermark, and only up to it.
  lemma StepMoves(a: Audit, step: Step)
    ensures var through, through' := a.s.prunedThrough, Next(a, step).s.prunedThrough;
      if step.Advance? && ClearsAt(a, step, step.cutoff) then through' == Max(through, step.cutoff)
      else through' == through
  {
    hide Raw, Remember, Ready;
    if step.Write? {
      hide Apply;
      if Apply(a.s, step.event).Some? {
        WriteKeeps(a.s, step.event, Apply(a.s, step.event).value);
      }
    }
  }

  lemma ClearsStill(steps: seq<Step>, step: Step, n: nat, cutoff: int)
    ensures Clears(steps + [step], n, cutoff) <==>
      Clears(steps, n, cutoff) || (n == |steps| && ClearsAt(After(steps), step, cutoff))
  {
    hide After, ClearsAt;
    var more := steps + [step];
    assert more[|steps|] == step && more[..|steps|] == steps;
    if n < |steps| {
      assert more[..n] == steps[..n] && more[n] == steps[n];
    }
  }

  lemma Higher(before: seq<Step>, step: Step, through: int, through': int)
    requires HighestCleared(before, through)
    requires if step.Advance? && ClearsAt(After(before), step, step.cutoff) then through' == Max(through, step.cutoff)
             else through' == through
    ensures HighestCleared(before + [step], through')
  {
    hide After, Clears;
    var steps := before + [step];
    forall n: nat, cutoff: int | Clears(steps, n, cutoff)
      ensures cutoff <= through'
    {
      ClearsStill(before, step, n, cutoff);
    }
    if through' != through {
      ClearsStill(before, step, |before|, through');
    } else if through != START.prunedThrough {
      var n: nat :| Clears(before, n, through);
      ClearsStill(before, step, n, through);
    }
  }

  lemma NoneCleared()
    ensures HighestCleared([], START.prunedThrough)
  {
  }

  lemma Unfolds(before: seq<Step>, step: Step)
    ensures After(before + [step]) == Next(After(before), step) && After([]) == ORIGIN
  {
    hide Next;
    assert (before + [step])[..|before|] == before;
  }

  /** The watermark never falls, and stands at the highest cutoff that left no older row. */
  lemma {:induction false} WatermarkIsHighestCleared(steps: seq<Step>)
    ensures HighestCleared(steps, After(steps).s.prunedThrough)
    ensures steps != [] ==> After(steps[..|steps| - 1]).s.prunedThrough <= After(steps).s.prunedThrough
  {
    hide After, Next, Clears, ClearsAt, HighestCleared;
    if steps == [] {
      Unfolds([], Advance(0));
      NoneCleared();
    } else {
      var before, step := steps[..|steps| - 1], steps[|steps| - 1];
      assert before + [step] == steps;
      Unfolds(before, step);
      WatermarkIsHighestCleared(before);
      StepMoves(After(before), step);
      Higher(before, step, After(before).s.prunedThrough, After(steps).s.prunedThrough);
    }
  }

  // ---------- what is pruned ----------

  // What is no longer in the raw tables lies before the highest raw cutoff.
  ghost predicate GoneIsOld(a: Audit) {
    && (forall k <- a.history.rows | k !in a.s.tables.rows ::
          a.history.rows[k].scheduled < a.cutoff && a.history.rows[k].sent < a.cutoff)
    && (forall g <- a.history.gaps | g !in a.s.tables.gaps :: a.history.gaps[g].Last() < a.cutoff)
  }

  // A write removes nothing from the raw tables, and the history follows them.
  lemma WriteLeaves(a: Audit, e: Event, s': State)
    requires Apply(a.s, e) == Some(s')
    ensures a.s.tables.rows.Keys <= s'.tables.rows.Keys && a.s.tables.gaps.Keys <= s'.tables.gaps.Keys
    ensures var h, h' := a.history, Remember(a.history, a.s, s', e);
      && (forall k <- h'.rows :: k in s'.tables.rows || (k in h.rows && h'.rows[k] == h.rows[k]))
      && (forall g <- h'.gaps :: g in s'.tables.gaps || (g in h.gaps && h'.gaps[g] == h.gaps[g]))
  {
    hide MinuteOf, Marks, LastMissed, Answer;
    match e
    case Sent(_, _, _, _, _, _, _) => hide InsertGap, Receive, NewGap;
    case Replied(_, _) => hide InsertGap, InsertProbe, NewGap;
    case Missing(_, _, _, _) => hide InsertProbe, Receive, ApplyReply;
  }

  lemma StepGone(a: Audit, step: Step)
    requires GoneIsOld(a) && Remembered(a.s.tables, a.history) && Allowed(a, step)
    ensures GoneIsOld(Next(a, step))
  {
    hide Raw, Ready, Safe, MinuteOf, Floor;
    match step
    case Write(e) =>
      hide Apply, Remember;
      if Apply(a.s, e).Some? {
        WriteLeaves(a, e, Apply(a.s, e).value);
      }
    case DropRows(ks, cutoff) =>
      assert forall k <- ks :: RowPrunable(a.s, k, cutoff);
    case DropGaps(ks, cutoff) =>
      assert forall k <- ks :: GapPrunable(a.s, k, cutoff);
    case _ =>
  }

  lemma CoherentRemembers(a: Audit)
    requires Coherent(a)
    ensures Remembered(a.s.tables, a.history)
  {
  }

  lemma NothingGone()
    ensures GoneIsOld(ORIGIN)
  {
  }

  /**
   Retention takes only what is old: in every legal run whatever was applied and is no longer in the raw
   tables was scheduled and sent before the highest raw cutoff.
   */
  lemma {:induction false} OnlyOldIsGone(steps: seq<Step>)
    requires Legal(steps)
    ensures GoneIsOld(After(steps))
    decreases |steps|
  {
    hide Next, Allowed, GoneIsOld, Coherent;
    if steps == [] {
      assert GoneIsOld(ORIGIN) by { NothingGone(); }
    } else {
      var before := steps[..|steps| - 1];
      OnlyOldIsGone(before);
      NothingIsLost(before);
      CoherentRemembers(After(before));
      StepGone(After(before), steps[|steps| - 1]);
    }
  }

  // ---------- what can be pruned, and recomputed ----------

  // The rows scheduled and sent before the cutoff.
  ghost function Older(s: State, cutoff: int): set<ProbeKey> {
    set k | k in s.tables.rows && s.tables.rows[k].scheduled < cutoff && s.tables.rows[k].sent < cutoff
  }

  // A clean minute in which a row counts has a rollup.
  lemma CleanHasRollup(a: Audit, k: ProbeKey, m: Minute)
    requires Coherent(a) && k in a.s.tables.rows && Aligned(m.at, MINUTE) && m !in a.s.dirty
    requires RawCounts.InWindow(a.s.tables.rows[k], Span(m))
    ensures m in a.s.rollups
  {
    hide Raw, PingRollups.Store, Aligned, HasRow, HasSlot;
    assert Kept(a, m);
    RawCounts.RawCountsRows(a.history, Span(m), None, RawCounts.Attempted);
    assert k in RawCounts.Those(a.history.rows, Span(m), RawCounts.Attempted, None);
  }

  lemma OlderIsPrunable(a: Audit, k: ProbeKey, cutoff: int)
    requires Coherent(a) && k in Older(a.s, cutoff)
    requires MinuteOf(a.s.tables.rows[k].target, a.s.tables.rows[k].scheduled) !in a.s.dirty
    ensures RowPrunable(a.s, k, cutoff)
  {
    hide Coherent, Kept;
    var r := a.s.tables.rows[k];
    CleanHasRollup(a, k, MinuteOf(r.target, r.scheduled));
  }

  // Every row sent before the cutoff was scheduled before it as well.
  ghost predicate InOrder(s: State, cutoff: int) {
    forall k <- s.tables.rows :: s.tables.rows[k].sent < cutoff ==> s.tables.rows[k].scheduled < cutoff
  }

  lemma WithoutOlder(s: State, cutoff: int)
    ensures var s' := WithoutRows(s, Older(s, cutoff));
      && Older(s', cutoff) == {}
      && (InOrder(s, cutoff) ==> AdvancePruned(s', cutoff).prunedThrough >= cutoff)
  {
    assert forall k <- WithoutRows(s, Older(s, cutoff)).tables.rows :: k !in Older(s, cutoff);
  }

  lemma OlderMayGo(a: Audit, cutoff: int)
    requires Aligned(cutoff, MINUTE) && forall k <- Older(a.s, cutoff) :: RowPrunable(a.s, k, cutoff)
    ensures var drop := DropRows(Older(a.s, cutoff), cutoff);
      && Allowed(a, drop) && Older(Next(a, drop).s, cutoff) == {}
      && (InOrder(a.s, cutoff) ==> Next(Next(a, drop), Advance(cutoff)).s.prunedThrough >= cutoff)
  {
    WithoutOlder(a.s, cutoff);
    hide InOrder, RowPrunable, WithoutRows, AdvancePruned, Apply, Recompute, Aligned;
  }

  /**
   Retention keeps pace: in every reachable store, with the minutes of its older rows clean, all rows scheduled
   and sent before a cutoff may go, and the watermark then rises to it unless a row sent before was scheduled
   later.
   */
  lemma OldRowsCanGo(steps: seq<Step>, cutoff: int)
    requires Legal(steps) && Aligned(cutoff, MINUTE)
    requires var s := After(steps).s;
      forall k <- Older(s, cutoff) :: MinuteOf(s.tables.rows[k].target, s.tables.rows[k].scheduled) !in s.dirty
    ensures var a := After(steps); var drop := DropRows(Older(a.s, cutoff), cutoff);
      && Allowed(a, drop) && Older(Next(a, drop).s, cutoff) == {}
      && (InOrder(a.s, cutoff) ==> Next(Next(a, drop), Advance(cutoff)).s.prunedThrough >= cutoff)
  {
    var a := After(steps);
    NothingIsLost(steps);
    hide Legal, After, Aligned, Coherent, InOrder, MinuteOf, RowPrunable, Older, Allowed, Next;
    forall k | k in Older(a.s, cutoff)
      ensures RowPrunable(a.s, k, cutoff)
    {
      OlderIsPrunable(a, k, cutoff);
    }
    OlderMayGo(a, cutoff);
  }

  lemma SlotsAscend(g: Gap, i: nat)
    requires i < g.count
    ensures g.first <= g.first + i * g.step <= g.Last()
  {
    Scales(0, i, g.step);
    Scales(i, g.count - 1, g.step);
  }

  lemma MinuteWithin(x: int, at: int)
    requires Aligned(at, MINUTE)
    ensures Floor(x, MINUTE) <= at <==> x < at + MINUTE
    ensures at <= Floor(x, MINUTE) <==> at <= x
  {
    hide Aligned, Floor;
    if at + MINUTE <= x {
      NextAligned(at, MINUTE);
      if Floor(x, MINUTE) < at + MINUTE {
        Ordered(Floor(x, MINUTE), at + MINUTE, MINUTE);
      }
    }
    if at <= x && Floor(x, MINUTE) < at {
      Ordered(Floor(x, MINUTE), at, MINUTE);
    }
    if x < at + MINUTE && at < Floor(x, MINUTE) {
      Ordered(at, Floor(x, MINUTE), MINUTE);
    }
  }

  /**
   A gap may go exactly when all its slots are older than the cutoff and no minute of its target from the one
   of its first slot to the one of its last is dirty.
   */
  lemma GapPrunableIff(s: State, k: nat, cutoff: int)
    requires k in s.tables.gaps && s.tables.gaps[k].count > 0 && forall m <- s.dirty :: Aligned(m.at, MINUTE)
    ensures var g := s.tables.gaps[k];
      GapPrunable(s, k, cutoff) <==>
        && (forall i: nat | i < g.count :: g.first + i * g.step < cutoff)
        && (forall m <- s.dirty | m.target == g.target ::
              m.at > g.first + (g.count - 1) * g.step || m.at + MINUTE <= g.first)
  {
    var g := s.tables.gaps[k];
    forall i: nat | i < g.count
      ensures g.first + i * g.step <= g.Last()
    {
      SlotsAscend(g, i);
    }
    forall m | m in s.dirty
      ensures Floor(g.first, MINUTE) <= m.at <= Floor(g.Last(), MINUTE)
         <==> g.first < m.at + MINUTE && m.at <= g.Last()
    {
      MinuteWithin(g.first, m.at);
      MinuteWithin(g.Last(), m.at);
    }
  }

  /**
   A dirty minute that is over and has no probe waiting is clean after its recomputation and has a rollup; any
   other one is left as it was.
   */
  lemma MinuteRolls(s: State, m: Minute, asOf: int)
    ensures var s' := Recompute(s, m, asOf);
      var waiting := exists k <- s.tables.rows ::
        var r := s.tables.rows[k];
        && r.target == m.target && m.at <= r.scheduled < m.at + MINUTE
        && !r.sendError && r.reply.None? && r.sent + r.timeout / 1000 > asOf;
      if m.at + 60_000_000 <= asOf && !waiting then s'.dirty == s.dirty - {m} && m in s'.rollups else s' == s
  {
    hide Raw;
  }
}
