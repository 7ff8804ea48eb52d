/**
 Rollups and retention. A ghost history keeps every row and gap ever applied, with its replies. Every
 minute either still has all of it in the raw tables, or has a clean rollup that aggregates all of it.
 */
module Coherence {
  import opened Common
  import opened PingAggregate
  import opened RawAggregate
  import opened TimeGrid
  import opened PingRollups
  import opened SampleStore
  import opened Overview

  /** The store with its full history, the highest raw cutoff and the latest clock of a rollup so far. */
  datatype Audit = Audit(s: State, history: Tables, cutoff: int, clock: int)

  datatype Step =
    | Write(event: Event)
    | Roll(minute: Minute, asOf: int)
    | DropRows(keys: set<ProbeKey>, cutoff: int)
    | DropGaps(ids: set<nat>, cutoff: int)
    | Advance(cutoff: int)

  // ---------- what a step demands ----------

  /** The minutes whose counts a write changes. */
  function TouchedBy(s: State, e: Event): set<Minute> {
    match e
    case Sent(_, _, _, _, _, _, _) => {MinuteOf(e.target, e.scheduled)}
    case Replied(k, reply) =>
      if k in s.tables.rows && s.tables.rows[k].address == reply.responder && s.tables.rows[k].reply.None? then
        {MinuteOf(s.tables.rows[k].target, s.tables.rows[k].scheduled)}
      else {}
    case Missing(_, _, _, _) => Marks(e.target, Floor(e.firstNanos / 1000, MINUTE), Floor(LastMissed(e), MINUTE))
  }

  /** As far as the store can tell, nothing of the minute has been pruned: it is dirty, or its rollup is
      what recomputing it would store. */
  ghost predicate Intact(s: State, m: Minute) {
    var q := Raw(s.tables, Span(m), None);
    m in s.dirty || if m in s.rollups then s.rollups[m] == Store(q.agg) else q == EMPTY
  }

  // A write to minutes of which nothing has been pruned.
  ghost predicate Safe(s: State, e: Event) {
    forall m <- TouchedBy(s, e) :: Intact(s, m)
  }

  // Probes are never sent twice.
  predicate Fresh(a: Audit, e: Event) {
    e.Sent? ==> e.key !in a.history.rows
  }

  // A write that concerns only minutes at or after the raw cutoff.
  predicate Recent(a: Audit, e: Event) {
    match e
    case Sent(_, _, _, _, _, _, _) => e.scheduled >= a.cutoff
    case Replied(_, _) => e.key in a.s.tables.rows ==> a.s.tables.rows[e.key].scheduled >= a.cutoff
    case Missing(_, _, _, _) => e.firstNanos / 1000 >= a.cutoff
  }

  ghost predicate Allowed(a: Audit, step: Step) {
    match step
    case Write(e) => Fresh(a, e) && (Apply(a.s, e).Some? ==> Safe(a.s, e))
    case Roll(m, _) => m in a.s.dirty
    case DropRows(ks, cutoff) =>
      Aligned(cutoff, MINUTE) && forall k <- ks :: k in a.s.tables.rows && RowPrunable(a.s, k, cutoff)
    case DropGaps(ks, cutoff) =>
      Aligned(cutoff, MINUTE) && forall k <- ks :: k in a.s.tables.gaps && GapPrunable(a.s, k, cutoff)
    case Advance(_) => true
  }

  // ---------- what a step does ----------

  ghost function Remember(history: Tables, s: State, s': State, e: Event): Tables {
    match e
    case Missing(_, _, _, _) =>
      if s.nextGap in s'.tables.gaps
      then history.(gaps := history.gaps[s.nextGap := s'.tables.gaps[s.nextGap]])
      else history
    case _ =>
      if e.key in s'.tables.rows then history.(rows := history.rows[e.key := s'.tables.rows[e.key]]) else history
  }

  ghost function Next(a: Audit, step: Step): Audit {
    match step
    case Write(e) =>
      (match Apply(a.s, e)
       case None => a
       case Some(s') => a.(s := s', history := Remember(a.history, a.s, s', e)))
    case Roll(m, asOf) => a.(s := Recompute(a.s, m, asOf), clock := Max(a.clock, asOf))
    case DropRows(ks, cutoff) => a.(s := WithoutRows(a.s, ks), cutoff := Max(a.cutoff, cutoff))
    case DropGaps(ks, cutoff) => a.(s := WithoutGaps(a.s, ks), cutoff := Max(a.cutoff, cutoff))
    case Advance(cutoff) => a.(s := AdvancePruned(a.s, cutoff))
  }

  const ORIGIN: Audit := Audit(START, Tables(map[], map[]), 0, 0)

  ghost function After(steps: seq<Step>): Audit {
    if steps == [] then ORIGIN else Next(After(steps[..|steps| - 1]), steps[|steps| - 1])
  }

  ghost predicate Legal(steps: seq<Step>) {
    steps == [] || (Legal(steps[..|steps| - 1]) && Allowed(After(steps[..|steps| - 1]), steps[|steps| - 1]))
  }

  // ---------- the invariant ----------

  ghost predicate HasRow(m: Minute, r: Row) { Covers(Span(m), r) }

  ghost predicate HasSlot(m: Minute, g: Gap) {
    g.target == m.target && Missed(g, m.at, m.at + MINUTE) > 0
  }

  /** Everything that ever counted in the minute is still in the raw tables. */
  ghost predicate Whole(a: Audit, m: Minute) {
    && (forall k <- a.history.rows :: HasRow(m, a.history.rows[k]) ==> k in a.s.tables.rows)
    && (forall k <- a.history.gaps :: HasSlot(m, a.history.gaps[k]) ==> k in a.s.tables.gaps)
  }

  ghost function Full(a: Audit, m: Minute): Query { Raw(a.history, Span(m), None) }

  /** The rollup aggregates everything that ever counted in the minute, and nothing there is pending. */
  ghost predicate Rolled(a: Audit, m: Minute) {
    && (if m in a.s.rollups then a.s.rollups[m] == Store(Full(a, m).agg) else Full(a, m) == EMPTY)
    && (forall k <- a.history.rows :: HasRow(m, a.history.rows[k]) ==> !a.history.rows[k].Pending(a.clock))
  }

  ghost predicate Kept(a: Audit, m: Minute) {
    && (m in a.s.dirty ==> Whole(a, m))
    && (m !in a.s.dirty ==> Rolled(a, m))
    && (m.at >= a.cutoff ==> Whole(a, m))
  }

  // The raw tables hold a part of the history, unchanged.
  ghost predicate Remembered(t: Tables, history: Tables) {
    && (forall k <- t.rows :: k in history.rows && history.rows[k] == t.rows[k])
    && (forall k <- t.gaps :: k in history.gaps && history.gaps[k] == t.gaps[k])
  }

  ghost predicate Based(a: Audit) {
    Remembered(a.s.tables, a.history) && forall k <- a.history.gaps :: k < a.s.nextGap
  }

  ghost predicate Coherent(a: Audit) {
    && Based(a) && Aligned(a.cutoff, MINUTE)
    && (forall m <- a.s.rollups :: Aligned(m.at, MINUTE))
    && (forall m <- a.s.dirty :: Aligned(m.at, MINUTE))
    && (forall m: Minute | Aligned(m.at, MINUTE) :: Kept(a, m))
  }

  // ---------- aggregates that agree ----------

  lemma WholeIsFull(a: Audit, m: Minute)
    requires Remembered(a.s.tables, a.history) && Whole(a, m)
    ensures Raw(a.s.tables, Span(m), None) == Full(a, m)
  {
    hide Raw, OfRow, Missed, Covers;
    SameAggregate(a.s.tables, a.history, Span(m), None);
  }

  // ---------- what recomputing stores ----------

  function Weight(q: Query): nat { q.agg.tally.scheduled }

  lemma WeightAdds(a: Query, b: Query)
    ensures Weight(Merge(a, b)) == Weight(a) + Weight(b)
  {
    hide AddRtts, AddTimeouts;
  }

  lemma {:induction false} TotalWeight<K(!new)>(a: map<K, Query>, b: map<K, Query>, more: set<K>)
    requires AllValid(b) && b.Keys == a.Keys + more && a.Keys !! more && forall k <- a :: a[k] == b[k]
    ensures Weight(Total(a)) <= Weight(Total(b))
    ensures Weight(Total(a)) == Weight(Total(b)) ==> forall k <- more :: Weight(b[k]) == 0
    decreases more
  {
    hide Merge, Total, Query.Valid, Weight;
    if more == {} {
      assert a == b;
    } else {
      var k := Pick(more);
      TotalWeight(a, b - {k}, more - {k});
      TotalTakes(b, k);
      WeightAdds(b[k], Total(b - {k}));
    }
  }

  lemma PartWeights(t: Tables, m: Minute)
    ensures forall k <- t.rows :: Weight(OfRow(t.rows[k], Span(m), None)) == if HasRow(m, t.rows[k]) then 1 else 0
    ensures forall k <- t.gaps :: Weight(OfGap(t.gaps[k], Span(m))) > 0 <==> HasSlot(m, t.gaps[k])
  {
    hide Covers, Missed;
  }

  lemma WeightStored(q: Query, q': Query)
    requires Weight(q) < Weight(q')
    ensures Store(q.agg) != Store(q'.agg)
  {
  }

  /**
   Recomputing a minute stores the aggregate of all it ever had if and only if nothing of it has been
   pruned from the raw tables.
   */
  lemma RecomputeExactIff(a: Audit, m: Minute)
    requires Remembered(a.s.tables, a.history)
    ensures Store(Raw(a.s.tables, Span(m), None).agg) == Store(Full(a, m).agg) <==> Whole(a, m)
  {
    hide Merge, Total, OfRow, OfGap, HasRow, HasSlot, Weight, AllValid, Span;
    var t, u, w := a.s.tables, a.history, Span(m);
    if Whole(a, m) {
      WholeIsFull(a, m);
    } else {
      RowPartsValid(u.rows, w, None);
      GapPartsValid(u.gaps, w);
      PartWeights(u, m);
      var r, r' := RowParts(t.rows, w, None), RowParts(u.rows, w, None);
      var g, g' := GapParts(t.gaps, w), GapParts(u.gaps, w);
      TotalWeight(r, r', u.rows.Keys - t.rows.Keys);
      TotalWeight(g, g', u.gaps.Keys - t.gaps.Keys);
      WeightAdds(Total(r), Total(g));
      WeightAdds(Total(r'), Total(g'));
      assert Weight(Raw(t, w, None)) < Weight(Raw(u, w, None));
      WeightStored(Raw(t, w, None), Raw(u, w, None));
    }
  }

  // ---------- what each step keeps ----------

  // The same row but for the number of duplicate replies.
  ghost predicate SameOutcome(r: Row, r': Row) { r' == r.(duplicates := r'.duplicates) }

  // A write that leaves a minute alone.
  ghost predicate Spares(h: Tables, h': Tables, m: Minute) {
    && (forall k <- h'.rows ::
          if k in h.rows && HasRow(m, h.rows[k]) then SameOutcome(h.rows[k], h'.rows[k]) else !HasRow(m, h'.rows[k]))
    && (forall k <- h'.gaps :: k !in h.gaps ==> !HasSlot(m, h'.gaps[k]))
  }

  /** What a write does to the history and the tables when it touches the minutes of `touched`. */
  ghost predicate Wrote(a: Audit, b: Audit, touched: set<Minute>) {
    && a.s.rollups == b.s.rollups && a.cutoff == b.cutoff && a.clock == b.clock && a.s.nextGap <= b.s.nextGap
    && b.s.dirty == a.s.dirty + touched
    && a.s.tables.rows.Keys <= b.s.tables.rows.Keys && a.s.tables.gaps.Keys <= b.s.tables.gaps.Keys
    && a.history.rows.Keys <= b.history.rows.Keys && a.history.gaps.Keys <= b.history.gaps.Keys
    && (forall k <- a.history.gaps :: b.history.gaps[k] == a.history.gaps[k])
    && (forall k <- b.history.rows | k !in a.history.rows :: k in b.s.tables.rows)
    && (forall k <- b.history.gaps | k !in a.history.gaps :: k in b.s.tables.gaps && k < b.s.nextGap)
    && (forall k <- b.s.tables.rows | k !in a.s.tables.rows :: k !in a.history.rows)
    && (forall k <- b.s.tables.gaps | k !in a.s.tables.gaps :: k !in a.history.gaps)
    && (forall m <- touched :: Aligned(m.at, MINUTE))
    && (forall k <- a.history.rows, m :: HasRow(m, b.history.rows[k]) <==> HasRow(m, a.history.rows[k]))
    && (forall m: Minute | Aligned(m.at, MINUTE) && m !in touched :: Spares(a.history, b.history, m))
    && Remembered(b.s.tables, b.history)
  }

  lemma OutcomeCounts(r: Row, r': Row, m: Minute)
    requires if HasRow(m, r) then SameOutcome(r, r') else !HasRow(m, r')
    ensures OfRow(r, Span(m), None) == OfRow(r', Span(m), None)
  {
  }

  lemma SparedAggregate(h: Tables, h': Tables, m: Minute)
    requires Spares(h, h', m) && h.rows.Keys <= h'.rows.Keys && h.gaps.Keys <= h'.gaps.Keys
    requires forall k <- h.gaps :: h'.gaps[k] == h.gaps[k]
    ensures Raw(h, Span(m), None) == Raw(h', Span(m), None)
  {
    hide Raw, Missed, Covers;
    forall k | k in h.rows
      ensures OfRow(h.rows[k], Span(m), None) == OfRow(h'.rows[k], Span(m), None)
    {
      OutcomeCounts(h.rows[k], h'.rows[k], m);
    }
    SameAggregate(h, h', Span(m), None);
  }

  lemma SparedPending(a: Audit, b: Audit, m: Minute)
    requires Spares(a.history, b.history, m) && a.clock == b.clock
    requires forall k <- a.history.rows :: HasRow(m, a.history.rows[k]) ==> !a.history.rows[k].Pending(a.clock)
    ensures forall k <- b.history.rows :: HasRow(m, b.history.rows[k]) ==> !b.history.rows[k].Pending(b.clock)
  {
    hide HasRow, HasSlot;
  }

  // What was kept survives a write: in the minutes it touches if they were whole, and in all others.
  lemma WriteKeeps(a: Audit, b: Audit, touched: set<Minute>, m: Minute)
    requires Wrote(a, b, touched) && Kept(a, m) && Aligned(m.at, MINUTE)
    ensures Kept(b, m) <==> (m in touched ==> Whole(a, m))
  {
    hide Raw, Store, HasRow, HasSlot, Aligned, Remembered;
    if m in touched {
      assert Whole(b, m) <==> Whole(a, m);
    } else {
      assert Spares(a.history, b.history, m);
      assert Full(a, m) == Full(b, m) by {
        SparedAggregate(a.history, b.history, m);
      }
      assert Whole(a, m) ==> Whole(b, m);
      if m !in a.s.dirty {
        SparedPending(a, b, m);
      }
    }
  }

  lemma HasRowIff(m: Minute, r: Row)
    requires Aligned(m.at, MINUTE)
    ensures HasRow(m, r) <==> m == MinuteOf(r.target, r.scheduled)
  {
    FloorUnique(r.scheduled, m.at, MINUTE);
  }

  lemma {:induction false} MarksExactly(target: int, at: int, last: int, m: Minute)
    requires Aligned(at, MINUTE) && Aligned(last, MINUTE) && Aligned(m.at, MINUTE)
    ensures m in Marks(target, at, last) <==> m.target == target && at <= m.at <= last
    decreases last - at
  {
    hide Aligned;
    if at <= last {
      NextAligned(at, MINUTE);
      MarksExactly(target, at + MINUTE, last, m);
      if at < m.at {
        Ordered(at, m.at, MINUTE);
      }
    }
  }

  lemma {:induction false} MarksAligned(target: int, at: int, last: int)
    requires Aligned(at, MINUTE)
    ensures forall m <- Marks(target, at, last) :: Aligned(m.at, MINUTE)
    decreases last - at
  {
    hide Aligned;
    if at <= last {
      NextAligned(at, MINUTE);
      MarksAligned(target, at + MINUTE, last);
    }
  }

  // A gap has slots only in the minutes from its first to its last.
  lemma SlotBetween(g: Gap, m: Minute)
    requires HasSlot(m, g) && Aligned(m.at, MINUTE)
    ensures Floor(g.first, MINUTE) <= m.at <= Floor(g.Last(), MINUTE) && g.Last() >= m.at
  {
    hide Aligned, Floor, Missed;
    if g.Last() < m.at || g.first >= m.at + MINUTE {
      MissedNothing(g, m.at, m.at + MINUTE);
    }
    FloorUnique(m.at, m.at, MINUTE);
    FirstBucket(m.at, g.Last(), MINUTE);
    if Floor(g.first, MINUTE) > m.at {
      Ordered(m.at, Floor(g.first, MINUTE), MINUTE);
    }
  }

  lemma AnswerStays(r: Row, reply: Reply)
    ensures var x := Answer(r, reply);
            x.target == r.target && x.scheduled == r.scheduled && x.address == r.address
  {
  }

  // A probe whose row is new, with the reply that waited for it if there was one.
  lemma SentRow(a: Audit, e: Event, b: Audit)
    requires e.Sent? && InsertProbe(a.s, e).Some? && b == Next(a, Write(e))
    ensures e.key in b.s.tables.rows
    ensures var r := b.s.tables.rows[e.key];
            && r.target == e.target && r.scheduled == e.scheduled
            && b.s.tables == a.s.tables.(rows := a.s.tables.rows[e.key := r])
            && b.history == a.history.(rows := a.history.rows[e.key := r])
    ensures b.s.dirty == a.s.dirty + {MinuteOf(e.target, e.scheduled)} && b.s.rollups == a.s.rollups
    ensures b.s.nextGap == a.s.nextGap && b.cutoff == a.cutoff && b.clock == a.clock
  {
    hide MinuteOf;
    var r0 := NewRow(e);
    if e.key in a.s.orphans {
      AnswerStays(r0, a.s.orphans[e.key]);
      var s1 := a.s.(tables := a.s.tables.(rows := a.s.tables.rows[e.key := r0]),
                     dirty := a.s.dirty + {MinuteOf(e.target, e.scheduled)});
      var s2 := ApplyReply(s1, e.key, a.s.orphans[e.key]);
      assert s2.tables.rows == a.s.tables.rows[e.key := Answer(r0, a.s.orphans[e.key])];
      assert s2.dirty == s1.dirty;
    }
  }

  lemma MinuteAligned(target: int, at: int)
    ensures Aligned(MinuteOf(target, at).at, MINUTE)
  {
  }

  lemma SentWrites(a: Audit, e: Event)
    requires e.Sent? && Based(a) && Fresh(a, e) && InsertProbe(a.s, e).Some?
    ensures Wrote(a, Next(a, Write(e)), TouchedBy(a.s, e))
  {
    hide HasRow, HasSlot, Answer, Floor, Aligned, Next;
    var b, t := Next(a, Write(e)), MinuteOf(e.target, e.scheduled);
    SentRow(a, e, b);
    var r := b.s.tables.rows[e.key];
    forall m: Minute | Aligned(m.at, MINUTE)
      ensures HasRow(m, r) <==> m == t
    {
      HasRowIff(m, r);
    }
    MinuteAligned(e.target, e.scheduled);
  }

  // A reply without a row touches no table.
  lemma ReplyUnseen(a: Audit, e: Event)
    requires e.Replied? && Based(a) && Receive(a.s, e).Some? && e.key !in a.s.tables.rows
    ensures Wrote(a, Next(a, Write(e)), {})
  {
    hide HasRow, HasSlot, Aligned;
  }

  // A reply whose row exists: only a first genuine reply changes more than the duplicates.
  lemma ReplyRow(a: Audit, e: Event, b: Audit)
    requires e.Replied? && e.key in a.s.tables.rows && b == Next(a, Write(e))
    ensures e.key in b.s.tables.rows
    ensures var r, r' := a.s.tables.rows[e.key], b.s.tables.rows[e.key];
            && r.target == r'.target && r.scheduled == r'.scheduled
            && b.s.tables == a.s.tables.(rows := a.s.tables.rows[e.key := r'])
            && b.history == a.history.(rows := a.history.rows[e.key := r'])
            && (TouchedBy(a.s, e) == {MinuteOf(r.target, r.scheduled)}
                || (TouchedBy(a.s, e) == {} && SameOutcome(r, r')))
    ensures b.s.dirty == a.s.dirty + TouchedBy(a.s, e)
    ensures b.s.rollups == a.s.rollups && b.s.nextGap == a.s.nextGap && b.cutoff == a.cutoff && b.clock == a.clock
  {
    hide MinuteOf;
    var r := a.s.tables.rows[e.key];
    assert a.s.tables.rows[e.key := r] == a.s.tables.rows;
  }

  lemma SameMinute(r: Row, r': Row)
    requires r.target == r'.target && r.scheduled == r'.scheduled
    ensures forall m :: HasRow(m, r) <==> HasRow(m, r')
    ensures forall m: Minute | Aligned(m.at, MINUTE) :: HasRow(m, r) <==> m == MinuteOf(r.target, r.scheduled)
  {
    hide Aligned;
    forall m: Minute | Aligned(m.at, MINUTE)
      ensures HasRow(m, r) <==> m == MinuteOf(r.target, r.scheduled)
    {
      HasRowIff(m, r);
    }
  }

  lemma NothingTouched(s: State, e: Event)
    requires e.Replied? && e.key !in s.tables.rows
    ensures TouchedBy(s, e) == {}
  {
  }

  lemma SameItself(r: Row)
    ensures SameOutcome(r, r)
  {
  }

  lemma ReplyWrites(a: Audit, e: Event)
    requires e.Replied? && Based(a) && Receive(a.s, e).Some?
    ensures Wrote(a, Next(a, Write(e)), TouchedBy(a.s, e))
  {
    hide HasRow, HasSlot, Floor, Aligned, SameOutcome, Next, TouchedBy, MinuteOf;
    var b := Next(a, Write(e));
    if e.key !in a.s.tables.rows {
      ReplyUnseen(a, e);
      NothingTouched(a.s, e);
    } else {
      var r := a.s.tables.rows[e.key];
      ReplyRow(a, e, b);
      SameMinute(r, b.s.tables.rows[e.key]);
      MinuteAligned(r.target, r.scheduled);
      forall x
        ensures SameOutcome(x, x)
      {
        SameItself(x);
      }
    }
  }

  lemma SlotTarget(m: Minute, g: Gap)
    requires HasSlot(m, g)
    ensures m.target == g.target
  {
  }

  // The stored last slot is no later than the true one.
  lemma LastBefore(e: Event)
    requires e.Missing? && e.count > 0 && e.intervalNanos > 0
    ensures NewGap(e).Last() <= LastMissed(e)
  {
    var n, d := e.count - 1, e.intervalNanos;
    assert d / 1000 * 1000 <= d;
    Scales(d / 1000 * 1000, d, n);
    assert n * (d / 1000 * 1000) == n * (d / 1000) * 1000;
    assert e.firstNanos / 1000 * 1000 <= e.firstNanos;
  }

  lemma GapWrites(a: Audit, e: Event)
    requires e.Missing? && Based(a) && InsertGap(a.s, e).Some?
    ensures Wrote(a, Next(a, Write(e)), TouchedBy(a.s, e))
  {
    hide HasRow, HasSlot, Floor, Aligned, Marks, LastMissed;
    var b := Next(a, Write(e));
    var first, last := Floor(e.firstNanos / 1000, MINUTE), Floor(LastMissed(e), MINUTE);
    var g := NewGap(e);
    LastBefore(e);
    FirstBucket(g.Last(), LastMissed(e), MINUTE);
    MarksAligned(e.target, first, last);
    forall m: Minute | Aligned(m.at, MINUTE) && HasSlot(m, g)
      ensures m in Marks(e.target, first, last)
    {
      MarksExactly(e.target, first, last, m);
      SlotBetween(g, m);
      SlotTarget(m, g);
    }
    forall x
      ensures SameOutcome(x, x)
    {
      SameItself(x);
    }
  }

  // What was decided stays decided.
  lemma Later(a: Audit, m: Minute, clock: int)
    requires Rolled(a, m) && a.clock <= clock
    ensures forall k <- a.history.rows :: HasRow(m, a.history.rows[k]) ==> !a.history.rows[k].Pending(clock)
  {
    hide Raw, Store, HasRow;
  }

  lemma DecidedAt(a: Audit, m: Minute, asOf: int, clock: int)
    requires Remembered(a.s.tables, a.history) && Whole(a, m) && Ready(a.s, m, asOf) && asOf <= clock
    ensures forall k <- a.history.rows :: HasRow(m, a.history.rows[k]) ==> !a.history.rows[k].Pending(clock)
  {
    hide HasSlot, Covers;
  }

  lemma RollKeeps(a: Audit, r: Minute, asOf: int, m: Minute)
    requires Coherent(a) && r in a.s.dirty && Aligned(m.at, MINUTE)
    ensures Kept(Next(a, Roll(r, asOf)), m)
  {
    hide Raw, Store, HasRow, HasSlot, Aligned, Remembered;
    var b := Next(a, Roll(r, asOf));
    assert Kept(a, m) && Kept(a, r) && b.history == a.history;
    assert Whole(a, m) ==> Whole(b, m);
    if m == r && Ready(a.s, r, asOf) {
      WholeIsFull(a, r);
      DecidedAt(a, r, asOf, b.clock);
    } else if m !in a.s.dirty {
      Later(a, m, b.clock);
    }
  }

  lemma Starts(m: Minute, r: Row)
    requires HasRow(m, r)
    ensures m.at <= r.scheduled
  {
  }

  lemma DropRowsKeeps(a: Audit, ks: set<ProbeKey>, cutoff: int, m: Minute)
    requires Coherent(a) && Allowed(a, DropRows(ks, cutoff)) && Aligned(m.at, MINUTE)
    ensures Kept(Next(a, DropRows(ks, cutoff)), m)
  {
    hide Raw, Store, HasSlot, Aligned, HasRow, MinuteOf;
    var b := Next(a, DropRows(ks, cutoff));
    assert Kept(a, m);
    forall k | k in a.history.rows && k in ks && HasRow(m, a.history.rows[k])
      ensures m !in b.s.dirty && m.at < b.cutoff
    {
      HasRowIff(m, a.history.rows[k]);
      assert RowPrunable(a.s, k, cutoff);
      Starts(m, a.history.rows[k]);
    }
    assert m in b.s.dirty || m.at >= b.cutoff ==> Whole(b, m);
  }

  lemma DropGapsKeeps(a: Audit, ks: set<nat>, cutoff: int, m: Minute)
    requires Coherent(a) && Allowed(a, DropGaps(ks, cutoff)) && Aligned(m.at, MINUTE)
    ensures Kept(Next(a, DropGaps(ks, cutoff)), m)
  {
    hide Raw, Store, HasSlot, Aligned, HasRow, Floor;
    var b := Next(a, DropGaps(ks, cutoff));
    assert Kept(a, m);
    forall k | k in a.history.gaps && k in ks && HasSlot(m, a.history.gaps[k])
      ensures m !in b.s.dirty && m.at < b.cutoff
    {
      assert GapPrunable(a.s, k, cutoff);
      SlotBetween(a.history.gaps[k], m);
      SlotTarget(m, a.history.gaps[k]);
    }
    assert m in b.s.dirty || m.at >= b.cutoff ==> Whole(b, m);
  }

  lemma EventWrites(a: Audit, e: Event)
    requires Based(a) && Fresh(a, e) && Apply(a.s, e).Some?
    ensures Wrote(a, Next(a, Write(e)), TouchedBy(a.s, e))
  {
    hide Based, Wrote, TouchedBy, InsertProbe, InsertGap, Receive, Next;
    match e
    case Sent(_, _, _, _, _, _, _) => SentWrites(a, e);
    case Replied(_, _) => ReplyWrites(a, e);
    case Missing(_, _, _, _) => GapWrites(a, e);
  }

  // What of a write does not depend on single minutes.
  lemma WrittenFrame(a: Audit, b: Audit, touched: set<Minute>)
    requires Coherent(a) && Wrote(a, b, touched)
    ensures Based(b) && Aligned(b.cutoff, MINUTE)
    ensures forall m <- b.s.rollups :: Aligned(m.at, MINUTE)
    ensures forall m <- b.s.dirty :: Aligned(m.at, MINUTE)
  {
    hide Kept, Aligned, HasRow, HasSlot, Spares, Remembered;
  }

  lemma TouchedAligned(a: Audit, b: Audit, touched: set<Minute>)
    requires Wrote(a, b, touched)
    ensures forall m <- touched :: Aligned(m.at, MINUTE)
  {
  }

  lemma WriteCoheresIffWhole(a: Audit, b: Audit, touched: set<Minute>)
    requires Coherent(a) && Wrote(a, b, touched)
    ensures Coherent(b) <==> forall m <- touched :: Whole(a, m)
  {
    hide Kept, Aligned, Whole, Wrote, Based;
    WrittenFrame(a, b, touched);
    TouchedAligned(a, b, touched);
    forall m: Minute | Aligned(m.at, MINUTE)
      ensures Kept(b, m) <==> (m in touched ==> Whole(a, m))
    {
      WriteKeeps(a, b, touched, m);
    }
  }

  lemma BasedRemembers(a: Audit)
    requires Based(a)
    ensures Remembered(a.s.tables, a.history)
  {
  }

  /** In a coherent store the store itself shows whether a minute is whole. */
  lemma WholeIffIntact(a: Audit, m: Minute)
    requires Coherent(a) && Aligned(m.at, MINUTE)
    ensures Whole(a, m) <==> Intact(a.s, m)
  {
    hide Whole, Raw, Store, Based, HasRow;
    assert Kept(a, m);
    BasedRemembers(a);
    if m !in a.s.dirty {
      RecomputeExactIff(a, m);
      if Whole(a, m) {
        WholeIsFull(a, m);
      }
    }
  }

  lemma CoherentIsBased(a: Audit)
    requires Coherent(a)
    ensures Based(a)
  {
  }

  /**
   A write keeps the store coherent with its history if and only if none of the minutes it touches has
   lost anything to pruning, which can be read off the store before the write.
   */
  lemma WriteCoheresIffSafe(a: Audit, e: Event)
    requires Coherent(a) && Fresh(a, e) && Apply(a.s, e).Some?
    ensures Coherent(Next(a, Write(e))) <==> Safe(a.s, e)
  {
    hide Kept, Aligned, Whole, Wrote, Based, Intact, TouchedBy, Next, Apply, Coherent;
    CoherentIsBased(a);
    EventWrites(a, e);
    var b, touched := Next(a, Write(e)), TouchedBy(a.s, e);
    TouchedAligned(a, b, touched);
    WriteCoheresIffWhole(a, b, touched);
    forall m | m in touched
      ensures Whole(a, m) <==> Intact(a.s, m)
    {
      WholeIffIntact(a, m);
    }
  }

  lemma RecentWhole(a: Audit, m: Minute)
    requires Kept(a, m) && m.at >= a.cutoff
    ensures Whole(a, m)
  {
  }

  lemma CutoffFloors(cutoff: int, at: int)
    requires Aligned(cutoff, MINUTE) && cutoff <= at
    ensures cutoff <= Floor(at, MINUTE)
  {
    FirstBucket(cutoff, at, MINUTE);
    FloorUnique(cutoff, cutoff, MINUTE);
  }

  lemma TouchesRecent(a: Audit, e: Event, m: Minute)
    requires Recent(a, e) && m in TouchedBy(a.s, e) && Aligned(a.cutoff, MINUTE) && Aligned(m.at, MINUTE)
    ensures m.at >= a.cutoff
  {
    hide Aligned, Floor, Marks;
    match e
    case Sent(_, _, _, _, _, _, _) => CutoffFloors(a.cutoff, e.scheduled);
    case Replied(k, _) => CutoffFloors(a.cutoff, a.s.tables.rows[k].scheduled);
    case Missing(_, _, _, _) =>
      CutoffFloors(a.cutoff, e.firstNanos / 1000);
      MarksExactly(e.target, Floor(e.firstNanos / 1000, MINUTE), Floor(LastMissed(e), MINUTE), m);
  }

  /** A write that concerns only minutes at or after the raw cutoff is safe. */
  lemma RecentIsSafe(a: Audit, e: Event)
    requires Coherent(a) && Recent(a, e) && Fresh(a, e) && Apply(a.s, e).Some?
    ensures Safe(a.s, e)
  {
    hide Kept, Aligned, Whole, Wrote, Based, Intact, Apply, Next, Floor, Marks, LastMissed, InsertProbe, InsertGap,
      Receive;
    EventWrites(a, e);
    TouchedAligned(a, Next(a, Write(e)), TouchedBy(a.s, e));
    forall m | m in TouchedBy(a.s, e)
      ensures Intact(a.s, m)
    {
      TouchesRecent(a, e, m);
      assert Kept(a, m);
      assert Whole(a, m) by { RecentWhole(a, m); }
      WholeIffIntact(a, m);
    }
  }

  lemma Both(x: int, y: int)
    requires Aligned(x, MINUTE) && Aligned(y, MINUTE)
    ensures Aligned(Max(x, y), MINUTE)
  {
  }

  lemma AdvanceKeeps(a: Audit, cutoff: int, m: Minute)
    requires Kept(a, m)
    ensures Kept(Next(a, Advance(cutoff)), m)
  {
    hide Raw, Store, HasRow, HasSlot;
  }

  /** Every write, recomputation and prune keeps the store coherent with its history. */
  lemma StepCoheres(a: Audit, step: Step)
    requires Coherent(a) && Allowed(a, step)
    ensures Coherent(Next(a, step))
  {
    hide Kept, Aligned, HasRow, HasSlot, Apply, Remember, Recent, RowPrunable, GapPrunable, Raw, Ready, Store;
    var b := Next(a, step);
    match step
    case Write(e) =>
      if Apply(a.s, e).Some? {
        WriteCoheresIffSafe(a, e);
      }
    case Roll(r, asOf) =>
      forall m: Minute | Aligned(m.at, MINUTE)
        ensures Kept(b, m)
      {
        RollKeeps(a, r, asOf, m);
      }
    case DropRows(ks, cutoff) =>
      Both(a.cutoff, cutoff);
      forall m: Minute | Aligned(m.at, MINUTE)
        ensures Kept(b, m)
      {
        DropRowsKeeps(a, ks, cutoff, m);
      }
    case DropGaps(ks, cutoff) =>
      Both(a.cutoff, cutoff);
      forall m: Minute | Aligned(m.at, MINUTE)
        ensures Kept(b, m)
      {
        DropGapsKeeps(a, ks, cutoff, m);
      }
    case Advance(cutoff) =>
      forall m: Minute | Aligned(m.at, MINUTE)
        ensures Kept(b, m)
      {
        AdvanceKeeps(a, cutoff, m);
      }
  }

  lemma OriginCoheres()
    ensures Coherent(ORIGIN)
  {
    forall m: Minute | Aligned(m.at, MINUTE)
      ensures Kept(ORIGIN, m)
    {
      RawOfNothing(ORIGIN.history, Span(m), None);
    }
  }

  /**
   Nothing is lost. After any run of recomputations, prunes and writes to minutes of which nothing has been
   pruned, each minute still has all its rows and gaps in the raw tables, or it is not
   dirty and its rollup aggregates all it ever had.
   */
  lemma {:induction false} NothingIsLost(steps: seq<Step>)
    requires Legal(steps)
    ensures Coherent(After(steps))
    decreases |steps|
  {
    hide Coherent, Allowed, Next;
    if steps == [] {
      OriginCoheres();
    } else {
      NothingIsLost(steps[..|steps| - 1]);
      StepCoheres(After(steps[..|steps| - 1]), steps[|steps| - 1]);
    }
  }

  // A run whose writes concern only minutes at or after the raw cutoff of their time.
  ghost predicate Cautious(steps: seq<Step>) {
    steps == [] ||
    var before, step := steps[..|steps| - 1], steps[|steps| - 1];
    && Cautious(before)
    && if step.Write? then Fresh(After(before), step.event) && Recent(After(before), step.event)
      else Allowed(After(before), step)
  }

  /** With recent writes alone every run is legal, so nothing is lost. */
  lemma {:induction false} CautiousIsLegal(steps: seq<Step>)
    requires Cautious(steps)
    ensures Legal(steps)
  {
    hide After, Coherent, Safe, Recent, Apply;
    if steps != [] {
      var before, step := steps[..|steps| - 1], steps[|steps| - 1];
      CautiousIsLegal(before);
      NothingIsLost(before);
      if step.Write? && Apply(After(before).s, step.event).Some? {
        RecentIsSafe(After(before), step.event);
      }
    }
  }

  lemma WholeOrRolled(steps: seq<Step>, m: Minute)
    requires Legal(steps) && Aligned(m.at, MINUTE)
    ensures Whole(After(steps), m) || (m !in After(steps).s.dirty && Rolled(After(steps), m))
  {
    hide Rolled, Whole, Aligned, Legal, After;
    NothingIsLost(steps);
    assert Kept(After(steps), m);
  }

  // ---------- why writes must be safe ----------

  /** Made dirty after part of it was pruned, a minute loses that part at its next recomputation. */
  lemma LateWriteLoses(a: Audit, m: Minute, asOf: int)
    requires Remembered(a.s.tables, a.history) && m in a.s.dirty && Ready(a.s, m, asOf) && !Whole(a, m)
    ensures var b := Next(a, Roll(m, asOf)); !Whole(b, m) && !Rolled(b, m)
  {
    hide Raw, Store, HasRow, HasSlot, Ready;
    RecomputeExactIff(a, m);
  }

  lemma OneMore(steps: seq<Step>, step: Step)
    ensures After(steps + [step]) == Next(After(steps), step)
    ensures Legal(steps + [step]) <==> Legal(steps) && Allowed(After(steps), step)
  {
    assert (steps + [step])[..|steps + [step]| - 1] == steps;
  }

  // Two probes of the first minute; the second one reaches the store late.
  const EARLY: Event := Sent(ProbeKey(0, 0), 0, 0, 0, 0, 1, false)
  const LATE: Event := Sent(ProbeKey(0, 1), 0, 0, 1, 1, 1, false)
  const FIRST_MINUTE: Minute := Minute(0, 0)

  // The first probe is stored, rolled up and pruned.
  const PRUNED: seq<Step> := [Write(EARLY)] + [Roll(FIRST_MINUTE, MINUTE)] + [DropRows({EARLY.key}, MINUTE)]

  lemma OneProbe(k: ProbeKey, r: Row)
    requires Covers(Span(FIRST_MINUTE), r)
    ensures Raw(Tables(map[k := r], map[]), Span(FIRST_MINUTE), None) == OfProbe(r, None)
  {
    hide Raw, Merge, OfProbe, Query.Valid;
    var none := Tables(map[], map[]);
    RawOfNothing(none, Span(FIRST_MINUTE), None);
    RawAddsRow(none, k, r, Span(FIRST_MINUTE), None);
    assert none.rows[k := r] == map[k := r];
    ProbeValid(r, None);
    EmptyLaws();
    MergeLaws(OfProbe(r, None), EMPTY, EMPTY);
  }

  lemma TwoProbes(j: ProbeKey, q: Row, k: ProbeKey, r: Row)
    requires j != k && Covers(Span(FIRST_MINUTE), q) && Covers(Span(FIRST_MINUTE), r)
    ensures Weight(Raw(Tables(map[j := q, k := r], map[]), Span(FIRST_MINUTE), None)) == 2
  {
    hide Raw, Merge, Query.Valid;
    OneProbe(j, q);
    RawAddsRow(Tables(map[j := q], map[]), k, r, Span(FIRST_MINUTE), None);
    assert map[j := q][k := r] == map[j := q, k := r];
    WeightAdds(OfProbe(q, None), OfProbe(r, None));
  }

  // The first probe stored, and then rolled up.
  ghost function Stored(): Audit {
    var t := Tables(map[EARLY.key := NewRow(EARLY)], map[]);
    ORIGIN.(s := START.(tables := t, dirty := {FIRST_MINUTE}), history := t)
  }

  ghost function RolledUp(): Audit {
    var a := Stored();
    a.(s := a.s.(rollups := map[FIRST_MINUTE := Store(OfProbe(NewRow(EARLY), None).agg)], dirty := {}), clock := MINUTE)
  }

  // A new probe without a waiting reply.
  lemma NewProbe(a: Audit, e: Event)
    requires e.Sent? && e.key !in a.s.tables.rows && e.key !in a.s.orphans
    ensures var t := a.s.tables.(rows := a.s.tables.rows[e.key := NewRow(e)]);
            && Apply(a.s, e) == Some(a.s.(tables := t, dirty := a.s.dirty + {MinuteOf(e.target, e.scheduled)}))
            && Next(a, Write(e)).s == Apply(a.s, e).value
            && Next(a, Write(e)).history == a.history.(rows := a.history.rows[e.key := NewRow(e)])
            && Next(a, Write(e)).cutoff == a.cutoff && Next(a, Write(e)).clock == a.clock
  {
    hide MinuteOf;
  }

  lemma FirstAt(at: int)
    requires 0 <= at < MINUTE
    ensures MinuteOf(0, at) == FIRST_MINUTE
  {
    FloorUnique(at, 0, MINUTE);
  }

  lemma FirstStored()
    ensures Next(ORIGIN, Write(EARLY)) == Stored() && Allowed(ORIGIN, Write(EARLY))
  {
    hide Coherent, Safe, Apply, Next, MinuteOf, Floor;
    OriginCoheres();
    NewProbe(ORIGIN, EARLY);
    FirstAt(0);
    RecentIsSafe(ORIGIN, EARLY);
  }

  lemma FirstRolled()
    ensures Next(Stored(), Roll(FIRST_MINUTE, MINUTE)) == RolledUp() && Allowed(Stored(), Roll(FIRST_MINUTE, MINUTE))
  {
    hide Raw, Store, OfProbe;
    OneProbe(EARLY.key, NewRow(EARLY));
    assert Stored().s.rollups[FIRST_MINUTE := Store(OfProbe(NewRow(EARLY), None).agg)] == RolledUp().s.rollups;
  }

  lemma FirstPrunable()
    ensures RowPrunable(RolledUp().s, EARLY.key, MINUTE)
  {
    hide Store, OfProbe, MinuteOf;
    FirstAt(0);
  }

  lemma FirstDropped()
    ensures Allowed(RolledUp(), DropRows({EARLY.key}, MINUTE))
    ensures var a := Next(RolledUp(), DropRows({EARLY.key}, MINUTE));
            a.s == RolledUp().s.(tables := Tables(map[], map[])) && a.history == RolledUp().history
  {
    hide Store, OfProbe, RowPrunable;
    FirstPrunable();
    assert RolledUp().s.tables.rows - {EARLY.key} == map[];
  }

  lemma NoSteps()
    ensures After([]) == ORIGIN && Legal([])
  {
  }

  // The store after the first probe has been pruned.
  lemma PrunedStore()
    ensures Legal(PRUNED)
    ensures var a := After(PRUNED);
            && a.s == START.(rollups := map[FIRST_MINUTE := Store(OfProbe(NewRow(EARLY), None).agg)])
            && a.history == Tables(map[EARLY.key := NewRow(EARLY)], map[])
  {
    hide Next, Allowed, Raw, Store, OfProbe, After, Legal;
    NoSteps();
    FirstStored();
    FirstRolled();
    FirstDropped();
    OneMore([], Write(EARLY));
    assert [] + [Write(EARLY)] == [Write(EARLY)];
    OneMore([Write(EARLY)], Roll(FIRST_MINUTE, MINUTE));
    OneMore([Write(EARLY)] + [Roll(FIRST_MINUTE, MINUTE)], DropRows({EARLY.key}, MINUTE));
  }

  /**
   A run that loses data: after its first probe has been pruned, a probe stored late for the same minute
   makes the store incoherent, and the next recomputation forgets the first probe.
   */
  lemma LateSendLoses()
    ensures Legal(PRUNED) && !Safe(After(PRUNED).s, LATE) && !Coherent(After(PRUNED + [Write(LATE)]))
    ensures var a := After(PRUNED + [Write(LATE)] + [Roll(FIRST_MINUTE, MINUTE)]);
            && FIRST_MINUTE in a.s.rollups && FIRST_MINUTE !in a.s.dirty
            && a.s.rollups[FIRST_MINUTE].tally.scheduled == 1 && Weight(Full(a, FIRST_MINUTE)) == 2
  {
    hide Raw, After, Legal, Coherent, MinuteOf, Apply;
    PrunedStore();
    NothingIsLost(PRUNED);
    var a, early, late := After(PRUNED), NewRow(EARLY), NewRow(LATE);
    OneMore(PRUNED, Write(LATE));
    OneMore(PRUNED + [Write(LATE)], Roll(FIRST_MINUTE, MINUTE));
    RawOfNothing(START.tables, Span(FIRST_MINUTE), None);
    FirstAt(1);
    NewProbe(a, LATE);
    assert !Intact(a.s, FIRST_MINUTE);
    WriteCoheresIffSafe(a, LATE);
    var b := Next(a, Write(LATE));
    assert b.s.tables == Tables(map[LATE.key := late], map[]);
    assert b.history == Tables(map[EARLY.key := early, LATE.key := late], map[]);
    OneProbe(LATE.key, late);
    TwoProbes(EARLY.key, early, LATE.key, late);
  }

  // ---------- the overview of a reachable store ----------

  function DirtyOf(s: State, target: int): set<int> {
    set m | m in s.dirty && m.target == target :: m.at
  }

  lemma CleanMinute(a: Audit, w: Window, at: int)
    requires Clean(RollupsOf(a.s, w.target), DirtyOf(a.s, w.target), w, at)
    ensures var m := Minute(w.target, at);
            m in a.s.rollups && m !in a.s.dirty && at in RollupsOf(a.s, w.target) && w.from <= at
            && RollupsOf(a.s, w.target)[at] == a.s.rollups[m]
  {
    hide Floor;
    assert Minute(w.target, at) in a.s.dirty ==> at in DirtyOf(a.s, w.target);
  }

  lemma TrustedMinute(a: Audit, w: Window, at: int)
    requires Coherent(a) && a.clock <= w.to && a.cutoff <= at
    requires var m := Minute(w.target, at);
             m in a.s.rollups && m !in a.s.dirty && at in RollupsOf(a.s, w.target)
             && RollupsOf(a.s, w.target)[at] == a.s.rollups[m]
    ensures Trusted(RollupsOf(a.s, w.target), a.s.tables, w, at)
  {
    hide Raw, Store, RollupsOf, Covers, HasSlot, Aligned;
    var m := Minute(w.target, at);
    assert Kept(a, m);
    WholeIsFull(a, m);
    Later(a, m, w.to);
    forall k | k in a.s.tables.rows && Covers(Window(w.target, at, at + MINUTE), a.s.tables.rows[k])
      ensures !a.s.tables.rows[k].Pending(w.to)
    {
      assert HasRow(m, a.history.rows[k]);
    }
  }

  /**
   In every reachable store the overview may trust its clean rollups, for a window that starts after the
   raw cutoff and ends no earlier than the last recomputation.
   */
  lemma ReachableIsTrusted(steps: seq<Step>, w: Window)
    requires Legal(steps) && After(steps).clock <= w.to && After(steps).cutoff <= w.from
    ensures AllTrusted(RollupsOf(After(steps).s, w.target), DirtyOf(After(steps).s, w.target), After(steps).s.tables, w)
  {
    hide Legal, After, Trusted, Kept, Clean, Floor, Aligned, Remembered;
    NothingIsLost(steps);
    var a := After(steps);
    forall at | Clean(RollupsOf(a.s, w.target), DirtyOf(a.s, w.target), w, at)
      ensures Trusted(RollupsOf(a.s, w.target), a.s.tables, w, at)
    {
      CleanMinute(a, w, at);
      TrustedMinute(a, w, at);
    }
  }

  // After the cutoff the raw tables still hold every row and every gap that counts.
  lemma RecentRow(a: Audit, k: ProbeKey)
    requires Coherent(a) && k in a.history.rows && a.cutoff <= a.history.rows[k].scheduled
    ensures k in a.s.tables.rows
  {
    hide Raw, Store, Floor, Aligned, Covers, HasSlot;
    var r := a.history.rows[k];
    var m := MinuteOf(r.target, r.scheduled);
    CutoffFloors(a.cutoff, r.scheduled);
    MinuteAligned(r.target, r.scheduled);
    HasRowIff(m, r);
    assert Kept(a, m);
  }

  lemma RecentGap(a: Audit, k: nat, w: Window)
    requires Coherent(a) && k in a.history.gaps && a.cutoff <= w.from
    requires a.history.gaps[k].target == w.target && Missed(a.history.gaps[k], w.from, w.to) > 0
    ensures k in a.s.tables.gaps
  {
    hide Raw, Store, Floor, Aligned, Covers, HasRow, Rolled;
    var g := a.history.gaps[k];
    assert Slots(g, w.from, w.to) != {};
    var i :| i in Slots(g, w.from, w.to);
    var at := g.first + i * g.step;
    var m := MinuteOf(g.target, at);
    CutoffFloors(a.cutoff, at);
    MinuteAligned(g.target, at);
    assert i in Slots(g, m.at, m.at + MINUTE);
    assert HasSlot(m, g) && Kept(a, m);
  }

  /** A raw scan after the cutoff misses nothing that was ever there. */
  lemma RecentIsWhole(a: Audit, w: Window, asOf: Option<int>)
    requires Coherent(a) && a.cutoff <= w.from
    ensures Raw(a.s.tables, w, asOf) == Raw(a.history, w, asOf)
  {
    hide Raw, Kept, Missed, Aligned, OfRow;
    BasedRemembers(a);
    forall k | k in a.history.rows && k !in a.s.tables.rows
      ensures !Covers(w, a.history.rows[k])
    {
      if Covers(w, a.history.rows[k]) {
        RecentRow(a, k);
      }
    }
    forall k | k in a.history.gaps && k !in a.s.tables.gaps
      ensures !(a.history.gaps[k].target == w.target && Missed(a.history.gaps[k], w.from, w.to) > 0)
    {
      if a.history.gaps[k].target == w.target && Missed(a.history.gaps[k], w.from, w.to) > 0 {
        RecentGap(a, k, w);
      }
    }
    SameAggregate(a.s.tables, a.history, w, asOf);
  }

  lemma {:induction false} TilesBegin(trend: seq<Trend>, from: int, to: int, i: nat)
    requires Tiles(trend, from, to) && i < |trend|
    ensures from <= trend[i].from
  {
    if i > 0 {
      TilesBegin(trend, from, to, i - 1);
    }
  }

  /**
   The overview of a reachable store, for a window after the raw cutoff, is one aggregation of everything
   that was ever scheduled in the window, in total and in every bucket of the trend: pruning and stored
   rollups do not show.
   */
  method OverviewOfAll(ghost steps: seq<Step>, s: State, w: Window, width: int)
    returns (total: Query, trend: seq<Trend>)
    requires w.from < w.to && Aligned(width, MINUTE) && width > 0
    requires Legal(steps) && After(steps).s == s && After(steps).clock <= w.to && After(steps).cutoff <= w.from
    ensures total == Raw(After(steps).history, w, Some(w.to))
    ensures Tiles(trend, w.from, w.to) && Gridded(trend, w, width) && Exact(trend, After(steps).history, w)
  {
    hide Legal, After, AllTrusted, Coherent, Raw, Tiles, Gridded, Aligned, RollupsOf, DirtyOf;
    ReachableIsTrusted(steps, w);
    NothingIsLost(steps);
    total, trend := OverviewPing(s.tables, RollupsOf(s, w.target), DirtyOf(s, w.target), w, width);
    ghost var a := After(steps);
    RecentIsWhole(a, w, Some(w.to));
    forall b | b in trend
      ensures b.ping == Raw(a.history, Window(w.target, b.from, b.to), Some(w.to))
    {
      var i :| 0 <= i < |trend| && trend[i] == b;
      TilesBegin(trend, w.from, w.to, i);
      RecentIsWhole(a, Window(w.target, b.from, b.to), Some(w.to));
    }
  }
}
