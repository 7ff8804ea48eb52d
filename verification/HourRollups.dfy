/**
 Hour rollups. They are merged from minute rollups long after raw rows are gone, so they are as good as
 the minutes are. A run interleaves the steps of `Coherence` with recomputations of hours; a recomputed
 minute marks its hour. Whenever an hour and its minutes are clean, the hour aggregates everything that
 was ever scheduled in it.
 */
module HourRollups {
  import opened Common
  import opened PingAggregate
  import opened RawAggregate
  import opened TimeGrid
  import opened PingRollups
  import opened SampleStore
  import Coherence

  /** The audited store with its hour rollups. */
  datatype Ledger = Ledger(audit: Coherence.Audit, hours: map<Minute, Rollup>, dirtyHours: set<Minute>)

  datatype Step = Minutely(step: Coherence.Step) | RollHour(hour: Minute, asOf: int)

  function HourSpan(h: Minute): Window { Window(h.target, h.at, h.at + HOUR) }

  ghost predicate Allowed(l: Ledger, step: Step) {
    match step
    case Minutely(step) => Coherence.Allowed(l.audit, step)
    case RollHour(h, _) => h in l.dirtyHours
  }

  ghost function Next(l: Ledger, step: Step): Ledger {
    match step
    case Minutely(step) =>
      var marks := if step.Roll? && Ready(l.audit.s, step.minute, step.asOf) then {HourOf(step.minute)} else {};
      Ledger(Coherence.Next(l.audit, step), l.hours, l.dirtyHours + marks)
    case RollHour(h, asOf) =>
      if HourReady(l.audit.s, h, asOf)
      then l.(hours := l.hours[h := Combined(l.audit.s, h)], dirtyHours := l.dirtyHours - {h})
      else l
  }

  ghost function After(steps: seq<Step>): Ledger {
    if steps == [] then Ledger(Coherence.ORIGIN, map[], {})
    else Next(After(steps[..|steps| - 1]), steps[|steps| - 1])
  }

  ghost predicate Legal(steps: seq<Step>) {
    steps == [] || (Legal(steps[..|steps| - 1]) && Allowed(After(steps[..|steps| - 1]), steps[|steps| - 1]))
  }

  // ---------- the invariant ----------

  // A clean hour is what recomputing it again would store; without one, none of its minutes is stored.
  ghost predicate Followed(l: Ledger, h: Minute) {
    h in l.dirtyHours
    || if h in l.hours then l.hours[h] == Combined(l.audit.s, h)
       else forall m <- l.audit.s.rollups :: !InHour(h, m)
  }

  ghost predicate Faithful(l: Ledger) {
    && Coherence.Coherent(l.audit)
    && (forall h <- l.dirtyHours :: Aligned(h.at, HOUR))
    && (forall h <- l.hours :: Aligned(h.at, HOUR))
    && (forall h: Minute | Aligned(h.at, HOUR) :: Followed(l, h))
  }

  lemma InRollups(s: State, m: Minute)
    ensures m.at in RollupsOf(s, m.target) <==> m in s.rollups
    ensures m in s.rollups ==> RollupsOf(s, m.target)[m.at] == s.rollups[m]
  {
  }

  // Only a minute of the hour can change what the hour would store.
  lemma SameCombined(s: State, s': State, h: Minute)
    requires forall m: Minute | InHour(h, m) ::
      (m in s.rollups <==> m in s'.rollups) && (m in s.rollups ==> s.rollups[m] == s'.rollups[m])
    ensures Combined(s, h) == Combined(s', h)
  {
    hide SumRollups, Store, RollupsOf;
    var r, r' := RollupsOf(s, h.target), RollupsOf(s', h.target);
    forall at | h.at <= at < h.at + HOUR
      ensures (at in r <==> at in r') && (at in r ==> r[at] == r'[at])
    {
      var m := Minute(h.target, at);
      InRollups(s, m);
      InRollups(s', m);
      assert InHour(h, m);
    }
    assert Minutes(r, h.at) == Minutes(r', h.at);
  }

  lemma InHourIff(h: Minute, m: Minute)
    requires Aligned(h.at, HOUR)
    ensures InHour(h, m) <==> HourOf(m) == h
  {
    FloorUnique(m.at, h.at, HOUR);
  }

  // ---------- every step keeps it ----------

  lemma WriteKeepsRollups(s: State, e: Event)
    requires Apply(s, e).Some?
    ensures Apply(s, e).value.rollups == s.rollups
  {
    hide Floor;
  }

  // A step of the store either leaves the minute rollups alone or marks the hour of the one it changes.
  lemma OtherHoursStay(l: Ledger, step: Coherence.Step, h: Minute)
    requires Coherence.Coherent(l.audit) && Coherence.Allowed(l.audit, step) && Aligned(h.at, HOUR)
    requires h !in Next(l, Minutely(step)).dirtyHours
    ensures forall m: Minute | InHour(h, m) ::
      var s, s' := l.audit.s, Coherence.Next(l.audit, step).s;
      (m in s.rollups <==> m in s'.rollups) && (m in s.rollups ==> s.rollups[m] == s'.rollups[m])
  {
    hide Coherence.Coherent, Coherence.Kept, Ready, Raw, Store, Aligned, HourOf, Apply;
    match step
    case Write(e) =>
      if Apply(l.audit.s, e).Some? {
        WriteKeepsRollups(l.audit.s, e);
      }
    case Roll(m, asOf) => InHourIff(h, m);
    case _ =>
  }

  /** Every step keeps clean hours in step with their minutes. */
  lemma StepKeeps(l: Ledger, step: Step)
    requires Faithful(l) && Allowed(l, step)
    ensures Faithful(Next(l, step))
  {
    hide Coherence.Coherent, Coherence.Allowed, Coherence.Next, Combined, InHour, Ready, Floor;
    var l' := Next(l, step);
    match step
    case Minutely(step) =>
      Coherence.StepCoheres(l.audit, step);
      forall h: Minute | Aligned(h.at, HOUR)
        ensures Followed(l', h)
      {
        if h !in l'.dirtyHours {
          assert Followed(l, h);
          OtherHoursStay(l, step, h);
          SameCombined(l.audit.s, l'.audit.s, h);
        }
      }
    case RollHour(h', asOf) =>
      forall h: Minute | Aligned(h.at, HOUR)
        ensures Followed(l', h)
      {
        assert Followed(l, h);
      }
  }

  lemma NothingStored()
    ensures Faithful(Ledger(Coherence.ORIGIN, map[], {}))
  {
    hide Coherence.Coherent;
    assert Coherence.Legal([]) && Coherence.After([]) == Coherence.ORIGIN;
    Coherence.NothingIsLost([]);
  }

  lemma {:induction false} RunKeeps(steps: seq<Step>)
    requires Legal(steps)
    ensures Faithful(After(steps))
  {
    hide Allowed, Next, Followed, Coherence.Kept;
    if steps == [] {
      NothingStored();
    } else {
      RunKeeps(steps[..|steps| - 1]);
      StepKeeps(After(steps[..|steps| - 1]), steps[|steps| - 1]);
    }
  }

  // ---------- what a clean hour says ----------

  lemma NoMinutes(s: State, h: Minute)
    requires forall m <- s.rollups :: !InHour(h, m)
    ensures Minutes(RollupsOf(s, h.target), h.at) == map[]
  {
    forall at: int
      ensures at !in Minutes(RollupsOf(s, h.target), h.at)
    {
      InRollups(s, Minute(h.target, at));
    }
  }

  /** If the stored minutes are those of some tables, so is their sum. */
  lemma MinutesAreRaw(s: State, t: Tables, h: Minute)
    requires Aligned(h.at, HOUR) && forall m <- s.rollups :: Aligned(m.at, MINUTE)
    requires forall at | Aligned(at, MINUTE) && h.at <= at < h.at + HOUR ::
      Current(RollupsOf(s, h.target), t, h.target, at)
    ensures Combined(s, h) == Store(Raw(t, HourSpan(h), None).agg)
    ensures (forall m <- s.rollups :: !InHour(h, m)) ==> Raw(t, HourSpan(h), None) == EMPTY
  {
    hide Raw, Aligned, Store, SumRollups, Current;
    AlignedFiner(h.at, HOUR, MINUTE);
    HourIsRaw(RollupsOf(s, h.target), t, h.target, h.at);
    if forall m <- s.rollups :: !InHour(h, m) {
      NoMinutes(s, h);
    }
  }

  // Clean minutes are those of the full history.
  lemma MinutesAreCurrent(a: Coherence.Audit, h: Minute)
    requires Coherence.Coherent(a) && forall m <- a.s.dirty :: !InHour(h, m)
    ensures forall at | Aligned(at, MINUTE) && h.at <= at < h.at + HOUR ::
      Current(RollupsOf(a.s, h.target), a.history, h.target, at)
  {
    hide Raw, Store, Aligned, RollupsOf, Coherence.Whole;
    forall at | Aligned(at, MINUTE) && h.at <= at < h.at + HOUR
      ensures Current(RollupsOf(a.s, h.target), a.history, h.target, at)
    {
      var m := Minute(h.target, at);
      assert Coherence.Kept(a, m) && InHour(h, m);
      InRollups(a.s, m);
    }
  }

  /**
   In every reachable store, however much of its raw rows has been pruned: a clean hour without dirty
   minutes is the aggregate of everything that was ever scheduled in the hour, and an hour without a
   rollup never had anything.
   */
  lemma HoursAreTrue(steps: seq<Step>, h: Minute)
    requires Legal(steps) && Aligned(h.at, HOUR) && h !in After(steps).dirtyHours
    requires forall m <- After(steps).audit.s.dirty :: !InHour(h, m)
    ensures var l := After(steps);
            var all := Raw(l.audit.history, HourSpan(h), None);
            if h in l.hours then l.hours[h] == Store(all.agg) else all == EMPTY
  {
    hide Raw, Store, Legal, After, Aligned, Combined, RollupsOf, Coherence.Kept, Current;
    RunKeeps(steps);
    var l := After(steps);
    assert Followed(l, h);
    MinutesAreCurrent(l.audit, h);
    MinutesAreRaw(l.audit.s, l.audit.history, h);
  }

  /**
   A dirty hour that is over and has no dirty minute is clean after its recomputation and has a rollup; any
   other one is left as it was.
   */
  lemma HourRolls(l: Ledger, h: Minute, asOf: int)
    ensures var l' := Next(l, RollHour(h, asOf));
      var waiting := exists m <- l.audit.s.dirty :: m.target == h.target && h.at <= m.at < h.at + HOUR;
      if h.at + 3_600_000_000 <= asOf && !waiting then l'.dirtyHours == l.dirtyHours - {h} && h in l'.hours else l' == l
  {
    hide Combined;
  }

  // ---------- catching up ----------

  // By this time every dirty minute and hour, and every wait for a reply, is over.
  ghost predicate Over(l: Ledger, asOf: int) {
    && (forall k <- l.audit.s.tables.rows :: !l.audit.s.tables.rows[k].Pending(asOf))
    && (forall m <- l.audit.s.dirty :: m.at + MINUTE <= asOf && HourOf(m).at + HOUR <= asOf)
    && (forall h <- l.dirtyHours :: h.at + HOUR <= asOf)
  }

  // The raw tables and the history are as they were.
  ghost predicate SameData(l: Ledger, l': Ledger) {
    l'.audit.s.tables == l.audit.s.tables && l'.audit.history == l.audit.history
  }

  lemma MinuteDone(l: Ledger, m: Minute, asOf: int)
    requires Over(l, asOf) && m in l.audit.s.dirty
    ensures var l' := Next(l, Minutely(Coherence.Roll(m, asOf)));
      && Allowed(l, Minutely(Coherence.Roll(m, asOf)))
      && Over(l', asOf) && SameData(l, l') && l'.audit.s.dirty == l.audit.s.dirty - {m}
  {
    hide Raw, Store, HourOf, Row.Pending;
    assert Ready(l.audit.s, m, asOf);
  }

  lemma HourDone(l: Ledger, h: Minute, asOf: int)
    requires Over(l, asOf) && h in l.dirtyHours && l.audit.s.dirty == {}
    ensures var l' := Next(l, RollHour(h, asOf));
      && Allowed(l, RollHour(h, asOf)) && Over(l', asOf) && SameData(l, l')
      && l'.audit == l.audit && l'.dirtyHours == l.dirtyHours - {h}
  {
    hide HourOf, Combined, Row.Pending;
    HourRolls(l, h, asOf);
  }

  lemma OneMore(steps: seq<Step>, step: Step)
    requires Legal(steps) && Allowed(After(steps), step)
    ensures Legal(steps + [step]) && After(steps + [step]) == Next(After(steps), step)
  {
    hide Allowed, Next;
    assert (steps + [step])[..|steps|] == steps;
  }

  lemma {:induction false} MinutesCatchUp(steps: seq<Step>, asOf: int) returns (more: seq<Step>)
    requires Legal(steps) && Over(After(steps), asOf)
    ensures Legal(steps + more) && Over(After(steps + more), asOf) && SameData(After(steps), After(steps + more))
    ensures After(steps + more).audit.s.dirty == {}
    decreases |After(steps).audit.s.dirty|
  {
    hide Legal, After, Allowed, Next, Over;
    var dirty := After(steps).audit.s.dirty;
    if dirty == {} {
      more := [];
      assert steps + [] == steps;
    } else {
      var m := Pick(dirty);
      var step := Minutely(Coherence.Roll(m, asOf));
      MinuteDone(After(steps), m, asOf);
      OneMore(steps, step);
      var rest := MinutesCatchUp(steps + [step], asOf);
      more := [step] + rest;
      assert steps + [step] + rest == steps + more;
    }
  }

  lemma {:induction false} HoursCatchUp(steps: seq<Step>, asOf: int) returns (more: seq<Step>)
    requires Legal(steps) && Over(After(steps), asOf) && After(steps).audit.s.dirty == {}
    ensures Legal(steps + more) && SameData(After(steps), After(steps + more))
    ensures After(steps + more).audit.s.dirty == {} && After(steps + more).dirtyHours == {}
    decreases |After(steps).dirtyHours|
  {
    hide Legal, After, Allowed, Next, Over;
    var dirty := After(steps).dirtyHours;
    if dirty == {} {
      more := [];
      assert steps + [] == steps;
    } else {
      var h := Pick(dirty);
      HourDone(After(steps), h, asOf);
      OneMore(steps, RollHour(h, asOf));
      var rest := HoursCatchUp(steps + [RollHour(h, asOf)], asOf);
      more := [RollHour(h, asOf)] + rest;
      assert steps + [RollHour(h, asOf)] + rest == steps + more;
    }
  }

  /**
   From every reachable store recomputation catches up: once all dirty minutes and hours are over and no probe
   waits, recomputing them leaves none dirty, touches no raw row, and gives every hour the aggregate of all that
   was ever scheduled in it.
   */
  lemma EverythingRollsUp(steps: seq<Step>, asOf: int) returns (more: seq<Step>)
    requires Legal(steps) && Over(After(steps), asOf)
    ensures Legal(steps + more)
    ensures var l, l' := After(steps), After(steps + more);
      && SameData(l, l') && l'.audit.s.dirty == {} && l'.dirtyHours == {}
      && forall h: Minute | Aligned(h.at, HOUR) ::
           var all := Raw(l.audit.history, HourSpan(h), None);
           if h in l'.hours then l'.hours[h] == Store(all.agg) else all == EMPTY
  {
    hide Legal, After, Over, Raw, Store, Aligned;
    var first := MinutesCatchUp(steps, asOf);
    var second := HoursCatchUp(steps + first, asOf);
    more := first + second;
    assert steps + first + second == steps + more;
    forall h: Minute | Aligned(h.at, HOUR)
      ensures var all, l' := Raw(After(steps).audit.history, HourSpan(h), None), After(steps + more);
        if h in l'.hours then l'.hours[h] == Store(all.agg) else all == EMPTY
    {
      HoursAreTrue(steps + more, h);
    }
  }
}
