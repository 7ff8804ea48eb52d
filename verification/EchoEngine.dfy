/**
 The path from the scheduler to the store: two send queues, a queue of gaps, their loops, and the bounded
 event bus with reservations. Every goroutine is cut into atomic steps that may interleave freely.
 */
module EchoEngine {
  import opened EventBus

  // ---------- what travels ----------

  datatype Endpoint = Invalid | V4(address: nat) | V6(address: nat)

  datatype Job = Job(id: nat, target: int, endpoint: Endpoint)

  datatype Event =
    | Probe(id: nat, target: int, endpoint: Endpoint, sent: bool)
    | UnitGap(id: nat, target: int)
    | Gap(gap: nat)
    | Other

  // ---------- the machine ----------

  /** Where a send loop is with its job. */
  datatype Loop =
    | Idle
    | Wants(job: Job)
    | Holds(job: Job)
    | Registered(job: Job, endpoint: Endpoint)
    | Written(job: Job, endpoint: Endpoint, sent: bool)
    | Unsent(job: Job)
    | HoldsUnsent(job: Job)
    | Stopped
    | Failed

  datatype GapLoop = GapIdle | GapWants(gap: nat) | GapHolds(gap: nat) | GapStopped | GapFailed

  datatype Side = Side(present: bool, broken: bool, queue: seq<Job>, loop: Loop)

  datatype Machine = Machine(
    v4: Side, v6: Side, gaps: seq<nat>, gapLoop: GapLoop, current: map<int, Endpoint>, inputsClosed: bool,
    others: nat, bus: Bus<Event>, accepted: nat, admitted: nat, lost: seq<nat>, lostGaps: seq<nat>)

  datatype Family = F4 | F6

  datatype Config = Config(capacity: nat, sendQueue: nat)

  predicate Suits(e: Endpoint, f: Family) {
    match f
    case F4 => e.V4?
    case F6 => e.V6?
  }

  function At(m: Machine, f: Family): Side { if f.F4? then m.v4 else m.v6 }

  function With(m: Machine, f: Family, s: Side): Machine { if f.F4? then m.(v4 := s) else m.(v6 := s) }

  function Start(has4: bool, has6: bool): Machine {
    Machine(Side(has4, false, [], if has4 then Idle else Stopped),
            Side(has6, false, [], if has6 then Idle else Stopped),
            [], GapIdle, map[], false, 0, Bus(0, [], 0, false, [], []), 0, 0, [], [])
  }

  // ---------- the steps ----------

  // The steps of a send loop.
  datatype Send = Take | Acquire | Resolve | Write(sent: bool) | Publish | Stop | Fail

  datatype Step =
    | Submit(target: int, endpoint: Endpoint)
    | Admit
    | CloseInputs
    | Update(target: int, endpoint: Endpoint)
    | Break(family: Family)
    | Sender(family: Family, send: Send)
    | TakeGap
    | AcquireGap
    | PublishGap
    | StopGap
    | FailGap
    | AcquireOther
    | PublishOther
    | CancelOther
    | Consume
    | Release
    | CloseBus

  // The endpoint a target has now.
  function Resolved(current: map<int, Endpoint>, target: int, endpoint: Endpoint): Endpoint {
    if target in current then current[target] else endpoint
  }

  function FamilyOf(e: Endpoint): Family { if e.V4? then F4 else F6 }

  /** TrySubmit says yes. */
  predicate Accepts(c: Config, m: Machine, target: int, endpoint: Endpoint) {
    var e := Resolved(m.current, target, endpoint);
    var s := At(m, FamilyOf(e));
    !m.inputsClosed && !e.Invalid? && s.present && !s.broken && |s.queue| < c.sendQueue
  }

  // A queued job whose target has meanwhile lost its endpoint or changed family is not sent.
  predicate Outdated(current: map<int, Endpoint>, job: Job, f: Family) {
    job.target in current && !Suits(current[job.target], f)
  }

  predicate SlotFree(c: Config, b: Bus<Event>) { b.slots < c.capacity && !b.closed }

  predicate QueueFree(c: Config, b: Bus<Event>) { |b.queue| < c.capacity }

  predicate CanSend(c: Config, s: Side, b: Bus<Event>, inputsClosed: bool, send: Send) {
    match send
    case Take => s.loop.Idle? && s.queue != []
    case Acquire => (s.loop.Wants? || s.loop.Unsent?) && SlotFree(c, b)
    case Resolve => s.loop.Holds?
    case Write(_) => s.loop.Registered?
    case Publish => (s.loop.Written? || s.loop.HoldsUnsent?) && QueueFree(c, b)
    case Stop => s.loop.Idle? && s.queue == [] && inputsClosed
    case Fail => !s.loop.Stopped? && !s.loop.Failed?
  }

  predicate Enabled(c: Config, m: Machine, step: Step) {
    match step
    case Submit(t, e) => Accepts(c, m, t, e)
    case Admit => !m.inputsClosed && |m.gaps| < c.sendQueue
    case CloseInputs => true
    case Update(_, _) => true
    case Break(_) => true
    case Sender(f, send) => CanSend(c, At(m, f), m.bus, m.inputsClosed, send)
    case TakeGap => m.gapLoop.GapIdle? && m.gaps != []
    case AcquireGap => m.gapLoop.GapWants? && SlotFree(c, m.bus)
    case PublishGap => m.gapLoop.GapHolds? && QueueFree(c, m.bus)
    case StopGap => m.gapLoop.GapIdle? && m.gaps == [] && m.inputsClosed
    case FailGap => !m.gapLoop.GapStopped? && !m.gapLoop.GapFailed?
    case AcquireOther => SlotFree(c, m.bus)
    case PublishOther => m.others > 0 && QueueFree(c, m.bus)
    case CancelOther => m.others > 0 && m.bus.slots > 0
    case Consume => m.bus.queue != []
    case Release => m.bus.transit > 0 && m.bus.slots > 0
    case CloseBus => true
  }

  // ---------- what the steps do ----------

  function HeldBy(l: Loop): nat {
    if l.Holds? || l.Registered? || l.Written? || l.HoldsUnsent? then 1 else 0
  }

  function CarriedBy(l: Loop): seq<nat> {
    if l.Idle? || l.Stopped? || l.Failed? then [] else [l.job.id]
  }

  function GapHeld(l: GapLoop): nat { if l.GapHolds? then 1 else 0 }

  function GapCarried(l: GapLoop): seq<nat> {
    if l.GapWants? || l.GapHolds? then [l.gap] else []
  }

  /** A send loop with the bus, and what it has lost. */
  datatype Local = Local(side: Side, bus: Bus<Event>, lost: seq<nat>)

  // The event a loop publishes on its reservation.
  function Outcome(l: Loop): Event
    requires l.Written? || l.HoldsUnsent?
  {
    if l.Written? then Probe(l.job.id, l.job.target, l.endpoint, l.sent) else UnitGap(l.job.id, l.job.target)
  }

  function DoSend(l: Local, current: map<int, Endpoint>, f: Family, send: Send): Local {
    var s := l.side;
    match send
    case Take =>
      if s.queue == [] then l
      else l.(side := s.(queue := s.queue[1..], loop := if s.broken then Unsent(s.queue[0]) else Wants(s.queue[0])))
    case Acquire =>
      if s.loop.Wants? then l.(side := s.(loop := Holds(s.loop.job)), bus := Grab(l.bus))
      else if s.loop.Unsent? then l.(side := s.(loop := HoldsUnsent(s.loop.job)), bus := Grab(l.bus))
      else l
    case Resolve =>
      if !s.loop.Holds? then l
      else
        var job := s.loop.job;
        if Outdated(current, job, f) then l.(side := s.(loop := Unsent(job)), bus := Drop(l.bus))
        else l.(side := s.(loop := Registered(job, Resolved(current, job.target, job.endpoint))))
    case Write(ok) =>
      if s.loop.Registered? then l.(side := s.(loop := Written(s.loop.job, s.loop.endpoint, ok))) else l
    case Publish =>
      if s.loop.Written? || s.loop.HoldsUnsent?
      then l.(side := s.(loop := Idle), bus := Put(l.bus, Outcome(s.loop)))
      else l
    case Stop => l.(side := s.(loop := Stopped))
    case Fail =>
      Local(s.(loop := Failed), if HeldBy(s.loop) == 1 then Drop(l.bus) else l.bus, l.lost + CarriedBy(s.loop))
  }

  function Do(m: Machine, step: Step): Machine {
    match step
    case Submit(t, e) =>
      var e' := Resolved(m.current, t, e);
      var s := At(m, FamilyOf(e'));
      With(m, FamilyOf(e'), s.(queue := s.queue + [Job(m.accepted, t, e')])).(accepted := m.accepted + 1)
    case Admit => m.(gaps := m.gaps + [m.admitted], admitted := m.admitted + 1)
    case CloseInputs => m.(inputsClosed := true)
    case Update(t, e) => m.(current := m.current[t := e])
    case Break(f) => With(m, f, At(m, f).(broken := true))
    case Sender(f, send) =>
      var l := DoSend(Local(At(m, f), m.bus, m.lost), m.current, f, send);
      With(m, f, l.side).(bus := l.bus, lost := l.lost)
    case TakeGap => if m.gaps == [] then m else m.(gaps := m.gaps[1..], gapLoop := GapWants(m.gaps[0]))
    case AcquireGap => if m.gapLoop.GapWants? then m.(gapLoop := GapHolds(m.gapLoop.gap), bus := Grab(m.bus)) else m
    case PublishGap => if m.gapLoop.GapHolds? then m.(gapLoop := GapIdle, bus := Put(m.bus, Gap(m.gapLoop.gap))) else m
    case StopGap => m.(gapLoop := GapStopped)
    case FailGap =>
      m.(gapLoop := GapFailed, lostGaps := m.lostGaps + GapCarried(m.gapLoop),
         bus := if GapHeld(m.gapLoop) == 1 then Drop(m.bus) else m.bus)
    case AcquireOther => m.(others := m.others + 1, bus := Grab(m.bus))
    case PublishOther => m.(others := if m.others > 0 then m.others - 1 else 0, bus := Put(m.bus, Other))
    case CancelOther => m.(others := if m.others > 0 then m.others - 1 else 0, bus := Drop(m.bus))
    case Consume => m.(bus := Pull(m.bus))
    case Release => m.(bus := Return(m.bus))
    case CloseBus => m.(bus := m.bus.(closed := true))
  }

  // ---------- the invariant ----------

  function Bit(b: bool): nat { if b then 1 else 0 }

  // How often an identity occurs.
  function Count(s: seq<nat>, i: nat): nat {
    if s == [] then 0 else Bit(s[0] == i) + Count(s[1..], i)
  }

  function Queued(q: seq<Job>, i: nat): nat {
    if q == [] then 0 else Bit(q[0].id == i) + Queued(q[1..], i)
  }

  predicate IsJob(e: Event, i: nat) { (e.Probe? || e.UnitGap?) && e.id == i }

  /** The events that account for job i. */
  function JobEvents(es: seq<Event>, i: nat): nat {
    if es == [] then 0 else JobEvents(es[..|es| - 1], i) + Bit(IsJob(es[|es| - 1], i))
  }

  function GapEvents(es: seq<Event>, i: nat): nat {
    if es == [] then 0 else GapEvents(es[..|es| - 1], i) + Bit(es[|es| - 1] == Gap(i))
  }

  /** A slot for every live reservation, queued event and event in transit, within the capacity. */
  ghost predicate SlotsAdd(c: Config, m: Machine) {
    && m.bus.slots ==
      HeldBy(m.v4.loop) + HeldBy(m.v6.loop) + GapHeld(m.gapLoop) + m.others + |m.bus.queue| + m.bus.transit
    && m.bus.slots <= c.capacity
  }

  function HeldIn(s: Side, i: nat): nat { Queued(s.queue, i) + Count(CarriedBy(s.loop), i) }

  /** An accepted job is in exactly one place: queued, carried, published or lost to a failed loop. */
  ghost predicate JobAdds(m: Machine, i: nat) {
    Bit(i < m.accepted) == HeldIn(m.v4, i) + HeldIn(m.v6, i) + JobEvents(m.bus.published, i) + Count(m.lost, i)
  }

  ghost predicate GapAdds(m: Machine, i: nat) {
    Bit(i < m.admitted)
    == Count(m.gaps, i) + Count(GapCarried(m.gapLoop), i) + GapEvents(m.bus.published, i) + Count(m.lostGaps, i)
  }

  /** A send loop handles only endpoints of its own family. */
  ghost predicate SideInFamily(s: Side, f: Family) {
    && (forall job <- s.queue :: Suits(job.endpoint, f))
    && (!s.loop.Idle? && !s.loop.Stopped? && !s.loop.Failed? ==> Suits(s.loop.job.endpoint, f))
    && (s.loop.Registered? || s.loop.Written? ==> Suits(s.loop.endpoint, f))
  }

  ghost predicate Orderly(m: Machine) {
    && m.bus.published == m.bus.consumed + m.bus.queue
    && (m.lost != [] ==> m.v4.loop.Failed? || m.v6.loop.Failed?)
    && (m.lostGaps != [] ==> m.gapLoop.GapFailed?)
    && (m.v4.loop.Stopped? ==> m.v4.queue == [] && (m.inputsClosed || !m.v4.present))
    && (m.v6.loop.Stopped? ==> m.v6.queue == [] && (m.inputsClosed || !m.v6.present))
    && (m.gapLoop.GapStopped? ==> m.gaps == [] && m.inputsClosed)
  }

  ghost predicate Invariant(c: Config, m: Machine) {
    && SlotsAdd(c, m) && (forall i: nat :: JobAdds(m, i) && GapAdds(m, i))
    && SideInFamily(m.v4, F4) && SideInFamily(m.v6, F6) && Orderly(m)
  }

  // ---------- every step keeps it ----------

  // What a step of a send loop keeps, whatever the other loops do.
  lemma SendKeeps(c: Config, l: Local, current: map<int, Endpoint>, f: Family, inputsClosed: bool, send: Send)
    requires CanSend(c, l.side, l.bus, inputsClosed, send)
    requires l.bus.slots >= HeldBy(l.side.loop) + |l.bus.queue| && l.bus.slots <= c.capacity
    requires l.bus.published == l.bus.consumed + l.bus.queue
    ensures var l' := DoSend(l, current, f, send);
            && l'.bus.slots - HeldBy(l'.side.loop) - |l'.bus.queue| == l.bus.slots - HeldBy(l.side.loop) - |l.bus.queue|
            && l'.bus.slots <= c.capacity && l'.bus.transit == l.bus.transit && l'.bus.closed == l.bus.closed
            && l'.bus.published == l'.bus.consumed + l'.bus.queue
            && (l'.side.loop.Failed? || (l'.lost == l.lost && !l.side.loop.Failed?))
            && (l'.side.loop.Stopped? ==> l'.side.queue == [] && inputsClosed)
            && l'.side.present == l.side.present
  {
    hide Outdated, Resolved;
  }

  lemma One(x: nat, i: nat)
    ensures Count([x], i) == Bit(x == i) && Count([], i) == 0
  {
    assert [x][1..] == [];
  }

  lemma {:induction false} CountAdds(s: seq<nat>, t: seq<nat>, i: nat)
    ensures Count(s + t, i) == Count(s, i) + Count(t, i)
  {
    if s == [] {
      assert s + t == t;
    } else {
      assert (s + t)[1..] == s[1..] + t;
      CountAdds(s[1..], t, i);
    }
  }

  lemma PublishOne(es: seq<Event>, e: Event, i: nat)
    ensures JobEvents(es + [e], i) == JobEvents(es, i) + Bit(IsJob(e, i))
    ensures GapEvents(es + [e], i) == GapEvents(es, i) + Bit(e == Gap(i))
  {
    assert (es + [e])[..|es + [e]| - 1] == es;
  }

  lemma SendJobs(c: Config, l: Local, current: map<int, Endpoint>, f: Family, inputsClosed: bool, send: Send, i: nat)
    requires CanSend(c, l.side, l.bus, inputsClosed, send)
    ensures var l' := DoSend(l, current, f, send);
            && HeldIn(l'.side, i) + JobEvents(l'.bus.published, i) + Count(l'.lost, i)
               == HeldIn(l.side, i) + JobEvents(l.bus.published, i) + Count(l.lost, i)
            && GapEvents(l'.bus.published, i) == GapEvents(l.bus.published, i)
  {
    hide Outdated, Resolved, Count, JobEvents, GapEvents;
    One(0, i);
    match send
    case Publish =>
      PublishOne(l.bus.published, Outcome(l.side.loop), i);
      One(l.side.loop.job.id, i);
    case Fail =>
      CountAdds(l.lost, CarriedBy(l.side.loop), i);
    case Take =>
      One(l.side.queue[0].id, i);
    case _ =>
  }

  lemma SendFamily(l: Local, current: map<int, Endpoint>, f: Family, send: Send)
    requires SideInFamily(l.side, f)
    ensures SideInFamily(DoSend(l, current, f, send).side, f)
  {
  }

  lemma SenderKeeps(c: Config, m: Machine, f: Family, send: Send)
    requires Invariant(c, m) && Enabled(c, m, Sender(f, send))
    ensures Invariant(c, Do(m, Sender(f, send)))
  {
    hide DoSend, CanSend, HeldIn, JobEvents, GapEvents, Count, SideInFamily, HeldBy, GapHeld;
    var l := Local(At(m, f), m.bus, m.lost);
    SendKeeps(c, l, m.current, f, m.inputsClosed, send);
    SendFamily(l, m.current, f, send);
    forall i: nat
      ensures JobAdds(Do(m, Sender(f, send)), i) && GapAdds(Do(m, Sender(f, send)), i)
    {
      assert JobAdds(m, i) && GapAdds(m, i);
      SendJobs(c, l, m.current, f, m.inputsClosed, send, i);
    }
  }

  lemma StepSlots(c: Config, m: Machine, step: Step)
    requires SlotsAdd(c, m) && Enabled(c, m, step) && !step.Sender?
    ensures SlotsAdd(c, Do(m, step))
  {
    hide Resolved, HeldBy, DoSend, CanSend;
  }

  lemma StepFamily(c: Config, m: Machine, step: Step, f: Family)
    requires SideInFamily(At(m, f), f) && Enabled(c, m, step) && !step.Sender?
    ensures SideInFamily(At(Do(m, step), f), f)
  {
    hide DoSend, CanSend;
  }

  lemma StepOrderly(c: Config, m: Machine, step: Step)
    requires Orderly(m) && Enabled(c, m, step) && !step.Sender?
    ensures Orderly(Do(m, step))
  {
    hide Resolved, DoSend, CanSend;
  }

  lemma {:induction false} QueuedAdds(q: seq<Job>, job: Job, i: nat)
    ensures Queued(q + [job], i) == Queued(q, i) + Bit(job.id == i)
    decreases |q|
  {
    if q == [] {
      assert q + [job] == [job] && [job][1..] == [];
    } else {
      assert (q + [job])[1..] == q[1..] + [job];
      QueuedAdds(q[1..], job, i);
    }
  }

  lemma SubmittedJobs(c: Config, m: Machine, step: Step, i: nat)
    requires JobAdds(m, i) && step.Submit? && Enabled(c, m, step)
    ensures JobAdds(Do(m, step), i)
  {
    hide Queued, Count, JobEvents, DoSend, CanSend, Resolved;
    var e := Resolved(m.current, step.target, step.endpoint);
    QueuedAdds(At(m, FamilyOf(e)).queue, Job(m.accepted, step.target, e), i);
  }

  lemma StepJobs(c: Config, m: Machine, step: Step, i: nat)
    requires JobAdds(m, i) && Enabled(c, m, step) && !step.Sender?
    ensures JobAdds(Do(m, step), i)
  {
    hide Queued, Count, JobEvents, DoSend, CanSend, Resolved;
    match step
    case Submit(_, _) => SubmittedJobs(c, m, step, i);
    case PublishGap => PublishOne(m.bus.published, Gap(m.gapLoop.gap), i);
    case PublishOther => PublishOne(m.bus.published, Other, i);
    case _ =>
  }

  lemma StepGaps(c: Config, m: Machine, step: Step, i: nat)
    requires GapAdds(m, i) && Enabled(c, m, step) && !step.Sender?
    ensures GapAdds(Do(m, step), i)
  {
    hide Resolved, GapEvents, DoSend, CanSend, Count;
    One(0, i);
    match step
    case Admit =>
      CountAdds(m.gaps, [m.admitted], i);
      One(m.admitted, i);
    case PublishGap =>
      PublishOne(m.bus.published, Gap(m.gapLoop.gap), i);
      One(m.gapLoop.gap, i);
    case PublishOther => PublishOne(m.bus.published, Other, i);
    case TakeGap =>
      CountAdds([m.gaps[0]], m.gaps[1..], i);
      assert [m.gaps[0]] + m.gaps[1..] == m.gaps;
    case FailGap => CountAdds(m.lostGaps, GapCarried(m.gapLoop), i);
    case _ =>
  }

  lemma StepKeeps(c: Config, m: Machine, step: Step)
    requires Invariant(c, m) && Enabled(c, m, step)
    ensures Invariant(c, Do(m, step))
  {
    if step.Sender? {
      SenderKeeps(c, m, step.family, step.send);
    } else {
      hide SlotsAdd, JobAdds, GapAdds, SideInFamily, Orderly, Enabled, Do;
      StepSlots(c, m, step);
      forall i: nat
        ensures JobAdds(Do(m, step), i) && GapAdds(Do(m, step), i)
      {
        StepJobs(c, m, step, i);
        StepGaps(c, m, step, i);
      }
      StepFamily(c, m, step, F4);
      StepFamily(c, m, step, F6);
      StepOrderly(c, m, step);
    }
  }

  // ---------- whole runs ----------

  function After(m: Machine, steps: seq<Step>): Machine {
    if steps == [] then m else Do(After(m, steps[..|steps| - 1]), steps[|steps| - 1])
  }

  predicate Legal(c: Config, m: Machine, steps: seq<Step>) {
    steps == [] || (Legal(c, m, steps[..|steps| - 1]) && Enabled(c, After(m, steps[..|steps| - 1]), steps[|steps| - 1]))
  }

  lemma {:induction false} RunKeeps(c: Config, has4: bool, has6: bool, steps: seq<Step>)
    requires Legal(c, Start(has4, has6), steps)
    ensures Invariant(c, After(Start(has4, has6), steps))
    decreases |steps|
  {
    hide Enabled, Do;
    if steps != [] {
      hide Invariant;
      RunKeeps(c, has4, has6, steps[..|steps| - 1]);
      StepKeeps(c, After(Start(has4, has6), steps[..|steps| - 1]), steps[|steps| - 1]);
    }
  }

  /** Whoever holds a reservation can publish at once: the queue has room. */
  lemma PublishNeverBlocks(c: Config, m: Machine, f: Family)
    requires Invariant(c, m)
    ensures HeldBy(At(m, f).loop) == 1 ==> QueueFree(c, m.bus)
    ensures m.gapLoop.GapHolds? || m.others > 0 ==> QueueFree(c, m.bus)
  {
  }

  /**
   In every reachable state the slots taken are the live reservations, the queued events and those in
   transit, never more than the capacity, and what was consumed is what was published first.
   */
  lemma BusIsBounded(c: Config, has4: bool, has6: bool, steps: seq<Step>)
    requires Legal(c, Start(has4, has6), steps)
    ensures var m := After(Start(has4, has6), steps);
            && m.bus.slots ==
              HeldBy(m.v4.loop) + HeldBy(m.v6.loop) + GapHeld(m.gapLoop) + m.others + |m.bus.queue| + m.bus.transit
            && m.bus.slots <= c.capacity && m.bus.consumed <= m.bus.published
            && |m.bus.published| == |m.bus.consumed| + |m.bus.queue|
  {
    hide Legal, After;
    RunKeeps(c, has4, has6, steps);
  }

  // The drain completes: the inputs are closed and every loop has ended, by itself or with an error.
  predicate Completed(m: Machine) {
    && m.inputsClosed && (m.v4.loop.Stopped? || m.v4.loop.Failed?) && (m.v6.loop.Stopped? || m.v6.loop.Failed?)
    && (m.gapLoop.GapStopped? || m.gapLoop.GapFailed?)
  }

  // No loop has failed.
  predicate Drained(m: Machine) {
    m.inputsClosed && m.v4.loop.Stopped? && m.v6.loop.Stopped? && m.gapLoop.GapStopped?
  }

  /** Every accepted job has exactly one event and every admitted gap exactly one. */
  ghost predicate AllAccounted(m: Machine) {
    forall i: nat :: JobEvents(m.bus.published, i) == Bit(i < m.accepted)
      && GapEvents(m.bus.published, i) == Bit(i < m.admitted)
  }

  // Nothing is left in a queue, and no failed loop took anything with it.
  predicate NothingLeft(m: Machine) {
    m.v4.queue == [] && m.v6.queue == [] && m.gaps == [] && m.lost == [] && m.lostGaps == []
  }

  lemma LeftIsUncounted(m: Machine, i: nat)
    requires JobAdds(m, i) && GapAdds(m, i) && Completed(m)
    ensures JobEvents(m.bus.published, i) + Queued(m.v4.queue, i) + Queued(m.v6.queue, i) + Count(m.lost, i) ==
      Bit(i < m.accepted)
    ensures GapEvents(m.bus.published, i) + Count(m.gaps, i) + Count(m.lostGaps, i) == Bit(i < m.admitted)
  {
    hide JobEvents, GapEvents, Queued;
    One(0, i);
  }

  lemma FirstIsCounted(s: seq<nat>, q: seq<Job>)
    ensures s != [] ==> Count(s, s[0]) > 0
    ensures q != [] ==> Queued(q, q[0].id) > 0
  {
  }

  // Something left shows as an identity without its event.
  lemma LeftShows(m: Machine)
    requires (forall i: nat :: JobAdds(m, i) && GapAdds(m, i)) && Completed(m) && AllAccounted(m)
    ensures NothingLeft(m)
  {
    hide JobEvents, GapEvents, Queued, Count, JobAdds, GapAdds;
    forall i: nat
      ensures Queued(m.v4.queue, i) == 0 && Queued(m.v6.queue, i) == 0 && Count(m.lost, i) == 0
      ensures Count(m.gaps, i) == 0 && Count(m.lostGaps, i) == 0
    {
      LeftIsUncounted(m, i);
    }
    FirstIsCounted(m.lost, m.v4.queue);
    FirstIsCounted(m.lostGaps, m.v6.queue);
    FirstIsCounted(m.gaps, []);
  }

  lemma EachAccounted(m: Machine)
    requires forall i: nat ::
      && JobEvents(m.bus.published, i) == Bit(i < m.accepted)
      && GapEvents(m.bus.published, i) == Bit(i < m.admitted)
    ensures AllAccounted(m)
  {
  }

  /**
   When a drain completes, with failed loops or without, every accepted job has produced exactly one probe
   event or unit gap and every admitted gap exactly one event, if and only if nothing is left in a queue and
   no failed loop took anything with it.
   */
  lemma DrainAccountsIff(c: Config, has4: bool, has6: bool, steps: seq<Step>)
    requires Legal(c, Start(has4, has6), steps) && Completed(After(Start(has4, has6), steps))
    ensures var m := After(Start(has4, has6), steps); AllAccounted(m) <==> NothingLeft(m)
  {
    hide Legal, After, JobEvents, GapEvents, JobAdds, GapAdds, AllAccounted;
    RunKeeps(c, has4, has6, steps);
    var m := After(Start(has4, has6), steps);
    if NothingLeft(m) {
      forall i: nat
        ensures JobEvents(m.bus.published, i) == Bit(i < m.accepted)
          && GapEvents(m.bus.published, i) == Bit(i < m.admitted)
      {
        assert JobAdds(m, i) && GapAdds(m, i);
        LeftIsUncounted(m, i);
      }
      assert AllAccounted(m) by { EachAccounted(m); }
    } else if AllAccounted(m) {
      LeftShows(m);
    }
  }

  /** After a drain in which no loop failed, nothing is lost, and the consumer sees the events in order. */
  lemma DrainLosesNothing(c: Config, has4: bool, has6: bool, steps: seq<Step>)
    requires Legal(c, Start(has4, has6), steps) && Drained(After(Start(has4, has6), steps))
    ensures var m := After(Start(has4, has6), steps); AllAccounted(m) && m.bus.published == m.bus.consumed + m.bus.queue
  {
    hide Legal, After, AllAccounted;
    RunKeeps(c, has4, has6, steps);
    DrainAccountsIff(c, has4, has6, steps);
  }

  // The next step of a send loop.
  function NextOf(m: Machine, f: Family): Step {
    var l := At(m, f).loop;
    Sender(f, if l.Idle? then (if At(m, f).queue == [] then Stop else Take)
              else if l.Holds? then Resolve
              else if l.Registered? then Write(true)
              else if l.Wants? || l.Unsent? then Acquire
              else Publish)
  }

  /**
   A drain does not get stuck: while a loop is still running, the bus is open and no one fails, some step
   of a loop, of another holder of a reservation or of the consumer is possible.
   */
  lemma DrainGoesOn(c: Config, m: Machine) returns (step: Step)
    requires Invariant(c, m) && c.capacity > 0 && m.inputsClosed && !m.bus.closed && !Drained(m)
    requires !m.v4.loop.Failed? && !m.v6.loop.Failed? && !m.gapLoop.GapFailed?
    ensures Enabled(c, m, step) && !(step.Sender? && step.send.Fail?) && !step.FailGap? && !step.CloseBus?
      && !step.Break?
    ensures !step.Submit? && !step.Admit? && !step.Update? && !step.CloseInputs? && !step.AcquireOther?
  {
    hide JobAdds, GapAdds, SideInFamily;
    PublishNeverBlocks(c, m, F4);
    PublishNeverBlocks(c, m, F6);
    if m.bus.queue != [] {
      step := Consume;
    } else if m.bus.transit > 0 {
      step := Release;
    } else if m.others > 0 {
      step := PublishOther;
    } else if !m.v4.loop.Stopped? && (HeldBy(m.v4.loop) == 1 || (HeldBy(m.v6.loop) == 0 && GapHeld(m.gapLoop) == 0)) {
      step := NextOf(m, F4);
    } else if !m.v6.loop.Stopped? && (HeldBy(m.v6.loop) == 1 || GapHeld(m.gapLoop) == 0) {
      step := NextOf(m, F6);
    } else {
      step := if m.gapLoop.GapHolds? then PublishGap else if m.gapLoop.GapWants? then AcquireGap
              else if m.gaps != [] then TakeGap else StopGap;
    }
  }
}
