/**
 Which event a job gets. The run itself tells what became of each job: where it was submitted to, whether it
 was turned away, which endpoint it was resolved to and whether its write succeeded. The event published for
 it says just that.
 */
module EchoEvents {
  import opened Common
  import opened EventBus
  import opened EchoEngine

  // ---------- what the run tells of a job ----------

  datatype Fate = Fate(target: Option<int>, refused: bool, resolved: Option<Endpoint>, written: Option<bool>)

  const UNKNOWN: Fate := Fate(None, false, None, None)

  // What a step of a send loop does to the job: turns it away because the socket is broken or the endpoint
  // has left the family, finds its endpoint, or writes.
  function FateOfSend(fate: Fate, s: Side, current: map<int, Endpoint>, f: Family, send: Send, i: nat): Fate {
    match send
    case Take =>
      if s.queue != [] && s.queue[0].id == i && s.broken then fate.(refused := true) else fate
    case Resolve =>
      if !s.loop.Holds? || s.loop.job.id != i then fate
      else
        var now := if s.loop.job.target in current then current[s.loop.job.target] else s.loop.job.endpoint;
        if (f.F4? && now.V4?) || (f.F6? && now.V6?) then fate.(resolved := Some(now)) else fate.(refused := true)
    case Write(ok) =>
      if s.loop.Registered? && s.loop.job.id == i then fate.(written := Some(ok)) else fate
    case _ => fate
  }

  function FateOfStep(fate: Fate, m: Machine, step: Step, i: nat): Fate {
    match step
    case Submit(t, _) => if m.accepted == i then fate.(target := Some(t)) else fate
    case Sender(f, send) => FateOfSend(fate, At(m, f), m.current, f, send, i)
    case _ => fate
  }

  /** What became of job i in a run. */
  function FateOf(m: Machine, steps: seq<Step>, i: nat): Fate {
    if steps == [] then UNKNOWN
    else FateOfStep(FateOf(m, steps[..|steps| - 1], i), After(m, steps[..|steps| - 1]), steps[|steps| - 1], i)
  }

  // ---------- what the machine says of it ----------

  /**
   The event tells the fate: a probe was resolved to its endpoint and written with its outcome, a unit gap was
   turned away and never written, and both are for the target the job was submitted for.
   */
  predicate Tells(e: Event, fate: Fate) {
    match e
    case Probe(_, target, endpoint, sent) => fate == Fate(Some(target), false, Some(endpoint), Some(sent))
    case UnitGap(_, target) => fate == Fate(Some(target), true, None, None)
    case _ => true
  }

  ghost predicate QueueTrue(q: seq<Job>, f: Family, i: nat, fate: Fate) {
    forall job <- q | job.id == i :: fate == Fate(Some(job.target), false, None, None) && Suits(job.endpoint, f)
  }

  ghost predicate LoopTrue(l: Loop, f: Family, i: nat, fate: Fate) {
    !l.Idle? && !l.Stopped? && !l.Failed? && l.job.id == i ==>
      && Suits(l.job.endpoint, f)
      && fate == Fate(Some(l.job.target), l.Unsent? || l.HoldsUnsent?,
                      if l.Registered? || l.Written? then Some(l.endpoint) else None,
                      if l.Written? then Some(l.sent) else None)
  }

  ghost predicate SideTrue(s: Side, f: Family, i: nat, fate: Fate) {
    QueueTrue(s.queue, f, i, fate) && LoopTrue(s.loop, f, i, fate)
  }

  ghost predicate EventsTrue(es: seq<Event>, i: nat, fate: Fate) {
    forall e <- es | IsJob(e, i) :: Tells(e, fate)
  }

  ghost predicate TrueFor(m: Machine, i: nat, fate: Fate) {
    && (i >= m.accepted ==> fate == UNKNOWN)
    && SideTrue(m.v4, F4, i, fate) && SideTrue(m.v6, F6, i, fate) && EventsTrue(m.bus.published, i, fate)
  }

  // ---------- a job is in one place ----------

  lemma {:induction false} NotQueued(q: seq<Job>, i: nat)
    ensures Queued(q, i) == 0 <==> forall job <- q :: job.id != i
  {
    if q != [] {
      NotQueued(q[1..], i);
      assert forall job <- q :: job == q[0] || job in q[1..];
    }
  }

  lemma {:induction false} NotPublished(es: seq<Event>, i: nat)
    ensures JobEvents(es, i) == 0 <==> forall e <- es :: !IsJob(e, i)
  {
    if es != [] {
      var n := |es| - 1;
      NotPublished(es[..n], i);
      assert forall e <- es :: e == es[n] || e in es[..n];
    }
  }

  // What is not held anywhere on a side can have any fate there.
  lemma Elsewhere(s: Side, f: Family, i: nat, fate: Fate)
    requires HeldIn(s, i) == 0
    ensures SideTrue(s, f, i, fate)
  {
    NotQueued(s.queue, i);
    One(i, i);
  }

  lemma Unpublished(es: seq<Event>, i: nat, fate: Fate)
    requires JobEvents(es, i) == 0
    ensures EventsTrue(es, i, fate)
  {
    NotPublished(es, i);
  }

  // ---------- every step keeps it ----------

  // A step that touches the job finds it on its own side and nowhere else.
  lemma SendTouches(s: Side, current: map<int, Endpoint>, f: Family, send: Send, i: nat, fate: Fate)
    ensures FateOfSend(fate, s, current, f, send, i) != fate ==> HeldIn(s, i) > 0
  {
    One(i, i);
  }

  lemma PublishedMore(es: seq<Event>, e: Event, i: nat, fate: Fate)
    requires EventsTrue(es, i, fate) && (IsJob(e, i) ==> Tells(e, fate))
    ensures EventsTrue(es + [e], i, fate)
  {
  }

  // A job carried by the loop is not queued, and one at the head of the queue is not queued again.
  lemma OnePlace(s: Side, i: nat)
    requires HeldIn(s, i) <= 1
    ensures CarriedBy(s.loop) == [i] ==> forall job <- s.queue :: job.id != i
    ensures s.queue != [] && s.queue[0].id == i ==>
      CarriedBy(s.loop) != [i] && forall job <- s.queue[1..] :: job.id != i
  {
    One(i, i);
    NotQueued(s.queue, i);
    if s.queue != [] {
      NotQueued(s.queue[1..], i);
    }
  }

  // What a send loop does to its own side.
  lemma SideStaysTrue(l: Local, current: map<int, Endpoint>, f: Family, send: Send, i: nat, fate: Fate)
    requires SideTrue(l.side, f, i, fate) && HeldIn(l.side, i) <= 1
    ensures SideTrue(DoSend(l, current, f, send).side, f, i, FateOfSend(fate, l.side, current, f, send, i))
  {
    hide HeldIn, Grab, Drop, Put;
    OnePlace(l.side, i);
    var q := l.side.queue;
    assert q != [] ==> q[0] in q && forall job <- q[1..] :: job in q;
  }

  // What it publishes.
  lemma SendPublishes(l: Local, current: map<int, Endpoint>, f: Family, send: Send, i: nat, fate: Fate)
    requires SideTrue(l.side, f, i, fate) && EventsTrue(l.bus.published, i, fate)
    ensures EventsTrue(DoSend(l, current, f, send).bus.published, i, fate)
  {
    hide EventsTrue;
    if send.Publish? && (l.side.loop.Written? || l.side.loop.HoldsUnsent?) {
      PublishedMore(l.bus.published, Outcome(l.side.loop), i, fate);
    }
  }

  lemma SendTrue(l: Local, current: map<int, Endpoint>, f: Family, send: Send, i: nat, fate: Fate)
    requires SideTrue(l.side, f, i, fate) && EventsTrue(l.bus.published, i, fate)
    requires HeldIn(l.side, i) + JobEvents(l.bus.published, i) <= 1
    ensures var l', fate' := DoSend(l, current, f, send), FateOfSend(fate, l.side, current, f, send, i);
      SideTrue(l'.side, f, i, fate') && EventsTrue(l'.bus.published, i, fate')
  {
    hide HeldIn, JobEvents, EventsTrue, SideTrue;
    var fate' := FateOfSend(fate, l.side, current, f, send, i);
    SideStaysTrue(l, current, f, send, i, fate);
    if fate' == fate {
      SendPublishes(l, current, f, send, i, fate);
    } else {
      SendTouches(l.side, current, f, send, i, fate);
      Unpublished(l.bus.published, i, fate');
    }
  }

  lemma SenderTrue(m: Machine, f: Family, send: Send, i: nat, fate: Fate)
    requires JobAdds(m, i) && TrueFor(m, i, fate)
    ensures TrueFor(Do(m, Sender(f, send)), i, FateOfStep(fate, m, Sender(f, send), i))
  {
    hide HeldIn, JobEvents, EventsTrue, SideTrue, FateOfSend, DoSend;
    var fate' := FateOfSend(fate, At(m, f), m.current, f, send, i);
    SendTrue(Local(At(m, f), m.bus, m.lost), m.current, f, send, i, fate);
    if fate' != fate {
      SendTouches(At(m, f), m.current, f, send, i, fate);
      var other := if f.F4? then F6 else F4;
      Elsewhere(At(m, other), other, i, fate');
    }
  }

  lemma SubmitTrue(c: Config, m: Machine, target: int, endpoint: Endpoint, i: nat, fate: Fate)
    requires JobAdds(m, i) && TrueFor(m, i, fate) && Enabled(c, m, Submit(target, endpoint))
    ensures TrueFor(Do(m, Submit(target, endpoint)), i, FateOfStep(fate, m, Submit(target, endpoint), i))
  {
    var e := Resolved(m.current, target, endpoint);
    hide HeldIn, JobEvents, EventsTrue, Resolved, LoopTrue;
    var fate' := FateOfStep(fate, m, Submit(target, endpoint), i);
    if m.accepted == i {
      Elsewhere(m.v4, F4, i, fate');
      Elsewhere(m.v6, F6, i, fate');
      Unpublished(m.bus.published, i, fate');
    }
  }

  lemma BreakTrue(m: Machine, f: Family, i: nat, fate: Fate)
    requires TrueFor(m, i, fate)
    ensures TrueFor(Do(m, Break(f)), i, fate)
  {
    hide EventsTrue;
  }

  lemma StepTrue(c: Config, m: Machine, step: Step, i: nat, fate: Fate)
    requires Invariant(c, m) && TrueFor(m, i, fate) && Enabled(c, m, step)
    ensures TrueFor(Do(m, step), i, FateOfStep(fate, m, step, i))
  {
    assert JobAdds(m, i);
    hide JobAdds, Invariant, EventsTrue, SideTrue;
    match step
    case Submit(t, e) => SubmitTrue(c, m, t, e, i, fate);
    case Sender(f, send) => SenderTrue(m, f, send, i, fate);
    case PublishGap => PublishedMore(m.bus.published, Gap(m.gapLoop.gap), i, fate);
    case PublishOther => PublishedMore(m.bus.published, Other, i, fate);
    case Break(f) => BreakTrue(m, f, i, fate);
    case _ =>
  }

  lemma StartTrue(has4: bool, has6: bool, i: nat)
    ensures TrueFor(Start(has4, has6), i, UNKNOWN)
  {
  }

  // ---------- whole runs ----------

  lemma {:induction false} RunTrue(c: Config, has4: bool, has6: bool, steps: seq<Step>, i: nat)
    requires Legal(c, Start(has4, has6), steps)
    ensures TrueFor(After(Start(has4, has6), steps), i, FateOf(Start(has4, has6), steps, i))
    decreases |steps|
  {
    hide Enabled, Do, TrueFor, FateOfStep;
    if steps == [] {
      StartTrue(has4, has6, i);
    } else {
      var init, start := steps[..|steps| - 1], Start(has4, has6);
      RunTrue(c, has4, has6, init, i);
      RunKeeps(c, has4, has6, init);
      StepTrue(c, After(start, init), steps[|steps| - 1], i, FateOf(start, init, i));
    }
  }

  // The n-th step writes job i with this outcome.
  ghost predicate WritesAt(m: Machine, steps: seq<Step>, n: nat, i: nat, ok: bool) {
    && n < |steps| && steps[n].Sender? && steps[n].send == Write(ok)
    && var l := At(After(m, steps[..n]), steps[n].family).loop;
       l.Registered? && l.job.id == i
  }

  lemma LastWrites(m: Machine, steps: seq<Step>, i: nat, ok: bool)
    requires steps != []
    ensures forall n: nat | n < |steps| - 1 ::
      WritesAt(m, steps, n, i, ok) <==> WritesAt(m, steps[..|steps| - 1], n, i, ok)
  {
    var init := steps[..|steps| - 1];
    forall n: nat | n < |steps| - 1
      ensures steps[..n] == init[..n] && steps[n] == init[n]
    {
    }
  }

  // A job once written is written no more.
  lemma WrittenOnce(m: Machine, step: Step, i: nat, fate: Fate)
    requires TrueFor(m, i, fate) && fate.written.Some?
    ensures FateOfStep(fate, m, step, i).written == fate.written
  {
    hide EventsTrue;
  }

  lemma NoStepWrites(m: Machine, i: nat, ok: bool)
    ensures forall n: nat :: !WritesAt(m, [], n, i, ok)
  {
  }

  lemma WritesWithin(m: Machine, steps: seq<Step>, n: nat, i: nat, ok: bool)
    requires WritesAt(m, steps, n, i, ok)
    ensures n < |steps|
  {
  }

  // The last step writes the job exactly if that is how its fate changes.
  lemma StepWrites(m: Machine, steps: seq<Step>, i: nat, ok: bool, fate: Fate)
    requires steps != []
    ensures var before := After(m, steps[..|steps| - 1]); var fate' := FateOfStep(fate, before, steps[|steps| - 1], i);
      && (WritesAt(m, steps, |steps| - 1, i, ok) ==> fate'.written == Some(ok))
      && (fate.written != Some(ok) && fate'.written == Some(ok) ==> WritesAt(m, steps, |steps| - 1, i, ok))
  {
    hide After;
  }

  /** The run holds a write of the job with an outcome if and only if that is the outcome its fate tells. */
  lemma {:induction false} WrittenIff(c: Config, has4: bool, has6: bool, steps: seq<Step>, i: nat, ok: bool)
    requires Legal(c, Start(has4, has6), steps)
    ensures FateOf(Start(has4, has6), steps, i).written == Some(ok) <==>
      exists n: nat :: WritesAt(Start(has4, has6), steps, n, i, ok)
    decreases |steps|
  {
    hide Enabled, Do, WritesAt, TrueFor, Invariant, FateOfStep;
    var start := Start(has4, has6);
    if steps == [] {
      assert forall n: nat :: !WritesAt(start, steps, n, i, ok) by { NoStepWrites(start, i, ok); }
    } else {
      var init, last := steps[..|steps| - 1], steps[|steps| - 1];
      var m, fate := After(start, init), FateOf(start, init, i);
      WrittenIff(c, has4, has6, init, i, ok);
      RunTrue(c, has4, has6, init, i);
      LastWrites(start, steps, i, ok);
      StepWrites(start, steps, i, ok, fate);
      if fate.written.Some? {
        WrittenOnce(m, last, i, fate);
      }
      assert FateOf(start, steps, i) == FateOfStep(fate, m, last, i);
      if exists n: nat :: WritesAt(start, steps, n, i, ok) {
        var n: nat :| WritesAt(start, steps, n, i, ok);
        WritesWithin(start, steps, n, i, ok);
        assert n < |init| ==> WritesAt(start, init, n, i, ok);
      }
      if fate.written == Some(ok) {
        var n: nat :| WritesAt(start, init, n, i, ok);
        WritesWithin(start, init, n, i, ok);
        assert WritesAt(start, steps, n, i, ok);
      }
    }
  }

  /**
   The event of a job tells what became of it in the run. It is a probe marked as sent, or as a send error,
   exactly if its write succeeded, or failed; to the endpoint it was resolved to when its slot had been
   reserved; and for the target it was submitted for. It is a unit gap exactly if the job was turned away.
   */
  lemma EventsTellTheRun(c: Config, has4: bool, has6: bool, steps: seq<Step>, e: Event)
    requires Legal(c, Start(has4, has6), steps) && e in After(Start(has4, has6), steps).bus.published
    requires e.Probe? || e.UnitGap?
    ensures var fate := FateOf(Start(has4, has6), steps, e.id);
      && fate.target == Some(e.target)
      && (e.Probe? <==> fate.written.Some?) && (e.UnitGap? <==> fate.refused)
      && (e.Probe? ==> fate.written == Some(e.sent) && fate.resolved == Some(e.endpoint))
  {
    hide Legal, After, FateOf;
    RunTrue(c, has4, has6, steps, e.id);
    assert IsJob(e, e.id);
  }

  // ---------- order ----------

  ghost predicate QueueInOrder(q: seq<Job>, accepted: nat) {
    (forall j, k | 0 <= j < k < |q| :: q[j].id < q[k].id) && forall job <- q :: job.id < accepted
  }

  ghost predicate LoopFirst(l: Loop, q: seq<Job>, accepted: nat) {
    !l.Idle? && !l.Stopped? && !l.Failed? ==> l.job.id < accepted && forall job <- q :: l.job.id < job.id
  }

  // The queue is in order of submission, and the loop carries what was submitted before all of it.
  ghost predicate InOrder(s: Side, accepted: nat) {
    QueueInOrder(s.queue, accepted) && LoopFirst(s.loop, s.queue, accepted)
  }

  lemma TailInOrder(q: seq<Job>, accepted: nat)
    requires QueueInOrder(q, accepted) && q != []
    ensures QueueInOrder(q[1..], accepted) && q[0].id < accepted && forall job <- q[1..] :: q[0].id < job.id
  {
  }

  lemma MoreInOrder(s: Side, job: Job)
    requires InOrder(s, job.id)
    ensures InOrder(s, job.id + 1) && InOrder(s.(queue := s.queue + [job]), job.id + 1)
  {
  }

  lemma SendOrdered(c: Config, l: Local, current: map<int, Endpoint>, f: Family, inputsClosed: bool, send: Send,
                    accepted: nat)
    requires InOrder(l.side, accepted) && CanSend(c, l.side, l.bus, inputsClosed, send)
    ensures InOrder(DoSend(l, current, f, send).side, accepted)
  {
    hide Resolved, Outdated, Outcome, QueueInOrder, Grab, Drop, Put;
    if l.side.queue != [] {
      TailInOrder(l.side.queue, accepted);
    }
  }

  lemma StepOrdered(c: Config, m: Machine, step: Step)
    requires InOrder(m.v4, m.accepted) && InOrder(m.v6, m.accepted) && Enabled(c, m, step)
    ensures InOrder(Do(m, step).v4, Do(m, step).accepted) && InOrder(Do(m, step).v6, Do(m, step).accepted)
  {
    hide Resolved, Outdated, Outcome, QueueInOrder, LoopFirst, DoSend, CanSend;
    if step.Sender? {
      SendOrdered(c, Local(At(m, step.family), m.bus, m.lost), m.current, step.family, m.inputsClosed, step.send,
                  m.accepted);
    } else if step.Submit? {
      var job := Job(m.accepted, step.target, Resolved(m.current, step.target, step.endpoint));
      MoreInOrder(m.v4, job);
      MoreInOrder(m.v6, job);
    }
  }

  lemma EmptyOrdered(present: bool, l: Loop)
    requires l.Idle? || l.Stopped?
    ensures InOrder(Side(present, false, [], l), 0)
  {
  }

  /** Each send loop takes the jobs of its family one by one in the order in which they were accepted. */
  lemma {:induction false} QueuesAreFifo(c: Config, has4: bool, has6: bool, steps: seq<Step>)
    requires Legal(c, Start(has4, has6), steps)
    ensures var m := After(Start(has4, has6), steps); InOrder(m.v4, m.accepted) && InOrder(m.v6, m.accepted)
    decreases |steps|
  {
    hide Enabled, Do, InOrder;
    if steps == [] {
      EmptyOrdered(has4, if has4 then Idle else Stopped);
      EmptyOrdered(has6, if has6 then Idle else Stopped);
    } else {
      var init := steps[..|steps| - 1];
      QueuesAreFifo(c, has4, has6, init);
      StepOrdered(c, After(Start(has4, has6), init), steps[|steps| - 1]);
    }
  }

  // ---------- what the steps have set ----------

  /** The endpoint the last update gave a target. */
  function LastUpdate(steps: seq<Step>, target: int): Option<Endpoint> {
    if steps == [] then None
    else
      var last := steps[|steps| - 1];
      if last.Update? && last.target == target then Some(last.endpoint) else LastUpdate(steps[..|steps| - 1], target)
  }

  function Submits(steps: seq<Step>): nat {
    if steps == [] then 0 else Submits(steps[..|steps| - 1]) + Bit(steps[|steps| - 1].Submit?)
  }

  function Admits(steps: seq<Step>): nat {
    if steps == [] then 0 else Admits(steps[..|steps| - 1]) + Bit(steps[|steps| - 1].Admit?)
  }

  predicate Occurs(steps: seq<Step>, step: Step) {
    steps != [] && (steps[|steps| - 1] == step || Occurs(steps[..|steps| - 1], step))
  }

  // What an update says of the current endpoints.
  ghost predicate Knows(current: map<int, Endpoint>, steps: seq<Step>) {
    forall t: int :: LastUpdate(steps, t) == if t in current then Some(current[t]) else None
  }

  /** The machine knows what the steps so far have told it, no more and no less. */
  ghost predicate Told(m: Machine, steps: seq<Step>) {
    && m.inputsClosed == Occurs(steps, CloseInputs) && m.bus.closed == Occurs(steps, CloseBus)
    && m.v4.broken == Occurs(steps, Break(F4)) && m.v6.broken == Occurs(steps, Break(F6))
    && m.accepted == Submits(steps) && m.admitted == Admits(steps)
    && Knows(m.current, steps)
  }

  // A step of a send loop tells the machine nothing.
  lemma SendTells(l: Local, current: map<int, Endpoint>, f: Family, send: Send)
    ensures var l' := DoSend(l, current, f, send);
      l'.side.broken == l.side.broken && l'.side.present == l.side.present && l'.bus.closed == l.bus.closed
  {
    hide Resolved, Outdated, Outcome;
  }

  // What a step tells the machine.
  lemma StepTells(m: Machine, step: Step)
    ensures var m' := Do(m, step);
      && m'.inputsClosed == (m.inputsClosed || step == CloseInputs)
      && m'.bus.closed == (m.bus.closed || step == CloseBus)
      && m'.v4.broken == (m.v4.broken || step == Break(F4)) && m'.v6.broken == (m.v6.broken || step == Break(F6))
      && m'.accepted == m.accepted + Bit(step.Submit?) && m'.admitted == m.admitted + Bit(step.Admit?)
      && m'.current == if step.Update? then m.current[step.target := step.endpoint] else m.current
  {
    hide DoSend, Resolved;
    if step.Sender? {
      SendTells(Local(At(m, step.family), m.bus, m.lost), m.current, step.family, step.send);
    }
  }

  lemma KnowsMore(current: map<int, Endpoint>, steps: seq<Step>, step: Step)
    requires Knows(current, steps)
    ensures Knows(if step.Update? then current[step.target := step.endpoint] else current, steps + [step])
  {
    assert (steps + [step])[..|steps|] == steps;
  }

  lemma StepTold(m: Machine, steps: seq<Step>, step: Step)
    requires Told(m, steps)
    ensures Told(Do(m, step), steps + [step])
  {
    hide Do, Knows;
    StepTells(m, step);
    KnowsMore(m.current, steps, step);
    assert (steps + [step])[..|steps|] == steps;
  }

  lemma StartTold(has4: bool, has6: bool)
    ensures Told(Start(has4, has6), [])
  {
  }

  /** In every run the machine knows exactly what the steps have told it. */
  lemma {:induction false} RunTold(has4: bool, has6: bool, steps: seq<Step>)
    ensures Told(After(Start(has4, has6), steps), steps)
    decreases |steps|
  {
    hide Do, Told;
    if steps == [] {
      StartTold(has4, has6);
    } else {
      var init := steps[..|steps| - 1];
      assert init + [steps[|init|]] == steps;
      RunTold(has4, has6, init);
      StepTold(After(Start(has4, has6), init), init, steps[|init|]);
    }
  }

  // Where a family has a socket is fixed when the engine starts.
  lemma {:induction false} SocketsStay(has4: bool, has6: bool, steps: seq<Step>)
    ensures After(Start(has4, has6), steps).v4.present == has4 && After(Start(has4, has6), steps).v6.present == has6
    decreases |steps|
  {
    hide DoSend, Resolved;
    if steps != [] {
      var m, step := After(Start(has4, has6), steps[..|steps| - 1]), steps[|steps| - 1];
      SocketsStay(has4, has6, steps[..|steps| - 1]);
      if step.Sender? {
        SendTells(Local(At(m, step.family), m.bus, m.lost), m.current, step.family, step.send);
      }
    }
  }

  /**
   In every run a job is accepted exactly if the inputs have not been closed, its target's endpoint, the last
   one it was given if there is one, is valid, its family has a socket that has not failed, and that family's
   queue has room.
   */
  lemma AcceptsIff(c: Config, has4: bool, has6: bool, steps: seq<Step>, target: int, given: Endpoint)
    ensures var m, endpoint := After(Start(has4, has6), steps), LastUpdate(steps, target).GetOr(given);
      Enabled(c, m, Submit(target, given)) <==>
        && !Occurs(steps, CloseInputs)
        && ((endpoint.V4? && has4 && !Occurs(steps, Break(F4)) && |m.v4.queue| < c.sendQueue)
            || (endpoint.V6? && has6 && !Occurs(steps, Break(F6)) && |m.v6.queue| < c.sendQueue))
  {
    RunTold(has4, has6, steps);
    SocketsStay(has4, has6, steps);
    hide After, Occurs, LastUpdate;
  }
}
