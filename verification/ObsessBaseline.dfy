/**
 What the baseline of a target is made of.

 The limit a probe captures when it is sent, the samples an idle target learns from, and the samples an
 incident collects for the new normal: each is told by the record and the retained answers alone.
 */
module ObsessBaseline {
  import opened Common
  import opened ObsessTarget
  import opened ObsessRecovery
  import opened ObsessProgress

  // ---------- the captured limit ----------

  // A round trip above the absolute limit, or, with enough samples and no absolute limit, above their
  // mean by more than the percentage.
  ghost predicate TooSlow(policy: Policy, h: seq<Sample>, rtt: int) {
    if policy.absolute > 0 then rtt > policy.absolute
    else |h| >= policy.minSamples && rtt as real * |h| as real > Sum(h) as real * (1.0 + policy.percent / 100.0)
  }

  lemma ScaledMean(sum: real, n: real, factor: real, x: real)
    requires n > 0.0
    ensures x > sum / n * factor <==> x * n > sum * factor
  {
    assert sum / n * factor * n == sum * factor;
  }

  /**
   The limit a probe captures is the incident's frozen one, or else judges the retained samples; its cap
   is never noticed, since no round trip is longer than a 64-bit duration. With it go the baseline and count
   it rests on.
   */
  lemma CapturedLimit(t: Target, key: ProbeKey, sentAt: int, timeout: int, rtt: int)
    requires t.policy.Valid() && rtt as real <= MAX_INT64
    ensures var p := Capture(t, key, sentAt, timeout);
      && (Exceeds(rtt, p.threshold) <==>
            if t.active then Exceeds(rtt, t.threshold) else TooSlow(t.policy, t.history, rtt))
      && p.baselineCount == (if t.active then t.baselineCount else |t.history|)
      && (t.active ==> p.baseline == t.baseline)
      && (!t.active ==> p.baseline * |t.history| as real == Sum(t.history) as real)
      && (!t.active && t.history == [] ==> p.baseline == 0.0)
  {
    if |t.history| >= t.policy.minSamples {
      ScaledMean(Sum(t.history) as real, |t.history| as real, 1.0 + t.policy.percent / 100.0, rtt as real);
    }
  }

  // ---------- what an incident collects ----------

  // Samples older than the horizon may have been dropped: it is the latest start of the retained window.
  predicate Below(x: int, horizon: Option<int>) { horizon.Some? && x < horizon.value }

  ghost predicate Sampled(h: seq<Sample>, x: int) { exists i | 0 <= i < |h| :: h[i].sentAt == x }

  ghost predicate Spans(h: seq<Sample>, log: Log, horizon: Option<int>, since: int, through: int) {
    && (forall i | 0 <= i < |h| :: since <= h[i].sentAt <= through)
    && (forall x <- log | since <= x <= through && !Below(x, horizon) :: Sampled(h, x))
  }

  // While an incident is open the history is that of the healthy run, and nothing else.
  ghost predicate Remembers(t: Target, log: Log, horizon: Option<int>) {
    t.active ==>
      && (t.healthySince.None? ==> t.history == [])
      && (t.healthySince.Some? && t.healthyThrough.Some? ==>
            Spans(t.history, log, horizon, t.healthySince.value, t.healthyThrough.value))
  }

  // The announced baseline is the mean of the samples of the healthy window.
  ghost predicate Rests(log: Log, horizon: Option<int>, tr: Transition, h: seq<Sample>)
    requires tr.Recovered?
  {
    && tr.baseline == Mean(h) && tr.count == |h| && HistorySorted(h)
    && (forall i | 0 <= i < |h| :: h[i].sentAt in log && log[h[i].sentAt] == Answered(h[i].rtt, false))
    && Spans(h, log, horizon, tr.since, tr.through)
  }

  ghost predicate AllRest(log: Log, horizon: Option<int>, out: seq<Transition>) {
    forall k | 0 <= k < |out| && out[k].Recovered? :: exists h :: Rests(log, horizon, out[k], h)
  }

  lemma PrunedSpans(h: seq<Sample>, log: Log, horizon: Option<int>, cutoff: int, since: int, through: int)
    requires Spans(h, log, horizon, since, through)
    ensures Spans(Prune(h, cutoff), log, Later(horizon, cutoff), since, through)
  {
    var k := PruneIsSuffix(h, cutoff);
    forall x | x in log && since <= x <= through && !Below(x, Later(horizon, cutoff))
      ensures Sampled(h[k..], x)
    {
      var i :| 0 <= i < |h| && h[i].sentAt == x;
      assert h[k..][i - k].sentAt == x;
    }
  }

  lemma CullRemembers(t: Target, log: Log, horizon: Option<int>, at: int)
    requires Remembers(t, log, horizon)
    ensures Remembers(Cull(t, at), log, Later(horizon, at - t.policy.window))
  {
    var k := PruneIsSuffix(t.history, at - t.policy.window);
    if t.active && t.healthySince.Some? && t.healthyThrough.Some? {
      PrunedSpans(t.history, log, horizon, at - t.policy.window, t.healthySince.value, t.healthyThrough.value);
    }
  }

  // A sample joins those of a window that ends with it.
  lemma AddedSpans(t: Target, log: Log, horizon: Option<int>, s: Sample, now: int, since: int)
    requires Later(horizon, now - t.policy.window) == horizon && since <= s.sentAt
    requires forall i | 0 <= i < |t.history| :: since <= t.history[i].sentAt <= s.sentAt
    requires forall x <- log | since <= x < s.sentAt && !Below(x, horizon) :: Sampled(t.history, x)
    ensures Spans(AddSample(t, s, now).history, log, horizon, since, s.sentAt)
  {
    var cutoff := now - t.policy.window;
    var u := AddSample(t, s, now).history;
    var k := PruneIsSuffix(t.history, cutoff);
    forall x | x in log && since <= x <= s.sentAt && !Below(x, horizon)
      ensures Sampled(u, x)
    {
      if x == s.sentAt {
        assert u[|u| - 1].sentAt == x;
      } else {
        var i :| 0 <= i < |t.history| && t.history[i].sentAt == x;
        assert u[i - k].sentAt == x;
      }
    }
  }

  // The run the head is counted into has every one of its samples, but for the head's.
  lemma RunOrStart(t: Target, log: Log, marks: set<int>, horizon: Option<int>)
    requires Good(t, log, marks) && Remembers(t, log, horizon) && Accepts(t)
    ensures var p, u := t.fifo[0], Continued(t.(fifo := t.fifo[1..]), t.fifo[0]); var since := u.healthySince.value;
      && since <= p.sentAt
      && (forall i | 0 <= i < |u.history| :: since <= u.history[i].sentAt <= p.sentAt)
      && (forall x <- log | since <= x < p.sentAt && !Below(x, horizon) :: Sampled(u.history, x))
  {
    if t.healthySince.Some? {
      HeadFollowsRun(t, log, marks);
    }
  }

  // The answers to a run's sends, and what has been collected of them, go on with the evidence.
  lemma EvidenceRemembers(t: Target, log: Log, marks: set<int>, horizon: Option<int>, now: int)
    requires Good(t, log, marks) && Remembers(t, log, horizon) && Accepts(t)
    requires Later(horizon, now - t.policy.window) == horizon
    ensures var r := Evidence(t.(fifo := t.fifo[1..]), t.fifo[0], now);
      Remembers(r.t, log, horizon) && AllRest(log, horizon, r.out)
  {
    var p, u := t.fifo[0], Continued(t.(fifo := t.fifo[1..]), t.fifo[0]);
    var v := AddSample(u, Sample(p.sentAt, p.rtt), now);
    RunOrStart(t, log, marks, horizon);
    AddedSpans(u, log, horizon, Sample(p.sentAt, p.rtt), now, u.healthySince.value);
    var r := Evidence(t.(fifo := t.fifo[1..]), p, now);
    if r.out != [] {
      EvidenceKeeps(t, log, marks, now);
      assert HistoryOk(r.t, log);
      forall i | 0 <= i < |v.history|
        ensures v.history[i].sentAt in log && log[v.history[i].sentAt] == Answered(v.history[i].rtt, false)
      {
        assert SampleOk(r.t, log, r.t.history[i]);
      }
      assert Rests(log, horizon, r.out[0], v.history);
    }
  }

  lemma PopRemembers(t: Target, log: Log, marks: set<int>, horizon: Option<int>, now: int)
    requires Good(t, log, marks) && Remembers(t, log, horizon) && HeadDone(t)
    requires Later(horizon, now - t.policy.window) == horizon
    ensures Remembers(PopHead(t, now).t, log, horizon) && AllRest(log, horizon, PopHead(t, now).out)
  {
    if Accepts(t) {
      EvidenceRemembers(t, log, marks, horizon, now);
    }
  }

  lemma {:induction false} DrainRemembers(t: Target, log: Log, marks: set<int>, horizon: Option<int>, now: int)
    requires Good(t, log, marks) && Remembers(t, log, horizon)
    requires Later(horizon, now - t.policy.window) == horizon
    ensures Remembers(Drain(t, now).t, log, horizon) && AllRest(log, horizon, Drain(t, now).out)
    decreases |t.fifo|
  {
    hide PopHead, PopMarks, Good, Remembers, Rests;
    if HeadDone(t) {
      PopKeeps(t, log, marks, now);
      PopOnlyRecovers(t, now);
      PopRemembers(t, log, marks, horizon, now);
      DrainRemembers(PopHead(t, now).t, log, marks + PopMarks(t), horizon, now);
    }
  }

  // A later horizon and other outcomes of tracked probes change nothing of what is collected.
  lemma SameSpans(t: Target, u: Target, log: Log, log': Log, horizon: Option<int>, cutoff: int)
    requires Remembers(t, log, horizon)
    requires u.active == t.active && u.history == t.history
    requires u.healthySince == t.healthySince && u.healthyThrough == t.healthyThrough
    requires forall x <- log' | x !in log :: t.healthyThrough.Some? ==> t.healthyThrough.value < x
    ensures Remembers(u, log', horizon) && Remembers(u, log', Later(horizon, cutoff))
  {
  }

  lemma ClearedRemembers(t: Target, log: Log, horizon: Option<int>, at: int)
    ensures t.active ==> Remembers(Interrupt(t, at), log, horizon)
  {
  }

  lemma SettleRemembers(t: Target, log: Log, marks: set<int>, horizon: Option<int>, i: nat, good: bool, rtt: int,
                        replyAt: int, o: Outcome, now: int)
    requires Good(t, log, marks) && Remembers(t, log, horizon) && Open(t, i)
    requires !o.Pending? && (good ==> o == Answered(rtt, false) && t.fifo[i].sentAt <= replyAt)
    requires !good ==> Covers(t.lastBad, t.fifo[i].sentAt)
    ensures var r := Settle(t, i, good, rtt, replyAt, now); var log' := log[t.fifo[i].sentAt := o];
      var horizon' := Later(horizon, now - t.policy.window);
      Remembers(r.t, log', horizon') && AllRest(log', horizon', r.out)
  {
    hide Remembers, Rests;
    var x, horizon' := t.fifo[i].sentAt, Later(horizon, now - t.policy.window);
    var u := t.(fifo := t.fifo[i := Settled(t.fifo[i], good, rtt, replyAt)]);
    SettledFifo(t, log, i, good, rtt, replyAt, o);
    OutcomeKeepsRest(t, log, u, log[x := o], x);
    SameSpans(t, u, log, log[x := o], horizon, now - t.policy.window);
    DrainRemembers(u, log[x := o], marks, horizon', now);
  }

  // What the target remembers before the settling part of an event.
  lemma FaultRemembers(t: Target, log: Log, horizon: Option<int>, p: Probe, reason: Reason, at: int)
    ensures Remembers(Fault(t, p, reason, at).t, log, horizon)
  {
  }

  lemma InterruptRemembers(t: Target, log: Log, horizon: Option<int>, at: int)
    requires Remembers(t, log, horizon)
    ensures Remembers(Interrupt(t, at), log, horizon)
  {
  }

  lemma JudgeRemembers(t: Target, log: Log, horizon: Option<int>, p: Probe, r: Reply, replyAt: int)
    requires Remembers(t, log, horizon)
    ensures Remembers(Judge(t, p, r, replyAt).1.t, log, horizon)
  {
    hide Fault, Remembers, IsLate, Limit;
    FaultRemembers(t, log, horizon, p, Loss, p.Deadline());
    FaultRemembers(t, log, horizon, p, Latency, replyAt);
  }

  lemma FailedWriteRemembers(t: Target, log: Log, marks: set<int>, horizon: Option<int>, i: nat, now: int)
    requires Good(t, log, marks) && Remembers(t, log, horizon) && Open(t, i) && t.fifo[i].sentAt <= now
    ensures var r, log' := FailWrite(t, i, now), log[t.fifo[i].sentAt := WriteFailed];
      var horizon' := Later(horizon, now - t.policy.window);
      Remembers(r.t, log', horizon') && AllRest(log', horizon', r.out)
  {
    hide Good, Remembers, AllRest, Settle;
    InterruptKeeps(t, log, marks, now);
    InterruptRemembers(t, log, horizon, now);
    SettleRemembers(Interrupt(t, now), log, marks + {now}, horizon, i, false, 0, t.fifo[i].replyAt, WriteFailed, now);
  }

  lemma AllRestAppends(log: Log, horizon: Option<int>, out: seq<Transition>, more: seq<Transition>)
    requires (forall k | 0 <= k < |out| :: !out[k].Recovered?) && AllRest(log, horizon, more)
    ensures AllRest(log, horizon, out + more)
  {
    hide Rests;
  }

  lemma DeadlineRemembers(t: Target, log: Log, marks: set<int>, horizon: Option<int>, i: nat, now: int)
    requires Good(t, log, marks) && Remembers(t, log, horizon) && Open(t, i)
    ensures var r, log' := Expire(t, i, now), log[t.fifo[i].sentAt := Lost];
      var horizon' := Later(horizon, now - t.policy.window);
      Remembers(r.t, log', horizon') && AllRest(log', horizon', r.out)
  {
    var p := t.fifo[i];
    assert Matches(t, log, p);
    hide Good, Remembers, AllRest, Settle, Matches;
    FaultKeeps(t, log, marks, p, Loss, p.Deadline());
    FaultRemembers(t, log, horizon, p, Loss, p.Deadline());
    var f := Fault(t, p, Loss, p.Deadline());
    SettleRemembers(f.t, log, marks + {p.Deadline()}, horizon, i, false, 0, p.replyAt, Lost, now);
    AllRestAppends(log[p.sentAt := Lost], Later(horizon, now - t.policy.window), f.out,
                   Settle(f.t, i, false, 0, p.replyAt, now).out);
  }

  lemma ReplyRemembers(t: Target, log: Log, marks: set<int>, horizon: Option<int>, i: nat, r: Reply, now: int)
    requires Good(t, log, marks) && Remembers(t, log, horizon) && Open(t, i)
    requires t.fifo[i].sentAt <= r.replyAt.GetOr(now)
    ensures var res, log' := Answer(t, i, r, now), log[t.fifo[i].sentAt := Answered(r.rtt, IsLate(t.fifo[i], r))];
      var horizon' := Later(horizon, now - t.policy.window);
      Remembers(res.t, log', horizon') && AllRest(log', horizon', res.out)
  {
    hide Good, Remembers, AllRest, Judge, ReplyMarks, SettleMarks, Settle, IsLate;
    var p, replyAt := t.fifo[i], r.replyAt.GetOr(now);
    var (good, f) := Judge(t, p, r, replyAt);
    var o := Answered(r.rtt, IsLate(p, r));
    JudgeKeeps(t, log, marks, i, r, replyAt);
    JudgeRemembers(t, log, horizon, p, r, replyAt);
    SettleRemembers(f.t, log, marks + ReplyMarks(t, p, r, replyAt), horizon, i, good, r.rtt, replyAt, o, now);
    AllRestAppends(log[p.sentAt := o], Later(horizon, now - t.policy.window), f.out,
                   Settle(f.t, i, good, r.rtt, replyAt, now).out);
  }

  // The horizon moves with the clock of every event that retires old samples.
  function Moved(policy: Policy, horizon: Option<int>, e: Event): Option<int> {
    match e
    case CullAt(at) => Later(horizon, at - policy.window)
    case FailedWrite(_, now) => Later(horizon, now - policy.window)
    case AcceptedReply(_, _, now) => Later(horizon, now - policy.window)
    case Deadline(_, now) => Later(horizon, now - policy.window)
    case NewEndpoint => None
    case _ => horizon
  }

  lemma SettlingRemembers(a: Audit, e: Event, horizon: Option<int>)
    requires Inv(a) && Enabled(a, e) && Remembers(a.t, a.log, horizon)
    requires e.FailedWrite? || e.AcceptedReply? || e.Deadline?
    ensures var r, horizon' := Effect(a.t, e), Moved(a.t.policy, horizon, e);
      Remembers(r.t, LogAfter(a, e), horizon') && AllRest(LogAfter(a, e), horizon', r.out)
  {
    hide Good, Remembers, AllRest, FailWrite, Answer, Expire;
    match e {
      case FailedWrite(i, now) => FailedWriteRemembers(a.t, a.log, a.marks, horizon, i, now);
      case AcceptedReply(i, r, now) => ReplyRemembers(a.t, a.log, a.marks, horizon, i, r, now);
      case Deadline(i, now) => DeadlineRemembers(a.t, a.log, a.marks, horizon, i, now);
    }
  }

  // A new send comes after all the run's.
  lemma LoggedRemembers(a: Audit, horizon: Option<int>, x: int, o: Outcome, u: Target)
    requires Inv(a) && Remembers(a.t, a.log, horizon) && forall y <- a.log :: y < x
    requires u == a.t.(fifo := u.fifo)
    ensures Remembers(u, a.log[x := o], horizon)
  {
    SameSpans(a.t, u, a.log, a.log[x := o], horizon, x);
  }

  lemma OtherRemembers(a: Audit, e: Event, horizon: Option<int>)
    requires Inv(a) && Enabled(a, e) && Remembers(a.t, a.log, horizon)
    requires !(e.FailedWrite? || e.AcceptedReply? || e.Deadline?)
    ensures Remembers(Effect(a.t, e).t, LogAfter(a, e), Moved(a.t.policy, horizon, e))
  {
    match e {
      case CullAt(at) => CullRemembers(a.t, a.log, horizon, at);
      case SendAt(key, sentAt, timeout) =>
        LoggedRemembers(a, horizon, sentAt, Pending, Send(a.t, key, sentAt, timeout));
      case _ =>
    }
  }

  ghost function Horizon(policy: Policy, trace: seq<Event>): Option<int> {
    if trace == [] then None
    else Moved(policy, Horizon(policy, trace[..|trace| - 1]), trace[|trace| - 1])
  }

  lemma EffectRemembers(a: Audit, e: Event, horizon: Option<int>)
    requires Inv(a) && Enabled(a, e) && Remembers(a.t, a.log, horizon)
    ensures var r, horizon' := Effect(a.t, e), Moved(a.t.policy, horizon, e);
      Remembers(r.t, LogAfter(a, e), horizon') && AllRest(LogAfter(a, e), horizon', r.out)
  {
    hide Good, Remembers, Rests, Moved, LogAfter, Alternates;
    if e.FailedWrite? || e.AcceptedReply? || e.Deadline? {
      SettlingRemembers(a, e, horizon);
    } else {
      OtherRemembers(a, e, horizon);
    }
  }

  lemma {:induction false} RunRemembers(policy: Policy, trace: seq<Event>)
    requires policy.Valid() && After(policy, trace).Some?
    ensures var a := After(policy, trace).value; Remembers(a.t, a.log, Horizon(policy, trace))
  {
    if trace != [] {
      var a, e := After(policy, trace[..|trace| - 1]).value, trace[|trace| - 1];
      RunKeeps(policy, trace[..|trace| - 1]);
      RunRemembers(policy, trace[..|trace| - 1]);
      hide Remembers, Effect, LogAfter, MarksAfter, Enabled, Inv;
      EffectRemembers(a, e, Horizon(policy, trace[..|trace| - 1]));
    }
  }

  /**
   The new normal is learned from the healthy window: the announced baseline and count are those of a
   history in send order of genuine answers to the window's sends, and it lacks none that the retained
   window still reached.
   */
  lemma RecoveryRestsOnItsWindow(policy: Policy, trace: seq<Event>, e: Event)
    requires policy.Valid() && After(policy, trace + [e]).Some?
    ensures var a, b := After(policy, trace), After(policy, trace + [e]).value;
      && a.Some? && a.value.out <= b.out
      && AllRest(b.log, Horizon(policy, trace + [e]), b.out[|a.value.out|..])
  {
    StepOf(policy, trace, e);
    assert (trace + [e])[..|trace|] == trace;
    var a := After(policy, trace).value;
    RunKeeps(policy, trace);
    RunRemembers(policy, trace);
    hide Remembers, Effect, LogAfter, MarksAfter, Enabled, Inv, AllRest, After;
    EffectRemembers(a, e, Horizon(policy, trace));
    assert Apply(a, e).out[|a.out|..] == Effect(a.t, e).out;
  }

  // ---------- what an idle target learns ----------

  // The answers among the settled probes at the head of the FIFO.
  function Turned(fifo: seq<Probe>): seq<Sample> {
    if fifo == [] || !fifo[0].done then []
    else (if fifo[0].good then [Sample(fifo[0].sentAt, fifo[0].rtt)] else []) + Turned(fifo[1..])
  }

  // The retained samples after more of them came, of which the newest retire the old.
  ghost predicate Retained(h: seq<Sample>, more: seq<Sample>, cutoff: int, h': seq<Sample>) {
    forall s :: s in h' <==> (s in h || s in more) && (more != [] ==> s.sentAt >= cutoff)
  }

  lemma AddedRetained(t: Target, s: Sample, now: int)
    requires HistorySorted(t.history)
    ensures Retained(t.history, [s], now - t.policy.window, AddSample(t, s, now).history)
  {
    PruneKeepsWindow(t.history, now - t.policy.window);
  }

  lemma RetainedTwice(h: seq<Sample>, s: Sample, h': seq<Sample>, more: seq<Sample>, cutoff: int, h'': seq<Sample>)
    requires Retained(h, [s], cutoff, h') && Retained(h', more, cutoff, h'')
    ensures Retained(h, [s] + more, cutoff, h'')
  {
  }

  lemma {:induction false} IdleDrainLearns(t: Target, log: Log, marks: set<int>, now: int)
    requires Good(t, log, marks) && !t.active
    ensures Retained(t.history, Turned(t.fifo), now - t.policy.window, Drain(t, now).t.history)
    decreases |t.fifo|
  {
    if HeadDone(t) {
      var p, u := t.fifo[0], PopHead(t, now).t;
      PopKeeps(t, log, marks, now);
      IdleDrainLearns(u, log, marks + PopMarks(t), now);
      if p.good {
        hide Drain, Turned, Retained;
        AddedRetained(t.(fifo := t.fifo[1..]), Sample(p.sentAt, p.rtt), now);
        RetainedTwice(t.history, Sample(p.sentAt, p.rtt), u.history, Turned(u.fifo), now - t.policy.window,
                      Drain(t, now).t.history);
      }
    }
  }

  lemma {:induction false} DrainShrinks(t: Target, now: int)
    ensures forall x :: InFifo(Drain(t, now).t, x) ==> InFifo(t, x)
    decreases |t.fifo|
  {
    if HeadDone(t) {
      DrainShrinks(PopHead(t, now).t, now);
      forall x | InFifo(PopHead(t, now).t, x)
        ensures InFifo(t, x)
      {
        var i :| 0 <= i < |t.fifo| - 1 && PopHead(t, now).t.fifo[i].sentAt == x;
        assert t.fifo[i + 1].sentAt == x;
      }
    }
  }

  // What left the FIFO while the target was idle, and was answered on time by the record.
  ghost predicate Left(t: Target, u: Target, log: Log, s: Sample) {
    s.sentAt in log && log[s.sentAt] == Answered(s.rtt, false) && InFifo(t, s.sentAt) && !InFifo(u, s.sentAt)
  }

  lemma HeadLeft(t: Target, log: Log, marks: set<int>, u: Target, v: Target, s: Sample)
    requires Good(t, log, marks) && VerdictsOk(t, log) && HeadDone(t) && !t.active
    requires u.fifo == t.fifo[1..] && forall x :: InFifo(v, x) ==> InFifo(u, x)
    ensures Left(t, v, log, s) <==>
      Left(u, v, log, s) || (t.fifo[0].good && s == Sample(t.fifo[0].sentAt, t.fifo[0].rtt))
  {
    BehindHead(t, log, marks);
    assert Matches(t, log, t.fifo[0]);
    assert forall x :: InFifo(u, x) <==> InFifo(t.(fifo := t.fifo[1..]), x);
    assert InFifo(t, t.fifo[0].sentAt);
  }

  lemma {:induction false} TurnedLeft(t: Target, log: Log, marks: set<int>, now: int, s: Sample)
    requires Good(t, log, marks) && Complete(t, log, marks) && !t.active
    ensures s in Turned(t.fifo) <==> Left(t, Drain(t, now).t, log, s)
    decreases |t.fifo|
  {
    if HeadDone(t) {
      var u := PopHead(t, now).t;
      PopKeeps(t, log, marks, now);
      PopCompletes(t, log, marks, now);
      TurnedLeft(u, log, marks + PopMarks(t), now, s);
      DrainShrinks(u, now);
      HeadLeft(t, log, marks, u, Drain(t, now).t, s);
    }
  }

  // What an idle target retains after probe `i` was settled is what it learned.
  ghost predicate Learns(t: Target, u: Target, log: Log, cutoff: int) {
    forall s :: s in u.history <==>
                  && (s in t.history || Left(t, u, log, s))
                  && ((exists q :: Left(t, u, log, q)) ==> s.sentAt >= cutoff)
  }

  lemma SettledGood(t: Target, log: Log, marks: set<int>, i: nat, good: bool, rtt: int, replyAt: int, o: Outcome)
    requires Good(t, log, marks) && Open(t, i)
    requires !o.Pending? && (good ==> o == Answered(rtt, false) && t.fifo[i].sentAt <= replyAt)
    requires !good ==> Covers(t.lastBad, t.fifo[i].sentAt)
    ensures var u := t.(fifo := t.fifo[i := Settled(t.fifo[i], good, rtt, replyAt)]);
      Good(u, log[t.fifo[i].sentAt := o], marks) && forall z :: InFifo(u, z) <==> InFifo(t, z)
  {
    var x := t.fifo[i].sentAt;
    var u := t.(fifo := t.fifo[i := Settled(t.fifo[i], good, rtt, replyAt)]);
    SettledFifo(t, log, i, good, rtt, replyAt, o);
    OutcomeKeepsRest(t, log, u, log[x := o], x);
  }

  lemma SettleLearns(t: Target, log: Log, marks: set<int>, i: nat, good: bool, rtt: int, replyAt: int, o: Outcome,
                     now: int)
    requires Good(t, log, marks) && Complete(t, log, marks) && Open(t, i) && !t.active
    requires !good ==> NotHealthy(t, o)
    requires !o.Pending? && (good ==> o == Answered(rtt, false) && t.fifo[i].sentAt <= replyAt)
    requires !good ==> Covers(t.lastBad, t.fifo[i].sentAt)
    ensures Learns(t, Settle(t, i, good, rtt, replyAt, now).t, log[t.fifo[i].sentAt := o], now - t.policy.window)
  {
    hide Good, Complete, NotHealthy, Drain, Turned, HistoryOk, SettledOk, WindowOk, FifoOk;
    var x := t.fifo[i].sentAt;
    var u := t.(fifo := t.fifo[i := Settled(t.fifo[i], good, rtt, replyAt)]);
    var v := Drain(u, now).t;
    assert Good(u, log[x := o], marks) && Complete(u, log[x := o], marks)
           && forall z :: InFifo(u, z) <==> InFifo(t, z) by {
      SettledGood(t, log, marks, i, good, rtt, replyAt, o);
      SettledCompletes(t, log, marks, i, good, rtt, replyAt, o);
    }
    IdleDrainLearns(u, log[x := o], marks, now);
    forall s | true
      ensures s in Turned(u.fifo) <==> Left(t, v, log[x := o], s)
    {
      TurnedLeft(u, log[x := o], marks, now, s);
    }
    assert Turned(u.fifo) != [] ==> Turned(u.fifo)[0] in Turned(u.fifo);
  }

  lemma LearnsAlike(t: Target, u: Target, v: Target, log: Log, cutoff: int)
    requires t.fifo == u.fifo && t.history == u.history && Learns(u, v, log, cutoff)
    ensures Learns(t, v, log, cutoff)
  {
    assert forall s :: Left(t, v, log, s) <==> Left(u, v, log, s) by {
      assert forall x :: InFifo(t, x) <==> InFifo(u, x);
    }
  }

  // An interrupt does not touch what an idle target has learned.
  lemma FailedWriteLearns(t: Target, log: Log, marks: set<int>, i: nat, now: int)
    requires Good(t, log, marks) && Complete(t, log, marks) && Open(t, i) && t.fifo[i].sentAt <= now && !t.active
    ensures Learns(t, FailWrite(t, i, now).t, log[t.fifo[i].sentAt := WriteFailed], now - t.policy.window)
  {
    hide Good, Complete, Settle, Learns;
    var u := Interrupt(t, now);
    InterruptKeeps(t, log, marks, now);
    FaultBars(t, log, marks + {now}, t.fifo[i], now);
    assert marks + {now} + {} == marks + {now};
    InterruptCompletes(t, log, marks, now, {});
    SettleLearns(u, log, marks + {now}, i, false, 0, t.fifo[i].replyAt, WriteFailed, now);
    LearnsAlike(t, u, FailWrite(t, i, now).t, log[t.fifo[i].sentAt := WriteFailed], now - t.policy.window);
  }

  // An idle target that announces nothing takes the reply as good.
  lemma QuietIsGood(t: Target, i: nat, r: Reply, now: int)
    requires Open(t, i) && !t.active && Answer(t, i, r, now).out == []
    ensures !IsLate(t.fifo[i], r)
    ensures Answer(t, i, r, now).t == Settle(t, i, true, r.rtt, r.replyAt.GetOr(now), now).t
  {
    hide Settle, Limit, Exceeds;
    var (good, f) := Judge(t, t.fifo[i], r, r.replyAt.GetOr(now));
    assert f.out == [];
  }

  lemma ReplyLearns(t: Target, log: Log, marks: set<int>, i: nat, r: Reply, now: int)
    requires Good(t, log, marks) && Complete(t, log, marks) && Open(t, i) && !t.active
    requires t.fifo[i].sentAt <= r.replyAt.GetOr(now) && Answer(t, i, r, now).out == []
    ensures Learns(t, Answer(t, i, r, now).t, log[t.fifo[i].sentAt := Answered(r.rtt, IsLate(t.fifo[i], r))],
                   now - t.policy.window)
  {
    hide Good, Complete, Settle, Learns, Answer, IsLate;
    QuietIsGood(t, i, r, now);
    SettleLearns(t, log, marks, i, true, r.rtt, r.replyAt.GetOr(now), Answered(r.rtt, IsLate(t.fifo[i], r)), now);
  }

  // What becomes of an idle target's history.
  ghost predicate LearnsBy(t: Target, u: Target, log: Log, e: Event) {
    match e
    case FailedWrite(_, now) => Learns(t, u, log, now - t.policy.window)
    case AcceptedReply(_, _, now) => Learns(t, u, log, now - t.policy.window)
    case CullAt(at) => forall s :: s in u.history <==> s in t.history && s.sentAt >= at - t.policy.window
    case EvictAt(_) => t.history != [] && u.history == t.history[1..]
    case NewEndpoint => u.history == []
    case _ => u.history == t.history
  }

  lemma OthersLearn(t: Target, log: Log, e: Event)
    requires HistorySorted(t.history) && !t.active && (e.EvictAt? ==> t.history != [])
    requires e.AcceptWrite? || e.EarlyReply? ==> Open(t, e.i)
    requires !e.FailedWrite? && !e.AcceptedReply? && !e.Deadline?
    ensures LearnsBy(t, Effect(t, e).t, log, e)
  {
    hide Prune, Mean, Limit;
    if e.CullAt? {
      PruneKeepsWindow(t.history, e.at - t.policy.window);
    }
  }

  lemma DeadlineAnnounces(t: Target, i: nat, now: int)
    requires Open(t, i) && !t.active
    ensures Expire(t, i, now).out != []
  {
    hide Settle, Limit;
  }

  lemma IdleLearns(a: Audit, e: Event)
    requires Inv(a) && Complete(a.t, a.log, a.marks) && Enabled(a, e) && !a.t.active && Effect(a.t, e).out == []
    ensures LearnsBy(a.t, Effect(a.t, e).t, LogAfter(a, e), e)
  {
    if e.FailedWrite? || e.AcceptedReply? || e.Deadline? {
      hide Good, Complete, Learns, Answer, FailWrite, Expire;
      match e {
        case FailedWrite(i, now) => FailedWriteLearns(a.t, a.log, a.marks, i, now);
        case AcceptedReply(i, r, now) => ReplyLearns(a.t, a.log, a.marks, i, r, now);
        case Deadline(i, now) => DeadlineAnnounces(a.t, i, now);
      }
    } else {
      hide Complete, Effect, LearnsBy;
      OthersLearn(a.t, LogAfter(a, e), e);
    }
  }

  /**
   A target without an incident learns its baseline from the record: whenever probes leave the FIFO and
   nothing is announced, its history gains exactly the on-time answers among them and retires exactly the
   samples older than the window. The prune before a send retires those too, an eviction takes the oldest one,
   and everything else leaves it alone.
   */
  lemma BaselineIsLearned(policy: Policy, trace: seq<Event>, e: Event)
    requires policy.Valid() && After(policy, trace + [e]).Some?
    requires var a := After(policy, trace);
      a.Some? && !a.value.t.active && After(policy, trace + [e]).value.out == a.value.out
    ensures var a, b := After(policy, trace).value, After(policy, trace + [e]).value;
      a.t.policy == policy && LearnsBy(a.t, b.t, b.log, e)
  {
    StepOf(policy, trace, e);
    var a := After(policy, trace).value;
    RunKeeps(policy, trace);
    RunCompletes(policy, trace);
    hide Inv, Complete, After, LearnsBy, Effect, LogAfter, MarksAfter, Enabled;
    IdleLearns(a, e);
  }
}
