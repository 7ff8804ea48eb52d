/**
 The other half of the recovery guarantee: an incident ends as soon as the record earns it.

 `ObsessRecovery` shows that every announced recovery is earned. Here is shown that no open incident
 ever has an earned window behind it, so that an event ends an incident exactly if it earns that.
 */
module ObsessProgress {
  import opened Common
  import opened ObsessTarget
  import opened ObsessRecovery

  // A window that lacks nothing but its length.
  ghost predicate Run(log: Log, marks: set<int>, limit: Option<real>, gap: int, s: int, h: int) {
    && s in log && h in log && s <= h
    && (forall x <- log | s <= x <= h :: Healthy(log[x], limit))
    && Steady(log, s, h, gap)
    && (forall m <- marks :: m <= s)
  }

  // Everything sent since `s` that has left the FIFO forms a run.
  ghost predicate Tail(t: Target, log: Log, marks: set<int>, s: int) {
    && s in log && BeforeFifo(t, s)
    && (forall x <- log | s <= x && BeforeFifo(t, x) :: Healthy(log[x], t.threshold))
    && (forall x, y | Adjacent(log, x, y) && s <= x && BeforeFifo(t, y) :: y - x <= 2 * t.policy.fast)
    && (forall m <- marks :: m <= s)
  }

  // Only unobserved probes are passed by without having been in the FIFO.
  ghost predicate PassedOk(t: Target, log: Log) {
    forall x <- log | !InFifo(t, x) && !log[x].Dropped? :: BeforeFifo(t, x)
  }

  // A probe settled as no good was lost, late, never written or over the limit.
  ghost predicate NotHealthy(t: Target, o: Outcome) {
    !Healthy(o, if t.active then t.threshold else None)
  }

  ghost predicate VerdictsOk(t: Target, log: Log) {
    forall i | 0 <= i < |t.fifo| && t.fifo[i].done && !t.fifo[i].good ::
      t.fifo[i].sentAt in log && NotHealthy(t, log[t.fifo[i].sentAt])
  }

  // Evidence is barred only by a mark, or by a send whose turn has been.
  ghost predicate BarOk(t: Target, log: Log, marks: set<int>) {
    t.lastBad.Some? ==> t.lastBad.value in marks || (t.lastBad.value in log && BeforeFifo(t, t.lastBad.value))
  }

  // The run collected so far is the longest there is, and no run was ever long enough.
  ghost predicate RunsOk(t: Target, log: Log, marks: set<int>) {
    t.active ==>
      && (forall s, h | Run(log, marks, t.threshold, 2 * t.policy.fast, s, h) && BeforeFifo(t, h) ::
            h - s < t.policy.recoverAfter)
      && (forall s | Tail(t, log, marks, s) :: t.healthySince.Some? && t.healthySince.value <= s)
      && (t.healthySince.Some? && t.healthyThrough.Some? ==>
            t.healthyThrough.value - t.healthySince.value < t.policy.recoverAfter)
  }

  ghost predicate Complete(t: Target, log: Log, marks: set<int>) {
    PassedOk(t, log) && VerdictsOk(t, log) && BarOk(t, log, marks) && RunsOk(t, log, marks)
  }

  // No run can begin with anything that has had its turn.
  ghost predicate Barred(t: Target, log: Log, marks: set<int>) {
    forall x <- log | BeforeFifo(t, x) :: exists m <- marks :: x < m
  }

  lemma BarredRunsOk(t: Target, log: Log, marks: set<int>)
    requires Barred(t, log, marks) && t.healthySince.None?
    ensures RunsOk(t, log, marks)
  {
    forall s, h | s in log && s <= h && BeforeFifo(t, h)
      ensures !Run(log, marks, t.threshold, 2 * t.policy.fast, s, h)
    {
      assert BeforeFifo(t, s);
    }
  }

  // More marks leave fewer runs.
  lemma MoreMarks(t: Target, log: Log, marks: set<int>, more: set<int>)
    requires Complete(t, log, marks)
    ensures Complete(t, log, marks + more)
  {
    forall s, h | Run(log, marks + more, t.threshold, 2 * t.policy.fast, s, h)
      ensures Run(log, marks, t.threshold, 2 * t.policy.fast, s, h)
    {
    }
    forall s | Tail(t, log, marks + more, s)
      ensures Tail(t, log, marks, s)
    {
    }
  }

  lemma InterruptCompletes(t: Target, log: Log, marks: set<int>, at: int, more: set<int>)
    requires Complete(t, log, marks) && Barred(t, log, marks + {at} + more)
    ensures Complete(Interrupt(t, at), log, marks + {at} + more)
  {
    var u := Interrupt(t, at);
    assert forall x :: BeforeFifo(u, x) <==> BeforeFifo(t, x);
    assert forall x :: InFifo(u, x) <==> InFifo(t, x);
    if t.active {
      BarredRunsOk(u, log, marks + {at} + more);
    }
  }

  // A fault of a tracked probe, no earlier than its send, bars everything that has had its turn.
  lemma FaultBars(t: Target, log: Log, marks: set<int>, p: Probe, at: int)
    requires InFifo(t, p.sentAt) && p.sentAt <= at && at in marks
    ensures Barred(t, log, marks)
  {
  }

  lemma FaultCompletes(t: Target, log: Log, marks: set<int>, p: Probe, reason: Reason, at: int)
    requires Complete(t, log, marks) && InFifo(t, p.sentAt) && p.sentAt <= at
    ensures Complete(Fault(t, p, reason, at).t, log, marks + {at})
  {
    var u := Fault(t, p, reason, at).t;
    FaultBars(t, log, marks + {at}, p, at);
    assert marks + {at} + {} == marks + {at};
    if t.active {
      InterruptCompletes(t, log, marks, at, {});
    } else {
      assert forall x :: BeforeFifo(u, x) <==> BeforeFifo(t, x);
      assert forall x :: InFifo(u, x) <==> InFifo(t, x);
      BarredRunsOk(u, log, marks + {at});
    }
  }

  // ---------- taking the settled head off the FIFO ----------

  // What has had its turn after the head is gone: the head, and what had it before.
  lemma PassedHead(t: Target, log: Log, marks: set<int>, u: Target, h: int)
    requires Good(t, log, marks) && PassedOk(t, log) && HeadDone(t) && u.fifo == t.fifo[1..]
    requires h in log && !log[h].Dropped? && BeforeFifo(u, h)
    ensures h == t.fifo[0].sentAt || BeforeFifo(t, h)
  {
    BehindHead(t, log, marks);
    assert InFifo(t, h) ==> InFifo(t.(fifo := t.fifo[1..]), h) || h == t.fifo[0].sentAt;
    assert !InFifo(t.(fifo := t.fifo[1..]), h);
  }

  // What ends with the head is a run of its own.
  lemma TailIsRun(t: Target, log: Log, marks: set<int>, u: Target, s: int)
    requires Good(t, log, marks) && PassedOk(t, log) && HeadDone(t) && u.fifo == t.fifo[1..]
    requires u.policy == t.policy && Tail(u, log, marks, s)
    ensures Run(log, marks, u.threshold, 2 * t.policy.fast, s, t.fifo[0].sentAt)
  {
    BehindHead(t, log, marks);
    hide WindowOk, HistoryOk, MarksOk, SettledOk, LimitOk;
    var p := t.fifo[0].sentAt;
    assert Matches(t, log, t.fifo[0]);
    PassedHead(t, log, marks, u, s);
    assert s <= p;
    assert forall x :: BeforeFifo(t.(fifo := t.fifo[1..]), x) ==> BeforeFifo(u, x);
    assert BeforeFifo(u, p);
    assert forall x | x <= p :: BeforeFifo(u, x);
  }

  // If no run ends with the head, its turn brings none.
  lemma NoRunEndsHere(t: Target, log: Log, marks: set<int>, u: Target, marks': set<int>)
    requires Good(t, log, marks) && Complete(t, log, marks) && HeadDone(t) && t.active && u.active
    requires u.fifo == t.fifo[1..] && u.policy == t.policy && u.threshold == t.threshold && marks <= marks'
    requires forall s :: !Run(log, marks', t.threshold, 2 * t.policy.fast, s, t.fifo[0].sentAt)
    requires u.healthySince.None? || (u.healthySince == t.healthySince && u.healthyThrough == t.healthyThrough)
    ensures RunsOk(u, log, marks')
  {
    forall s, h | Run(log, marks', t.threshold, 2 * t.policy.fast, s, h) && BeforeFifo(u, h)
      ensures h - s < t.policy.recoverAfter
    {
      PassedHead(t, log, marks, u, h);
      assert Run(log, marks, t.threshold, 2 * t.policy.fast, s, h);
    }
    forall s | Tail(u, log, marks', s)
      ensures false
    {
      assert Tail(u, log, marks, s);
      TailIsRun(t, log, marks, u, s);
      assert Run(log, marks', t.threshold, 2 * t.policy.fast, s, t.fifo[0].sentAt);
    }
  }

  // A head settled as no good, or over the incident's limit, ends no run.
  lemma BadHeadEndsNone(t: Target, log: Log, marks: set<int>)
    requires Good(t, log, marks) && VerdictsOk(t, log) && HeadDone(t) && t.active
    requires !t.fifo[0].good || Exceeds(t.fifo[0].rtt, t.threshold)
    ensures t.fifo[0].sentAt in log && !Healthy(log[t.fifo[0].sentAt], t.threshold)
  {
    assert Matches(t, log, t.fifo[0]);
  }

  // Neither does one that came before an interruption.
  lemma BarredHeadEndsNone(t: Target, log: Log, marks: set<int>, s: int)
    requires BarOk(t, log, marks) && HeadDone(t) && Before(t.fifo[0].sentAt, t.lastBad)
    ensures !Run(log, marks, t.threshold, 2 * t.policy.fast, s, t.fifo[0].sentAt)
  {
  }

  // The verdicts on what stays in the FIFO, and what barred it, do not depend on the head.
  lemma RestCompletes(t: Target, log: Log, marks: set<int>, u: Target)
    requires Good(t, log, marks) && Complete(t, log, marks) && HeadDone(t)
    requires u.fifo == t.fifo[1..] && u.active == t.active && u.threshold == t.threshold
    ensures PassedOk(u, log) && VerdictsOk(u, log)
    ensures u.lastBad == t.lastBad ==> BarOk(u, log, marks)
  {
    BehindHead(t, log, marks);
    var v := t.(fifo := t.fifo[1..]);
    assert forall x :: InFifo(u, x) <==> InFifo(v, x);
    assert forall x :: BeforeFifo(u, x) <==> BeforeFifo(v, x);
    assert forall i | 0 <= i < |u.fifo| :: u.fifo[i] == t.fifo[i + 1];
  }

  // Nothing was sent between the run collected so far and the head it accepts.
  lemma HeadFollowsRun(t: Target, log: Log, marks: set<int>)
    requires Good(t, log, marks) && Accepts(t) && t.healthySince.Some?
    ensures Adjacent(log, t.healthyThrough.value, t.fifo[0].sentAt)
  {
    assert Matches(t, log, t.fifo[0]);
    assert BeforeFifo(t, t.healthyThrough.value);
    assert forall x <- log | x < t.fifo[0].sentAt :: !InFifo(t, x);
  }

  // A run that ends with the head goes on from the run collected so far, or begins here.
  lemma RunGoesOn(t: Target, log: Log, marks: set<int>, s: int)
    requires Good(t, log, marks) && Complete(t, log, marks) && Accepts(t)
    requires Run(log, marks, t.threshold, 2 * t.policy.fast, s, t.fifo[0].sentAt) && s < t.fifo[0].sentAt
    ensures t.healthySince.Some? && t.healthySince.value <= s
    ensures t.fifo[0].sentAt - t.healthyThrough.value <= 2 * t.policy.fast
  {
    var p := t.fifo[0].sentAt;
    assert Matches(t, log, t.fifo[0]);
    assert forall x | x < p :: BeforeFifo(t, x);
    assert Tail(t, log, marks, s);
    HeadFollowsRun(t, log, marks);
    assert !InFifo(t, s);
  }

  // The healthy run with the head counted in begins with the run collected so far, or with the head.
  ghost predicate Goes(t: Target, u: Target)
    requires t.fifo != []
  {
    && u.fifo == t.fifo[1..] && u.active && u.threshold == t.threshold && u.policy == t.policy
    && u.healthyThrough == Some(t.fifo[0].sentAt) && u.healthySince.Some?
    && (if t.healthyThrough.Some? && t.fifo[0].sentAt - t.healthyThrough.value <= 2 * t.policy.fast
        then u.healthySince == t.healthySince else u.healthySince.value == t.fifo[0].sentAt)
  }

  lemma RunBeginsInTime(t: Target, log: Log, marks: set<int>, u: Target, s: int)
    requires Good(t, log, marks) && Complete(t, log, marks) && Accepts(t) && Goes(t, u)
    requires Run(log, marks, t.threshold, 2 * t.policy.fast, s, t.fifo[0].sentAt)
    ensures u.healthySince.value <= s
  {
    if s < t.fifo[0].sentAt {
      RunGoesOn(t, log, marks, s);
    } else if t.healthySince.Some? {
      assert BeforeFifo(t, t.healthyThrough.value);
    }
  }

  lemma CountedRunsOk(t: Target, log: Log, marks: set<int>, u: Target)
    requires Good(t, log, marks) && Complete(t, log, marks) && Accepts(t) && Goes(t, u)
    requires u.healthyThrough.value - u.healthySince.value < t.policy.recoverAfter
    ensures RunsOk(u, log, marks)
  {
    forall s, h | Run(log, marks, u.threshold, 2 * u.policy.fast, s, h) && BeforeFifo(u, h)
      ensures h - s < u.policy.recoverAfter
    {
      PassedHead(t, log, marks, u, h);
      if h == t.fifo[0].sentAt {
        RunBeginsInTime(t, log, marks, u, s);
      }
    }
    forall s | Tail(u, log, marks, s)
      ensures u.healthySince.value <= s
    {
      TailIsRun(t, log, marks, u, s);
      RunBeginsInTime(t, log, marks, u, s);
    }
  }

  // Evidence is only taken when no probe known to be bad is still waiting.
  lemma NoBadWaits(t: Target, log: Log, marks: set<int>, u: Target)
    requires Good(t, log, marks) && Accepts(t) && u.fifo == t.fifo[1..]
    ensures VerdictsOk(u, log)
  {
    forall i | 0 <= i < |u.fifo|
      ensures !(u.fifo[i].done && !u.fifo[i].good)
    {
      assert Matches(t, log, t.fifo[i + 1]);
    }
  }

  lemma EvidenceGoes(t: Target, now: int)
    requires t.healthySince.Some? <==> t.healthyThrough.Some?
    requires Accepts(t)
    ensures var p, u := t.fifo[0], Evidence(t.(fifo := t.fifo[1..]), t.fifo[0], now).t;
      && u.fifo == t.fifo[1..] && (u.lastBad == t.lastBad || u.lastBad == Some(p.sentAt))
      && (u.active ==> Goes(t, u) && u.healthyThrough.value - u.healthySince.value < t.policy.recoverAfter)
  {
    hide Mean, Prune;
  }

  lemma EvidenceRests(t: Target, log: Log, marks: set<int>, u: Target)
    requires Good(t, log, marks) && Complete(t, log, marks) && Accepts(t)
    requires u.fifo == t.fifo[1..] && (u.lastBad == t.lastBad || u.lastBad == Some(t.fifo[0].sentAt))
    ensures PassedOk(u, log) && VerdictsOk(u, log) && BarOk(u, log, marks)
  {
    RestCompletes(t, log, marks, u.(active := t.active, threshold := t.threshold));
    NoBadWaits(t, log, marks, u);
    BehindHead(t, log, marks);
    assert Matches(t, log, t.fifo[0]);
    assert BeforeFifo(u, t.fifo[0].sentAt);
  }

  lemma EvidenceCompletes(t: Target, log: Log, marks: set<int>, now: int)
    requires Good(t, log, marks) && Complete(t, log, marks) && Accepts(t)
    ensures Complete(Evidence(t.(fifo := t.fifo[1..]), t.fifo[0], now).t, log, marks)
  {
    hide Evidence, PassedOk, VerdictsOk, BarOk;
    var u := Evidence(t.(fifo := t.fifo[1..]), t.fifo[0], now).t;
    EvidenceGoes(t, now);
    EvidenceRests(t, log, marks, u);
    if u.active {
      CountedRunsOk(t, log, marks, u);
    }
  }

  // Taking the settled head off keeps every run accounted for.
  lemma PopCompletes(t: Target, log: Log, marks: set<int>, now: int)
    requires Good(t, log, marks) && Complete(t, log, marks) && HeadDone(t)
    ensures Complete(PopHead(t, now).t, log, marks + PopMarks(t))
  {
    hide Evidence, Mean, Prune;
    var p, u := t.fifo[0], PopHead(t, now).t;
    assert marks + {} == marks;
    if Accepts(t) {
      EvidenceCompletes(t, log, marks, now);
    } else if !t.active {
      RestCompletes(t, log, marks, u);
    } else if !p.good {
      RestCompletes(t, log, marks, u);
      BadHeadEndsNone(t, log, marks);
      NoRunEndsHere(t, log, marks, u, marks);
    } else if Exceeds(p.rtt, t.threshold) {
      RestCompletes(t, log, marks, u);
      BadHeadEndsNone(t, log, marks);
      NoRunEndsHere(t, log, marks, u, marks + PopMarks(t));
    } else {
      RestCompletes(t, log, marks, u);
      forall s | true
        ensures !Run(log, marks, t.threshold, 2 * t.policy.fast, s, p.sentAt)
      {
        BarredHeadEndsNone(t, log, marks, s);
      }
      NoRunEndsHere(t, log, marks, u, marks);
    }
  }

  lemma {:induction false} DrainCompletes(t: Target, log: Log, marks: set<int>, now: int)
    requires Good(t, log, marks) && Complete(t, log, marks)
    ensures Complete(Drain(t, now).t, log, marks + DrainMarks(t, now))
    decreases |t.fifo|
  {
    hide PopHead, PopMarks, Good, Complete, Justified;
    if HeadDone(t) {
      var r := PopHead(t, now);
      PopKeeps(t, log, marks, now);
      PopCompletes(t, log, marks, now);
      PopOnlyRecovers(t, now);
      DrainCompletes(r.t, log, marks + PopMarks(t), now);
      assert marks + (PopMarks(t) + DrainMarks(r.t, now)) == marks + PopMarks(t) + DrainMarks(r.t, now);
    } else {
      assert marks + {} == marks;
    }
  }

  // ---------- every event keeps all runs accounted for ----------

  // Runs that have had their turn do not look at the outcomes of tracked probes.
  lemma OutcomeKeepsRuns(t: Target, log: Log, marks: set<int>, u: Target, log': Log, x: int)
    requires RunsOk(t, log, marks) && InFifo(t, x) && u == t.(fifo := u.fifo)
    requires log'.Keys == log.Keys && forall z <- log | z != x :: log'[z] == log[z]
    requires forall z :: BeforeFifo(u, z) <==> BeforeFifo(t, z)
    ensures RunsOk(u, log', marks)
  {
    var gap := 2 * t.policy.fast;
    assert forall y, z :: Adjacent(log', y, z) <==> Adjacent(log, y, z);
    forall s, h | Run(log', marks, t.threshold, gap, s, h) && BeforeFifo(t, h)
      ensures Run(log, marks, t.threshold, gap, s, h)
    {
      assert forall z <- log | z <= h :: log'[z] == log[z];
    }
    forall s | Tail(u, log', marks, s)
      ensures Tail(t, log, marks, s)
    {
    }
  }

  // The verdict the settled probe gets is the one the log gives.
  lemma SettledCompletes(t: Target, log: Log, marks: set<int>, i: nat, good: bool, rtt: int, replyAt: int, o: Outcome)
    requires Good(t, log, marks) && Complete(t, log, marks) && Open(t, i) && (!good ==> NotHealthy(t, o))
    requires !o.Pending? && (good ==> o == Answered(rtt, false) && t.fifo[i].sentAt <= replyAt)
    requires !good ==> Covers(t.lastBad, t.fifo[i].sentAt)
    ensures var u := t.(fifo := t.fifo[i := Settled(t.fifo[i], good, rtt, replyAt)]);
      Complete(u, log[t.fifo[i].sentAt := o], marks)
  {
    hide WindowOk, HistoryOk, MarksOk, SettledOk, RunsOk;
    var x := t.fifo[i].sentAt;
    var u := t.(fifo := t.fifo[i := Settled(t.fifo[i], good, rtt, replyAt)]);
    SettledFifo(t, log, i, good, rtt, replyAt, o);
    OutcomeKeepsRuns(t, log, marks, u, log[x := o], x);
    forall j | 0 <= j < |u.fifo| && u.fifo[j].done && !u.fifo[j].good
      ensures u.fifo[j].sentAt in log && NotHealthy(u, log[x := o][u.fifo[j].sentAt])
    {
      if j != i {
        assert u.fifo[j] == t.fifo[j];
      }
    }
  }

  lemma SettleCompletes(t: Target, log: Log, marks: set<int>, i: nat, good: bool, rtt: int, replyAt: int, o: Outcome,
                        now: int)
    requires Good(t, log, marks) && Complete(t, log, marks) && Open(t, i) && (!good ==> NotHealthy(t, o))
    requires !o.Pending? && (good ==> o == Answered(rtt, false) && t.fifo[i].sentAt <= replyAt)
    requires !good ==> Covers(t.lastBad, t.fifo[i].sentAt)
    ensures Complete(Settle(t, i, good, rtt, replyAt, now).t, log[t.fifo[i].sentAt := o],
                     marks + SettleMarks(t, i, good, rtt, replyAt, now))
  {
    hide Complete;
    var x := t.fifo[i].sentAt;
    var u := t.(fifo := t.fifo[i := Settled(t.fifo[i], good, rtt, replyAt)]);
    SettledFifo(t, log, i, good, rtt, replyAt, o);
    OutcomeKeepsRest(t, log, u, log[x := o], x);
    SettledCompletes(t, log, marks, i, good, rtt, replyAt, o);
    DrainCompletes(u, log[x := o], marks, now);
  }

  lemma FailedWriteCompletes(t: Target, log: Log, marks: set<int>, i: nat, now: int)
    requires Good(t, log, marks) && Complete(t, log, marks) && Open(t, i) && t.fifo[i].sentAt <= now
    ensures Complete(FailWrite(t, i, now).t, log[t.fifo[i].sentAt := WriteFailed],
                     marks + {now} + SettleMarks(Interrupt(t, now), i, false, 0, t.fifo[i].replyAt, now))
  {
    hide Good, Complete, SettleMarks, Settle;
    var u := Interrupt(t, now);
    InterruptKeeps(t, log, marks, now);
    FaultBars(t, log, marks + {now}, t.fifo[i], now);
    assert marks + {now} + {} == marks + {now};
    InterruptCompletes(t, log, marks, now, {});
    SettleCompletes(u, log, marks + {now}, i, false, 0, t.fifo[i].replyAt, WriteFailed, now);
  }

  lemma DeadlineCompletes(t: Target, log: Log, marks: set<int>, i: nat, now: int)
    requires Good(t, log, marks) && Complete(t, log, marks) && Open(t, i)
    ensures var p := t.fifo[i];
      Complete(Expire(t, i, now).t, log[p.sentAt := Lost],
               marks + {p.Deadline()} + SettleMarks(Fault(t, p, Loss, p.Deadline()).t, i, false, 0, p.replyAt, now))
  {
    var p := t.fifo[i];
    assert Matches(t, log, p);
    hide Good, Complete, SettleMarks, Settle, Matches;
    FaultKeeps(t, log, marks, p, Loss, p.Deadline());
    FaultCompletes(t, log, marks, p, Loss, p.Deadline());
    SettleCompletes(Fault(t, p, Loss, p.Deadline()).t, log, marks + {p.Deadline()}, i, false, 0, p.replyAt, Lost, now);
  }

  // What a reply is judged to be is what the log says of it under the limit then in force.
  lemma JudgeCompletes(t: Target, log: Log, marks: set<int>, i: nat, r: Reply, replyAt: int)
    requires Good(t, log, marks) && Complete(t, log, marks) && Open(t, i) && t.fifo[i].sentAt <= replyAt
    ensures var p := t.fifo[i]; var (good, f) := Judge(t, p, r, replyAt);
      && Complete(f.t, log, marks + ReplyMarks(t, p, r, replyAt))
      && (!good ==> NotHealthy(f.t, Answered(r.rtt, IsLate(p, r))))
  {
    var p := t.fifo[i];
    assert Matches(t, log, p);
    assert InFifo(t, p.sentAt);
    hide Good, Complete, Limit;
    if IsLate(p, r) {
      FaultCompletes(t, log, marks, p, Loss, p.Deadline());
    } else if Exceeds(r.rtt, Effective(t, p)) {
      FaultCompletes(t, log, marks, p, Latency, replyAt);
    } else {
      assert marks + {} == marks;
    }
  }

  lemma ReplyCompletes(t: Target, log: Log, marks: set<int>, i: nat, r: Reply, now: int)
    requires Good(t, log, marks) && Complete(t, log, marks) && Open(t, i) && t.fifo[i].sentAt <= r.replyAt.GetOr(now)
    ensures var replyAt := r.replyAt.GetOr(now);
      var (good, f) := Judge(t, t.fifo[i], r, replyAt);
      Complete(Answer(t, i, r, now).t, log[t.fifo[i].sentAt := Answered(r.rtt, IsLate(t.fifo[i], r))],
               marks + ReplyMarks(t, t.fifo[i], r, replyAt) + SettleMarks(f.t, i, good, r.rtt, replyAt, now))
  {
    hide Good, Complete, Judge, ReplyMarks, SettleMarks, Settle, IsLate, NotHealthy;
    var p, replyAt := t.fifo[i], r.replyAt.GetOr(now);
    var (good, f) := Judge(t, p, r, replyAt);
    JudgeKeeps(t, log, marks, i, r, replyAt);
    JudgeCompletes(t, log, marks, i, r, replyAt);
    SettleCompletes(f.t, log, marks + ReplyMarks(t, p, r, replyAt), i, good, r.rtt, replyAt,
                    Answered(r.rtt, IsLate(p, r)), now);
  }

  // At rest, everything that has had its turn is closed, so a pause bars it.
  lemma SpentBars(t: Target, log: Log, marks: set<int>)
    requires SettledOk(t, log) && Spent(log) <= marks
    ensures Barred(t, log, marks)
  {
    forall x <- log | BeforeFifo(t, x)
      ensures exists m <- marks :: x < m
    {
      assert forall y <- log | y <= x :: !InFifo(t, y);
      assert Closed(log, x);
      assert x + 1 in marks;
    }
  }

  lemma PauseCompletes(t: Target, log: Log, marks: set<int>, now: int)
    requires Good(t, log, marks) && Complete(t, log, marks)
    ensures Complete(Interrupt(t, now), log, marks + {now} + Spent(log))
  {
    hide Complete, Spent;
    SpentBars(t, log, marks + {now} + Spent(log));
    InterruptCompletes(t, log, marks, now, Spent(log));
  }

  // What the history holds is of no account here.
  lemma SameRuns(t: Target, log: Log, marks: set<int>, u: Target)
    requires Complete(t, log, marks) && u == t.(history := u.history, trackingLimited := u.trackingLimited)
    ensures Complete(u, log, marks)
  {
    assert forall x :: BeforeFifo(u, x) <==> BeforeFifo(t, x);
    assert forall x :: InFifo(u, x) <==> InFifo(t, x);
    forall s | Tail(u, log, marks, s)
      ensures Tail(t, log, marks, s)
    {
    }
  }

  lemma EvictCompletes(t: Target, log: Log, marks: set<int>, now: int)
    requires Good(t, log, marks) && Complete(t, log, marks) && t.history != []
    ensures Complete(Evict(t, now), log, marks + {now} + Spent(log))
  {
    hide Good, Complete, Spent;
    var u := t.(history := t.history[1..], trackingLimited := true);
    HistoryShrinks(t, log, marks, 1, true);
    SameRuns(t, log, marks, u);
    PauseCompletes(u, log, marks, now);
  }

  lemma NeighboursStay(log: Log, x: int, o: Outcome, y: int, z: int)
    requires forall w <- log :: w < x
    requires z < x
    ensures Adjacent(log[x := o], y, z) <==> Adjacent(log, y, z)
  {
    var log' := log[x := o];
    assert forall w :: w in log' <==> w in log || w == x;
  }

  // A new send has not had its turn.
  lemma SendKeepsRuns(t: Target, log: Log, marks: set<int>, u: Target, x: int, o: Outcome)
    requires RunsOk(t, log, marks) && u == t.(fifo := u.fifo) && forall z <- log :: z < x
    requires forall z :: BeforeFifo(u, z) <==> BeforeFifo(t, z) && z < x
    ensures RunsOk(u, log[x := o], marks)
  {
    var gap, log' := 2 * t.policy.fast, log[x := o];
    forall y, z | z < x
      ensures Adjacent(log', y, z) <==> Adjacent(log, y, z)
    {
      NeighboursStay(log, x, o, y, z);
    }
    forall s, h | Run(log', marks, t.threshold, gap, s, h) && BeforeFifo(u, h)
      ensures Run(log, marks, t.threshold, gap, s, h)
    {
      assert forall z <- log | z <= h :: log'[z] == log[z];
    }
    forall s | Tail(u, log', marks, s)
      ensures Tail(t, log, marks, s)
    {
      assert forall z <- log :: BeforeFifo(u, z) <==> BeforeFifo(t, z);
    }
  }

  // Nor has it got a verdict.
  lemma SendKeepsVerdicts(t: Target, log: Log, marks: set<int>, u: Target, p: Probe)
    requires VerdictsOk(t, log) && PassedOk(t, log) && BarOk(t, log, marks)
    requires forall x <- log :: x < p.sentAt
    requires u == t.(fifo := t.fifo + [p]) && !p.done
    requires forall x :: InFifo(u, x) <==> InFifo(t, x) || x == p.sentAt
    requires forall x :: BeforeFifo(u, x) <==> BeforeFifo(t, x) && x < p.sentAt
    ensures var log' := log[p.sentAt := Pending]; VerdictsOk(u, log') && PassedOk(u, log') && BarOk(u, log', marks)
  {
    hide InFifo, BeforeFifo;
    var log' := log[p.sentAt := Pending];
    forall i | 0 <= i < |u.fifo| && u.fifo[i].done && !u.fifo[i].good
      ensures u.fifo[i].sentAt in log' && NotHealthy(u, log'[u.fifo[i].sentAt])
    {
      assert u.fifo[i] == t.fifo[i];
    }
  }

  lemma SendCompletes(t: Target, log: Log, marks: set<int>, key: ProbeKey, sentAt: int, timeout: int)
    requires Good(t, log, marks) && Complete(t, log, marks) && timeout > 0 && forall x <- log :: x < sentAt
    ensures Complete(Send(t, key, sentAt, timeout), log[sentAt := Pending], marks)
  {
    hide Good, PassedOk, VerdictsOk, BarOk, RunsOk, Mean, Limit;
    var p, u := Capture(t, key, sentAt, timeout), Send(t, key, sentAt, timeout);
    SendInFifo(t, p);
    SendKeepsVerdicts(t, log, marks, u, p);
    SendKeepsRuns(t, log, marks, u, sentAt, Pending);
  }

  // An unobserved probe bars everything sent before it.
  lemma DropCompletes(t: Target, log: Log, marks: set<int>, sentAt: int, timeout: int)
    requires Good(t, log, marks) && Complete(t, log, marks) && timeout > 0 && forall x <- log :: x < sentAt
    ensures Complete(Drop(t, sentAt, timeout), log[sentAt := Dropped], marks + {sentAt + timeout})
  {
    hide WindowOk, HistoryOk, MarksOk, SettledOk, LimitOk;
    var u, log', marks' := Drop(t, sentAt, timeout), log[sentAt := Dropped], marks + {sentAt + timeout};
    assert forall x :: BeforeFifo(u, x) <==> BeforeFifo(t, x);
    assert forall x :: InFifo(u, x) <==> InFifo(t, x);
    if t.active {
      BarredRunsOk(u, log', marks');
    }
  }

  lemma TouchCompletes(t: Target, log: Log, marks: set<int>, i: nat, q: Probe)
    requires Good(t, log, marks) && Complete(t, log, marks) && Open(t, i)
    requires var p := t.fifo[i]; q == p.(accepted := q.accepted, early := q.early)
    requires q.early.Some? ==> Follows(q, q.early.value)
    ensures Complete(t.(fifo := t.fifo[i := q]), log, marks)
  {
    hide WindowOk, HistoryOk, MarksOk, SettledOk, RunsOk;
    var u := t.(fifo := t.fifo[i := q]);
    TouchedFifo(t, log, i, q);
    OutcomeKeepsRuns(t, log, marks, u, log, t.fifo[i].sentAt);
  }

  lemma AcceptCompletes(t: Target, log: Log, marks: set<int>, i: nat)
    requires Good(t, log, marks) && Complete(t, log, marks) && Open(t, i)
    ensures Complete(Accept(t, i), log, marks)
  {
    assert Matches(t, log, t.fifo[i]);
    TouchCompletes(t, log, marks, i, t.fifo[i].(accepted := true));
  }

  lemma EarlyCompletes(t: Target, log: Log, marks: set<int>, i: nat, r: Reply)
    requires Good(t, log, marks) && Complete(t, log, marks) && Open(t, i) && Follows(t.fifo[i], r)
    ensures Complete(Early(t, i, r), log, marks)
  {
    if t.fifo[i].early.None? {
      TouchCompletes(t, log, marks, i, t.fifo[i].(early := Some(r)));
    }
  }

  lemma InitialCompletes(policy: Policy)
    ensures Complete(Initial(policy), map[], {})
  {
  }

  lemma SettlingCompletes(a: Audit, e: Event)
    requires Inv(a) && Complete(a.t, a.log, a.marks) && Enabled(a, e)
    requires e.FailedWrite? || e.AcceptedReply? || e.Deadline?
    ensures Complete(Effect(a.t, e).t, LogAfter(a, e), MarksAfter(a, e))
  {
    hide Good, Complete, Answer, Expire, FailWrite, SettleMarks, Judge, Fault, Interrupt, ReplyMarks;
    match e {
      case FailedWrite(i, now) => FailedWriteCompletes(a.t, a.log, a.marks, i, now);
      case AcceptedReply(i, r, now) => ReplyCompletes(a.t, a.log, a.marks, i, r, now);
      case Deadline(i, now) => DeadlineCompletes(a.t, a.log, a.marks, i, now);
    }
  }

  lemma OtherCompletes(a: Audit, e: Event)
    requires Inv(a) && Complete(a.t, a.log, a.marks) && Enabled(a, e)
    requires !(e.FailedWrite? || e.AcceptedReply? || e.Deadline?)
    ensures Complete(Effect(a.t, e).t, LogAfter(a, e), MarksAfter(a, e))
  {
    hide Good, Complete, Evict, Send, Drop, Accept, Early, Spent;
    match e {
      case CullAt(at) => SameRuns(a.t, a.log, a.marks, Cull(a.t, at));
      case EvictAt(now) => EvictCompletes(a.t, a.log, a.marks, now);
      case SendAt(key, sentAt, timeout) => SendCompletes(a.t, a.log, a.marks, key, sentAt, timeout);
      case DropAt(sentAt, timeout) => DropCompletes(a.t, a.log, a.marks, sentAt, timeout);
      case AcceptWrite(i) => AcceptCompletes(a.t, a.log, a.marks, i);
      case EarlyReply(i, r) => EarlyCompletes(a.t, a.log, a.marks, i, r);
      case GapAt(now) => PauseCompletes(a.t, a.log, a.marks, now);
      case NewEndpoint => InitialCompletes(a.t.policy);
    }
  }

  /** Every event keeps every run accounted for. */
  lemma ApplyCompletes(a: Audit, e: Event)
    requires Inv(a) && Complete(a.t, a.log, a.marks) && Enabled(a, e)
    ensures Complete(Apply(a, e).t, Apply(a, e).log, Apply(a, e).marks)
  {
    hide Complete, Effect, LogAfter, MarksAfter, Good;
    if e.FailedWrite? || e.AcceptedReply? || e.Deadline? {
      SettlingCompletes(a, e);
    } else {
      OtherCompletes(a, e);
    }
  }

  // ---------- whole runs ----------

  lemma {:induction false} RunCompletes(policy: Policy, trace: seq<Event>)
    requires policy.Valid() && After(policy, trace).Some?
    ensures var a := After(policy, trace).value; Complete(a.t, a.log, a.marks)
  {
    hide Complete, Apply;
    if trace == [] {
      InitialCompletes(policy);
    } else {
      var a, e := After(policy, trace[..|trace| - 1]).value, trace[|trace| - 1];
      RunKeeps(policy, trace[..|trace| - 1]);
      RunCompletes(policy, trace[..|trace| - 1]);
      ApplyCompletes(a, e);
    }
  }

  // At rest, what is settled with everything before it has had its turn.
  lemma NoneEarned(a: Audit, s: int, h: int)
    requires Inv(a) && Complete(a.t, a.log, a.marks) && a.t.active
    ensures !Earned(a.log, a.marks, a.t.policy, a.t.threshold, s, h)
  {
    if Earned(a.log, a.marks, a.t.policy, a.t.threshold, s, h) {
      ClosedIsBehind(a.t, a.log, h);
      assert Run(a.log, a.marks, a.t.threshold, 2 * a.t.policy.fast, s, h);
    }
  }

  /**
   No incident outlives its end: while one is open, no window of sends in the record would justify
   ending it. Whatever window lasts long enough, is healthy under the frozen limit, close enough and fully
   resolved has been interrupted.
   */
  lemma IncidentsEnd(policy: Policy, trace: seq<Event>)
    requires policy.Valid() && After(policy, trace).Some? && After(policy, trace).value.t.active
    ensures var a := After(policy, trace).value;
      forall s, h :: !Earned(a.log, a.marks, policy, a.t.threshold, s, h)
  {
    var a := After(policy, trace).value;
    RunKeeps(policy, trace);
    RunCompletes(policy, trace);
    forall s, h | true
      ensures !Earned(a.log, a.marks, policy, a.t.threshold, s, h)
    {
      NoneEarned(a, s, h);
    }
  }

  lemma SecondStarts(out: seq<Transition>, after: bool)
    requires Chain(true, out, after) && |out| > 1
    ensures out[1].Started?
  {
  }

  lemma OnlyOnce(out: seq<Transition>, after: bool, limit: Option<real>)
    requires Chain(true, out, after) && forall k | 0 <= k < |out| :: out[k].Recovered? && out[k].limit == limit
    ensures if after then out == [] else |out| == 1 && out[0].Recovered? && out[0].limit == limit
  {
    if |out| > 1 {
      SecondStarts(out, after);
    }
  }

  // An event other than a new endpoint can only end an open incident, with one recovery that carries its limit.
  lemma EffectEnds(t: Target, e: Event)
    requires e.EvictAt? ==> t.history != []
    requires e.AcceptWrite? || e.FailedWrite? || e.EarlyReply? || e.AcceptedReply? || e.Deadline? ==> Open(t, e.i)
    requires t.active && !e.NewEndpoint?
    ensures var r := Effect(t, e);
      if r.t.active then r.out == [] else |r.out| == 1 && r.out[0].Recovered? && r.out[0].limit == t.threshold
  {
    hide Settle, Limit, Mean, Prune;
    EffectChains(t, e);
    match e {
      case FailedWrite(i, now) =>
        SettleChains(Interrupt(t, now), i, false, 0, t.fifo[i].replyAt, now);
      case AcceptedReply(i, r, now) =>
        var (good, f) := Judge(t, t.fifo[i], r, r.replyAt.GetOr(now));
        SettleChains(f.t, i, good, r.rtt, r.replyAt.GetOr(now), now);
      case Deadline(i, now) =>
        SettleChains(Fault(t, t.fifo[i], Loss, t.fifo[i].Deadline()).t, i, false, 0, t.fifo[i].replyAt, now);
      case _ =>
    }
    OnlyOnce(Effect(t, e).out, Effect(t, e).t.active, t.threshold);
  }

  lemma StepOf(policy: Policy, trace: seq<Event>, e: Event)
    requires After(policy, trace + [e]).Some?
    ensures After(policy, trace).Some?
    ensures var a := After(policy, trace).value; Enabled(a, e) && After(policy, trace + [e]).value == Apply(a, e)
    ensures var a := After(policy, trace).value;
      && (e.EvictAt? ==> a.t.history != [])
      && (e.AcceptWrite? || e.FailedWrite? || e.EarlyReply? || e.AcceptedReply? || e.Deadline? ==> Open(a.t, e.i))
  {
    hide Effect, LogAfter, MarksAfter;
    assert (trace + [e])[..|trace|] == trace;
  }

  /**
   An event ends an open incident if and only if the record then holds a window that earns it; the one
   transition announced is the recovery. A new endpoint apart, nothing else ends an incident.
   */
  lemma RecoversExactlyWhenEarned(policy: Policy, trace: seq<Event>, e: Event)
    requires policy.Valid() && After(policy, trace + [e]).Some? && !e.NewEndpoint?
    requires After(policy, trace).Some? && After(policy, trace).value.t.active
    ensures var a, b := After(policy, trace).value, After(policy, trace + [e]).value;
      && a.out <= b.out
      && (b.t.active <==> b.out == a.out)
      && (!b.t.active ==> |b.out| == |a.out| + 1 && b.out[|a.out|].Recovered?)
      && (!b.t.active <==> exists s, h :: Earned(b.log, b.marks, policy, a.t.threshold, s, h))
  {
    hide Effect, LogAfter, MarksAfter, Enabled, Earned;
    assert (trace + [e])[..|trace|] == trace;
    var a, b := After(policy, trace).value, After(policy, trace + [e]).value;
    StepOf(policy, trace, e);
    EffectEnds(a.t, e);
    RunKeeps(policy, trace);
    if b.t.active {
      EffectFreezes(a.t, e);
      IncidentsEnd(policy, trace + [e]);
    } else {
      ApplyKeeps(a, e);
      var tr := Effect(a.t, e).out[0];
      assert Justified(b.log, b.marks, policy, tr);
      assert Earned(b.log, b.marks, policy, a.t.threshold, tr.since, tr.through);
    }
  }
}
