/**
 What the controller shows of a target between its announcements: the incident shown is the one announced
 last, tracking is limited since capacity was last lost, and a probe keeps the first reply that came before
 its write was over.
 */
module ObsessStatus {
  import opened Common
  import opened ObsessTarget
  import opened ObsessRecovery
  import opened ObsessProgress

  // ---------- the incident shown ----------

  // An open incident shows reason and time of the last announcement, which started it.
  ghost predicate Shown(t: Target, out: seq<Transition>) {
    if t.active then
      && out != [] && out[|out| - 1].Started?
      && t.reason == Some(out[|out| - 1].reason) && t.since == Some(out[|out| - 1].at)
    else t.reason.None? && t.since.None?
  }

  lemma PopShows(t: Target, out: seq<Transition>, now: int)
    requires Shown(t, out) && HeadDone(t)
    ensures Shown(PopHead(t, now).t, out + PopHead(t, now).out)
  {
    hide Mean, Prune, Limit;
    assert out + [] == out;
  }

  lemma {:induction false} DrainShows(t: Target, out: seq<Transition>, now: int)
    requires Shown(t, out)
    ensures Shown(Drain(t, now).t, out + Drain(t, now).out)
    decreases |t.fifo|
  {
    hide PopHead, Shown;
    if HeadDone(t) {
      var r := PopHead(t, now);
      PopShows(t, out, now);
      PopOnlyRecovers(t, now);
      DrainShows(r.t, out + r.out, now);
      assert out + (r.out + Drain(r.t, now).out) == out + r.out + Drain(r.t, now).out;
    } else {
      assert out + [] == out;
    }
  }

  lemma FaultShows(t: Target, out: seq<Transition>, p: Probe, reason: Reason, at: int)
    requires Shown(t, out)
    ensures Shown(Fault(t, p, reason, at).t, out + Fault(t, p, reason, at).out)
  {
    hide Limit;
    assert out + [] == out;
  }

  // A fault, or none, and then what the settled probe releases.
  lemma SettleShows(f: Result, out: seq<Transition>, i: nat, good: bool, rtt: int, replyAt: int, now: int)
    requires Open(f.t, i) && Shown(f.t, out + f.out)
    ensures var s := Settle(f.t, i, good, rtt, replyAt, now); Shown(s.t, out + (f.out + s.out))
  {
    var u := f.t.(fifo := f.t.fifo[i := Settled(f.t.fifo[i], good, rtt, replyAt)]);
    DrainShows(u, out + f.out, now);
    assert out + (f.out + Drain(u, now).out) == out + f.out + Drain(u, now).out;
  }

  lemma InterruptShows(t: Target, out: seq<Transition>, at: int)
    requires Shown(t, out)
    ensures Shown(Interrupt(t, at), out)
  {
  }

  lemma SettlingShows(t: Target, e: Event, out: seq<Transition>)
    requires Shown(t, out) && (e.FailedWrite? || e.AcceptedReply? || e.Deadline?) && Open(t, e.i)
    ensures Shown(Effect(t, e).t, out + Effect(t, e).out)
  {
    hide Settle, Shown, Limit;
    assert out + [] == out;
    match e {
      case FailedWrite(i, now) =>
        assert Shown(Interrupt(t, now), out) by { InterruptShows(t, out, now); }
        SettleShows(Result(Interrupt(t, now), []), out, i, false, 0, t.fifo[i].replyAt, now);
        assert [] + Settle(Interrupt(t, now), i, false, 0, t.fifo[i].replyAt, now).out
            == Settle(Interrupt(t, now), i, false, 0, t.fifo[i].replyAt, now).out;
      case AcceptedReply(i, r, now) =>
        var p, replyAt := t.fifo[i], r.replyAt.GetOr(now);
        var (good, f) := Judge(t, p, r, replyAt);
        FaultShows(t, out, p, Loss, p.Deadline());
        FaultShows(t, out, p, Latency, replyAt);
        SettleShows(f, out, i, good, r.rtt, replyAt, now);
      case Deadline(i, now) =>
        var p := t.fifo[i];
        FaultShows(t, out, p, Loss, p.Deadline());
        SettleShows(Fault(t, p, Loss, p.Deadline()), out, i, false, 0, p.replyAt, now);
    }
  }

  lemma EffectShows(t: Target, e: Event, out: seq<Transition>)
    requires Shown(t, out) && (e.EvictAt? ==> t.history != [])
    requires e.AcceptWrite? || e.FailedWrite? || e.EarlyReply? || e.AcceptedReply? || e.Deadline? ==> Open(t, e.i)
    ensures Shown(Effect(t, e).t, out + Effect(t, e).out)
  {
    if e.FailedWrite? || e.AcceptedReply? || e.Deadline? {
      SettlingShows(t, e, out);
    } else {
      hide Mean, Prune, Limit;
      assert out + [] == out;
    }
  }

  /** The incident a target shows is the one announced last, and none when that ended. */
  lemma {:induction false} ShowsLastIncident(policy: Policy, trace: seq<Event>)
    requires After(policy, trace).Some?
    ensures var a := After(policy, trace).value; Shown(a.t, a.out)
  {
    if trace != [] {
      var a, e := After(policy, trace[..|trace| - 1]).value, trace[|trace| - 1];
      assert trace[..|trace| - 1] + [e] == trace;
      StepOf(policy, trace[..|trace| - 1], e);
      hide Shown, Effect, LogAfter, MarksAfter, Enabled;
      ShowsLastIncident(policy, trace[..|trace| - 1]);
      EffectShows(a.t, e, a.out);
    }
  }

  // ---------- limited tracking ----------

  predicate Recovers(out: seq<Transition>) { exists k | 0 <= k < |out| :: out[k].Recovered? }

  /**
   Capacity to observe was lost, by an eviction or a probe without room, since the endpoint last changed and the
   last recovery.
   */
  ghost predicate Lacking(policy: Policy, trace: seq<Event>) {
    trace != []
    && var init, e := trace[..|trace| - 1], trace[|trace| - 1];
       var a, b := After(policy, init), After(policy, trace);
       if e.EvictAt? || e.DropAt? then true
       else
         && !e.NewEndpoint? && a.Some? && b.Some? && |a.value.out| <= |b.value.out|
         && !Recovers(b.value.out[|a.value.out|..]) && Lacking(policy, init)
  }

  lemma RecoversBoth(out: seq<Transition>, more: seq<Transition>)
    ensures Recovers(out + more) <==> Recovers(out) || Recovers(more)
  {
    var all := out + more;
    if Recovers(all) {
      var k :| 0 <= k < |all| && all[k].Recovered?;
      assert k >= |out| ==> more[k - |out|] == all[k];
    }
    if Recovers(out) {
      var k :| 0 <= k < |out| && out[k].Recovered?;
      assert all[k] == out[k];
    }
    if Recovers(more) {
      var k :| 0 <= k < |more| && more[k].Recovered?;
      assert all[|out| + k] == more[k];
    }
  }

  lemma PopLimits(t: Target, now: int)
    requires HeadDone(t)
    ensures PopHead(t, now).t.trackingLimited == (t.trackingLimited && !Recovers(PopHead(t, now).out))
  {
    hide Mean, Prune, Limit;
    assert PopHead(t, now).out != [] ==> PopHead(t, now).out[0].Recovered?;
  }

  lemma NothingRecovers()
    ensures !Recovers([])
  {
  }

  lemma {:induction false} DrainLimits(t: Target, now: int)
    ensures Drain(t, now).t.trackingLimited == (t.trackingLimited && !Recovers(Drain(t, now).out))
    decreases |t.fifo|
  {
    hide PopHead, Recovers;
    if HeadDone(t) {
      var r := PopHead(t, now);
      PopLimits(t, now);
      PopOnlyRecovers(t, now);
      DrainLimits(r.t, now);
      RecoversBoth(r.out, Drain(r.t, now).out);
    } else {
      assert !Recovers([]) by { NothingRecovers(); }
    }
  }

  lemma SettleLimits(f: Result, i: nat, good: bool, rtt: int, replyAt: int, now: int)
    requires Open(f.t, i) && !Recovers(f.out)
    ensures var s := Settle(f.t, i, good, rtt, replyAt, now);
      s.t.trackingLimited == (f.t.trackingLimited && !Recovers(f.out + s.out))
  {
    hide Recovers;
    var u := f.t.(fifo := f.t.fifo[i := Settled(f.t.fifo[i], good, rtt, replyAt)]);
    DrainLimits(u, now);
    RecoversBoth(f.out, Drain(u, now).out);
  }

  lemma EffectLimits(t: Target, e: Event)
    requires e.EvictAt? ==> t.history != []
    requires e.AcceptWrite? || e.FailedWrite? || e.EarlyReply? || e.AcceptedReply? || e.Deadline? ==> Open(t, e.i)
    ensures Effect(t, e).t.trackingLimited ==
      (e.EvictAt? || e.DropAt? || (!e.NewEndpoint? && t.trackingLimited && !Recovers(Effect(t, e).out)))
  {
    hide Settle, Limit, Mean, Prune;
    match e {
      case FailedWrite(i, now) =>
        SettleLimits(Result(Interrupt(t, now), []), i, false, 0, t.fifo[i].replyAt, now);
        var s := Settle(Interrupt(t, now), i, false, 0, t.fifo[i].replyAt, now);
        assert [] + s.out == s.out;
      case AcceptedReply(i, r, now) =>
        var p, replyAt := t.fifo[i], r.replyAt.GetOr(now);
        var (good, f) := Judge(t, p, r, replyAt);
        SettleLimits(f, i, good, r.rtt, replyAt, now);
      case Deadline(i, now) =>
        var p := t.fifo[i];
        SettleLimits(Fault(t, p, Loss, p.Deadline()), i, false, 0, p.replyAt, now);
      case _ =>
    }
  }

  /** Tracking shows as limited exactly while capacity lost has not been made up for. */
  lemma {:induction false} LimitedIffLacking(policy: Policy, trace: seq<Event>)
    requires After(policy, trace).Some?
    ensures After(policy, trace).value.t.trackingLimited <==> Lacking(policy, trace)
  {
    if trace != [] {
      var init, e := trace[..|trace| - 1], trace[|trace| - 1];
      assert init + [e] == trace;
      StepOf(policy, init, e);
      hide Effect, LogAfter, MarksAfter, Enabled, Recovers;
      var a := After(policy, init).value;
      LimitedIffLacking(policy, init);
      EffectLimits(a.t, e);
      assert Apply(a, e).out[|a.out|..] == Effect(a.t, e).out;
    }
  }

  // ---------- early replies ----------

  /** The first reply reported for the probe sent at x before its write was over. */
  ghost function FirstEarly(policy: Policy, trace: seq<Event>, x: int): Option<Reply> {
    if trace == [] then None
    else
      var init, e := trace[..|trace| - 1], trace[|trace| - 1];
      var before := FirstEarly(policy, init, x);
      match e
      case EarlyReply(i, r) =>
        var a := After(policy, init);
        if before.None? && a.Some? && i < |a.value.t.fifo| && a.value.t.fifo[i].sentAt == x then Some(r) else before
      case SendAt(_, sentAt, _) => if sentAt == x then None else before
      case _ => before
  }

  // The probes of the one target are among those of the other, each with the reply buffered for it, unless it
  // has been settled.
  ghost predicate SameEarly(t: Target, u: Target) {
    forall j | 0 <= j < |u.fifo| && !u.fifo[j].done ::
      exists i | 0 <= i < |t.fifo| :: t.fifo[i] == u.fifo[j]
  }

  lemma TailSameEarly(t: Target, u: Target, v: Target)
    requires t.fifo != [] && u.fifo == t.fifo[1..] && SameEarly(u, v)
    ensures SameEarly(t, v)
  {
    forall j | 0 <= j < |v.fifo| && !v.fifo[j].done
      ensures exists i | 0 <= i < |t.fifo| :: t.fifo[i] == v.fifo[j]
    {
      var i :| 0 <= i < |u.fifo| && u.fifo[i] == v.fifo[j];
      assert t.fifo[i + 1] == v.fifo[j];
    }
  }

  lemma ItsOwnEarly(t: Target)
    ensures SameEarly(t, t)
  {
  }

  lemma PopTakesHead(t: Target, now: int)
    requires t.fifo != []
    ensures PopHead(t, now).t.fifo == t.fifo[1..]
  {
    hide Mean, Prune, Limit;
  }

  lemma {:induction false} DrainSameEarly(t: Target, now: int)
    ensures SameEarly(t, Drain(t, now).t)
    decreases |t.fifo|
  {
    hide PopHead, SameEarly;
    if HeadDone(t) {
      PopTakesHead(t, now);
      DrainSameEarly(PopHead(t, now).t, now);
      TailSameEarly(t, PopHead(t, now).t, Drain(t, now).t);
    } else {
      ItsOwnEarly(t);
    }
  }

  lemma SettleSameEarly(t: Target, i: nat, good: bool, rtt: int, replyAt: int, now: int)
    requires Open(t, i)
    ensures SameEarly(t, Settle(t, i, good, rtt, replyAt, now).t)
  {
    var u := t.(fifo := t.fifo[i := Settled(t.fifo[i], good, rtt, replyAt)]);
    var v := Drain(u, now).t;
    DrainSameEarly(u, now);
    forall j | 0 <= j < |v.fifo| && !v.fifo[j].done
      ensures exists k | 0 <= k < |t.fifo| :: t.fifo[k] == v.fifo[j]
    {
      var k :| 0 <= k < |u.fifo| && u.fifo[k] == v.fifo[j];
      assert t.fifo[k] == v.fifo[j];
    }
  }

  lemma SameFifoEarly(t: Target, u: Target, v: Target)
    requires t.fifo == u.fifo && SameEarly(u, v)
    ensures SameEarly(t, v)
  {
  }

  lemma SettlingSameEarly(t: Target, e: Event)
    requires (e.FailedWrite? || e.AcceptedReply? || e.Deadline?) && Open(t, e.i)
    ensures SameEarly(t, Effect(t, e).t)
  {
    hide Settle, Limit, SameEarly;
    match e {
      case FailedWrite(i, now) =>
        SettleSameEarly(Interrupt(t, now), i, false, 0, t.fifo[i].replyAt, now);
        SameFifoEarly(t, Interrupt(t, now), Effect(t, e).t);
      case AcceptedReply(i, r, now) =>
        var (good, f) := Judge(t, t.fifo[i], r, r.replyAt.GetOr(now));
        SettleSameEarly(f.t, i, good, r.rtt, r.replyAt.GetOr(now), now);
        SameFifoEarly(t, f.t, Effect(t, e).t);
      case Deadline(i, now) =>
        var f := Fault(t, t.fifo[i], Loss, t.fifo[i].Deadline());
        SettleSameEarly(f.t, i, false, 0, t.fifo[i].replyAt, now);
        SameFifoEarly(t, f.t, Effect(t, e).t);
    }
  }

  // Every unsettled probe has the reply buffered that was reported for it first.
  ghost predicate EarlyOk(t: Target, policy: Policy, trace: seq<Event>) {
    forall i | 0 <= i < |t.fifo| && !t.fifo[i].done :: t.fifo[i].early == FirstEarly(policy, trace, t.fifo[i].sentAt)
  }

  lemma OtherEarly(a: Audit, policy: Policy, trace: seq<Event>, e: Event)
    requires After(policy, trace) == Some(a) && Inv(a) && Enabled(a, e) && EarlyOk(a.t, policy, trace)
    requires !(e.FailedWrite? || e.AcceptedReply? || e.Deadline?)
    ensures EarlyOk(Effect(a.t, e).t, policy, trace + [e])
  {
    hide After, LogAfter, MarksAfter, SettledOk, WindowOk, HistoryOk, LimitOk, MarksOk, Mean, Limit, Prune, Drain;
    assert (trace + [e])[..|trace|] == trace;
    var u := Effect(a.t, e).t;
    assert forall i | 0 <= i < |a.t.fifo| :: Matches(a.t, a.log, a.t.fifo[i]);
    forall j | 0 <= j < |u.fifo| && !u.fifo[j].done
      ensures u.fifo[j].early == FirstEarly(policy, trace + [e], u.fifo[j].sentAt)
    {
      if j < |a.t.fifo| {
        assert u.fifo[j].sentAt == a.t.fifo[j].sentAt;
      }
    }
  }

  lemma EffectEarly(policy: Policy, trace: seq<Event>, e: Event)
    requires policy.Valid() && After(policy, trace + [e]).Some? && After(policy, trace).Some?
    requires EarlyOk(After(policy, trace).value.t, policy, trace)
    ensures EarlyOk(After(policy, trace + [e]).value.t, policy, trace + [e])
  {
    StepOf(policy, trace, e);
    RunKeeps(policy, trace);
    var a := After(policy, trace).value;
    var u := Effect(a.t, e).t;
    hide MarksAfter, LogAfter, Drain, Mean, Limit, Prune;
    assert (trace + [e])[..|trace|] == trace;
    if e.FailedWrite? || e.AcceptedReply? || e.Deadline? {
      SettlingSameEarly(a.t, e);
      hide Effect;
      forall j | 0 <= j < |u.fifo| && !u.fifo[j].done
        ensures u.fifo[j].early == FirstEarly(policy, trace + [e], u.fifo[j].sentAt)
      {
        var i :| 0 <= i < |a.t.fifo| && a.t.fifo[i] == u.fifo[j];
      }
    } else {
      OtherEarly(a, policy, trace, e);
    }
  }

  lemma NothingEarly(policy: Policy)
    ensures EarlyOk(Initial(policy), policy, [])
  {
  }

  lemma NothingHappened(policy: Policy)
    ensures After(policy, []) == Some(Begin(policy))
  {
  }

  /** The reply a probe is answered with when its write is over is the first one that came before. */
  lemma {:induction false} KeepsFirstEarly(policy: Policy, trace: seq<Event>)
    requires policy.Valid() && After(policy, trace).Some?
    ensures EarlyOk(After(policy, trace).value.t, policy, trace)
  {
    hide EarlyOk, After;
    if trace == [] {
      assert EarlyOk(Initial(policy), policy, []) by { NothingEarly(policy); }
      assert After(policy, trace) == Some(Begin(policy)) by { NothingHappened(policy); }
    } else {
      var init, e := trace[..|trace| - 1], trace[|trace| - 1];
      assert init + [e] == trace;
      StepOf(policy, init, e);
      KeepsFirstEarly(policy, init);
      EffectEarly(policy, init, e);
    }
  }
}
