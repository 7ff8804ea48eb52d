/**
 The obsess controller in place: mutable targets, a FIFO of probes per target, a map from keys to
 unsettled probes, a deadline heap with back-indices, and shared capacity counters.

 Every public method states the whole new state of the targets as the effect of the audited events
 of `ObsessRecovery`; `ObsessMonitor` draws the conclusion for whole runs of this code. `now` is the clock
 reading an operation works with; the controller lock makes each method one atomic step.
 */
module ObsessController {
  import opened Common
  import opened ObsessTarget
  import opened ObsessNodes
  import opened DeadlineHeap
  import opened ObsessRecovery
  import opened Sums

  const MAX_TRACKED := 100000

  function Tagged(id: int, out: seq<Transition>): seq<(int, Transition)> {
    seq(|out|, k requires 0 <= k < |out| => (id, out[k]))
  }

  // The losses of the listed probes, one after another. Each must be due when its turn comes.
  ghost function Expired(m: map<int, Target>, lost: seq<(int, nat)>, now: int)
    : (map<int, Target>, seq<(int, Transition)>)
  {
    if lost == [] then (m, [])
    else
      var (m, out) := Expired(m, lost[..|lost| - 1], now);
      var (id, i) := lost[|lost| - 1];
      if id in m && Open(m[id], i) && m[id].fifo[i].accepted && m[id].fifo[i].Deadline() <= now then
        var r := Effect(m[id], ObsessRecovery.Deadline(i, now));
        (m[id := r.t], out + Tagged(id, r.out))
      else (m, out)
  }

  lemma ExpiredNext(m: map<int, Target>, lost: seq<(int, nat)>, id: int, i: nat, now: int)
    requires var u := Expired(m, lost, now).0;
      id in u && Open(u[id], i) && u[id].fifo[i].accepted && u[id].fifo[i].Deadline() <= now
    ensures var (u, out) := Expired(m, lost, now);
      var r := ObsessTarget.Expire(u[id], i, now);
      Expired(m, lost + [(id, i)], now) == (u[id := r.t], out + Tagged(id, r.out))
  {
    hide ObsessTarget.Expire;
    assert (lost + [(id, i)])[..|lost|] == lost;
  }

  lemma {:induction false} DrainRests(t: Target, now: int)
    ensures !HeadDone(Drain(t, now).t)
    decreases |t.fifo|
  {
    if HeadDone(t) {
      DrainRests(PopHead(t, now).t, now);
    }
  }

  ghost predicate Rested(m: map<int, Target>) { forall id <- m :: !HeadDone(m[id]) }

  lemma ExpireRests(m: map<int, Target>, id: int, i: nat, now: int)
    requires Rested(m) && id in m && Open(m[id], i)
    ensures Rested(m[id := ObsessTarget.Expire(m[id], i, now).t])
  {
    var p := m[id].fifo[i];
    var f := Fault(m[id], p, Loss, p.Deadline()).t;
    DrainRests(f.(fifo := f.fifo[i := Settled(p, false, 0, p.replyAt)]), now);
  }

  ghost function Observed(t: Target, i: nat, r: Reply, now: int): Result
    requires Open(t, i)
  {
    Effect(t, if t.fifo[i].accepted then AcceptedReply(i, r, now) else EarlyReply(i, r))
  }

  lemma AnswerRests(t: Target, i: nat, r: Reply, now: int)
    requires Open(t, i)
    ensures !HeadDone(Answer(t, i, r, now).t)
  {
    var replyAt := r.replyAt.GetOr(now);
    var (good, f) := Judge(t, t.fifo[i], r, replyAt);
    DrainRests(f.t.(fifo := f.t.fifo[i := Settled(f.t.fifo[i], good, r.rtt, replyAt)]), now);
  }

  lemma ObservedRests(m: map<int, Target>, id: int, i: nat, r: Reply, now: int)
    requires Rested(m) && id in m && Open(m[id], i)
    ensures Rested(m[id := Observed(m[id], i, r, now).t])
  {
    AnswerRests(m[id], i, r, now);
  }

  // The audited event that the end of a write amounts to: a reply that overtook it settles the probe.
  function CompletionEvent(t: Target, i: nat, success: bool, now: int): Event
    requires Open(t, i)
  {
    if !success then FailedWrite(i, now)
    else if t.fifo[i].early.Some? then AcceptedReply(i, t.fifo[i].early.value, now)
    else AcceptWrite(i)
  }

  ghost function Completed(t: Target, i: nat, success: bool, now: int): Result
    requires Open(t, i)
  {
    Effect(t, CompletionEvent(t, i, success, now))
  }

  lemma CompletedRests(m: map<int, Target>, id: int, i: nat, success: bool, now: int)
    requires Rested(m) && id in m && Open(m[id], i)
    ensures Rested(m[id := Completed(m[id], i, success, now).t])
  {
    if !success {
      var p := m[id].fifo[i];
      DrainRests(Interrupt(m[id], now).(fifo := m[id].fifo[i := Settled(p, false, 0, p.replyAt)]), now);
    } else if m[id].fifo[i].early.Some? {
      AnswerRests(m[id], i, m[id].fifo[i].early.value, now);
    }
  }

  // What became of a probe that was about to be sent.
  datatype Admission = Ignored | Unobserved | Tracked(victim: Option<int>)

  ghost function Admitted(m: map<int, Target>, id: int, key: ProbeKey, sentAt: int, timeout: int, now: int,
                          a: Admission): map<int, Target>
  {
    if a.Ignored? || id !in m then m
    else
      var m := m[id := Effect(m[id], CullAt(sentAt)).t];
      if a.Unobserved? then m[id := Effect(m[id], DropAt(sentAt, timeout)).t]
      else
        var m := if a.victim.Some? && a.victim.value in m && m[a.victim.value].history != []
                 then m[a.victim.value := Effect(m[a.victim.value], EvictAt(now)).t] else m;
        m[id := Effect(m[id], SendAt(key, sentAt, timeout)).t]
  }

  lemma AdmittedRests(m: map<int, Target>, id: int, key: ProbeKey, sentAt: int, timeout: int, now: int)
    requires Rested(m)
    ensures forall a :: Rested(Admitted(m, id, key, sentAt, timeout, now, a))
  {
  }

  lemma DrainTurn(t: Target, now: int, out: seq<Transition>)
    requires HeadDone(t)
    ensures var r := PopHead(t, now); var rest, more := Drain(t, now), Drain(r.t, now);
      Result(rest.t, out + rest.out) == Result(more.t, out + r.out + more.out)
  {
    hide PopHead;
    var r := PopHead(t, now);
    assert out + (r.out + Drain(r.t, now).out) == out + r.out + Drain(r.t, now).out;
  }

  lemma DrainEnds(t: Target, now: int, out: seq<Transition>)
    requires !HeadDone(t)
    ensures Drain(t, now).t == t && out + Drain(t, now).out == out
  {
  }

  lemma MeanStep(h: seq<Sample>, s: Sample)
    ensures Mean(h + [s]) == Mean(h) + (s.rtt as real - Mean(h)) / (|h| + 1) as real
  {
    assert (h + [s])[..|h|] == h;
    var n, sum, x := |h| as real, Sum(h) as real, s.rtt as real;
    if h != [] {
      assert Mean(h) * n == sum;
      assert (sum + x) / (n + 1.0) == (Mean(h) * (n + 1.0) + (x - Mean(h))) / (n + 1.0);
    }
  }

  ghost function Members(fifo: seq<Node>): set<Node> { set n <- fifo }

  ghost function Keys(fifo: seq<Node>): set<ProbeKey> { set n <- fifo :: n.key }

  lemma TakeOne(fifo: seq<Node>, k: nat)
    requires k < |fifo|
    ensures Members(fifo[..k + 1]) == Members(fifo[..k]) + {fifo[k]}
    ensures Keys(fifo[..k + 1]) == Keys(fifo[..k]) + {fifo[k].key} && fifo[k..][1..] == fifo[k + 1..]
  {
    assert fifo[..k + 1] == fifo[..k] + [fifo[k]];
  }

  class Controller {
    var targets: map<int, TargetState>
    var probes: map<ProbeKey, Node>
    const deadlines: DeadlineHeap
    var tracked: int
    var samples: int
    ghost var nodes: set<Node>
    ghost var fifoLen: map<int, nat>
    ghost var liveLen: map<int, nat>

    ghost predicate FifoLinked(t: TargetState)
      reads this`nodes, t`fifo
    {
      && (forall i | 0 <= i < |t.fifo| :: t.fifo[i] in nodes && t.fifo[i].target == t)
      && (forall i, j | 0 <= i < j < |t.fifo| :: t.fifo[i] != t.fifo[j])
    }

    // Targets are registered under their own id, and their FIFOs share no probe.
    ghost predicate Linked()
      reads this`targets, this`nodes, targets.Values`fifo
    {
      && (forall id <- targets :: targets[id].id == id && targets[id].policy.Valid() && FifoLinked(targets[id]))
      && (forall n <- nodes :: n.target.id in targets && targets[n.target.id] == n.target && n in n.target.fifo)
    }

    ghost predicate KeyedIn(ns: set<Node>)
      reads this`probes, ns`done
    {
      && (forall n <- ns | !n.done :: n.key in probes && probes[n.key] == n)
      && (forall k <- probes :: probes[k] in ns && !probes[k].done && probes[k].key == k)
    }

    // The key map holds exactly the unsettled probes.
    ghost predicate Keyed()
      reads this`probes, this`nodes, nodes`done
    {
      KeyedIn(nodes)
    }

    ghost predicate HeapedIn(ns: set<Node>)
      reads deadlines, deadlines.items`heapIndex, ns`done, ns`accepted, ns`heapIndex
    {
      && deadlines.Valid() && deadlines.Members() <= ns
      && (forall n <- ns :: n in deadlines.Members() <==> n.accepted && !n.done)
      && (forall n <- ns :: n.heapIndex >= 0 <==> n in deadlines.Members())
    }

    // The deadline heap holds exactly the accepted unsettled probes, each at its back-index.
    ghost predicate Heaped()
      reads this`nodes, deadlines, deadlines.items`heapIndex, nodes`done, nodes`accepted, nodes`heapIndex
    {
      HeapedIn(nodes)
    }

    // `tracked` is the sum of the FIFO lengths.
    ghost predicate FifoCounted()
      reads this`targets, this`tracked, this`fifoLen, targets.Values`fifo
    {
      && fifoLen.Keys == targets.Keys && tracked == SumOf(fifoLen)
      && forall id <- targets :: fifoLen[id] == |targets[id].fifo|
    }

    // `samples` is the sum of the live history lengths.
    ghost predicate LiveCounted()
      reads this`targets, this`samples, this`liveLen, targets.Values`history, targets.Values`historyHead
    {
      && liveLen.Keys == targets.Keys && samples == SumOf(liveLen)
      && forall id <- targets :: targets[id].historyHead + liveLen[id] == |targets[id].history|
    }

    ghost predicate Consistent()
      reads this`targets, this`probes, this`tracked, this`samples, this`nodes, this`fifoLen, this`liveLen
      reads deadlines, deadlines.items`heapIndex, targets.Values`fifo, targets.Values`history,
        targets.Values`historyHead
      reads nodes`done, nodes`accepted, nodes`heapIndex
    {
      Linked() && Keyed() && Heaped() && FifoCounted() && LiveCounted() && tracked + samples <= MAX_TRACKED
    }

    ghost function Snapshot(): map<int, Target>
      requires Linked() && LiveCounted()
      reads this, targets.Values, nodes
    {
      map id | id in targets :: targets[id].Value()
    }

    // Between operations no settled probe waits at the head of a FIFO.
    ghost predicate Valid()
      reads this, deadlines, deadlines.items`heapIndex, targets.Values, nodes
    {
      Consistent() && Rested(Snapshot())
    }

    ghost predicate Owns(t: TargetState)
      reads this`targets
    {
      t.id in targets && targets[t.id] == t
    }

    constructor ()
      ensures Valid() && targets == map[] && fresh(deadlines)
    {
      targets, probes, tracked, samples := map[], map[], 0, 0;
      nodes, fifoLen, liveLen := {}, map[], map[];
      deadlines := new DeadlineHeap();
    }

    method Add(t: TargetState)
      requires Consistent() && t.id !in targets && t.policy.Valid()
      requires t.fifo == [] && t.history == [] && t.historyHead == 0
      modifies this`targets, this`fifoLen, this`liveLen
      ensures Consistent() && targets == old(targets)[t.id := t]
    {
      hide SumOf, Heaped, Keyed, Policy.Valid;
      SumAdds(fifoLen, t.id, 0);
      SumAdds(liveLen, t.id, 0);
      fifoLen, liveLen := fifoLen[t.id := 0], liveLen[t.id := 0];
      targets := targets[t.id := t];
    }

    method AddOf(t: TargetState, ghost snap: map<int, Target>)
      requires Consistent() && t.id !in targets && t.policy.Valid() && snap == Snapshot()
      requires t.fifo == [] && t.history == [] && t.historyHead == 0 && t.Value() == Initial(t.policy)
      modifies this`targets, this`fifoLen, this`liveLen
      ensures Consistent() && targets == old(targets)[t.id := t]
      ensures Snapshot() == snap[t.id := Initial(t.policy)]
    {
      hide FifoCounted, Heaped, Keyed, Linked, LiveCounted, TargetState.Value;
      Add(t);
    }

    /** Registers a target, unless its id is taken or its settings are invalid. */
    method Register(id: int, policy: Policy, endpoint: Option<Address>) returns (ok: bool)
      requires Valid()
      modifies this`targets, this`fifoLen, this`liveLen
      ensures Valid() && (ok <==> id !in old(targets) && policy.Valid())
      ensures Snapshot() == if ok then old(Snapshot())[id := Initial(policy)] else old(Snapshot())
    {
      hide FifoCounted, Heaped, Keyed, Linked, LiveCounted;
      ok := false;
      if id !in targets && policy.Valid() {
        ghost var snap := Snapshot();
        var t := new TargetState(id, policy, endpoint);
        AddOf(t, snap);
        ok := true;
      }
    }

    // ---------- history ----------

    // Drops the first k live samples.
    method DropSamples(t: TargetState, k: nat)
      requires Linked() && LiveCounted() && Owns(t) && t.historyHead + k <= |t.history|
      modifies this`samples, this`liveLen, t`history, t`historyHead
      ensures LiveCounted() && samples == old(samples) - k
      ensures t.history[t.historyHead..] == old(t.history[t.historyHead..])[k..]
    {
      hide FifoLinked, SumOf;
      SumUpdates(liveLen, t.id, liveLen[t.id] - k);
      liveLen := liveLen[t.id := liveLen[t.id] - k];
      samples := samples - k;
      t.historyHead := t.historyHead + k;
      if t.historyHead == |t.history| {
        t.history, t.historyHead := [], 0;
      }
    }

    method PruneHistory(t: TargetState, now: int)
      requires Consistent() && Owns(t)
      modifies this`samples, this`liveLen, t`history, t`historyHead
      ensures Consistent() && t.Value() == Cull(old(t.Value()), now)
      ensures samples <= old(samples)
    {
      hide Keyed, Heaped, FifoCounted, Linked, Values;
      var cutoff := now - t.policy.window;
      var k: nat := 0;
      ghost var live := t.history[t.historyHead..];
      while t.historyHead + k < |t.history| && t.history[t.historyHead + k].sentAt < cutoff
        invariant t.historyHead + k <= |t.history|
        invariant Prune(live[k..], cutoff) == Prune(live, cutoff)
        decreases |t.history| - t.historyHead - k
      {
        assert live[k..][1..] == live[k + 1..];
        k := k + 1;
      }
      DropSamples(t, k);
    }

    method ClearHistory(t: TargetState)
      requires Consistent() && Owns(t)
      modifies this`samples, this`liveLen, t`history, t`historyHead
      ensures Consistent() && t.Value() == old(t.Value()).(history := []) && samples <= old(samples)
    {
      hide Keyed, Heaped, FifoCounted;
      DropSamples(t, |t.history| - t.historyHead);
    }

    method Interrupt(t: TargetState, at: int)
      requires Consistent() && Owns(t)
      modifies this`samples, this`liveLen, t`history, t`historyHead, t`lastBad, t`healthySince, t`healthyThrough
      ensures Consistent() && t.Value() == ObsessTarget.Interrupt(old(t.Value()), at) && samples <= old(samples)
    {
      hide Keyed, Heaped, FifoCounted, LiveCounted, Linked, Values;
      if t.lastBad.None? || at > t.lastBad.value {
        t.lastBad := Some(at);
      }
      if t.active {
        t.healthySince, t.healthyThrough := None, None;
        ClearHistory(t);
      }
    }

    // Appends a sample, first moving the live ones to the front if the backing array is full.
    method Append(t: TargetState, s: Sample)
      requires Linked() && LiveCounted() && Owns(t)
      modifies this`samples, this`liveLen, t`history, t`historyHead
      ensures LiveCounted() && samples == old(samples) + 1
      ensures t.history[t.historyHead..] == old(t.history[t.historyHead..]) + [s]
    {
      hide FifoLinked, SumOf;
      SumUpdates(liveLen, t.id, liveLen[t.id] + 1);
      liveLen := liveLen[t.id := liveLen[t.id] + 1];
      samples := samples + 1;
      var full: bool := *;
      if t.historyHead > 0 && full {
        t.history, t.historyHead := t.history[t.historyHead..], 0;
      }
      t.history := t.history + [s];
    }

    // There is always room here: settling a probe has just freed its own slot, so no sample and no
    // probe of any target is ever evicted to keep a new sample.
    method AddSample(t: TargetState, s: Sample, now: int)
      requires Consistent() && Owns(t) && tracked + samples < MAX_TRACKED
      modifies this`samples, this`liveLen, t`history, t`historyHead
      ensures Consistent() && t.Value() == ObsessTarget.AddSample(old(t.Value()), s, now)
      ensures samples <= old(samples) + 1
    {
      hide Keyed, Heaped, FifoCounted, Linked, Values, LiveCounted, Prune;
      PruneHistory(t, now);
      if s.sentAt >= now - t.policy.window {
        assert tracked + samples < MAX_TRACKED;
        Append(t, s);
      }
    }

    // The incremental mean of the source is the arithmetic mean of the live samples.
    method Average(t: TargetState) returns (mean: real, count: nat)
      requires t.historyHead <= |t.history|
      ensures mean == Mean(t.history[t.historyHead..]) && count == |t.history| - t.historyHead
    {
      var values := t.history[t.historyHead..];
      mean, count := 0.0, |values|;
      for i := 0 to |values|
        invariant mean == Mean(values[..i])
      {
        MeanStep(values[..i], values[i]);
        assert values[..i] + [values[i]] == values[..i + 1];
        mean := mean + (values[i].rtt as real - mean) / (i + 1) as real;
      }
      assert values[..|values|] == values;
    }

    // Freezes the faulting probe's baseline and limit for the incident.
    method Freeze(t: TargetState, p: Node, reason: Reason, at: int)
      requires t.historyHead <= |t.history|
      modifies t`active, t`reason, t`since, t`baseline, t`baselineCount, t`threshold
      ensures t.Value() == old(t.Value()).(active := true, reason := Some(reason), since := Some(at),
                baseline := p.baseline, baselineCount := p.baselineCount,
                threshold := Limit(t.policy, p.baseline, p.baselineCount))
    {
      hide Values, Limit;
      t.active, t.reason, t.since := true, Some(reason), Some(at);
      t.baseline, t.baselineCount := p.baseline, p.baselineCount;
      t.threshold := Limit(t.policy, t.baseline, t.baselineCount);
    }

    method Fault(t: TargetState, p: Node, reason: Reason, at: int) returns (out: seq<Transition>)
      requires Consistent() && Owns(t)
      modifies this`samples, this`liveLen, t`history, t`historyHead, t`lastBad, t`healthySince, t`healthyThrough
      modifies t`active, t`reason, t`since, t`baseline, t`baselineCount, t`threshold
      ensures Consistent() && samples <= old(samples)
      ensures Result(t.Value(), out) == ObsessTarget.Fault(old(t.Value()), old(p.Value()), reason, at)
    {
      hide Keyed, Heaped, FifoCounted, Linked, Values, Limit, ObsessTarget.Interrupt;
      out := [];
      if !t.active {
        Freeze(t, p, reason, at);
        out := [Started(reason, at, p.key)];
      }
      Interrupt(t, at);
    }

    // ---------- consuming settled probes ----------

    method Unlink(t: TargetState) returns (p: Node)
      requires Linked() && FifoCounted() && Owns(t) && t.fifo != []
      modifies this`tracked, this`nodes, this`fifoLen, t`fifo
      ensures Linked() && FifoCounted() && p == old(t.fifo[0]) && p in old(nodes) && nodes == old(nodes) - {p}
      ensures tracked == old(tracked) - 1 && t.fifo == old(t.fifo)[1..]
    {
      hide SumOf;
      SumUpdates(fifoLen, t.id, fifoLen[t.id] - 1);
      p := t.fifo[0];
      t.fifo := t.fifo[1..];
      tracked := tracked - 1;
      fifoLen := fifoLen[t.id := fifoLen[t.id] - 1];
      nodes := nodes - {p};
    }

    lemma Unawaited(p: Node)
      requires Keyed() && Heaped() && p in nodes && p.done
      ensures KeyedIn(nodes - {p}) && HeapedIn(nodes - {p})
    {
    }

    lemma KnowsNode(t: TargetState, i: nat)
      requires Linked() && Owns(t) && i < |t.fifo|
      ensures t.fifo[i] in nodes && t.fifo[i].target == t
    {
    }

    // Takes the settled head off the FIFO. It is in neither the key map nor the heap any more.
    method Advance(t: TargetState) returns (p: Node)
      requires Consistent() && Owns(t) && t.fifo != [] && t.fifo[0].done
      modifies this`tracked, this`nodes, this`fifoLen, t`fifo
      ensures Consistent() && p == old(t.fifo[0]) && tracked == old(tracked) - 1
      ensures nodes == old(nodes) - {p} && p in old(nodes)
      ensures t.fifo == old(t.fifo)[1..] && t.Value() == old(t.Value()).(fifo := old(t.Value()).fifo[1..])
    {
      hide LiveCounted, Values, Linked, FifoCounted, KeyedIn, HeapedIn;
      ValuesTail(t.fifo);
      KnowsNode(t, 0);
      Unawaited(t.fifo[0]);
      p := Unlink(t);
    }

    lemma PolicyHolds(t: TargetState)
      requires Linked() && Owns(t)
      ensures t.policy.Valid()
    {
    }

    // More than twice the fast interval of silence restarts the healthy run.
    method BreakRun(t: TargetState, p: Node)
      requires Consistent() && Owns(t)
      modifies this`samples, this`liveLen, t`history, t`historyHead, t`lastBad, t`healthySince, t`healthyThrough
      ensures Consistent() && samples <= old(samples)
      ensures var v := old(t.Value());
        t.Value() == if v.healthyThrough.Some? && p.sentAt - v.healthyThrough.value > 2 * v.policy.fast
                     then ObsessTarget.Interrupt(v, p.sentAt) else v
    {
      hide Keyed, Heaped, FifoCounted, Linked, Values, ObsessTarget.Interrupt;
      PolicyHolds(t);
      if t.healthyThrough.Some? {
        var gap, cadence := p.sentAt - t.healthyThrough.value, t.policy.fast;
        if gap > cadence && gap - cadence > cadence {
          Interrupt(t, p.sentAt);
        }
      }
    }

    // Counts a send into the healthy run.
    method ExtendRun(t: TargetState, p: Node)
      requires t.historyHead <= |t.history|
      modifies t`healthySince, t`healthyThrough
      ensures t.Value() == old(t.Value()).(
        healthySince := Some(old(t.Value()).healthySince.GetOr(p.sentAt)), healthyThrough := Some(p.sentAt))
    {
      hide Values;
      if t.healthySince.None? {
        t.healthySince := Some(p.sentAt);
      }
      t.healthyThrough := Some(p.sentAt);
    }

    lemma Bounded(t: TargetState)
      requires LiveCounted() && Owns(t)
      ensures t.historyHead <= |t.history|
    {
    }

    method Continue(t: TargetState, p: Node)
      requires Consistent() && Owns(t)
      modifies this`samples, this`liveLen, t`history, t`historyHead, t`lastBad, t`healthySince, t`healthyThrough
      ensures Consistent() && samples <= old(samples) && t.Value() == Continued(old(t.Value()), old(p.Value()))
    {
      hide Keyed, Heaped, FifoCounted, Linked, LiveCounted, Values, ObsessTarget.Interrupt;
      Bounded(t);
      BreakRun(t, p);
      Bounded(t);
      ExtendRun(t, p);
    }

    // Ends the incident if the healthy run is long enough.
    method Recover(t: TargetState) returns (out: seq<Transition>)
      requires t.historyHead <= |t.history| && t.healthySince.Some? && t.healthyThrough.Some?
      modifies t`active, t`reason, t`since, t`healthySince, t`healthyThrough, t`trackingLimited
      ensures var v := old(t.Value()); var s, h := v.healthySince.value, v.healthyThrough.value;
        Result(t.Value(), out) ==
          if h - s >= v.policy.recoverAfter then
            Result(v.(active := false, trackingLimited := false, reason := None, since := None,
                      healthySince := None, healthyThrough := None),
                   [Recovered(s, h, v.threshold, Mean(v.history), |v.history|)])
          else Result(v, [])
    {
      hide Values, Mean;
      out := [];
      var s, h := t.healthySince.value, t.healthyThrough.value;
      if h - s >= t.policy.recoverAfter {
        t.active, t.trackingLimited := false, false;
        t.reason, t.since := None, None;
        t.healthySince, t.healthyThrough := None, None;
        var mean, count := Average(t);
        out := [Recovered(s, h, t.threshold, mean, count)];
      }
    }

    method TakeEvidence(t: TargetState, p: Node, now: int) returns (out: seq<Transition>)
      requires Consistent() && Owns(t) && tracked + samples < MAX_TRACKED
      modifies this`samples, this`liveLen, t`history, t`historyHead, t`lastBad, t`healthySince, t`healthyThrough
      modifies t`active, t`reason, t`since, t`trackingLimited
      ensures Consistent()
      ensures Result(t.Value(), out) == ObsessTarget.Evidence(old(t.Value()), old(p.Value()), now)
    {
      hide Keyed, Heaped, FifoCounted, Linked, LiveCounted, Values, Mean, Prune, Continued;
      Continue(t, p);
      AddSample(t, Sample(p.sentAt, p.rtt), now);
      Bounded(t);
      out := Recover(t);
    }

    // One turn of the loop that consumes settled probes in send order.
    method Pop(t: TargetState, now: int) returns (out: seq<Transition>)
      requires Consistent() && Owns(t) && t.fifo != [] && t.fifo[0].done
      modifies this`tracked, this`nodes, this`fifoLen, this`samples, this`liveLen, t
      ensures Consistent() && t.fifo == old(t.fifo)[1..] && nodes == old(nodes) - {old(t.fifo[0])}
      ensures old(t.Value()).fifo != [] && Result(t.Value(), out) == PopHead(old(t.Value()), now)
      ensures t.endpoint == old(t.endpoint)
    {
      hide Keyed, Heaped, FifoCounted, Linked, Mean, Prune, ObsessTarget.Interrupt, Limit;
      hide ObsessTarget.Evidence, ObsessTarget.Fault, ObsessTarget.AddSample, LiveCounted;
      ValuesTail(t.fifo);
      hide Values;
      out := [];
      var p := Advance(t);
      if p.good {
        if t.active {
          if Exceeds(p.rtt, t.threshold) {
            out := Fault(t, p, Latency, p.replyAt);
          } else if !Before(p.sentAt, t.lastBad) {
            out := TakeEvidence(t, p, now);
          }
        } else {
          AddSample(t, Sample(p.sentAt, p.rtt), now);
        }
      }
    }

    // ---------- settling ----------

    // The probes of different targets are different.
    lemma NotShared(t: TargetState, i: nat, u: TargetState)
      requires Linked() && Owns(t) && Owns(u) && i < |t.fifo|
      ensures t != u ==> t.fifo[i] !in u.fifo
      ensures forall j | 0 <= j < |t.fifo| && j != i :: t.fifo[j] != t.fifo[i]
    {
    }

    // A probe that is no longer awaited leaves the key map and the heap.
    method Forget(p: Node)
      requires Keyed() && Heaped() && p in nodes && !p.done
      modifies p`accepted, p`done, this`probes, deadlines, deadlines.Members()`heapIndex
      ensures Keyed() && Heaped() && p.accepted && p.done && deadlines.Members() == old(deadlines.Members()) - {p}
    {
      p.accepted, p.done := true, true;
      probes := probes - {p.key};
      if p.heapIndex >= 0 {
        deadlines.Remove(p.heapIndex);
      }
    }

    method Record(p: Node, good: bool, rtt: int, replyAt: int)
      requires Consistent() && p in nodes && !p.done
      modifies p`accepted, p`done, p`good, p`rtt, p`replyAt, p`early, this`probes, deadlines,
        deadlines.Members()`heapIndex
      ensures deadlines.Members() == old(deadlines.Members()) - {p}
      ensures Consistent() && p.done && p.Value() == Settled(old(p.Value()), good, rtt, replyAt)
    {
      hide FifoCounted, LiveCounted, Keyed, Heaped, Linked;
      Forget(p);
      p.good, p.rtt, p.replyAt, p.early := good, rtt, replyAt, None;
    }

    method RecordAt(t: TargetState, p: Node, ghost i: nat, good: bool, rtt: int, replyAt: int)
      requires Consistent() && Owns(t) && i < |t.fifo| && t.fifo[i] == p && !p.done
      modifies p`accepted, p`done, p`good, p`rtt, p`replyAt, p`early, this`probes, deadlines,
        deadlines.Members()`heapIndex
      ensures Consistent() && p.done && deadlines.Members() == old(deadlines.Members()) - {p}
      ensures |old(t.Value()).fifo| == |t.fifo| && old(t.Value()).fifo[i] == old(p.Value())
      ensures var v, q := old(t.Value()), Settled(old(p.Value()), good, rtt, replyAt);
        t.Value() == v.(fifo := v.fifo[i := q])
    {
      hide FifoCounted, LiveCounted, Values, Keyed, Heaped, Linked;
      KnowsNode(t, i);
      ValuesAt(t.fifo);
      NotShared(t, i, t);
      ghost var before := Values(t.fifo);
      Record(p, good, rtt, replyAt);
      ValuesUpdated(t.fifo, i, before);
    }

    // A probe of this target is in no other FIFO.
    lemma NoOtherHas(t: TargetState, i: nat)
      requires Linked() && Owns(t) && i < |t.fifo|
      ensures forall id <- targets | targets[id] != t :: t.fifo[i] !in targets[id].fifo
    {
    }

    lemma OnlyChanged(t: TargetState, before: map<int, Target>)
      requires Linked() && LiveCounted() && Owns(t) && before.Keys == targets.Keys
      requires forall id <- targets | targets[id] != t :: targets[id].Value() == before[id]
      ensures Snapshot() == before[t.id := t.Value()]
    {
      hide FifoLinked, Values;
      forall id | id in targets
        ensures Snapshot()[id] == before[t.id := t.Value()][id]
      {
        assert targets[id].id == id;
      }
    }

    // Records the outcome of a probe, wherever it stands in the FIFO.
    method Conclude(t: TargetState, p: Node, ghost i: nat, good: bool, rtt: int, replyAt: int)
      requires Consistent() && Owns(t) && i < |t.fifo| && t.fifo[i] == p && !p.done
      modifies p`accepted, p`done, p`good, p`rtt, p`replyAt, p`early, this`probes, deadlines,
        deadlines.Members()`heapIndex
      ensures deadlines.Members() == old(deadlines.Members()) - {p}
      ensures Consistent() && p.done && Snapshot() == old(Snapshot())[t.id := t.Value()]
      ensures |old(t.Value()).fifo| == |t.fifo| && old(t.Value()).fifo[i] == old(p.Value())
      ensures var v, q := old(t.Value()), Settled(old(p.Value()), good, rtt, replyAt);
        t.Value() == v.(fifo := v.fifo[i := q])
    {
      hide FifoCounted, LiveCounted, Values, Keyed, Heaped, Linked, TargetState.Value;
      NoOtherHas(t, i);
      ghost var snap := Snapshot();
      RecordAt(t, p, i, good, rtt, replyAt);
      OnlyChanged(t, snap);
    }

    lemma KnowsTarget(id: int)
      requires Linked() && id in targets
      ensures Owns(targets[id]) && targets[id].id == id
    {
    }

    lemma SnapshotHas(t: TargetState)
      requires Linked() && LiveCounted() && Owns(t)
      ensures t.id in Snapshot() && Snapshot()[t.id] == t.Value()
      ensures Snapshot() == Snapshot()[t.id := t.Value()]
    {
    }

    lemma ShowsTargets()
      requires Linked() && LiveCounted()
      ensures Snapshot().Keys == targets.Keys
    {
    }

    lemma HeadShows(t: TargetState)
      requires t.historyHead <= |t.history|
      ensures HeadDone(t.Value()) <==> t.fifo != [] && t.fifo[0].done
    {
      ValuesAt(t.fifo);
    }

    // Pop, seen from all targets.
    method PopOf(t: TargetState, now: int) returns (out: seq<Transition>)
      requires Consistent() && Owns(t) && t.fifo != [] && t.fifo[0].done
      modifies this`tracked, this`nodes, this`fifoLen, this`samples, this`liveLen, t
      ensures nodes <= old(nodes)
      ensures Consistent() && t.fifo == old(t.fifo)[1..] && t.endpoint == old(t.endpoint)
      ensures t.historyHead <= |t.history|
      ensures old(t.Value()).fifo != [] && Result(t.Value(), out) == PopHead(old(t.Value()), now)
      ensures Snapshot() == old(Snapshot())[t.id := t.Value()]
    {
      hide FifoCounted, LiveCounted, Values, Keyed, Heaped, Linked, TargetState.Value, PopHead;
      ghost var snap := Snapshot();
      out := Pop(t, now);
      Bounded(t);
      OnlyChanged(t, snap);
    }

    // The loop of the source: settled probes leave the FIFO in send order.
    method Release(t: TargetState, now: int) returns (out: seq<Transition>)
      requires Consistent() && Owns(t)
      modifies this`tracked, this`nodes, this`fifoLen, this`samples, this`liveLen, t
      ensures nodes <= old(nodes)
      ensures Consistent() && t.endpoint == old(t.endpoint)
      ensures Result(t.Value(), out) == Drain(old(t.Value()), now) && !HeadDone(t.Value())
      ensures Snapshot() == old(Snapshot())[t.id := t.Value()]
    {
      hide FifoCounted, LiveCounted, Values, Keyed, Heaped, Linked, TargetState.Value, PopHead, Drain, HeadDone,
        Snapshot;
      out := [];
      Bounded(t);
      HeadShows(t);
      SnapshotHas(t);
      while t.fifo != [] && t.fifo[0].done
        invariant Consistent() && t.endpoint == old(t.endpoint) && t.historyHead <= |t.history| && nodes <= old(nodes)
        invariant HeadDone(t.Value()) <==> t.fifo != [] && t.fifo[0].done
        invariant Snapshot() == old(Snapshot())[t.id := t.Value()]
        invariant var rest := Drain(t.Value(), now); Drain(old(t.Value()), now) == Result(rest.t, out + rest.out)
        decreases |t.fifo|
      {
        DrainTurn(t.Value(), now, out);
        var more := PopOf(t, now);
        out := out + more;
        HeadShows(t);
      }
      DrainEnds(t.Value(), now, out);
    }

    method Finish(t: TargetState, p: Node, ghost i: nat, good: bool, rtt: int, replyAt: int, now: int)
      returns (out: seq<Transition>)
      requires Consistent() && Owns(t) && i < |t.fifo| && t.fifo[i] == p && !p.done
      modifies p`accepted, p`done, p`good, p`rtt, p`replyAt, p`early, this`probes, deadlines,
        deadlines.Members()`heapIndex
      modifies this`tracked, this`nodes, this`fifoLen, this`samples, this`liveLen, t
      ensures nodes <= old(nodes)
      ensures deadlines.Members() == old(deadlines.Members()) - {p}
      ensures Consistent() && t.endpoint == old(t.endpoint)
      ensures Open(old(t.Value()), i)
      ensures Result(t.Value(), out) == Settle(old(t.Value()), i, good, rtt, replyAt, now) && !HeadDone(t.Value())
      ensures Snapshot() == old(Snapshot())[t.id := t.Value()]
    {
      hide FifoCounted, LiveCounted, Values, Keyed, Heaped, Linked, TargetState.Value, Drain, Snapshot, Settled;
      Conclude(t, p, i, good, rtt, replyAt);
      out := Release(t, now);
    }

    // Judges a reply against the deadline and the limit in force.
    method JudgeReply(t: TargetState, p: Node, r: Reply, replyAt: int) returns (good: bool, out: seq<Transition>)
      requires Consistent() && Owns(t)
      modifies this`samples, this`liveLen, t`history, t`historyHead, t`lastBad, t`healthySince, t`healthyThrough
      modifies t`active, t`reason, t`since, t`baseline, t`baselineCount, t`threshold
      ensures Consistent()
      ensures (good, Result(t.Value(), out)) == Judge(old(t.Value()), old(p.Value()), r, replyAt)
    {
      hide Keyed, Heaped, FifoCounted, Linked, Values, ObsessTarget.Fault, LiveCounted;
      good, out := true, [];
      if r.late || r.rtt > p.timeout {
        good := false;
        out := Fault(t, p, Loss, p.Deadline());
      } else if Exceeds(r.rtt, if t.active then t.threshold else p.threshold) {
        good := false;
        out := Fault(t, p, Latency, replyAt);
      }
    }

    method JudgeOf(t: TargetState, p: Node, r: Reply, replyAt: int) returns (good: bool, out: seq<Transition>)
      requires Consistent() && Owns(t)
      modifies this`samples, this`liveLen, t`history, t`historyHead, t`lastBad, t`healthySince, t`healthyThrough
      modifies t`active, t`reason, t`since, t`baseline, t`baselineCount, t`threshold
      ensures Consistent() && Snapshot() == old(Snapshot())[t.id := t.Value()]
      ensures (good, Result(t.Value(), out)) == Judge(old(t.Value()), old(p.Value()), r, replyAt)
    {
      hide Keyed, Heaped, FifoCounted, Linked, Values, LiveCounted, Judge, TargetState.Value;
      ghost var snap := Snapshot();
      good, out := JudgeReply(t, p, r, replyAt);
      OnlyChanged(t, snap);
    }

    method FaultOf(t: TargetState, p: Node, reason: Reason, at: int) returns (out: seq<Transition>)
      requires Consistent() && Owns(t)
      modifies this`samples, this`liveLen, t`history, t`historyHead, t`lastBad, t`healthySince, t`healthyThrough
      modifies t`active, t`reason, t`since, t`baseline, t`baselineCount, t`threshold
      ensures Consistent() && Snapshot() == old(Snapshot())[t.id := t.Value()]
      ensures Result(t.Value(), out) == ObsessTarget.Fault(old(t.Value()), old(p.Value()), reason, at)
    {
      hide Keyed, Heaped, FifoCounted, Linked, Values, LiveCounted, ObsessTarget.Fault, TargetState.Value;
      ghost var snap := Snapshot();
      out := Fault(t, p, reason, at);
      OnlyChanged(t, snap);
    }

    lemma FifoShows(t: TargetState, i: nat)
      requires t.historyHead <= |t.history| && i < |t.fifo|
      ensures |t.Value().fifo| == |t.fifo| && t.Value().fifo[i] == t.fifo[i].Value()
    {
      ValuesAt(t.fifo);
    }

    method ReplyTo(t: TargetState, p: Node, ghost i: nat, r: Reply, now: int) returns (out: seq<Transition>)
      requires Consistent() && Owns(t) && i < |t.fifo| && t.fifo[i] == p && !p.done
      modifies p`accepted, p`done, p`good, p`rtt, p`replyAt, p`early, this`probes, deadlines,
        deadlines.Members()`heapIndex
      modifies this`tracked, this`nodes, this`fifoLen, this`samples, this`liveLen, t
      ensures deadlines.Members() == old(deadlines.Members()) - {p}
      ensures Consistent() && t.endpoint == old(t.endpoint)
      ensures Open(old(t.Value()), i) && !HeadDone(t.Value())
      ensures Result(t.Value(), out) == Answer(old(t.Value()), i, r, now)
      ensures Snapshot() == old(Snapshot())[t.id := t.Value()]
    {
      hide FifoCounted, LiveCounted, Values, Keyed, Heaped, Linked, TargetState.Value, Settle, Judge, Snapshot;
      Bounded(t);
      FifoShows(t, i);
      var replyAt := r.replyAt.GetOr(now);
      var good, faults := JudgeOf(t, p, r, replyAt);
      out := Finish(t, p, i, good, r.rtt, replyAt, now);
      out := faults + out;
    }

    method ExpireProbe(t: TargetState, p: Node, ghost i: nat, now: int) returns (out: seq<Transition>)
      requires Consistent() && Owns(t) && i < |t.fifo| && t.fifo[i] == p && !p.done
      modifies p`accepted, p`done, p`good, p`rtt, p`replyAt, p`early, this`probes, deadlines,
        deadlines.Members()`heapIndex
      modifies this`tracked, this`nodes, this`fifoLen, this`samples, this`liveLen, t
      ensures nodes <= old(nodes)
      ensures deadlines.Members() == old(deadlines.Members()) - {p}
      ensures Consistent() && t.endpoint == old(t.endpoint)
      ensures Open(old(t.Value()), i) && !HeadDone(t.Value())
      ensures Result(t.Value(), out) == ObsessTarget.Expire(old(t.Value()), i, now)
      ensures Snapshot() == old(Snapshot())[t.id := t.Value()]
    {
      hide FifoCounted, LiveCounted, Values, Keyed, Heaped, Linked, TargetState.Value, Settle, ObsessTarget.Fault,
        Snapshot;
      Bounded(t);
      FifoShows(t, i);
      var faults := FaultOf(t, p, Loss, p.Deadline());
      out := Finish(t, p, i, false, 0, p.replyAt, now);
      out := faults + out;
    }

    // ---------- capacity ----------

    method DropOldest(t: TargetState, now: int)
      requires Consistent() && Owns(t) && t.historyHead < |t.history|
      modifies this`samples, this`liveLen, t`history, t`historyHead, t`lastBad, t`healthySince, t`healthyThrough
      modifies t`trackingLimited
      ensures Consistent() && samples < old(samples)
      ensures old(t.Value()).history != [] && t.Value() == Evict(old(t.Value()), now)
    {
      hide FifoCounted, LiveCounted, Values, Keyed, Heaped, Linked, ObsessTarget.Interrupt;
      DropSamples(t, 1);
      t.trackingLimited := true;
      Interrupt(t, now);
    }

    // Evicts the oldest sample of a target.
    method EvictFrom(t: TargetState, now: int)
      requires Consistent() && Owns(t) && t.historyHead < |t.history|
      modifies this`samples, this`liveLen, t`history, t`historyHead, t`lastBad, t`healthySince, t`healthyThrough
      modifies t`trackingLimited
      ensures Consistent() && samples < old(samples) && Snapshot() == old(Snapshot())[t.id := t.Value()]
      ensures old(t.Value()).history != [] && t.Value() == Evict(old(t.Value()), now)
    {
      hide FifoCounted, LiveCounted, Values, Keyed, Heaped, Linked, Evict, TargetState.Value;
      ghost var snap := Snapshot();
      DropOldest(t, now);
      Bounded(t);
      OnlyChanged(t, snap);
    }

    lemma HistoryShows(id: int)
      requires Linked() && LiveCounted() && id in targets
      ensures id in Snapshot() && targets[id].historyHead <= |targets[id].history|
      ensures Snapshot()[id].history == [] <==> targets[id].historyHead == |targets[id].history|
    {
      hide FifoLinked, Values;
    }

    // Looks for a sample to evict, visiting the targets in no particular order.
    method FindVictim() returns (victim: Option<int>)
      requires Linked() && LiveCounted()
      ensures victim.Some? ==> victim.value in targets && Snapshot()[victim.value].history != []
      ensures victim.None? ==> forall id <- targets :: Snapshot()[id].history == []
    {
      hide Linked, LiveCounted, Snapshot, FifoLinked;
      var ids := targets.Keys;
      ShowsTargets();
      while ids != {}
        invariant ids <= targets.Keys
        invariant forall id <- targets | id !in ids :: Snapshot()[id].history == []
        decreases ids
      {
        var id := Choose(ids);
        ids := ids - {id};
        HistoryShows(id);
        if targets[id].historyHead < |targets[id].history| {
          return Some(id);
        }
      }
      victim := None;
    }

    /** Only when the shared capacity is used up is a sample evicted; probes never are. */
    method MakeRoom(now: int) returns (ok: bool, ghost victim: Option<int>)
      requires Consistent()
      modifies this`samples, this`liveLen, targets.Values`history, targets.Values`historyHead, targets.Values`lastBad
      modifies targets.Values`healthySince, targets.Values`healthyThrough, targets.Values`trackingLimited
      ensures Consistent() && (ok <==> tracked + samples < MAX_TRACKED)
      ensures victim.None? ==> Snapshot() == old(Snapshot())
      ensures victim.Some? ==>
        var m, v := old(Snapshot()), victim.value;
        ok && v in m && m[v].history != [] && Snapshot() == m[v := Evict(m[v], now)]
      ensures victim.Some? || !ok ==> old(tracked + samples) == MAX_TRACKED
      ensures !ok ==> forall id <- targets :: Snapshot()[id].history == []
    {
      hide FifoCounted, LiveCounted, Values, Keyed, Heaped, Linked, Evict;
      victim := None;
      ok := true;
      if tracked + samples >= MAX_TRACKED {
        var found := FindVictim();
        if found.None? {
          ok := false;
        } else {
          var t := targets[found.value];
          KnowsTarget(found.value);
          Bounded(t);
          victim := found;
          EvictFrom(t, now);
        }
      }
    }

    // ---------- admission ----------

    lemma OthersDiffer(t: TargetState)
      requires Linked() && Owns(t)
      ensures forall id <- targets :: targets[id] == t <==> id == t.id
    {
    }

    method Attach(t: TargetState, p: Node)
      requires Linked() && Owns(t) && p !in nodes && p.target == t
      modifies this`nodes, t`fifo
      ensures Linked() && nodes == old(nodes) + {p} && t.fifo == old(t.fifo) + [p]
    {
      hide Policy.Valid;
      t.fifo := t.fifo + [p];
      nodes := nodes + {p};
    }

    method Link(t: TargetState, p: Node)
      requires Linked() && FifoCounted() && Owns(t) && p !in nodes && p.target == t
      modifies this`tracked, this`nodes, this`fifoLen, t`fifo
      ensures Linked() && FifoCounted() && nodes == old(nodes) + {p}
      ensures tracked == old(tracked) + 1 && t.fifo == old(t.fifo) + [p]
    {
      hide SumOf, Linked;
      SumUpdates(fifoLen, t.id, fifoLen[t.id] + 1);
      OthersDiffer(t);
      Attach(t, p);
      tracked := tracked + 1;
      fifoLen := fifoLen[t.id := fifoLen[t.id] + 1];
    }

    ghost predicate Newcomer(p: Node)
      reads this`probes, this`nodes, p
    {
      && p !in nodes && !p.accepted && !p.done && p.heapIndex == -1
      && p.key !in probes
    }

    // A new probe expires only once its write is confirmed.
    lemma Unheaped(p: Node)
      requires Heaped() && Newcomer(p)
      ensures HeapedIn(nodes + {p})
    {
      assert p !in deadlines.Members();
    }

    method Enkey(p: Node)
      requires Keyed() && Newcomer(p)
      modifies this`probes
      ensures KeyedIn(nodes + {p})
    {
      probes := probes[p.key := p];
    }

    method Enter(t: TargetState, p: Node)
      requires Consistent() && Owns(t) && tracked + samples < MAX_TRACKED && Newcomer(p) && p.target == t
      modifies this`probes, this`tracked, this`nodes, this`fifoLen, t`fifo
      ensures Consistent() && nodes == old(nodes) + {p} && t.fifo == old(t.fifo) + [p]
    {
      hide FifoCounted, LiveCounted, Linked, KeyedIn, HeapedIn;
      Unheaped(p);
      Enkey(p);
      Link(t, p);
    }

    method Enlist(t: TargetState, p: Node)
      requires Consistent() && Owns(t) && tracked + samples < MAX_TRACKED && Newcomer(p) && p.target == t
      modifies this`probes, this`tracked, this`nodes, this`fifoLen, t`fifo
      ensures Consistent() && nodes == old(nodes) + {p} && t.historyHead <= |t.history|
      ensures t.Value() == old(t.Value()).(fifo := old(t.Value()).fifo + [p.Value()])
    {
      hide FifoCounted, LiveCounted, Values, Linked, Keyed, Heaped, Newcomer;
      ValuesAppend(t.fifo, p);
      Enter(t, p);
      Bounded(t);
    }

    // A probe with the baseline captured now, or with the open incident's.
    method NewProbe(t: TargetState, key: ProbeKey, endpoint: Address, sentAt: int, timeout: int) returns (p: Node)
      requires t.historyHead <= |t.history|
      ensures fresh(p) && p.target == t && p.key == key && p.heapIndex == -1 && !p.accepted && !p.done
      ensures p.Value() == Capture(t.Value(), key, sentAt, timeout)
    {
      hide Values, Mean, Limit;
      var mean, count := Average(t);
      var threshold := Limit(t.policy, mean, count);
      if t.active {
        mean, count, threshold := t.baseline, t.baselineCount, t.threshold;
      }
      p := new Node(t, endpoint, Probe(key, sentAt, timeout, false, false, false, 0, 0, None, mean, count, threshold));
    }

    method Enroll(t: TargetState, key: ProbeKey, endpoint: Address, sentAt: int, timeout: int) returns (p: Node)
      requires Consistent() && Owns(t) && tracked + samples < MAX_TRACKED && key !in probes
      modifies this`probes, this`tracked, this`nodes, this`fifoLen, t`fifo
      ensures Consistent() && fresh(p) && nodes == old(nodes) + {p} && t.historyHead <= |t.history|
      ensures t.Value() == Send(old(t.Value()), key, sentAt, timeout)
    {
      hide FifoCounted, Values, Linked, Keyed, Heaped, Capture, LiveCounted, TargetState.Value;
      Bounded(t);
      p := NewProbe(t, key, endpoint, sentAt, timeout);
      Enlist(t, p);
    }

    method Track(t: TargetState, key: ProbeKey, endpoint: Address, sentAt: int, timeout: int)
      requires Consistent() && Owns(t) && tracked + samples < MAX_TRACKED && key !in probes
      modifies this`probes, this`tracked, this`nodes, this`fifoLen, t`fifo
      ensures Consistent() && fresh(nodes - old(nodes)) && t.Value() == Send(old(t.Value()), key, sentAt, timeout)
      ensures Snapshot() == old(Snapshot())[t.id := t.Value()]
    {
      hide FifoCounted, Values, Linked, Keyed, Heaped, Send, LiveCounted, TargetState.Value;
      ghost var snap := Snapshot();
      var _ := Enroll(t, key, endpoint, sentAt, timeout);
      OnlyChanged(t, snap);
    }

    method CullOf(t: TargetState, at: int)
      requires Consistent() && Owns(t)
      modifies this`samples, this`liveLen, t`history, t`historyHead
      ensures Consistent() && t.Value() == Cull(old(t.Value()), at) && samples <= old(samples)
      ensures Snapshot() == old(Snapshot())[t.id := t.Value()]
    {
      hide FifoCounted, LiveCounted, Values, Linked, Keyed, Heaped, Cull, TargetState.Value;
      ghost var snap := Snapshot();
      PruneHistory(t, at);
      Bounded(t);
      OnlyChanged(t, snap);
    }

    method Forgo(t: TargetState, sentAt: int, timeout: int)
      requires Consistent() && Owns(t)
      modifies this`samples, this`liveLen, t`history, t`historyHead, t`lastBad, t`healthySince, t`healthyThrough
      modifies t`trackingLimited
      ensures Consistent() && t.Value() == Drop(old(t.Value()), sentAt, timeout)
    {
      hide FifoCounted, LiveCounted, Values, Linked, Keyed, Heaped, ObsessTarget.Interrupt;
      Bounded(t);
      t.trackingLimited := true;
      Interrupt(t, sentAt + timeout);
    }

    method DropOf(t: TargetState, sentAt: int, timeout: int)
      requires Consistent() && Owns(t)
      modifies this`samples, this`liveLen, t`history, t`historyHead, t`lastBad, t`healthySince, t`healthyThrough
      modifies t`trackingLimited
      ensures Consistent() && t.Value() == Drop(old(t.Value()), sentAt, timeout)
      ensures Snapshot() == old(Snapshot())[t.id := t.Value()]
    {
      hide FifoCounted, LiveCounted, Values, Linked, Keyed, Heaped, Drop, TargetState.Value;
      ghost var snap := Snapshot();
      Forgo(t, sentAt, timeout);
      Bounded(t);
      OnlyChanged(t, snap);
    }

    method Admit(t: TargetState, key: ProbeKey, endpoint: Address, sentAt: int, timeout: int, now: int)
      returns (ghost a: Admission)
      requires Consistent() && Owns(t) && key !in probes
      modifies this`probes, this`tracked, this`nodes, this`fifoLen, this`samples, this`liveLen
      modifies targets.Values`history, targets.Values`historyHead, targets.Values`lastBad
      modifies targets.Values`healthySince, targets.Values`healthyThrough, targets.Values`trackingLimited,
        targets.Values`fifo
      ensures Consistent() && !a.Ignored?
      ensures Snapshot() == Admitted(old(Snapshot()), t.id, key, sentAt, timeout, now, a)
      ensures a.Unobserved? || (a.Tracked? && a.victim.Some?) ==> old(tracked + samples) == MAX_TRACKED
    {
      hide FifoCounted, LiveCounted, Values, Linked, Keyed, Heaped, Evict, Cull, Send, Drop, TargetState.Value,
        Snapshot;
      SnapshotHas(t);
      CullOf(t, sentAt);
      var ok, victim := MakeRoom(now);
      SnapshotHas(t);
      if ok {
        Track(t, key, endpoint, sentAt, timeout);
        a := Tracked(victim);
      } else {
        DropOf(t, sentAt, timeout);
        a := Unobserved;
      }
    }

    // ---------- operations ----------

    /** Called before the socket write. A probe that cannot be tracked bars recovery while it is out. */
    method BeginProbe(id: int, key: ProbeKey, endpoint: Option<Address>, sentAt: int, timeout: int, now: int)
      returns (ghost a: Admission)
      requires Valid()
      modifies this`probes, this`tracked, this`nodes, this`fifoLen, this`samples, this`liveLen
      modifies targets.Values`history, targets.Values`historyHead, targets.Values`lastBad
      modifies targets.Values`healthySince, targets.Values`healthyThrough, targets.Values`trackingLimited,
        targets.Values`fifo
      ensures Valid()
      ensures a.Ignored? <==>
        id !in targets || endpoint.None? || endpoint != targets[id].endpoint || timeout <= 0 || key in old(probes)
      ensures Snapshot() == Admitted(old(Snapshot()), id, key, sentAt, timeout, now, a)
      ensures a.Unobserved? || (a.Tracked? && a.victim.Some?) ==> old(tracked + samples) == MAX_TRACKED
    {
      hide FifoCounted, LiveCounted, Values, Linked, Keyed, Heaped, Evict, Cull, Send, Drop, TargetState.Value,
        Snapshot, Rested;
      if id !in targets || endpoint.None? || endpoint != targets[id].endpoint || timeout <= 0 || key in probes {
        return Ignored;
      }
      KnowsTarget(id);
      AdmittedRests(Snapshot(), id, key, sentAt, timeout, now);
      a := Admit(targets[id], key, endpoint.value, sentAt, timeout, now);
    }

    // The place of an unsettled probe in its FIFO.
    lemma Place(p: Node) returns (i: nat)
      requires Linked() && p in nodes
      ensures Owns(p.target) && i < |p.target.fifo| && p.target.fifo[i] == p
    {
      i :| 0 <= i < |p.target.fifo| && p.target.fifo[i] == p;
    }

    lemma HeapTracked()
      requires Heaped()
      ensures deadlines.Members() <= nodes
      ensures forall n <- deadlines.Members() :: n.accepted && !n.done
    {
    }

    lemma KeyFinds(key: ProbeKey)
      requires Keyed() && key in probes
      ensures probes[key] in nodes && !probes[key].done && probes[key].key == key
    {
    }

    // Confirms the write of a probe still waiting for its answer: from now on it can expire.
    method Await(p: Node)
      requires Keyed() && Heaped() && p in nodes && !p.accepted && !p.done
      modifies p`accepted, deadlines, deadlines.Members()`heapIndex, p`heapIndex
      ensures Keyed() && Heaped() && p.accepted
    {
      assert p !in deadlines.Members();
      p.accepted := true;
      deadlines.Push(p);
    }

    method AwaitAt(t: TargetState, p: Node, ghost i: nat)
      requires Consistent() && Owns(t) && i < |t.fifo| && t.fifo[i] == p && !p.accepted && !p.done
      modifies p`accepted, deadlines, deadlines.Members()`heapIndex, p`heapIndex
      ensures Consistent()
      ensures Open(old(t.Value()), i) && t.Value() == Accept(old(t.Value()), i)
    {
      hide FifoCounted, LiveCounted, Values, Keyed, Heaped, Linked;
      Bounded(t);
      KnowsNode(t, i);
      ValuesAt(t.fifo);
      NotShared(t, i, t);
      ghost var before := Values(t.fifo);
      Await(p);
      ValuesUpdated(t.fifo, i, before);
    }

    method AwaitOf(t: TargetState, p: Node, ghost i: nat)
      requires Consistent() && Owns(t) && i < |t.fifo| && t.fifo[i] == p && !p.accepted && !p.done
      modifies p`accepted, deadlines, deadlines.Members()`heapIndex, p`heapIndex
      ensures Consistent() && Snapshot() == old(Snapshot())[t.id := t.Value()]
      ensures Open(old(t.Value()), i) && t.Value() == Accept(old(t.Value()), i)
    {
      hide FifoCounted, LiveCounted, Values, Keyed, Heaped, Linked, TargetState.Value, Accept;
      NoOtherHas(t, i);
      ghost var snap := Snapshot();
      AwaitAt(t, p, i);
      Bounded(t);
      OnlyChanged(t, snap);
    }

    method InterruptOf(t: TargetState, at: int)
      requires Consistent() && Owns(t)
      modifies this`samples, this`liveLen, t`history, t`historyHead, t`lastBad, t`healthySince, t`healthyThrough
      ensures Consistent() && t.Value() == ObsessTarget.Interrupt(old(t.Value()), at)
      ensures Snapshot() == old(Snapshot())[t.id := t.Value()]
    {
      hide FifoCounted, LiveCounted, Values, Keyed, Heaped, Linked, TargetState.Value, ObsessTarget.Interrupt;
      ghost var snap := Snapshot();
      Interrupt(t, at);
      Bounded(t);
      OnlyChanged(t, snap);
    }

    // The write of probe i is over; see `Completed` for what that means.
    method Complete(t: TargetState, p: Node, ghost i: nat, success: bool, now: int) returns (out: seq<Transition>)
      requires Consistent() && Owns(t) && i < |t.fifo| && t.fifo[i] == p && !p.accepted && !p.done
      modifies p, this`probes, deadlines, deadlines.Members()`heapIndex
      modifies this`tracked, this`nodes, this`fifoLen, this`samples, this`liveLen, t
      ensures Consistent() && t.endpoint == old(t.endpoint)
      ensures Open(old(t.Value()), i) && Result(t.Value(), out) == Completed(old(t.Value()), i, success, now)
      ensures Snapshot() == old(Snapshot())[t.id := t.Value()]
    {
      hide FifoCounted, LiveCounted, Values, Linked, Keyed, Heaped, TargetState.Value, Snapshot;
      hide ObsessTarget.Interrupt, Settle, Answer, Accept;
      Bounded(t);
      FifoShows(t, i);
      out := [];
      if !success {
        InterruptOf(t, now);
        out := Finish(t, p, i, false, 0, p.replyAt, now);
      } else if p.early.Some? {
        out := ReplyTo(t, p, i, p.early.value, now);
      } else {
        AwaitOf(t, p, i);
      }
    }

    /** Confirms or reports the failure of a write. */
    method CompleteProbe(key: ProbeKey, success: bool, now: int)
      returns (out: seq<Transition>, ghost id: int, ghost i: nat)
      requires Valid()
      modifies this`probes, this`tracked, this`nodes, this`fifoLen, this`samples, this`liveLen
      modifies deadlines, targets.Values, nodes
      ensures Valid()
      ensures key !in old(probes) || old(probes[key].accepted) ==> Snapshot() == old(Snapshot()) && out == []
      ensures key in old(probes) && !old(probes[key].accepted) ==>
        var m := old(Snapshot());
        && id in m && Open(m[id], i) && m[id].fifo[i].key == key
        && var r := Completed(m[id], i, success, now); Snapshot() == m[id := r.t] && out == r.out
    {
      hide FifoCounted, LiveCounted, Values, Linked, Keyed, Heaped, TargetState.Value, Snapshot, Completed, Rested;
      out, id, i := [], 0, 0;
      if key in probes && !probes[key].accepted {
        var p := probes[key];
        KeyFinds(key);
        i := Place(p);
        id := p.target.id;
        SnapshotHas(p.target);
        Bounded(p.target);
        FifoShows(p.target, i);
        HeapTracked();
        CompletedRests(Snapshot(), id, i, success, now);
        out := Complete(p.target, p, i, success, now);
      }
    }

    // A reply that overtakes the end of its own write is kept; only the first one is.
    method Buffer(t: TargetState, p: Node, ghost i: nat, r: Reply)
      requires Consistent() && Owns(t) && i < |t.fifo| && t.fifo[i] == p && !p.done
      modifies p`early
      ensures Consistent()
      ensures Open(old(t.Value()), i) && t.Value() == Early(old(t.Value()), i, r)
    {
      hide FifoCounted, LiveCounted, Values, Keyed, Heaped, Linked;
      Bounded(t);
      ValuesAt(t.fifo);
      NotShared(t, i, t);
      ghost var before := Values(t.fifo);
      if p.early.None? {
        p.early := Some(r);
      }
      ValuesUpdated(t.fifo, i, before);
    }

    method BufferOf(t: TargetState, p: Node, ghost i: nat, r: Reply)
      requires Consistent() && Owns(t) && i < |t.fifo| && t.fifo[i] == p && !p.done
      modifies p`early
      ensures Consistent() && Snapshot() == old(Snapshot())[t.id := t.Value()]
      ensures Open(old(t.Value()), i) && t.Value() == Early(old(t.Value()), i, r)
    {
      hide FifoCounted, LiveCounted, Values, Keyed, Heaped, Linked, TargetState.Value, Early;
      NoOtherHas(t, i);
      ghost var snap := Snapshot();
      Buffer(t, p, i, r);
      Bounded(t);
      OnlyChanged(t, snap);
    }

    /** Only a reply from the probed address to an unsettled probe is evidence, and only once. */
    method ObserveReply(key: ProbeKey, responder: Address, r: Reply, now: int)
      returns (out: seq<Transition>, ghost id: int, ghost i: nat)
      requires Valid()
      modifies this`probes, this`tracked, this`nodes, this`fifoLen, this`samples, this`liveLen
      modifies deadlines, targets.Values, nodes
      ensures Valid()
      ensures !(key in old(probes) && SameResponder(old(probes[key].endpoint), responder) && r.rtt >= 0) ==>
        Snapshot() == old(Snapshot()) && out == []
      ensures key in old(probes) && SameResponder(old(probes[key].endpoint), responder) && r.rtt >= 0 ==>
        var m := old(Snapshot());
        && id in m && Open(m[id], i) && m[id].fifo[i].key == key
        && var res := Observed(m[id], i, r, now); Snapshot() == m[id := res.t] && out == res.out
    {
      hide FifoCounted, LiveCounted, Values, Linked, Keyed, Heaped, TargetState.Value, Snapshot, Answer, Early, Rested;
      out, id, i := [], 0, 0;
      if key in probes && SameResponder(probes[key].endpoint, responder) && r.rtt >= 0 {
        var p := probes[key];
        KeyFinds(key);
        i := Place(p);
        id := p.target.id;
        SnapshotHas(p.target);
        Bounded(p.target);
        FifoShows(p.target, i);
        HeapTracked();
        ObservedRests(Snapshot(), id, i, r, now);
        if p.accepted {
          out := ReplyTo(p.target, p, i, r, now);
        } else {
          BufferOf(p.target, p, i, r);
        }
      }
    }

    /** A local scheduling failure interrupts recovery at once but starts no incident. */
    method ObserveGap(id: int, missed: nat, now: int)
      requires Valid()
      modifies this`samples, this`liveLen, targets.Values
      ensures Valid()
      ensures Snapshot() ==
        var m := old(Snapshot());
        if missed > 0 && id in m then m[id := Effect(m[id], GapAt(now)).t] else m
    {
      hide FifoCounted, LiveCounted, Values, Linked, Keyed, Heaped, TargetState.Value;
      if missed > 0 && id in targets {
        KnowsTarget(id);
        SnapshotHas(targets[id]);
        InterruptOf(targets[id], now);
      }
    }

    // Whatever probe is out under a key of this FIFO is itself in the FIFO.
    ghost predicate OwnsKeys(t: TargetState)
      reads this`probes, t`fifo
    {
      forall n <- t.fifo | n.key in probes :: probes[n.key] in t.fifo
    }

    // Consistent but for the key map.
    ghost predicate Sound()
      reads this`targets, this`tracked, this`samples, this`nodes, this`fifoLen, this`liveLen
      reads deadlines, deadlines.items`heapIndex, targets.Values`fifo, targets.Values`history,
        targets.Values`historyHead
      reads nodes`done, nodes`accepted, nodes`heapIndex
    {
      Linked() && Heaped() && FifoCounted() && LiveCounted() && tracked + samples <= MAX_TRACKED
    }

    method Strike(p: Node)
      requires Heaped() && p in nodes
      modifies this`probes, deadlines, deadlines.Members()`heapIndex
      ensures HeapedIn(nodes - {p}) && deadlines.Members() <= old(deadlines.Members())
      ensures probes == old(probes) - {p.key}
    {
      probes := probes - {p.key};
      if p.heapIndex >= 0 {
        deadlines.Remove(p.heapIndex);
      }
    }

    // Takes a probe of an obsolete endpoint out of the heap, the key map and the FIFO.
    method Discard(t: TargetState)
      requires Sound() && Owns(t) && t.fifo != []
      modifies this`probes, this`tracked, this`nodes, this`fifoLen, t`fifo, deadlines, deadlines.Members()`heapIndex
      ensures Sound() && t.fifo == old(t.fifo)[1..] && deadlines.Members() <= old(deadlines.Members())
      ensures nodes == old(nodes) - {old(t.fifo)[0]} && probes == old(probes) - {old(t.fifo)[0].key}
    {
      hide Linked, FifoCounted, LiveCounted, HeapedIn;
      KnowsNode(t, 0);
      Strike(t.fifo[0]);
      var _ := Unlink(t);
    }

    method DiscardAll(t: TargetState)
      requires Sound() && Owns(t)
      modifies this`probes, this`tracked, this`nodes, this`fifoLen, t`fifo, deadlines, deadlines.Members()`heapIndex
      ensures Sound() && t.fifo == []
      ensures nodes == old(nodes) - Members(old(t.fifo)) && probes == old(probes) - Keys(old(t.fifo))
    {
      hide Linked, FifoCounted, LiveCounted, Heaped;
      ghost var fifo, k := t.fifo, 0;
      while t.fifo != []
        invariant Sound() && deadlines.Members() <= old(deadlines.Members())
        invariant k <= |fifo| && t.fifo == fifo[k..]
        invariant nodes == old(nodes) - Members(fifo[..k]) && probes == old(probes) - Keys(fifo[..k])
        decreases |t.fifo|
      {
        Discard(t);
        TakeOne(fifo, k);
        k := k + 1;
      }
      assert fifo[..|fifo|] == fifo;
    }

    // Before the probes of the FIFO were struck, the key map held exactly the probes that are out.
    ghost predicate KeyedBefore(before: map<ProbeKey, Node>, nodesBefore: set<Node>, fifo: seq<Node>)
      reads this`probes, this`nodes, nodesBefore`done
    {
      && (forall n <- nodesBefore | !n.done :: n.key in before && before[n.key] == n)
      && (forall k <- before :: before[k] in nodesBefore && !before[k].done && before[k].key == k)
      && nodes == nodesBefore - Members(fifo) && probes == before - Keys(fifo)
    }

    lemma StruckShows(before: map<ProbeKey, Node>, nodesBefore: set<Node>, fifo: seq<Node>, n: Node)
      requires KeyedBefore(before, nodesBefore, fifo) && Keyed() && n in fifo && n.key in before
      ensures before[n.key] in fifo
    {
      assert n.key in Keys(fifo) && n.key !in probes;
    }

    lemma StruckKeeps(before: map<ProbeKey, Node>, nodesBefore: set<Node>, fifo: seq<Node>)
      requires KeyedBefore(before, nodesBefore, fifo)
      requires forall n <- fifo | n.key in before :: before[n.key] in fifo
      ensures Keyed()
    {
      forall n | n in nodes && !n.done
        ensures n.key in probes && probes[n.key] == n
      {
        forall m | m in fifo
          ensures m.key != n.key
        {
          assert m.key in before ==> before[m.key] in fifo;
        }
      }
      forall k | k in probes
        ensures probes[k] in nodes && !probes[k].done && probes[k].key == k
      {
        forall m | m in fifo
          ensures m.key != k
        {
          assert m.key in Keys(fifo);
        }
      }
    }

    // The key map survives exactly if no key of the struck probes names another one that is out.
    lemma StruckKeyed(before: map<ProbeKey, Node>, nodesBefore: set<Node>, fifo: seq<Node>)
      requires KeyedBefore(before, nodesBefore, fifo)
      ensures Keyed() <==> forall n <- fifo | n.key in before :: before[n.key] in fifo
    {
      hide Keyed;
      if Keyed() {
        forall n | n in fifo && n.key in before
          ensures before[n.key] in fifo
        {
          StruckShows(before, nodesBefore, fifo, n);
        }
      }
      if forall n <- fifo | n.key in before :: before[n.key] in fifo {
        StruckKeeps(before, nodesBefore, fifo);
      }
    }

    method Forsake(t: TargetState)
      requires Consistent() && Owns(t)
      modifies this`probes, this`tracked, this`nodes, this`fifoLen, t`fifo, deadlines, deadlines.Members()`heapIndex
      ensures Sound() && t.fifo == [] && (Keyed() <==> old(OwnsKeys(t)))
    {
      hide Linked, FifoCounted, LiveCounted, Heaped;
      ghost var before, nodesBefore, fifo := probes, nodes, t.fifo;
      DiscardAll(t);
      StruckKeyed(before, nodesBefore, fifo);
    }

    method ForgetIncident(t: TargetState)
      requires t.historyHead <= |t.history|
      modifies t`active, t`trackingLimited, t`reason, t`since, t`baseline, t`baselineCount, t`threshold
      ensures t.Value() == old(t.Value()).(active := false, trackingLimited := false, reason := None, since := None,
                baseline := 0.0, baselineCount := 0, threshold := None)
    {
      hide Values;
      t.active, t.trackingLimited, t.reason, t.since := false, false, None, None;
      t.baseline, t.baselineCount, t.threshold := 0.0, 0, None;
    }

    method ForgetRun(t: TargetState)
      requires t.historyHead <= |t.history|
      modifies t`healthySince, t`healthyThrough, t`lastBad
      ensures t.Value() == old(t.Value()).(healthySince := None, healthyThrough := None, lastBad := None)
    {
      hide Values;
      t.healthySince, t.healthyThrough, t.lastBad := None, None, None;
    }

    method StartOver(t: TargetState)
      requires Consistent() && Owns(t)
      modifies this`samples, this`liveLen, t`history, t`historyHead, t`healthySince, t`healthyThrough, t`lastBad
      modifies t`active, t`trackingLimited, t`reason, t`since, t`baseline, t`baselineCount, t`threshold
      ensures Consistent() && t.Value() == Initial(t.policy).(fifo := old(t.Value()).fifo)
    {
      hide Linked, FifoCounted, LiveCounted, Keyed, Heaped, Values;
      Bounded(t);
      ForgetIncident(t);
      ForgetRun(t);
      ClearHistory(t);
    }

    // A fresh start at the normal interval.
    method Restart(t: TargetState, endpoint: Option<Address>) returns (out: seq<Transition>)
      requires Consistent() && Owns(t)
      modifies this`probes, this`tracked, this`nodes, this`fifoLen, this`samples, this`liveLen, t
      modifies deadlines, deadlines.Members()`heapIndex
      ensures Sound() && (Keyed() <==> old(OwnsKeys(t)))
      ensures Result(t.Value(), out) == Reset(old(t.Value())) && t.endpoint == endpoint
    {
      hide Linked, FifoCounted, LiveCounted, Heaped, Keyed, Values;
      Bounded(t);
      out := if t.active then [EndpointChanged] else [];
      t.endpoint := endpoint;
      StartOver(t);
      Forsake(t);
      ValuesOfNone();
      Bounded(t);
    }

    method RestartOf(t: TargetState, endpoint: Option<Address>) returns (out: seq<Transition>)
      requires Consistent() && Owns(t)
      modifies this`probes, this`tracked, this`nodes, this`fifoLen, this`samples, this`liveLen, t
      modifies deadlines, deadlines.Members()`heapIndex
      ensures Sound() && (Keyed() <==> old(OwnsKeys(t)))
      ensures Result(t.Value(), out) == Reset(old(t.Value())) && t.endpoint == endpoint
      ensures Snapshot() == old(Snapshot())[t.id := t.Value()]
    {
      hide FifoCounted, LiveCounted, Values, Keyed, Heaped, Linked, TargetState.Value, Reset;
      ghost var snap := Snapshot();
      out := Restart(t, endpoint);
      Bounded(t);
      OnlyChanged(t, snap);
    }

    /**
     A changed address forgets every probe and all evidence of the old one. The key map stays in order if
     and only if no probe of another target is out under a key of this target's FIFO: its entry would be
     struck as well.
     */
    method UpdateEndpoint(id: int, endpoint: Option<Address>) returns (out: seq<Transition>)
      requires Valid()
      modifies this`probes, this`tracked, this`nodes, this`fifoLen, this`samples, this`liveLen
      modifies targets.Values, deadlines, nodes
      ensures id in targets ==> targets[id].endpoint == endpoint
      ensures Sound() && Rested(Snapshot())
      ensures Valid() <==> (id in targets && old(targets[id].endpoint) != endpoint ==> old(OwnsKeys(targets[id])))
      ensures var m := old(Snapshot());
        if id in m && old(targets[id].endpoint) != endpoint
        then out == Effect(m[id], NewEndpoint).out && Snapshot() == m[id := Effect(m[id], NewEndpoint).t]
        else Snapshot() == m && out == []
    {
      hide FifoCounted, LiveCounted, Values, Linked, Keyed, Heaped, TargetState.Value;
      out := [];
      if id in targets && targets[id].endpoint != endpoint {
        KnowsTarget(id);
        SnapshotHas(targets[id]);
        HeapTracked();
        out := RestartOf(targets[id], endpoint);
      }
    }

    // ---------- deadlines ----------

    lemma RootExpires(now: int)
      requires Heaped()
      ensures deadlines.items != [] && deadlines.items[0].Deadline() > now ==>
        forall n <- deadlines.Members() :: n.Deadline() > now
      ensures deadlines.items == [] ==> deadlines.Members() == {}
      ensures deadlines.items != [] ==> deadlines.items[0] in deadlines.Members()
    {
      forall n | n in deadlines.Members() && deadlines.items[0].Deadline() > now
        ensures n.Deadline() > now
      {
        var k :| 0 <= k < |deadlines.items| && deadlines.items[k] == n;
        RootIsEarliest(deadlines.items, k);
      }
    }

    lemma HeapHoldsAwaited()
      requires Heaped()
      ensures forall n <- nodes :: n in deadlines.Members() <==> n.accepted && !n.done
    {
    }

    /**
     Every accepted probe whose deadline has come counts as lost; afterwards no deadline in the
     heap has passed. `lost` lists, in order, the target and FIFO place of each.
     */
    method ExpireDue(now: int) returns (out: seq<(int, Transition)>, ghost lost: seq<(int, nat)>)
      requires Valid()
      modifies this`probes, this`tracked, this`nodes, this`fifoLen, this`samples, this`liveLen
      modifies deadlines, targets.Values, nodes
      ensures Valid()
      ensures Snapshot() == Expired(old(Snapshot()), lost, now).0 && out == Expired(old(Snapshot()), lost, now).1
      ensures forall n <- nodes | n.accepted && !n.done :: n.Deadline() > now
    {
      hide FifoCounted, LiveCounted, Values, Linked, Keyed, Heaped, TargetState.Value, Snapshot, Rested,
        ObsessTarget.Expire;
      out, lost := [], [];
      while deadlines.items != [] && deadlines.items[0].Deadline() <= now
        invariant Valid() && nodes <= old(nodes)
        invariant Snapshot() == Expired(old(Snapshot()), lost, now).0 && out == Expired(old(Snapshot()), lost, now).1
        decreases deadlines.Members()
      {
        RootExpires(now);
        HeapTracked();
        var p := deadlines.items[0];
        ghost var i := Place(p);
        SnapshotHas(p.target);
        Bounded(p.target);
        FifoShows(p.target, i);
        ExpiredNext(old(Snapshot()), lost, p.target.id, i, now);
        ExpireRests(Snapshot(), p.target.id, i, now);
        var more := ExpireProbe(p.target, p, i, now);
        lost := lost + [(p.target.id, i)];
        out := out + Tagged(p.target.id, more);
      }
      RootExpires(now);
      HeapHoldsAwaited();
    }
  }
}
