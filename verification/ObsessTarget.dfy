/**
 One target of the obsess controller, as a value.

 Every controller operation touches one target's incident state under the controller lock.
 The functions here give that effect on an immutable copy of the target; `ObsessController`
 proves that the in-place code computes them, and `ObsessRecovery` proves what they promise
 over whole runs.

 Times and durations are integers (nanoseconds); a zero time is `None`.
 */
module ObsessTarget {
  import opened Common

  const MAX_INT64: real := 9223372036854775807.0

  datatype Policy = Policy(
    normal: int, fast: int, window: int, recoverAfter: int,
    minSamples: nat, absolute: int, percent: real)
  {
    // What the controller's constructor demands of an enabled target.
    predicate Valid() {
      0 < fast < normal && 0 < window && 0 < recoverAfter && 1 <= minSamples
    }
  }

  datatype Sample = Sample(sentAt: int, rtt: int)

  datatype Reply = Reply(rtt: int, late: bool, replyAt: Option<int>)

  datatype Probe = Probe(
    key: ProbeKey, sentAt: int, timeout: int,
    accepted: bool, done: bool, good: bool, rtt: int, replyAt: int, early: Option<Reply>,
    baseline: real, baselineCount: nat, threshold: Option<real>)
  {
    function Deadline(): int { sentAt + timeout }
  }

  datatype Reason = Loss | Latency

  // The snapshots the controller emits. A recovery carries the evidence it rests on: the healthy
  // run it saw, the incident's limit, and the baseline and sample count of the new normal state.
  datatype Transition =
    | Started(reason: Reason, at: int, trigger: ProbeKey)
    | Recovered(since: int, through: int, limit: Option<real>, baseline: real, count: nat)
    | EndpointChanged

  datatype Target = Target(
    policy: Policy,
    active: bool, reason: Option<Reason>, since: Option<int>,
    baseline: real, baselineCount: nat, threshold: Option<real>,
    healthySince: Option<int>, healthyThrough: Option<int>, lastBad: Option<int>,
    history: seq<Sample>, fifo: seq<Probe>, trackingLimited: bool)

  datatype Result = Result(t: Target, out: seq<Transition>)

  function Initial(policy: Policy): Target {
    Target(policy, false, None, None, 0.0, 0, None, None, None, None, [], [], false)
  }

  // ---------- baseline ----------

  ghost function Sum(h: seq<Sample>): int {
    if h == [] then 0 else Sum(h[..|h| - 1]) + h[|h| - 1].rtt
  }

  /** The arithmetic mean that the source computes incrementally. */
  ghost function Mean(h: seq<Sample>): real {
    if h == [] then 0.0 else Sum(h) as real / |h| as real
  }

  function Limit(policy: Policy, mean: real, count: nat): Option<real> {
    if policy.absolute > 0 then Some(policy.absolute as real)
    else if count < policy.minSamples then None
    else
      var threshold := mean * (1.0 + policy.percent / 100.0);
      Some(if threshold > MAX_INT64 then MAX_INT64 else threshold)
  }

  predicate Exceeds(rtt: int, limit: Option<real>) {
    limit.Some? && rtt as real > limit.value
  }

  function Prune(h: seq<Sample>, cutoff: int): seq<Sample> {
    if h != [] && h[0].sentAt < cutoff then Prune(h[1..], cutoff) else h
  }

  ghost function AddSample(t: Target, s: Sample, now: int): Target {
    var kept := Prune(t.history, now - t.policy.window);
    t.(history := if s.sentAt < now - t.policy.window then kept else kept + [s])
  }

  // ---------- incident state ----------

  predicate Before(at: int, bad: Option<int>) { bad.Some? && at < bad.value }

  function Later(bad: Option<int>, at: int): Option<int> {
    if bad.None? || at > bad.value then Some(at) else bad
  }

  function Interrupt(t: Target, at: int): Target {
    var t := t.(lastBad := Later(t.lastBad, at));
    if t.active then t.(healthySince := None, healthyThrough := None, history := []) else t
  }

  function Fault(t: Target, p: Probe, reason: Reason, at: int): Result {
    if t.active then
      Result(Interrupt(t, at), [])
    else
      var t := t.(active := true, reason := Some(reason), since := Some(at),
                  baseline := p.baseline, baselineCount := p.baselineCount,
                  threshold := Limit(t.policy, p.baseline, p.baselineCount));
      Result(Interrupt(t, at), [Started(reason, at, p.key)])
  }

  // A send counted into the healthy run; more than twice the fast interval of silence restarts it.
  function Continued(t: Target, p: Probe): (u: Target)
    ensures u.healthySince.Some? && u.healthyThrough == Some(p.sentAt)
  {
    var t := if t.healthyThrough.Some? && p.sentAt - t.healthyThrough.value > 2 * t.policy.fast
             then Interrupt(t, p.sentAt) else t;
    t.(healthySince := Some(t.healthySince.GetOr(p.sentAt)), healthyThrough := Some(p.sentAt))
  }

  // A good head of the FIFO becomes recovery evidence while an incident is active.
  ghost function Evidence(t: Target, p: Probe, now: int): Result {
    var t := AddSample(Continued(t, p), Sample(p.sentAt, p.rtt), now);
    var since := t.healthySince.value;
    if p.sentAt - since >= t.policy.recoverAfter then
      Result(t.(active := false, trackingLimited := false, reason := None, since := None,
                healthySince := None, healthyThrough := None),
             [Recovered(since, p.sentAt, t.threshold, Mean(t.history), |t.history|)])
    else
      Result(t, [])
  }

  // Take the settled head off the FIFO.
  ghost function PopHead(t: Target, now: int): Result
    requires t.fifo != []
  {
    var p, t := t.fifo[0], t.(fifo := t.fifo[1..]);
    if !p.good then Result(t, [])
    else if !t.active then Result(AddSample(t, Sample(p.sentAt, p.rtt), now), [])
    else if Exceeds(p.rtt, t.threshold) then Fault(t, p, Latency, p.replyAt)
    else if Before(p.sentAt, t.lastBad) then Result(t, [])
    else Evidence(t, p, now)
  }

  predicate HeadDone(t: Target) { t.fifo != [] && t.fifo[0].done }

  /** Evidence is consumed in send order: settled probes leave only from the head. */
  ghost function Drain(t: Target, now: int): Result
    decreases |t.fifo|
  {
    if HeadDone(t) then
      var r := PopHead(t, now);
      var rest := Drain(r.t, now);
      Result(rest.t, r.out + rest.out)
    else
      Result(t, [])
  }

  // ---------- operations ----------

  predicate Open(t: Target, i: nat) { i < |t.fifo| && !t.fifo[i].done }

  // A settled probe counts as accepted: its write is over either way.
  function Settled(p: Probe, good: bool, rtt: int, replyAt: int): Probe {
    p.(accepted := true, done := true, good := good, rtt := rtt, replyAt := replyAt, early := None)
  }

  ghost function Settle(t: Target, i: nat, good: bool, rtt: int, replyAt: int, now: int): Result
    requires Open(t, i)
  {
    Drain(t.(fifo := t.fifo[i := Settled(t.fifo[i], good, rtt, replyAt)]), now)
  }

  predicate IsLate(p: Probe, r: Reply) { r.late || r.rtt > p.timeout }

  // The limit a reply is judged against: the incident's frozen one, or the probe's own.
  function Effective(t: Target, p: Probe): Option<real> {
    if t.active then t.threshold else p.threshold
  }

  function Judge(t: Target, p: Probe, r: Reply, replyAt: int): (v: (bool, Result)) {
    if IsLate(p, r) then (false, Fault(t, p, Loss, p.Deadline()))
    else if Exceeds(r.rtt, Effective(t, p)) then (false, Fault(t, p, Latency, replyAt))
    else (true, Result(t, []))
  }

  ghost function Answer(t: Target, i: nat, r: Reply, now: int): Result
    requires Open(t, i)
  {
    var replyAt := r.replyAt.GetOr(now);
    var (good, f) := Judge(t, t.fifo[i], r, replyAt);
    var s := Settle(f.t, i, good, r.rtt, replyAt, now);
    Result(s.t, f.out + s.out)
  }

  ghost function Expire(t: Target, i: nat, now: int): Result
    requires Open(t, i)
  {
    var p := t.fifo[i];
    var f := Fault(t, p, Loss, p.Deadline());
    var s := Settle(f.t, i, false, 0, p.replyAt, now);
    Result(s.t, f.out + s.out)
  }

  ghost function FailWrite(t: Target, i: nat, now: int): Result
    requires Open(t, i)
  {
    Settle(Interrupt(t, now), i, false, 0, t.fifo[i].replyAt, now)
  }

  function Accept(t: Target, i: nat): Target
    requires Open(t, i)
  {
    t.(fifo := t.fifo[i := t.fifo[i].(accepted := true)])
  }

  function Early(t: Target, i: nat, r: Reply): Target
    requires Open(t, i)
  {
    if t.fifo[i].early.None? then t.(fifo := t.fifo[i := t.fifo[i].(early := Some(r))]) else t
  }

  function Cull(t: Target, at: int): Target {
    t.(history := Prune(t.history, at - t.policy.window))
  }

  function Evict(t: Target, now: int): Target
    requires t.history != []
  {
    Interrupt(t.(history := t.history[1..], trackingLimited := true), now)
  }

  // The baseline a probe captures when its send begins.
  ghost function Capture(t: Target, key: ProbeKey, sentAt: int, timeout: int): Probe {
    var mean, count, limit :=
      if t.active then t.baseline else Mean(t.history),
      if t.active then t.baselineCount else |t.history|,
      if t.active then t.threshold else Limit(t.policy, Mean(t.history), |t.history|);
    Probe(key, sentAt, timeout, false, false, false, 0, 0, None, mean, count, limit)
  }

  ghost function Send(t: Target, key: ProbeKey, sentAt: int, timeout: int): Target {
    t.(fifo := t.fifo + [Capture(t, key, sentAt, timeout)])
  }

  function Drop(t: Target, sentAt: int, timeout: int): Target {
    Interrupt(t.(trackingLimited := true), sentAt + timeout)
  }

  function Reset(t: Target): Result {
    Result(Initial(t.policy), if t.active then [EndpointChanged] else [])
  }
}
