/**
 What an incident promises over whole runs of one target.

 An `Audit` puts beside the target an independent record of what happened to every probe: the
 log is written from the events alone, never from the controller's own conclusions. The main
 results say that whenever the controller announces a recovery, that log justifies it.
 */
module ObsessRecovery {
  import opened Common
  import opened ObsessTarget

  datatype Outcome = Pending | Answered(rtt: int, late: bool) | Lost | WriteFailed | Dropped

  // Probes are identified by send time, which strictly increases for one target.
  type Log = map<int, Outcome>

  datatype Event =
    | CullAt(at: int)
    | EvictAt(now: int)
    | SendAt(key: ProbeKey, sentAt: int, timeout: int)
    | DropAt(sentAt: int, timeout: int)
    | AcceptWrite(i: nat)
    | FailedWrite(i: nat, now: int)
    | EarlyReply(i: nat, reply: Reply)
    | AcceptedReply(i: nat, reply: Reply, now: int)
    | Deadline(i: nat, now: int)
    | GapAt(now: int)
    | NewEndpoint

  // `marks` are the times of everything that interrupts confidence in the target: lost probes and
  // late replies at their deadline, replies over the limit when they arrive, failed writes, scheduler
  // gaps, evictions and unobserved probes. A gap or an eviction has whatever was settled by then count
  // no more, so it also marks the moment after each such send.
  datatype Audit = Audit(t: Target, log: Log, marks: set<int>, out: seq<Transition>)

  function Begin(policy: Policy): Audit { Audit(Initial(policy), map[], {}, []) }

  // A reply that says when it came did not come before the send.
  predicate Follows(p: Probe, r: Reply) { r.replyAt.Some? ==> p.sentAt <= r.replyAt.value }

  /**
   What the controller's own guards and its environment guarantee of the next event: timeouts are
   positive, the sends of one target strictly increase, and no clock reading or reply time
   precedes the send it belongs to.
   */
  ghost predicate Enabled(a: Audit, e: Event) {
    match e
    case CullAt(_) => true
    case EvictAt(_) => a.t.history != []
    case SendAt(_, sentAt, timeout) => timeout > 0 && forall x <- a.log :: x < sentAt
    case DropAt(sentAt, timeout) => timeout > 0 && forall x <- a.log :: x < sentAt
    case AcceptWrite(i) => Open(a.t, i)
    case FailedWrite(i, now) => Open(a.t, i) && a.t.fifo[i].sentAt <= now
    case EarlyReply(i, r) => Open(a.t, i) && Follows(a.t.fifo[i], r)
    case AcceptedReply(i, r, now) => Open(a.t, i) && a.t.fifo[i].sentAt <= r.replyAt.GetOr(now)
    case Deadline(i, now) => Open(a.t, i)
    case GapAt(_) => true
    case NewEndpoint => true
  }

  ghost function Effect(t: Target, e: Event): Result
    requires e.EvictAt? ==> t.history != []
    requires e.AcceptWrite? || e.FailedWrite? || e.EarlyReply? || e.AcceptedReply? || e.Deadline? ==> Open(t, e.i)
  {
    match e
    case CullAt(at) => Result(Cull(t, at), [])
    case EvictAt(now) => Result(Evict(t, now), [])
    case SendAt(key, sentAt, timeout) => Result(Send(t, key, sentAt, timeout), [])
    case DropAt(sentAt, timeout) => Result(Drop(t, sentAt, timeout), [])
    case AcceptWrite(i) => Result(Accept(t, i), [])
    case FailedWrite(i, now) => FailWrite(t, i, now)
    case EarlyReply(i, r) => Result(Early(t, i, r), [])
    case AcceptedReply(i, r, now) => Answer(t, i, r, now)
    case Deadline(i, now) => Expire(t, i, now)
    case GapAt(now) => Result(Interrupt(t, now), [])
    case NewEndpoint => Reset(t)
  }

  function LogAfter(a: Audit, e: Event): Log
    requires e.FailedWrite? || e.AcceptedReply? || e.Deadline? ==> Open(a.t, e.i)
  {
    match e
    case SendAt(_, sentAt, _) => a.log[sentAt := Pending]
    case DropAt(sentAt, _) => a.log[sentAt := Dropped]
    case FailedWrite(i, _) => a.log[a.t.fifo[i].sentAt := WriteFailed]
    case AcceptedReply(i, r, _) => a.log[a.t.fifo[i].sentAt := Answered(r.rtt, IsLate(a.t.fifo[i], r))]
    case Deadline(i, _) => a.log[a.t.fifo[i].sentAt := Lost]
    case NewEndpoint => map[]
    case _ => a.log
  }

  // When the turn of a settled probe comes and its round trip exceeds the limit of the incident that
  // has begun meanwhile, its arrival counts as a fault after all.
  function PopMarks(t: Target): set<int>
    requires t.fifo != []
  {
    if t.active && t.fifo[0].good && Exceeds(t.fifo[0].rtt, t.threshold) then {t.fifo[0].replyAt} else {}
  }

  ghost function DrainMarks(t: Target, now: int): set<int>
    decreases |t.fifo|
  {
    if HeadDone(t) then PopMarks(t) + DrainMarks(PopHead(t, now).t, now) else {}
  }

  ghost function SettleMarks(t: Target, i: nat, good: bool, rtt: int, replyAt: int, now: int): set<int>
    requires Open(t, i)
  {
    DrainMarks(t.(fifo := t.fifo[i := Settled(t.fifo[i], good, rtt, replyAt)]), now)
  }

  // A late reply is a loss at the deadline; one over the limit in force is a fault when it arrives.
  function ReplyMarks(t: Target, p: Probe, r: Reply, replyAt: int): set<int> {
    if IsLate(p, r) then {p.Deadline()} else if Exceeds(r.rtt, Effective(t, p)) then {replyAt} else {}
  }

  // A send is closed when it and everything before it is settled.
  ghost predicate Closed(log: Log, x: int) {
    x in log && forall y <- log | y <= x :: !log[y].Pending?
  }

  ghost function Spent(log: Log): set<int> {
    set x | x in log && Closed(log, x) :: x + 1
  }

  ghost function MarksAfter(a: Audit, e: Event): set<int>
    requires e.FailedWrite? || e.AcceptedReply? || e.Deadline? ==> Open(a.t, e.i)
  {
    match e
    case EvictAt(now) => a.marks + {now} + Spent(a.log)
    case DropAt(sentAt, timeout) => a.marks + {sentAt + timeout}
    case FailedWrite(i, now) =>
      a.marks + {now} + SettleMarks(Interrupt(a.t, now), i, false, 0, a.t.fifo[i].replyAt, now)
    case AcceptedReply(i, r, now) =>
      var replyAt := r.replyAt.GetOr(now);
      var (good, f) := Judge(a.t, a.t.fifo[i], r, replyAt);
      a.marks + ReplyMarks(a.t, a.t.fifo[i], r, replyAt) + SettleMarks(f.t, i, good, r.rtt, replyAt, now)
    case Deadline(i, now) =>
      var p := a.t.fifo[i];
      a.marks + {p.Deadline()} + SettleMarks(Fault(a.t, p, Loss, p.Deadline()).t, i, false, 0, p.replyAt, now)
    case GapAt(now) => a.marks + {now} + Spent(a.log)
    case NewEndpoint => {}
    case _ => a.marks
  }

  ghost function Apply(a: Audit, e: Event): Audit
    requires Enabled(a, e)
  {
    var r := Effect(a.t, e);
    Audit(r.t, LogAfter(a, e), MarksAfter(a, e), a.out + r.out)
  }

  // ---------- what a recovery must rest on ----------

  predicate Healthy(o: Outcome, limit: Option<real>) {
    o.Answered? && !o.late && !Exceeds(o.rtt, limit)
  }

  ghost predicate Adjacent(log: Log, x: int, y: int) {
    x in log && y in log && x < y && forall z <- log :: !(x < z < y)
  }

  // No two neighbouring sends of the window lie further apart than `gap`.
  ghost predicate Steady(log: Log, since: int, through: int, gap: int) {
    forall x, y | Adjacent(log, x, y) && since <= x && y <= through :: y - x <= gap
  }

  // What it takes to end an incident with the given limit: a long enough window of sends, all answered
  // on time and within the limit, close to each other, with nothing unresolved up to its end and nothing
  // that interrupted it.
  ghost predicate Earned(log: Log, marks: set<int>, policy: Policy, limit: Option<real>, since: int, through: int) {
    && since in log && through in log
    && through - since >= policy.recoverAfter
    && (forall x <- log | since <= x <= through :: Healthy(log[x], limit))
    && (forall x <- log | x <= through :: !log[x].Pending?)
    && Steady(log, since, through, 2 * policy.fast)
    && (forall m <- marks :: m <= since)
  }

  ghost predicate Justified(log: Log, marks: set<int>, policy: Policy, tr: Transition)
    requires tr.Recovered?
  {
    && Earned(log, marks, policy, tr.limit, tr.since, tr.through)
    && (tr.limit.Some? && tr.count > 0 ==> tr.baseline <= tr.limit.value)
  }

  ghost predicate AllJustified(log: Log, marks: set<int>, policy: Policy, out: seq<Transition>) {
    forall k | 0 <= k < |out| && out[k].Recovered? :: Justified(log, marks, policy, out[k])
  }

  // ---------- the invariant ----------

  ghost predicate Sorted(fifo: seq<Probe>) {
    forall i, j | 0 <= i < j < |fifo| :: fifo[i].sentAt < fifo[j].sentAt
  }

  ghost predicate InFifo(t: Target, x: int) {
    exists i | 0 <= i < |t.fifo| :: t.fifo[i].sentAt == x
  }

  ghost predicate Covers(bad: Option<int>, x: int) { bad.Some? && x <= bad.value }

  ghost predicate BeforeFifo(t: Target, x: int) {
    forall i | 0 <= i < |t.fifo| :: x < t.fifo[i].sentAt
  }

  // The log agrees with the state of a tracked probe, whose captured limit follows from its baseline.
  ghost predicate Matches(t: Target, log: Log, p: Probe) {
    && p.timeout > 0
    && p.sentAt in log
    && (!p.done ==> log[p.sentAt] == Pending)
    && (p.done ==> !log[p.sentAt].Pending?)
    && (p.done && p.good ==> log[p.sentAt] == Answered(p.rtt, false) && p.sentAt <= p.replyAt)
    && (p.done && !p.good ==> Covers(t.lastBad, p.sentAt))
    && p.threshold == Limit(t.policy, p.baseline, p.baselineCount)
    && (p.early.Some? ==> Follows(p, p.early.value))
  }

  ghost predicate FifoOk(t: Target, log: Log) {
    Sorted(t.fifo) && forall i | 0 <= i < |t.fifo| :: Matches(t, log, t.fifo[i])
  }

  // Every probe that left the FIFO, or never entered it, is settled and lies behind all evidence
  // still to come.
  ghost predicate SettledOk(t: Target, log: Log) {
    forall x <- log | !InFifo(t, x) :: !log[x].Pending? && (Covers(t.lastBad, x) || BeforeFifo(t, x))
  }

  // The healthy run collected so far.
  ghost predicate WindowOk(t: Target, log: Log) {
    && (t.healthySince.Some? <==> t.healthyThrough.Some?)
    && (t.healthySince.Some? ==>
          var s, h := t.healthySince.value, t.healthyThrough.value;
          && t.active && s <= h && s in log && h in log
          && (t.lastBad.Some? ==> t.lastBad.value <= s)
          && BeforeFifo(t, h)
          && (forall x <- log | s <= x && !InFifo(t, x) :: x <= h && Healthy(log[x], t.threshold))
          && Steady(log, s, h, 2 * t.policy.fast))
  }

  ghost predicate HistorySorted(h: seq<Sample>) {
    forall i, j | 0 <= i < j < |h| :: h[i].sentAt < h[j].sentAt
  }

  // Retained samples are genuine on-time answers in send order; during an incident they are all
  // recent and within the frozen limit.
  ghost predicate SampleOk(t: Target, log: Log, s: Sample) {
    && BeforeFifo(t, s.sentAt)
    && s.sentAt in log && log[s.sentAt] == Answered(s.rtt, false)
    && (t.active ==> !Before(s.sentAt, t.lastBad) && !Exceeds(s.rtt, t.threshold))
  }

  ghost predicate HistoryOk(t: Target, log: Log) {
    HistorySorted(t.history) && forall i | 0 <= i < |t.history| :: SampleOk(t, log, t.history[i])
  }

  ghost predicate LimitOk(t: Target) {
    t.active ==> t.threshold == Limit(t.policy, t.baseline, t.baselineCount)
  }

  // A mark lies behind all evidence still to come, and the run collected so far began no earlier.
  ghost predicate MarkOk(t: Target, log: Log, m: int) {
    Covers(t.lastBad, m)
    || (m - 1 in log && BeforeFifo(t, m - 1) && (t.healthySince.Some? ==> m <= t.healthySince.value))
  }

  ghost predicate MarksOk(t: Target, log: Log, marks: set<int>) {
    forall m <- marks :: MarkOk(t, log, m)
  }

  // Transitions alternate between starting and ending an incident; the last one tells which holds.
  ghost predicate Alternates(out: seq<Transition>, active: bool) {
    && (forall k | 0 <= k < |out| :: out[k].Started? <==> k % 2 == 0)
    && (active <==> |out| % 2 == 1)
  }

  ghost predicate Good(t: Target, log: Log, marks: set<int>) {
    && t.policy.Valid()
    && FifoOk(t, log) && SettledOk(t, log) && WindowOk(t, log) && HistoryOk(t, log)
    && LimitOk(t) && MarksOk(t, log, marks)
  }

  ghost predicate Inv(a: Audit) {
    Good(a.t, a.log, a.marks) && !HeadDone(a.t) && Alternates(a.out, a.t.active)
  }

  // ---------- history and mean ----------

  lemma {:induction false} PruneIsSuffix(h: seq<Sample>, cutoff: int) returns (k: nat)
    ensures k <= |h| && Prune(h, cutoff) == h[k..]
    ensures forall i | 0 <= i < k :: h[i].sentAt < cutoff
    ensures k < |h| ==> h[k].sentAt >= cutoff
  {
    if h != [] && h[0].sentAt < cutoff {
      var m := PruneIsSuffix(h[1..], cutoff);
      k := m + 1;
      forall i | 0 <= i < k
        ensures h[i].sentAt < cutoff
      {
        if i > 0 {
          assert h[1..][i - 1] == h[i];
        }
      }
    } else {
      k := 0;
    }
  }

  /** Pruning a history in send order keeps exactly the samples inside the window. */
  lemma PruneKeepsWindow(h: seq<Sample>, cutoff: int)
    requires HistorySorted(h)
    ensures forall s :: s in Prune(h, cutoff) <==> s in h && s.sentAt >= cutoff
  {
    var k := PruneIsSuffix(h, cutoff);
    forall s | s in h && s.sentAt >= cutoff
      ensures s in h[k..]
    {
      var i :| 0 <= i < |h| && h[i] == s;
      assert h[k..][i - k] == s;
    }
  }

  lemma {:induction false} SumBelow(h: seq<Sample>, limit: real)
    requires forall i | 0 <= i < |h| :: h[i].rtt as real <= limit
    ensures Sum(h) as real <= limit * |h| as real
  {
    if h != [] {
      SumBelow(h[..|h| - 1], limit);
    }
  }

  /** Samples within a limit have a mean within it: a recovered baseline cannot exceed the frozen limit. */
  lemma MeanBelow(h: seq<Sample>, limit: real)
    requires h != [] && forall i | 0 <= i < |h| :: h[i].rtt as real <= limit
    ensures Mean(h) <= limit
  {
    SumBelow(h, limit);
    var n := |h| as real;
    assert Sum(h) as real <= limit * n;
    assert (limit * n) / n == limit;
  }

  // ---------- one step keeps the invariant ----------

  lemma InterruptKeeps(t: Target, log: Log, marks: set<int>, at: int)
    requires Good(t, log, marks)
    ensures Good(Interrupt(t, at), log, marks + {at})
  {
    var u := Interrupt(t, at);
    assert forall x :: InFifo(u, x) <==> InFifo(t, x);
    assert forall x :: Covers(t.lastBad, x) ==> Covers(u.lastBad, x);
    assert forall x :: BeforeFifo(u, x) <==> BeforeFifo(t, x);
  }

  lemma FaultKeeps(t: Target, log: Log, marks: set<int>, p: Probe, reason: Reason, at: int)
    requires Good(t, log, marks)
    ensures Good(Fault(t, p, reason, at).t, log, marks + {at})
    ensures Fault(t, p, reason, at).t.active && Fault(t, p, reason, at).t.fifo == t.fifo
  {
    if t.active {
      InterruptKeeps(t, log, marks, at);
    } else {
      var u := Fault(t, p, reason, at).t;
      assert forall x :: InFifo(u, x) <==> InFifo(t, x);
      assert forall x :: Covers(t.lastBad, x) ==> Covers(u.lastBad, x);
      assert forall x :: BeforeFifo(u, x) <==> BeforeFifo(t, x);
    }
  }

  // Everything but the healthy run survives taking the settled head off the FIFO.
  lemma BehindHead(t: Target, log: Log, marks: set<int>)
    requires Good(t, log, marks) && HeadDone(t)
    ensures var u := t.(fifo := t.fifo[1..]);
      && FifoOk(u, log) && SettledOk(u, log) && HistoryOk(u, log)
      && BeforeFifo(u, t.fifo[0].sentAt) && !InFifo(u, t.fifo[0].sentAt)
      && (forall x :: InFifo(t, x) ==> InFifo(u, x) || x == t.fifo[0].sentAt)
      && (forall x :: InFifo(u, x) ==> InFifo(t, x))
      && (forall x :: BeforeFifo(t, x) ==> BeforeFifo(u, x) && x < t.fifo[0].sentAt)
  {
    var u := t.(fifo := t.fifo[1..]);
    forall x | InFifo(t, x)
      ensures InFifo(u, x) || x == t.fifo[0].sentAt
    {
      var i :| 0 <= i < |t.fifo| && t.fifo[i].sentAt == x;
      if i > 0 {
        assert u.fifo[i - 1] == t.fifo[i];
      }
    }
    forall x | InFifo(u, x)
      ensures InFifo(t, x)
    {
      var i :| 0 <= i < |u.fifo| && u.fifo[i].sentAt == x;
      assert t.fifo[i + 1] == u.fifo[i];
    }
  }

  lemma SameFifo(t: Target, u: Target, log: Log, marks: set<int>)
    requires t.fifo == u.fifo && t.lastBad == u.lastBad && t.policy == u.policy
    ensures FifoOk(t, log) ==> FifoOk(u, log)
    ensures SettledOk(t, log) ==> SettledOk(u, log)
    ensures
      MarksOk(t, log, marks) && (u.healthySince.None? || u.healthySince == t.healthySince) ==> MarksOk(u, log, marks)
    ensures forall x :: BeforeFifo(t, x) <==> BeforeFifo(u, x)
    ensures t.history == u.history && t.active == u.active && t.threshold == u.threshold && HistoryOk(t, log) ==>
      HistoryOk(u, log)
    ensures forall s :: t.active == u.active && t.threshold == u.threshold && SampleOk(t, log, s) ==>
      SampleOk(u, log, s)
  {
    assert forall x :: InFifo(t, x) <==> InFifo(u, x);
  }

  lemma AddSampleKeeps(t: Target, log: Log, s: Sample, now: int)
    requires HistoryOk(t, log) && SampleOk(t, log, s)
    requires forall i | 0 <= i < |t.history| :: t.history[i].sentAt < s.sentAt
    ensures HistoryOk(AddSample(t, s, now), log)
  {
    hide SampleOk, FifoOk, SettledOk, MarksOk, BeforeFifo;
    var cutoff := now - t.policy.window;
    var u := AddSample(t, s, now);
    var k := PruneIsSuffix(t.history, cutoff);
    SameFifo(t, u, log, {});
    forall i | 0 <= i < |u.history|
      ensures SampleOk(u, log, u.history[i])
    {
      assert SampleOk(t, log, if i == |t.history| - k then s else t.history[k + i]);
    }
  }

  // A good head that the incident accepts as evidence.
  ghost predicate Accepts(t: Target) {
    HeadDone(t) && t.active && t.fifo[0].good
    && !Exceeds(t.fifo[0].rtt, t.threshold) && !Before(t.fifo[0].sentAt, t.lastBad)
  }

  // The target after the head was counted into a healthy run that began at `since`.
  ghost predicate Counted(t: Target, u: Target, since: int)
    requires t.fifo != []
  {
    && u.active && u.threshold == t.threshold && u.policy == t.policy && u.fifo == t.fifo[1..]
    && u.healthySince == Some(since) && u.healthyThrough == Some(t.fifo[0].sentAt)
    && (u.lastBad.Some? ==> u.lastBad.value <= since)
  }

  // No logged probe outside the FIFO lies at or after the head, except the head itself.
  lemma NothingBeyondHead(t: Target, log: Log, marks: set<int>, u: Target, x: int)
    requires Good(t, log, marks) && Accepts(t) && u.fifo == t.fifo[1..]
    requires x in log && !InFifo(u, x) && x != t.fifo[0].sentAt
    ensures !InFifo(t, x) && x < t.fifo[0].sentAt
  {
    BehindHead(t, log, marks);
    assert forall z :: InFifo(u, z) <==> InFifo(t.(fifo := t.fifo[1..]), z);
  }

  lemma RunStarts(t: Target, log: Log, marks: set<int>, u: Target)
    requires Good(t, log, marks) && Accepts(t) && Counted(t, u, t.fifo[0].sentAt)
    ensures WindowOk(u, log)
  {
    assert Matches(t, log, t.fifo[0]);
    forall x | x in log && t.fifo[0].sentAt <= x && !InFifo(u, x)
      ensures x == t.fifo[0].sentAt
    {
      if x != t.fifo[0].sentAt {
        NothingBeyondHead(t, log, marks, u, x);
      }
    }
  }

  lemma RunExtends(t: Target, log: Log, marks: set<int>, u: Target)
    requires Good(t, log, marks) && Accepts(t) && t.healthySince.Some? && Counted(t, u, t.healthySince.value)
    requires t.fifo[0].sentAt - t.healthyThrough.value <= 2 * t.policy.fast
    ensures WindowOk(u, log)
  {
    var p, s, h := t.fifo[0], t.healthySince.value, t.healthyThrough.value;
    assert Matches(t, log, p);
    forall x | x in log && s <= x && !InFifo(u, x) && x != p.sentAt
      ensures x <= h && Healthy(log[x], t.threshold)
    {
      NothingBeyondHead(t, log, marks, u, x);
    }
    assert BeforeFifo(u, p.sentAt);
    forall x, y | Adjacent(log, x, y) && s <= x && y <= p.sentAt
      ensures y - x <= 2 * t.policy.fast
    {
      assert forall z :: z < p.sentAt ==> !InFifo(u, z);
      assert x <= h;
    }
  }

  lemma RunKept(t: Target, log: Log, marks: set<int>, u: Target, since: int)
    requires Good(t, log, marks) && Accepts(t) && Counted(t, u, since)
    requires if t.healthyThrough.Some? && t.fifo[0].sentAt - t.healthyThrough.value <= 2 * t.policy.fast
             then since == t.healthySince.value else since == t.fifo[0].sentAt
    ensures WindowOk(u, log)
  {
    if t.healthyThrough.Some? && t.fifo[0].sentAt - t.healthyThrough.value <= 2 * t.policy.fast {
      RunExtends(t, log, marks, u);
    } else {
      RunStarts(t, log, marks, u);
    }
  }

  // Everything but the healthy run survives an interrupt by the head's own late send.
  lemma RestartKeeps(t: Target, log: Log, marks: set<int>, u: Target)
    requires Good(t, log, marks) && Accepts(t)
    requires u == t.(fifo := t.fifo[1..]) || u == Interrupt(t.(fifo := t.fifo[1..]), t.fifo[0].sentAt)
    ensures FifoOk(u, log) && SettledOk(u, log) && HistoryOk(u, log)
    ensures MarksOk(u, log, marks) && forall m <- marks :: Covers(u.lastBad, m) || m <= t.fifo[0].sentAt
    ensures SampleOk(u, log, Sample(t.fifo[0].sentAt, t.fifo[0].rtt))
    ensures forall i | 0 <= i < |u.history| :: u.history[i].sentAt < t.fifo[0].sentAt
  {
    BehindHead(t, log, marks);
    var v := t.(fifo := t.fifo[1..]);
    assert Matches(t, log, t.fifo[0]);
    assert forall x :: InFifo(u, x) <==> InFifo(v, x);
    assert forall x :: Covers(v.lastBad, x) ==> Covers(u.lastBad, x);
    assert forall x :: BeforeFifo(u, x) <==> BeforeFifo(v, x);
  }

  lemma RunIsJustified(t: Target, log: Log, marks: set<int>)
    requires Good(t, log, marks) && t.healthySince.Some?
    requires t.healthyThrough.value - t.healthySince.value >= t.policy.recoverAfter
    ensures Justified(log, marks, t.policy,
              Recovered(t.healthySince.value, t.healthyThrough.value, t.threshold, Mean(t.history), |t.history|))
  {
    var s, h := t.healthySince.value, t.healthyThrough.value;
    assert forall x <- log | x <= h :: !InFifo(t, x);
    if t.threshold.Some? && t.history != [] {
      forall i | 0 <= i < |t.history|
        ensures t.history[i].rtt as real <= t.threshold.value
      {
        assert SampleOk(t, log, t.history[i]);
      }
      MeanBelow(t.history, t.threshold.value);
    }
  }

  // A recovery changes nothing but the incident itself.
  lemma EndKeeps(t: Target, log: Log, marks: set<int>)
    requires Good(t, log, marks) && t.active
    ensures var u := t.(active := false, trackingLimited := false, reason := None, since := None,
                        healthySince := None, healthyThrough := None);
      Good(u, log, marks)
  {
    var u := t.(active := false, trackingLimited := false, reason := None, since := None,
                healthySince := None, healthyThrough := None);
    SameFifo(t, u, log, marks);
    forall i | 0 <= i < |u.history|
      ensures SampleOk(u, log, u.history[i])
    {
      assert SampleOk(t, log, t.history[i]);
    }
  }

  // A run that goes on, or begins with the head, begins no earlier than any mark.
  lemma SinceKeepsMarks(t: Target, u: Target, log: Log, marks: set<int>, at: int)
    requires MarksOk(t, log, marks) && forall m <- marks :: Covers(t.lastBad, m) || m <= at
    requires u.fifo == t.fifo && u.lastBad == t.lastBad
    requires u.healthySince == t.healthySince || u.healthySince == Some(at)
    ensures MarksOk(u, log, marks)
  {
    forall m | m in marks
      ensures MarkOk(u, log, m)
    {
      assert MarkOk(t, log, m);
    }
  }

  lemma EvidenceKeeps(t: Target, log: Log, marks: set<int>, now: int)
    requires Good(t, log, marks) && Accepts(t)
    ensures var r := Evidence(t.(fifo := t.fifo[1..]), t.fifo[0], now);
      Good(r.t, log, marks) && AllJustified(log, marks, t.policy, r.out) && r.t.policy == t.policy
  {
    hide Justified, SettledOk, FifoOk, HistoryOk, MarkOk, SampleOk, BeforeFifo, Mean, Prune;
    var p, t1 := t.fifo[0], t.(fifo := t.fifo[1..]);
    var restart := t1.healthyThrough.Some? && p.sentAt - t1.healthyThrough.value > 2 * t.policy.fast;
    var t2 := if restart then Interrupt(t1, p.sentAt) else t1;
    var since := t2.healthySince.GetOr(p.sentAt);
    var t3 := t2.(healthySince := Some(since), healthyThrough := Some(p.sentAt));
    var t4 := AddSample(t3, Sample(p.sentAt, p.rtt), now);
    RestartKeeps(t, log, marks, t2);
    SameFifo(t2, t3, log, marks);
    SinceKeepsMarks(t2, t3, log, marks, p.sentAt);
    AddSampleKeeps(t3, log, Sample(p.sentAt, p.rtt), now);
    SameFifo(t3, t4, log, marks);
    RunKept(t, log, marks, t4, since);
    if p.sentAt - since >= t.policy.recoverAfter {
      RunIsJustified(t4, log, marks);
      EndKeeps(t4, log, marks);
    }
  }

  // The incident is still the same one: its baseline and limit have not moved.
  ghost predicate SameIncident(t: Target, u: Target) {
    u.baseline == t.baseline && u.baselineCount == t.baselineCount && u.threshold == t.threshold
  }

  // Taking one settled head off can only end an incident.
  lemma PopOnlyRecovers(t: Target, now: int)
    requires HeadDone(t)
    ensures var r := PopHead(t, now);
      && SameIncident(t, r.t) && |r.t.fifo| == |t.fifo| - 1
      && if t.active && !r.t.active then |r.out| == 1 && r.out[0].Recovered? && r.out[0].limit == t.threshold
         else r.t.active == t.active && r.out == []
  {
    hide Mean, Prune;
  }

  // Outside an incident no limit is frozen that a settled probe could exceed.
  lemma {:induction false} IdleDrainsUnmarked(t: Target, now: int)
    requires !t.active
    ensures DrainMarks(t, now) == {}
    decreases |t.fifo|
  {
    hide PopHead;
    if HeadDone(t) {
      PopOnlyRecovers(t, now);
      IdleDrainsUnmarked(PopHead(t, now).t, now);
    }
  }

  // A head whose turn shows it to exceed the frozen limit interrupts the run when it arrived.
  lemma ReclassifyKeeps(t: Target, log: Log, marks: set<int>)
    requires Good(t, log, marks) && HeadDone(t) && t.active
    ensures Good(Interrupt(t.(fifo := t.fifo[1..]), t.fifo[0].replyAt), log, marks + {t.fifo[0].replyAt})
  {
    var p, u := t.fifo[0], t.(fifo := t.fifo[1..]);
    BehindHead(t, log, marks);
    var w := u.(healthySince := None, healthyThrough := None);
    SameFifo(u, w, log, marks);
    InterruptKeeps(w, log, marks, p.replyAt);
    assert Interrupt(w, p.replyAt) == Interrupt(u, p.replyAt);
  }

  lemma PopKeeps(t: Target, log: Log, marks: set<int>, now: int)
    requires Good(t, log, marks) && HeadDone(t)
    ensures var r := PopHead(t, now); var marks' := marks + PopMarks(t);
      Good(r.t, log, marks') && AllJustified(log, marks', t.policy, r.out) && r.t.policy == t.policy
  {
    hide Justified, Mean, Prune;
    var p, u := t.fifo[0], t.(fifo := t.fifo[1..]);
    assert marks + {} == marks;
    BehindHead(t, log, marks);
    assert Matches(t, log, p);
    if p.good && !t.active {
      AddSampleKeeps(u, log, Sample(p.sentAt, p.rtt), now);
      SameFifo(u, AddSample(u, Sample(p.sentAt, p.rtt), now), log, marks);
    } else if p.good && Exceeds(p.rtt, t.threshold) {
      ReclassifyKeeps(t, log, marks);
    } else if p.good && !Before(p.sentAt, t.lastBad) {
      EvidenceKeeps(t, log, marks, now);
    } else {
      SameFifo(u, PopHead(t, now).t, log, marks);
    }
  }

  /** However many settled probes one event releases, every recovery among them is justified. */
  lemma {:induction false} DrainKeeps(t: Target, log: Log, marks: set<int>, now: int)
    requires Good(t, log, marks)
    ensures var r := Drain(t, now); var marks' := marks + DrainMarks(t, now);
      && Good(r.t, log, marks') && !HeadDone(r.t) && r.t.policy == t.policy
      && AllJustified(log, marks', t.policy, r.out)
    decreases |t.fifo|
  {
    hide PopHead, PopMarks, Good, Justified;
    if HeadDone(t) {
      var r, rest := PopHead(t, now), DrainMarks(PopHead(t, now).t, now);
      PopKeeps(t, log, marks, now);
      PopOnlyRecovers(t, now);
      DrainKeeps(r.t, log, marks + PopMarks(t), now);
      if !r.t.active {
        IdleDrainsUnmarked(r.t, now);
      }
      assert marks + (PopMarks(t) + rest) == marks + PopMarks(t) + rest;
      assert rest == {} ==> marks + PopMarks(t) + rest == marks + PopMarks(t);
    } else {
      assert marks + {} == marks;
    }
  }

  // Steadiness only looks at the send times inside the window.
  lemma SteadyAgrees(log: Log, log': Log, s: int, h: int, gap: int)
    requires Steady(log, s, h, gap) && forall x :: x <= h ==> (x in log <==> x in log')
    ensures Steady(log', s, h, gap)
  {
    forall x, y | Adjacent(log', x, y) && s <= x && y <= h
      ensures y - x <= gap
    {
      assert Adjacent(log, x, y);
    }
  }

  // Recording the outcome of a tracked probe changes neither what has left the FIFO nor the run.
  lemma OutcomeKeepsRest(t: Target, log: Log, u: Target, log': Log, x: int)
    requires SettledOk(t, log) && WindowOk(t, log) && HistoryOk(t, log)
    requires u == t.(fifo := u.fifo) && InFifo(t, x) && log'.Keys == log.Keys
    requires forall z <- log | z != x :: log'[z] == log[z]
    requires forall z :: InFifo(u, z) <==> InFifo(t, z)
    requires forall z :: BeforeFifo(u, z) <==> BeforeFifo(t, z)
    ensures SettledOk(u, log') && WindowOk(u, log') && HistoryOk(u, log')
  {
    forall j | 0 <= j < |t.history|
      ensures SampleOk(u, log', u.history[j])
    {
      assert SampleOk(t, log, t.history[j]);
    }
    if t.healthySince.Some? {
      SteadyAgrees(log, log', t.healthySince.value, t.healthyThrough.value, 2 * t.policy.fast);
    }
  }

  lemma SettledFifo(t: Target, log: Log, i: nat, good: bool, rtt: int, replyAt: int, o: Outcome)
    requires FifoOk(t, log) && Open(t, i)
    requires !o.Pending? && (good ==> o == Answered(rtt, false) && t.fifo[i].sentAt <= replyAt)
    requires !good ==> Covers(t.lastBad, t.fifo[i].sentAt)
    ensures var u := t.(fifo := t.fifo[i := Settled(t.fifo[i], good, rtt, replyAt)]);
      && FifoOk(u, log[t.fifo[i].sentAt := o]) && InFifo(t, t.fifo[i].sentAt)
      && t.fifo[i].sentAt in log
      && (forall z :: InFifo(u, z) <==> InFifo(t, z))
      && (forall z :: BeforeFifo(u, z) <==> BeforeFifo(t, z))
  {
    var u := t.(fifo := t.fifo[i := Settled(t.fifo[i], good, rtt, replyAt)]);
    assert Matches(t, log, t.fifo[i]);
    assert forall j | 0 <= j < |t.fifo| :: u.fifo[j].sentAt == t.fifo[j].sentAt;
    assert forall j | 0 <= j < |t.fifo| && j != i :: t.fifo[j].sentAt != t.fifo[i].sentAt && Matches(t, log, t.fifo[j]);
  }

  // Settling a tracked probe keeps the invariant once the log and `lastBad` account for it.
  lemma SettleKeeps(t: Target, log: Log, marks: set<int>, i: nat, good: bool, rtt: int, replyAt: int, o: Outcome,
                    now: int)
    requires Good(t, log, marks) && Open(t, i)
    requires !o.Pending? && (good ==> o == Answered(rtt, false) && t.fifo[i].sentAt <= replyAt)
    requires !good ==> Covers(t.lastBad, t.fifo[i].sentAt)
    ensures var r := Settle(t, i, good, rtt, replyAt, now);
      var log', marks' := log[t.fifo[i].sentAt := o], marks + SettleMarks(t, i, good, rtt, replyAt, now);
      && Good(r.t, log', marks') && !HeadDone(r.t) && r.t.policy == t.policy
      && AllJustified(log', marks', t.policy, r.out)
  {
    var x := t.fifo[i].sentAt;
    var u := t.(fifo := t.fifo[i := Settled(t.fifo[i], good, rtt, replyAt)]);
    SettledFifo(t, log, i, good, rtt, replyAt, o);
    OutcomeKeepsRest(t, log, u, log[x := o], x);
    DrainKeeps(u, log[x := o], marks, now);
  }

  // ---------- transitions and the frozen limit ----------

  // `out` leads from one incident state to the other, starting and ending incidents in turn.
  ghost predicate Chain(before: bool, out: seq<Transition>, after: bool) {
    && (forall k | 0 <= k < |out| :: out[k].Started? <==> (k % 2 == 0) == !before)
    && (after <==> (|out| % 2 == 0) == before)
  }

  lemma Parity(a: nat, b: nat)
    ensures (a + b) % 2 == 0 <==> (a % 2 == 0) == (b % 2 == 0)
  {
  }

  lemma ChainAppends(out: seq<Transition>, more: seq<Transition>, before: bool, middle: bool, after: bool)
    requires Chain(before, out, middle) && Chain(middle, more, after)
    ensures Chain(before, out + more, after)
  {
    forall k | 0 <= k < |out + more|
      ensures (out + more)[k].Started? <==> (k % 2 == 0) == !before
    {
      if k >= |out| {
        assert (out + more)[k] == more[k - |out|];
        Parity(|out|, k - |out|);
      }
    }
    Parity(|out|, |more|);
  }

  /** Draining the FIFO can end an incident but never start one, and never moves its limit. */
  lemma {:induction false} DrainOnlyRecovers(t: Target, now: int)
    ensures var r := Drain(t, now);
      && Chain(t.active, r.out, r.t.active) && SameIncident(t, r.t)
      && (forall k | 0 <= k < |r.out| :: r.out[k].Recovered? && r.out[k].limit == t.threshold)
      && (r.t.active ==> t.active && r.out == [])
      && (!t.active ==> r.out == [])
    decreases |t.fifo|
  {
    hide PopHead;
    if HeadDone(t) {
      PopOnlyRecovers(t, now);
      DrainOnlyRecovers(PopHead(t, now).t, now);
    }
  }

  lemma SettleChains(t: Target, i: nat, good: bool, rtt: int, replyAt: int, now: int)
    requires Open(t, i)
    ensures var r := Settle(t, i, good, rtt, replyAt, now);
      && Chain(t.active, r.out, r.t.active) && SameIncident(t, r.t)
      && (forall k | 0 <= k < |r.out| :: r.out[k].Recovered? && r.out[k].limit == t.threshold)
      && (r.t.active ==> t.active && r.out == []) && (!t.active ==> r.out == [])
  {
    DrainOnlyRecovers(t.(fifo := t.fifo[i := Settled(t.fifo[i], good, rtt, replyAt)]), now);
  }

  // A fault may start an incident; what the settled probe releases may end it again.
  lemma FaultThenSettle(t: Target, f: Result, i: nat, good: bool, rtt: int, replyAt: int, now: int)
    requires Open(f.t, i) && Chain(t.active, f.out, f.t.active)
    ensures var s := Settle(f.t, i, good, rtt, replyAt, now); Chain(t.active, f.out + s.out, s.t.active)
  {
    SettleChains(f.t, i, good, rtt, replyAt, now);
    var s := Settle(f.t, i, good, rtt, replyAt, now);
    ChainAppends(f.out, s.out, t.active, f.t.active, s.t.active);
  }

  lemma EffectChains(t: Target, e: Event)
    requires e.EvictAt? ==> t.history != []
    requires e.AcceptWrite? || e.FailedWrite? || e.EarlyReply? || e.AcceptedReply? || e.Deadline? ==> Open(t, e.i)
    ensures Chain(t.active, Effect(t, e).out, Effect(t, e).t.active)
  {
    match e {
      case FailedWrite(i, now) =>
        SettleChains(Interrupt(t, now), i, false, 0, t.fifo[i].replyAt, now);
      case AcceptedReply(i, r, now) =>
        var (good, f) := Judge(t, t.fifo[i], r, r.replyAt.GetOr(now));
        FaultThenSettle(t, f, i, good, r.rtt, r.replyAt.GetOr(now), now);
      case Deadline(i, now) =>
        FaultThenSettle(t, Fault(t, t.fifo[i], Loss, t.fifo[i].Deadline()), i, false, 0, t.fifo[i].replyAt, now);
      case _ =>
    }
  }

  // ---------- every event keeps the invariant ----------

  lemma FailedWriteKeeps(t: Target, log: Log, marks: set<int>, i: nat, now: int)
    requires Good(t, log, marks) && Open(t, i) && t.fifo[i].sentAt <= now
    ensures var r := FailWrite(t, i, now); var log' := log[t.fifo[i].sentAt := WriteFailed];
      var marks' := marks + {now} + SettleMarks(Interrupt(t, now), i, false, 0, t.fifo[i].replyAt, now);
      && Good(r.t, log', marks') && !HeadDone(r.t) && AllJustified(log', marks', t.policy, r.out)
  {
    InterruptKeeps(t, log, marks, now);
    var u := Interrupt(t, now);
    SettleKeeps(u, log, marks + {now}, i, false, 0, t.fifo[i].replyAt, WriteFailed, now);
  }

  lemma TouchedFifo(t: Target, log: Log, i: nat, q: Probe)
    requires FifoOk(t, log) && Open(t, i)
    requires var p := t.fifo[i]; q == p.(accepted := q.accepted, early := q.early)
    requires q.early.Some? ==> Follows(q, q.early.value)
    ensures var u := t.(fifo := t.fifo[i := q]);
      && FifoOk(u, log) && InFifo(t, t.fifo[i].sentAt)
      && (forall z :: InFifo(u, z) <==> InFifo(t, z))
      && (forall z :: BeforeFifo(u, z) <==> BeforeFifo(t, z))
  {
    var u := t.(fifo := t.fifo[i := q]);
    assert forall j | 0 <= j < |t.fifo| :: u.fifo[j].sentAt == t.fifo[j].sentAt && Matches(t, log, t.fifo[j]);
  }

  // A flag or a buffered reply on an unsettled probe is no evidence.
  lemma TouchKeeps(t: Target, log: Log, marks: set<int>, i: nat, q: Probe)
    requires Good(t, log, marks) && Open(t, i)
    requires var p := t.fifo[i]; q == p.(accepted := q.accepted, early := q.early)
    requires q.early.Some? ==> Follows(q, q.early.value)
    ensures Good(t.(fifo := t.fifo[i := q]), log, marks)
    ensures HeadDone(t.(fifo := t.fifo[i := q])) == HeadDone(t)
  {
    hide Matches, SettledOk, WindowOk, HistoryOk, InFifo, BeforeFifo;
    var u := t.(fifo := t.fifo[i := q]);
    TouchedFifo(t, log, i, q);
    OutcomeKeepsRest(t, log, u, log, t.fifo[i].sentAt);
  }

  lemma AcceptKeeps(t: Target, log: Log, marks: set<int>, i: nat)
    requires Good(t, log, marks) && Open(t, i)
    ensures Good(Accept(t, i), log, marks) && HeadDone(Accept(t, i)) == HeadDone(t)
  {
    assert Matches(t, log, t.fifo[i]);
    TouchKeeps(t, log, marks, i, t.fifo[i].(accepted := true));
  }

  lemma EarlyKeeps(t: Target, log: Log, marks: set<int>, i: nat, r: Reply)
    requires Good(t, log, marks) && Open(t, i) && Follows(t.fifo[i], r)
    ensures Good(Early(t, i, r), log, marks) && HeadDone(Early(t, i, r)) == HeadDone(t)
  {
    if t.fifo[i].early.None? {
      TouchKeeps(t, log, marks, i, t.fifo[i].(early := Some(r)));
    }
  }

  lemma HistoryShrinks(t: Target, log: Log, marks: set<int>, k: nat, limited: bool)
    requires Good(t, log, marks) && k <= |t.history|
    ensures Good(t.(history := t.history[k..], trackingLimited := limited), log, marks)
  {
    var u := t.(history := t.history[k..], trackingLimited := limited);
    SameFifo(t, u, log, marks);
    forall i | 0 <= i < |u.history|
      ensures SampleOk(u, log, u.history[i])
    {
      assert SampleOk(t, log, t.history[k + i]);
    }
  }

  lemma CullKeeps(t: Target, log: Log, marks: set<int>, at: int)
    requires Good(t, log, marks)
    ensures Good(Cull(t, at), log, marks)
  {
    hide Good;
    var k := PruneIsSuffix(t.history, at - t.policy.window);
    HistoryShrinks(t, log, marks, k, t.trackingLimited);
  }

  // In a target at rest everything closed lies before the FIFO.
  lemma ClosedIsBehind(t: Target, log: Log, x: int)
    requires FifoOk(t, log) && !HeadDone(t) && Closed(log, x)
    ensures BeforeFifo(t, x)
  {
    if t.fifo != [] {
      assert Matches(t, log, t.fifo[0]);
    }
  }

  lemma NoRunLeft(t: Target, log: Log, now: int)
    requires WindowOk(t, log)
    ensures Interrupt(t, now).healthySince.None? && Interrupt(t, now).fifo == t.fifo
  {
  }

  lemma PauseKeeps(t: Target, log: Log, marks: set<int>, now: int)
    requires Good(t, log, marks) && !HeadDone(t)
    ensures Good(Interrupt(t, now), log, marks + {now} + Spent(log))
  {
    InterruptKeeps(t, log, marks, now);
    hide FifoOk, SettledOk, WindowOk, HistoryOk, LimitOk, BeforeFifo;
    var u := Interrupt(t, now);
    assert u.healthySince.None? by { NoRunLeft(t, log, now); }
    forall m | m in Spent(log)
      ensures MarkOk(u, log, m)
    {
      ClosedIsBehind(u, log, m - 1);
    }
  }

  lemma EvictKeeps(t: Target, log: Log, marks: set<int>, now: int)
    requires Good(t, log, marks) && t.history != [] && !HeadDone(t)
    ensures Good(Evict(t, now), log, marks + {now} + Spent(log))
  {
    hide Good, Spent;
    var u := t.(history := t.history[1..], trackingLimited := true);
    HistoryShrinks(t, log, marks, 1, true);
    PauseKeeps(u, log, marks, now);
  }

  // A fresh start owes nothing to the past.
  lemma InitialIsGood(policy: Policy)
    requires policy.Valid()
    ensures Good(Initial(policy), map[], {})
  {
  }

  lemma DeadlineKeeps(t: Target, log: Log, marks: set<int>, i: nat, now: int)
    requires Good(t, log, marks) && Open(t, i)
    ensures var r := Expire(t, i, now); var log' := log[t.fifo[i].sentAt := Lost];
      var p := t.fifo[i];
      var marks' := marks + {p.Deadline()}
                    + SettleMarks(Fault(t, p, Loss, p.Deadline()).t, i, false, 0, p.replyAt, now);
      Good(r.t, log', marks') && !HeadDone(r.t) && AllJustified(log', marks', t.policy, r.out)
  {
    var p := t.fifo[i];
    assert Matches(t, log, p);
    FaultKeeps(t, log, marks, p, Loss, p.Deadline());
    SettleKeeps(Fault(t, p, Loss, p.Deadline()).t, log, marks + {p.Deadline()}, i, false, 0, p.replyAt, Lost, now);
  }

  // Judging a reply keeps the invariant; one that is no good is behind all evidence to come.
  lemma JudgeKeeps(t: Target, log: Log, marks: set<int>, i: nat, r: Reply, replyAt: int)
    requires Good(t, log, marks) && Open(t, i) && t.fifo[i].sentAt <= replyAt
    ensures var p := t.fifo[i]; var (good, f) := Judge(t, p, r, replyAt);
      && Good(f.t, log, marks + ReplyMarks(t, p, r, replyAt)) && f.t.fifo == t.fifo && f.t.policy == t.policy
      && (forall k | 0 <= k < |f.out| :: !f.out[k].Recovered?)
      && (good ==> !IsLate(p, r)) && (!good ==> Covers(f.t.lastBad, p.sentAt))
  {
    var p := t.fifo[i];
    assert Matches(t, log, p);
    if IsLate(p, r) {
      FaultKeeps(t, log, marks, p, Loss, p.Deadline());
    } else if Exceeds(r.rtt, Effective(t, p)) {
      FaultKeeps(t, log, marks, p, Latency, replyAt);
    } else {
      assert marks + {} == marks;
    }
  }

  lemma ReplyKeeps(t: Target, log: Log, marks: set<int>, i: nat, r: Reply, now: int)
    requires Good(t, log, marks) && Open(t, i) && t.fifo[i].sentAt <= r.replyAt.GetOr(now)
    ensures var res := Answer(t, i, r, now);
      var log' := log[t.fifo[i].sentAt := Answered(r.rtt, IsLate(t.fifo[i], r))];
      var replyAt := r.replyAt.GetOr(now);
      var (good, f) := Judge(t, t.fifo[i], r, replyAt);
      var marks' := marks + ReplyMarks(t, t.fifo[i], r, replyAt) + SettleMarks(f.t, i, good, r.rtt, replyAt, now);
      Good(res.t, log', marks') && !HeadDone(res.t) && AllJustified(log', marks', t.policy, res.out)
  {
    hide Good, Judge, ReplyMarks, SettleMarks, Settle, IsLate, HeadDone;
    var p, replyAt := t.fifo[i], r.replyAt.GetOr(now);
    var (good, f) := Judge(t, p, r, replyAt);
    JudgeKeeps(t, log, marks, i, r, replyAt);
    SettleKeeps(f.t, log, marks + ReplyMarks(t, p, r, replyAt), i, good, r.rtt, replyAt,
                Answered(r.rtt, IsLate(p, r)), now);
  }

  lemma SendInFifo(t: Target, p: Probe)
    ensures var u := t.(fifo := t.fifo + [p]);
      && (forall x :: InFifo(u, x) <==> InFifo(t, x) || x == p.sentAt)
      && (forall x :: BeforeFifo(u, x) <==> BeforeFifo(t, x) && x < p.sentAt)
  {
    var u := t.(fifo := t.fifo + [p]);
    assert u.fifo[|t.fifo|] == p;
    forall x | InFifo(t, x)
      ensures InFifo(u, x)
    {
      var i :| 0 <= i < |t.fifo| && t.fifo[i].sentAt == x;
      assert u.fifo[i] == t.fifo[i];
    }
    assert forall i | 0 <= i < |t.fifo| :: u.fifo[i] == t.fifo[i];
  }

  lemma SendKeepsWindow(t: Target, log: Log, u: Target, sentAt: int)
    requires WindowOk(t, log) && SettledOk(t, log) && forall x <- log :: x < sentAt
    requires u == t.(fifo := u.fifo)
    requires forall x :: InFifo(u, x) <==> InFifo(t, x) || x == sentAt
    requires forall x :: BeforeFifo(u, x) <==> BeforeFifo(t, x) && x < sentAt
    ensures WindowOk(u, log[sentAt := Pending]) && SettledOk(u, log[sentAt := Pending])
  {
    var log' := log[sentAt := Pending];
    assert SettledOk(u, log') by {
      forall x | x in log' && !InFifo(u, x)
        ensures !log'[x].Pending? && (Covers(u.lastBad, x) || BeforeFifo(u, x))
      {
        assert x in log && !InFifo(t, x);
      }
    }
    if t.healthySince.Some? {
      SteadyAgrees(log, log', t.healthySince.value, t.healthyThrough.value, 2 * t.policy.fast);
    }
  }

  lemma SendKeepsFifo(t: Target, log: Log, key: ProbeKey, sentAt: int, timeout: int)
    requires FifoOk(t, log) && LimitOk(t) && timeout > 0 && forall x <- log :: x < sentAt
    ensures FifoOk(Send(t, key, sentAt, timeout), log[sentAt := Pending])
  {
    assert forall i | 0 <= i < |t.fifo| :: Matches(t, log, t.fifo[i]);
  }

  lemma SendKeeps(t: Target, log: Log, marks: set<int>, key: ProbeKey, sentAt: int, timeout: int)
    requires Good(t, log, marks) && timeout > 0 && forall x <- log :: x < sentAt
    ensures Good(Send(t, key, sentAt, timeout), log[sentAt := Pending], marks)
  {
    var u, log' := Send(t, key, sentAt, timeout), log[sentAt := Pending];
    SendInFifo(t, Capture(t, key, sentAt, timeout));
    SendKeepsFifo(t, log, key, sentAt, timeout);
    forall i | 0 <= i < |t.history|
      ensures SampleOk(u, log', u.history[i])
    {
      assert SampleOk(t, log, t.history[i]);
    }
    SendKeepsWindow(t, log, u, sentAt);
  }

  // A probe that no evidence can reach past may enter the log without having been tracked.
  lemma DroppedIsLogged(u: Target, log: Log, marks: set<int>, sentAt: int)
    requires Good(u, log, marks) && Covers(u.lastBad, sentAt) && forall x <- log :: x < sentAt
    ensures Good(u, log[sentAt := Dropped], marks)
  {
    assert forall i | 0 <= i < |u.fifo| :: Matches(u, log, u.fifo[i]);
    forall i | 0 <= i < |u.history|
      ensures SampleOk(u, log[sentAt := Dropped], u.history[i])
    {
      assert SampleOk(u, log, u.history[i]);
    }
  }

  lemma DropKeeps(t: Target, log: Log, marks: set<int>, sentAt: int, timeout: int)
    requires Good(t, log, marks) && timeout > 0 && forall x <- log :: x < sentAt
    ensures Good(Drop(t, sentAt, timeout), log[sentAt := Dropped], marks + {sentAt + timeout})
  {
    SameFifo(t, t.(trackingLimited := true), log, marks);
    InterruptKeeps(t.(trackingLimited := true), log, marks, sentAt + timeout);
    DroppedIsLogged(Drop(t, sentAt, timeout), log, marks + {sentAt + timeout}, sentAt);
  }

  // Settling events, where recoveries can happen.
  lemma SettlingKeeps(a: Audit, e: Event)
    requires Inv(a) && Enabled(a, e) && (e.FailedWrite? || e.AcceptedReply? || e.Deadline?)
    ensures Good(Effect(a.t, e).t, LogAfter(a, e), MarksAfter(a, e)) && !HeadDone(Effect(a.t, e).t)
    ensures AllJustified(LogAfter(a, e), MarksAfter(a, e), a.t.policy, Effect(a.t, e).out)
  {
    match e {
      case FailedWrite(i, now) => FailedWriteKeeps(a.t, a.log, a.marks, i, now);
      case AcceptedReply(i, r, now) => ReplyKeeps(a.t, a.log, a.marks, i, r, now);
      case Deadline(i, now) => DeadlineKeeps(a.t, a.log, a.marks, i, now);
    }
  }

  // All other events announce no recovery.
  lemma OtherKeeps(a: Audit, e: Event)
    requires Inv(a) && Enabled(a, e) && !(e.FailedWrite? || e.AcceptedReply? || e.Deadline?)
    ensures Good(Effect(a.t, e).t, LogAfter(a, e), MarksAfter(a, e)) && !HeadDone(Effect(a.t, e).t)
    ensures forall k | 0 <= k < |Effect(a.t, e).out| :: !Effect(a.t, e).out[k].Recovered?
  {
    assert a.t.policy.Valid();
    hide Good, Early;
    match e {
      case CullAt(at) => CullKeeps(a.t, a.log, a.marks, at);
      case EvictAt(now) => EvictKeeps(a.t, a.log, a.marks, now);
      case SendAt(key, sentAt, timeout) => SendKeeps(a.t, a.log, a.marks, key, sentAt, timeout);
      case DropAt(sentAt, timeout) => DropKeeps(a.t, a.log, a.marks, sentAt, timeout);
      case AcceptWrite(i) => AcceptKeeps(a.t, a.log, a.marks, i);
      case EarlyReply(i, r) => EarlyKeeps(a.t, a.log, a.marks, i, r);
      case GapAt(now) => PauseKeeps(a.t, a.log, a.marks, now);
      case NewEndpoint => InitialIsGood(a.t.policy);
    }
  }

  /** Every event keeps the invariant and justifies any recovery it announces. */
  lemma ApplyKeeps(a: Audit, e: Event)
    requires Inv(a) && Enabled(a, e)
    ensures Inv(Apply(a, e))
    ensures AllJustified(Apply(a, e).log, Apply(a, e).marks, a.t.policy, Effect(a.t, e).out)
  {
    EffectChains(a.t, e);
    ChainAppends(a.out, Effect(a.t, e).out, false, a.t.active, Effect(a.t, e).t.active);
    if e.FailedWrite? || e.AcceptedReply? || e.Deadline? {
      SettlingKeeps(a, e);
    } else {
      OtherKeeps(a, e);
    }
  }

  // ---------- whole runs ----------

  /** The audited state after a run, or `None` if some event could not happen. */
  ghost function After(policy: Policy, trace: seq<Event>): Option<Audit> {
    if trace == [] then Some(Begin(policy))
    else
      var a := After(policy, trace[..|trace| - 1]);
      var e := trace[|trace| - 1];
      if a.Some? && Enabled(a.value, e) then Some(Apply(a.value, e)) else None
  }

  lemma {:induction false} DrainKeepsPolicy(t: Target, now: int)
    ensures Drain(t, now).t.policy == t.policy
    decreases |t.fifo|
  {
    if HeadDone(t) {
      DrainKeepsPolicy(PopHead(t, now).t, now);
    }
  }

  lemma EffectKeepsPolicy(t: Target, e: Event)
    requires e.EvictAt? ==> t.history != []
    requires e.AcceptWrite? || e.FailedWrite? || e.EarlyReply? || e.AcceptedReply? || e.Deadline? ==> Open(t, e.i)
    ensures Effect(t, e).t.policy == t.policy
  {
    match e {
      case FailedWrite(i, now) =>
        var u := Interrupt(t, now);
        DrainKeepsPolicy(u.(fifo := u.fifo[i := Settled(u.fifo[i], false, 0, t.fifo[i].replyAt)]), now);
      case AcceptedReply(i, r, now) =>
        var (good, f) := Judge(t, t.fifo[i], r, r.replyAt.GetOr(now));
        DrainKeepsPolicy(f.t.(fifo := f.t.fifo[i := Settled(f.t.fifo[i], good, r.rtt, r.replyAt.GetOr(now))]), now);
      case Deadline(i, now) =>
        var f := Fault(t, t.fifo[i], Loss, t.fifo[i].Deadline());
        DrainKeepsPolicy(f.t.(fifo := f.t.fifo[i := Settled(f.t.fifo[i], false, 0, t.fifo[i].replyAt)]), now);
      case _ =>
    }
  }

  lemma {:induction false} RunKeeps(policy: Policy, trace: seq<Event>)
    requires policy.Valid() && After(policy, trace).Some?
    ensures Inv(After(policy, trace).value) && After(policy, trace).value.t.policy == policy
  {
    if trace != [] {
      var a, e := After(policy, trace[..|trace| - 1]).value, trace[|trace| - 1];
      RunKeeps(policy, trace[..|trace| - 1]);
      ApplyKeeps(a, e);
      EffectKeepsPolicy(a.t, e);
    }
  }

  /**
   A recovery is sound in every run: the record of what really happened shows that every probe
   sent in the announced healthy window was answered on time and within the frozen limit, that no
   two neighbouring sends lie more than twice the fast interval apart, that the window is long
   enough, that no probe up to its end is unresolved, and that nothing interrupted it.
   */
  lemma RecoveryIsSound(policy: Policy, trace: seq<Event>, e: Event)
    requires policy.Valid() && After(policy, trace + [e]).Some?
    ensures var before, after := After(policy, trace), After(policy, trace + [e]).value;
      && before.Some? && before.value.out <= after.out
      && AllJustified(after.log, after.marks, policy, after.out[|before.value.out|..])
  {
    assert (trace + [e])[..|trace|] == trace;
    var a := After(policy, trace).value;
    RunKeeps(policy, trace);
    ApplyKeeps(a, e);
    assert Apply(a, e).out[|a.out|..] == Effect(a.t, e).out;
  }

  lemma LastTells(out: seq<Transition>, active: bool)
    requires Alternates(out, active)
    ensures active <==> out != [] && out[|out| - 1].Started?
  {
    if out != [] {
      assert out[|out| - 1].Started? <==> (|out| - 1) % 2 == 0;
    }
  }

  // When an event interrupts confidence in the target, if it does.
  function FaultTime(t: Target, e: Event): Option<int>
    requires e.AcceptedReply? || e.Deadline? ==> Open(t, e.i)
  {
    match e
    case EvictAt(now) => Some(now)
    case DropAt(sentAt, timeout) => Some(sentAt + timeout)
    case FailedWrite(_, now) => Some(now)
    case AcceptedReply(i, r, now) =>
      if IsLate(t.fifo[i], r) then Some(t.fifo[i].Deadline())
      else if Exceeds(r.rtt, Effective(t, t.fifo[i])) then Some(r.replyAt.GetOr(now))
      else None
    case Deadline(i, _) => Some(t.fifo[i].Deadline())
    case GapAt(now) => Some(now)
    case _ => None
  }

  lemma {:induction false} PrefixRuns(policy: Policy, trace: seq<Event>, rest: seq<Event>)
    requires After(policy, trace + rest).Some?
    ensures After(policy, trace).Some?
    ensures (forall e <- rest :: !e.NewEndpoint?) ==>
      After(policy, trace).value.marks <= After(policy, trace + rest).value.marks
  {
    hide Effect, LogAfter, Enabled, DrainMarks;
    if rest == [] {
      assert trace + rest == trace;
    } else {
      var init, e := rest[..|rest| - 1], rest[|rest| - 1];
      assert (trace + rest)[..|trace + rest| - 1] == trace + init;
      PrefixRuns(policy, trace, init);
    }
  }

  /**
   Nothing that interrupts confidence falls into an announced window: whatever lost or late probe, reply
   over the limit in force, failed write, gap, eviction or unobserved probe there was since the endpoint
   last changed, every later recovery begins its healthy window no earlier.
   */
  lemma NoFaultInside(policy: Policy, before: seq<Event>, fault: Event, between: seq<Event>, e: Event)
    requires policy.Valid() && After(policy, before + [fault] + between + [e]).Some?
    requires forall x <- between + [e] :: !x.NewEndpoint?
    ensures After(policy, before).Some? && Enabled(After(policy, before).value, fault)
    ensures After(policy, before + [fault] + between).Some?
    ensures var t := After(policy, before).value.t;
      var known := After(policy, before + [fault] + between).value.out;
      var out := After(policy, before + [fault] + between + [e]).value.out;
      FaultTime(t, fault).Some? ==>
        forall tr <- out[|known|..] | tr.Recovered? :: FaultTime(t, fault).value <= tr.since
  {
    hide Effect, LogAfter, DrainMarks;
    var trace := before + [fault] + between;
    assert before + [fault] + (between + [e]) == trace + [e];
    assert (before + [fault])[..|before|] == before;
    PrefixRuns(policy, before + [fault], between + [e]);
    RecoveryIsSound(policy, trace, e);
  }

  /** Incidents start and end strictly in turn, and the last transition says whether one is open. */
  lemma IncidentsAlternate(policy: Policy, trace: seq<Event>)
    requires policy.Valid() && After(policy, trace).Some?
    ensures var a := After(policy, trace).value;
      && (forall k | 0 <= k < |a.out| :: a.out[k].Started? <==> k % 2 == 0)
      && (a.t.active <==> a.out != [] && a.out[|a.out| - 1].Started?)
  {
    RunKeeps(policy, trace);
    LastTells(After(policy, trace).value.out, After(policy, trace).value.t.active);
  }

  lemma EffectFreezes(t: Target, e: Event)
    requires e.EvictAt? ==> t.history != []
    requires e.AcceptWrite? || e.FailedWrite? || e.EarlyReply? || e.AcceptedReply? || e.Deadline? ==> Open(t, e.i)
    requires t.active && Effect(t, e).t.active
    ensures SameIncident(t, Effect(t, e).t)
  {
    match e {
      case FailedWrite(i, now) =>
        SettleChains(Interrupt(t, now), i, false, 0, t.fifo[i].replyAt, now);
      case AcceptedReply(i, r, now) =>
        var (good, f) := Judge(t, t.fifo[i], r, r.replyAt.GetOr(now));
        SettleChains(f.t, i, good, r.rtt, r.replyAt.GetOr(now), now);
      case Deadline(i, now) =>
        SettleChains(Fault(t, t.fifo[i], Loss, t.fifo[i].Deadline()).t, i, false, 0, t.fifo[i].replyAt, now);
      case _ =>
    }
  }

  /**
   Degradation cannot teach an open incident a new normal: its baseline and limit stay as they
   were frozen, and every sample it retains was sent after the last fault, on time, within the limit.
   */
  lemma FrozenBaseline(policy: Policy, trace: seq<Event>, e: Event)
    requires policy.Valid() && After(policy, trace + [e]).Some?
    requires After(policy, trace).value.t.active && After(policy, trace + [e]).value.t.active
    ensures var t, u := After(policy, trace).value.t, After(policy, trace + [e]).value.t;
      && SameIncident(t, u) && HistorySorted(u.history)
      && forall s <- u.history :: !Before(s.sentAt, u.lastBad) && !Exceeds(s.rtt, u.threshold)
  {
    assert (trace + [e])[..|trace|] == trace;
    var a := After(policy, trace).value;
    RunKeeps(policy, trace);
    RunKeeps(policy, trace + [e]);
    EffectFreezes(a.t, e);
    var u := Apply(a, e).t;
    forall s | s in u.history
      ensures !Before(s.sentAt, u.lastBad) && !Exceeds(s.rtt, u.threshold)
    {
      var i :| 0 <= i < |u.history| && u.history[i] == s;
      assert SampleOk(u, Apply(a, e).log, u.history[i]);
    }
  }

  // The only events that may start an incident: a lost probe, a late reply, or a reply above the
  // limit captured when its probe was sent.
  ghost predicate IsFault(t: Target, e: Event)
    requires e.AcceptedReply? || e.Deadline? ==> Open(t, e.i)
  {
    match e
    case Deadline(_, _) => true
    case AcceptedReply(i, r, _) =>
      r.late || r.rtt > t.fifo[i].timeout || Exceeds(r.rtt, t.fifo[i].threshold)
    case _ => false
  }

  // The incident is frozen at what the probe captured when it was sent.
  predicate Froze(t: Target, p: Probe) {
    t.baseline == p.baseline && t.baselineCount == p.baselineCount && t.threshold == p.threshold
  }

  // A reply that an idle target judges to be a fault starts an incident with the probe's own limit.
  lemma ReplyStarts(t: Target, i: nat, r: Reply, now: int)
    requires Open(t, i) && !t.active
    requires var p := t.fifo[i]; p.threshold == Limit(t.policy, p.baseline, p.baselineCount)
    ensures var p, res := t.fifo[i], Answer(t, i, r, now);
      if IsLate(p, r) then res.out != [] && res.out[0] == Started(Loss, p.sentAt + p.timeout, p.key) && Froze(res.t, p)
      else if Exceeds(r.rtt, p.threshold)
      then res.out != [] && res.out[0] == Started(Latency, r.replyAt.GetOr(now), p.key) && Froze(res.t, p)
      else res.out == []
  {
    hide Settle, Limit;
    var replyAt := r.replyAt.GetOr(now);
    var (good, f) := Judge(t, t.fifo[i], r, replyAt);
    SettleChains(f.t, i, good, r.rtt, replyAt, now);
  }

  lemma DeadlineStarts(t: Target, i: nat, now: int)
    requires Open(t, i) && !t.active
    requires var p := t.fifo[i]; p.threshold == Limit(t.policy, p.baseline, p.baselineCount)
    ensures var p, res := t.fifo[i], Expire(t, i, now);
      res.out != [] && res.out[0] == Started(Loss, p.sentAt + p.timeout, p.key) && Froze(res.t, p)
  {
    hide Settle, Limit;
    SettleChains(Fault(t, t.fifo[i], Loss, t.fifo[i].Deadline()).t, i, false, 0, t.fifo[i].replyAt, now);
  }

  /**
   An idle target starts an incident exactly on a fault, and then with the faulting probe's own captured
   baseline and limit frozen; it names that probe, the reason, and the deadline it missed or the time its
   reply came. Failed writes, gaps, evictions and unaccepted probes never start one.
   */
  lemma IncidentStartsExactlyOnFault(policy: Policy, trace: seq<Event>, e: Event)
    requires policy.Valid() && After(policy, trace).Some? && Enabled(After(policy, trace).value, e)
    requires !After(policy, trace).value.t.active
    ensures var a := After(policy, trace).value; var r := Effect(a.t, e);
      && (IsFault(a.t, e) <==> r.out != [] && r.out[0].Started?)
      && (IsFault(a.t, e) <==> r.out != [])
      && (IsFault(a.t, e) ==>
            var p := a.t.fifo[e.i]; var latency := e.AcceptedReply? && !e.reply.late && e.reply.rtt <= p.timeout;
            && Froze(r.t, p)
            && r.out[0] == if latency then Started(Latency, e.reply.replyAt.GetOr(e.now), p.key)
                           else Started(Loss, p.sentAt + p.timeout, p.key))
  {
    hide Answer, Expire, Settle;
    var a := After(policy, trace).value;
    var t := a.t;
    RunKeeps(policy, trace);
    match e {
      case FailedWrite(i, now) =>
        SettleChains(Interrupt(t, now), i, false, 0, t.fifo[i].replyAt, now);
      case AcceptedReply(i, r, now) =>
        assert Matches(t, a.log, t.fifo[i]);
        ReplyStarts(t, i, r, now);
      case Deadline(i, now) =>
        assert Matches(t, a.log, t.fifo[i]);
        DeadlineStarts(t, i, now);
      case _ =>
    }
  }
}
