/**
 The tables behind ping history and what each write does to them: probe rows, missed-slot rows,
 minute rollups, the durable set of dirty minutes, and the replies buffered until their row arrives.
 */
module SampleStore {
  import opened Common
  import opened PingAggregate
  import opened RawAggregate
  import opened TimeGrid
  import opened PingRollups

  const MAX_ORPHANS: nat := 4096

  datatype Minute = Minute(target: int, at: int)

  datatype Reply = Reply(answer: Answered, responder: nat, sentAt: Option<int>)

  datatype Event =
    | Sent(key: ProbeKey, target: int, address: nat, scheduled: nat, sent: nat, timeout: nat, sendError: bool)
    | Replied(key: ProbeKey, reply: Reply)
    | Missing(target: int, firstNanos: nat, intervalNanos: int, count: nat)

  datatype State = State(
    tables: Tables, nextGap: nat, rollups: map<Minute, Rollup>, dirty: set<Minute>,
    orphans: map<ProbeKey, Reply>, prunedThrough: int, mismatches: nat, evicted: nat)

  const START: State := State(Tables(map[], map[]), 0, map[], {}, map[], 0, 0, 0)

  function MinuteOf(target: int, at: int): Minute { Minute(target, Floor(at, MINUTE)) }

  function Span(m: Minute): Window { Window(m.target, m.at, m.at + MINUTE) }

  // ---------- replies ----------

  /** The row a reply leaves: the first reply from the probed address is kept, later ones are counted. */
  function Answer(r: Row, reply: Reply): Row {
    if r.address != reply.responder then r
    else if r.reply.None? then r.(reply := Some(reply.answer))
    else r.(duplicates := r.duplicates + 1)
  }

  // A reply whose row exists.
  function ApplyReply(s: State, key: ProbeKey, reply: Reply): State
    requires key in s.tables.rows
  {
    var r := s.tables.rows[key];
    var rows := s.tables.rows[key := Answer(r, reply)];
    if r.address != reply.responder then s.(mismatches := s.mismatches + 1)
    else if r.reply.None? then
      s.(tables := s.tables.(rows := rows), dirty := s.dirty + {MinuteOf(r.target, r.scheduled)})
    else s.(tables := s.tables.(rows := rows))
  }

  // Sent so long ago that its row has been pruned.
  predicate Pruned(s: State, reply: Reply) {
    reply.sentAt.Some? && reply.sentAt.value <= s.prunedThrough
  }

  // ---------- events ----------

  function NewRow(e: Event): Row
    requires e.Sent?
  {
    Row(e.target, e.address, e.scheduled, e.sent, e.timeout, e.sendError, None, 0)
  }

  function InsertProbe(s: State, e: Event): Option<State>
    requires e.Sent?
  {
    if e.key in s.tables.rows then None
    else
      var s1 := s.(tables := s.tables.(rows := s.tables.rows[e.key := NewRow(e)]),
                   dirty := s.dirty + {MinuteOf(e.target, e.scheduled)});
      if e.key in s.orphans then
        var s2 := ApplyReply(s1, e.key, s.orphans[e.key]);
        Some(s2.(orphans := s.orphans - {e.key}))
      else Some(s1)
  }

  function Receive(s: State, e: Event): Option<State>
    requires e.Replied?
  {
    if e.key in s.tables.rows then Some(ApplyReply(s, e.key, e.reply))
    else if Pruned(s, e.reply) then Some(s.(evicted := s.evicted + 1))
    else if |s.orphans| >= MAX_ORPHANS then None
    else Some(s.(orphans := s.orphans[e.key := e.reply]))
  }

  function NewGap(e: Event): Gap
    requires e.Missing? && e.intervalNanos > 0
  {
    Gap(e.target, e.firstNanos / 1000, e.intervalNanos / 1000, e.count)
  }

  // The minutes from `at` through `last`.
  function Marks(target: int, at: int, last: int): set<Minute>
    decreases last - at
  {
    if at > last then {} else {Minute(target, at)} + Marks(target, at + MINUTE, last)
  }

  // The last missed slot, in microseconds.
  function LastMissed(e: Event): int
    requires e.Missing?
  {
    (e.firstNanos + (e.count - 1) * e.intervalNanos) / 1000
  }

  function InsertGap(s: State, e: Event): Option<State>
    requires e.Missing?
  {
    if e.count == 0 || e.intervalNanos <= 0 then None
    else
      Some(s.(tables := s.tables.(gaps := s.tables.gaps[s.nextGap := NewGap(e)]), nextGap := s.nextGap + 1,
              dirty := s.dirty + Marks(e.target, Floor(e.firstNanos / 1000, MINUTE), Floor(LastMissed(e), MINUTE))))
  }

  /** One event of a batch; None is the error that rolls the whole batch back. */
  function Apply(s: State, e: Event): Option<State> {
    match e
    case Sent(_, _, _, _, _, _, _) => InsertProbe(s, e)
    case Replied(_, _) => Receive(s, e)
    case Missing(_, _, _, _) => InsertGap(s, e)
  }

  function ApplyAll(s: State, es: seq<Event>): Option<State> {
    if es == [] then Some(s)
    else
      match ApplyAll(s, es[..|es| - 1])
      case None => None
      case Some(s1) => Apply(s1, es[|es| - 1])
  }

  lemma {:induction false} ApplyAllAppends(s: State, a: seq<Event>, b: seq<Event>)
    ensures ApplyAll(s, a + b) == if ApplyAll(s, a).None? then None else ApplyAll(ApplyAll(s, a).value, b)
  {
    hide Apply;
    if b == [] {
      assert a + b == a;
    } else {
      var n := |b| - 1;
      assert (a + b)[..|a + b| - 1] == a + b[..n];
      ApplyAllAppends(s, a, b[..n]);
    }
  }

  // ---------- rollups and retention ----------

  // A minute is recomputed once it is over and none of its probes is pending.
  ghost predicate Ready(s: State, m: Minute, asOf: int) {
    && m.at + MINUTE <= asOf
    && forall k <- s.tables.rows :: Covers(Span(m), s.tables.rows[k]) ==> !s.tables.rows[k].Pending(asOf)
  }

  ghost function Recompute(s: State, m: Minute, asOf: int): State {
    if !Ready(s, m, asOf) then s
    else
      s.(rollups := s.rollups[m := Store(Raw(s.tables, Span(m), None).agg)], dirty := s.dirty - {m})
  }

  function HourOf(m: Minute): Minute { Minute(m.target, Floor(m.at, HOUR)) }

  predicate InHour(h: Minute, m: Minute) { m.target == h.target && h.at <= m.at < h.at + HOUR }

  // The minute rollups of one target.
  function RollupsOf(s: State, target: int): map<int, Rollup> {
    map at | at in (set m | m in s.rollups && m.target == target :: m.at) :: s.rollups[Minute(target, at)]
  }

  // What recomputing an hour stores.
  ghost function Combined(s: State, h: Minute): Rollup {
    Store(SumRollups(Minutes(RollupsOf(s, h.target), h.at)))
  }

  // An hour is recomputed once it is over and none of its minutes is dirty.
  predicate HourReady(s: State, h: Minute, asOf: int) {
    h.at + HOUR <= asOf && forall m <- s.dirty :: !InHour(h, m)
  }

  // Old enough, and the minute it counts in has a rollup that is not dirty.
  predicate RowPrunable(s: State, k: ProbeKey, cutoff: int)
    requires k in s.tables.rows
  {
    var r := s.tables.rows[k];
    var m := MinuteOf(r.target, r.scheduled);
    r.scheduled < cutoff && r.sent < cutoff && m in s.rollups && m !in s.dirty
  }

  predicate GapPrunable(s: State, k: nat, cutoff: int)
    requires k in s.tables.gaps
  {
    var g := s.tables.gaps[k];
    && g.Last() < cutoff
    && forall m <- s.dirty :: !(m.target == g.target && Floor(g.first, MINUTE) <= m.at <= Floor(g.Last(), MINUTE))
  }

  function WithoutRows(s: State, ks: set<ProbeKey>): State {
    s.(tables := s.tables.(rows := s.tables.rows - ks))
  }

  function WithoutGaps(s: State, ks: set<nat>): State {
    s.(tables := s.tables.(gaps := s.tables.gaps - ks))
  }

  // The watermark moves once no row sent before the cutoff remains.
  function AdvancePruned(s: State, cutoff: int): State {
    if exists k <- s.tables.rows :: s.tables.rows[k].sent < cutoff then s
    else s.(prunedThrough := Max(s.prunedThrough, cutoff))
  }
}
