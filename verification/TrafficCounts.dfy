/**
 From events to counts: what a scan of the tables says about the events that were written. Every probe that
 was sent is counted by how it was sent, and every slot of every gap, as far as microseconds tell them apart.
 */
module TrafficCounts {
  import opened Common
  import opened PingAggregate
  import opened RawAggregate
  import opened SampleStore
  import RawCounts
  import Delivery

  // The row says what was sent.
  predicate Tells(r: Row, e: Event)
    requires e.Sent?
  {
    && r.target == e.target && r.address == e.address && r.scheduled == e.scheduled
    && r.sent == e.sent && r.timeout == e.timeout && r.sendError == e.sendError
  }

  ghost predicate RowsTell(rows: map<ProbeKey, Row>, es: seq<Event>) {
    && (forall e <- es | e.Sent? :: e.key in rows && Tells(rows[e.key], e))
    && (forall k <- rows :: exists e <- es :: e.Sent? && e.key == k)
  }

  // The rows stay as they were sent, whatever is said of replies.
  ghost predicate Keeps(rows: map<ProbeKey, Row>, rows': map<ProbeKey, Row>) {
    forall k <- rows :: k in rows' && rows'[k] == rows[k].(reply := rows'[k].reply, duplicates := rows'[k].duplicates)
  }

  lemma ReplyTells(s: State, key: ProbeKey, reply: Reply)
    requires key in s.tables.rows
    ensures Keeps(s.tables.rows, ApplyReply(s, key, reply).tables.rows)
    ensures ApplyReply(s, key, reply).tables.rows.Keys == s.tables.rows.Keys
  {
    hide MinuteOf;
  }

  lemma SendTells(s: State, e: Event, s': State)
    requires e.Sent? && InsertProbe(s, e) == Some(s')
    ensures Keeps(s.tables.rows, s'.tables.rows) && s'.tables.rows.Keys == s.tables.rows.Keys + {e.key}
    ensures e.key !in s.tables.rows && Tells(s'.tables.rows[e.key], e)
  {
    hide MinuteOf, ApplyReply;
    var s1 := s.(tables := s.tables.(rows := s.tables.rows[e.key := NewRow(e)]),
                 dirty := s.dirty + {MinuteOf(e.target, e.scheduled)});
    if e.key in s.orphans {
      ReplyTells(s1, e.key, s.orphans[e.key]);
    }
  }

  // One event leaves what the rows say, or adds the row of a new probe.
  lemma StepTells(s: State, e: Event, s': State)
    requires Apply(s, e) == Some(s')
    ensures Keeps(s.tables.rows, s'.tables.rows)
    ensures e.Sent? ==> e.key !in s.tables.rows && e.key in s'.tables.rows && Tells(s'.tables.rows[e.key], e)
    ensures s'.tables.rows.Keys == s.tables.rows.Keys + if e.Sent? then {e.key} else {}
  {
    hide MinuteOf, Marks, LastMissed, ApplyReply, InsertProbe, NewGap;
    match e {
      case Sent(_, _, _, _, _, _, _) => SendTells(s, e, s');
      case Replied(key, reply) =>
        if key in s.tables.rows {
          ReplyTells(s, key, reply);
        }
      case Missing(_, _, _, _) =>
    }
  }

  lemma TellsStill(s: State, e: Event, s': State, es: seq<Event>)
    requires Apply(s, e) == Some(s') && RowsTell(s.tables.rows, es)
    ensures RowsTell(s'.tables.rows, es + [e])
  {
    hide Apply;
    StepTells(s, e, s');
    forall k | k in s'.tables.rows
      ensures exists x <- es + [e] :: x.Sent? && x.key == k
    {
      if k in s.tables.rows {
        var x :| x in es && x.Sent? && x.key == k;
        assert x in es + [e];
      } else {
        assert e in es + [e];
      }
    }
  }

  /** After any run of events the rows are the probes that were sent, each as it was sent. */
  lemma {:induction false} RowsAreSends(s: State, es: seq<Event>)
    requires ApplyAll(START, es) == Some(s)
    ensures RowsTell(s.tables.rows, es)
    decreases |es|
  {
    hide Apply, Tells;
    if es != [] {
      var init, e := es[..|es| - 1], es[|es| - 1];
      var s0 := ApplyAll(START, init).value;
      RowsAreSends(s0, init);
      StepTells(s0, e, s);
      TellsStill(s0, e, s, init);
      assert es == init + [e];
    }
  }

  // ---------- gaps ----------

  // The gaps among the events, in order.
  function Missings(es: seq<Event>): (ms: seq<Event>)
    ensures forall e <- ms :: e.Missing? && e in es
  {
    if es == [] then []
    else Missings(es[..|es| - 1]) + if es[|es| - 1].Missing? then [es[|es| - 1]] else []
  }

  // When a slot was missed, and where the store has it, in microseconds.
  function MissedAt(e: Event, i: nat): int
    requires e.Missing?
  {
    (e.firstNanos + i * e.intervalNanos) / 1000
  }

  function StoredAt(g: Gap, i: nat): int { g.first + i * g.step }

  // What rounding the first slot and the interval down to microseconds loses by slot i, in nanoseconds.
  function Drift(e: Event, i: nat): nat
    requires e.Missing?
  {
    e.firstNanos % 1000 + i * (e.intervalNanos % 1000)
  }

  // The gap is that of the event: as many slots for the target, each where it was missed but for the drift;
  // an interval below a microsecond is not told from none.
  ghost predicate Records(g: Gap, e: Event)
    requires e.Missing?
  {
    && g.target == e.target && g.count == e.count && (g.step > 0 <==> e.intervalNanos >= 1000)
    && forall i: nat | i < e.count :: StoredAt(g, i) == MissedAt(e, i) - Drift(e, i) / 1000
  }

  lemma SlotDrifts(e: Event, i: nat)
    requires e.Missing? && e.intervalNanos > 0
    ensures StoredAt(NewGap(e), i) == MissedAt(e, i) - Drift(e, i) / 1000
  {
    var a, b := e.firstNanos / 1000, e.intervalNanos / 1000;
    assert e.firstNanos == a * 1000 + e.firstNanos % 1000;
    assert e.intervalNanos == b * 1000 + e.intervalNanos % 1000;
    assert i * e.intervalNanos == i * b * 1000 + i * (e.intervalNanos % 1000);
    assert e.firstNanos + i * e.intervalNanos == (a + i * b) * 1000 + Drift(e, i);
  }

  lemma {:induction false} DriftGrows(e: Event, i: nat, j: nat)
    requires e.Missing? && i <= j
    ensures Drift(e, i) <= Drift(e, j)
    decreases j
  {
    if i < j {
      DriftGrows(e, i, j - 1);
      assert j * (e.intervalNanos % 1000) == (j - 1) * (e.intervalNanos % 1000) + e.intervalNanos % 1000;
    }
  }

  /**
   Every slot of a stored gap is where it was missed if and only if the last one drifts by less than a
   microsecond.
   */
  lemma SlotsExactIff(e: Event)
    requires e.Missing? && e.intervalNanos > 0 && e.count > 0
    ensures Records(NewGap(e), e)
    ensures (forall i: nat | i < e.count :: StoredAt(NewGap(e), i) == MissedAt(e, i)) <==> Drift(e, e.count - 1) < 1000
  {
    forall i: nat | i < e.count
      ensures StoredAt(NewGap(e), i) == MissedAt(e, i) - Drift(e, i) / 1000 && Drift(e, i) <= Drift(e, e.count - 1)
    {
      SlotDrifts(e, i);
      DriftGrows(e, i, e.count - 1);
    }
  }

  ghost predicate GapsTell(s: State, es: seq<Event>) {
    var ms := Missings(es);
    && s.nextGap == |ms| && (forall k: nat :: k in s.tables.gaps <==> k < |ms|)
    && forall k | 0 <= k < |ms| :: Records(s.tables.gaps[k], ms[k])
  }

  lemma StepGaps(s: State, e: Event, s': State)
    requires Apply(s, e) == Some(s')
    ensures if e.Missing? then s'.nextGap == s.nextGap + 1 && e.count > 0 && e.intervalNanos > 0
                               && s'.tables.gaps == s.tables.gaps[s.nextGap := NewGap(e)]
            else s'.nextGap == s.nextGap && s'.tables.gaps == s.tables.gaps
  {
    hide MinuteOf, Marks, LastMissed, Answer, NewGap;
  }

  lemma GapsTellStill(s: State, e: Event, s': State, es: seq<Event>)
    requires GapsTell(s, es)
    requires if e.Missing? then s'.nextGap == s.nextGap + 1 && e.count > 0 && e.intervalNanos > 0
                                && s'.tables.gaps == s.tables.gaps[s.nextGap := NewGap(e)]
             else s'.nextGap == s.nextGap && s'.tables.gaps == s.tables.gaps
    ensures GapsTell(s', es + [e])
  {
    hide Records, NewGap;
    assert (es + [e])[..|es|] == es;
    if e.Missing? {
      SlotsExactIff(e);
    }
  }

  /** After any run of events the gaps are those that were reported, one for each and in their order. */
  lemma {:induction false} GapsAreMissings(s: State, es: seq<Event>)
    requires ApplyAll(START, es) == Some(s)
    ensures GapsTell(s, es)
    decreases |es|
  {
    hide Apply, Records;
    if es == [] {
      assert s == START;
    } else {
      var init, e := es[..|es| - 1], es[|es| - 1];
      var s0 := ApplyAll(START, init).value;
      GapsAreMissings(s0, init);
      StepGaps(s0, e, s);
      GapsTellStill(s0, e, s, init);
      assert es == init + [e];
    }
  }

  // ---------- what a scan counts ----------

  ghost predicate InSpan(e: Event, w: Window)
    requires e.Sent?
  {
    e.target == w.target && w.from <= e.scheduled < w.to
  }

  // The probes scheduled in the window whose write failed, or did not.
  ghost function Probes(es: seq<Event>, w: Window, failed: bool): set<ProbeKey> {
    set e | e in es && e.Sent? && InSpan(e, w) && e.sendError == failed :: e.key
  }

  /** The slots missed in the window, each by its gap and its number in it. */
  ghost function Slots(es: seq<Event>, w: Window): set<(nat, int)> {
    var ms := Missings(es);
    set k: nat, i | 0 <= k < |ms| && 0 <= i < ms[k].count && ms[k].target == w.target && ms[k].intervalNanos >= 1000
                    && w.from <= MissedAt(ms[k], i) - Drift(ms[k], i) / 1000 < w.to :: (k, i)
  }

  lemma TrafficRows(rows: map<ProbeKey, Row>, es: seq<Event>, w: Window, asOf: Option<int>)
    requires RowsTell(rows, es)
    ensures RawCounts.Those(rows, w, RawCounts.Sent, asOf) == Probes(es, w, false)
    ensures RawCounts.Those(rows, w, RawCounts.Failed, asOf) == Probes(es, w, true)
    ensures RawCounts.Those(rows, w, RawCounts.Attempted, asOf) == Probes(es, w, false) + Probes(es, w, true)
  {
  }

  lemma TrafficSlots(s: State, es: seq<Event>, w: Window)
    requires GapsTell(s, es)
    ensures RawCounts.MissedSlots(s.tables.gaps, w) == Slots(es, w)
  {
    var ms, gaps := Missings(es), s.tables.gaps;
    forall p: (nat, int) | true
      ensures p in RawCounts.MissedSlots(gaps, w) <==> p in Slots(es, w)
    {
      var (k, i) := p;
      if k in gaps && 0 <= i < ms[k].count {
        assert Records(gaps[k], ms[k]);
        assert StoredAt(gaps[k], i) == MissedAt(ms[k], i) - Drift(ms[k], i) / 1000;
      }
    }
  }

  /**
   A scan counts the traffic: as many probes sent and failed as were written for the window, and as many
   slots missed as were reported for it.
   */
  lemma ScanCountsTraffic(s: State, es: seq<Event>, w: Window, asOf: Option<int>)
    requires ApplyAll(START, es) == Some(s)
    ensures var t := Raw(s.tables, w, asOf).agg.tally;
      && t.sent == |Probes(es, w, false)| && t.sendError == |Probes(es, w, true)|
      && t.attempted == |Probes(es, w, false)| + |Probes(es, w, true)|
      && t.missed == |Slots(es, w)|
  {
    hide Raw, ApplyAll;
    RowsAreSends(s, es);
    GapsAreMissings(s, es);
    RawCounts.RawCountsRows(s.tables, w, asOf, RawCounts.Sent);
    RawCounts.RawCountsRows(s.tables, w, asOf, RawCounts.Failed);
    RawCounts.RawCountsRows(s.tables, w, asOf, RawCounts.Attempted);
    RawCounts.RawCountsMissed(s.tables, w, asOf);
    var rows := s.tables.rows;
    var sent, failed := Probes(es, w, false), Probes(es, w, true);
    TrafficRows(rows, es, w, asOf);
    assert sent !! failed && RawCounts.Those(rows, w, RawCounts.Attempted, asOf) == sent + failed;
    TrafficSlots(s, es, w);
  }

  // ---------- counters and refusals ----------

  // A reply is too old to wait for its row.
  predicate Old(reply: Reply, through: int) { reply.sentAt.Some? && reply.sentAt.value <= through }

  // What a reply meets: a row of another address, or one that is not there any more.
  function Misdirected(es: seq<Event>, e: Event): nat {
    match e
    case Replied(k, reply) =>
      if Delivery.Stored(es, k) && Delivery.RowOf(es, k).address != reply.responder then 1 else 0
    case Sent(k, _, address, _, _, _, _) =>
      var seen := Delivery.Seen(es, k, START.prunedThrough);
      if seen != [] && seen[|seen| - 1].responder != address then 1 else 0
    case Missing(_, _, _, _) => 0
  }

  function Expired(es: seq<Event>, e: Event): nat {
    if e.Replied? && !Delivery.Stored(es, e.key) && Old(e.reply, START.prunedThrough) then 1 else 0
  }

  /** How many replies came from another address than the one probed. */
  function Misdirections(es: seq<Event>): nat {
    if es == [] then 0 else Misdirections(es[..|es| - 1]) + Misdirected(es[..|es| - 1], es[|es| - 1])
  }

  /** How many replies came too late to be buffered. */
  function Expirations(es: seq<Event>): nat {
    if es == [] then 0 else Expirations(es[..|es| - 1]) + Expired(es[..|es| - 1], es[|es| - 1])
  }

  /** The probes with a reply waiting for their row. */
  ghost function Awaited(es: seq<Event>): set<ProbeKey> {
    set e | e in es && e.Replied? && !Delivery.Stored(es, e.key)
            && Delivery.Seen(es, e.key, START.prunedThrough) != [] :: e.key
  }

  lemma {:induction false} SeenReplied(es: seq<Event>, k: ProbeKey, through: int)
    requires Delivery.Seen(es, k, through) != []
    ensures exists e <- es :: e.Replied? && e.key == k
  {
    var before, e := es[..|es| - 1], es[|es| - 1];
    assert es == before + [e];
    if !(e.Replied? && e.key == k) {
      SeenReplied(before, k, through);
    }
  }

  lemma OrphansAreAwaited(s: State, es: seq<Event>)
    requires ApplyAll(START, es) == Some(s)
    ensures s.orphans.Keys == Awaited(es)
  {
    hide ApplyAll, Delivery.Seen, Delivery.Stored;
    Delivery.RowsAreDelivered(s, es);
    forall k | true
      ensures k in s.orphans <==> k in Awaited(es)
    {
      assert Delivery.Delivered(s, es, START.prunedThrough, k);
      if k in s.orphans {
        SeenReplied(es, k, START.prunedThrough);
      }
    }
  }

  ghost predicate Refused(es: seq<Event>, e: Event) {
    match e
    case Sent(k, _, _, _, _, _, _) => Delivery.Stored(es, k)
    case Replied(k, reply) => !Delivery.Stored(es, k) && !Old(reply, START.prunedThrough) && |Awaited(es)| >= 4096
    case Missing(_, _, interval, count) => count == 0 || interval <= 0
  }

  // What the row of a key and the buffer say before the next event.
  lemma BeforeEvent(s: State, es: seq<Event>, k: ProbeKey)
    requires ApplyAll(START, es) == Some(s)
    ensures k in s.tables.rows <==> Delivery.Stored(es, k)
    ensures k in s.tables.rows ==> s.tables.rows[k].address == Delivery.RowOf(es, k).address && k !in s.orphans
    ensures k !in s.tables.rows ==>
      Delivery.Seen(es, k, START.prunedThrough) == if k in s.orphans then [s.orphans[k]] else []
    ensures s.prunedThrough == START.prunedThrough
  {
    hide ApplyAll, Delivery.Seen, Delivery.Stored;
    Delivery.RowsAreDelivered(s, es);
    assert Delivery.Delivered(s, es, START.prunedThrough, k);
    if k in s.tables.rows {
      Delivery.AnswerKeeps(Delivery.RowOf(es, k), Delivery.Seen(es, k, START.prunedThrough));
    }
  }

  /**
   An event fails exactly if it sends a probe again, buffers a reply with 4096 waiting already, or reports an
   empty gap or one without an interval.
   */
  lemma RefusedIff(s: State, es: seq<Event>, e: Event)
    requires ApplyAll(START, es) == Some(s)
    ensures Apply(s, e).None? <==> Refused(es, e)
  {
    OrphansAreAwaited(s, es);
    assert |s.orphans| == |s.orphans.Keys|;
    hide ApplyAll, Awaited, MinuteOf, Marks, LastMissed, Answer, NewGap, NewRow, ApplyReply;
    if !e.Missing? {
      BeforeEvent(s, es, e.key);
    }
  }

  lemma AppliedCounts(s: State, key: ProbeKey, reply: Reply)
    requires key in s.tables.rows
    ensures var s' := ApplyReply(s, key, reply);
      && s'.mismatches == s.mismatches + (if s.tables.rows[key].address != reply.responder then 1 else 0)
      && s'.evicted == s.evicted && s'.orphans == s.orphans
  {
    hide MinuteOf, Answer;
  }

  lemma SentCounts(s: State, es: seq<Event>, e: Event, s': State)
    requires ApplyAll(START, es) == Some(s) && e.Sent? && InsertProbe(s, e) == Some(s')
    ensures s'.mismatches == s.mismatches + Misdirected(es, e) && s'.evicted == s.evicted
    ensures s'.orphans.Keys <= s.orphans.Keys
  {
    hide ApplyAll, MinuteOf, ApplyReply, Delivery.Seen, Delivery.Stored, Delivery.RowOf;
    BeforeEvent(s, es, e.key);
    var s1 := s.(tables := s.tables.(rows := s.tables.rows[e.key := NewRow(e)]),
                 dirty := s.dirty + {MinuteOf(e.target, e.scheduled)});
    if e.key in s.orphans {
      AppliedCounts(s1, e.key, s.orphans[e.key]);
    }
  }

  lemma RepliedCounts(s: State, es: seq<Event>, e: Event, s': State)
    requires ApplyAll(START, es) == Some(s) && e.Replied? && Receive(s, e) == Some(s')
    ensures s'.mismatches == s.mismatches + Misdirected(es, e) && s'.evicted == s.evicted + Expired(es, e)
    ensures s'.orphans == s.orphans || (|s.orphans| < MAX_ORPHANS && s'.orphans.Keys == s.orphans.Keys + {e.key})
  {
    hide ApplyAll, ApplyReply, Delivery.Seen, Delivery.Stored, Delivery.RowOf;
    BeforeEvent(s, es, e.key);
    if e.key in s.tables.rows {
      AppliedCounts(s, e.key, e.reply);
    }
  }

  lemma Sizes<K>(a: map<K, Reply>, b: map<K, Reply>, k: K)
    ensures a.Keys <= b.Keys ==> |a| <= |b|
    ensures a.Keys == b.Keys + {k} ==> |a| <= |b| + 1
  {
    assert |a.Keys| == |a| && |b.Keys| == |b|;
    if a.Keys <= b.Keys {
      Delivery.SizeGrows(a.Keys, b.Keys);
    }
  }

  lemma CountersStep(s: State, es: seq<Event>, e: Event, s': State)
    requires ApplyAll(START, es) == Some(s) && Apply(s, e) == Some(s')
    ensures s'.mismatches == s.mismatches + Misdirected(es, e)
    ensures s'.evicted == s.evicted + Expired(es, e)
    ensures |s.orphans| <= MAX_ORPHANS ==> |s'.orphans| <= MAX_ORPHANS
  {
    hide ApplyAll, InsertProbe, Receive, Marks, LastMissed, NewGap, Delivery.Seen, Delivery.Stored, Delivery.RowOf;
    match e {
      case Sent(k, _, _, _, _, _, _) =>
        SentCounts(s, es, e, s');
        Sizes(s'.orphans, s.orphans, k);
      case Replied(k, _) =>
        RepliedCounts(s, es, e, s');
        Sizes(s'.orphans, s.orphans, k);
      case Missing(_, _, _, _) =>
    }
  }

  /** The store's counters tell how many replies were misdirected and how many expired, and its buffer is bounded. */
  lemma {:induction false} CountersTell(s: State, es: seq<Event>)
    requires ApplyAll(START, es) == Some(s)
    ensures s.mismatches == Misdirections(es) && s.evicted == Expirations(es) && |s.orphans| <= 4096
    decreases |es|
  {
    hide Apply, Misdirected, Expired;
    if es != [] {
      var init := es[..|es| - 1];
      var s0 := ApplyAll(START, init).value;
      CountersTell(s0, init);
      CountersStep(s0, init, es[|es| - 1], s);
    }
  }
}
