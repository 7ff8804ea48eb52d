/** The single writer of the store: batches with rollback and retries, recomputation and pruning. */
module Writer {
  import opened Common
  import opened PingAggregate
  import opened RawAggregate
  import opened RawScan
  import opened TimeGrid
  import opened PingRollups
  import opened SampleStore

  const PRUNE_BATCH: nat := 10_000

  /** The order of a bounded delete: by time, then by identity. */
  datatype Place = Place(time: int, major: int, minor: int)

  predicate Precedes(a: Place, b: Place) {
    || a.time < b.time
    || (a.time == b.time && a.major < b.major)
    || (a.time == b.time && a.major == b.major && a.minor <= b.minor)
  }

  function RowPlace(k: ProbeKey, r: Row): Place { Place(r.scheduled, k.run, k.sequence) }

  function GapPlace(k: nat, g: Gap): Place { Place(g.Last(), k, 0) }

  method Foremost<K(==)>(at: map<K, Place>, rest: set<K>) returns (k: K)
    requires rest != {} && rest <= at.Keys
    ensures k in rest && forall x <- rest :: Precedes(at[k], at[x])
  {
    k := Choose(rest);
    var others := rest - {k};
    while others != {}
      invariant others <= rest && k in rest && forall x <- rest - others :: Precedes(at[k], at[x])
      decreases others
    {
      var x := Choose(others);
      others := others - {x};
      if !Precedes(at[k], at[x]) {
        k := x;
      }
    }
  }

  // The rows of one bounded delete, in order.
  method TakeUpTo<K(==)>(at: map<K, Place>, limit: nat) returns (taken: set<K>)
    ensures taken <= at.Keys && |taken| <= limit && (|taken| < limit ==> taken == at.Keys)
    ensures forall x <- taken, y <- at.Keys - taken :: Precedes(at[x], at[y])
  {
    taken := {};
    var rest := at.Keys;
    while rest != {} && |taken| < limit
      invariant rest !! taken && rest + taken == at.Keys && |taken| <= limit
      invariant forall x <- taken, y <- rest :: Precedes(at[x], at[y])
      decreases rest
    {
      var k := Foremost(at, rest);
      rest, taken := rest - {k}, taken + {k};
    }
  }

  // What fails within a batch fails the batch.
  lemma {:induction false} FailsForGood(s: State, events: seq<Event>, i: nat)
    requires i <= |events|
    ensures ApplyAll(s, events[..i]).None? ==> ApplyAll(s, events).None?
    decreases |events| - i
  {
    if i < |events| {
      assert events[..i + 1][..i] == events[..i] && |events[..i + 1]| == i + 1;
      FailsForGood(s, events, i + 1);
    } else {
      assert events[..i] == events;
    }
  }

  class Writer {
    var rows: map<ProbeKey, Row>
    var gaps: map<nat, Gap>
    var nextGap: nat
    var rollups: map<Minute, Rollup>
    var dirty: set<Minute>
    var orphans: map<ProbeKey, Reply>
    var prunedThrough: int
    var mismatches: nat
    var evicted: nat
    var hours: map<Minute, Rollup>
    var dirtyHours: set<Minute>

    function Snapshot(): State
      reads this
    {
      State(Tables(rows, gaps), nextGap, rollups, dirty, orphans, prunedThrough, mismatches, evicted)
    }

    constructor ()
      ensures Snapshot() == START && hours == map[] && dirtyHours == {}
    {
      rows, gaps, nextGap, rollups, dirty := map[], map[], 0, map[], {};
      orphans, prunedThrough, mismatches, evicted := map[], 0, 0, 0;
      hours, dirtyHours := map[], {};
    }

    // ---------- one event ----------

    method MarkDirty(m: Minute)
      modifies this`dirty
      ensures dirty == old(dirty) + {m}
    {
      dirty := dirty + {m};
    }

    method ApplyReply(key: ProbeKey, reply: Reply) returns (found: bool)
      modifies this`rows, this`dirty, this`mismatches
      ensures found <==> key in old(rows)
      ensures Snapshot() ==
        if key in old(rows) then SampleStore.ApplyReply(old(Snapshot()), key, reply) else old(Snapshot())
    {
      hide Floor;
      if key !in rows {
        return false;
      }
      found := true;
      var r := rows[key];
      if r.address != reply.responder {
        mismatches := mismatches + 1;
      } else if r.reply.None? {
        rows := rows[key := r.(reply := Some(reply.answer))];
        MarkDirty(MinuteOf(r.target, r.scheduled));
      } else {
        rows := rows[key := r.(duplicates := r.duplicates + 1)];
      }
    }

    method InsertProbe(e: Event) returns (ok: bool)
      requires e.Sent?
      modifies `rows, `gaps, `nextGap, `rollups, `dirty, `orphans, `prunedThrough, `mismatches, `evicted
      ensures ok <==> SampleStore.InsertProbe(old(Snapshot()), e).Some?
      ensures ok ==> Some(Snapshot()) == SampleStore.InsertProbe(old(Snapshot()), e)
    {
      hide Floor, SampleStore.ApplyReply;
      if e.key in rows {
        return false;
      }
      rows := rows[e.key := NewRow(e)];
      MarkDirty(MinuteOf(e.target, e.scheduled));
      ghost var before := Snapshot();
      if e.key in orphans {
        var found := ApplyReply(e.key, orphans[e.key]);
        orphans := orphans - {e.key};
        assert Snapshot() == SampleStore.ApplyReply(before, e.key, old(orphans)[e.key]).(orphans := orphans);
      }
      ok := true;
    }

    method Receive(e: Event) returns (ok: bool)
      requires e.Replied?
      modifies `rows, `gaps, `nextGap, `rollups, `dirty, `orphans, `prunedThrough, `mismatches, `evicted
      ensures ok <==> SampleStore.Receive(old(Snapshot()), e).Some?
      ensures ok ==> Some(Snapshot()) == SampleStore.Receive(old(Snapshot()), e)
    {
      hide Floor, SampleStore.ApplyReply;
      var found := ApplyReply(e.key, e.reply);
      if found {
        return true;
      }
      if e.reply.sentAt.Some? && e.reply.sentAt.value <= prunedThrough {
        evicted := evicted + 1;
        return true;
      }
      if |orphans| >= MAX_ORPHANS {
        return false;
      }
      orphans := orphans[e.key := e.reply];
      ok := true;
    }

    method InsertGap(e: Event) returns (ok: bool)
      requires e.Missing?
      modifies `rows, `gaps, `nextGap, `rollups, `dirty, `orphans, `prunedThrough, `mismatches, `evicted
      ensures ok <==> SampleStore.InsertGap(old(Snapshot()), e).Some?
      ensures ok ==> Some(Snapshot()) == SampleStore.InsertGap(old(Snapshot()), e)
    {
      hide Floor;
      if e.count == 0 || e.intervalNanos <= 0 {
        return false;
      }
      gaps, nextGap := gaps[nextGap := NewGap(e)], nextGap + 1;
      ghost var before := Snapshot();
      var bucket, last := Floor(e.firstNanos / 1000, MINUTE), Floor(LastMissed(e), MINUTE);
      ghost var marks := Marks(e.target, bucket, last);
      while bucket <= last
        invariant old(dirty) + marks == dirty + Marks(e.target, bucket, last)
        invariant Snapshot() == before.(dirty := dirty)
        decreases last - bucket
      {
        MarkDirty(Minute(e.target, bucket));
        bucket := bucket + MINUTE;
      }
      assert dirty == old(dirty) + marks;
      ok := true;
    }

    method Apply(e: Event) returns (ok: bool)
      modifies `rows, `gaps, `nextGap, `rollups, `dirty, `orphans, `prunedThrough, `mismatches, `evicted
      ensures ok <==> SampleStore.Apply(old(Snapshot()), e).Some?
      ensures ok ==> Some(Snapshot()) == SampleStore.Apply(old(Snapshot()), e)
    {
      hide SampleStore.InsertProbe, SampleStore.Receive, SampleStore.InsertGap;
      match e
      case Sent(_, _, _, _, _, _, _) => ok := InsertProbe(e);
      case Replied(_, _) => ok := Receive(e);
      case Missing(_, _, _, _) => ok := InsertGap(e);
    }

    // ---------- batches ----------

    /**
     One transaction. It fails on a bad event, or at event `fullAt` because the database is full, or at
     its commit when `fullAt` is the length of the batch; the tables are then rolled back, but not the
     buffer of early replies.
     */
    method ApplyBatch(events: seq<Event>, fullAt: Option<nat>) returns (ok: bool)
      modifies `rows, `gaps, `nextGap, `rollups, `dirty, `orphans, `prunedThrough, `mismatches, `evicted
      ensures ok <==> ApplyAll(old(Snapshot()), events).Some? && (fullAt.None? || fullAt.value > |events|)
      ensures ok ==> Some(Snapshot()) == ApplyAll(old(Snapshot()), events)
      ensures !ok ==> Snapshot() == old(Snapshot()).(orphans := orphans)
    {
      hide SampleStore.Apply;
      ghost var start := Snapshot();
      var saved := (rows, gaps, nextGap, rollups, dirty);
      var counters := (mismatches, evicted);
      var through := prunedThrough;
      ok := true;
      var i := 0;
      while ok && i < |events|
        invariant 0 <= i <= |events|
        invariant ok ==> Some(Snapshot()) == ApplyAll(start, events[..i]) && (fullAt.None? || fullAt.value >= i)
        invariant !ok ==> ApplyAll(start, events[..i]).None? || (fullAt.Some? && fullAt.value < i)
        decreases if ok then 1 else 0, |events| - i
      {
        assert events[..i + 1][..i] == events[..i] && |events[..i + 1]| == i + 1;
        if fullAt == Some(i) {
          ok := false;
        } else {
          ok := Apply(events[i]);
        }
        i := i + 1;
      }
      assert events[..|events|] == events;
      if !ok {
        FailsForGood(start, events, i);
      }
      if fullAt == Some(|events|) {
        ok := false;
      }
      if !ok {
        rows, gaps, nextGap, rollups, dirty := saved.0, saved.1, saved.2, saved.3, saved.4;
        mismatches, evicted, prunedThrough := counters.0, counters.1, through;
      }
    }

    /** A failed attempt leaves no trace, not even in the buffer of early replies. */
    method ApplyRetainedBatch(events: seq<Event>, fullAt: Option<nat>) returns (ok: bool)
      modifies `rows, `gaps, `nextGap, `rollups, `dirty, `orphans, `prunedThrough, `mismatches, `evicted
      ensures ok <==> ApplyAll(old(Snapshot()), events).Some? && (fullAt.None? || fullAt.value > |events|)
      ensures ok ==> Some(Snapshot()) == ApplyAll(old(Snapshot()), events)
      ensures !ok ==> Snapshot() == old(Snapshot())
    {
      hide ApplyAll;
      var before := orphans;
      ok := ApplyBatch(events, fullAt);
      if !ok {
        orphans := before;
      }
    }

    /**
     The retained batch is retried as often as the database is full: however many attempts were rolled
     back, it is applied exactly once, or, when an event of it is bad, not at all.
     */
    method ApplyBatchRecovering(events: seq<Event>, full: seq<nat>) returns (ok: bool)
      modifies `rows, `gaps, `nextGap, `rollups, `dirty, `orphans, `prunedThrough, `mismatches, `evicted
      ensures ok <==> ApplyAll(old(Snapshot()), events).Some?
      ensures Snapshot() == ApplyAll(old(Snapshot()), events).GetOr(old(Snapshot()))
    {
      hide ApplyAll;
      ghost var start := Snapshot();
      for i := 0 to |full|
        invariant Snapshot() == start
      {
        ok := ApplyRetainedBatch(events, Some(full[i]));
        if ok {
          return;
        }
      }
      ok := ApplyRetainedBatch(events, None);
    }

    // ---------- rollups and retention ----------

    method RecomputePingMinute(m: Minute, asOf: int)
      modifies this`rollups, this`dirty, this`dirtyHours
      ensures Snapshot() == Recompute(old(Snapshot()), m, asOf)
      ensures dirtyHours == old(dirtyHours) + if Ready(old(Snapshot()), m, asOf) then {HourOf(m)} else {}
    {
      hide Raw, Store, Covers, Floor;
      if asOf < m.at + MINUTE {
        return;
      }
      if exists k <- rows :: Covers(Span(m), rows[k]) && rows[k].Pending(asOf) {
        return;
      }
      var q := AggregateRawMinute(Tables(rows, gaps), m.target, m.at, m.at + MINUTE);
      rollups := rollups[m := Store(q.agg)];
      dirty := dirty - {m};
      dirtyHours := dirtyHours + {HourOf(m)};
    }

    /** An hour is merged from its stored minutes, not from raw rows. */
    method RecomputePingHour(h: Minute, asOf: int)
      modifies this`hours, this`dirtyHours
      ensures dirtyHours == old(dirtyHours) - if HourReady(Snapshot(), h, asOf) then {h} else {}
      ensures hours == if HourReady(Snapshot(), h, asOf)
                       then old(hours)[h := Combined(Snapshot(), h)] else old(hours)
    {
      hide Store, SumRollups, Minutes, RollupsOf;
      if asOf < h.at + HOUR || exists m <- dirty :: InHour(h, m) {
        return;
      }
      var hour := AggregateHour(RollupsOf(Snapshot(), h.target), h.at);
      hours := hours[h := hour];
      dirtyHours := dirtyHours - {h};
    }

    method PrunePingRaw(cutoff: int) returns (removed: set<ProbeKey>)
      modifies this`rows
      ensures Snapshot() == WithoutRows(old(Snapshot()), removed) && |removed| <= PRUNE_BATCH
      ensures forall k <- removed :: k in old(rows) && RowPrunable(old(Snapshot()), k, cutoff)
      ensures |removed| < PRUNE_BATCH ==> forall k <- rows :: !RowPrunable(Snapshot(), k, cutoff)
      ensures forall k <- removed, j <- rows | RowPrunable(old(Snapshot()), j, cutoff) ::
        Precedes(RowPlace(k, old(rows)[k]), RowPlace(j, rows[j]))
    {
      hide Floor, Precedes;
      var candidates := map k | k in rows && RowPrunable(Snapshot(), k, cutoff) :: RowPlace(k, rows[k]);
      removed := TakeUpTo(candidates, PRUNE_BATCH);
      rows := rows - removed;
      forall j | j in rows && RowPrunable(old(Snapshot()), j, cutoff)
        ensures forall k <- removed :: Precedes(RowPlace(k, old(rows)[k]), RowPlace(j, rows[j]))
      {
        assert j in candidates.Keys - removed;
      }
    }

    method PruneGaps(cutoff: int) returns (removed: set<nat>)
      modifies this`gaps
      ensures Snapshot() == WithoutGaps(old(Snapshot()), removed) && |removed| <= PRUNE_BATCH
      ensures forall k <- removed :: k in old(gaps) && GapPrunable(old(Snapshot()), k, cutoff)
      ensures |removed| < PRUNE_BATCH ==> forall k <- gaps :: !GapPrunable(Snapshot(), k, cutoff)
      ensures forall k <- removed, j <- gaps | GapPrunable(old(Snapshot()), j, cutoff) ::
        Precedes(GapPlace(k, old(gaps)[k]), GapPlace(j, gaps[j]))
    {
      hide Floor, Precedes;
      var candidates := map k | k in gaps && GapPrunable(Snapshot(), k, cutoff) :: GapPlace(k, gaps[k]);
      removed := TakeUpTo(candidates, PRUNE_BATCH);
      gaps := gaps - removed;
      forall j | j in gaps && GapPrunable(old(Snapshot()), j, cutoff)
        ensures forall k <- removed :: Precedes(GapPlace(k, old(gaps)[k]), GapPlace(j, gaps[j]))
      {
        assert j in candidates.Keys - removed;
      }
    }

    method AdvancePrunedThrough(cutoff: int)
      modifies this`prunedThrough
      ensures Snapshot() == AdvancePruned(old(Snapshot()), cutoff)
    {
      if exists k <- rows :: rows[k].sent < cutoff {
        return;
      }
      if cutoff > prunedThrough {
        prunedThrough := cutoff;
      }
    }
  }
}
