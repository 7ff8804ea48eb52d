/**
 How the store scans the raw tables: one pass that fills a minute rollup, and one pass that fills a map
 of buckets for a query. Rows are visited in an arbitrary order.
 */
module RawScan {
  import opened Common
  import opened Buckets
  import opened Histogram
  import opened PingAggregate
  import opened RawAggregate

  // ---------- observing one row ----------

  function ObserveRtt(a: Rtts, rtt: Nanos): Rtts {
    Rtts(a.count + 1, a.sum + rtt, if rtt < a.min then rtt else a.min, if rtt > a.max then rtt else a.max,
         a.hist[Bucket(rtt) := At(a.hist, Bucket(rtt)) + 1])
  }

  function ObserveProbe(q: Query, r: Row, asOf: Option<int>): Query {
    var t := q.agg.tally;
    var tried := t.(attempted := t.attempted + 1, scheduled := t.scheduled + 1);
    var timeouts := ObserveTimeout(q.agg.timeouts, r.timeout);
    if r.sendError then
      Query(Agg(tried.(sendError := t.sendError + 1), q.agg.rtts, timeouts), q.partial)
    else
      var sent := tried.(sent := t.sent + 1);
      match r.reply
      case None =>
        if asOf.Some? && r.Pending(asOf.value) then Query(Agg(sent, q.agg.rtts, timeouts), true)
        else Query(Agg(sent.(unanswered := t.unanswered + 1), q.agg.rtts, timeouts), q.partial)
      case Some(a) =>
        Query(Agg(if a.late then sent.(late := t.late + 1) else sent.(onTime := t.onTime + 1),
                  ObserveRtt(q.agg.rtts, a.rtt), timeouts), q.partial)
  }

  function ObserveMissed(q: Query, n: nat): Query {
    var t := q.agg.tally;
    q.(agg := q.agg.(tally := t.(missed := t.missed + n, scheduled := t.scheduled + n)))
  }

  lemma ObserveRttMerges(a: Rtts, rtt: Nanos)
    requires a.Valid()
    ensures ObserveRtt(a, rtt) == AddRtts(a, Rtts(1, rtt, rtt, rtt, map[Bucket(rtt) := 1]))
  {
    hide Bucket;
    MergedNothing(a.hist);
    MergedNext(a.hist, map[], Bucket(rtt), 1);
  }

  lemma ObserveNoRtt(a: Rtts)
    requires a.Valid()
    ensures AddRtts(a, NO_RTTS) == a
  {
    RttsLaws(a, NO_RTTS, NO_RTTS);
  }

  lemma ObserveTimeoutMerges(t: Timeouts, timeout: nat)
    requires t.Valid()
    ensures ObserveTimeout(t, timeout) == AddTimeouts(t, Timeouts(timeout, timeout))
  {
  }

  lemma ObserveTally(q: Query, r: Row, asOf: Option<int>)
    ensures ObserveProbe(q, r, asOf).agg.tally == AddTally(q.agg.tally, OfProbe(r, asOf).agg.tally)
    ensures ObserveProbe(q, r, asOf).partial == (q.partial || OfProbe(r, asOf).partial)
  {
    hide ObserveRtt, ObserveTimeout, Bucket, Row.Pending;
  }

  lemma ObserveRtts(q: Query, r: Row, asOf: Option<int>)
    requires q.Valid()
    ensures ObserveProbe(q, r, asOf).agg.rtts == AddRtts(q.agg.rtts, OfProbe(r, asOf).agg.rtts)
    ensures ObserveProbe(q, r, asOf).agg.timeouts == AddTimeouts(q.agg.timeouts, OfProbe(r, asOf).agg.timeouts)
  {
    hide AddRtts, AddTimeouts, ObserveRtt, ObserveTimeout, Bucket, Row.Pending;
    if r.reply.Some? {
      ObserveRttMerges(q.agg.rtts, r.reply.value.rtt);
    }
    ObserveNoRtt(q.agg.rtts);
    ObserveTimeoutMerges(q.agg.timeouts, r.timeout);
  }

  /** Observing a row into an accumulator merges what the row contributes. */
  lemma ObserveProbeMerges(q: Query, r: Row, asOf: Option<int>)
    requires q.Valid()
    ensures ObserveProbe(q, r, asOf) == Merge(q, OfProbe(r, asOf)) && ObserveProbe(q, r, asOf).Valid()
  {
    hide AddTally, AddRtts, AddTimeouts, ObserveProbe, OfProbe, Query.Valid;
    ProbeValid(r, asOf);
    EmptyLaws();
    MergeLaws(q, OfProbe(r, asOf), EMPTY);
    ObserveTally(q, r, asOf);
    ObserveRtts(q, r, asOf);
  }

  lemma ObserveMissedMerges(q: Query, n: nat)
    requires q.Valid()
    ensures ObserveMissed(q, n) == Merge(q, OfMissed(n)) && ObserveMissed(q, n).Valid()
  {
    hide AddRtts;
    RttsLaws(q.agg.rtts, NO_RTTS, NO_RTTS);
  }

  // ---------- one minute ----------

  /** The scan behind a minute rollup: every missing reply counts as unanswered. */
  method AggregateRawMinute(t: Tables, target: int, start: int, end: int) returns (q: Query)
    ensures q == Raw(t, Window(target, start, end), None)
  {
    hide Raw, OfProbe, Merge, Missed, Query.Valid, ObserveProbe, ObserveMissed, CountPeriodic;
    var w := Window(target, start, end);
    q := EMPTY;
    ghost var done := Tables(map[], map[]);
    RawOfNothing(done, w, None);
    var ks := t.rows.Keys;
    while ks != {}
      invariant ks <= t.rows.Keys && done == Tables(t.rows - ks, map[])
      invariant q == Raw(done, w, None)
      decreases ks
    {
      var k := Choose(ks);
      ks := ks - {k};
      RawAddsRow(done, k, t.rows[k], w, None);
      RawValid(done, w, None);
      MergeLaws(q, EMPTY, EMPTY) by { EmptyLaws(); }
      done := done.(rows := done.rows[k := t.rows[k]]);
      assert done.rows == t.rows - ks;
      if Covers(w, t.rows[k]) {
        ObserveProbeMerges(q, t.rows[k], None);
        q := ObserveProbe(q, t.rows[k], None);
      }
    }
    assert done.rows == t.rows;
    var ids := t.gaps.Keys;
    assert t.gaps - ids == map[];
    while ids != {}
      invariant ids <= t.gaps.Keys && done == Tables(t.rows, t.gaps - ids)
      invariant q == Raw(done, w, None)
      decreases ids
    {
      var k := Choose(ids);
      var g := t.gaps[k];
      ids := ids - {k};
      RawAddsGap(done, k, g, w, None);
      RawValid(done, w, None);
      MergeLaws(q, EMPTY, EMPTY) by { EmptyLaws(); }
      done := done.(gaps := done.gaps[k := g]);
      assert done.gaps == t.gaps - ids;
      if g.target == target && g.first < end && g.Last() >= start {
        CountPeriodicInWindow(g, start, end);
        ObserveMissedMerges(q, CountPeriodic(g.first, g.step, g.count, start, end));
        q := ObserveMissed(q, CountPeriodic(g.first, g.step, g.count, start, end));
      } else if g.target == target {
        MissedNothing(g, start, end);
      }
    }
    assert done.gaps == t.gaps;
  }
}
