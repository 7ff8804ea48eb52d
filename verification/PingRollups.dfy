/** Minute and hour rollups: what is stored for a bucket, and how stored minutes are merged again. */
module PingRollups {
  import opened Common
  import opened Histogram
  import opened PingAggregate
  import opened RawAggregate
  import opened RawBuckets
  import opened TimeGrid

  /** A stored row; without replies the extreme round-trip times are null. */
  datatype Rollup = Rollup(
    tally: Tally, count: nat, sum: nat, min: Option<int>, max: Option<int>, hist: Counts, timeouts: Timeouts)

  function Store(a: Agg): Rollup {
    var any := a.rtts.count > 0;
    Rollup(a.tally, a.rtts.count, a.rtts.sum, if any then Some(a.rtts.min) else None,
           if any then Some(a.rtts.max) else None, a.rtts.hist, a.timeouts)
  }

  // What a query reads back.
  function Load(r: Rollup): Agg {
    Agg(r.tally, Rtts(r.count, r.sum, r.min.GetOr(0), r.max.GetOr(0), r.hist), r.timeouts)
  }

  // How the hour accumulates a stored minute.
  function AddRollup(a: Agg, r: Rollup): Agg {
    Agg(AddTally(a.tally, r.tally),
        Rtts(a.rtts.count + r.count, a.rtts.sum + r.sum,
             if r.min.Some? && r.min.value < a.rtts.min then r.min.value else a.rtts.min,
             if r.max.Some? && r.max.value > a.rtts.max then r.max.value else a.rtts.max,
             Merged(a.rtts.hist, r.hist)),
        AddTimeouts(a.timeouts, r.timeouts))
  }

  /** Storing an aggregate loses nothing: read back or accumulated, it merges as the original. */
  lemma StoreKeeps(q: Query, a: Query)
    requires q.Valid() && a.Valid()
    ensures Merge(q, a.(agg := Load(Store(a.agg)))) == Merge(q, a)
    ensures AddRollup(q.agg, Store(a.agg)) == Merge(q, a).agg
  {
    hide AddTally, AddTimeouts;
    MergedNothing(q.agg.rtts.hist);
  }

  // ---------- balance ----------

  ghost predicate Accounts(t: Tally, replies: nat, partial: bool) {
    var settled := t.onTime + t.late + t.unanswered;
    && t.scheduled == t.attempted + t.missed && t.attempted == t.sent + t.sendError
    && replies == t.onTime + t.late
    && settled <= t.sent && (partial <==> settled < t.sent)
  }

  /** The counts of an aggregate balance, and it is partial exactly while a sent probe is undecided. */
  ghost predicate Balanced(q: Query) {
    Accounts(q.agg.tally, q.agg.rtts.count, q.partial)
  }

  lemma AccountsAdd(a: Tally, b: Tally, m: nat, n: nat, p: bool, q: bool)
    requires Accounts(a, m, p) && Accounts(b, n, q)
    ensures Accounts(AddTally(a, b), m + n, p || q)
  {
  }

  lemma NothingAccounts()
    ensures Accounts(NO_TALLY, 0, false)
  {
  }

  lemma BothBalanced(a: Query, b: Query)
    ensures Balanced(EMPTY) && (Balanced(a) && Balanced(b) ==> Balanced(Merge(a, b)))
  {
    hide Merged, AddTally, AddTimeouts, Accounts;
    assert Accounts(NO_TALLY, 0, false) by { NothingAccounts(); }
    if Balanced(a) && Balanced(b) {
      AccountsAdd(a.agg.tally, b.agg.tally, a.agg.rtts.count, b.agg.rtts.count, a.partial, b.partial);
    }
  }

  lemma {:induction false} TotalBalanced<K(!new)>(m: map<K, Query>)
    requires forall k <- m :: Balanced(m[k])
    ensures Balanced(Total(m))
    decreases |m|
  {
    hide Merge, Balanced;
    if m.Keys == {} {
      BothBalanced(EMPTY, EMPTY);
    } else {
      var k := Pick(m.Keys);
      TotalBalanced(m - {k});
      BothBalanced(m[k], Total(m - {k}));
    }
  }

  lemma {:induction false} TotalDecided<K(!new)>(m: map<K, Query>)
    requires forall k <- m :: !m[k].partial
    ensures !Total(m).partial
    decreases |m|
  {
    hide AddTally, AddRtts, AddTimeouts;
    if m.Keys != {} {
      TotalDecided(m - {Pick(m.Keys)});
    }
  }

  lemma ProbeBalanced(r: Row, asOf: Option<int>)
    ensures Balanced(OfProbe(r, asOf)) && (asOf.None? ==> !OfProbe(r, asOf).partial)
  {
  }

  lemma NotPartial(a: Query, b: Query)
    ensures Merge(a, b).partial == (a.partial || b.partial)
  {
  }

  lemma RowsBalanced(t: Tables, w: Window, asOf: Option<int>)
    ensures forall k <- t.rows :: Balanced(OfRow(t.rows[k], w, asOf))
    ensures asOf.None? ==> forall k <- t.rows :: !OfRow(t.rows[k], w, asOf).partial
  {
    hide Balanced, OfProbe;
    forall k | k in t.rows
      ensures Balanced(OfRow(t.rows[k], w, asOf)) && (asOf.None? ==> !OfRow(t.rows[k], w, asOf).partial)
    {
      ProbeBalanced(t.rows[k], asOf);
      BothBalanced(EMPTY, EMPTY);
    }
  }

  lemma GapsBalanced(t: Tables, w: Window)
    ensures forall k <- t.gaps :: Balanced(OfGap(t.gaps[k], w)) && !OfGap(t.gaps[k], w).partial
  {
    hide Missed;
  }

  /** In every raw scan the counts balance; without a clock nothing is left undecided. */
  lemma RawBalanced(t: Tables, w: Window, asOf: Option<int>)
    ensures Balanced(Raw(t, w, asOf)) && (asOf.None? ==> !Raw(t, w, asOf).partial)
  {
    hide Balanced, Total, OfRow, OfGap, AddTally, AddRtts, AddTimeouts;
    var rows, gaps := RowParts(t.rows, w, asOf), GapParts(t.gaps, w);
    BothBalanced(Total(rows), Total(gaps));
    RowsBalanced(t, w, asOf);
    GapsBalanced(t, w);
    TotalBalanced(rows);
    TotalBalanced(gaps);
    TotalDecided(gaps);
    if asOf.None? {
      TotalDecided(rows);
    }
    NotPartial(Total(rows), Total(gaps));
  }

  // ---------- hours ----------

  // A stored minute is the aggregate of its raw rows; without one there is nothing to aggregate.
  ghost predicate Current(minutes: map<int, Rollup>, t: Tables, target: int, at: int) {
    var q := Raw(t, Window(target, at, at + MINUTE), None);
    if at in minutes then minutes[at] == Store(q.agg) else q == EMPTY
  }

  lemma CellsValidIn(cells: Cells, t: Tables, target: int)
    requires forall at <- cells :: cells[at] == Raw(t, Window(target, at, at + MINUTE), None)
    ensures AllValid(cells)
  {
    hide Raw, Query.Valid;
    forall at | at in cells
      ensures cells[at].Valid()
    {
      RawValid(t, Window(target, at, at + MINUTE), None);
    }
  }

  lemma AlignedHour(at: int)
    requires Aligned(at, MINUTE)
    ensures Aligned(at + HOUR, MINUTE)
  {
  }

  lemma HourFilled(minutes: map<int, Rollup>, cells: Cells, t: Tables, w: Window)
    requires w.to == w.from + HOUR && Aligned(w.from, MINUTE) && (forall at <- minutes :: Aligned(at, MINUTE))
    requires forall at | Aligned(at, MINUTE) && w.from <= at < w.to :: Current(minutes, t, w.target, at)
    requires cells == map at | at in minutes && w.from <= at < w.to :: Raw(t, Window(w.target, at, at + MINUTE), None)
    ensures Keyed(cells, w, MINUTE) && Filled(cells, t, w, MINUTE, None, w.from)
  {
    hide Raw, Aligned, Store;
    AlignedHour(w.from);
    forall at | Aligned(at, MINUTE) && w.from <= at
      ensures Cell(cells, at) == Raw(t, Clip(w, at, MINUTE), None)
    {
      if at < w.to {
        assert Current(minutes, t, w.target, at);
        Ordered(at, w.to, MINUTE);
        assert Clip(w, at, MINUTE) == Window(w.target, at, at + MINUTE);
      } else {
        RawOfNothing(t, Clip(w, at, MINUTE), None);
      }
    }
  }

  // ---------- merging stored minutes ----------

  lemma ObserveInterchange(t: Timeouts, x: nat, y: nat)
    ensures ObserveTimeout(ObserveTimeout(t, x), y) == ObserveTimeout(ObserveTimeout(t, y), x)
  {
  }

  lemma TimeoutsInterchange(a: Timeouts, b: Timeouts, c: Timeouts)
    ensures AddTimeouts(AddTimeouts(a, b), c) == AddTimeouts(AddTimeouts(a, c), b)
  {
    hide ObserveTimeout;
    var t := ObserveTimeout(a, b.min);
    ObserveInterchange(t, b.max, c.min);
    ObserveInterchange(ObserveTimeout(t, c.min), b.max, c.max);
    ObserveInterchange(a, b.min, c.min);
    ObserveInterchange(ObserveTimeout(a, c.min), b.min, c.max);
  }
  // It does not matter in which order the minutes are accumulated.
  lemma AddRollupCommutes(a: Agg, r: Rollup, r': Rollup)
    ensures AddRollup(AddRollup(a, r), r') == AddRollup(AddRollup(a, r'), r)
  {
    hide Merged, AddTimeouts;
    MergedAssociates(a.rtts.hist, r.hist, r'.hist);
    MergedAssociates(a.rtts.hist, r'.hist, r.hist);
    MergedCommutes(r.hist, r'.hist);
    TimeoutsInterchange(a.timeouts, r.timeouts, r'.timeouts);
  }

  ghost function SumRollups(m: map<int, Rollup>): Agg {
    if m.Keys == {} then EMPTY.agg
    else
      var k := Pick(m.Keys);
      AddRollup(SumRollups(m - {k}), m[k])
  }

  lemma SumOfNone(m: map<int, Rollup>)
    requires m.Keys == {}
    ensures SumRollups(m) == EMPTY.agg
  {
  }

  lemma {:induction false} SumTakesAny(m: map<int, Rollup>, k: int)
    requires k in m
    ensures SumRollups(m) == AddRollup(SumRollups(m - {k}), m[k])
    decreases |m|
  {
    hide AddRollup;
    var j := Pick(m.Keys);
    if j != k {
      SumTakesAny(m - {j}, k);
      SumTakesAny(m - {k}, j);
      assert m - {j} - {k} == m - {k} - {j};
      AddRollupCommutes(SumRollups(m - {j} - {k}), m[k], m[j]);
    }
  }

  /** The stored minutes of the hour that begins at `start`. */
  function Minutes(rollups: map<int, Rollup>, start: int): map<int, Rollup> {
    map at | at in rollups && start <= at < start + HOUR :: rollups[at]
  }

  method AggregateHour(rollups: map<int, Rollup>, start: int) returns (hour: Rollup)
    ensures hour == Store(SumRollups(Minutes(rollups, start)))
  {
    hide AddRollup, SumRollups, Store;
    var minutes := Minutes(rollups, start);
    var agg := EMPTY.agg;
    var ks := minutes.Keys;
    ghost var done: map<int, Rollup> := map[];
    SumOfNone(done);
    while ks != {}
      invariant ks <= minutes.Keys && done == minutes - ks && agg == SumRollups(done)
      decreases ks
    {
      var at := Choose(ks);
      ks := ks - {at};
      var next := done[at := minutes[at]];
      assert next - {at} == done;
      SumTakesAny(next, at);
      agg := AddRollup(agg, minutes[at]);
      done := next;
      assert done == minutes - ks;
    }
    assert done == minutes;
    hour := Store(agg);
  }

  // Accumulating what was stored of some queries is their total.
  lemma {:induction false} SumIsTotal(m: map<int, Rollup>, cells: Cells)
    requires m.Keys == cells.Keys && AllValid(cells) && forall at <- m :: m[at] == Store(cells[at].agg)
    ensures SumRollups(m) == Total(cells).agg
    decreases |m|
  {
    hide AddRollup, Merge, Store, Query.Valid, SumRollups, Total;
    if m.Keys == {} {
      SumOfNone(m);
      TotalOfNothing(cells);
    } else {
      var k := Pick(m.Keys);
      SumTakesAny(m, k);
      SumIsTotal(m - {k}, cells - {k});
      TotalTakes(cells, k);
      TotalValid(cells - {k});
      StoreKeeps(Total(cells - {k}), cells[k]);
      MergeLaws(cells[k], Total(cells - {k}), EMPTY) by { EmptyLaws(); }
    }
  }

  /** The minutes of an hour, merged, are the aggregate of the hour's raw rows and gaps. */
  lemma HourIsRaw(rollups: map<int, Rollup>, t: Tables, target: int, start: int)
    requires Aligned(start, MINUTE) && (forall at <- rollups :: Aligned(at, MINUTE))
    requires forall at | Aligned(at, MINUTE) && start <= at < start + HOUR :: Current(rollups, t, target, at)
    ensures SumRollups(Minutes(rollups, start)) == Raw(t, Window(target, start, start + HOUR), None).agg
    ensures Minutes(rollups, start) == map[] ==> Raw(t, Window(target, start, start + HOUR), None) == EMPTY
  {
    hide Raw, Merge, Total, Aligned, Query.Valid, SumRollups, Store;
    var w, minutes := Window(target, start, start + HOUR), Minutes(rollups, start);
    var cells := map at | at in rollups && start <= at < start + HOUR :: Raw(t, Window(target, at, at + MINUTE), None);
    CellsValidIn(cells, t, target);
    forall at | at in minutes
      ensures minutes[at] == Store(cells[at].agg)
    {
      assert Aligned(at, MINUTE) && Current(rollups, t, target, at);
    }
    SumIsTotal(minutes, cells);
    HourFilled(rollups, cells, t, w);
    FloorUnique(start, start, MINUTE);
    BucketsAddUp(cells, t, w, MINUTE, None);
    if minutes == map[] {
      assert cells.Keys == minutes.Keys;
      TotalOfNothing(cells);
    }
  }
}
