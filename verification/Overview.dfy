/**
 The recent window of one target: clean minute rollups where they exist, raw rows for the edges and
 for dirty or absent minutes, regrouped into a trend.
 */
module Overview {
  import opened Common
  import opened PingAggregate
  import opened RawAggregate
  import opened RawBuckets
  import opened TimeGrid
  import opened PingRollups

  datatype Trend = Trend(from: int, to: int, ping: Query)

  /** A clean minute inside the window: its stored row is current and none of its probes is pending. */
  ghost predicate Trusted(minutes: map<int, Rollup>, t: Tables, w: Window, at: int) {
    && Aligned(at, MINUTE) && Current(minutes, t, w.target, at)
    && forall k <- t.rows :: Covers(Window(w.target, at, at + MINUTE), t.rows[k]) ==> !t.rows[k].Pending(w.to)
  }

  // The first whole minute at or after an instant.
  function CleanFrom(from: int): int {
    var first := Floor(from, MINUTE);
    if first < from then first + MINUTE else first
  }

  // The minutes whose rollup is used.
  predicate Clean(minutes: map<int, Rollup>, dirty: set<int>, w: Window, at: int) {
    at in minutes && at !in dirty && CleanFrom(w.from) <= at < Floor(w.to, MINUTE)
  }

  ghost predicate AllTrusted(minutes: map<int, Rollup>, dirty: set<int>, t: Tables, w: Window) {
    forall at | Clean(minutes, dirty, w, at) :: Trusted(minutes, t, w, at)
  }

  lemma CleanFits(minutes: map<int, Rollup>, dirty: set<int>, w: Window, at: int)
    requires Clean(minutes, dirty, w, at) && Aligned(at, MINUTE)
    ensures w.from <= at && at + MINUTE <= w.to && Clip(w, at, MINUTE) == Window(w.target, at, at + MINUTE)
  {
    hide Aligned, Floor;
    Ordered(at, Floor(w.to, MINUTE), MINUTE);
  }

  /** A stored minute is used exactly if it is not dirty and lies wholly in the window. */
  lemma CleanIff(minutes: map<int, Rollup>, dirty: set<int>, w: Window, at: int)
    requires Aligned(at, MINUTE)
    ensures Clean(minutes, dirty, w, at) <==> at in minutes && at !in dirty && w.from <= at && at + MINUTE <= w.to
  {
    hide Aligned, Floor;
    if at < Floor(w.to, MINUTE) {
      Ordered(at, Floor(w.to, MINUTE), MINUTE);
    }
    if Floor(w.from, MINUTE) < at {
      Ordered(Floor(w.from, MINUTE), at, MINUTE);
    }
  }

  lemma StoredMerges(q: Query)
    requires q.Valid() && !q.partial
    ensures Merge(EMPTY, Query(Load(Store(q.agg)), false)) == q
  {
    hide Merge, Load, Store, Query.Valid;
    EmptyLaws();
    StoreKeeps(EMPTY, q);
    MergeLaws(q, EMPTY, EMPTY);
  }

  lemma CleanIsRaw(minutes: map<int, Rollup>, dirty: set<int>, t: Tables, w: Window, at: int)
    requires Clean(minutes, dirty, w, at) && Trusted(minutes, t, w, at)
    ensures Merge(EMPTY, Query(Load(minutes[at]), false)) == Raw(t, Clip(w, at, MINUTE), Some(w.to))
  {
    hide Raw, Merge, Load, Store, Aligned, Clip, Query.Valid, Balanced;
    CleanFits(minutes, dirty, w, at);
    var c := Window(w.target, at, at + MINUTE);
    RawSettled(t, c, w.to);
    RawBalanced(t, c, None);
    RawValid(t, c, None);
    StoredMerges(Raw(t, c, None));
  }

  lemma CleanStored(minutes: map<int, Rollup>, dirty: set<int>, w: Window, at: int)
    ensures Clean(minutes, dirty, w, at) ==> at in minutes
  {
  }

  /** The clean rollups, each as the bucket of its minute. */
  method QueryRollups(minutes: map<int, Rollup>, dirty: set<int>, ghost t: Tables, w: Window) returns (m: Cells)
    requires AllTrusted(minutes, dirty, t, w)
    ensures forall at :: at in m <==> Clean(minutes, dirty, w, at)
    ensures forall at <- m :: m[at] == Raw(t, Clip(w, at, MINUTE), Some(w.to))
  {
    hide Raw, Merge, Load, Clean, Trusted, Clip;
    m := map[];
    var ks := minutes.Keys;
    while ks != {}
      invariant ks <= minutes.Keys
      invariant forall at :: at in m <==> at in minutes && at !in ks && Clean(minutes, dirty, w, at)
      invariant forall at <- m :: m[at] == Raw(t, Clip(w, at, MINUTE), Some(w.to))
      decreases ks
    {
      var at := Choose(ks);
      ks := ks - {at};
      if Clean(minutes, dirty, w, at) {
        CleanIsRaw(minutes, dirty, t, w, at);
        m := m[at := Merge(EMPTY, Query(Load(minutes[at]), false))];
      }
    }
    forall at
      ensures Clean(minutes, dirty, w, at) ==> at in minutes
    {
      CleanStored(minutes, dirty, w, at);
    }
  }

  // Every minute before `at` has been read, and what is there from `at` on is right.
  ghost predicate ReadUpTo(m: Cells, t: Tables, w: Window, at: int) {
    && Keyed(m, w, MINUTE)
    && (forall k | Aligned(k, MINUTE) && Floor(w.from, MINUTE) <= k < at ::
      Cell(m, k) == Raw(t, Clip(w, k, MINUTE), Some(w.to)))
    && (forall k <- m | k >= at :: m[k] == Raw(t, Clip(w, k, MINUTE), Some(w.to)))
  }

  // A raw reading of the minutes from `start` up to `at`, none of which was there, fills them in.
  lemma GapFilled(m: Cells, raw: Cells, t: Tables, w: Window, part: Window, start: int, at: int)
    requires ReadUpTo(m, t, w, start) && Aligned(start, MINUTE) && Aligned(at, MINUTE)
      && Floor(w.from, MINUTE) <= start < at
    requires forall k | start <= k < at && Aligned(k, MINUTE) :: k !in m
    requires part == Window(w.target, Max(start, w.from), Min(at, w.to))
    requires Keyed(raw, part, MINUTE) && Filled(raw, t, part, MINUTE, Some(w.to), Floor(part.from, MINUTE))
    ensures ReadUpTo(m + raw, t, w, at)
  {
    hide Raw, Aligned, Floor;
    forall k | k in raw
      ensures start <= k < at && Aligned(k, MINUTE)
    {
      if k < start {
        Ordered(k, start, MINUTE);
      }
    }
    FloorUnique(start, start, MINUTE);
    FloorUnique(part.from, start, MINUTE);
    forall k | Aligned(k, MINUTE) && start <= k < at
      ensures Cell(m + raw, k) == Raw(t, Clip(w, k, MINUTE), Some(w.to))
    {
      Ordered(k, at, MINUTE);
      assert Clip(part, k, MINUTE) == Clip(w, k, MINUTE);
      assert Cell(m + raw, k) == Cell(raw, k);
    }
    forall k | Aligned(k, MINUTE) && Floor(w.from, MINUTE) <= k < start
      ensures Cell(m + raw, k) == Raw(t, Clip(w, k, MINUTE), Some(w.to))
    {
      assert Cell(m + raw, k) == Cell(m, k);
    }
  }

  lemma OnlyStart(start: int)
    requires Aligned(start, MINUTE)
    ensures forall k | start <= k < start + MINUTE && Aligned(k, MINUTE) :: k == start
  {
    hide Aligned;
    forall k | start < k && Aligned(k, MINUTE)
      ensures start + MINUTE <= k
    {
      Ordered(start, k, MINUTE);
    }
  }

  lemma Next(m: Cells, t: Tables, w: Window, at: int)
    requires Aligned(at, MINUTE) && at in m && ReadUpTo(m, t, w, at)
    ensures Aligned(at + MINUTE, MINUTE) && ReadUpTo(m, t, w, at + MINUTE)
  {
    hide Raw, Aligned, Floor, Keyed;
    NextAligned(at, MINUTE);
    OnlyStart(at);
  }

  lemma Complete(m: Cells, t: Tables, w: Window, at: int)
    requires at >= w.to && ReadUpTo(m, t, w, at)
    ensures Keyed(m, w, MINUTE) && Filled(m, t, w, MINUTE, Some(w.to), Floor(w.from, MINUTE))
  {
    hide Raw, Aligned, Floor;
    forall k | Aligned(k, MINUTE) && at <= k
      ensures Cell(m, k) == Raw(t, Clip(w, k, MINUTE), Some(w.to))
    {
      RawOfNothing(t, Clip(w, k, MINUTE), Some(w.to));
    }
  }

  /** Reads the raw rows of every contiguous run of minutes without a clean rollup. */
  method FillIn(m: Cells, t: Tables, w: Window) returns (minutes: Cells)
    requires w.from <= w.to && ReadUpTo(m, t, w, Floor(w.from, MINUTE))
    ensures Keyed(minutes, w, MINUTE) && Filled(minutes, t, w, MINUTE, Some(w.to), Floor(w.from, MINUTE))
  {
    hide Raw, Aligned, Floor, Cell, Clip, Filled, Keyed;
    minutes := m;
    var at := Floor(w.from, MINUTE);
    while at < w.to
      invariant Aligned(at, MINUTE) && Floor(w.from, MINUTE) <= at && ReadUpTo(minutes, t, w, at)
      decreases w.to - at
    {
      if at in minutes {
        Next(minutes, t, w, at);
        at := at + MINUTE;
        continue;
      }
      var start := at;
      NextAligned(at, MINUTE);
      at := at + MINUTE;
      OnlyStart(start);
      while at < w.to && at !in minutes
        invariant Aligned(at, MINUTE) && start < at
        invariant forall k | start <= k < at && Aligned(k, MINUTE) :: k !in minutes
        decreases w.to - at
      {
        NextAligned(at, MINUTE);
        OnlyStart(at);
        at := at + MINUTE;
      }
      var part := Window(w.target, Max(start, w.from), Min(at, w.to));
      var raw := QueryRaw(t, part, w.to, MINUTE, None);
      GapFilled(minutes, raw, t, w, part, start, at);
      minutes := minutes + raw;
    }
    Complete(minutes, t, w, at);
  }

  // ---------- the window ----------

  /** The trend buckets follow one another without gap or overlap from `from` to `to`. */
  ghost predicate Tiles(trend: seq<Trend>, from: int, to: int) {
    && (if trend == [] then from == to else trend[0].from == from && trend[|trend| - 1].to == to)
    && (forall i | 0 <= i < |trend| :: trend[i].from < trend[i].to)
    && (forall i | 0 < i < |trend| :: trend[i].from == trend[i - 1].to)
  }

  // Inside the window the buckets are those of the width.
  ghost predicate Gridded(trend: seq<Trend>, w: Window, width: int)
    requires width > 0
  {
    forall b <- trend :: b.from == Max(Floor(b.from, width), w.from) && b.to == Min(Floor(b.from, width) + width, w.to)
  }

  lemma NoGrid(w: Window, width: int)
    requires width > 0
    ensures Gridded([], w, width)
  {
  }

  lemma GridNext(trend: seq<Trend>, w: Window, width: int, at: int, ping: Query)
    requires width > 0 && Aligned(at, width) && Gridded(trend, w, width) && w.from < at + width && at < w.to
    ensures Gridded(trend + [Trend(Max(at, w.from), Min(at + width, w.to), ping)], w, width)
  {
    FloorUnique(Max(at, w.from), at, width);
  }

  ghost predicate Exact(trend: seq<Trend>, t: Tables, w: Window) {
    forall b <- trend :: b.ping == Raw(t, Window(w.target, b.from, b.to), Some(w.to))
  }

  function SumTrend(trend: seq<Trend>): Query {
    if trend == [] then EMPTY else Merge(SumTrend(trend[..|trend| - 1]), trend[|trend| - 1].ping)
  }

  lemma CleanRead(rollups: map<int, Rollup>, dirty: set<int>, m: Cells, t: Tables, w: Window)
    requires AllTrusted(rollups, dirty, t, w)
    requires forall at :: at in m <==> Clean(rollups, dirty, w, at)
    requires forall at <- m :: m[at] == Raw(t, Clip(w, at, MINUTE), Some(w.to))
    ensures ReadUpTo(m, t, w, Floor(w.from, MINUTE))
  {
    hide Raw, Aligned, Floor, Clean, Current;
    forall at | at in m
      ensures Aligned(at, MINUTE) && at < w.to && w.from < at + MINUTE
    {
      assert Trusted(rollups, t, w, at);
      CleanFits(rollups, dirty, w, at);
    }
  }

  lemma MinutesValid(m: Cells, t: Tables, w: Window)
    requires Keyed(m, w, MINUTE) && Filled(m, t, w, MINUTE, Some(w.to), Floor(w.from, MINUTE))
    ensures AllValid(m)
  {
    hide Raw, Aligned, Floor, Filled;
    forall at | at in m
      ensures at >= Floor(w.from, MINUTE)
    {
      if at < Floor(w.from, MINUTE) {
        Ordered(at, Floor(w.from, MINUTE), MINUTE);
      }
    }
    CellsValid(m, t, w, MINUTE, Some(w.to), Floor(w.from, MINUTE));
  }

  // Reads the trend off the wider buckets.
  method Split(ghost m: Cells, combined: Cells, ghost t: Tables, w: Window, width: int) returns (trend: seq<Trend>)
    requires w.from < w.to && Aligned(width, MINUTE) && width > 0
    requires Keyed(m, w, MINUTE) && Filled(m, t, w, MINUTE, Some(w.to), Floor(w.from, MINUTE))
    requires forall at :: Cell(combined, at) == Total(Inside(m, at, width))
    ensures Tiles(trend, w.from, w.to) && Gridded(trend, w, width) && Exact(trend, t, w)
  {
    hide Raw, Aligned, Floor, Keyed, Filled, Total, Cell, Gridded;
    trend := [];
    assert Gridded(trend, w, width) by { NoGrid(w, width); }
    var at := Floor(w.from, width);
    while at < w.to
      invariant Aligned(at, width) && w.from < at + width
      invariant if trend == [] then at <= w.from else w.from < at
      invariant Tiles(trend, w.from, if trend == [] then w.from else Min(at, w.to))
      invariant Exact(trend, t, w) && Gridded(trend, w, width)
      decreases w.to - at
    {
      RegroupKeeps(m, t, w, MINUTE, width, Some(w.to), at);
      GridNext(trend, w, width, at, Cell(combined, at));
      trend := trend + [Trend(Max(at, w.from), Min(at + width, w.to), Cell(combined, at))];
      NextAligned(at, width);
      at := at + width;
    }
  }

  /**
   Whatever is dirty, the overview of a window is one raw aggregation of it, and every trend bucket
   is the raw aggregation of its part of the window.
   */
  method OverviewPing(t: Tables, rollups: map<int, Rollup>, dirty: set<int>, w: Window, width: int)
    returns (total: Query, trend: seq<Trend>)
    requires w.from < w.to && Aligned(width, MINUTE) && width > 0
    requires AllTrusted(rollups, dirty, t, w)
    ensures total == Raw(t, w, Some(w.to))
    ensures Tiles(trend, w.from, w.to) && Gridded(trend, w, width) && Exact(trend, t, w)
  {
    hide Raw, Aligned, Floor, Clean, Trusted, AllTrusted, Keyed, Filled, Total, Clip, Cell, ReadUpTo, Gridded;
    var m := QueryRollups(rollups, dirty, t, w);
    CleanRead(rollups, dirty, m, t, w);
    m := FillIn(m, t, w);
    MinutesValid(m, t, w);
    var combined;
    combined, total := Regroup(m, width);
    BucketsAddUp(m, t, w, MINUTE, Some(w.to));
    trend := Split(m, combined, t, w, width);
  }

  lemma {:induction false} Forward(trend: seq<Trend>, i: nat)
    requires i < |trend|
    requires forall k | 0 <= k < |trend| :: trend[k].from < trend[k].to
    requires forall k | 0 < k < |trend| :: trend[k].from == trend[k - 1].to
    ensures trend[0].from <= trend[i].from && (i > 0 ==> trend[0].from < trend[i].from)
  {
    if i > 0 {
      Forward(trend, i - 1);
    }
  }

  /** The trend buckets of a window sum to its total. */
  lemma {:induction false} TrendAddsUp(trend: seq<Trend>, t: Tables, w: Window, to: int)
    requires Tiles(trend, w.from, to) && w.from <= to && Exact(trend, t, w)
    ensures SumTrend(trend) == Raw(t, w.(to := to), Some(w.to))
    decreases |trend|
  {
    hide Raw, Merge;
    if trend == [] {
      RawOfNothing(t, w.(to := to), Some(w.to));
    } else {
      var n := |trend| - 1;
      var last := trend[n];
      var rest := trend[..n];
      assert rest != [] ==> rest[|rest| - 1] == trend[n - 1];
      Forward(trend, n);
      TrendAddsUp(rest, t, w, last.from);
      RawSplits(t, w.(to := to), w.(to := last.from), Window(w.target, last.from, to), Some(w.to));
    }
  }

  // ---------- what the overview reports ----------

  /** The reported counts that are not stored but derived. */
  datatype Recent = Recent(settled: nat, pending: int, partial: bool)

  function Report(q: Query): Recent {
    var t := q.agg.tally;
    var settled := t.onTime + t.late + t.unanswered;
    Recent(settled, Max(0, t.sent - settled), q.partial || settled < t.sent)
  }

  // Sent probes without an outcome yet.
  function Undecided(q: Query): int {
    q.agg.tally.sent - q.agg.tally.onTime - q.agg.tally.late - q.agg.tally.unanswered
  }

  lemma UndecidedAdds(a: Query, b: Query)
    ensures Undecided(Merge(a, b)) == Undecided(a) + Undecided(b)
  {
    hide AddRtts, AddTimeouts;
  }

  lemma NoneUndecided()
    ensures Undecided(EMPTY) == 0
  {
  }

  lemma {:induction false} UndecidedTotal<K(!new)>(m: map<K, Query>)
    requires forall k <- m :: Undecided(m[k]) == if m[k].partial then 1 else 0
    ensures Undecided(Total(m)) == |set k | k in m && m[k].partial|
    decreases |m|
  {
    hide Merge, Undecided;
    var open := set k | k in m && m[k].partial;
    if m.Keys == {} {
      assert open == {};
      assert Undecided(EMPTY) == 0 by { NoneUndecided(); }
    } else {
      var k := Pick(m.Keys);
      var rest := m - {k};
      UndecidedTotal(rest);
      UndecidedAdds(m[k], Total(rest));
      var others := set j | j in rest && rest[j].partial;
      assert open == if m[k].partial then others + {k} else others;
    }
  }

  // The probes of a window whose outcome is open.
  ghost function Open(t: Tables, w: Window): set<ProbeKey> {
    set k | k in t.rows && Covers(w, t.rows[k]) && t.rows[k].Pending(w.to)
  }

  lemma ProbeUndecided(r: Row, w: Window)
    ensures Undecided(OfRow(r, w, Some(w.to))) == (if Covers(w, r) && r.Pending(w.to) then 1 else 0)
    ensures OfRow(r, w, Some(w.to)).partial <==> Covers(w, r) && r.Pending(w.to)
  {
    hide Covers;
  }

  lemma GapDecided(g: Gap, w: Window)
    ensures Undecided(OfGap(g, w)) == 0 && !OfGap(g, w).partial
  {
    hide Missed;
  }

  /** The overview reports exactly the open probes as pending, and is partial while there is one. */
  lemma PendingIsExact(t: Tables, w: Window)
    ensures Report(Raw(t, w, Some(w.to))).pending == |Open(t, w)|
    ensures Report(Raw(t, w, Some(w.to))).partial <==> Open(t, w) != {}
  {
    hide Merge, OfRow, OfGap, Total;
    var asOf := Some(w.to);
    var rows, gaps := RowParts(t.rows, w, asOf), GapParts(t.gaps, w);
    forall k | k in t.rows
      ensures Undecided(rows[k]) == (if rows[k].partial then 1 else 0)
      ensures rows[k].partial <==> k in Open(t, w)
    {
      ProbeUndecided(t.rows[k], w);
    }
    forall k | k in t.gaps
      ensures Undecided(gaps[k]) == 0 && !gaps[k].partial
    {
      GapDecided(t.gaps[k], w);
    }
    UndecidedTotal(rows);
    UndecidedTotal(gaps);
    assert (set k | k in rows && rows[k].partial) == Open(t, w);
    assert (set k | k in gaps && gaps[k].partial) == {};
    UndecidedAdds(Total(rows), Total(gaps));
    RawBalanced(t, w, asOf);
  }
}
