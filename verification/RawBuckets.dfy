/**
 Aggregates by bucket: a map from bucket starts to aggregates, one entry for each bucket of a window
 in which anything was observed.
 */
module RawBuckets {
  import opened Common
  import opened TimeGrid
  import opened PingAggregate
  import opened RawAggregate
  import opened RawScan

  type Cells = map<int, Query>

  function Cell(m: Cells, at: int): Query { if at in m then m[at] else EMPTY }

  // The part of a bucket that lies in the window.
  function Clip(w: Window, at: int, width: int): Window {
    Window(w.target, Max(w.from, at), Min(w.to, at + width))
  }

  ghost predicate Keyed(m: Cells, w: Window, width: int) {
    forall at <- m :: Aligned(at, width) && at < w.to && w.from < at + width
  }

  /** From bucket `first` on, every bucket holds the raw aggregate of its part of the window. */
  ghost predicate Filled(m: Cells, t: Tables, w: Window, width: int, asOf: Option<int>, first: int) {
    forall at | Aligned(at, width) && first <= at :: Cell(m, at) == Raw(t, Clip(w, at, width), asOf)
  }

  lemma CellsValid(m: Cells, t: Tables, w: Window, width: int, asOf: Option<int>, first: int)
    requires Keyed(m, w, width) && Filled(m, t, w, width, asOf, first) && forall at <- m :: at >= first
    ensures AllValid(m)
  {
    hide Raw, Query.Valid;
    forall at | at in m
      ensures m[at].Valid()
    {
      assert m[at] == Cell(m, at) && Aligned(at, width);
      RawValid(t, Clip(w, at, width), asOf);
    }
  }

  lemma FilledAfter(m: Cells, t: Tables, w: Window, width: int, asOf: Option<int>, first: int)
    requires Aligned(first, width)
    requires Keyed(m, w, width) && Filled(m, t, w, width, asOf, first) && forall at <- m :: at >= first
    ensures Keyed(m - {first}, w, width) && Filled(m - {first}, t, w, width, asOf, first + width)
    ensures forall at <- m - {first} :: at >= first + width
  {
    hide Raw;
    forall at | at in m && at != first
      ensures at >= first + width
    {
      assert Aligned(at, width);
      FloorUnique(at, first, width);
      FloorUnique(at, at, width);
    }
    forall at | Aligned(at, width) && first + width <= at
      ensures Cell(m - {first}, at) == Cell(m, at)
    {
    }
  }

  lemma RawDivides(t: Tables, w: Window, u: Window, v: Window, asOf: Option<int>)
    requires u.target == v.target == w.target && u.from == w.from && v.to == w.to
    requires (u.from <= u.to == w.to <= v.from) || (u.to == v.from && u.from <= u.to <= w.to)
          || (u.from >= u.to && v.from == w.from)
    ensures Raw(t, w, asOf) == Merge(Raw(t, u, asOf), Raw(t, v, asOf))
  {
    hide Raw, Merge, Query.Valid;
    RawValid(t, w, asOf);
    EmptyLaws();
    MergeLaws(Raw(t, w, asOf), EMPTY, EMPTY);
    if u.from >= u.to && v.from == w.from {
      RawOfNothing(t, u, asOf);
    } else if u.to == v.from {
      RawSplits(t, w, u, v, asOf);
    } else {
      RawOfNothing(t, v, asOf);
    }
  }

  lemma {:induction false} TotalFrom(m: Cells, t: Tables, w: Window, width: int, asOf: Option<int>, first: int)
    requires Aligned(first, width) && w.from <= w.to
    requires Keyed(m, w, width) && Filled(m, t, w, width, asOf, first) && forall at <- m :: at >= first
    ensures Total(m) == Raw(t, w.(from := Max(w.from, first)), asOf)
    decreases w.to - first
  {
    hide Raw, Merge, Query.Valid, AllValid, Total;
    var rest := w.(from := Max(w.from, first));
    if first >= w.to {
      assert forall at <- m :: at < w.to && at >= first;
      TotalOfNothing(m);
      RawOfNothing(t, rest, asOf);
    } else {
      NextAligned(first, width);
      CellsValid(m, t, w, width, asOf, first);
      TotalFrom(m - {first}, t, w, width, asOf, first + width) by {
        FilledAfter(m, t, w, width, asOf, first);
      }
      var part, after := Clip(w, first, width), w.(from := Max(w.from, first + width));
      RawValid(t, after, asOf);
      RawDivides(t, rest, part, after, asOf);
      assert Cell(m, first) == Raw(t, part, asOf);
      if first in m {
        TotalTakes(m, first);
      } else {
        assert m - {first} == m;
        MergeLaws(Raw(t, after, asOf), EMPTY, EMPTY) by { EmptyLaws(); }
      }
    }
  }

  /** The buckets of a window add up to one raw scan of it. */
  lemma BucketsAddUp(m: Cells, t: Tables, w: Window, width: int, asOf: Option<int>)
    requires width > 0 && w.from <= w.to && Keyed(m, w, width) && Filled(m, t, w, width, asOf, Floor(w.from, width))
    ensures Total(m) == Raw(t, w, asOf)
  {
    hide Raw, Total, Filled;
    var first := Floor(w.from, width);
    forall at | at in m
      ensures at >= first
    {
      if at < first {
        Ordered(at, first, width);
      }
    }
    TotalFrom(m, t, w, width, asOf, first);
  }

  // ---------- filling the buckets ----------

  // A row lies in one bucket of the window.
  lemma RowInBucket(r: Row, w: Window, at: int, width: int, asOf: Option<int>)
    requires Aligned(at, width)
    ensures OfRow(r, Clip(w, at, width), asOf)
         == if Covers(w, r) && at == Floor(r.scheduled, width) then OfProbe(r, asOf) else EMPTY
  {
    hide OfProbe;
    FloorUnique(r.scheduled, at, width);
  }

  lemma FilledByRow(m: Cells, m': Cells, t: Tables, k: ProbeKey, r: Row, w: Window, width: int, asOf: Option<int>,
                    at: int)
    requires k !in t.rows && Aligned(at, width)
    requires Cell(m, at) == Raw(t, Clip(w, at, width), asOf)
    requires if Covers(w, r) && at == Floor(r.scheduled, width)
             then Cell(m', at) == ObserveProbe(Cell(m, at), r, asOf) else Cell(m', at) == Cell(m, at)
    ensures Cell(m', at) == Raw(t.(rows := t.rows[k := r]), Clip(w, at, width), asOf)
  {
    hide Raw, OfProbe, OfRow, Merge, ObserveProbe, Query.Valid, Cell, Clip, Covers;
    var c := Clip(w, at, width);
    RawAddsRow(t, k, r, c, asOf);
    RawValid(t, c, asOf);
    RowInBucket(r, w, at, width, asOf);
    ObserveProbeMerges(Raw(t, c, asOf), r, asOf);
    EmptyLaws();
    MergeLaws(Raw(t, c, asOf), EMPTY, EMPTY);
  }

  // The filter of a raw query: an instant passes if its minute or its hour starts at one of the instants
  // of a set, or if there is no filter.
  predicate Passes(sources: Option<set<int>>, at: int) {
    sources.None? || Floor(at, MINUTE) in sources.value || Floor(at, HOUR) in sources.value
  }

  // The gaps of a bucket pass or not with the start of the bucket.
  function Sifted(t: Tables, sources: Option<set<int>>, at: int): Tables {
    if Passes(sources, at) then t else t.(gaps := map[])
  }

  // From `from` on every bucket holds what it has of these rows and of the gaps that pass.
  ghost predicate FilledFrom(m: Cells, t: Tables, sources: Option<set<int>>, w: Window, width: int,
                             asOf: Option<int>, from: int) {
    forall at | Aligned(at, width) && from <= at :: Cell(m, at) == Raw(Sifted(t, sources, at), Clip(w, at, width), asOf)
  }

  /** Adds one row to the bucket it is scheduled in. */
  method AddRow(m: Cells, ghost t: Tables, ghost k: ProbeKey, r: Row, ghost sources: Option<set<int>>, w: Window,
                width: int, asOf: Option<int>)
    returns (m': Cells)
    requires width > 0 && k !in t.rows && Keyed(m, w, width)
    requires FilledFrom(m, t, sources, w, width, asOf, Floor(w.from, width))
    ensures Keyed(m', w, width)
    ensures FilledFrom(m', t.(rows := t.rows[k := r]), sources, w, width, asOf, Floor(w.from, width))
  {
    hide Raw, ObserveProbe, OfProbe, Passes;
    m' := m;
    if Covers(w, r) {
      var key := Floor(r.scheduled, width);
      m' := m[key := ObserveProbe(Cell(m, key), r, asOf)];
    }
    forall at | Aligned(at, width) && Floor(w.from, width) <= at
      ensures Cell(m', at) == Raw(Sifted(t.(rows := t.rows[k := r]), sources, at), Clip(w, at, width), asOf)
    {
      FilledByRow(m, m', Sifted(t, sources, at), k, r, w, width, asOf, at);
    }
  }

  // What a bucket holds once the slots of a gap in it have been added.
  lemma FilledByGap(m: Cells, m': Cells, t: Tables, k: nat, g: Gap, w: Window, width: int, asOf: Option<int>, at: int)
    requires k !in t.gaps && g.target == w.target
    requires Cell(m, at) == Raw(t, Clip(w, at, width), asOf)
    requires Cell(m', at) == ObserveMissed(Cell(m, at), Missed(g, Clip(w, at, width).from, Clip(w, at, width).to))
    ensures Cell(m', at) == Raw(t.(gaps := t.gaps[k := g]), Clip(w, at, width), asOf)
  {
    hide Raw, Merge, ObserveMissed, Query.Valid, Missed, Cell, Aligned;
    var c := Clip(w, at, width);
    RawAddsGap(t, k, g, c, asOf);
    RawValid(t, c, asOf);
    ObserveMissedMerges(Raw(t, c, asOf), Missed(g, c.from, c.to));
  }

  lemma NoneMissed(m: Cells, t: Tables, k: nat, g: Gap, w: Window, width: int, asOf: Option<int>, at: int)
    requires k !in t.gaps && Cell(m, at) == Raw(t, Clip(w, at, width), asOf)
    requires g.target != w.target || Missed(g, Clip(w, at, width).from, Clip(w, at, width).to) == 0
    ensures Cell(m, at) == Raw(t.(gaps := t.gaps[k := g]), Clip(w, at, width), asOf)
  {
    hide Raw, Merge, Query.Valid, Missed, Cell, Aligned;
    var c := Clip(w, at, width);
    RawAddsGap(t, k, g, c, asOf);
    RawValid(t, c, asOf);
    EmptyLaws();
    MergeLaws(Raw(t, c, asOf), EMPTY, EMPTY);
  }

  // Adds the slots of a gap that lie in one bucket.
  method AddSlots(m: Cells, ghost t: Tables, ghost k: nat, g: Gap, w: Window, width: int, ghost asOf: Option<int>,
                  bucket: int)
    returns (m': Cells)
    requires k !in t.gaps && g.target == w.target && Aligned(bucket, width) && Keyed(m, w, width)
    requires Max(bucket, g.first) < Min(bucket + width, w.to) && w.from < bucket + width
    requires Cell(m, bucket) == Raw(t, Clip(w, bucket, width), asOf)
    ensures Keyed(m', w, width)
    ensures forall at | at != bucket :: Cell(m', at) == Cell(m, at)
    ensures Cell(m', bucket) == Raw(t.(gaps := t.gaps[k := g]), Clip(w, bucket, width), asOf)
  {
    hide Raw, Missed, CountPeriodic, ObserveMissed;
    var c := Clip(w, bucket, width);
    var missed := CountPeriodic(g.first, g.step, g.count, c.from, c.to);
    CountPeriodicInWindow(g, c.from, c.to);
    m' := m;
    if missed == 0 {
      NoneMissed(m, t, k, g, w, width, asOf, bucket);
    } else {
      m' := m[bucket := ObserveMissed(Cell(m, bucket), missed)];
      FilledByGap(m, m', t, k, g, w, width, asOf, bucket);
    }
  }

  // A gap that adds no slot to a bucket leaves it as it is.
  lemma Untouched(m: Cells, t: Tables, k: nat, g: Gap, sources: Option<set<int>>, w: Window, width: int,
                  asOf: Option<int>, at: int)
    requires k !in t.gaps && Cell(m, at) == Raw(Sifted(t, sources, at), Clip(w, at, width), asOf)
    requires g.target != w.target || Missed(g, Clip(w, at, width).from, Clip(w, at, width).to) == 0
    ensures Cell(m, at) == Raw(Sifted(t.(gaps := t.gaps[k := g]), sources, at), Clip(w, at, width), asOf)
  {
    hide Raw, Missed, Cell, Aligned, Passes, Clip;
    if Passes(sources, at) {
      NoneMissed(m, t, k, g, w, width, asOf, at);
    }
  }

  lemma EndsBefore(g: Gap, w: Window, at: int, bucket: int, width: int)
    requires Aligned(at, width) && Aligned(bucket, width) && at < bucket <= Max(g.first, w.from)
    ensures Missed(g, Clip(w, at, width).from, Clip(w, at, width).to) == 0
  {
    hide Missed, Aligned;
    Ordered(at, bucket, width);
    MissedNothing(g, Clip(w, at, width).from, Clip(w, at, width).to);
  }

  lemma BeginsAfter(g: Gap, w: Window, at: int, width: int)
    requires at >= w.to || g.first >= w.to || g.Last() < w.from
    ensures Missed(g, Clip(w, at, width).from, Clip(w, at, width).to) == 0
  {
    MissedNothing(g, Clip(w, at, width).from, Clip(w, at, width).to);
  }

  /** Spreads the slots of a gap over the buckets they lie in, as far as these pass. */
  method AddGap(m: Cells, ghost t: Tables, ghost k: nat, g: Gap, sources: Option<set<int>>, w: Window, width: int,
                ghost asOf: Option<int>)
    returns (m': Cells)
    requires width > 0 && k !in t.gaps && Keyed(m, w, width)
    requires FilledFrom(m, t, sources, w, width, asOf, Floor(w.from, width))
    ensures Keyed(m', w, width)
    ensures FilledFrom(m', t.(gaps := t.gaps[k := g]), sources, w, width, asOf, Floor(w.from, width))
  {
    hide Raw, Missed, CountPeriodic, ObserveMissed, Cell, Keyed, Aligned, Floor, OfGap, Slots, Merge, Query.Valid;
    hide Passes, Clip;
    m' := m;
    ghost var first := Floor(w.from, width);
    ghost var after := t.(gaps := t.gaps[k := g]);
    ghost var end := first;
    if g.target == w.target && g.first < w.to && g.Last() >= w.from {
      var bucket := Floor(Max(g.first, w.from), width);
      FirstBucket(w.from, Max(g.first, w.from), width);
      forall at | Aligned(at, width) && first <= at < bucket
        ensures Cell(m', at) == Raw(Sifted(after, sources, at), Clip(w, at, width), asOf)
      {
        EndsBefore(g, w, at, bucket, width);
        Untouched(m', t, k, g, sources, w, width, asOf, at);
      }
      while bucket < w.to
        invariant Aligned(bucket, width) && g.first < bucket + width && w.from < bucket + width && first <= bucket
        invariant Keyed(m', w, width)
        invariant FilledFrom(m', t, sources, w, width, asOf, bucket)
        invariant forall at | Aligned(at, width) && first <= at < bucket ::
          Cell(m', at) == Raw(Sifted(after, sources, at), Clip(w, at, width), asOf)
        decreases w.to - bucket
      {
        if Passes(sources, bucket) {
          m' := AddSlots(m', t, k, g, w, width, asOf, bucket);
        }
        NextAligned(bucket, width);
        forall at | Aligned(at, width) && at < bucket + width
          ensures at <= bucket
        {
          if at > bucket {
            Ordered(bucket, at, width);
          }
        }
        bucket := bucket + width;
      }
      end := bucket;
    }
    forall at | Aligned(at, width) && end <= at
      ensures Cell(m', at) == Raw(Sifted(after, sources, at), Clip(w, at, width), asOf)
    {
      if g.target == w.target {
        BeginsAfter(g, w, at, width);
      }
      Untouched(m', t, k, g, sources, w, width, asOf, at);
    }
  }

  lemma Nothing(w: Window, width: int, sources: Option<set<int>>, asOf: Option<int>)
    requires width > 0
    ensures Keyed(map[], w, width)
    ensures FilledFrom(map[], Tables(map[], map[]), sources, w, width, asOf, Floor(w.from, width))
  {
    hide Raw, Floor, Aligned, Passes;
    forall at | Aligned(at, width)
      ensures Raw(Tables(map[], map[]), Clip(w, at, width), asOf) == EMPTY
    {
      RawOfNothing(Tables(map[], map[]), Clip(w, at, width), asOf);
    }
  }

  function Passing(rows: map<ProbeKey, Row>, sources: Option<set<int>>): map<ProbeKey, Row> {
    map k | k in rows && Passes(sources, rows[k].scheduled) :: rows[k]
  }

  lemma AllPass(rows: map<ProbeKey, Row>)
    ensures Passing(rows, None) == rows
    ensures forall at :: Passes(None, at)
  {
  }

  /**
   The raw query of a window, bucket by bucket. With a set of sources only the rows scheduled in one of
   their minutes or hours count, and the gaps only in buckets that begin in one.
   */
  method QueryRaw(t: Tables, w: Window, asOf: int, width: int, sources: Option<set<int>>) returns (m: Cells)
    requires width > 0
    ensures Keyed(m, w, width)
    ensures FilledFrom(m, t.(rows := Passing(t.rows, sources)), sources, w, width, Some(asOf), Floor(w.from, width))
    ensures sources.None? ==> Filled(m, t, w, width, Some(asOf), Floor(w.from, width))
  {
    hide Raw, Floor, Aligned, Cell, Keyed, Clip, Passes;
    m := map[];
    ghost var done := Tables(map[], map[]);
    Nothing(w, width, sources, Some(asOf));
    var ks := t.rows.Keys;
    while ks != {}
      invariant ks <= t.rows.Keys && done == Tables(Passing(t.rows - ks, sources), map[])
      invariant Keyed(m, w, width) && FilledFrom(m, done, sources, w, width, Some(asOf), Floor(w.from, width))
      decreases ks
    {
      var k := Choose(ks);
      ks := ks - {k};
      if Passes(sources, t.rows[k].scheduled) {
        m := AddRow(m, done, k, t.rows[k], sources, w, width, Some(asOf));
        done := done.(rows := done.rows[k := t.rows[k]]);
      }
      assert done.rows == Passing(t.rows - ks, sources);
    }
    ghost var rows := Passing(t.rows, sources);
    assert done.rows == rows by { assert t.rows - ks == t.rows; }
    var ids := t.gaps.Keys;
    assert t.gaps - ids == map[];
    while ids != {}
      invariant ids <= t.gaps.Keys && done == Tables(rows, t.gaps - ids)
      invariant Keyed(m, w, width) && FilledFrom(m, done, sources, w, width, Some(asOf), Floor(w.from, width))
      decreases ids
    {
      var k := Choose(ids);
      ids := ids - {k};
      m := AddGap(m, done, k, t.gaps[k], sources, w, width, Some(asOf));
      done := done.(gaps := done.gaps[k := t.gaps[k]]);
      assert done.gaps == t.gaps - ids;
    }
    assert done.gaps == t.gaps by { assert t.gaps - ids == t.gaps; }
    if sources.None? {
      AllPass(t.rows);
      assert forall at :: Sifted(t, sources, at) == t;
    }
  }

  lemma MinutesOfHour(h: int, at: int)
    requires Aligned(h, HOUR) && Aligned(at, MINUTE) && h <= at < h + HOUR
    ensures at + MINUTE <= h + HOUR
  {
    NextAligned(h, HOUR);
    AlignedFiner(h + HOUR, HOUR, MINUTE);
    Ordered(at, h + HOUR, MINUTE);
  }

  lemma SameSource(sources: Option<set<int>>, x: int, at: int)
    requires Aligned(at, MINUTE) && at <= x < at + MINUTE
    ensures Passes(sources, x) == Passes(sources, at)
  {
    hide Aligned, Floor;
    FloorUnique(x, at, MINUTE);
    FloorUnique(at, at, MINUTE);
    var h := Floor(at, HOUR);
    MinutesOfHour(h, at);
    FloorUnique(x, h, HOUR);
    FloorUnique(at, h, HOUR);
  }

  /** In buckets of a minute the filter keeps whole minutes and drops whole minutes. */
  lemma FilteredMinute(m: Cells, t: Tables, sources: Option<set<int>>, w: Window, asOf: Option<int>, at: int)
    requires Aligned(at, MINUTE) && Floor(w.from, MINUTE) <= at
    requires FilledFrom(m, t.(rows := Passing(t.rows, sources)), sources, w, MINUTE, asOf, Floor(w.from, MINUTE))
    ensures Cell(m, at) == if Passes(sources, at) then Raw(t, Clip(w, at, MINUTE), asOf) else EMPTY
  {
    hide Raw, Cell, Passes, OfRow, Missed;
    var u, c := t.(rows := Passing(t.rows, sources)), Clip(w, at, MINUTE);
    forall k | k in t.rows && Covers(c, t.rows[k])
      ensures Passes(sources, t.rows[k].scheduled) == Passes(sources, at)
    {
      SameSource(sources, t.rows[k].scheduled, at);
    }
    if Passes(sources, at) {
      SameAggregate(u, t, c, asOf);
    } else {
      var none := Tables(map[], map[]);
      SameAggregate(none, Sifted(u, sources, at), c, asOf);
      RawOfNothing(none, c, asOf);
    }
  }

  /** A minute at the start of an hour lets the whole hour pass. */
  lemma HourStartPasses(h: int, at: int)
    requires Aligned(h, HOUR) && h <= at < h + HOUR
    ensures Passes(Some({h}), at)
  {
    FloorUnique(at, h, HOUR);
  }

  /** In a bucket wider than a minute a slot in a minute that passes is dropped if the bucket begins before it. */
  lemma WideBucketDropsSlot(m: Cells, bucket: nat, asOf: Option<int>)
    requires Aligned(bucket, HOUR)
    requires var g, w := Gap(1, bucket + MINUTE, 1, 1), Window(1, bucket, bucket + HOUR);
      FilledFrom(m, Tables(map[], map[0 := g]), Some({bucket + MINUTE}), w, HOUR, asOf, bucket)
    ensures Passes(Some({bucket + MINUTE}), bucket + MINUTE)
    ensures Missed(Gap(1, bucket + MINUTE, 1, 1), bucket + MINUTE, bucket + 2 * MINUTE) == 1
    ensures Cell(m, bucket) == EMPTY
  {
    hide Raw, Cell, Floor, Aligned;
    var g, w := Gap(1, bucket + MINUTE, 1, 1), Window(1, bucket, bucket + HOUR);
    AlignedFiner(bucket, HOUR, MINUTE);
    NextAligned(bucket, MINUTE);
    FloorUnique(bucket + MINUTE, bucket + MINUTE, MINUTE);
    FloorUnique(bucket, bucket, MINUTE);
    FloorUnique(bucket, bucket, HOUR);
    assert !Passes(Some({bucket + MINUTE}), bucket);
    RawOfNothing(Tables(map[], map[]), Clip(w, bucket, HOUR), asOf);
    assert Slots(g, bucket + MINUTE, bucket + 2 * MINUTE) == {0};
  }

  // ---------- regrouping ----------

  // The buckets of a map that lie in one wider bucket.
  ghost function Inside(m: Cells, at: int, width: int): Cells
    requires width > 0
  {
    map k | k in m && Floor(k, width) == at :: m[k]
  }

  lemma Regrouped(m: Cells, k: int, q: Query, at: int, width: int)
    requires width > 0 && k !in m && AllValid(m) && q.Valid()
    ensures Total(Inside(m[k := q], at, width))
         == if at == Floor(k, width) then Merge(Total(Inside(m, at, width)), q) else Total(Inside(m, at, width))
  {
    hide Total, Merge, Query.Valid, Floor, Aligned;
    if at == Floor(k, width) {
      TotalAdds(Inside(m, at, width), k, q);
      assert Inside(m[k := q], at, width) == Inside(m, at, width)[k := q];
    } else {
      assert Inside(m[k := q], at, width) == Inside(m, at, width);
    }
  }

  /** Merges every bucket into the wider bucket it lies in, and all of them into one total. */
  method Regroup(m: Cells, width: int) returns (wide: Cells, total: Query)
    requires width > 0 && AllValid(m)
    ensures forall at <- wide :: exists k :: k in m && Floor(k, width) == at
    ensures forall at :: Cell(wide, at) == Total(Inside(m, at, width))
    ensures total == Total(m)
  {
    hide Total, Merge, Query.Valid, Floor, Aligned;
    wide, total := map[], EMPTY;
    var ks := m.Keys;
    ghost var done: Cells := map[];
    TotalOfNothing(done);
    forall at
      ensures Total(Inside(done, at, width)) == EMPTY
    {
      TotalOfNothing(Inside(done, at, width));
    }
    while ks != {}
      invariant ks <= m.Keys && done == m - ks
      invariant forall at <- wide :: exists k :: k in m && Floor(k, width) == at
      invariant forall at :: Cell(wide, at) == Total(Inside(done, at, width))
      invariant total == Total(done)
      decreases ks
    {
      var k := Choose(ks);
      var key := Floor(k, width);
      wide := wide[key := Merge(Cell(wide, key), m[k])];
      TotalAdds(done, k, m[k]);
      total := Merge(total, m[k]);
      forall at
        ensures Cell(wide, at) == Total(Inside(done[k := m[k]], at, width))
      {
        Regrouped(done, k, m[k], at, width);
      }
      ks := ks - {k};
      done := done[k := m[k]];
      assert done == m - ks;
    }
    assert done == m;
  }

  lemma ClipTwice(w: Window, at: int, key: int, width: int, wide: int)
    requires Aligned(at, wide) && Aligned(key, width) && Aligned(wide, width) && at <= key < at + wide
    ensures Clip(Clip(w, at, wide), key, width) == Clip(w, key, width)
  {
    hide Aligned;
    NextAligned(at, wide);
    AlignedFiner(at + wide, wide, width);
    Ordered(key, at + wide, width);
  }

  lemma InsideFilled(m: Cells, t: Tables, w: Window, width: int, wide: int, asOf: Option<int>, at: int)
    requires Aligned(wide, width) && Aligned(at, wide) && w.from <= w.to && wide > 0
    requires Keyed(m, w, width) && Filled(m, t, w, width, asOf, Floor(w.from, width))
    ensures Keyed(Inside(m, at, wide), Clip(w, at, wide), width)
    ensures Filled(Inside(m, at, wide), t, Clip(w, at, wide), width, asOf, Floor(Clip(w, at, wide).from, width))
  {
    hide Raw, Aligned, Floor;
    var c, inside := Clip(w, at, wide), Inside(m, at, wide);
    AlignedFiner(at, wide, width);
    FloorUnique(at, at, width);
    FirstBucket(at, c.from, width);
    FirstBucket(w.from, c.from, width);
    forall key | Aligned(key, width) && Floor(c.from, width) <= key
      ensures Cell(inside, key) == Raw(t, Clip(c, key, width), asOf)
    {
      FloorUnique(key, at, wide);
      if key < at + wide {
        ClipTwice(w, at, key, width, wide);
        assert Cell(inside, key) == Cell(m, key);
      } else {
        RawOfNothing(t, Clip(c, key, width), asOf);
      }
    }
  }

  lemma InsideMeets(m: Cells, w: Window, width: int, wide: int, at: int)
    requires Aligned(wide, width) && wide > 0 && Keyed(m, w, width) && Aligned(at, wide)
    ensures forall k <- Inside(m, at, wide) :: w.from < at + wide && at < w.to
  {
    hide Aligned, Floor;
    NextAligned(at, wide);
    AlignedFiner(at + wide, wide, width);
    forall k | k in Inside(m, at, wide)
      ensures w.from < at + wide && at < w.to
    {
      Ordered(k, at + wide, width);
    }
  }

  /** Regrouped into wider buckets, each bucket is still the raw aggregate of its part of the window. */
  lemma RegroupKeeps(m: Cells, t: Tables, w: Window, width: int, wide: int, asOf: Option<int>, at: int)
    requires Aligned(wide, width) && wide > 0 && w.from <= w.to
    requires Keyed(m, w, width) && Filled(m, t, w, width, asOf, Floor(w.from, width)) && Aligned(at, wide)
    ensures w.from < at + wide ==> Total(Inside(m, at, wide)) == Raw(t, Clip(w, at, wide), asOf)
    ensures Inside(m, at, wide) != map[] ==> w.from < at + wide && at < w.to
  {
    hide Raw, Total, Keyed, Filled, Aligned;
    var c, inside := Clip(w, at, wide), Inside(m, at, wide);
    InsideFilled(m, t, w, width, wide, asOf, at);
    InsideMeets(m, w, width, wide, at);
    if c.from <= c.to {
      BucketsAddUp(inside, t, c, width, asOf);
    } else {
      TotalOfNothing(inside);
      RawOfNothing(t, c, asOf);
    }
  }
}
