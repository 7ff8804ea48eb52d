/**
 What the aggregate of a raw scan counts, told by the tables alone: the rows of the window by outcome, the
 slots that were missed, and the round trips of the replies.
 */
module RawCounts {
  import opened Common
  import opened Sums
  import opened Buckets
  import opened Histogram
  import opened PingAggregate
  import opened RawAggregate

  // ---------- what is counted ----------

  datatype Kind = Attempted | Failed | Sent | OnTime | Late | Unanswered | InBucket(b: nat)

  // Its timeout is over; without a clock every timeout is.
  predicate Expired(r: Row, asOf: Option<int>) {
    asOf.Some? ==> r.sent + r.timeout / 1000 <= asOf.value
  }

  predicate Is(r: Row, c: Kind, asOf: Option<int>) {
    match c
    case Attempted => true
    case Failed => r.sendError
    case Sent => !r.sendError
    case OnTime => !r.sendError && r.reply.Some? && !r.reply.value.late
    case Late => !r.sendError && r.reply.Some? && r.reply.value.late
    case Unanswered => !r.sendError && r.reply.None? && Expired(r, asOf)
    case InBucket(b) => !r.sendError && r.reply.Some? && Bucket(r.reply.value.rtt) == b
  }

  predicate InWindow(r: Row, w: Window) { r.target == w.target && w.from <= r.scheduled < w.to }

  /** The rows of one outcome that were scheduled in the window. */
  ghost function Those(rows: map<ProbeKey, Row>, w: Window, c: Kind, asOf: Option<int>): set<ProbeKey> {
    set k | k in rows && InWindow(rows[k], w) && Is(rows[k], c, asOf)
  }

  predicate HasTrip(r: Row, w: Window) { InWindow(r, w) && !r.sendError && r.reply.Some? }

  /** The round trips of the replies to the probes scheduled in the window. */
  ghost function Trips(rows: map<ProbeKey, Row>, w: Window): map<ProbeKey, nat> {
    map k | k in rows && HasTrip(rows[k], w) :: rows[k].reply.value.rtt
  }

  /** The missed slots in the window, each by its gap and its number in it. */
  ghost function MissedSlots(gaps: map<nat, Gap>, w: Window): set<(nat, int)> {
    set g, i | g in gaps && 0 <= i < gaps[g].count && gaps[g].target == w.target && gaps[g].step > 0
               && w.from <= gaps[g].first + i * gaps[g].step < w.to :: (g, i)
  }

  datatype Quantity = Rows(c: Kind) | Missing | Replies | Duration

  // What an aggregate says of a quantity.
  function Reading(q: Query, x: Quantity): nat {
    var t := q.agg.tally;
    match x
    case Rows(Attempted) => t.attempted
    case Rows(Failed) => t.sendError
    case Rows(Sent) => t.sent
    case Rows(OnTime) => t.onTime
    case Rows(Late) => t.late
    case Rows(Unanswered) => t.unanswered
    case Rows(InBucket(b)) => At(q.agg.rtts.hist, b)
    case Missing => t.missed
    case Replies => q.agg.rtts.count
    case Duration => q.agg.rtts.sum
  }

  // ---------- readings add up ----------

  lemma ReadingMerges(a: Query, b: Query, x: Quantity)
    requires a.Valid() && b.Valid()
    ensures Reading(Merge(a, b), x) == Reading(a, x) + Reading(b, x)
  {
    hide AddTimeouts, Timeouts.Valid;
  }

  lemma EmptyReads(x: Quantity)
    ensures Reading(EMPTY, x) == 0
  {
  }

  lemma {:induction false} TotalReads<K(!new)>(m: map<K, Query>, x: Quantity, v: map<K, nat>)
    requires AllValid(m) && v.Keys <= m.Keys
    requires forall k <- m :: Reading(m[k], x) == if k in v then v[k] else 0
    ensures Reading(Total(m), x) == SumOf(v)
    decreases |m|
  {
    hide Merge, Reading, SumOf, Query.Valid;
    if m.Keys == {} {
      assert Reading(EMPTY, x) == 0 by { EmptyReads(x); }
      SumEmpty(v);
    } else {
      var k := Pick(m.Keys);
      TotalReads(m - {k}, x, v - {k});
      TotalValid(m - {k});
      ReadingMerges(m[k], Total(m - {k}), x);
      if k in v {
        SumTakes(v, k);
      } else {
        assert v - {k} == v;
      }
    }
  }

  lemma {:induction false} SumOfOnes<K>(v: map<K, nat>)
    requires forall k <- v :: v[k] == 1
    ensures SumOf(v) == |v.Keys|
    decreases |v|
  {
    hide SumOf;
    if v.Keys == {} {
      SumEmpty(v);
    } else {
      var k := Pick(v.Keys);
      SumTakes(v, k);
      assert (v - {k}).Keys == v.Keys - {k};
      SumOfOnes(v - {k});
    }
  }

  lemma RawReads(t: Tables, w: Window, asOf: Option<int>, x: Quantity, rows: map<ProbeKey, nat>, gaps: map<nat, nat>)
    requires rows.Keys <= t.rows.Keys && gaps.Keys <= t.gaps.Keys
    requires forall k <- t.rows :: Reading(OfRow(t.rows[k], w, asOf), x) == if k in rows then rows[k] else 0
    requires forall k <- t.gaps :: Reading(OfGap(t.gaps[k], w), x) == if k in gaps then gaps[k] else 0
    ensures Reading(Raw(t, w, asOf), x) == SumOf(rows) + SumOf(gaps)
  {
    hide Merge, Reading, SumOf, OfRow, OfGap, Query.Valid, Total, AllValid;
    RowPartsValid(t.rows, w, asOf);
    GapPartsValid(t.gaps, w);
    TotalReads(RowParts(t.rows, w, asOf), x, rows);
    TotalReads(GapParts(t.gaps, w), x, gaps);
    RawValid(t, w, asOf);
    ReadingMerges(Total(RowParts(t.rows, w, asOf)), Total(GapParts(t.gaps, w)), x);
  }

  // ---------- rows by outcome ----------

  lemma RowReads(r: Row, w: Window, asOf: Option<int>, c: Kind)
    ensures Reading(OfRow(r, w, asOf), Rows(c)) == if InWindow(r, w) && Is(r, c, asOf) then 1 else 0
  {
    hide Bucket;
  }

  lemma GapReads(g: Gap, w: Window, x: Quantity)
    ensures Reading(OfGap(g, w), x) == if x.Missing? && g.target == w.target then Missed(g, w.from, w.to) else 0
  {
    hide Missed;
  }

  /**
   Each count of a scan is the number of rows of that outcome among those scheduled in the window, and
   each bucket of its histogram that of the replies with such a round trip.
   */
  lemma RawCountsRows(t: Tables, w: Window, asOf: Option<int>, c: Kind)
    ensures Reading(Raw(t, w, asOf), Rows(c)) == |Those(t.rows, w, c, asOf)|
  {
    hide Raw, Reading, OfRow, OfGap, Is, InWindow, Missed;
    var ones: map<ProbeKey, nat> := map k | k in Those(t.rows, w, c, asOf) :: 1;
    forall k | k in t.rows
      ensures Reading(OfRow(t.rows[k], w, asOf), Rows(c)) == if k in ones then 1 else 0
    {
      RowReads(t.rows[k], w, asOf, c);
    }
    forall k | k in t.gaps
      ensures Reading(OfGap(t.gaps[k], w), Rows(c)) == 0
    {
      GapReads(t.gaps[k], w, Rows(c));
    }
    RawReads(t, w, asOf, Rows(c), ones, map[]);
    SumOfOnes(ones);
    assert ones.Keys == Those(t.rows, w, c, asOf);
    SumEmpty<nat>(map[]);
  }

  // ---------- missed slots ----------

  lemma {:induction false} PairUp(k: nat, s: set<int>)
    ensures |set i | i in s :: (k, i)| == |s|
    decreases |s|
  {
    if s == {} {
      assert (set i | i in s :: (k, i)) == {};
    } else {
      var x := Pick(s);
      PairUp(k, s - {x});
      assert (set i | i in s :: (k, i)) == (set i | i in s - {x} :: (k, i)) + {(k, x)};
    }
  }

  lemma OwnSlots(gaps: map<nat, Gap>, w: Window, k: nat, mine: set<int>)
    requires k in gaps
    requires mine == if gaps[k].target == w.target && gaps[k].step > 0 then Slots(gaps[k], w.from, w.to) else {}
    ensures MissedSlots(gaps, w) - MissedSlots(gaps - {k}, w) == set i | i in mine :: (k, i)
    ensures MissedSlots(gaps - {k}, w) <= MissedSlots(gaps, w)
  {
    forall p: (nat, int) | true
      ensures p in MissedSlots(gaps, w) <==> p in MissedSlots(gaps - {k}, w) || (p.0 == k && p.1 in mine)
    {
      var (j, i) := p;
    }
  }

  lemma SlotsOfOne(gaps: map<nat, Gap>, w: Window, k: nat)
    requires k in gaps
    ensures |MissedSlots(gaps, w)| == |MissedSlots(gaps - {k}, w)|
                                      + if gaps[k].target == w.target then Missed(gaps[k], w.from, w.to) else 0
  {
    hide MissedSlots, Slots;
    var mine := if gaps[k].target == w.target && gaps[k].step > 0 then Slots(gaps[k], w.from, w.to) else {};
    var pairs := set i | i in mine :: (k, i);
    PairUp(k, mine);
    OwnSlots(gaps, w, k, mine);
    assert MissedSlots(gaps, w) == MissedSlots(gaps - {k}, w) + pairs;
  }

  lemma {:induction false} SlotPairs(gaps: map<nat, Gap>, w: Window, v: map<nat, nat>)
    requires v.Keys == gaps.Keys
    requires forall k <- gaps :: v[k] == if gaps[k].target == w.target then Missed(gaps[k], w.from, w.to) else 0
    ensures |MissedSlots(gaps, w)| == SumOf(v)
    decreases |gaps|
  {
    hide SumOf;
    if gaps.Keys == {} {
      SumEmpty(v);
      assert MissedSlots(gaps, w) == {};
    } else {
      var k := Pick(gaps.Keys);
      SlotPairs(gaps - {k}, w, v - {k});
      SumTakes(v, k);
      SlotsOfOne(gaps, w, k);
    }
  }

  lemma RowMissesNothing(r: Row, w: Window, asOf: Option<int>)
    ensures Reading(OfRow(r, w, asOf), Missing) == 0
  {
    hide Bucket;
  }

  /** What a scan counts as missed is the number of slots in the window of all the target's gaps. */
  lemma RawCountsMissed(t: Tables, w: Window, asOf: Option<int>)
    ensures Raw(t, w, asOf).agg.tally.missed == |MissedSlots(t.gaps, w)|
  {
    hide Raw, OfRow, OfGap, Missed, MissedSlots;
    var v: map<nat, nat> := map k | k in t.gaps ::
      if t.gaps[k].target == w.target then Missed(t.gaps[k], w.from, w.to) else 0;
    forall k | k in t.gaps
      ensures Reading(OfGap(t.gaps[k], w), Missing) == v[k]
    {
      GapReads(t.gaps[k], w, Missing);
    }
    forall k | k in t.rows
      ensures Reading(OfRow(t.rows[k], w, asOf), Missing) == 0
    {
      RowMissesNothing(t.rows[k], w, asOf);
    }
    RawReads(t, w, asOf, Missing, map[], v);
    SumEmpty<ProbeKey>(map[]);
    SlotPairs(t.gaps, w, v);
  }

  // ---------- round trips ----------

  lemma RowTrip(r: Row, w: Window, asOf: Option<int>)
    ensures var replied := HasTrip(r, w);
      && Reading(OfRow(r, w, asOf), Replies) == (if replied then 1 else 0)
      && Reading(OfRow(r, w, asOf), Duration) == if replied then r.reply.value.rtt else 0
  {
    hide Bucket;
  }

  /** Every reply in the window is counted with its round trip, and nothing else is. */
  lemma RawSumsTrips(t: Tables, w: Window, asOf: Option<int>)
    ensures Raw(t, w, asOf).agg.rtts.count == |Trips(t.rows, w).Keys|
    ensures Raw(t, w, asOf).agg.rtts.sum == SumOf(Trips(t.rows, w))
  {
    hide Raw, OfRow, OfGap, Missed, InWindow, HasTrip;
    var trips := Trips(t.rows, w);
    var ones: map<ProbeKey, nat> := map k | k in trips :: 1;
    forall k | k in t.rows
      ensures Reading(OfRow(t.rows[k], w, asOf), Replies) == if k in ones then 1 else 0
      ensures Reading(OfRow(t.rows[k], w, asOf), Duration) == if k in trips then trips[k] else 0
    {
      RowTrip(t.rows[k], w, asOf);
    }
    forall k | k in t.gaps
      ensures Reading(OfGap(t.gaps[k], w), Replies) == 0 && Reading(OfGap(t.gaps[k], w), Duration) == 0
    {
      GapReads(t.gaps[k], w, Replies);
      GapReads(t.gaps[k], w, Duration);
    }
    RawReads(t, w, asOf, Replies, ones, map[]);
    RawReads(t, w, asOf, Duration, trips, map[]);
    SumEmpty<nat>(map[]);
    SumOfOnes(ones);
    assert ones.Keys == trips.Keys;
  }

  // ---------- ranges ----------

  // The least and the greatest of some numbers; of none, whatever stands for none.
  ghost predicate Extremes(s: set<int>, min: int, max: int) {
    s != {} ==> min in s && max in s && forall x <- s :: min <= x <= max
  }

  // An aggregate has seen these round trips and these positive timeouts.
  ghost predicate Ranges(q: Query, trips: set<int>, timeouts: set<int>) {
    && Extremes(trips, q.agg.rtts.min, q.agg.rtts.max) && (q.agg.rtts.count == 0 <==> trips == {})
    && Extremes(timeouts, q.agg.timeouts.min, q.agg.timeouts.max) && (q.agg.timeouts.min == 0 <==> timeouts == {})
  }

  lemma TripsMerge(a: Rtts, b: Rtts, s: set<int>, s': set<int>)
    requires a.Valid() && b.Valid() && (a.count == 0 <==> s == {}) && (b.count == 0 <==> s' == {})
    requires Extremes(s, a.min, a.max) && Extremes(s', b.min, b.max)
    ensures Extremes(s + s', AddRtts(a, b).min, AddRtts(a, b).max) && AddRtts(a, b).count == a.count + b.count
  {
    hide Merged;
  }

  lemma TimeoutsMerge(a: Timeouts, b: Timeouts, s: set<int>, s': set<int>)
    requires a.Valid() && b.Valid() && (a.min == 0 <==> s == {}) && (b.min == 0 <==> s' == {})
    requires Extremes(s, a.min, a.max) && Extremes(s', b.min, b.max)
    ensures Extremes(s + s', AddTimeouts(a, b).min, AddTimeouts(a, b).max)
    ensures AddTimeouts(a, b).min == 0 <==> a.min == 0 && b.min == 0
  {
  }

  lemma RangesMerge(a: Query, b: Query, s: set<int>, s': set<int>, o: set<int>, o': set<int>)
    requires a.Valid() && b.Valid() && Ranges(a, s, o) && Ranges(b, s', o')
    ensures Ranges(Merge(a, b), s + s', o + o')
  {
    hide Merged;
    TripsMerge(a.agg.rtts, b.agg.rtts, s, s');
    TimeoutsMerge(a.agg.timeouts, b.agg.timeouts, o, o');
    hide AddRtts, AddTimeouts, AddTally, Extremes;
    assert s + s' == {} <==> s == {} && s' == {};
    assert o + o' == {} <==> o == {} && o' == {};
  }

  ghost function TripValues(rows: map<ProbeKey, Row>, w: Window): set<int> {
    set k | k in rows && HasTrip(rows[k], w) :: rows[k].reply.value.rtt as int
  }

  ghost function TimeoutValues(rows: map<ProbeKey, Row>, w: Window): set<int> {
    set k | k in rows && InWindow(rows[k], w) && rows[k].timeout > 0 :: rows[k].timeout
  }

  lemma RowRanges(r: Row, w: Window, asOf: Option<int>, k: ProbeKey)
    ensures Ranges(OfRow(r, w, asOf), TripValues(map[k := r], w), TimeoutValues(map[k := r], w))
  {
    hide Bucket;
    var trips: set<int> := if HasTrip(r, w) then {r.reply.value.rtt} else {};
    var timeouts: set<int> := if InWindow(r, w) && r.timeout > 0 then {r.timeout} else {};
    assert TripValues(map[k := r], w) == trips by { assert k in map[k := r]; }
    assert TimeoutValues(map[k := r], w) == timeouts by { assert k in map[k := r]; }
  }

  lemma ValuesSplit(rows: map<ProbeKey, Row>, w: Window, k: ProbeKey)
    requires k in rows
    ensures TripValues(rows, w) == TripValues(map[k := rows[k]], w) + TripValues(rows - {k}, w)
    ensures TimeoutValues(rows, w) == TimeoutValues(map[k := rows[k]], w) + TimeoutValues(rows - {k}, w)
  {
    hide InWindow;
    var one, rest := map[k := rows[k]], rows - {k};
    forall x | x in TripValues(rows, w)
      ensures x in TripValues(one, w) + TripValues(rest, w)
    {
      var j :| j in rows && HasTrip(rows[j], w) && rows[j].reply.value.rtt == x;
      assert if j == k then j in one && one[j] == rows[j] else j in rest && rest[j] == rows[j];
    }
    forall x | x in TimeoutValues(rows, w)
      ensures x in TimeoutValues(one, w) + TimeoutValues(rest, w)
    {
      var j :| j in rows && InWindow(rows[j], w) && rows[j].timeout == x > 0;
      assert if j == k then j in one && one[j] == rows[j] else j in rest && rest[j] == rows[j];
    }
    assert forall j <- rest :: j in rows && rest[j] == rows[j];
  }

  lemma EachValid<K(!new)>(m: map<K, Query>, k: K)
    requires AllValid(m) && k in m
    ensures m[k].Valid()
  {
  }

  lemma NothingRanges(rows: map<ProbeKey, Row>, w: Window)
    requires rows.Keys == {}
    ensures Ranges(EMPTY, TripValues(rows, w), TimeoutValues(rows, w))
  {
  }

  lemma {:induction false} RowsRange(rows: map<ProbeKey, Row>, w: Window, asOf: Option<int>)
    ensures Ranges(Total(RowParts(rows, w, asOf)), TripValues(rows, w), TimeoutValues(rows, w))
    decreases |rows|
  {
    hide Merge, Ranges, OfRow, Query.Valid, TripValues, TimeoutValues, AllValid;
    var parts := RowParts(rows, w, asOf);
    if rows.Keys == {} {
      NothingRanges(rows, w);
    } else {
      var k := Pick(rows.Keys);
      RowPartsValid(rows, w, asOf);
      RowsRange(rows - {k}, w, asOf);
      assert parts - {k} == RowParts(rows - {k}, w, asOf);
      TotalTakes(parts, k);
      assert AllValid(parts) ==> parts[k].Valid() by { EachValid(parts, k); }
      RowRanges(rows[k], w, asOf, k);
      ValuesSplit(rows, w, k);
      RangesMerge(parts[k], Total(parts - {k}), TripValues(map[k := rows[k]], w), TripValues(rows - {k}, w),
                  TimeoutValues(map[k := rows[k]], w), TimeoutValues(rows - {k}, w));
    }
  }

  lemma NoValues()
    ensures TripValues(map[], Window(0, 0, 0)) == {} && TimeoutValues(map[], Window(0, 0, 0)) == {}
  {
  }

  lemma {:induction false} GapsRange(m: map<nat, Query>)
    requires AllValid(m) && forall k <- m :: Ranges(m[k], {}, {})
    ensures Ranges(Total(m), {}, {})
    decreases |m|
  {
    hide Merge, Ranges, Query.Valid;
    if m.Keys == {} {
      assert Ranges(EMPTY, {}, {}) by { NothingRanges(map[], Window(0, 0, 0)); NoValues(); }
    } else {
      var k := Pick(m.Keys);
      GapsRange(m - {k});
      TotalValid(m - {k});
      RangesMerge(m[k], Total(m - {k}), {}, {}, {}, {});
      var none: set<int> := {};
      assert none + none == none;
    }
  }

  lemma GapRanges(g: Gap, w: Window)
    ensures Ranges(OfGap(g, w), {}, {})
  {
    hide Missed;
  }

  /** The extremes of a scan are those of the replies in its window, and of the timeouts of its probes. */
  lemma RawRanges(t: Tables, w: Window, asOf: Option<int>)
    ensures Ranges(Raw(t, w, asOf), TripValues(t.rows, w), TimeoutValues(t.rows, w))
  {
    hide Merge, Ranges, OfRow, OfGap, Query.Valid, TripValues, TimeoutValues, Total;
    RowsRange(t.rows, w, asOf);
    GapPartsValid(t.gaps, w);
    forall k | k in t.gaps
      ensures Ranges(OfGap(t.gaps[k], w), {}, {})
    {
      GapRanges(t.gaps[k], w);
    }
    GapsRange(GapParts(t.gaps, w));
    RawValid(t, w, asOf);
    RangesMerge(Total(RowParts(t.rows, w, asOf)), Total(GapParts(t.gaps, w)), TripValues(t.rows, w), {},
                TimeoutValues(t.rows, w), {});
    assert TripValues(t.rows, w) + {} == TripValues(t.rows, w);
    assert TimeoutValues(t.rows, w) + {} == TimeoutValues(t.rows, w);
  }

  // ---------- partial scans ----------

  lemma {:induction false} TotalPartial<K(!new)>(m: map<K, Query>)
    ensures Total(m).partial <==> exists k <- m :: m[k].partial
    decreases |m|
  {
    hide AddTally, AddRtts, AddTimeouts;
    if m.Keys != {} {
      var k := Pick(m.Keys);
      TotalPartial(m - {k});
      assert forall j <- m - {k} :: (m - {k})[j] == m[j];
      assert forall j <- m | j != k :: j in m - {k};
    }
  }

  lemma MergesPartial(a: Query, b: Query)
    ensures Merge(a, b).partial <==> a.partial || b.partial
  {
  }

  lemma GapIsWhole(g: Gap, w: Window)
    ensures !OfGap(g, w).partial
  {
    hide Missed;
  }

  lemma RowIsWhole(r: Row, w: Window, asOf: Option<int>)
    ensures OfRow(r, w, asOf).partial <==>
      InWindow(r, w) && Is(r, Sent, asOf) && r.reply.None? && !Expired(r, asOf)
  {
    hide Bucket;
  }

  /** A scan is partial exactly while a probe in its window was sent, is unanswered and has time left. */
  lemma RawPartialIff(t: Tables, w: Window, asOf: Option<int>)
    ensures Raw(t, w, asOf).partial <==>
      exists k <- t.rows ::
        InWindow(t.rows[k], w) && Is(t.rows[k], Sent, asOf) && t.rows[k].reply.None? && !Expired(t.rows[k], asOf)
  {
    hide Merge, Total, OfGap;
    var rows, gaps := RowParts(t.rows, w, asOf), GapParts(t.gaps, w);
    TotalPartial(rows);
    TotalPartial(gaps);
    assert forall k <- gaps :: !gaps[k].partial by {
      forall k | k in gaps
        ensures !gaps[k].partial
      {
        GapIsWhole(t.gaps[k], w);
      }
    }
    forall k | k in rows
      ensures rows[k].partial <==> InWindow(t.rows[k], w) && Is(t.rows[k], Sent, asOf) && t.rows[k].reply.None?
                                   && !Expired(t.rows[k], asOf)
    {
      RowIsWhole(t.rows[k], w, asOf);
    }
    MergesPartial(Total(rows), Total(gaps));
  }
}
