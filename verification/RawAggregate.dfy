/**
 The direct reading of the raw tables: the aggregate of every probe and every missed slot of a target
 scheduled within a half-open window.
 */
module RawAggregate {
  import opened Common
  import opened Buckets
  import opened PingAggregate
  import opened TimeGrid

  datatype Tables = Tables(rows: map<ProbeKey, Row>, gaps: map<nat, Gap>)

  datatype Window = Window(target: int, from: int, to: int)

  // ---------- one row ----------

  /** What one probe contributes. Without a clock every missing reply counts as unanswered. */
  function OfProbe(r: Row, asOf: Option<int>): Query {
    var tried := NO_TALLY.(scheduled := 1, attempted := 1);
    var timeouts := Timeouts(r.timeout, r.timeout);
    if r.sendError then Query(Agg(tried.(sendError := 1), NO_RTTS, timeouts), false)
    else
      match r.reply
      case Some(a) =>
        Query(Agg(if a.late then tried.(sent := 1, late := 1) else tried.(sent := 1, onTime := 1),
                  Rtts(1, a.rtt, a.rtt, a.rtt, map[Bucket(a.rtt) := 1]), timeouts), false)
      case None =>
        if asOf.Some? && r.Pending(asOf.value) then Query(Agg(tried.(sent := 1), NO_RTTS, timeouts), true)
        else Query(Agg(tried.(sent := 1, unanswered := 1), NO_RTTS, timeouts), false)
  }

  predicate Covers(w: Window, r: Row) {
    r.target == w.target && w.from <= r.scheduled < w.to
  }

  function OfRow(r: Row, w: Window, asOf: Option<int>): Query {
    if Covers(w, r) then OfProbe(r, asOf) else EMPTY
  }

  // ---------- one gap ----------

  // The integers from a up to but not including b.
  ghost function Range(a: int, b: int): (s: set<int>)
    ensures |s| == Max(0, b - a) && forall i :: i in s <==> a <= i < b
    decreases b - a
  {
    if a >= b then {} else Range(a, b - 1) + {b - 1}
  }

  /** The missed slots of a gap that lie in [from, to), by index. */
  ghost function Slots(g: Gap, from: int, to: int): set<int> {
    set i | i in Range(0, g.count) && from <= g.first + i * g.step < to
  }

  // An interval below a microsecond has no slots in the store.
  ghost function Missed(g: Gap, from: int, to: int): nat {
    if g.step == 0 then 0 else |Slots(g, from, to)|
  }

  function OfMissed(n: nat): Query {
    EMPTY.(agg := EMPTY.agg.(tally := NO_TALLY.(scheduled := n, missed := n)))
  }

  ghost function OfGap(g: Gap, w: Window): Query {
    if g.target == w.target then OfMissed(Missed(g, w.from, w.to)) else EMPTY
  }

  // ---------- totals ----------

  ghost predicate AllValid<K(!new)>(m: map<K, Query>) {
    forall k <- m :: m[k].Valid()
  }

  ghost function Total<K(!new)>(m: map<K, Query>): Query {
    if m.Keys == {} then EMPTY
    else
      var k := Pick(m.Keys);
      Merge(m[k], Total(m - {k}))
  }

  lemma {:induction false} TotalValid<K(!new)>(m: map<K, Query>)
    requires AllValid(m)
    ensures Total(m).Valid()
    decreases |m|
  {
    hide Merge;
    if m.Keys != {} {
      var k := Pick(m.Keys);
      TotalValid(m - {k});
      MergeLaws(m[k], Total(m - {k}), EMPTY);
    }
  }

  lemma {:induction false} TotalTakes<K(!new)>(m: map<K, Query>, k: K)
    requires k in m && AllValid(m)
    ensures Total(m) == Merge(m[k], Total(m - {k}))
    ensures Total(m).Valid() && Total(m - {k}).Valid()
    decreases |m|
  {
    hide Merge, Query.Valid;
    TotalValid(m);
    TotalValid(m - {k});
    var j := Pick(m.Keys);
    if j != k {
      TotalTakes(m - {j}, k);
      TotalTakes(m - {k}, j);
      var rest := m - {j} - {k};
      assert rest == m - {k} - {j};
      TotalValid(rest);
      MergeLaws(m[j], m[k], Total(rest));
      MergeLaws(m[k], m[j], Total(rest));
    }
  }

  lemma TotalAdds<K(!new)>(m: map<K, Query>, k: K, q: Query)
    requires k !in m && AllValid(m) && q.Valid()
    ensures Total(m[k := q]) == Merge(Total(m), q) && Total(m).Valid() && Total(m[k := q]).Valid()
  {
    hide Merge, Total;
    TotalValid(m);
    TotalTakes(m[k := q], k);
    assert m[k := q] - {k} == m;
    MergeLaws(q, Total(m), EMPTY);
  }

  lemma {:induction false} TotalOfNothing<K(!new)>(m: map<K, Query>)
    requires forall k <- m :: m[k] == EMPTY
    ensures Total(m) == EMPTY
    decreases |m|
  {
    hide Merge;
    if m.Keys != {} {
      var k := Pick(m.Keys);
      TotalOfNothing(m - {k});
      MergeLaws(EMPTY, EMPTY, EMPTY);
    }
  }

  lemma EmptyLaws()
    ensures EMPTY.Valid() && Merge(EMPTY, EMPTY) == EMPTY
  {
    MergeLaws(EMPTY, EMPTY, EMPTY);
  }

  lemma Interchange(a: Query, b: Query, c: Query, d: Query)
    requires a.Valid() && b.Valid() && c.Valid() && d.Valid()
    ensures Merge(Merge(a, b), Merge(c, d)) == Merge(Merge(a, c), Merge(b, d))
    ensures Merge(Merge(a, b), Merge(c, d)).Valid()
  {
    hide Merge;
    MergeLaws(a, b, c);
    MergeLaws(c, d, a);
    MergeLaws(b, d, c);
    MergeLaws(b, c, d);
    MergeLaws(c, b, d);
    MergeLaws(a, b, Merge(c, d));
    MergeLaws(a, c, Merge(b, d));
    MergeLaws(Merge(a, b), Merge(c, d), a);
  }

  lemma {:induction false} TotalMerges<K(!new)>(a: map<K, Query>, b: map<K, Query>, m: map<K, Query>)
    requires a.Keys == b.Keys == m.Keys && AllValid(a) && AllValid(b)
    requires forall k <- m :: m[k] == Merge(a[k], b[k])
    ensures Total(m) == Merge(Total(a), Total(b))
    decreases |m|
  {
    hide Merge, Query.Valid;
    if m.Keys == {} {
      EmptyLaws();
    } else {
      var k := Pick(m.Keys);
      TotalMerges(a - {k}, b - {k}, m - {k});
      TotalValid(a - {k});
      TotalValid(b - {k});
      Interchange(a[k], b[k], Total(a - {k}), Total(b - {k}));
    }
  }

  // ---------- slots ----------

  /** Neighbouring windows divide the slots of a gap between them. */
  lemma MissedSplits(g: Gap, from: int, mid: int, to: int)
    requires from <= mid <= to
    ensures Missed(g, from, to) == Missed(g, from, mid) + Missed(g, mid, to)
  {
    var a, b := Slots(g, from, mid), Slots(g, mid, to);
    assert Slots(g, from, to) == a + b && a !! b;
  }

  lemma MissedNothing(g: Gap, from: int, to: int)
    requires from >= to || g.first >= to || g.Last() < from || g.count == 0 || g.step == 0
    ensures Missed(g, from, to) == 0
  {
    forall i | i in Range(0, g.count)
      ensures g.first <= g.first + i * g.step <= g.Last()
    {
      Scales(i, g.count - 1, g.step);
      Scales(0, i, g.step);
    }
    assert g.step > 0 ==> Slots(g, from, to) == {};
  }

  // Division rounding towards zero.
  function Quotient(a: int, b: int): int
    requires b > 0
  {
    if a >= 0 then a / b else -((-a) / b)
  }

  /** The closed form by which the store counts the slots of a gap. */
  function CountPeriodic(first: int, step: int, count: int, from: int, to: int): int {
    if step <= 0 || count <= 0 || from >= to then 0
    else
      var low := if from > first then Quotient(from - first + step - 1, step) else 0;
      var reach := Quotient(to - 1 - first, step);
      var high := if reach >= count then count - 1 else reach;
      var least := if low < 0 then 0 else low;
      if high < least then 0 else high - least + 1
  }

  lemma AtMost(x: int, step: int, i: int)
    requires step > 0
    ensures i * step <= x <==> i <= x / step
  {
    var q := x / step;
    assert q * step <= x < q * step + step;
    if i <= q {
      Scales(i, q, step);
    } else {
      Scales(q + 1, i, step);
      assert (q + 1) * step == q * step + step;
    }
  }

  lemma QuotientSign(x: int, step: int)
    requires step > 0
    ensures x >= 0 ==> Quotient(x, step) == x / step >= 0
    ensures x < 0 ==> x / step < 0
    ensures -step < x < 0 ==> Quotient(x, step) == 0
    ensures x <= -step ==> Quotient(x, step) < 0
  {
    AtMost(x, step, 0);
    AtMost(-x, step, 1);
  }

  // Which indices lie at or after x, and which before it.
  lemma AtLeast(x: int, step: int, i: int)
    requires step > 0 && x >= 0
    ensures x <= i * step <==> (x + step - 1) / step <= i
  {
    var q := (x + step - 1) / step;
    assert x <= q * step < x + step;
    if q <= i {
      Scales(q, i, step);
    } else {
      Scales(i, q - 1, step);
      assert (q - 1) * step == q * step - step;
    }
  }

  // Which indices put a slot into the window.
  lemma SlotWithin(g: Gap, from: int, to: int, low: int, high: int, i: nat)
    requires g.step > 0 && from < to
    requires low == if from > g.first then (from - g.first + g.step - 1) / g.step else 0
    requires high == (to - 1 - g.first) / g.step
    ensures from <= g.first + i * g.step < to <==> low <= i <= high
  {
    AtMost(to - 1 - g.first, g.step, i);
    if from > g.first {
      AtLeast(from - g.first, g.step, i);
    } else {
      Scales(0, i, g.step);
    }
  }

  lemma LowNatural(x: int, step: int)
    requires step > 0
    ensures x > 0 ==> (x + step - 1) / step >= 0
  {
  }

  lemma SlotBounds(g: Gap, from: int, to: int, low: int, high: int)
    requires g.step > 0 && from < to
    requires low == if from > g.first then (from - g.first + g.step - 1) / g.step else 0
    requires high == (to - 1 - g.first) / g.step
    ensures Slots(g, from, to) == Range(low, Min(g.count, high + 1)) && low >= 0
  {
    hide Range;
    forall i: int | i in Range(0, g.count)
      ensures i in Slots(g, from, to) <==> low <= i <= high
    {
      SlotWithin(g, from, to, low, high, i);
    }
    LowNatural(from - g.first, g.step);
  }

  /**
   The closed form is exact unless the gap starts less than one step past the last instant of the
   window: there the division rounds up to zero and a slot outside the window is counted.
   */
  lemma CountPeriodicExactIff(g: Gap, from: int, to: int)
    requires g.step > 0 && g.count > 0 && from < to
    ensures CountPeriodic(g.first, g.step, g.count, from, to) == Missed(g, from, to)
        <==> g.first < to || g.first - (to - 1) >= g.step
  {
    hide Slots, Range;
    var x := to - 1 - g.first;
    var low, high := if from > g.first then (from - g.first + g.step - 1) / g.step else 0, x / g.step;
    SlotBounds(g, from, to, low, high);
    QuotientSign(x, g.step);
    if from > g.first {
      QuotientSign(from - g.first + g.step - 1, g.step);
    }
  }

  lemma CountPeriodicInWindow(g: Gap, from: int, to: int)
    requires g.first < to
    ensures CountPeriodic(g.first, g.step, g.count, from, to) == Missed(g, from, to)
  {
    if g.step > 0 && g.count > 0 && from < to {
      CountPeriodicExactIff(g, from, to);
    } else {
      MissedNothing(g, from, to);
    }
  }

  /** One slot a microsecond after the window ends is counted as inside it. */
  lemma CountPeriodicOvercounts()
    ensures CountPeriodic(10, 5, 1, 0, 10) == 1 && Missed(Gap(0, 10, 5, 1), 0, 10) == 0
  {
    MissedNothing(Gap(0, 10, 5, 1), 0, 10);
  }

  // ---------- the raw reading of a window ----------

  ghost function RowParts(rows: map<ProbeKey, Row>, w: Window, asOf: Option<int>): map<ProbeKey, Query> {
    map k | k in rows :: OfRow(rows[k], w, asOf)
  }

  ghost function GapParts(gaps: map<nat, Gap>, w: Window): map<nat, Query> {
    map k | k in gaps :: OfGap(gaps[k], w)
  }

  /** One scan of the raw tables over the window. */
  ghost function Raw(t: Tables, w: Window, asOf: Option<int>): Query {
    Merge(Total(RowParts(t.rows, w, asOf)), Total(GapParts(t.gaps, w)))
  }

  lemma ProbeValid(r: Row, asOf: Option<int>)
    ensures OfProbe(r, asOf).Valid()
  {
  }

  lemma GapValid(g: Gap, w: Window)
    ensures OfGap(g, w).Valid()
  {
    hide Missed;
  }

  lemma RowPartsValid(rows: map<ProbeKey, Row>, w: Window, asOf: Option<int>)
    ensures AllValid(RowParts(rows, w, asOf))
  {
    hide OfProbe;
    forall k | k in rows
      ensures OfRow(rows[k], w, asOf).Valid()
    {
      ProbeValid(rows[k], asOf);
    }
  }

  lemma GapPartsValid(gaps: map<nat, Gap>, w: Window)
    ensures AllValid(GapParts(gaps, w))
  {
    hide OfGap;
    forall k | k in gaps
      ensures OfGap(gaps[k], w).Valid()
    {
      GapValid(gaps[k], w);
    }
  }

  lemma RawValid(t: Tables, w: Window, asOf: Option<int>)
    ensures Total(RowParts(t.rows, w, asOf)).Valid() && Total(GapParts(t.gaps, w)).Valid()
    ensures Raw(t, w, asOf).Valid()
  {
    hide Merge, Total, Query.Valid, RowParts, GapParts;
    RowPartsValid(t.rows, w, asOf);
    GapPartsValid(t.gaps, w);
    var a, b := Total(RowParts(t.rows, w, asOf)), Total(GapParts(t.gaps, w));
    TotalValid(RowParts(t.rows, w, asOf));
    TotalValid(GapParts(t.gaps, w));
    MergeLaws(a, b, b);
  }

  // The two halves of a window.
  ghost predicate Halves(w: Window, u: Window, v: Window) {
    u.target == v.target == w.target && w.from == u.from <= u.to == v.from <= v.to == w.to
  }

  lemma RowSplits(r: Row, w: Window, u: Window, v: Window, asOf: Option<int>)
    requires Halves(w, u, v)
    ensures OfRow(r, w, asOf) == Merge(OfRow(r, u, asOf), OfRow(r, v, asOf))
  {
    hide Merge, OfProbe, Query.Valid;
    ProbeValid(r, asOf);
    EmptyLaws();
    MergeLaws(OfProbe(r, asOf), EMPTY, EMPTY);
    assert Covers(w, r) <==> Covers(u, r) || Covers(v, r);
  }

  lemma TallyAdds(a: nat, b: nat)
    ensures AddTally(NO_TALLY.(scheduled := a, missed := a), NO_TALLY.(scheduled := b, missed := b))
         == NO_TALLY.(scheduled := a + b, missed := a + b)
  {
  }

  lemma MissedAdds(a: nat, b: nat)
    ensures Merge(OfMissed(a), OfMissed(b)) == OfMissed(a + b)
  {
    hide AddTally, AddRtts, AddTimeouts;
    TallyAdds(a, b);
    RttsLaws(NO_RTTS, NO_RTTS, NO_RTTS);
    TimeoutLaws(Timeouts(0, 0), Timeouts(0, 0), Timeouts(0, 0));
  }

  lemma GapSplits(g: Gap, w: Window, u: Window, v: Window)
    requires Halves(w, u, v)
    ensures OfGap(g, w) == Merge(OfGap(g, u), OfGap(g, v))
  {
    hide Missed, Merge, OfMissed;
    MissedSplits(g, u.from, u.to, v.to);
    MissedAdds(Missed(g, u.from, u.to), Missed(g, v.from, v.to));
    EmptyLaws();
  }

  /** Neighbouring windows divide a scan: nothing is counted twice and nothing is missed. */
  lemma RawSplits(t: Tables, w: Window, u: Window, v: Window, asOf: Option<int>)
    requires Halves(w, u, v)
    ensures Raw(t, w, asOf) == Merge(Raw(t, u, asOf), Raw(t, v, asOf))
  {
    hide Merge, Total, OfRow, OfGap;
    forall k | k in t.rows
      ensures OfRow(t.rows[k], w, asOf) == Merge(OfRow(t.rows[k], u, asOf), OfRow(t.rows[k], v, asOf))
    {
      RowSplits(t.rows[k], w, u, v, asOf);
    }
    forall k | k in t.gaps
      ensures OfGap(t.gaps[k], w) == Merge(OfGap(t.gaps[k], u), OfGap(t.gaps[k], v))
    {
      GapSplits(t.gaps[k], w, u, v);
    }
    RowPartsValid(t.rows, u, asOf);
    RowPartsValid(t.rows, v, asOf);
    GapPartsValid(t.gaps, u);
    GapPartsValid(t.gaps, v);
    TotalMerges(RowParts(t.rows, u, asOf), RowParts(t.rows, v, asOf), RowParts(t.rows, w, asOf));
    TotalMerges(GapParts(t.gaps, u), GapParts(t.gaps, v), GapParts(t.gaps, w));
    RawValid(t, u, asOf);
    RawValid(t, v, asOf);
    Interchange(Total(RowParts(t.rows, u, asOf)), Total(RowParts(t.rows, v, asOf)),
                Total(GapParts(t.gaps, u)), Total(GapParts(t.gaps, v)));
  }

  lemma RawOfNothing(t: Tables, w: Window, asOf: Option<int>)
    requires w.from >= w.to || (t.rows == map[] && t.gaps == map[])
    ensures Raw(t, w, asOf) == EMPTY
  {
    hide Missed, Merge;
    forall k | k in t.gaps
      ensures OfGap(t.gaps[k], w) == EMPTY
    {
      MissedNothing(t.gaps[k], w.from, w.to);
    }
    TotalOfNothing(RowParts(t.rows, w, asOf));
    TotalOfNothing(GapParts(t.gaps, w));
    EmptyLaws();
  }

  // ---------- reading row by row ----------

  lemma RawAddsRow(t: Tables, k: ProbeKey, r: Row, w: Window, asOf: Option<int>)
    requires k !in t.rows
    ensures Raw(t.(rows := t.rows[k := r]), w, asOf) == Merge(Raw(t, w, asOf), OfRow(r, w, asOf))
  {
    hide Merge, Total, OfProbe, Query.Valid, OfGap;
    var parts, gaps := RowParts(t.rows, w, asOf), Total(GapParts(t.gaps, w));
    RowPartsValid(t.rows, w, asOf);
    RawValid(t, w, asOf);
    ProbeValid(r, asOf);
    var q := OfRow(r, w, asOf);
    EmptyLaws();
    TotalAdds(parts, k, q);
    assert RowParts(t.rows[k := r], w, asOf) == parts[k := q];
    MergeLaws(Total(parts), q, gaps);
    MergeLaws(q, gaps, gaps);
    MergeLaws(Total(parts), gaps, q);
  }

  lemma RawAddsGap(t: Tables, k: nat, g: Gap, w: Window, asOf: Option<int>)
    requires k !in t.gaps
    ensures Raw(t.(gaps := t.gaps[k := g]), w, asOf) == Merge(Raw(t, w, asOf), OfGap(g, w))
  {
    hide Merge, Total, OfRow, Query.Valid, OfGap;
    var parts := GapParts(t.gaps, w);
    GapPartsValid(t.gaps, w);
    RawValid(t, w, asOf);
    GapValid(g, w);
    var q := OfGap(g, w);
    TotalAdds(parts, k, q);
    assert GapParts(t.gaps[k := g], w) == parts[k := q];
    MergeLaws(Total(RowParts(t.rows, w, asOf)), Total(parts), q);
  }

  /** With no probe of the window still pending, the clock does not matter. */
  lemma RawSettled(t: Tables, w: Window, now: int)
    requires forall k <- t.rows :: Covers(w, t.rows[k]) ==> !t.rows[k].Pending(now)
    ensures Raw(t, w, Some(now)) == Raw(t, w, None)
  {
    hide Merge, Total, OfGap;
    assert RowParts(t.rows, w, Some(now)) == RowParts(t.rows, w, None);
  }

  // ---------- the timeout range ----------

  // Merging only widens a range of timeouts.
  lemma RangeWidens(a: Timeouts, b: Timeouts)
    requires a.Valid() && b.Valid() && a.min > 0
    ensures 0 < AddTimeouts(a, b).min <= a.min && a.max <= AddTimeouts(a, b).max
  {
  }

  lemma MergeWidens(a: Query, b: Query)
    requires a.Valid() && b.Valid() && a.agg.timeouts.min > 0
    ensures 0 < Merge(a, b).agg.timeouts.min <= a.agg.timeouts.min && a.agg.timeouts.max <= Merge(a, b).agg.timeouts.max
  {
    hide AddTally, AddRtts, AddTimeouts;
    RangeWidens(a.agg.timeouts, b.agg.timeouts);
  }

  /** The timeout range of a scan covers the timeout of every probe in it. */
  lemma TimeoutsCover(t: Tables, w: Window, asOf: Option<int>, k: ProbeKey)
    requires k in t.rows && Covers(w, t.rows[k]) && t.rows[k].timeout > 0
    ensures 0 < Raw(t, w, asOf).agg.timeouts.min <= t.rows[k].timeout <= Raw(t, w, asOf).agg.timeouts.max
  {
    hide Merge, Total, Query.Valid, OfGap, AllValid;
    var rows, gaps := RowParts(t.rows, w, asOf), Total(GapParts(t.gaps, w));
    RowPartsValid(t.rows, w, asOf);
    ProbeValid(t.rows[k], asOf);
    TotalTakes(rows, k);
    MergeWidens(rows[k], Total(rows - {k}));
    RawValid(t, w, asOf);
    MergeWidens(Total(rows), gaps);
  }

  // ---------- aggregates that agree ----------

  lemma {:induction false} TotalOfPart<K(!new)>(a: map<K, Query>, b: map<K, Query>, more: set<K>)
    requires AllValid(b) && b.Keys == a.Keys + more && a.Keys !! more
    requires (forall k <- a :: a[k] == b[k]) && forall k <- more :: b[k] == EMPTY
    ensures Total(a) == Total(b)
    decreases more
  {
    hide Merge, Total, Query.Valid;
    if more == {} {
      assert a == b;
    } else {
      var k := Pick(more);
      TotalOfPart(a, b - {k}, more - {k});
      TotalTakes(b, k);
      MergeLaws(Total(b - {k}), EMPTY, EMPTY) by { EmptyLaws(); }
    }
  }

  // Tables of which the one holds whatever counts in a window of the other have the same aggregate.
  lemma SameAggregate(t: Tables, u: Tables, w: Window, asOf: Option<int>)
    requires t.rows.Keys <= u.rows.Keys && t.gaps.Keys <= u.gaps.Keys
    requires forall k <- u.rows ::
      if k in t.rows then OfRow(t.rows[k], w, asOf) == OfRow(u.rows[k], w, asOf) else !Covers(w, u.rows[k])
    requires forall k <- u.gaps ::
      if k in t.gaps then t.gaps[k] == u.gaps[k]
      else !(u.gaps[k].target == w.target && Missed(u.gaps[k], w.from, w.to) > 0)
    ensures Raw(t, w, asOf) == Raw(u, w, asOf)
  {
    hide Merge, Total, Missed, AllValid, OfProbe, Covers;
    RowPartsValid(u.rows, w, asOf);
    GapPartsValid(u.gaps, w);
    TotalOfPart(RowParts(t.rows, w, asOf), RowParts(u.rows, w, asOf), u.rows.Keys - t.rows.Keys);
    TotalOfPart(GapParts(t.gaps, w), GapParts(u.gaps, w), u.gaps.Keys - t.gaps.Keys);
  }
}
