/**
 Ping aggregates: what a set of probes and missed slots adds up to, and how aggregates merge.

 Times are microseconds since the epoch, timeouts and round-trip times nanoseconds.
 */
module PingAggregate {
  import opened Common
  import opened Histogram

  const MAX_INT64: int := 0x7FFF_FFFF_FFFF_FFFF

  // ---------- the rows ----------

  type Nanos = n: nat | n <= MAX_INT64

  datatype Answered = Answered(at: int, rtt: Nanos, late: bool)

  datatype Row = Row(
    target: int, address: nat, scheduled: nat, sent: nat, timeout: nat,
    sendError: bool, reply: Option<Answered>, duplicates: nat)
  {
    // Sent, unanswered, and its timeout not yet over.
    predicate Pending(asOf: int) {
      !sendError && reply.None? && sent + timeout / 1000 > asOf
    }
  }

  // Missed slots: `count` of them, `step` microseconds apart from `first` on.
  datatype Gap = Gap(target: int, first: nat, step: nat, count: nat) {
    function Last(): int { first + (count - 1) * step }
  }

  // ---------- aggregates ----------

  datatype Tally = Tally(
    scheduled: nat, attempted: nat, sent: nat, onTime: nat, late: nat,
    unanswered: nat, sendError: nat, missed: nat)

  // With no reply counted, `min` is the sentinel of an accumulator and `max` is zero.
  datatype Rtts = Rtts(count: nat, sum: nat, min: int, max: int, hist: Counts) {
    ghost predicate Valid() {
      && 0 <= max && min <= MAX_INT64
      && (count == 0 ==> sum == 0 && min == MAX_INT64 && max == 0 && hist == map[])
    }
  }

  // The range of positive timeouts seen; zero for none.
  datatype Timeouts = Timeouts(min: nat, max: nat) {
    ghost predicate Valid() { min <= max && (min == 0 <==> max == 0) }
  }

  datatype Agg = Agg(tally: Tally, rtts: Rtts, timeouts: Timeouts) {
    ghost predicate Valid() { rtts.Valid() && timeouts.Valid() }
  }

  // An aggregate still partial because some probe is pending or a bucket is cut off.
  datatype Query = Query(agg: Agg, partial: bool) {
    ghost predicate Valid() { agg.Valid() }
  }

  const NO_TALLY: Tally := Tally(0, 0, 0, 0, 0, 0, 0, 0)
  const NO_RTTS: Rtts := Rtts(0, 0, MAX_INT64, 0, map[])
  const EMPTY: Query := Query(Agg(NO_TALLY, NO_RTTS, Timeouts(0, 0)), false)

  // ---------- merging ----------

  function AddTally(a: Tally, b: Tally): Tally {
    Tally(a.scheduled + b.scheduled, a.attempted + b.attempted, a.sent + b.sent, a.onTime + b.onTime,
          a.late + b.late, a.unanswered + b.unanswered, a.sendError + b.sendError, a.missed + b.missed)
  }

  // Round-trip times of an aggregate without replies are ignored, whatever it has stored for them.
  function AddRtts(a: Rtts, b: Rtts): Rtts {
    if b.count > 0 then
      Rtts(a.count + b.count, a.sum + b.sum, Min(a.min, b.min), Max(a.max, b.max), Merged(a.hist, b.hist))
    else
      a.(count := a.count + b.count, sum := a.sum + b.sum)
  }

  function ObserveTimeout(t: Timeouts, timeout: nat): Timeouts {
    if timeout <= 0 then t
    else Timeouts(if t.min == 0 || timeout < t.min then timeout else t.min, Max(t.max, timeout))
  }

  function AddTimeouts(a: Timeouts, b: Timeouts): Timeouts {
    ObserveTimeout(ObserveTimeout(a, b.min), b.max)
  }

  function Merge(a: Query, b: Query): Query {
    Query(Agg(AddTally(a.agg.tally, b.agg.tally), AddRtts(a.agg.rtts, b.agg.rtts),
              AddTimeouts(a.agg.timeouts, b.agg.timeouts)),
          a.partial || b.partial)
  }

  lemma MergedCommutes(a: Counts, b: Counts)
    ensures Merged(a, b) == Merged(b, a) && Merged(map[], a) == a && Merged(map[], b) == b
  {
  }

  lemma MergedAssociates(a: Counts, b: Counts, c: Counts)
    ensures Merged(Merged(a, b), c) == Merged(a, Merged(b, c))
  {
    var l, r := Merged(Merged(a, b), c), Merged(a, Merged(b, c));
    assert l.Keys == a.Keys + b.Keys + c.Keys == r.Keys;
    forall k | k in l
      ensures l[k] == r[k]
    {
      assert l[k] == At(a, k) + At(b, k) + At(c, k);
    }
  }

  lemma RttsCommute(a: Rtts, b: Rtts)
    requires a.Valid() && b.Valid()
    ensures AddRtts(a, b).Valid() && AddRtts(a, b) == AddRtts(b, a)
    ensures AddRtts(a, NO_RTTS) == a && AddRtts(NO_RTTS, a) == a
  {
    hide Merged;
    MergedCommutes(a.hist, b.hist);
    MergedNothing(a.hist);
    MergedCommutes(a.hist, map[]);
  }

  // With replies on both sides the fields combine one by one.
  lemma RttsBoth(a: Rtts, b: Rtts)
    requires b.count > 0
    ensures AddRtts(a, b) == Rtts(a.count + b.count, a.sum + b.sum, Min(a.min, b.min), Max(a.max, b.max),
                                  Merged(a.hist, b.hist))
  {
  }

  lemma NoReplies(a: Rtts)
    requires a.Valid() && a.count == 0
    ensures a == NO_RTTS
  {
  }

  // One of the two right operands is without replies.
  lemma RttsAssociateNone(a: Rtts, b: Rtts, c: Rtts)
    requires a.Valid() && b.Valid() && c.Valid() && (b == NO_RTTS || c == NO_RTTS)
    ensures AddRtts(AddRtts(a, b), c) == AddRtts(a, AddRtts(b, c))
  {
    hide AddRtts, Rtts.Valid;
    RttsCommute(a, b);
    RttsCommute(a, c);
    RttsCommute(b, a);
    RttsCommute(c, a);
    RttsCommute(AddRtts(a, b), a);
  }

  lemma RttsAssociateSome(a: Rtts, b: Rtts, c: Rtts)
    requires b.count > 0 && c.count > 0
    ensures AddRtts(AddRtts(a, b), c) == AddRtts(a, AddRtts(b, c))
  {
    hide AddRtts, Merged;
    MergedAssociates(a.hist, b.hist, c.hist);
    RttsBoth(a, b);
    RttsBoth(b, c);
    RttsBoth(AddRtts(a, b), c);
    RttsBoth(a, AddRtts(b, c));
  }

  lemma RttsAssociate(a: Rtts, b: Rtts, c: Rtts)
    requires a.Valid() && b.Valid() && c.Valid()
    ensures AddRtts(AddRtts(a, b), c) == AddRtts(a, AddRtts(b, c))
  {
    hide AddRtts, Rtts.Valid;
    if b.count == 0 {
      NoReplies(b);
      RttsAssociateNone(a, b, c);
    } else if c.count == 0 {
      NoReplies(c);
      RttsAssociateNone(a, b, c);
    } else {
      RttsAssociateSome(a, b, c);
    }
  }

  lemma RttsLaws(a: Rtts, b: Rtts, c: Rtts)
    requires a.Valid() && b.Valid() && c.Valid()
    ensures AddRtts(a, b).Valid() && AddRtts(a, b) == AddRtts(b, a)
    ensures AddRtts(AddRtts(a, b), c) == AddRtts(a, AddRtts(b, c))
    ensures AddRtts(a, NO_RTTS) == a && AddRtts(NO_RTTS, a) == a
  {
    hide AddRtts, Rtts.Valid;
    RttsCommute(a, b);
    RttsAssociate(a, b, c);
  }

  lemma TimeoutsCommute(a: Timeouts, b: Timeouts)
    requires a.Valid() && b.Valid()
    ensures AddTimeouts(a, b).Valid() && AddTimeouts(a, b) == AddTimeouts(b, a)
    ensures AddTimeouts(a, Timeouts(0, 0)) == a && AddTimeouts(Timeouts(0, 0), a) == a
  {
  }

  lemma TimeoutLaws(a: Timeouts, b: Timeouts, c: Timeouts)
    requires a.Valid() && b.Valid() && c.Valid()
    ensures AddTimeouts(a, b).Valid() && AddTimeouts(a, b) == AddTimeouts(b, a)
    ensures AddTimeouts(AddTimeouts(a, b), c) == AddTimeouts(a, AddTimeouts(b, c))
    ensures AddTimeouts(a, Timeouts(0, 0)) == a && AddTimeouts(Timeouts(0, 0), a) == a
  {
    TimeoutsCommute(a, b);
  }

  /** Merging is associative and commutative, and the empty aggregate is its unit. */
  lemma MergeLaws(a: Query, b: Query, c: Query)
    requires a.Valid() && b.Valid() && c.Valid()
    ensures Merge(a, b).Valid() && Merge(a, b) == Merge(b, a)
    ensures Merge(Merge(a, b), c) == Merge(a, Merge(b, c))
    ensures Merge(a, EMPTY) == a && Merge(EMPTY, a) == a
  {
    hide AddRtts, AddTimeouts;
    RttsLaws(a.agg.rtts, b.agg.rtts, c.agg.rtts);
    TimeoutLaws(a.agg.timeouts, b.agg.timeouts, c.agg.timeouts);
  }
}
