/**
 The late flag of a chart bucket, as far down as the rows: the histogram, the late count and the timeout
 range of a raw scan are those of the replies in it, so a flagged bin of the bucket holds late rows only.
 */
module BucketFlags {
  import opened Common
  import opened Buckets
  import opened Histogram
  import opened TailFlags
  import opened PingAggregate
  import opened RawAggregate

  predicate Replied(r: Row, w: Window) {
    Covers(w, r) && !r.sendError && r.reply.Some?
  }

  function AnswerOf(r: Row): Answer
    requires r.reply.Some?
  {
    Answer(r.reply.value.rtt, r.timeout)
  }

  /** The stored class of a reply is that of its round-trip time against the timeout of its own probe. */
  ghost predicate Truthful(rows: map<ProbeKey, Row>) {
    forall k <- rows :: rows[k].reply.Some? ==> (rows[k].reply.value.late <==> AnswerOf(rows[k]).Late())
  }

  // The replies are those of the rows in the window.
  ghost predicate RepliesOf(rs: seq<Answer>, rows: map<ProbeKey, Row>, w: Window) {
    && (forall k <- rows :: Replied(rows[k], w) ==> AnswerOf(rows[k]) in rs)
    && (forall r <- rs :: exists k :: k in rows && Replied(rows[k], w) && AnswerOf(rows[k]) == r)
  }

  // An aggregate has observed exactly these replies.
  ghost predicate Holds(q: Query, rs: seq<Answer>) {
    q.agg.rtts.hist == Observed(rs) && q.agg.tally.late == CountLate(rs)
  }

  lemma {:induction false} CountLateAdds(rs: seq<Answer>, ss: seq<Answer>)
    ensures CountLate(rs + ss) == CountLate(rs) + CountLate(ss)
    decreases |ss|
  {
    if ss == [] {
      assert rs + ss == rs;
    } else {
      assert (rs + ss)[..|rs + ss| - 1] == rs + ss[..|ss| - 1];
      CountLateAdds(rs, ss[..|ss| - 1]);
    }
  }

  lemma ObservedOne(r: Answer)
    ensures Observed([r]) == map[Bucket(r.rtt) := 1] && Observed([]) == map[]
    ensures CountLate([r]) == (if r.Late() then 1 else 0) && CountLate([]) == 0
  {
    hide Bucket;
    assert [r][..0] == [];
    assert Observed([]) == map[];
  }

  lemma HoldsBoth(a: Query, b: Query, rs: seq<Answer>, ss: seq<Answer>)
    requires a.Valid() && b.Valid() && Holds(a, rs) && Holds(b, ss)
    ensures Holds(Merge(a, b), rs + ss)
  {
    hide Observed, CountLate, Merged, AddTimeouts;
    MergeObservesBoth(rs, ss);
    CountLateAdds(rs, ss);
    MergedNothing(a.agg.rtts.hist);
  }

  lemma RowHolds(r: Row, w: Window, asOf: Option<int>)
    requires r.reply.Some? ==> (r.reply.value.late <==> AnswerOf(r).Late())
    ensures Holds(OfRow(r, w, asOf), if Replied(r, w) then [AnswerOf(r)] else [])
  {
    hide Observed, CountLate, Bucket;
    ObservedOne(if r.reply.Some? then AnswerOf(r) else Answer(0, 0));
  }

  lemma NothingHolds()
    ensures Holds(EMPTY, [])
  {
    ObservedOne(Answer(0, 0));
  }

  lemma RepliesMore(rows: map<ProbeKey, Row>, rest: map<ProbeKey, Row>, k: ProbeKey, w: Window, one: seq<Answer>,
                    ss: seq<Answer>)
    requires k in rows && rest == rows - {k} && RepliesOf(ss, rest, w)
    requires one == if Replied(rows[k], w) then [AnswerOf(rows[k])] else []
    ensures RepliesOf(one + ss, rows, w)
  {
    forall r | r in one + ss
      ensures exists j :: j in rows && Replied(rows[j], w) && AnswerOf(rows[j]) == r
    {
      if r in ss {
        var j :| j in rest && Replied(rest[j], w) && AnswerOf(rest[j]) == r;
        assert j in rows && rows[j] == rest[j];
      } else {
        assert k in rows && Replied(rows[k], w);
      }
    }
    forall j | j in rows && Replied(rows[j], w)
      ensures AnswerOf(rows[j]) in one + ss
    {
      if j != k {
        assert j in rest && rest[j] == rows[j];
      }
    }
  }

  lemma {:induction false} RowsHold(rows: map<ProbeKey, Row>, w: Window, asOf: Option<int>) returns (rs: seq<Answer>)
    requires Truthful(rows)
    ensures Holds(Total(RowParts(rows, w, asOf)), rs) && RepliesOf(rs, rows, w)
    decreases |rows|
  {
    hide Holds, Merge, OfRow, Query.Valid, Total;
    var parts := RowParts(rows, w, asOf);
    if rows.Keys == {} {
      rs := [];
      TotalOfNothing(parts);
      assert Holds(EMPTY, []) by { NothingHolds(); }
    } else {
      var k := Pick(rows.Keys);
      var rest := rows - {k};
      assert rest.Keys == rows.Keys - {k} && rows == rest[k := rows[k]];
      var ss := RowsHold(rest, w, asOf);
      RowPartsValid(rows, w, asOf);
      assert parts - {k} == RowParts(rest, w, asOf);
      TotalTakes(parts, k);
      RowHolds(rows[k], w, asOf);
      var one := if Replied(rows[k], w) then [AnswerOf(rows[k])] else [];
      HoldsBoth(parts[k], Total(parts - {k}), one, ss);
      rs := one + ss;
      RepliesMore(rows, rest, k, w, one, ss);
    }
  }

  lemma {:induction false} GapsHoldNothing(m: map<nat, Query>)
    requires AllValid(m) && forall k <- m :: Holds(m[k], [])
    ensures Holds(Total(m), []) && Total(m).Valid()
    decreases |m|
  {
    hide Holds, Merge, Query.Valid;
    TotalValid(m);
    if m.Keys == {} {
      NothingHolds();
    } else {
      var k := Pick(m.Keys);
      GapsHoldNothing(m - {k});
      HoldsBoth(m[k], Total(m - {k}), [], []);
      var none: seq<Answer> := [];
      assert none + [] == [];
    }
  }

  lemma GapHoldsNothing(g: Gap, w: Window)
    ensures Holds(OfGap(g, w), [])
  {
    hide Missed;
    ObservedOne(Answer(0, 0));
  }

  /** A raw scan has observed exactly the replies of the rows in its window, each with its own timeout. */
  lemma RawHolds(t: Tables, w: Window, asOf: Option<int>) returns (rs: seq<Answer>)
    requires Truthful(t.rows)
    ensures Holds(Raw(t, w, asOf), rs) && RepliesOf(rs, t.rows, w)
  {
    hide Holds, Merge, OfGap, Total, Truthful, RepliesOf;
    rs := RowsHold(t.rows, w, asOf);
    GapPartsValid(t.gaps, w);
    forall k | k in t.gaps
      ensures Holds(OfGap(t.gaps[k], w), [])
    {
      GapHoldsNothing(t.gaps[k], w);
    }
    GapsHoldNothing(GapParts(t.gaps, w));
    RawValid(t, w, asOf);
    HoldsBoth(Total(RowParts(t.rows, w, asOf)), Total(GapParts(t.gaps, w)), rs, []);
    assert rs + [] == rs;
  }

  /**
   In a bucket aggregated from the raw rows, whatever its timeouts, every reply in a bin that is flagged
   came later than the timeout of its own probe.
   */
  lemma FlaggedRowsAreLate(t: Tables, w: Window, asOf: Option<int>, ks: seq<nat>, bins: seq<Bin>, binValue: nat -> nat,
                           n: nat, k: ProbeKey)
    requires Truthful(t.rows) && forall j <- t.rows :: t.rows[j].timeout > 0
    requires Lists(ks, Raw(t, w, asOf).agg.rtts.hist) && n < |bins| <= |ks|
    requires forall j | 0 <= j < |bins| :: bins[j] == BinAt(Raw(t, w, asOf).agg.rtts.hist, ks[|ks| - 1 - j], binValue)
    requires var a := Raw(t, w, asOf).agg; Flagged(bins, a.tally.late, a.timeouts.min, a.timeouts.max, n)
    requires k in t.rows && Replied(t.rows[k], w) && Bucket(t.rows[k].reply.value.rtt) == ks[|ks| - 1 - n]
    ensures t.rows[k].reply.value.late
  {
    hide Raw, Bucket, BinAt, Observed, CountLate, Flagged, Lists;
    var q := Raw(t, w, asOf);
    var rs := RawHolds(t, w, asOf);
    forall r | r in rs
      ensures 0 < q.agg.timeouts.min <= r.timeout <= q.agg.timeouts.max
    {
      var j :| j in t.rows && Replied(t.rows[j], w) && AnswerOf(t.rows[j]) == r;
      TimeoutsCover(t, w, asOf, j);
    }
    var i :| 0 <= i < |rs| && rs[i] == AnswerOf(t.rows[k]);
    FlagNeverOverclaims(rs, ks, bins, binValue, q.agg.timeouts.min, q.agg.timeouts.max, n, i);
  }
}
