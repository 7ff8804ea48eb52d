/** The route-change detector of one target: a baseline, and at most one candidate seen once. */
module RouteChanges {
  import opened Common
  import opened Routes

  datatype Trace = Trace(
    id: nat, endpoint: int, probeMethod: string, flow: string, started: int, ended: int,
    completed: bool, signature: Option<Signature>, reached: int)

  datatype Seen = Seen(id: nat, signature: Signature, reached: int, started: int)

  /** The stored row; the baseline signature may be missing in rows of old databases. */
  datatype Route = Route(
    endpoint: int, current: nat, signature: Option<Signature>, reached: int, probeMethod: string, flow: string,
    candidate: Option<Seen>, consecutive: nat)

  datatype Change = Change(
    endpoint: int, before: nat, candidate: nat, confirming: nat, oldSignature: Signature, newSignature: Signature,
    firstSeen: int, confirmed: int, oldReached: int, newReached: int)

  predicate Eligible(t: Trace) { t.completed && t.signature.Some? }

  // The trace is of the same endpoint, method and flow as the baseline.
  predicate Comparable(r: Route, t: Trace) {
    r.signature.Some? && r.endpoint == t.endpoint && r.probeMethod == t.probeMethod && r.flow == t.flow
  }

  /** The trace took another route than the baseline. */
  ghost predicate Suspect(r: Route, t: Trace) {
    && Eligible(t) && Comparable(r, t)
    && (t.reached != r.reached || Differ(r.signature.value, t.signature.value))
  }

  // Two traces that agree on where they went.
  predicate Agree(s: Seen, t: Trace) {
    t.signature == Some(s.signature) && s.reached == t.reached
  }

  function Baseline(t: Trace): Route {
    Route(t.endpoint, t.id, t.signature, t.reached, t.probeMethod, t.flow, None, 0)
  }

  function Cleared(r: Route): Route { r.(candidate := None, consecutive := 0) }

  function SeenIn(t: Trace): Seen
    requires t.signature.Some?
  {
    Seen(t.id, t.signature.value, t.reached, t.started)
  }

  ghost function Update(row: Option<Route>, t: Trace): (Option<Route>, Option<Change>) {
    if !Eligible(t) then (row, None)
    else if row.None? then (Some(Baseline(t)), None)
    else
      var r := row.value;
      if !Comparable(r, t) then (Some(Baseline(t)), None)
      else if t.signature == r.signature && t.reached == r.reached then (Some(Cleared(r)), None)
      else if t.reached == r.reached && !Differ(r.signature.value, t.signature.value) then (Some(Cleared(r)), None)
      else if r.candidate.None? || !Agree(r.candidate.value, t) then
        (Some(r.(candidate := Some(SeenIn(t)), consecutive := 1)), None)
      else if r.consecutive + 1 < 2 then (Some(r.(consecutive := r.consecutive + 1)), None)
      else
        (Some(Baseline(t)),
         Some(Change(t.endpoint, r.current, r.candidate.value.id, t.id, r.signature.value, t.signature.value,
                     r.candidate.value.started, t.ended, r.reached, t.reached)))
  }

  ghost function After(ts: seq<Trace>): Option<Route> {
    if ts == [] then None else Update(After(ts[..|ts| - 1]), ts[|ts| - 1]).0
  }

  // The change written when trace i arrives.
  ghost function Written(ts: seq<Trace>, i: nat): Option<Change>
    requires i < |ts|
  {
    Update(After(ts[..i]), ts[i]).1
  }

  // Trace j is the last eligible one of the run.
  ghost predicate LastEligible(ts: seq<Trace>, j: int) {
    0 <= j < |ts| && Eligible(ts[j]) && forall k | j < k < |ts| :: !Eligible(ts[k])
  }

  /** The candidate is the last eligible trace, exactly if that took another route than the baseline. */
  ghost predicate Tracks(ts: seq<Trace>, row: Option<Route>) {
    && (row.None? <==> forall k | 0 <= k < |ts| :: !Eligible(ts[k]))
    && (row.Some? ==>
        && row.value.signature.Some?
        && (row.value.consecutive == if row.value.candidate.Some? then 1 else 0)
        && (forall j :: LastEligible(ts, j) ==>
              && ts[j].signature.Some?
              && (row.value.candidate.Some? <==> Suspect(row.value, ts[j]))
              && (row.value.candidate.Some? ==> row.value.candidate.value == SeenIn(ts[j]))))
  }

  ghost predicate Canonicals(ts: seq<Trace>) {
    forall t <- ts :: t.signature.Some? ==> Canonical(t.signature.value)
  }

  lemma NoSelfSuspect(t: Trace)
    requires Eligible(t) && Canonical(t.signature.value)
    ensures !Suspect(Baseline(t), t)
  {
    NotItself(t.signature.value);
  }

  lemma LastOf(ts: seq<Trace>, t: Trace, j: int)
    ensures LastEligible(ts + [t], j) <==> if Eligible(t) then j == |ts| else LastEligible(ts, j)
  {
    var more := ts + [t];
    assert more[|ts|] == t;
    if Eligible(t) {
    } else if LastEligible(ts, j) {
      assert more[j] == ts[j];
      forall k | j < k < |more|
        ensures !Eligible(more[k])
      {
        if k < |ts| {
          assert more[k] == ts[k];
        }
      }
    } else if LastEligible(more, j) {
      assert j < |ts| && more[j] == ts[j];
      forall k | j < k < |ts|
        ensures !Eligible(ts[k])
      {
        assert more[k] == ts[k];
      }
    }
  }

  lemma TracksNext(ts: seq<Trace>, t: Trace)
    requires Tracks(ts, After(ts)) && (Eligible(t) ==> !Suspect(Baseline(t), t))
    ensures Tracks(ts + [t], Update(After(ts), t).0)
  {
    hide Differ, Canonical;
    var row, next := After(ts), Update(After(ts), t).0;
    var more := ts + [t];
    assert more[|ts|] == t && forall k | 0 <= k < |ts| :: more[k] == ts[k];
    forall j
      ensures LastEligible(more, j) <==> if Eligible(t) then j == |ts| else LastEligible(ts, j)
    {
      LastOf(ts, t, j);
    }
    if Eligible(t) {
      assert next.Some? && next.value.signature.Some?;
      assert next.value.candidate.Some? <==> Suspect(next.value, t);
    }
  }

  lemma {:induction false} RunTracks(ts: seq<Trace>)
    requires Canonicals(ts)
    ensures Tracks(ts, After(ts))
  {
    hide Differ, Canonical;
    if ts != [] {
      var before, t := ts[..|ts| - 1], ts[|ts| - 1];
      assert ts == before + [t];
      RunTracks(before);
      if Eligible(t) {
        assert t in ts;
        NoSelfSuspect(t);
      }
      TracksNext(before, t);
    }
  }

  // ---------- what a change means ----------

  /** Traces j and i agree, both took another route than the baseline, and nothing eligible lies between. */
  ghost predicate Confirms(ts: seq<Trace>, j: int, i: nat)
    requires i < |ts|
  {
    && LastEligible(ts[..i], j) && After(ts[..i]).Some?
    && Suspect(After(ts[..i]).value, ts[j]) && Suspect(After(ts[..i]).value, ts[i])
    && ts[j].signature == ts[i].signature && ts[j].reached == ts[i].reached
  }

  /** What the change of trace i, first seen in trace j, records. */
  ghost predicate Records(c: Change, r: Route, seen: Trace, t: Trace) {
    && c.before == r.current && r.signature == Some(c.oldSignature) && c.oldReached == r.reached
    && c.candidate == seen.id && c.firstSeen == seen.started
    && c.confirming == t.id && c.confirmed == t.ended && c.endpoint == t.endpoint == r.endpoint
    && t.signature == Some(c.newSignature) && c.newReached == t.reached
  }

  lemma {:induction false} LastExists(ts: seq<Trace>)
    ensures (exists k | 0 <= k < |ts| :: Eligible(ts[k])) ==> exists j :: LastEligible(ts, j)
    decreases |ts|
  {
    if ts != [] {
      var before, t := ts[..|ts| - 1], ts[|ts| - 1];
      assert ts == before + [t];
      LastExists(before);
      forall j
        ensures LastEligible(ts, j) <==> if Eligible(t) then j == |before| else LastEligible(before, j)
      {
        LastOf(before, t, j);
      }
      assert forall k | 0 <= k < |before| :: ts[k] == before[k];
      assert Eligible(t) ==> LastEligible(ts, |before|);
    }
  }

  // A change with the old route of the row, the candidate's trace, and the new route of the trace.
  ghost predicate Drawn(c: Change, r: Route, t: Trace) {
    && t.signature.Some? && r.signature.Some? && r.candidate.Some?
    && c == Change(t.endpoint, r.current, r.candidate.value.id, t.id, r.signature.value, t.signature.value,
                   r.candidate.value.started, t.ended, r.reached, t.reached)
  }

  // A trace writes a change exactly if the candidate is there, agrees with it, and it is suspect itself.
  lemma UpdateWrites(row: Option<Route>, t: Trace)
    requires row.Some? ==> row.value.consecutive == if row.value.candidate.Some? then 1 else 0
    requires t.signature.Some? ==> Canonical(t.signature.value)
    ensures Update(row, t).1.Some?
       <==> row.Some? && Suspect(row.value, t) && row.value.candidate.Some? && Agree(row.value.candidate.value, t)
    ensures Update(row, t).1.Some? ==> Drawn(Update(row, t).1.value, row.value, t)
  {
    if t.signature.Some? {
      NotItself(t.signature.value);
    }
    hide Differ, Canonical;
  }

  /**
   A change is written exactly when two consecutive eligible traces agree on a route that differs
   meaningfully from the baseline they are comparable with; it records that route, the baseline and
   both traces.
   */
  lemma ChangeIffConfirmed(ts: seq<Trace>, i: nat)
    requires Canonicals(ts) && i < |ts|
    ensures Written(ts, i).Some? <==> exists j :: Confirms(ts, j, i)
    ensures forall j | Confirms(ts, j, i) ::
      Written(ts, i).Some? && Records(Written(ts, i).value, After(ts[..i]).value, ts[j], ts[i])
  {
    hide Differ, Canonical, Update;
    var before, row, t := ts[..i], After(ts[..i]), ts[i];
    assert Canonicals(before) && (t.signature.Some? ==> Canonical(t.signature.value)) by {
      assert t in ts;
    }
    RunTracks(before);
    UpdateWrites(row, t);
    LastExists(before);
    if Written(ts, i).Some? {
      assert exists k | 0 <= k < |before| :: Eligible(before[k]);
      var j :| LastEligible(before, j);
      assert before[j] == ts[j];
      assert Confirms(ts, j, i);
    }
    forall j | Confirms(ts, j, i)
      ensures Written(ts, i).Some? && Records(Written(ts, i).value, row.value, ts[j], t)
    {
      assert before[j] == ts[j];
    }
  }

  // ---------- the baseline ----------

  predicate SameFlow(s: Trace, t: Trace) {
    s.endpoint == t.endpoint && s.probeMethod == t.probeMethod && s.flow == t.flow
  }

  /**
   Trace i starts over: the first eligible one, the first after endpoint, method or flow changed, or the one
   that confirms a change.
   */
  ghost predicate Resets(ts: seq<Trace>, i: nat)
    requires i < |ts|
  {
    && Eligible(ts[i])
    && ((forall k | 0 <= k < i :: !Eligible(ts[k]))
        || (exists j :: LastEligible(ts[..i], j) && !SameFlow(ts[j], ts[i]))
        || Written(ts, i).Some?)
  }

  ghost predicate LastReset(ts: seq<Trace>, b: nat) {
    b < |ts| && Resets(ts, b) && forall k | b < k < |ts| :: !Resets(ts, k)
  }

  // The baseline of the row is this trace.
  predicate IsBaseline(r: Route, t: Trace) {
    && r.current == t.id && r.signature == t.signature && r.reached == t.reached
    && r.endpoint == t.endpoint && r.probeMethod == t.probeMethod && r.flow == t.flow
  }

  ghost predicate Based(ts: seq<Trace>, row: Option<Route>) {
    row.Some? ==>
      && (exists b: nat :: LastReset(ts, b))
      && (forall b: nat :: LastReset(ts, b) ==> IsBaseline(row.value, ts[b]))
      && (forall j :: LastEligible(ts, j) ==>
            && row.value.endpoint == ts[j].endpoint && row.value.probeMethod == ts[j].probeMethod
            && row.value.flow == ts[j].flow)
  }

  lemma ResetsStay(ts: seq<Trace>, t: Trace, i: nat)
    requires i < |ts|
    ensures Resets(ts + [t], i) <==> Resets(ts, i)
  {
    assert (ts + [t])[..i] == ts[..i];
  }

  // Only the candidate differs.
  predicate SameBaseline(r: Route, r': Route) {
    r' == r.(candidate := r'.candidate, consecutive := r'.consecutive)
  }

  // A trace becomes the baseline, or leaves it alone.
  lemma UpdateBases(row: Option<Route>, t: Trace)
    ensures var (next, change) := Update(row, t);
      if Eligible(t) && (row.None? || !Comparable(row.value, t) || change.Some?) then next == Some(Baseline(t))
      else if row.None? then next.None?
      else next.Some? && SameBaseline(row.value, next.value)
  {
    hide Differ;
  }

  lemma FlowBreaks(ts: seq<Trace>, row: Option<Route>, t: Trace)
    requires Tracks(ts, row) && Based(ts, row)
    ensures row.None? <==> forall k | 0 <= k < |ts| :: !Eligible(ts[k])
    ensures row.Some? ==> ((exists j :: LastEligible(ts, j) && !SameFlow(ts[j], t)) <==> !Comparable(row.value, t))
    ensures row.None? ==> forall j :: !LastEligible(ts, j)
  {
    hide Suspect, Resets, LastReset, IsBaseline;
    LastExists(ts);
    if row.Some? {
      var j :| LastEligible(ts, j);
      assert SameFlow(ts[j], t) <==> Comparable(row.value, t);
    }
  }

  lemma LastWithin(ts: seq<Trace>)
    ensures forall j :: LastEligible(ts, j) ==> 0 <= j < |ts|
  {
  }

  // The new trace starts over exactly if it becomes the baseline.
  lemma ResetsNext(ts: seq<Trace>, t: Trace)
    requires Tracks(ts, After(ts)) && Based(ts, After(ts))
    ensures var row := After(ts);
      Resets(ts + [t], |ts|) <==>
        Eligible(t) && (row.None? || !Comparable(row.value, t) || Update(row, t).1.Some?)
  {
    hide Update, Tracks, Based, LastEligible, SameFlow, Comparable, After;
    var more, row := ts + [t], After(ts);
    assert more[..|ts|] == ts && more[|ts|] == t;
    assert forall k | 0 <= k < |ts| :: more[k] == ts[k];
    FlowBreaks(ts, row, t);
    LastWithin(ts);
  }

  lemma LastResetNext(ts: seq<Trace>, t: Trace, b: nat)
    ensures LastReset(ts + [t], b) <==> if Resets(ts + [t], |ts|) then b == |ts| else LastReset(ts, b)
  {
    hide Resets;
    forall i: nat | i < |ts|
      ensures Resets(ts + [t], i) <==> Resets(ts, i)
    {
      ResetsStay(ts, t, i);
    }
  }

  lemma BasedMore(ts: seq<Trace>, t: Trace, row: Option<Route>, next: Option<Route>)
    requires Based(ts, row)
    requires if Resets(ts + [t], |ts|) then next == Some(Baseline(t))
             else if row.None? then next.None?
             else next.Some? && SameBaseline(row.value, next.value) && (Eligible(t) ==> Comparable(row.value, t))
    requires forall b: nat :: LastReset(ts + [t], b) <==> if Resets(ts + [t], |ts|) then b == |ts| else LastReset(ts, b)
    requires forall j :: LastEligible(ts + [t], j) <==> if Eligible(t) then j == |ts| else LastEligible(ts, j)
    requires Resets(ts + [t], |ts|) ==> Eligible(t)
    ensures Based(ts + [t], next)
  {
    hide Resets;
    var more := ts + [t];
    assert more[|ts|] == t && forall k | 0 <= k < |ts| :: more[k] == ts[k];
    if next.Some? {
      if Resets(more, |ts|) {
        assert LastReset(more, |ts|);
      } else {
        var b: nat :| LastReset(ts, b);
        assert LastReset(more, b);
      }
    }
  }

  lemma BasedNext(ts: seq<Trace>, t: Trace)
    requires Tracks(ts, After(ts)) && Based(ts, After(ts))
    ensures Based(ts + [t], Update(After(ts), t).0)
  {
    var more, row, next := ts + [t], After(ts), Update(After(ts), t).0;
    UpdateBases(row, t);
    ResetsNext(ts, t);
    hide Update, Resets, LastReset, LastEligible, Tracks, After;
    assert more[|ts|] == t;
    forall b: nat
      ensures LastReset(more, b) <==> if Resets(more, |ts|) then b == |ts| else LastReset(ts, b)
    {
      LastResetNext(ts, t, b);
    }
    forall j
      ensures LastEligible(more, j) <==> if Eligible(t) then j == |ts| else LastEligible(ts, j)
    {
      LastOf(ts, t, j);
    }
    BasedMore(ts, t, row, next);
  }

  lemma NothingBased()
    ensures Based([], None)
  {
  }

  lemma {:induction false} RunBased(ts: seq<Trace>)
    requires Canonicals(ts)
    ensures Based(ts, After(ts))
  {
    hide Update, Based, Tracks;
    if ts == [] {
      assert Based(ts, None) by { NothingBased(); }
    } else {
      var before, t := ts[..|ts| - 1], ts[|ts| - 1];
      assert ts == before + [t];
      RunTracks(before);
      RunBased(before);
      BasedNext(before, t);
    }
  }

  /**
   The baseline of a run is the trace that last started over: the first eligible one, the first one of another
   endpoint, method or flow than the eligible one before it, or the one that confirmed the last change.
   */
  lemma BaselineIsLastReset(ts: seq<Trace>)
    requires Canonicals(ts) && After(ts).Some?
    ensures exists b: nat :: LastReset(ts, b) && IsBaseline(After(ts).value, ts[b])
  {
    hide After, Resets;
    RunBased(ts);
  }

  /** A trace that did not complete, or found no hop, neither counts nor stands between two that do. */
  lemma UnfinishedIsIgnored(ts: seq<Trace>, t: Trace)
    requires !t.completed || t.signature.None?
    ensures After(ts + [t]) == After(ts) && Written(ts + [t], |ts|) == None
  {
    assert (ts + [t])[..|ts|] == ts;
  }

  /** After a first trace, one that goes elsewhere changes nothing; the next one that agrees with it does. */
  lemma SecondOneConfirms(a: Trace, b: Trace, c: Trace)
    requires a.completed && b.completed && c.completed && a.signature.Some? && b.signature.Some?
    requires Canonical(a.signature.value) && Canonical(b.signature.value)
    requires SameFlow(a, b) && SameFlow(b, c) && c.signature == b.signature && c.reached == b.reached
    requires a.reached != b.reached || Differ(a.signature.value, b.signature.value)
    ensures var ts := [a, b, c];
      && Written(ts, 0).None? && Written(ts, 1).None? && Written(ts, 2).Some?
      && Records(Written(ts, 2).value, Baseline(a), b, c) && IsBaseline(After(ts).value, c)
  {
    NotItself(b.signature.value);
    NotItself(a.signature.value);
    hide Differ, Canonical;
    var ts := [a, b, c];
    assert ts[..0] == [] && ts[..1] == [a] && ts[..2] == [a, b] && [a][..0] == [] && [a, b][..1] == [a];
    assert After([a]) == Some(Baseline(a));
    assert After([a, b]) == Some(Baseline(a).(candidate := Some(SeenIn(b)), consecutive := 1));
  }

  function Eligibles(ts: seq<Trace>): nat {
    if ts == [] then 0 else Eligibles(ts[..|ts| - 1]) + if Eligible(ts[|ts| - 1]) then 1 else 0
  }

  ghost function Changes(ts: seq<Trace>): nat {
    if ts == [] then 0
    else
      var init := ts[..|ts| - 1];
      Changes(init) + if Update(After(init), ts[|ts| - 1]).1.Some? then 1 else 0
  }

  /** Every confirmation takes two eligible traces of its own, besides the one that set the baseline. */
  lemma {:induction false} HalfAtMostConfirm(ts: seq<Trace>)
    requires Canonicals(ts)
    ensures var row := After(ts);
            2 * Changes(ts) + (if row.None? then 0 else if row.value.candidate.Some? then 2 else 1) <= Eligibles(ts)
  {
    hide Differ, Canonical;
    if ts != [] {
      HalfAtMostConfirm(ts[..|ts| - 1]);
      RunTracks(ts[..|ts| - 1]);
    }
  }

  // ---------- the table ----------

  class Detector {
    var routes: map<int, Route>
    var changes: seq<(int, Change)>

    constructor ()
      ensures routes == map[] && changes == []
    {
      routes, changes := map[], [];
    }

    // The row of a target.
    function RowOf(target: int): Option<Route>
      reads this`routes
    {
      if target in routes then Some(routes[target]) else None
    }

    /** Feeds one trace of a target to the detector. */
    method UpdateRouteCandidate(target: int, t: Trace)
      requires t.signature.Some? ==> Canonical(t.signature.value)
      requires target in routes && routes[target].signature.Some? ==> Canonical(routes[target].signature.value)
      modifies this
      ensures RowOf(target) == Update(old(RowOf(target)), t).0
      ensures forall other | other != target :: RowOf(other) == old(RowOf(other))
      ensures var change := Update(old(RowOf(target)), t).1;
              changes == if change.Some? then old(changes) + [(target, change.value)] else old(changes)
    {
      hide Differ, Canonical;
      if !Eligible(t) {
        return;
      }
      if target !in routes || !Comparable(routes[target], t) {
        routes := routes[target := Baseline(t)];
        return;
      }
      var r := routes[target];
      if t.signature == r.signature && t.reached == r.reached {
        routes := routes[target := Cleared(r)];
        return;
      }
      if t.reached == r.reached {
        var differ := RouteMeaningfullyDifferent(r.signature.value, t.signature.value);
        if !differ {
          routes := routes[target := Cleared(r)];
          return;
        }
      }
      if r.candidate.None? || !Agree(r.candidate.value, t) {
        routes := routes[target := r.(candidate := Some(SeenIn(t)), consecutive := 1)];
        return;
      }
      if r.consecutive + 1 < 2 {
        routes := routes[target := r.(consecutive := r.consecutive + 1)];
        return;
      }
      var change := Change(t.endpoint, r.current, r.candidate.value.id, t.id, r.signature.value, t.signature.value,
                           r.candidate.value.started, t.ended, r.reached, t.reached);
      changes := changes + [(target, change)];
      routes := routes[target := Baseline(t)];
    }
  }
}
