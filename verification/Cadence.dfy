/**
 Slot accounting. A target's cadence is a list of epochs, each a progression of slots with one interval;
 every slot that has come due is covered exactly once, by an accepted job or by a missed-slot gap.
 */
module Cadence {
  import opened Common

  /** Missed slots of a target, `interval` apart from `first` on. */
  datatype Missed = Missed(target: int, first: int, interval: int, count: nat)

  /** What the sink is told: a job offered to it, or a gap to record. */
  datatype Output = Offered(id: int, at: int, accepted: bool) | Recorded(gap: Missed)

  /** The slots start, start + interval, ... of which `count` have come due. */
  datatype Epoch = Epoch(start: int, interval: int, count: nat) {
    function Next(): int { start + count * interval }
  }

  function Slot(first: int, interval: int, i: nat): int { first + i * interval }

  /** The slots of a progression. */
  function Expand(first: int, interval: int, count: nat): multiset<int> {
    if count == 0 then multiset{}
    else Expand(first, interval, count - 1) + multiset{Slot(first, interval, count - 1)}
  }

  lemma Offsets(m: int, n: int, interval: int)
    ensures (m + n) * interval == m * interval + n * interval
  {
  }

  lemma SlotShifts(first: int, interval: int, m: nat, n: nat)
    ensures Slot(Slot(first, interval, m), interval, n) == Slot(first, interval, m + n)
  {
    Offsets(m, n, interval);
  }

  lemma ExpandNext(first: int, interval: int, n: nat)
    ensures Expand(first, interval, n + 1) == Expand(first, interval, n) + multiset{Slot(first, interval, n)}
    ensures Expand(first, interval, 0) == multiset{}
  {
  }

  lemma Regroup(a: multiset<int>, b: multiset<int>, c: multiset<int>)
    ensures (a + b) + c == a + (b + c) && a + multiset{} == a
  {
  }

  lemma {:induction false} ExpandAdds(first: int, interval: int, m: nat, n: nat)
    ensures Expand(first, interval, m + n) == Expand(first, interval, m) + Expand(Slot(first, interval, m), interval, n)
    decreases n
  {
    hide Slot, Expand;
    var mid := Slot(first, interval, m);
    var a := Expand(first, interval, m);
    ExpandNext(mid, interval, 0);
    if n == 0 {
      Regroup(a, a, a);
    } else {
      ExpandAdds(first, interval, m, n - 1);
      ExpandNext(first, interval, m + n - 1);
      ExpandNext(mid, interval, n - 1);
      SlotShifts(first, interval, m, n - 1);
      Regroup(a, Expand(mid, interval, n - 1), multiset{Slot(mid, interval, n - 1)});
    }
  }

  function Slots(gap: Missed): multiset<int> { Expand(gap.first, gap.interval, gap.count) }

  function Waiting(pending: Option<Missed>): multiset<int> {
    match pending
    case None => multiset{}
    case Some(gap) => Slots(gap)
  }

  function Due(epochs: seq<Epoch>): multiset<int> {
    if epochs == [] then multiset{}
    else
      var e := epochs[|epochs| - 1];
      Due(epochs[..|epochs| - 1]) + Expand(e.start, e.interval, e.count)
  }

  function Gives(o: Output, id: int): multiset<int> {
    match o
    case Offered(i, at, accepted) => if i == id && accepted then multiset{at} else multiset{}
    case Recorded(gap) => if gap.target == id then Slots(gap) else multiset{}
  }

  /** The slots of a target that the sink has been given, as a job or within a gap. */
  function Covered(log: seq<Output>, id: int): multiset<int> {
    if log == [] then multiset{}
    else Covered(log[..|log| - 1], id) + Gives(log[|log| - 1], id)
  }

  lemma CoveredMore(log: seq<Output>, o: Output, id: int)
    ensures Covered(log + [o], id) == Covered(log, id) + Gives(o, id)
  {
    assert (log + [o])[..|log + [o]| - 1] == log;
  }

  // The current epoch with n more slots due.
  function Advance(epochs: seq<Epoch>, n: nat): seq<Epoch>
    requires epochs != []
  {
    var e := epochs[|epochs| - 1];
    epochs[..|epochs| - 1] + [e.(count := e.count + n)]
  }

  /**
   The account of one target: its deadline is the next slot of the current epoch, its pending gap ends
   right before that deadline, and what was given and what is pending are together exactly what is due.
   */
  ghost predicate Accounted(id: int, interval: int, next: int, pending: Option<Missed>, covered: multiset<int>,
                            epochs: seq<Epoch>)
  {
    && interval > 0 && epochs != []
    && epochs[|epochs| - 1].interval == interval && epochs[|epochs| - 1].Next() == next
    && (pending.Some? ==>
        var gap := pending.value;
        gap.target == id && gap.interval == interval && gap.count > 0 && gap.first + gap.count * interval == next)
    && covered + Waiting(pending) == Due(epochs)
  }

  // A gap of n more slots, or a new one.
  function Extend(pending: Option<Missed>, id: int, first: int, interval: int, n: nat): Option<Missed> {
    if n == 0 then pending
    else
      match pending
      case None => Some(Missed(id, first, interval, n))
      case Some(gap) => Some(gap.(count := gap.count + n))
  }

  lemma DueAdvances(epochs: seq<Epoch>, n: nat)
    requires epochs != []
    ensures var e := epochs[|epochs| - 1];
            Due(Advance(epochs, n)) == Due(epochs) + Expand(e.Next(), e.interval, n)
            && Advance(epochs, n)[|epochs| - 1].Next() == e.Next() + n * e.interval
            && |Advance(epochs, n)| == |epochs| && Advance(epochs, n)[|epochs| - 1].interval == e.interval
  {
    hide Expand;
    var e := epochs[|epochs| - 1];
    ExpandAdds(e.start, e.interval, e.count, n);
    assert Advance(epochs, n)[..|epochs| - 1] == epochs[..|epochs| - 1];
    Offsets(e.count, n, e.interval);
  }

  lemma ExpandNothing(first: int, interval: int)
    ensures Expand(first, interval, 0) == multiset{} && Expand(first, interval, 1) == multiset{first}
  {
    assert Expand(first, interval, 0) == multiset{};
  }

  /** Slots that no job was accepted for go to the pending gap. */
  lemma MissKeeps(id: int, interval: int, next: int, pending: Option<Missed>, covered: multiset<int>,
                  epochs: seq<Epoch>, n: nat)
    requires Accounted(id, interval, next, pending, covered, epochs)
    ensures Accounted(id, interval, next + n * interval, Extend(pending, id, next, interval, n), covered,
                      Advance(epochs, n))
  {
    hide Expand, Due;
    DueAdvances(epochs, n);
    ExpandAdds(next, interval, 0, n);
    if n == 0 {
      assert Expand(next, interval, 0) == multiset{} by { ExpandNothing(next, interval); }
    } else if pending.Some? {
      var gap := pending.value;
      ExpandAdds(gap.first, interval, gap.count, n);
      Offsets(gap.count, n, interval);
    }
  }

  /** An accepted job covers its slot, and the pending gap is handed over. */
  lemma AcceptKeeps(id: int, interval: int, next: int, pending: Option<Missed>, covered: multiset<int>,
                    epochs: seq<Epoch>)
    requires Accounted(id, interval, next, pending, covered, epochs)
    ensures Accounted(id, interval, next + interval, None, covered + multiset{next} + Waiting(pending),
                      Advance(epochs, 1))
  {
    hide Expand, Due;
    DueAdvances(epochs, 1);
    ExpandNothing(next, interval);
  }

  lemma FlushKeeps(id: int, interval: int, next: int, pending: Option<Missed>, covered: multiset<int>,
                   epochs: seq<Epoch>)
    requires Accounted(id, interval, next, pending, covered, epochs)
    ensures Accounted(id, interval, next, None, covered + Waiting(pending), epochs)
  {
  }

  /** A new cadence starts a new epoch with nothing due yet. */
  lemma ChangeKeeps(id: int, interval: int, next: int, covered: multiset<int>, epochs: seq<Epoch>, interval': int,
                    next': int)
    requires Accounted(id, interval, next, None, covered, epochs) && interval' > 0
    ensures Accounted(id, interval', next', None, covered, epochs + [Epoch(next', interval', 0)])
  {
    var more := epochs + [Epoch(next', interval', 0)];
    assert more[..|more| - 1] == epochs;
  }

  lemma SlotsDiffer(first: int, interval: int, i: nat, j: nat)
    requires interval > 0
    ensures Slot(first, interval, i) < Slot(first, interval, j) <==> i < j
  {
    if i < j {
      Offsets(j - i, i, interval);
      assert (j - i) * interval > 0;
    } else {
      Offsets(i - j, j, interval);
      assert (i - j) * interval >= 0;
    }
  }

  /** In a progression each slot occurs once. */
  lemma {:induction false} ExpandOnce(first: int, interval: int, count: nat, k: nat)
    requires interval > 0
    ensures Expand(first, interval, count)[Slot(first, interval, k)] == if k < count then 1 else 0
    decreases count
  {
    if count > 0 {
      ExpandOnce(first, interval, count - 1, k);
      SlotsDiffer(first, interval, k, count - 1);
    }
  }

  // The slots that have come due in the current epoch are those up to the clock.
  ghost predicate Punctual(es: seq<Epoch>, now: int) {
    es != [] && (es[|es| - 1].count > 0 ==> es[|es| - 1].Next() - es[|es| - 1].interval <= now)
  }

  /** With the deadline after the clock, exactly the slots up to the clock have come due. */
  lemma DueExactly(es: seq<Epoch>, now: int, k: nat)
    requires Punctual(es, now) && es[|es| - 1].interval > 0 && es[|es| - 1].Next() > now
    ensures var e := es[|es| - 1]; Slot(e.start, e.interval, k) <= now <==> k < e.count
  {
    var e := es[|es| - 1];
    if k < e.count {
      SlotsDiffer(e.start, e.interval, e.count - 1, k);
      Offsets(e.count - 1, 1, e.interval);
    } else {
      SlotsDiffer(e.start, e.interval, k, e.count);
    }
  }

  /** More slots of the current epoch may have come due, and nothing else differs. */
  ghost predicate MoreDue(es: seq<Epoch>, es': seq<Epoch>) {
    || es' == es
    || (es != [] && |es'| == |es| && es'[..|es| - 1] == es[..|es| - 1]
        && es'[|es| - 1] == es[|es| - 1].(count := es'[|es| - 1].count) && es[|es| - 1].count <= es'[|es| - 1].count)
  }

  ghost predicate AllMoreDue(a: map<int, seq<Epoch>>, b: map<int, seq<Epoch>>) {
    a.Keys == b.Keys && forall id <- a :: MoreDue(a[id], b[id])
  }

  lemma AdvanceMore(m: map<int, seq<Epoch>>, id: int, n: nat)
    requires id in m && m[id] != []
    ensures AllMoreDue(m, m[id := Advance(m[id], n)])
  {
  }

  lemma NoMore(m: map<int, seq<Epoch>>)
    ensures AllMoreDue(m, m)
  {
  }

  lemma MoreAndMore(a: map<int, seq<Epoch>>, b: map<int, seq<Epoch>>, c: map<int, seq<Epoch>>)
    requires AllMoreDue(a, b) && AllMoreDue(b, c)
    ensures AllMoreDue(a, c)
  {
  }

  /** The same cadence, or the old one completed up to the clock and a new one begun. */
  ghost predicate Continued(es: seq<Epoch>, es': seq<Epoch>, change: Option<int>, now: int) {
    || MoreDue(es, es')
    || (es != [] && |es'| == |es| + 1 && MoreDue(es, es'[..|es|]) && es'[|es| - 1].Next() > now
        && change == Some(es'[|es|].interval) && es'[|es|].start >= now)
  }

  // A cadence change between two rounds of due slots.
  lemma ContinuedBy(a: seq<Epoch>, b: seq<Epoch>, c: seq<Epoch>, d: seq<Epoch>, e: Epoch, change: Option<int>, now: int)
    requires MoreDue(a, b) && MoreDue(c, d)
    requires c == b || (b != [] && c == b + [e] && b[|b| - 1].Next() > now && change == Some(e.interval)
      && e.start >= now)
    ensures Continued(a, d, change, now)
  {
    if c != b {
      assert c[..|b|] == b && d[..|a|] == b;
      assert MoreDue(a, d[..|a|]);
    }
  }
}
