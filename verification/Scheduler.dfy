/** The send scheduler: due slots are offered once, skipped and refused ones become gaps, cadences change. */
module Scheduler {
  import opened Common
  import opened Cadence

  const GAP_FLUSH_INTERVAL: int := 5_000_000_000

  /** A target's place in the schedule; `last` is when its last accepted job was submitted. */
  datatype Entry = Entry(id: int, interval: int, next: int, last: Option<int>)

  datatype Target = Target(id: int, interval: int, hash: nat) {
    // Its hash less all whole intervals in it.
    ghost function Phase(): int
      requires interval > 0
    {
      hash - hash / interval * interval
    }
  }

  function First(t: Target, now: int): Entry
    requires t.interval > 0
  {
    Entry(t.id, t.interval, now + t.hash % t.interval, None)
  }

  ghost function FirstEpoch(targets: seq<Target>, id: int, now: int): seq<Epoch>
    requires (forall t <- targets :: t.interval > 0) && exists t <- targets :: t.id == id
  {
    var t :| t in targets && t.id == id;
    [Epoch(First(t, now).next, t.interval, 0)]
  }

  lemma FirstAccounted(targets: seq<Target>, i: nat, now: int)
    requires i < |targets| && forall t <- targets :: t.interval > 0
    requires forall i, j | 0 <= i < j < |targets| :: targets[i].id != targets[j].id
    ensures var e := First(targets[i], now);
            Accounted(e.id, e.interval, e.next, None, Covered([], e.id), FirstEpoch(targets, e.id, now))
            && Punctual(FirstEpoch(targets, e.id, now), now)
  {
    assert targets[i].id == First(targets[i], now).id;
    assert FirstEpoch(targets, targets[i].id, now)[..0] == [];
  }

  // A target starts at its phase, less than an interval after the clock and as its hash has it.
  lemma FirstPhase(t: Target, now: int)
    requires t.interval > 0
    ensures var e := First(t, now);
            && e.id == t.id && e.interval == t.interval && e.last == None && now <= e.next < now + t.interval
            && e.next - now == t.Phase()
  {
  }

  function PendingOf(pending: map<int, Missed>, id: int): Option<Missed> {
    if id in pending then Some(pending[id]) else None
  }

  // What the sink is told when a target is served: one offer of its latest due slot, and its gap if that
  // was accepted.
  ghost predicate Told(told: seq<Output>, e: Entry, now: int) {
    && told != [] && told[0].Offered? && told[0].id == e.id
    && told[0].at <= now && e.next == told[0].at + e.interval
    && (told[0].accepted ==> e.last.Some? && e.last.value >= now)
    && forall k | 0 < k < |told| :: told[k].Recorded?
  }

  function Retimed(e: Entry, interval: int, now: int): Entry {
    var after := now + interval;
    var next :=
      match e.last
      case Some(t) => t + interval
      case None => if interval < e.interval && e.next < after then e.next else after;
    e.(interval := interval, next := Max(next, now))
  }

  // The epochs of a target that starts over with a new cadence.
  function Begun(es: seq<Epoch>, e: Entry): seq<Epoch> { es + [Epoch(e.next, e.interval, 0)] }

  ghost predicate Rebegun(m: map<int, seq<Epoch>>, m': map<int, seq<Epoch>>, before: Entry, after: Entry) {
    && after.id in m && after.id in m'
    && m'[after.id] == if after.interval == before.interval then m[after.id] else Begun(m[after.id], after)
  }

  lemma SameEpochs(m: map<int, seq<Epoch>>, es: seq<Entry>)
    requires forall e <- es :: e.id in m
    ensures forall e <- es :: Rebegun(m, m, e, e)
  {
  }

  lemma RebegunMore(m: map<int, seq<Epoch>>, m1: map<int, seq<Epoch>>, m2: map<int, seq<Epoch>>,
                    was: seq<Entry>, es: seq<Entry>, es': seq<Entry>, i: nat)
    requires i < |was| == |es| == |es'| && es[i] == was[i] && es' == es[i := es'[i]] && es'[i].id == es[i].id
    requires forall j, k | 0 <= j < k < |es| :: es[j].id != es[k].id
    requires es[i].id in m2 && m2 == m1[es[i].id := m2[es[i].id]] && Rebegun(m1, m2, es[i], es'[i])
    requires forall j | 0 <= j < |es| :: Rebegun(m, m1, was[j], es[j])
    ensures forall j | 0 <= j < |es| :: Rebegun(m, m2, was[j], es'[j])
  {
    hide Begun;
    forall j | 0 <= j < |es|
      ensures Rebegun(m, m2, was[j], es'[j])
    {
      assert Rebegun(m, m1, was[j], es[j]);
    }
  }

  function Changed(e: Entry, updates: map<int, int>, now: int): Entry {
    if e.id in updates && updates[e.id] != e.interval then Retimed(e, updates[e.id], now) else e
  }

  /**
   A new cadence starts from the last accepted job: its first slot is an interval after that, or now if that
   is over. A target that never had one keeps an earlier deadline when it gets faster, and otherwise waits a
   full interval.
   */
  lemma ChangedDeadline(e: Entry, updates: map<int, int>, now: int)
    requires e.id in updates && updates[e.id] != e.interval && updates[e.id] > 0
    ensures var c, interval := Changed(e, updates, now), updates[e.id];
      && c.interval == interval && c.last == e.last && c.next >= now
      && (e.last.Some? ==> c.next == Max(e.last.value + interval, now))
      && (e.last.None? ==> c.next <= now + interval)
      && (e.last.None? && interval > e.interval ==> c.next == now + interval)
      && (e.last.None? && interval < e.interval && e.next >= now ==> c.next == Min(e.next, now + interval))
  {
  }

  /** A new cadence never has the target of a job accepted in this wake due again at once. */
  lemma ChangedLater(e: Entry, updates: map<int, int>, now: int)
    requires e.next > now && forall id <- updates :: updates[id] > 0
    ensures Changed(e, updates, now).id == e.id
    ensures e.last.Some? && e.last.value >= now ==> Changed(e, updates, now).next > now
  {
  }

  // The offer went to entry i, which was due and no longer is, for its latest due slot.
  ghost predicate OfferedTo(o: Output, was: seq<Entry>, es: seq<Entry>, i: int, now: int) {
    && 0 <= i < |es| == |was| && o.Offered? && es[i].id == o.id && was[i].next <= now < es[i].next
    && o.at <= now && es[i].next == o.at + es[i].interval
    && (o.accepted ==> es[i].last.Some? && es[i].last.value >= now)
  }

  /** Jobs are offered to due targets only, and an acceptance is remembered as not before the clock. */
  ghost predicate OfferedDue(told: seq<Output>, was: seq<Entry>, es: seq<Entry>, now: int) {
    forall o <- told :: o.Offered? ==> exists i :: OfferedTo(o, was, es, i, now)
  }

  /** Every target that was due has been offered. */
  ghost predicate AllOffered(told: seq<Output>, was: seq<Entry>, es: seq<Entry>, now: int) {
    forall i | 0 <= i < |es| == |was| && was[i].next <= now < es[i].next ::
      exists o <- told :: OfferedTo(o, was, es, i, now)
  }

  /** Every target that was due has been offered its latest due slot. */
  ghost predicate LatestOffered(told: seq<Output>, was: seq<Entry>, now: int) {
    forall e <- was | e.next <= now :: exists o <- told :: o.Offered? && o.id == e.id && o.at <= now < o.at + e.interval
  }

  lemma OffersLatest(told: seq<Output>, more: seq<Output>, was: seq<Entry>, es: seq<Entry>, now: int)
    requires AllOffered(told, was, es, now) && |es| == |was|
    requires forall i | 0 <= i < |es| :: es[i].next > now && es[i].interval == was[i].interval && es[i].id == was[i].id
    ensures LatestOffered(told + more, was, now)
  {
    forall e | e in was && e.next <= now
      ensures exists o <- told + more :: o.Offered? && o.id == e.id && o.at <= now < o.at + e.interval
    {
      var i :| 0 <= i < |was| && was[i] == e;
      var o :| o in told && OfferedTo(o, was, es, i, now);
      assert o in told + more;
    }
  }

  lemma StillOffered(told: seq<Output>, more: seq<Output>, was: seq<Entry>, now: int)
    requires LatestOffered(told, was, now)
    ensures LatestOffered(told + more, was, now)
  {
    assert forall o <- told :: o in told + more;
  }

  // A target with a job accepted in the first pass is not due in the second.
  lemma RoundAccepts(first: seq<Output>, second: seq<Output>, was: seq<Entry>, served: seq<Entry>, changed: seq<Entry>,
                     es: seq<Entry>, changes: map<int, int>, now: int)
    requires OfferedDue(first, was, served, now) && OfferedDue(second, changed, es, now)
    requires |served| == |changed| == |es| && forall id <- changes :: changes[id] > 0
    requires forall i | 0 <= i < |es| ::
      changed[i] == Changed(served[i], changes, now) && es[i].id == changed[i].id && served[i].next > now
    requires forall i, j | 0 <= i < j < |es| :: es[i].id != es[j].id
    ensures forall o, p | o in first && o.Offered? && o.accepted && p in second && p.Offered? :: o.id != p.id
  {
    hide Changed;
    forall o, p | o in first && o.Offered? && o.accepted && p in second && p.Offered?
      ensures o.id != p.id
    {
      var i :| OfferedTo(o, was, served, i, now);
      var j :| OfferedTo(p, changed, es, j, now);
      ChangedLater(served[i], changes, now);
      ChangedLater(served[j], changes, now);
      assert changed[i].next > now && changed[j].next <= now;
      assert es[i].id == o.id && es[j].id == p.id;
    }
  }

  function PendingChange(updates: map<int, int>, id: int): Option<int> {
    if id in updates then Some(updates[id]) else None
  }

  lemma ChangedStart(e: Entry, updates: map<int, int>, now: int)
    ensures var c := Changed(e, updates, now);
            c.id == e.id && (c.interval != e.interval ==>
              PendingChange(updates, e.id) == Some(c.interval) && c.next >= now)
  {
  }

  lemma RoundContinues(served: seq<Entry>, changed: seq<Entry>, es: seq<Entry>,
                       e0: map<int, seq<Epoch>>, e1: map<int, seq<Epoch>>,
                       e2: map<int, seq<Epoch>>, e3: map<int, seq<Epoch>>, changes: map<int, int>, now: int)
    requires AllMoreDue(e0, e1) && e2.Keys == e1.Keys && AllMoreDue(e2, e3) && |served| == |changed| == |es|
    requires forall i | 0 <= i < |es| :: changed[i] == Changed(served[i], changes, now) && es[i].id == changed[i].id
    requires forall i | 0 <= i < |es| :: Rebegun(e1, e2, served[i], changed[i])
    requires forall i | 0 <= i < |es| :: served[i].id in e1 && e1[served[i].id] != []
                                         && var x := e1[served[i].id]; x[|x| - 1].Next() == served[i].next > now
    ensures forall i | 0 <= i < |es| :: es[i].id == served[i].id && es[i].id in e0 && es[i].id in e3
                                        && Continued(e0[es[i].id], e3[es[i].id], PendingChange(changes, es[i].id), now)
  {
    hide Continued, Changed, MoreDue;
    forall i | 0 <= i < |es|
      ensures es[i].id == served[i].id && es[i].id in e0 && es[i].id in e3
      ensures Continued(e0[es[i].id], e3[es[i].id], PendingChange(changes, es[i].id), now)
    {
      var id := es[i].id;
      assert Rebegun(e1, e2, served[i], changed[i]);
      ChangedStart(served[i], changes, now);
      ContinuedBy(e0[id], e1[id], e2[id], e3[id], Epoch(changed[i].next, changed[i].interval, 0),
                  PendingChange(changes, id), now);
    }
  }

  lemma NothingWaits(e: Entry, covered: multiset<int>, es: seq<Epoch>)
    requires Accounted(e.id, e.interval, e.next, None, covered, es)
    ensures covered == Due(es)
  {
  }

  function Teller(o: Output): int {
    match o
    case Offered(id, _, _) => id
    case Recorded(gap) => gap.target
  }

  lemma GivesGap(log: seq<Output>, e: Entry, gap: Option<Missed>)
    requires gap.Some? ==> gap.value.target == e.id
    ensures var told := if gap.Some? then [Recorded(gap.value)] else [];
            Covered(log + told, e.id) == Covered(log, e.id) + Waiting(gap) && forall o <- told :: Teller(o) == e.id
  {
    hide Covered, Expand;
    if gap.Some? {
      CoveredMore(log, Recorded(gap.value), e.id);
    } else {
      assert log + [] == log;
      Regroup(Covered(log, e.id), multiset{}, multiset{});
    }
  }

  /** No target has two jobs accepted. */
  ghost predicate AcceptsOnce(told: seq<Output>) {
    forall i, j | 0 <= i < j < |told| && told[i].Offered? && told[j].Offered? && told[i].accepted && told[j].accepted ::
      told[i].id != told[j].id
  }

  /** No target is offered two jobs. */
  ghost predicate OffersOnce(told: seq<Output>) {
    forall i, j | 0 <= i < j < |told| && told[i].Offered? && told[j].Offered? :: told[i].id != told[j].id
  }

  lemma Once(told: seq<Output>)
    ensures OffersOnce(told) ==> AcceptsOnce(told)
    ensures OffersOnce([])
  {
  }

  lemma Part(a: seq<Output>, b: seq<Output>, c: seq<Output>, i: nat)
    requires i < |a + b + c|
    ensures i < |a| ==> (a + b + c)[i] == a[i] && a[i] in a
    ensures |a| <= i < |a| + |b| ==> (a + b + c)[i] in b
    ensures |a| + |b| <= i ==> (a + b + c)[i] == c[i - |a| - |b|] && c[i - |a| - |b|] in c
  {
  }

  lemma AcceptsJoin(a: seq<Output>, b: seq<Output>, c: seq<Output>)
    requires AcceptsOnce(a) && AcceptsOnce(c) && forall o <- b :: o.Recorded?
    requires forall o, p | o in a && o.Offered? && o.accepted && p in c && p.Offered? :: o.id != p.id
    ensures AcceptsOnce(a + b + c)
  {
    var told := a + b + c;
    forall i, j | 0 <= i < j < |told| && told[i].Offered? && told[j].Offered? && told[i].accepted && told[j].accepted
      ensures told[i].id != told[j].id
    {
      Part(a, b, c, i);
      Part(a, b, c, j);
    }
  }

  lemma NothingOffered(es: seq<Entry>, now: int)
    ensures OffersOnce([]) && OfferedDue([], es, es, now) && AllOffered([], es, es, now)
  {
  }

  lemma AllOfferedMore(told: seq<Output>, more: seq<Output>, was: seq<Entry>, es: seq<Entry>, es': seq<Entry>, i: nat,
                       now: int)
    requires AllOffered(told, was, es, now)
    requires i < |es| == |es'| == |was| && es[i].id == es'[i].id && was[i].next <= now < es'[i].next
    requires forall j | 0 <= j < |es| && j != i :: es'[j] == es[j]
    requires Told(more, es'[i], now)
    ensures AllOffered(told + more, was, es', now)
  {
    forall j | 0 <= j < |es| && was[j].next <= now < es'[j].next
      ensures exists o <- told + more :: OfferedTo(o, was, es', j, now)
    {
      if j == i {
        assert more[0] in told + more && OfferedTo(more[0], was, es', i, now);
      } else {
        var o :| o in told && OfferedTo(o, was, es, j, now);
        assert o in told + more && OfferedTo(o, was, es', j, now);
      }
    }
  }

  lemma OfferMore(told: seq<Output>, more: seq<Output>, was: seq<Entry>, es: seq<Entry>, es': seq<Entry>, i: nat,
                  now: int)
    requires OffersOnce(told) && OfferedDue(told, was, es, now)
    requires i < |es| == |es'| == |was| && es[i].next <= now < es'[i].next && es[i].id == es'[i].id
      && was[i].next <= now
    requires forall j | 0 <= j < |es| && j != i :: es'[j] == es[j]
    requires forall j, k | 0 <= j < k < |es| :: es[j].id != es[k].id
    requires Told(more, es'[i], now)
    ensures OffersOnce(told + more) && OfferedDue(told + more, was, es', now)
  {
    forall o | o in told && o.Offered?
      ensures o.id != es[i].id && exists j :: OfferedTo(o, was, es', j, now)
    {
      var j :| OfferedTo(o, was, es, j, now);
      assert OfferedTo(o, was, es', j, now);
    }
    forall o | o in more && o.Offered?
      ensures OfferedTo(o, was, es', i, now)
    {
    }
  }

  lemma Positive(e: Entry, gap: Option<Missed>, covered: multiset<int>, es: seq<Epoch>)
    requires Accounted(e.id, e.interval, e.next, gap, covered, es)
    ensures e.interval > 0 && es != [] && (gap.Some? ==> gap.value.target == e.id)
  {
  }

  lemma Behind(behind: int, interval: int)
    requires 0 < interval <= behind
    ensures 0 < behind / interval && behind / interval * interval <= behind < behind / interval * interval + interval
  {
  }

  // Advancing to a deadline at most an interval past the clock keeps the epoch on time.
  lemma AdvancePunctual(e: Entry, gap: Option<Missed>, covered: multiset<int>, es: seq<Epoch>, n: nat, now: int)
    requires Accounted(e.id, e.interval, e.next, gap, covered, es)
    requires e.next + n * e.interval - e.interval <= now
    ensures Punctual(Advance(es, n), now)
  {
    DueAdvances(es, n);
  }

  lemma GivesAccepted(log: seq<Output>, e: Entry, gap: Option<Missed>, covered: multiset<int>, es: seq<Epoch>)
    requires Accounted(e.id, e.interval, e.next, gap, covered, es) && covered == Covered(log, e.id)
    ensures var told := [Offered(e.id, e.next, true)] + if gap.Some? then [Recorded(gap.value)] else [];
            Covered(log + told, e.id) == covered + multiset{e.next} + Waiting(gap)
            && forall o <- told :: Teller(o) == e.id
  {
    hide Covered, Expand, Due;
    var offer := Offered(e.id, e.next, true);
    CoveredMore(log, offer, e.id);
    if gap.Some? {
      CoveredMore(log + [offer], Recorded(gap.value), e.id);
      assert log + ([offer] + [Recorded(gap.value)]) == (log + [offer]) + [Recorded(gap.value)];
    } else {
      assert [offer] + [] == [offer];
    }
  }

  lemma {:induction false} CoveredOthers(log: seq<Output>, told: seq<Output>, id: int, other: int)
    requires (forall o <- told :: Teller(o) == other) && id != other
    ensures Covered(log + told, id) == Covered(log, id)
  {
    if told == [] {
      assert log + told == log;
    } else {
      var n := |told| - 1;
      assert log + told == (log + told[..n]) + [told[n]];
      CoveredOthers(log, told[..n], id, other);
      CoveredMore(log + told[..n], told[n], id);
      assert told[n] in told && Gives(told[n], id) == multiset{};
    }
  }

  class Scheduler {
    var entries: seq<Entry>
    var pending: map<int, Missed>
    var updates: map<int, int>
    var lastGapFlush: int
    var stopped: bool
    // Everything the sink has been told.
    var log: seq<Output>
    // The cadence of every target: its epochs so far.
    ghost var epochs: map<int, seq<Epoch>>

    ghost predicate EntryOk(e: Entry)
      reads this`pending, this`log, this`epochs
    {
      && e.id in epochs
      && Accounted(e.id, e.interval, e.next, PendingOf(pending, e.id), Covered(log, e.id), epochs[e.id])
    }

    ghost predicate Distinct()
      reads this`entries
    {
      forall i, j | 0 <= i < j < |entries| :: entries[i].id != entries[j].id
    }

    ghost predicate Listed(id: int)
      reads this`entries
    {
      exists i | 0 <= i < |entries| :: entries[i].id == id
    }

    /** Every target's slots are accounted for, and only targets have pending gaps. */
    ghost predicate Valid()
      reads this`entries, this`pending, this`log, this`epochs
    {
      && Distinct()
      && (forall i | 0 <= i < |entries| :: EntryOk(entries[i]))
      && (forall id <- pending :: Listed(id))
    }

    /** No epoch has run ahead of the clock. */
    ghost predicate OnTime(now: int)
      reads this`entries, this`epochs
    {
      forall i | 0 <= i < |entries| :: entries[i].id in epochs && Punctual(epochs[entries[i].id], now)
    }

    /** Every target starts at its own phase within one interval. */
    constructor (targets: seq<Target>, now: int)
      requires forall t <- targets :: t.interval > 0
      requires forall i, j | 0 <= i < j < |targets| :: targets[i].id != targets[j].id
      ensures Valid() && OnTime(now) && log == [] && pending == map[] && updates == map[] && |entries| == |targets|
      ensures forall i | 0 <= i < |entries| ::
                entries[i].id == targets[i].id && entries[i].interval == targets[i].interval && entries[i].last == None
                && now <= entries[i].next < now + targets[i].interval
                && entries[i].next - now == targets[i].Phase()
    {
      hide First, FirstEpoch, Accounted, Punctual, Covered;
      entries := seq(|targets|, i requires 0 <= i < |targets| => First(targets[i], now));
      pending, updates, lastGapFlush, stopped, log := map[], map[], now, false, [];
      var ids := set t | t in targets :: t.id;
      epochs := map id | id in ids :: FirstEpoch(targets, id, now);
      new;
      forall i | 0 <= i < |entries|
        ensures entries[i].id == targets[i].id && entries[i].interval == targets[i].interval && entries[i].last == None
        ensures now <= entries[i].next < now + targets[i].interval
        ensures entries[i].next - now == targets[i].Phase()
      {
        FirstPhase(targets[i], now);
      }
      forall i | 0 <= i < |entries|
        ensures EntryOk(entries[i]) && Punctual(epochs[entries[i].id], now)
      {
        assert targets[i] in targets;
        FirstAccounted(targets, i, now);
      }
    }

    /** The same targets at the same places, with the same intervals. */
    ghost predicate SameCadence(before: seq<Entry>)
      reads this`entries
    {
      && |entries| == |before|
      && forall i | 0 <= i < |entries| :: entries[i].id == before[i].id && entries[i].interval == before[i].interval
    }

    // Replaces entry i by one of the same target with new accounts, leaving the others alone.
    method Commit(i: nat, e: Entry, gap: Option<Missed>, told: seq<Output>, ghost es: seq<Epoch>)
      requires Valid() && i < |entries| && e.id == entries[i].id
      requires forall o <- told :: Teller(o) == e.id
      requires Accounted(e.id, e.interval, e.next, gap, Covered(log + told, e.id), es)
      modifies this`entries, this`pending, this`log, this`epochs
      ensures Valid() && entries == old(entries)[i := e] && log == old(log) + told
      ensures epochs == old(epochs)[e.id := es]
      ensures pending == if gap.Some? then old(pending)[e.id := gap.value] else old(pending) - {e.id}
    {
      hide Accounted, Covered;
      entries := entries[i := e];
      pending := if gap.Some? then pending[e.id := gap.value] else pending - {e.id};
      log := log + told;
      epochs := epochs[e.id := es];
      forall j | 0 <= j < |entries| && j != i
        ensures EntryOk(entries[j])
      {
        assert old(EntryOk(entries[j]));
        CoveredOthers(old(log), told, entries[j].id, e.id);
      }
      forall id | id in pending
        ensures Listed(id)
      {
        if id != e.id {
          var j :| 0 <= j < |old(entries)| && old(entries)[j].id == id;
          assert entries[j].id == id;
        } else {
          assert entries[i].id == id;
        }
      }
    }

    /** The first of the due deadlines, as the heap yields it. */
    method Earliest() returns (i: nat)
      requires entries != []
      ensures i < |entries| && forall j | 0 <= j < |entries| :: entries[i].next <= entries[j].next
    {
      i := 0;
      for k := 1 to |entries|
        invariant i < k && forall j | 0 <= j < k :: entries[i].next <= entries[j].next
      {
        if entries[k].next < entries[i].next {
          i := k;
        }
      }
    }

    // Accounts for the slots of a target that were skipped before its latest due slot.
    method Skip(i: nat, now: int)
      requires Valid() && OnTime(now) && i < |entries| && entries[i].next <= now
      modifies this`entries, this`pending, this`log, this`epochs
      ensures Valid() && OnTime(now) && log == old(log) && |entries| == |old(entries)|
      ensures entries == old(entries)[i := old(entries)[i].(next := entries[i].next)]
      ensures entries[i].next <= now < entries[i].next + entries[i].interval
      ensures AllMoreDue(old(epochs), epochs)
    {
      hide Accounted, Advance, Covered, Expand, Due, Extend;
      var item := entries[i];
      assert EntryOk(item);
      Positive(item, PendingOf(pending, item.id), Covered(log, item.id), epochs[item.id]);
      var behind := now - item.next;
      if behind >= item.interval {
        var skipped: nat := behind / item.interval;
        Behind(behind, item.interval);
        MissKeeps(item.id, item.interval, item.next, PendingOf(pending, item.id), Covered(log, item.id),
                  epochs[item.id], skipped);
        AdvancePunctual(item, PendingOf(pending, item.id), Covered(log, item.id), epochs[item.id], skipped, now);
        assert log + [] == log;
        AdvanceMore(epochs, item.id, skipped);
        var gap := Extend(PendingOf(pending, item.id), item.id, item.next, item.interval, skipped);
        Commit(i, item.(next := item.next + skipped * item.interval), gap, [], Advance(epochs[item.id], skipped));
      }
    }

    // Offers the latest due slot of a target.
    method Offer(i: nat, now: int) returns (accepted: bool)
      requires Valid() && OnTime(now) && i < |entries| && entries[i].next <= now < entries[i].next + entries[i].interval
      modifies this`entries, this`pending, this`log, this`epochs
      ensures Valid() && OnTime(now) && |entries| == |old(entries)|
      ensures var e := old(entries)[i];
              var gap := PendingOf(old(pending), e.id);
              && entries == old(entries)[i := Entry(e.id, e.interval, e.next + e.interval, entries[i].last)]
              && (if accepted then entries[i].last.Some? && entries[i].last.value >= now else entries[i].last == e.last)
              && log == old(log) + [Offered(e.id, e.next, accepted)]
                 + if accepted && gap.Some? then [Recorded(gap.value)] else []
      ensures AllMoreDue(old(epochs), epochs)
    {
      hide Accounted, Advance, Covered, Expand, Due, Extend;
      accepted := *;
      var item := entries[i];
      assert EntryOk(item);
      var gap := PendingOf(pending, item.id);
      AdvanceMore(epochs, item.id, 1) by { Positive(item, gap, Covered(log, item.id), epochs[item.id]); }
      AdvancePunctual(item, gap, Covered(log, item.id), epochs[item.id], 1, now);
      if accepted {
        var submitted: int := *;
        var told := [Offered(item.id, item.next, true)] + if gap.Some? then [Recorded(gap.value)] else [];
        AcceptKeeps(item.id, item.interval, item.next, gap, Covered(log, item.id), epochs[item.id]);
        GivesAccepted(log, item, gap, Covered(log, item.id), epochs[item.id]);
        Commit(i, item.(next := item.next + item.interval, last := Some(Max(submitted, now))), None, told,
               Advance(epochs[item.id], 1));
      } else {
        MissKeeps(item.id, item.interval, item.next, gap, Covered(log, item.id), epochs[item.id], 1);
        CoveredMore(log, Offered(item.id, item.next, false), item.id);
        Regroup(Covered(log, item.id), multiset{}, multiset{});
        var gap' := Extend(gap, item.id, item.next, item.interval, 1);
        Commit(i, item.(next := item.next + item.interval), gap', [Offered(item.id, item.next, false)],
               Advance(epochs[item.id], 1));
      }
    }

    // One target that is due: skipped slots are missed, the latest is offered.
    method Serve(i: nat, now: int)
      requires Valid() && OnTime(now) && i < |entries| && entries[i].next <= now
      modifies this`entries, this`pending, this`log, this`epochs
      ensures Valid() && OnTime(now) && |entries| == |old(entries)|
      ensures SameCadence(old(entries)) && entries[i].next > now
      ensures forall j | 0 <= j < |entries| && j != i :: entries[j] == old(entries)[j]
      ensures |old(log)| < |log| && log[..|old(log)|] == old(log)
      ensures Told(log[|old(log)|..], entries[i], now)
      ensures AllMoreDue(old(epochs), epochs)
    {
      hide Valid, OnTime, AllMoreDue;
      Skip(i, now);
      ghost var between := epochs;
      ghost var before := log;
      var at := entries[i].next;
      var accepted := Offer(i, now);
      MoreAndMore(old(epochs), between, epochs);
      assert log[|before|] == Offered(entries[i].id, at, accepted);
      assert forall k | |before| < k < |log| :: log[k].Recorded?;
    }

    // Different places hold different targets.
    lemma Apart()
      requires Valid()
      ensures Distinct()
    {
    }

    /** Offers every due target one job. */
    method SubmitDue(now: int)
      requires Valid() && OnTime(now)
      modifies this`entries, this`pending, this`log, this`epochs
      ensures Valid() && OnTime(now) && SameCadence(old(entries))
      ensures forall i | 0 <= i < |entries| :: entries[i].next > now
      ensures forall i | 0 <= i < |entries| && old(entries)[i].next > now :: entries[i] == old(entries)[i]
      ensures |old(log)| <= |log| && log[..|old(log)|] == old(log)
      ensures OffersOnce(log[|old(log)|..]) && OfferedDue(log[|old(log)|..], old(entries), entries, now)
      ensures AllOffered(log[|old(log)|..], old(entries), entries, now)
      ensures AllMoreDue(old(epochs), epochs)
    {
      hide Valid, OnTime, AllMoreDue, OffersOnce, OfferedDue, AllOffered, Told;
      NoMore(epochs);
      ghost var was, told: seq<Output> := log, [];
      assert log == was + told;
      NothingOffered(entries, now);
      while entries != []
        invariant Valid() && OnTime(now) && SameCadence(old(entries)) && log == was + told
        invariant OffersOnce(told) && OfferedDue(told, old(entries), entries, now)
        invariant AllOffered(told, old(entries), entries, now)
        invariant forall i | 0 <= i < |entries| && old(entries)[i].next > now :: entries[i] == old(entries)[i]
        invariant AllMoreDue(old(epochs), epochs)
        decreases set i | 0 <= i < |entries| && entries[i].next <= now
      {
        var i := Earliest();
        if entries[i].next > now {
          break;
        }
        ghost var start, es, before, due := log, entries, epochs, set j | 0 <= j < |entries| && entries[j].next <= now;
        Apart();
        Serve(i, now);
        MoreAndMore(old(epochs), before, epochs);
        ghost var more := log[|start|..];
        assert log == was + (told + more);
        OfferMore(told, more, old(entries), es, entries, i, now);
        AllOfferedMore(told, more, old(entries), es, entries, i, now);
        told := told + more;
        assert (set j | 0 <= j < |entries| && entries[j].next <= now) == due - {i};
      }
      assert log[|was|..] == told;
    }

    // Gives one target a new cadence, handing over its pending gap first.
    method Retime(i: nat, interval: int, now: int)
      requires Valid() && OnTime(now) && i < |entries| && interval > 0
      modifies this`entries, this`pending, this`log, this`epochs
      ensures Valid() && OnTime(now) && entries == old(entries)[i := Retimed(old(entries)[i], interval, now)]
      ensures entries[i].id in old(epochs)
        && epochs == old(epochs)[entries[i].id := Begun(old(epochs)[entries[i].id], entries[i])]
      ensures |old(log)| <= |log| && log[..|old(log)|] == old(log) && forall o <- log[|old(log)|..] :: o.Recorded?
    {
      hide Accounted, Covered, Expand, Due;
      var item := entries[i];
      assert EntryOk(item);
      var gap := PendingOf(pending, item.id);
      var told := if gap.Some? then [Recorded(gap.value)] else [];
      ghost var es, covered := epochs[item.id], Covered(log, item.id);
      Positive(item, gap, covered, es);
      GivesGap(log, item, gap);
      FlushKeeps(item.id, item.interval, item.next, gap, covered, es);
      var item' := Retimed(item, interval, now);
      ChangeKeeps(item.id, item.interval, item.next, covered + Waiting(gap), es, interval, item'.next);
      Commit(i, item', None, told, Begun(es, item'));
    }

    lemma Known()
      requires Valid()
      ensures forall i | 0 <= i < |entries| :: entries[i].id in epochs
    {
      forall i | 0 <= i < |entries|
        ensures entries[i].id in epochs
      {
        assert EntryOk(entries[i]);
      }
    }

    // One target's change, if it is one.
    method Update(i: nat, changes: map<int, int>, now: int)
      requires Valid() && OnTime(now) && i < |entries| && forall id <- changes :: changes[id] > 0
      modifies this`entries, this`pending, this`log, this`epochs
      ensures Valid() && OnTime(now) && entries == old(entries)[i := Changed(old(entries)[i], changes, now)]
      ensures entries[i].id == old(entries)[i].id && entries[i].id in old(epochs)
      ensures epochs == old(epochs)[entries[i].id := epochs[entries[i].id]]
      ensures Rebegun(old(epochs), epochs, old(entries)[i], entries[i])
      ensures |old(log)| <= |log| && log[..|old(log)|] == old(log) && forall o <- log[|old(log)|..] :: o.Recorded?
    {
      hide Valid, OnTime, Begun;
      Known();
      var item := entries[i];
      if item.id in changes && changes[item.id] != item.interval {
        Retime(i, changes[item.id], now);
      }
    }

    /** Applies the coalesced cadence changes; the gaps of the old cadence are recorded before it ends. */
    method ApplyUpdates(now: int)
      requires Valid() && OnTime(now) && forall id <- updates :: updates[id] > 0
      modifies this`entries, this`pending, this`log, this`epochs, this`updates
      ensures Valid() && OnTime(now) && updates == map[] && |entries| == |old(entries)|
      ensures forall i | 0 <= i < |entries| :: entries[i] == Changed(old(entries)[i], old(updates), now)
      ensures epochs.Keys == old(epochs).Keys
      ensures forall i | 0 <= i < |entries| :: Rebegun(old(epochs), epochs, old(entries)[i], entries[i])
      ensures |old(log)| <= |log| && log[..|old(log)|] == old(log) && forall o <- log[|old(log)|..] :: o.Recorded?
    {
      hide Valid, OnTime, Changed, Rebegun;
      var changes := updates;
      updates := map[];
      Known();
      Apart();
      SameEpochs(epochs, entries);
      for i := 0 to |entries|
        invariant Valid() && OnTime(now) && updates == map[] && |entries| == |old(entries)|
        invariant forall j | 0 <= j < i :: entries[j] == Changed(old(entries)[j], changes, now)
        invariant forall j | i <= j < |entries| :: entries[j] == old(entries)[j]
        invariant epochs.Keys == old(epochs).Keys
        invariant forall j | 0 <= j < |entries| :: Rebegun(old(epochs), epochs, old(entries)[j], entries[j])
        invariant |old(log)| <= |log| && log[..|old(log)|] == old(log) && forall o <- log[|old(log)|..] :: o.Recorded?
      {
        ghost var start, es, before := log, epochs, entries;
        Apart();
        Update(i, changes, now);
        RebegunMore(old(epochs), es, epochs, old(entries), before, entries, i);
        assert log == start + log[|start|..];
        assert log[|old(log)|..] == start[|old(log)|..] + log[|start|..];
      }
    }

    method FlushGap(i: nat)
      requires Valid() && i < |entries|
      modifies this`pending, this`log
      ensures Valid() && pending == old(pending) - {entries[i].id}
      ensures |old(log)| <= |log| && log[..|old(log)|] == old(log) && forall o <- log[|old(log)|..] :: o.Recorded?
    {
      hide Accounted, Covered, Expand, Due;
      var item := entries[i];
      assert EntryOk(item);
      if item.id in pending {
        var gap := pending[item.id];
        ghost var covered := Covered(log, item.id);
        Positive(item, Some(gap), covered, epochs[item.id]);
        GivesGap(log, item, Some(gap));
        FlushKeeps(item.id, item.interval, item.next, Some(gap), covered, epochs[item.id]);
        log, pending := log + [Recorded(gap)], pending - {item.id};
        forall j | 0 <= j < |entries|
          ensures EntryOk(entries[j])
        {
          assert old(EntryOk(entries[j]));
          if j != i {
            CoveredOthers(old(log), [Recorded(gap)], entries[j].id, item.id);
          }
        }
      }
    }

    lemma PendingListed()
      requires Valid()
      ensures pending.Keys <= set i | 0 <= i < |entries| :: entries[i].id
    {
      forall id | id in pending
        ensures id in set i | 0 <= i < |entries| :: entries[i].id
      {
        assert Listed(id);
      }
    }

    lemma NonePending()
      requires Valid() && forall i | 0 <= i < |entries| :: entries[i].id !in pending
      ensures pending == map[]
    {
      PendingListed();
      assert pending.Keys == {};
    }

    /** Hands all pending gaps over: every slot that has come due has now been given to the sink. */
    method FlushGaps()
      requires Valid()
      modifies this`pending, this`log
      ensures Valid() && pending == map[]
      ensures |old(log)| <= |log| && log[..|old(log)|] == old(log) && forall o <- log[|old(log)|..] :: o.Recorded?
      ensures forall i | 0 <= i < |entries| ::
        entries[i].id in epochs && Covered(log, entries[i].id) == Due(epochs[entries[i].id])
    {
      hide Accounted, Covered, Expand, Due;
      for i := 0 to |entries|
        invariant Valid() && (forall j | 0 <= j < i :: entries[j].id !in pending)
        invariant |old(log)| <= |log| && log[..|old(log)|] == old(log) && forall o <- log[|old(log)|..] :: o.Recorded?
      {
        FlushGap(i);
      }
      NonePending();
      forall i | 0 <= i < |entries|
        ensures entries[i].id in epochs && Covered(log, entries[i].id) == Due(epochs[entries[i].id])
      {
        assert EntryOk(entries[i]);
        NothingWaits(entries[i], Covered(log, entries[i].id), epochs[entries[i].id]);
      }
    }

    /** Coalesces a change of cadence until the next wake. */
    method UpdateInterval(id: int, interval: int) returns (ok: bool)
      modifies this`updates
      ensures ok <==> interval > 0 && Listed(id) && !stopped
      ensures updates == if ok then old(updates)[id := interval] else old(updates)
    {
      if interval <= 0 || stopped || !exists i | 0 <= i < |entries| :: entries[i].id == id {
        return false;
      }
      updates := updates[id := interval];
      ok := true;
    }

    /** At the end of a run all pending gaps are recorded. */
    method Stop()
      requires Valid()
      modifies this`pending, this`log, this`updates, this`stopped
      ensures Valid() && pending == map[] && updates == map[] && stopped
      ensures forall i | 0 <= i < |entries| ::
        entries[i].id in epochs && Covered(log, entries[i].id) == Due(epochs[entries[i].id])
    {
      hide Valid, Covered, Due;
      FlushGaps();
      updates, stopped := map[], true;
    }

    /** Every target kept its cadence, or completed it up to the clock and began the one asked for. */
    ghost predicate Resumed(before: seq<Entry>, was: map<int, seq<Epoch>>, changes: map<int, int>, now: int)
      reads this`entries, this`epochs
    {
      && |entries| == |before|
      && forall i | 0 <= i < |entries| ::
           entries[i].id == before[i].id && entries[i].id in was && entries[i].id in epochs
           && Continued(was[entries[i].id], epochs[entries[i].id], PendingChange(changes, entries[i].id), now)
    }

    lemma Deadlines()
      requires Valid()
      ensures forall i | 0 <= i < |entries| ::
                entries[i].id in epochs && epochs[entries[i].id] != []
                && var es := epochs[entries[i].id]; es[|es| - 1].Next() == entries[i].next
    {
      hide Covered, Due, Waiting;
      forall i | 0 <= i < |entries|
        ensures entries[i].id in epochs && epochs[entries[i].id] != []
                && var es := epochs[entries[i].id]; es[|es| - 1].Next() == entries[i].next
      {
        assert EntryOk(entries[i]);
      }
    }

    // Due slots at the old cadence, cadence changes, then slots due at the new one.
    method Round(now: int)
      requires Valid() && OnTime(now) && forall id <- updates :: updates[id] > 0
      modifies this`entries, this`pending, this`log, this`epochs, this`updates
      ensures Valid() && OnTime(now) && updates == map[]
      ensures forall i | 0 <= i < |entries| :: entries[i].next > now
      ensures |old(log)| <= |log| && log[..|old(log)|] == old(log) && AcceptsOnce(log[|old(log)|..])
      ensures LatestOffered(log[|old(log)|..], old(entries), now)
      ensures Resumed(old(entries), old(epochs), old(updates), now)
    {
      hide Valid, OnTime, Changed, OffersOnce, OfferedDue, AcceptsOnce, Continued, AllMoreDue, Rebegun;
      hide AllOffered, LatestOffered;
      ghost var l0, changes := log, updates;
      ghost var e0 := epochs;
      SubmitDue(now);
      ghost var l1, first, served, e1 := log, log[|l0|..], entries, epochs;
      Deadlines();
      ApplyUpdates(now);
      ghost var l2, middle, changed, e2 := log, log[|l1|..], entries, epochs;
      SubmitDue(now);
      RoundContinues(served, changed, entries, e0, e1, e2, epochs, changes, now);
      ghost var second := log[|l2|..];
      Apart();
      RoundAccepts(first, second, old(entries), served, changed, entries, changes, now);
      Once(first);
      Once(second);
      AcceptsJoin(first, middle, second);
      assert l2 == l0 + first + middle;
      assert log[|l0|..] == first + middle + second;
      OffersLatest(first, middle + second, old(entries), served, now);
      assert first + (middle + second) == first + middle + second;
    }

    /**
     One wake offers every due target its latest due slot, accepts at most one job of a target and leaves
     every deadline after the clock. Five seconds after the last flush it hands over all pending gaps: then
     every slot that has come due has been given to the sink.
     */
    method Wake(now: int)
      requires Valid() && OnTime(now) && forall id <- updates :: updates[id] > 0
      modifies this`entries, this`pending, this`log, this`epochs, this`updates, this`lastGapFlush
      ensures Valid() && OnTime(now) && updates == map[]
      ensures forall i | 0 <= i < |entries| :: entries[i].next > now
      ensures |old(log)| <= |log| && log[..|old(log)|] == old(log) && AcceptsOnce(log[|old(log)|..])
      ensures LatestOffered(log[|old(log)|..], old(entries), now)
      ensures Resumed(old(entries), old(epochs), old(updates), now)
      ensures now - old(lastGapFlush) >= 5_000_000_000 ==>
        && pending == map[] && lastGapFlush == now
        && forall i | 0 <= i < |entries| ::
             entries[i].id in epochs && Covered(log, entries[i].id) == Due(epochs[entries[i].id])
      ensures now - old(lastGapFlush) < 5_000_000_000 ==> lastGapFlush == old(lastGapFlush)
    {
      hide Valid, OnTime, AcceptsOnce, Covered, Due, Continued, LatestOffered;
      ghost var l0 := log;
      Round(now);
      if now - lastGapFlush >= GAP_FLUSH_INTERVAL {
        ghost var l1 := log;
        FlushGaps();
        Once([]);
        AcceptsJoin(l1[|l0|..], log[|l1|..], []);
        assert log[|l0|..] == l1[|l0|..] + log[|l1|..];
        assert log[|l0|..] == l1[|l0|..] + log[|l1|..] + [];
        StillOffered(l1[|l0|..], log[|l1|..], old(entries), now);
        lastGapFlush := now;
      }
    }
  }
}
