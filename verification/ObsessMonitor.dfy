/**
 The in-place controller under audit: each target has a ghost book, the trace of what happened to it
 and the independent record `ObsessRecovery` keeps of such a trace. Every operation of the
 controller enters its events in the books, and the books always describe the targets. So the
 guarantees over whole runs hold of whatever the controller itself announces.
 */
module ObsessMonitor {
  import opened Common
  import opened ObsessTarget
  import opened ObsessNodes
  import opened ObsessRecovery
  import opened ObsessController
  import ObsessProgress

  datatype Book = Book(trace: seq<Event>, audit: Audit)

  type Books = map<int, Book>

  // The book is the audited run of its trace, and that run ends in the target's present state.
  ghost predicate Describes(b: Book, t: Target) {
    t.policy.Valid() && After(t.policy, b.trace) == Some(b.audit) && b.audit.t == t
  }

  ghost predicate Kept(books: Books, m: map<int, Target>) {
    books.Keys == m.Keys && forall id <- m :: Describes(books[id], m[id])
  }

  // One more event in a book; an event that cannot happen is not entered.
  ghost function Noted(b: Book, e: Event): Book {
    if Enabled(b.audit, e) then Book(b.trace + [e], Apply(b.audit, e)) else b
  }

  ghost function Note(books: Books, id: int, e: Event): Books {
    if id in books then books[id := Noted(books[id], e)] else books
  }

  // The announcements about one target, in order.
  function About(id: int, out: seq<(int, Transition)>): seq<Transition> {
    if out == [] then []
    else About(id, out[..|out| - 1]) + if out[|out| - 1].0 == id then [out[|out| - 1].1] else []
  }

  // The books of all targets grew by exactly these announcements.
  ghost predicate Announced(before: Books, after: Books, out: seq<(int, Transition)>) {
    && before.Keys == after.Keys
    && forall id <- before ::
         before[id].trace <= after[id].trace && after[id].audit.out == before[id].audit.out + About(id, out)
  }

  // ---------- the books stay true ----------

  lemma NotedDescribes(b: Book, t: Target, e: Event)
    requires Describes(b, t) && Enabled(b.audit, e)
    ensures Describes(Noted(b, e), Effect(t, e).t)
    ensures Noted(b, e).trace == b.trace + [e] && Noted(b, e).audit.out == b.audit.out + Effect(t, e).out
  {
    EffectKeepsPolicy(t, e);
    hide LogAfter, MarksAfter, Effect, Enabled;
    assert (b.trace + [e])[..|b.trace|] == b.trace;
  }

  lemma {:induction false} AboutTagged(id: int, out: seq<Transition>)
    ensures About(id, Tagged(id, out)) == out
    ensures forall other | other != id :: About(other, Tagged(id, out)) == []
  {
    if out != [] {
      AboutTagged(id, out[..|out| - 1]);
      assert Tagged(id, out)[..|out| - 1] == Tagged(id, out[..|out| - 1]);
    }
  }

  lemma NoteKeeps(books: Books, m: map<int, Target>, id: int, e: Event)
    requires Kept(books, m) && id in m && Enabled(books[id].audit, e)
    ensures Kept(Note(books, id, e), m[id := Effect(m[id], e).t])
    ensures Announced(books, Note(books, id, e), Tagged(id, Effect(m[id], e).out))
  {
    hide LogAfter, MarksAfter, After, About, Tagged;
    var r := Effect(m[id], e);
    hide Effect, Enabled, Noted;
    NotedDescribes(books[id], m[id], e);
    AboutTagged(id, r.out);
  }

  lemma {:induction false} AboutAppends(id: int, out: seq<(int, Transition)>, more: seq<(int, Transition)>)
    ensures About(id, out + more) == About(id, out) + About(id, more)
  {
    if more == [] {
      assert out + more == out;
    } else {
      AboutAppends(id, out, more[..|more| - 1]);
      assert (out + more)[..|out + more| - 1] == out + more[..|more| - 1];
    }
  }

  lemma AnnouncedChains(a: Books, b: Books, c: Books, out: seq<(int, Transition)>, more: seq<(int, Transition)>)
    requires Announced(a, b, out) && Announced(b, c, more)
    ensures Announced(a, c, out + more)
  {
    forall id | id in a
      ensures c[id].audit.out == a[id].audit.out + About(id, out + more)
    {
      AboutAppends(id, out, more);
    }
  }

  lemma SameBooks(books: Books, m: map<int, Target>)
    requires Kept(books, m)
    ensures books.Keys == m.Keys && (forall x <- m :: books[x].audit.t == m[x])
    ensures Announced(books, books, []) && forall id :: Announced(books, books, Tagged(id, []))
  {
    assert forall id :: Tagged(id, []) == [];
  }

  // ---------- each operation in the books ----------

  // The key's probe, while unsettled, was sent no later than `now`.
  ghost predicate SentBy(m: map<int, Target>, key: ProbeKey, now: int) {
    forall id <- m, i: nat | Open(m[id], i) && m[id].fifo[i].key == key :: m[id].fifo[i].sentAt <= now
  }

  // Sends of a target come in order.
  ghost predicate SentAfter(books: Books, id: int, sentAt: int) {
    id in books ==> forall x <- books[id].audit.log :: x < sentAt
  }

  lemma NotNoted(books: Books, id: int, e: Event)
    requires id in books ==> !Enabled(books[id].audit, e)
    ensures Note(books, id, e) == books
  {
  }

  // An event that announces nothing, after others that announced nothing.
  lemma QuietNote(first: Books, books: Books, m: map<int, Target>, id: int, e: Event)
    returns (b: Books, u: map<int, Target>)
    requires Announced(first, books, []) && Kept(books, m) && id in m && Enabled(books[id].audit, e)
    requires e.CullAt? || e.EvictAt? || e.SendAt? || e.DropAt?
    ensures b == Note(books, id, e) && u == m[id := Effect(m[id], e).t]
    ensures Announced(first, b, []) && Kept(b, u) && b.Keys == u.Keys == m.Keys
    ensures forall x <- u :: b[x].audit.t == u[x]
    ensures forall x <- m :: b[x].audit.log == if x == id then LogAfter(books[id].audit, e) else books[x].audit.log
  {
    hide After;
    b, u := Note(books, id, e), m[id := Effect(m[id], e).t];
    NoteKeeps(books, m, id, e);
    assert Tagged(id, []) == [];
    AnnouncedChains(first, books, b, [], []);
  }

  ghost function AdmittedBooks(books: Books, id: int, key: ProbeKey, sentAt: int, timeout: int, now: int,
                               a: Admission): Books
  {
    if a.Ignored? || id !in books then books
    else
      var culled := Note(books, id, CullAt(sentAt));
      if a.Unobserved? then Note(culled, id, DropAt(sentAt, timeout))
      else
        var evicted := if a.victim.Some? then Note(culled, a.victim.value, EvictAt(now)) else culled;
        Note(evicted, id, SendAt(key, sentAt, timeout))
  }

  lemma EvictedKeeps(first: Books, books: Books, m: map<int, Target>, victim: Option<int>, now: int)
    returns (b: Books, u: map<int, Target>)
    requires Announced(first, books, []) && Kept(books, m)
    ensures b == if victim.Some? then Note(books, victim.value, EvictAt(now)) else books
    ensures u == if victim.Some? && victim.value in m && m[victim.value].history != []
                 then m[victim.value := Effect(m[victim.value], EvictAt(now)).t] else m
    ensures Announced(first, b, []) && Kept(b, u) && b.Keys == u.Keys == m.Keys
    ensures forall x <- u :: b[x].audit.t == u[x] && b[x].audit.log == books[x].audit.log
  {
    hide Effect, Kept, Describes, Announced, Apply, Noted;
    SameBooks(books, m);
    b, u := books, m;
    if victim.Some? && victim.value in m && m[victim.value].history != [] {
      b, u := QuietNote(first, books, m, victim.value, EvictAt(now));
    } else if victim.Some? {
      NotNoted(books, victim.value, EvictAt(now));
    }
  }

  lemma AdmittedKeeps(books: Books, m: map<int, Target>, id: int, key: ProbeKey, sentAt: int, timeout: int, now: int,
                      a: Admission)
    requires Kept(books, m) && (a.Ignored? || (SentAfter(books, id, sentAt) && timeout > 0))
    ensures var after := AdmittedBooks(books, id, key, sentAt, timeout, now, a);
      && Kept(after, Admitted(m, id, key, sentAt, timeout, now, a)) && Announced(books, after, [])
  {
    hide Effect, Kept, Describes, Announced, Apply, Noted;
    SameBooks(books, m);
    if !a.Ignored? && id in books {
      var culled, u := QuietNote(books, books, m, id, CullAt(sentAt));
      if a.Unobserved? {
        var _, _ := QuietNote(books, culled, u, id, DropAt(sentAt, timeout));
      } else {
        var evicted, v := EvictedKeeps(books, culled, u, a.victim, now);
        var _, _ := QuietNote(books, evicted, v, id, SendAt(key, sentAt, timeout));
      }
    }
  }

  lemma CompletedKeeps(books: Books, m: map<int, Target>, id: int, i: nat, success: bool, now: int)
    requires Kept(books, m) && id in m && Open(m[id], i) && m[id].fifo[i].sentAt <= now
    ensures var e := CompletionEvent(m[id], i, success, now); var r := Completed(m[id], i, success, now);
      Kept(Note(books, id, e), m[id := r.t]) && Announced(books, Note(books, id, e), Tagged(id, r.out))
  {
    var t, a := m[id], books[id].audit;
    RunKeeps(t.policy, books[id].trace);
    assert Matches(t, a.log, t.fifo[i]);
    NoteKeeps(books, m, id, CompletionEvent(t, i, success, now));
  }

  // Events that are always possible.
  lemma FreeKeeps(books: Books, m: map<int, Target>, id: int, e: Event)
    requires Kept(books, m) && (e.GapAt? || e.NewEndpoint?)
    ensures id !in m ==> Note(books, id, e) == books
    ensures id in m ==> Kept(Note(books, id, e), m[id := Effect(m[id], e).t])
    ensures id in m ==> Announced(books, Note(books, id, e), Tagged(id, Effect(m[id], e).out))
    ensures e.GapAt? ==> Announced(books, Note(books, id, e), [])
  {
    hide Kept, Describes, Announced, Noted;
    SameBooks(books, m);
    if id in m {
      NoteKeeps(books, m, id, e);
      assert Tagged(id, []) == [];
    }
  }

  // How a matching reply enters the book.
  function ReplyEvent(t: Target, i: nat, r: Reply, now: int): Event
    requires Open(t, i)
  {
    if t.fifo[i].accepted then AcceptedReply(i, r, now) else EarlyReply(i, r)
  }

  lemma ReplyKeepsBooks(books: Books, m: map<int, Target>, id: int, i: nat, r: Reply, now: int)
    requires Kept(books, m) && id in m && Open(m[id], i) && m[id].fifo[i].sentAt <= r.replyAt.GetOr(now)
    ensures var e := ReplyEvent(m[id], i, r, now); var res := Observed(m[id], i, r, now);
      Kept(Note(books, id, e), m[id := res.t]) && Announced(books, Note(books, id, e), Tagged(id, res.out))
  {
    NoteKeeps(books, m, id, ReplyEvent(m[id], i, r, now));
  }

  // The losses of the listed probes, one after another.
  ghost function ExpiredBooks(books: Books, lost: seq<(int, nat)>, now: int): Books {
    if lost == [] then books
    else
      var books := ExpiredBooks(books, lost[..|lost| - 1], now);
      var (id, i) := lost[|lost| - 1];
      if id in books && var t := books[id].audit.t;
         Open(t, i) && t.fifo[i].accepted && t.fifo[i].Deadline() <= now
      then Note(books, id, ObsessRecovery.Deadline(i, now)) else books
  }

  lemma {:induction false} ExpiredKeeps(books: Books, m: map<int, Target>, lost: seq<(int, nat)>, now: int)
    requires Kept(books, m)
    ensures var (m', out) := Expired(m, lost, now); var after := ExpiredBooks(books, lost, now);
      Kept(after, m') && Announced(books, after, out)
  {
    hide Kept, Describes, Announced, Note, Tagged, Effect;
    SameBooks(books, m);
    if lost != [] {
      var init := lost[..|lost| - 1];
      ExpiredKeeps(books, m, init, now);
      var (u, out) := Expired(m, init, now);
      var b := ExpiredBooks(books, init, now);
      var (id, i) := lost[|lost| - 1];
      SameBooks(b, u);
      if id in u && Open(u[id], i) && u[id].fifo[i].accepted && u[id].fifo[i].Deadline() <= now {
        NoteKeeps(b, u, id, ObsessRecovery.Deadline(i, now));
        var e := ObsessRecovery.Deadline(i, now);
        AnnouncedChains(books, b, Note(b, id, e), out, Tagged(id, Effect(u[id], e).out));
      }
    }
  }

  // ---------- what the books prove ----------

  // The record at the moment of the k-th announcement justifies it: the announcing event is number
  // `j` of the trace.
  ghost predicate Grounded(policy: Policy, trace: seq<Event>, k: nat, tr: Transition, j: nat)
    requires tr.Recovered? && j < |trace|
  {
    var before, after := After(policy, trace[..j]), After(policy, trace[..j + 1]);
    && before.Some? && after.Some?
    && |before.value.out| <= k < |after.value.out| && after.value.out[k] == tr
    && Justified(after.value.log, after.value.marks, policy, tr)
  }

  /** Every recovery that was ever announced was justified by the record when it was announced. */
  lemma {:induction false} EveryRecoveryIsGrounded(policy: Policy, trace: seq<Event>, k: nat) returns (j: nat)
    requires policy.Valid() && After(policy, trace).Some?
    requires var out := After(policy, trace).value.out; k < |out| && out[k].Recovered?
    ensures j < |trace| && Grounded(policy, trace, k, After(policy, trace).value.out[k], j)
  {
    hide Justified, AllJustified, Apply, Enabled;
    assert trace != [];
    var init, e := trace[..|trace| - 1], trace[|trace| - 1];
    assert init + [e] == trace == trace[..|trace|];
    RecoveryIsSound(policy, init, e);
    var before, out := After(policy, init).value, After(policy, trace).value.out;
    if k < |before.out| {
      j := EveryRecoveryIsGrounded(policy, init, k);
      assert init[..j] == trace[..j] && init[..j + 1] == trace[..j + 1];
    } else {
      j := |init|;
      assert out[|before.out|..][k - |before.out|] == out[k];
    }
  }

  // ---------- the controller under audit ----------

  class Monitor {
    const controller: Controller
    ghost var books: Books
    // So far the sends of each target came in order and no clock reading or reply time preceded the send
    // it belongs to.
    ghost var timely: bool

    ghost predicate Valid()
      reads this, controller, controller.deadlines, controller.deadlines.items`heapIndex
      reads controller.targets.Values, controller.nodes
    {
      controller.Valid() && (timely ==> Kept(books, controller.Snapshot()))
    }

    constructor ()
      ensures Valid() && timely && books == map[] && fresh(controller) && fresh(controller.deadlines)
    {
      controller := new Controller();
      books, timely := map[], true;
    }

    /**
     The recovery guarantee, of the controller itself: whatever recovery it has announced about any
     target, the record of what really happened to that target justified it at that moment.
     */
    lemma RecoveriesAreSound(id: int, k: nat) returns (j: nat)
      requires Valid() && timely
      requires id in books && k < |books[id].audit.out| && books[id].audit.out[k].Recovered?
      ensures id in controller.targets && j < |books[id].trace|
      ensures Grounded(controller.targets[id].policy, books[id].trace, k, books[id].audit.out[k], j)
    {
      j := EveryRecoveryIsGrounded(controller.targets[id].policy, books[id].trace, k);
    }

    /**
     The other half, of the controller itself: while it has an incident open on a target, no window in
     the record of what really happened to that target earns its end.
     */
    lemma IncidentsEnd(id: int)
      requires Valid() && timely && id in controller.targets && controller.targets[id].active
      ensures id in books
      ensures var t, a := controller.targets[id], books[id].audit;
        forall s, h :: !Earned(a.log, a.marks, t.policy, t.threshold, s, h)
    {
      ObsessProgress.IncidentsEnd(controller.targets[id].policy, books[id].trace);
    }

    method Register(id: int, policy: Policy, endpoint: Option<Address>) returns (ok: bool)
      requires Valid()
      modifies this`books, controller
      ensures Valid() && (ok <==> id !in old(controller.targets) && policy.Valid())
      ensures books == if ok then old(books)[id := Book([], Begin(policy))] else old(books)
    {
      hide Controller.Linked, Controller.Keyed, Controller.Heaped, Controller.FifoCounted, Controller.LiveCounted,
        Controller.Snapshot;
      hide TargetState.Value, Rested;
      ok := controller.Register(id, policy, endpoint);
      if ok {
        books := books[id := Book([], Begin(policy))];
      }
    }

    method BeginProbe(id: int, key: ProbeKey, endpoint: Option<Address>, sentAt: int, timeout: int, now: int)
      returns (ghost a: Admission)
      requires Valid()
      modifies this`books, this`timely, controller, controller.targets.Values
      ensures Valid() && timely == (old(timely) && (a.Ignored? || SentAfter(old(books), id, sentAt)))
      ensures timely ==> Announced(old(books), books, [])
      ensures timely ==> books == AdmittedBooks(old(books), id, key, sentAt, timeout, now, a)
    {
      hide Controller.Linked, Controller.Keyed, Controller.Heaped, Controller.FifoCounted, Controller.LiveCounted,
        Controller.Snapshot;
      hide TargetState.Value, Admitted, AdmittedBooks, Rested, Announced;
      ghost var m := controller.Snapshot();
      a := controller.BeginProbe(id, key, endpoint, sentAt, timeout, now);
      timely := timely && (a.Ignored? || SentAfter(books, id, sentAt));
      if timely {
        AdmittedKeeps(books, m, id, key, sentAt, timeout, now, a);
        books := AdmittedBooks(books, id, key, sentAt, timeout, now, a);
      }
    }

    method CompleteProbe(key: ProbeKey, success: bool, now: int)
      returns (out: seq<Transition>, ghost id: int, ghost i: nat)
      requires Valid()
      modifies this`books, this`timely, controller, controller.deadlines, controller.targets.Values, controller.nodes
      ensures Valid() && timely == (old(timely) && SentBy(old(controller.Snapshot()), key, now))
      ensures timely ==> Announced(old(books), books, Tagged(id, out))
      ensures timely && (key !in old(controller.probes) || old(controller.probes[key].accepted)) ==>
        books == old(books) && out == []
      ensures timely && key in old(controller.probes) && !old(controller.probes[key].accepted) ==>
        var m := old(controller.Snapshot());
        && id in m && Open(m[id], i) && m[id].fifo[i].key == key
        && books == Note(old(books), id, CompletionEvent(m[id], i, success, now))
    {
      hide Controller.Linked, Controller.Keyed, Controller.Heaped, Controller.FifoCounted, Controller.LiveCounted,
        Controller.Snapshot;
      hide TargetState.Value, Completed, CompletionEvent, Rested, Note, Kept, Announced;
      ghost var m := controller.Snapshot();
      ghost var known := key in controller.probes && !controller.probes[key].accepted;
      out, id, i := controller.CompleteProbe(key, success, now);
      timely := timely && SentBy(m, key, now);
      if timely {
        if known {
          CompletedKeeps(books, m, id, i, success, now);
          books := Note(books, id, CompletionEvent(m[id], i, success, now));
        } else {
          SameBooks(books, m);
        }
      }
    }

    method ObserveReply(key: ProbeKey, responder: Address, r: Reply, now: int)
      returns (out: seq<Transition>, ghost id: int, ghost i: nat)
      requires Valid()
      modifies this`books, this`timely, controller, controller.deadlines, controller.targets.Values, controller.nodes
      ensures Valid() && timely == (old(timely) && SentBy(old(controller.Snapshot()), key, r.replyAt.GetOr(now)))
      ensures timely ==> Announced(old(books), books, Tagged(id, out))
      ensures var known := key in old(controller.probes)
        && SameResponder(old(controller.probes[key].endpoint), responder);
        timely ==>
          if known && r.rtt >= 0 then
            var m := old(controller.Snapshot());
            && id in m && Open(m[id], i) && m[id].fifo[i].key == key
            && books == Note(old(books), id, ReplyEvent(m[id], i, r, now))
          else books == old(books) && out == []
    {
      hide Controller.Linked, Controller.Keyed, Controller.Heaped, Controller.FifoCounted, Controller.LiveCounted,
        Controller.Snapshot;
      hide TargetState.Value, Observed, ReplyEvent, Rested, Note, Kept, Announced;
      ghost var m := controller.Snapshot();
      ghost var known := key in controller.probes && SameResponder(controller.probes[key].endpoint, responder);
      out, id, i := controller.ObserveReply(key, responder, r, now);
      timely := timely && SentBy(m, key, r.replyAt.GetOr(now));
      if timely {
        if known && r.rtt >= 0 {
          ReplyKeepsBooks(books, m, id, i, r, now);
          books := Note(books, id, ReplyEvent(m[id], i, r, now));
        } else {
          SameBooks(books, m);
        }
      }
    }

    method ObserveGap(id: int, missed: nat, now: int)
      requires Valid()
      modifies this`books, controller, controller.targets.Values
      ensures Valid() && (timely ==> Announced(old(books), books, []))
      ensures timely ==> books == if missed > 0 then Note(old(books), id, GapAt(now)) else old(books)
    {
      hide Controller.Linked, Controller.Keyed, Controller.Heaped, Controller.FifoCounted, Controller.LiveCounted,
        Controller.Snapshot;
      hide TargetState.Value, Rested, Kept, Announced, Note, Effect;
      ghost var m := controller.Snapshot();
      controller.ObserveGap(id, missed, now);
      if timely {
        SameBooks(books, m);
        if missed > 0 {
          FreeKeeps(books, m, id, GapAt(now));
          books := Note(books, id, GapAt(now));
        }
      }
    }

    // What the books say stays true even when a reused key spoils the key map.
    method UpdateEndpoint(id: int, endpoint: Option<Address>) returns (out: seq<Transition>)
      requires Valid()
      modifies this`books, controller, controller.deadlines, controller.targets.Values, controller.nodes
      ensures controller.Sound() && (timely ==> Kept(books, controller.Snapshot()))
      ensures Valid() <==> (id in old(controller.targets) && old(controller.targets[id].endpoint) != endpoint ==>
                              old(controller.OwnsKeys(controller.targets[id])))
      ensures timely ==> Announced(old(books), books, Tagged(id, out))
      ensures timely ==> books == if id in old(controller.targets) && old(controller.targets[id].endpoint) != endpoint
                                  then Note(old(books), id, NewEndpoint) else old(books)
    {
      hide Controller.Linked, Controller.Keyed, Controller.Heaped, Controller.FifoCounted, Controller.LiveCounted,
        Controller.Snapshot;
      hide TargetState.Value, Rested, Kept, Announced, Note, Effect, Controller.OwnsKeys;
      ghost var m := controller.Snapshot();
      controller.ShowsTargets();
      ghost var changed := id in controller.targets && controller.targets[id].endpoint != endpoint;
      out := controller.UpdateEndpoint(id, endpoint);
      if timely {
        if changed {
          FreeKeeps(books, m, id, NewEndpoint);
          books := Note(books, id, NewEndpoint);
        } else {
          SameBooks(books, m);
        }
      }
    }

    method ExpireDue(now: int) returns (out: seq<(int, Transition)>, ghost lost: seq<(int, nat)>)
      requires Valid()
      modifies this`books, controller, controller.deadlines, controller.targets.Values, controller.nodes
      ensures Valid() && (timely ==> Announced(old(books), books, out))
      ensures timely ==> books == ExpiredBooks(old(books), lost, now)
    {
      hide Controller.Linked, Controller.Keyed, Controller.Heaped, Controller.FifoCounted, Controller.LiveCounted,
        Controller.Snapshot;
      hide TargetState.Value, Rested, Kept, Announced, Expired, ExpiredBooks;
      ghost var m := controller.Snapshot();
      out, lost := controller.ExpireDue(now);
      if timely {
        ExpiredKeeps(books, m, lost, now);
        books := ExpiredBooks(books, lost, now);
      }
    }
  }
}
