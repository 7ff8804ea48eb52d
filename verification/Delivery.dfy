/**
 Delivery order. A reply may reach the store before the row of its probe. Whatever the interleaving,
 the row ends as if the probe had been stored first, unless an early reply displaced another one.
 */
module Delivery {
  import opened Common
  import opened PingAggregate
  import opened TimeGrid
  import opened SampleStore

  /** The replies to a key in order of arrival. */
  function RepliesTo(es: seq<Event>, k: ProbeKey): seq<Reply> {
    if es == [] then []
    else
      var e := es[|es| - 1];
      var before := RepliesTo(es[..|es| - 1], k);
      if e.Replied? && e.key == k then before + [e.reply] else before
  }

  predicate Stored(es: seq<Event>, k: ProbeKey) {
    es != [] && (Stored(es[..|es| - 1], k) || (es[|es| - 1].Sent? && es[|es| - 1].key == k))
  }

  /**
   The replies the row of a key gets to see: of those before the row only the last, and none that was
   too old to be buffered.
   */
  function Seen(es: seq<Event>, k: ProbeKey, through: int): seq<Reply> {
    if es == [] then []
    else
      var e := es[|es| - 1];
      var before := Seen(es[..|es| - 1], k, through);
      if e.Replied? && e.key == k then
        if Stored(es[..|es| - 1], k) then before + [e.reply]
        else if e.reply.sentAt.Some? && e.reply.sentAt.value <= through then before
        else [e.reply]
      else before
  }

  // The row as sent.
  function RowOf(es: seq<Event>, k: ProbeKey): Row
    requires Stored(es, k)
  {
    var n := |es| - 1;
    if Stored(es[..n], k) then RowOf(es[..n], k) else NewRow(es[n])
  }

  function AnswerAll(r: Row, replies: seq<Reply>): Row {
    if replies == [] then r else Answer(AnswerAll(r, replies[..|replies| - 1]), replies[|replies| - 1])
  }

  /** The minutes of the sent probes and of the gaps. */
  function Touched(es: seq<Event>): set<Minute> {
    if es == [] then {}
    else
      var e := es[|es| - 1];
      var before := Touched(es[..|es| - 1]);
      match e
      case Sent(_, _, _, _, _, _, _) => before + {MinuteOf(e.target, e.scheduled)}
      case Replied(_, _) => before
      case Missing(_, _, _, _) =>
        before + Marks(e.target, Floor(e.firstNanos / 1000, MINUTE), Floor(LastMissed(e), MINUTE))
  }

  // What a run leaves for one key.
  ghost predicate Delivered(s: State, es: seq<Event>, through: int, k: ProbeKey) {
    && (k in s.tables.rows <==> Stored(es, k))
    && (k in s.tables.rows ==>
        s.tables.rows[k] == AnswerAll(RowOf(es, k), Seen(es, k, through)) && k !in s.orphans
        && MinuteOf(RowOf(es, k).target, RowOf(es, k).scheduled) in s.dirty)
    && (k !in s.tables.rows ==> Seen(es, k, through) == if k in s.orphans then [s.orphans[k]] else [])
  }

  lemma {:induction false} AnswerKeeps(r: Row, replies: seq<Reply>)
    ensures var a := AnswerAll(r, replies);
            a.target == r.target && a.scheduled == r.scheduled && a.address == r.address
  {
    if replies != [] {
      AnswerKeeps(r, replies[..|replies| - 1]);
    }
  }

  lemma AnswerMore(r: Row, replies: seq<Reply>, x: Reply)
    ensures AnswerAll(r, replies + [x]) == Answer(AnswerAll(r, replies), x)
  {
    assert (replies + [x])[..|replies + [x]| - 1] == replies;
  }

  // An event that is not about a key changes nothing that is.
  lemma NotAbout(es: seq<Event>, e: Event, through: int, k: ProbeKey)
    requires e.Missing? || e.key != k
    ensures Stored(es + [e], k) == Stored(es, k) && (Stored(es, k) ==> RowOf(es + [e], k) == RowOf(es, k))
    ensures Seen(es + [e], k, through) == Seen(es, k, through)
  {
    assert (es + [e])[..|es + [e]| - 1] == es;
  }

  // Nothing of key k differs, and no dirty minute is lost.
  ghost predicate Untouched(s: State, s': State, k: ProbeKey) {
    && (k in s'.tables.rows <==> k in s.tables.rows)
    && (k in s.tables.rows ==> s'.tables.rows[k] == s.tables.rows[k])
    && (k in s'.orphans <==> k in s.orphans)
    && (k in s.orphans ==> s'.orphans[k] == s.orphans[k])
    && s.dirty <= s'.dirty && s'.prunedThrough == s.prunedThrough
  }

  lemma SendLeaves(s: State, s': State, e: Event, k: ProbeKey)
    requires e.Sent? && InsertProbe(s, e) == Some(s') && e.key != k
    ensures Untouched(s, s', k)
  {
    hide Answer, MinuteOf;
  }

  lemma ReceiveLeaves(s: State, s': State, e: Event, k: ProbeKey)
    requires e.Replied? && Receive(s, e) == Some(s') && e.key != k
    ensures Untouched(s, s', k)
  {
    hide Answer, MinuteOf;
  }

  lemma GapLeaves(s: State, s': State, e: Event, k: ProbeKey)
    requires e.Missing? && InsertGap(s, e) == Some(s')
    ensures Untouched(s, s', k)
  {
    hide Floor, Marks, LastMissed;
  }

  lemma LeavesOthers(s: State, s': State, e: Event, k: ProbeKey)
    requires Apply(s, e) == Some(s') && (e.Missing? || e.key != k)
    ensures Untouched(s, s', k)
  {
    hide Untouched, InsertGap, Receive, InsertProbe;
    if e.Sent? {
      SendLeaves(s, s', e, k);
    } else if e.Replied? {
      assert Untouched(s, s', k) by {
        assert Receive(s, e) == Some(s');
        ReceiveLeaves(s, s', e, k);
      }
    } else {
      assert InsertGap(s, e) == Some(s');
      GapLeaves(s, s', e, k);
    }
  }

  lemma DeliversOther(s: State, s': State, es: seq<Event>, e: Event, through: int, k: ProbeKey)
    requires s.prunedThrough == through && Delivered(s, es, through, k) && Apply(s, e) == Some(s')
    requires e.Missing? || e.key != k
    ensures Delivered(s', es + [e], through, k)
  {
    hide Floor, Marks, Answer, LastMissed, Stored, Seen, RowOf, AnswerAll, Apply;
    NotAbout(es, e, through, k);
    LeavesOthers(s, s', e, k);
  }

  lemma DeliversSend(s: State, s': State, es: seq<Event>, e: Event, through: int, k: ProbeKey)
    requires s.prunedThrough == through && Delivered(s, es, through, k) && Apply(s, e) == Some(s')
    requires e.Sent? && e.key == k
    ensures Delivered(s', es + [e], through, k)
  {
    hide Floor, Marks;
    assert (es + [e])[..|es + [e]| - 1] == es;
    if k in s.orphans {
      AnswerMore(NewRow(e), [], s.orphans[k]);
    }
  }

  lemma DeliversReply(s: State, s': State, es: seq<Event>, e: Event, through: int, k: ProbeKey)
    requires s.prunedThrough == through && Delivered(s, es, through, k) && Apply(s, e) == Some(s')
    requires e.Replied? && e.key == k
    ensures Delivered(s', es + [e], through, k)
  {
    hide Floor, Marks;
    assert (es + [e])[..|es + [e]| - 1] == es;
    if k in s.tables.rows {
      AnswerKeeps(RowOf(es, k), Seen(es, k, through));
      AnswerMore(RowOf(es, k), Seen(es, k, through), e.reply);
    }
  }

  // One event brings the row of its own key up to date and leaves the other keys alone.
  lemma DeliversOne(s: State, s': State, es: seq<Event>, e: Event, through: int, k: ProbeKey)
    requires s.prunedThrough == through && Delivered(s, es, through, k) && Apply(s, e) == Some(s')
    ensures Delivered(s', es + [e], through, k)
  {
    hide Delivered;
    if e.Missing? || e.key != k {
      DeliversOther(s, s', es, e, through, k);
    } else if e.Sent? {
      DeliversSend(s, s', es, e, through, k);
    } else {
      DeliversReply(s, s', es, e, through, k);
    }
  }

  lemma DirtyGrows(s: State, s': State, e: Event, es: seq<Event>)
    requires Apply(s, e) == Some(s')
    requires forall k <- s.tables.rows :: MinuteOf(s.tables.rows[k].target, s.tables.rows[k].scheduled) in s.dirty
    requires s.dirty == Touched(es)
    ensures s'.dirty == Touched(es + [e]) && s'.prunedThrough == s.prunedThrough
  {
    hide Floor, Marks;
    assert (es + [e])[..|es + [e]| - 1] == es;
  }

  lemma NothingDelivered(k: ProbeKey)
    ensures Delivered(START, [], START.prunedThrough, k)
  {
  }

  lemma RowIsMarked(s: State, es: seq<Event>, k: ProbeKey)
    requires Delivered(s, es, s.prunedThrough, k) && k in s.tables.rows
    ensures MinuteOf(s.tables.rows[k].target, s.tables.rows[k].scheduled) in s.dirty
  {
    hide Floor;
    AnswerKeeps(RowOf(es, k), Seen(es, k, s.prunedThrough));
  }

  /**
   Order independence. After any run of writes the row of a probe is its sent row with the replies it
   gets to see folded in, rows exist for exactly the sent probes, and the dirty minutes are those of
   the sent probes and gaps, whenever replies arrived.
   */
  lemma {:induction false} RowsAreDelivered(s: State, es: seq<Event>)
    requires ApplyAll(START, es) == Some(s)
    ensures forall k :: Delivered(s, es, START.prunedThrough, k)
    ensures s.dirty == Touched(es) && s.prunedThrough == START.prunedThrough
    decreases |es|
  {
    hide Apply, Delivered;
    if es == [] {
      forall k
        ensures Delivered(s, es, START.prunedThrough, k)
      {
        NothingDelivered(k);
      }
    } else {
      var before, e := es[..|es| - 1], es[|es| - 1];
      var s0 := ApplyAll(START, before).value;
      assert before + [e] == es;
      RowsAreDelivered(s0, before);
      forall k
        ensures Delivered(s, es, START.prunedThrough, k)
      {
        DeliversOne(s0, s, before, e, START.prunedThrough, k);
      }
      forall k | k in s0.tables.rows
        ensures MinuteOf(s0.tables.rows[k].target, s0.tables.rows[k].scheduled) in s0.dirty
      {
        RowIsMarked(s0, before, k);
      }
      DirtyGrows(s0, s, e, before);
    }
  }

  // ---------- send before reply ----------

  /** The replies from the probed address. */
  function Genuine(address: nat, replies: seq<Reply>): seq<Reply> {
    if replies == [] then []
    else
      var before := Genuine(address, replies[..|replies| - 1]);
      var x := replies[|replies| - 1];
      if x.responder == address then before + [x] else before
  }

  /** The first genuine reply is kept for good, and every further one is counted as a duplicate. */
  lemma {:induction false} FirstReplyIsKept(r: Row, replies: seq<Reply>)
    requires r.reply.None?
    ensures var g := Genuine(r.address, replies);
            AnswerAll(r, replies)
            == if g == [] then r else r.(reply := Some(g[0].answer), duplicates := r.duplicates + |g| - 1)
  {
    if replies != [] {
      FirstReplyIsKept(r, replies[..|replies| - 1]);
    }
  }

  lemma GenuineMore(address: nat, replies: seq<Reply>, x: Reply)
    ensures Genuine(address, replies + [x]) == Genuine(address, replies) + if x.responder == address then [x] else []
  {
    assert (replies + [x])[..|replies + [x]| - 1] == replies;
  }

  /** The replies that no row sees: displaced from the buffer by another one, or too old for it. */
  function Displaced(es: seq<Event>, k: ProbeKey, through: int): seq<Reply> {
    if es == [] then []
    else
      var e, before := es[|es| - 1], es[..|es| - 1];
      var lost := Displaced(before, k, through);
      if e.Replied? && e.key == k && !Stored(before, k) then
        if e.reply.sentAt.Some? && e.reply.sentAt.value <= through then lost + [e.reply]
        else lost + Seen(before, k, through)
      else lost
  }

  lemma {:induction false} SeenBuffered(es: seq<Event>, k: ProbeKey, through: int)
    requires !Stored(es, k)
    ensures |Seen(es, k, through)| <= 1
  {
    if es != [] {
      SeenBuffered(es[..|es| - 1], k, through);
    }
  }

  lemma OnReply(es: seq<Event>, e: Event, k: ProbeKey, through: int)
    ensures var after := es + [e];
            var mine := e.Replied? && e.key == k;
            var early := mine && !Stored(es, k);
            var stale := mine && e.reply.sentAt.Some? && e.reply.sentAt.value <= through;
            && RepliesTo(after, k) == RepliesTo(es, k) + (if mine then [e.reply] else [])
            && Seen(after, k, through)
               == (if early && stale then Seen(es, k, through) else if early then [e.reply]
                   else Seen(es, k, through) + if mine then [e.reply] else [])
            && Displaced(after, k, through)
               == Displaced(es, k, through) + if !early then [] else if stale then [e.reply] else Seen(es, k, through)
  {
    assert (es + [e])[..|es + [e]| - 1] == es;
  }

  lemma GenuineEmpty(address: nat)
    ensures Genuine(address, []) == []
  {
  }

  lemma SeenOrDisplacedNext(es: seq<Event>, e: Event, k: ProbeKey, through: int, address: nat)
    requires Stored(es, k) || |Seen(es, k, through)| <= 1
    requires |Genuine(address, RepliesTo(es, k))|
          == |Genuine(address, Seen(es, k, through))| + |Genuine(address, Displaced(es, k, through))|
    requires Genuine(address, Displaced(es, k, through)) == []
         ==> Genuine(address, RepliesTo(es, k)) == Genuine(address, Seen(es, k, through))
    ensures |Genuine(address, RepliesTo(es + [e], k))|
         == |Genuine(address, Seen(es + [e], k, through))| + |Genuine(address, Displaced(es + [e], k, through))|
    ensures Genuine(address, Displaced(es + [e], k, through)) == []
        ==> Genuine(address, RepliesTo(es + [e], k)) == Genuine(address, Seen(es + [e], k, through))
  {
    hide RepliesTo, Seen, Displaced, Stored, Genuine;
    OnReply(es, e, k, through);
    var every, seen, lost := RepliesTo(es, k), Seen(es, k, through), Displaced(es, k, through);
    assert every + [] == every && seen + [] == seen && lost + [] == lost;
    if e.Replied? && e.key == k {
      GenuineMore(address, every, e.reply);
      GenuineMore(address, seen, e.reply);
      GenuineMore(address, lost, e.reply);
      GenuineMore(address, [], e.reply);
      assert [] + [e.reply] == [e.reply];
      if !Stored(es, k) && seen != [] {
        GenuineMore(address, lost, seen[0]);
        GenuineMore(address, [], seen[0]);
        assert seen == [seen[0]] == [] + [seen[0]];
      }
      assert Genuine(address, []) == [] by { GenuineEmpty(address); }
    }
  }

  // Every genuine reply is either seen by the row or displaced.
  lemma {:induction false} SeenOrDisplaced(es: seq<Event>, k: ProbeKey, through: int, address: nat)
    ensures |Genuine(address, RepliesTo(es, k))|
         == |Genuine(address, Seen(es, k, through))| + |Genuine(address, Displaced(es, k, through))|
    ensures Genuine(address, Displaced(es, k, through)) == []
        ==> Genuine(address, RepliesTo(es, k)) == Genuine(address, Seen(es, k, through))
    decreases |es|
  {
    if es != [] {
      var e, before := es[|es| - 1], es[..|es| - 1];
      SeenOrDisplaced(before, k, through, address);
      assert es == before + [e];
      if !Stored(before, k) {
        SeenBuffered(before, k, through);
      }
      SeenOrDisplacedNext(before, e, k, through, address);
    }
  }

  lemma {:induction false} SentFresh(es: seq<Event>, k: ProbeKey)
    requires Stored(es, k)
    ensures RowOf(es, k).reply.None?
  {
    if Stored(es[..|es| - 1], k) {
      SentFresh(es[..|es| - 1], k);
    }
  }

  lemma {:induction false} GenuineNone(address: nat, replies: seq<Reply>)
    ensures Genuine(address, replies) == [] <==> forall x <- replies :: x.responder != address
  {
    if replies != [] {
      GenuineNone(address, replies[..|replies| - 1]);
      assert replies == replies[..|replies| - 1] + [replies[|replies| - 1]];
    }
  }

  /**
   A row is what it would be had its probe been stored before every reply if and only if no displaced
   reply came from the probed address.
   */
  lemma SameAsSendFirstIff(es: seq<Event>, k: ProbeKey, through: int)
    requires Stored(es, k)
    ensures AnswerAll(RowOf(es, k), Seen(es, k, through)) == AnswerAll(RowOf(es, k), RepliesTo(es, k))
        <==> forall x <- Displaced(es, k, through) :: x.responder != RowOf(es, k).address
  {
    var r := RowOf(es, k);
    SentFresh(es, k);
    FirstReplyIsKept(r, Seen(es, k, through));
    FirstReplyIsKept(r, RepliesTo(es, k));
    SeenOrDisplaced(es, k, through, r.address);
    GenuineNone(r.address, Displaced(es, k, through));
  }

  // The replies that come before the row of their probe.
  function Early(es: seq<Event>, k: ProbeKey): seq<Reply> {
    if es == [] then []
    else
      var e, before := es[|es| - 1], es[..|es| - 1];
      if e.Replied? && e.key == k && !Stored(before, k) then Early(before, k) + [e.reply] else Early(before, k)
  }

  // What one more event adds to a run.
  lemma OnEvent(es: seq<Event>, e: Event, k: ProbeKey)
    ensures Stored(es + [e], k) == (Stored(es, k) || (e.Sent? && e.key == k))
    ensures Stored(es + [e], k) ==> RowOf(es + [e], k) == if Stored(es, k) then RowOf(es, k) else NewRow(e)
    ensures RepliesTo(es + [e], k) == RepliesTo(es, k) + if e.Replied? && e.key == k then [e.reply] else []
    ensures Early(es + [e], k) == Early(es, k) + if e.Replied? && e.key == k && !Stored(es, k) then [e.reply] else []
    ensures Touched(es + [e]) == Touched(es) + Touched([e])
    ensures e.Replied? ==> Touched([e]) == {}
  {
    assert (es + [e])[..|es + [e]| - 1] == es;
    assert [e][..|[e]| - 1] == [];
  }

  lemma Buffered(k: ProbeKey, a: Reply, b: Reply)
    requires a.sentAt.None? && b.sentAt.None?
    ensures var es := [Replied(k, a), Replied(k, b)];
            !Stored(es, k) && RepliesTo(es, k) == [a, b] && Seen(es, k, 0) == [b]
  {
    var x, y := Replied(k, a), Replied(k, b);
    assert [x, y] == [x] + [y] && [x] == [] + [x];
    OnReply([], x, k, 0);
    OnReply([x], y, k, 0);
    OnEvent([], x, k);
    OnEvent([x], y, k);
  }

  /** Two replies before the row: the second takes the place of the first, which is never counted. */
  lemma SecondEarlyReplyDisplaces(k: ProbeKey, a: Reply, b: Reply, target: int, address: nat)
    requires a.responder == b.responder == address && a.sentAt.None? && b.sentAt.None?
    ensures var send := Sent(k, target, address, 0, 0, 1, false);
            var es := [Replied(k, a), Replied(k, b), send];
            && AnswerAll(RowOf(es, k), Seen(es, k, 0)) == NewRow(send).(reply := Some(b.answer))
            && AnswerAll(RowOf(es, k), RepliesTo(es, k)) == NewRow(send).(reply := Some(a.answer), duplicates := 1)
  {
    var send := Sent(k, target, address, 0, 0, 1, false);
    var x, y := Replied(k, a), Replied(k, b);
    var es := [x, y] + [send];
    assert [x, y, send] == es;
    Buffered(k, a, b);
    hide Stored, RowOf, RepliesTo, Seen, Displaced, Early, Touched, AnswerAll, Genuine;
    OnReply([x, y], send, k, 0);
    OnEvent([x, y], send, k);
    FirstReplyIsKept(NewRow(send), [b]);
    FirstReplyIsKept(NewRow(send), [a, b]);
    GenuineMore(address, [], a);
    GenuineMore(address, [], b);
    GenuineMore(address, [a], b);
    GenuineEmpty(address);
    assert [] + [a] == [a] && [] + [b] == [b] && [a] + [b] == [a, b];
  }

  lemma {:induction false} OneEarlyReply(es: seq<Event>, k: ProbeKey, through: int)
    requires |Early(es, k)| <= 1
    requires forall x <- Early(es, k) :: !(x.sentAt.Some? && x.sentAt.value <= through)
    ensures Displaced(es, k, through) == []
    ensures !Stored(es, k) ==> Seen(es, k, through) == Early(es, k)
    decreases |es|
  {
    if es != [] {
      OneEarlyReply(es[..|es| - 1], k, through);
    }
  }

  // The same probes and gaps, and for every probe the same replies in the same order.
  ghost predicate SameTraffic(a: seq<Event>, b: seq<Event>) {
    && Touched(a) == Touched(b)
    && forall k :: Stored(a, k) == Stored(b, k) && RepliesTo(a, k) == RepliesTo(b, k)
                   && (Stored(a, k) ==> RowOf(a, k) == RowOf(b, k))
  }

  ghost predicate Prompt(es: seq<Event>) {
    forall k | Stored(es, k) ::
      |Early(es, k)| <= 1 && forall x <- Early(es, k) :: !(x.sentAt.Some? && x.sentAt.value <= START.prunedThrough)
  }

  lemma RowIsSendFirst(es: seq<Event>, s: State, k: ProbeKey)
    requires Prompt(es) && Delivered(s, es, START.prunedThrough, k)
    ensures k in s.tables.rows <==> Stored(es, k)
    ensures Stored(es, k) ==> s.tables.rows[k] == AnswerAll(RowOf(es, k), RepliesTo(es, k))
  {
    if Stored(es, k) {
      OneEarlyReply(es, k, START.prunedThrough);
      SameAsSendFirstIff(es, k, START.prunedThrough);
    }
  }

  /**
   With at most one reply before its row, every interleaving of the same traffic leaves the same rows
   and the same dirty minutes.
   */
  lemma InterleavingDoesNotMatter(a: seq<Event>, b: seq<Event>, s: State, s': State)
    requires SameTraffic(a, b) && Prompt(a) && Prompt(b)
    requires ApplyAll(START, a) == Some(s) && ApplyAll(START, b) == Some(s')
    ensures s.tables.rows == s'.tables.rows && s.dirty == s'.dirty
  {
    RowsAreDelivered(s, a);
    RowsAreDelivered(s', b);
    forall k
      ensures (k in s.tables.rows <==> k in s'.tables.rows)
      ensures k in s.tables.rows ==> s.tables.rows[k] == s'.tables.rows[k]
    {
      RowIsSendFirst(a, s, k);
      RowIsSendFirst(b, s', k);
    }
  }

  // The same run with every reply after all probes and gaps.
  function Sends(es: seq<Event>): seq<Event> {
    if es == [] then []
    else if es[|es| - 1].Replied? then Sends(es[..|es| - 1])
    else Sends(es[..|es| - 1]) + [es[|es| - 1]]
  }

  function Replies(es: seq<Event>): seq<Event> {
    if es == [] then []
    else if es[|es| - 1].Replied? then Replies(es[..|es| - 1]) + [es[|es| - 1]]
    else Replies(es[..|es| - 1])
  }

  lemma Divided(es: seq<Event>, e: Event)
    ensures Sends(es + [e]) == Sends(es) + if e.Replied? then [] else [e]
    ensures Replies(es + [e]) == Replies(es) + if e.Replied? then [e] else []
  {
    assert (es + [e])[..|es + [e]| - 1] == es;
  }

  lemma {:induction false} StoredBySends(es: seq<Event>, k: ProbeKey)
    ensures Stored(Sends(es), k) == Stored(es, k) && (Stored(es, k) ==> RowOf(Sends(es), k) == RowOf(es, k))
    ensures Touched(Sends(es)) == Touched(es) && RepliesTo(Replies(es), k) == RepliesTo(es, k)
    ensures (forall e <- Replies(es) :: e.Replied?) && (forall e <- Sends(es) :: !e.Replied?)
    decreases |es|
  {
    if es != [] {
      hide Stored, RowOf, Touched, RepliesTo, Early, Sends, Replies;
      var e, before := es[|es| - 1], es[..|es| - 1];
      assert es == before + [e];
      StoredBySends(before, k);
      Divided(before, e);
      OnEvent(before, e, k);
      OnEvent(Sends(before), e, k);
      OnEvent(Replies(before), e, k);
    }
  }

  lemma {:induction false} ThenReplies(a: seq<Event>, b: seq<Event>, k: ProbeKey)
    requires forall e <- b :: e.Replied?
    ensures Stored(a + b, k) == Stored(a, k) && (Stored(a, k) ==> RowOf(a + b, k) == RowOf(a, k))
    ensures Touched(a + b) == Touched(a) && RepliesTo(a + b, k) == RepliesTo(a, k) + RepliesTo(b, k)
    ensures Stored(a, k) ==> Early(a + b, k) == Early(a, k)
    decreases |b|
  {
    if b == [] {
      assert a + b == a;
    } else {
      hide Stored, RowOf, Touched, RepliesTo, Early;
      var e, before := b[|b| - 1], b[..|b| - 1];
      assert a + b == (a + before) + [e] && b == before + [e];
      ThenReplies(a, before, k);
      OnEvent(a + before, e, k);
      OnEvent(before, e, k);
    }
  }

  lemma {:induction false} NoReplies(es: seq<Event>, k: ProbeKey)
    requires forall e <- es :: !e.Replied?
    ensures RepliesTo(es, k) == [] && Early(es, k) == []
  {
    if es != [] {
      NoReplies(es[..|es| - 1], k);
    }
  }

  // What an event does to the keys with a row and to those with a buffered reply.
  ghost predicate Moves(s: State, s': State, e: Event) {
    var sent := if e.Sent? then {e.key} else {};
    var kept := if e.Replied? && e.key !in s.tables.rows && !Pruned(s, e.reply) then {e.key} else {};
    && s'.prunedThrough == s.prunedThrough
    && s'.tables.rows.Keys == s.tables.rows.Keys + sent
    && s'.orphans.Keys == s.orphans.Keys - sent + kept
  }

  lemma SendMoves(s: State, e: Event)
    requires e.Sent? && InsertProbe(s, e).Some?
    ensures Moves(s, InsertProbe(s, e).value, e)
  {
    hide MinuteOf, Answer, Pruned;
  }

  lemma AnswerMoves(s: State, key: ProbeKey, reply: Reply)
    requires key in s.tables.rows
    ensures var s' := ApplyReply(s, key, reply);
      && s'.tables.rows.Keys == s.tables.rows.Keys && s'.orphans == s.orphans && s'.prunedThrough == s.prunedThrough
  {
    hide MinuteOf, Answer;
    assert s.tables.rows[key := Answer(s.tables.rows[key], reply)].Keys == s.tables.rows.Keys;
  }

  lemma ReplyMoves(s: State, e: Event)
    requires e.Replied? && Receive(s, e).Some?
    ensures Moves(s, Receive(s, e).value, e)
  {
    hide ApplyReply, Pruned;
    assert s.tables.rows.Keys + {} == s.tables.rows.Keys && s.orphans.Keys - {} + {} == s.orphans.Keys;
    if e.key in s.tables.rows {
      AnswerMoves(s, e.key, e.reply);
    } else if !Pruned(s, e.reply) {
      assert s.orphans[e.key := e.reply].Keys == s.orphans.Keys - {} + {e.key};
    }
  }

  lemma GapMoves(s: State, e: Event)
    requires e.Missing? && InsertGap(s, e).Some?
    ensures Moves(s, InsertGap(s, e).value, e)
  {
    hide Floor, Marks, LastMissed, Pruned;
  }

  lemma KeysAfter(s: State, e: Event)
    requires Apply(s, e).Some?
    ensures Moves(s, Apply(s, e).value, e)
  {
    hide InsertProbe, Receive, InsertGap, Moves;
    match e
    case Sent(_, _, _, _, _, _, _) => SendMoves(s, e);
    case Replied(_, _) => ReplyMoves(s, e);
    case Missing(_, _, _, _) => GapMoves(s, e);
  }

  lemma AllButLast(s: State, es: seq<Event>, e: Event)
    ensures ApplyAll(s, es + [e]) == if ApplyAll(s, es).None? then None else Apply(ApplyAll(s, es).value, e)
  {
    hide Apply;
    assert (es + [e])[..|es + [e]| - 1] == es;
  }

  lemma WriteFits(s: State, a: State, e: Event)
    requires !e.Replied? && Apply(s, e).Some? && a.tables.rows.Keys == s.tables.rows.Keys
    ensures Apply(a, e).Some?
  {
  }

  // Without the replies the writes of a run succeed as well.
  lemma {:induction false} SendsFit(es: seq<Event>)
    requires ApplyAll(START, es).Some?
    ensures ApplyAll(START, Sends(es)).Some?
    ensures var s, a := ApplyAll(START, es).value, ApplyAll(START, Sends(es)).value;
      && a.tables.rows.Keys == s.tables.rows.Keys && a.orphans.Keys == {}
      && a.prunedThrough == s.prunedThrough == START.prunedThrough
    decreases |es|
  {
    hide Apply;
    if es != [] {
      var before, e := es[..|es| - 1], es[|es| - 1];
      assert es == before + [e];
      SendsFit(before);
      var s, a := ApplyAll(START, before).value, ApplyAll(START, Sends(before)).value;
      AllButLast(START, before, e);
      AllButLast(START, Sends(before), e);
      Divided(before, e);
      KeysAfter(s, e);
      if !e.Replied? {
        WriteFits(s, a, e);
        KeysAfter(a, e);
      }
    }
  }

  lemma {:induction false} RowsAreStored(es: seq<Event>, k: ProbeKey)
    requires ApplyAll(START, es).Some?
    ensures k in ApplyAll(START, es).value.tables.rows <==> Stored(es, k)
    decreases |es|
  {
    hide Apply;
    if es != [] {
      RowsAreStored(es[..|es| - 1], k);
      KeysAfter(ApplyAll(START, es[..|es| - 1]).value, es[|es| - 1]);
    }
  }

  lemma {:induction false} SizeGrows<T>(a: set<T>, b: set<T>)
    requires a <= b
    ensures |a| <= |b|
  {
    assert b == a + (b - a);
  }

  lemma ReplyFits(s: State, b: State, e: Event)
    requires e.Replied? && Apply(s, e).Some? && (e.key in s.tables.rows ==> e.key in b.tables.rows)
    requires b.orphans.Keys <= s.orphans.Keys && b.prunedThrough == s.prunedThrough
    ensures Apply(b, e).Some?
  {
    SizeGrows(b.orphans.Keys, s.orphans.Keys);
    assert |b.orphans| == |b.orphans.Keys| && |s.orphans| == |s.orphans.Keys|;
  }

  // All rows of `a` are there, and what waits in the buffer of `b` waits in that of `s` and has no row in `a`.
  ghost predicate Fits(s: State, a: State, b: State) {
    && b.tables.rows.Keys == a.tables.rows.Keys && b.prunedThrough == s.prunedThrough
    && b.orphans.Keys <= s.orphans.Keys - a.tables.rows.Keys
  }

  lemma WriteStaysFit(s: State, a: State, b: State, e: Event)
    requires Fits(s, a, b) && !e.Replied? && Apply(s, e).Some? && (e.Sent? ==> e.key in a.tables.rows)
    ensures Fits(Apply(s, e).value, a, b)
  {
    hide Apply;
    KeysAfter(s, e);
  }

  lemma ReplyStaysFit(s: State, a: State, b: State, e: Event)
    requires Fits(s, a, b) && e.Replied? && Apply(s, e).Some?
    requires e.key in s.tables.rows ==> e.key in a.tables.rows
    ensures Apply(b, e).Some? && Fits(Apply(s, e).value, a, Apply(b, e).value)
  {
    hide Apply;
    KeysAfter(s, e);
    ReplyFits(s, b, e);
    KeysAfter(b, e);
  }

  // The replies of a run find room when all its rows are there: what they leave in the buffer is what the
  // run itself could never take out again.
  lemma {:induction false} RepliesFit(es: seq<Event>, a: State)
    requires ApplyAll(START, es).Some? && a.orphans.Keys == {} && a.prunedThrough == START.prunedThrough
    requires forall k | Stored(es, k) :: k in a.tables.rows
    ensures ApplyAll(a, Replies(es)).Some?
    ensures Fits(ApplyAll(START, es).value, a, ApplyAll(a, Replies(es)).value)
    decreases |es|
  {
    if es != [] {
      hide Apply, Stored, ApplyAll, Replies, Fits;
      var before, e := es[..|es| - 1], es[|es| - 1];
      assert es == before + [e];
      forall k
        ensures Stored(es, k) == (Stored(before, k) || (e.Sent? && e.key == k))
      {
        OnEvent(before, e, k);
      }
      AllButLast(START, before, e);
      RepliesFit(before, a);
      var s, b := ApplyAll(START, before).value, ApplyAll(a, Replies(before)).value;
      AllButLast(a, Replies(before), e);
      Divided(before, e);
      if e.Replied? {
        RowsAreStored(before, e.key);
        ReplyStaysFit(s, a, b, e);
      } else {
        assert Replies(before) + [] == Replies(before);
        WriteStaysFit(s, a, b, e);
      }
    }
  }

  /** Whatever run succeeds, storing every probe before all replies succeeds as well. */
  lemma SendFirstSucceeds(es: seq<Event>)
    requires ApplyAll(START, es).Some?
    ensures ApplyAll(START, Sends(es) + Replies(es)).Some?
  {
    hide ApplyAll, Stored, Sends, Replies;
    SendsFit(es);
    var a := ApplyAll(START, Sends(es)).value;
    forall k | Stored(es, k)
      ensures k in a.tables.rows
    {
      RowsAreStored(es, k);
    }
    RepliesFit(es, a);
    ApplyAllAppends(START, Sends(es), Replies(es));
  }

  /** With at most one reply before its row, a run leaves what storing every probe first leaves. */
  lemma AsIfSentFirst(es: seq<Event>)
    requires Prompt(es) && ApplyAll(START, es).Some?
    ensures ApplyAll(START, Sends(es) + Replies(es)).Some?
    ensures var s, s' := ApplyAll(START, es).value, ApplyAll(START, Sends(es) + Replies(es)).value;
      s.tables.rows == s'.tables.rows && s.dirty == s'.dirty
  {
    SendFirstSucceeds(es);
    hide ApplyAll, Touched, Stored, RowOf, RepliesTo, Early, Sends, Replies;
    forall k
      ensures Stored(Sends(es) + Replies(es), k) == Stored(es, k)
      ensures RepliesTo(Sends(es) + Replies(es), k) == RepliesTo(es, k)
      ensures Stored(es, k) ==>
        && RowOf(Sends(es) + Replies(es), k) == RowOf(es, k)
        && Early(Sends(es) + Replies(es), k) == []
    {
      StoredBySends(es, k);
      NoReplies(Sends(es), k);
      ThenReplies(Sends(es), Replies(es), k);
    }
    StoredBySends(es, ProbeKey(0, 0));
    ThenReplies(Sends(es), Replies(es), ProbeKey(0, 0));
    InterleavingDoesNotMatter(es, Sends(es) + Replies(es), ApplyAll(START, es).value,
                              ApplyAll(START, Sends(es) + Replies(es)).value);
  }
}
