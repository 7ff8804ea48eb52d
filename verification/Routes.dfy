/**
 Routes: the signature of a trace, and the detector that records a change once two consecutive eligible
 traces agree on a route that differs from the baseline.
 */
module Routes {
  import opened Common
  import opened Sorting

  // ---------- signatures ----------

  // Responders are numbered in the order of their text.
  datatype Hop = Hop(ttl: int, responders: seq<nat>)

  type Signature = seq<Hop>

  datatype TraceProbe = TraceProbe(ttl: int, responder: Option<nat>)

  /** The (hop, responder) pairs a trace saw. */
  function Pairs(probes: seq<TraceProbe>): set<(int, nat)> {
    set p | p in probes && p.responder.Some? :: (p.ttl, p.responder.value)
  }

  ghost predicate Has(s: Signature, ttl: int, responder: nat) {
    exists h :: h in s && h.ttl == ttl && responder in h.responders
  }

  ghost predicate ByTtl(s: Signature) {
    forall i, j | 0 <= i < j < |s| :: s[i].ttl < s[j].ttl
  }

  /** Hops in order of distance, each with its responders in order and at least one of them. */
  ghost predicate Canonical(s: Signature) {
    ByTtl(s) && forall h <- s :: Ascending(h.responders) && h.responders != []
  }

  lemma Inhabited(xs: seq<nat>)
    ensures xs != [] ==> exists x :: x in xs
  {
    if xs != [] {
      assert xs[0] in xs;
    }
  }

  lemma SameElements(a: seq<nat>, b: seq<nat>)
    requires Ascending(a) && Ascending(b) && forall x :: x in a <==> x in b
    ensures a == b
    decreases |a|
  {
    Inhabited(a);
    Inhabited(b);
    if a != [] {
      assert a[0] in b && b[0] in a;
      assert a[0] == b[0];
      forall x
        ensures x in a[1..] <==> x in b[1..]
      {
        assert x in a <==> x == a[0] || x in a[1..];
        assert x in b <==> x == b[0] || x in b[1..];
      }
      SameElements(a[1..], b[1..]);
    }
  }

  method InsertHop(hops: Signature, h: Hop) returns (r: Signature)
    requires ByTtl(hops) && forall g <- hops :: g.ttl != h.ttl
    ensures ByTtl(r) && forall g :: g in r <==> g in hops || g == h
  {
    var i := |hops|;
    while i > 0 && hops[i - 1].ttl > h.ttl
      invariant 0 <= i <= |hops| && forall k | i <= k < |hops| :: hops[k].ttl > h.ttl
    {
      i := i - 1;
    }
    assert i > 0 ==> hops[i - 1] in hops;
    r := hops[..i] + [h] + hops[i..];
  }

  // The responders of every hop, as a map of sets.
  method Collect(probes: seq<TraceProbe>) returns (sets: map<int, set<nat>>)
    ensures forall ttl, r: nat :: (ttl in sets && r in sets[ttl]) <==> (ttl, r) in Pairs(probes)
    ensures forall ttl <- sets :: sets[ttl] != {}
  {
    sets := map[];
    for i := 0 to |probes|
      invariant forall ttl, r: nat :: (ttl in sets && r in sets[ttl]) <==> (ttl, r) in Pairs(probes[..i])
      invariant forall ttl <- sets :: sets[ttl] != {}
    {
      var p := probes[i];
      assert probes[..i + 1] == probes[..i] + [p];
      if p.responder.Some? {
        var known := if p.ttl in sets then sets[p.ttl] else {};
        sets := sets[p.ttl := known + {p.responder.value}];
      }
    }
    assert probes[..|probes|] == probes;
  }

  /** The signature is in canonical form and holds exactly the pairs the trace saw. */
  method RouteSignature(probes: seq<TraceProbe>) returns (s: Signature)
    ensures Canonical(s)
    ensures forall ttl, r: nat :: Has(s, ttl, r) <==> (ttl, r) in Pairs(probes)
  {
    var sets := Collect(probes);
    s := [];
    var rest := sets.Keys;
    while rest != {}
      invariant rest <= sets.Keys && Canonical(s)
      invariant forall h <- s :: h.ttl in sets && h.ttl !in rest
      invariant forall h <- s, r: nat :: r in h.responders <==> r in sets[h.ttl]
      invariant forall ttl <- sets :: ttl !in rest ==> exists h :: h in s && h.ttl == ttl
      decreases rest
    {
      var ttl := Choose(rest);
      rest := rest - {ttl};
      var responders := Sorted(sets[ttl]);
      ghost var r :| r in sets[ttl];
      assert r in responders;
      var before := s;
      s := InsertHop(s, Hop(ttl, responders));
      assert forall h <- before :: h in s;
      assert Hop(ttl, responders) in s;
    }
  }

  // The later hops lie beyond the first.
  lemma Beyond(s: Signature, h: Hop)
    requires Canonical(s) && s != []
    ensures h in s[1..] ==> h in s && s[0].ttl < h.ttl
    ensures h in s ==> h == s[0] || h in s[1..]
  {
    if h in s[1..] {
      var i :| 0 <= i < |s[1..]| && s[1..][i] == h;
      assert h == s[i + 1];
    }
    if h in s && h != s[0] {
      var i :| 0 <= i < |s| && s[i] == h;
      assert h == s[1..][i - 1];
    }
  }

  lemma HasNext(s: Signature, ttl: nat, r: nat)
    requires Canonical(s) && s != []
    ensures Has(s, ttl, r) ==> s[0].ttl <= ttl
    ensures Has(s, s[0].ttl, r) <==> r in s[0].responders
    ensures Has(s[1..], ttl, r) <==> Has(s, ttl, r) && ttl != s[0].ttl
  {
    hide Canonical;
    assert s[0] in s;
    forall h: Hop
      ensures h in s[1..] ==> h in s && s[0].ttl < h.ttl
      ensures h in s ==> h == s[0] || h in s[1..]
    {
      Beyond(s, h);
    }
  }

  lemma HasFirst(s: Signature)
    requires Canonical(s) && s != []
    ensures Has(s, s[0].ttl, s[0].responders[0])
    ensures forall ttl, r: nat :: Has(s, ttl, r) ==> s[0].ttl <= ttl
    ensures forall r: nat :: Has(s, s[0].ttl, r) <==> r in s[0].responders
    ensures forall ttl, r: nat :: Has(s[1..], ttl, r) <==> Has(s, ttl, r) && ttl != s[0].ttl
  {
    assert s[0] in s;
    hide Has;
    forall ttl: nat, r: nat
      ensures Has(s, ttl, r) ==> s[0].ttl <= ttl
      ensures Has(s, s[0].ttl, r) <==> r in s[0].responders
      ensures Has(s[1..], ttl, r) <==> Has(s, ttl, r) && ttl != s[0].ttl
    {
      HasNext(s, ttl, r);
    }
  }

  lemma TailCanonical(s: Signature)
    requires Canonical(s) && s != []
    ensures Canonical(s[1..])
  {
    assert forall h <- s[1..] :: h in s;
  }

  lemma OneEmpty(s: Signature, t: Signature)
    requires Canonical(t) && s == []
    ensures t != [] ==> exists ttl, r: nat :: Has(t, ttl, r) && !Has(s, ttl, r)
  {
    if t != [] {
      HasFirst(t);
    }
  }

  /** Two traces have the same signature if and only if they saw the same responders at the same hops. */
  lemma {:induction false} SignatureIsUnique(s: Signature, t: Signature)
    requires Canonical(s) && Canonical(t)
    ensures s == t <==> forall ttl, r: nat :: Has(s, ttl, r) <==> Has(t, ttl, r)
    decreases |s|
  {
    if s != [] && t != [] {
      HasFirst(s);
      HasFirst(t);
      if forall ttl, r: nat :: Has(s, ttl, r) <==> Has(t, ttl, r) {
        assert s[0].ttl == t[0].ttl;
        SameElements(s[0].responders, t[0].responders);
        TailCanonical(s);
        TailCanonical(t);
        SignatureIsUnique(s[1..], t[1..]);
        assert s == [s[0]] + s[1..] && t == [t[0]] + t[1..];
      }
    } else {
      if s == [] {
        OneEmpty(s, t);
      } else {
        OneEmpty(t, s);
      }
    }
  }

  // ---------- differing routes ----------

  // At some hop both routes saw responders, and none in common.
  ghost predicate Disjoint(a: Hop, b: Hop) {
    a.ttl == b.ttl && a.responders != [] && b.responders != [] && forall r <- b.responders :: r !in a.responders
  }

  /** The routes differ meaningfully: a missing or an additional responder alone is no difference. */
  ghost predicate Differ(s: Signature, t: Signature) {
    exists i, j :: 0 <= i < |s| && 0 <= j < |t| && Disjoint(s[i], t[j])
  }

  method Overlaps(a: seq<nat>, b: seq<nat>) returns (overlap: bool)
    ensures overlap <==> exists r :: r in a && r in b
  {
    for i := 0 to |b|
      invariant forall k | 0 <= k < i :: b[k] !in a
    {
      if b[i] in a {
        return true;
      }
    }
    overlap := false;
  }

  // The hops of a signature by their distance.
  method Indexed(s: Signature) returns (hops: map<int, seq<nat>>)
    requires Canonical(s)
    ensures forall i | 0 <= i < |s| :: s[i].ttl in hops && hops[s[i].ttl] == s[i].responders
    ensures forall ttl <- hops :: exists i :: 0 <= i < |s| && s[i].ttl == ttl
  {
    hops := map[];
    for i := 0 to |s|
      invariant forall k | 0 <= k < i :: s[k].ttl in hops && hops[s[k].ttl] == s[k].responders
      invariant forall ttl <- hops :: exists k :: 0 <= k < |s| && s[k].ttl == ttl
    {
      hops := hops[s[i].ttl := s[i].responders];
    }
  }

  lemma NotItself(s: Signature)
    requires Canonical(s)
    ensures !Differ(s, s)
  {
    forall i, j | 0 <= i < |s| && 0 <= j < |s|
      ensures !Disjoint(s[i], s[j])
    {
      if s[i].ttl == s[j].ttl && s[j].responders != [] {
        assert s[j].responders[0] in s[j].responders;
        assert i == j;
      }
    }
  }

  /** The comparison loop decides exactly whether two signatures differ meaningfully. */
  method RouteMeaningfullyDifferent(before: Signature, after: Signature) returns (differ: bool)
    requires Canonical(before) && Canonical(after)
    ensures differ <==> Differ(before, after)
  {
    if before == after {
      NotItself(before);
      return false;
    }
    var hops := Indexed(before);
    for j := 0 to |after|
      invariant forall i, k | 0 <= i < |before| && 0 <= k < j :: !Disjoint(before[i], after[k])
    {
      if after[j].ttl in hops && hops[after[j].ttl] != [] && after[j].responders != [] {
        var overlap := Overlaps(hops[after[j].ttl], after[j].responders);
        if !overlap {
          ghost var i :| 0 <= i < |before| && before[i].ttl == after[j].ttl;
          assert Disjoint(before[i], after[j]);
          return true;
        }
      }
    }
    differ := false;
  }

  // The responders a trace saw at a hop.
  function Seen(probes: seq<TraceProbe>, ttl: int): set<nat> {
    set p | p in probes && p.ttl == ttl && p.responder.Some? :: p.responder.value
  }

  // A hop of the signature holds what the trace saw there.
  lemma SeenAt(probes: seq<TraceProbe>, s: Signature, i: nat)
    requires Canonical(s) && forall ttl, r: nat :: Has(s, ttl, r) <==> (ttl, r) in Pairs(probes)
    requires i < |s|
    ensures s[i].responders != [] && forall r: nat :: r in s[i].responders <==> r in Seen(probes, s[i].ttl)
  {
    forall r: nat | true
      ensures r in s[i].responders <==> r in Seen(probes, s[i].ttl)
    {
      assert s[i] in s;
      assert Has(s, s[i].ttl, r) <==> r in s[i].responders;
    }
  }

  lemma HopAt(probes: seq<TraceProbe>, s: Signature, ttl: int) returns (i: nat)
    requires Canonical(s) && forall ttl, r: nat :: Has(s, ttl, r) <==> (ttl, r) in Pairs(probes)
    requires Seen(probes, ttl) != {}
    ensures i < |s| && s[i].ttl == ttl
  {
    var r: nat :| r in Seen(probes, ttl);
    assert Has(s, ttl, r);
    var h :| h in s && h.ttl == ttl && r in h.responders;
    i :| 0 <= i < |s| && s[i] == h;
  }

  /**
   Two routes differ meaningfully exactly if at some hop both traces saw responders and no responder was seen
   there by both.
   */
  lemma DifferIff(p: seq<TraceProbe>, q: seq<TraceProbe>, s: Signature, t: Signature)
    requires Canonical(s) && forall ttl, r: nat :: Has(s, ttl, r) <==> (ttl, r) in Pairs(p)
    requires Canonical(t) && forall ttl, r: nat :: Has(t, ttl, r) <==> (ttl, r) in Pairs(q)
    ensures Differ(s, t) <==>
      exists ttl :: Seen(p, ttl) != {} && Seen(q, ttl) != {} && Seen(p, ttl) !! Seen(q, ttl)
  {
    if Differ(s, t) {
      var i, j :| 0 <= i < |s| && 0 <= j < |t| && Disjoint(s[i], t[j]);
      SeenAt(p, s, i);
      SeenAt(q, t, j);
      assert s[i].responders[0] in Seen(p, s[i].ttl) && t[j].responders[0] in Seen(q, s[i].ttl);
      assert Seen(p, s[i].ttl) !! Seen(q, s[i].ttl);
    }
    if exists ttl :: Seen(p, ttl) != {} && Seen(q, ttl) != {} && Seen(p, ttl) !! Seen(q, ttl) {
      var ttl :| Seen(p, ttl) != {} && Seen(q, ttl) != {} && Seen(p, ttl) !! Seen(q, ttl);
      var i := HopAt(p, s, ttl);
      var j := HopAt(q, t, ttl);
      SeenAt(p, s, i);
      SeenAt(q, t, j);
      assert Disjoint(s[i], t[j]);
    }
  }
}
