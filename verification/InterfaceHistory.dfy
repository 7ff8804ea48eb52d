/**
 The generations of the store against the events that made them. What stretch of samples is current under a
 name is read off the event list alone; the store's open generations are exactly those stretches, and each
 event continues, ends and begins what the list says.
 */
module InterfaceHistory {
  import opened Common
  import opened TimeGrid
  import opened Interfaces

  // ---------- the event list ----------

  datatype Stretch = Stretch(identity: Identity, samples: seq<Sample>)

  predicate TooLarge(x: Sample) { exists c <- x.counters :: c > MAX_COUNTER }

  // The sample goes on where the stretch ends: the same interface, later, and no counter lower.
  predicate GoesOn(st: Stretch, item: Item) {
    && st.identity == item.identity && st.samples != []
    && var last := st.samples[|st.samples| - 1];
       && last.at < item.sample.at && |last.counters| == |item.sample.counters|
       && forall j | 0 <= j < |last.counters| :: last.counters[j] <= item.sample.counters[j]
  }

  // What an event leaves current under a name.
  function Next(st: Option<Stretch>, e: Event, name: string): Option<Stretch> {
    match e
    case Restart(n, _) => if n == name then None else st
    case Snapshot(item) =>
      if item.identity.name != name || TooLarge(item.sample) then st
      else if st.Some? && GoesOn(st.value, item) then Some(st.value.(samples := st.value.samples + [item.sample]))
      else Some(Stretch(item.identity, [item.sample]))
  }

  /** The samples since the last restart, change of identity, fall of a counter or step back in time. */
  function Current(es: seq<Event>, name: string): Option<Stretch> {
    if es == [] then None else Next(Current(es[..|es| - 1], name), es[|es| - 1], name)
  }

  // ---------- what the store shows of it ----------

  // Generation g is open under the name and holds the stretch, which began with its first sample.
  ghost predicate Holds(s: State, name: string, st: Stretch, g: nat) {
    && OpenOnes(s, name) == {g} && g in s.samples && s.samples[g] == st.samples != []
    && s.generations[g] == Generation(st.identity, st.samples[0].at, None)
  }

  ghost predicate Shows(s: State, name: string, st: Option<Stretch>) {
    if st.None? then OpenOnes(s, name) == {} else exists g :: Holds(s, name, st.value, g)
  }

  // The item is added to generation g, and nothing else changes.
  ghost predicate Extends(s: State, s': State, g: nat, item: Item) {
    && g in s.samples && s'.samples == s.samples[g := s.samples[g] + [item.sample]]
    && s'.generations == s.generations && s'.next == s.next && s'.resets == s.resets
    && s'.dirty == s.dirty + {Dirty(g, Floor(item.sample.at, MINUTE))}
  }

  // The open generations of the name have ended, each with its last minute dirty; no other one has changed.
  ghost predicate Ends(s: State, s': State, name: string, at: int) {
    && s.generations.Keys <= s'.generations.Keys && s.samples.Keys <= s'.samples.Keys
    && (forall g <- s.generations ::
          s'.generations[g] == if Open(s, name, g) then s.generations[g].(ended := Some(at)) else s.generations[g])
    && (forall g <- s.samples :: s'.samples[g] == s.samples[g])
    && (forall g <- s.generations | Open(s, name, g) :: Dirty(g, Floor(at, MINUTE)) in s'.dirty)
    && s.dirty <= s'.dirty
  }

  // Each open generation of the name has its reset recorded; where there is none, a restart is recorded by itself.
  ghost predicate Records(s: State, s': State, name: string, at: int, restart: bool) {
    && (forall g <- s.generations | Open(s, name, g) :: Reset(Some(g), name, at) in s'.resets)
    && s.resets <= s'.resets
    && forall r <- s'.resets | r !in s.resets ::
         || (r.generation.Some? && r.generation.value in s.generations && Open(s, name, r.generation.value)
             && r == Reset(r.generation, name, at))
         || (restart && OpenOnes(s, name) == {} && r == Reset(None, name, at))
  }

  // A generation begins with the item.
  ghost predicate Begins(s: State, s': State, item: Item) {
    && s'.next == s.next + 1 && s'.generations.Keys == s.generations.Keys + {s.next}
    && s'.samples.Keys == s.samples.Keys + {s.next}
    && s'.generations[s.next] == Generation(item.identity, item.sample.at, None)
    && s'.samples[s.next] == [item.sample] && Dirty(s.next, Floor(item.sample.at, MINUTE)) in s'.dirty
  }

  // ---------- one event ----------

  lemma StretchFits(s: State, st: Stretch, g: nat, item: Item)
    requires WellFormed(s) && Holds(s, item.identity.name, st, g) && |item.sample.counters| == COUNTERS
    ensures GoesOn(st, item) <==> Fits(s, item, g)
    ensures forall h :: Fits(s, item, h) ==> h == g
  {
    hide Growing, Floor;
    assert g in OpenOnes(s, item.identity.name);
    forall h | Fits(s, item, h)
      ensures h == g
    {
      assert h in OpenOnes(s, item.identity.name);
    }
  }

  lemma TooLargeIff(x: Sample)
    ensures TooLarge(x) <==> !Interfaces.Storable(x)
  {
  }

  // Closing what is open under a name.
  lemma ClosesAll(s: State, name: string, at: int, resets: set<Reset>)
    requires resets == s.resets + ResetsOf(s, name, at)
             || (OpenOnes(s, name) == {} && resets == s.resets + {Reset(None, name, at)})
    ensures var s' := CloseAll(s, name, at).(resets := resets);
      Ends(s, s', name, at) && OpenOnes(s', name) == {} && s'.next == s.next && s'.samples == s.samples
    ensures CloseAll(s, name, at).generations.Keys == s.generations.Keys
  {
    hide Floor;
    assert forall g :: g in OpenOnes(s, name) <==> g in s.generations && Open(s, name, g);
    assert forall r :: r in ResetsOf(s, name, at) ==> r.name == name && r.at == at;
  }

  lemma RecordsAll(s: State, s': State, name: string, at: int, restart: bool)
    requires restart && OpenOnes(s, name) == {} ==> s'.resets == s.resets + {Reset(None, name, at)}
    requires !(restart && OpenOnes(s, name) == {}) ==> s'.resets == s.resets + ResetsOf(s, name, at)
    ensures Records(s, s', name, at, restart)
  {
    assert forall g <- s.generations | Open(s, name, g) :: g in OpenOnes(s, name);
    assert forall g <- OpenOnes(s, name) :: Reset(Some(g), name, at) in ResetsOf(s, name, at);
  }

  lemma OpensOne(s: State, item: Item, resets: set<Reset>)
    requires OpenOnes(s, item.identity.name) == {} && s.next !in s.generations && s.next !in s.samples
    ensures var s', name := Opened(s, item, resets), item.identity.name;
      && Begins(s, s', item) && Holds(s', name, Stretch(item.identity, [item.sample]), s.next)
      && (forall g <- s.generations :: s'.generations[g] == s.generations[g])
      && (forall g <- s.samples :: s'.samples[g] == s.samples[g]) && s.dirty <= s'.dirty && s'.resets == resets
  {
    hide Floor;
    var s', name := Opened(s, item, resets), item.identity.name;
    assert [] + [item.sample] == [item.sample];
    assert forall g <- s.generations :: g !in OpenOnes(s, name);
  }

  lemma ResetsDoNotOpen(s: State, name: string, resets: set<Reset>)
    ensures OpenOnes(s.(resets := resets), name) == OpenOnes(s, name)
  {
  }

  lemma BeginsAnew(s: State, item: Item)
    requires WellFormed(s)
    ensures var s', name := Begin(s, item), item.identity.name;
      && Ends(s, s', name, item.sample.at) && Records(s, s', name, item.sample.at, false) && Begins(s, s', item)
      && Holds(s', name, Stretch(item.identity, [item.sample]), s.next)
  {
    hide Growing, Floor, CloseAll, Opened, Holds, Open, OpenOnes, Records;
    var name, at := item.identity.name, item.sample.at;
    var resets := s.resets + ResetsOf(s, name, at);
    ClosesAll(s, name, at, resets);
    Numbered(s);
    var c := CloseAll(s, name, at);
    assert OpenOnes(c, name) == {} by {
      ResetsDoNotOpen(c, name, resets);
    }
    OpensOne(c, item, resets);
    RecordsAll(s, Begin(s, item), name, at, false);
  }

  // Names do not meddle with each other.
  ghost predicate Apart(s: State, s': State, name: string) {
    forall other: string | other != name ::
      OpenOnes(s', other) == OpenOnes(s, other)
      && forall g <- OpenOnes(s, other) ::
           g in s'.generations && s'.generations[g] == s.generations[g]
           && (g in s.samples <==> g in s'.samples) && (g in s.samples ==> s'.samples[g] == s.samples[g])
  }

  lemma ApartShows(s: State, s': State, name: string, other: string, st: Option<Stretch>)
    requires Apart(s, s', name) && Shows(s, other, st) && other != name
    ensures Shows(s', other, st)
  {
    if st.Some? {
      var g :| Holds(s, other, st.value, g);
      assert g in OpenOnes(s, other);
      assert Holds(s', other, st.value, g);
    }
  }

  lemma EndsApart(s: State, s': State, name: string, at: int, begun: set<nat>)
    requires Ends(s, s', name, at) && s'.generations.Keys == s.generations.Keys + begun && begun !! s.generations.Keys
    requires s.generations.Keys == s.samples.Keys
    requires forall g <- begun :: s'.generations[g].identity.name == name
    ensures Apart(s, s', name)
  {
    hide Floor;
    forall other: string | other != name
      ensures OpenOnes(s', other) == OpenOnes(s, other)
    {
      assert forall g :: g in OpenOnes(s', other) <==> g in OpenOnes(s, other);
    }
  }

  lemma ExtendsHolds(s: State, s': State, name: string, st: Stretch, g: nat, item: Item)
    requires WellFormed(s) && Holds(s, name, st, g) && Extends(s, s', g, item) && item.identity.name == name
    ensures Holds(s', name, st.(samples := st.samples + [item.sample]), g) && Apart(s, s', name)
  {
    hide Growing, Floor;
    assert forall n :: OpenOnes(s', n) == OpenOnes(s, n);
    assert g in OpenOnes(s, name);
  }

  // What a storable sample does to the store.
  ghost predicate Places(s: State, s': State, item: Item, st: Option<Stretch>) {
    if st.Some? && GoesOn(st.value, item) then
      exists g :: Holds(s, item.identity.name, st.value, g) && Extends(s, s', g, item)
    else
      && Ends(s, s', item.identity.name, item.sample.at)
      && Records(s, s', item.identity.name, item.sample.at, false) && Begins(s, s', item)
      && Holds(s', item.identity.name, Stretch(item.identity, [item.sample]), s.next)
  }

  lemma PlacesItem(s: State, item: Item, st: Option<Stretch>)
    requires WellFormed(s) && |item.sample.counters| == COUNTERS && !TooLarge(item.sample)
    requires Shows(s, item.identity.name, st)
    ensures var s' := Step(s, Snapshot(item)); s'.Some? && Places(s, s'.value, item, st)
  {
    hide Floor, Growing, GoesOn, Ends, Begins, Begin;
    var name := item.identity.name;
    TooLargeIff(item.sample);
    if st.Some? {
      var g :| Holds(s, name, st.value, g);
      StretchFits(s, st.value, g, item);
      hide Fits, WellFormed;
      if GoesOn(st.value, item) {
        assert Fits(s, item, g);
        assert Extends(s, Step(s, Snapshot(item)).value, g, item);
      } else {
        assert !exists h :: Fits(s, item, h);
        BeginsAnew(s, item);
      }
    } else {
      assert forall h: nat :: Open(s, name, h) ==> h in OpenOnes(s, name);
      assert !exists h: nat :: Fits(s, item, h);
      BeginsAnew(s, item);
    }
  }

  lemma PlacedShows(s: State, s': State, item: Item, st: Option<Stretch>)
    requires WellFormed(s) && Shows(s, item.identity.name, st) && Places(s, s', item, st) && !TooLarge(item.sample)
    ensures Shows(s', item.identity.name, Next(st, Snapshot(item), item.identity.name))
    ensures Apart(s, s', item.identity.name)
  {
    hide Floor, Growing, GoesOn;
    var name := item.identity.name;
    Numbered(s);
    if st.Some? && GoesOn(st.value, item) {
      var g :| Holds(s, name, st.value, g) && Extends(s, s', g, item);
      ExtendsHolds(s, s', name, st.value, g, item);
    } else {
      EndsApart(s, s', name, item.sample.at, {s.next});
    }
  }

  lemma RestartShows(s: State, name: string, at: int)
    requires WellFormed(s)
    ensures var s' := Step(s, Restart(name, at)).value;
      && Ends(s, s', name, at) && Records(s, s', name, at, true) && OpenOnes(s', name) == {} && Apart(s, s', name)
      && (OpenOnes(s, name) == {} ==> Reset(None, name, at) in s'.resets)
      && s'.next == s.next && s'.generations.Keys == s.generations.Keys && s'.samples == s.samples
  {
    hide Floor, Growing, CloseAll, Records;
    var open := OpenOnes(s, name);
    var resets := s.resets + if open == {} then {Reset(None, name, at)} else ResetsOf(s, name, at);
    ClosesAll(s, name, at, resets);
    RecordsAll(s, Step(s, Restart(name, at)).value, name, at, true);
    Numbered(s);
    EndsApart(s, Step(s, Restart(name, at)).value, name, at, {});
  }

  lemma NothingOpen(s: State, name: string)
    requires OpenOnes(s, name) == {}
    ensures Shows(s, name, None)
  {
  }

  lemma RestartHappens(s: State, name: string, at: int)
    ensures Step(s, Restart(name, at)).Some?
  {
  }

  lemma TooLargeFails(s: State, item: Item)
    requires !Interfaces.Storable(item.sample)
    ensures Step(s, Snapshot(item)).None?
  {
  }

  // The event leaves under every name what the list says.
  lemma StepShows(s: State, e: Event, name: string, about: Option<Stretch>, st: Option<Stretch>)
    requires WellFormed(s) && Shaped(e) && Shows(s, name, st)
    requires Shows(s, if e.Snapshot? then e.item.identity.name else e.name, about)
    requires (if e.Snapshot? then e.item.identity.name else e.name) == name ==> about == st
    ensures Shows(Step(s, e).GetOr(s), name, Next(st, e, name))
  {
    hide Step, Places, Apart, Shows, WellFormed;
    match e {
      case Restart(n, at) =>
        RestartShows(s, n, at);
        assert Step(s, e).Some? by { RestartHappens(s, n, at); }
        if n == name {
          assert Shows(Step(s, e).value, name, None) by { NothingOpen(Step(s, e).value, name); }
        } else {
          ApartShows(s, Step(s, e).value, n, name, st);
        }
      case Snapshot(item) =>
        TooLargeIff(item.sample);
        if TooLarge(item.sample) {
          assert Step(s, e).None? by { TooLargeFails(s, item); }
        } else {
          PlacesItem(s, item, about);
          PlacedShows(s, Step(s, e).value, item, about);
          if item.identity.name != name {
            ApartShows(s, Step(s, e).value, item.identity.name, name, st);
          }
        }
    }
  }

  // ---------- all events ----------

  /**
   In every reachable store the open generations are the current stretches of the event list: one for each
   name that has one, with its identity, its samples and the time of the first.
   */
  lemma {:induction false} OpenIsCurrent(es: seq<Event>, name: string)
    requires forall e <- es :: Shaped(e)
    ensures Shows(After(es), name, Current(es, name))
    decreases |es|
  {
    hide Step, Next, Shows, WellFormed;
    if es == [] {
      NothingOpen(START, name);
    } else {
      var before, e := es[..|es| - 1], es[|es| - 1];
      var about := if e.Snapshot? then e.item.identity.name else e.name;
      GenerationsStayWellFormed(before);
      OpenIsCurrent(before, name);
      OpenIsCurrent(before, about);
      StepShows(After(before), e, name, Current(before, about), Current(before, name));
    }
  }

  /**
   A storable sample that goes on where the current stretch of its name ends joins its open generation, and
   no generation begins or ends and no reset is recorded; any other one ends what is open under the name and
   begins a generation of its own. A sample too large is refused.
   */
  lemma SampleIsPlaced(es: seq<Event>, item: Item)
    requires (forall e <- es :: Shaped(e)) && |item.sample.counters| == COUNTERS
    ensures var s, s' := After(es), After(es + [Snapshot(item)]);
      if TooLarge(item.sample) then s' == s else Places(s, s', item, Current(es, item.identity.name))
  {
    hide Step, Places, Shows, WellFormed;
    assert (es + [Snapshot(item)])[..|es|] == es;
    GenerationsStayWellFormed(es);
    OpenIsCurrent(es, item.identity.name);
    TooLargeIff(item.sample);
    if TooLarge(item.sample) {
      TooLargeFails(After(es), item);
    } else {
      PlacesItem(After(es), item, Current(es, item.identity.name));
    }
  }

  /** A restart ends what is open under its name and begins nothing. */
  lemma RestartEnds(es: seq<Event>, name: string, at: int)
    requires forall e <- es :: Shaped(e)
    ensures var s, s' := After(es), After(es + [Restart(name, at)]);
      && Ends(s, s', name, at) && Records(s, s', name, at, true) && OpenOnes(s', name) == {}
      && (Current(es, name).None? ==> Reset(None, name, at) in s'.resets)
      && s'.next == s.next && s'.generations.Keys == s.generations.Keys && s'.samples == s.samples
  {
    hide Step, WellFormed, Ends, Records;
    assert (es + [Restart(name, at)])[..|es|] == es;
    GenerationsStayWellFormed(es);
    RestartHappens(After(es), name, at);
    RestartShows(After(es), name, at);
    OpenIsCurrent(es, name);
  }

  // ---------- dirty minutes ----------

  // Every minute in which a generation has a sample, or ended, is dirty.
  ghost predicate AllDirty(s: State) {
    && (forall g <- s.samples :: forall x <- s.samples[g] :: Dirty(g, Floor(x.at, MINUTE)) in s.dirty)
    && (forall g <- s.generations | s.generations[g].ended.Some? ::
          Dirty(g, Floor(s.generations[g].ended.value, MINUTE)) in s.dirty)
  }

  lemma PlacedDirty(s: State, s': State, item: Item, st: Option<Stretch>)
    requires AllDirty(s) && WellFormed(s) && Places(s, s', item, st)
    ensures AllDirty(s')
  {
    hide Floor, Growing, GoesOn;
    Numbered(s);
  }

  lemma EndedDirty(s: State, s': State, name: string, at: int)
    requires AllDirty(s) && Ends(s, s', name, at)
    requires s'.generations.Keys == s.generations.Keys && s'.samples == s.samples
    ensures AllDirty(s')
  {
    hide Floor;
  }

  lemma NothingDirty()
    ensures AllDirty(START)
  {
  }

  /** No minute of a stored sample, and no last minute of a generation, is left out of the rollups to come. */
  lemma {:induction false} EveryMinuteIsDirty(es: seq<Event>)
    requires forall e <- es :: Shaped(e)
    ensures AllDirty(After(es))
    decreases |es|
  {
    hide Step, AllDirty, Places, Ends, WellFormed;
    if es == [] {
      assert AllDirty(START) by { NothingDirty(); }
    } else {
      var before, e := es[..|es| - 1], es[|es| - 1];
      assert before + [e] == es && Shaped(e);
      EveryMinuteIsDirty(before);
      GenerationsStayWellFormed(before);
      match e {
        case Restart(name, at) =>
          RestartEnds(before, name, at);
          EndedDirty(After(before), After(es), name, at);
        case Snapshot(item) =>
          SampleIsPlaced(before, item);
          if !TooLarge(item.sample) {
            PlacedDirty(After(before), After(es), item, Current(before, item.identity.name));
          }
      }
    }
  }

  // ---------- stored samples ----------

  ghost predicate In(s: State, item: Item) {
    exists g <- s.generations ::
      s.generations[g].identity == item.identity && g in s.samples && item.sample in s.samples[g]
  }

  lemma ExtendsIn(s: State, s': State, g: nat, item: Item, x: Item)
    requires Extends(s, s', g, item) && g in s.generations && s.generations[g].identity == item.identity
    ensures In(s', x) <==> In(s, x) || x == item
  {
    hide Floor;
    if x == item {
      assert s'.samples[g][|s.samples[g]|] == item.sample;
    } else if In(s', x) {
      var h :| h in s'.generations && s'.generations[h].identity == x.identity
               && h in s'.samples && x.sample in s'.samples[h];
      assert h in s.samples && (x.sample in s.samples[h] || (h == g && x.sample == item.sample));
    }
  }

  lemma BeginsIn(s: State, s': State, item: Item, x: Item)
    requires WellFormed(s) && Ends(s, s', item.identity.name, item.sample.at) && Begins(s, s', item)
    ensures In(s', x) <==> In(s, x) || x == item
  {
    hide Floor, Growing;
    Numbered(s);
    assert s'.samples[s.next] == [item.sample];
    assert forall g <- s.generations ::
      s'.generations[g].identity == s.generations[g].identity && s'.samples[g] == s.samples[g];
  }

  lemma PlacedIn(s: State, s': State, item: Item, st: Option<Stretch>, x: Item)
    requires WellFormed(s) && Places(s, s', item, st)
    ensures In(s', x) <==> In(s, x) || x == item
  {
    hide In, WellFormed, Ends, Begins, Extends;
    if st.Some? && GoesOn(st.value, item) {
      var g :| Holds(s, item.identity.name, st.value, g) && Extends(s, s', g, item);
      assert g in OpenOnes(s, item.identity.name);
      ExtendsIn(s, s', g, item, x);
    } else {
      BeginsIn(s, s', item, x);
    }
  }

  lemma EndedIn(s: State, s': State, name: string, at: int, x: Item)
    requires Ends(s, s', name, at) && s'.generations.Keys == s.generations.Keys && s'.samples == s.samples
    ensures In(s', x) <==> In(s, x)
  {
    hide Floor;
    assert forall g <- s.generations :: s'.generations[g].identity == s.generations[g].identity;
  }

  lemma NothingIn(x: Item)
    ensures !In(START, x)
  {
  }

  /** The store holds exactly the storable samples it was given, each in a generation of its own interface. */
  lemma {:induction false} SamplesAreStored(es: seq<Event>, x: Item)
    requires forall e <- es :: Shaped(e)
    ensures In(After(es), x) <==> Snapshot(x) in es && !TooLarge(x.sample)
    decreases |es|
  {
    hide Step, In, Places, Ends, WellFormed;
    if es == [] {
      assert !In(START, x) by { NothingIn(x); }
    } else {
      var before, e := es[..|es| - 1], es[|es| - 1];
      assert before + [e] == es && Shaped(e);
      SamplesAreStored(before, x);
      GenerationsStayWellFormed(before);
      match e {
        case Restart(name, at) =>
          RestartEnds(before, name, at);
          EndedIn(After(before), After(es), name, at, x);
        case Snapshot(item) =>
          SampleIsPlaced(before, item);
          if !TooLarge(item.sample) {
            PlacedIn(After(before), After(es), item, Current(before, item.identity.name), x);
          }
      }
    }
  }
}
