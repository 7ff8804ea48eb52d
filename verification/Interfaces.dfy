/**
 Interface generations. A generation is a stretch of one interface's samples within which time advances
 and no counter falls; the store closes it and opens another whenever that would be violated.
 */
module Interfaces {
  import opened Common
  import opened TimeGrid

  const COUNTERS: nat := 15
  const MAX_COUNTER: nat := 0x7FFF_FFFF_FFFF_FFFF

  datatype Identity = Identity(boot: string, index: int, name: string, mac: string)

  datatype Generation = Generation(identity: Identity, started: int, ended: Option<int>)

  datatype Sample = Sample(at: int, counters: seq<nat>)

  datatype Item = Item(identity: Identity, sample: Sample)

  // A dirty minute of a generation.
  datatype Dirty = Dirty(generation: nat, at: int)

  // A recorded reset, of no generation if none was open.
  datatype Reset = Reset(generation: Option<nat>, name: string, at: int)

  datatype State = State(
    generations: map<nat, Generation>, samples: map<nat, seq<Sample>>, next: nat, dirty: set<Dirty>, resets: set<Reset>)

  const START: State := State(map[], map[], 0, {}, {})

  datatype Event = Snapshot(item: Item) | Restart(name: string, at: int)

  // ---------- one event ----------

  predicate Open(s: State, name: string, g: nat) {
    g in s.generations && s.generations[g].identity.name == name && s.generations[g].ended.None?
  }

  function OpenOnes(s: State, name: string): set<nat> {
    set g | g in s.generations && Open(s, name, g)
  }

  /** Closes whatever is open under a name, and marks its last minute. */
  function CloseAll(s: State, name: string, at: int): State {
    var open := OpenOnes(s, name);
    s.(generations := map g | g in s.generations ::
         if g in open then s.generations[g].(ended := Some(at)) else s.generations[g],
       dirty := s.dirty + set g | g in open :: Dirty(g, Floor(at, MINUTE)))
  }

  function ResetsOf(s: State, name: string, at: int): set<Reset> {
    set g | g in OpenOnes(s, name) :: Reset(Some(g), name, at)
  }

  /** A sample may follow another in one generation. */
  predicate Continues(previous: Sample, next: Sample)
    requires |previous.counters| == |next.counters|
  {
    previous.at < next.at && forall j | 0 <= j < |next.counters| :: previous.counters[j] <= next.counters[j]
  }

  // The open generation with the identity of the item, if its last sample lets the item follow.
  ghost predicate Fits(s: State, item: Item, g: nat) {
    && Open(s, item.identity.name, g) && s.generations[g].identity == item.identity && g in s.samples
    && (s.samples[g] != [] ==>
        var last := s.samples[g][|s.samples[g]| - 1];
        |last.counters| == |item.sample.counters| && Continues(last, item.sample))
  }

  function Append(s: State, g: nat, x: Sample): State
    requires g in s.samples
  {
    s.(samples := s.samples[g := s.samples[g] + [x]], dirty := s.dirty + {Dirty(g, Floor(x.at, MINUTE))})
  }

  // A new generation with its first sample.
  function Opened(s: State, item: Item, resets: set<Reset>): State {
    Append(s.(generations := s.generations[s.next := Generation(item.identity, item.sample.at, None)],
              samples := s.samples[s.next := []], next := s.next + 1, resets := resets), s.next, item.sample)
  }

  // Closes what is open under the name and starts a generation with the item.
  function Begin(s: State, item: Item): State {
    Opened(CloseAll(s, item.identity.name, item.sample.at), item,
           s.resets + ResetsOf(s, item.identity.name, item.sample.at))
  }

  predicate Storable(x: Sample) { forall c <- x.counters :: c <= MAX_COUNTER }

  /** None is an error of the whole batch. */
  ghost function Step(s: State, e: Event): Option<State> {
    match e
    case Restart(name, at) =>
      var open := OpenOnes(s, name);
      var resets := if open == {} then {Reset(None, name, at)} else ResetsOf(s, name, at);
      Some(CloseAll(s, name, at).(resets := s.resets + resets))
    case Snapshot(item) =>
      if !Storable(item.sample) then None
      else if exists g :: Fits(s, item, g) then
        var g :| Fits(s, item, g);
        Some(Append(s, g, item.sample))
      else Some(Begin(s, item))
  }

  // ---------- well-formed generations ----------

  /** Samples of one generation: strictly later, and no counter lower, than the one before. */
  predicate Growing(xs: seq<Sample>) {
    forall i | 0 < i < |xs| :: |xs[i - 1].counters| == |xs[i].counters| && Continues(xs[i - 1], xs[i])
  }

  ghost predicate WellFormed(s: State) {
    && s.generations.Keys == s.samples.Keys && (forall g <- s.generations :: g < s.next)
    && (forall g, h | g in s.generations && h in s.generations
                      && s.generations[g].ended.None? && s.generations[h].ended.None?
        && s.generations[g].identity.name == s.generations[h].identity.name :: g == h)
    && (forall g <- s.samples :: Growing(s.samples[g]) && forall x <- s.samples[g] :: |x.counters| == COUNTERS)
  }

  predicate Shaped(e: Event) { e.Snapshot? ==> |e.item.sample.counters| == COUNTERS }

  /** What is closed stays closed and keeps its samples; what is open only gains samples. */
  ghost predicate Preserves(s: State, s': State) {
    forall g <- s.generations ::
      && g in s'.generations && g in s.samples && g in s'.samples
      && s'.generations[g].identity == s.generations[g].identity && s.samples[g] <= s'.samples[g]
      && (s.generations[g].ended.Some? ==> s'.generations[g] == s.generations[g] && s'.samples[g] == s.samples[g])
  }

  lemma GrowsBy(xs: seq<Sample>, x: Sample)
    requires Growing(xs)
    requires xs != [] ==> |xs[|xs| - 1].counters| == |x.counters| && Continues(xs[|xs| - 1], x)
    ensures Growing(xs + [x])
  {
    var ys := xs + [x];
    forall i | 0 < i < |ys|
      ensures |ys[i - 1].counters| == |ys[i].counters| && Continues(ys[i - 1], ys[i])
    {
      if i < |xs| {
        assert ys[i - 1] == xs[i - 1] && ys[i] == xs[i];
      }
    }
  }

  lemma CloseWell(s: State, name: string, at: int, s': State)
    requires WellFormed(s)
    requires s'.generations == CloseAll(s, name, at).generations && s'.samples == s.samples && s'.next == s.next
    ensures WellFormed(s')
  {
    hide Growing, Floor;
  }

  lemma ClosePreserves(s: State, name: string, at: int, s': State)
    requires s.generations.Keys == s.samples.Keys
    requires s'.generations == CloseAll(s, name, at).generations && s'.samples == s.samples
    ensures Preserves(s, s')
  {
    hide Floor;
  }

  lemma Numbered(s: State)
    requires WellFormed(s)
    ensures s.generations.Keys == s.samples.Keys && forall g <- s.generations :: g < s.next
  {
  }

  lemma CloseKeeps(s: State, name: string, at: int, s': State)
    requires WellFormed(s)
    requires s'.generations == CloseAll(s, name, at).generations && s'.samples == s.samples && s'.next == s.next
    ensures WellFormed(s') && Preserves(s, s') && OpenOnes(s', name) == {}
  {
    hide Growing, Floor, WellFormed, Preserves;
    assert WellFormed(s') by { CloseWell(s, name, at, s'); }
    assert Preserves(s, s') by {
      Numbered(s);
      ClosePreserves(s, name, at, s');
    }
  }

  lemma AppendKeeps(s: State, item: Item, g: nat)
    requires WellFormed(s) && Fits(s, item, g) && |item.sample.counters| == COUNTERS
    ensures WellFormed(Append(s, g, item.sample)) && Preserves(s, Append(s, g, item.sample))
  {
    hide Growing, Floor;
    GrowsBy(s.samples[g], item.sample);
  }

  lemma CloseLeaves(s: State, name: string, at: int)
    ensures CloseAll(s, name, at).samples == s.samples && CloseAll(s, name, at).next == s.next
  {
  }

  lemma SingleGrows(xs: seq<Sample>)
    requires |xs| <= 1
    ensures Growing(xs)
  {
  }

  lemma OpenWell(s: State, item: Item, resets: set<Reset>)
    requires WellFormed(s) && OpenOnes(s, item.identity.name) == {} && |item.sample.counters| == COUNTERS
    ensures WellFormed(Opened(s, item, resets))
  {
    hide Growing, Floor;
    SingleGrows([item.sample]);
    assert [] + [item.sample] == [item.sample];
    forall h | h in s.generations && s.generations[h].ended.None?
      ensures s.generations[h].identity.name != item.identity.name
    {
      assert h !in OpenOnes(s, item.identity.name);
    }
  }

  lemma OpenPreserves(s: State, item: Item, resets: set<Reset>)
    requires s.generations.Keys == s.samples.Keys && forall g <- s.generations :: g < s.next
    ensures Preserves(s, Opened(s, item, resets))
  {
    hide Floor;
  }

  lemma Chain(a: State, b: State, c: State)
    requires Preserves(a, b) && Preserves(b, c)
    ensures Preserves(a, c)
  {
  }

  lemma BeginKeeps(s: State, item: Item)
    requires WellFormed(s) && |item.sample.counters| == COUNTERS
    ensures WellFormed(Begin(s, item)) && Preserves(s, Begin(s, item))
  {
    hide Growing, Floor, CloseAll, WellFormed, Preserves, Append;
    var closed := CloseAll(s, item.identity.name, item.sample.at);
    CloseLeaves(s, item.identity.name, item.sample.at);
    assert closed.samples == s.samples && closed.next == s.next;
    CloseKeeps(s, item.identity.name, item.sample.at, closed);
    var resets := s.resets + ResetsOf(s, item.identity.name, item.sample.at);
    OpenWell(closed, item, resets);
    assert closed.generations.Keys == closed.samples.Keys && forall g <- closed.generations :: g < closed.next by {
      Numbered(closed);
    }
    OpenPreserves(closed, item, resets);
    Chain(s, closed, Begin(s, item));
  }

  /** Every snapshot and reset keeps the generations well formed and never reopens a closed one. */
  lemma StepKeeps(s: State, e: Event, s': State)
    requires WellFormed(s) && Shaped(e) && Step(s, e) == Some(s')
    ensures WellFormed(s') && Preserves(s, s')
  {
    hide Growing, Continues, Floor, CloseAll, Append, Begin, WellFormed, Preserves;
    match e
    case Restart(name, at) =>
      CloseLeaves(s, name, at);
      CloseKeeps(s, name, at, s');
    case Snapshot(item) =>
      if exists g :: Fits(s, item, g) {
        var g :| Fits(s, item, g) && s' == Append(s, g, item.sample);
        AppendKeeps(s, item, g);
      } else {
        BeginKeeps(s, item);
      }
  }

  ghost function After(es: seq<Event>): State {
    if es == [] then START
    else Step(After(es[..|es| - 1]), es[|es| - 1]).GetOr(After(es[..|es| - 1]))
  }

  lemma StartWellFormed()
    ensures WellFormed(START)
  {
  }

  /** In every reachable store at most one generation per name is open and every generation grows. */
  lemma {:induction false} GenerationsStayWellFormed(es: seq<Event>)
    requires forall e <- es :: Shaped(e)
    ensures WellFormed(After(es))
  {
    hide Step, WellFormed;
    if es == [] {
      assert WellFormed(START) by { StartWellFormed(); }
    } else {
      var before := es[..|es| - 1];
      GenerationsStayWellFormed(before);
      var next := Step(After(before), es[|es| - 1]);
      if next.Some? {
        StepKeeps(After(before), es[|es| - 1], next.value);
      }
    }
  }

  // ---------- minute deltas ----------

  datatype Aggregate = Aggregate(
    elapsed: int, samples: nat, resets: nat, delta: seq<int>, peakReceive: int, peakSend: int)

  // Bytes per second between two samples, rounded down.
  function Rate(a: Sample, b: Sample, j: nat): int
    requires j < |a.counters| == |b.counters|
  {
    var delta: int := b.counters[j] as int - a.counters[j] as int;
    if delta <= 0 || b.at <= a.at then 0 else Min(delta * 1_000_000 / (b.at - a.at), MAX_COUNTER)
  }

  lemma QuotientReaches(x: nat, t: int, n: nat)
    requires t > 0
    ensures n <= x / t <==> n * t <= x
  {
    var q := x / t;
    assert q * t <= x < q * t + t;
    if n <= q {
      Scales(n, q, t);
    } else {
      Scales(q + 1, n, t);
      assert (q + 1) * t == q * t + t;
    }
  }

  /** A rate of whole bytes per second is reached exactly if so many bytes came in that time. */
  lemma RateReaches(a: Sample, b: Sample, j: nat, bytes: nat)
    requires j < |a.counters| == |b.counters| && a.at < b.at && a.counters[j] <= b.counters[j] && bytes <= MAX_COUNTER
    ensures bytes <= Rate(a, b, j) <==>
      bytes * (b.at - a.at) <= (b.counters[j] as int - a.counters[j] as int) * 1_000_000
  {
    var x, t: int := (b.counters[j] as int - a.counters[j] as int) * 1_000_000, b.at - a.at;
    QuotientReaches(x, t, bytes);
  }

  function PairRate(rows: seq<Sample>, i: int, j: nat): int
    requires (forall x <- rows :: |x.counters| == COUNTERS) && 0 < i < |rows| && j < COUNTERS
  {
    Rate(rows[i - 1], rows[i], j)
  }

  // The peak is the highest rate between neighbouring samples, or zero.
  ghost predicate IsPeak(peak: int, rows: seq<Sample>, j: nat)
    requires (forall x <- rows :: |x.counters| == COUNTERS) && j < COUNTERS
  {
    && (forall i | 0 < i < |rows| :: PairRate(rows, i, j) <= peak)
    && (peak == 0 || exists i | 0 < i < |rows| :: PairRate(rows, i, j) == peak)
  }

  /** Elapsed time and deltas are those between the first and the last row. */
  ghost predicate Telescopes(a: Aggregate, rows: seq<Sample>)
    requires forall x <- rows :: |x.counters| == COUNTERS
  {
    && |a.delta| == COUNTERS
    && a.elapsed == (if rows == [] then 0 else (rows[|rows| - 1].at - rows[0].at) * 1000)
    && forall j | 0 <= j < COUNTERS ::
         a.delta[j] == if rows == [] then 0 else rows[|rows| - 1].counters[j] as int - rows[0].counters[j] as int
  }

  lemma PeakNext(peak: int, rows: seq<Sample>, i: nat, j: nat)
    requires (forall x <- rows :: |x.counters| == COUNTERS) && j < COUNTERS
    requires 0 < i < |rows| && IsPeak(peak, rows[..i], j)
    ensures IsPeak(Max(peak, Rate(rows[i - 1], rows[i], j)), rows[..i + 1], j)
  {
    hide Rate;
    var head, more := rows[..i], rows[..i + 1];
    forall k | 0 < k < i
      ensures PairRate(more, k, j) == PairRate(head, k, j)
    {
    }
    assert PairRate(more, i, j) == Rate(rows[i - 1], rows[i], j);
    if peak != 0 {
      var k :| 0 < k < i && PairRate(head, k, j) == peak;
      assert PairRate(more, k, j) == peak;
    }
  }

  /** The aggregate of loaded rows fails exactly when they do not grow, and its deltas telescope. */
  method AggregateRows(rows: seq<Sample>) returns (r: Try<Aggregate>)
    requires forall x <- rows :: |x.counters| == COUNTERS
    ensures r.Success? <==> Growing(rows)
    ensures r.Success? ==> r.value.samples == |rows| && Telescopes(r.value, rows)
    ensures r.Success? ==> IsPeak(r.value.peakReceive, rows, 0) && IsPeak(r.value.peakSend, rows, 1)
  {
    hide Rate, PairRate, Continues;
    var elapsed: int, delta: seq<int> := 0, seq(COUNTERS, j => 0);
    if |rows| < 2 {
      return Success(Aggregate(0, |rows|, 0, delta, 0, 0));
    }
    var receive, send := 0, 0;
    SingleGrows(rows[..1]);
    for i := 1 to |rows|
      invariant Growing(rows[..i]) && |delta| == COUNTERS
      invariant Telescopes(Aggregate(elapsed, i, 0, delta, 0, 0), rows[..i])
      invariant IsPeak(receive, rows[..i], 0) && IsPeak(send, rows[..i], 1)
    {
      var a, b := rows[i - 1], rows[i];
      if !Continues(a, b) {
        return Failure;
      }
      GrowsBy(rows[..i], b);
      assert rows[..i] + [b] == rows[..i + 1];
      elapsed := elapsed + (b.at - a.at) * 1000;
      delta := seq(COUNTERS, j requires 0 <= j < COUNTERS => delta[j] + (b.counters[j] as int - a.counters[j] as int));
      PeakNext(receive, rows, i, 0);
      PeakNext(send, rows, i, 1);
      receive, send := Max(receive, Rate(a, b, 0)), Max(send, Rate(a, b, 1));
    }
    assert rows[..|rows|] == rows;
    r := Success(Aggregate(elapsed, |rows|, 0, delta, receive, send));
  }

  // ---------- which pairs a minute owns ----------

  // How many samples lie before an instant.
  function Before(xs: seq<Sample>, t: int): (n: nat)
    ensures n <= |xs|
  {
    if xs == [] then 0 else if xs[|xs| - 1].at < t then |xs| else Before(xs[..|xs| - 1], t)
  }

  lemma {:induction false} Sorted(xs: seq<Sample>, i: nat, j: nat)
    requires Growing(xs) && i <= j < |xs|
    ensures xs[i].at <= xs[j].at && (i < j ==> xs[i].at < xs[j].at)
    decreases j
  {
    if i < j {
      Sorted(xs, i, j - 1);
    }
  }

  lemma {:induction false} BeforeSplits(xs: seq<Sample>, t: int, i: nat)
    requires Growing(xs) && i < |xs|
    ensures i < Before(xs, t) <==> xs[i].at < t
    decreases |xs|
  {
    var n := |xs| - 1;
    if xs[n].at < t {
      Sorted(xs, i, n);
    } else if i < n {
      assert Growing(xs[..n]);
      BeforeSplits(xs[..n], t, i);
    }
  }

  lemma Positions(xs: seq<Sample>, t: int, i: nat)
    requires Growing(xs) && i <= |xs| && (i > 0 ==> xs[i - 1].at < t) && forall k | i <= k < |xs| :: xs[k].at >= t
    ensures Before(xs, t) == i
  {
    hide Growing, Before;
    if i > 0 {
      BeforeSplits(xs, t, i - 1);
    }
    if i < |xs| {
      BeforeSplits(xs, t, i);
    }
  }

  lemma Ends(xs: seq<Sample>, start: int, end: int)
    requires Growing(xs) && start <= end
    ensures Before(xs, start) <= Before(xs, end)
  {
    hide Growing, Before;
    var n := Before(xs, start);
    if n > 0 {
      BeforeSplits(xs, start, n - 1);
      BeforeSplits(xs, end, n - 1);
    }
  }

  function Loaded(xs: seq<Sample>, start: int, end: int): seq<Sample> {
    var lead := if Before(xs, start) > 0 then Before(xs, start) - 1 else 0;
    if lead <= Before(xs, end) then xs[lead..Before(xs, end)] else []
  }

  // A sample is loaded exactly if it lies from the baseline up to the end.
  lemma LoadsSample(xs: seq<Sample>, start: int, end: int, i: nat, k: nat)
    requires Growing(xs) && i <= |xs| && k < |xs| && (i > 0 ==> xs[i - 1].at < start)
    requires forall j | i <= j < |xs| :: xs[j].at >= start
    ensures var from, baseline := if i > 0 then i - 1 else 0, if i > 0 then xs[i - 1].at else start;
      baseline <= xs[k].at < end <==> from <= k < Before(xs, end)
  {
    hide Growing, Before;
    BeforeSplits(xs, end, k);
    if i > 0 {
      if k < i - 1 {
        Sorted(xs, k, i - 1);
      } else {
        Sorted(xs, i - 1, k);
      }
    }
  }

  /** The rows of a window: its samples, led by the last one before it if there is one. */
  method LoadRows(xs: seq<Sample>, start: int, end: int) returns (rows: seq<Sample>)
    requires Growing(xs) && start <= end
    ensures rows == Loaded(xs, start, end)
  {
    hide Growing, Before;
    var baseline, i := start, |xs|;
    while i > 0 && xs[i - 1].at >= start
      invariant 0 <= i <= |xs| && forall k | i <= k < |xs| :: xs[k].at >= start
    {
      i := i - 1;
    }
    if i > 0 {
      baseline := xs[i - 1].at;
    }
    Positions(xs, start, i);
    rows := [];
    ghost var from, to := if i > 0 then i - 1 else 0, Before(xs, end);
    Ends(xs, start, end);
    for k := 0 to |xs|
      invariant rows == if k <= from then [] else xs[from..Min(k, to)]
    {
      LoadsSample(xs, start, end, i, k);
      if baseline <= xs[k].at < end {
        rows := rows + [xs[k]];
      }
    }
  }

  // A counter, or for the index past the last one the time in nanoseconds.
  function Column(x: Sample, j: nat): int
    requires |x.counters| == COUNTERS && j <= COUNTERS
  {
    if j < COUNTERS then x.counters[j] else x.at * 1000
  }

  /** The pair that ends in sample i belongs to the window its later sample lies in. */
  predicate Owns(xs: seq<Sample>, from: int, to: int, i: int) {
    0 < i < |xs| && from <= xs[i].at < to
  }

  /** What the pairs of a window gain, among the first n samples. */
  function Gain(xs: seq<Sample>, j: nat, from: int, to: int, n: nat): int
    requires n <= |xs| && (forall x <- xs :: |x.counters| == COUNTERS) && j <= COUNTERS
  {
    if n < 2 then 0
    else
      Gain(xs, j, from, to, n - 1)
      + if Owns(xs, from, to, n - 1) then Column(xs[n - 1], j) - Column(xs[n - 2], j) else 0
  }

  // The peak is the highest rate among the pairs of a window, or zero.
  ghost predicate IsPeakIn(peak: int, xs: seq<Sample>, from: int, to: int, j: nat)
    requires (forall x <- xs :: |x.counters| == COUNTERS) && j < COUNTERS
  {
    && (forall i | Owns(xs, from, to, i) :: PairRate(xs, i, j) <= peak)
    && (peak == 0 || exists i :: Owns(xs, from, to, i) && PairRate(xs, i, j) == peak)
  }

  /** Every pair of neighbouring samples belongs to exactly one minute. */
  lemma OwnedByOneMinute(xs: seq<Sample>, i: nat, start: int)
    requires 0 < i < |xs| && Aligned(start, MINUTE)
    ensures Owns(xs, start, start + MINUTE, i) <==> start == Floor(xs[i].at, MINUTE)
  {
    FloorUnique(xs[i].at, start, MINUTE);
  }

  // The pairs of the loaded rows are those of the window.
  lemma LoadedPairs(xs: seq<Sample>, start: int, end: int, i: nat)
    requires Growing(xs) && start <= end && 0 < i < |xs|
    ensures var lead := if Before(xs, start) > 0 then Before(xs, start) - 1 else 0;
            Owns(xs, start, end, i) <==> lead < i < Before(xs, end)
  {
    hide Growing, Before;
    BeforeSplits(xs, start, i);
    BeforeSplits(xs, end, i);
  }

  lemma {:induction false} GainUpTo(xs: seq<Sample>, j: nat, start: int, end: int, n: nat)
    requires Growing(xs) && start <= end && n <= |xs| && (forall x <- xs :: |x.counters| == COUNTERS) && j <= COUNTERS
    ensures var lead := if Before(xs, start) > 0 then Before(xs, start) - 1 else 0;
            var last := Min(n, Before(xs, end));
            Gain(xs, j, start, end, n) == if last <= lead then 0 else Column(xs[last - 1], j) - Column(xs[lead], j)
    decreases n
  {
    hide Growing, Before, Column, Owns;
    if n >= 2 {
      GainUpTo(xs, j, start, end, n - 1);
      LoadedPairs(xs, start, end, n - 1);
    }
  }

  // The loaded rows gain what the pairs of the window gain.
  lemma LoadedGain(xs: seq<Sample>, j: nat, start: int, end: int)
    requires Growing(xs) && start <= end && (forall x <- xs :: |x.counters| == COUNTERS) && j <= COUNTERS
    ensures var rows := Loaded(xs, start, end);
            && (forall x <- rows :: |x.counters| == COUNTERS)
            && Gain(xs, j, start, end, |xs|)
               == if rows == [] then 0 else Column(rows[|rows| - 1], j) - Column(rows[0], j)
  {
    hide Growing, Before, Column, Gain;
    GainUpTo(xs, j, start, end, |xs|);
    Ends(xs, start, end);
  }

  lemma LoadedPeak(xs: seq<Sample>, j: nat, start: int, end: int, peak: int)
    requires Growing(xs) && start <= end && (forall x <- xs :: |x.counters| == COUNTERS) && j < COUNTERS
    requires (forall x <- Loaded(xs, start, end) :: |x.counters| == COUNTERS) && IsPeak(peak, Loaded(xs, start, end), j)
    ensures IsPeakIn(peak, xs, start, end, j)
  {
    hide Growing, Before, Rate;
    var lead, rows := if Before(xs, start) > 0 then Before(xs, start) - 1 else 0, Loaded(xs, start, end);
    Ends(xs, start, end);
    forall i | Owns(xs, start, end, i)
      ensures PairRate(xs, i, j) <= peak
    {
      LoadedPairs(xs, start, end, i);
      assert PairRate(rows, i - lead, j) == PairRate(xs, i, j);
    }
    if peak != 0 {
      var k :| 0 < k < |rows| && PairRate(rows, k, j) == peak;
      LoadedPairs(xs, start, end, lead + k);
      assert PairRate(xs, lead + k, j) == peak;
    }
  }

  lemma LoadedGrows(xs: seq<Sample>, start: int, end: int)
    requires Growing(xs)
    ensures Growing(Loaded(xs, start, end)) && forall x <- Loaded(xs, start, end) :: x in xs
  {
    hide Before, Continues;
  }

  /** The samples of a window, and the one before it from which its first difference is taken. */
  function SampleCount(xs: seq<Sample>, start: int, end: int): int {
    Before(xs, end) - Before(xs, start) + if Before(xs, start) > 0 then 1 else 0
  }

  lemma LoadedCount(xs: seq<Sample>, start: int, end: int)
    requires Growing(xs) && start <= end
    ensures |Loaded(xs, start, end)| == SampleCount(xs, start, end)
  {
    hide Growing, Before;
    Ends(xs, start, end);
  }

  lemma NoneBefore(xs: seq<Sample>, t: int)
    requires Growing(xs)
    ensures Before(xs, t) == 0 <==> forall x <- xs :: x.at >= t
  {
    hide Growing, Before;
    if forall x <- xs :: x.at >= t {
      Positions(xs, t, 0);
    } else {
      var i :| 0 <= i < |xs| && xs[i].at < t;
      BeforeSplits(xs, t, i);
    }
  }

  /** Neighbouring windows count a sample twice unless nothing was sampled before the second. */
  lemma SamplesAddUpIff(xs: seq<Sample>, from: int, mid: int, to: int)
    requires Growing(xs)
    ensures SampleCount(xs, from, mid) + SampleCount(xs, mid, to) == SampleCount(xs, from, to)
       <==> forall x <- xs :: x.at >= mid
  {
    hide Growing, Before;
    NoneBefore(xs, mid);
  }

  function ResetsIn(resets: set<Reset>, g: nat, start: int, end: int): set<Reset> {
    set r | r in resets && r.generation == Some(g) && start <= r.at < end
  }

  /**
   A minute is aggregated once it is over and its generation has gone on or ended. It never fails, its
   deltas, elapsed time and peaks are those of the pairs that belong to it, and it counts the resets of
   its generation in it.
   */
  method RecomputeMinute(xs: seq<Sample>, ended: bool, resets: set<Reset>, g: nat, asOf: int, start: int)
    returns (r: Option<Aggregate>)
    requires Growing(xs) && forall x <- xs :: |x.counters| == COUNTERS
    ensures r.None? <==> asOf < start + MINUTE || (!ended && forall x <- xs :: x.at < start + MINUTE)
    ensures r.Some? ==>
      && |r.value.delta| == COUNTERS
      && r.value.elapsed == Gain(xs, COUNTERS, start, start + MINUTE, |xs|)
    ensures r.Some? ==> forall j | 0 <= j < COUNTERS :: r.value.delta[j] == Gain(xs, j, start, start + MINUTE, |xs|)
    ensures r.Some? ==> r.value.samples == SampleCount(xs, start, start + MINUTE)
    ensures r.Some? ==>
      r.value.resets == |set x | x in resets && x.generation == Some(g) && start <= x.at < start + 60_000_000|
    ensures r.Some? ==> IsPeakIn(r.value.peakReceive, xs, start, start + MINUTE, 0)
    ensures r.Some? ==> IsPeakIn(r.value.peakSend, xs, start, start + MINUTE, 1)
  {
    hide Continues, Before, IsPeak, IsPeakIn, Gain, Loaded;
    var end := start + MINUTE;
    if asOf < end || (!ended && forall x <- xs :: x.at < end) {
      return None;
    }
    var rows := LoadRows(xs, start, end);
    LoadedGrows(xs, start, end);
    forall j | 0 <= j <= COUNTERS
      ensures Gain(xs, j, start, end, |xs|) ==
        if rows == [] then 0 else Column(rows[|rows| - 1], j) - Column(rows[0], j)
    {
      LoadedGain(xs, j, start, end);
    }
    var all := AggregateRows(rows);
    LoadedPeak(xs, 0, start, end, all.value.peakReceive);
    LoadedPeak(xs, 1, start, end, all.value.peakSend);
    assert Gain(xs, COUNTERS, start, end, |xs|) == all.value.elapsed;
    LoadedCount(xs, start, end);
    r := Some(all.value.(resets := |ResetsIn(resets, g, start, end)|));
  }

  lemma {:induction false} GainSplits(xs: seq<Sample>, j: nat, from: int, mid: int, to: int, n: nat)
    requires from <= mid <= to && n <= |xs| && (forall x <- xs :: |x.counters| == COUNTERS) && j <= COUNTERS
    ensures Gain(xs, j, from, to, n) == Gain(xs, j, from, mid, n) + Gain(xs, j, mid, to, n)
  {
    hide Column;
    if n >= 2 {
      GainSplits(xs, j, from, mid, to, n - 1);
    }
  }

  lemma {:induction false} GainOfAll(xs: seq<Sample>, j: nat, from: int, to: int, n: nat)
    requires Growing(xs) && 0 < n <= |xs| && (forall x <- xs :: |x.counters| == COUNTERS) && j <= COUNTERS
    requires from <= xs[0].at && xs[|xs| - 1].at < to
    ensures Gain(xs, j, from, to, n) == Column(xs[n - 1], j) - Column(xs[0], j)
  {
    hide Growing, Column;
    if n >= 2 {
      GainOfAll(xs, j, from, to, n - 1);
      Sorted(xs, 0, n - 1);
      Sorted(xs, n - 1, |xs| - 1);
    }
  }

  // What n consecutive minutes gain together.
  function SumGains(xs: seq<Sample>, j: nat, start: int, n: nat): int
    requires (forall x <- xs :: |x.counters| == COUNTERS) && j <= COUNTERS
  {
    if n == 0 then 0
    else SumGains(xs, j, start, n - 1) + Gain(xs, j, start + (n - 1) * MINUTE, start + n * MINUTE, |xs|)
  }

  lemma {:induction false} NoGain(xs: seq<Sample>, j: nat, at: int, n: nat)
    requires n <= |xs| && (forall x <- xs :: |x.counters| == COUNTERS) && j <= COUNTERS
    ensures Gain(xs, j, at, at, n) == 0
  {
    if n >= 2 {
      NoGain(xs, j, at, n - 1);
    }
  }

  /**
   The minutes that hold all samples of a generation together gain its last values less its first, in every
   counter and in elapsed time.
   */
  lemma {:induction false} GainsTelescope(xs: seq<Sample>, j: nat, start: int, n: nat)
    requires Growing(xs) && (forall x <- xs :: |x.counters| == COUNTERS) && j <= COUNTERS
    ensures SumGains(xs, j, start, n) == Gain(xs, j, start, start + n * MINUTE, |xs|)
    ensures xs != [] && start <= xs[0].at && xs[|xs| - 1].at < start + n * MINUTE
        ==> SumGains(xs, j, start, n) == Column(xs[|xs| - 1], j) - Column(xs[0], j)
  {
    hide Growing, Column, Gain;
    if n == 0 {
      NoGain(xs, j, start, |xs|);
    } else {
      GainsTelescope(xs, j, start, n - 1);
      GainSplits(xs, j, start, start + (n - 1) * MINUTE, start + n * MINUTE, |xs|);
    }
    if xs != [] && start <= xs[0].at && xs[|xs| - 1].at < start + n * MINUTE {
      GainOfAll(xs, j, start, start + n * MINUTE, |xs|);
    }
  }

  /** The highest of the peaks of consecutive minutes is the peak of all of them. */
  lemma PeaksCombine(xs: seq<Sample>, j: nat, start: int, peaks: seq<int>, peak: int)
    requires (forall x <- xs :: |x.counters| == COUNTERS) && j < COUNTERS
    requires forall k | 0 <= k < |peaks| :: IsPeakIn(peaks[k], xs, start + k * MINUTE, start + k * MINUTE + MINUTE, j)
    requires (forall p <- peaks :: p <= peak) && (peak == 0 || peak in peaks)
    ensures IsPeakIn(peak, xs, start, start + |peaks| * MINUTE, j)
  {
    hide Rate;
    var end := start + |peaks| * MINUTE;
    forall i | Owns(xs, start, end, i)
      ensures PairRate(xs, i, j) <= peak
    {
      var k := (xs[i].at - start) / MINUTE;
      assert 0 <= k < |peaks| && Owns(xs, start + k * MINUTE, start + k * MINUTE + MINUTE, i);
      assert IsPeakIn(peaks[k], xs, start + k * MINUTE, start + k * MINUTE + MINUTE, j);
      assert peaks[k] in peaks;
    }
    if peak != 0 {
      var k :| 0 <= k < |peaks| && peaks[k] == peak;
      assert IsPeakIn(peaks[k], xs, start + k * MINUTE, start + k * MINUTE + MINUTE, j);
      var i :| Owns(xs, start + k * MINUTE, start + k * MINUTE + MINUTE, i) && PairRate(xs, i, j) == peak;
      assert Owns(xs, start, end, i);
    }
  }

  // ---------- the tables ----------

  // Only the open generation found can take the item.
  lemma OnlyOne(s: State, item: Item, found: Option<nat>)
    requires WellFormed(s) && |item.sample.counters| == COUNTERS
    requires found.Some? ==>
      && Open(s, item.identity.name, found.value)
      && s.generations[found.value].identity == item.identity
    requires found.None? ==> forall g <- s.generations ::
      !(s.generations[g].identity == item.identity && s.generations[g].ended.None?)
    ensures forall g: nat :: Fits(s, item, g) ==> found == Some(g)
    ensures found.Some? ==> found.value in s.samples && Growing(s.samples[found.value])
                            && forall x <- s.samples[found.value] :: |x.counters| == COUNTERS
  {
    hide Growing, Continues;
  }

  class Store {
    var generations: map<nat, Generation>
    var samples: map<nat, seq<Sample>>
    var next: nat
    var dirty: set<Dirty>
    var resets: set<Reset>

    function Contents(): State
      reads this
    {
      State(generations, samples, next, dirty, resets)
    }

    constructor ()
      ensures Contents() == START && WellFormed(Contents())
    {
      generations, samples, next, dirty, resets := map[], map[], 0, {}, {};
      new;
      StartWellFormed();
    }

    // Ends every open generation of a name, one row at a time.
    method Close(name: string, at: int) returns (closed: set<nat>)
      modifies this`generations, this`dirty
      ensures Contents() == CloseAll(old(Contents()), name, at) && closed == OpenOnes(old(Contents()), name)
    {
      hide Floor;
      closed := OpenOnes(Contents(), name);
      ghost var start := generations;
      var rest := closed;
      while rest != {}
        invariant rest <= closed && generations.Keys == start.Keys
        invariant forall g <- start ::
          generations[g] == if g in closed - rest then start[g].(ended := Some(at)) else start[g]
        invariant dirty == old(dirty) + set g | g in closed - rest :: Dirty(g, Floor(at, MINUTE))
        decreases rest
      {
        var g := Choose(rest);
        assert closed - (rest - {g}) == (closed - rest) + {g};
        generations := generations[g := generations[g].(ended := Some(at))];
        dirty := dirty + {Dirty(g, Floor(at, MINUTE))};
        rest := rest - {g};
      }
      assert closed - rest == closed;
      assert generations == CloseAll(old(Contents()), name, at).generations;
    }

    method Restarted(name: string, at: int)
      modifies this
      ensures Some(Contents()) == Step(old(Contents()), Restart(name, at))
    {
      hide CloseAll, OpenOnes;
      CloseLeaves(Contents(), name, at);
      ghost var all := ResetsOf(Contents(), name, at);
      var closed := Close(name, at);
      resets := resets + if closed == {} then {Reset(None, name, at)} else set g <- closed :: Reset(Some(g), name, at);
      assert closed != {} ==> (set g | g in closed :: Reset(Some(g), name, at)) == all;
      assert Contents() == CloseAll(old(Contents()), name, at).(resets := resets);
    }

    // The open generation of an interface, if there is one.
    method Find(identity: Identity) returns (found: Option<nat>)
      ensures found.Some? ==>
        && Open(Contents(), identity.name, found.value)
        && generations[found.value].identity == identity
      ensures found.None? ==> forall g <- generations ::
        !(generations[g].identity == identity && generations[g].ended.None?)
    {
      found := None;
      var rest := generations.Keys;
      while rest != {}
        invariant rest <= generations.Keys
        invariant forall g <- generations.Keys - rest ::
          !(generations[g].identity == identity && generations[g].ended.None?)
        decreases rest
      {
        var g := Choose(rest);
        rest := rest - {g};
        if generations[g].identity == identity && generations[g].ended.None? {
          return Some(g);
        }
      }
    }

    /** Stores a sample in the open generation it fits, or in a new one. */
    method Sampled(item: Item) returns (ok: bool)
      requires WellFormed(Contents()) && |item.sample.counters| == COUNTERS
      modifies this
      ensures ok <==> Step(old(Contents()), Snapshot(item)).Some?
      ensures Contents() == Step(old(Contents()), Snapshot(item)).GetOr(old(Contents()))
    {
      hide CloseAll, OpenOnes, Growing, Floor, WellFormed;
      ok := Storable(item.sample);
      if !ok {
        return;
      }
      ghost var before := Contents();
      var found := Find(item.identity);
      OnlyOne(before, item, found);
      if found.Some? {
        var g := found.value;
        var last := samples[g];
        if last == [] || Continues(last[|last| - 1], item.sample) {
          assert Fits(before, item, g);
          samples := samples[g := last + [item.sample]];
          dirty := dirty + {Dirty(g, Floor(item.sample.at, MINUTE))};
          return;
        }
      }
      assert !exists g :: Fits(before, item, g);
      CloseLeaves(before, item.identity.name, item.sample.at);
      var closed := Close(item.identity.name, item.sample.at);
      resets := resets + set g | g in closed :: Reset(Some(g), item.identity.name, item.sample.at);
      generations := generations[next := Generation(item.identity, item.sample.at, None)];
      samples := samples[next := [item.sample]];
      dirty, next := dirty + {Dirty(next, Floor(item.sample.at, MINUTE))}, next + 1;
      assert [] + [item.sample] == [item.sample];
      assert before.samples[before.next := []][before.next := [item.sample]] ==
        before.samples[before.next := [item.sample]];
      assert Contents() == Begin(before, item);
    }
  }
}
