/**
 The stored form of a histogram: a version byte, the number of pairs, and for each occupied bucket
 in ascending order the distance from the bucket before it and the count, all as base-128 varints.
 */
module HistogramCodec {
  import opened Common
  import opened Buckets
  import opened Sorting
  import opened Sums
  import opened Histogram

  type Byte = x: nat | x < 256

  const FORMAT_VERSION: Byte := 1
  const MAX_PAIRS: nat := 0x10_0000
  const TWO63: nat := 0x8000_0000_0000_0000
  const TWO64: nat := 0x1_0000_0000_0000_0000

  // ---------- varints ----------

  function Uvarint(x: nat): seq<Byte> {
    if x < 128 then [x] else [x % 128 + 128] + Uvarint(x / 128)
  }

  /** The value at the front and the bytes it took; `None` if cut short or beyond 64 bits. */
  function ReadUvarint(data: seq<Byte>, i: nat): Option<(nat, nat)>
    decreases |data|
  {
    if data == [] || i == 10 then None
    else if data[0] < 128 then
      if i == 9 && data[0] > 1 then None else Some((data[0], 1))
    else
      match ReadUvarint(data[1..], i + 1)
      case None => None
      case Some((v, n)) => Some((data[0] - 128 + 128 * v, n + 1))
  }

  lemma {:induction false} ReadLength(data: seq<Byte>, i: nat)
    ensures ReadUvarint(data, i).Some? ==> 1 <= ReadUvarint(data, i).value.1 <= |data|
    decreases |data|
  {
    if data != [] && i != 10 && data[0] >= 128 {
      ReadLength(data[1..], i + 1);
    }
  }

  function Read(data: seq<Byte>): (r: Option<(nat, nat)>)
    ensures r.Some? ==> 1 <= r.value.1 <= |data|
  {
    ReadLength(data, 0);
    ReadUvarint(data, 0)
  }

  // How far a value can reach when 7 * i bits of the 64 are used up.
  function Room(i: nat): nat
    requires i <= 9
    decreases 9 - i
  {
    if i == 9 then 2 else 128 * Room(i + 1)
  }

  lemma {:induction false} VarintRoundTrip(x: nat, rest: seq<Byte>, i: nat)
    requires i <= 9 && x < Room(i)
    ensures ReadUvarint(Uvarint(x) + rest, i) == Some((x, |Uvarint(x)|))
    decreases 9 - i
  {
    if x >= 128 {
      VarintRoundTrip(x / 128, rest, i + 1);
      assert (Uvarint(x) + rest)[1..] == Uvarint(x / 128) + rest;
      assert x % 128 + 128 * (x / 128) == x;
    }
  }

  lemma {:induction false} RoomPositive(i: nat)
    requires i <= 9
    ensures Room(i) >= 2
    decreases 9 - i
  {
    if i < 9 {
      RoomPositive(i + 1);
    }
  }

  lemma {:induction false} ReadFits(data: seq<Byte>, i: nat)
    requires i <= 9 && ReadUvarint(data, i).Some?
    ensures ReadUvarint(data, i).value.0 < Room(i)
    decreases |data|
  {
    if data[0] >= 128 {
      if i < 9 {
        ReadFits(data[1..], i + 1);
      }
    } else if i < 9 {
      assert Room(i) == 128 * Room(i + 1);
      RoomPositive(i + 1);
    }
  }

  lemma RoomIs64Bits()
    ensures Room(0) == TWO64
  {
    assert Room(8) == 128 * Room(9) && Room(7) == 128 * Room(8) && Room(6) == 128 * Room(7);
    assert Room(5) == 128 * Room(6) && Room(4) == 128 * Room(5) && Room(3) == 128 * Room(4);
    assert Room(2) == 128 * Room(3) && Room(1) == 128 * Room(2) && Room(0) == 128 * Room(1);
  }

  lemma ReadBack(x: nat, rest: seq<Byte>)
    requires x < TWO64
    ensures Read(Uvarint(x) + rest) == Some((x, |Uvarint(x)|))
    ensures (Uvarint(x) + rest)[|Uvarint(x)|..] == rest
  {
    RoomIs64Bits();
    VarintRoundTrip(x, rest, 0);
  }

  // ---------- encoding ----------

  function Delta(ks: seq<nat>, i: nat): nat
    requires i < |ks| && Ascending(ks)
  {
    if i == 0 then ks[0] else ks[i] - ks[i - 1]
  }

  // The pairs from position i on.
  function Body(ks: seq<nat>, m: Counts, i: nat): seq<Byte>
    requires i <= |ks| && Ascending(ks)
    decreases |ks| - i
  {
    if i == |ks| then [] else Uvarint(Delta(ks, i)) + Uvarint(At(m, ks[i])) + Body(ks, m, i + 1)
  }

  function Encoded(ks: seq<nat>, m: Counts): seq<Byte>
    requires Ascending(ks)
  {
    [FORMAT_VERSION] + Uvarint(|ks|) + Body(ks, m, 0)
  }

  method Marshal(h: Histogram) returns (data: seq<Byte>, ghost ks: seq<nat>)
    ensures Lists(ks, h.buckets) && data == Encoded(ks, h.buckets)
  {
    var indices := h.Indices();
    ks := indices;
    data := [FORMAT_VERSION] + Uvarint(|indices|);
    ghost var head := data;
    var previous := 0;
    for i := 0 to |indices|
      invariant i > 0 ==> previous == indices[i - 1]
      invariant data + Body(indices, h.buckets, i) == head + Body(indices, h.buckets, 0)
    {
      var idx := indices[i];
      var delta := if i > 0 then idx - previous else idx;
      data := data + Uvarint(delta);
      data := data + Uvarint(At(h.buckets, idx));
      previous := idx;
    }
  }

  // ---------- decoding ----------

  datatype Error = Version | PairCount | BadBucket | BadCount | NotIncreasing | Overflow | Trailing

  datatype Parsed = Ok(buckets: Counts, count: nat) | Err(error: Error)

  // Both `previous + delta` and the total wrap around at 64 bits.
  function Step(data: seq<Byte>, i: nat, previous: nat, p: Parsed): (r: (seq<Byte>, nat, Parsed))
    requires p.Ok?
    ensures |r.0| <= |data|
  {
    match Read(data)
    case None => (data, 0, Err(BadBucket))
    case Some((delta, n)) =>
      var data := data[n..];
      match Read(data)
      case None => (data, 0, Err(BadCount))
      case Some((count, n)) =>
        if count == 0 then (data, 0, Err(BadCount))
        else if i > 0 && delta == 0 then (data, 0, Err(NotIncreasing))
        else
          var idx := if i > 0 then (previous + delta) % TWO64 else delta;
          if idx > MAX_UINT32 then (data, 0, Err(Overflow))
          else (data[n..], idx, Ok(p.buckets[idx := count], (p.count + count) % TWO64))
  }

  function ParsePairs(data: seq<Byte>, i: nat, pairs: nat, previous: nat, p: Parsed): Parsed
    requires p.Ok? && i <= pairs
    decreases pairs - i
  {
    if i == pairs then
      if data == [] then p else Err(Trailing)
    else
      var (rest, idx, q) := Step(data, i, previous, p);
      if q.Err? then q else ParsePairs(rest, i + 1, pairs, idx, q)
  }

  function Parse(data: seq<Byte>): Parsed {
    if data == [] || data[0] != FORMAT_VERSION then Err(Version)
    else
      match Read(data[1..])
      case None => Err(PairCount)
      case Some((pairs, n)) =>
        if pairs > MAX_PAIRS then Err(PairCount)
        else ParsePairs(data[1..][n..], 0, pairs, 0, Ok(map[], 0))
  }

  method ReadPair(input: seq<Byte>, i: nat, previous: nat, p: Parsed) returns (data: seq<Byte>, idx: nat, q: Parsed)
    requires p.Ok?
    ensures (data, idx, q) == Step(input, i, previous, p)
  {
    hide Read;
    data, idx := input, 0;
    var first := Read(data);
    if first.None? {
      return data, idx, Err(BadBucket);
    }
    var (delta, n) := first.value;
    var rest := data[n..];
    var second := Read(rest);
    if second.None? || second.value.0 == 0 {
      return rest, 0, Err(BadCount);
    }
    var (count, k) := second.value;
    var position := delta;
    if i > 0 {
      if delta == 0 {
        return rest, 0, Err(NotIncreasing);
      }
      position := (previous + delta) % TWO64;
    }
    if position > MAX_UINT32 {
      return rest, 0, Err(Overflow);
    }
    data, idx, q := rest[k..], position, Ok(p.buckets[position := count], (p.count + count) % TWO64);
  }

  method Unmarshal(input: seq<Byte>) returns (p: Parsed)
    ensures p == Parse(input)
  {
    hide Read, Step;
    if |input| == 0 || input[0] != FORMAT_VERSION {
      return Err(Version);
    }
    var data := input[1..];
    var head := Read(data);
    if head.None? || head.value.0 > MAX_PAIRS {
      return Err(PairCount);
    }
    var pairs := head.value.0;
    data := data[head.value.1..];
    p := Ok(map[], 0);
    var previous: nat := 0;
    for i := 0 to pairs
      invariant p.Ok? && Parse(input) == ParsePairs(data, i, pairs, previous, p)
    {
      data, previous, p := ReadPair(data, i, previous, p);
      if p.Err? {
        return;
      }
    }
    if |data| != 0 {
      return Err(Trailing);
    }
  }

  // ---------- round trip ----------

  lemma ModAdds(x: nat, n: nat)
    ensures (x % TWO64 + n) % TWO64 == (x + n) % TWO64
  {
  }

  function Prefix(ks: seq<nat>, m: Counts, i: nat): Counts
    requires i <= |ks|
  {
    map k | k in ks[..i] :: At(m, k)
  }

  lemma PrefixNext(ks: seq<nat>, m: Counts, i: nat)
    requires Lists(ks, m) && i < |ks|
    ensures ks[i] !in Prefix(ks, m, i) && Prefix(ks, m, i + 1) == Prefix(ks, m, i)[ks[i] := m[ks[i]]]
  {
    assert ks[..i + 1] == ks[..i] + [ks[i]];
  }

  lemma PrefixAll(ks: seq<nat>, m: Counts)
    requires Lists(ks, m)
    ensures Prefix(ks, m, |ks|) == m
  {
    assert ks[..|ks|] == ks;
  }

  lemma BodyUnfolds(ks: seq<nat>, m: Counts, i: nat)
    requires Ascending(ks) && i < |ks|
    ensures Body(ks, m, i) == Uvarint(Delta(ks, i)) + (Uvarint(At(m, ks[i])) + Body(ks, m, i + 1))
  {
    hide Uvarint, Ascending;
  }

  // A pair that reads back as a bucket and a positive count.
  lemma StepReads(data: seq<Byte>, i: nat, previous: nat, p: Parsed, delta: nat, n: nat, count: nat, k: nat)
    requires p.Ok? && Read(data) == Some((delta, n)) && n <= |data|
    requires Read(data[n..]) == Some((count, k)) && k <= |data[n..]|
    requires count > 0 && (i > 0 ==> delta > 0) && (if i > 0 then (previous + delta) % TWO64 else delta) <= MAX_UINT32
    ensures var idx := if i > 0 then (previous + delta) % TWO64 else delta;
            Step(data, i, previous, p) == (data[n..][k..], idx, Ok(p.buckets[idx := count], (p.count + count) % TWO64))
  {
    hide Read;
  }

  lemma DeltaBack(ks: seq<nat>, i: nat)
    requires Ascending(ks) && i < |ks|
    ensures (if i > 0 then ks[i - 1] else 0) + Delta(ks, i) == ks[i] && (i > 0 ==> Delta(ks, i) > 0)
  {
  }

  lemma StepBack(ks: seq<nat>, m: Counts, i: nat, p: Parsed)
    requires Lists(ks, m) && i < |ks| && p.Ok?
    requires forall k <- m :: k <= MAX_UINT32 && 0 < m[k] < TWO64
    ensures Step(Body(ks, m, i), i, if i == 0 then 0 else ks[i - 1], p)
         == (Body(ks, m, i + 1), ks[i], Ok(p.buckets[ks[i] := m[ks[i]]], (p.count + m[ks[i]]) % TWO64))
  {
    hide Uvarint, ReadUvarint, Room, Read, Step, Body, Delta, Ascending;
    var k, rest := ks[i], Body(ks, m, i + 1);
    assert k in m && k <= MAX_UINT32;
    var delta, second := Delta(ks, i), Uvarint(m[k]) + rest;
    BodyUnfolds(ks, m, i);
    DeltaBack(ks, i);
    ReadBack(delta, second);
    ReadBack(m[k], rest);
    StepReads(Body(ks, m, i), i, if i == 0 then 0 else ks[i - 1], p, delta, |Uvarint(delta)|, m[k], |Uvarint(m[k])|);
  }

  lemma {:induction false} BodyRoundTrip(ks: seq<nat>, m: Counts, i: nat, p: Parsed)
    requires Lists(ks, m) && i <= |ks|
    requires forall k <- m :: k <= MAX_UINT32 && 0 < m[k] < TWO64
    requires p.Ok? && p.buckets == Prefix(ks, m, i) && p.count == SumOf(p.buckets) % TWO64
    ensures ParsePairs(Body(ks, m, i), i, |ks|, if i == 0 then 0 else ks[i - 1], p)
         == Ok(m, SumOf(m) % TWO64)
    decreases |ks| - i
  {
    hide SumOf, Uvarint, ReadUvarint, Room, Read, Step, Prefix, Ascending;
    if i == |ks| {
      PrefixAll(ks, m);
    } else {
      var k := ks[i];
      assert k in m;
      StepBack(ks, m, i, p);
      PrefixNext(ks, m, i);
      SumAdds(p.buckets, k, m[k]);
      ModAdds(SumOf(p.buckets), m[k]);
      BodyRoundTrip(ks, m, i + 1, Ok(p.buckets[k := m[k]], (p.count + m[k]) % TWO64));
    }
  }

  /**
   Whatever histogram is stored comes back unchanged, with its total as far as it fits 64 bits, and
   nothing is left over: positive 64-bit counts in at most 2^20 of the 32-bit buckets.
   */
  lemma RoundTrip(ks: seq<nat>, m: Counts)
    requires Lists(ks, m) && |ks| <= MAX_PAIRS
    requires forall k <- m :: k <= MAX_UINT32 && 0 < m[k] < TWO64
    ensures Parse(Encoded(ks, m)) == Ok(m, SumOf(m) % TWO64)
  {
    hide SumOf, Uvarint, ReadUvarint, Room, Read;
    ReadBack(|ks|, Body(ks, m, 0));
    assert Encoded(ks, m)[1..] == Uvarint(|ks|) + Body(ks, m, 0);
    SumEmpty<nat>(map[]);
    assert Prefix(ks, m, 0) == map[];
    BodyRoundTrip(ks, m, 0, Ok(map[], 0));
  }

  // ---------- what the decoder does not reject ----------

  /**
   An accepted pair lies above the pair before it exactly when the sum of the last index and the
   distance fits 64 bits; a longer distance wraps around and is taken for a lower bucket.
   */
  lemma AcceptedPairAscendsIff(data: seq<Byte>, i: nat, previous: nat, p: Parsed)
    requires p.Ok? && i > 0 && previous <= MAX_UINT32
    requires Step(data, i, previous, p).2.Ok?
    ensures Step(data, i, previous, p).1 > previous <==> previous + Read(data).value.0 < TWO64
  {
    RoomIs64Bits();
    ReadFits(data, 0);
    assert Read(data) == ReadUvarint(data, 0);
    hide Read, ReadUvarint;
    var delta := Read(data).value.0;
    if previous + delta >= TWO64 {
      assert (previous + delta) % TWO64 == previous + delta - TWO64;
    } else {
      assert (previous + delta) % TWO64 == previous + delta;
    }
  }

  // The buckets of the pairs from position i on, as far as they are accepted.
  function Places(data: seq<Byte>, i: nat, pairs: nat, previous: nat, p: Parsed): seq<nat>
    requires p.Ok? && i <= pairs
    decreases pairs - i
  {
    if i == pairs then []
    else
      var (rest, idx, q) := Step(data, i, previous, p);
      if q.Err? then [] else [idx] + Places(rest, i + 1, pairs, idx, q)
  }

  // Of the pairs from position i on, those that are accepted add up to less than 2^64.
  predicate NoneWraps(data: seq<Byte>, i: nat, pairs: nat, previous: nat, p: Parsed)
    requires p.Ok? && i <= pairs
    decreases pairs - i
  {
    i == pairs ||
    var (rest, idx, q) := Step(data, i, previous, p);
    q.Err? || ((i > 0 ==> previous + Read(data).value.0 < TWO64) && NoneWraps(rest, i + 1, pairs, idx, q))
  }

  // The pairs of an input that starts well.
  predicate Starts(data: seq<Byte>) {
    data != [] && data[0] == FORMAT_VERSION && Read(data[1..]).Some?
  }

  function PlacesOf(data: seq<Byte>): seq<nat>
    requires Starts(data)
  {
    var (pairs, n) := Read(data[1..]).value;
    Places(data[1..][n..], 0, pairs, 0, Ok(map[], 0))
  }

  predicate NoneWrapsOf(data: seq<Byte>)
    requires Starts(data)
  {
    var (pairs, n) := Read(data[1..]).value;
    NoneWraps(data[1..][n..], 0, pairs, 0, Ok(map[], 0))
  }

  // No bucket occurs twice, nor any of those known before.
  predicate Distinct(ks: seq<nat>, known: set<nat>) {
    ks == [] || (ks[0] !in known && Distinct(ks[1..], known + {ks[0]}))
  }

  lemma {:induction false} DistinctIff(ks: seq<nat>, known: set<nat>)
    ensures Distinct(ks, known)
       <==> (forall k <- ks :: k !in known) && forall i, j | 0 <= i < j < |ks| :: ks[i] != ks[j]
    decreases |ks|
  {
    if ks != [] {
      DistinctIff(ks[1..], known + {ks[0]});
      assert ks == [ks[0]] + ks[1..];
      assert forall j | 0 < j < |ks| :: ks[j] == ks[1..][j - 1];
      if Distinct(ks, known) {
        assert forall i | 0 <= i < |ks[1..]| :: ks[1..][i] in ks[1..];
      }
    }
  }

  lemma StepStores(data: seq<Byte>, i: nat, previous: nat, p: Parsed)
    requires p.Ok? && Step(data, i, previous, p).2.Ok?
    ensures var (rest, idx, q) := Step(data, i, previous, p);
            idx <= MAX_UINT32 && idx in q.buckets && q.buckets[idx] > 0
            && q.buckets == p.buckets[idx := q.buckets[idx]] && q.count == (p.count + q.buckets[idx]) % TWO64
  {
    hide Read;
  }

  // What the accepted pairs from position i on overwrite.
  function Overwritten(data: seq<Byte>, i: nat, pairs: nat, previous: nat, p: Parsed): nat
    requires p.Ok? && i <= pairs
    decreases pairs - i
  {
    if i == pairs then 0
    else
      var (rest, idx, q) := Step(data, i, previous, p);
      if q.Err? then 0 else At(p.buckets, idx) + Overwritten(rest, i + 1, pairs, idx, q)
  }

  function OverwrittenOf(data: seq<Byte>): nat
    requires Starts(data)
  {
    var (pairs, n) := Read(data[1..]).value;
    Overwritten(data[1..][n..], 0, pairs, 0, Ok(map[], 0))
  }

  // Storing a count loses the one that was there.
  lemma StoreSum(m: Counts, k: nat, n: nat)
    ensures SumOf(m[k := n]) + At(m, k) == SumOf(m) + n
  {
    hide SumOf;
    if k in m {
      SumUpdates(m, k, n);
    } else {
      SumAdds(m, k, n);
    }
  }

  // The total is what is stored and what was overwritten, as far as it fits 64 bits.
  lemma {:induction false} PairsCount(data: seq<Byte>, i: nat, pairs: nat, previous: nat, p: Parsed, lost: nat)
    requires p.Ok? && i <= pairs && p.count == (SumOf(p.buckets) + lost) % TWO64
    requires ParsePairs(data, i, pairs, previous, p).Ok?
    ensures var r := ParsePairs(data, i, pairs, previous, p);
            r.count == (SumOf(r.buckets) + lost + Overwritten(data, i, pairs, previous, p)) % TWO64
    decreases pairs - i
  {
    hide Step, SumOf;
    if i < pairs {
      var (rest, idx, q) := Step(data, i, previous, p);
      StepStores(data, i, previous, p);
      StoreSum(p.buckets, idx, q.buckets[idx]);
      ModAdds(SumOf(p.buckets) + lost, q.buckets[idx]);
      PairsCount(rest, i + 1, pairs, idx, q, lost + At(p.buckets, idx));
    }
  }

  lemma {:induction false} NothingLostIff(data: seq<Byte>, i: nat, pairs: nat, previous: nat, p: Parsed)
    requires p.Ok? && i <= pairs && forall j <- p.buckets :: p.buckets[j] > 0
    requires ParsePairs(data, i, pairs, previous, p).Ok?
    ensures Overwritten(data, i, pairs, previous, p) == 0
       <==> Distinct(Places(data, i, pairs, previous, p), p.buckets.Keys)
    decreases pairs - i
  {
    hide Step;
    if i < pairs {
      var (rest, idx, q) := Step(data, i, previous, p);
      StepStores(data, i, previous, p);
      NothingLostIff(rest, i + 1, pairs, idx, q);
      var after := Places(rest, i + 1, pairs, idx, q);
      assert Places(data, i, pairs, previous, p) == [idx] + after && ([idx] + after)[1..] == after;
      assert q.buckets.Keys == p.buckets.Keys + {idx};
    }
  }

  lemma ParsesPairs(data: seq<Byte>)
    requires Parse(data).Ok?
    ensures Starts(data)
    ensures var (pairs, n) := Read(data[1..]).value;
            Parse(data) == ParsePairs(data[1..][n..], 0, pairs, 0, Ok(map[], 0))
  {
    hide Read;
  }

  lemma TotalIff(sum: nat, lost: nat)
    ensures (sum + lost) % TWO64 == sum <==> sum < TWO64 && lost % TWO64 == 0
  {
    if sum < TWO64 {
      ModAdds(lost, sum);
    }
  }

  /**
   The total of an accepted input is the sum of its buckets if and only if that sum fits 64 bits and the
   counts that were overwritten add up to a multiple of 2^64.
   */
  lemma CountIsTotalIff(data: seq<Byte>)
    requires Parse(data).Ok?
    ensures Starts(data)
    ensures var sum := SumOf(Parse(data).buckets);
      && Parse(data).count == (sum + OverwrittenOf(data)) % TWO64
      && (Parse(data).count == sum <==> sum < TWO64 && OverwrittenOf(data) % TWO64 == 0)
  {
    hide Read, ParsePairs, Overwritten, SumOf;
    ParsesPairs(data);
    var (pairs, n) := Read(data[1..]).value;
    SumEmpty<nat>(map[]);
    PairsCount(data[1..][n..], 0, pairs, 0, Ok(map[], 0), 0);
    TotalIff(SumOf(Parse(data).buckets), OverwrittenOf(data));
  }

  /** Nothing is overwritten exactly when no bucket occurs twice. */
  lemma OverwrittenIff(data: seq<Byte>)
    requires Parse(data).Ok?
    ensures Starts(data)
    ensures var ks := PlacesOf(data);
      OverwrittenOf(data) == 0 <==> forall i, j | 0 <= i < j < |ks| :: ks[i] != ks[j]
  {
    hide Read, ParsePairs, Overwritten, Places;
    ParsesPairs(data);
    var (pairs, n) := Read(data[1..]).value;
    var none: Counts := map[];
    NothingLostIff(data[1..][n..], 0, pairs, 0, Ok(none, 0));
    assert none.Keys == {};
    DistinctIff(PlacesOf(data), {});
  }

  /**
   While all counts of an accepted input together fit 64 bits, its total is right exactly when no bucket
   occurs in it twice.
   */
  lemma SmallCountIsTotalIff(data: seq<Byte>)
    requires Parse(data).Ok? && Starts(data)
    requires SumOf(Parse(data).buckets) + OverwrittenOf(data) < TWO64
    ensures var ks := PlacesOf(data);
      Parse(data).count == SumOf(Parse(data).buckets) <==> forall i, j | 0 <= i < j < |ks| :: ks[i] != ks[j]
  {
    hide Read, Parse, PlacesOf, OverwrittenOf, SumOf;
    CountIsTotalIff(data);
    OverwrittenIff(data);
  }

  // Each bucket lies above the one before it.
  predicate Climbs(previous: nat, ks: seq<nat>)
    decreases |ks|
  {
    ks == [] || (previous < ks[0] && Climbs(ks[0], ks[1..]))
  }

  lemma ClimbsNext(previous: nat, k: nat, ks: seq<nat>)
    ensures Climbs(previous, [k] + ks) <==> previous < k && Climbs(k, ks)
  {
    assert ([k] + ks)[1..] == ks;
  }

  lemma NothingClimbs(previous: nat)
    ensures Climbs(previous, [])
  {
  }

  lemma {:induction false} PairsClimbIff(data: seq<Byte>, i: nat, pairs: nat, previous: nat, p: Parsed)
    requires p.Ok? && 0 < i <= pairs && previous <= MAX_UINT32
    ensures Climbs(previous, Places(data, i, pairs, previous, p)) <==> NoneWraps(data, i, pairs, previous, p)
    decreases pairs - i
  {
    hide Step, Read, Climbs;
    if i < pairs && Step(data, i, previous, p).2.Ok? {
      var (rest, idx, q) := Step(data, i, previous, p);
      StepStores(data, i, previous, p);
      AcceptedPairAscendsIff(data, i, previous, p);
      PairsClimbIff(rest, i + 1, pairs, idx, q);
      ClimbsNext(previous, idx, Places(rest, i + 1, pairs, idx, q));
    } else {
      assert Places(data, i, pairs, previous, p) == [];
      assert Climbs(previous, []) by { NothingClimbs(previous); }
    }
  }

  lemma AscendingTail(k: nat, ks: seq<nat>)
    requires ks != []
    ensures Ascending([k] + ks) <==> k < ks[0] && Ascending(ks)
  {
    var more := [k] + ks;
    assert more[0] == k && forall i | 0 <= i < |ks| :: more[i + 1] == ks[i];
    if k < ks[0] && Ascending(ks) {
      forall i, j | 0 <= i < j < |more|
        ensures more[i] < more[j]
      {
        assert more[j] == ks[j - 1] && ks[0] <= ks[j - 1];
      }
    }
    if Ascending(more) {
      assert more[0] < more[1];
      forall i, j | 0 <= i < j < |ks|
        ensures ks[i] < ks[j]
      {
        assert more[i + 1] < more[j + 1];
      }
    }
  }

  lemma {:induction false} ClimbsIsAscending(k: nat, ks: seq<nat>)
    ensures Climbs(k, ks) <==> Ascending([k] + ks)
    decreases |ks|
  {
    if ks != [] {
      hide Ascending;
      assert [ks[0]] + ks[1..] == ks;
      ClimbsIsAscending(ks[0], ks[1..]);
      AscendingTail(k, ks);
    }
  }

  /**
   The buckets of an accepted input ascend if and only if no distance in it wrapped around; and then its
   total is the sum of its buckets as far as that fits 64 bits.
   */
  lemma AcceptedAscendsIff(data: seq<Byte>)
    requires Parse(data).Ok?
    ensures Starts(data) && (Ascending(PlacesOf(data)) <==> NoneWrapsOf(data))
    ensures NoneWrapsOf(data) ==> Parse(data).count == SumOf(Parse(data).buckets) % TWO64
  {
    hide Read, ParsePairs, Step, SumOf;
    ParsesPairs(data);
    CountIsTotalIff(data);
    OverwrittenIff(data);
    var (pairs, n) := Read(data[1..]).value;
    var body, p := data[1..][n..], Ok(map[], 0);
    var ks := PlacesOf(data);
    if pairs > 0 && Step(body, 0, 0, p).2.Ok? {
      var (rest, idx, q) := Step(body, 0, 0, p);
      StepStores(body, 0, 0, p);
      PairsClimbIff(rest, 1, pairs, idx, q);
      ClimbsIsAscending(idx, Places(rest, 1, pairs, idx, q));
      assert ks == [idx] + Places(rest, 1, pairs, idx, q);
    } else {
      assert ks == [];
    }
  }

  // ---------- an input that wraps around ----------

  // Bucket 5 with count 7, then 2^64 - 1 further with count 1, then 1 further with count 2.
  const WRAPPED: seq<Byte> :=
    [FORMAT_VERSION] + (Uvarint(3)
    + (Uvarint(5) + (Uvarint(7) + (Uvarint(TWO64 - 1) + (Uvarint(1) + (Uvarint(1) + (Uvarint(2) + [])))))))

  // One pair in front of the rest.
  lemma PairReads(rest: seq<Byte>, i: nat, previous: nat, p: Parsed, delta: nat, count: nat)
    requires p.Ok? && delta < TWO64 && 0 < count < TWO64 && (i > 0 ==> delta > 0)
    requires (if i > 0 then (previous + delta) % TWO64 else delta) <= MAX_UINT32
    ensures var idx := if i > 0 then (previous + delta) % TWO64 else delta;
            Step(Uvarint(delta) + (Uvarint(count) + rest), i, previous, p) ==
              (rest, idx, Ok(p.buckets[idx := count], (p.count + count) % TWO64))
  {
    hide Uvarint, Read, Step;
    ReadBack(delta, Uvarint(count) + rest);
    ReadBack(count, rest);
    var data := Uvarint(delta) + (Uvarint(count) + rest);
    StepReads(data, i, previous, p, delta, |Uvarint(delta)|, count, |Uvarint(count)|);
  }

  lemma PairsStep(data: seq<Byte>, i: nat, pairs: nat, previous: nat, p: Parsed, rest: seq<Byte>, idx: nat, q: Parsed)
    requires p.Ok? && q.Ok? && i < pairs && Step(data, i, previous, p) == (rest, idx, q)
    ensures ParsePairs(data, i, pairs, previous, p) == ParsePairs(rest, i + 1, pairs, idx, q)
    ensures Places(data, i, pairs, previous, p) == [idx] + Places(rest, i + 1, pairs, idx, q)
    ensures NoneWraps(data, i, pairs, previous, p)
       <==> (i > 0 ==> previous + Read(data).value.0 < TWO64) && NoneWraps(rest, i + 1, pairs, idx, q)
  {
    hide Step, Read;
  }

  lemma PairsEnd(pairs: nat, previous: nat, p: Parsed)
    requires p.Ok?
    ensures ParsePairs([], pairs, pairs, previous, p) == p && Places([], pairs, pairs, previous, p) == []
    ensures NoneWraps([], pairs, pairs, previous, p)
  {
  }

  lemma WrappedSum()
    ensures SumOf<nat>(map[5 := 2, 4 := 1]) == 3
  {
    hide SumOf;
    var none: Counts := map[];
    var one: Counts := map[5 := 2];
    SumEmpty(none);
    SumAdds(none, 5, 2);
    SumAdds(one, 4, 1);
    assert none[5 := 2] == one && one[4 := 1] == map[5 := 2, 4 := 1];
  }

  /**
   An input is accepted although its second distance wraps around to a lower bucket and its third returns
   to the first one: the count 7 of bucket 5 is overwritten but stays in the total.
   */
  lemma WrappedInputIsAccepted()
    ensures Parse(WRAPPED) == Ok(map[5 := 2, 4 := 1], 10) && SumOf(Parse(WRAPPED).buckets) == 3
    ensures Starts(WRAPPED) && PlacesOf(WRAPPED) == [5, 4, 5] && !NoneWrapsOf(WRAPPED)
  {
    hide Uvarint, Read, Step, SumOf, ParsePairs, Places, NoneWraps;
    var third := Uvarint(1) + (Uvarint(2) + []);
    var second := Uvarint(TWO64 - 1) + (Uvarint(1) + third);
    var first := Uvarint(5) + (Uvarint(7) + second);
    assert WRAPPED == [FORMAT_VERSION] + (Uvarint(3) + first);
    assert WRAPPED[1..] == Uvarint(3) + first;
    ReadBack(3, first);
    var p0, p1, p2 := Ok(map[], 0), Ok(map[5 := 7], 7), Ok(map[5 := 7, 4 := 1], 8);
    var p3 := Ok(map[5 := 2, 4 := 1], 10);
    PairReads(second, 0, 0, p0, 5, 7);
    assert p0.buckets[5 := 7] == p1.buckets && p1.buckets[4 := 1] == p2.buckets && p2.buckets[5 := 2] == p3.buckets;
    PairsStep(first, 0, 3, 0, p0, second, 5, p1);
    assert (5 + (TWO64 - 1)) % TWO64 == 4;
    PairReads(third, 1, 5, p1, TWO64 - 1, 1);
    PairsStep(second, 1, 3, 5, p1, third, 4, p2);
    PairReads([], 2, 4, p2, 1, 2);
    PairsStep(third, 2, 3, 4, p2, [], 5, p3);
    PairsEnd(3, 5, p3);
    ReadBack(TWO64 - 1, Uvarint(1) + third);
    WrappedSum();
  }

  // Buckets 5 and 6 with a count of 2^63 each.
  const OVERFULL: seq<Byte> :=
    [FORMAT_VERSION]
    + (Uvarint(2) + (Uvarint(5) + (Uvarint(TWO63) + (Uvarint(1) + (Uvarint(TWO63) + [])))))

  /** An input without a repeated bucket or a wrapped distance is accepted with a total of 0. */
  lemma OverfullInputIsAccepted()
    ensures Parse(OVERFULL) == Ok(map[5 := TWO63, 6 := TWO63], 0) && SumOf(Parse(OVERFULL).buckets) == TWO64
    ensures Starts(OVERFULL) && PlacesOf(OVERFULL) == [5, 6] && NoneWrapsOf(OVERFULL)
  {
    hide Uvarint, Read, Step, SumOf, ParsePairs, Places, NoneWraps;
    var second := Uvarint(1) + (Uvarint(TWO63) + []);
    var first := Uvarint(5) + (Uvarint(TWO63) + second);
    assert OVERFULL == [FORMAT_VERSION] + (Uvarint(2) + first);
    assert OVERFULL[1..] == Uvarint(2) + first;
    ReadBack(2, first);
    var p0, p1, p2 := Ok(map[], 0), Ok(map[5 := TWO63], TWO63), Ok(map[5 := TWO63, 6 := TWO63], 0);
    assert p0.buckets[5 := TWO63] == p1.buckets && p1.buckets[6 := TWO63] == p2.buckets;
    PairReads(second, 0, 0, p0, 5, TWO63);
    PairsStep(first, 0, 2, 0, p0, second, 5, p1);
    PairReads([], 1, 5, p1, 1, TWO63);
    PairsStep(second, 1, 2, 5, p1, [], 6, p2);
    PairsEnd(2, 6, p2);
    ReadBack(1, Uvarint(TWO63) + []);
    SumEmpty(p0.buckets);
    SumAdds(p0.buckets, 5, TWO63);
    SumAdds(p1.buckets, 6, TWO63);
  }

  // ---------- the stored form ----------

  // The number whose digits to the base 128 the bytes hold, lowest first.
  function ValueOf(data: seq<Byte>): nat { if data == [] then 0 else data[0] % 128 + 128 * ValueOf(data[1..]) }

  /** A varint holds the digits of its value, the lowest first, and marks all bytes but the last. */
  lemma {:induction false} VarintDigits(x: nat)
    ensures ValueOf(Uvarint(x)) == x && Uvarint(x) != []
    ensures forall i | 0 <= i < |Uvarint(x)| :: Uvarint(x)[i] >= 128 <==> i < |Uvarint(x)| - 1
    decreases x
  {
    if x >= 128 {
      VarintDigits(x / 128);
      assert Uvarint(x)[1..] == Uvarint(x / 128);
    }
  }

  /** Version, number of pairs, and for each pair the distance and the count. */
  lemma StoredForm()
    ensures Encoded([5, 300], map[5 := 7, 300 := 2]) == [1, 2, 5, 7, 167, 2, 2]
  {
  }

  // Buckets and counts are what can be stored again.
  ghost predicate Storable(m: Counts) { forall k <- m :: k <= MAX_UINT32 && 0 < m[k] < TWO64 }

  lemma StepStorable(data: seq<Byte>, i: nat, previous: nat, p: Parsed)
    requires p.Ok? && Storable(p.buckets)
    ensures var q := Step(data, i, previous, p).2;
      q.Ok? ==> Storable(q.buckets) && |q.buckets| <= |p.buckets| + 1
  {
    RoomIs64Bits();
    if Read(data).Some? && Read(data[Read(data).value.1..]).Some? {
      ReadFits(data[Read(data).value.1..], 0);
    }
    hide ReadUvarint, Room;
  }

  lemma {:induction false} PairsStorable(data: seq<Byte>, i: nat, pairs: nat, previous: nat, p: Parsed)
    requires p.Ok? && Storable(p.buckets) && i <= pairs
    ensures var q := ParsePairs(data, i, pairs, previous, p);
      q.Ok? ==> Storable(q.buckets) && |q.buckets| <= |p.buckets| + pairs - i
    decreases pairs - i
  {
    hide Step, Storable;
    if i < pairs {
      var (rest, idx, q) := Step(data, i, previous, p);
      StepStorable(data, i, previous, p);
      if q.Ok? {
        PairsStorable(rest, i + 1, pairs, idx, q);
      }
    }
  }

  /** Whatever is accepted has positive 64-bit counts in at most 2^20 of the 32-bit buckets. */
  lemma AcceptedIsStorable(data: seq<Byte>)
    ensures Parse(data).Ok? ==> Storable(Parse(data).buckets) && |Parse(data).buckets| <= 0x10_0000
  {
    hide Read, ParsePairs;
    if data != [] && Read(data[1..]).Some? {
      var (pairs, n) := Read(data[1..]).value;
      PairsStorable(data[1..][n..], 0, pairs, 0, Ok(map[], 0));
    }
  }

  // ---------- nothing is left over ----------

  lemma {:induction false} ReadMore(data: seq<Byte>, more: seq<Byte>, i: nat)
    requires ReadUvarint(data, i).Some?
    ensures ReadUvarint(data + more, i) == ReadUvarint(data, i)
    decreases |data|
  {
    if data[0] >= 128 {
      assert (data + more)[1..] == data[1..] + more;
      ReadMore(data[1..], more, i + 1);
    }
  }

  lemma ReadsOn(data: seq<Byte>, more: seq<Byte>)
    requires Read(data).Some?
    ensures Read(data + more) == Read(data)
    ensures (data + more)[Read(data).value.1..] == data[Read(data).value.1..] + more
  {
    ReadMore(data, more, 0);
    hide ReadUvarint;
  }

  lemma StepsOn(data: seq<Byte>, more: seq<Byte>, i: nat, previous: nat, p: Parsed)
    requires p.Ok? && Step(data, i, previous, p).2.Ok?
    ensures var (rest, idx, q) := Step(data, i, previous, p); Step(data + more, i, previous, p) == (rest + more, idx, q)
  {
    ReadsOn(data, more);
    ReadsOn(data[Read(data).value.1..], more);
    hide Read;
  }

  lemma {:induction false} PairsLeave(data: seq<Byte>, more: seq<Byte>, i: nat, pairs: nat, previous: nat, p: Parsed)
    requires p.Ok? && i <= pairs && ParsePairs(data, i, pairs, previous, p).Ok? && more != []
    ensures ParsePairs(data + more, i, pairs, previous, p) == Err(Trailing)
    decreases pairs - i
  {
    hide Step;
    if i < pairs {
      var (rest, idx, q) := Step(data, i, previous, p);
      StepsOn(data, more, i, previous, p);
      PairsLeave(rest, more, i + 1, pairs, idx, q);
    }
  }

  /** An accepted input is read to its end: with anything more after it, it is refused. */
  lemma NothingTrails(data: seq<Byte>, more: seq<Byte>)
    requires Parse(data).Ok? && more != []
    ensures Parse(data + more) == Err(Trailing)
  {
    hide ParsePairs;
    assert (data + more)[1..] == data[1..] + more;
    ReadsOn(data[1..], more);
    var (pairs, n) := Read(data[1..]).value;
    PairsLeave(data[1..][n..], more, 0, pairs, 0, Ok(map[], 0));
    hide Read;
  }
}
