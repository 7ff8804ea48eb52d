/** The latency histogram: observation, merging, one-pass quantiles and the highest bins. */
module Histogram {
  import opened Common
  import opened Buckets
  import opened Sorting
  import opened Sums

  type Counts = map<nat, nat>

  function At(m: Counts, k: nat): nat { if k in m then m[k] else 0 }

  /** How many observations lie in bucket x or below. */
  ghost function Upto(m: Counts, x: int): nat {
    SumOf(map k: nat | k in m && k <= x :: m[k])
  }

  /** Bucket b is the nearest-rank answer: the least bucket whose cumulative count reaches the rank. */
  ghost predicate IsQuantile(m: Counts, rank: nat, b: nat) {
    b in m && Upto(m, b) >= rank && Upto(m, b as int - 1) < rank
  }

  lemma UptoSplits(m: Counts, x: int, y: int)
    requires x <= y
    ensures Upto(m, y) == Upto(m, x) + SumOf(map k: nat | k in m && x < k <= y :: m[k])
  {
    var a, b := map k: nat | k in m && k <= x :: m[k], map k: nat | k in m && x < k <= y :: m[k];
    SumUnion(a, b);
    assert a + b == map k: nat | k in m && k <= y :: m[k];
  }

  /** There is at most one nearest-rank bucket, and a higher rank never has a lower one. */
  lemma QuantileMonotone(m: Counts, r: nat, s: nat, b: nat, c: nat)
    requires r <= s && IsQuantile(m, r, b) && IsQuantile(m, s, c)
    ensures b <= c
  {
    if c < b {
      UptoSplits(m, c, b as int - 1);
    }
  }

  // The keys of the map in ascending order.
  ghost predicate Lists(ks: seq<nat>, m: Counts) {
    Ascending(ks) && (forall k <- ks :: k in m) && (forall k <- m :: k in ks)
  }

  lemma UptoGap(m: Counts, x: int, y: int)
    requires x <= y && forall k <- m :: !(x < k <= y)
    ensures Upto(m, y) == Upto(m, x)
  {
    assert (map k: nat | k in m && k <= y :: m[k]) == map k: nat | k in m && k <= x :: m[k];
  }

  lemma UptoNothing(m: Counts, x: int)
    requires x < 0
    ensures Upto(m, x) == 0
  {
  }

  lemma UptoNext(m: Counts, k: nat)
    requires k in m
    ensures Upto(m, k) == Upto(m, k as int - 1) + m[k]
  {
    hide SumOf;
    var x: int := k;
    UptoSplits(m, x - 1, x);
    var one: Counts := map[k := m[k]];
    assert (map j: nat | j in m && x - 1 < j <= x :: m[j]) == one;
    SumTakes(one, k);
    SumEmpty(one - {k});
  }

  // The keys before position i of the ascending scan are those below the key at i.
  lemma ScanStep(m: Counts, ks: seq<nat>, i: nat)
    requires Lists(ks, m) && i < |ks|
    ensures Upto(m, ks[i] as int - 1) == if i == 0 then 0 else Upto(m, ks[i - 1])
    ensures Upto(m, ks[i]) == Upto(m, ks[i] as int - 1) + m[ks[i]]
  {
    hide Upto;
    var below: int, x: int := if i == 0 then -1 else ks[i - 1], ks[i];
    forall k | k in m
      ensures !(below < k <= x - 1)
    {
      var j :| 0 <= j < |ks| && ks[j] == k;
    }
    UptoGap(m, below, x - 1);
    UptoNext(m, ks[i]);
    UptoNothing(m, -1);
  }

  lemma UptoAll(m: Counts, x: int)
    requires forall k <- m :: k <= x
    ensures Upto(m, x) == SumOf(m)
  {
    assert (map k: nat | k in m && k <= x :: m[k]) == m;
  }

  lemma ScanEnds(m: Counts, ks: seq<nat>)
    requires Lists(ks, m) && ks != []
    ensures Upto(m, ks[|ks| - 1]) == SumOf(m)
  {
    hide Upto;
    forall k | k in m
      ensures k <= ks[|ks| - 1]
    {
      var j :| 0 <= j < |ks| && ks[j] == k;
    }
    UptoAll(m, ks[|ks| - 1]);
  }

  // ---------- ranks ----------

  /** A quantile's nearest rank among n observations, at least 1 and at most n. */
  function Rank(q: real, n: nat): (r: nat)
    requires n > 0
    ensures 1 <= r <= n
  {
    var p := if q < 0.0 then 0.0 else if q > 1.0 then 1.0 else q;
    var ceiling := -((-(p * n as real)).Floor);
    assert 0.0 <= p * n as real <= n as real;
    Max(ceiling, 1)
  }

  // The proportion a quantile asks for.
  function Proportion(q: real): real { if q < 0.0 then 0.0 else if q > 1.0 then 1.0 else q }

  lemma CeilingIsLeast(x: real, r: int)
    ensures -((-x).Floor) <= r <==> x <= r as real
  {
  }

  /** The nearest rank is the least one that is at least 1 and the asked proportion of the observations. */
  lemma RankIsLeast(q: real, n: nat, r: nat)
    requires n > 0
    ensures Rank(q, n) <= r <==> 1 <= r && r as real >= Proportion(q) * n as real
  {
    CeilingIsLeast(Proportion(q) * n as real, r);
  }

  lemma ProportionGrows(q: real, q': real, n: nat)
    requires q <= q'
    ensures Proportion(q) * n as real <= Proportion(q') * n as real
  {
  }

  /** A larger quantile never has a lower rank. */
  lemma RankMonotone(q: real, q': real, n: nat)
    requires n > 0 && q <= q'
    ensures Rank(q, n) <= Rank(q', n)
  {
    hide Rank, Proportion;
    ProportionGrows(q, q', n);
    RankIsLeast(q, n, Rank(q', n));
    RankIsLeast(q', n, Rank(q', n));
  }

  // The observations in bucket x or below make up the asked proportion of n, and are one at least.
  ghost predicate Reaches(m: Counts, x: int, q: real, n: nat) {
    Upto(m, x) >= 1 && Upto(m, x) as real >= Proportion(q) * n as real
  }

  /** Bucket b answers the quantile: the least one that reaches the asked proportion. */
  ghost predicate AnswersQuantile(m: Counts, q: real, n: nat, b: nat) {
    b in m && Reaches(m, b, q, n) && forall x: int | x < b :: !Reaches(m, x, q, n)
  }

  lemma UptoMonotone(m: Counts, x: int, y: int)
    requires x <= y
    ensures Upto(m, x) <= Upto(m, y)
  {
    UptoSplits(m, x, y);
  }

  // The nearest-rank bucket of a quantile's rank is its answer.
  lemma RankAnswers(m: Counts, q: real, n: nat, b: nat)
    requires n > 0
    ensures IsQuantile(m, Rank(q, n), b) <==> AnswersQuantile(m, q, n, b)
  {
    hide Upto, Rank;
    RankIsLeast(q, n, Upto(m, b));
    forall x: int | x < b
      ensures Upto(m, b as int - 1) < Rank(q, n) ==> !Reaches(m, x, q, n)
    {
      UptoMonotone(m, x, b as int - 1);
      RankIsLeast(q, n, Upto(m, x));
    }
    RankIsLeast(q, n, Upto(m, b as int - 1));
    assert Reaches(m, b as int - 1, q, n) <==> Rank(q, n) <= Upto(m, b as int - 1);
  }

  datatype Request = Request(rank: nat, index: nat)

  ghost predicate ByRank(rs: seq<Request>) {
    forall i, j | 0 <= i < j < |rs| :: rs[i].rank <= rs[j].rank
  }

  method InsertByRank(rs: seq<Request>, x: Request) returns (r: seq<Request>)
    requires ByRank(rs)
    ensures ByRank(r) && |r| == |rs| + 1 && forall y :: y in r <==> y in rs || y == x
  {
    var j := |rs|;
    while j > 0 && rs[j - 1].rank > x.rank
      invariant 0 <= j <= |rs| && forall k | j <= k < |rs| :: rs[k].rank > x.rank
    {
      j := j - 1;
    }
    r := rs[..j] + [x] + rs[j..];
  }

  method SortByRank(requests: seq<Request>) returns (rs: seq<Request>)
    ensures ByRank(rs) && |rs| == |requests| && forall y :: y in rs <==> y in requests
  {
    rs := [];
    for i := 0 to |requests|
      invariant ByRank(rs) && |rs| == i && forall y :: y in rs <==> y in requests[..i]
    {
      rs := InsertByRank(rs, requests[i]);
    }
  }

  // ---------- the one-pass scan ----------

  // Request r has been answered by the value of its nearest-rank bucket.
  ghost predicate Answered(m: Counts, r: Request, values: seq<nat>, bs: seq<nat>, binValue: nat -> nat) {
    r.index < |values| == |bs| && IsQuantile(m, r.rank, bs[r.index]) && values[r.index] == binValue(bs[r.index])
  }

  // Requests for the same place ask for the same rank, and every place exists.
  ghost predicate Consistent(rs: seq<Request>, n: nat) {
    && (forall j | 0 <= j < |rs| :: rs[j].index < n)
    && (forall j, k | 0 <= j < |rs| && 0 <= k < |rs| && rs[j].index == rs[k].index :: rs[j].rank == rs[k].rank)
  }

  // Answers the requests, from position `start` on, whose rank bucket b reaches.
  method AnswerFrom(ghost m: Counts, rs: seq<Request>, b: nat, seen: nat, start: nat,
                    v0: seq<nat>, ghost b0: seq<nat>, binValue: nat -> nat)
    returns (next: nat, values: seq<nat>, ghost bs: seq<nat>)
    requires ByRank(rs) && start < |rs| && |v0| == |b0| && Consistent(rs, |v0|) && b in m
    requires forall j | 0 <= j < start :: Answered(m, rs[j], v0, b0, binValue)
    requires Upto(m, b as int - 1) < rs[start].rank <= seen == Upto(m, b)
    ensures start < next <= |rs| && |values| == |bs| == |v0| && (next < |rs| ==> rs[next].rank > seen)
    ensures forall j | 0 <= j < next :: Answered(m, rs[j], values, bs, binValue)
  {
    hide Upto;
    next, values, bs := start, v0, b0;
    var quantile := binValue(b);
    while next < |rs| && rs[next].rank <= seen
      invariant start <= next <= |rs| && |values| == |bs| == |v0|
      invariant next == start ==> rs[next].rank <= seen
      invariant forall j | 0 <= j < next :: Answered(m, rs[j], values, bs, binValue)
    {
      values, bs := values[rs[next].index := quantile], bs[rs[next].index := b];
      next := next + 1;
    }
  }

  // One ascending scan over the buckets answers all requests.
  method Scan(m: Counts, ks: seq<nat>, rs: seq<Request>, n: nat, binValue: nat -> nat)
    returns (values: seq<nat>, ghost bs: seq<nat>)
    requires Lists(ks, m) && ByRank(rs) && rs != [] && Consistent(rs, n)
    requires forall j | 0 <= j < |rs| :: 1 <= rs[j].rank <= SumOf(m)
    ensures |values| == |bs| == n && forall j | 0 <= j < |rs| :: Answered(m, rs[j], values, bs, binValue)
  {
    hide Upto, SumOf, Consistent, Answered, IsQuantile;
    values, bs := seq(n, i => 0), seq(n, i => 0);
    var i, next, seen := 0, 0, 0;
    while i < |ks| && next < |rs|
      invariant 0 <= i <= |ks| && 0 <= next <= |rs| && |values| == |bs| == n
      invariant seen == if i == 0 then 0 else Upto(m, ks[i - 1])
      invariant next < |rs| ==> rs[next].rank > seen
      invariant forall j | 0 <= j < next :: Answered(m, rs[j], values, bs, binValue)
    {
      ScanStep(m, ks, i);
      seen := seen + m[ks[i]];
      if rs[next].rank <= seen {
        next, values, bs := AnswerFrom(m, rs, ks[i], seen, next, values, bs, binValue);
      }
      i := i + 1;
    }
    if ks == [] {
      SumEmpty(m);
    } else if i == |ks| {
      ScanEnds(m, ks);
    }
  }

  // ---------- bins ----------

  datatype Bin = Bin(value: nat, low: int, count: nat)

  lemma RankBounds(n: nat)
    requires n > 0
    ensures forall q :: 1 <= Rank(q, n) <= n
  {
  }

  function BinAt(m: Counts, k: nat, binValue: nat -> nat): Bin {
    Bin(binValue(k), BinLow(k), At(m, k))
  }

  function Merged(a: Counts, b: Counts): Counts {
    map k | k in a.Keys + b.Keys :: At(a, k) + At(b, k)
  }

  lemma MergedNothing(a: Counts)
    ensures Merged(a, map[]) == a
  {
  }

  lemma MergedNext(a: Counts, b: Counts, k: nat, n: nat)
    requires k !in b
    ensures Merged(a, b[k := n]) == Merged(a, b)[k := At(Merged(a, b), k) + n]
  {
  }

  lemma MergedPositive(a: Counts, b: Counts)
    requires (forall k <- a :: a[k] > 0) && (forall k <- b :: b[k] > 0)
    ensures forall k <- Merged(a, b) :: Merged(a, b)[k] > 0
  {
  }

  class Histogram {
    var buckets: Counts
    var count: nat

    ghost predicate Valid()
      reads this
    {
      count == SumOf(buckets) && forall k <- buckets :: buckets[k] > 0
    }

    constructor ()
      ensures Valid() && buckets == map[]
    {
      buckets, count := map[], 0;
      new;
      SumEmpty(buckets);
    }

    method Increase(k: nat, n: nat)
      modifies this`buckets
      ensures buckets == old(buckets)[k := At(old(buckets), k) + n] && SumOf(buckets) == SumOf(old(buckets)) + n
    {
      hide SumOf;
      if k in buckets {
        SumUpdates(buckets, k, buckets[k] + n);
      } else {
        SumAdds(buckets, k, n);
      }
      buckets := buckets[k := At(buckets, k) + n];
    }

    method Observe(value: nat)
      requires Valid()
      modifies this
      ensures Valid() && count == old(count) + 1
      ensures buckets == old(buckets)[Bucket(value) := At(old(buckets), Bucket(value)) + 1]
    {
      hide SumOf;
      Increase(Bucket(value), 1);
      count := count + 1;
    }

    method Merge(other: Histogram)
      requires Valid() && other.Valid() && other != this
      modifies this
      ensures Valid() && count == old(count) + other.count
      ensures buckets == Merged(old(buckets), other.buckets)
    {
      hide SumOf, Merged;
      var ks := other.buckets.Keys;
      ghost var done: Counts := map[];
      SumEmpty(done);
      MergedNothing(buckets);
      while ks != {}
        invariant ks <= other.buckets.Keys && count == old(count)
        invariant done == other.buckets - ks
        invariant buckets == Merged(old(buckets), done)
        invariant SumOf(buckets) == old(count) + SumOf(done)
        decreases ks
      {
        var k := Choose(ks);
        MergedNext(old(buckets), done, k, other.buckets[k]);
        SumAdds(done, k, other.buckets[k]);
        ks := ks - {k};
        done := done[k := other.buckets[k]];
        Increase(k, other.buckets[k]);
      }
      assert done == other.buckets;
      MergedPositive(old(buckets), done);
      count := count + other.count;
    }

    // The occupied buckets in ascending order.
    method Indices() returns (ks: seq<nat>)
      ensures Lists(ks, buckets)
    {
      ks := Sorted(buckets.Keys);
    }

    /** All quantiles in one ascending scan, answered in the order they were asked for. */
    method Quantiles(qs: seq<real>, binValue: nat -> nat) returns (values: seq<nat>, ghost bs: seq<nat>)
      requires Valid()
      ensures |values| == |qs| == |bs|
      ensures count == 0 ==> forall i | 0 <= i < |qs| :: values[i] == 0
      ensures count > 0 ==> forall i | 0 <= i < |qs| ::
        AnswersQuantile(buckets, qs[i], count, bs[i]) && values[i] == binValue(bs[i])
      ensures count > 0 ==> forall i, j | 0 <= i < |qs| && 0 <= j < |qs| && qs[i] <= qs[j] :: bs[i] <= bs[j]
    {
      hide Rank, IsQuantile, SumOf, AnswersQuantile;
      if count == 0 || |qs| == 0 {
        return seq(|qs|, i => 0), seq(|qs|, i => 0);
      }
      var n := count;
      var requests := seq(|qs|, i requires 0 <= i < |qs| => Request(Rank(qs[i], n), i));
      var rs := SortByRank(requests);
      forall j | 0 <= j < |rs|
        ensures rs[j].index < |qs| && rs[j].rank == Rank(qs[rs[j].index], n)
      {
        assert rs[j] in requests;
      }
      RankBounds(n);
      var ks := Indices();
      values, bs := Scan(buckets, ks, rs, |qs|, binValue);
      forall i | 0 <= i < |qs|
        ensures IsQuantile(buckets, Rank(qs[i], n), bs[i]) && AnswersQuantile(buckets, qs[i], n, bs[i])
        ensures values[i] == binValue(bs[i])
      {
        assert requests[i] in rs;
        assert Answered(buckets, requests[i], values, bs, binValue);
        RankAnswers(buckets, qs[i], n, bs[i]);
      }
      forall i, j | 0 <= i < |qs| && 0 <= j < |qs| && qs[i] <= qs[j]
        ensures bs[i] <= bs[j]
      {
        RankMonotone(qs[i], qs[j], n);
        QuantileMonotone(buckets, Rank(qs[i], n), Rank(qs[j], n), bs[i], bs[j]);
      }
    }

    /** The highest bins whose midpoint is at least `minValue`, at most `limit` of them, highest first. */
    method TopBins(minValue: nat, limit: int, binValue: nat -> nat)
      returns (bins: seq<Bin>, more: bool, ghost ks: seq<nat>)
      ensures Lists(ks, buckets) && |bins| <= |ks|
      ensures forall i | 0 <= i < |bins| ::
        bins[i] == BinAt(buckets, ks[|ks| - 1 - i], binValue) && bins[i].value >= minValue
      ensures more ==> |bins| >= limit && |bins| < |ks| && binValue(ks[|ks| - 1 - |bins|]) >= minValue
      ensures !more && |bins| < |ks| ==> binValue(ks[|ks| - 1 - |bins|]) < minValue
      ensures limit >= 0 ==> |bins| <= limit
    {
      bins := [];
      var indices := Indices();
      ks := indices;
      var i := |indices|;
      while i > 0
        invariant 0 <= i <= |indices| && |bins| == |indices| - i && (limit >= 0 ==> |bins| <= limit)
        invariant forall j | 0 <= j < |bins| ::
            bins[j] == BinAt(buckets, indices[|indices| - 1 - j], binValue) && bins[j].value >= minValue
      {
        i := i - 1;
        var idx := indices[i];
        if binValue(idx) < minValue {
          return bins, false, ks;
        }
        if |bins| >= limit {
          return bins, true, ks;
        }
        bins := bins + [BinAt(buckets, idx, binValue)];
      }
      more := false;
    }
  }
}
