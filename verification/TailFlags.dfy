/**
 The late flag of a tail bin. The chart marks a bin late only when every reply it holds is known
 to have missed its own deadline.
 */
module TailFlags {
  import opened Buckets
  import opened Sums
  import opened Histogram

  datatype Answer = Answer(rtt: nat, timeout: nat) {
    // The receiver classifies a reply as late exactly when it exceeds the timeout it was sent with.
    predicate Late() { rtt > timeout }
  }

  /** The histogram that observing the replies one after another builds. */
  function Observed(rs: seq<Answer>): Counts {
    if rs == [] then map[]
    else
      var m := Observed(rs[..|rs| - 1]);
      var k := Bucket(rs[|rs| - 1].rtt);
      m[k := At(m, k) + 1]
  }

  function CountLate(rs: seq<Answer>): nat {
    if rs == [] then 0 else CountLate(rs[..|rs| - 1]) + (if rs[|rs| - 1].Late() then 1 else 0)
  }

  function CountBelow(rs: seq<Answer>, b: nat): nat {
    if rs == [] then 0 else CountBelow(rs[..|rs| - 1], b) + (if Bucket(rs[|rs| - 1].rtt) < b then 1 else 0)
  }

  // Observing one more value raises the cumulative counts from its bucket on.
  lemma UptoObserve(m: Counts, k: nat, x: int)
    ensures Upto(m[k := At(m, k) + 1], x) == Upto(m, x) + if k <= x then 1 else 0
    ensures SumOf(m[k := At(m, k) + 1]) == SumOf(m) + 1
  {
    hide SumOf;
    var m' := m[k := At(m, k) + 1];
    var low: Counts := map j: nat | j in m && j <= x :: m[j];
    var n: nat := At(m, k) + 1;
    if k in m {
      SumUpdates(m, k, m[k] + 1);
      if k <= x {
        SumUpdates(low, k, m[k] + 1);
      }
    } else {
      SumAdds(m, k, 1);
      if k <= x {
        SumAdds(low, k, 1);
      }
    }
    assert (map j: nat | j in m' && j <= x :: m'[j]) == if k <= x then low[k := n] else low;
  }

  lemma {:induction false} ObservedCounts(rs: seq<Answer>, b: nat)
    ensures Upto(Observed(rs), b as int - 1) == CountBelow(rs, b) && SumOf(Observed(rs)) == |rs|
  {
    hide SumOf, Upto;
    if rs == [] {
      UptoAll(map[], b as int - 1);
      SumEmpty<nat>(map[]);
    } else {
      ObservedCounts(rs[..|rs| - 1], b);
      UptoObserve(Observed(rs[..|rs| - 1]), Bucket(rs[|rs| - 1].rtt), b as int - 1);
    }
  }

  lemma MergedIncrease(a: Counts, b: Counts, k: nat)
    ensures Merged(a, b[k := At(b, k) + 1]) == Merged(a, b)[k := At(Merged(a, b), k) + 1]
  {
  }

  /** Merging two histograms gives the histogram of all replies of both. */
  lemma {:induction false} MergeObservesBoth(rs: seq<Answer>, ss: seq<Answer>)
    ensures Merged(Observed(rs), Observed(ss)) == Observed(rs + ss)
  {
    hide Bucket, Merged;
    if ss == [] {
      assert rs + ss == rs;
      MergedNothing(Observed(rs));
    } else {
      assert (rs + ss)[..|rs + ss| - 1] == rs + ss[..|ss| - 1];
      MergeObservesBoth(rs, ss[..|ss| - 1]);
      MergedIncrease(Observed(rs), Observed(ss[..|ss| - 1]), Bucket(ss[|ss| - 1].rtt));
    }
  }

  // With one timeout, an on-time reply in a bucket leaves fewer late ones than replies from there up.
  lemma {:induction false} LateAreHighest(rs: seq<Answer>, i: nat, b: nat)
    requires forall j | 0 <= j < |rs| :: rs[j].timeout == rs[0].timeout
    requires rs != [] ==> forall r: nat | r > rs[0].timeout :: Bucket(r) >= b
    ensures CountLate(rs) + CountBelow(rs, b) <= |rs|
    ensures i < |rs| && !rs[i].Late() && Bucket(rs[i].rtt) >= b ==> CountLate(rs) + CountBelow(rs, b) < |rs|
  {
    if rs != [] {
      LateAreHighest(rs[..|rs| - 1], i, b);
    }
  }

  // ---------- the flag ----------

  ghost function Running(bins: seq<Bin>, n: nat): nat
    requires n <= |bins|
  {
    if n == 0 then 0 else Running(bins, n - 1) + bins[n - 1].count
  }

  // As many replies as were late lie in this bin or above it, and with mixed timeouts all of it lies
  // above the longest.
  ghost predicate Flagged(bins: seq<Bin>, late: nat, timeoutMin: nat, timeoutMax: nat, n: nat) {
    n < |bins| && Running(bins, n + 1) <= late && (timeoutMin == timeoutMax || bins[n].low > timeoutMax)
  }

  lemma FlagNext(bins: seq<Bin>, late: nat, timeoutMin: nat, timeoutMax: nat, n: nat)
    requires n < |bins|
    ensures Flagged(bins, late, timeoutMin, timeoutMax, n) <==>
      Running(bins, n) + bins[n].count <= late && (timeoutMin == timeoutMax || bins[n].low > timeoutMax)
  {
  }

  // The walk of the source, highest bin first.
  method Flag(bins: seq<Bin>, late: nat, timeoutMin: nat, timeoutMax: nat) returns (flags: seq<bool>)
    ensures |flags| == |bins|
    ensures forall i | 0 <= i < |bins| :: flags[i] <==> Flagged(bins, late, timeoutMin, timeoutMax, i)
  {
    hide Flagged;
    flags := [];
    var running := 0;
    for i := 0 to |bins|
      invariant |flags| == i && running == Running(bins, i)
      invariant forall j | 0 <= j < i :: flags[j] <==> Flagged(bins, late, timeoutMin, timeoutMax, j)
    {
      running := running + bins[i].count;
      var over := running <= late && (timeoutMin == timeoutMax || bins[i].low > timeoutMax);
      FlagNext(bins, late, timeoutMin, timeoutMax, i);
      flags := flags + [over];
    }
  }

  // The running count is the number of replies in this bin and all higher ones.
  lemma {:induction false} RunningIsFromTop(m: Counts, ks: seq<nat>, bins: seq<Bin>, binValue: nat -> nat, n: nat)
    requires Lists(ks, m) && n <= |bins| <= |ks|
    requires forall i | 0 <= i < |bins| :: bins[i] == BinAt(m, ks[|ks| - 1 - i], binValue)
    ensures n > 0 ==> Running(bins, n) == SumOf(m) - Upto(m, ks[|ks| - n] as int - 1)
  {
    hide SumOf, Upto;
    if n > 0 {
      RunningIsFromTop(m, ks, bins, binValue, n - 1);
      ScanStep(m, ks, |ks| - n);
      if n == 1 {
        ScanEnds(m, ks);
      } else {
        ScanStep(m, ks, |ks| - n + 1);
      }
    }
  }

  /**
   The flag never over-claims: whatever replies the bucket holds, and whatever timeouts beyond
   theirs the bucket has seen, a flagged bin contains only replies later than their own timeout.
   */
  lemma FlagNeverOverclaims(rs: seq<Answer>, ks: seq<nat>, bins: seq<Bin>, binValue: nat -> nat,
                            timeoutMin: nat, timeoutMax: nat, n: nat, i: nat)
    requires Lists(ks, Observed(rs)) && n < |bins| <= |ks|
    requires forall j | 0 <= j < |bins| :: bins[j] == BinAt(Observed(rs), ks[|ks| - 1 - j], binValue)
    requires forall r <- rs :: 0 < timeoutMin <= r.timeout <= timeoutMax
    requires Flagged(bins, CountLate(rs), timeoutMin, timeoutMax, n)
    requires i < |rs| && Bucket(rs[i].rtt) == ks[|ks| - 1 - n]
    ensures rs[i].Late()
  {
    hide SumOf, Upto, Observed, CountLate, CountBelow, Power, Running, Bucket;
    var b := ks[|ks| - 1 - n];
    assert rs[i] in rs;
    if timeoutMin == timeoutMax {
      RunningIsFromTop(Observed(rs), ks, bins, binValue, n + 1);
      ObservedCounts(rs, b);
      if !rs[i].Late() {
        forall r: nat | r > rs[0].timeout
          ensures Bucket(r) >= b
        {
          BucketMonotone(rs[i].rtt, r);
        }
        LateAreHighest(rs, i, b);
      }
    } else {
      BucketLow(rs[i].rtt);
    }
  }

  // ---------- what is flagged ----------

  // Every reply that counts as late, or lies below, leaves none on time from the bucket up.
  lemma {:induction false} AllCovered(rs: seq<Answer>, b: nat)
    requires forall r <- rs :: Bucket(r.rtt) >= b ==> r.Late()
    ensures CountLate(rs) + CountBelow(rs, b) >= |rs|
  {
    hide Bucket;
    if rs != [] {
      AllCovered(rs[..|rs| - 1], b);
      assert rs[|rs| - 1] in rs;
    }
  }

  lemma {:induction false} RunningGrows(bins: seq<Bin>, m: nat, n: nat)
    requires m <= n <= |bins|
    ensures Running(bins, m) <= Running(bins, n)
    decreases n
  {
    if m < n {
      RunningGrows(bins, m, n - 1);
    }
  }

  // Bins list the replies of their bucket and all higher ones.
  ghost predicate Bins(bins: seq<Bin>, ks: seq<nat>, rs: seq<Answer>, binValue: nat -> nat) {
    && Lists(ks, Observed(rs)) && |bins| <= |ks|
    && forall j | 0 <= j < |bins| :: bins[j] == BinAt(Observed(rs), ks[|ks| - 1 - j], binValue)
  }

  lemma {:induction false} IsObserved(rs: seq<Answer>, i: nat)
    requires i < |rs|
    ensures Bucket(rs[i].rtt) in Observed(rs)
  {
    hide Bucket;
    if i < |rs| - 1 {
      IsObserved(rs[..|rs| - 1], i);
    }
  }

  // The bin of a reply no lower than bin n comes no later than that.
  lemma BinOf(bins: seq<Bin>, ks: seq<nat>, rs: seq<Answer>, binValue: nat -> nat, n: nat, i: nat) returns (j: nat)
    requires Bins(bins, ks, rs, binValue) && n < |bins| && i < |rs| && Bucket(rs[i].rtt) >= ks[|ks| - 1 - n]
    ensures j <= n && ks[|ks| - 1 - j] == Bucket(rs[i].rtt)
  {
    hide Bucket, BinAt, Observed;
    IsObserved(rs, i);
    var k :| 0 <= k < |ks| && ks[k] == Bucket(rs[i].rtt);
    j := |ks| - 1 - k;
  }

  lemma LateAbove(b: nat, r: Answer)
    requires Bucket(r.rtt) >= b && BinLow(b) > r.timeout > 0
    ensures r.Late()
  {
    BucketLow(r.rtt);
    PowerMonotone(b, Bucket(r.rtt));
  }

  /**
   With one timeout a bin is flagged exactly if every reply in it or above it was late; with several, exactly
   if the bin lies above the longest.
   */
  lemma FlaggedIff(bins: seq<Bin>, ks: seq<nat>, rs: seq<Answer>, binValue: nat -> nat,
                   timeoutMin: nat, timeoutMax: nat, n: nat)
    requires Bins(bins, ks, rs, binValue) && n < |bins|
    requires forall r <- rs :: 0 < timeoutMin <= r.timeout <= timeoutMax
    ensures var b := ks[|ks| - 1 - n];
      Flagged(bins, CountLate(rs), timeoutMin, timeoutMax, n) <==>
        if timeoutMin == timeoutMax then forall r <- rs :: Bucket(r.rtt) >= b ==> r.Late() else BinLow(b) > timeoutMax
  {
    hide SumOf, Upto, Observed, CountLate, CountBelow, Power, Running, Bucket, BinLow;
    var b := ks[|ks| - 1 - n];
    RunningIsFromTop(Observed(rs), ks, bins, binValue, n + 1);
    ObservedCounts(rs, b);
    if timeoutMin != timeoutMax && BinLow(b) > timeoutMax {
      forall r | r in rs && Bucket(r.rtt) >= b
        ensures r.Late()
      {
        LateAbove(b, r);
      }
      AllCovered(rs, b);
    } else if timeoutMin == timeoutMax && Flagged(bins, CountLate(rs), timeoutMin, timeoutMax, n) {
      forall r | r in rs && Bucket(r.rtt) >= b
        ensures r.Late()
      {
        var i :| 0 <= i < |rs| && rs[i] == r;
        var j := BinOf(bins, ks, rs, binValue, n, i);
        RunningGrows(bins, j + 1, n + 1);
        FlagNeverOverclaims(rs, ks, bins, binValue, timeoutMin, timeoutMax, j, i);
      }
    } else if timeoutMin == timeoutMax && forall r <- rs :: Bucket(r.rtt) >= b ==> r.Late() {
      AllCovered(rs, b);
    }
  }
}
