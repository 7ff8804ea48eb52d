/**
 The logarithmic scale of the latency histogram: bucket i holds the values v with
 1.02^i <= v < 1.02^(i+1). The source computes i by floating-point logarithms; here it is the
 exact mathematical bucket.
 */
module Buckets {
  import opened Common

  const GAMMA := 1.02

  const MAX_UINT32: nat := 0xFFFF_FFFF

  function Power(i: nat): (p: real)
    ensures p >= 1.0
  {
    if i == 0 then 1.0 else Power(i - 1) * GAMMA
  }

  // The last power of gamma, from p = gamma^i on, that does not exceed v.
  function LastPower(v: real, i: nat, p: real): nat
    requires 1.0 <= p
    decreases if v < p then 0 else ((v - p) * 50.0).Floor + 1
  {
    if p * GAMMA > v then i
    else
      assert (v - p * GAMMA) * 50.0 <= (v - p) * 50.0 - 1.0;
      LastPower(v, i + 1, p * GAMMA)
  }

  /** The bucket of a value; zero is observed as one. */
  function Bucket(value: nat): nat {
    Min(LastPower(Max(value, 1) as real, 0, 1.0), MAX_UINT32)
  }

  /** A lower bound on every value a bucket holds. */
  function BinLow(i: nat): int { Power(i).Floor }

  lemma {:induction false} LastPowerFits(v: real, i: nat, p: real)
    requires p == Power(i) && p <= v
    ensures i <= LastPower(v, i, p) && Power(LastPower(v, i, p)) <= v < Power(LastPower(v, i, p) + 1)
    decreases ((v - p) * 50.0).Floor
  {
    if p * GAMMA <= v {
      assert (v - p * GAMMA) * 50.0 <= (v - p) * 50.0 - 1.0;
      LastPowerFits(v, i + 1, p * GAMMA);
    }
  }

  lemma {:induction false} PowerMonotone(i: nat, j: nat)
    requires i <= j
    ensures Power(i) <= Power(j)
    decreases j
  {
    if i < j {
      PowerMonotone(i, j - 1);
    }
  }

  /** A larger value never falls into a lower bucket. */
  lemma BucketMonotone(u: nat, v: nat)
    requires u <= v
    ensures Bucket(u) <= Bucket(v)
  {
    var x, y := Max(u, 1) as real, Max(v, 1) as real;
    LastPowerFits(x, 0, 1.0);
    LastPowerFits(y, 0, 1.0);
    var i, j := LastPower(x, 0, 1.0), LastPower(y, 0, 1.0);
    if i > j {
      PowerMonotone(j + 1, i);
    }
  }

  /** The lower edge of its bucket never exceeds an observed value. */
  lemma BucketLow(v: nat)
    ensures BinLow(Bucket(v)) <= Max(v, 1)
  {
    var x := Max(v, 1) as real;
    LastPowerFits(x, 0, 1.0);
    PowerMonotone(Bucket(v), LastPower(x, 0, 1.0));
  }

  lemma LastPowerReaches(v: real, b: nat)
    requires v >= 1.0
    ensures b <= LastPower(v, 0, 1.0) <==> Power(b) <= v
  {
    LastPowerFits(v, 0, 1.0);
    var k := LastPower(v, 0, 1.0);
    if k < b {
      PowerMonotone(k + 1, b);
    } else {
      PowerMonotone(b, k);
    }
  }

  /** A bucket holds exactly the values between its edges, but for the last one, which also takes everything above. */
  lemma BucketIff(v: nat, b: nat)
    requires b <= MAX_UINT32
    ensures Bucket(v) == b <==> Power(b) <= Max(v, 1) as real && (b < MAX_UINT32 ==> Max(v, 1) as real < Power(b + 1))
  {
    hide Power, LastPower;
    LastPowerReaches(Max(v, 1) as real, b);
    LastPowerReaches(Max(v, 1) as real, b + 1);
  }

  /** Values below the edge lie in lower buckets, and whole values above it do not. */
  lemma BinLowIsEdge(i: nat, v: nat)
    requires i <= MAX_UINT32 && v >= 1
    ensures v < BinLow(i) ==> Bucket(v) < i
    ensures v > BinLow(i) ==> Bucket(v) >= i
  {
    hide Power, LastPower;
    LastPowerReaches(v as real, i);
  }

  /** The lowest edge is one, and each edge lies two percent above the one before it. */
  lemma EdgesGrowByTwoPercent(i: nat)
    ensures Power(0) == 1.0 && 50.0 * Power(i + 1) == 51.0 * Power(i)
  {
  }
}
