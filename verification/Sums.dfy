/** Sums over finite maps. */
module Sums {
  import opened Common

  ghost function SumOf<K>(m: map<K, nat>): nat {
    if m.Keys == {} then 0
    else
      var k := Pick(m.Keys);
      m[k] + SumOf(m - {k})
  }

  lemma {:induction false} SumTakes<K>(m: map<K, nat>, k: K)
    requires k in m
    ensures SumOf(m) == m[k] + SumOf(m - {k})
  {
    var j := Pick(m.Keys);
    if j != k {
      SumTakes(m - {j}, k);
      SumTakes(m - {k}, j);
      assert m - {j} - {k} == m - {k} - {j};
    }
  }

  lemma SumUpdates<K>(m: map<K, nat>, k: K, v: nat)
    requires k in m
    ensures SumOf(m[k := v]) == SumOf(m) - m[k] + v
  {
    SumTakes(m, k);
    SumTakes(m[k := v], k);
    assert m[k := v] - {k} == m - {k};
  }

  lemma SumAdds<K>(m: map<K, nat>, k: K, v: nat)
    requires k !in m
    ensures SumOf(m[k := v]) == SumOf(m) + v
  {
    SumTakes(m[k := v], k);
    assert m[k := v] - {k} == m;
  }

  lemma SumEmpty<K>(m: map<K, nat>)
    requires m.Keys == {}
    ensures SumOf(m) == 0
  {
  }

  lemma WithoutOne<K>(a: map<K, nat>, b: map<K, nat>, k: K)
    requires a.Keys !! b.Keys && k in a
    ensures k in a + b && (a + b)[k] == a[k] && (a + b) - {k} == (a - {k}) + b
    ensures (a - {k}).Keys !! b.Keys && |a - {k}| < |a|
  {
    var l, r := (a + b) - {k}, (a - {k}) + b;
    assert (a - {k}).Keys == a.Keys - {k} && l.Keys == r.Keys;
    forall x | x in l
      ensures l[x] == r[x]
    {
    }
  }

  lemma {:induction false} SumUnion<K>(a: map<K, nat>, b: map<K, nat>)
    requires a.Keys !! b.Keys
    ensures SumOf(a + b) == SumOf(a) + SumOf(b)
    decreases |a|
  {
    hide SumOf;
    if a.Keys == {} {
      SumEmpty(a);
      assert a + b == b;
    } else {
      var k := Pick(a.Keys);
      WithoutOne(a, b, k);
      SumTakes(a, k);
      SumTakes(a + b, k);
      SumUnion(a - {k}, b);
    }
  }
}
