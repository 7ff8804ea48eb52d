/** Sets of numbers in ascending order. */
module Sorting {
  import opened Common

  ghost predicate Ascending(xs: seq<nat>) {
    forall i, j | 0 <= i < j < |xs| :: xs[i] < xs[j]
  }

  method Insert(xs: seq<nat>, x: nat) returns (r: seq<nat>)
    requires Ascending(xs) && x !in xs
    ensures Ascending(r) && forall y :: y in r <==> y in xs || y == x
  {
    var i := |xs|;
    while i > 0 && xs[i - 1] > x
      invariant 0 <= i <= |xs| && forall k | i <= k < |xs| :: xs[k] > x
    {
      i := i - 1;
    }
    r := xs[..i] + [x] + xs[i..];
  }

  /** The elements of a set in ascending order. */
  method Sorted(s: set<nat>) returns (r: seq<nat>)
    ensures Ascending(r) && forall x :: x in r <==> x in s
  {
    r := [];
    var rest := s;
    while rest != {}
      invariant rest <= s && Ascending(r) && forall x :: x in r <==> x in s && x !in rest
      decreases rest
    {
      var x := Choose(rest);
      rest := rest - {x};
      r := Insert(r, x);
    }
  }
}
