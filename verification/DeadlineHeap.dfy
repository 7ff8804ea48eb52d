/**
 The deadline heap: a binary min-heap in an array whose elements know their own position, so
 that a probe answered early can be taken out of the middle.
 */
module DeadlineHeap {
  import opened ObsessNodes

  function Parent(k: nat): nat { if k == 0 then 0 else (k - 1) / 2 }

  ghost predicate Edge(s: seq<Node>, i: nat, k: nat) {
    i < |s| && k < |s| && s[i].Deadline() <= s[k].Deadline()
  }

  // The first n elements are in heap order, except where `child` is the child or `parent` the parent.
  ghost predicate Ordered(s: seq<Node>, n: nat, child: int, parent: int) {
    n <= |s| && forall k: nat, i: nat {:trigger Edge(s, i, k)} |
      0 < k < n && i == Parent(k) && k != child && i != parent :: Edge(s, i, k)
  }

  // The parent of `hole` precedes the children of `hole`.
  ghost predicate Bridged(s: seq<Node>, n: nat, hole: nat) {
    n <= |s| && forall k: nat, i: nat {:trigger Edge(s, i, k)} |
      0 < hole < k < n && Parent(k) == hole && i == Parent(hole) :: Edge(s, i, k)
  }

  function Swapped(s: seq<Node>, i: nat, j: nat): seq<Node>
    requires i < |s| && j < |s|
  {
    s[i := s[j]][j := s[i]]
  }

  lemma MoveUp(s: seq<Node>, n: nat, j: nat)
    requires 0 < j < n && Ordered(s, n, j, -1) && Bridged(s, n, j)
    requires s[j].Deadline() < s[Parent(j)].Deadline()
    ensures var i := Parent(j); Ordered(Swapped(s, i, j), n, i, -1) && Bridged(Swapped(s, i, j), n, i)
  {
    var i := Parent(j);
    var u := Swapped(s, i, j);
    forall k: nat | 0 < k < n && k != i
      ensures Edge(u, Parent(k), k)
    {
      assert k != j ==> Edge(s, Parent(k), k);
      assert Parent(k) == j ==> Edge(s, i, k);
    }
    forall k: nat | 0 < i < k < n && Parent(k) == i
      ensures Edge(u, Parent(i), k)
    {
      assert Edge(s, Parent(i), i);
      assert k != j ==> Edge(s, Parent(k), k);
    }
  }

  // `j` is the smaller child of `i` among the first n.
  ghost predicate SmallerChild(s: seq<Node>, n: nat, i: nat, j: nat) {
    i < j < n <= |s| && Parent(j) == i && forall k: nat {:trigger Edge(s, j, k)} | i < k < n && Parent(k) == i ::
      Edge(s, j, k)
  }

  lemma Children(s: seq<Node>, n: nat, i: nat, j: nat)
    requires i < j < n <= |s| && Parent(j) == i
    requires var k := if j == 2 * i + 1 then j + 1 else j - 1; k < n ==> s[j].Deadline() <= s[k].Deadline()
    ensures SmallerChild(s, n, i, j)
  {
    assert forall k: nat | i < k < n && Parent(k) == i :: k == 2 * i + 1 || k == 2 * i + 2;
  }

  lemma StayPut(s: seq<Node>, n: nat, i: nat, j: nat, child: int)
    requires SmallerChild(s, n, i, j) && s[j].Deadline() >= s[i].Deadline() && Ordered(s, n, child, i)
    ensures Ordered(s, n, child, -1)
  {
    forall k: nat | 0 < k < n && k != child
      ensures Edge(s, Parent(k), k)
    {
      assert Parent(k) == i ==> Edge(s, j, k);
    }
  }

  lemma MoveDown(s: seq<Node>, n: nat, i: nat, j: nat, child: int)
    requires SmallerChild(s, n, i, j) && s[j].Deadline() < s[i].Deadline()
    requires Ordered(s, n, child, i) && Bridged(s, n, i) && (child == i || child == -1)
    ensures Ordered(Swapped(s, i, j), n, -1, j) && Bridged(Swapped(s, i, j), n, j)
  {
    var u := Swapped(s, i, j);
    forall k: nat | 0 < k < n && Parent(k) != j
      ensures Edge(u, Parent(k), k)
    {
      assert k != i && Parent(k) != i ==> Edge(s, Parent(k), k);
      assert Parent(k) == i ==> Edge(s, j, k);
      assert k == i ==> Edge(s, Parent(i), j);
    }
    forall k: nat | 0 < j < k < n && Parent(k) == j
      ensures Edge(u, Parent(j), k)
    {
      assert Edge(s, Parent(k), k);
    }
  }

  // An element without children satisfies them all.
  lemma Leaf(s: seq<Node>, n: nat, i: nat, child: int)
    requires Ordered(s, n, child, i) && 2 * i + 1 >= n
    ensures Ordered(s, n, child, -1)
  {
  }

  lemma Appended(s: seq<Node>, p: Node)
    requires Ordered(s, |s|, -1, -1)
    ensures Ordered(s + [p], |s| + 1, |s|, -1) && Bridged(s + [p], |s| + 1, |s|)
    ensures (set n <- s + [p]) == (set n <- s) + {p}
  {
    var u := s + [p];
    forall k: nat | 0 < k < |s|
      ensures Edge(u, Parent(k), k)
    {
      assert Edge(s, Parent(k), k);
    }
    assert u[|s|] == p;
  }

  // Putting the last element in position i leaves the order of the others as it was.
  lemma Displaced(s: seq<Node>, i: nat)
    requires i < |s| - 1 && Ordered(s, |s|, -1, -1)
    ensures var u := Swapped(s, i, |s| - 1); Ordered(u, |s| - 1, i, i) && Bridged(u, |s| - 1, i)
  {
    var u := Swapped(s, i, |s| - 1);
    forall k: nat | 0 < k < |s| - 1 && k != i && Parent(k) != i
      ensures Edge(u, Parent(k), k)
    {
      assert Edge(s, Parent(k), k);
    }
    forall k: nat | 0 < i < k < |s| - 1 && Parent(k) == i
      ensures Edge(u, Parent(i), k)
    {
      assert Edge(s, Parent(i), i) && Edge(s, i, k);
    }
  }

  /** The element at the root has the earliest deadline of all. */
  lemma {:induction false} RootIsEarliest(s: seq<Node>, k: nat)
    requires Ordered(s, |s|, -1, -1) && k < |s|
    ensures s[0].Deadline() <= s[k].Deadline()
  {
    if k > 0 {
      assert Edge(s, Parent(k), k);
      RootIsEarliest(s, Parent(k));
    }
  }

  class DeadlineHeap {
    var items: seq<Node>

    // Every element knows its position; hence no element occurs twice.
    ghost predicate Indexed()
      reads this, items`heapIndex
    {
      forall i | 0 <= i < |items| :: items[i].heapIndex == i
    }

    ghost predicate Valid()
      reads this, items`heapIndex
    {
      Indexed() && Ordered(items, |items|, -1, -1)
    }

    constructor ()
      ensures Valid() && items == []
    {
      items := [];
    }

    ghost function Members(): set<Node>
      reads this
    {
      set n <- items
    }

    method Swap(i: nat, j: nat)
      requires i < |items| && j < |items| && Indexed()
      modifies this, {items[i], items[j]}`heapIndex
      ensures items == Swapped(old(items), i, j)
      ensures Indexed() && Members() == old(Members())
    {
      items := items[i := items[j]][j := items[i]];
      items[i].heapIndex := i;
      items[j].heapIndex := j;
      forall n | n in old(items)
        ensures n in items
      {
        var k :| 0 <= k < |items| && old(items)[k] == n;
        assert items[if k == i then j else if k == j then i else k] == n;
      }
    }

    method Up(start: nat, ghost n: nat)
      requires start < n <= |items| && Indexed()
      requires Ordered(items, n, start, -1) && Bridged(items, n, start)
      modifies this, Members()`heapIndex
      ensures Indexed() && |items| == old(|items|) && Members() == old(Members())
      ensures Ordered(items, n, -1, -1)
      ensures forall k | n <= k < |items| :: items[k] == old(items[k])
    {
      var j: nat := start;
      while j > 0 && items[j].Deadline() < items[Parent(j)].Deadline()
        invariant j < n <= |items| == old(|items|)
        invariant Indexed() && Members() == old(Members())
        invariant Ordered(items, n, j, -1) && Bridged(items, n, j)
        invariant forall k | n <= k < |items| :: items[k] == old(items[k])
      {
        var i := Parent(j);
        MoveUp(items, n, j);
        assert items[i] in Members() && items[j] in Members();
        Swap(i, j);
        j := i;
      }
    }

    // Reports whether the element moved.
    method Down(start: nat, n: nat) returns (moved: bool)
      requires start < n <= |items| && Indexed()
      requires Ordered(items, n, start, start) && Bridged(items, n, start)
      modifies this, Members()`heapIndex
      ensures Indexed() && |items| == old(|items|) && Members() == old(Members())
      ensures forall k | n <= k < |items| :: items[k] == old(items[k])
      ensures if moved then Ordered(items, n, -1, -1) else Ordered(items, n, start, -1) && Bridged(items, n, start)
    {
      hide Ordered, Bridged, SmallerChild;
      var i := start;
      while 2 * i + 1 < n
        invariant start <= i < n <= |items| == old(|items|)
        invariant Indexed() && Members() == old(Members())
        invariant Ordered(items, n, if i == start then start else -1, i) && Bridged(items, n, i)
        invariant forall k | n <= k < |items| :: items[k] == old(items[k])
        decreases n - i
      {
        var j := 2 * i + 1;
        if j + 1 < n && items[j + 1].Deadline() < items[j].Deadline() {
          j := j + 1;
        }
        Children(items, n, i, j);
        if items[j].Deadline() >= items[i].Deadline() {
          StayPut(items, n, i, j, if i == start then start else -1);
          return i > start;
        }
        MoveDown(items, n, i, j, if i == start then start else -1);
        assert items[i] in Members() && items[j] in Members();
        Swap(i, j);
        i := j;
      }
      Leaf(items, n, i, if i == start then start else -1);
      moved := i > start;
    }

    method Push(p: Node)
      requires Valid() && p !in items
      modifies this, Members()`heapIndex, p`heapIndex
      ensures Valid() && Members() == old(Members()) + {p}
    {
      p.heapIndex := |items|;
      items := items + [p];
      Appended(old(items), p);
      Up(|items| - 1, |items|);
    }

    // Drops the last element, now that the rest is in heap order.
    method Shrink(p: Node)
      requires Indexed() && items != [] && p == items[|items| - 1] && Ordered(items, |items| - 1, -1, -1)
      modifies this, p`heapIndex
      ensures Valid() && Members() == old(Members()) - {p} && p.heapIndex == -1
    {
      items := items[..|items| - 1];
      p.heapIndex := -1;
      forall k: nat | 0 < k < |items|
        ensures Edge(items, Parent(k), k)
      {
        assert Edge(old(items), Parent(k), k);
      }
      forall n | n in old(items) && n != p
        ensures n in items
      {
        var k :| 0 <= k < |old(items)| && old(items)[k] == n;
        assert items[k] == n;
      }
    }

    /** Takes out the element at position i, wherever it sits. */
    method Remove(i: nat)
      requires Valid() && i < |items|
      modifies this, Members()`heapIndex
      ensures Valid() && Members() == old(Members()) - {old(items[i])}
      ensures old(items[i]).heapIndex == -1
    {
      var n := |items| - 1;
      var p := items[i];
      ghost var members := Members();
      if n != i {
        Displaced(items, i);
        Swap(i, n);
        var moved := Down(i, n);
        if !moved {
          assert forall x <- items :: x in Members();
          Up(i, n);
        }
      }
      assert items[n] == p;
      Shrink(p);
    }
  }
}
