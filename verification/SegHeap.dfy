/** The explicit binary heap of the TypeScript port (js/src/reorder.ts). */
module SegmentHeap {
  import opened Base

  /** A run of stream bytes and the offset it starts at. */
  datatype Seg = Seg(off: nat, data: seq<byte>)

  function End(s: Seg): nat {
    s.off + |s.data|
  }

  /** Whether j is one of the two children of i in the array layout. */
  predicate Child(i: nat, j: nat) {
    j == 2 * i + 1 || j == 2 * i + 2
  }

  ghost predicate HeapOrdered(a: seq<Seg>) {
    forall i: nat, j: nat | j < |a| && Child(i, j) :: a[i].off <= a[j].off
  }

  /** Heap order but between hole and its parent; hole's children start no earlier than that parent. */
  ghost predicate OrderedBelow(a: seq<Seg>, hole: nat) {
    && (forall i: nat, j: nat | j < |a| && Child(i, j) && j != hole :: a[i].off <= a[j].off)
    && Bridged(a, hole)
  }

  /** Heap order but between hole and its children, which start no earlier than hole's parent. */
  ghost predicate OrderedAbove(a: seq<Seg>, hole: nat) {
    && (forall i: nat, j: nat | j < |a| && Child(i, j) && i != hole :: a[i].off <= a[j].off)
    && Bridged(a, hole)
  }

  ghost predicate Bridged(a: seq<Seg>, hole: nat) {
    forall i: nat, j: nat | j < |a| && Child(i, hole) && Child(hole, j) :: a[i].off <= a[j].off
  }

  function Swap(a: seq<Seg>, i: nat, j: nat): seq<Seg>
    requires i < |a| && j < |a|
  {
    a[i := a[j]][j := a[i]]
  }

  lemma SwapConserves(a: seq<Seg>, i: nat, j: nat)
    requires i < |a| && j < |a|
    ensures multiset(Swap(a, i, j)) == multiset(a)
  {
  }

  lemma SwapUp(a: seq<Seg>, p: nat, i: nat)
    requires i < |a| && Child(p, i) && OrderedBelow(a, i) && a[p].off > a[i].off
    ensures OrderedBelow(Swap(a, p, i), p)
  {
    var b := Swap(a, p, i);
    forall x: nat, y: nat | y < |b| && Child(x, y) && y != p
      ensures b[x].off <= b[y].off
    {
      assert x == p && y != i ==> a[p].off <= a[y].off;
      assert x == i ==> a[p].off <= a[y].off;
    }
  }

  /** The smaller child of i, or i itself when neither child is smaller. */
  function SmallestOfThree(a: seq<Seg>, i: nat): nat
    requires i < |a|
  {
    var l, r := i * 2 + 1, i * 2 + 2;
    var m := if l < |a| && a[l].off < a[i].off then l else i;
    if r < |a| && a[r].off < a[m].off then r else m
  }

  lemma SwapDown(a: seq<Seg>, i: nat, m: nat)
    requires i < |a| && OrderedAbove(a, i) && m == SmallestOfThree(a, i) && m != i
    ensures i < m < |a| && OrderedAbove(Swap(a, i, m), m)
  {
    var b := Swap(a, i, m);
    assert Child(i, m);
    forall x: nat, y: nat | y < |b| && Child(x, y) && x != m
      ensures b[x].off <= b[y].off
    {
      assert x != i && y != i ==> b[x] == a[x] && b[y] == a[y];
    }
  }

  /** The root of a heap starts no later than any member. */
  lemma {:induction false} RootIsLeast(a: seq<Seg>, i: nat)
    requires HeapOrdered(a) && i < |a|
    ensures a[0].off <= a[i].off
    decreases i
  {
    if i > 0 {
      var p := (i - 1) / 2;
      assert Child(p, i);
      RootIsLeast(a, p);
    }
  }

  class SegHeap {
    var a: seq<Seg>

    ghost predicate Valid()
      reads this
    {
      HeapOrdered(a)
    }

    constructor ()
      ensures Valid() && a == []
    {
      a := [];
    }

    method Push(s: Seg)
      requires Valid()
      modifies this
      ensures Valid()
      ensures multiset(a) == multiset(old(a)) + multiset{s}
    {
      a := a + [s];
      var i := |a| - 1;
      while i > 0
        invariant 0 <= i < |a|
        invariant multiset(a) == multiset(old(a)) + multiset{s}
        invariant OrderedBelow(a, i)
      {
        var p := (i - 1) / 2;
        assert Child(p, i);
        if a[p].off <= a[i].off {
          break;
        }
        SwapUp(a, p, i);
        SwapConserves(a, p, i);
        a := Swap(a, p, i);
        i := p;
      }
    }

    method Pop() returns (top: Option<Seg>)
      requires Valid()
      modifies this
      ensures Valid()
      ensures top == None <==> old(a) == []
      ensures top == None ==> a == []
      ensures top.Some? ==> multiset(old(a)) == multiset(a) + multiset{top.value}
      ensures top.Some? ==> forall s :: s in multiset(old(a)) ==> top.value.off <= s.off
    {
      if a == [] {
        return None;
      }
      RootIsLeastOfAll(a);
      top := Some(a[0]);
      var last := a[|a| - 1];
      assert a == a[..|a| - 1] + [last];
      a := a[..|a| - 1];
      if |a| > 0 {
        ReplaceRoot(old(a));
        a := a[0 := last];
        SiftDown();
      }
    }

    /** The loop of pop that moves the new root down. */
    method SiftDown()
      requires |a| > 0 && OrderedAbove(a, 0)
      modifies this
      ensures Valid()
      ensures multiset(a) == multiset(old(a))
    {
      var i: nat := 0;
      while true
        invariant i < |a|
        invariant multiset(a) == multiset(old(a))
        invariant OrderedAbove(a, i)
        decreases |a| - i
      {
        var l := i * 2 + 1;
        var r := l + 1;
        var m := i;
        if l < |a| && a[l].off < a[m].off {
          m := l;
        }
        if r < |a| && a[r].off < a[m].off {
          m := r;
        }
        assert m == SmallestOfThree(a, i);
        if m == i {
          break;
        }
        SwapDown(a, i, m);
        SwapConserves(a, i, m);
        a := Swap(a, i, m);
        i := m;
      }
    }
  }

  /** Moving the last member of a heap to its root leaves only the root out of place. */
  lemma ReplaceRoot(a: seq<Seg>)
    requires HeapOrdered(a) && |a| > 1
    ensures var b := a[..|a| - 1][0 := a[|a| - 1]];
      OrderedAbove(b, 0) && multiset(a) == multiset(b) + multiset{a[0]}
  {
    var init, last := a[..|a| - 1], a[|a| - 1];
    var b := init[0 := last];
    assert a == [a[0]] + a[1..|a| - 1] + [last];
    assert b == [last] + a[1..|a| - 1];
  }

  lemma RootIsLeastOfAll(a: seq<Seg>)
    requires HeapOrdered(a) && a != []
    ensures forall s :: s in multiset(a) ==> a[0].off <= s.off
  {
    forall s | s in multiset(a)
      ensures a[0].off <= s.off
    {
      assert s in a;
      var i :| 0 <= i < |a| && a[i] == s;
      RootIsLeast(a, i);
    }
  }
}
