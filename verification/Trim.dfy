/**
 * When reorder.go slices out of range (s.data[trim:] with trim beyond the segment), for any buffer and
 * any arriving segment, and whatever order the heap gives to segments that start together.
 */
module Trim {
  import opened Base
  import opened SegmentHeap
  import opened Reorder

  /** Held segments ascending by offset, none at or below lo. */
  predicate Sorted(segs: seq<Seg>, lo: nat) {
    segs != [] ==> lo <= segs[0].off && |segs[0].data| > 0 && Sorted(segs[1..], segs[0].off)
  }

  /** Every offset from the front up to the start of segment j is held. */
  ghost predicate Reached(segs: seq<Seg>, next: nat, j: nat)
    requires j < |segs|
  {
    forall x :: next <= x < segs[j].off ==> Holds(segs, x)
  }

  /** Segment j ends behind the front, or before the end of a segment that starts no later. */
  ghost predicate Overtaken(segs: seq<Seg>, next: nat, j: nat)
    requires j < |segs|
  {
    End(segs[j]) < next || exists i :: 0 <= i < j && End(segs[j]) < End(segs[i])
  }

  ghost predicate SomeOvertakenReached(segs: seq<Seg>, next: nat) {
    exists j :: 0 <= j < |segs| && Overtaken(segs, next, j) && Reached(segs, next, j)
  }

  lemma {:induction false} SortedBeyond(segs: seq<Seg>, lo: nat, x: int)
    requires Sorted(segs, lo) && Holds(segs, x)
    ensures lo <= x
  {
    if !(segs[0].off <= x < End(segs[0])) {
      SortedBeyond(segs[1..], segs[0].off, x);
    }
  }

  lemma OvertakenShifts(segs: seq<Seg>, next: nat)
    requires segs != [] && segs[0].off <= next <= End(segs[0])
    ensures SomeOvertakenReached(segs, next) <==> SomeOvertakenReached(segs[1..], End(segs[0]))
  {
    var tail, front := segs[1..], End(segs[0]);
    if SomeOvertakenReached(segs, next) {
      var j :| 0 <= j < |segs| && Overtaken(segs, next, j) && Reached(segs, next, j);
      assert j > 0 && tail[j - 1] == segs[j];
      forall x | front <= x < tail[j - 1].off
        ensures Holds(tail, x)
      {
        assert Holds(segs, x);
      }
      if End(segs[j]) >= front {
        var i :| 0 <= i < j && End(segs[j]) < End(segs[i]);
        assert tail[i - 1] == segs[i];
      }
      assert Overtaken(tail, front, j - 1);
    }
    if SomeOvertakenReached(tail, front) {
      var j :| 0 <= j < |tail| && Overtaken(tail, front, j) && Reached(tail, front, j);
      assert segs[j + 1] == tail[j];
      if End(tail[j]) < front {
        assert End(segs[j + 1]) < End(segs[0]);
      } else {
        var i :| 0 <= i < j && End(tail[j]) < End(tail[i]);
        assert segs[i + 1] == tail[i];
      }
      assert Overtaken(segs, next, j + 1);
      assert Reached(segs, next, j + 1);
    }
  }

  lemma {:induction false} DrainFailsExactly(b: Buf)
    requires Sorted(b.segs, 0)
    ensures Drain(b) == None <==> SomeOvertakenReached(b.segs, b.next)
    decreases |b.segs|
  {
    if b.segs == [] {
    } else if b.segs[0].off > b.next {
      if SomeOvertakenReached(b.segs, b.next) {
        var j :| 0 <= j < |b.segs| && Overtaken(b.segs, b.next, j) && Reached(b.segs, b.next, j);
        SortedAt(b.segs, b.next + 1, j);
        assert Holds(b.segs, b.next);
        SortedBeyond(b.segs, b.next + 1, b.next);
      }
    } else if End(b.segs[0]) < b.next {
      assert Overtaken(b.segs, b.next, 0) && Reached(b.segs, b.next, 0);
    } else {
      OvertakenShifts(b.segs, b.next);
      DrainFailsExactly(DrainOne(b));
    }
  }

  lemma {:induction false} SortedAt(segs: seq<Seg>, lo: nat, j: nat)
    requires Sorted(segs, lo) && j < |segs|
    ensures lo <= segs[j].off
  {
    if j > 0 {
      SortedAt(segs[1..], segs[0].off, j - 1);
    }
  }

  // A heap gives up its members ascending by offset and leaves the order of equal offsets open.

  /** An order in which the members of held may be drained. */
  ghost predicate PopOrder(order: seq<Seg>, held: seq<Seg>) {
    multiset(order) == multiset(held) && Sorted(order, 0)
  }

  /** Some order of the held segments makes draining slice out of range. */
  ghost predicate MayFail(b: Buf) {
    exists order :: PopOrder(order, b.segs) && Drain(b.(segs := order)) == None
  }

  /** Every order does. */
  ghost predicate MustFail(b: Buf) {
    forall order :: PopOrder(order, b.segs) ==> Drain(b.(segs := order)) == None
  }

  /** The front reaches t without a gap, and t ends before s, which starts no later. */
  ghost predicate Outlived(held: seq<Seg>, next: nat, s: Seg, t: Seg) {
    && s in held && t in held && s.off <= t.off && End(t) < End(s)
    && forall x :: next <= x < t.off ==> Holds(held, x)
  }

  lemma {:induction false} HoldsIsMember(segs: seq<Seg>, x: int)
    ensures Holds(segs, x) <==> exists s :: s in segs && s.off <= x < End(s)
  {
    if segs != [] {
      HoldsIsMember(segs[1..], x);
      assert forall s :: s in segs <==> s == segs[0] || s in segs[1..];
    }
  }

  lemma SameMembers(a: seq<Seg>, b: seq<Seg>)
    requires multiset(a) == multiset(b)
    ensures forall s :: s in a <==> s in b
    ensures forall x :: Holds(a, x) <==> Holds(b, x)
  {
    assert forall s :: s in a <==> s in multiset(a);
    assert forall s :: s in b <==> s in multiset(b);
    forall x: int
      ensures Holds(a, x) <==> Holds(b, x)
    {
      HoldsIsMember(a, x);
      HoldsIsMember(b, x);
    }
  }

  lemma {:induction false} SortedPair(segs: seq<Seg>, lo: nat, i: nat, j: nat)
    requires Sorted(segs, lo) && i < j < |segs|
    ensures segs[i].off <= segs[j].off
  {
    if i == 0 {
      SortedAt(segs[1..], segs[0].off, j - 1);
    } else {
      SortedPair(segs[1..], segs[0].off, i - 1, j - 1);
    }
  }

  /** Whether s goes before t when equal offsets go longest first, or shortest first. */
  predicate Before(s: Seg, t: Seg, longest: bool) {
    s.off < t.off || (s.off == t.off && if longest then End(s) >= End(t) else End(s) <= End(t))
  }

  function Place(segs: seq<Seg>, s: Seg, longest: bool): seq<Seg> {
    if segs == [] || Before(s, segs[0], longest) then [s] + segs else [segs[0]] + Place(segs[1..], s, longest)
  }

  function Arrange(segs: seq<Seg>, longest: bool): seq<Seg> {
    if segs == [] then [] else Place(Arrange(segs[1..], longest), segs[0], longest)
  }

  ghost predicate Ranked(segs: seq<Seg>, longest: bool) {
    segs != [] ==> (forall t :: t in segs[1..] ==> Before(segs[0], t, longest)) && Ranked(segs[1..], longest)
  }

  lemma TailMultiset(segs: seq<Seg>)
    requires segs != []
    ensures multiset(segs) == multiset{segs[0]} + multiset(segs[1..])
  {
    assert segs == [segs[0]] + segs[1..];
  }

  lemma {:induction false} PlaceMembers(segs: seq<Seg>, s: Seg, longest: bool)
    ensures multiset(Place(segs, s, longest)) == multiset(segs) + multiset{s}
  {
    if segs != [] && !Before(s, segs[0], longest) {
      PlaceMembers(segs[1..], s, longest);
      TailMultiset(segs);
    }
  }

  lemma {:induction false} PlaceRanks(segs: seq<Seg>, s: Seg, longest: bool)
    requires Ranked(segs, longest)
    ensures Ranked(Place(segs, s, longest), longest)
  {
    if segs == [] || Before(s, segs[0], longest) {
      assert ([s] + segs)[1..] == segs;
      assert forall t :: t in segs ==> t == segs[0] || t in segs[1..];
    } else {
      var p := Place(segs[1..], s, longest);
      PlaceRanks(segs[1..], s, longest);
      PlaceMembers(segs[1..], s, longest);
      assert Place(segs, s, longest)[1..] == p;
      assert forall t :: t in p ==> t in multiset(p);
      assert forall t :: t in segs[1..] <==> t in multiset(segs[1..]);
    }
  }

  lemma {:induction false} ArrangeRanks(segs: seq<Seg>, longest: bool)
    ensures Ranked(Arrange(segs, longest), longest) && multiset(Arrange(segs, longest)) == multiset(segs)
  {
    if segs != [] {
      ArrangeRanks(segs[1..], longest);
      PlaceRanks(Arrange(segs[1..], longest), segs[0], longest);
      PlaceMembers(Arrange(segs[1..], longest), segs[0], longest);
      TailMultiset(segs);
    }
  }

  lemma {:induction false} RankedPair(segs: seq<Seg>, longest: bool, i: nat, j: nat)
    requires Ranked(segs, longest) && i < j < |segs|
    ensures Before(segs[i], segs[j], longest)
  {
    if i == 0 {
      assert segs[j] in segs[1..];
    } else {
      RankedPair(segs[1..], longest, i - 1, j - 1);
    }
  }

  lemma {:induction false} RankedIsSorted(segs: seq<Seg>, longest: bool, lo: nat)
    requires Ranked(segs, longest) && forall s :: s in segs ==> lo <= s.off && |s.data| > 0
    ensures Sorted(segs, lo)
  {
    if segs != [] {
      assert segs[0] in segs;
      assert forall t :: t in segs[1..] ==> t in segs;
      RankedIsSorted(segs[1..], longest, segs[0].off);
    }
  }

  /** Both extreme arrangements are orders in which the heap may be drained. */
  lemma ArrangeIsPopOrder(held: seq<Seg>, longest: bool)
    requires Sorted(held, 0)
    ensures PopOrder(Arrange(held, longest), held)
  {
    var order := Arrange(held, longest);
    ArrangeRanks(held, longest);
    SameMembers(order, held);
    forall s | s in order
      ensures |s.data| > 0
    {
      var j :| 0 <= j < |held| && held[j] == s;
      SortedNonEmpty(held, 0, j);
    }
    RankedIsSorted(order, longest, 0);
  }

  /** In one given order, with no member behind the front: a later member that ends earlier. */
  lemma OrderFails(b: Buf, order: seq<Seg>)
    requires PopOrder(order, b.segs) && forall s :: s in b.segs ==> End(s) >= b.next
    ensures Drain(b.(segs := order)) == None <==>
      exists i, j :: 0 <= i < j < |order| && Outlived(b.segs, b.next, order[i], order[j])
  {
    var c := b.(segs := order);
    SameMembers(order, b.segs);
    DrainFailsExactly(c);
    if Drain(c) == None {
      var j :| 0 <= j < |order| && Overtaken(order, b.next, j) && Reached(order, b.next, j);
      assert order[j] in order;
      var i :| 0 <= i < j && End(order[j]) < End(order[i]);
      assert order[i] in order;
      SortedPair(order, 0, i, j);
      assert Outlived(b.segs, b.next, order[i], order[j]);
    }
    if i, j :| 0 <= i < j < |order| && Outlived(b.segs, b.next, order[i], order[j]) {
      assert Overtaken(order, b.next, j) && Reached(order, b.next, j);
    }
  }

  lemma OutlivedComesLater(order: seq<Seg>, held: seq<Seg>, next: nat, s: Seg, t: Seg, longest: bool)
    returns (i: nat, j: nat)
    requires PopOrder(order, held) && Outlived(held, next, s, t)
    requires s.off < t.off || (longest && Ranked(order, longest))
    ensures i < j < |order| && order[i] == s && order[j] == t
  {
    SameMembers(order, held);
    i :| 0 <= i < |order| && order[i] == s;
    j :| 0 <= j < |order| && order[j] == t;
    if j < i {
      SortedPair(order, 0, j, i);
      if s.off == t.off {
        RankedPair(order, longest, j, i);
      }
    }
  }

  /**
   * Some order of the held segments fails exactly if the front reaches one that ends before another
   * that starts no later; every order fails exactly if that other one starts strictly earlier.
   */
  lemma DrainMayFailExactly(b: Buf)
    requires Sorted(b.segs, 0) && forall s :: s in b.segs ==> End(s) >= b.next
    ensures MayFail(b) <==> exists s, t :: Outlived(b.segs, b.next, s, t)
    ensures MustFail(b) <==> exists s, t :: Outlived(b.segs, b.next, s, t) && s.off < t.off
  {
    if order :| PopOrder(order, b.segs) && Drain(b.(segs := order)) == None {
      OrderFails(b, order);
    }
    if s, t :| Outlived(b.segs, b.next, s, t) {
      var order := Arrange(b.segs, true);
      ArrangeIsPopOrder(b.segs, true);
      ArrangeRanks(b.segs, true);
      var i, j := OutlivedComesLater(order, b.segs, b.next, s, t, true);
      OrderFails(b, order);
      assert Drain(b.(segs := order)) == None;
    }
    if MustFail(b) {
      var order := Arrange(b.segs, false);
      ArrangeIsPopOrder(b.segs, false);
      ArrangeRanks(b.segs, false);
      OrderFails(b, order);
      var i, j :| 0 <= i < j < |order| && Outlived(b.segs, b.next, order[i], order[j]);
      RankedPair(order, false, i, j);
    }
    if s, t :| Outlived(b.segs, b.next, s, t) && s.off < t.off {
      forall order | PopOrder(order, b.segs)
        ensures Drain(b.(segs := order)) == None
      {
        var i, j := OutlivedComesLater(order, b.segs, b.next, s, t, false);
        OrderFails(b, order);
      }
    }
  }

  /** The segment is neither a duplicate nor thrown away. */
  predicate Taken(b: Buf, off: nat, data: seq<byte>) {
    data != [] && off + |data| > b.next && !Overflows(b, off, data)
  }

  /** add may slice out of range, depending on the order of equal offsets. */
  ghost predicate AddMayFail(b: Buf, off: nat, data: seq<byte>) {
    Taken(b, off, data) && MayFail(Pushed(b, off, data))
  }

  /** add slices out of range in every such order. */
  ghost predicate AddMustFail(b: Buf, off: nat, data: seq<byte>) {
    Taken(b, off, data) && MustFail(Pushed(b, off, data))
  }

  /**
   * For any buffer and any segment, honest or not: add can slice out of range exactly when the segment
   * fills the hole at the front and the front then reaches, without a gap, a segment that ends before
   * another that starts no later; and it cannot avoid it exactly when that other one starts earlier.
   */
  lemma AddFailsExactly(b: Buf, off: nat, data: seq<byte>)
    requires Sorted(b.segs, b.next + 1)
    ensures AddMayFail(b, off, data) <==>
      off <= b.next < off + |data| && exists s, t :: Outlived(Pushed(b, off, data).segs, b.next, s, t)
    ensures AddMustFail(b, off, data) <==>
      off <= b.next < off + |data| && exists s, t :: Outlived(Pushed(b, off, data).segs, b.next, s, t) && s.off < t.off
  {
    if Taken(b, off, data) {
      var p := Pushed(b, off, data);
      var s := CutAt(b.next, Seg(off, data));
      InsertSorted(b.segs, s, b.next);
      InsertMembers(b.segs, s);
      AllBeyond(p.segs, b.next);
      DrainMayFailExactly(p);
      if off > b.next {
        NothingReached(b, s);
      }
    }
  }

  lemma {:induction false} InsertSorted(segs: seq<Seg>, s: Seg, lo: nat)
    requires Sorted(segs, lo) && lo <= s.off && |s.data| > 0
    ensures Sorted(Insert(segs, s), lo)
  {
    if segs == [] || s.off < segs[0].off {
      assert ([s] + segs)[1..] == segs;
    } else {
      InsertSorted(segs[1..], s, segs[0].off);
      assert Insert(segs, s)[1..] == Insert(segs[1..], s);
    }
  }

  lemma {:induction false} InsertMembers(segs: seq<Seg>, s: Seg)
    ensures multiset(Insert(segs, s)) == multiset(segs) + multiset{s}
  {
    if segs != [] && s.off >= segs[0].off {
      InsertMembers(segs[1..], s);
      TailMultiset(segs);
    }
  }

  lemma {:induction false} AllBeyond(segs: seq<Seg>, lo: nat)
    requires Sorted(segs, lo)
    ensures Sorted(segs, 0) && forall s :: s in segs ==> lo <= s.off && |s.data| > 0
  {
    if segs != [] {
      AllBeyond(segs[1..], segs[0].off);
      assert forall s :: s in segs <==> s == segs[0] || s in segs[1..];
    }
  }

  lemma NothingReached(b: Buf, s: Seg)
    requires Sorted(b.segs, b.next + 1) && s.off > b.next && |s.data| > 0
    ensures forall u, t :: !Outlived(Insert(b.segs, s), b.next, u, t)
  {
    InsertSorted(b.segs, s, b.next + 1);
    AllBeyond(Insert(b.segs, s), b.next + 1);
    if Holds(Insert(b.segs, s), b.next) {
      SortedBeyond(Insert(b.segs, s), b.next + 1, b.next);
    }
  }

  lemma {:induction false} SortedNonEmpty(segs: seq<Seg>, lo: nat, j: nat)
    requires Sorted(segs, lo) && j < |segs|
    ensures |segs[j].data| > 0
  {
    if j > 0 {
      SortedNonEmpty(segs[1..], segs[0].off, j - 1);
    }
  }

  /** A segment beyond the front only joins the held ones. */
  lemma HoldBeyond(b: Buf, s: Seg)
    requires Sorted(b.segs, b.next + 1) && s.off > b.next && |s.data| > 0 && b.size + |s.data| <= b.cap
    ensures Add(b, s.off, s.data) == Some(b.(segs := Insert(b.segs, s), size := b.size + |s.data|))
    ensures Sorted(Insert(b.segs, s), b.next + 1)
  {
    InsertSorted(b.segs, s, b.next + 1);
  }

  // Two inputs: [2,10), then [4,6) inside it, then the hole [0,2), which fails in every order; and [2,4),
  // then [4,6) and [4,8), which start together, then the hole [0,2), which fails in one order of the two.

  const HOLE: seq<byte> := [9, 9]
  const OUTER: Seg := Seg(2, [1, 2, 3, 4, 5, 6, 7, 8])
  const INNER: Seg := Seg(4, [3, 4])
  const FIRST: Seg := Seg(2, [1, 1])
  const SHORT: Seg := Seg(4, [2, 2])
  const LONG: Seg := Seg(4, [2, 2, 3, 3])

  /** The buffer after the segments have arrived at a new one, one after the other. */
  function Arrived(cap: int, segs: seq<Seg>): Option<Buf> {
    if segs == [] then
      Some(NewBuf(cap))
    else
      var last := |segs| - 1;
      match Arrived(cap, segs[..last])
      case None => None
      case Some(b) => Add(b, segs[last].off, segs[last].data)
  }

  lemma ArrivedBeyond(cap: int, segs: seq<Seg>, s: Seg, b: Buf)
    requires Arrived(cap, segs) == Some(b) && Sorted(b.segs, b.next + 1)
    requires s.off > b.next && |s.data| > 0 && b.size + |s.data| <= b.cap
    ensures var c := b.(segs := Insert(b.segs, s), size := b.size + |s.data|);
      Arrived(cap, segs + [s]) == Some(c) && Sorted(c.segs, c.next + 1)
  {
    assert (segs + [s])[..|segs|] == segs;
    HoldBeyond(b, s);
  }

  lemma TwoArrive(s: Seg, t: Seg)
    requires 0 < s.off <= t.off && |s.data| > 0 && |t.data| > 0 && |s.data| + |t.data| <= 100
    ensures Arrived(100, [s, t]) == Some(NewBuf(100).(segs := [s, t], size := |s.data| + |t.data|))
    ensures Sorted([s, t], 1)
  {
    var b := NewBuf(100).(segs := [s], size := |s.data|);
    ArrivedBeyond(100, [], s, NewBuf(100));
    assert [] + [s] == [s] && Insert(EMPTY_SEGS, s) == [s] + EMPTY_SEGS == [s];
    assert Arrived(100, [s]) == Some(b);
    ArrivedBeyond(100, [s], t, b);
    assert [s] + [t] == [s, t];
    InsertLast([s], t);
  }

  lemma {:induction false} InsertLast(segs: seq<Seg>, t: Seg)
    requires forall s :: s in segs ==> s.off <= t.off
    ensures Insert(segs, t) == segs + [t]
  {
    if segs == [] {
      assert [t] + segs == segs + [t];
    } else {
      InsertLast(segs[1..], t);
      assert segs == [segs[0]] + segs[1..] && segs[0] in segs;
    }
  }

  lemma NestedArrivalsFail()
    ensures var b := Arrived(100, [OUTER, INNER]);
      b.Some? && AddMustFail(b.value, 0, HOLE)
  {
    TwoArrive(OUTER, INNER);
    NestedHole(Arrived(100, [OUTER, INNER]).value, OUTER, INNER, HOLE);
  }

  lemma NestedHole(b: Buf, s: Seg, t: Seg, hole: seq<byte>)
    requires b.segs == [s, t] && b.next == 0 && Sorted(b.segs, 1)
    requires |hole| == s.off && s.off < t.off && End(t) < End(s)
    ensures AddMustFail(b, 0, hole)
  {
    var held := Pushed(b, 0, hole).segs;
    assert held == [Seg(0, hole), s, t];
    assert held[0] in held && held[1] in held && held[2] in held;
    forall x | 0 <= x < t.off
      ensures Holds(held, x)
    {
      HoldsIsMember(held, x);
    }
    AddFailsExactly(b, 0, hole);
    assert Outlived(held, 0, s, t);
  }

  lemma TiedArrivalsMayFail()
    ensures var b := Arrived(100, [FIRST, SHORT, LONG]);
      b.Some? && AddMayFail(b.value, 0, HOLE) && !AddMustFail(b.value, 0, HOLE)
  {
    TwoArrive(FIRST, SHORT);
    ThirdArrives(FIRST, SHORT, LONG);
    TiedHole(Arrived(100, [FIRST, SHORT, LONG]).value, FIRST, SHORT, LONG, HOLE);
  }

  lemma ThirdArrives(r: Seg, s: Seg, t: Seg)
    requires 0 < r.off <= s.off <= t.off && |r.data| > 0 && |s.data| > 0 && |t.data| > 0
    requires |r.data| + |s.data| + |t.data| <= 100
    ensures Arrived(100, [r, s, t]) == Some(NewBuf(100).(segs := [r, s, t], size := |r.data| + |s.data| + |t.data|))
    ensures Sorted([r, s, t], 1)
  {
    var b := NewBuf(100).(segs := [r, s], size := |r.data| + |s.data|);
    TwoArrive(r, s);
    ArrivedBeyond(100, [r, s], t, b);
    AllBeyond([r, s], 1);
    InsertLast([r, s], t);
    assert [r, s] + [t] == [r, s, t];
  }

  lemma TiedHole(b: Buf, r: Seg, s: Seg, t: Seg, hole: seq<byte>)
    requires b.segs == [r, s, t] && b.next == 0 && Sorted(b.segs, 1)
    requires |hole| == r.off && End(r) == s.off && s.off == t.off && End(s) < End(t)
    ensures AddMayFail(b, 0, hole) && !AddMustFail(b, 0, hole)
  {
    var held := Pushed(b, 0, hole).segs;
    assert held == [Seg(0, hole), r, s, t];
    AddFailsExactly(b, 0, hole);
    TiedOutlived(held);
  }

  lemma TiedOutlived(held: seq<Seg>)
    requires |held| == 4 && held[0].off == 0 && End(held[0]) == held[1].off && End(held[1]) == held[2].off
    requires held[2].off == held[3].off && |held[2].data| > 0 && End(held[2]) < End(held[3])
    ensures Outlived(held, 0, held[3], held[2])
    ensures forall u, v :: Outlived(held, 0, u, v) ==> u.off == v.off
  {
    assert forall u :: u in held ==> u == held[0] || u == held[1] || u == held[2] || u == held[3];
    assert held[0] in held && held[1] in held && held[2] in held && held[3] in held;
    forall x | 0 <= x < held[2].off
      ensures Holds(held, x)
    {
      HoldsIsMember(held, x);
    }
  }
}
