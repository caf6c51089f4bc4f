/** The reordering buffer as the object that reorder.go keeps: a heap, a ready queue and counters. */
module ReorderBuffer {
  import opened Base
  import opened Intervals
  import opened SegmentHeap
  import opened Reorder
  import opened Trim

  function FlattenSegs(segs: seq<Seg>): seq<byte> {
    if segs == [] then [] else segs[0].data + FlattenSegs(segs[1..])
  }

  lemma {:induction false} FlattenSegsAppend(segs: seq<Seg>, s: Seg)
    ensures FlattenSegs(segs + [s]) == FlattenSegs(segs) + s.data
  {
    if segs == [] {
      assert [] + [s] == [s];
    } else {
      FlattenSegsAppend(segs[1..], s);
      assert (segs + [s])[1..] == segs[1..] + [s];
    }
  }

  lemma SliceGrows(all: seq<byte>, k: nat, piece: seq<byte>, rest: seq<byte>)
    requires k <= |all| && all[k..] == piece + rest
    ensures k + |piece| <= |all|
    ensures all[..k] + piece == all[..k + |piece|] && rest == all[k + |piece|..]
  {
    assert all == all[..k] + (piece + rest);
  }

  /** The heap array holds exactly the members of the ascending list. */
  ghost predicate Represents(heap: seq<Seg>, order: seq<Seg>) {
    multiset(heap) == multiset(order) && Sorted(order, 0)
  }

  /** A queue of non-empty segments with total bytes in all. */
  predicate Queue(ready: seq<Seg>, total: int) {
    if ready == [] then total == 0 else |ready[0].data| > 0 && Queue(ready[1..], total - |ready[0].data|)
  }

  lemma {:induction false} QueueTotal(ready: seq<Seg>, total: int)
    requires Queue(ready, total)
    ensures total == |FlattenSegs(ready)|
  {
    if ready != [] {
      QueueTotal(ready[1..], total - |ready[0].data|);
    }
  }

  lemma {:induction false} QueueAppend(ready: seq<Seg>, total: int, s: Seg)
    requires Queue(ready, total) && |s.data| > 0
    ensures Queue(ready + [s], total + |s.data|)
    ensures FlattenSegs(ready + [s]) == FlattenSegs(ready) + s.data
  {
    FlattenSegsAppend(ready, s);
    if ready == [] {
      assert [] + [s] == [s];
    } else {
      QueueAppend(ready[1..], total - |ready[0].data|, s);
      assert (ready + [s])[1..] == ready[1..] + [s];
    }
  }

  /** The queue after m bytes of its first segment were consumed. */
  function Consume(ready: seq<Seg>, m: nat): seq<Seg>
    requires ready != [] && m <= |ready[0].data|
  {
    if m == |ready[0].data| then ready[1..] else ready[0 := Seg(ready[0].off, ready[0].data[m..])]
  }

  lemma ConsumeKeepsQueue(ready: seq<Seg>, total: int, m: nat)
    requires Queue(ready, total) && ready != [] && m <= |ready[0].data|
    ensures Queue(Consume(ready, m), total - m)
    ensures FlattenSegs(ready) == ready[0].data[..m] + FlattenSegs(Consume(ready, m))
  {
    var head := ready[0];
    var rest := ready[0 := Seg(head.off, head.data[m..])];
    assert rest[1..] == ready[1..];
    assert head.data == head.data[..m] + head.data[m..];
  }

  // ---------- popping ----------

  /** The list without the first occurrence of s. */
  function Without(segs: seq<Seg>, s: Seg): seq<Seg> {
    if segs == [] then [] else if segs[0] == s then segs[1..] else [segs[0]] + Without(segs[1..], s)
  }

  lemma {:induction false} WithoutMembers(segs: seq<Seg>, s: Seg)
    requires s in segs
    ensures multiset(segs) == multiset(Without(segs, s)) + multiset{s}
  {
    TailMultiset(segs);
    if segs[0] != s {
      WithoutMembers(segs[1..], s);
    }
  }

  lemma {:induction false} WithoutSorted(segs: seq<Seg>, s: Seg, lo: nat)
    requires Sorted(segs, lo)
    ensures Sorted(Without(segs, s), lo)
  {
    if segs != [] && segs[0] != s {
      WithoutSorted(segs[1..], s, segs[0].off);
      assert Without(segs, s)[1..] == Without(segs[1..], s);
    }
  }

  lemma SortedHead(segs: seq<Seg>, s: Seg, lo: nat)
    requires Sorted(segs, lo) && s in segs
    ensures segs[0].off <= s.off
  {
    var i :| 0 <= i < |segs| && segs[i] == s;
    if i > 0 {
      SortedPair(segs, lo, 0, i);
    }
  }

  /** Whatever comes next, draining start from done on is draining b. */
  ghost predicate DrainsTo(start: Buf, done: seq<Seg>, b: Buf) {
    forall rest :: Drain(start.(segs := done + rest)) == Drain(b.(segs := rest))
  }

  /** What one iteration leaves does not depend on what follows its segment. */
  lemma DrainStep(b: Buf, s: Seg, rest: seq<Seg>, more: seq<Seg>)
    requires s.off <= b.next <= End(s)
    ensures Drain(b.(segs := [s] + more)) == Drain(DrainOne(b.(segs := [s] + rest)).(segs := more))
  {
    var c := b.(segs := [s] + more);
    assert c.segs[1..] == more;
    assert DrainOne(c) == DrainOne(b.(segs := [s] + rest)).(segs := more);
  }

  lemma DrainsFurther(start: Buf, done: seq<Seg>, b: Buf, s: Seg, rest: seq<Seg>)
    requires DrainsTo(start, done, b) && s.off <= b.next <= End(s)
    ensures DrainsTo(start, done + [s], DrainOne(b.(segs := [s] + rest)))
  {
    var c := DrainOne(b.(segs := [s] + rest));
    forall more: seq<Seg>
      ensures Drain(start.(segs := done + [s] + more)) == Drain(c.(segs := more))
    {
      assert done + [s] + more == done + ([s] + more);
      DrainStep(b, s, rest, more);
    }
  }

  lemma DrainStops(start: Buf, done: seq<Seg>, b: Buf, s: Seg, rest: seq<Seg>)
    requires DrainsTo(start, done, b) && s.off <= b.next && End(s) < b.next
    ensures Drain(start.(segs := done + [s] + rest)) == None
  {
    assert done + [s] + rest == done + ([s] + rest);
    assert Drain(b.(segs := [s] + rest)) == None;
  }

  /** The heap gives up some least member; it may not be the first of the list, but it starts where that does. */
  lemma PopsNext(done: seq<Seg>, order: seq<Seg>, held: seq<Seg>, s: Seg)
    requires PopOrder(done + order, held) && s in order && forall t :: t in order ==> s.off <= t.off
    ensures PopOrder(done + [s] + Without(order, s), held)
  {
    WithoutMembers(order, s);
    SortedMove(done, order, s, 0);
    assert multiset(done + [s] + Without(order, s)) == multiset(done) + multiset{s} + multiset(Without(order, s));
    assert multiset(done + order) == multiset(done) + multiset(order);
  }

  lemma {:induction false} SortedMove(done: seq<Seg>, order: seq<Seg>, s: Seg, lo: nat)
    requires Sorted(done + order, lo) && s in order && forall t :: t in order ==> s.off <= t.off
    ensures Sorted(done + [s] + Without(order, s), lo)
  {
    var rest := Without(order, s);
    if done == [] {
      assert done + order == order && done + [s] + rest == [s] + rest;
      AllBeyond(order, lo);
      WithoutSorted(order, s, lo);
      SortedHead(order, s, lo);
      assert order[0] in order;
      if rest != [] {
        WithoutMembers(order, s);
        assert rest[0] in multiset(order);
        assert rest[0] in order;
      }
      assert ([s] + rest)[1..] == rest;
    } else {
      assert (done + order)[1..] == done[1..] + order;
      assert (done + order)[0] == done[0];
      SortedMove(done[1..], order, s, done[0].off);
      assert (done + [s] + rest)[1..] == done[1..] + [s] + rest;
    }
  }

  // ---------- honest arrivals ----------

  /** Segments that start together are the same segment. */
  ghost predicate TieFree(segs: seq<Seg>) {
    forall s, t :: s in segs && t in segs && s.off == t.off ==> s == t
  }

  /** Without ties there is only one order in which a heap may be drained. */
  lemma {:induction false} OrderIsUnique(a: seq<Seg>, b: seq<Seg>, lo: nat)
    requires multiset(a) == multiset(b) && Sorted(a, lo) && Sorted(b, lo) && TieFree(a)
    ensures a == b
  {
    SameMembers(a, b);
    if a == [] {
      assert |multiset(b)| == 0;
    } else {
      assert |multiset(a)| == |multiset(b)|;
      AllBeyond(a, lo);
      AllBeyond(b, lo);
      assert a[0] in b && b[0] in a;
      SortedHead(a, b[0], lo);
      SortedHead(b, a[0], lo);
      assert a[0] in a && a[0] == b[0];
      TailMultiset(a);
      TailMultiset(b);
      assert multiset(a[1..]) == multiset(a) - multiset{a[0]};
      assert multiset(b[1..]) == multiset(b) - multiset{a[0]};
      assert forall s :: s in a[1..] ==> s in a;
      OrderIsUnique(a[1..], b[1..], a[0].off);
    }
  }

  lemma {:induction false} ChainMembers(segs: seq<Seg>, stream: seq<byte>, off: nat, end: nat, offered: set<Seg>)
    requires Chain(segs, stream, off, end) && AllIn(segs, offered)
    ensures Sorted(segs, off)
    ensures forall s :: s in segs ==> s in offered && IsSlice(s.data, stream, s.off) && |s.data| > 0
  {
    if segs != [] {
      ChainMembers(segs[1..], stream, segs[0].off, End(segs[0]), offered);
      assert forall s :: s in segs <==> s == segs[0] || s in segs[1..];
    }
  }

  /** Slices of one stream, of which the one that starts no later also ends no later. */
  ghost predicate Monotone(segs: seq<Seg>, stream: seq<byte>) {
    && (forall s :: s in segs ==> IsSlice(s.data, stream, s.off))
    && forall s, t :: s in segs && t in segs && s.off <= t.off ==> End(s) <= End(t)
  }

  lemma MonotoneIsTieFree(segs: seq<Seg>, stream: seq<byte>)
    requires Monotone(segs, stream)
    ensures TieFree(segs)
  {
  }

  lemma CutIsSlice(next: nat, s: Seg, stream: seq<byte>)
    requires IsSlice(s.data, stream, s.off) && next < End(s)
    ensures var c := CutAt(next, s); IsSlice(c.data, stream, c.off) && End(c) == End(s)
  {
    if s.off < next {
      SliceOfSlice(s.data, stream, s.off, next - s.off, End(s) - next);
      assert s.data[next - s.off..] == s.data[next - s.off..next - s.off + (End(s) - next)];
    }
  }

  /** What is held after an offered segment was pushed is still of that kind. */
  lemma PushedMonotone(b: Buf, stream: seq<byte>, got: nat, off: nat, data: seq<byte>, offered: set<Seg>)
    requires BufInv(b, stream, got) && AllIn(b.segs, offered) && EndMonotone(offered)
    requires Seg(off, data) in offered && IsSlice(data, stream, off) && off + |data| > b.next && data != []
    ensures Sorted(b.segs, b.next + 1) && Monotone(Pushed(b, off, data).segs, stream)
  {
    var s := CutAt(b.next, Seg(off, data));
    var p := Pushed(b, off, data).segs;
    ChainMembers(b.segs, stream, b.next + 1, b.next + 1, offered);
    AllBeyond(b.segs, b.next + 1);
    InsertMembers(b.segs, s);
    CutIsSlice(b.next, Seg(off, data), stream);
    forall t | t in p
      ensures t == s || t in b.segs
    {
      assert t in multiset(p);
    }
  }

  /** So adding an offered segment cannot slice out of range in any order, and there is only one. */
  lemma OfferedIsSafe(b: Buf, stream: seq<byte>, got: nat, off: nat, data: seq<byte>, offered: set<Seg>)
    requires BufInv(b, stream, got) && AllIn(b.segs, offered) && EndMonotone(offered)
    requires Seg(off, data) in offered && IsSlice(data, stream, off)
    ensures !AddMayFail(b, off, data)
    ensures Taken(b, off, data) ==>
      forall order :: PopOrder(order, Pushed(b, off, data).segs) ==> order == Pushed(b, off, data).segs
  {
    if Taken(b, off, data) {
      var p := Pushed(b, off, data).segs;
      PushedMonotone(b, stream, got, off, data, offered);
      MonotoneIsTieFree(p, stream);
      AddFailsExactly(b, off, data);
      PushedSorted(b, off, data);
      forall order | PopOrder(order, p)
        ensures order == p
      {
        OrderIsUnique(p, order, 0);
      }
    }
  }

  lemma PushedSorted(b: Buf, off: nat, data: seq<byte>)
    requires Sorted(b.segs, b.next + 1) && off + |data| > b.next && data != []
    ensures Sorted(Pushed(b, off, data).segs, 0)
  {
    InsertSorted(b.segs, CutAt(b.next, Seg(off, data)), b.next);
    AllBeyond(Pushed(b, off, data).segs, b.next);
  }

  /** The states add may end in: one for each order in which the heap may give up equal offsets. */
  ghost predicate AddOutcome(b: Buf, off: nat, data: seq<byte>, c: Buf) {
    if Taken(b, off, data) then
      var p := Pushed(b, off, data);
      exists order :: PopOrder(order, p.segs) && Drain(p.(segs := order)) == Some(c)
    else
      Some(c) == Reorder.Add(b, off, data)
  }

  lemma HeapMembers(heap: seq<Seg>, order: seq<Seg>)
    requires Represents(heap, order)
    ensures |heap| == |order| && forall s :: s in heap <==> s in order
  {
    SameMembers(heap, order);
    assert |multiset(heap)| == |multiset(order)|;
  }

  lemma LeastStartsWithRoot(heap: seq<Seg>, popped: seq<Seg>, s: Seg)
    requires HeapOrdered(heap) && heap != []
    requires multiset(heap) == multiset(popped) + multiset{s} && forall t :: t in multiset(heap) ==> s.off <= t.off
    ensures s in multiset(heap) && s.off == heap[0].off
  {
    RootIsLeastOfAll(heap);
    assert heap[0] in multiset(heap);
  }

  lemma CancelMember(a: multiset<Seg>, b: multiset<Seg>, s: Seg)
    requires a + multiset{s} == b + multiset{s}
    ensures a == b
  {
    assert a == (a + multiset{s}) - multiset{s};
    assert b == (b + multiset{s}) - multiset{s};
  }

  lemma PopRepresents(heap: seq<Seg>, popped: seq<Seg>, order: seq<Seg>, s: Seg)
    requires Represents(heap, order) && s in multiset(heap)
    requires multiset(heap) == multiset(popped) + multiset{s}
    ensures Represents(popped, Without(order, s)) && s in order && |popped| < |heap|
  {
    assert s in multiset(order);
    WithoutMembers(order, s);
    WithoutSorted(order, s, 0);
    CancelMember(multiset(popped), multiset(Without(order, s)), s);
    assert |multiset(heap)| == |multiset(popped)| + 1;
  }

  lemma LeastOfOrder(heap: seq<Seg>, order: seq<Seg>, s: Seg)
    requires Represents(heap, order) && forall t :: t in multiset(heap) ==> s.off <= t.off
    ensures forall t :: t in order ==> s.off <= t.off
  {
    assert forall t :: t in order ==> t in multiset(order);
  }

  /** One pop and what the draining loop does with it. */
  lemma MovesOn(start: Buf, done: seq<Seg>, b: Buf, s: Seg, rest: seq<Seg>)
    requires PopOrder(done + b.segs, start.segs) && DrainsTo(start, done, b)
    requires s in b.segs && (forall t :: t in b.segs ==> s.off <= t.off)
    requires s.off <= b.next && rest == Without(b.segs, s)
    ensures PopOrder(done + [s] + rest, start.segs)
    ensures if b.next > End(s) then MayFail(start) else DrainsTo(start, done + [s], DrainOne(b.(segs := [s] + rest)))
  {
    PopsNext(done, b.segs, start.segs, s);
    if b.next > End(s) {
      DrainStops(start, done, b, s, rest);
    } else {
      DrainsFurther(start, done, b, s, rest);
    }
  }

  lemma DrainBegins(start: Buf)
    ensures EMPTY_SEGS + start.segs == start.segs && DrainsTo(start, EMPTY_SEGS, start)
  {
    assert forall rest: seq<Seg> :: EMPTY_SEGS + rest == rest;
  }

  /** When the root lies beyond the front, so does everything held, and draining is over. */
  lemma DrainEnds(start: Buf, done: seq<Seg>, b: Buf, heap: seq<Seg>)
    requires Represents(heap, b.segs) && HeapOrdered(heap) && (heap == [] || heap[0].off > b.next)
    requires DrainsTo(start, done, b)
    ensures Drain(start.(segs := done + b.segs)) == Some(b) && Sorted(b.segs, b.next + 1)
  {
    HeapMembers(heap, b.segs);
    if heap != [] {
      RootIsLeastOfAll(heap);
      assert b.segs[0] in heap && b.segs[0] in multiset(heap);
    }
    assert b.(segs := b.segs) == b;
  }

  class ReorderBuf {
    var cap: int
    var next: nat
    const segs: SegHeap
    var ready: seq<Seg>
    var size: int
    var readyBytes: nat
    var dropped: nat
    /** The members of the heap in ascending order. */
    ghost var order: seq<Seg>

    ghost predicate Consistent()
      reads this, segs
    {
      segs.Valid() && Represents(segs.a, order) && Queue(ready, readyBytes)
    }

    /** The state between calls: nothing held lies at or below the front. */
    ghost predicate Valid()
      reads this, segs
    {
      Consistent() && Sorted(order, next + 1)
    }

    ghost function View(): Buf
      reads this
    {
      Buf(cap, next, order, FlattenSegs(ready), size, dropped)
    }

    constructor (cap: int)
      ensures Valid() && fresh(segs) && View() == NewBuf(cap)
    {
      this.cap := cap;
      next, ready, size, readyBytes, dropped := 0, [], 0, 0, 0;
      segs := new SegHeap();
      order := [];
    }

    method PushSeg(s: Seg)
      requires Consistent() && |s.data| > 0
      modifies this`order, segs
      ensures Consistent() && order == Insert(old(order), s)
    {
      segs.Push(s);
      InsertSorted(order, s, 0);
      InsertMembers(order, s);
      order := Insert(order, s);
    }

    /** Removes a least member; which of several is the heap's business. */
    method PopLeast() returns (s: Seg)
      requires Consistent() && segs.a != []
      modifies this`order, segs
      ensures Consistent() && order == Without(old(order), s)
      ensures s in old(order) && s.off == old(segs.a)[0].off && forall t :: t in old(order) ==> s.off <= t.off
      ensures |segs.a| < |old(segs.a)|
    {
      var top := segs.Pop();
      s := top.value;
      LeastStartsWithRoot(old(segs.a), segs.a, s);
      LeastOfOrder(old(segs.a), order, s);
      PopRepresents(old(segs.a), segs.a, order, s);
      order := Without(order, s);
    }

    /**
     * False stands for the slice out of range, which ends the program. Any arrival is allowed: when that
     * can happen is known exactly (Trim.AddFailsExactly), and otherwise the new state is one that an order
     * of the equal offsets leads to.
     */
    method Add(off: nat, data: seq<byte>) returns (ok: bool)
      requires Valid()
      modifies this, segs
      ensures !ok ==> AddMayFail(old(View()), off, data)
      ensures ok ==> Valid() && AddOutcome(old(View()), off, data, View())
    {
      if |data| == 0 {
        return true;
      }
      var end := off + |data|;
      if end <= next {
        return true;
      }
      if off > next && size + |data| > cap {
        dropped := dropped + |data|;
        return true;
      }
      HoldArrival(off, data);
      ok := DrainHeap();
    }

    /** For end-monotone segments of one stream the slice stays in range and there is one outcome. */
    method AddOffered(off: nat, data: seq<byte>, ghost stream: seq<byte>, ghost got: nat, ghost offered: set<Seg>)
      requires Valid() && BufInv(View(), stream, got) && AllIn(View().segs, offered)
      requires EndMonotone(offered) && Seg(off, data) in offered && IsSlice(data, stream, off)
      modifies this, segs
      ensures Valid() && Some(View()) == Reorder.Add(old(View()), off, data)
      ensures BufInv(View(), stream, got) && AllIn(View().segs, offered)
    {
      AddKeeps(View(), stream, got, off, data, offered);
      OfferedIsSafe(View(), stream, got, off, data, offered);
      var ok := Add(off, data);
    }

    /** Cuts the arriving segment at the front and pushes the rest. */
    method HoldArrival(off: nat, data: seq<byte>)
      requires Valid() && off + |data| > next && |data| > 0
      modifies this`order, this`size, segs
      ensures Consistent() && View() == Pushed(old(View()), off, data)
    {
      var s := CutAt(next, Seg(off, data));
      PushSeg(s);
      size := size + |s.data|;
    }

    /** The draining loop; false when a slice is out of range. */
    method DrainHeap() returns (ok: bool)
      requires Consistent()
      modifies this, segs
      ensures !ok ==> MayFail(old(View()))
      ensures ok ==> Valid() && exists o :: PopOrder(o, old(order)) && Drain(old(View()).(segs := o)) == Some(View())
    {
      ghost var start, done := View(), EMPTY_SEGS;
      DrainBegins(start);
      ok := true;
      while ok && |segs.a| > 0 && segs.a[0].off <= next
        invariant if ok then Underway(start, done) else MayFail(start)
        decreases ok, |segs.a|
      {
        ok, done := MoveLeast(start, done);
      }
      if ok {
        DrainEnds(start, done, View(), segs.a);
      }
    }

    /** The draining of start has come as far as this, with done moved. */
    ghost predicate Underway(start: Buf, done: seq<Seg>)
      reads this, segs
    {
      Consistent() && PopOrder(done + order, start.segs) && DrainsTo(start, done, View())
    }

    /** The body of the draining loop. */
    method MoveLeast(ghost start: Buf, ghost done: seq<Seg>) returns (ok: bool, ghost more: seq<Seg>)
      requires Underway(start, done) && segs.a != [] && segs.a[0].off <= next
      modifies this, segs
      ensures if ok then Underway(start, more) && |segs.a| < |old(segs.a)| else MayFail(start)
    {
      ghost var before := View();
      var head := PopLeast();
      assert View() == before.(segs := order);
      more := done + [head];
      MovesOn(start, done, before, head, order);
      ok := next <= End(head);
      if ok {
        Move(head);
      }
    }

    /** The body of the draining loop for a segment that does not end behind the front. */
    method Move(head: Seg)
      requires Consistent() && head.off <= next <= End(head)
      modifies this`size, this`next, this`ready, this`readyBytes
      ensures Consistent() && View() == DrainOne(old(View()).(segs := [head] + order))
    {
      assert ([head] + order)[1..] == order;
      var s := CutAt(next, head);
      size := size - (|head.data| - |s.data|);
      Deliver(s);
    }

    /** Moves the front past s and queues it; an empty segment was covered by others and is skipped. */
    method Deliver(s: Seg)
      requires Consistent()
      modifies this`next, this`ready, this`readyBytes
      ensures Consistent() && next == old(next) + |s.data|
      ensures FlattenSegs(ready) == FlattenSegs(old(ready)) + s.data
    {
      if |s.data| == 0 {
        assert s.data == [];
        return;
      }
      QueueAppend(ready, readyBytes, s);
      next := next + |s.data|;
      ready := ready + [s];
      readyBytes := readyBytes + |s.data|;
    }

    method Read(n: nat) returns (out: seq<byte>)
      requires Valid()
      modifies this
      ensures Valid() && (out, View()) == Reorder.Read(old(View()), n)
    {
      out := CopyOut(n);
      size := size - |out|;
      readyBytes := readyBytes - |out|;
    }

    /** The copying loop of read. */
    method CopyOut(n: nat) returns (out: seq<byte>)
      requires Queue(ready, readyBytes)
      modifies this`ready
      ensures var all := FlattenSegs(old(ready));
        |out| == Min(n, |all|) && out == all[..|out|] && FlattenSegs(ready) == all[|out|..]
      ensures Queue(ready, readyBytes - |out|) && |out| <= readyBytes
    {
      out := [];
      ghost var all := FlattenSegs(ready);
      QueueTotal(ready, readyBytes);
      while |out| < n && |ready| > 0
        invariant |out| <= n && |out| <= |all|
        invariant out == all[..|out|] && FlattenSegs(ready) == all[|out|..]
        invariant Queue(ready, readyBytes - |out|)
        decreases n - |out|
      {
        var piece := CopyFromHead(n - |out|, readyBytes - |out|);
        SliceGrows(all, |out|, piece, FlattenSegs(ready));
        out := out + piece;
      }
    }

    /** Copies from the first ready segment and drops it once it is used up. */
    method CopyFromHead(limit: nat, ghost total: int) returns (piece: seq<byte>)
      requires Queue(ready, total) && ready != [] && limit > 0
      modifies this`ready
      ensures 0 < |piece| <= limit && FlattenSegs(old(ready)) == piece + FlattenSegs(ready)
      ensures Queue(ready, total - |piece|)
    {
      var head := ready[0];
      var m := Min(limit, |head.data|);
      piece := head.data[..m];
      ConsumeKeepsQueue(ready, total, m);
      if |head.data| == m {
        ready := ready[1..];
      } else {
        ready := ready[0 := Seg(head.off, head.data[m..])];
      }
    }

    method SetCap(c: int)
      requires Valid()
      modifies this`cap
      ensures Valid() && View() == old(View()).(cap := c)
    {
      cap := c;
    }

    method ExportRanges(max: int) returns (rs: seq<ByteRange>)
      requires Valid()
      ensures rs == Ranges(View(), max)
    {
      HeapMembers(segs.a, order);
      if |segs.a| == 0 || max <= 0 {
        return [];
      }
      AllBeyond(order, 0);
      var all := seq(|segs.a|, i requires 0 <= i < |segs.a| reads this, segs => RangeOf(segs.a[i]));
      assert all == RangesOf(segs.a);
      var merged := SortAndMerge(all);
      MergedIsUnique(segs.a, order, merged);
      rs := if |merged| > max then merged[..max] else merged;
    }
  }

  lemma {:induction false} SortedRanges(order: seq<Seg>, lo: nat)
    requires Sorted(order, lo)
    ensures SortedFrom(RangesOf(order), lo) && NonEmpty(RangesOf(order))
  {
    if order != [] {
      SortedRanges(order[1..], order[0].off);
      assert RangesOf(order)[1..] == RangesOf(order[1..]);
      forall i | 0 <= i < |order|
        ensures RangesOf(order)[i].start < RangesOf(order)[i].end
      {
        assert i > 0 ==> RangesOf(order)[i] == RangesOf(order[1..])[i - 1];
      }
    }
  }

  /** Sorting and merging in heap order or in ascending order gives the same list. */
  lemma MergedIsUnique(heap: seq<Seg>, order: seq<Seg>, merged: seq<ByteRange>)
    requires multiset(heap) == multiset(order) && Sorted(order, 0)
    requires Canonical(merged) && forall x :: Covers(merged, x) <==> Covers(RangesOf(heap), x)
    ensures merged == MergeInto([], RangesOf(order))
  {
    SortedRanges(order, 0);
    MergeIsCanonical([], RangesOf(order), 0);
    forall x: int
      ensures Covers(RangesOf(heap), x) <==> Covers(RangesOf(order), x)
    {
      if Covers(RangesOf(heap), x) {
        SameMembersCover(heap, order, x);
      }
      if Covers(RangesOf(order), x) {
        SameMembersCover(order, heap, x);
      }
    }
    CanonicalIsUnique(merged, MergeInto([], RangesOf(order)));
  }

  lemma SameMembersCover(a: seq<Seg>, b: seq<Seg>, x: int)
    requires multiset(a) == multiset(b) && Covers(RangesOf(a), x)
    ensures Covers(RangesOf(b), x)
  {
    var i :| 0 <= i < |a| && RangesOf(a)[i].start <= x < RangesOf(a)[i].end;
    assert a[i] in multiset(b);
    assert a[i] in b;
    var j :| 0 <= j < |b| && b[j] == a[i];
    assert RangesOf(b)[j] == RangeOf(a[i]);
  }
}
