/** The receive-side reordering buffer (reorder.go). */
module Reorder {
  import opened Base
  import opened Intervals
  import opened SegmentHeap

  // ---------- the buffer as a value ----------

  /**
   * The buffer's meaning: held segments ascending by offset, and the in-order bytes that wait to be
   * read. size is the running account the code keeps, not a sum computed on demand.
   */
  datatype Buf = Buf(cap: int, next: nat, segs: seq<Seg>, ready: seq<byte>, size: int, dropped: nat)

  const EMPTY_SEGS: seq<Seg> := []

  function NewBuf(cap: int): Buf {
    Buf(cap, 0, EMPTY_SEGS, [], 0, 0)
  }

  function Window(b: Buf): int {
    b.cap - b.size
  }

  function Insert(segs: seq<Seg>, s: Seg): seq<Seg> {
    if segs == [] || s.off < segs[0].off then [s] + segs else [segs[0]] + Insert(segs[1..], s)
  }

  /** The part of s at or beyond the front. */
  function CutAt(next: nat, s: Seg): Seg
    requires next <= End(s)
  {
    if s.off < next then Seg(next, s.data[next - s.off..]) else s
  }

  /** One iteration of the draining loop: the cut segment joins the in-order bytes. */
  function DrainOne(b: Buf): Buf
    requires b.segs != [] && b.segs[0].off <= b.next <= End(b.segs[0])
  {
    var s := CutAt(b.next, b.segs[0]);
    b.(segs := b.segs[1..], next := b.next + |s.data|, ready := b.ready + s.data,
       size := b.size - (|b.segs[0].data| - |s.data|))
  }

  /** Moves every segment the front has reached to the in-order bytes; None when a slice is out of range. */
  function Drain(b: Buf): Option<Buf>
    decreases |b.segs|
  {
    if b.segs == [] || b.segs[0].off > b.next then
      Some(b)
    else
      if b.next > End(b.segs[0]) then None else Drain(DrainOne(b))
  }

  /** Whether an arriving segment is thrown away because the buffer is full. */
  predicate Overflows(b: Buf, off: nat, data: seq<byte>) {
    off > b.next && b.size + |data| > b.cap
  }

  function Add(b: Buf, off: nat, data: seq<byte>): Option<Buf> {
    if data == [] || off + |data| <= b.next then
      Some(b)
    else if Overflows(b, off, data) then
      Some(b.(dropped := b.dropped + |data|))
    else
      Drain(Pushed(b, off, data))
  }

  /** The buffer just after the arriving segment, cut at the front, went into the heap. */
  function Pushed(b: Buf, off: nat, data: seq<byte>): Buf
    requires off + |data| > b.next
  {
    var s := CutAt(b.next, Seg(off, data));
    b.(segs := Insert(b.segs, s), size := b.size + |s.data|)
  }

  function Read(b: Buf, n: nat): (seq<byte>, Buf) {
    var m := Min(n, |b.ready|);
    (b.ready[..m], b.(ready := b.ready[m..], size := b.size - m))
  }

  function RangeOf(s: Seg): ByteRange {
    ByteRange(s.off, End(s))
  }

  function RangesOf(segs: seq<Seg>): seq<ByteRange> {
    seq(|segs|, i requires 0 <= i < |segs| => RangeOf(segs[i]))
  }

  /** The selective acknowledgement: at most max merged intervals, lowest first. */
  function Ranges(b: Buf, max: int): seq<ByteRange> {
    if b.segs == [] || max <= 0 then
      []
    else
      var merged := MergeInto([], RangesOf(b.segs));
      if |merged| > max then merged[..max] else merged
  }

  // ---------- what the buffer holds ----------

  function TotalLen(segs: seq<Seg>): nat {
    if segs == [] then 0 else |segs[0].data| + TotalLen(segs[1..])
  }

  predicate Holds(segs: seq<Seg>, x: int) {
    segs != [] && (segs[0].off <= x < End(segs[0]) || Holds(segs[1..], x))
  }

  /** An offset the buffer has taken: delivered already or waiting in the heap. */
  predicate Accepted(b: Buf, x: int) {
    x < b.next || Holds(b.segs, x)
  }

  /**
   * Non-empty slices of stream, ascending by offset from off and by end from end: no segment ends
   * before one that starts no later.
   */
  ghost predicate Chain(segs: seq<Seg>, stream: seq<byte>, off: nat, end: nat) {
    segs != [] ==>
      var s := segs[0];
      && off <= s.off && end <= End(s)
      && |s.data| > 0 && IsSlice(s.data, stream, s.off)
      && Chain(segs[1..], stream, s.off, End(s))
  }

  /** The in-order bytes are stream[got..next] and the account is the true sum. */
  ghost predicate Accounts(b: Buf, stream: seq<byte>, got: nat) {
    && got <= b.next <= |stream|
    && b.ready == stream[got..b.next]
    && b.size == |b.ready| + TotalLen(b.segs)
  }

  /** The state between calls, when got bytes of stream have been read: every held segment is beyond next. */
  ghost predicate BufInv(b: Buf, stream: seq<byte>, got: nat) {
    && Accounts(b, stream, got)
    && Chain(b.segs, stream, b.next + 1, b.next + 1)
  }

  /** Of any two offered segments, the one that starts no later also ends no later. */
  ghost predicate EndMonotone(offered: set<Seg>) {
    forall s, t :: s in offered && t in offered && s.off <= t.off ==> End(s) <= End(t)
  }

  ghost predicate AllIn(segs: seq<Seg>, offered: set<Seg>) {
    segs != [] ==> segs[0] in offered && AllIn(segs[1..], offered)
  }

  // ---------- draining ----------

  lemma DrainOneKeeps(b: Buf, stream: seq<byte>, got: nat)
    requires Accounts(b, stream, got) && Chain(b.segs, stream, 0, b.next)
    requires b.segs != [] && b.segs[0].off <= b.next
    ensures var c := DrainOne(b); Accounts(c, stream, got) && Chain(c.segs, stream, 0, c.next)
  {
    var s := b.segs[0];
    assert CutAt(b.next, s).data == stream[b.next..End(s)];
  }

  /** When no segment ends behind the front, draining succeeds and keeps every account. */
  lemma {:induction false} DrainKeeps(b: Buf, stream: seq<byte>, got: nat)
    requires Accounts(b, stream, got) && Chain(b.segs, stream, 0, b.next)
    ensures Drain(b).Some? && BufInv(Drain(b).value, stream, got)
    ensures Drain(b).value.next >= b.next && Drain(b).value.cap == b.cap
    ensures b.segs != [] && b.segs[0].off <= b.next ==> Drain(b).value.next >= End(b.segs[0])
    decreases |b.segs|
  {
    if b.segs != [] && b.segs[0].off <= b.next {
      DrainOneKeeps(b, stream, got);
      DrainKeeps(DrainOne(b), stream, got);
    }
  }

  lemma {:induction false} DrainAccepts(b: Buf, stream: seq<byte>, x: int)
    requires Chain(b.segs, stream, 0, b.next)
    ensures Drain(b).Some? ==> (Accepted(Drain(b).value, x) <==> Accepted(b, x))
    decreases |b.segs|
  {
    if b.segs != [] && b.segs[0].off <= b.next {
      DrainAccepts(DrainOne(b), stream, x);
    }
  }

  /** What draining leaves was there before, and the front stands at the end of a drained segment. */
  lemma {:induction false} DrainLeaves(b: Buf, stream: seq<byte>, offered: set<Seg>)
    requires Chain(b.segs, stream, 0, b.next) && b.segs != [] && AllIn(b.segs[1..], offered)
    ensures Drain(b).Some? && AllIn(b.segs, offered) ==> AllIn(Drain(b).value.segs, offered)
    ensures Drain(b).Some? && b.segs[0].off <= b.next ==>
      var c := Drain(b).value;
      AllIn(c.segs, offered) && (c.next == End(b.segs[0]) || exists s :: s in offered && c.next == End(s))
    decreases |b.segs|
  {
    if b.segs[0].off <= b.next {
      var c := DrainOne(b);
      if c.segs != [] {
        DrainLeaves(c, stream, offered);
      }
    }
  }

  // ---------- inserting ----------

  lemma {:induction false} InsertKeepsChain(segs: seq<Seg>, s: Seg, stream: seq<byte>, off: nat, end: nat,
                                            offered: set<Seg>)
    requires Chain(segs, stream, off, end) && AllIn(segs, offered) && EndMonotone(offered) && s in offered
    requires off <= s.off && end <= End(s) && |s.data| > 0 && IsSlice(s.data, stream, s.off)
    ensures Chain(Insert(segs, s), stream, off, end) && AllIn(Insert(segs, s), offered)
  {
    if segs == [] || s.off < segs[0].off {
      assert ([s] + segs)[1..] == segs;
    } else {
      InsertKeepsChain(segs[1..], s, stream, segs[0].off, End(segs[0]), offered);
      assert Insert(segs, s)[1..] == Insert(segs[1..], s);
    }
  }

  lemma {:induction false} InsertHolds(segs: seq<Seg>, s: Seg, x: int)
    ensures Holds(Insert(segs, s), x) <==> Holds(segs, x) || s.off <= x < End(s)
  {
    if segs == [] || s.off < segs[0].off {
      assert ([s] + segs)[1..] == segs;
    } else {
      InsertHolds(segs[1..], s, x);
      assert Insert(segs, s)[1..] == Insert(segs[1..], s);
    }
  }

  lemma {:induction false} InsertTotal(segs: seq<Seg>, s: Seg)
    ensures TotalLen(Insert(segs, s)) == TotalLen(segs) + |s.data|
    ensures |Insert(segs, s)| == |segs| + 1
  {
    if segs == [] || s.off < segs[0].off {
      assert ([s] + segs)[1..] == segs;
    } else {
      InsertTotal(segs[1..], s);
      assert Insert(segs, s)[1..] == Insert(segs[1..], s);
    }
  }

  // ---------- adding ----------

  /** Pushing at or behind the front: the cut segment goes to the head of the list. */
  lemma PushedAtFront(b: Buf, stream: seq<byte>, got: nat, off: nat, data: seq<byte>, offered: set<Seg>)
    requires BufInv(b, stream, got) && IsSlice(data, stream, off) && off <= b.next < off + |data|
    requires EndMonotone(offered) && AllIn(b.segs, offered) && Seg(off, data) in offered
    ensures var p := Pushed(b, off, data);
      && Accounts(p, stream, got) && Chain(p.segs, stream, 0, p.next)
      && p.segs != [] && AllIn(p.segs[1..], offered)
      && p.segs[0].off <= p.next && End(p.segs[0]) == off + |data|
  {
    var p := Pushed(b, off, data);
    var s := CutAt(b.next, Seg(off, data));
    assert s.data == stream[s.off..End(s)];
    assert b.segs != [] ==> End(Seg(off, data)) <= End(b.segs[0]);
    InsertTotal(b.segs, s);
    assert p.segs == [s] + b.segs;
    assert p.segs[1..] == b.segs;
  }

  lemma PushedBeyondFront(b: Buf, stream: seq<byte>, got: nat, off: nat, data: seq<byte>, offered: set<Seg>)
    requires BufInv(b, stream, got) && IsSlice(data, stream, off) && off > b.next && |data| > 0
    requires EndMonotone(offered) && AllIn(b.segs, offered) && Seg(off, data) in offered
    ensures var p := Pushed(b, off, data);
      Drain(p) == Some(p) && BufInv(p, stream, got) && AllIn(p.segs, offered)
  {
    InsertTotal(b.segs, Seg(off, data));
    InsertKeepsChain(b.segs, Seg(off, data), stream, b.next + 1, b.next + 1, offered);
  }

  /**
   * The specification of add for end-monotone segments: it never slices out of range, and a segment
   * that reaches across the front always moves the front to its end or further.
   */
  lemma AddKeeps(b: Buf, stream: seq<byte>, got: nat, off: nat, data: seq<byte>, offered: set<Seg>)
    requires BufInv(b, stream, got) && IsSlice(data, stream, off)
    requires EndMonotone(offered) && AllIn(b.segs, offered) && Seg(off, data) in offered
    ensures Add(b, off, data).Some?
    ensures var c := Add(b, off, data).value;
      && BufInv(c, stream, got) && AllIn(c.segs, offered)
      && c.next >= b.next && c.cap == b.cap
      && (off <= b.next < off + |data| ==> c.next >= off + |data|)
      && (c.next == b.next || exists s :: s in offered && c.next == End(s))
  {
    if data != [] && off + |data| > b.next && !Overflows(b, off, data) {
      var p := Pushed(b, off, data);
      if off > b.next {
        PushedBeyondFront(b, stream, got, off, data, offered);
      } else {
        PushedAtFront(b, stream, got, off, data, offered);
        DrainKeeps(p, stream, got);
        DrainLeaves(p, stream, offered);
        assert End(Seg(off, data)) == off + |data|;
      }
    }
  }

  /** add takes exactly the offsets of its segment, unless the segment overflows: then it changes nothing. */
  lemma AddAccepts(b: Buf, stream: seq<byte>, got: nat, off: nat, data: seq<byte>, offered: set<Seg>, x: int)
    requires BufInv(b, stream, got) && IsSlice(data, stream, off)
    requires EndMonotone(offered) && AllIn(b.segs, offered) && Seg(off, data) in offered
    ensures Add(b, off, data).Some?
    ensures var c := Add(b, off, data).value;
      Accepted(c, x) <==> Accepted(b, x) || (off <= x < off + |data| && !Overflows(b, off, data))
  {
    AddKeeps(b, stream, got, off, data, offered);
    if data != [] && off + |data| > b.next && !Overflows(b, off, data) {
      var p := Pushed(b, off, data);
      InsertHolds(b.segs, CutAt(b.next, Seg(off, data)), x);
      if off > b.next {
        PushedBeyondFront(b, stream, got, off, data, offered);
      } else {
        PushedAtFront(b, stream, got, off, data, offered);
        DrainAccepts(p, stream, x);
      }
    }
  }

  lemma {:induction false} DrainCounts(b: Buf)
    ensures Drain(b).Some? ==> Drain(b).value.dropped == b.dropped && Drain(b).value.cap == b.cap
    decreases |b.segs|
  {
    if b.segs != [] && b.segs[0].off <= b.next <= End(b.segs[0]) {
      DrainCounts(DrainOne(b));
    }
  }

  /** The counter grows by the segments thrown away: those behind a hole that the buffer has no room for. */
  lemma AddDrops(b: Buf, off: nat, data: seq<byte>)
    ensures var c := Add(b, off, data);
      c.Some? ==> c.value.dropped - b.dropped == if off > b.next && b.size + |data| > b.cap then |data| else 0
  {
    if off + |data| > b.next {
      DrainCounts(Pushed(b, off, data));
    }
  }

  lemma ReadKeeps(b: Buf, stream: seq<byte>, got: nat, n: nat)
    requires BufInv(b, stream, got)
    ensures var (out, c) := Read(b, n);
      && BufInv(c, stream, got + |out|)
      && out == stream[got..got + |out|]
      && |out| == Min(n, b.next - got)
  {
  }

  /** No held segment lies at or below the front, so the front is the least offset not accepted. */
  lemma {:induction false} ChainIsBeyond(segs: seq<Seg>, stream: seq<byte>, off: nat, end: nat, x: int)
    requires Chain(segs, stream, off, end) && Holds(segs, x)
    ensures off <= x < |stream|
  {
    if !(segs[0].off <= x < End(segs[0])) {
      ChainIsBeyond(segs[1..], stream, segs[0].off, End(segs[0]), x);
    }
  }

  // ---------- whole runs ----------

  datatype Op = Arrive(seg: Seg) | Take(n: nat) | Limit(cap: int)

  /** A buffer with what has been read from it and the offsets it did not throw away. */
  datatype Run = Run(buf: Buf, out: seq<byte>, taken: set<int>)

  predicate Within(s: Seg, x: int) {
    s.off <= x < End(s)
  }

  function Offsets(s: Seg): set<int> {
    set x: int | s.off <= x < End(s) && Within(s, x)
  }

  function StepRun(r: Run, op: Op): Option<Run> {
    match op
    case Arrive(s) =>
      (match Add(r.buf, s.off, s.data)
       case None => None
       case Some(b) =>
         var kept := if Overflows(r.buf, s.off, s.data) then {} else Offsets(s);
         Some(Run(b, r.out, r.taken + kept)))
    case Take(n) =>
      var (out, b) := Read(r.buf, n);
      Some(Run(b, r.out + out, r.taken))
    case Limit(cap) =>
      Some(r.(buf := r.buf.(cap := cap)))
  }

  function RunAll(r: Run, ops: seq<Op>): Option<Run>
    decreases |ops|
  {
    if ops == [] then Some(r)
    else match StepRun(r, ops[0])
      case None => None
      case Some(r') => RunAll(r', ops[1..])
  }

  ghost predicate RunInv(r: Run, stream: seq<byte>, offered: set<Seg>) {
    && BufInv(r.buf, stream, |r.out|) && AllIn(r.buf.segs, offered)
    && |r.out| <= |stream| && r.out == stream[..|r.out|]
    && forall x: int :: 0 <= x ==> (x in r.taken <==> Accepted(r.buf, x))
  }

  lemma ArriveKeepsRunInv(r: Run, s: Seg, stream: seq<byte>, offered: set<Seg>)
    requires RunInv(r, stream, offered) && EndMonotone(offered) && s in offered && IsSlice(s.data, stream, s.off)
    ensures StepRun(r, Arrive(s)).Some? && RunInv(StepRun(r, Arrive(s)).value, stream, offered)
  {
    assert Seg(s.off, s.data) == s;
    AddKeeps(r.buf, stream, |r.out|, s.off, s.data, offered);
    var c := StepRun(r, Arrive(s)).value;
    forall x: int | 0 <= x
      ensures x in c.taken <==> Accepted(c.buf, x)
    {
      AddAccepts(r.buf, stream, |r.out|, s.off, s.data, offered, x);
    }
  }

  lemma StepKeepsRunInv(r: Run, op: Op, stream: seq<byte>, offered: set<Seg>)
    requires RunInv(r, stream, offered) && EndMonotone(offered)
    requires op.Arrive? ==> op.seg in offered && IsSlice(op.seg.data, stream, op.seg.off)
    ensures StepRun(r, op).Some? && RunInv(StepRun(r, op).value, stream, offered)
  {
    match op
    case Arrive(s) =>
      ArriveKeepsRunInv(r, s, stream, offered);
    case Take(n) =>
      ReadKeeps(r.buf, stream, |r.out|, n);
    case Limit(cap) =>
  }

  /**
   * After any calls whatsoever on end-monotone segments of one stream: nothing slices out of range,
   * what was read and what waits to be read are together the stream up to next, each byte once, the
   * account is the true sum, and next is the least offset that was not taken.
   */
  lemma {:induction false} EveryRunIsInOrder(r: Run, ops: seq<Op>, stream: seq<byte>, offered: set<Seg>)
    requires RunInv(r, stream, offered) && EndMonotone(offered)
    requires forall i :: 0 <= i < |ops| && ops[i].Arrive? ==>
      ops[i].seg in offered && IsSlice(ops[i].seg.data, stream, ops[i].seg.off)
    ensures RunAll(r, ops).Some?
    ensures var c := RunAll(r, ops).value;
      && RunInv(c, stream, offered)
      && c.buf.next <= |stream| && c.out + c.buf.ready == stream[..c.buf.next]
      && c.buf.size == |c.buf.ready| + TotalLen(c.buf.segs)
      && c.buf.next !in c.taken && (forall x :: 0 <= x < c.buf.next ==> x in c.taken)
    decreases |ops|
  {
    if ops == [] {
      var b := r.buf;
      if Holds(b.segs, b.next) {
        ChainIsBeyond(b.segs, stream, b.next + 1, b.next + 1, b.next);
      }
    } else {
      StepKeepsRunInv(r, ops[0], stream, offered);
      EveryRunIsInOrder(StepRun(r, ops[0]).value, ops[1..], stream, offered);
    }
  }

  lemma EmptyRun(cap: int, stream: seq<byte>, offered: set<Seg>)
    ensures RunInv(Run(NewBuf(cap), [], {}), stream, offered)
  {
    assert !Accepted(NewBuf(cap), 0);
  }
}
