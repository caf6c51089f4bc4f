/**
 * How full the receive buffer gets, and when its overflow check ends the stream (stream.go:1053-1063):
 * exactly, for every arrival in every run of two honest endpoints.
 */
module Overflow {
  import opened Base
  import opened SegmentHeap
  import opened Reorder
  import opened Trim
  import opened Sender
  import opened System
  import opened SystemProofs
  import opened SystemSteps
  import opened SystemTheorems

  // ---------- the front after an arrival ----------

  /** Where a front at x comes to stand once it has passed every held segment it reaches. */
  function Reach(x: nat, segs: seq<Seg>): nat
    decreases |segs|
  {
    if segs == [] || segs[0].off > x then x else Reach(if End(segs[0]) > x then End(segs[0]) else x, segs[1..])
  }

  /** The held segments that start beyond x. */
  function Beyond(segs: seq<Seg>, x: nat): seq<Seg> {
    if segs == [] then [] else if segs[0].off > x then [segs[0]] + Beyond(segs[1..], x) else Beyond(segs[1..], x)
  }

  /** The front comes to stand at the first offset from x on that is not held. */
  lemma {:induction false} ReachIsFirstGap(x: nat, segs: seq<Seg>, lo: nat)
    requires Sorted(segs, lo)
    ensures x <= Reach(x, segs) && !Holds(segs, Reach(x, segs))
    ensures forall y :: x <= y < Reach(x, segs) ==> Holds(segs, y)
    decreases |segs|
  {
    if segs == [] {
    } else if segs[0].off > x {
      if Holds(segs, x) {
        SortedBeyond(segs, x + 1, x);
      }
    } else {
      ReachIsFirstGap(if End(segs[0]) > x then End(segs[0]) else x, segs[1..], segs[0].off);
    }
  }

  lemma {:induction false} BeyondAll(segs: seq<Seg>, x: nat, lo: nat)
    requires Sorted(segs, lo) && x < lo
    ensures Beyond(segs, x) == segs
  {
    if segs != [] {
      BeyondAll(segs[1..], x, segs[0].off);
    }
  }

  /** Draining brings the front to that offset and leaves exactly what starts beyond it. */
  lemma {:induction false} DrainExactly(b: Buf, stream: seq<byte>, got: nat)
    requires Accounts(b, stream, got) && Chain(b.segs, stream, 0, b.next) && Sorted(b.segs, 0)
    ensures Drain(b).Some?
    ensures var c := Drain(b).value;
      c.next == Reach(b.next, b.segs) && c.segs == Beyond(b.segs, c.next) && b.next <= c.next
    decreases |b.segs|
  {
    if b.segs == [] {
    } else if b.segs[0].off > b.next {
      BeyondAll(b.segs, b.next, b.segs[0].off);
    } else {
      DrainOneKeeps(b, stream, got);
      DrainExactly(DrainOne(b), stream, got);
    }
  }

  lemma {:induction false} ChainSorted(segs: seq<Seg>, stream: seq<byte>, off: nat, end: nat)
    requires Chain(segs, stream, off, end)
    ensures Sorted(segs, off)
  {
    if segs != [] {
      ChainSorted(segs[1..], stream, segs[0].off, End(segs[0]));
    }
  }

  /** The size of the buffer once a segment ending at end has filled the hole at the front, when got bytes were read. */
  function FilledSize(b: Buf, end: nat, got: nat): int {
    Reach(end, b.segs) - got + TotalLen(Beyond(b.segs, Reach(end, b.segs)))
  }

  /** The segment that fills the hole is the first to be drained, whole. */
  lemma FirstDrained(b: Buf, stream: seq<byte>, got: nat, off: nat, data: seq<byte>, offered: set<Seg>)
    requires BufInv(b, stream, got) && IsSlice(data, stream, off) && off <= b.next < off + |data|
    requires EndMonotone(offered) && AllIn(b.segs, offered) && Seg(off, data) in offered
    ensures var p := Pushed(b, off, data);
      && p.segs != [] && p.segs[0].off <= p.next <= End(p.segs[0])
      && Add(b, off, data) == Drain(DrainOne(p))
      && var d := DrainOne(p);
        && Accounts(d, stream, got) && Chain(d.segs, stream, 0, d.next)
        && d.next == off + |data| && d.segs == b.segs
  {
    var p := Pushed(b, off, data);
    PushedAtFront(b, stream, got, off, data, offered);
    assert p.segs[1..] == b.segs;
    DrainOneKeeps(p, stream, got);
  }

  /** The front, the held segments and the size after the hole at the front was filled. */
  lemma FillsHole(b: Buf, stream: seq<byte>, got: nat, off: nat, data: seq<byte>, offered: set<Seg>)
    requires BufInv(b, stream, got) && IsSlice(data, stream, off) && off <= b.next < off + |data|
    requires EndMonotone(offered) && AllIn(b.segs, offered) && Seg(off, data) in offered
    ensures Add(b, off, data).Some?
    ensures var c, f := Add(b, off, data).value, Reach(off + |data|, b.segs);
      c.next == f && c.segs == Beyond(b.segs, f) && c.size == FilledSize(b, off + |data|, got)
  {
    var d := DrainOne(Pushed(b, off, data));
    FirstDrained(b, stream, got, off, data, offered);
    ChainSorted(b.segs, stream, b.next + 1, b.next + 1);
    AllBeyond(b.segs, b.next + 1);
    DrainExactly(d, stream, got);
    DrainKeeps(d, stream, got);
  }

  /** An arrival beyond the front is thrown away, or it fits. */
  lemma JoinsHeld(b: Buf, stream: seq<byte>, got: nat, off: nat, data: seq<byte>, offered: set<Seg>)
    requires BufInv(b, stream, got) && IsSlice(data, stream, off) && off > b.next && |data| > 0
    requires EndMonotone(offered) && AllIn(b.segs, offered) && Seg(off, data) in offered
    ensures Add(b, off, data).Some?
    ensures Add(b, off, data).value.size == (if b.size + |data| > b.cap then b.size else b.size + |data|)
  {
    if !Overflows(b, off, data) {
      PushedBeyondFront(b, stream, got, off, data, offered);
    }
  }

  /** The size of the buffer after the frame arrived: it was known, it fills the hole, or it is beyond the front. */
  function SizeAfter(b: Buf, f: DataFrame, got: nat): int {
    if f.off < b.next then b.size
    else if f.off == b.next then FilledSize(b, f.off + |f.payload|, got)
    else if b.size + |f.payload| > b.cap then b.size
    else b.size + |f.payload|
  }

  /** An honest frame is one of the offered segments, and it lies on one side of the front. */
  lemma ArrivalIsOffered(s: Sys, f: DataFrame)
    requires SysInv(s) && f in s.net
    ensures EndMonotone(Offered(s.net)) && Seg(f.off, f.payload) in Offered(s.net)
    ensures 0 < |f.payload| && IsSlice(f.payload, s.written, f.off)
    ensures f.off < s.buf.next ==> f.off + |f.payload| <= s.buf.next
  {
    OfferedEndMonotone(s.net, s.cuts, s.snd.sentOff, s.written);
    assert ByteRange(f.off, f.off + |f.payload|) in s.cuts;
  }

  lemma BufArrival(b: Buf, stream: seq<byte>, got: nat, f: DataFrame, offered: set<Seg>)
    requires BufInv(b, stream, got) && IsSlice(f.payload, stream, f.off) && |f.payload| > 0
    requires EndMonotone(offered) && AllIn(b.segs, offered) && Seg(f.off, f.payload) in offered
    requires f.off < b.next ==> f.off + |f.payload| <= b.next
    ensures Add(b, f.off, f.payload).Some?
    ensures var c := Add(b, f.off, f.payload).value;
      && c.cap == b.cap && c.size == SizeAfter(b, f, got)
      && (f.off == b.next ==> c.next == Reach(f.off + |f.payload|, b.segs))
  {
    AddKeeps(b, stream, got, f.off, f.payload, offered);
    if f.off == b.next {
      FillsHole(b, stream, got, f.off, f.payload, offered);
    } else if f.off > b.next {
      JoinsHeld(b, stream, got, f.off, f.payload, offered);
    }
  }

  lemma ArrivalSize(s: Sys, f: DataFrame)
    requires SysInv(s) && f in s.net
    ensures 0 < |f.payload| && Receive(s, f).Some? && s.buf.size >= 0
    ensures var b, c := s.buf, Receive(s, f).value.buf;
      && c.cap == b.cap && c.size == SizeAfter(b, f, |s.out|)
      && (f.off == b.next ==> c.next == Reach(f.off + |f.payload|, b.segs))
    ensures f.off < s.buf.next ==> f.off + |f.payload| <= s.buf.next
  {
    ArrivalIsOffered(s, f);
    BufArrival(s.buf, s.written, |s.out|, f, Offered(s.net));
  }

  // ---------- the exact condition ----------

  /**
   * The check that is said never to hit an honest stream: in every run, the arrival of any frame ends the
   * stream exactly if the buffer already holds more than four times the capacity, or, for the frame that
   * starts at the front, if it will: the bytes up to the first offset then missing, plus every copy held
   * beyond it.
   */
  lemma TeardownExactly(cap: nat, now: int, steps: seq<Step>, f: DataFrame)
    requires var r := RunFrom(Initial(cap, now), steps); r.Some? && f in r.value.net && !r.value.down
    ensures var s := RunFrom(Initial(cap, now), steps).value;
      && Receive(s, f).Some?
      && (Receive(s, f).value.down <==>
            (if f.off == s.buf.next then FilledSize(s.buf, f.off + |f.payload|, |s.out|) else s.buf.size)
            > 4 * s.buf.cap)
  {
    InitialInv(cap, now);
    RunKeepsInv(Initial(cap, now), steps);
    DownExactly(RunFrom(Initial(cap, now), steps).value, f);
  }

  lemma DownExactly(s: Sys, f: DataFrame)
    requires SysInv(s) && f in s.net && !s.down
    ensures Receive(s, f).Some?
    ensures Receive(s, f).value.down <==>
      (if f.off == s.buf.next then FilledSize(s.buf, f.off + |f.payload|, |s.out|) else s.buf.size) > 4 * s.buf.cap
  {
    ArrivalSize(s, f);
  }

  lemma MoreExactly(s: Sys, f: DataFrame)
    requires SysInv(s) && f in s.net && s.buf.size <= s.buf.cap
    ensures Receive(s, f).Some?
    ensures Receive(s, f).value.buf.size > s.buf.cap <==>
      f.off == s.buf.next && FilledSize(s.buf, f.off + |f.payload|, |s.out|) > s.buf.cap
  {
    ArrivalSize(s, f);
  }

  /**
   * The size is said never to exceed the capacity: from within the capacity, an arrival takes it beyond
   * exactly if it fills the hole at the front and what is then in order, with the copies held beyond, is more.
   */
  lemma ExceedsExactly(cap: nat, now: int, steps: seq<Step>, f: DataFrame)
    requires var r := RunFrom(Initial(cap, now), steps); r.Some? && f in r.value.net
    requires var s := RunFrom(Initial(cap, now), steps).value; s.buf.size <= s.buf.cap
    ensures var s := RunFrom(Initial(cap, now), steps).value;
      && Receive(s, f).Some?
      && (Receive(s, f).value.buf.size > s.buf.cap <==>
            f.off == s.buf.next && FilledSize(s.buf, f.off + |f.payload|, |s.out|) > s.buf.cap)
  {
    InitialInv(cap, now);
    RunKeepsInv(Initial(cap, now), steps);
    MoreExactly(RunFrom(Initial(cap, now), steps).value, f);
  }

  // ---------- capacities that never shrink below half ----------

  /** Every capacity that is set lies between half of hi and hi. */
  ghost predicate Steady(steps: seq<Step>, hi: int) {
    steps != [] ==> (steps[0].Resize? ==> steps[0].cap <= hi <= 2 * steps[0].cap) && Steady(steps[1..], hi)
  }

  lemma SteadyDelivery(s: Sys, f: DataFrame, hi: int)
    requires SysInv(s) && !s.down && s.maxCap <= hi <= 2 * s.buf.cap && f in s.net
    ensures Receive(s, f).Some?
    ensures var t := Receive(s, f).value; !t.down && t.maxCap == s.maxCap && t.buf.cap == s.buf.cap
  {
    ReceiveKeeps(s, f);
    var t := Receive(s, f).value;
    assert |t.buf.ready| == t.buf.next - |s.out|;
  }

  lemma SteadyQuiet(s: Sys, step: Step, hi: int)
    requires SenderReady(s.snd) && !s.down && s.maxCap <= hi <= 2 * s.buf.cap && !step.DeliverData?
    requires step.Resize? ==> step.cap <= hi <= 2 * step.cap
    ensures Next(s, step).Some?
    ensures var t := Next(s, step).value; !t.down && t.maxCap <= hi <= 2 * t.buf.cap
  {
  }

  lemma SteadyStep(s: Sys, step: Step, hi: int)
    requires SysInv(s) && !s.down && s.maxCap <= hi <= 2 * s.buf.cap
    requires step.Resize? ==> step.cap <= hi <= 2 * step.cap
    ensures SenderReady(s.snd) && Next(s, step).Some?
    ensures var t := Next(s, step).value; SysInv(t) && !t.down && t.maxCap <= hi <= 2 * t.buf.cap
  {
    StepKeepsInv(s, step);
    if !step.DeliverData? {
      SteadyQuiet(s, step, hi);
    } else if step.f in s.net {
      SteadyDelivery(s, step.f, hi);
    }
  }

  /** Such a state, which every step allowed by Steady keeps. */
  ghost predicate SteadyIn(s: Sys, hi: int) {
    SysInv(s) && !s.down && s.maxCap <= hi <= 2 * s.buf.cap
  }

  lemma SteadyKeeps(s: Sys, step: Step, hi: int) returns (t: Sys)
    requires SteadyIn(s, hi) && (step.Resize? ==> step.cap <= hi <= 2 * step.cap)
    ensures SenderReady(s.snd) && Next(s, step) == Some(t) && SteadyIn(t, hi)
  {
    SteadyStep(s, step, hi);
    t := Next(s, step).value;
  }

  lemma {:induction false} SteadyRun(s: Sys, steps: seq<Step>, hi: int)
    requires SteadyIn(s, hi) && Steady(steps, hi)
    ensures RunFrom(s, steps).Some? && !RunFrom(s, steps).value.down
    decreases |steps|
  {
    if steps != [] {
      var t := SteadyKeeps(s, steps[0], hi);
      SteadyRun(t, steps[1..], hi);
    }
  }

  /** No run in which the capacity stays between half of some number and that number ends in a teardown. */
  lemma NoTeardown(cap: nat, now: int, steps: seq<Step>, hi: int)
    requires cap <= hi <= 2 * cap && Steady(steps, hi)
    ensures RunFrom(Initial(cap, now), steps).Some? && !RunFrom(Initial(cap, now), steps).value.down
  {
    InitialInv(cap, now);
    SteadyRun(Initial(cap, now), steps, hi);
  }
}
