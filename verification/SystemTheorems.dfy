/** What holds in every run of the two endpoints, over any network. */
module SystemTheorems {
  import opened Base
  import opened Intervals
  import opened Reorder
  import opened Scheduler
  import opened Sender
  import opened SenderProofs
  import opened SenderInvariant
  import opened System
  import opened SystemProofs
  import opened SystemSteps

  /** The state after the steps; None if the receiver ever sliced out of range. */
  ghost function RunFrom(s: Sys, steps: seq<Step>): Option<Sys>
    decreases |steps|
  {
    if steps == [] then Some(s)
    else if !SenderReady(s.snd) then None
    else match Next(s, steps[0])
      case None => None
      case Some(t) => RunFrom(t, steps[1..])
  }

  lemma InitialInv(cap: nat, now: int)
    ensures SysInv(Initial(cap, now))
  {
    var s := Initial(cap, now);
    assert Delivered([0], s.snd.pm) == 0;
    assert s.written[s.snd.sentOff..] == [];
  }

  lemma {:induction false} RunKeepsInv(s: Sys, steps: seq<Step>)
    requires SysInv(s)
    ensures RunFrom(s, steps).Some? && SysInv(RunFrom(s, steps).value)
    ensures AcceptedGrows(s.buf, RunFrom(s, steps).value.buf)
    decreases |steps|
  {
    if steps != [] {
      StepKeepsInv(s, steps[0]);
      RunKeepsInv(Next(s, steps[0]).value, steps[1..]);
    }
  }

  lemma {:induction false} RunConcat(s: Sys, a: seq<Step>, b: seq<Step>)
    requires RunFrom(s, a).Some?
    ensures RunFrom(s, a + b) == RunFrom(RunFrom(s, a).value, b)
    decreases |a|
  {
    if a == [] {
      assert a + b == b;
    } else {
      assert (a + b)[1..] == a[1..] + b;
      RunConcat(Next(s, a[0]).value, a[1..], b);
    }
  }

  /** A run of one step. */
  lemma RunOne(s: Sys, a: Step)
    requires SenderReady(s.snd)
    ensures RunFrom(s, [a]) == Next(s, a)
  {
    assert [a][1..] == [];
  }

  lemma RunTwo(s: Sys, a: Step, b: Step)
    requires SenderReady(s.snd) && Next(s, a).Some? && SenderReady(Next(s, a).value.snd)
    ensures RunFrom(s, [a, b]) == Next(Next(s, a).value, b)
  {
    RunOne(s, a);
    RunConcat(s, [a], [b]);
    RunOne(Next(s, a).value, b);
    assert [a] + [b] == [a, b];
  }

  // ---------- end to end ----------

  /**
   * Whatever the network does to the frames and the paths, no run slices out of range and what the
   * receiving application has read is a prefix of what the sending application has written.
   */
  lemma EndToEnd(cap: nat, now: int, steps: seq<Step>)
    ensures RunFrom(Initial(cap, now), steps).Some?
    ensures var s := RunFrom(Initial(cap, now), steps).value;
      && s.out <= s.written
      && s.buf.next <= |s.written| && s.out + s.buf.ready == s.written[..s.buf.next]
  {
    InitialInv(cap, now);
    RunKeepsInv(Initial(cap, now), steps);
  }

  /** Offset x waits in a segment that will be sent again or is on its way on a live path. */
  ghost predicate InHand(s: Sender<nat>, x: int) {
    exists i :: 0 <= i < |s.segs| && s.segs[i].off <= x < SegEnd(s.segs[i]) && !s.segs[i].sacked
      && (s.segs[i].path == None || s.segs[i].path.value in s.live)
  }

  lemma {:induction false} TileOf<P>(segs: seq<SendSeg<P>>, written: seq<byte>, lo: nat, hi: nat, x: int)
    returns (i: nat)
    requires Tiles(segs, written, lo, hi) && lo <= x < hi
    ensures i < |segs| && segs[i].off <= x < SegEnd(segs[i])
  {
    if x < SegEnd(segs[0]) {
      i := 0;
    } else {
      var j := TileOf(segs[1..], written, SegEnd(segs[0]), hi, x);
      i := j + 1;
    }
  }

  lemma {:induction false} LiveAt<P>(segs: seq<SendSeg<P>>, live: seq<P>, i: nat)
    requires AllLive(segs, live) && i < |segs| && segs[i].path.Some?
    ensures segs[i].path.value in live
  {
    if i > 0 {
      LiveAt(segs[1..], live, i - 1);
    }
  }

  /**
   * In every reachable state each sent byte is at the receiver or in hand at the sender, every released
   * byte is at the receiver, and so is every byte the sender marked as received.
   */
  lemma NoByteLost(cap: nat, now: int, steps: seq<Step>)
    ensures RunFrom(Initial(cap, now), steps).Some?
    ensures var s := RunFrom(Initial(cap, now), steps).value;
      && (forall x :: 0 <= x < s.snd.sentOff ==> Accepted(s.buf, x) || InHand(s.snd, x))
      && (forall x :: 0 <= x < s.snd.cumAcked ==> Accepted(s.buf, x))
      && (forall i, x :: 0 <= i < |s.snd.segs| && s.snd.segs[i].sacked && s.snd.segs[i].off <= x < SegEnd(s.snd.segs[i])
            ==> Accepted(s.buf, x))
  {
    InitialInv(cap, now);
    RunKeepsInv(Initial(cap, now), steps);
    var s := RunFrom(Initial(cap, now), steps).value;
    CumIsDelivered(s);
    forall i | 0 <= i < |s.snd.segs| && s.snd.segs[i].sacked
      ensures forall x :: s.snd.segs[i].off <= x < SegEnd(s.snd.segs[i]) ==> Accepted(s.buf, x)
    {
      SegIsCut(s.snd.segs, s.cuts, s.buf, i);
    }
    forall x | 0 <= x < s.snd.sentOff
      ensures Accepted(s.buf, x) || InHand(s.snd, x)
    {
      if x >= s.snd.cumAcked {
        var i := TileOf(s.snd.segs, s.written, s.snd.cumAcked, s.snd.sentOff, x);
        if s.snd.segs[i].path.Some? {
          LiveAt(s.snd.segs, s.snd.live, i);
        }
      }
    }
  }

  lemma CumIsDelivered(s: Sys)
    requires SysInv(s)
    ensures s.snd.cumAcked <= s.buf.next
  {
    if s.snd.gotPeerAck {
      var a :| a in s.acks && LinkedTo(s.snd, a);
      assert AckInv(a, s);
    }
  }

  /** In every run the stream is closed exactly when its last path is gone. */
  lemma ClosedExactly(cap: nat, now: int, steps: seq<Step>)
    ensures RunFrom(Initial(cap, now), steps).Some?
    ensures var s := RunFrom(Initial(cap, now), steps).value.snd; s.closed <==> s.live == []
  {
    InitialInv(cap, now);
    RunKeepsInv(Initial(cap, now), steps);
  }

  // ---------- frame cuts ----------

  /**
   * Frames are never cut again: any two frames ever sent, first transmissions or resends, carry the
   * same range and the same bytes, or disjoint ranges; and each is the range of a first transmission.
   */
  lemma FramesAreNeverRecut(cap: nat, now: int, steps: seq<Step>)
    ensures RunFrom(Initial(cap, now), steps).Some?
    ensures var s := RunFrom(Initial(cap, now), steps).value;
      && (forall f :: f in s.net ==>
            ByteRange(f.off, f.off + |f.payload|) in s.cuts && |f.payload| <= MAX_FRAME_PAYLOAD)
      && (forall f, g :: f in s.net && g in s.net ==>
            (f.off == g.off && f.payload == g.payload) || f.off + |f.payload| <= g.off || g.off + |g.payload| <= f.off)
  {
    InitialInv(cap, now);
    RunKeepsInv(Initial(cap, now), steps);
    var s := RunFrom(Initial(cap, now), steps).value;
    forall f, g | f in s.net && g in s.net
      ensures (f.off == g.off && f.payload == g.payload) || f.off + |f.payload| <= g.off || g.off + |g.payload| <= f.off
    {
      assert ByteRange(f.off, f.off + |f.payload|) in s.cuts && ByteRange(g.off, g.off + |g.payload|) in s.cuts;
    }
  }

  // ---------- flow control ----------

  /** The sender is never further ahead of the reading application than the largest capacity so far. */
  lemma FlowControl(cap: nat, now: int, steps: seq<Step>)
    ensures RunFrom(Initial(cap, now), steps).Some?
    ensures var s := RunFrom(Initial(cap, now), steps).value;
      && s.snd.sentOff <= |s.out| + s.maxCap
      && |s.buf.ready| <= s.maxCap && TotalLen(s.buf.segs) <= s.maxCap && s.buf.size <= 2 * s.maxCap
  {
    InitialInv(cap, now);
    RunKeepsInv(Initial(cap, now), steps);
  }

  // ---------- acknowledgements ----------

  /**
   * Every acknowledgement the receiver ever sent is stale at the sender or, unless more than 2^20
   * sequence numbers were skipped, passes validation; so no honest acknowledgement costs a path.
   */
  lemma AckAgreement(cap: nat, now: int, steps: seq<Step>, a: AckFrame)
    requires var r := RunFrom(Initial(cap, now), steps); r.Some? && a in r.value.acks
    ensures var s := RunFrom(Initial(cap, now), steps).value;
      var prev := if s.snd.gotPeerAck then s.snd.peerAckSeq else 0;
      Stale(s.snd, a) || (ValidAck(s.snd, a) <==> a.seqNo - prev <= MAX_ACK_SEQ_ADVANCE)
  {
    InitialInv(cap, now);
    RunKeepsInv(Initial(cap, now), steps);
    var s := RunFrom(Initial(cap, now), steps).value;
    assert AckInv(a, s);
    if s.snd.gotPeerAck {
      var b :| b in s.acks && LinkedTo(s.snd, b);
      assert AckInv(b, s);
    }
  }

  // ---------- progress is never undone ----------

  ghost predicate Forward(s: Sys, t: Sys) {
    && s.snd.cumAcked <= t.snd.cumAcked && s.snd.sentOff <= t.snd.sentOff && s.buf.next <= t.buf.next
    && s.written <= t.written && s.out <= t.out
    && s.net <= t.net && s.acks <= t.acks && s.cuts <= t.cuts
    && (s.snd.gotPeerAck ==> t.snd.gotPeerAck && s.snd.peerAckSeq <= t.snd.peerAckSeq)
  }

  lemma {:induction false} DropAllView(s: Sender<nat>, ps: seq<nat>)
    requires forall p :: p in ps ==> p in s.pm
    ensures SameView(s, DropAll(s, ps))
    decreases |ps|
  {
    if ps != [] {
      DropAllView(DropPath(s, ps[0]), ps[1..]);
    }
  }

  lemma TickForward(s: Sys, now: int, ts: int)
    requires SysInv(s) && SenderReady(s.snd)
    ensures Forward(s, Next(s, Tick(now, ts)).value)
  {
    var u := SweepAll(s.snd, now, ts);
    TimedOutAreLive(u.live, u.pm, now);
    DropAllView(u, TimedOutPaths(u.live, u.pm, now));
  }

  lemma SendForward(s: Sys, now: int, ts: int)
    requires SysInv(s) && SenderReady(s.snd)
    ensures Forward(s, Next(s, Send(now, ts)).value)
  {
    if !s.snd.closed && s.snd.gotWindow {
      SendOutcome(s, now);
    }
  }

  lemma HearForward(s: Sys, a: AckFrame, via: nat, now: int, nowTs: int)
    requires SysInv(s) && SenderReady(s.snd)
    ensures Forward(s, Next(s, DeliverAck(a, via, now, nowTs)).value)
  {
  }

  lemma QuietForward(s: Sys, step: Step)
    requires SenderReady(s.snd) && !step.Send? && !step.Tick? && !step.DeliverData? && !step.DeliverAck?
    ensures Next(s, step).Some? && Forward(s, Next(s, step).value)
  {
  }

  lemma DeliverForward(s: Sys, f: DataFrame)
    requires SysInv(s) && SenderReady(s.snd) && Next(s, DeliverData(f)).Some?
    ensures Forward(s, Next(s, DeliverData(f)).value)
  {
    if f in s.net && !s.down {
      ReceiveKeeps(s, f);
    }
  }

  /** No step takes back an acknowledged, sent, delivered, written or read byte. */
  lemma StepIsForward(s: Sys, step: Step)
    requires SysInv(s)
    ensures SenderReady(s.snd) && Next(s, step).Some? && Forward(s, Next(s, step).value)
  {
    InvReady(s);
    match step
    case Send(now, ts) => SendForward(s, now, ts);
    case Tick(now, ts) => TickForward(s, now, ts);
    case DeliverData(f) =>
      if f in s.net {
        ReceiveKeeps(s, f);
      }
      DeliverForward(s, f);
    case DeliverAck(a, via, now, nowTs) => HearForward(s, a, via, now, nowTs);
    case _ => QuietForward(s, step);
  }

  // ---------- the sender's view of the receiver ----------

  /** The step makes the sender apply an acknowledgement. */
  predicate Applies(s: Sys, step: Step) {
    step.DeliverAck? && step.a in s.acks && !Stale(s.snd, step.a) && ValidAck(s.snd, step.a)
  }

  lemma AppliedView(s: Sys, a: AckFrame, via: nat, now: int, nowTs: int)
    requires SysInv(s) && Known(s.snd.live, s.snd.pm) && Applies(s, DeliverAck(a, via, now, nowTs))
    ensures var t := DoHear(s, a, via, now, nowTs).snd; LinkedTo(t, a) && t.gotPeerAck
    ensures s.snd.gotPeerAck ==> s.snd.peerAckSeq < a.seqNo
  {
    assert AckInv(a, s);
    NormalizeKeepsCanonical(a.ranges);
  }

  /** The view changes only with an acknowledgement that is applied, of a greater number, and is then all of it. */
  ghost predicate ViewStep(s: Sys, step: Step, t: Sender<nat>) {
    if Applies(s, step) then
      LinkedTo(t, step.a) && t.gotPeerAck && (s.snd.gotPeerAck ==> s.snd.peerAckSeq < step.a.seqNo)
    else
      SameKnowledge(s.snd, t)
  }

  lemma TickKeepsView(s: Sys, now: int, ts: int)
    requires SenderReady(s.snd)
    ensures ViewStep(s, Tick(now, ts), Next(s, Tick(now, ts)).value.snd)
  {
    var u := SweepAll(s.snd, now, ts);
    TimedOutAreLive(u.live, u.pm, now);
    DropAllView(u, TimedOutPaths(u.live, u.pm, now));
  }

  lemma SendKeepsView(s: Sys, now: int, ts: int)
    requires SysInv(s) && SenderReady(s.snd)
    ensures ViewStep(s, Send(now, ts), Next(s, Send(now, ts)).value.snd)
  {
    if !s.snd.closed && s.snd.gotWindow {
      SendOutcome(s, now);
    }
  }

  lemma HearChangesView(s: Sys, a: AckFrame, via: nat, now: int, nowTs: int)
    requires SysInv(s) && SenderReady(s.snd)
    ensures ViewStep(s, DeliverAck(a, via, now, nowTs), Next(s, DeliverAck(a, via, now, nowTs)).value.snd)
  {
    if Applies(s, DeliverAck(a, via, now, nowTs)) {
      AppliedView(s, a, via, now, nowTs);
    }
  }

  lemma QuietKeepsView(s: Sys, step: Step)
    requires SenderReady(s.snd) && !step.Send? && !step.Tick? && !step.DeliverAck? && Next(s, step).Some?
    ensures ViewStep(s, step, Next(s, step).value.snd)
  {
  }

  lemma ViewChangesWhole(s: Sys, step: Step)
    requires SysInv(s)
    ensures SenderReady(s.snd) && Next(s, step).Some? && ViewStep(s, step, Next(s, step).value.snd)
  {
    StepKeepsInv(s, step);
    match step
    case DeliverAck(a, via, now, nowTs) => HearChangesView(s, a, via, now, nowTs);
    case Tick(now, ts) => TickKeepsView(s, now, ts);
    case Send(now, ts) => SendKeepsView(s, now, ts);
    case _ => QuietKeepsView(s, step);
  }

  /** The acknowledgements applied along a run. */
  ghost function AppliedIn(s: Sys, steps: seq<Step>): set<AckFrame>
    decreases |steps|
  {
    if steps == [] || !SenderReady(s.snd) then
      {}
    else
      (if Applies(s, steps[0]) then {steps[0].a} else {})
      + (match Next(s, steps[0]) case None => {} case Some(t) => AppliedIn(t, steps[1..]))
  }

  /** The newest of a set of acknowledgements, and newer than what was known before. */
  ghost predicate Newest(a: AckFrame, acks: set<AckFrame>, before: Sender<nat>) {
    && a in acks && (forall b :: b in acks ==> b == a || b.seqNo < a.seqNo)
    && (before.gotPeerAck ==> before.peerAckSeq < a.seqNo)
  }

  /** A step in front of a run: the newest of the run stays so, or the step's own is the only one. */
  lemma ViewJoins(s: Sys, steps: seq<Step>, u: Sys, t: Sender<nat>, rest: Option<AckFrame>)
    returns (a: Option<AckFrame>)
    requires SysInv(s) && SenderReady(s.snd) && steps != [] && Next(s, steps[0]) == Some(u)
    requires match rest
      case None => AppliedIn(u, steps[1..]) == {} && SameKnowledge(u.snd, t)
      case Some(x) => Newest(x, AppliedIn(u, steps[1..]), u.snd) && LinkedTo(t, x) && t.gotPeerAck
    ensures match a
      case None => AppliedIn(s, steps) == {} && SameKnowledge(s.snd, t)
      case Some(x) => Newest(x, AppliedIn(s, steps), s.snd) && LinkedTo(t, x) && t.gotPeerAck
  {
    ViewChangesWhole(s, steps[0]);
    a := if rest == None && Applies(s, steps[0]) then Some(steps[0].a) else rest;
  }

  lemma {:induction false} ViewAfterRun(s: Sys, steps: seq<Step>) returns (a: Option<AckFrame>)
    requires SysInv(s)
    ensures RunFrom(s, steps).Some?
    ensures var t := RunFrom(s, steps).value.snd;
      match a
      case None => AppliedIn(s, steps) == {} && SameKnowledge(s.snd, t)
      case Some(x) => Newest(x, AppliedIn(s, steps), s.snd) && LinkedTo(t, x) && t.gotPeerAck
    decreases |steps|
  {
    if steps == [] {
      return None;
    }
    StepKeepsInv(s, steps[0]);
    var u := Next(s, steps[0]).value;
    a := ViewAfterRun(u, steps[1..]);
    a := ViewJoins(s, steps, u, RunFrom(s, steps).value.snd, a);
  }

  /**
   * The sender's view is one whole acknowledgement, the one of the highest number it has applied, or still
   * the initial one; what it takes for received is received.
   */
  lemma ViewIsOneSnapshot(cap: nat, now: int, steps: seq<Step>)
    ensures RunFrom(Initial(cap, now), steps).Some?
    ensures var s, applied := RunFrom(Initial(cap, now), steps).value, AppliedIn(Initial(cap, now), steps);
      && s.snd.gotWindow == s.snd.gotPeerAck == (applied != {})
      && (s.snd.gotPeerAck ==>
            exists a :: a in applied && LinkedTo(s.snd, a) && forall b :: b in applied ==> b == a || b.seqNo < a.seqNo)
      && (!s.snd.gotPeerAck ==> s.snd.cumAcked == 0 && s.snd.peerRanges == [])
      && (forall x :: Covers(s.snd.peerRanges, x) ==> Accepted(s.buf, x))
  {
    InitialInv(cap, now);
    RunKeepsInv(Initial(cap, now), steps);
    StoredRangesTrue(RunFrom(Initial(cap, now), steps).value);
    var a := ViewAfterRun(Initial(cap, now), steps);
  }
}
