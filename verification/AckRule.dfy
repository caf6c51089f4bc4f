/**
 * When the receiver owes an acknowledgement (stream.go:534-540, 1067, 1224-1233), and that it is never
 * silent about what the sender does not know.
 */
module AckRule {
  import opened Base
  import opened Reorder
  import opened Paths
  import opened Sender
  import opened System
  import opened SystemTheorems

  /** What the receiver remembers of its acknowledgements. */
  datatype Due = Due(
    /** One has been asked for since the last was encoded. */
    pending: bool,
    /** Bytes read since the last, and whether the capacity has stayed as it was then. */
    freed: nat, steady: bool,
    /** The last one, and the window it was made from, which may be negative. */
    last: Option<AckFrame>, told: int,
    /** Whether no DATA frame has come since. */
    quiet: bool)

  /** The first is asked for when the stream starts. */
  const AT_START: Due := Due(true, 0, true, None, 0, false)

  /** A read of m bytes asks for one if the window was shut, or if a quarter of the capacity has been freed. */
  function AfterRead(d: Due, b: Buf, m: nat): Due {
    if m == 0 then d
    else d.(freed := d.freed + m, pending := d.pending || Window(b) <= 0 || d.freed + m >= Quot(b.cap, 4))
  }

  /** A change of capacity asks for one if it opens the window. */
  function AfterResize(d: Due, b: Buf, cap: int): Due {
    d.(steady := d.steady && cap == b.cap, pending := d.pending || (Window(b) <= 0 && Window(b.(cap := cap)) > 0))
  }

  /** Every DATA frame asks for one; encoding one answers all requests. */
  function DueAfter(d: Due, s: Sys, step: Step): Due {
    match step
    case DeliverData(f) => if f in s.net && !s.down then d.(pending := true, quiet := false) else d
    case EmitAck => if s.down then d else Due(false, 0, true, Some(Snapshot(s)), Window(s.buf), true)
    case AppRead(n) => AfterRead(d, s.buf, Min(n, |s.buf.ready|))
    case Resize(cap) => AfterResize(d, s.buf, cap)
    case _ => d
  }

  ghost function DueIn(d: Due, s: Sys, steps: seq<Step>): Due
    decreases |steps|
  {
    if steps == [] || !SenderReady(s.snd) then d
    else match Next(s, steps[0])
      case None => d
      case Some(t) => DueIn(DueAfter(d, s, steps[0]), t, steps[1..])
  }

  /** The last acknowledgement says all there is to say, but for less than a quarter of the capacity. */
  ghost predicate Says(d: Due, a: AckFrame, b: Buf) {
    && a.cum == b.next && a.ranges == Ranges(b, MAX_ACK_RANGES)
    && (Window(b) > 0 ==> a.window > 0)
    && a.window == (if d.told >= 0 then d.told else 0)
    && (d.steady ==> Window(b) == d.told + d.freed && (d.freed == 0 || d.freed < Quot(b.cap, 4)))
  }

  /** The last acknowledgement is the newest sent; one is pending, or the last says it all. */
  ghost predicate DueInv(d: Due, s: Sys) {
    match d.last
    case None => d.pending && s.acks == {}
    case Some(a) => a in s.acks && a.seqNo == s.ackSeq - 1 && (d.pending || Says(d, a, s.buf))
  }

  lemma ReadKeepsDue(d: Due, s: Sys, n: nat)
    requires DueInv(d, s)
    ensures DueInv(AfterRead(d, s.buf, Min(n, |s.buf.ready|)), DoRead(s, n))
  {
  }

  lemma ResizeKeepsDue(d: Due, s: Sys, cap: int)
    requires DueInv(d, s)
    ensures DueInv(AfterResize(d, s.buf, cap), DoResize(s, cap))
  {
  }

  lemma EmitKeepsDue(d: Due, s: Sys)
    requires DueInv(d, s)
    ensures DueInv(DueAfter(d, s, EmitAck), DoEmit(s))
  {
  }

  lemma DeliverKeepsDue(d: Due, s: Sys, f: DataFrame)
    requires DueInv(d, s) && Receive(s, f).Some?
    ensures DueInv(d.(pending := true, quiet := false), Receive(s, f).value)
  {
  }

  lemma QuietKeepsDue(d: Due, s: Sys, step: Step)
    requires DueInv(d, s) && SenderReady(s.snd) && Next(s, step).Some?
    requires !step.DeliverData? && !step.EmitAck? && !step.AppRead? && !step.Resize?
    ensures DueInv(DueAfter(d, s, step), Next(s, step).value)
  {
  }

  lemma StepKeepsDue(d: Due, s: Sys, step: Step)
    requires DueInv(d, s) && SenderReady(s.snd) && Next(s, step).Some?
    ensures DueInv(DueAfter(d, s, step), Next(s, step).value)
  {
    match step
    case DeliverData(f) =>
      if f in s.net && !s.down {
        DeliverKeepsDue(d, s, f);
      }
    case EmitAck => EmitKeepsDue(d, s);
    case AppRead(n) => ReadKeepsDue(d, s, n);
    case Resize(cap) => ResizeKeepsDue(d, s, cap);
    case _ => QuietKeepsDue(d, s, step);
  }

  lemma {:induction false} RunKeepsDue(d: Due, s: Sys, steps: seq<Step>)
    requires DueInv(d, s) && RunFrom(s, steps).Some?
    ensures DueInv(DueIn(d, s, steps), RunFrom(s, steps).value)
    decreases |steps|
  {
    if steps != [] {
      StepKeepsDue(d, s, steps[0]);
      RunKeepsDue(DueAfter(d, s, steps[0]), Next(s, steps[0]).value, steps[1..]);
    }
  }

  /** The newest acknowledgement is the sender's view, or the sender has yet to hear it. */
  lemma NewestIsHeard(s: Sys, a: AckFrame)
    requires SysInv(s) && a in s.acks && a.seqNo == s.ackSeq - 1
    ensures !Stale(s.snd, a) || (s.snd.gotPeerAck && LinkedTo(s.snd, a))
  {
    if s.snd.gotPeerAck {
      var b :| b in s.acks && LinkedTo(s.snd, b);
      assert AckInv(b, s);
    }
  }

  /** The sender has the acknowledgement, or it is under way. */
  ghost predicate Conveyed(s: Sys, a: AckFrame) {
    a in s.acks && (!Stale(s.snd, a) || (s.snd.gotPeerAck && LinkedTo(s.snd, a)))
  }

  /**
   * In every run, however often acknowledgements are sent: one is pending, or the newest one says what has
   * arrived, says that there is room if there is, and lags behind the reads by less than a quarter of an
   * unchanged capacity; and that one is what the sender believes, or it is under way.
   */
  lemma NeverSilent(cap: nat, now: int, steps: seq<Step>)
    ensures RunFrom(Initial(cap, now), steps).Some?
    ensures var s, d := RunFrom(Initial(cap, now), steps).value, DueIn(AT_START, Initial(cap, now), steps);
      d.pending || (d.last.Some? && Says(d, d.last.value, s.buf) && Conveyed(s, d.last.value))
  {
    InitialInv(cap, now);
    RunKeepsInv(Initial(cap, now), steps);
    RunKeepsDue(AT_START, Initial(cap, now), steps);
    var s, d := RunFrom(Initial(cap, now), steps).value, DueIn(AT_START, Initial(cap, now), steps);
    if d.last.Some? {
      NewestIsHeard(s, d.last.value);
    }
  }

  /**
   * So a sender that waits for a window never waits for nothing: when the receiver has room and the sender
   * believes there is none, an acknowledgement is pending or one that says so is under way.
   */
  lemma NoForgottenWindow(cap: nat, now: int, steps: seq<Step>)
    ensures RunFrom(Initial(cap, now), steps).Some?
    ensures var s, d := RunFrom(Initial(cap, now), steps).value, DueIn(AT_START, Initial(cap, now), steps);
      Window(s.buf) > 0 && (!s.snd.gotWindow || s.snd.advWindow == 0) ==>
        d.pending || exists a :: a in s.acks && !Stale(s.snd, a) && a.window > 0
  {
    NeverSilent(cap, now, steps);
    InitialInv(cap, now);
    RunKeepsInv(Initial(cap, now), steps);
  }

  // ---------- no acknowledgement without a reason ----------

  /**
   * Unless DATA came or the capacity changed, one is pending exactly if something was read and either the
   * window was shut or a quarter of the capacity has been freed.
   */
  ghost predicate Reasoned(d: Due, b: Buf) {
    d.last.Some? && d.quiet && d.steady ==>
      && Window(b) == d.told + d.freed
      && (d.pending <==> d.freed > 0 && (d.told <= 0 || d.freed >= Quot(b.cap, 4)))
  }

  lemma ReceiveKeepsReason(d: Due, s: Sys, step: Step)
    requires Reasoned(d, s.buf) && SenderReady(s.snd) && Next(s, step).Some?
    requires step.DeliverData? || step.EmitAck? || step.AppRead? || step.Resize?
    ensures Reasoned(DueAfter(d, s, step), Next(s, step).value.buf)
  {
  }

  lemma QuietKeepsReason(d: Due, s: Sys, step: Step)
    requires SenderReady(s.snd) && Next(s, step).Some?
    requires !step.DeliverData? && !step.EmitAck? && !step.AppRead? && !step.Resize?
    ensures DueAfter(d, s, step) == d && Next(s, step).value.buf == s.buf
  {
  }

  lemma {:induction false} RunKeepsReason(d: Due, s: Sys, steps: seq<Step>)
    requires Reasoned(d, s.buf) && RunFrom(s, steps).Some?
    ensures Reasoned(DueIn(d, s, steps), RunFrom(s, steps).value.buf)
    decreases |steps|
  {
    if steps != [] {
      if steps[0].DeliverData? || steps[0].EmitAck? || steps[0].AppRead? || steps[0].Resize? {
        ReceiveKeepsReason(d, s, steps[0]);
      } else {
        QuietKeepsReason(d, s, steps[0]);
      }
      RunKeepsReason(DueAfter(d, s, steps[0]), Next(s, steps[0]).value, steps[1..]);
    }
  }

  /** In every run. */
  lemma NeverIdleTalk(cap: nat, now: int, steps: seq<Step>)
    ensures RunFrom(Initial(cap, now), steps).Some?
    ensures Reasoned(DueIn(AT_START, Initial(cap, now), steps), RunFrom(Initial(cap, now), steps).value.buf)
  {
    InitialInv(cap, now);
    RunKeepsInv(Initial(cap, now), steps);
    RunKeepsReason(AT_START, Initial(cap, now), steps);
  }
}
