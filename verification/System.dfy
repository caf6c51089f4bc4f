/**
 * Two endpoints of one direction of a stream. The network keeps every frame ever sent and may deliver
 * any of them, at any time, in any order, any number of times, or never.
 */
module System {
  import opened Base
  import opened Intervals
  import opened SegmentHeap
  import opened Reorder
  import opened Paths
  import opened Scheduler
  import opened Sender
  import opened SenderInvariant

  datatype DataFrame = DataFrame(off: nat, payload: seq<byte>, path: nat, ts: int)

  datatype Sys = Sys(
    /** The sending endpoint, and every byte its application has written. */
    snd: Sender<nat>, written: seq<byte>,
    /** Every DATA and ACK frame ever sent. */
    net: set<DataFrame>, acks: set<AckFrame>,
    /** The receiving endpoint: its buffer, what its application has read, and the echo state of its ACKs. */
    buf: Buf, out: seq<byte>, ackSeq: nat, lastTs: int, lastPath: nat, down: bool,
    /** The ranges of first transmissions, and the largest capacity so far. */
    cuts: set<ByteRange>, maxCap: int)

  datatype Step =
    | Write(b: seq<byte>, bufCap: int)
    | Send(now: int, ts: int)
    | DeliverData(f: DataFrame)
    | EmitAck
    | DeliverAck(a: AckFrame, via: nat, now: int, nowTs: int)
    | Tick(now: int, ts: int)
    | Drop(p: nat)
    | Attach(p: nat, now: int)
    | PingReply(p: nat, r: int, echoTs: int)
    | Telemetry(p: nat, rate: real, now: int)
    | AppRead(n: nat)
    | Resize(cap: int)

  function Initial(cap: nat, now: int): Sys {
    Sys(NewSender(0, 0, now), [], {}, {}, NewBuf(cap), [], 0, 0, 0, false, {}, cap)
  }

  /** The acknowledgement the receiver would encode now. */
  function Snapshot(s: Sys): AckFrame {
    AckFrame(s.buf.next, s.lastTs, s.lastPath, if Window(s.buf) >= 0 then Window(s.buf) else 0, s.ackSeq,
             Ranges(s.buf, MAX_ACK_RANGES))
  }

  /** The sweep, then the removal of every path that timed out. */
  function TickSender(s: Sender<nat>, now: int, ts: int): Sender<nat>
    requires PathsKnown(s.segs, s.pm) && Known(s.live, s.pm)
  {
    var t := SweepAll(s, now, ts);
    var late := TimedOutPaths(t.live, t.pm, now);
    TimedOutAreLive(t.live, t.pm, now);
    DropAll(t, late)
  }

  function HearAck(s: Sender<nat>, a: AckFrame, via: nat, now: int, nowTs: int): Sender<nat>
    requires Known(s.live, s.pm)
  {
    if Stale(s, a) then s
    else if ValidAck(s, a) then ApplyAck(s, a, now, nowTs)
    else if via in s.pm then DropPath(s, via)
    else s
  }

  /** What arrives at the receiver when f is delivered; None when the buffer slices out of range. */
  function Receive(s: Sys, f: DataFrame): Option<Sys> {
    match Add(s.buf, f.off, f.payload)
    case None => None
    case Some(b) => Some(s.(buf := b, lastTs := f.ts, lastPath := f.path + 1, down := b.size > 4 * b.cap))
  }

  function DoWrite(s: Sys, b: seq<byte>, bufCap: int): Sys {
    var (n, snd) := WriteSome(s.snd, b, bufCap);
    s.(snd := snd, written := s.written + b[..n])
  }

  /** A new frame is a first transmission; a resend is not. */
  function CutOf(before: nat, after: nat): set<ByteRange> {
    if after > before then {ByteRange(before, after)} else {}
  }

  ghost function DoSend(s: Sys, now: int, ts: int): Sys
    requires SenderReady(s.snd)
  {
    var (snd, sent) := TrySend(s.snd, now);
    match sent
    case Nothing => s.(snd := snd)
    case Frame(off, payload, path) =>
      s.(snd := snd, net := s.net + {DataFrame(off, payload, path, ts)},
         cuts := s.cuts + CutOf(s.snd.sentOff, snd.sentOff))
  }

  function DoEmit(s: Sys): Sys {
    if s.down then s else s.(acks := s.acks + {Snapshot(s)}, ackSeq := s.ackSeq + 1)
  }

  function DoHear(s: Sys, a: AckFrame, via: nat, now: int, nowTs: int): Sys
    requires Known(s.snd.live, s.snd.pm)
  {
    if a in s.acks then s.(snd := HearAck(s.snd, a, via, now, nowTs)) else s
  }

  function DoDrop(s: Sys, p: nat): Sys {
    if p in s.snd.pm then s.(snd := DropPath(s.snd, p)) else s
  }

  function DoMeasure(s: Sys, p: nat, st: PathSt): Sys {
    s.(snd := s.snd.(pm := s.snd.pm[p := st]))
  }

  function DoRead(s: Sys, n: nat): Sys {
    var (out, b) := Reorder.Read(s.buf, n);
    s.(out := s.out + out, buf := b)
  }

  function DoResize(s: Sys, cap: int): Sys {
    s.(buf := s.buf.(cap := cap), maxCap := Max(s.maxCap, cap))
  }

  /** One step; None when the receiver slices out of range. A step that is not enabled changes nothing. */
  ghost function Next(s: Sys, step: Step): Option<Sys>
    requires SenderReady(s.snd)
  {
    match step
    case Write(b, bufCap) => Some(DoWrite(s, b, bufCap))
    case Send(now, ts) => Some(DoSend(s, now, ts))
    case DeliverData(f) => if f in s.net && !s.down then Receive(s, f) else Some(s)
    case EmitAck => Some(DoEmit(s))
    case DeliverAck(a, via, now, nowTs) => Some(DoHear(s, a, via, now, nowTs))
    case Tick(now, ts) => Some(s.(snd := TickSender(s.snd, now, ts)))
    case Drop(p) => Some(DoDrop(s, p))
    case Attach(p, now) => Some(s.(snd := AttachPath(s.snd, p, p, now)))
    case PingReply(p, r, echoTs) =>
      Some(if p in s.snd.live then DoMeasure(s, p, NoteRTT(s.snd.pm[p], r, echoTs)) else s)
    case Telemetry(p, rate, now) =>
      Some(if p in s.snd.live then DoMeasure(s, p, s.snd.pm[p].(peerRate := rate, peerRateAt := Some(now))) else s)
    case AppRead(n) => Some(DoRead(s, n))
    case Resize(cap) => Some(DoResize(s, cap))
  }

  // ---------- the invariant ----------

  /** First transmissions are non-empty, at most one frame long and pairwise disjoint. */
  ghost predicate CutsInv(cuts: set<ByteRange>, sentOff: nat) {
    && (forall r :: r in cuts ==> r.start < r.end <= sentOff && r.end - r.start <= MAX_FRAME_PAYLOAD)
    && (forall r, q :: r in cuts && q in cuts ==> r == q || r.end <= q.start || q.end <= r.start)
  }

  /** No first transmission crosses x. */
  ghost predicate Aligned(cuts: set<ByteRange>, x: int) {
    forall r :: r in cuts ==> x <= r.start || r.end <= x
  }

  ghost predicate AlignedRanges(cuts: set<ByteRange>, rs: seq<ByteRange>) {
    forall i :: 0 <= i < |rs| ==> Aligned(cuts, rs[i].start) && Aligned(cuts, rs[i].end)
  }

  /** Every frame in the network is one first transmission, byte for byte. */
  ghost predicate NetInv(net: set<DataFrame>, cuts: set<ByteRange>, written: seq<byte>) {
    forall f :: f in net ==>
      ByteRange(f.off, f.off + |f.payload|) in cuts && IsSlice(f.payload, written, f.off)
  }

  function Offered(net: set<DataFrame>): set<Seg> {
    set f | f in net :: Seg(f.off, f.payload)
  }

  /** The sender's segments are whole first transmissions, and what it takes for received is received. */
  ghost predicate SegsInv(segs: seq<SendSeg<nat>>, cuts: set<ByteRange>, b: Buf) {
    segs != [] ==>
      && ByteRange(segs[0].off, SegEnd(segs[0])) in cuts
      && (segs[0].sacked ==> forall x :: segs[0].off <= x < SegEnd(segs[0]) ==> Accepted(b, x))
      && SegsInv(segs[1..], cuts, b)
  }

  ghost predicate RecvInv(s: Sys) {
    && BufInv(s.buf, s.written, |s.out|) && AllIn(s.buf.segs, Offered(s.net))
    && |s.out| <= |s.written| && s.out == s.written[..|s.out|]
    && s.buf.next <= s.snd.sentOff && Aligned(s.cuts, s.buf.next)
    && s.buf.cap <= s.maxCap && TotalLen(s.buf.segs) <= s.maxCap
  }

  ghost predicate AckInv(a: AckFrame, s: Sys) {
    && a.seqNo < s.ackSeq && a.cum <= s.buf.next
    && Canonical(a.ranges) && AlignedRanges(s.cuts, a.ranges) && Aligned(s.cuts, a.cum)
    && (forall i :: 0 <= i < |a.ranges| ==> a.ranges[i].start > a.cum && a.ranges[i].end <= s.snd.sentOff)
    && (forall x :: Covers(a.ranges, x) ==> Accepted(s.buf, x))
    && a.cum + a.window <= |s.out| + s.maxCap
  }

  ghost predicate AckOrder(acks: set<AckFrame>) {
    && (forall a, b :: a in acks && b in acks && a.seqNo < b.seqNo ==> a.cum <= b.cum)
    && (forall a, b :: a in acks && b in acks && a.seqNo == b.seqNo ==> a == b)
  }

  /** What the sender knows of the receiver is exactly one acknowledgement the receiver sent. */
  ghost predicate LinkedTo(snd: Sender<nat>, a: AckFrame) {
    && a.seqNo == snd.peerAckSeq && a.cum == snd.cumAcked && a.window == snd.advWindow && a.ranges == snd.peerRanges
  }

  ghost predicate LinkInv(snd: Sender<nat>, acks: set<AckFrame>) {
    && snd.gotPeerAck == snd.gotWindow
    && (snd.gotPeerAck ==> exists a :: a in acks && LinkedTo(snd, a))
    && (!snd.gotPeerAck ==> snd.cumAcked == 0 && snd.peerRanges == [])
  }

  ghost predicate SysInv(s: Sys) {
    && SenderInv(s.snd, s.written)
    && CutsInv(s.cuts, s.snd.sentOff) && NetInv(s.net, s.cuts, s.written)
    && SegsInv(s.snd.segs, s.cuts, s.buf)
    && RecvInv(s)
    && (forall a :: a in s.acks ==> AckInv(a, s)) && AckOrder(s.acks)
    && LinkInv(s.snd, s.acks)
    && s.snd.sentOff <= |s.out| + s.maxCap
  }
}
