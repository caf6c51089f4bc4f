/**
 * Two runs of honest endpoints over reliable, ordered paths: a buffer beyond its capacity, and a stream the
 * overflow check ends.
 */
module OverflowRuns {
  import opened Base
  import opened Intervals
  import opened SegmentHeap
  import opened Reorder
  import opened Trim
  import opened Paths
  import opened Scheduler
  import opened Sender
  import opened System
  import opened SystemSteps
  import opened SystemTheorems
  import opened Overflow
  import opened Conduct
  import opened Completion

  /** After these steps of a new stream with capacity cap, as the code and its paths make them. */
  ghost predicate At(cap: nat, steps: seq<Step>, c: Ctx, s: Sys) {
    Go(Start(0), Initial(cap, 0), steps) == Some((c, s))
  }

  lemma AtSound(cap: nat, steps: seq<Step>, c: Ctx, s: Sys)
    requires At(cap, steps, c, s)
    ensures Sound(c, s) && SenderReady(s.snd)
  {
    StartIsSound(cap, 0);
    GoKeepsSound(Start(0), Initial(cap, 0), steps);
    InvReady(s);
  }

  lemma AtReady(cap: nat, steps: seq<Step>, c: Ctx, s: Sys)
    requires At(cap, steps, c, s)
    ensures SenderReady(s.snd)
  {
    AtSound(cap, steps, c, s);
  }

  lemma AtOne(cap: nat, steps: seq<Step>, c: Ctx, s: Sys, step: Step, t: Sys)
    requires At(cap, steps, c, s) && SenderReady(s.snd) && Allowed(c, s, step) && Next(s, step) == Some(t)
    ensures At(cap, steps + [step], After(c, s, step), t)
  {
    GoOne(c, s, step, t);
    GoConcat(Start(0), Initial(cap, 0), steps, [step]);
  }

  // ---------- the choice of a path that has told nothing yet ----------

  /** No rate is known of the path, it is healthy, and so many bytes are in flight on it. */
  predicate Cold(pm: map<nat, PathSt>, p: nat, k: nat) {
    && p in pm && pm[p].id == p && !pm[p].hasRate && pm[p].peerRateAt == None && !pm[p].suspect
    && pm[p].inflight == k < MIN_INFLIGHT_CAP
  }

  lemma OnlyPath(pm: map<nat, PathSt>, p: nat, n: nat, now: int)
    requires p in pm && pm[p].inflight < MIN_INFLIGHT_CAP
    ensures PickData([p], pm, n, now) == Some(p)
  {
    PickDataPrefersHealthy([p], pm, n, now);
    assert p in [p];
  }

  /** Of two such paths the less loaded one is chosen. */
  lemma LessLoaded(pm: map<nat, PathSt>, p: nat, j: nat, q: nat, k: nat, n: nat, now: int)
    requires Cold(pm, p, j) && Cold(pm, q, k) && k < j
    ensures PickData([p, q], pm, n, now) == Some(q)
  {
    PickDataPrefersHealthy([p, q], pm, n, now);
    assert q in [p, q];
    assert DrainTime(pm[p], n, now) == (j + n) as real / COLD_RATE;
    assert DrainTime(pm[q], n, now) == (k + n) as real / COLD_RATE;
    assert Better(pm[q], pm[p], n, now);
  }

  // ---------- a chunk that goes out as one frame ----------

  ghost predicate AllAssigned(segs: seq<SendSeg<nat>>) {
    segs != [] ==> segs[0].path.Some? && AllAssigned(segs[1..])
  }

  lemma {:induction false} AssignedAppend(segs: seq<SendSeg<nat>>, s: SendSeg<nat>)
    requires AllAssigned(segs) && s.path.Some?
    ensures AllAssigned(segs + [s])
  {
    if segs == [] {
      assert [] + [s] == [s] && [s][1..] == [];
    } else {
      AssignedAppend(segs[1..], s);
      assert (segs + [s])[1..] == segs[1..] + [s];
    }
  }

  lemma {:induction false} NothingPooled(segs: seq<SendSeg<nat>>, rs: seq<ByteRange>)
    requires AllAssigned(segs)
    ensures Scan(segs, rs) == (segs, None)
  {
    if segs != [] {
      NothingPooled(segs[1..], rs);
      assert [segs[0]] + segs[1..] == segs;
    }
  }

  /** Nothing waits to be sent, and the peer has room for so much beyond what it acknowledged. */
  ghost predicate Quiet(u: Sender<nat>, window: nat) {
    && !u.closed && u.gotWindow && u.advWindow == window && u.peerRanges == []
    && u.sendQ == [] && u.qHead == 0 && u.pendingBytes == 0 && AllAssigned(u.segs)
  }

  /** The sender once c is queued. */
  function Queued(u: Sender<nat>, c: seq<byte>): Sender<nat> {
    u.(sendQ := [c], pendingBytes := |c|)
  }

  function Framed(u: Sender<nat>, c: seq<byte>, p: nat, now: int): Sender<nat>
    requires p in u.pm
  {
    u.(sentOff := u.sentOff + |c|, segs := u.segs + [SendSeg(u.sentOff, c, Some(p), now, false)],
       pm := Charge(u.pm, p, |c|))
  }

  lemma ChunkFramed(u: Sender<nat>, window: nat, c: seq<byte>, p: nat, now: int)
    requires Quiet(u, window) && SenderReady(Queued(u, c)) && PickData(u.live, u.pm, |c|, now) == Some(p) && p in u.pm
    requires 0 < |c| && u.sentOff - u.cumAcked + |c| <= window && |c| <= MAX_FRAME_PAYLOAD
    ensures TrySend(Queued(u, c), now) == (Framed(u, c, p, now), Frame(u.sentOff, c, p))
    ensures Quiet(Framed(u, c, p, now), window)
  {
    var q := Queued(u, c);
    NothingPooled(q.segs, []);
    assert NewLen(q) == |c| && c[0..|c|] == c;
    AssignedAppend(q.segs, SendSeg(u.sentOff, c, Some(p), now, false));
    assert CommitNew(q, |c|, p, now) == Framed(u, c, p, now);
  }

  /** A chunk is written and sent. */
  function Chunk(c: seq<byte>, micro: nat): seq<Step> {
    [Write(c, 10), Send(1000 * micro, micro)]
  }

  lemma ChunkWritten(s: Sys, c: seq<byte>)
    requires !s.snd.closed && s.snd.sendQ == [] && s.snd.pendingBytes == 0
    requires 0 < |c| <= 10 - (s.snd.sentOff - s.snd.cumAcked)
    ensures DoWrite(s, c, 10) == s.(snd := Queued(s.snd, c), written := s.written + c)
  {
    assert c[..|c|] == c;
    assert s.snd.sendQ + [c] == [c];
  }

  /** The system once the chunk is out. */
  function Loaded(s: Sys, c: seq<byte>, p: nat, micro: nat): Sys
    requires p in s.snd.pm && |c| > 0
  {
    s.(snd := Framed(s.snd, c, p, 1000 * micro), written := s.written + c,
       net := s.net + {DataFrame(s.snd.sentOff, c, p, micro)},
       cuts := s.cuts + {ByteRange(s.snd.sentOff, s.snd.sentOff + |c|)})
  }

  lemma ChunkSent(s: Sys, window: nat, c: seq<byte>, p: nat, micro: nat)
    requires Quiet(s.snd, window) && 0 < |c| <= window - (s.snd.sentOff - s.snd.cumAcked) && window <= 10
    requires SenderReady(Queued(s.snd, c)) && p in s.snd.pm
    requires PickData(s.snd.live, s.snd.pm, |c|, 1000 * micro) == Some(p)
    ensures DoSend(s.(snd := Queued(s.snd, c), written := s.written + c), 1000 * micro, micro) == Loaded(s, c, p, micro)
    ensures Quiet(Loaded(s, c, p, micro).snd, window)
  {
    ChunkFramed(s.snd, window, c, p, 1000 * micro);
  }

  lemma WriteNow(cap: nat, steps: seq<Step>, c: Ctx, s: Sys, chunk: seq<byte>)
    requires At(cap, steps, c, s)
    requires !s.snd.closed && s.snd.sendQ == [] && s.snd.pendingBytes == 0
    requires 0 < |chunk| <= 10 - (s.snd.sentOff - s.snd.cumAcked)
    ensures At(cap, steps + [Write(chunk, 10)], c, s.(snd := Queued(s.snd, chunk), written := s.written + chunk))
  {
    AtReady(cap, steps, c, s);
    ChunkWritten(s, chunk);
    assert c.arrived + {} == c.arrived;
    AtOne(cap, steps, c, s, Write(chunk, 10), DoWrite(s, chunk, 10));
  }

  lemma SendNow(cap: nat, steps: seq<Step>, c: Ctx, s: Sys, micro: nat)
    requires At(cap, steps, c, s) && SenderReady(s.snd)
    requires c.base == 0 && c.clock <= 1000 * micro && forall f :: f in s.net ==> f.ts < micro
    ensures At(cap, steps + [Send(1000 * micro, micro)], c.(clock := 1000 * micro), DoSend(s, 1000 * micro, micro))
  {
    assert c.arrived + {} == c.arrived;
    AtOne(cap, steps, c, s, Send(1000 * micro, micro), DoSend(s, 1000 * micro, micro));
  }

  lemma SendLoaded(cap: nat, steps: seq<Step>, c: Ctx, s: Sys, window: nat, chunk: seq<byte>, p: nat, micro: nat)
    requires At(cap, steps, c, s.(snd := Queued(s.snd, chunk), written := s.written + chunk))
    requires c.base == 0 && c.clock <= 1000 * micro && forall f :: f in s.net ==> f.ts < micro
    requires Quiet(s.snd, window) && 0 < |chunk| <= window - (s.snd.sentOff - s.snd.cumAcked) && window <= 10
    requires Known(s.snd.live, s.snd.pm) && p in s.snd.pm
    requires PickData(s.snd.live, s.snd.pm, |chunk|, 1000 * micro) == Some(p)
    ensures At(cap, steps + [Send(1000 * micro, micro)], c.(clock := 1000 * micro), Loaded(s, chunk, p, micro))
    ensures Quiet(Loaded(s, chunk, p, micro).snd, window)
  {
    var u := s.(snd := Queued(s.snd, chunk), written := s.written + chunk);
    AtSound(cap, steps, c, u);
    ChunkSent(s, window, chunk, p, micro);
    SendNow(cap, steps, c, u, micro);
  }

  lemma Load(cap: nat, steps: seq<Step>, c: Ctx, s: Sys, window: nat, chunk: seq<byte>, p: nat, micro: nat)
    requires At(cap, steps, c, s)
    requires c.base == 0 && c.clock <= 1000 * micro && forall f :: f in s.net ==> f.ts < micro
    requires Quiet(s.snd, window) && 0 < |chunk| <= window - (s.snd.sentOff - s.snd.cumAcked) && window <= 10
    requires Known(s.snd.live, s.snd.pm) && p in s.snd.pm
    requires PickData(s.snd.live, s.snd.pm, |chunk|, 1000 * micro) == Some(p)
    ensures At(cap, steps + Chunk(chunk, micro), c.(clock := 1000 * micro), Loaded(s, chunk, p, micro))
    ensures Quiet(Loaded(s, chunk, p, micro).snd, window)
  {
    WriteNow(cap, steps, c, s, chunk);
    SendLoaded(cap, steps + [Write(chunk, 10)], c, s, window, chunk, p, micro);
    assert steps + [Write(chunk, 10)] + [Send(1000 * micro, micro)] == steps + Chunk(chunk, micro);
  }

  // ---------- the start ----------

  /** The first acknowledgement, heard. */
  function Opening(w: nat): seq<Step> {
    [EmitAck, DeliverAck(AckFrame(0, 0, 0, w, 0, []), 0, 0, 0)]
  }

  /** The system when the sender has heard of a window of w. */
  function Opened(w: nat): Sys {
    var s := Initial(w, 0);
    s.(snd := s.snd.(gotPeerAck := true, advWindow := w, gotWindow := true),
       acks := {AckFrame(0, 0, 0, w, 0, [])}, ackSeq := 1)
  }

  lemma OpeningApplied(u: Sender<nat>, a: AckFrame)
    requires Known(u.live, u.pm) && !u.gotPeerAck && u.peerAckSeq == 0
    requires u.cumAcked == 0 && u.sentOff == 0 && u.peerRanges == []
    requires a.cum == 0 && a.tsPath == 0 && a.seqNo == 0 && a.ranges == []
    ensures HearAck(u, a, 0, 0, 0) == u.(gotPeerAck := true, advWindow := a.window, gotWindow := true)
  {
    assert !Stale(u, a) && ValidAck(u, a);
    assert Sample(u, 0, a.tsEcho, 0) == u.pm;
    assert Normalize([]) == [];
  }

  lemma NewReady()
    ensures SenderReady(NewSender<nat>(0, 0, 0))
  {
  }

  lemma FirstSent(w: nat) returns (c: Ctx)
    ensures At(w, [EmitAck], c, Initial(w, 0).(acks := {AckFrame(0, 0, 0, w, 0, [])}, ackSeq := 1))
    ensures c.base == 0 && c.clock == 0 && c.arrived == {} && !c.due.pending
  {
    var i := Initial(w, 0);
    NewReady();
    assert Snapshot(i) == AckFrame(0, 0, 0, w, 0, []);
    assert {} + {Snapshot(i)} == {Snapshot(i)};
    c := After(Start(0), i, EmitAck);
    AtOne(w, [], Start(0), i, EmitAck, DoEmit(i));
    assert [] + [EmitAck] == [EmitAck];
  }

  lemma Opens(w: nat) returns (c: Ctx)
    ensures At(w, Opening(w), c, Opened(w))
    ensures c.base == 0 && c.clock == 0 && c.arrived == {} && !c.due.pending
  {
    var a := AckFrame(0, 0, 0, w, 0, []);
    var b := FirstSent(w);
    var r := Initial(w, 0).(acks := {a}, ackSeq := 1);
    NewReady();
    OpeningApplied(r.snd, a);
    c := After(b, r, DeliverAck(a, 0, 0, 0));
    AtOne(w, [EmitAck], b, r, DeliverAck(a, 0, 0, 0), Opened(w));
    assert [EmitAck] + [DeliverAck(a, 0, 0, 0)] == Opening(w);
  }

  // ---------- a stream that the check ends ----------

  const FIRST: DataFrame := DataFrame(0, [9], 0, 1)
  const SECOND: DataFrame := DataFrame(1, [1, 2, 3, 4], 0, 3)
  const THIRD: DataFrame := DataFrame(5, [5], 0, 4)

  /** One byte is sent, received and read; the capacity grows to five and the sender hears of it. */
  const GROWING: seq<Step> :=
    Opening(1) + Chunk([9], 1)
    + [DeliverData(FIRST), AppRead(1), Resize(5), EmitAck, DeliverAck(AckFrame(1, 1, 1, 5, 1, []), 0, 2000, 2)]

  /** Five more are sent in two frames; the capacity falls back to one between their arrivals. */
  const SHRINKING: seq<Step> :=
    GROWING + Chunk([1, 2, 3, 4], 3) + Chunk([5], 4) + [DeliverData(SECOND), Resize(1), DeliverData(THIRD)]

  /** So much is known once the first byte is out. */
  lemma FirstLoaded() returns (c: Ctx, s: Sys)
    ensures At(1, Opening(1) + Chunk([9], 1), c, s)
    ensures c.base == 0 && c.clock == 1000 && c.arrived == {} && s.net == {FIRST} && s.buf == NewBuf(1) && s.out == []
    ensures !s.down && s.maxCap == 1 && Quiet(s.snd, 1) && s.snd.sentOff == 1 && s.snd.live == [0] && s.ackSeq == 1
    ensures s.snd.gotPeerAck && s.snd.peerAckSeq == 0
  {
    c := Opens(1);
    OnlyPath(Opened(1).snd.pm, 0, 1, 1000);
    Load(1, Opening(1), c, Opened(1), 1, [9], 0, 1);
    c, s := c.(clock := 1000), Loaded(Opened(1), [9], 0, 1);
  }

  /** An arrival at the front, with nothing held. */
  lemma ArrivesAtFront(cap: nat, steps: seq<Step>, c: Ctx, s: Sys, f: DataFrame) returns (d: Ctx, t: Sys)
    requires At(cap, steps, c, s) && InOrder(c, s, f) && !s.down && f.off == s.buf.next && s.buf.segs == []
    requires f.off + |f.payload| - |s.out| <= 4 * s.buf.cap
    ensures At(cap, steps + [DeliverData(f)], d, t)
    ensures d == c.(arrived := c.arrived + {f}, due := c.due.(pending := true, quiet := false))
    ensures t == s.(buf := t.buf, lastTs := f.ts, lastPath := f.path + 1) && t.buf.cap == s.buf.cap
    ensures t.buf.next == f.off + |f.payload| && t.buf.segs == [] && t.buf.size == t.buf.next - |s.out|
  {
    AtSound(cap, steps, c, s);
    ArrivalSize(s, f);
    LeavesNothing(s, f);
    t := Receive(s, f).value;
    d := After(c, s, DeliverData(f));
    AtOne(cap, steps, c, s, DeliverData(f), t);
  }

  lemma LeavesNothing(s: Sys, f: DataFrame)
    requires SysInv(s) && f in s.net && f.off == s.buf.next && s.buf.segs == []
    ensures Receive(s, f).Some? && Receive(s, f).value.buf.segs == []
    ensures Reach(f.off + |f.payload|, s.buf.segs) == f.off + |f.payload|
    ensures FilledSize(s.buf, f.off + |f.payload|, |s.out|) == f.off + |f.payload| - |s.out|
  {
    ArrivalIsOffered(s, f);
    FillsHole(s.buf, s.written, |s.out|, f.off, f.payload, Offered(s.net));
  }

  lemma FirstRead() returns (c: Ctx, s: Sys)
    ensures At(1, Opening(1) + Chunk([9], 1) + [DeliverData(FIRST), AppRead(1), Resize(5)], c, s)
    ensures c.base == 0 && c.clock == 1000 && c.arrived == {FIRST} && c.due.pending && s.net == {FIRST}
    ensures s.buf.next == 1 && s.buf.segs == [] && s.buf.size == 0 && s.buf.cap == 5 && s.maxCap == 5
    ensures s.lastTs == 1 && s.lastPath == 1 && |s.out| == 1
    ensures !s.down && Quiet(s.snd, 1) && s.snd.sentOff == 1 && s.snd.live == [0] && s.ackSeq == 1
    ensures s.snd.gotPeerAck && s.snd.peerAckSeq == 0
  {
    var b, r := FirstLoaded();
    var steps := Opening(1) + Chunk([9], 1);
    c, s := ArrivesAtFront(1, steps, b, r, FIRST);
    steps := steps + [DeliverData(FIRST)];
    c, s := ReadsAll(1, steps, c, s);
    steps := steps + [AppRead(1)];
    c, s := Resizes(1, steps, c, s, 5);
    InARow(Opening(1) + Chunk([9], 1), DeliverData(FIRST), AppRead(1), Resize(5));
  }

  lemma InARow(steps: seq<Step>, x: Step, y: Step, z: Step)
    ensures steps + [x] + [y] + [z] == steps + [x, y, z]
  {
  }

  lemma Resizes(cap: nat, steps: seq<Step>, c: Ctx, s: Sys, k: int) returns (d: Ctx, t: Sys)
    requires At(cap, steps, c, s)
    ensures At(cap, steps + [Resize(k)], d, t) && t == DoResize(s, k)
    ensures d == c.(due := d.due) && (c.due.pending ==> d.due.pending)
  {
    AtReady(cap, steps, c, s);
    t := DoResize(s, k);
    d := After(c, s, Resize(k));
    assert c.arrived + {} == c.arrived;
    AtOne(cap, steps, c, s, Resize(k), t);
  }

  /** Everything in order is read; an acknowledgement stays asked for. */
  lemma ReadsAll(cap: nat, steps: seq<Step>, c: Ctx, s: Sys) returns (d: Ctx, t: Sys)
    requires At(cap, steps, c, s) && c.due.pending && s.out == [] && s.buf.segs == []
    ensures At(cap, steps + [AppRead(s.buf.next)], d, t)
    ensures d == c.(due := d.due) && d.due.pending
    ensures t == s.(buf := t.buf, out := t.out) && |t.out| == s.buf.next
    ensures t.buf.next == s.buf.next && t.buf.segs == [] && t.buf.size == 0 && t.buf.cap == s.buf.cap
  {
    AtSound(cap, steps, c, s);
    ReadKeeps(s.buf, s.written, 0, s.buf.next);
    t := DoRead(s, s.buf.next);
    d := After(c, s, AppRead(s.buf.next));
    assert c.arrived + {} == c.arrived;
    AtOne(cap, steps, c, s, AppRead(s.buf.next), t);
  }

  /** An acknowledgement that is due is sent at once and heard a little later; nothing is then outstanding. */
  lemma Acknowledges(cap: nat, steps: seq<Step>, c: Ctx, s: Sys, micro: nat) returns (d: Ctx, t: Sys)
    requires At(cap, steps, c, s) && c.base == 0 && c.clock <= 1000 * micro && c.due.pending && !s.down
    requires s.buf.next == s.snd.sentOff && s.buf.size == 0 && s.buf.cap > 0
    requires !s.snd.closed && s.snd.live == [0] && s.snd.pendingBytes == 0
    requires s.snd.gotPeerAck && s.ackSeq - s.snd.peerAckSeq <= MAX_ACK_SEQ_ADVANCE
    ensures At(cap, steps + [EmitAck, DeliverAck(Snapshot(s), 0, 1000 * micro, micro)], d, t)
    ensures d.base == 0 && d.clock == 1000 * micro && d.arrived == c.arrived && !d.due.pending
    ensures t == s.(snd := t.snd, acks := t.acks, ackSeq := s.ackSeq + 1)
    ensures Quiet(t.snd, s.buf.cap) && t.snd.cumAcked == t.snd.sentOff == s.snd.sentOff && t.snd.live == [0]
    ensures Known(t.snd.live, t.snd.pm) && t.snd.pm[0].inflight == 0
  {
    AtSound(cap, steps, c, s);
    NotYetHeard(s);
    var b, r := SendsAck(cap, steps, c, s);
    d, t := HearsAck(cap, steps + [EmitAck], b, r, Snapshot(s), micro);
    AtSound(cap, steps + [EmitAck] + [DeliverAck(Snapshot(s), 0, 1000 * micro, micro)], d, t);
    Settles(t);
    assert steps + [EmitAck] + [DeliverAck(Snapshot(s), 0, 1000 * micro, micro)]
        == steps + [EmitAck, DeliverAck(Snapshot(s), 0, 1000 * micro, micro)];
  }

  lemma SendsAck(cap: nat, steps: seq<Step>, c: Ctx, s: Sys) returns (d: Ctx, t: Sys)
    requires At(cap, steps, c, s) && c.due.pending && !s.down
    ensures At(cap, steps + [EmitAck], d, t) && t == s.(acks := s.acks + {Snapshot(s)}, ackSeq := s.ackSeq + 1)
    ensures d == c.(due := d.due) && !d.due.pending
  {
    AtReady(cap, steps, c, s);
    t := DoEmit(s);
    d := After(c, s, EmitAck);
    assert c.arrived + {} == c.arrived;
    AtOne(cap, steps, c, s, EmitAck, t);
  }

  lemma HearsAck(cap: nat, steps: seq<Step>, c: Ctx, s: Sys, a: AckFrame, micro: nat) returns (d: Ctx, t: Sys)
    requires At(cap, steps, c, s) && c.base == 0 && c.clock <= 1000 * micro && a in s.acks && a.seqNo == s.ackSeq - 1
    requires InReach(s, a.seqNo) && s.snd.live == [0] && s.snd.gotPeerAck && s.snd.peerAckSeq < a.seqNo
    ensures At(cap, steps + [DeliverAck(a, 0, 1000 * micro, micro)], d, t)
    ensures d == c.(clock := 1000 * micro) && Heard(s, t)
    ensures t.snd.gotWindow && t.snd.cumAcked == a.cum && t.snd.advWindow == a.window
  {
    AtSound(cap, steps, c, s);
    NewestIsValid(s, a);
    HeardKeeps(s, a, 1000 * micro, micro);
    t := DoHear(s, a, 0, 1000 * micro, micro);
    d := After(c, s, DeliverAck(a, 0, 1000 * micro, micro));
    assert c.arrived + {} == c.arrived;
    AtOne(cap, steps, c, s, DeliverAck(a, 0, 1000 * micro, micro), t);
  }

  lemma NoRanges(rs: seq<ByteRange>, x: nat)
    requires Canonical(rs) && forall i :: 0 <= i < |rs| ==> rs[i].start > x && rs[i].end <= x
    ensures rs == []
  {
    if rs != [] {
      FirstRange(rs);
    }
  }

  lemma FirstRange(rs: seq<ByteRange>)
    requires Canonical(rs) && rs != []
    ensures rs[0].start < rs[0].end
  {
  }

  lemma NotYetHeard(s: Sys)
    requires SysInv(s) && s.snd.gotPeerAck
    ensures s.snd.peerAckSeq < s.ackSeq
  {
    var a :| a in s.acks && LinkedTo(s.snd, a);
    assert AckInv(a, s);
  }

  /** A sender with nothing outstanding and nothing queued. */
  lemma Settles(s: Sys)
    requires SysInv(s) && !s.snd.closed && s.snd.gotWindow && s.snd.cumAcked == s.snd.sentOff == s.buf.next
    requires s.snd.pendingBytes == 0 && s.snd.live != []
    ensures Quiet(s.snd, s.snd.advWindow) && Known(s.snd.live, s.snd.pm)
    ensures forall p :: p in s.snd.live ==> s.snd.pm[p].inflight == 0
  {
    NothingOutstanding(s);
    NoRanges(s.snd.peerRanges, s.snd.sentOff);
    assert QueueOk(s.snd.sendQ, s.snd.qHead, 0);
  }

  lemma Grows() returns (c: Ctx, s: Sys)
    ensures At(1, GROWING, c, s)
    ensures c.base == 0 && c.clock == 2000 && c.arrived == {FIRST} && s.net == {FIRST}
    ensures s.buf.next == 1 && s.buf.segs == [] && s.buf.size == 0 && s.buf.cap == 5 && s.maxCap == 5 && |s.out| == 1
    ensures !s.down && Quiet(s.snd, 5) && s.snd.sentOff == 1 && s.snd.cumAcked == 1 && s.snd.live == [0]
    ensures Known(s.snd.live, s.snd.pm) && s.snd.pm[0].inflight == 0
  {
    var b, r := FirstRead();
    var steps := Opening(1) + Chunk([9], 1) + [DeliverData(FIRST), AppRead(1), Resize(5)];
    assert Snapshot(r) == AckFrame(1, 1, 1, 5, 1, []);
    c, s := Acknowledges(1, steps, b, r, 2);
    FiveInARow(Opening(1) + Chunk([9], 1), DeliverData(FIRST), AppRead(1), Resize(5),
               EmitAck, DeliverAck(AckFrame(1, 1, 1, 5, 1, []), 0, 2000, 2));
  }

  lemma FiveInARow(steps: seq<Step>, v: Step, w: Step, x: Step, y: Step, z: Step)
    ensures steps + [v, w, x] + [y, z] == steps + [v, w, x, y, z]
  {
  }

  lemma TwoUnderWay() returns (c: Ctx, s: Sys)
    ensures At(1, GROWING + Chunk([1, 2, 3, 4], 3) + Chunk([5], 4), c, s)
    ensures c.base == 0 && c.arrived == {FIRST} && s.net == {FIRST, SECOND, THIRD}
    ensures s.buf.next == 1 && s.buf.segs == [] && s.buf.cap == 5 && |s.out| == 1 && !s.down
  {
    var b, r := Grows();
    OnlyPath(r.snd.pm, 0, 4, 3000);
    Load(1, GROWING, b, r, 5, [1, 2, 3, 4], 0, 3);
    var d, t := b.(clock := 3000), Loaded(r, [1, 2, 3, 4], 0, 3);
    OnlyPath(t.snd.pm, 0, 1, 4000);
    Load(1, GROWING + Chunk([1, 2, 3, 4], 3), d, t, 5, [5], 0, 4);
    c, s := d.(clock := 4000), Loaded(t, [5], 0, 4);
  }

  /** The last arrival: one byte at the front of a buffer that holds four, with a capacity of one. */
  lemma ThirdEnds(cap: nat, steps: seq<Step>, c: Ctx, s: Sys, f: DataFrame) returns (d: Ctx, t: Sys)
    requires At(cap, steps, c, s) && InOrder(c, s, f) && !s.down && f.off == s.buf.next && s.buf.segs == []
    requires f.off + |f.payload| - |s.out| > 4 * s.buf.cap
    ensures At(cap, steps + [DeliverData(f)], d, t) && t.down
  {
    AtSound(cap, steps, c, s);
    DownExactly(s, f);
    LeavesNothing(s, f);
    t := Receive(s, f).value;
    d := After(c, s, DeliverData(f));
    AtOne(cap, steps, c, s, DeliverData(f), t);
  }

  /**
   * One path throughout. A byte is received and read, the capacity grows from one to five, four and one more
   * bytes are sent into the window that was announced, and the capacity falls back to one between their
   * arrivals.
   */
  lemma ShrinkingRun()
    ensures var r := Go(Start(0), Initial(1, 0), SHRINKING);
      r.Some? && r.value.1.down && RunFrom(Initial(1, 0), SHRINKING) == Some(r.value.1)
  {
    var c, s := TwoUnderWay();
    var steps := GROWING + Chunk([1, 2, 3, 4], 3) + Chunk([5], 4);
    c, s := ArrivesAtFront(1, steps, c, s, SECOND);
    c, s := Resizes(1, steps + [DeliverData(SECOND)], c, s, 1);
    c, s := ThirdEnds(1, steps + [DeliverData(SECOND)] + [Resize(1)], c, s, THIRD);
    InARow(steps, DeliverData(SECOND), Resize(1), DeliverData(THIRD));
    GoesAsRun(Start(0), Initial(1, 0), SHRINKING);
  }

  // ---------- a buffer beyond its capacity ----------

  const HEAD: DataFrame := DataFrame(0, [1], 0, 1)
  const MIDDLE: DataFrame := DataFrame(1, [2], 0, 2)
  const TAIL: DataFrame := DataFrame(2, [3, 4], 1, 3)
  const COPY: DataFrame := DataFrame(2, [3, 4], 2, 4)
  const TAIL_SEG: Seg := Seg(2, [3, 4])

  /** Two frames go out on the first path and one on a second, where it arrives; then that path is lost. */
  const LOSING: seq<Step> :=
    Opening(4) + Chunk([1], 1) + Chunk([2], 2) + [Attach(1, 2000)] + Chunk([3, 4], 3)
    + [DeliverData(TAIL), Attach(2, 3000), Drop(1)]

  /** Its frame is sent again on a third and arrives, and after it the first frame of all. */
  const EXCEEDING: seq<Step> := LOSING + [Send(4000, 4), DeliverData(COPY), DeliverData(HEAD)]

  function Sent1(off: nat, data: seq<byte>, p: nat, micro: nat): SendSeg<nat> {
    SendSeg(off, data, Some(p), 1000 * micro, false)
  }

  lemma TwoOnFirst() returns (c: Ctx, s: Sys)
    ensures At(4, Opening(4) + Chunk([1], 1) + Chunk([2], 2), c, s)
    ensures c.base == 0 && c.clock == 2000 && c.arrived == {} && s.net == {HEAD, MIDDLE}
    ensures s.buf == NewBuf(4) && s.out == [] && !s.down && s.maxCap == 4
    ensures Quiet(s.snd, 4) && s.snd.sentOff == 2 && s.snd.cumAcked == 0 && s.snd.live == [0] && s.snd.known == [0]
    ensures s.snd.segs == [Sent1(0, [1], 0, 1), Sent1(1, [2], 0, 2)] && Cold(s.snd.pm, 0, 2)
  {
    c := Opens(4);
    s := Opened(4);
    OnlyPath(s.snd.pm, 0, 1, 1000);
    Load(4, Opening(4), c, s, 4, [1], 0, 1);
    c, s := c.(clock := 1000), Loaded(s, [1], 0, 1);
    OnlyPath(s.snd.pm, 0, 1, 2000);
    Load(4, Opening(4) + Chunk([1], 1), c, s, 4, [2], 0, 2);
    c, s := c.(clock := 2000), Loaded(s, [2], 0, 2);
  }

  lemma Attaches(cap: nat, steps: seq<Step>, c: Ctx, s: Sys, p: nat, now: int) returns (d: Ctx, t: Sys)
    requires At(cap, steps, c, s) && c.clock <= now && !s.snd.closed && p !in s.snd.known
    ensures At(cap, steps + [Attach(p, now)], d, t) && d == c.(clock := now)
    ensures t == s.(snd := s.snd.(live := s.snd.live + [p], known := s.snd.known + [p],
                                  pm := s.snd.pm[p := NewPath(p, now)]))
    ensures Cold(t.snd.pm, p, 0)
  {
    AtReady(cap, steps, c, s);
    t := s.(snd := AttachPath(s.snd, p, p, now));
    d := After(c, s, Attach(p, now));
    assert c.arrived + {} == c.arrived;
    AtOne(cap, steps, c, s, Attach(p, now), t);
  }

  lemma ThirdOnSecond() returns (c: Ctx, s: Sys)
    ensures At(4, Opening(4) + Chunk([1], 1) + Chunk([2], 2) + [Attach(1, 2000)] + Chunk([3, 4], 3), c, s)
    ensures c.base == 0 && c.clock == 3000 && c.arrived == {} && s.net == {HEAD, MIDDLE, TAIL}
    ensures s.buf == NewBuf(4) && s.out == [] && !s.down && s.maxCap == 4
    ensures Quiet(s.snd, 4) && s.snd.sentOff == 4 && s.snd.cumAcked == 0
    ensures s.snd.live == [0, 1] && s.snd.known == [0, 1]
    ensures s.snd.segs == [Sent1(0, [1], 0, 1), Sent1(1, [2], 0, 2), Sent1(2, [3, 4], 1, 3)]
    ensures Cold(s.snd.pm, 0, 2) && 1 in s.snd.pm
  {
    c, s := TwoOnFirst();
    var steps := Opening(4) + Chunk([1], 1) + Chunk([2], 2);
    c, s := Attaches(4, steps, c, s, 1, 2000);
    assert [0] + [1] == [0, 1];
    LessLoaded(s.snd.pm, 0, 2, 1, 0, 2, 3000);
    Load(4, steps + [Attach(1, 2000)], c, s, 4, [3, 4], 1, 3);
    c, s := c.(clock := 3000), Loaded(s, [3, 4], 1, 3);
  }

  lemma HeldAtEnd(s: Sys, f: DataFrame)
    requires f.off > s.buf.next && |f.payload| > 0
    requires Sorted(s.buf.segs, s.buf.next + 1) && 0 <= s.buf.size + |f.payload| <= s.buf.cap
    requires forall g :: g in s.buf.segs ==> g.off <= f.off
    ensures var b := s.buf.(segs := s.buf.segs + [Seg(f.off, f.payload)], size := s.buf.size + |f.payload|);
      && Receive(s, f) == Some(s.(buf := b, lastTs := f.ts, lastPath := f.path + 1, down := false))
      && Sorted(b.segs, b.next + 1)
  {
    HoldBeyond(s.buf, Seg(f.off, f.payload));
    InsertLast(s.buf.segs, Seg(f.off, f.payload));
  }

  /** An arrival beyond the front that fits. */
  lemma ArrivesBeyond(cap: nat, steps: seq<Step>, c: Ctx, s: Sys, f: DataFrame) returns (d: Ctx, t: Sys)
    requires At(cap, steps, c, s) && InOrder(c, s, f) && !s.down && f.off > s.buf.next && |f.payload| > 0
    requires Sorted(s.buf.segs, s.buf.next + 1) && 0 <= s.buf.size + |f.payload| <= s.buf.cap
    requires forall g :: g in s.buf.segs ==> g.off <= f.off
    ensures At(cap, steps + [DeliverData(f)], d, t) && d == c.(arrived := c.arrived + {f}, due := d.due)
    ensures t == s.(buf := t.buf, lastTs := f.ts, lastPath := f.path + 1)
    ensures t.buf == s.buf.(segs := s.buf.segs + [Seg(f.off, f.payload)], size := s.buf.size + |f.payload|)
    ensures Sorted(t.buf.segs, t.buf.next + 1)
  {
    AtReady(cap, steps, c, s);
    HeldAtEnd(s, f);
    t := Receive(s, f).value;
    d := After(c, s, DeliverData(f));
    AtOne(cap, steps, c, s, DeliverData(f), t);
  }

  lemma Drops(cap: nat, steps: seq<Step>, c: Ctx, s: Sys, p: nat) returns (t: Sys)
    requires At(cap, steps, c, s) && p in s.snd.pm
    ensures At(cap, steps + [Drop(p)], c, t) && t == s.(snd := DropPath(s.snd, p))
  {
    AtReady(cap, steps, c, s);
    t := DoDrop(s, p);
    assert c.arrived + {} == c.arrived;
    AtOne(cap, steps, c, s, Drop(p), t);
  }

  /** The segment of the lost path waits to be sent again; the two others are where they were. */
  lemma LosesSecond(u: Sender<nat>, x: SendSeg<nat>, y: SendSeg<nat>, z: SendSeg<nat>)
    requires u.live == [0, 1, 2] && u.segs == [x, y, z] && 1 in u.pm && !u.closed
    requires x.path == Some(0) && y.path == Some(0) && z.path == Some(1)
    ensures var t := DropPath(u, 1);
      t.live == [0, 2] && t.segs == [x, y, z.(path := None)] && t == u.(live := t.live, segs := t.segs, pm := t.pm)
      && forall p :: p in u.pm && p != 1 ==> p in t.pm && t.pm[p] == u.pm[p]
  {
    assert [0, 1, 2][1..] == [1, 2] && [1, 2][1..] == [2];
    assert Remove([1, 2], 1) == [2];
    assert [x, y, z][1..] == [y, z] && [y, z][1..] == [z];
    assert Unassign([z], 1) == [z.(path := None)];
    assert Unassign([y, z], 1) == [y, z.(path := None)];
  }

  lemma Loses() returns (c: Ctx, s: Sys)
    ensures At(4, LOSING, c, s)
    ensures c.base == 0 && c.clock == 3000 && c.arrived == {TAIL} && s.net == {HEAD, MIDDLE, TAIL}
    ensures s.buf == NewBuf(4).(segs := [TAIL_SEG], size := 2) && s.out == [] && !s.down && s.maxCap == 4
    ensures !s.snd.closed && s.snd.gotWindow && s.snd.peerRanges == [] && s.snd.live == [0, 2]
    ensures s.snd.segs == [Sent1(0, [1], 0, 1), Sent1(1, [2], 0, 2), Sent1(2, [3, 4], 1, 3).(path := None)]
    ensures Cold(s.snd.pm, 0, 2) && Cold(s.snd.pm, 2, 0)
  {
    c, s := ThirdOnSecond();
    var steps := Opening(4) + Chunk([1], 1) + Chunk([2], 2) + [Attach(1, 2000)] + Chunk([3, 4], 3);
    c, s := ArrivesBeyond(4, steps, c, s, TAIL);
    assert [] + [TAIL_SEG] == [TAIL_SEG];
    c, s := Attaches(4, steps + [DeliverData(TAIL)], c, s, 2, 3000);
    assert [0, 1] + [2] == [0, 1, 2];
    LosesSecond(s.snd, s.snd.segs[0], s.snd.segs[1], s.snd.segs[2]);
    s := Drops(4, steps + [DeliverData(TAIL)] + [Attach(2, 3000)], c, s, 1);
    InARow(steps, DeliverData(TAIL), Attach(2, 3000), Drop(1));
  }

  lemma {:induction false} LastPooled(segs: seq<SendSeg<nat>>, z: SendSeg<nat>)
    requires AllAssigned(segs) && Pooled(z) && |z.data| > 0
    ensures Scan(segs + [z], []) == (segs + [z], Some(Hole(|segs|, z.off, SegEnd(z))))
  {
    if segs == [] {
      assert segs + [z] == [z];
    } else {
      LastPooled(segs[1..], z);
      assert (segs + [z])[1..] == segs[1..] + [z];
      assert [segs[0]] + (segs[1..] + [z]) == segs + [z];
    }
  }

  /** What waits goes out whole on the idle one of two paths. */
  lemma WaitingGoes(u: Sender<nat>, segs: seq<SendSeg<nat>>, z: SendSeg<nat>, now: int)
    requires SenderReady(u) && !u.closed && u.gotWindow && u.peerRanges == [] && u.live == [0, 2]
    requires u.segs == segs + [z] && AllAssigned(segs) && Pooled(z) && 0 < |z.data| <= MAX_FRAME_PAYLOAD
    requires Cold(u.pm, 0, 2) && Cold(u.pm, 2, 0)
    ensures TrySend(u, now).1 == Frame(z.off, z.data, 2)
  {
    LastPooled(segs, z);
    var h := Hole(|segs|, z.off, SegEnd(z));
    assert u.segs[|segs|] == z;
    LessLoaded(u.pm, 0, 2, 2, 0, |z.data|, now);
    HoleGoesTo(u, h, now, Some(2));
    assert z.data[0..|z.data|] == z.data;
  }

  lemma Resends() returns (c: Ctx, s: Sys)
    ensures At(4, LOSING + [Send(4000, 4)], c, s)
    ensures c.arrived == {TAIL} && s.net == {HEAD, MIDDLE, TAIL, COPY}
    ensures s.buf == NewBuf(4).(segs := [TAIL_SEG], size := 2) && s.out == [] && !s.down && s.maxCap == 4
  {
    var b, r := Loses();
    AtReady(4, LOSING, b, r);
    var segs := r.snd.segs[..2];
    assert r.snd.segs == segs + [r.snd.segs[2]];
    assert segs[1..][1..] == [];
    WaitingGoes(r.snd, segs, r.snd.segs[2], 4000);
    SendNow(4, LOSING, b, r, 4);
    c, s := b.(clock := 4000), DoSend(r, 4000, 4);
  }

  lemma HeadLast(cap: nat, steps: seq<Step>, c: Ctx, s: Sys) returns (d: Ctx, t: Sys)
    requires At(cap, steps, c, s) && InOrder(c, s, HEAD) && !s.down && s.out == []
    requires s.buf == NewBuf(4).(segs := [TAIL_SEG, TAIL_SEG], size := 4)
    ensures At(cap, steps + [DeliverData(HEAD)], d, t) && t.buf.size == 5 && t.buf.cap == 4 && t.maxCap == s.maxCap
  {
    AtSound(cap, steps, c, s);
    ArrivalSize(s, HEAD);
    TwoCopiesBeyond();
    t := Receive(s, HEAD).value;
    d := After(c, s, DeliverData(HEAD));
    AtOne(cap, steps, c, s, DeliverData(HEAD), t);
  }

  lemma TwoCopiesBeyond()
    ensures FilledSize(NewBuf(4).(segs := [TAIL_SEG, TAIL_SEG], size := 4), 1, 0) == 5
  {
    var held := [TAIL_SEG, TAIL_SEG];
    assert held[1..] == [TAIL_SEG] && [TAIL_SEG][1..] == [];
    assert Reach(1, held) == 1 && Beyond([TAIL_SEG], 1) == [TAIL_SEG] && TotalLen([TAIL_SEG]) == 2;
    assert Beyond(held, 1) == held && TotalLen(held) == 4;
  }

  /**
   * The capacity is four throughout. The frame [2,4) arrives on a path that is then lost, before the sender
   * has heard of it; its copy arrives on another, and after it [0,1): one byte is in order and two copies of
   * two bytes wait.
   */
  lemma ExceedingRun()
    ensures var r := Go(Start(0), Initial(4, 0), EXCEEDING);
      && r.Some? && RunFrom(Initial(4, 0), EXCEEDING) == Some(r.value.1)
      && r.value.1.maxCap == 4 && r.value.1.buf.cap == 4 && r.value.1.buf.size == 5
  {
    var c, s := Resends();
    var steps := LOSING + [Send(4000, 4)];
    c, s := ArrivesBeyond(4, steps, c, s, COPY);
    assert [TAIL_SEG] + [TAIL_SEG] == [TAIL_SEG, TAIL_SEG];
    c, s := HeadLast(4, steps + [DeliverData(COPY)], c, s);
    InARow(LOSING, Send(4000, 4), DeliverData(COPY), DeliverData(HEAD));
    GoesAsRun(Start(0), Initial(4, 0), EXCEEDING);
  }
}
