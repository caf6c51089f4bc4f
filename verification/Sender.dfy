/**
 * The sending half of a stream as a value and as steps on it (stream.go). P is the identity of a
 * path: a reference for the Stream object, a number for the two-endpoint system.
 */
module Sender {
  import opened Base
  import opened Intervals
  import opened Paths
  import opened Scheduler

  const MAX_ACK_SEQ_ADVANCE: nat := 1048576

  /** A sent, unreleased run of bytes; no path means it waits to be sent again. */
  datatype SendSeg<P> = SendSeg(off: nat, data: seq<byte>, path: Option<P>, sentAt: int, sacked: bool)

  function SegEnd<P>(s: SendSeg<P>): nat {
    s.off + |s.data|
  }

  /** In the resend pool and not known to be at the receiver. */
  predicate Pooled<P>(s: SendSeg<P>) {
    s.path.None? && !s.sacked
  }

  datatype Sender<P> = Sender(
    sendQ: seq<seq<byte>>, qHead: nat, pendingBytes: int,
    sentOff: nat, cumAcked: nat, segs: seq<SendSeg<P>>,
    advWindow: nat, gotWindow: bool, peerAckSeq: nat, gotPeerAck: bool, peerRanges: seq<ByteRange>,
    /** Live paths in list order, and the state of every path ever attached. */
    live: seq<P>, known: seq<P>, pm: map<P, PathSt>,
    closed: bool,
    /** Bytes released while no path was charged with them. */
    unassigned: nat)

  datatype AckFrame = AckFrame(cum: nat, tsEcho: int, tsPath: nat, window: nat, seqNo: nat, ranges: seq<ByteRange>)

  // ---------- Write ----------

  /** One pass of the Write loop with room for at least one byte, or none. */
  function WriteSome<P>(s: Sender<P>, b: seq<byte>, bufCap: int): (r: (nat, Sender<P>))
    ensures r.0 <= |b|
  {
    var room := bufCap - (s.pendingBytes + (s.sentOff - s.cumAcked));
    if s.closed || room <= 0 || b == [] then
      (0, s)
    else
      var n := Min(room, |b|);
      (n, s.(sendQ := s.sendQ + [b[..n]], pendingBytes := s.pendingBytes + n))
  }

  /** The queue's unsent bytes. */
  function QueueBytes(sendQ: seq<seq<byte>>, qHead: nat): seq<byte>
    requires sendQ != [] ==> qHead <= |sendQ[0]|
  {
    if sendQ == [] then [] else sendQ[0][qHead..] + Flatten(sendQ[1..])
  }

  predicate QueueOk(sendQ: seq<seq<byte>>, qHead: nat, pending: int) {
    if sendQ == [] then
      qHead == 0 && pending == 0
    else
      && qHead < |sendQ[0]|
      && (forall i :: 0 <= i < |sendQ| ==> |sendQ[i]| > 0)
      && pending == |QueueBytes(sendQ, qHead)|
  }

  // ---------- the resend pool ----------

  /** A hole of segment idx. */
  datatype Hole = Hole(idx: nat, start: nat, end: nat)

  function Shift(h: Option<Hole>): Option<Hole> {
    match h
    case None => None
    case Some(x) => Some(x.(idx := x.idx + 1))
  }

  /** Finds the first pooled segment with a hole; pooled segments without one are marked on the way. */
  function Scan<P>(segs: seq<SendSeg<P>>, rs: seq<ByteRange>): (seq<SendSeg<P>>, Option<Hole>) {
    if segs == [] then
      ([], None)
    else
      var s := segs[0];
      var (tail, h) := Scan(segs[1..], rs);
      if !Pooled(s) then
        ([s] + tail, Shift(h))
      else
        var (a, b) := HoleFrom(s.off, SegEnd(s), rs);
        if a < b then (segs, Some(Hole(0, a, b))) else ([s.(sacked := true)] + tail, Shift(h))
  }

  /** The pieces that replace a segment when [hs, hs + n) of it goes out on p. */
  function Pieces<P>(s: SendSeg<P>, hs: nat, n: nat, p: P, now: int): seq<SendSeg<P>>
    requires s.off <= hs && hs + n <= SegEnd(s)
  {
    var d0 := hs - s.off;
    (if d0 > 0 then [SendSeg(s.off, s.data[..d0], None, 0, true)] else [])
    + [SendSeg(hs, s.data[d0..d0 + n], Some(p), now, false)]
    + (if d0 + n < |s.data| then [SendSeg(hs + n, s.data[d0 + n..], None, 0, false)] else [])
  }

  function Split<P>(segs: seq<SendSeg<P>>, i: nat, hs: nat, n: nat, p: P, now: int): seq<SendSeg<P>>
    requires i < |segs| && segs[i].off <= hs && hs + n <= SegEnd(segs[i])
  {
    segs[..i] + Pieces(segs[i], hs, n, p, now) + segs[i + 1..]
  }

  // ---------- trySend ----------

  datatype Sent<P> = Nothing | Frame(off: nat, payload: seq<byte>, path: P)

  function Charge<P(==)>(pm: map<P, PathSt>, p: P, n: int): map<P, PathSt>
    requires p in pm
  {
    pm[p := pm[p].(inflight := pm[p].inflight + n)]
  }

  predicate Runnable<P(==)>(s: Sender<P>) {
    && QueueOk(s.sendQ, s.qHead, s.pendingBytes) && Known(s.live, s.pm)
    && s.cumAcked <= s.sentOff
  }

  /** A hole as Scan returns it: inside a pooled segment of positive length. */
  ghost predicate HoleInside<P>(segs: seq<SendSeg<P>>, h: Hole) {
    && h.idx < |segs| && segs[h.idx].off <= h.start < h.end <= SegEnd(segs[h.idx])
    && Pooled(segs[h.idx])
  }

  lemma {:induction false} ScanFindsHole<P>(segs: seq<SendSeg<P>>, rs: seq<ByteRange>)
    requires forall i :: 0 <= i < |segs| ==> |segs[i].data| > 0
    ensures var (t, h) := Scan(segs, rs);
      |t| == |segs| && (h.Some? ==> HoleInside(t, h.value) && t[h.value.idx] == segs[h.value.idx])
  {
    if segs != [] {
      ScanFindsHole(segs[1..], rs);
    }
  }

  function ResendEnd(h: Hole): nat {
    Min(h.end, h.start + MAX_FRAME_PAYLOAD)
  }

  /** The part [h.start, h.start + n) of the hole goes out on p. */
  function CommitHole<P(==)>(s: Sender<P>, h: Hole, n: nat, p: P, now: int): Sender<P>
    requires p in s.pm && h.idx < |s.segs| && s.segs[h.idx].off <= h.start && h.start + n <= SegEnd(s.segs[h.idx])
  {
    s.(segs := Split(s.segs, h.idx, h.start, n, p, now), pm := Charge(s.pm, p, n))
  }

  function SendHole<P(==)>(s: Sender<P>, h: Hole, now: int): (Sender<P>, Sent<P>)
    requires Known(s.live, s.pm) && HoleInside(s.segs, h)
  {
    var seg := s.segs[h.idx];
    var n := ResendEnd(h) - h.start;
    var payload := seg.data[h.start - seg.off..h.start - seg.off + n];
    var p := PickData(s.live, s.pm, n, now);
    PickDataPrefersHealthy(s.live, s.pm, n, now);
    if p == None then
      (s, Nothing)
    else
      (CommitHole(s, h, n, p.value, now), Frame(h.start, payload, p.value))
  }

  /** The step, once the path is chosen. */
  lemma HoleGoesTo<P>(s: Sender<P>, h: Hole, now: int, p: Option<P>)
    requires Known(s.live, s.pm) && HoleInside(s.segs, h) && p == PickData(s.live, s.pm, ResendEnd(h) - h.start, now)
    ensures p == None ==> SendHole(s, h, now) == (s, Nothing)
    ensures p.Some? ==> p.value in s.pm
    ensures var seg, n := s.segs[h.idx], ResendEnd(h) - h.start;
      var payload := seg.data[h.start - seg.off..h.start - seg.off + n];
      p.Some? ==> SendHole(s, h, now) == (CommitHole(s, h, n, p.value, now), Frame(h.start, payload, p.value))
  {
    PickDataPrefersHealthy(s.live, s.pm, ResendEnd(h) - h.start, now);
  }

  /** How much new data the next frame may carry. */
  function NewLen<P>(s: Sender<P>): nat
    requires s.sendQ != [] && s.qHead <= |s.sendQ[0]|
    requires s.sentOff - s.cumAcked <= s.advWindow && s.cumAcked <= s.sentOff
  {
    Min(Min(|s.sendQ[0]| - s.qHead, s.advWindow - (s.sentOff - s.cumAcked)), MAX_FRAME_PAYLOAD)
  }

  /** The next n bytes of the queue's head go out on p. */
  function CommitNew<P(==)>(s: Sender<P>, n: nat, p: P, now: int): Sender<P>
    requires s.sendQ != [] && s.qHead + n <= |s.sendQ[0]| && p in s.pm
  {
    var used := s.qHead + n == |s.sendQ[0]|;
    var seg := SendSeg(s.sentOff, s.sendQ[0][s.qHead..s.qHead + n], Some(p), now, false);
    s.(sendQ := if used then s.sendQ[1..] else s.sendQ, qHead := if used then 0 else s.qHead + n,
       sentOff := s.sentOff + n, pendingBytes := s.pendingBytes - n,
       segs := s.segs + [seg], pm := Charge(s.pm, p, n))
  }

  function SendNew<P(==)>(s: Sender<P>, now: int): (Sender<P>, Sent<P>)
    requires Runnable(s)
  {
    if s.pendingBytes == 0 || s.sentOff - s.cumAcked >= s.advWindow then
      (s, Nothing)
    else
      var n := NewLen(s);
      var payload := s.sendQ[0][s.qHead..s.qHead + n];
      var p := PickData(s.live, s.pm, n, now);
      PickDataPrefersHealthy(s.live, s.pm, n, now);
      if p == None then
        (s, Nothing)
      else
        (CommitNew(s, n, p.value, now), Frame(s.sentOff, payload, p.value))
  }

  /** One DATA frame: a hole of the pool first, else new data inside the window. */
  function TrySend<P(==)>(s: Sender<P>, now: int): (Sender<P>, Sent<P>)
    requires Runnable(s) && forall i :: 0 <= i < |s.segs| ==> |s.segs[i].data| > 0
  {
    if s.closed || !s.gotWindow then
      (s, Nothing)
    else
      var (segs, h) := Scan(s.segs, s.peerRanges);
      ScanFindsHole(s.segs, s.peerRanges);
      if h.Some? then SendHole(s.(segs := segs), h.value, now) else SendNew(s.(segs := segs), now)
  }

  // ---------- acknowledgements ----------

  function FreeOne<P(==)>(pm: map<P, PathSt>, s: SendSeg<P>, n: nat, now: int): map<P, PathSt> {
    if s.path.Some? && s.path.value in pm then
      var q := pm[s.path.value];
      pm[s.path.value := if s.sacked then CreditDelivered(q, n, now) else OnDelivered(q, n, now)]
    else
      pm
  }

  function Unassigned<P>(s: SendSeg<P>, n: nat): nat {
    if s.path.None? then n else 0
  }

  /** Releases everything below cum; a segment that cum falls inside is cut. */
  function Free<P(==)>(segs: seq<SendSeg<P>>, pm: map<P, PathSt>, cum: nat, un: nat, now: int):
    (seq<SendSeg<P>>, map<P, PathSt>, nat)
  {
    if segs == [] then
      (segs, pm, un)
    else
      var s := segs[0];
      if SegEnd(s) <= cum then
        Free(segs[1..], FreeOne(pm, s, |s.data|, now), cum, un + Unassigned(s, |s.data|), now)
      else if s.off < cum then
        var trim := cum - s.off;
        ([s.(off := cum, data := s.data[trim..])] + segs[1..], FreeOne(pm, s, trim, now), un + Unassigned(s, trim))
      else
        (segs, pm, un)
  }

  lemma FreeTrims<P>(segs: seq<SendSeg<P>>, pm: map<P, PathSt>, cum: nat, un: nat, now: int)
    requires segs != [] && segs[0].off < cum < SegEnd(segs[0])
    ensures var s, trim := segs[0], cum - segs[0].off;
      Free(segs, pm, cum, un, now)
      == ([s.(off := cum, data := s.data[trim..])] + segs[1..], FreeOne(pm, s, trim, now), un + Unassigned(s, trim))
  {
  }

  predicate ValidAck<P>(s: Sender<P>, f: AckFrame) {
    var prev := if s.gotPeerAck then s.peerAckSeq else 0;
    && s.cumAcked <= f.cum <= s.sentOff
    && prev <= f.seqNo && f.seqNo - prev <= MAX_ACK_SEQ_ADVANCE
    && forall i :: 0 <= i < |f.ranges| ==> f.ranges[i].start > f.cum && f.ranges[i].end <= s.sentOff
  }

  predicate Stale<P>(s: Sender<P>, f: AckFrame) {
    s.gotPeerAck && f.seqNo <= s.peerAckSeq
  }

  function FindPath<P>(live: seq<P>, pm: map<P, PathSt>, id: int): Option<P>
    requires Known(live, pm)
  {
    if live == [] then None
    else if pm[live[0]].id == id then Some(live[0])
    else FindPath(live[1..], pm, id)
  }

  lemma {:induction false} FindPathIsLive<P>(live: seq<P>, pm: map<P, PathSt>, id: int)
    requires Known(live, pm)
    ensures var p := FindPath(live, pm, id); p.Some? ==> p.value in live && pm[p.value].id == id
  {
    if live != [] {
      FindPathIsLive(live[1..], pm, id);
    }
  }

  /** The round-trip sample an acknowledgement carries; timestamps are in microseconds. */
  function Sample<P(==)>(s: Sender<P>, tsPath: nat, tsEcho: int, nowTs: int): map<P, PathSt>
    requires Known(s.live, s.pm)
  {
    if tsPath == 0 || tsEcho == 0 then s.pm
    else
      var p := FindPath(s.live, s.pm, tsPath - 1);
      FindPathIsLive(s.live, s.pm, tsPath - 1);
      if p == None then s.pm else s.pm[p.value := NoteRTT(s.pm[p.value], (nowTs - tsEcho) * 1000, tsEcho)]
  }

  function ApplyAck<P(==)>(s: Sender<P>, f: AckFrame, now: int, nowTs: int): Sender<P>
    requires Known(s.live, s.pm)
  {
    var pm := Sample(s, f.tsPath, f.tsEcho, nowTs);
    var (segs, pm', un) := if f.cum > s.cumAcked then Free(s.segs, pm, f.cum, s.unassigned, now)
                           else (s.segs, pm, s.unassigned);
    s.(peerAckSeq := f.seqNo, gotPeerAck := true, cumAcked := f.cum, segs := segs, pm := pm', unassigned := un,
       advWindow := f.window, gotWindow := true, peerRanges := Normalize(f.ranges))
  }

  // ---------- soft failure ----------

  /** One segment under the sweep: covered, in time, or overdue. */
  function SweepSeg<P(==)>(s: SendSeg<P>, pm: map<P, PathSt>, rs: seq<ByteRange>, now: int, ts: int):
    (SendSeg<P>, map<P, PathSt>)
    requires s.path.Some? ==> s.path.value in pm
  {
    if s.sacked then
      (s, pm)
    else if Covered(rs, s.off, SegEnd(s)) then
      (s.(sacked := true), if s.path.Some? then Charge(pm, s.path.value, -|s.data|) else pm)
    else if s.path.None? || now - s.sentAt <= SuspectAfter(pm[s.path.value]) then
      (s, pm)
    else
      var p := s.path.value;
      (s.(path := None), Charge(pm[p := MarkSuspect(pm[p], now, ts)], p, -|s.data|))
  }

  predicate PathsKnown<P(==)>(segs: seq<SendSeg<P>>, pm: map<P, PathSt>) {
    segs != [] ==> (segs[0].path.Some? ==> segs[0].path.value in pm) && PathsKnown(segs[1..], pm)
  }

  lemma {:induction false} PathsKnownGrows<P>(segs: seq<SendSeg<P>>, pm: map<P, PathSt>, qm: map<P, PathSt>)
    requires PathsKnown(segs, pm) && pm.Keys <= qm.Keys
    ensures PathsKnown(segs, qm)
  {
    if segs != [] {
      PathsKnownGrows(segs[1..], pm, qm);
    }
  }

  /** What the steps of the sender take for granted. */
  ghost predicate SenderReady<P>(s: Sender<P>) {
    && Runnable(s) && PathsKnown(s.segs, s.pm)
    && forall i :: 0 <= i < |s.segs| ==> |s.segs[i].data| > 0
  }

  function Sweep<P(==)>(segs: seq<SendSeg<P>>, pm: map<P, PathSt>, rs: seq<ByteRange>, now: int, ts: int):
    (r: (seq<SendSeg<P>>, map<P, PathSt>))
    requires PathsKnown(segs, pm)
    ensures r.1.Keys == pm.Keys
    decreases |segs|
  {
    if segs == [] then
      (segs, pm)
    else
      var (s, qm) := SweepSeg(segs[0], pm, rs, now, ts);
      PathsKnownGrows(segs[1..], pm, qm);
      var (tail, rm) := Sweep(segs[1..], qm, rs, now, ts);
      ([s] + tail, rm)
  }

  /** Whether a live path has been suspect for longer than its timeout. */
  predicate TimedOut(s: PathSt, now: int) {
    s.suspect && s.suspectSince.Some? && now - s.suspectSince.value > Rto(s)
  }

  function TimedOutPaths<P>(live: seq<P>, pm: map<P, PathSt>, now: int): seq<P>
    requires Known(live, pm)
  {
    if live == [] then []
    else (if TimedOut(pm[live[0]], now) then [live[0]] else []) + TimedOutPaths(live[1..], pm, now)
  }

  function SweepAll<P(==)>(s: Sender<P>, now: int, ts: int): Sender<P>
    requires PathsKnown(s.segs, s.pm)
  {
    var (segs, pm) := Sweep(s.segs, s.pm, s.peerRanges, now, ts);
    s.(segs := segs, pm := pm)
  }

  // ---------- the path set ----------

  function Remove<P(==)>(xs: seq<P>, p: P): seq<P> {
    if xs == [] then [] else if xs[0] == p then xs[1..] else [xs[0]] + Remove(xs[1..], p)
  }

  /** Puts the segments of p back into the pool. */
  function Unassign<P(==)>(segs: seq<SendSeg<P>>, p: P): seq<SendSeg<P>> {
    if segs == [] then []
    else [if segs[0].path == Some(p) then segs[0].(path := None) else segs[0]] + Unassign(segs[1..], p)
  }

  /** Bytes in flight on p: its segments that are not known to be at the receiver. */
  function InFlight<P(==)>(segs: seq<SendSeg<P>>, p: P): nat {
    if segs == [] then 0
    else (if segs[0].path == Some(p) && !segs[0].sacked then |segs[0].data| else 0) + InFlight(segs[1..], p)
  }

  /** Every segment of p waits to be sent again, and p's account is released. */
  function PoolPath<P(==)>(s: Sender<P>, p: P): Sender<P>
    requires p in s.pm
  {
    s.(segs := Unassign(s.segs, p), pm := Charge(s.pm, p, 0 - InFlight(s.segs, p)))
  }

  function DropPath<P(==)>(s: Sender<P>, p: P): Sender<P>
    requires p in s.pm
  {
    if p !in s.live then
      s
    else
      var t := PoolPath(s.(live := Remove(s.live, p)), p);
      t.(closed := t.closed || t.live == [])
  }

  function AttachPath<P(==)>(s: Sender<P>, p: P, id: nat, now: int): Sender<P> {
    if s.closed || p in s.known then s
    else s.(live := s.live + [p], known := s.known + [p], pm := s.pm[p := NewPath(id, now)])
  }

  function NewSender<P(==)>(p: P, id: nat, now: int): Sender<P> {
    Sender([], 0, 0, 0, 0, [], 0, false, 0, false, [], [p], [p], map[p := NewPath(id, now)], false, 0)
  }
}
