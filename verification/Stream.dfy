/** The sending half of a stream as the object stream.go keeps, with its paths as objects. */
module StreamObject {
  import opened Base
  import opened Intervals
  import opened Paths
  import Scheduler
  import opened Sender
  import opened SenderProofs
  import opened SenderInvariant
  import opened Progress

  function ShiftBy(h: Option<Hole>, n: nat): Option<Hole> {
    match h
    case None => None
    case Some(x) => Some(x.(idx := x.idx + n))
  }

  lemma Advance(goal: seq<SendSeg<Path>>, cur: seq<SendSeg<Path>>, i: nat, todo: seq<SendSeg<Path>>,
                rest: seq<SendSeg<Path>>)
    requires i < |cur| && goal == cur[..i] + todo && todo == [cur[i]] + rest
    ensures goal == cur[..i + 1] + rest
  {
  }

  /** The scan of segs has got to segment i and has turned segs into cur. */
  ghost predicate ScannedTo(segs: seq<SendSeg<Path>>, cur: seq<SendSeg<Path>>, i: nat, rs: seq<ByteRange>) {
    && i <= |cur| == |segs| && cur[i..] == segs[i..]
    && Scan(segs, rs).0 == cur[..i] + Scan(segs[i..], rs).0
    && Scan(segs, rs).1 == ShiftBy(Scan(segs[i..], rs).1, i)
  }

  lemma ScanStarts(segs: seq<SendSeg<Path>>, rs: seq<ByteRange>)
    ensures ScannedTo(segs, segs, 0, rs)
  {
    assert segs[0..] == segs && segs[..0] == [];
  }

  lemma ScanAdvances(segs: seq<SendSeg<Path>>, cur: seq<SendSeg<Path>>, i: nat, rs: seq<ByteRange>)
    requires ScannedTo(segs, cur, i, rs) && i < |segs|
    ensures cur[i] == segs[i]
    ensures var s := segs[i];
      var (a, b) := HoleFrom(s.off, SegEnd(s), rs);
      if !Pooled(s) then ScannedTo(segs, cur, i + 1, rs)
      else if a < b then Scan(segs, rs) == (cur, Some(Hole(i, a, b)))
      else ScannedTo(segs, cur[i := s.(sacked := true)], i + 1, rs)
  {
    var s, goal := segs[i], Scan(segs, rs).0;
    assert cur[i..][0] == segs[i..][0] == s && segs[i..][1..] == segs[i + 1..] && cur[i..][1..] == cur[i + 1..];
    var rest := Scan(segs[i + 1..], rs).0;
    var (a, b) := HoleFrom(s.off, SegEnd(s), rs);
    if !Pooled(s) {
      Advance(goal, cur, i, Scan(segs[i..], rs).0, rest);
    } else if a < b {
      assert cur == cur[..i] + cur[i..];
    } else {
      var next := cur[i := s.(sacked := true)];
      assert next[..i] == cur[..i] && next[i + 1..] == cur[i + 1..];
      Advance(goal, next, i, Scan(segs[i..], rs).0, rest);
    }
  }

  lemma ScanEnds(segs: seq<SendSeg<Path>>, cur: seq<SendSeg<Path>>, rs: seq<ByteRange>)
    requires ScannedTo(segs, cur, |segs|, rs)
    ensures Scan(segs, rs) == (cur, None)
  {
    assert segs[|segs|..] == [] && cur[..|segs|] + [] == cur;
  }

  /** The sweep of segs has got to segment i, with cur and qm so far. */
  ghost predicate SweptTo(segs: seq<SendSeg<Path>>, pm: map<Path, PathSt>, cur: seq<SendSeg<Path>>, qm: map<Path,
                          PathSt>,
                          i: nat, rs: seq<ByteRange>, now: int, ts: int)
    requires PathsKnown(segs, pm)
  {
    && i <= |cur| == |segs| && cur[i..] == segs[i..] && PathsKnown(segs[i..], qm)
    && Sweep(segs, pm, rs, now, ts).0 == cur[..i] + Sweep(segs[i..], qm, rs, now, ts).0
    && Sweep(segs, pm, rs, now, ts).1 == Sweep(segs[i..], qm, rs, now, ts).1
  }

  lemma SweepStarts(segs: seq<SendSeg<Path>>, pm: map<Path, PathSt>, rs: seq<ByteRange>, now: int, ts: int)
    requires PathsKnown(segs, pm)
    ensures SweptTo(segs, pm, segs, pm, 0, rs, now, ts)
  {
    assert segs[0..] == segs && segs[..0] == [];
  }

  lemma SweepAdvances(segs: seq<SendSeg<Path>>, pm: map<Path, PathSt>, cur: seq<SendSeg<Path>>, qm: map<Path, PathSt>,
                      i: nat, rs: seq<ByteRange>, now: int, ts: int)
    requires PathsKnown(segs, pm) && SweptTo(segs, pm, cur, qm, i, rs, now, ts) && i < |segs|
    ensures cur[i] == segs[i] && (cur[i].path.Some? ==> cur[i].path.value in qm)
    ensures var (s, rm) := SweepSeg(cur[i], qm, rs, now, ts); SweptTo(segs, pm, cur[i := s], rm, i + 1, rs, now, ts)
  {
    assert cur[i..][0] == segs[i..][0] == segs[i] && segs[i..][1..] == segs[i + 1..] && cur[i..][1..] == cur[i + 1..];
    var (s, rm) := SweepSeg(cur[i], qm, rs, now, ts);
    PathsKnownGrows(segs[i + 1..], qm, rm);
    var next := cur[i := s];
    assert next[..i] == cur[..i] && next[i + 1..] == cur[i + 1..];
    Advance(Sweep(segs, pm, rs, now, ts).0, next, i, Sweep(segs[i..], qm, rs, now, ts).0,
            Sweep(segs[i + 1..], rm, rs, now, ts).0);
  }

  lemma SweepEnds(segs: seq<SendSeg<Path>>, pm: map<Path, PathSt>, cur: seq<SendSeg<Path>>, qm: map<Path, PathSt>,
                  rs: seq<ByteRange>, now: int, ts: int)
    requires PathsKnown(segs, pm) && SweptTo(segs, pm, cur, qm, |segs|, rs, now, ts)
    ensures Sweep(segs, pm, rs, now, ts) == (cur, qm)
  {
    assert segs[|segs|..] == [] && cur[..|segs|] + [] == cur;
  }

  lemma {:induction false} RemoveAt(xs: seq<Path>, i: nat, p: Path)
    requires i < |xs| && xs[i] == p && p !in xs[..i]
    ensures Remove(xs, p) == xs[..i] + xs[i + 1..]
  {
    if i > 0 {
      assert xs[0] in xs[..i];
      assert xs[1..][..i - 1] == xs[..i][1..];
      RemoveAt(xs[1..], i - 1, p);
      assert xs[..i] == [xs[0]] + xs[1..][..i - 1];
    }
  }

  ghost predicate Apart(xs: seq<Path>, ys: seq<Path>) {
    forall x :: x in xs ==> x !in ys
  }

  lemma StayApart(drops: seq<Path>, i: nat, before: seq<Path>, after: seq<Path>)
    requires i < |drops| && Apart(drops[..i], before) && drops[i] !in after && forall q :: q in after ==> q in before
    ensures Apart(drops[..i + 1], after)
  {
    forall x | x in drops[..i + 1]
      ensures x !in after
    {
      assert x in drops[..i] || x == drops[i];
    }
  }

  lemma {:induction false} RemoveAbsent(xs: seq<Path>, p: Path)
    requires p !in xs
    ensures Remove(xs, p) == xs
  {
    if xs != [] {
      RemoveAbsent(xs[1..], p);
    }
  }

  class Stream {
    var sendBufCap: int
    var sendQ: seq<seq<byte>>
    var qHead: nat
    var pendingBytes: int
    var sentOff: nat
    var cumAcked: nat
    var unackedSegs: seq<SendSeg<Path>>
    var advWindow: nat
    var gotWindow: bool
    var peerAckSeq: nat
    var gotPeerAck: bool
    var peerRanges: seq<ByteRange>
    var paths: seq<Path>
    var closed: bool
    /** Every path ever attached, every byte ever accepted, and the bytes released in no path's name. */
    ghost var known: seq<Path>
    ghost var written: seq<byte>
    ghost var unassigned: nat

    ghost function Pm(): map<Path, PathSt>
      reads this`known, known
    {
      map p | p in known :: p.State()
    }

    ghost function View(): Sender<Path>
      reads this, known
    {
      Sender(sendQ, qHead, pendingBytes, sentOff, cumAcked, unackedSegs, advWindow, gotWindow, peerAckSeq, gotPeerAck,
             peerRanges, paths, known, Pm(), closed, unassigned)
    }

    ghost predicate Valid()
      reads this, known
    {
      SenderInv(View(), written)
    }

    constructor (p: Path, sendBufCap: int)
      requires p.State() == NewPath(p.id, 0)
      ensures Valid() && View() == NewSender(p, p.id, 0) && written == []
    {
      this.sendBufCap := sendBufCap;
      sendQ, qHead, pendingBytes, sentOff, cumAcked := [], 0, 0, 0, 0;
      unackedSegs, advWindow, gotWindow, peerAckSeq, gotPeerAck := [], 0, false, 0, false;
      peerRanges, paths, closed := [], [p], false;
      known, written, unassigned := [p], [], 0;
      new;
      assert Pm() == map[p := NewPath(p.id, 0)];
      assert Delivered([p], Pm()) == 0;
    }

    // ---------- Write ----------

    /** One pass of the Write loop. */
    method WriteChunk(b: seq<byte>) returns (n: nat)
      requires Valid()
      modifies this`sendQ, this`pendingBytes, this`written
      ensures Valid() && (n, View()) == WriteSome(old(View()), b, sendBufCap)
      ensures n <= |b| && written == old(written) + b[..n]
    {
      ghost var v := View();
      WriteKeeps(v, written, b, sendBufCap);
      n := Enqueue(b);
      ghost var t := View();
      written := written + b[..n];
      assert View() == t;
    }

    method Enqueue(b: seq<byte>) returns (n: nat)
      modifies this`sendQ, this`pendingBytes
      ensures (n, View()) == WriteSome(old(View()), b, sendBufCap) && n <= |b|
    {
      n := 0;
      if |b| > 0 && !closed {
        var outstanding := pendingBytes + (sentOff - cumAcked);
        var room := sendBufCap - outstanding;
        if room > 0 {
          n := Min(room, |b|);
          sendQ := sendQ + [b[..n]];
          pendingBytes := pendingBytes + n;
        }
      }
    }

    // ---------- choosing a path ----------

    method PickMinDrain(frameLen: nat, now: int, includeSuspect: bool) returns (best: Option<Path>)
      requires PathsAreKnown()
      ensures best == Scheduler.PickMinDrain(paths, Pm(), frameLen, now, includeSuspect)
    {
      best := None;
      for i := 0 to |paths|
        invariant best.Some? ==> best.value in known
        invariant Scheduler.MinDrainFrom(paths[i..], Pm(), best, frameLen, now, includeSuspect)
          == Scheduler.PickMinDrain(paths, Pm(), frameLen, now, includeSuspect)
      {
        var p := paths[i];
        assert paths[i..][0] == p && paths[i..][1..] == paths[i + 1..];
        if p.suspect && !includeSuspect {
          continue;
        }
        if p.inflight >= InflightCap(p.State(), now) {
          continue;
        }
        if best == None || Scheduler.Better(p.State(), best.value.State(), frameLen, now) {
          best := Some(p);
        }
      }
    }

    method PickData(frameLen: nat, now: int) returns (best: Option<Path>)
      requires PathsAreKnown()
      ensures best == Scheduler.PickData(paths, Pm(), frameLen, now)
      ensures best.Some? ==> best.value in paths
    {
      Scheduler.PickDataPrefersHealthy(paths, Pm(), frameLen, now);
      best := PickMinDrain(frameLen, now, false);
      if best == None {
        best := PickMinDrain(frameLen, now, true);
      }
    }

    method PickAck() returns (best: Option<Path>)
      requires PathsAreKnown()
      ensures best == Scheduler.PickAck(paths, Pm())
      ensures (best == None <==> paths == []) && (best.Some? ==> best.value in paths)
    {
      Scheduler.PickAckIsBest(paths, Pm());
      best := None;
      for i := 0 to |paths|
        invariant best.Some? ==> best.value in known
        invariant Scheduler.AckFrom(paths[i..], Pm(), best) == Scheduler.PickAck(paths, Pm())
      {
        var p := paths[i];
        assert paths[i..][0] == p && paths[i..][1..] == paths[i + 1..];
        if best == None {
          best := Some(p);
        } else if p.suspect != best.value.suspect {
          if !p.suspect {
            best := Some(p);
          }
        } else if p.hasRTT && (!best.value.hasRTT || p.srtt < best.value.srtt) {
          best := Some(p);
        }
      }
    }

    // ---------- trySend ----------

    /** nextResendLocked: marks covered pool segments until it finds one with a hole. */
    method NextResend() returns (h: Option<Hole>)
      modifies this`unackedSegs
      ensures (unackedSegs, h) == Scan(old(unackedSegs), peerRanges)
    {
      ghost var segs := unackedSegs;
      ScanStarts(segs, peerRanges);
      for i := 0 to |unackedSegs|
        invariant ScannedTo(segs, unackedSegs, i, peerRanges)
      {
        ScanAdvances(segs, unackedSegs, i, peerRanges);
        h := ScanOne(i);
        if h.Some? {
          return;
        }
      }
      ScanEnds(segs, unackedSegs, peerRanges);
      h := None;
    }

    /** The body of the scan: a pooled segment either has a hole or is all at the receiver. */
    method ScanOne(i: nat) returns (h: Option<Hole>)
      requires i < |unackedSegs|
      modifies this`unackedSegs
      ensures var s := old(unackedSegs)[i];
        var (a, b) := HoleFrom(s.off, SegEnd(s), peerRanges);
        && h == (if Pooled(s) && a < b then Some(Hole(i, a, b)) else None)
        && unackedSegs == if Pooled(s) && a >= b then old(unackedSegs)[i := s.(sacked := true)] else old(unackedSegs)
    {
      var s := unackedSegs[i];
      if s.path == None && !s.sacked {
        var a, b := FirstHole(s.off, s.off + |s.data|, peerRanges);
        if a < b {
          return Some(Hole(i, a, b));
        }
        unackedSegs := unackedSegs[i := s.(sacked := true)];
      }
      h := None;
    }

    method ChargePath(p: Path, n: nat)
      requires p in known
      modifies p`inflight
      ensures View() == old(View()).(pm := Charge(old(Pm()), p, n))
    {
      p.Charge(n);
    }

    ghost predicate AreKnown(ps: seq<Path>)
      reads this`known
    {
      forall p :: p in ps ==> p in known
    }

    ghost predicate PathsAreKnown()
      reads this
    {
      forall p :: p in paths ==> p in known
    }

    method SendHoleOn(h: Hole, now: int) returns (sent: Sent<Path>)
      requires PathsAreKnown() && HoleInside(unackedSegs, h)
      modifies this`unackedSegs, known
      ensures (View(), sent) == SendHole(old(View()), h, now)
    {
      ghost var v := View();
      var seg := unackedSegs[h.idx];
      var end := Min(h.end, h.start + MAX_FRAME_PAYLOAD);
      var d0 := h.start - seg.off;
      var payload := seg.data[d0..d0 + (end - h.start)];
      var p := PickData(|payload|, now);
      HoleGoesTo(v, h, now, p);
      if p == None {
        return Nothing;
      }
      SplitResend(h, |payload|, p.value, now);
      sent := Frame(h.start, payload, p.value);
    }

    /** splitResendLocked and the charge to the chosen path. */
    method SplitResend(h: Hole, n: nat, p: Path, now: int)
      requires p in known && h.idx < |unackedSegs|
      requires unackedSegs[h.idx].off <= h.start && h.start + n <= SegEnd(unackedSegs[h.idx])
      modifies this`unackedSegs, p`inflight
      ensures View() == CommitHole(old(View()), h, n, p, now)
    {
      var parts := CutParts(unackedSegs[h.idx], h.start, n, p, now);
      unackedSegs := unackedSegs[..h.idx] + parts + unackedSegs[h.idx + 1..];
      ChargePath(p, n);
    }

    method CutParts(rs: SendSeg<Path>, hs: nat, n: nat, p: Path, now: int) returns (parts: seq<SendSeg<Path>>)
      requires rs.off <= hs && hs + n <= SegEnd(rs)
      ensures parts == Pieces(rs, hs, n, p, now)
    {
      var d0 := hs - rs.off;
      parts := [];
      if d0 > 0 {
        parts := parts + [SendSeg(rs.off, rs.data[..d0], None, 0, true)];
      }
      parts := parts + [SendSeg(hs, rs.data[d0..d0 + n], Some(p), now, false)];
      var rem := d0 + n;
      if rem < |rs.data| {
        parts := parts + [SendSeg(hs + n, rs.data[rem..], None, 0, false)];
      }
    }

    method SendNewOn(now: int) returns (sent: Sent<Path>)
      requires Runnable(View())
      modifies this`sendQ, this`qHead, this`sentOff, this`pendingBytes, this`unackedSegs, known
      ensures (View(), sent) == SendNew(old(View()), now)
    {
      var unacked := sentOff - cumAcked;
      if pendingBytes == 0 || unacked >= advWindow {
        return Nothing;
      }
      var n := Min(Min(|sendQ[0]| - qHead, advWindow - unacked), MAX_FRAME_PAYLOAD);
      var off, payload := sentOff, sendQ[0][qHead..qHead + n];
      var p := PickData(n, now);
      if p == None {
        return Nothing;
      }
      TakeFromQueue(n, p.value, now);
      sent := Frame(off, payload, p.value);
    }

    method TakeFromQueue(n: nat, p: Path, now: int)
      requires sendQ != [] && qHead + n <= |sendQ[0]| && p in known
      modifies this`sendQ, this`qHead, this`sentOff, this`pendingBytes, this`unackedSegs, p`inflight
      ensures View() == CommitNew(old(View()), n, p, now)
    {
      ghost var v := View();
      unackedSegs := unackedSegs + [SendSeg(sentOff, sendQ[0][qHead..qHead + n], Some(p), now, false)];
      DequeueBytes(n);
      ghost var w := CommitNew(v, n, p, now);
      assert View() == w.(pm := v.pm);
      ChargePath(p, n);
    }

    method DequeueBytes(n: nat)
      requires sendQ != [] && qHead + n <= |sendQ[0]|
      modifies this`sendQ, this`qHead, this`sentOff, this`pendingBytes
      ensures var used := old(qHead) + n == |old(sendQ)[0]|;
        View() == old(View()).(sendQ := if used then old(sendQ)[1..] else old(sendQ),
                               qHead := if used then 0 else old(qHead) + n,
                               sentOff := old(sentOff) + n, pendingBytes := old(pendingBytes) - n)
    {
      AdvanceHead(n);
      ghost var v := View();
      sentOff := sentOff + n;
      pendingBytes := pendingBytes - n;
      assert View() == v.(sentOff := sentOff, pendingBytes := pendingBytes);
    }

    method AdvanceHead(n: nat)
      requires sendQ != [] && qHead + n <= |sendQ[0]|
      modifies this`sendQ, this`qHead
      ensures var used := old(qHead) + n == |old(sendQ)[0]|;
        View() == old(View()).(sendQ := if used then old(sendQ)[1..] else old(sendQ),
                               qHead := if used then 0 else old(qHead) + n)
    {
      qHead := qHead + n;
      if qHead == |sendQ[0]| {
        sendQ := sendQ[1..];
        qHead := 0;
      }
    }

    method TrySendOne(now: int) returns (sent: Sent<Path>)
      requires Valid()
      modifies this`sendQ, this`qHead, this`sentOff, this`pendingBytes, this`unackedSegs, known
      ensures Valid() && SenderReady(old(View())) && (View(), sent) == TrySend(old(View()), now)
    {
      ghost var v := View();
      SendKeeps(v, now, written);
      InvRunnable(v, written);
      sent := SendAny(now);
    }

    method SendAny(now: int) returns (sent: Sent<Path>)
      requires SenderReady(View())
      modifies this`sendQ, this`qHead, this`sentOff, this`pendingBytes, this`unackedSegs, known
      ensures (View(), sent) == TrySend(old(View()), now)
    {
      if closed || !gotWindow {
        return Nothing;
      }
      ScanFindsHole(unackedSegs, peerRanges);
      var h := NextResend();
      if h.Some? {
        sent := SendHoleOn(h.value, now);
      } else {
        sent := SendNewOn(now);
      }
    }

    // ---------- soft failure ----------

    method ReleasePath(p: Path, n: nat)
      requires p in known
      modifies p`inflight
      ensures View() == old(View()).(pm := Charge(old(Pm()), p, 0 - n))
    {
      p.Release(n);
    }

    method FailPath(p: Path, n: nat, now: int, ts: int)
      requires p in known
      modifies p
      ensures var pm := old(Pm()); Pm() == Charge(pm[p := MarkSuspect(pm[p], now, ts)], p, 0 - n)
    {
      p.Mark(now, ts);
      p.Release(n);
    }

    /** The body of the sweep: segment i is covered, in time, or overdue. */
    method SweepOne(i: nat, now: int, ts: int)
      requires i < |unackedSegs| && (unackedSegs[i].path.Some? ==> unackedSegs[i].path.value in known)
      modifies this`unackedSegs, known
      ensures |unackedSegs| == |old(unackedSegs)| && unackedSegs == old(unackedSegs)[i := unackedSegs[i]]
      ensures (unackedSegs[i], Pm()) == SweepSeg(old(unackedSegs)[i], old(Pm()), peerRanges, now, ts)
    {
      var seg := unackedSegs[i];
      if seg.sacked {
        return;
      }
      var covered := CoveredBy(peerRanges, seg.off, seg.off + |seg.data|);
      if covered {
        SackSeg(i);
      } else if seg.path.Some? && now - seg.sentAt > SuspectAfter(seg.path.value.State()) {
        PoolSeg(i, now, ts);
      }
    }

    method SackSeg(i: nat)
      requires i < |unackedSegs| && (unackedSegs[i].path.Some? ==> unackedSegs[i].path.value in known)
      modifies this`unackedSegs, known
      ensures var s := old(unackedSegs)[i];
        && unackedSegs == old(unackedSegs)[i := s.(sacked := true)]
        && Pm() == if s.path.Some? then Charge(old(Pm()), s.path.value, -|s.data|) else old(Pm())
    {
      var seg := unackedSegs[i];
      unackedSegs := unackedSegs[i := seg.(sacked := true)];
      if seg.path.Some? {
        ReleasePath(seg.path.value, |seg.data|);
      }
    }

    method PoolSeg(i: nat, now: int, ts: int)
      requires i < |unackedSegs| && unackedSegs[i].path.Some? && unackedSegs[i].path.value in known
      modifies this`unackedSegs, known
      ensures var s, pm := old(unackedSegs)[i], old(Pm());
        var p := s.path.value;
        && unackedSegs == old(unackedSegs)[i := s.(path := None)]
        && Pm() == Charge(pm[p := MarkSuspect(pm[p], now, ts)], p, -|s.data|)
    {
      var seg := unackedSegs[i];
      unackedSegs := unackedSegs[i := seg.(path := None)];
      FailPath(seg.path.value, |seg.data|, now, ts);
    }

    method CheckSoftFail(now: int, ts: int) returns (drops: seq<Path>)
      requires Valid()
      modifies this`unackedSegs, known
      ensures Valid() && PathsKnown(old(unackedSegs), old(Pm())) && View() == SweepAll(old(View()), now, ts)
      ensures drops == TimedOutPaths(paths, Pm(), now)
    {
      SweepAllKeeps(View(), now, ts, written);
      drops := SweepAndFindLate(now, ts);
    }

    method SweepAndFindLate(now: int, ts: int) returns (drops: seq<Path>)
      requires PathsKnown(unackedSegs, Pm()) && PathsAreKnown()
      modifies this`unackedSegs, known
      ensures View() == SweepAll(old(View()), now, ts)
      ensures drops == TimedOutPaths(paths, Pm(), now)
    {
      SweepSegs(now, ts);
      drops := LatePaths(now);
    }

    method LatePaths(now: int) returns (drops: seq<Path>)
      requires PathsAreKnown()
      ensures drops == TimedOutPaths(paths, Pm(), now)
    {
      drops := [];
      assert paths[0..] == paths;
      for i := 0 to |paths|
        invariant drops + TimedOutPaths(paths[i..], Pm(), now) == TimedOutPaths(paths, Pm(), now)
      {
        assert paths[i..][0] == paths[i] && paths[i..][1..] == paths[i + 1..];
        if TimedOut(paths[i].State(), now) {
          drops := drops + [paths[i]];
        }
      }
    }

    method SweepSegs(now: int, ts: int)
      requires PathsKnown(unackedSegs, Pm())
      modifies this`unackedSegs, known
      ensures (unackedSegs, Pm()) == Sweep(old(unackedSegs), old(Pm()), peerRanges, now, ts)
    {
      ghost var segs, pm := unackedSegs, Pm();
      SweepStarts(segs, pm, peerRanges, now, ts);
      var i := 0;
      while i < |unackedSegs|
        invariant PathsKnown(segs, pm)
        invariant SweptTo(segs, pm, unackedSegs, Pm(), i, peerRanges, now, ts)
      {
        ghost var cur, qm := unackedSegs, Pm();
        SweepAdvances(segs, pm, cur, qm, i, peerRanges, now, ts);
        SweepOne(i, now, ts);
        i := i + 1;
      }
      SweepEnds(segs, pm, unackedSegs, Pm(), peerRanges, now, ts);
    }

    // ---------- acknowledgements ----------

    method ValidateAck(f: AckFrame) returns (ok: bool)
      ensures ok == ValidAck(View(), f)
    {
      if f.cum < cumAcked || f.cum > sentOff {
        return false;
      }
      var prevSeq := 0;
      if gotPeerAck {
        prevSeq := peerAckSeq;
      }
      if f.seqNo < prevSeq || f.seqNo - prevSeq > MAX_ACK_SEQ_ADVANCE {
        return false;
      }
      for i := 0 to |f.ranges|
        invariant forall j :: 0 <= j < i ==> f.ranges[j].start > f.cum && f.ranges[j].end <= sentOff
      {
        if f.ranges[i].start <= f.cum || f.ranges[i].end > sentOff {
          return false;
        }
      }
      return true;
    }

    method FindPathById(id: int) returns (r: Option<Path>)
      requires PathsAreKnown()
      ensures r == FindPath(paths, Pm(), id)
    {
      assert paths[0..] == paths;
      for i := 0 to |paths|
        invariant FindPath(paths[i..], Pm(), id) == FindPath(paths, Pm(), id)
      {
        assert paths[i..][0] == paths[i] && paths[i..][1..] == paths[i + 1..];
        if paths[i].id == id {
          return Some(paths[i]);
        }
      }
      return None;
    }

    method NoteEcho(f: AckFrame, nowTs: int)
      requires PathsAreKnown()
      modifies known
      ensures Pm() == Sample(old(View()), f.tsPath, f.tsEcho, nowTs)
    {
      if f.tsPath != 0 && f.tsEcho != 0 {
        var q := FindPathById(f.tsPath - 1);
        FindPathIsLive(paths, Pm(), f.tsPath - 1);
        if q.Some? {
          q.value.NoteSample((nowTs - f.tsEcho) * 1000, f.tsEcho);
        }
      }
    }

    /** Books n released bytes of segment s on its path. */
    method CreditSeg(s: SendSeg<Path>, n: nat, now: int)
      requires s.path.Some? ==> s.path.value in known
      modifies known
      ensures Pm() == FreeOne(old(Pm()), s, n, now)
    {
      if s.path.Some? {
        if s.sacked {
          s.path.value.Credit(n, now);
        } else {
          s.path.value.Deliver(n, now);
        }
      }
    }

    method FreeAcked(now: int)
      requires PathsKnown(unackedSegs, Pm())
      modifies this`unackedSegs, this`unassigned, known
      ensures (unackedSegs, Pm(), unassigned) == Free(old(unackedSegs), old(Pm()), cumAcked, old(unassigned), now)
    {
      ghost var goal := Free(unackedSegs, Pm(), cumAcked, unassigned, now);
      while |unackedSegs| > 0
        invariant PathsKnown(unackedSegs, Pm())
        invariant Free(unackedSegs, Pm(), cumAcked, unassigned, now) == goal
        decreases |unackedSegs|
      {
        var f := unackedSegs[0];
        var end := f.off + |f.data|;
        if end <= cumAcked {
          FreeHead(now);
          continue;
        }
        if f.off < cumAcked {
          TrimHead(now);
        }
        return;
      }
    }

    method TrimHead(now: int)
      requires unackedSegs != [] && unackedSegs[0].off < cumAcked < SegEnd(unackedSegs[0])
      requires PathsKnown(unackedSegs, Pm())
      modifies this`unackedSegs, this`unassigned, known
      ensures (unackedSegs, Pm(), unassigned) == Free(old(unackedSegs), old(Pm()), cumAcked, old(unassigned), now)
    {
      var f := unackedSegs[0];
      var trim := cumAcked - f.off;
      FreeTrims(unackedSegs, Pm(), cumAcked, unassigned, now);
      CreditSeg(f, trim, now);
      unassigned := unassigned + Unassigned(f, trim);
      unackedSegs := [f.(off := cumAcked, data := f.data[trim..])] + unackedSegs[1..];
    }

    method FreeHead(now: int)
      requires unackedSegs != [] && PathsKnown(unackedSegs, Pm())
      modifies this`unackedSegs, this`unassigned, known
      ensures var s := old(unackedSegs)[0];
        && unackedSegs == old(unackedSegs)[1..] && Pm() == FreeOne(old(Pm()), s, |s.data|, now)
        && unassigned == old(unassigned) + Unassigned(s, |s.data|)
      ensures PathsKnown(unackedSegs, Pm())
    {
      var f := unackedSegs[0];
      ghost var pm := Pm();
      CreditSeg(f, |f.data|, now);
      PathsKnownGrows(unackedSegs[1..], pm, Pm());
      unassigned := unassigned + Unassigned(f, |f.data|);
      unackedSegs := unackedSegs[1..];
    }

    /** The ACK case of recvLoop: stale frames are skipped, invalid ones reported, others applied. */
    method RecvAck(f: AckFrame, now: int, nowTs: int) returns (ok: bool)
      requires Valid() && NonEmpty(f.ranges)
      modifies this`cumAcked, this`unackedSegs, this`advWindow, this`gotWindow, this`peerAckSeq, this`gotPeerAck,
               this`peerRanges, this`unassigned, known
      ensures ok <==> Stale(old(View()), f) || ValidAck(old(View()), f)
      ensures Scheduler.Known(old(paths), old(Pm()))
      ensures View() == if !Stale(old(View()), f) && ValidAck(old(View()), f)
                        then ApplyAck(old(View()), f, now, nowTs) else old(View())
      ensures Valid()
    {
      if gotPeerAck && f.seqNo <= peerAckSeq {
        return true;
      }
      ok := ValidateAck(f);
      if ok {
        ApplyAckKeeps(View(), f, now, nowTs, written);
        InvRunnable(View(), written);
        Apply(f, now, nowTs);
      }
    }

    method Apply(f: AckFrame, now: int, nowTs: int)
      requires PathsAreKnown() && PathsKnown(unackedSegs, Pm()) && NonEmpty(f.ranges) && f.cum >= cumAcked
      modifies this`cumAcked, this`unackedSegs, this`advWindow, this`gotWindow, this`peerAckSeq, this`gotPeerAck,
               this`peerRanges, this`unassigned, known
      ensures View() == ApplyAck(old(View()), f, now, nowTs)
    {
      ghost var v := View();
      NoteEcho(f, nowTs);
      PathsKnownGrows(unackedSegs, v.pm, Pm());
      AdvanceCum(f.cum, now);
      ghost var t := ApplyAck(v, f, now, nowTs);
      assert View() == v.(cumAcked := t.cumAcked, segs := t.segs, pm := t.pm, unassigned := t.unassigned);
      TakeAck(f);
    }

    method AdvanceCum(cum: nat, now: int)
      requires PathsKnown(unackedSegs, Pm()) && cum >= cumAcked
      modifies this`cumAcked, this`unackedSegs, this`unassigned, known
      ensures cumAcked == cum
      ensures (unackedSegs, Pm(), unassigned) ==
        if cum > old(cumAcked) then Free(old(unackedSegs), old(Pm()), cum, old(unassigned), now)
        else old((unackedSegs, Pm(), unassigned))
    {
      if cum > cumAcked {
        cumAcked := cum;
        FreeAcked(now);
      }
    }

    /** The snapshot's number, window and ranges replace the sender's. */
    method TakeAck(f: AckFrame)
      requires NonEmpty(f.ranges)
      modifies this`peerAckSeq, this`gotPeerAck, this`advWindow, this`gotWindow, this`peerRanges
      ensures View() == old(View()).(peerAckSeq := f.seqNo, gotPeerAck := true,
                                     advWindow := f.window, gotWindow := true,
                                     peerRanges := Normalize(f.ranges))
    {
      var rs := NormalizeRanges(f.ranges);
      peerAckSeq, gotPeerAck := f.seqNo, true;
      advWindow, gotWindow, peerRanges := f.window, true, rs;
    }

    // ---------- dropping a path ----------

    method RemoveFromPaths(p: Path)
      modifies this`paths
      ensures View() == old(View()).(live := Remove(old(View()).live, p))
    {
      for i := 0 to |paths|
        invariant paths == old(paths) && p !in paths[..i]
      {
        if paths[i] == p {
          RemoveAt(paths, i, p);
          paths := paths[..i] + paths[i + 1..];
          return;
        }
      }
      RemoveAbsent(paths, p);
    }

    method UnassignSegs(p: Path)
      requires p in known
      modifies this`unackedSegs, p`inflight
      ensures unackedSegs == Unassign(old(unackedSegs), p)
      ensures p.State() == old(p.State()).(inflight := old(p.inflight) - InFlight(old(unackedSegs), p))
    {
      ghost var segs, flow := unackedSegs, p.inflight;
      ghost var goal := Unassign(segs, p);
      assert segs[0..] == segs;
      var i := 0;
      while i < |unackedSegs|
        invariant i <= |unackedSegs| == |segs|
        invariant forall j :: i <= j < |segs| ==> unackedSegs[j] == segs[j]
        invariant goal == unackedSegs[..i] + Unassign(segs[i..], p)
        invariant p.inflight == flow - InFlight(segs, p) + InFlight(segs[i..], p)
      {
        assert segs[i..][0] == segs[i] && segs[i..][1..] == segs[i + 1..];
        var s := unackedSegs[i];
        if s.path == Some(p) {
          if !s.sacked {
            p.inflight := p.inflight - |s.data|;
          }
          unackedSegs := unackedSegs[i := s.(path := None)];
        }
        Advance(goal, unackedSegs, i, Unassign(segs[i..], p), Unassign(segs[i + 1..], p));
        i := i + 1;
      }
      assert segs[i..] == [] && unackedSegs[..i] + [] == unackedSegs;
    }

    method PoolAll(p: Path)
      requires p in known
      modifies this`unackedSegs, p`inflight
      ensures p in old(View()).pm && View() == PoolPath(old(View()), p)
    {
      ghost var pm := Pm();
      UnassignSegs(p);
      assert Pm() == pm[p := p.State()];
    }

    /** The locked part of dropPath. */
    method Detach(p: Path)
      requires Valid() && p in known
      modifies this`paths, this`unackedSegs, this`closed, p`inflight
      ensures Valid() && View() == DropPath(old(View()), p)
      ensures p !in paths && (closed <==> paths == [])
    {
      DropKeeps(View(), p, written);
      DropTakesOnly(View(), p);
      if p !in paths {
        return;
      }
      DetachLive(p);
    }

    method DetachLive(p: Path)
      requires p in known && p in paths
      modifies this`paths, this`unackedSegs, this`closed, p`inflight
      ensures View() == DropPath(old(View()), p)
    {
      RemoveFromPaths(p);
      PoolAll(p);
      CloseIfEmpty();
    }

    method CloseIfEmpty()
      modifies this`closed
      ensures View() == old(View()).(closed := old(View()).closed || old(View()).live == [])
    {
      if |paths| == 0 {
        closed := true;
      }
    }

    // ---------- failing writes ----------

    /** dropPath with its notification, whose own write may fail; dropped lists the paths that went. */
    method DropPathAndTell(p: Path, tell: bool) returns (ghost dropped: seq<Path>)
      requires Valid() && p in known
      modifies this`paths, this`unackedSegs, this`closed, known
      ensures Valid() && Scheduler.Known(dropped, old(View()).pm) && View() == DropAll(old(View()), dropped)
      ensures p !in paths && |paths| <= |old(paths)| && (p in old(paths) ==> |paths| < |old(paths)|)
      decreases |paths|, 1
    {
      DropKeeps(View(), p, written);
      var wasLive := p in paths;
      ghost var v := View();
      Detach(p);
      dropped := [p];
      assert dropped[1..] == [];
      if wasLive && tell {
        ghost var u := View();
        ghost var more := SendPathDrop();
        dropped := [p] + more;
        DropAllRemoves(u, more);
        assert dropped[1..] == more;
      }
    }

    /** dropPath after the paths in before went, counting from the state v. */
    method DropMore(p: Path, ghost v: Sender<Path>, ghost before: seq<Path>) returns (ghost dropped: seq<Path>)
      requires Valid() && p in known && Scheduler.Known(before, v.pm) && View() == DropAll(v, before)
      modifies this`paths, this`unackedSegs, this`closed, known
      ensures Valid() && Scheduler.Known(dropped, v.pm) && View() == DropAll(v, dropped)
      ensures p !in paths && |paths| <= |old(paths)| && (p in old(paths) ==> |paths| < |old(paths)|)
      ensures forall q :: q in paths ==> q in old(paths)
    {
      ghost var u := View();
      ghost var more := DropPathAndTell(p, true);
      DropAllAppend(v, before, more);
      DropAllRemoves(u, more);
      dropped := before + more;
    }

    /** sendPathDrop: one control frame on the best path; if the write fails that path goes too. */
    method SendPathDrop() returns (ghost dropped: seq<Path>)
      requires Valid()
      modifies this`paths, this`unackedSegs, this`closed, known
      ensures Valid() && Scheduler.Known(dropped, old(View()).pm) && View() == DropAll(old(View()), dropped)
      ensures |paths| <= |old(paths)|
      decreases |paths|, 2
    {
      ghost var v := View();
      dropped := [];
      var p := PickAck();
      var failed: bool := *;
      if !closed && p.Some? && failed {
        dropped := DropPathAndTell(p.value, true);
        assert View() == DropAll(v, dropped);
      }
    }

    /** sendAck tries one path after another until a write succeeds or none is left. */
    method SendAck() returns (on: Option<Path>, ghost dropped: seq<Path>)
      requires Valid()
      modifies this`paths, this`unackedSegs, this`closed, known
      ensures Valid() && Scheduler.Known(dropped, old(View()).pm) && View() == DropAll(old(View()), dropped)
      ensures AckWent(on)
    {
      ghost var v := View();
      on, dropped := None, [];
      var done := false;
      while !done
        invariant Valid() && Scheduler.Known(dropped, v.pm) && View() == DropAll(v, dropped) && (done ==> AckWent(on))
        decreases !done, |paths|
      {
        done, on, dropped := WriteAck(v, dropped);
      }
    }

    /** The acknowledgement went out on the best path, or no path is left to try. */
    ghost predicate AckWent(on: Option<Path>)
      reads this, known
    {
      if on.Some? then !closed && PathsAreKnown() && on == Scheduler.PickAck(paths, Pm()) else closed || paths == []
    }

    method WriteAck(ghost v: Sender<Path>, ghost before: seq<Path>)
      returns (done: bool, on: Option<Path>, ghost dropped: seq<Path>)
      requires Valid() && Scheduler.Known(before, v.pm) && View() == DropAll(v, before)
      modifies this`paths, this`unackedSegs, this`closed, known
      ensures Valid() && Scheduler.Known(dropped, v.pm) && View() == DropAll(v, dropped)
      ensures if done then AckWent(on) else |paths| < |old(paths)|
    {
      dropped := before;
      if closed {
        return true, None, dropped;
      }
      on := PickAck();
      if on == None {
        return true, None, dropped;
      }
      var failed: bool := *;
      if failed {
        dropped := DropMore(on.value, v, before);
      }
      done := !failed;
    }

    /** trySend as the pump calls it: false when there is nothing to send, true after a write, failed or not. */
    method TrySendFrame(now: int) returns (more: bool)
      requires Valid()
      modifies this`sendQ, this`qHead, this`sentOff, this`pendingBytes, this`unackedSegs, this`paths, this`closed, known
      ensures Valid() && |paths| <= |old(paths)|
      ensures more <==> !Blocked(old(View()), now)
      ensures !more ==> Blocked(View(), now)
      ensures more ==> |paths| < |old(paths)| || ToSend(View()) < ToSend(old(View()))
    {
      TrySendDescends(View(), now, written);
      SendsUnlessBlocked(View(), now, written);
      var sent := TrySendOne(now);
      more := sent.Frame?;
      if more {
        var failed: bool := *;
        if failed {
          ghost var d := DropPathAndTell(sent.path, true);
        }
      }
    }

    /** The pump, `for s.trySend() {}`: it stops whatever the writes do, and then the sender is blocked. */
    method Pump() returns (now: int)
      requires Valid()
      modifies this`sendQ, this`qHead, this`sentOff, this`pendingBytes, this`unackedSegs, this`paths, this`closed, known
      ensures Valid() && Blocked(View(), now)
    {
      now := *;
      var more := TrySendFrame(now);
      while more
        invariant Valid() && (!more ==> Blocked(View(), now))
        decreases more, |paths|, ToSend(View())
      {
        ToSendIsBytes(View(), written);
        now := *;
        more := TrySendFrame(now);
      }
    }

    /** The tick's soft-failure part: the sweep, then dropPath for every path it found late. */
    method OnTick(now: int, ts: int) returns (ghost dropped: seq<Path>)
      requires Valid()
      modifies this`unackedSegs, this`paths, this`closed, known
      ensures Valid() && PathsKnown(old(unackedSegs), old(Pm()))
      ensures var swept := SweepAll(old(View()), now, ts);
        && Scheduler.Known(dropped, swept.pm) && View() == DropAll(swept, dropped)
        && Scheduler.Known(swept.live, swept.pm)
        && forall p :: p in swept.live && TimedOut(swept.pm[p], now) ==> p !in paths
    {
      var drops := CheckSoftFail(now, ts);
      TimedOutAreLive(paths, Pm(), now);
      dropped := DropEach(drops);
    }

    method DropEach(drops: seq<Path>) returns (ghost dropped: seq<Path>)
      requires Valid() && AreKnown(drops)
      modifies this`unackedSegs, this`paths, this`closed, known
      ensures Valid() && Scheduler.Known(dropped, old(View()).pm) && View() == DropAll(old(View()), dropped)
      ensures forall p :: p in drops ==> p !in paths
    {
      ghost var v := View();
      dropped := [];
      for i := 0 to |drops|
        invariant Valid() && Scheduler.Known(dropped, v.pm) && View() == DropAll(v, dropped)
        invariant Apart(drops[..i], paths)
      {
        ghost var before := paths;
        dropped := DropMore(drops[i], v, dropped);
        StayApart(drops, i, before, paths);
      }
      assert drops[..|drops|] == drops;
    }

    /** An ACK frame arriving on path via: an invalid one costs the path it came on. */
    method OnAck(f: AckFrame, via: Path, now: int, nowTs: int) returns (ghost dropped: seq<Path>)
      requires Valid() && NonEmpty(f.ranges) && via in known
      modifies this`cumAcked, this`unackedSegs, this`advWindow, this`gotWindow, this`peerAckSeq, this`gotPeerAck,
               this`peerRanges, this`unassigned, this`paths, this`closed, known
      ensures Valid() && AreKnown(dropped) && Scheduler.Known(old(paths), old(Pm()))
      ensures View() == if Stale(old(View()), f) then old(View())
                        else if ValidAck(old(View()), f) then ApplyAck(old(View()), f, now, nowTs)
                        else DropAll(old(View()), dropped)
      ensures !Stale(old(View()), f) && !ValidAck(old(View()), f) ==> via !in paths
    {
      dropped := [];
      var ok := RecvAck(f, now, nowTs);
      if !ok {
        dropped := DropPathAndTell(via, true);
      }
    }

    // ---------- attaching a path ----------

    method Attach(p: Path, now: int)
      requires Valid() && p !in known && p.State() == NewPath(p.id, now)
      modifies this`paths, this`known
      ensures Valid() && View() == AttachPath(old(View()), p, p.id, now)
    {
      AttachKeeps(View(), p, p.id, now, written);
      if !closed {
        AttachOpen(p, now);
      }
    }

    method AttachOpen(p: Path, now: int)
      requires p !in known && p.State() == NewPath(p.id, now) && !closed
      modifies this`paths, this`known
      ensures View() == AttachPath(old(View()), p, p.id, now)
    {
      ghost var pm := Pm();
      paths := paths + [p];
      known := known + [p];
      assert Pm() == pm[p := p.State()];
    }
  }
}
