/** The sender's invariant and its preservation by every step, for any acknowledgements that pass validation. */
module SenderInvariant {
  import opened Base
  import opened Intervals
  import opened Paths
  import opened Scheduler
  import opened Sender
  import opened SenderProofs

  /** The queue holds exactly the written bytes that were never sent. */
  ghost predicate QueueInv<P>(s: Sender<P>, written: seq<byte>) {
    && QueueOk(s.sendQ, s.qHead, s.pendingBytes)
    && s.sentOff + s.pendingBytes == |written|
    && written[s.sentOff..] == QueueBytes(s.sendQ, s.qHead)
  }

  /** The paths and their accounts are in order, and the stream is closed exactly when no path is left. */
  ghost predicate PathInv<P>(s: Sender<P>) {
    && Known(s.live, s.pm) && NoDup(s.live) && NoDup(s.known) && (s.closed <==> s.live == [])
    && Known(s.known, s.pm) && (forall p :: p in s.pm ==> p in s.known)
    && AllLive(s.segs, s.live)
  }

  /** Every path's account is the length of its segments not known to be received. */
  ghost predicate Ledger<P>(s: Sender<P>) {
    forall p :: p in s.pm ==> s.pm[p].inflight == InFlight(s.segs, p)
  }

  ghost predicate Conserved<P>(s: Sender<P>)
    requires Known(s.known, s.pm)
  {
    Delivered(s.known, s.pm) + s.unassigned == s.cumAcked
  }

  ghost predicate RangesInv<P>(s: Sender<P>) {
    && Canonical(s.peerRanges)
    && forall i :: 0 <= i < |s.peerRanges| ==> s.peerRanges[i].start > s.cumAcked && s.peerRanges[i].end <= s.sentOff
  }

  ghost predicate SenderInv<P>(s: Sender<P>, written: seq<byte>) {
    && Tiles(s.segs, written, s.cumAcked, s.sentOff)
    && QueueInv(s, written)
    && PathInv(s) && Ledger(s) && Conserved(s)
    && RangesInv(s)
  }

  lemma InvRunnable<P>(s: Sender<P>, written: seq<byte>)
    requires SenderInv(s, written)
    ensures Runnable(s) && PathsKnown(s.segs, s.pm)
    ensures forall i :: 0 <= i < |s.segs| ==> |s.segs[i].data| > 0
  {
    TilesBounds(s.segs, written, s.cumAcked, s.sentOff);
    AllLiveKnown(s.segs, s.live, s.pm);
  }

  // ---------- Write ----------

  lemma WriteKeeps<P>(s: Sender<P>, written: seq<byte>, b: seq<byte>, bufCap: int)
    requires SenderInv(s, written)
    ensures var (n, t) := WriteSome(s, b, bufCap);
      n <= |b| && SenderInv(t, written + b[..n])
  {
    var (n, t) := WriteSome(s, b, bufCap);
    if n == 0 {
      assert written + b[..0] == written;
    } else {
      TilesMoreWritten(s.segs, written, b[..n], s.cumAcked, s.sentOff);
      QueueGrows(s.sendQ, s.qHead, b[..n]);
      assert (written + b[..n])[s.sentOff..] == written[s.sentOff..] + b[..n];
    }
  }

  lemma QueueGrows(sendQ: seq<seq<byte>>, qHead: nat, c: seq<byte>)
    requires sendQ != [] ==> qHead <= |sendQ[0]|
    requires sendQ == [] ==> qHead == 0
    ensures QueueBytes(sendQ + [c], qHead) == QueueBytes(sendQ, qHead) + c
  {
    if sendQ == [] {
      assert [] + [c] == [c];
    } else {
      assert (sendQ + [c])[1..] == sendQ[1..] + [c];
      FlattenAppend(sendQ[1..], c);
    }
  }

  // ---------- trySend ----------

  lemma ScanKeeps<P>(s: Sender<P>, written: seq<byte>)
    requires SenderInv(s, written)
    ensures SenderInv(s.(segs := Scan(s.segs, s.peerRanges).0), written)
  {
    var t := s.(segs := Scan(s.segs, s.peerRanges).0);
    ScanSameBytes(s.segs, s.peerRanges);
    TilesSame(s.segs, t.segs, written, s.cumAcked, s.sentOff);
    ScanAllLive(s.segs, s.peerRanges, s.live);
    forall p | p in t.pm
      ensures t.pm[p].inflight == InFlight(t.segs, p)
    {
      ScanInFlight(s.segs, s.peerRanges, p);
    }
  }

  lemma ChargeKeepsDelivered<P>(known: seq<P>, pm: map<P, PathSt>, p: P, n: int)
    requires Known(known, pm) && p in pm
    ensures Known(known, Charge(pm, p, n)) && Delivered(known, Charge(pm, p, n)) == Delivered(known, pm)
  {
    DeliveredSame(known, pm, Charge(pm, p, n));
  }

  lemma CommitHoleKeeps<P>(s: Sender<P>, h: Hole, n: nat, p: P, now: int, written: seq<byte>)
    requires SenderInv(s, written) && HoleInside(s.segs, h) && 0 < n && h.start + n <= h.end && p in s.live
    ensures SenderInv(CommitHole(s, h, n, p, now), written)
  {
    var t, seg := CommitHole(s, h, n, p, now), s.segs[h.idx];
    var pieces := Pieces(seg, h.start, n, p, now);
    SplitTiles(s.segs, h.idx, h.start, n, p, now, written, s.cumAcked, s.sentOff);
    PiecesAllLive(seg, h.start, n, p, now, s.live);
    CutAround(s.segs, h.idx);
    AllLiveConcat(s.segs[..h.idx] + [seg], s.segs[h.idx + 1..], s.live);
    AllLiveConcat(s.segs[..h.idx], [seg], s.live);
    AllLiveConcat(s.segs[..h.idx] + pieces, s.segs[h.idx + 1..], s.live);
    AllLiveConcat(s.segs[..h.idx], pieces, s.live);
    ChargeKeepsDelivered(s.known, s.pm, p, n);
    forall q | q in t.pm
      ensures t.pm[q].inflight == InFlight(t.segs, q)
    {
      PiecesInFlight(seg, h.start, n, p, now, q);
      InFlightReplace(s.segs, h.idx, pieces, q);
    }
  }

  lemma QueueShrinks(sendQ: seq<seq<byte>>, qHead: nat, pending: int, n: nat)
    requires QueueOk(sendQ, qHead, pending) && sendQ != [] && 0 < n <= |sendQ[0]| - qHead
    ensures var used := qHead + n == |sendQ[0]|;
      var q, h := if used then sendQ[1..] else sendQ, if used then 0 else qHead + n;
      && QueueOk(q, h, pending - n)
      && QueueBytes(sendQ, qHead) == sendQ[0][qHead..qHead + n] + QueueBytes(q, h)
  {
    var used := qHead + n == |sendQ[0]|;
    var q, h := if used then sendQ[1..] else sendQ, if used then 0 else qHead + n;
    assert sendQ[0][qHead..] == sendQ[0][qHead..qHead + n] + sendQ[0][qHead + n..];
    if used {
      assert sendQ[0][qHead + n..] == [];
      QueueFromStart(q);
    }
  }

  lemma QueueFromStart(q: seq<seq<byte>>)
    ensures QueueBytes(q, 0) == Flatten(q)
  {
    if q != [] {
      assert q[0][0..] == q[0];
    }
  }

  /** A new frame is the next unsent bytes, and it stays inside the window. */
  lemma SendNewFrame<P>(s: Sender<P>, now: int, written: seq<byte>)
    requires QueueInv(s, written) && Runnable(s)
    ensures var (t, out) := SendNew(s, now);
      && (out == Nothing ==> t == s)
      && (out.Frame? ==>
           && out.off == s.sentOff && t.sentOff == s.sentOff + |out.payload| && 0 < |out.payload| <= MAX_FRAME_PAYLOAD
           && t.sentOff <= s.cumAcked + s.advWindow
           && QueueInv(t, written) && IsSlice(out.payload, written, s.sentOff)
           && out.path in s.live && t.pm == Charge(s.pm, out.path, |out.payload|)
           && t.segs == s.segs + [SendSeg(s.sentOff, out.payload, Some(out.path), now, false)])
  {
    var (t, out) := SendNew(s, now);
    if out.Frame? {
      var n := NewLen(s);
      PickDataPrefersHealthy(s.live, s.pm, n, now);
      CommitNewQueue(s, n, out.path, now, written);
    }
  }

  /** Taking n bytes off the queue takes the next n bytes of the stream. */
  lemma QueueTakes(sendQ: seq<seq<byte>>, qHead: nat, pending: int, n: nat, written: seq<byte>, off: nat)
    requires QueueOk(sendQ, qHead, pending) && sendQ != [] && 0 < n <= |sendQ[0]| - qHead
    requires off <= |written| && written[off..] == QueueBytes(sendQ, qHead)
    ensures var used := qHead + n == |sendQ[0]|;
      var q, h := if used then sendQ[1..] else sendQ, if used then 0 else qHead + n;
      && QueueOk(q, h, pending - n) && off + n <= |written| && written[off + n..] == QueueBytes(q, h)
      && IsSlice(sendQ[0][qHead..qHead + n], written, off)
  {
    var used := qHead + n == |sendQ[0]|;
    var q, h := if used then sendQ[1..] else sendQ, if used then 0 else qHead + n;
    QueueShrinks(sendQ, qHead, pending, n);
    SliceStep(written, off, sendQ[0][qHead..qHead + n], QueueBytes(q, h));
  }

  lemma CommitNewQueue<P>(s: Sender<P>, n: nat, p: P, now: int, written: seq<byte>)
    requires QueueInv(s, written) && p in s.pm && s.sendQ != [] && 0 < n <= |s.sendQ[0]| - s.qHead
    ensures QueueInv(CommitNew(s, n, p, now), written)
    ensures IsSlice(s.sendQ[0][s.qHead..s.qHead + n], written, s.sentOff)
  {
    QueueTakes(s.sendQ, s.qHead, s.pendingBytes, n, written, s.sentOff);
  }

  lemma SliceStep(written: seq<byte>, off: nat, payload: seq<byte>, rest: seq<byte>)
    requires off <= |written| && written[off..] == payload + rest
    ensures off + |payload| <= |written|
    ensures written[off..off + |payload|] == payload && written[off + |payload|..] == rest
  {
    assert written == written[..off] + (payload + rest);
  }

  lemma SendNewKeeps<P>(s: Sender<P>, now: int, written: seq<byte>)
    requires SenderInv(s, written) && Runnable(s)
    ensures SenderInv(SendNew(s, now).0, written)
  {
    var (t, out) := SendNew(s, now);
    SendNewFrame(s, now, written);
    if out.Frame? {
      var m := SendSeg(s.sentOff, out.payload, Some(out.path), now, false);
      assert Tiles([m], written, s.sentOff, t.sentOff);
      TilesConcat(s.segs, [m], written, s.cumAcked, s.sentOff, t.sentOff);
      AllLiveConcat(s.segs, [m], s.live);
      ChargeKeepsDelivered(s.known, s.pm, out.path, |out.payload|);
      forall p | p in t.pm
        ensures t.pm[p].inflight == InFlight(t.segs, p)
      {
        InFlightConcat(s.segs, [m], p);
      }
    }
  }

  lemma SendHoleKeeps<P>(u: Sender<P>, h: Hole, now: int, written: seq<byte>)
    requires SenderInv(u, written) && HoleInside(u.segs, h)
    ensures SenderInv(SendHole(u, h, now).0, written)
  {
    var n := ResendEnd(h) - h.start;
    var p := PickData(u.live, u.pm, n, now);
    HoleGoesTo(u, h, now, p);
    if p.Some? {
      PickDataPrefersHealthy(u.live, u.pm, n, now);
      CommitHoleKeeps(u, h, n, p.value, now, written);
    }
  }

  lemma SendKeeps<P>(s: Sender<P>, now: int, written: seq<byte>)
    requires SenderInv(s, written)
    ensures Runnable(s) && (forall i :: 0 <= i < |s.segs| ==> |s.segs[i].data| > 0)
    ensures SenderInv(TrySend(s, now).0, written)
  {
    InvRunnable(s, written);
    var (segs, h) := Scan(s.segs, s.peerRanges);
    var u := s.(segs := segs);
    ScanFindsHole(s.segs, s.peerRanges);
    ScanKeeps(s, written);
    InvRunnable(u, written);
    if h.Some? {
      SendHoleKeeps(u, h.value, now, written);
    } else {
      SendNewKeeps(u, now, written);
    }
  }

  // ---------- acknowledgements ----------

  lemma SampleKeeps<P>(s: Sender<P>, tsPath: nat, tsEcho: int, nowTs: int)
    requires Known(s.live, s.pm)
    ensures var pm := Sample(s, tsPath, tsEcho, nowTs);
      && pm.Keys == s.pm.Keys
      && (forall p :: p in s.pm ==> pm[p].inflight == s.pm[p].inflight)
      && (forall p :: p in s.pm ==> pm[p].delivered == s.pm[p].delivered)
  {
    FindPathIsLive(s.live, s.pm, tsPath - 1);
  }

  lemma AckRangesInv(rs: seq<ByteRange>, lo: nat, hi: nat)
    requires NonEmpty(rs) && forall i :: 0 <= i < |rs| ==> rs[i].start > lo && rs[i].end <= hi
    ensures var c := Normalize(rs);
      Canonical(c) && forall i :: 0 <= i < |c| ==> c[i].start > lo && c[i].end <= hi
  {
    NormalizeIsCanonical(rs);
    var c := Normalize(rs);
    forall i | 0 <= i < |c|
      ensures c[i].start > lo && c[i].end <= hi
    {
      assert Covers(c, c[i].start) && Covers(c, c[i].end - 1);
      assert Covers(rs, c[i].start) && Covers(rs, c[i].end - 1);
    }
  }

  lemma ApplyAckKeeps<P>(s: Sender<P>, f: AckFrame, now: int, nowTs: int, written: seq<byte>)
    requires SenderInv(s, written) && ValidAck(s, f) && NonEmpty(f.ranges)
    ensures SenderInv(ApplyAck(s, f, now, nowTs), written)
  {
    var t := ApplyAck(s, f, now, nowTs);
    var pm := Sample(s, f.tsPath, f.tsEcho, nowTs);
    SampleKeeps(s, f.tsPath, f.tsEcho, nowTs);
    AckRangesInv(f.ranges, f.cum, s.sentOff);
    DeliveredSame(s.known, s.pm, pm);
    if f.cum > s.cumAcked {
      AllLiveMore(s.segs, s.live, s.known);
      FreeTiles(s.segs, pm, f.cum, s.unassigned, now, written, s.cumAcked, s.sentOff);
      FreeAllLive(s.segs, pm, f.cum, s.unassigned, now, s.live);
      FreeConserves(s.segs, pm, f.cum, s.unassigned, now, s.known, written, s.cumAcked, s.sentOff);
      FreeKeys(s.segs, pm, f.cum, s.unassigned, now);
      forall p | p in t.pm
        ensures t.pm[p].inflight == InFlight(t.segs, p)
      {
        FreeKeepsLedger(s.segs, pm, f.cum, s.unassigned, now, p);
      }
    }
  }

  lemma {:induction false} FreeKeys<P>(segs: seq<SendSeg<P>>, pm: map<P, PathSt>, cum: nat, un: nat, now: int)
    ensures Free(segs, pm, cum, un, now).1.Keys == pm.Keys
    decreases |segs|
  {
    if segs != [] && SegEnd(segs[0]) <= cum {
      var s := segs[0];
      FreeKeys(segs[1..], FreeOne(pm, s, |s.data|, now), cum, un + Unassigned(s, |s.data|), now);
    }
  }

  // ---------- soft failure and path drop ----------

  lemma SweepAllKeeps<P>(s: Sender<P>, now: int, ts: int, written: seq<byte>)
    requires SenderInv(s, written)
    ensures PathsKnown(s.segs, s.pm) && SenderInv(SweepAll(s, now, ts), written)
  {
    InvRunnable(s, written);
    var t := SweepAll(s, now, ts);
    SweepSameBytes(s.segs, s.pm, s.peerRanges, now, ts);
    TilesSame(s.segs, t.segs, written, s.cumAcked, s.sentOff);
    SweepAllLive(s.segs, s.pm, s.peerRanges, now, ts, s.live);
    assert t.pm.Keys == s.pm.Keys;
    forall p | p in t.pm
      ensures t.pm[p].inflight == InFlight(t.segs, p) && t.pm[p].delivered == s.pm[p].delivered
    {
      SweepKeepsLedger(s.segs, s.pm, s.peerRanges, now, ts, p);
    }
    DeliveredSame(s.known, s.pm, t.pm);
  }

  lemma {:induction false} RemoveKeeps<P>(xs: seq<P>, p: P)
    requires NoDup(xs)
    ensures NoDup(Remove(xs, p))
    ensures forall q :: q in Remove(xs, p) ==> q in xs && q != p
    ensures forall q :: q in xs && q != p ==> q in Remove(xs, p)
    ensures p in xs ==> |Remove(xs, p)| == |xs| - 1
  {
    if xs != [] && xs[0] != p {
      RemoveKeeps(xs[1..], p);
      assert Remove(xs, p)[1..] == Remove(xs[1..], p);
    }
  }

  lemma PoolKeepsLedger<P>(s: Sender<P>, p: P)
    requires Ledger(s) && p in s.pm && Known(s.known, s.pm)
    ensures var t := PoolPath(s, p);
      && t.pm.Keys == s.pm.Keys && Ledger(t) && t.pm[p].inflight == 0
      && Known(t.known, t.pm) && Delivered(t.known, t.pm) == Delivered(s.known, s.pm)
  {
    var t := PoolPath(s, p);
    ChargeKeepsDelivered(s.known, s.pm, p, 0 - InFlight(s.segs, p));
    forall q | q in t.pm
      ensures t.pm[q].inflight == InFlight(t.segs, q)
    {
      UnassignInFlight(s.segs, p, q);
    }
    UnassignInFlight(s.segs, p, p);
  }

  /** Dropping a path empties its account and moves all its segments to the pool. */
  lemma DropKeeps<P>(s: Sender<P>, p: P, written: seq<byte>)
    requires SenderInv(s, written) && p in s.pm
    ensures var t := DropPath(s, p);
      && SenderInv(t, written)
      && p !in t.live && t.pm[p].inflight == 0
      && (p in s.live ==> |t.live| == |s.live| - 1)
  {
    if p in s.live {
      var live := Remove(s.live, p);
      RemoveKeeps(s.live, p);
      UnassignSameBytes(s.segs, p);
      TilesSame(s.segs, Unassign(s.segs, p), written, s.cumAcked, s.sentOff);
      UnassignAllLive(s.segs, p, s.live, live);
      PoolKeepsLedger(s.(live := live), p);
    } else {
      DeadIsIdle(s.segs, s.live, p);
    }
  }

  /** No other path goes with it, and the stream ends exactly with its last path. */
  lemma DropTakesOnly<P>(s: Sender<P>, p: P)
    requires PathInv(s) && p in s.pm
    ensures var t := DropPath(s, p);
      && p !in t.live && (forall q :: q != p ==> (q in t.live <==> q in s.live))
      && (t.closed <==> t.live == [])
  {
    if p in s.live {
      RemoveKeeps(s.live, p);
    }
  }

  lemma {:induction false} DeadIsIdle<P>(segs: seq<SendSeg<P>>, live: seq<P>, p: P)
    requires AllLive(segs, live) && p !in live
    ensures InFlight(segs, p) == 0
  {
    if segs != [] {
      DeadIsIdle(segs[1..], live, p);
    }
  }

  function DropAll<P(==)>(s: Sender<P>, ps: seq<P>): (t: Sender<P>)
    requires Known(ps, s.pm)
    ensures t.pm.Keys == s.pm.Keys
    decreases |ps|
  {
    if ps == [] then s else DropAll(DropPath(s, ps[0]), ps[1..])
  }

  lemma {:induction false} DropAllAppend<P>(s: Sender<P>, ps: seq<P>, qs: seq<P>)
    requires Known(ps, s.pm) && Known(qs, s.pm)
    ensures DropAll(s, ps + qs) == DropAll(DropAll(s, ps), qs)
    decreases |ps|
  {
    if ps == [] {
      assert ps + qs == qs;
    } else {
      DropAllAppend(DropPath(s, ps[0]), ps[1..], qs);
      assert (ps + qs)[1..] == ps[1..] + qs;
    }
  }

  lemma {:induction false} DropAllRemoves<P>(s: Sender<P>, ps: seq<P>)
    requires Known(ps, s.pm)
    ensures forall q :: q in DropAll(s, ps).live ==> q in s.live
    decreases |ps|
  {
    if ps != [] {
      RemoveIsSubset(s.live, ps[0]);
      DropAllRemoves(DropPath(s, ps[0]), ps[1..]);
    }
  }

  lemma {:induction false} RemoveIsSubset<P>(xs: seq<P>, p: P)
    ensures forall q :: q in Remove(xs, p) ==> q in xs
  {
    if xs != [] && xs[0] != p {
      RemoveIsSubset(xs[1..], p);
    }
  }

  lemma {:induction false} TimedOutAreLive<P>(live: seq<P>, pm: map<P, PathSt>, now: int)
    requires Known(live, pm)
    ensures forall p :: p in TimedOutPaths(live, pm, now) ==> p in live && TimedOut(pm[p], now)
    ensures forall p :: p in live && TimedOut(pm[p], now) ==> p in TimedOutPaths(live, pm, now)
  {
    if live != [] {
      TimedOutAreLive(live[1..], pm, now);
      assert forall p :: p in live <==> p == live[0] || p in live[1..];
    }
  }

  lemma AttachKeeps<P>(s: Sender<P>, p: P, id: nat, now: int, written: seq<byte>)
    requires SenderInv(s, written)
    ensures SenderInv(AttachPath(s, p, id, now), written)
  {
    var t := AttachPath(s, p, id, now);
    if !s.closed && p !in s.known {
      DeadIsIdle(s.segs, s.live, p);
      AllLiveMore(s.segs, s.live, t.live);
      NoDupAppend(s.live, p);
      NoDupAppend(s.known, p);
      DeliveredAppend(s.known, s.pm, p, NewPath(id, now));
    }
  }

  lemma {:induction false} NoDupAppend<P>(xs: seq<P>, p: P)
    requires NoDup(xs) && p !in xs
    ensures NoDup(xs + [p])
  {
    if xs != [] {
      NoDupAppend(xs[1..], p);
      assert (xs + [p])[1..] == xs[1..] + [p];
    }
  }

  lemma {:induction false} DeliveredAppend<P>(known: seq<P>, pm: map<P, PathSt>, p: P, st: PathSt)
    requires Known(known, pm) && p !in known && st.delivered == 0
    ensures Known(known + [p], pm[p := st]) && Delivered(known + [p], pm[p := st]) == Delivered(known, pm)
  {
    if known != [] {
      DeliveredAppend(known[1..], pm, p, st);
      assert (known + [p])[1..] == known[1..] + [p];
    }
  }
}
