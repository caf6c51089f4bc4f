/** The sender cannot block itself, never resends what the peer holds, and its pump stops. */
module Progress {
  import opened Base
  import opened Intervals
  import opened Paths
  import opened Scheduler
  import opened Sender
  import opened SenderProofs
  import opened SenderInvariant

  // ---------- resends ----------

  lemma {:induction false} ScanHoleIsFirst<P>(segs: seq<SendSeg<P>>, rs: seq<ByteRange>)
    requires Canonical(rs) && forall i :: 0 <= i < |segs| ==> |segs[i].data| > 0
    ensures var h := Scan(segs, rs).1;
      && (h.Some? ==>
           && h.value.idx < |segs| && Pooled(segs[h.value.idx])
           && (h.value.start, h.value.end) == HoleFrom(segs[h.value.idx].off, SegEnd(segs[h.value.idx]), rs))
      && (h == None ==> forall i :: 0 <= i < |segs| && Pooled(segs[i]) ==> Covered(rs, segs[i].off, SegEnd(segs[i])))
  {
    if segs != [] {
      ScanHoleIsFirst(segs[1..], rs);
      CoveredIffNoHole(rs, segs[0].off, SegEnd(segs[0]));
      HoleIsFirstMaximalGap(segs[0].off, SegEnd(segs[0]), rs);
      assert forall i :: 1 <= i < |segs| ==> segs[i] == segs[1..][i - 1];
    }
  }

  /** A frame of written bytes on a live path that the newest selective acknowledgement does not touch. */
  ghost predicate Wanted<P>(s: Sender<P>, sent: Sent<P>, written: seq<byte>) {
    sent.Frame? ==>
      && (forall x :: sent.off <= x < sent.off + |sent.payload| ==> !Covers(s.peerRanges, x))
      && IsSlice(sent.payload, written, sent.off) && 0 < |sent.payload| <= MAX_FRAME_PAYLOAD
      && sent.path in s.live
  }

  /** What a frame of the hole would carry. */
  lemma HolePayload<P>(segs: seq<SendSeg<P>>, h: Hole, written: seq<byte>, lo: nat, hi: nat, n: nat)
    requires Tiles(segs, written, lo, hi) && HoleInside(segs, h) && h.start + n <= h.end
    ensures var seg := segs[h.idx]; IsSlice(seg.data[h.start - seg.off..h.start - seg.off + n], written, h.start)
  {
    var seg := segs[h.idx];
    TilesCut(segs, h.idx, written, lo, hi);
    SliceOfSlice(seg.data, written, seg.off, h.start - seg.off, n);
  }

  lemma HoleIsWanted<P>(u: Sender<P>, h: Hole, now: int, written: seq<byte>)
    requires Tiles(u.segs, written, u.cumAcked, u.sentOff) && Known(u.live, u.pm) && Canonical(u.peerRanges)
    requires HoleInside(u.segs, h)
    requires (h.start, h.end) == HoleFrom(u.segs[h.idx].off, SegEnd(u.segs[h.idx]), u.peerRanges)
    ensures Wanted(u, SendHole(u, h, now).1, written)
  {
    var seg, n := u.segs[h.idx], ResendEnd(h) - h.start;
    HoleIsFirstMaximalGap(seg.off, SegEnd(seg), u.peerRanges);
    HolePayload(u.segs, h, written, u.cumAcked, u.sentOff, n);
    PickDataPrefersHealthy(u.live, u.pm, n, now);
    var sent := SendHole(u, h, now).1;
    assert sent.Frame? ==> sent.off == h.start && |sent.payload| == n;
  }

  lemma NewIsWanted<P>(u: Sender<P>, now: int, written: seq<byte>)
    requires QueueInv(u, written) && Runnable(u) && RangesInv(u)
    ensures Wanted(u, SendNew(u, now).1, written)
  {
    SendNewFrame(u, now, written);
    forall x | x >= u.sentOff
      ensures !Covers(u.peerRanges, x)
    {
    }
  }

  /** No byte is ever sent that the newest selective acknowledgement covers. */
  lemma ResendIsUncovered<P>(s: Sender<P>, now: int, written: seq<byte>)
    requires SenderInv(s, written)
    ensures Runnable(s) && forall i :: 0 <= i < |s.segs| ==> |s.segs[i].data| > 0
    ensures Wanted(s, TrySend(s, now).1, written)
  {
    InvRunnable(s, written);
    var (segs, h) := Scan(s.segs, s.peerRanges);
    var u := s.(segs := segs);
    ScanFindsHole(s.segs, s.peerRanges);
    ScanHoleIsFirst(s.segs, s.peerRanges);
    ScanKeeps(s, written);
    if h.Some? {
      HoleIsWanted(u, h.value, now, written);
    } else {
      NewIsWanted(u, now, written);
    }
  }

  // ---------- no self-blocking ----------

  /** No byte is charged to a path. */
  ghost predicate NothingAssigned<P>(segs: seq<SendSeg<P>>) {
    segs != [] ==> (segs[0].sacked || segs[0].path == None) && NothingAssigned(segs[1..])
  }

  lemma {:induction false} UnassignedIsIdle<P>(segs: seq<SendSeg<P>>, p: P)
    requires NothingAssigned(segs)
    ensures InFlight(segs, p) == 0
  {
    if segs != [] {
      UnassignedIsIdle(segs[1..], p);
    }
  }

  /** Offset x waits in segment i of the pool and the peer has not reported it. */
  ghost predicate Missing<P>(s: Sender<P>, i: nat, x: int) {
    i < |s.segs| && Pooled(s.segs[i]) && s.segs[i].off <= x < SegEnd(s.segs[i]) && !Covers(s.peerRanges, x)
  }

  /**
   * When nothing un-received is charged to a path, a byte of the pool that the peer lacks is always
   * sent: every path is under its cap, whatever its measurements and marks say.
   */
  lemma NeverBlocksItself<P>(s: Sender<P>, now: int, written: seq<byte>, i: nat, x: int)
    requires SenderInv(s, written) && !s.closed && s.gotWindow && s.live != []
    requires NothingAssigned(s.segs)
    requires Missing(s, i, x)
    ensures Runnable(s) && forall j :: 0 <= j < |s.segs| ==> |s.segs[j].data| > 0
    ensures var (t, sent) := TrySend(s, now); sent.Frame? && sent.off <= x && t.sentOff == s.sentOff
  {
    InvRunnable(s, written);
    ScanFindsHole(s.segs, s.peerRanges);
    ScanHoleIsFirst(s.segs, s.peerRanges);
    CoveredIffNoHole(s.peerRanges, s.segs[i].off, SegEnd(s.segs[i]));
    var h := Scan(s.segs, s.peerRanges).1.value;
    PickDataPrefersHealthy(s.live, s.pm, ResendEnd(h) - h.start, now);
    var p := s.live[0];
    UnassignedIsIdle(s.segs, p);
    IdleIsUnderCap(s.pm[p], now);
    FirstHoleIsBefore(s, written, i, x);
  }

  lemma {:induction false} EarlierTile<P>(segs: seq<SendSeg<P>>, written: seq<byte>, lo: nat, hi: nat, i: nat, j: nat)
    requires Tiles(segs, written, lo, hi) && i < j < |segs|
    ensures SegEnd(segs[i]) <= segs[j].off
  {
    if i == 0 {
      TilesBounds(segs[1..], written, SegEnd(segs[0]), hi);
      assert segs[j] == segs[1..][j - 1];
    } else {
      EarlierTile(segs[1..], written, SegEnd(segs[0]), hi, i - 1, j - 1);
    }
  }

  lemma {:induction false} ScanStopsEarly<P>(segs: seq<SendSeg<P>>, rs: seq<ByteRange>, i: nat)
    requires i < |segs| && Pooled(segs[i])
    requires var (a, b) := HoleFrom(segs[i].off, SegEnd(segs[i]), rs); a < b
    ensures Scan(segs, rs).1.Some? && Scan(segs, rs).1.value.idx <= i
  {
    if i > 0 {
      ScanStopsEarly(segs[1..], rs, i - 1);
    }
  }

  lemma FirstHoleIsBefore<P>(s: Sender<P>, written: seq<byte>, i: nat, x: int)
    requires SenderInv(s, written)
    requires Missing(s, i, x)
    ensures Scan(s.segs, s.peerRanges).1.Some? && Scan(s.segs, s.peerRanges).1.value.start <= x
  {
    TilesBounds(s.segs, written, s.cumAcked, s.sentOff);
    ScanHoleIsFirst(s.segs, s.peerRanges);
    HoleIsFirstMaximalGap(s.segs[i].off, SegEnd(s.segs[i]), s.peerRanges);
    ScanStopsEarly(s.segs, s.peerRanges, i);
    var h := Scan(s.segs, s.peerRanges).1.value;
    if h.idx < i {
      HoleIsFirstMaximalGap(s.segs[h.idx].off, SegEnd(s.segs[h.idx]), s.peerRanges);
      EarlierTile(s.segs, written, s.cumAcked, s.sentOff, h.idx, i);
    }
  }

  /** Every segment charged to a path has been on its way for longer than the path's limit. */
  ghost predicate AllOverdue<P>(segs: seq<SendSeg<P>>, pm: map<P, PathSt>, now: int) {
    segs != [] ==>
      && (segs[0].path.Some? && !segs[0].sacked ==>
           segs[0].path.value in pm && now - segs[0].sentAt > SuspectAfter(pm[segs[0].path.value]))
      && AllOverdue(segs[1..], pm, now)
  }

  lemma {:induction false} OverdueSame<P>(segs: seq<SendSeg<P>>, pm: map<P, PathSt>, qm: map<P, PathSt>, now: int)
    requires AllOverdue(segs, pm, now) && pm.Keys <= qm.Keys
    requires forall p :: p in pm ==> qm[p].srtt == pm[p].srtt
    ensures AllOverdue(segs, qm, now)
  {
    if segs != [] {
      OverdueSame(segs[1..], pm, qm, now);
    }
  }

  lemma {:induction false} SweepFreesOverdue<P>(segs: seq<SendSeg<P>>, pm: map<P, PathSt>, rs: seq<ByteRange>,
                                                now: int, ts: int)
    requires PathsKnown(segs, pm) && AllOverdue(segs, pm, now)
    ensures NothingAssigned(Sweep(segs, pm, rs, now, ts).0)
    decreases |segs|
  {
    if segs != [] {
      var (s, qm) := SweepSeg(segs[0], pm, rs, now, ts);
      PathsKnownGrows(segs[1..], pm, qm);
      OverdueSame(segs[1..], pm, qm, now);
      SweepFreesOverdue(segs[1..], qm, rs, now, ts);
      var t := Sweep(segs[1..], qm, rs, now, ts).0;
      assert ([s] + t)[1..] == t;
    }
  }

  /** After a sweep that finds everything overdue, the sender always sends what the peer lacks. */
  lemma SweptSenderSends<P>(s: Sender<P>, now: int, ts: int, later: int, written: seq<byte>, i: nat, x: int)
    requires SenderInv(s, written) && !s.closed && s.gotWindow && s.live != []
    requires AllOverdue(s.segs, s.pm, now)
    ensures PathsKnown(s.segs, s.pm)
    ensures var t := SweepAll(s, now, ts);
      && SenderInv(t, written) && Runnable(t) && (forall j :: 0 <= j < |t.segs| ==> |t.segs[j].data| > 0)
      && (Missing(t, i, x) ==> TrySend(t, later).1.Frame?)
  {
    SweepAllKeeps(s, now, ts, written);
    SweepFreesOverdue(s.segs, s.pm, s.peerRanges, now, ts);
    var t := SweepAll(s, now, ts);
    InvRunnable(t, written);
    if Missing(t, i, x) {
      NeverBlocksItself(t, later, written, i, x);
    }
  }

  // ---------- exactly when nothing is sent ----------

  ghost predicate AllAtCap<P>(s: Sender<P>, now: int)
    requires Known(s.live, s.pm)
  {
    forall p :: p in s.live ==> !UnderCap(s.pm[p], now)
  }

  /** The reasons to send nothing: no stream, no window yet, no path under its cap, or no byte that may go. */
  ghost predicate Blocked<P>(s: Sender<P>, now: int) {
    || s.closed || !s.gotWindow
    || (Known(s.live, s.pm) && AllAtCap(s, now))
    || (NothingMissing(s) && (s.pendingBytes == 0 || s.sentOff - s.cumAcked >= s.advWindow))
  }

  ghost predicate NothingMissing<P>(s: Sender<P>) {
    forall i :: 0 <= i < |s.segs| && Pooled(s.segs[i]) ==> Covered(s.peerRanges, s.segs[i].off, SegEnd(s.segs[i]))
  }

  lemma {:induction false} ScanEmptiesPool<P>(segs: seq<SendSeg<P>>, rs: seq<ByteRange>)
    requires Scan(segs, rs).1 == None
    ensures var t := Scan(segs, rs).0; forall i :: 0 <= i < |t| ==> !Pooled(t[i])
  {
    if segs != [] {
      ScanEmptiesPool(segs[1..], rs);
    }
  }

  /** trySend sends a frame if and only if none of the four reasons holds; and after it sent nothing, one holds. */
  lemma SendsUnlessBlocked<P>(s: Sender<P>, now: int, written: seq<byte>)
    requires SenderInv(s, written)
    ensures Runnable(s) && forall i :: 0 <= i < |s.segs| ==> |s.segs[i].data| > 0
    ensures var (t, sent) := TrySend(s, now);
      (sent.Frame? <==> !Blocked(s, now)) && (sent == Nothing ==> Blocked(t, now))
  {
    InvRunnable(s, written);
    ScanFindsHole(s.segs, s.peerRanges);
    ScanHoleIsFirst(s.segs, s.peerRanges);
    var (segs, h) := Scan(s.segs, s.peerRanges);
    if h.Some? {
      var seg := s.segs[h.value.idx];
      CoveredIffNoHole(s.peerRanges, seg.off, SegEnd(seg));
      HoleUnlessAtCap(s.(segs := segs), h.value, now);
    } else {
      ScanEmptiesPool(s.segs, s.peerRanges);
      NewUnlessBlocked(s.(segs := segs), now);
    }
  }

  lemma HoleUnlessAtCap<P>(u: Sender<P>, h: Hole, now: int)
    requires Known(u.live, u.pm) && HoleInside(u.segs, h)
    ensures var (t, sent) := SendHole(u, h, now);
      (sent.Frame? <==> !AllAtCap(u, now)) && (sent == Nothing ==> t == u)
  {
    PickDataPrefersHealthy(u.live, u.pm, ResendEnd(h) - h.start, now);
  }

  lemma NewUnlessBlocked<P>(u: Sender<P>, now: int)
    requires Runnable(u)
    ensures var (t, sent) := SendNew(u, now);
      && (sent.Frame? <==> u.pendingBytes != 0 && u.sentOff - u.cumAcked < u.advWindow && !AllAtCap(u, now))
      && (sent == Nothing ==> t == u)
  {
    if u.pendingBytes != 0 && u.sentOff - u.cumAcked < u.advWindow {
      PickDataPrefersHealthy(u.live, u.pm, NewLen(u), now);
    }
  }

  // ---------- the pump stops ----------

  function PoolBytes<P>(segs: seq<SendSeg<P>>): nat {
    if segs == [] then 0 else (if Pooled(segs[0]) then |segs[0].data| else 0) + PoolBytes(segs[1..])
  }

  lemma {:induction false} PoolConcat<P>(a: seq<SendSeg<P>>, b: seq<SendSeg<P>>)
    ensures PoolBytes(a + b) == PoolBytes(a) + PoolBytes(b)
  {
    if a == [] {
      assert a + b == b;
    } else {
      PoolConcat(a[1..], b);
      assert (a + b)[1..] == a[1..] + b;
    }
  }

  lemma {:induction false} ScanShrinksPool<P>(segs: seq<SendSeg<P>>, rs: seq<ByteRange>)
    ensures PoolBytes(Scan(segs, rs).0) <= PoolBytes(segs)
  {
    if segs != [] {
      ScanShrinksPool(segs[1..], rs);
      var t := Scan(segs[1..], rs).0;
      assert ([segs[0]] + t)[1..] == t;
      assert ([segs[0].(sacked := true)] + t)[1..] == t;
    }
  }

  lemma PiecesPool<P>(s: SendSeg<P>, hs: nat, n: nat, p: P, now: int)
    requires s.off <= hs && hs + n <= SegEnd(s)
    ensures PoolBytes(Pieces(s, hs, n, p, now)) <= |s.data| - n
  {
    var d0 := hs - s.off;
    var a := if d0 > 0 then [SendSeg(s.off, s.data[..d0], None, 0, true)] else [];
    var m := [SendSeg(hs, s.data[d0..d0 + n], Some(p), now, false)];
    var z := if d0 + n < |s.data| then [SendSeg(hs + n, s.data[d0 + n..], None, 0, false)] else [];
    PoolConcat(a + m, z);
    PoolConcat(a, m);
  }

  lemma PoolReplace<P>(segs: seq<SendSeg<P>>, i: nat, mid: seq<SendSeg<P>>)
    requires i < |segs|
    ensures PoolBytes(segs[..i] + mid + segs[i + 1..]) == PoolBytes(segs) - PoolBytes([segs[i]]) + PoolBytes(mid)
  {
    CutAround(segs, i);
    PoolConcat(segs[..i] + [segs[i]], segs[i + 1..]);
    PoolConcat(segs[..i], [segs[i]]);
    PoolConcat(segs[..i] + mid, segs[i + 1..]);
    PoolConcat(segs[..i], mid);
  }

  /** Bytes that could still be put on a path: never sent, or waiting in the pool. */
  function ToSend<P>(s: Sender<P>): int {
    s.pendingBytes + PoolBytes(s.segs)
  }

  lemma ToSendIsBytes<P>(s: Sender<P>, written: seq<byte>)
    requires SenderInv(s, written)
    ensures ToSend(s) >= 0
  {
  }

  /** The step leaves no more to send, and less by the payload if a frame went out. */
  ghost predicate Descends<P>(s: Sender<P>, t: Sender<P>, sent: Sent<P>) {
    && t.live == s.live && t.pm.Keys == s.pm.Keys && ToSend(t) <= ToSend(s)
    && (sent.Frame? ==> |sent.payload| > 0 && ToSend(t) <= ToSend(s) - |sent.payload| && sent.path in s.live)
  }

  lemma HoleDescends<P>(u: Sender<P>, h: Hole, now: int)
    requires Known(u.live, u.pm) && HoleInside(u.segs, h)
    ensures var (t, sent) := SendHole(u, h, now); Descends(u, t, sent)
  {
    var n := ResendEnd(h) - h.start;
    PickDataPrefersHealthy(u.live, u.pm, n, now);
    var (t, sent) := SendHole(u, h, now);
    if sent.Frame? {
      PiecesPool(u.segs[h.idx], h.start, n, sent.path, now);
      PoolReplace(u.segs, h.idx, Pieces(u.segs[h.idx], h.start, n, sent.path, now));
    }
  }

  lemma NewDescends<P>(u: Sender<P>, now: int, written: seq<byte>)
    requires QueueInv(u, written) && Runnable(u)
    ensures var (t, sent) := SendNew(u, now); Descends(u, t, sent)
  {
    SendNewFrame(u, now, written);
    var (t, sent) := SendNew(u, now);
    if sent.Frame? {
      PoolConcat(u.segs, [SendSeg(u.sentOff, sent.payload, Some(sent.path), now, false)]);
    }
  }

  /** Each frame the pump sends leaves less to send, by its length, and the paths as they were. */
  lemma TrySendDescends<P>(s: Sender<P>, now: int, written: seq<byte>)
    requires SenderInv(s, written)
    ensures Runnable(s) && forall i :: 0 <= i < |s.segs| ==> |s.segs[i].data| > 0
    ensures var (t, sent) := TrySend(s, now); Descends(s, t, sent)
  {
    InvRunnable(s, written);
    var (segs, h) := Scan(s.segs, s.peerRanges);
    ScanFindsHole(s.segs, s.peerRanges);
    ScanShrinksPool(s.segs, s.peerRanges);
    ScanKeeps(s, written);
    var u := s.(segs := segs);
    if h.Some? {
      HoleDescends(u, h.value, now);
    } else {
      NewDescends(u, now, written);
    }
  }
}
