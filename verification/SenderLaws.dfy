/** What each operation of the sender does, by what can be seen from outside: how much, which bytes, for whom. */
module SenderLaws {
  import opened Base
  import opened Intervals
  import opened Paths
  import opened Scheduler
  import opened Sender
  import opened SenderProofs
  import opened SenderInvariant
  import opened Progress
  import System
  import opened SendTimes

  // ---------- Write ----------

  /**
   * Of the bytes written and not yet acknowledged there are never more than bufCap by a Write, and a Write
   * takes all it was given or fills the buffer; it takes nothing only if it must.
   */
  lemma WriteFills<P>(s: Sender<P>, written: seq<byte>, b: seq<byte>, bufCap: int)
    requires SenderInv(s, written)
    ensures var (n, t) := WriteSome(s, b, bufCap);
      && (n == 0 <==> s.closed || b == [] || |written| - s.cumAcked >= bufCap)
      && (n > 0 ==> |written| + n - t.cumAcked <= bufCap && (n == |b| || |written| + n - t.cumAcked == bufCap))
  {
    assert |written[s.sentOff..]| == |QueueBytes(s.sendQ, s.qHead)|;
  }

  // ---------- trySend ----------

  /** A new frame goes up to the window, to 64 KiB, or to the end of what one Write queued. */
  lemma NewFrameFills<P>(s: Sender<P>, now: int, written: seq<byte>)
    requires QueueInv(s, written) && Runnable(s)
    ensures var (t, sent) := SendNew(s, now);
      sent.Frame? ==>
        && s.sendQ != []
        && (t.sentOff == s.cumAcked + s.advWindow || |sent.payload| == 65536 || |t.sendQ| == |s.sendQ| - 1)
  {
    SendNewFrame(s, now, written);
    if s.pendingBytes != 0 && s.sentOff - s.cumAcked < s.advWindow {
      PickDataPrefersHealthy(s.live, s.pm, NewLen(s), now);
    }
  }

  /** The frame carries missing bytes of segment i only, and ends at 64 KiB or before a byte that is not missing. */
  ghost predicate Patches<P>(s: Sender<P>, i: nat, off: nat, len: nat) {
    && len > 0 && (forall x :: off <= x < off + len ==> Missing(s, i, x))
    && (len == 65536 || !Missing(s, i, off + len))
  }

  lemma HolePatches<P>(s: Sender<P>, h: Hole, written: seq<byte>)
    requires SenderInv(s, written) && Scan(s.segs, s.peerRanges).1 == Some(h)
    ensures h.start < h.end && Patches(s, h.idx, h.start, ResendEnd(h) - h.start)
  {
    TilesBounds(s.segs, written, s.cumAcked, s.sentOff);
    ScanFindsHole(s.segs, s.peerRanges);
    ScanHoleIsFirst(s.segs, s.peerRanges);
    HoleIsFirstMaximalGap(s.segs[h.idx].off, SegEnd(s.segs[h.idx]), s.peerRanges);
  }

  lemma MissingIsBehind<P>(s: Sender<P>, written: seq<byte>)
    requires SenderInv(s, written)
    ensures forall i: nat, x :: Missing(s, i, x) ==>
      var h := Scan(s.segs, s.peerRanges).1; h.Some? && h.value.start <= x < s.sentOff
  {
    TilesBounds(s.segs, written, s.cumAcked, s.sentOff);
    forall i: nat, x | Missing(s, i, x)
      ensures var h := Scan(s.segs, s.peerRanges).1; h.Some? && h.value.start <= x < s.sentOff
    {
      FirstHoleIsBefore(s, written, i, x);
    }
  }

  lemma HoleFrame<P>(u: Sender<P>, h: Hole, now: int)
    requires Known(u.live, u.pm) && HoleInside(u.segs, h)
    ensures var sent := SendHole(u, h, now).1;
      sent.Frame? ==> sent.off == h.start && |sent.payload| == ResendEnd(h) - h.start
  {
    HoleGoesTo(u, h, now, PickData(u.live, u.pm, ResendEnd(h) - h.start, now));
  }

  /**
   * What the peer lacks goes first, lowest byte first, and as much of it as fits; new bytes go only when the
   * pool lacks nothing.
   */
  lemma LowestGoesFirst<P>(s: Sender<P>, now: int, written: seq<byte>)
    requires SenderInv(s, written)
    ensures SenderReady(s)
    ensures var sent := TrySend(s, now).1;
      sent.Frame? ==>
        && (forall i: nat, x :: Missing(s, i, x) ==> sent.off <= x && sent.off < s.sentOff)
        && (sent.off < s.sentOff ==> exists i: nat :: Patches(s, i, sent.off, |sent.payload|))
        && sent.off <= s.sentOff
  {
    InvRunnable(s, written);
    var (segs, h) := Scan(s.segs, s.peerRanges);
    var u := s.(segs := segs);
    ScanFindsHole(s.segs, s.peerRanges);
    MissingIsBehind(s, written);
    if !s.closed && s.gotWindow {
      if h.Some? {
        HolePatches(s, h.value, written);
        HoleFrame(u, h.value, now);
        assert Missing(s, h.value.idx, h.value.start);
      } else {
        SendNewFrame(u, now, written);
      }
    }
  }

  // ---------- acknowledgements ----------

  /** What p is credited with when everything below cum is released: each of its segments, in order, now. */
  function CreditsFor<P(==)>(segs: seq<SendSeg<P>>, p: P, cum: nat, now: int): seq<PathOp> {
    if segs == [] then []
    else
      var s := segs[0];
      var n := if SegEnd(s) <= cum then |s.data| else cum - s.off;
      (if s.path == Some(p) && s.off < cum then [Credited(n, now)] else []) + CreditsFor(segs[1..], p, cum, now)
  }

  predicate OnlyCredits(ops: seq<PathOp>) {
    forall i :: 0 <= i < |ops| ==> ops[i].Credited?
  }

  /** Rate samples do not look at the in-flight account. */
  lemma {:induction false} CreditsIgnoreInflight(p: PathSt, k: int, ops: seq<PathOp>)
    requires OnlyCredits(ops)
    ensures RunPath(p.(inflight := k), ops) == RunPath(p, ops).(inflight := k)
    decreases |ops|
  {
    if ops != [] {
      CreditsIgnoreInflight(StepPath(p, ops[0]), k, ops[1..]);
    }
  }

  lemma {:induction false} NothingToCredit<P>(segs: seq<SendSeg<P>>, p: P, cum: nat, now: int, written: seq<byte>,
                                              lo: nat, hi: nat)
    requires Tiles(segs, written, lo, hi) && cum <= lo
    ensures CreditsFor(segs, p, cum, now) == []
  {
    if segs != [] {
      NothingToCredit(segs[1..], p, cum, now, written, SegEnd(segs[0]), hi);
    }
  }

  lemma {:induction false} CreditsAreCredits<P>(segs: seq<SendSeg<P>>, p: P, cum: nat, now: int)
    ensures OnlyCredits(CreditsFor(segs, p, cum, now))
  {
    if segs != [] {
      CreditsAreCredits(segs[1..], p, cum, now);
    }
  }

  lemma FreeOneCredits<P>(pm: map<P, PathSt>, s: SendSeg<P>, n: nat, now: int, p: P, more: seq<PathOp>)
    requires p in pm && OnlyCredits(more)
    ensures var qm := FreeOne(pm, s, n, now);
      var ops := (if s.path == Some(p) then [Credited(n, now)] else []) + more;
      p in qm && RunPath(qm[p], more) == RunPath(pm[p], ops).(inflight := RunPath(qm[p], more).inflight)
  {
    var qm := FreeOne(pm, s, n, now);
    if s.path == Some(p) {
      var c := CreditDelivered(pm[p], n, now);
      assert ([Credited(n, now)] + more)[1..] == more;
      assert qm[p] == c.(inflight := qm[p].inflight);
      CreditsIgnoreInflight(c, qm[p].inflight, more);
    } else {
      assert [] + more == more;
    }
  }

  /** Each path is credited, at this clock, with the bytes released that were sent on it, and nobody else is. */
  lemma {:induction false} FreeCredits<P>(segs: seq<SendSeg<P>>, pm: map<P, PathSt>, cum: nat, un: nat, now: int,
                                          written: seq<byte>, lo: nat, hi: nat, p: P)
    requires Tiles(segs, written, lo, hi) && p in pm
    ensures var qm := Free(segs, pm, cum, un, now).1;
      p in qm && qm[p] == RunPath(pm[p], CreditsFor(segs, p, cum, now)).(inflight := qm[p].inflight)
    decreases |segs|
  {
    if segs != [] {
      var s := segs[0];
      if SegEnd(s) <= cum {
        CreditsAreCredits(segs[1..], p, cum, now);
        FreeOneCredits(pm, s, |s.data|, now, p, CreditsFor(segs[1..], p, cum, now));
        FreeCredits(segs[1..], FreeOne(pm, s, |s.data|, now), cum, un + Unassigned(s, |s.data|), now,
                    written, SegEnd(s), hi, p);
      } else {
        NothingToCredit(segs[1..], p, cum, now, written, SegEnd(s), hi);
        if s.off < cum {
          FreeOneCredits(pm, s, cum - s.off, now, p, []);
        }
      }
    }
  }

  /** An acknowledgement costs the path it came on, and no other, exactly if it is new and not valid. */
  lemma InvalidAckCostsItsPath(s: Sender<nat>, a: AckFrame, via: nat, now: int, nowTs: int, q: nat)
    requires PathInv(s)
    ensures var t := System.HearAck(s, a, via, now, nowTs);
      q in t.live <==> q in s.live && !(q == via && !Stale(s, a) && !ValidAck(s, a))
  {
    if via in s.pm {
      DropTakesOnly(s, via);
    }
  }

  // ---------- the path set ----------

  /** A dropped path's bytes wait to be sent again, and nothing else changes for any byte. */
  lemma {:induction false} UnassignStates<P>(segs: seq<SendSeg<P>>, p: P, x: int)
    ensures StateAt(Unassign(segs, p), x) == match StateAt(segs, x)
                                             case None => None
                                             case Some(b) => Some(if b.path == Some(p) then b.(path := None) else b)
  {
    if segs != [] {
      UnassignStates(segs[1..], p, x);
      assert Unassign(segs, p)[1..] == Unassign(segs[1..], p);
    }
  }

  /** A path joins once, while the stream is open; its first rate sample counts from then, and it knows nothing yet. */
  lemma AttachesExactly<P>(s: Sender<P>, p: P, id: nat, now: int, q: P, later: int)
    requires PathInv(s)
    ensures var t, joins := AttachPath(s, p, id, now), !s.closed && p !in s.known;
      && (q in t.live <==> q in s.live || (q == p && joins))
      && (q in s.pm ==> q in t.pm && t.pm[q] == s.pm[q])
      && (joins ==>
           var n := t.pm[p];
           && n.id == id && n.inflight == 0 && n.delivered == 0 && !n.hasRTT && !n.suspect
           && PeriodStart(n, later) == now && EffRate(n, later) == 0.0)
  {
  }
}
