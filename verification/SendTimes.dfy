/** Where every unreleased byte is, and when it was sent there: after one frame, and over whole runs. */
module SendTimes {
  import opened Base
  import opened Paths
  import opened Scheduler
  import opened Sender
  import opened SenderProofs
  import opened SenderInvariant
  import opened System
  import opened SystemSteps
  import opened SystemTheorems

  /** The path a byte is on, since when, and whether it is known to be at the receiver. */
  datatype ByteState<P> = ByteState(path: Option<P>, sentAt: int, sacked: bool)

  function StateAt<P>(segs: seq<SendSeg<P>>, x: int): Option<ByteState<P>> {
    if segs == [] then None
    else if segs[0].off <= x < SegEnd(segs[0]) then Some(ByteState(segs[0].path, segs[0].sentAt, segs[0].sacked))
    else StateAt(segs[1..], x)
  }

  lemma {:induction false} StateConcat<P>(a: seq<SendSeg<P>>, b: seq<SendSeg<P>>, x: int)
    ensures StateAt(a + b, x) == if StateAt(a, x).Some? then StateAt(a, x) else StateAt(b, x)
  {
    if a == [] {
      assert a + b == b;
    } else {
      StateConcat(a[1..], b, x);
      assert (a + b)[1..] == a[1..] + b;
    }
  }

  /** The pieces of a segment, byte by byte: what is sent, what the peer holds before it, what is left behind it. */
  lemma PieceStates<P>(s: SendSeg<P>, hs: nat, n: nat, p: P, now: int, x: int)
    requires s.off <= hs && hs + n <= SegEnd(s) && n > 0
    ensures StateAt(Pieces(s, hs, n, p, now), x)
         == if hs <= x < hs + n then Some(ByteState(Some(p), now, false))
            else if s.off <= x < hs then Some(ByteState(None, 0, true))
            else if hs + n <= x < SegEnd(s) then Some(ByteState(None, 0, false))
            else None
  {
    var d0 := hs - s.off;
    var a := if d0 > 0 then [SendSeg(s.off, s.data[..d0], None, 0, true)] else [];
    var m := [SendSeg(hs, s.data[d0..d0 + n], Some(p), now, false)];
    var z := if d0 + n < |s.data| then [SendSeg(hs + n, s.data[d0 + n..], None, 0, false)] else [];
    assert Pieces(s, hs, n, p, now) == a + m + z;
    StateConcat(a + m, z, x);
    StateConcat(a, m, x);
  }

  /** Putting mid in the place of segment i changes the bytes of that segment only. */
  lemma ReplaceStates<P>(segs: seq<SendSeg<P>>, i: nat, mid: seq<SendSeg<P>>, written: seq<byte>, lo: nat, hi: nat,
                         x: int)
    requires Tiles(segs, written, lo, hi) && i < |segs|
    requires segs[i].off <= x < SegEnd(segs[i]) || StateAt(mid, x) == None
    ensures StateAt(segs[..i] + mid + segs[i + 1..], x)
         == if segs[i].off <= x < SegEnd(segs[i]) && StateAt(mid, x).Some? then StateAt(mid, x)
            else if segs[i].off <= x < SegEnd(segs[i]) then StateAt(segs[i + 1..], x)
            else StateAt(segs, x)
  {
    StateConcat(segs[..i] + mid, segs[i + 1..], x);
    StateConcat(segs[..i], mid, x);
    CutAround(segs, i);
    StateConcat(segs[..i] + [segs[i]], segs[i + 1..], x);
    StateConcat(segs[..i], [segs[i]], x);
    BeforeTile(segs, i, written, lo, hi, x);
  }

  lemma {:induction false} BeforeTile<P>(segs: seq<SendSeg<P>>, i: nat, written: seq<byte>, lo: nat, hi: nat, x: int)
    requires Tiles(segs, written, lo, hi) && i < |segs|
    ensures x >= segs[i].off ==> StateAt(segs[..i], x) == None
  {
    if i > 0 {
      TilesBounds(segs[1..], written, SegEnd(segs[0]), hi);
      assert segs[1..][i - 1] == segs[i];
      assert segs[..i][1..] == segs[1..][..i - 1];
      BeforeTile(segs[1..], i - 1, written, SegEnd(segs[0]), hi, x);
    }
  }

  /** A frame of the pool, byte by byte. */
  lemma CommitHoleStates<P>(s: Sender<P>, h: Hole, n: nat, p: P, now: int, written: seq<byte>, x: int)
    requires Tiles(s.segs, written, s.cumAcked, s.sentOff) && HoleInside(s.segs, h) && 0 < n && h.start + n <= h.end
    requires p in s.pm
    ensures var seg := s.segs[h.idx];
      StateAt(CommitHole(s, h, n, p, now).segs, x)
      == if h.start <= x < h.start + n then Some(ByteState(Some(p), now, false))
         else if seg.off <= x < h.start then Some(ByteState(None, 0, true))
         else if h.start + n <= x < SegEnd(seg) then Some(ByteState(None, 0, false))
         else StateAt(s.segs, x)
  {
    var seg := s.segs[h.idx];
    PieceStates(seg, h.start, n, p, now, x);
    ReplaceStates(s.segs, h.idx, Pieces(seg, h.start, n, p, now), written, s.cumAcked, s.sentOff, x);
  }

  /** Whatever path a byte is on now, it was on before, since the same time. */
  ghost predicate NoneMoved<P>(segs: seq<SendSeg<P>>, next: seq<SendSeg<P>>, x: int) {
    StateAt(next, x).Some? && StateAt(next, x).value.path.Some? ==>
      && StateAt(segs, x).Some? && StateAt(segs, x).value.path == StateAt(next, x).value.path
      && StateAt(segs, x).value.sentAt == StateAt(next, x).value.sentAt
  }

  lemma {:induction false} ScanMovesNone<P>(segs: seq<SendSeg<P>>, rs: seq<ByteRange>, x: int)
    ensures NoneMoved(segs, Scan(segs, rs).0, x)
  {
    if segs != [] {
      ScanMovesNone(segs[1..], rs, x);
      var t := Scan(segs[1..], rs).0;
      assert ([segs[0]] + t)[1..] == t;
      assert ([segs[0].(sacked := true)] + t)[1..] == t;
    }
  }

  lemma {:induction false} SweepMovesNone<P>(segs: seq<SendSeg<P>>, pm: map<P, PathSt>, rs: seq<ByteRange>, now: int,
                                             ts: int, x: int)
    requires PathsKnown(segs, pm)
    ensures NoneMoved(segs, Sweep(segs, pm, rs, now, ts).0, x)
    decreases |segs|
  {
    if segs != [] {
      var (s, qm) := SweepSeg(segs[0], pm, rs, now, ts);
      PathsKnownGrows(segs[1..], pm, qm);
      SweepMovesNone(segs[1..], qm, rs, now, ts, x);
      var t := Sweep(segs[1..], qm, rs, now, ts).0;
      assert ([s] + t)[1..] == t;
    }
  }

  lemma {:induction false} UnassignMovesNone<P>(segs: seq<SendSeg<P>>, p: P, x: int)
    ensures NoneMoved(segs, Unassign(segs, p), x)
  {
    if segs != [] {
      UnassignMovesNone(segs[1..], p, x);
      assert Unassign(segs, p)[1..] == Unassign(segs[1..], p);
    }
  }

  /** What is released is gone, and every other byte is as it was. */
  lemma {:induction false} FreeStates<P>(segs: seq<SendSeg<P>>, pm: map<P, PathSt>, cum: nat, un: nat, now: int,
                                         written: seq<byte>, lo: nat, hi: nat, x: int)
    requires Tiles(segs, written, lo, hi)
    ensures StateAt(Free(segs, pm, cum, un, now).0, x) == if x < cum then None else StateAt(segs, x)
    decreases |segs|
  {
    if segs != [] {
      var s := segs[0];
      if SegEnd(s) <= cum {
        FreeStates(segs[1..], FreeOne(pm, s, |s.data|, now), cum, un + Unassigned(s, |s.data|), now,
                   written, SegEnd(s), hi, x);
      } else {
        var rest := s.(off := cum, data := s.data[if s.off < cum then cum - s.off else 0..]);
        assert ([rest] + segs[1..])[1..] == segs[1..];
        if x < SegEnd(s) {
          BelowTiles(segs[1..], written, SegEnd(s), hi, x);
        }
      }
    }
  }

  lemma {:induction false} BelowTiles<P>(segs: seq<SendSeg<P>>, written: seq<byte>, lo: nat, hi: nat, x: int)
    requires Tiles(segs, written, lo, hi) && x < lo
    ensures StateAt(segs, x) == None
  {
    if segs != [] {
      BelowTiles(segs[1..], written, SegEnd(segs[0]), hi, x);
    }
  }

  // ---------- one frame ----------

  /** The bytes of the frame are on its path since now; every other byte that is on a path was there before. */
  ghost predicate Moved<P>(segs: seq<SendSeg<P>>, next: seq<SendSeg<P>>, sent: Sent<P>, now: int, x: int) {
    if sent.Frame? && sent.off <= x < sent.off + |sent.payload| then
      StateAt(next, x) == Some(ByteState(Some(sent.path), now, false))
    else
      NoneMoved(segs, next, x)
  }

  lemma HoleMoves<P>(u: Sender<P>, h: Hole, now: int, written: seq<byte>, x: int)
    requires Tiles(u.segs, written, u.cumAcked, u.sentOff) && Known(u.live, u.pm) && HoleInside(u.segs, h)
    ensures var (t, sent) := SendHole(u, h, now); Moved(u.segs, t.segs, sent, now, x)
  {
    var n := ResendEnd(h) - h.start;
    var p := PickData(u.live, u.pm, n, now);
    HoleGoesTo(u, h, now, p);
    if p.Some? {
      CommitHoleStates(u, h, n, p.value, now, written, x);
    }
  }

  lemma NewMoves<P>(u: Sender<P>, now: int, written: seq<byte>, x: int)
    requires Tiles(u.segs, written, u.cumAcked, u.sentOff) && QueueInv(u, written) && Runnable(u)
    ensures var (t, sent) := SendNew(u, now); Moved(u.segs, t.segs, sent, now, x)
  {
    SendNewFrame(u, now, written);
    var (t, sent) := SendNew(u, now);
    if sent.Frame? {
      var m := SendSeg(u.sentOff, sent.payload, Some(sent.path), now, false);
      StateConcat(u.segs, [m], x);
      AboveTiles(u.segs, written, u.cumAcked, u.sentOff, x);
    }
  }

  lemma {:induction false} AboveTiles<P>(segs: seq<SendSeg<P>>, written: seq<byte>, lo: nat, hi: nat, x: int)
    requires Tiles(segs, written, lo, hi)
    ensures x >= hi ==> StateAt(segs, x) == None
  {
    if segs != [] {
      TilesBounds(segs[1..], written, SegEnd(segs[0]), hi);
      AboveTiles(segs[1..], written, SegEnd(segs[0]), hi, x);
    }
  }

  /** New or sent again: after trySend, the bytes of its frame, and no others, are on its path since now. */
  lemma TrySendMoves<P>(s: Sender<P>, now: int, written: seq<byte>, x: int)
    requires SenderInv(s, written)
    ensures SenderReady(s)
    ensures var (t, sent) := TrySend(s, now); Moved(s.segs, t.segs, sent, now, x)
  {
    InvRunnable(s, written);
    var (segs, h) := Scan(s.segs, s.peerRanges);
    var u := s.(segs := segs);
    ScanFindsHole(s.segs, s.peerRanges);
    ScanKeeps(s, written);
    ScanMovesNone(s.segs, s.peerRanges, x);
    if !s.closed && s.gotWindow {
      if h.Some? {
        HoleMoves(u, h.value, now, written, x);
      } else {
        InvRunnable(u, written);
        NewMoves(u, now, written, x);
      }
    }
  }

  // ---------- whole runs ----------

  /** A frame that went out: its range, its path and the time. */
  datatype SentRec = SentRec(off: nat, len: nat, path: nat, now: int)

  /** The frames a run sends, in order. */
  ghost function LogOf(s: Sys, steps: seq<Step>): seq<SentRec>
    decreases |steps|
  {
    if steps == [] || !SenderReady(s.snd) then []
    else
      RecOf(s, steps[0])
      + (match Next(s, steps[0]) case None => [] case Some(t) => LogOf(t, steps[1..]))
  }

  ghost function RecOf(s: Sys, step: Step): seq<SentRec>
    requires SenderReady(s.snd)
  {
    if step.Send? && TrySend(s.snd, step.now).1.Frame? then
      var sent := TrySend(s.snd, step.now).1;
      [SentRec(sent.off, |sent.payload|, sent.path, step.now)]
    else []
  }

  /** The last frame of the log that carried offset x. */
  function LastWith(log: seq<SentRec>, x: int): Option<SentRec>
    decreases |log|
  {
    if log == [] then None
    else
      var e := log[|log| - 1];
      if e.off <= x < e.off + e.len then Some(e) else LastWith(log[..|log| - 1], x)
  }

  /** If x is on a path, the last frame that carried it went out on that path at that time. */
  ghost predicate Timed(segs: seq<SendSeg<nat>>, log: seq<SentRec>, x: int) {
    StateAt(segs, x).Some? && StateAt(segs, x).value.path.Some? ==>
      && LastWith(log, x).Some? && LastWith(log, x).value.path == StateAt(segs, x).value.path.value
      && LastWith(log, x).value.now == StateAt(segs, x).value.sentAt
  }

  lemma SendStepTimes(s: Sys, now: int, ts: int, log: seq<SentRec>, x: int)
    requires SysInv(s) && SenderReady(s.snd) && Timed(s.snd.segs, log, x)
    ensures Timed(Next(s, Send(now, ts)).value.snd.segs, log + RecOf(s, Send(now, ts)), x)
  {
    TrySendMoves(s.snd, now, s.written, x);
    var rec := RecOf(s, Send(now, ts));
    if rec != [] {
      assert (log + rec)[..|log|] == log;
    } else {
      assert log + rec == log;
    }
  }

  lemma {:induction false} DropAllMovesNone(s: Sender<nat>, ps: seq<nat>, x: int)
    requires Known(ps, s.pm)
    ensures NoneMoved(s.segs, DropAll(s, ps).segs, x)
    decreases |ps|
  {
    if ps != [] {
      UnassignMovesNone(s.segs, ps[0], x);
      DropAllMovesNone(DropPath(s, ps[0]), ps[1..], x);
    }
  }

  lemma TickMovesNone(s: Sender<nat>, now: int, ts: int, x: int)
    requires SenderReady(s)
    ensures NoneMoved(s.segs, TickSender(s, now, ts).segs, x)
  {
    SweepMovesNone(s.segs, s.pm, s.peerRanges, now, ts, x);
    var u := SweepAll(s, now, ts);
    TimedOutAreLive(u.live, u.pm, now);
    DropAllMovesNone(u, TimedOutPaths(u.live, u.pm, now), x);
  }

  lemma HearMovesNone(s: Sender<nat>, a: AckFrame, via: nat, now: int, nowTs: int, written: seq<byte>, x: int)
    requires SenderInv(s, written)
    ensures NoneMoved(s.segs, HearAck(s, a, via, now, nowTs).segs, x)
  {
    UnassignMovesNone(s.segs, via, x);
    FreeStates(s.segs, Sample(s, a.tsPath, a.tsEcho, nowTs), a.cum, s.unassigned, now,
               written, s.cumAcked, s.sentOff, x);
  }

  lemma QuietMovesNone(s: Sys, step: Step, x: int)
    requires SenderReady(s.snd) && Next(s, step).Some? && !step.Send? && !step.Tick? && !step.DeliverAck?
    ensures NoneMoved(s.snd.segs, Next(s, step).value.snd.segs, x)
  {
    if step.Drop? {
      UnassignMovesNone(s.snd.segs, step.p, x);
    }
  }

  lemma StepTimes(s: Sys, step: Step, log: seq<SentRec>, x: int)
    requires SysInv(s) && SenderReady(s.snd) && Next(s, step).Some? && Timed(s.snd.segs, log, x)
    ensures Timed(Next(s, step).value.snd.segs, log + RecOf(s, step), x)
  {
    if step.Send? {
      SendStepTimes(s, step.now, step.ts, log, x);
    } else {
      assert log + RecOf(s, step) == log;
      match step
      case Tick(now, ts) =>
        NextTick(s, now, ts);
        TickMovesNone(s.snd, now, ts, x);
      case DeliverAck(a, via, now, nowTs) => HearMovesNone(s.snd, a, via, now, nowTs, s.written, x);
      case _ => QuietMovesNone(s, step, x);
    }
  }

  lemma FirstStep(s: Sys, steps: seq<Step>, log: seq<SentRec>) returns (t: Sys)
    requires SysInv(s) && steps != []
    ensures SenderReady(s.snd) && Next(s, steps[0]) == Some(t) && SysInv(t)
    ensures RunFrom(s, steps) == RunFrom(t, steps[1..])
    ensures log + LogOf(s, steps) == log + RecOf(s, steps[0]) + LogOf(t, steps[1..])
  {
    StepKeepsInv(s, steps[0]);
    t := Next(s, steps[0]).value;
    Associates(log, RecOf(s, steps[0]), LogOf(t, steps[1..]));
  }

  lemma Associates<T>(a: seq<T>, b: seq<T>, c: seq<T>)
    ensures a + (b + c) == a + b + c
  {
  }

  lemma {:induction false} RunTimes(s: Sys, steps: seq<Step>, log: seq<SentRec>, x: int)
    requires SysInv(s) && Timed(s.snd.segs, log, x)
    ensures RunFrom(s, steps).Some? && Timed(RunFrom(s, steps).value.snd.segs, log + LogOf(s, steps), x)
    decreases |steps|
  {
    if steps == [] {
      assert log + [] == log;
    } else {
      var t := FirstStep(s, steps, log);
      StepTimes(s, steps[0], log, x);
      RunTimes(t, steps[1..], log + RecOf(s, steps[0]), x);
    }
  }

  /**
   * In every run, a byte that is on a path is there since the time of the last frame that carried it, and on
   * the path of that frame.
   */
  lemma SentAtIsTrue(cap: nat, start: int, steps: seq<Step>, x: int)
    ensures RunFrom(Initial(cap, start), steps).Some?
    ensures Timed(RunFrom(Initial(cap, start), steps).value.snd.segs, LogOf(Initial(cap, start), steps), x)
  {
    InitialInv(cap, start);
    RunTimes(Initial(cap, start), steps, [], x);
    assert [] + LogOf(Initial(cap, start), steps) == LogOf(Initial(cap, start), steps);
  }
}
