/** When a silent path is given up: the soft-failure mark, its fresh evidence and its timeout, over whole runs. */
module Liveness {
  import opened Base
  import opened Paths
  import opened Scheduler
  import opened Sender
  import opened SenderInvariant
  import opened System
  import opened SystemSteps
  import opened SystemTheorems

  /** The same path with the same round-trip estimates, and so the same timeout. */
  predicate SameTimes(a: PathSt, b: PathSt) {
    (a.id, a.srtt, a.rttvar, a.minRTT, a.hasRTT) == (b.id, b.srtt, b.rttvar, b.minRTT, b.hasRTT)
  }

  /** The same mark as well. */
  predicate SameMark(a: PathSt, b: PathSt) {
    && (a.suspect, a.suspectSince, a.suspectSinceTs) == (b.suspect, b.suspectSince, b.suspectSinceTs)
    && SameTimes(a, b)
  }

  /** No step on the table of paths touched any mark. */
  ghost predicate MarksStay<P>(pm: map<P, PathSt>, qm: map<P, PathSt>) {
    forall p :: p in pm ==> p in qm && SameMark(pm[p], qm[p])
  }

  // ---------- what leaves the marks alone ----------

  lemma {:induction false} FreeLeavesMarks<P>(segs: seq<SendSeg<P>>, pm: map<P, PathSt>, cum: nat, un: nat, now: int)
    ensures MarksStay(pm, Free(segs, pm, cum, un, now).1)
    decreases |segs|
  {
    if segs != [] {
      var s := segs[0];
      if SegEnd(s) <= cum {
        FreeLeavesMarks(segs[1..], FreeOne(pm, s, |s.data|, now), cum, un + Unassigned(s, |s.data|), now);
      }
    }
  }

  lemma HoleLeavesMarks<P>(s: Sender<P>, h: Hole, now: int)
    requires Known(s.live, s.pm) && HoleInside(s.segs, h)
    ensures MarksStay(s.pm, SendHole(s, h, now).0.pm) && SendHole(s, h, now).0.pm.Keys == s.pm.Keys
  {
    PickDataPrefersHealthy(s.live, s.pm, ResendEnd(h) - h.start, now);
  }

  lemma NewLeavesMarks<P>(s: Sender<P>, now: int)
    requires Runnable(s)
    ensures MarksStay(s.pm, SendNew(s, now).0.pm) && SendNew(s, now).0.pm.Keys == s.pm.Keys
  {
    if s.pendingBytes != 0 && s.sentOff - s.cumAcked < s.advWindow {
      PickDataPrefersHealthy(s.live, s.pm, NewLen(s), now);
    }
  }

  lemma SendLeavesMarks<P>(s: Sender<P>, now: int)
    requires SenderReady(s)
    ensures MarksStay(s.pm, TrySend(s, now).0.pm) && TrySend(s, now).0.pm.Keys == s.pm.Keys
  {
    var (segs, h) := Scan(s.segs, s.peerRanges);
    var u := s.(segs := segs);
    ScanFindsHole(s.segs, s.peerRanges);
    if h.Some? {
      HoleLeavesMarks(u, h.value, now);
    } else {
      NewLeavesMarks(u, now);
    }
  }

  lemma {:induction false} DropLeavesMarks<P>(s: Sender<P>, ps: seq<P>)
    requires Known(ps, s.pm)
    ensures MarksStay(s.pm, DropAll(s, ps).pm)
    decreases |ps|
  {
    if ps != [] {
      DropLeavesMarks(DropPath(s, ps[0]), ps[1..]);
    }
  }

  // ---------- the sweep marks ----------

  /** A marked path keeps its mark; an unmarked one stays so or is marked now. */
  predicate Swept(a: PathSt, b: PathSt, now: int, ts: int) {
    && SameTimes(a, b)
    && (a.suspect ==> SameMark(a, b))
    && (!a.suspect && b.suspect ==> b.suspectSince == Some(now) && b.suspectSinceTs == ts)
  }

  lemma {:induction false} SweepMarks<P>(segs: seq<SendSeg<P>>, pm: map<P, PathSt>, rs: seq<ByteRange>, now: int,
                                         ts: int, p: P)
    requires PathsKnown(segs, pm) && p in pm
    ensures Swept(pm[p], Sweep(segs, pm, rs, now, ts).1[p], now, ts)
    decreases |segs|
  {
    if segs != [] {
      var (s, qm) := SweepSeg(segs[0], pm, rs, now, ts);
      PathsKnownGrows(segs[1..], pm, qm);
      SweepMarks(segs[1..], qm, rs, now, ts, p);
    }
  }

  /** A tick drops a live path exactly if it came in suspect for longer than its timeout. */
  lemma TickDropsExactly(s: Sender<nat>, now: int, ts: int, written: seq<byte>, p: nat)
    requires SenderInv(s, written) && SenderReady(s) && p in s.live
    ensures p !in TickSender(s, now, ts).live <==> TimedOut(s.pm[p], now)
    ensures Swept(s.pm[p], TickSender(s, now, ts).pm[p], now, ts)
  {
    var t := SweepAll(s, now, ts);
    SweepMarks(s.segs, s.pm, s.peerRanges, now, ts, p);
    SweepAllKeeps(s, now, ts, written);
    var late := TimedOutPaths(t.live, t.pm, now);
    TimedOutAreLive(t.live, t.pm, now);
    DropLeavesMarks(t, late);
    DropsExactly(t, late, written, p);
  }

  lemma {:induction false} DropsExactly<P>(s: Sender<P>, ps: seq<P>, written: seq<byte>, p: P)
    requires SenderInv(s, written) && Known(ps, s.pm)
    ensures p in DropAll(s, ps).live <==> p in s.live && p !in ps
    decreases |ps|
  {
    if ps != [] {
      DropKeeps(s, ps[0], written);
      RemoveKeeps(s.live, ps[0]);
      DropsExactly(DropPath(s, ps[0]), ps[1..], written, p);
    }
  }

  // ---------- one step ----------

  /** The send stamp of an accepted echo that the step brings for p. */
  ghost function EchoOn(s: Sys, step: Step, p: nat): Option<int>
    requires SenderReady(s.snd)
  {
    match step
    case PingReply(q, r, echoTs) => if q == p && p in s.snd.live && r >= 0 then Some(echoTs) else None
    case DeliverAck(a, via, now, nowTs) =>
      if a in s.acks && !Stale(s.snd, a) && ValidAck(s.snd, a) then SampleStamp(s.snd, a.tsPath, a.tsEcho, nowTs, p)
      else None
    case _ => None
  }

  function SampleStamp(s: Sender<nat>, tsPath: nat, tsEcho: int, nowTs: int, p: nat): Option<int>
    requires Known(s.live, s.pm)
  {
    if tsPath != 0 && tsEcho != 0 && FindPath(s.live, s.pm, tsPath - 1) == Some(p) && nowTs >= tsEcho then Some(tsEcho)
    else None
  }

  datatype Mark = Mark(suspect: bool, since: Option<int>, stamp: int)
  datatype Clock = Clock(now: int, ts: int)

  ghost function MarkOf(s: Sender<nat>, p: nat): Mark {
    if p in s.pm then Mark(s.pm[p].suspect, s.pm[p].suspectSince, s.pm[p].suspectSinceTs) else Mark(false, None, 0)
  }

  /** What one step of a run is to a path: the marks around it, the clock of a tick, and the stamp of an echo. */
  datatype Moment = Moment(before: Mark, after: Mark, tick: Option<Clock>, echo: Option<int>)

  predicate Later(echo: Option<int>, stamp: int) {
    echo.Some? && echo.value > stamp
  }

  predicate MadeBy(m: Mark, c: Clock) {
    m == Mark(true, Some(c.now), c.ts)
  }

  /** A mark is made only by a tick, records the tick's clock, and goes exactly with an echo of something later. */
  predicate Lawful(m: Moment) {
    && (m.before.suspect && !Later(m.echo, m.before.stamp) ==> m.after == m.before)
    && (m.before.suspect && Later(m.echo, m.before.stamp) ==> !m.after.suspect)
    && (!m.before.suspect && m.after.suspect ==> m.tick.Some? && MadeBy(m.after, m.tick.value))
  }

  ghost function MomentOf(s: Sys, step: Step, p: nat): Moment
    requires SenderReady(s.snd) && Next(s, step).Some?
  {
    Moment(MarkOf(s.snd, p), MarkOf(Next(s, step).value.snd, p),
           if step.Tick? then Some(Clock(step.now, step.ts)) else None,
           EchoOn(s, step, p))
  }

  lemma StayingIsLawful(s: Sender<nat>, t: Sender<nat>, p: nat)
    requires MarksStay(s.pm, t.pm) && t.pm.Keys == s.pm.Keys
    ensures Lawful(Moment(MarkOf(s, p), MarkOf(t, p), None, None))
  {
  }

  lemma SampleMarks(s: Sender<nat>, tsPath: nat, tsEcho: int, nowTs: int, p: nat)
    requires Known(s.live, s.pm) && p in s.pm
    ensures var pm, echo := Sample(s, tsPath, tsEcho, nowTs), SampleStamp(s, tsPath, tsEcho, nowTs, p);
      && pm.Keys == s.pm.Keys
      && (if Later(echo, s.pm[p].suspectSinceTs) then !pm[p].suspect
          else (pm[p].suspect, pm[p].suspectSince, pm[p].suspectSinceTs)
               == (s.pm[p].suspect, s.pm[p].suspectSince, s.pm[p].suspectSinceTs))
  {
    FindPathIsLive(s.live, s.pm, tsPath - 1);
  }

  lemma ApplyMarks(s: Sender<nat>, a: AckFrame, now: int, nowTs: int, p: nat)
    requires Known(s.live, s.pm)
    ensures var t, pm := ApplyAck(s, a, now, nowTs), Sample(s, a.tsPath, a.tsEcho, nowTs);
      t.pm.Keys == pm.Keys && MarksStay(pm, t.pm)
  {
    var pm := Sample(s, a.tsPath, a.tsEcho, nowTs);
    FreeLeavesMarks(s.segs, pm, a.cum, s.unassigned, now);
    FreeKeys(s.segs, pm, a.cum, s.unassigned, now);
  }

  lemma HeardIsLawful(s: Sender<nat>, a: AckFrame, now: int, nowTs: int, p: nat)
    requires Known(s.live, s.pm)
    ensures Lawful(Moment(MarkOf(s, p), MarkOf(ApplyAck(s, a, now, nowTs), p), None,
                          SampleStamp(s, a.tsPath, a.tsEcho, nowTs, p)))
  {
    ApplyMarks(s, a, now, nowTs, p);
    if p in s.pm {
      SampleMarks(s, a.tsPath, a.tsEcho, nowTs, p);
    } else {
      FindPathIsLive(s.live, s.pm, a.tsPath - 1);
    }
  }

  lemma AckIsLawful(s: Sys, a: AckFrame, via: nat, now: int, nowTs: int, p: nat)
    requires SenderReady(s.snd)
    ensures Lawful(MomentOf(s, DeliverAck(a, via, now, nowTs), p))
  {
    if a in s.acks && !Stale(s.snd, a) && ValidAck(s.snd, a) {
      HeardIsLawful(s.snd, a, now, nowTs, p);
    } else {
      StayingIsLawful(s.snd, DoHear(s, a, via, now, nowTs).snd, p);
    }
  }

  lemma TickIsLawful(s: Sys, now: int, ts: int, p: nat)
    requires SenderReady(s.snd)
    ensures Lawful(MomentOf(s, Tick(now, ts), p))
  {
    var t := SweepAll(s.snd, now, ts);
    TimedOutAreLive(t.live, t.pm, now);
    DropLeavesMarks(t, TimedOutPaths(t.live, t.pm, now));
    if p in s.snd.pm {
      SweepMarks(s.snd.segs, s.snd.pm, s.snd.peerRanges, now, ts, p);
    }
  }

  lemma SendIsLawful(s: Sys, now: int, ts: int, p: nat)
    requires SenderReady(s.snd)
    ensures Lawful(MomentOf(s, Send(now, ts), p))
  {
    SendLeavesMarks(s.snd, now);
    StayingIsLawful(s.snd, TrySend(s.snd, now).0, p);
  }

  lemma QuietIsLawful(s: Sys, step: Step, p: nat)
    requires SenderReady(s.snd) && PathInv(s.snd) && Next(s, step).Some?
    requires !step.Send? && !step.DeliverAck? && !step.Tick?
    ensures Lawful(MomentOf(s, step, p))
  {
  }

  lemma StepIsLawful(s: Sys, step: Step, p: nat)
    requires SenderReady(s.snd) && PathInv(s.snd) && Next(s, step).Some?
    ensures Lawful(MomentOf(s, step, p))
  {
    match step
    case Send(now, ts) => SendIsLawful(s, now, ts, p);
    case DeliverAck(a, via, now, nowTs) => AckIsLawful(s, a, via, now, nowTs, p);
    case Tick(now, ts) => TickIsLawful(s, now, ts, p);
    case _ => QuietIsLawful(s, step, p);
  }

  // ---------- whole runs ----------

  /** The moments of a run as path p sees them. */
  ghost function History(s: Sys, steps: seq<Step>, p: nat): seq<Moment>
    requires SysInv(s)
    decreases |steps|
  {
    if steps == [] then []
    else
      StepKeepsInv(s, steps[0]);
      [MomentOf(s, steps[0], p)] + History(Next(s, steps[0]).value, steps[1..], p)
  }

  /** The mark is handed on from moment to moment, and each moment is lawful. */
  ghost predicate Chained(h: seq<Moment>, first: Mark, last: Mark) {
    if h == [] then first == last
    else h[0].before == first && Lawful(h[0]) && Chained(h[1..], h[0].after, last)
  }

  lemma {:induction false} HistoryIsChained(s: Sys, steps: seq<Step>, p: nat)
    requires SysInv(s)
    ensures RunFrom(s, steps).Some?
    ensures Chained(History(s, steps, p), MarkOf(s.snd, p), MarkOf(RunFrom(s, steps).value.snd, p))
    decreases |steps|
  {
    if steps != [] {
      StepKeepsInv(s, steps[0]);
      StepIsLawful(s, steps[0], p);
      HistoryIsChained(Next(s, steps[0]).value, steps[1..], p);
    }
  }

  /** No echo in h is of anything sent after stamp. */
  predicate Silent(h: seq<Moment>, stamp: int) {
    forall k :: 0 <= k < |h| ==> !Later(h[k].echo, stamp)
  }

  /** Moment m is a tick that put the mark on, and nothing sent after it has been echoed since. */
  predicate SilentSince(h: seq<Moment>, m: nat) {
    && m < |h| && h[m].tick.Some? && !h[m].before.suspect && h[m].after.suspect
    && Silent(h[m + 1..], h[m].tick.value.ts)
  }

  /** Along any chain, the path ends suspect exactly if it was marked and then silent to the end, or all along. */
  lemma {:induction false} SuspectMeansSilent(h: seq<Moment>, first: Mark, last: Mark)
    requires Chained(h, first, last)
    ensures first.suspect && Silent(h, first.stamp) ==> last == first
    ensures forall m: nat :: SilentSince(h, m) ==> MadeBy(last, h[m].tick.value)
    ensures last.suspect ==> (first.suspect && Silent(h, first.stamp)) || exists m: nat :: SilentSince(h, m)
    decreases |h|
  {
    if h != [] {
      var t := h[1..];
      SuspectMeansSilent(t, h[0].after, last);
      assert forall stamp :: Silent(h, stamp) <==> !Later(h[0].echo, stamp) && Silent(t, stamp) by {
        assert forall k :: 1 <= k < |h| ==> h[k] == t[k - 1];
        assert forall k :: 0 <= k < |t| ==> t[k] == h[k + 1];
      }
      forall m: nat | SilentSince(h, m)
        ensures MadeBy(last, h[m].tick.value)
      {
        if m > 0 {
          assert t[m..] == h[m + 1..];
          assert SilentSince(t, m - 1);
        }
      }
      if last.suspect {
        if exists m: nat :: SilentSince(t, m) {
          var m: nat :| SilentSince(t, m);
          assert h[m + 2..] == t[m + 1..];
          assert SilentSince(h, m + 1);
        } else if !h[0].before.suspect {
          assert SilentSince(h, 0);
        }
      }
    }
  }

  /**
   * In every run, the next tick drops a live path for its timeout if and only if some earlier tick marked
   * it, no accepted echo of anything sent after that mark has arrived since, and the mark is older than
   * max(srtt + 4 rttvar, 1 s).
   */
  lemma DroppedExactlyForSilence(cap: nat, start: int, steps: seq<Step>, p: nat, now: int, ts: int)
    requires var r := RunFrom(Initial(cap, start), steps); r.Some? && p in r.value.snd.live
    ensures SysInv(Initial(cap, start)) && SenderReady(RunFrom(Initial(cap, start), steps).value.snd)
    ensures var s := RunFrom(Initial(cap, start), steps).value.snd;
      var h := History(Initial(cap, start), steps, p);
      p in s.pm &&
      (p !in TickSender(s, now, ts).live <==>
        exists m: nat :: SilentSince(h, m)
          && now - h[m].tick.value.now > Max(s.pm[p].srtt + 4 * s.pm[p].rttvar, SECOND))
  {
    InitialInv(cap, start);
    var s0 := Initial(cap, start);
    RunKeepsInv(s0, steps);
    var s := RunFrom(s0, steps).value;
    InvReady(s);
    TickDropsExactly(s.snd, now, ts, s.written, p);
    HistoryIsChained(s0, steps, p);
    SuspectMeansSilent(History(s0, steps, p), MarkOf(s0.snd, p), MarkOf(s.snd, p));
  }
}
