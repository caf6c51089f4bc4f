/** The rate estimates of every path in every run of the two endpoints. */
module PathRates {
  import opened Base
  import opened Paths
  import opened Scheduler
  import opened Sender
  import opened SenderInvariant
  import opened System
  import opened SystemTheorems

  ghost predicate AllSane(pm: map<nat, PathSt>) {
    forall p :: p in pm ==> Sane(pm[p])
  }

  lemma {:induction false} FreeKeepsSane(segs: seq<SendSeg<nat>>, pm: map<nat, PathSt>, cum: nat, un: nat, now: int)
    requires AllSane(pm)
    ensures AllSane(Free(segs, pm, cum, un, now).1)
    decreases |segs|
  {
    if segs != [] {
      var s := segs[0];
      if SegEnd(s) <= cum {
        FreeOneKeepsSane(pm, s, |s.data|, now);
        FreeKeepsSane(segs[1..], FreeOne(pm, s, |s.data|, now), cum, un + Unassigned(s, |s.data|), now);
      } else if s.off < cum {
        FreeOneKeepsSane(pm, s, cum - s.off, now);
      }
    }
  }

  lemma FreeOneKeepsSane(pm: map<nat, PathSt>, s: SendSeg<nat>, n: nat, now: int)
    requires AllSane(pm)
    ensures AllSane(FreeOne(pm, s, n, now))
  {
    if s.path.Some? && s.path.value in pm {
      var q := pm[s.path.value];
      CreditKeepsSane(q, n, now);
      CreditKeepsSane(q.(inflight := q.inflight - n), n, now);
    }
  }

  lemma {:induction false} SweepKeepsSane(segs: seq<SendSeg<nat>>, pm: map<nat, PathSt>, rs: seq<ByteRange>,
                                          now: int, ts: int)
    requires PathsKnown(segs, pm) && AllSane(pm)
    ensures AllSane(Sweep(segs, pm, rs, now, ts).1)
    decreases |segs|
  {
    if segs != [] {
      var qm := SweepSeg(segs[0], pm, rs, now, ts).1;
      PathsKnownGrows(segs[1..], pm, qm);
      SweepKeepsSane(segs[1..], qm, rs, now, ts);
    }
  }

  lemma {:induction false} DropAllKeepsSane(s: Sender<nat>, ps: seq<nat>)
    requires Known(ps, s.pm) && AllSane(s.pm)
    ensures AllSane(DropAll(s, ps).pm)
    decreases |ps|
  {
    if ps != [] {
      DropAllKeepsSane(DropPath(s, ps[0]), ps[1..]);
    }
  }

  lemma TickKeepsSane(s: Sender<nat>, now: int, ts: int)
    requires SenderReady(s) && AllSane(s.pm)
    ensures AllSane(TickSender(s, now, ts).pm)
  {
    SweepKeepsSane(s.segs, s.pm, s.peerRanges, now, ts);
    var t := SweepAll(s, now, ts);
    TimedOutAreLive(t.live, t.pm, now);
    DropAllKeepsSane(t, TimedOutPaths(t.live, t.pm, now));
  }

  lemma SampleKeepsSane(s: Sender<nat>, tsPath: nat, tsEcho: int, nowTs: int)
    requires Known(s.live, s.pm) && AllSane(s.pm)
    ensures AllSane(Sample(s, tsPath, tsEcho, nowTs))
  {
    FindPathIsLive(s.live, s.pm, tsPath - 1);
    var p := FindPath(s.live, s.pm, tsPath - 1);
    if p.Some? {
      NoteKeepsSane(s.pm[p.value], (nowTs - tsEcho) * 1000, tsEcho);
    }
  }

  lemma HearKeepsSane(s: Sender<nat>, a: AckFrame, via: nat, now: int, nowTs: int)
    requires Known(s.live, s.pm) && AllSane(s.pm)
    ensures AllSane(HearAck(s, a, via, now, nowTs).pm)
  {
    SampleKeepsSane(s, a.tsPath, a.tsEcho, nowTs);
    FreeKeepsSane(s.segs, Sample(s, a.tsPath, a.tsEcho, nowTs), a.cum, s.unassigned, now);
  }

  lemma HoleKeepsSane(s: Sender<nat>, h: Hole, now: int)
    requires Known(s.live, s.pm) && HoleInside(s.segs, h) && AllSane(s.pm)
    ensures AllSane(SendHole(s, h, now).0.pm)
  {
    PickDataPrefersHealthy(s.live, s.pm, ResendEnd(h) - h.start, now);
  }

  lemma NewKeepsSane(s: Sender<nat>, now: int)
    requires Runnable(s) && AllSane(s.pm)
    ensures AllSane(SendNew(s, now).0.pm)
  {
    if s.pendingBytes != 0 && s.sentOff - s.cumAcked < s.advWindow {
      PickDataPrefersHealthy(s.live, s.pm, NewLen(s), now);
    }
  }

  lemma SendKeepsSane(s: Sender<nat>, now: int)
    requires SenderReady(s) && AllSane(s.pm)
    ensures AllSane(TrySend(s, now).0.pm)
  {
    var (segs, h) := Scan(s.segs, s.peerRanges);
    ScanFindsHole(s.segs, s.peerRanges);
    if h.Some? {
      HoleKeepsSane(s.(segs := segs), h.value, now);
    } else {
      NewKeepsSane(s.(segs := segs), now);
    }
  }

  lemma PingKeepsSane(s: Sys, p: nat, r: int, echoTs: int)
    requires SenderReady(s.snd) && AllSane(s.snd.pm)
    ensures AllSane(Next(s, PingReply(p, r, echoTs)).value.snd.pm)
  {
    if p in s.snd.live {
      NoteKeepsSane(s.snd.pm[p], r, echoTs);
    }
  }

  lemma NewPathIsSane(id: nat, now: int)
    ensures Sane(NewPath(id, now))
  {
    assert Seconds(RATE_SAMPLE_FLOOR) > 0.0;
  }

  lemma AttachKeepsSane(s: Sender<nat>, p: nat, now: int)
    requires AllSane(s.pm)
    ensures AllSane(AttachPath(s, p, p, now).pm)
  {
    NewPathIsSane(p, now);
  }

  lemma QuietKeepsSane(s: Sys, step: Step)
    requires SenderReady(s.snd) && AllSane(s.snd.pm) && Next(s, step).Some?
    requires !step.Send? && !step.Tick? && !step.DeliverAck? && !step.PingReply? && !step.Attach?
    ensures AllSane(Next(s, step).value.snd.pm)
  {
  }

  lemma StepKeepsSane(s: Sys, step: Step)
    requires SenderReady(s.snd) && AllSane(s.snd.pm) && Next(s, step).Some?
    ensures AllSane(Next(s, step).value.snd.pm)
  {
    match step
    case Send(now, ts) => SendKeepsSane(s.snd, now);
    case Tick(now, ts) => TickKeepsSane(s.snd, now, ts);
    case DeliverAck(a, via, now, nowTs) => HearKeepsSane(s.snd, a, via, now, nowTs);
    case PingReply(p, r, echoTs) => PingKeepsSane(s, p, r, echoTs);
    case Attach(p, now) => AttachKeepsSane(s.snd, p, now);
    case _ => QuietKeepsSane(s, step);
  }

  lemma {:induction false} RunKeepsSane(s: Sys, steps: seq<Step>)
    requires AllSane(s.snd.pm) && RunFrom(s, steps).Some?
    ensures AllSane(RunFrom(s, steps).value.snd.pm)
    decreases |steps|
  {
    if steps != [] {
      StepKeepsSane(s, steps[0]);
      RunKeepsSane(Next(s, steps[0]).value, steps[1..]);
    }
  }

  /**
   * In every reachable state, whatever the clocks, echoes and acknowledgements were, every path's rate is
   * non-negative and at most all its delivered bytes in two milliseconds, and no time estimate is negative;
   * so a mark always holds a path back (SuspectIsHeldBack asks for no more).
   */
  lemma PathsStaySane(cap: nat, now: int, steps: seq<Step>)
    ensures RunFrom(Initial(cap, now), steps).Some?
    ensures AllSane(RunFrom(Initial(cap, now), steps).value.snd.pm)
  {
    InitialInv(cap, now);
    RunKeepsInv(Initial(cap, now), steps);
    NewPathIsSane(0, now);
    assert AllSane(Initial(cap, now).snd.pm);
    RunKeepsSane(Initial(cap, now), steps);
  }
}
