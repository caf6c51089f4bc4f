/** The round-trip estimates against the time that really passed, in runs whose stamps are read off a clock. */
module RoundTrips {
  import opened Base
  import opened Paths
  import opened Scheduler
  import opened Sender
  import opened SenderInvariant
  import opened System
  import opened SystemSteps
  import opened SystemTheorems
  import opened Liveness
  import opened Conduct

  // ---------- the path an echo names ----------

  ghost predicate Numbered(pm: map<nat, PathSt>) {
    forall p :: p in pm ==> pm[p].id == p
  }

  /** A live path of that number is found whenever there is one. */
  lemma {:induction false} FindPathFinds(live: seq<nat>, pm: map<nat, PathSt>, p: nat)
    requires Known(live, pm) && Numbered(pm)
    ensures FindPath(live, pm, p) == if p in live then Some(p) else None
  {
    if live != [] {
      FindPathFinds(live[1..], pm, p);
    }
  }

  // ---------- stamps and clocks ----------

  /** The time between two stamps is the time between the two readings, less than a microsecond off. */
  lemma StampsMeasure(base: int, t: int, u: int)
    requires base <= t <= u
    ensures var r := (Stamp(base, u) - Stamp(base, t)) * 1000; r >= 0 && -1000 < r - (u - t) < 1000
  {
  }

  /** Some frame on that path bears the stamp; no path is named before the first frame arrives. */
  ghost predicate Echoes(net: set<DataFrame>, ts: int, path: nat) {
    path == 0 || exists f :: f in net && f.ts == ts && f.path + 1 == path
  }

  /** sent is when each frame went out: stamps are readings of the clock, and every echo is of a frame. */
  ghost predicate Clocked(c: Ctx, s: Sys, sent: map<DataFrame, int>) {
    && c.base <= c.clock && sent.Keys == s.net
    && (forall f :: f in sent ==> c.base <= sent[f] <= c.clock && f.ts == Stamp(c.base, sent[f]))
    && (forall f, g :: f in sent && g in sent && f.ts == g.ts ==> f == g)
    && Echoes(s.net, s.lastTs, s.lastPath) && (forall a :: a in s.acks ==> Echoes(s.net, a.tsEcho, a.tsPath))
  }

  /** The frames of net that were not there before went out now. */
  ghost function Record(sent: map<DataFrame, int>, net: set<DataFrame>, now: int): map<DataFrame, int> {
    map f | f in net :: if f in sent then sent[f] else now
  }

  lemma SendStaysClocked(c: Ctx, s: Sys, sent: map<DataFrame, int>, now: int, ts: int)
    requires SenderReady(s.snd) && Clocked(c, s, sent) && Allowed(c, s, Send(now, ts))
    ensures var t := DoSend(s, now, ts); Clocked(After(c, s, Send(now, ts)), t, Record(sent, t.net, now))
  {
    var t := DoSend(s, now, ts);
    assert s.net <= t.net;
    assert forall f :: f in t.net && f !in s.net ==> f.ts == ts;
    EchoesStay(s, t);
  }

  lemma EchoesStay(s: Sys, t: Sys)
    requires s.net <= t.net && t.acks == s.acks && t.lastTs == s.lastTs && t.lastPath == s.lastPath
    requires Echoes(s.net, s.lastTs, s.lastPath) && forall a :: a in s.acks ==> Echoes(s.net, a.tsEcho, a.tsPath)
    ensures Echoes(t.net, t.lastTs, t.lastPath) && forall a :: a in t.acks ==> Echoes(t.net, a.tsEcho, a.tsPath)
  {
  }

  lemma StepStaysClocked(c: Ctx, s: Sys, sent: map<DataFrame, int>, step: Step, t: Sys)
    requires SenderReady(s.snd) && Clocked(c, s, sent) && Allowed(c, s, step) && Next(s, step) == Some(t)
    ensures Clocked(After(c, s, step), t, Record(sent, t.net, ClockAfter(c, step)))
  {
    match step
    case Send(now, ts) => SendStaysClocked(c, s, sent, now, ts);
    case DeliverData(f) =>
    case EmitAck =>
    case Tick(now, ts) => NextTick(s, now, ts);
    case _ =>
  }

  // ---------- one step ----------

  /** When the frame with that stamp went out on p. */
  ghost function EchoedAt(sent: map<DataFrame, int>, p: nat, ts: int): Option<int> {
    if exists f :: f in sent && f.path == p && f.ts == ts then
      var f :| f in sent && f.path == p && f.ts == ts;
      Some(sent[f])
    else None
  }

  /** How long the echo that the step brings for p really took: from the sending of its frame, or of the ping. */
  ghost function Trip(s: Sys, sent: map<DataFrame, int>, step: Step, p: nat): Option<int> {
    match step
    case DeliverAck(a, _, now, _) =>
      if a in s.acks && !Stale(s.snd, a) && ValidAck(s.snd, a) && p in s.snd.live && a.tsPath == p + 1 && a.tsEcho != 0
      then (match EchoedAt(sent, p, a.tsEcho) case None => None case Some(t) => Some(now - t))
      else None
    case PingReply(q, r, _) => if q == p && p in s.snd.live then Some(r) else None
    case _ => None
  }

  /** The estimates took in exactly one sample, less than a microsecond off the time given, or none. */
  ghost predicate Measures(a: PathSt, b: PathSt, trip: Option<int>) {
    match trip
    case None => SameTimes(a, b)
    case Some(t) => exists r: nat :: -1000 < r - t < 1000 && SameTimes(Smoothed(a, r), b)
  }

  lemma EchoIsElapsed(c: Ctx, s: Sys, sent: map<DataFrame, int>, a: AckFrame, via: nat, now: int, nowTs: int, p: nat)
    requires Clocked(c, s, sent) && Numbered(s.snd.pm) && Known(s.snd.live, s.snd.pm) && p in s.snd.pm
    requires Allowed(c, s, DeliverAck(a, via, now, nowTs)) && !Stale(s.snd, a) && ValidAck(s.snd, a)
    ensures var pm := Sample(s.snd, a.tsPath, a.tsEcho, nowTs);
      p in pm && Measures(s.snd.pm[p], pm[p], Trip(s, sent, DeliverAck(a, via, now, nowTs), p))
  {
    if a.tsPath != 0 && a.tsEcho != 0 {
      FindPathFinds(s.snd.live, s.snd.pm, a.tsPath - 1);
      if a.tsPath == p + 1 && p in s.snd.live {
        assert Echoes(s.net, a.tsEcho, a.tsPath);
        var f :| f in sent && f.ts == a.tsEcho && f.path == p;
        StampsMeasure(c.base, sent[f], now);
        var r: nat := (nowTs - a.tsEcho) * 1000;
        assert SameTimes(Smoothed(s.snd.pm[p], r), NoteRTT(s.snd.pm[p], r, a.tsEcho));
      }
    }
  }

  lemma AckMeasures(c: Ctx, s: Sys, sent: map<DataFrame, int>, a: AckFrame, via: nat, now: int, nowTs: int, p: nat)
    requires Clocked(c, s, sent) && Numbered(s.snd.pm) && Known(s.snd.live, s.snd.pm) && p in s.snd.pm
    requires Allowed(c, s, DeliverAck(a, via, now, nowTs))
    ensures var pm := DoHear(s, a, via, now, nowTs).snd.pm;
      p in pm && Measures(s.snd.pm[p], pm[p], Trip(s, sent, DeliverAck(a, via, now, nowTs), p))
  {
    if !Stale(s.snd, a) && ValidAck(s.snd, a) {
      EchoIsElapsed(c, s, sent, a, via, now, nowTs, p);
      ApplyMarks(s.snd, a, now, nowTs, p);
    }
  }

  lemma PingMeasures(s: Sys, sent: map<DataFrame, int>, q: nat, r: int, echoTs: int, p: nat)
    requires SenderReady(s.snd) && p in s.snd.pm && q in s.snd.live && r >= 0
    ensures var step := PingReply(q, r, echoTs);
      Measures(s.snd.pm[p], Next(s, step).value.snd.pm[p], Trip(s, sent, step, p))
  {
    if q == p {
      assert SameTimes(Smoothed(s.snd.pm[p], r), NoteRTT(s.snd.pm[p], r, echoTs));
    }
  }

  lemma TickMeasures(s: Sender<nat>, now: int, ts: int, p: nat)
    requires SenderReady(s) && p in s.pm
    ensures p in TickSender(s, now, ts).pm && SameTimes(s.pm[p], TickSender(s, now, ts).pm[p])
  {
    var t := SweepAll(s, now, ts);
    SweepMarks(s.segs, s.pm, s.peerRanges, now, ts, p);
    TimedOutAreLive(t.live, t.pm, now);
    DropLeavesMarks(t, TimedOutPaths(t.live, t.pm, now));
  }

  lemma DropMeasures(s: Sender<nat>, q: nat, p: nat)
    requires q in s.pm && p in s.pm
    ensures p in DropPath(s, q).pm && SameTimes(s.pm[p], DropPath(s, q).pm[p])
  {
  }

  lemma AttachMeasures(s: Sender<nat>, q: nat, now: int, p: nat)
    requires PathInv(s) && p in s.pm
    ensures p in AttachPath(s, q, q, now).pm && SameTimes(s.pm[p], AttachPath(s, q, q, now).pm[p])
  {
  }

  lemma QuietMeasures(s: Sys, step: Step, p: nat)
    requires SenderReady(s.snd) && Next(s, step).Some? && p in s.snd.pm
    requires step.Write? || step.DeliverData? || step.EmitAck? || step.AppRead? || step.Resize?
    ensures Next(s, step).value.snd.pm == s.snd.pm
  {
  }

  /**
   * An acknowledgement of a frame sent at t on a live path, or a ping reply, makes the one sample that is
   * less than a microsecond off the time since t; no other step, and no other path, takes a sample.
   */
  lemma StepMeasures(c: Ctx, s: Sys, sent: map<DataFrame, int>, step: Step, t: Sys, p: nat)
    requires SenderReady(s.snd) && PathInv(s.snd) && Clocked(c, s, sent) && Numbered(s.snd.pm) && p in s.snd.pm
    requires Allowed(c, s, step) && Next(s, step) == Some(t)
    ensures p in t.snd.pm && Measures(s.snd.pm[p], t.snd.pm[p], Trip(s, sent, step, p))
  {
    match step
    case DeliverAck(a, via, now, nowTs) => AckMeasures(c, s, sent, a, via, now, nowTs, p);
    case PingReply(q, r, echoTs) => PingMeasures(s, sent, q, r, echoTs, p);
    case Send(now, ts) => SendLeavesMarks(s.snd, now);
    case Tick(now, ts) =>
      NextTick(s, now, ts);
      TickMeasures(s.snd, now, ts, p);
    case Drop(q) =>
      if q in s.snd.pm {
        DropMeasures(s.snd, q, p);
      }
    case Attach(q, now) => AttachMeasures(s.snd, q, now, p);
    case Telemetry(_, _, _) =>
    case _ => QuietMeasures(s, step, p);
  }

  /** A path that a step adds is a new one. */
  ghost predicate OnlyNew(pm: map<nat, PathSt>, qm: map<nat, PathSt>) {
    forall p :: p in qm && p !in pm ==> qm[p].id == p && !qm[p].hasRTT
  }

  lemma HearAddsNone(s: Sender<nat>, a: AckFrame, via: nat, now: int, nowTs: int)
    requires Known(s.live, s.pm)
    ensures HearAck(s, a, via, now, nowTs).pm.Keys == s.pm.Keys
  {
    ApplyMarks(s, a, now, nowTs, via);
    FindPathIsLive(s.live, s.pm, a.tsPath - 1);
  }

  lemma TickAddsNone(s: Sender<nat>, now: int, ts: int)
    requires SenderReady(s)
    ensures TickSender(s, now, ts).pm.Keys == s.pm.Keys
  {
    var u := SweepAll(s, now, ts);
    TimedOutAreLive(u.live, u.pm, now);
  }

  lemma StepAddsNew(s: Sys, step: Step, t: Sys)
    requires SenderReady(s.snd) && Next(s, step) == Some(t)
    ensures OnlyNew(s.snd.pm, t.snd.pm)
  {
    match step
    case DeliverAck(a, via, now, nowTs) => HearAddsNone(s.snd, a, via, now, nowTs);
    case Send(now, ts) => SendLeavesMarks(s.snd, now);
    case Tick(now, ts) =>
      NextTick(s, now, ts);
      TickAddsNone(s.snd, now, ts);
    case _ =>
  }

  // ---------- whole runs ----------

  /** The true times of all echoes for p in a run, in order. */
  ghost function Trips(c: Ctx, s: Sys, sent: map<DataFrame, int>, steps: seq<Step>, p: nat): seq<int>
    decreases |steps|
  {
    if steps == [] || !SenderReady(s.snd) then []
    else
      (match Trip(s, sent, steps[0], p) case None => [] case Some(x) => [x])
      + match Next(s, steps[0])
        case None => []
        case Some(t) => Trips(After(c, s, steps[0]), t, Record(sent, t.net, ClockAfter(c, steps[0])), steps[1..], p)
  }

  predicate Within(xs: seq<int>, lo: int, hi: int) {
    forall i :: 0 <= i < |xs| ==> lo <= xs[i] <= hi
  }

  /** The least of the times is known, and the smoothed time lies between them, each to less than a microsecond. */
  ghost predicate Estimates(q: PathSt, trips: seq<int>, lo: int, hi: int) {
    && (q.hasRTT <==> trips != [])
    && (q.hasRTT ==>
          && q.srtt >= 0
          && (Within(trips, lo, hi) ==> lo - 1000 < q.srtt < hi + 1000)
          && (forall i :: 0 <= i < |trips| ==> q.minRTT < trips[i] + 1000)
          && (exists i :: 0 <= i < |trips| && -1000 < q.minRTT - trips[i] < 1000))
  }

  lemma SampleEstimates(a: PathSt, r: nat, trips: seq<int>, x: int, lo: int, hi: int)
    requires Estimates(a, trips, lo, hi) && -1000 < r - x < 1000
    ensures Estimates(Smoothed(a, r), trips + [x], lo, hi)
  {
    var all := trips + [x];
    assert all[|trips|] == x;
    assert forall i :: 0 <= i < |trips| ==> all[i] == trips[i];
    assert Within(all, lo, hi) ==> Within(trips, lo, hi);
    if a.hasRTT {
      var i :| 0 <= i < |trips| && -1000 < a.minRTT - trips[i] < 1000;
      assert all[i] == trips[i];
    }
  }

  /** What is known of p: its estimates fit the times so far, and there are none before it is attached. */
  ghost predicate Fits(pm: map<nat, PathSt>, trips: seq<int>, p: nat, lo: int, hi: int) {
    if p in pm then Estimates(pm[p], trips, lo, hi) else trips == []
  }

  function Grown(trips: seq<int>, trip: Option<int>): seq<int> {
    match trip
    case None => trips
    case Some(x) => trips + [x]
  }

  lemma StepFits(c: Ctx, s: Sys, sent: map<DataFrame, int>, step: Step, t: Sys, trips: seq<int>, p: nat, lo: int,
                 hi: int)
    requires SenderReady(s.snd) && PathInv(s.snd) && Clocked(c, s, sent) && Numbered(s.snd.pm)
    requires Allowed(c, s, step) && Next(s, step) == Some(t) && Fits(s.snd.pm, trips, p, lo, hi)
    ensures Fits(t.snd.pm, Grown(trips, Trip(s, sent, step, p)), p, lo, hi)
  {
    if p in s.snd.pm {
      StepMeasures(c, s, sent, step, t, p);
      match Trip(s, sent, step, p) {
        case None =>
        case Some(x) =>
          var r: nat :| -1000 < r - x < 1000 && SameTimes(Smoothed(s.snd.pm[p], r), t.snd.pm[p]);
          SampleEstimates(s.snd.pm[p], r, trips, x, lo, hi);
      }
    } else if p in t.snd.pm {
      StepAddsNew(s, step, t);
    }
  }

  lemma StepStaysNumbered(c: Ctx, s: Sys, sent: map<DataFrame, int>, step: Step, t: Sys)
    requires SenderReady(s.snd) && PathInv(s.snd) && Clocked(c, s, sent) && Numbered(s.snd.pm)
    requires Allowed(c, s, step) && Next(s, step) == Some(t)
    ensures Numbered(t.snd.pm)
  {
    forall p | p in t.snd.pm
      ensures t.snd.pm[p].id == p
    {
      if p in s.snd.pm {
        StepMeasures(c, s, sent, step, t, p);
      } else {
        StepAddsNew(s, step, t);
      }
    }
  }

  /** A state of such a run: the invariant, the clocks of the frames, and paths under their own numbers. */
  ghost predicate Timely(c: Ctx, s: Sys, sent: map<DataFrame, int>) {
    SysInv(s) && Clocked(c, s, sent) && Numbered(s.snd.pm)
  }

  lemma StepStaysTimely(c: Ctx, s: Sys, sent: map<DataFrame, int>, step: Step, t: Sys)
    requires Timely(c, s, sent) && SenderReady(s.snd) && Allowed(c, s, step) && Next(s, step) == Some(t)
    ensures Timely(After(c, s, step), t, Record(sent, t.net, ClockAfter(c, step)))
  {
    StepKeepsInv(s, step);
    StepStaysClocked(c, s, sent, step, t);
    StepStaysNumbered(c, s, sent, step, t);
  }

  lemma TimelyFits(c: Ctx, s: Sys, sent: map<DataFrame, int>, step: Step, t: Sys, trips: seq<int>, p: nat, lo: int,
                   hi: int)
    requires Timely(c, s, sent) && SenderReady(s.snd) && Allowed(c, s, step) && Next(s, step) == Some(t)
    requires Fits(s.snd.pm, trips, p, lo, hi)
    ensures Fits(t.snd.pm, Grown(trips, Trip(s, sent, step, p)), p, lo, hi)
  {
    StepFits(c, s, sent, step, t, trips, p, lo, hi);
  }

  lemma {:induction false} RunFits(c: Ctx, s: Sys, sent: map<DataFrame, int>, steps: seq<Step>, trips: seq<int>, p: nat,
                                   lo: int, hi: int)
    requires Timely(c, s, sent) && Fits(s.snd.pm, trips, p, lo, hi) && Go(c, s, steps).Some?
    ensures Fits(Go(c, s, steps).value.1.snd.pm, trips + Trips(c, s, sent, steps, p), p, lo, hi)
    decreases |steps|
  {
    if steps == [] {
      assert trips + [] == trips;
    } else {
      var step := steps[0];
      var t := Next(s, step).value;
      var next := Record(sent, t.net, ClockAfter(c, step));
      StepStaysTimely(c, s, sent, step, t);
      TimelyFits(c, s, sent, step, t, trips, p, lo, hi);
      RunFits(After(c, s, step), t, next, steps[1..], Grown(trips, Trip(s, sent, step, p)), p, lo, hi);
      TripsUnfold(c, s, sent, steps, t, trips, p);
    }
  }

  lemma TripsUnfold(c: Ctx, s: Sys, sent: map<DataFrame, int>, steps: seq<Step>, t: Sys, trips: seq<int>, p: nat)
    requires steps != [] && SenderReady(s.snd) && Next(s, steps[0]) == Some(t)
    ensures var rest := Trips(After(c, s, steps[0]), t, Record(sent, t.net, ClockAfter(c, steps[0])), steps[1..], p);
      trips + Trips(c, s, sent, steps, p) == Grown(trips, Trip(s, sent, steps[0], p)) + rest
  {
  }

  /**
   * In every run whose stamps are read off the clock: a path has an estimate once an echo of its frames or a
   * ping reply was heard; its least time is the least true time, and its smoothed time lies between the least
   * and the greatest true time, both to less than a microsecond.
   */
  lemma TimesAreTrue(cap: nat, start: int, steps: seq<Step>, p: nat, lo: int, hi: int)
    requires Go(Start(start), Initial(cap, start), steps).Some?
    ensures Fits(Go(Start(start), Initial(cap, start), steps).value.1.snd.pm,
                 Trips(Start(start), Initial(cap, start), map[], steps, p), p, lo, hi)
  {
    InitialInv(cap, start);
    var s := Initial(cap, start);
    assert Timely(Start(start), s, map[]);
    RunFits(Start(start), s, map[], steps, [], p, lo, hi);
    assert [] + Trips(Start(start), s, map[], steps, p) == Trips(Start(start), s, map[], steps, p);
  }

  lemma {:induction false} RunStaysTimely(c: Ctx, s: Sys, sent: map<DataFrame, int>, steps: seq<Step>)
    returns (last: map<DataFrame, int>)
    requires Timely(c, s, sent) && Go(c, s, steps).Some?
    ensures var (d, t) := Go(c, s, steps).value; Timely(d, t, last)
    decreases |steps|
  {
    last := sent;
    if steps != [] {
      var t := Next(s, steps[0]).value;
      StepStaysTimely(c, s, sent, steps[0], t);
      last := RunStaysTimely(After(c, s, steps[0]), t, Record(sent, t.net, ClockAfter(c, steps[0])), steps[1..]);
    }
  }

  /** In every such run the path an echo names is found exactly while it lives. */
  lemma EchoFindsItsPath(cap: nat, start: int, steps: seq<Step>, p: nat)
    requires Go(Start(start), Initial(cap, start), steps).Some?
    ensures var s := Go(Start(start), Initial(cap, start), steps).value.1.snd;
      Known(s.live, s.pm) && FindPath(s.live, s.pm, p) == if p in s.live then Some(p) else None
  {
    InitialInv(cap, start);
    assert Timely(Start(start), Initial(cap, start), map[]);
    var last := RunStaysTimely(Start(start), Initial(cap, start), map[], steps);
    var s := Go(Start(start), Initial(cap, start), steps).value.1.snd;
    FindPathFinds(s.live, s.pm, p);
  }
}
