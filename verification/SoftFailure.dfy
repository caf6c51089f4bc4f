/** What the sweep does to every segment and to every path, and what becomes of a path with an overdue segment. */
module SoftFailure {
  import opened Base
  import opened Intervals
  import opened Paths
  import opened Sender
  import opened SenderInvariant
  import opened System
  import opened SystemSteps
  import opened SystemTheorems
  import opened Liveness

  /** Sent on p and not known to be at the receiver after two round trips, or 200 ms. */
  predicate OverdueOn<P(==)>(seg: SendSeg<P>, rs: seq<ByteRange>, p: P, srtt: int, now: int) {
    && seg.path == Some(p) && !seg.sacked && !Covered(rs, seg.off, SegEnd(seg))
    && now - seg.sentAt > Max(2 * srtt, 200_000_000)
  }

  ghost predicate SomeOverdue<P>(segs: seq<SendSeg<P>>, rs: seq<ByteRange>, p: P, srtt: int, now: int) {
    exists i :: 0 <= i < |segs| && OverdueOn(segs[i], rs, p, srtt, now)
  }

  lemma SomeOverdueCons<P>(segs: seq<SendSeg<P>>, rs: seq<ByteRange>, p: P, srtt: int, now: int)
    requires segs != []
    ensures SomeOverdue(segs, rs, p, srtt, now)
       <==> OverdueOn(segs[0], rs, p, srtt, now) || SomeOverdue(segs[1..], rs, p, srtt, now)
  {
    if SomeOverdue(segs[1..], rs, p, srtt, now) {
      var i :| 0 <= i < |segs[1..]| && OverdueOn(segs[1..][i], rs, p, srtt, now);
      assert segs[i + 1] == segs[1..][i];
    }
    assert forall i :: 1 <= i < |segs| ==> segs[i] == segs[1..][i - 1];
  }

  /** A sweep leaves a path suspect exactly if it was, or if a segment on it is overdue. */
  lemma {:induction false} SweepMarksExactly<P>(segs: seq<SendSeg<P>>, pm: map<P, PathSt>, rs: seq<ByteRange>,
                                                now: int, ts: int, p: P)
    requires PathsKnown(segs, pm) && p in pm
    ensures var q := Sweep(segs, pm, rs, now, ts).1[p];
      q.suspect <==> pm[p].suspect || SomeOverdue(segs, rs, p, pm[p].srtt, now)
    decreases |segs|
  {
    if segs != [] {
      var qm := SweepSeg(segs[0], pm, rs, now, ts).1;
      PathsKnownGrows(segs[1..], pm, qm);
      SweepMarksExactly(segs[1..], qm, rs, now, ts, p);
      SomeOverdueCons(segs, rs, p, pm[p].srtt, now);
    }
  }

  /** What a sweep makes of one segment, judged by the paths as they were before it. */
  function Judged<P(==)>(seg: SendSeg<P>, rs: seq<ByteRange>, pm: map<P, PathSt>, now: int): SendSeg<P> {
    if !seg.sacked && Covered(rs, seg.off, SegEnd(seg)) then seg.(sacked := true)
    else if seg.path.Some? && seg.path.value in pm && OverdueOn(seg, rs, seg.path.value, pm[seg.path.value].srtt, now)
    then seg.(path := None)
    else seg
  }

  /** Each segment is judged on its own: no mark made on the way, and no segment before it, matters. */
  lemma {:induction false} SweepJudges<P>(segs: seq<SendSeg<P>>, pm: map<P, PathSt>, qm: map<P, PathSt>,
                                          rs: seq<ByteRange>, now: int, ts: int)
    requires PathsKnown(segs, pm) && qm.Keys == pm.Keys && forall p :: p in pm ==> qm[p].srtt == pm[p].srtt
    ensures var t := Sweep(segs, pm, rs, now, ts).0;
      |t| == |segs| && forall i :: 0 <= i < |segs| ==> t[i] == Judged(segs[i], rs, qm, now)
    decreases |segs|
  {
    if segs != [] {
      var (s, rm) := SweepSeg(segs[0], pm, rs, now, ts);
      PathsKnownGrows(segs[1..], pm, rm);
      SweepJudges(segs[1..], rm, qm, rs, now, ts);
      var t := Sweep(segs[1..], rm, rs, now, ts).0;
      assert Sweep(segs, pm, rs, now, ts).0 == [s] + t;
      assert forall i :: 1 <= i < |segs| ==> segs[i] == segs[1..][i - 1];
    }
  }

  // ---------- in runs ----------

  /** After a tick, a path with an overdue segment is gone or suspect. */
  lemma OverdueIsMarked(s: Sys, now: int, ts: int, p: nat)
    requires SysInv(s) && SenderReady(s.snd) && p in s.snd.live && p in s.snd.pm
    requires SomeOverdue(s.snd.segs, s.snd.peerRanges, p, s.snd.pm[p].srtt, now)
    ensures var t := TickSender(s.snd, now, ts); p in t.pm && t.pm[p].suspect
    ensures !s.snd.pm[p].suspect ==>
      var t := TickSender(s.snd, now, ts); p in t.live && MarkOf(t, p) == Mark(true, Some(now), ts)
  {
    SweepMarksExactly(s.snd.segs, s.snd.pm, s.snd.peerRanges, now, ts, p);
    TickDropsExactly(s.snd, now, ts, s.written, p);
    var u := SweepAll(s.snd, now, ts);
    TimedOutAreLive(u.live, u.pm, now);
    DropLeavesMarks(u, TimedOutPaths(u.live, u.pm, now));
  }

  lemma GoneStaysGone(s: Sender<nat>, now: int, ts: int, p: nat)
    requires SenderReady(s) && p !in s.live
    ensures p !in TickSender(s, now, ts).live
  {
    var u := SweepAll(s, now, ts);
    TimedOutAreLive(u.live, u.pm, now);
    DropAllRemoves(u, TimedOutPaths(u.live, u.pm, now));
  }

  /** Suspect since this time, for want of an echo of anything sent after this stamp. */
  ghost predicate MarkedAt(s: Sender<nat>, p: nat, since: int, stamp: int) {
    p in s.pm && MarkOf(s, p) == Mark(true, Some(since), stamp)
  }

  lemma MarkLasts(s: Sys, steps: seq<Step>, p: nat, since: int, stamp: int)
    requires SysInv(s) && MarkedAt(s.snd, p, since, stamp) && Silent(History(s, steps, p), stamp)
    ensures RunFrom(s, steps).Some? && MarkedAt(RunFrom(s, steps).value.snd, p, since, stamp)
  {
    HistoryIsChained(s, steps, p);
    SuspectMeansSilent(History(s, steps, p), MarkOf(s.snd, p), MarkOf(RunFrom(s, steps).value.snd, p));
  }

  /** A tick that comes more than the timeout after the mark leaves the path dead. */
  ghost predicate DeadBy(u: Sender<nat>, p: nat, since: int, later: int, ts: int) {
    && SenderReady(u) && p in u.pm
    && (later - since > Max(u.pm[p].srtt + 4 * u.pm[p].rttvar, SECOND) ==> p !in TickSender(u, later, ts).live)
  }

  lemma LateTickDrops(u: Sys, p: nat, since: int, stamp: int, later: int, ts: int)
    requires SysInv(u) && MarkedAt(u.snd, p, since, stamp)
    ensures DeadBy(u.snd, p, since, later, ts)
  {
    InvReady(u);
    if p in u.snd.live {
      TickDropsExactly(u.snd, later, ts, u.written, p);
    } else {
      GoneStaysGone(u.snd, later, ts, p);
    }
  }

  lemma SilentIsDropped(s: Sys, steps: seq<Step>, p: nat, since: int, stamp: int, later: int, ts: int)
    requires SysInv(s) && MarkedAt(s.snd, p, since, stamp) && Silent(History(s, steps, p), stamp)
    ensures RunFrom(s, steps).Some? && DeadBy(RunFrom(s, steps).value.snd, p, since, later, ts)
  {
    RunKeepsInv(s, steps);
    MarkLasts(s, steps, p, since, stamp);
    LateTickDrops(RunFrom(s, steps).value, p, since, stamp, later, ts);
  }

  /** The state after a tick. */
  ghost function Ticked(s: Sys, now: int, ts: int): Sys
    requires SenderReady(s.snd)
  {
    s.(snd := TickSender(s.snd, now, ts))
  }

  lemma TickedInv(s: Sys, now: int, ts: int)
    requires SysInv(s)
    ensures SenderReady(s.snd) && Next(s, Tick(now, ts)) == Some(Ticked(s, now, ts)) && SysInv(Ticked(s, now, ts))
  {
    InvReady(s);
    TickKeepsInv(s, now, ts);
    NextTick(s, now, ts);
  }

  /** A live path that is not suspect carries a segment that is overdue now. */
  ghost predicate Fails(s: Sender<nat>, p: nat, now: int) {
    && p in s.live && p in s.pm && !s.pm[p].suspect
    && SomeOverdue(s.segs, s.peerRanges, p, s.pm[p].srtt, now)
  }

  /**
   * In every run: when a tick finds a segment overdue on a path that was not suspect, the path is marked with
   * that tick's clock and stamp; and if no echo of anything sent after the mark comes, the first tick more
   * than max(srtt + 4 rttvar, 1 s) later finds it gone or drops it.
   */
  lemma OverdueIsDropped(cap: nat, start: int, before: seq<Step>, now: int, ts: int, after: seq<Step>, p: nat,
                         later: int, lts: int)
    requires var r := RunFrom(Initial(cap, start), before); r.Some? && Fails(r.value.snd, p, now)
    ensures var s := RunFrom(Initial(cap, start), before).value;
      && SenderReady(s.snd) && Next(s, Tick(now, ts)) == Some(Ticked(s, now, ts)) && SysInv(Ticked(s, now, ts))
      && var t := Ticked(s, now, ts);
        && p in t.snd.live && MarkedAt(t.snd, p, now, ts)
        && (Silent(History(t, after, p), ts) ==>
              RunFrom(t, after).Some? && DeadBy(RunFrom(t, after).value.snd, p, now, later, lts))
  {
    InitialInv(cap, start);
    RunKeepsInv(Initial(cap, start), before);
    MarkedThenDropped(RunFrom(Initial(cap, start), before).value, now, ts, after, p, later, lts);
  }

  lemma MarkedThenDropped(s: Sys, now: int, ts: int, after: seq<Step>, p: nat, later: int, lts: int)
    requires SysInv(s) && Fails(s.snd, p, now)
    ensures SenderReady(s.snd) && Next(s, Tick(now, ts)) == Some(Ticked(s, now, ts)) && SysInv(Ticked(s, now, ts))
    ensures var t := Ticked(s, now, ts);
      && p in t.snd.live && MarkedAt(t.snd, p, now, ts)
      && (Silent(History(t, after, p), ts) ==>
            RunFrom(t, after).Some? && DeadBy(RunFrom(t, after).value.snd, p, now, later, lts))
  {
    TickedInv(s, now, ts);
    OverdueIsMarked(s, now, ts, p);
    if Silent(History(Ticked(s, now, ts), after, p), ts) {
      SilentIsDropped(Ticked(s, now, ts), after, p, now, ts, later, lts);
    }
  }
}
