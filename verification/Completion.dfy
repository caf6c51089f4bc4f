/**
 * The two endpoints never get stuck: from every reachable state the stream can be completed by steps as the
 * code and its paths make them.
 */
module Completion {
  import opened Base
  import opened Reorder
  import opened Paths
  import opened Scheduler
  import opened Sender
  import opened SenderProofs
  import opened SenderInvariant
  import opened Progress
  import opened System
  import opened SystemProofs
  import opened SystemSteps
  import opened SystemTheorems
  import opened Liveness
  import opened Overflow
  import opened AckRule
  import opened Conduct

  /** Open at both ends, with a path, and the sender would still accept acknowledgement number seqNo. */
  ghost predicate InReach(s: Sys, seqNo: int) {
    && !s.snd.closed && s.snd.live != [] && !s.down
    && seqNo - (if s.snd.gotPeerAck then s.snd.peerAckSeq else 0) <= MAX_ACK_SEQ_ADVANCE
  }

  /** The next acknowledgement would be accepted. */
  ghost predicate Open(s: Sys) {
    InReach(s, s.ackSeq)
  }

  /** And with some capacity, at least half of its largest. */
  ghost predicate Able(s: Sys) {
    Open(s) && 0 < s.buf.cap && s.maxCap <= 2 * s.buf.cap
  }

  /** Nothing is written, resized, attached or dropped. */
  predicate Harmless(steps: seq<Step>) {
    steps != [] ==> HarmlessStep(steps[0]) && Harmless(steps[1..])
  }

  predicate HarmlessStep(step: Step) {
    !step.Write? && !step.Resize? && !step.Attach? && !step.Drop?
  }

  /** Nothing written, no path lost, no capacity changed. */
  ghost predicate Kept(s: Sys, t: Sys) {
    && t.written == s.written && t.snd.live == s.snd.live && t.snd.closed == s.snd.closed && t.down == s.down
    && t.buf.cap == s.buf.cap && t.maxCap == s.maxCap && s.net <= t.net
  }

  /** Allowed and harmless steps lead from one state to the other. */
  ghost predicate Leads(c: Ctx, s: Sys, steps: seq<Step>, d: Ctx, t: Sys) {
    Go(c, s, steps) == Some((d, t)) && Harmless(steps) && Kept(s, t)
  }

  lemma {:induction false} HarmlessConcat(a: seq<Step>, b: seq<Step>)
    requires Harmless(a) && Harmless(b)
    ensures Harmless(a + b)
  {
    if a == [] {
      assert a + b == b;
    } else {
      HarmlessConcat(a[1..], b);
      assert (a + b)[1..] == a[1..] + b;
    }
  }

  lemma LeadsOn(c: Ctx, s: Sys, a: seq<Step>, d: Ctx, t: Sys, b: seq<Step>, e: Ctx, u: Sys)
    requires Leads(c, s, a, d, t) && Leads(d, t, b, e, u)
    ensures Leads(c, s, a + b, e, u)
  {
    GoConcat(c, s, a, b);
    HarmlessConcat(a, b);
  }

  lemma LeadsNowhere(c: Ctx, s: Sys)
    ensures Leads(c, s, [], c, s)
  {
  }

  /** A step that is sound, allowed and harmless. */
  lemma SoundOne(c: Ctx, s: Sys, step: Step, t: Sys)
    requires Sound(c, s) && SenderReady(s.snd) && Next(s, step) == Some(t)
    requires Allowed(c, s, step) && HarmlessStep(step) && Kept(s, t)
    ensures Leads(c, s, [step], After(c, s, step), t) && Sound(After(c, s, step), t)
  {
    SoundStep(c, s, step, t);
    assert [step][1..] == [];
  }

  // ---------- what is under way arrives ----------

  /** Every frame sent on a live path has arrived. */
  ghost predicate NoneLeft(c: Ctx, s: Sys) {
    forall f :: f in s.net && f.path in s.snd.live ==> f in c.arrived
  }

  lemma {:induction false} Oldest(fs: set<DataFrame>) returns (f: DataFrame)
    requires fs != {}
    ensures f in fs && forall g :: g in fs ==> f.ts <= g.ts
    decreases |fs|
  {
    f :| f in fs;
    if fs != {f} {
      var g := Oldest(fs - {f});
      assert forall h :: h in fs ==> h == f || h in fs - {f};
      if g.ts < f.ts {
        f := g;
      }
    }
  }

  /** Only the receiving side has moved, and not back. */
  ghost predicate Received(s: Sys, t: Sys) {
    && t == s.(buf := t.buf, lastTs := t.lastTs, lastPath := t.lastPath, out := t.out) && t.buf.cap == s.buf.cap
    && t.buf.next >= s.buf.next
  }

  lemma Deliver(c: Ctx, s: Sys, f: DataFrame) returns (d: Ctx, t: Sys)
    requires Sound(c, s) && Able(s) && InOrder(c, s, f)
    ensures Leads(c, s, [DeliverData(f)], d, t) && Sound(d, t) && Able(t) && Received(s, t)
    ensures d.arrived == c.arrived + {f} && d.base == c.base && Receive(s, f) == Some(t)
  {
    InvReady(s);
    ReceiveKeeps(s, f);
    SteadyDelivery(s, f, s.maxCap);
    t := Receive(s, f).value;
    d := After(c, s, DeliverData(f));
    SoundOne(c, s, DeliverData(f), t);
  }

  lemma {:induction false} Flush(c: Ctx, s: Sys) returns (steps: seq<Step>, d: Ctx, t: Sys)
    requires Sound(c, s) && Able(s)
    ensures Leads(c, s, steps, d, t) && Sound(d, t) && Able(t) && Received(s, t) && NoneLeft(d, t)
    decreases |s.net - c.arrived|
  {
    var left := set f | f in s.net && f.path in s.snd.live && f !in c.arrived;
    if left == {} {
      LeadsNowhere(c, s);
      assert forall f :: f in s.net && f.path in s.snd.live && f !in c.arrived ==> f in left;
      return [], c, s;
    }
    var f := Oldest(left);
    assert InOrder(c, s, f) by {
      forall g | g in s.net && g.path == f.path && g.ts < f.ts
        ensures g in c.arrived
      {
        assert g !in left;
      }
    }
    var e, u := Deliver(c, s, f);
    Fewer(s.net, c.arrived, f);
    steps, d, t := Flush(e, u);
    LeadsOn(c, s, [DeliverData(f)], e, u, steps, d, t);
    steps := [DeliverData(f)] + steps;
  }

  lemma Fewer(net: set<DataFrame>, arrived: set<DataFrame>, f: DataFrame)
    requires f in net && f !in arrived
    ensures |net - (arrived + {f})| < |net - arrived|
  {
    assert net - (arrived + {f}) == (net - arrived) - {f};
  }

  // ---------- reading, and an acknowledgement that is heard ----------

  lemma ReadOut(c: Ctx, s: Sys) returns (d: Ctx, t: Sys)
    requires Sound(c, s)
    ensures Leads(c, s, [AppRead(|s.buf.ready|)], d, t) && Sound(d, t) && t == s.(buf := t.buf, out := t.out)
    ensures t.buf.next == s.buf.next && t.buf.segs == s.buf.segs && t.buf.size == TotalLen(t.buf.segs)
    ensures t.out == s.written[..s.buf.next] && t.buf.cap == s.buf.cap && d.arrived == c.arrived
  {
    var n := |s.buf.ready|;
    InvReady(s);
    ReadKeeps(s.buf, s.written, |s.out|, n);
    t := DoRead(s, n);
    d := After(c, s, AppRead(n));
    SoundOne(c, s, AppRead(n), t);
  }

  /** An acknowledgement whose number is in reach is accepted. */
  lemma NewestIsValid(s: Sys, a: AckFrame)
    requires SysInv(s) && InReach(s, a.seqNo) && a in s.acks && a.seqNo == s.ackSeq - 1 && !Stale(s.snd, a)
    ensures ValidAck(s.snd, a)
  {
    assert AckInv(a, s);
    if s.snd.gotPeerAck {
      var b :| b in s.acks && LinkedTo(s.snd, b);
      assert AckInv(b, s);
    }
  }

  /** What the sender knows of the receiver: the front, and that there is room if there is. */
  ghost predicate InTouch(s: Sys) {
    s.snd.gotWindow && s.snd.cumAcked == s.buf.next && (Window(s.buf) > 0 ==> s.snd.advWindow > 0)
  }

  /** Only the sender has changed, and not what it has to send. */
  ghost predicate Heard(s: Sys, t: Sys) {
    && t == s.(snd := t.snd) && t.snd.live == s.snd.live && t.snd.closed == s.snd.closed
    && t.snd.sentOff == s.snd.sentOff && t.snd.pendingBytes == s.snd.pendingBytes
  }

  lemma HeardKeeps(s: Sys, a: AckFrame, now: int, nowTs: int)
    requires SenderReady(s.snd) && s.snd.live != [] && a in s.acks && !Stale(s.snd, a) && ValidAck(s.snd, a)
    ensures var t := DoHear(s, a, s.snd.live[0], now, nowTs);
      && Next(s, DeliverAck(a, s.snd.live[0], now, nowTs)) == Some(t) && Heard(s, t) && Kept(s, t)
      && t.snd.gotWindow && t.snd.gotPeerAck && t.snd.peerAckSeq == a.seqNo
      && t.snd.cumAcked == a.cum && t.snd.advWindow == a.window
  {
  }

  /** The newest acknowledgement, if it says all there is to say, is heard; or it was. */
  lemma HearNewest(c: Ctx, s: Sys) returns (steps: seq<Step>, d: Ctx, t: Sys)
    requires Sound(c, s) && InReach(s, s.ackSeq - 1) && !c.due.pending
    ensures Leads(c, s, steps, d, t) && Sound(d, t) && Open(t) && InTouch(t) && Heard(s, t)
    ensures d.arrived == c.arrived
  {
    var a := c.due.last.value;
    NewestIsHeard(s, a);
    if Stale(s.snd, a) {
      LeadsNowhere(c, s);
      assert LinkInv(s.snd, s.acks);
      return [], c, s;
    }
    NewestIsValid(s, a);
    var step;
    step, d, t := HearNow(c, s, a);
    steps := [step];
  }

  lemma HearNow(c: Ctx, s: Sys, a: AckFrame) returns (step: Step, d: Ctx, t: Sys)
    requires Sound(c, s) && s.snd.live != [] && a in s.acks && !Stale(s.snd, a) && ValidAck(s.snd, a)
    ensures Leads(c, s, [step], d, t) && Sound(d, t) && Heard(s, t) && d.arrived == c.arrived
    ensures t.snd.gotWindow && t.snd.gotPeerAck && t.snd.peerAckSeq == a.seqNo
    ensures t.snd.cumAcked == a.cum && t.snd.advWindow == a.window
  {
    InvReady(s);
    step := DeliverAck(a, s.snd.live[0], c.clock, Stamp(c.base, c.clock));
    HeardKeeps(s, a, c.clock, Stamp(c.base, c.clock));
    t := DoHear(s, a, s.snd.live[0], c.clock, Stamp(c.base, c.clock));
    d := After(c, s, step);
    SoundOne(c, s, step, t);
  }

  /** The acknowledgement that is due is sent. */
  lemma SendDue(c: Ctx, s: Sys) returns (d: Ctx, t: Sys)
    requires Sound(c, s) && Open(s) && c.due.pending
    ensures Leads(c, s, [EmitAck], d, t) && Sound(d, t) && InReach(t, t.ackSeq - 1) && !d.due.pending
    ensures t == s.(acks := t.acks, ackSeq := t.ackSeq) && d.arrived == c.arrived
  {
    InvReady(s);
    t := DoEmit(s);
    d := After(c, s, EmitAck);
    SoundOne(c, s, EmitAck, t);
  }

  /** Everything is read and acknowledged: by what is due, or by what was said last. */
  lemma GetInTouch(c: Ctx, s: Sys) returns (steps: seq<Step>, d: Ctx, t: Sys)
    requires Sound(c, s) && Able(s)
    ensures Leads(c, s, steps, d, t) && Sound(d, t) && Able(t) && InTouch(t) && d.arrived == c.arrived
    ensures t.buf.next == s.buf.next && t.buf.size == TotalLen(t.buf.segs) && t.net == s.net
  {
    var e, r := ReadOut(c, s);
    steps := [AppRead(|s.buf.ready|)];
    if e.due.pending {
      var f, u := SendDue(e, r);
      LeadsOn(c, s, steps, e, r, [EmitAck], f, u);
      steps, e, r := steps + [EmitAck], f, u;
    }
    var more;
    more, d, t := HearNewest(e, r);
    LeadsOn(c, s, steps, e, r, more, d, t);
    steps := steps + more;
  }

  // ---------- a new frame ----------

  /** A time not before this one, with a stamp that is later than any frame's. */
  lemma {:induction false} LaterThan(base: int, from: int, net: set<DataFrame>) returns (now: int)
    ensures now >= from && forall f :: f in net ==> f.ts < Stamp(base, now)
    decreases |net|
  {
    now := from;
    if net != {} {
      var f :| f in net;
      var rest := LaterThan(base, from, net - {f});
      now := Max(rest, base + 1000 * (Max(f.ts, 0) + 1));
      StampGrows(base, rest, now);
      assert forall g :: g in net ==> g == f || g in net - {f};
    }
  }

  lemma StampGrows(base: int, a: int, b: int)
    requires a <= b
    ensures Stamp(base, a) <= Stamp(base, b)
  {
  }

  /** The frame at the front, sent now on a live path. */
  ghost predicate Launched(s: Sys, t: Sys, f: DataFrame) {
    && t.net == s.net + {f} && f !in s.net && f.path in t.snd.live && (forall g :: g in s.net ==> g.ts < f.ts)
    && f.off == t.buf.next && |f.payload| > 0
  }

  lemma NothingOutstanding(s: Sys)
    requires SysInv(s) && s.buf.next == s.snd.sentOff
    ensures s.buf.segs == []
    ensures s.snd.cumAcked == s.snd.sentOff ==>
      s.snd.segs == [] && forall p :: p in s.snd.live ==> p in s.snd.pm && s.snd.pm[p].inflight == 0
  {
    NothingHeld(s.buf, s.written, s.net, s.cuts, s.snd.sentOff);
    if s.snd.cumAcked == s.snd.sentOff {
      NoTiles(s.snd.segs, s.written, s.snd.sentOff);
    }
  }

  /** A front that has reached everything sent holds nothing back. */
  lemma NothingHeld(b: Buf, stream: seq<byte>, net: set<DataFrame>, cuts: set<ByteRange>, sentOff: nat)
    requires Chain(b.segs, stream, b.next + 1, b.next + 1) && AllIn(b.segs, Offered(net)) && b.next == sentOff
    requires NetInv(net, cuts, stream) && CutsInv(cuts, sentOff)
    ensures b.segs == []
  {
  }

  lemma NoTiles(segs: seq<SendSeg<nat>>, written: seq<byte>, lo: nat)
    requires Tiles(segs, written, lo, lo)
    ensures segs == []
  {
    if segs != [] {
      TilesBounds(segs[1..], written, SegEnd(segs[0]), lo);
    }
  }

  /** With an idle path, room in the window and bytes queued, the next unsent bytes go out. */
  lemma QueueGoes(u: Sender<nat>, now: int, written: seq<byte>)
    requires QueueInv(u, written) && SenderReady(u) && u.segs == [] && !u.closed && u.live != []
    requires u.gotWindow && u.cumAcked == u.sentOff && u.advWindow > 0 && u.pendingBytes > 0
    requires u.pm[u.live[0]].inflight == 0
    ensures var (t, sent) := TrySend(u, now); sent.Frame? && sent.off == u.sentOff && |sent.payload| > 0
  {
    assert Scan(u.segs, u.peerRanges) == (u.segs, None);
    SendNewFrame(u, now, written);
    PickDataPrefersHealthy(u.live, u.pm, NewLen(u), now);
    IdleIsUnderCap(u.pm[u.live[0]], now);
    assert u.live[0] in u.live;
  }

  /** What trySend leaves alone. */
  lemma TrySendLeaves(u: Sender<nat>, now: int)
    requires SenderReady(u)
    ensures var t := TrySend(u, now).0;
      t.live == u.live && t.closed == u.closed && t.gotPeerAck == u.gotPeerAck && t.peerAckSeq == u.peerAckSeq
  {
    var (segs, h) := Scan(u.segs, u.peerRanges);
    ScanFindsHole(u.segs, u.peerRanges);
  }

  lemma SendIsLaunch(s: Sys, now: int, ts: int) returns (f: DataFrame)
    requires SysInv(s) && SenderReady(s.snd) && forall g :: g in s.net ==> g.ts < ts
    requires var sent := TrySend(s.snd, now).1; sent.Frame? && sent.off == s.buf.next && |sent.payload| > 0
    ensures var t := DoSend(s, now, ts);
      && Launched(s, t, f) && Kept(s, t) && t.buf == s.buf && t.ackSeq == s.ackSeq && (Open(s) ==> Open(t))
  {
    var sent := TrySend(s.snd, now).1;
    ResendIsUncovered(s.snd, now, s.written);
    TrySendLeaves(s.snd, now);
    f := DataFrame(sent.off, sent.payload, sent.path, ts);
  }

  lemma Launch(c: Ctx, s: Sys, now: int) returns (step: Step, d: Ctx, t: Sys, f: DataFrame)
    requires Sound(c, s) && SenderReady(s.snd) && Open(s)
    requires c.clock <= now && forall g :: g in s.net ==> g.ts < Stamp(c.base, now)
    requires var sent := TrySend(s.snd, now).1; sent.Frame? && sent.off == s.buf.next && |sent.payload| > 0
    ensures Leads(c, s, [step], d, t) && Sound(d, t) && Open(t) && Launched(s, t, f) && t.buf == s.buf
    ensures d.arrived == c.arrived
  {
    f := SendIsLaunch(s, now, Stamp(c.base, now));
    step := Send(now, Stamp(c.base, now));
    t := DoSend(s, now, Stamp(c.base, now));
    d := After(c, s, step);
    SoundOne(c, s, step, t);
  }

  /** Everything sent is at the receiver: the next frame carries new bytes. */
  lemma LaunchQueued(c: Ctx, s: Sys) returns (step: Step, d: Ctx, t: Sys, f: DataFrame)
    requires Sound(c, s) && Able(s) && InTouch(s) && s.buf.next == s.snd.sentOff < |s.written|
    requires s.buf.size == TotalLen(s.buf.segs)
    ensures Leads(c, s, [step], d, t) && Sound(d, t) && Open(t) && Launched(s, t, f) && t.buf == s.buf
    ensures d.arrived == c.arrived
  {
    var now := LaterThan(c.base, c.clock, s.net);
    NothingOutstanding(s);
    InvReady(s);
    QueueGoes(s.snd, now, s.written);
    step, d, t, f := Launch(c, s, now);
  }

  // ---------- a frame that was lost with its path, or turned away ----------

  /** No live path is suspect. */
  ghost predicate Calm(pm: map<nat, PathSt>, ps: seq<nat>) {
    forall p :: p in ps ==> p in pm && !pm[p].suspect
  }

  lemma LateEchoClears(q: PathSt, r: int, echoTs: int)
    requires r >= 0 && echoTs > q.suspectSinceTs
    ensures !NoteRTT(q, r, echoTs).suspect
  {
  }

  /** The reply, a microsecond later, to a ping that is sent after everything before and after the mark. */
  function PingOf(c: Ctx, s: Sys, p: nat): Step
    requires p in s.snd.pm
  {
    PingReply(p, 1000, Max(s.snd.pm[p].suspectSinceTs + 1, Stamp(c.base, c.clock)))
  }

  lemma PingMeasures(c: Ctx, s: Sys, p: nat) returns (t: Sys)
    requires SenderReady(s.snd) && p in s.snd.live
    ensures Next(s, PingOf(c, s, p)) == Some(t) && Allowed(c, s, PingOf(c, s, p)) && Kept(s, t)
    ensures t == s.(snd := s.snd.(pm := t.snd.pm)) && t.snd.pm.Keys == s.snd.pm.Keys
    ensures p in t.snd.pm && !t.snd.pm[p].suspect
    ensures forall q :: q in s.snd.pm && q != p ==> t.snd.pm[q] == s.snd.pm[q]
  {
    var step := PingOf(c, s, p);
    LateEchoClears(s.snd.pm[p], step.r, step.echoTs);
    t := DoMeasure(s, p, NoteRTT(s.snd.pm[p], step.r, step.echoTs));
  }

  /** A path is pinged: its mark goes and no other mark changes. */
  lemma PingNow(c: Ctx, s: Sys, p: nat) returns (step: Step, d: Ctx, t: Sys)
    requires Sound(c, s) && p in s.snd.live
    ensures Leads(c, s, [step], d, t) && Sound(d, t) && d.arrived == c.arrived
    ensures t == s.(snd := s.snd.(pm := t.snd.pm)) && t.snd.pm.Keys == s.snd.pm.Keys
    ensures p in t.snd.pm && !t.snd.pm[p].suspect
    ensures forall q :: q in s.snd.pm && q != p ==> t.snd.pm[q] == s.snd.pm[q]
  {
    InvReady(s);
    t := PingMeasures(c, s, p);
    step := PingOf(c, s, p);
    d := After(c, s, step);
    SoundOne(c, s, step, t);
  }

  lemma {:induction false} PingAll(c: Ctx, s: Sys, ps: seq<nat>) returns (steps: seq<Step>, d: Ctx, t: Sys)
    requires Sound(c, s) && forall p :: p in ps ==> p in s.snd.live
    ensures Leads(c, s, steps, d, t) && Sound(d, t) && d.arrived == c.arrived
    ensures t == s.(snd := s.snd.(pm := t.snd.pm)) && Calm(t.snd.pm, ps)
    ensures forall p :: p in s.snd.pm && !s.snd.pm[p].suspect ==> p in t.snd.pm && !t.snd.pm[p].suspect
    decreases |ps|
  {
    if ps == [] {
      LeadsNowhere(c, s);
      return [], c, s;
    }
    var step, e, u := PingNow(c, s, ps[0]);
    steps, d, t := PingAll(e, u, ps[1..]);
    LeadsOn(c, s, [step], e, u, steps, d, t);
    steps := [step] + steps;
    assert forall p :: p in ps <==> p == ps[0] || p in ps[1..];
  }

  /** A time at which every segment on a path is overdue. */
  lemma {:induction false} OverdueAt(segs: seq<SendSeg<nat>>, pm: map<nat, PathSt>) returns (now: int)
    requires PathsKnown(segs, pm)
    ensures AllOverdue(segs, pm, now)
  {
    now := 0;
    if segs != [] {
      var rest := OverdueAt(segs[1..], pm);
      now := rest;
      if segs[0].path.Some? {
        now := Max(rest, segs[0].sentAt + SuspectAfter(pm[segs[0].path.value]) + 1);
      }
      OverdueLater(segs[1..], pm, rest, now);
    }
  }

  lemma {:induction false} OverdueLater(segs: seq<SendSeg<nat>>, pm: map<nat, PathSt>, now: int, later: int)
    requires AllOverdue(segs, pm, now) && now <= later
    ensures AllOverdue(segs, pm, later)
  {
    if segs != [] {
      OverdueLater(segs[1..], pm, now, later);
    }
  }

  lemma OverdueFrom(segs: seq<SendSeg<nat>>, pm: map<nat, PathSt>, from: int) returns (now: int)
    requires PathsKnown(segs, pm)
    ensures now >= from && AllOverdue(segs, pm, now)
  {
    var over := OverdueAt(segs, pm);
    now := Max(from, over);
    OverdueLater(segs, pm, over, now);
  }

  /** A tick that finds no suspect drops no path, whatever it marks. */
  lemma CalmTick(u: Sender<nat>, now: int, ts: int)
    requires SenderReady(u) && Calm(u.pm, u.live)
    ensures TickSender(u, now, ts) == SweepAll(u, now, ts)
  {
    var t := SweepAll(u, now, ts);
    forall p | p in u.live
      ensures !TimedOut(t.pm[p], now)
    {
      SweepMarks(u.segs, u.pm, u.peerRanges, now, ts, p);
    }
    NoneTimedOut(t.live, t.pm, now);
  }

  lemma {:induction false} NoneTimedOut(live: seq<nat>, pm: map<nat, PathSt>, now: int)
    requires Known(live, pm) && forall p :: p in live ==> !TimedOut(pm[p], now)
    ensures TimedOutPaths(live, pm, now) == []
  {
    if live != [] {
      NoneTimedOut(live[1..], pm, now);
    }
  }

  lemma TickPools(s: Sys, now: int, ts: int)
    requires SenderReady(s.snd) && Calm(s.snd.pm, s.snd.live) && AllOverdue(s.snd.segs, s.snd.pm, now)
    ensures var t := s.(snd := TickSender(s.snd, now, ts));
      && Next(s, Tick(now, ts)) == Some(t) && Kept(s, t) && SameView(s.snd, t.snd) && NothingAssigned(t.snd.segs)
      && (Open(s) ==> Open(t))
  {
    CalmTick(s.snd, now, ts);
    SweepFreesOverdue(s.snd.segs, s.snd.pm, s.snd.peerRanges, now, ts);
  }

  /** Late enough, every segment that is not at the receiver waits to be sent again. */
  lemma TickNow(c: Ctx, s: Sys) returns (step: Step, d: Ctx, t: Sys)
    requires Sound(c, s) && Calm(s.snd.pm, s.snd.live) && Open(s)
    ensures Leads(c, s, [step], d, t) && Sound(d, t) && Open(t) && d.arrived == c.arrived && d.base == c.base
    ensures t == s.(snd := t.snd) && SameView(s.snd, t.snd) && NothingAssigned(t.snd.segs)
  {
    InvReady(s);
    var now := OverdueFrom(s.snd.segs, s.snd.pm, c.clock);
    step := Tick(now, Stamp(c.base, now));
    TickPools(s, now, Stamp(c.base, now));
    t := s.(snd := TickSender(s.snd, now, Stamp(c.base, now)));
    d := After(c, s, step);
    SoundOne(c, s, step, t);
  }

  /** The byte at the front is in the pool, and no acknowledgement claims it. */
  lemma FrontIsMissing(s: Sys)
    requires SysInv(s) && s.snd.cumAcked == s.buf.next < s.snd.sentOff && NothingAssigned(s.snd.segs)
    ensures Missing(s.snd, 0, s.buf.next)
  {
    if Holds(s.buf.segs, s.buf.next) {
      ChainIsBeyond(s.buf.segs, s.written, s.buf.next + 1, s.buf.next + 1, s.buf.next);
    }
    assert !Accepted(s.buf, s.buf.next);
    StoredRangesTrue(s);
    assert s.snd.segs != [];
    SegIsCut(s.snd.segs, s.cuts, s.buf, 0);
  }

  /** No frame starts below what is acknowledged. */
  lemma SentIsUnacked(u: Sender<nat>, now: int, written: seq<byte>)
    requires SenderInv(u, written) && SenderReady(u)
    ensures var sent := TrySend(u, now).1; sent.Frame? ==> sent.off >= u.cumAcked && |sent.payload| > 0
  {
    ResendIsUncovered(u, now, written);
    var (segs, h) := Scan(u.segs, u.peerRanges);
    ScanFindsHole(u.segs, u.peerRanges);
    TilesBounds(u.segs, written, u.cumAcked, u.sentOff);
  }

  /** A byte at the front that was sent before is sent again. */
  lemma FrontGoes(s: Sys, now: int)
    requires SysInv(s) && Open(s) && s.snd.gotWindow
    requires s.snd.cumAcked == s.buf.next < s.snd.sentOff && NothingAssigned(s.snd.segs)
    ensures SenderReady(s.snd)
    ensures var sent := TrySend(s.snd, now).1; sent.Frame? && sent.off == s.buf.next && |sent.payload| > 0
  {
    InvReady(s);
    FrontIsMissing(s);
    NeverBlocksItself(s.snd, now, s.written, 0, s.buf.next);
    SentIsUnacked(s.snd, now, s.written);
  }

  lemma LaunchLost(c: Ctx, s: Sys) returns (steps: seq<Step>, d: Ctx, t: Sys, f: DataFrame)
    requires Sound(c, s) && Able(s) && InTouch(s) && s.buf.next < s.snd.sentOff
    ensures Leads(c, s, steps, d, t) && Sound(d, t) && Open(t) && Launched(s, t, f) && t.buf == s.buf
    ensures d.arrived == c.arrived
  {
    var e, u;
    steps, e, u := PingAll(c, s, s.snd.live);
    var tick, g, v := TickNow(e, u);
    LeadsOn(c, s, steps, e, u, [tick], g, v);
    var now := LaterThan(g.base, g.clock, v.net);
    FrontGoes(v, now);
    var step;
    step, d, t, f := Launch(g, v, now);
    LeadsOn(c, s, steps + [tick], g, v, [step], d, t);
    steps := steps + [tick] + [step];
  }

  // ---------- to the end ----------

  lemma FrontMoves(s: Sys, f: DataFrame)
    requires SysInv(s) && f in s.net && f.off == s.buf.next
    ensures Receive(s, f).Some? && s.buf.next < Receive(s, f).value.buf.next
  {
    ArrivalSize(s, f);
    ChainSorted(s.buf.segs, s.written, s.buf.next + 1, s.buf.next + 1);
    ReachIsFirstGap(f.off + |f.payload|, s.buf.segs, s.buf.next + 1);
  }

  /** The frame that was just sent arrives, and the front moves. */
  lemma Land(c: Ctx, s: Sys, d: Ctx, t: Sys, f: DataFrame) returns (e: Ctx, u: Sys)
    requires Sound(d, t) && Able(t) && Launched(s, t, f)
    requires NoneLeft(c, s) && c.arrived <= s.net && d.arrived == c.arrived
    requires t.snd.live == s.snd.live
    ensures Leads(d, t, [DeliverData(f)], e, u) && Sound(e, u) && Able(u) && u.buf.next > t.buf.next
  {
    assert InOrder(d, t, f);
    FrontMoves(t, f);
    e, u := Deliver(d, t, f);
  }

  /** What is under way arrives, and then a frame that is sent now brings the front further. */
  lemma Advance(c: Ctx, s: Sys) returns (steps: seq<Step>, d: Ctx, t: Sys)
    requires Sound(c, s) && Able(s) && s.buf.next < |s.written|
    ensures Leads(c, s, steps, d, t) && Sound(d, t) && Able(t) && t.buf.next > s.buf.next
  {
    var e, u, more, g, v;
    steps, e, u := Flush(c, s);
    more, g, v := GetInTouch(e, u);
    LeadsOn(c, s, steps, e, u, more, g, v);
    steps, d, t := steps + more, g, v;
    if v.buf.next < |v.written| {
      more, d, t := Onward(g, v);
      LeadsOn(c, s, steps, g, v, more, d, t);
      steps := steps + more;
    }
  }

  lemma Onward(c: Ctx, s: Sys) returns (steps: seq<Step>, d: Ctx, t: Sys)
    requires Sound(c, s) && Able(s) && InTouch(s) && NoneLeft(c, s) && s.buf.next < |s.written|
    requires s.buf.size == TotalLen(s.buf.segs)
    ensures Leads(c, s, steps, d, t) && Sound(d, t) && Able(t) && t.buf.next > s.buf.next
  {
    var e, u, f;
    if s.buf.next == s.snd.sentOff {
      var step;
      step, e, u, f := LaunchQueued(c, s);
      steps := [step];
    } else {
      steps, e, u, f := LaunchLost(c, s);
    }
    d, t := Land(c, s, e, u, f);
    LeadsOn(c, s, steps, e, u, [DeliverData(f)], d, t);
    steps := steps + [DeliverData(f)];
  }

  /** The steps bring everything written to the application and leave the stream open. */
  ghost predicate Completes(c: Ctx, s: Sys, steps: seq<Step>, d: Ctx, t: Sys) {
    Leads(c, s, steps, d, t) && t.out == t.written == s.written && Open(t)
  }

  lemma {:induction false} Finishes(c: Ctx, s: Sys) returns (steps: seq<Step>, d: Ctx, t: Sys)
    requires Sound(c, s) && Able(s)
    ensures Completes(c, s, steps, d, t)
    decreases |s.written| - s.buf.next
  {
    if s.buf.next == |s.written| {
      d, t := ReadOut(c, s);
      return [AppRead(|s.buf.ready|)], d, t;
    }
    var a, e, u := Advance(c, s);
    steps, d, t := Finishes(e, u);
    LeadsOn(c, s, a, e, u, steps, d, t);
    steps := a + steps;
  }

  /** The state after any run, at any time, with any of its frames having arrived. */
  ghost predicate Reached(cap: nat, base: int, steps: seq<Step>, c: Ctx, s: Sys) {
    && RunFrom(Initial(cap, base), steps) == Some(s) && c.base == base && c.arrived <= s.net
    && c.due == DueIn(AT_START, Initial(cap, base), steps)
  }

  lemma ReachedIsSound(cap: nat, base: int, steps: seq<Step>, c: Ctx, s: Sys)
    requires Reached(cap, base, steps, c, s)
    ensures Sound(c, s)
  {
    InitialInv(cap, base);
    RunKeepsInv(Initial(cap, base), steps);
    RunKeepsDue(AT_START, Initial(cap, base), steps);
  }

  /**
   * From every reachable state in which the stream is open, a path lives, the receiver has some capacity and
   * at least half of its largest, and at most 2^20 acknowledgements went unheard: a finite continuation in
   * which the clock runs forward, every path delivers in order what is sent on it, and acknowledgements are
   * sent only when due, brings everything written to the reading application. No path is lost in it, and
   * nothing is written or resized.
   */
  lemma NeverStuck(cap: nat, base: int, steps: seq<Step>, c: Ctx, s: Sys)
    requires Reached(cap, base, steps, c, s) && Able(s)
    ensures exists more, d, t :: Completes(c, s, more, d, t)
  {
    ReachedIsSound(cap, base, steps, c, s);
    var more, d, t := Finishes(c, s);
  }

  lemma Restored(c: Ctx, s: Sys)
    requires Sound(c, s)
    ensures Sound(After(c, s, Resize(s.maxCap)), DoResize(s, s.maxCap))
  {
    InvReady(s);
    ResizeStep(s, s.maxCap);
    ResizeKeepsDue(c.due, s, s.maxCap);
  }

  lemma RestoredIsAble(s: Sys)
    requires Open(s) && s.maxCap > 0
    ensures Able(DoResize(s, s.maxCap))
  {
  }

  /** Whatever the capacity has become, setting it back to its largest is enough. */
  lemma NeverStuckOnceRestored(cap: nat, base: int, steps: seq<Step>, c: Ctx, s: Sys)
    requires Reached(cap, base, steps, c, s) && Open(s) && s.maxCap > 0
    ensures exists more, d, t :: Completes(After(c, s, Resize(s.maxCap)), DoResize(s, s.maxCap), more, d, t)
  {
    ReachedIsSound(cap, base, steps, c, s);
    Restored(c, s);
    RestoredIsAble(s);
    var more, d, t := Finishes(After(c, s, Resize(s.maxCap)), DoResize(s, s.maxCap));
  }
}
