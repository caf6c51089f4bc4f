/** Each step of the two endpoints keeps the whole invariant. */
module SystemSteps {
  import opened Base
  import opened Intervals
  import opened SegmentHeap
  import opened Reorder
  import opened Paths
  import opened Scheduler
  import opened Sender
  import opened SenderProofs
  import opened SenderInvariant
  import opened System
  import opened SystemProofs

  /** The sender's view of the receiver did not change. */
  ghost predicate SameKnowledge(s: Sender<nat>, t: Sender<nat>) {
    && s.cumAcked == t.cumAcked && s.advWindow == t.advWindow && s.gotWindow == t.gotWindow
    && s.peerAckSeq == t.peerAckSeq && s.gotPeerAck == t.gotPeerAck && s.peerRanges == t.peerRanges
  }

  /** Nor did the amount it has sent. */
  ghost predicate SameView(s: Sender<nat>, t: Sender<nat>) {
    s.sentOff == t.sentOff && SameKnowledge(s, t)
  }

  lemma SameViewKeeps(s: Sys, t: Sys)
    requires SysInv(s) && t == s.(snd := t.snd) && SameView(s.snd, t.snd)
    requires SenderInv(t.snd, s.written) && SegsInv(t.snd.segs, s.cuts, s.buf)
    ensures SysInv(t)
  {
    LinkSame(s.snd, t.snd, s.acks);
    forall a | a in t.acks
      ensures AckInv(a, t)
    {
      assert AckInv(a, s);
    }
  }

  lemma LinkSame(s: Sender<nat>, t: Sender<nat>, acks: set<AckFrame>)
    requires LinkInv(s, acks) && SameView(s, t)
    ensures LinkInv(t, acks)
  {
    if s.gotPeerAck {
      var a :| a in acks && LinkedTo(s, a);
      assert LinkedTo(t, a);
    }
  }

  lemma LinkMore(s: Sender<nat>, acks: set<AckFrame>, more: set<AckFrame>)
    requires LinkInv(s, acks) && acks <= more
    ensures LinkInv(s, more)
  {
    if s.gotPeerAck {
      var a :| a in acks && LinkedTo(s, a);
      assert a in more;
    }
  }

  lemma InvReady(s: Sys)
    requires SysInv(s)
    ensures SenderReady(s.snd)
  {
    InvRunnable(s.snd, s.written);
  }

  /** The step is safe, keeps the invariant and takes back nothing the receiver has. */
  ghost predicate Safe(s: Sys, step: Step)
    requires SenderReady(s.snd)
  {
    Next(s, step).Some? && SysInv(Next(s, step).value) && AcceptedGrows(s.buf, Next(s, step).value.buf)
  }

  // ---------- Write ----------

  lemma {:induction false} ChainMoreWritten(segs: seq<Seg>, stream: seq<byte>, more: seq<byte>, off: nat, end: nat)
    requires Chain(segs, stream, off, end)
    ensures Chain(segs, stream + more, off, end)
  {
    if segs != [] {
      var s := segs[0];
      assert (stream + more)[s.off..End(s)] == stream[s.off..End(s)];
      ChainMoreWritten(segs[1..], stream, more, s.off, End(s));
    }
  }

  lemma NetMoreWritten(net: set<DataFrame>, cuts: set<ByteRange>, written: seq<byte>, more: seq<byte>)
    requires NetInv(net, cuts, written)
    ensures NetInv(net, cuts, written + more)
  {
    forall f | f in net
      ensures IsSlice(f.payload, written + more, f.off)
    {
      assert (written + more)[f.off..f.off + |f.payload|] == written[f.off..f.off + |f.payload|];
    }
  }

  lemma BufMoreWritten(b: Buf, written: seq<byte>, more: seq<byte>, got: nat)
    requires BufInv(b, written, got)
    ensures BufInv(b, written + more, got)
  {
    ChainMoreWritten(b.segs, written, more, b.next + 1, b.next + 1);
    assert (written + more)[got..b.next] == written[got..b.next];
  }

  lemma WriteStep(s: Sys, b: seq<byte>, bufCap: int)
    requires SysInv(s) && SenderReady(s.snd)
    ensures Safe(s, Write(b, bufCap))
  {
    WriteKeepsInv(s, b, bufCap);
  }

  lemma WriteKeepsInv(s: Sys, b: seq<byte>, bufCap: int)
    requires SysInv(s)
    ensures SysInv(DoWrite(s, b, bufCap)) && DoWrite(s, b, bufCap).buf == s.buf
  {
    WriteKeeps(s.snd, s.written, b, bufCap);
    var (n, snd) := WriteSome(s.snd, b, bufCap);
    var t := s.(snd := snd, written := s.written + b[..n]);
    NetMoreWritten(s.net, s.cuts, s.written, b[..n]);
    BufMoreWritten(s.buf, s.written, b[..n], |s.out|);
    assert t.written[..|s.out|] == s.written[..|s.out|];
    LinkSame(s.snd, snd, s.acks);
    AcksStay(s, t);
  }

  /** Acknowledgements stay true while cuts and the receiver only grow in ways they cannot see. */
  lemma AcksStay(s: Sys, t: Sys)
    requires forall a :: a in s.acks ==> AckInv(a, s)
    requires t.acks == s.acks && t.ackSeq >= s.ackSeq && AcceptedGrows(s.buf, t.buf) && t.buf.next >= s.buf.next
    requires t.snd.sentOff >= s.snd.sentOff && |t.out| + t.maxCap >= |s.out| + s.maxCap
    requires s.buf.next <= s.snd.sentOff
    requires forall r :: r in t.cuts && r !in s.cuts ==> r.start >= s.snd.sentOff
    ensures forall a :: a in t.acks ==> AckInv(a, t)
  {
    forall a | a in t.acks
      ensures AckInv(a, t)
    {
      assert AckInv(a, s);
    }
  }

  // ---------- Send ----------

  lemma ScanView(s: Sys) returns (u: Sender<nat>, h: Option<Hole>)
    requires SysInv(s)
    ensures (u.segs, h) == Scan(s.snd.segs, s.snd.peerRanges) && u == s.snd.(segs := u.segs)
    ensures SenderInv(u, s.written) && SegsInv(u.segs, s.cuts, s.buf) && Runnable(u)
    ensures h.Some? ==> HoleInside(u.segs, h.value)
    ensures h.Some? ==> h.value.start == u.segs[h.value.idx].off && h.value.end == SegEnd(u.segs[h.value.idx])
  {
    InvReady(s);
    StoredRangesTrue(s);
    ScanKeepsSegs(s.snd.segs, s.snd.peerRanges, s.cuts, s.snd.sentOff, s.buf);
    ScanFindsHole(s.snd.segs, s.snd.peerRanges);
    ScanKeeps(s.snd, s.written);
    h := Scan(s.snd.segs, s.snd.peerRanges).1;
    u := s.snd.(segs := Scan(s.snd.segs, s.snd.peerRanges).0);
  }

  /** A frame of the network: the range of one first transmission, with the written bytes. */
  ghost predicate GoodFrame(off: nat, payload: seq<byte>, cuts: set<ByteRange>, written: seq<byte>) {
    ByteRange(off, off + |payload|) in cuts && IsSlice(payload, written, off)
  }

  /** A hole that is a whole segment is one first transmission, and fits one frame. */
  lemma WholeHole(segs: seq<SendSeg<nat>>, h: Hole, written: seq<byte>, lo: nat, hi: nat, cuts: set<ByteRange>,
                  sentOff: nat, b: Buf)
    requires SegsInv(segs, cuts, b) && CutsInv(cuts, sentOff) && Tiles(segs, written, lo, hi)
    requires h.idx < |segs| && h.start == segs[h.idx].off && h.end == SegEnd(segs[h.idx])
    ensures ResendEnd(h) == h.end && GoodFrame(h.start, segs[h.idx].data, cuts, written)
  {
    SegIsCut(segs, cuts, b, h.idx);
    TilesCut(segs, h.idx, written, lo, hi);
  }

  /** A resend carries one whole first transmission. */
  lemma ResendIsWhole(u: Sender<nat>, h: Hole, now: int, written: seq<byte>, cuts: set<ByteRange>, sentOff: nat, b: Buf)
    requires Tiles(u.segs, written, u.cumAcked, u.sentOff) && Known(u.live, u.pm)
    requires SegsInv(u.segs, cuts, b) && CutsInv(cuts, sentOff) && HoleInside(u.segs, h)
    requires h.start == u.segs[h.idx].off && h.end == SegEnd(u.segs[h.idx])
    ensures var (t, sent) := SendHole(u, h, now);
      && SegsInv(t.segs, cuts, b) && SameView(u, t)
      && (sent.Frame? ==> GoodFrame(sent.off, sent.payload, cuts, written)
                          && sent.off == h.start && sent.off + |sent.payload| == h.end)
  {
    var d := u.segs[h.idx].data;
    WholeHole(u.segs, h, written, u.cumAcked, u.sentOff, cuts, sentOff, b);
    assert d[0..|d|] == d;
    var sent := SendHole(u, h, now).1;
    if sent.Frame? {
      WholeSplitKeepsSegs(u.segs, h.idx, sent.path, now, cuts, b);
    }
  }

  /** New data starts a new cut at sentOff and stays inside the newest advertised window. */
  lemma FirstSendIsCut(u: Sender<nat>, now: int, written: seq<byte>, cuts: set<ByteRange>, b: Buf)
    requires SenderInv(u, written) && Runnable(u) && SegsInv(u.segs, cuts, b)
    ensures var (t, sent) := SendNew(u, now);
      && (sent == Nothing ==> t == u)
      && (sent.Frame? ==>
           && 0 < t.sentOff - u.sentOff <= MAX_FRAME_PAYLOAD && t.sentOff <= u.cumAcked + u.advWindow
           && SameView(u.(sentOff := t.sentOff), t)
           && GoodFrame(sent.off, sent.payload, cuts + CutOf(u.sentOff, t.sentOff), written)
           && SegsInv(t.segs, cuts + CutOf(u.sentOff, t.sentOff), b))
  {
    SendNewFrame(u, now, written);
    var (t, sent) := SendNew(u, now);
    if sent.Frame? {
      var m := SendSeg(u.sentOff, sent.payload, Some(sent.path), now, false);
      var more := cuts + CutOf(u.sentOff, t.sentOff);
      SegsInvGrows(u.segs, cuts, more, b, b);
      assert [m][1..] == [];
      SegsInvConcat(u.segs, [m], more, b);
    }
  }

  lemma MoreOffered(segs: seq<Seg>, net: set<DataFrame>, more: set<DataFrame>)
    requires AllIn(segs, Offered(net)) && net <= more
    ensures AllIn(segs, Offered(more))
  {
    AllInMore(segs, Offered(net), Offered(more));
  }

  lemma {:induction false} AllInMore(segs: seq<Seg>, a: set<Seg>, b: set<Seg>)
    requires AllIn(segs, a) && a <= b
    ensures AllIn(segs, b)
  {
    if segs != [] {
      AllInMore(segs[1..], a, b);
    }
  }

  lemma WindowBound(s: Sys)
    requires SysInv(s) && s.snd.gotWindow
    ensures s.snd.cumAcked + s.snd.advWindow <= |s.out| + s.maxCap
  {
    var a :| a in s.acks && LinkedTo(s.snd, a);
    assert AckInv(a, s);
  }

  /** What one trySend does to the sender and what it puts on the network. */
  lemma SendOutcome(s: Sys, now: int)
    requires SysInv(s) && s.snd.gotWindow && !s.snd.closed
    ensures SenderReady(s.snd)
    ensures var (snd, sent) := TrySend(s.snd, now);
      var cuts := s.cuts + CutOf(s.snd.sentOff, snd.sentOff);
      && SameView(s.snd.(sentOff := snd.sentOff), snd) && SegsInv(snd.segs, cuts, s.buf)
      && 0 <= snd.sentOff - s.snd.sentOff <= MAX_FRAME_PAYLOAD
      && (snd.sentOff == s.snd.sentOff || snd.sentOff <= s.snd.cumAcked + s.snd.advWindow)
      && (sent == Nothing ==> snd.sentOff == s.snd.sentOff)
      && (sent.Frame? ==> GoodFrame(sent.off, sent.payload, cuts, s.written))
  {
    InvReady(s);
    var u, h := ScanView(s);
    assert s.cuts + {} == s.cuts;
    if h.Some? {
      ResendIsWhole(u, h.value, now, s.written, s.cuts, s.snd.sentOff, s.buf);
    } else {
      FirstSendIsCut(u, now, s.written, s.cuts, s.buf);
    }
  }

  lemma SendStep(s: Sys, now: int, ts: int)
    requires SysInv(s) && SenderReady(s.snd)
    ensures Safe(s, Send(now, ts))
  {
    if !s.snd.closed && s.snd.gotWindow {
      SendOpenStep(s, now, ts);
    }
  }

  lemma SendOpenStep(s: Sys, now: int, ts: int)
    requires SysInv(s) && SenderReady(s.snd) && !s.snd.closed && s.snd.gotWindow
    ensures SysInv(DoSend(s, now, ts)) && DoSend(s, now, ts).buf == s.buf
  {
    var (snd, sent) := TrySend(s.snd, now);
    SendKeeps(s.snd, now, s.written);
    SendOutcome(s, now);
    WindowBound(s);
    SentOrNot(s, snd, sent, ts);
    SendIs(s, now, ts);
  }

  /** One trySend, by its outcome. */
  lemma SendIs(s: Sys, now: int, ts: int)
    requires SenderReady(s.snd)
    ensures var (snd, sent) := TrySend(s.snd, now);
      DoSend(s, now, ts)
      == if sent.Frame? then Transmitted(s, snd, DataFrame(sent.off, sent.payload, sent.path, ts)) else s.(snd := snd)
  {
  }

  /** The frame goes onto the network, or only segments were marked. */
  lemma SentOrNot(s: Sys, snd: Sender<nat>, sent: Sent<nat>, ts: int)
    requires SysInv(s) && SenderInv(snd, s.written) && SameView(s.snd.(sentOff := snd.sentOff), snd)
    requires 0 <= snd.sentOff - s.snd.sentOff <= MAX_FRAME_PAYLOAD
    requires snd.sentOff == s.snd.sentOff || snd.sentOff <= |s.out| + s.maxCap
    requires var cuts := s.cuts + CutOf(s.snd.sentOff, snd.sentOff);
      && SegsInv(snd.segs, cuts, s.buf)
      && (sent.Frame? ==> GoodFrame(sent.off, sent.payload, cuts, s.written))
      && (sent == Nothing ==> snd.sentOff == s.snd.sentOff)
    ensures SysInv(if sent.Frame? then Transmitted(s, snd, DataFrame(sent.off, sent.payload, sent.path, ts))
                   else s.(snd := snd))
  {
    if sent.Frame? {
      SentOn(s, snd, DataFrame(sent.off, sent.payload, sent.path, ts));
    } else {
      assert s.cuts + {} == s.cuts;
      SameViewKeeps(s, s.(snd := snd));
    }
  }

  /** The state with the new sender and its frame on the network. */
  ghost function Transmitted(s: Sys, snd: Sender<nat>, f: DataFrame): Sys {
    s.(snd := snd, net := s.net + {f}, cuts := s.cuts + CutOf(s.snd.sentOff, snd.sentOff))
  }

  lemma SentOn(s: Sys, snd: Sender<nat>, f: DataFrame)
    requires SysInv(s) && SenderInv(snd, s.written) && SameView(s.snd.(sentOff := snd.sentOff), snd)
    requires 0 <= snd.sentOff - s.snd.sentOff <= MAX_FRAME_PAYLOAD
    requires snd.sentOff == s.snd.sentOff || snd.sentOff <= |s.out| + s.maxCap
    requires var cuts := s.cuts + CutOf(s.snd.sentOff, snd.sentOff);
      GoodFrame(f.off, f.payload, cuts, s.written) && SegsInv(snd.segs, cuts, s.buf)
    ensures SysInv(Transmitted(s, snd, f))
  {
    var t := Transmitted(s, snd, f);
    CutsGrow(s.cuts, s.snd.sentOff, snd.sentOff);
    NetGrows(s.net, s.cuts, t.cuts, s.written, f);
    RecvStays(s, t);
    LinkGrown(s.snd, snd, s.acks);
    AcksStay(s, t);
  }

  lemma NetGrows(net: set<DataFrame>, cuts: set<ByteRange>, more: set<ByteRange>, written: seq<byte>, f: DataFrame)
    requires NetInv(net, cuts, written) && cuts <= more && GoodFrame(f.off, f.payload, more, written)
    ensures NetInv(net + {f}, more, written)
  {
  }

  /** The receiver does not notice more frames, nor first transmissions beyond what was sent. */
  lemma RecvStays(s: Sys, t: Sys)
    requires RecvInv(s) && t.buf == s.buf && t.out == s.out && t.written == s.written && t.maxCap == s.maxCap
    requires s.net <= t.net && t.snd.sentOff >= s.snd.sentOff
    requires forall r :: r in t.cuts && r !in s.cuts ==> r.start >= s.snd.sentOff
    ensures RecvInv(t)
  {
    MoreOffered(s.buf.segs, s.net, t.net);
  }

  lemma CutsGrow(cuts: set<ByteRange>, before: nat, after: nat)
    requires CutsInv(cuts, before) && 0 <= after - before <= MAX_FRAME_PAYLOAD
    ensures CutsInv(cuts + CutOf(before, after), after)
  {
  }

  lemma LinkGrown(s: Sender<nat>, t: Sender<nat>, acks: set<AckFrame>)
    requires LinkInv(s, acks) && SameView(s.(sentOff := t.sentOff), t)
    ensures LinkInv(t, acks)
  {
    if s.gotPeerAck {
      var a :| a in acks && LinkedTo(s, a);
      assert LinkedTo(t, a);
    }
  }

  // ---------- DeliverData ----------

  lemma {:induction false} DrainTotal(b: Buf)
    ensures Drain(b).Some? ==> TotalLen(Drain(b).value.segs) <= TotalLen(b.segs)
    decreases |b.segs|
  {
    if b.segs != [] && b.segs[0].off <= b.next <= End(b.segs[0]) {
      DrainTotal(DrainOne(b));
    }
  }

  /** The heap never holds more than it did, or than the capacity. */
  lemma AddTotal(b: Buf, stream: seq<byte>, got: nat, off: nat, data: seq<byte>, offered: set<Seg>)
    requires BufInv(b, stream, got) && IsSlice(data, stream, off)
    requires EndMonotone(offered) && AllIn(b.segs, offered) && Seg(off, data) in offered
    ensures Add(b, off, data).Some?
    ensures TotalLen(Add(b, off, data).value.segs) <= Max(TotalLen(b.segs), b.cap)
  {
    AddKeeps(b, stream, got, off, data, offered);
    if data != [] && off + |data| > b.next && !Overflows(b, off, data) {
      var p := Pushed(b, off, data);
      if off > b.next {
        PushedBeyondFront(b, stream, got, off, data, offered);
        InsertTotal(b.segs, Seg(off, data));
      } else {
        PushedAtFront(b, stream, got, off, data, offered);
        assert p.segs == [CutAt(b.next, Seg(off, data))] + b.segs;
        assert p.segs[1..] == b.segs;
        DrainTotal(DrainOne(p));
      }
    }
  }

  lemma DeliverStep(s: Sys, f: DataFrame)
    requires SysInv(s) && SenderReady(s.snd)
    ensures Safe(s, DeliverData(f))
  {
    if f in s.net && !s.down {
      ReceiveKeeps(s, f);
      ReceiveAccepts(s, f);
      var t := Next(s, DeliverData(f)).value;
      SegsInvGrows(s.snd.segs, s.cuts, s.cuts, s.buf, t.buf);
      AcksStay(s, t);
    }
  }

  lemma ReceiveAccepts(s: Sys, f: DataFrame)
    requires SysInv(s) && f in s.net
    ensures Add(s.buf, f.off, f.payload).Some?
    ensures AcceptedGrows(s.buf, Add(s.buf, f.off, f.payload).value)
  {
    var offered := Offered(s.net);
    OfferedEndMonotone(s.net, s.cuts, s.snd.sentOff, s.written);
    assert Seg(f.off, f.payload) in offered;
    AddKeeps(s.buf, s.written, |s.out|, f.off, f.payload, offered);
    forall x | Accepted(s.buf, x)
      ensures Accepted(Add(s.buf, f.off, f.payload).value, x)
    {
      AddAccepts(s.buf, s.written, |s.out|, f.off, f.payload, offered, x);
    }
  }

  lemma ReceiveKeeps(s: Sys, f: DataFrame)
    requires SysInv(s) && f in s.net
    ensures Receive(s, f).Some? && RecvInv(Receive(s, f).value)
    ensures Receive(s, f).value.buf.next >= s.buf.next && Receive(s, f).value.buf.cap == s.buf.cap
  {
    var offered := Offered(s.net);
    OfferedEndMonotone(s.net, s.cuts, s.snd.sentOff, s.written);
    assert Seg(f.off, f.payload) in offered;
    AddKeeps(s.buf, s.written, |s.out|, f.off, f.payload, offered);
    AddTotal(s.buf, s.written, |s.out|, f.off, f.payload, offered);
    var b := Add(s.buf, f.off, f.payload).value;
    if b.next != s.buf.next {
      var t :| t in offered && b.next == End(t);
      OfferedEndAligned(s, t);
    }
  }

  lemma OfferedEndAligned(s: Sys, t: Seg)
    requires SysInv(s) && t in Offered(s.net)
    ensures Aligned(s.cuts, End(t)) && End(t) <= s.snd.sentOff
  {
    var g :| g in s.net && t == Seg(g.off, g.payload);
    CutEndsAligned(s.cuts, s.snd.sentOff, ByteRange(g.off, g.off + |g.payload|));
  }

  // ---------- EmitAck ----------

  lemma SnapshotIsTrue(s: Sys)
    requires SysInv(s)
    ensures AckInv(Snapshot(s), s.(ackSeq := s.ackSeq + 1))
  {
    ExportedRanges(s.buf, s.net, s.cuts, s.snd.sentOff, s.written, |s.out|);
  }

  lemma EmitStep(s: Sys)
    requires SysInv(s) && SenderReady(s.snd)
    ensures Safe(s, EmitAck)
  {
    if !s.down {
      EmitKeepsInv(s);
    }
  }

  lemma EmitKeepsInv(s: Sys)
    requires SysInv(s)
    ensures SysInv(s.(acks := s.acks + {Snapshot(s)}, ackSeq := s.ackSeq + 1))
  {
    SnapshotJoins(s);
    LinkMore(s.snd, s.acks, s.acks + {Snapshot(s)});
    SnapshotIsNewest(s);
    Emitted(s, s.(acks := s.acks + {Snapshot(s)}, ackSeq := s.ackSeq + 1));
  }

  lemma Emitted(s: Sys, t: Sys)
    requires SysInv(s) && t == s.(acks := t.acks, ackSeq := t.ackSeq)
    requires AcksInv(t) && AckOrder(t.acks) && LinkInv(t.snd, t.acks)
    ensures SysInv(t)
  {
    assert RecvInv(t);
  }

  ghost predicate AcksInv(s: Sys) {
    forall c :: c in s.acks ==> AckInv(c, s)
  }

  lemma SnapshotJoins(s: Sys)
    requires SysInv(s)
    ensures var t := s.(acks := s.acks + {Snapshot(s)}, ackSeq := s.ackSeq + 1);
      forall c :: c in t.acks ==> AckInv(c, t)
  {
    var u := s.(ackSeq := s.ackSeq + 1);
    var t := u.(acks := s.acks + {Snapshot(s)});
    SnapshotIsTrue(s);
    AcksStay(s, u);
    forall c | c in t.acks
      ensures AckInv(c, t)
    {
      assert AckInv(c, u);
    }
  }

  lemma SnapshotIsNewest(s: Sys)
    requires SysInv(s)
    ensures AckOrder(s.acks + {Snapshot(s)})
  {
    assert forall c :: c in s.acks ==> AckInv(c, s);
  }

  // ---------- DeliverAck ----------

  lemma DropSegs(s: Sys, p: nat)
    requires SysInv(s) && p in s.snd.pm
    ensures SysInv(s.(snd := DropPath(s.snd, p)))
  {
    DropKeeps(s.snd, p, s.written);
    UnassignKeepsSegs(s.snd.segs, p, s.cuts, s.buf);
    SameViewKeeps(s, s.(snd := DropPath(s.snd, p)));
  }

  lemma ApplyStep(s: Sys, a: AckFrame, now: int, nowTs: int)
    requires SysInv(s) && a in s.acks && ValidAck(s.snd, a)
    ensures SysInv(s.(snd := ApplyAck(s.snd, a, now, nowTs)))
  {
    assert AckInv(a, s);
    var t := s.(snd := ApplyAck(s.snd, a, now, nowTs));
    ApplyAckKeeps(s.snd, a, now, nowTs, s.written);
    NormalizeKeepsCanonical(a.ranges);
    assert LinkedTo(t.snd, a);
    if a.cum > s.snd.cumAcked {
      FreeKeepsSegs(s.snd.segs, Sample(s.snd, a.tsPath, a.tsEcho, nowTs), a.cum, s.snd.unassigned, now, s.cuts, s.buf);
    }
    AcksStay(s, t);
  }

  lemma HearAckStep(s: Sys, a: AckFrame, via: nat, now: int, nowTs: int)
    requires SysInv(s) && SenderReady(s.snd)
    ensures Safe(s, DeliverAck(a, via, now, nowTs))
  {
    if a in s.acks && !Stale(s.snd, a) {
      if ValidAck(s.snd, a) {
        ApplyStep(s, a, now, nowTs);
      } else if via in s.snd.pm {
        DropSegs(s, via);
      }
    }
  }

  // ---------- Tick, paths, application ----------

  lemma {:induction false} DropAllSys(s: Sys, ps: seq<nat>)
    requires SysInv(s) && forall p :: p in ps ==> p in s.snd.pm
    ensures SysInv(s.(snd := DropAll(s.snd, ps)))
    decreases |ps|
  {
    if ps != [] {
      DropSegs(s, ps[0]);
      DropAllSys(s.(snd := DropPath(s.snd, ps[0])), ps[1..]);
    }
  }

  lemma TickStep(s: Sys, now: int, ts: int)
    requires SysInv(s) && SenderReady(s.snd)
    ensures Safe(s, Tick(now, ts))
  {
    TickKeepsInv(s, now, ts);
    NextTick(s, now, ts);
  }

  lemma NextTick(s: Sys, now: int, ts: int)
    requires SenderReady(s.snd)
    ensures Next(s, Tick(now, ts)) == Some(s.(snd := TickSender(s.snd, now, ts)))
  {
  }

  lemma TickKeepsInv(s: Sys, now: int, ts: int)
    requires SysInv(s) && SenderReady(s.snd)
    ensures SysInv(s.(snd := TickSender(s.snd, now, ts)))
  {
    StoredRangesTrue(s);
    SweepAllKeeps(s.snd, now, ts, s.written);
    SweepKeepsSegs(s.snd.segs, s.snd.pm, s.snd.peerRanges, now, ts, s.cuts, s.snd.sentOff, s.buf);
    var u := s.(snd := SweepAll(s.snd, now, ts));
    SameViewKeeps(s, u);
    TimedOutAreLive(u.snd.live, u.snd.pm, now);
    DropAllSys(u, TimedOutPaths(u.snd.live, u.snd.pm, now));
  }

  /** Measurements change no account. */
  lemma MeasureKeeps(s: Sys, p: nat, st: PathSt)
    requires SysInv(s) && p in s.snd.pm
    requires st.inflight == s.snd.pm[p].inflight && st.delivered == s.snd.pm[p].delivered
    ensures SysInv(DoMeasure(s, p, st))
  {
    var t := s.snd.(pm := s.snd.pm[p := st]);
    DeliveredSame(s.snd.known, s.snd.pm, t.pm);
    assert SenderInv(t, s.written);
    SameViewKeeps(s, s.(snd := t));
  }

  lemma AppReadStep(s: Sys, n: nat)
    requires SysInv(s) && SenderReady(s.snd)
    ensures Safe(s, AppRead(n))
  {
    ReadKeeps(s.buf, s.written, |s.out|, n);
    var t := DoRead(s, n);
    assert t.out == s.written[..|t.out|];
    SegsInvGrows(s.snd.segs, s.cuts, s.cuts, s.buf, t.buf);
    AcksStay(s, t);
  }

  lemma ResizeStep(s: Sys, cap: int)
    requires SysInv(s) && SenderReady(s.snd)
    ensures Safe(s, Resize(cap))
  {
    var t := DoResize(s, cap);
    SegsInvGrows(s.snd.segs, s.cuts, s.cuts, s.buf, t.buf);
    AcksStay(s, t);
  }

  lemma AttachStep(s: Sys, p: nat, now: int)
    requires SysInv(s) && SenderReady(s.snd)
    ensures Safe(s, Attach(p, now))
  {
    AttachKeeps(s.snd, p, p, now, s.written);
    SameViewKeeps(s, s.(snd := AttachPath(s.snd, p, p, now)));
  }

  lemma DropStep(s: Sys, p: nat)
    requires SysInv(s) && SenderReady(s.snd)
    ensures Safe(s, Drop(p))
  {
    if p in s.snd.pm {
      DropSegs(s, p);
    }
  }

  lemma PingStep(s: Sys, p: nat, r: int, echoTs: int)
    requires SysInv(s) && SenderReady(s.snd)
    ensures Safe(s, PingReply(p, r, echoTs))
  {
    if p in s.snd.live {
      MeasureKeeps(s, p, NoteRTT(s.snd.pm[p], r, echoTs));
    }
  }

  lemma TelemetryStep(s: Sys, p: nat, rate: real, now: int)
    requires SysInv(s) && SenderReady(s.snd)
    ensures Safe(s, Telemetry(p, rate, now))
  {
    if p in s.snd.live {
      MeasureKeeps(s, p, s.snd.pm[p].(peerRate := rate, peerRateAt := Some(now)));
    }
  }

  /** Every step of every kind is safe and keeps the invariant; accepted bytes stay accepted. */
  lemma StepKeepsInv(s: Sys, step: Step)
    requires SysInv(s)
    ensures SenderReady(s.snd) && Safe(s, step)
  {
    InvReady(s);
    match step
    case Write(b, bufCap) => WriteStep(s, b, bufCap);
    case Send(now, ts) => SendStep(s, now, ts);
    case DeliverData(f) => DeliverStep(s, f);
    case EmitAck => EmitStep(s);
    case DeliverAck(a, via, now, nowTs) => HearAckStep(s, a, via, now, nowTs);
    case Tick(now, ts) => TickStep(s, now, ts);
    case Drop(p) => DropStep(s, p);
    case Attach(p, now) => AttachStep(s, p, now);
    case PingReply(p, r, echoTs) => PingStep(s, p, r, echoTs);
    case Telemetry(p, rate, now) => TelemetryStep(s, p, rate, now);
    case AppRead(n) => AppReadStep(s, n);
    case Resize(cap) => ResizeStep(s, cap);
  }
}
