/** The parts of the two-endpoint invariant, step by step. */
module SystemProofs {
  import opened Base
  import opened Intervals
  import opened SegmentHeap
  import opened Reorder
  import opened Paths
  import opened Sender
  import opened System

  // ---------- alignment ----------

  lemma CutEndsAligned(cuts: set<ByteRange>, sentOff: nat, r: ByteRange)
    requires CutsInv(cuts, sentOff) && r in cuts
    ensures Aligned(cuts, r.start) && Aligned(cuts, r.end)
  {
  }

  /** Frames of one partition are end-monotone: two that start together are the same. */
  lemma OfferedEndMonotone(net: set<DataFrame>, cuts: set<ByteRange>, sentOff: nat, written: seq<byte>)
    requires CutsInv(cuts, sentOff) && NetInv(net, cuts, written)
    ensures EndMonotone(Offered(net))
  {
    forall s, t | s in Offered(net) && t in Offered(net) && s.off <= t.off
      ensures End(s) <= End(t)
    {
      var f :| f in net && s == Seg(f.off, f.payload);
      var g :| g in net && t == Seg(g.off, g.payload);
      assert ByteRange(f.off, f.off + |f.payload|) in cuts && ByteRange(g.off, g.off + |g.payload|) in cuts;
    }
  }

  /** On aligned intervals the first hole of a whole frame is the frame or nothing. */
  lemma {:induction false} HoleIsWhole(off: nat, end: nat, rs: seq<ByteRange>, cuts: set<ByteRange>)
    requires off < end && ByteRange(off, end) in cuts && AlignedRanges(cuts, rs)
    ensures var (a, b) := HoleFrom(off, end, rs); a == b || (a == off && b == end)
    decreases |rs|
  {
    if rs != [] {
      assert Aligned(cuts, rs[0].start) && Aligned(cuts, rs[0].end);
      if rs[0].end <= off {
        HoleIsWhole(off, end, rs[1..], cuts);
      }
    }
  }

  /** Every held segment is a whole first transmission. */
  lemma {:induction false} HeldIsCut(segs: seq<Seg>, net: set<DataFrame>, cuts: set<ByteRange>, written: seq<byte>,
                                     x: int)
    returns (r: ByteRange)
    requires AllIn(segs, Offered(net)) && NetInv(net, cuts, written) && Holds(segs, x)
    ensures r in cuts && r.start <= x < r.end && forall y :: r.start <= y < r.end ==> Holds(segs, y)
  {
    if segs[0].off <= x < End(segs[0]) {
      var f :| f in net && segs[0] == Seg(f.off, f.payload);
      r := ByteRange(f.off, f.off + |f.payload|);
    } else {
      r := HeldIsCut(segs[1..], net, cuts, written, x);
    }
  }

  /** A canonical list of exactly the held offsets has only aligned ends. */
  lemma HeldRangesAligned(rs: seq<ByteRange>, segs: seq<Seg>, net: set<DataFrame>, cuts: set<ByteRange>,
                          sentOff: nat, written: seq<byte>)
    requires Canonical(rs) && forall x :: Covers(rs, x) <==> Holds(segs, x)
    requires AllIn(segs, Offered(net)) && NetInv(net, cuts, written) && CutsInv(cuts, sentOff)
    ensures AlignedRanges(cuts, rs)
    ensures forall i :: 0 <= i < |rs| ==> rs[i].end <= sentOff
  {
    forall i | 0 <= i < |rs|
      ensures Aligned(cuts, rs[i].start) && Aligned(cuts, rs[i].end) && rs[i].end <= sentOff
    {
      var lo: int, hi: int := rs[i].start, rs[i].end;
      assert Covers(rs, lo) && Covers(rs, hi - 1);
      assert !Covers(rs, lo - 1) && !Covers(rs, hi);
      var r := HeldIsCut(segs, net, cuts, written, lo);
      var q := HeldIsCut(segs, net, cuts, written, hi - 1);
      assert r.start == lo by { assert !Holds(segs, lo - 1); }
      assert q.end == hi by { assert !Holds(segs, hi); }
    }
  }

  // ---------- the exported ranges ----------

  lemma {:induction false} ChainRanges(segs: seq<Seg>, stream: seq<byte>, off: nat, end: nat)
    requires Chain(segs, stream, off, end)
    ensures SortedFrom(RangesOf(segs), off) && NonEmpty(RangesOf(segs))
  {
    if segs != [] {
      ChainRanges(segs[1..], stream, segs[0].off, End(segs[0]));
      assert RangesOf(segs)[1..] == RangesOf(segs[1..]);
      forall i | 0 <= i < |segs|
        ensures RangesOf(segs)[i].start < RangesOf(segs)[i].end
      {
        assert i > 0 ==> RangesOf(segs)[i] == RangesOf(segs[1..])[i - 1];
      }
    }
  }

  lemma {:induction false} RangesCoverHeld(segs: seq<Seg>, x: int)
    ensures Covers(RangesOf(segs), x) <==> Holds(segs, x)
  {
    if segs != [] {
      assert RangesOf(segs)[1..] == RangesOf(segs[1..]);
      CoversCons(RangesOf(segs), x);
      RangesCoverHeld(segs[1..], x);
    }
  }

  /** The merged list before truncation covers exactly the held offsets. */
  lemma MergedExact(b: Buf, stream: seq<byte>, got: nat)
    requires BufInv(b, stream, got)
    ensures var m := MergeInto([], RangesOf(b.segs));
      Canonical(m) && forall x :: Covers(m, x) <==> Holds(b.segs, x)
  {
    ChainRanges(b.segs, stream, b.next + 1, b.next + 1);
    assert SortedFrom(RangesOf(b.segs), 0);
    MergeIsCanonical([], RangesOf(b.segs), 0);
    forall x: int
      ensures Covers(RangesOf(b.segs), x) <==> Holds(b.segs, x)
    {
      RangesCoverHeld(b.segs, x);
    }
  }

  /** A list that is true of the receiver and fits for an acknowledgement. */
  ghost predicate Exportable(rs: seq<ByteRange>, b: Buf, cuts: set<ByteRange>, sentOff: nat) {
    && Canonical(rs) && AlignedRanges(cuts, rs)
    && (forall x :: Covers(rs, x) ==> Holds(b.segs, x))
    && (forall i :: 0 <= i < |rs| ==> rs[i].start > b.next && rs[i].end <= sentOff)
  }

  lemma PrefixExportable(m: seq<ByteRange>, n: nat, b: Buf, cuts: set<ByteRange>, sentOff: nat)
    requires Exportable(m, b, cuts, sentOff) && n <= |m|
    ensures Exportable(m[..n], b, cuts, sentOff)
  {
    forall x | Covers(m[..n], x)
      ensures Covers(m, x)
    {
      var i :| 0 <= i < n && m[..n][i].start <= x < m[..n][i].end;
      assert m[i] == m[..n][i];
    }
  }

  lemma MergedExportable(b: Buf, net: set<DataFrame>, cuts: set<ByteRange>, sentOff: nat, written: seq<byte>, got: nat)
    requires BufInv(b, written, got) && AllIn(b.segs, Offered(net))
    requires NetInv(net, cuts, written) && CutsInv(cuts, sentOff)
    ensures Exportable(MergeInto([], RangesOf(b.segs)), b, cuts, sentOff)
  {
    var m := MergeInto([], RangesOf(b.segs));
    MergedExact(b, written, got);
    HeldRangesAligned(m, b.segs, net, cuts, sentOff, written);
    forall i | 0 <= i < |m|
      ensures m[i].start > b.next
    {
      assert Covers(m, m[i].start);
      ChainIsBeyond(b.segs, written, b.next + 1, b.next + 1, m[i].start);
    }
  }

  /** What goes into an acknowledgement: aligned, canonical, all held, all beyond the cumulative point. */
  lemma ExportedRanges(b: Buf, net: set<DataFrame>, cuts: set<ByteRange>, sentOff: nat, written: seq<byte>, got: nat)
    requires BufInv(b, written, got) && AllIn(b.segs, Offered(net))
    requires NetInv(net, cuts, written) && CutsInv(cuts, sentOff)
    ensures Exportable(Ranges(b, MAX_ACK_RANGES), b, cuts, sentOff) && |Ranges(b, MAX_ACK_RANGES)| <= MAX_ACK_RANGES
  {
    if b.segs != [] {
      var m := MergeInto([], RangesOf(b.segs));
      MergedExportable(b, net, cuts, sentOff, written, got);
      PrefixExportable(m, if |m| > MAX_ACK_RANGES then MAX_ACK_RANGES else |m|, b, cuts, sentOff);
      assert m[..|m|] == m;
    }
  }

  /** What goes into an acknowledgement covers all that is held, or that part of it below where 32 ranges end. */
  lemma RangesComplete(b: Buf, stream: seq<byte>, got: nat, x: int)
    requires BufInv(b, stream, got) && Holds(b.segs, x)
    ensures var rs := Ranges(b, MAX_ACK_RANGES); Covers(rs, x) || (|rs| == 32 && rs[31].end < x)
  {
    MergedExact(b, stream, got);
    var m := MergeInto([], RangesOf(b.segs));
    assert Covers(m, x);
    var i :| 0 <= i < |m| && m[i].start <= x < m[i].end;
    var rs := Ranges(b, MAX_ACK_RANGES);
    if i < |rs| {
      assert rs[i] == m[i];
    } else {
      assert rs[31] == m[31];
    }
  }

  // ---------- the sender's segments ----------

  ghost predicate AcceptedGrows(b: Buf, c: Buf) {
    forall x :: Accepted(b, x) ==> Accepted(c, x)
  }

  lemma {:induction false} SegsInvGrows(segs: seq<SendSeg<nat>>, cuts: set<ByteRange>, more: set<ByteRange>, b: Buf,
                                        c: Buf)
    requires SegsInv(segs, cuts, b) && cuts <= more && AcceptedGrows(b, c)
    ensures SegsInv(segs, more, c)
  {
    if segs != [] {
      SegsInvGrows(segs[1..], cuts, more, b, c);
    }
  }

  lemma {:induction false} SegsInvConcat(a: seq<SendSeg<nat>>, z: seq<SendSeg<nat>>, cuts: set<ByteRange>, b: Buf)
    ensures SegsInv(a + z, cuts, b) <==> SegsInv(a, cuts, b) && SegsInv(z, cuts, b)
  {
    if a == [] {
      assert a + z == z;
    } else {
      SegsInvConcat(a[1..], z, cuts, b);
      assert (a + z)[1..] == a[1..] + z;
    }
  }

  /** The ranges the sender stores are accepted by the receiver. */
  ghost predicate RangesTrue(rs: seq<ByteRange>, cuts: set<ByteRange>, b: Buf) {
    Canonical(rs) && AlignedRanges(cuts, rs) && forall x :: Covers(rs, x) ==> Accepted(b, x)
  }

  lemma StoredRangesTrue(s: Sys)
    requires SysInv(s)
    ensures RangesTrue(s.snd.peerRanges, s.cuts, s.buf)
  {
    if s.snd.gotPeerAck {
      var a :| a in s.acks && LinkedTo(s.snd, a);
      assert AckInv(a, s);
    }
  }

  lemma {:induction false} ScanKeepsSegs(segs: seq<SendSeg<nat>>, rs: seq<ByteRange>, cuts: set<ByteRange>,
                                         sentOff: nat, b: Buf)
    requires SegsInv(segs, cuts, b) && RangesTrue(rs, cuts, b) && CutsInv(cuts, sentOff)
    ensures SegsInv(Scan(segs, rs).0, cuts, b)
    ensures var (t, h) := Scan(segs, rs);
      h.Some? ==> h.value.idx < |t| && h.value.start == t[h.value.idx].off && h.value.end == SegEnd(t[h.value.idx])
  {
    if segs != [] {
      var s := segs[0];
      ScanKeepsSegs(segs[1..], rs, cuts, sentOff, b);
      HoleIsWhole(s.off, SegEnd(s), rs, cuts);
      HoleIsFirstMaximalGap(s.off, SegEnd(s), rs);
      var (t, h) := Scan(segs[1..], rs);
      assert ([s] + t)[1..] == t;
      assert ([s.(sacked := true)] + t)[1..] == t;
    }
  }

  lemma {:induction false} SweepKeepsSegs(segs: seq<SendSeg<nat>>, pm: map<nat, PathSt>, rs: seq<ByteRange>,
                                          now: int, ts: int, cuts: set<ByteRange>, sentOff: nat, b: Buf)
    requires PathsKnown(segs, pm) && SegsInv(segs, cuts, b) && RangesTrue(rs, cuts, b) && CutsInv(cuts, sentOff)
    ensures SegsInv(Sweep(segs, pm, rs, now, ts).0, cuts, b)
    decreases |segs|
  {
    if segs != [] {
      var (s, qm) := SweepSeg(segs[0], pm, rs, now, ts);
      PathsKnownGrows(segs[1..], pm, qm);
      SweepKeepsSegs(segs[1..], qm, rs, now, ts, cuts, sentOff, b);
      var t := Sweep(segs[1..], qm, rs, now, ts).0;
      assert ([s] + t)[1..] == t;
      CoveredIffNoHole(rs, segs[0].off, SegEnd(segs[0]));
    }
  }

  lemma {:induction false} UnassignKeepsSegs(segs: seq<SendSeg<nat>>, p: nat, cuts: set<ByteRange>, b: Buf)
    requires SegsInv(segs, cuts, b)
    ensures SegsInv(Unassign(segs, p), cuts, b)
  {
    if segs != [] {
      UnassignKeepsSegs(segs[1..], p, cuts, b);
      assert Unassign(segs, p)[1..] == Unassign(segs[1..], p);
    }
  }

  lemma {:induction false} FreeKeepsSegs(segs: seq<SendSeg<nat>>, pm: map<nat, PathSt>, cum: nat, un: nat, now: int,
                                         cuts: set<ByteRange>, b: Buf)
    requires SegsInv(segs, cuts, b) && Aligned(cuts, cum)
    ensures SegsInv(Free(segs, pm, cum, un, now).0, cuts, b)
    decreases |segs|
  {
    if segs != [] {
      var s := segs[0];
      if SegEnd(s) <= cum {
        FreeKeepsSegs(segs[1..], FreeOne(pm, s, |s.data|, now), cum, un + Unassigned(s, |s.data|), now, cuts, b);
      }
    }
  }

  lemma {:induction false} SegIsCut(segs: seq<SendSeg<nat>>, cuts: set<ByteRange>, b: Buf, i: nat)
    requires SegsInv(segs, cuts, b) && i < |segs|
    ensures ByteRange(segs[i].off, SegEnd(segs[i])) in cuts
    ensures segs[i].sacked ==> forall x :: segs[i].off <= x < SegEnd(segs[i]) ==> Accepted(b, x)
  {
    if i > 0 {
      SegIsCut(segs[1..], cuts, b, i - 1);
    }
  }

  /** Sending a whole segment again replaces it by itself, assigned. */
  lemma WholeSplitKeepsSegs(segs: seq<SendSeg<nat>>, i: nat, p: nat, now: int, cuts: set<ByteRange>, b: Buf)
    requires SegsInv(segs, cuts, b) && i < |segs|
    ensures SegsInv(Split(segs, i, segs[i].off, |segs[i].data|, p, now), cuts, b)
  {
    var s := segs[i];
    SegIsCut(segs, cuts, b, i);
    var piece := SendSeg(s.off, s.data[0..|s.data|], Some(p), now, false);
    assert Pieces(s, s.off, |s.data|, p, now) == [piece];
    assert segs == segs[..i] + [s] + segs[i + 1..];
    SegsInvConcat(segs[..i] + [s], segs[i + 1..], cuts, b);
    SegsInvConcat(segs[..i], [s], cuts, b);
    assert [piece][1..] == [];
    SegsInvConcat(segs[..i] + [piece], segs[i + 1..], cuts, b);
    SegsInvConcat(segs[..i], [piece], cuts, b);
  }
}
