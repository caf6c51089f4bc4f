/** What every step of the sender keeps: the tiling of the unreleased bytes and the in-flight ledger. */
module SenderProofs {
  import opened Base
  import opened Paths
  import opened Scheduler
  import opened Sender

  // ---------- tiling ----------

  /** Non-empty adjacent slices of written that fill [lo, hi). */
  ghost predicate Tiles<P>(segs: seq<SendSeg<P>>, written: seq<byte>, lo: nat, hi: nat) {
    if segs == [] then
      lo == hi
    else
      && segs[0].off == lo && |segs[0].data| > 0 && IsSlice(segs[0].data, written, lo)
      && Tiles(segs[1..], written, SegEnd(segs[0]), hi)
  }

  lemma {:induction false} TilesBounds<P>(segs: seq<SendSeg<P>>, written: seq<byte>, lo: nat, hi: nat)
    requires Tiles(segs, written, lo, hi)
    ensures lo <= hi
    ensures forall i :: 0 <= i < |segs| ==>
      && |segs[i].data| > 0 && lo <= segs[i].off && SegEnd(segs[i]) <= hi
      && IsSlice(segs[i].data, written, segs[i].off)
  {
    if segs != [] {
      TilesBounds(segs[1..], written, SegEnd(segs[0]), hi);
      assert forall i :: 1 <= i < |segs| ==> segs[i] == segs[1..][i - 1];
    }
  }

  lemma {:induction false} TilesConcat<P>(a: seq<SendSeg<P>>, b: seq<SendSeg<P>>, written: seq<byte>, lo: nat,
                                          mid: nat, hi: nat)
    requires Tiles(a, written, lo, mid) && Tiles(b, written, mid, hi)
    ensures Tiles(a + b, written, lo, hi)
  {
    if a == [] {
      assert a + b == b;
    } else {
      TilesConcat(a[1..], b, written, SegEnd(a[0]), mid, hi);
      assert (a + b)[1..] == a[1..] + b;
    }
  }

  lemma {:induction false} TilesCut<P>(segs: seq<SendSeg<P>>, i: nat, written: seq<byte>, lo: nat, hi: nat)
    requires Tiles(segs, written, lo, hi) && i < |segs|
    ensures Tiles(segs[..i], written, lo, segs[i].off)
    ensures Tiles(segs[i + 1..], written, SegEnd(segs[i]), hi)
    ensures |segs[i].data| > 0 && IsSlice(segs[i].data, written, segs[i].off)
  {
    if i > 0 {
      TilesCut(segs[1..], i - 1, written, SegEnd(segs[0]), hi);
      assert segs[..i] == [segs[0]] + segs[1..][..i - 1];
      assert segs[..i][1..] == segs[1..][..i - 1];
      assert segs[i + 1..] == segs[1..][i..];
    }
  }

  lemma {:induction false} TilesMoreWritten<P>(segs: seq<SendSeg<P>>, written: seq<byte>, more: seq<byte>, lo: nat,
                                               hi: nat)
    requires Tiles(segs, written, lo, hi)
    ensures Tiles(segs, written + more, lo, hi)
  {
    if segs != [] {
      var s := segs[0];
      assert (written + more)[s.off..SegEnd(s)] == written[s.off..SegEnd(s)];
      TilesMoreWritten(segs[1..], written, more, SegEnd(s), hi);
    }
  }

  /** The same bytes in the same segments; only the bookkeeping differs. */
  predicate SameBytes<P>(a: seq<SendSeg<P>>, b: seq<SendSeg<P>>) {
    if a == [] || b == [] then a == [] && b == []
    else a[0].off == b[0].off && a[0].data == b[0].data && SameBytes(a[1..], b[1..])
  }

  lemma {:induction false} TilesSame<P>(a: seq<SendSeg<P>>, b: seq<SendSeg<P>>, written: seq<byte>, lo: nat, hi: nat)
    requires Tiles(a, written, lo, hi) && SameBytes(a, b)
    ensures Tiles(b, written, lo, hi)
  {
    if a != [] {
      TilesSame(a[1..], b[1..], written, SegEnd(a[0]), hi);
    }
  }

  lemma {:induction false} SameBytesReflexive<P>(a: seq<SendSeg<P>>)
    ensures SameBytes(a, a)
  {
    if a != [] {
      SameBytesReflexive(a[1..]);
    }
  }

  lemma {:induction false} ScanSameBytes<P>(segs: seq<SendSeg<P>>, rs: seq<ByteRange>)
    ensures SameBytes(segs, Scan(segs, rs).0)
  {
    if segs != [] {
      ScanSameBytes(segs[1..], rs);
      SameBytesReflexive(segs);
      var t := Scan(segs[1..], rs).0;
      assert forall s: SendSeg<P> :: ([s] + t)[1..] == t;
    }
  }

  lemma {:induction false} SweepSameBytes<P>(segs: seq<SendSeg<P>>, pm: map<P, PathSt>, rs: seq<ByteRange>, now: int,
                                             ts: int)
    requires PathsKnown(segs, pm)
    ensures SameBytes(segs, Sweep(segs, pm, rs, now, ts).0)
    decreases |segs|
  {
    if segs != [] {
      var (s, qm) := SweepSeg(segs[0], pm, rs, now, ts);
      PathsKnownGrows(segs[1..], pm, qm);
      SweepSameBytes(segs[1..], qm, rs, now, ts);
      var t := Sweep(segs[1..], qm, rs, now, ts).0;
      assert ([s] + t)[1..] == t;
    }
  }

  lemma {:induction false} UnassignSameBytes<P>(segs: seq<SendSeg<P>>, p: P)
    ensures SameBytes(segs, Unassign(segs, p))
  {
    if segs != [] {
      UnassignSameBytes(segs[1..], p);
      assert Unassign(segs, p)[1..] == Unassign(segs[1..], p);
    }
  }

  /** A part of a slice of the stream tiles its own range. */
  lemma PartTiles<P>(s: SendSeg<P>, d: nat, part: SendSeg<P>, written: seq<byte>)
    requires IsSlice(s.data, written, s.off) && part.off == s.off + d
    requires |part.data| > 0 && d + |part.data| <= |s.data| && part.data == s.data[d..d + |part.data|]
    ensures Tiles([part], written, part.off, SegEnd(part))
  {
    SliceOfSlice(s.data, written, s.off, d, |part.data|);
  }

  lemma HeadTiles<P>(s: SendSeg<P>, d: nat, left: seq<SendSeg<P>>, written: seq<byte>)
    requires IsSlice(s.data, written, s.off) && d <= |s.data|
    requires left == if d > 0 then [SendSeg(s.off, s.data[..d], None, 0, true)] else []
    ensures Tiles(left, written, s.off, s.off + d)
  {
    if d > 0 {
      PartTiles(s, 0, left[0], written);
    }
  }

  lemma RestTiles<P>(s: SendSeg<P>, d: nat, right: seq<SendSeg<P>>, written: seq<byte>)
    requires IsSlice(s.data, written, s.off) && d <= |s.data|
    requires right == if d < |s.data| then [SendSeg(s.off + d, s.data[d..], None, 0, false)] else []
    ensures Tiles(right, written, s.off + d, SegEnd(s))
  {
    if d < |s.data| {
      PartTiles(s, d, right[0], written);
    }
  }

  lemma PiecesTile<P>(s: SendSeg<P>, hs: nat, n: nat, p: P, now: int, written: seq<byte>)
    requires s.off <= hs && hs + n <= SegEnd(s) && n > 0 && IsSlice(s.data, written, s.off)
    ensures Tiles(Pieces(s, hs, n, p, now), written, s.off, SegEnd(s))
  {
    var d0 := hs - s.off;
    var m := SendSeg(hs, s.data[d0..d0 + n], Some(p), now, false);
    var left := if d0 > 0 then [SendSeg(s.off, s.data[..d0], None, 0, true)] else [];
    var right := if d0 + n < |s.data| then [SendSeg(hs + n, s.data[d0 + n..], None, 0, false)] else [];
    assert Pieces(s, hs, n, p, now) == left + [m] + right;
    PartTiles(s, d0, m, written);
    HeadTiles(s, d0, left, written);
    RestTiles(s, d0 + n, right, written);
    ThreeTile(left, [m], right, written, s.off, hs, hs + n, SegEnd(s));
  }

  lemma ThreeTile<P>(a: seq<SendSeg<P>>, b: seq<SendSeg<P>>, c: seq<SendSeg<P>>, written: seq<byte>,
                     lo: nat, x: nat, y: nat, hi: nat)
    requires Tiles(a, written, lo, x) && Tiles(b, written, x, y) && Tiles(c, written, y, hi)
    ensures Tiles(a + b + c, written, lo, hi)
  {
    TilesConcat(a, b, written, lo, x, y);
    TilesConcat(a + b, c, written, lo, y, hi);
  }

  lemma SplitTiles<P>(segs: seq<SendSeg<P>>, i: nat, hs: nat, n: nat, p: P, now: int, written: seq<byte>, lo: nat,
                      hi: nat)
    requires Tiles(segs, written, lo, hi) && i < |segs|
    requires segs[i].off <= hs && hs + n <= SegEnd(segs[i]) && n > 0
    ensures Tiles(Split(segs, i, hs, n, p, now), written, lo, hi)
  {
    TilesCut(segs, i, written, lo, hi);
    PiecesTile(segs[i], hs, n, p, now, written);
    var pieces := Pieces(segs[i], hs, n, p, now);
    TilesConcat(segs[..i], pieces, written, lo, segs[i].off, SegEnd(segs[i]));
    TilesConcat(segs[..i] + pieces, segs[i + 1..], written, lo, SegEnd(segs[i]), hi);
  }

  lemma {:induction false} FreeTiles<P>(segs: seq<SendSeg<P>>, pm: map<P, PathSt>, cum: nat, un: nat, now: int,
                                        written: seq<byte>, lo: nat, hi: nat)
    requires Tiles(segs, written, lo, hi) && lo <= cum <= hi
    ensures Tiles(Free(segs, pm, cum, un, now).0, written, cum, hi)
    decreases |segs|
  {
    if segs != [] {
      var s := segs[0];
      if SegEnd(s) <= cum {
        FreeTiles(segs[1..], FreeOne(pm, s, |s.data|, now), cum, un + Unassigned(s, |s.data|), now,
                  written, SegEnd(s), hi);
      } else if s.off < cum {
        var trim := cum - s.off;
        var c := s.(off := cum, data := s.data[trim..]);
        assert c.data == written[cum..SegEnd(s)];
        assert ([c] + segs[1..])[1..] == segs[1..];
      }
    }
  }

  // ---------- path assignment ----------

  ghost predicate AllLive<P>(segs: seq<SendSeg<P>>, live: seq<P>) {
    segs != [] ==> (segs[0].path.Some? ==> segs[0].path.value in live) && AllLive(segs[1..], live)
  }

  lemma {:induction false} AllLiveKnown<P>(segs: seq<SendSeg<P>>, live: seq<P>, pm: map<P, PathSt>)
    requires AllLive(segs, live) && Known(live, pm)
    ensures PathsKnown(segs, pm)
  {
    if segs != [] {
      AllLiveKnown(segs[1..], live, pm);
    }
  }

  lemma {:induction false} AllLiveConcat<P>(a: seq<SendSeg<P>>, b: seq<SendSeg<P>>, live: seq<P>)
    ensures AllLive(a + b, live) <==> AllLive(a, live) && AllLive(b, live)
  {
    if a == [] {
      assert a + b == b;
    } else {
      AllLiveConcat(a[1..], b, live);
      assert (a + b)[1..] == a[1..] + b;
    }
  }

  lemma {:induction false} AllLiveMore<P>(segs: seq<SendSeg<P>>, live: seq<P>, more: seq<P>)
    requires AllLive(segs, live) && forall p :: p in live ==> p in more
    ensures AllLive(segs, more)
  {
    if segs != [] {
      AllLiveMore(segs[1..], live, more);
    }
  }

  lemma {:induction false} ScanAllLive<P>(segs: seq<SendSeg<P>>, rs: seq<ByteRange>, live: seq<P>)
    requires AllLive(segs, live)
    ensures AllLive(Scan(segs, rs).0, live)
  {
    if segs != [] {
      ScanAllLive(segs[1..], rs, live);
      var t := Scan(segs[1..], rs).0;
      assert forall s: SendSeg<P> :: ([s] + t)[1..] == t;
    }
  }

  lemma {:induction false} SweepAllLive<P>(segs: seq<SendSeg<P>>, pm: map<P, PathSt>, rs: seq<ByteRange>, now: int,
                                           ts: int, live: seq<P>)
    requires PathsKnown(segs, pm) && AllLive(segs, live)
    ensures AllLive(Sweep(segs, pm, rs, now, ts).0, live)
    decreases |segs|
  {
    if segs != [] {
      var (s, qm) := SweepSeg(segs[0], pm, rs, now, ts);
      PathsKnownGrows(segs[1..], pm, qm);
      SweepAllLive(segs[1..], qm, rs, now, ts, live);
      var t := Sweep(segs[1..], qm, rs, now, ts).0;
      assert ([s] + t)[1..] == t;
    }
  }

  lemma {:induction false} FreeAllLive<P>(segs: seq<SendSeg<P>>, pm: map<P, PathSt>, cum: nat, un: nat, now: int,
                                          live: seq<P>)
    requires AllLive(segs, live)
    ensures AllLive(Free(segs, pm, cum, un, now).0, live)
    decreases |segs|
  {
    if segs != [] {
      var s := segs[0];
      if SegEnd(s) <= cum {
        FreeAllLive(segs[1..], FreeOne(pm, s, |s.data|, now), cum, un + Unassigned(s, |s.data|), now, live);
      } else if s.off < cum {
        var c := s.(off := cum, data := s.data[cum - s.off..]);
        assert ([c] + segs[1..])[1..] == segs[1..];
      }
    }
  }

  lemma {:induction false} UnassignAllLive<P>(segs: seq<SendSeg<P>>, p: P, live: seq<P>, rest: seq<P>)
    requires AllLive(segs, live) && forall q :: q in live && q != p ==> q in rest
    ensures AllLive(Unassign(segs, p), rest)
  {
    if segs != [] {
      UnassignAllLive(segs[1..], p, live, rest);
      assert Unassign(segs, p)[1..] == Unassign(segs[1..], p);
    }
  }

  // ---------- the in-flight ledger ----------

  lemma {:induction false} InFlightConcat<P>(a: seq<SendSeg<P>>, b: seq<SendSeg<P>>, p: P)
    ensures InFlight(a + b, p) == InFlight(a, p) + InFlight(b, p)
  {
    if a == [] {
      assert a + b == b;
    } else {
      InFlightConcat(a[1..], b, p);
      assert (a + b)[1..] == a[1..] + b;
    }
  }

  lemma {:induction false} ScanInFlight<P>(segs: seq<SendSeg<P>>, rs: seq<ByteRange>, p: P)
    ensures InFlight(Scan(segs, rs).0, p) == InFlight(segs, p)
  {
    if segs != [] {
      ScanInFlight(segs[1..], rs, p);
      var t := Scan(segs[1..], rs).0;
      assert forall s: SendSeg<P> :: ([s] + t)[1..] == t;
    }
  }

  lemma InFlightReplace<P>(segs: seq<SendSeg<P>>, i: nat, mid: seq<SendSeg<P>>, q: P)
    requires i < |segs|
    ensures InFlight(segs[..i] + mid + segs[i + 1..], q)
         == InFlight(segs, q) - InFlight([segs[i]], q) + InFlight(mid, q)
  {
    CutAround(segs, i);
    InFlightConcat(segs[..i] + [segs[i]], segs[i + 1..], q);
    InFlightConcat(segs[..i], [segs[i]], q);
    InFlightConcat(segs[..i] + mid, segs[i + 1..], q);
    InFlightConcat(segs[..i], mid, q);
  }

  lemma PiecesInFlight<P>(s: SendSeg<P>, hs: nat, n: nat, p: P, now: int, q: P)
    requires s.off <= hs && hs + n <= SegEnd(s)
    ensures InFlight(Pieces(s, hs, n, p, now), q) == if q == p then n else 0
  {
    var d0 := hs - s.off;
    var a := if d0 > 0 then [SendSeg(s.off, s.data[..d0], None, 0, true)] else [];
    var m := [SendSeg(hs, s.data[d0..d0 + n], Some(p), now, false)];
    var z := if d0 + n < |s.data| then [SendSeg(hs + n, s.data[d0 + n..], None, 0, false)] else [];
    InFlightConcat(a + m, z, q);
    InFlightConcat(a, m, q);
  }

  lemma PiecesAllLive<P>(s: SendSeg<P>, hs: nat, n: nat, p: P, now: int, live: seq<P>)
    requires s.off <= hs && hs + n <= SegEnd(s) && p in live
    ensures AllLive(Pieces(s, hs, n, p, now), live)
  {
    var d0 := hs - s.off;
    var a := if d0 > 0 then [SendSeg(s.off, s.data[..d0], None, 0, true)] else [];
    var m := [SendSeg(hs, s.data[d0..d0 + n], Some(p), now, false)];
    var z := if d0 + n < |s.data| then [SendSeg(hs + n, s.data[d0 + n..], None, 0, false)] else [];
    AllLiveConcat(a + m, z, live);
    AllLiveConcat(a, m, live);
  }

  /** The sweep changes every account by exactly what it takes out of the path's hands. */
  lemma {:induction false} SweepKeepsLedger<P>(segs: seq<SendSeg<P>>, pm: map<P, PathSt>, rs: seq<ByteRange>,
                                               now: int, ts: int, p: P)
    requires PathsKnown(segs, pm) && p in pm
    ensures var (t, qm) := Sweep(segs, pm, rs, now, ts);
      && qm[p].inflight - InFlight(t, p) == pm[p].inflight - InFlight(segs, p)
      && qm[p].delivered == pm[p].delivered
    decreases |segs|
  {
    if segs != [] {
      var (s, qm) := SweepSeg(segs[0], pm, rs, now, ts);
      PathsKnownGrows(segs[1..], pm, qm);
      SweepKeepsLedger(segs[1..], qm, rs, now, ts, p);
      var t := Sweep(segs[1..], qm, rs, now, ts).0;
      assert ([s] + t)[1..] == t;
    }
  }

  lemma FreeOneKeeps<P>(pm: map<P, PathSt>, s: SendSeg<P>, n: nat, now: int, p: P)
    requires p in pm
    ensures var qm := FreeOne(pm, s, n, now);
      && qm.Keys == pm.Keys
      && qm[p].inflight == pm[p].inflight - (if s.path == Some(p) && !s.sacked then n else 0)
      && qm[p].delivered == pm[p].delivered + (if s.path == Some(p) then n else 0)
  {
  }

  lemma {:induction false} FreeKeepsLedger<P>(segs: seq<SendSeg<P>>, pm: map<P, PathSt>, cum: nat, un: nat, now: int,
                                              p: P)
    requires p in pm
    ensures var (t, qm, un') := Free(segs, pm, cum, un, now);
      && qm.Keys == pm.Keys
      && qm[p].inflight - InFlight(t, p) == pm[p].inflight - InFlight(segs, p)
    decreases |segs|
  {
    if segs != [] {
      var s := segs[0];
      if SegEnd(s) <= cum {
        var qm := FreeOne(pm, s, |s.data|, now);
        FreeOneKeeps(pm, s, |s.data|, now, p);
        FreeKeepsLedger(segs[1..], qm, cum, un + Unassigned(s, |s.data|), now, p);
      } else if s.off < cum {
        var trim := cum - s.off;
        FreeOneKeeps(pm, s, trim, now, p);
        var c := s.(off := cum, data := s.data[trim..]);
        assert ([c] + segs[1..])[1..] == segs[1..];
      }
    }
  }

  lemma {:induction false} UnassignInFlight<P>(segs: seq<SendSeg<P>>, p: P, q: P)
    ensures InFlight(Unassign(segs, p), q) == if q == p then 0 else InFlight(segs, q)
  {
    if segs != [] {
      UnassignInFlight(segs[1..], p, q);
      assert Unassign(segs, p)[1..] == Unassign(segs[1..], p);
    }
  }

  // ---------- conservation of delivered bytes ----------

  predicate NoDup<P(==)>(xs: seq<P>) {
    xs != [] ==> xs[0] !in xs[1..] && NoDup(xs[1..])
  }

  function Delivered<P>(known: seq<P>, pm: map<P, PathSt>): nat
    requires Known(known, pm)
  {
    if known == [] then 0 else pm[known[0]].delivered + Delivered(known[1..], pm)
  }

  lemma {:induction false} DeliveredSame<P>(known: seq<P>, pm: map<P, PathSt>, qm: map<P, PathSt>)
    requires Known(known, pm) && Known(known, qm)
    requires forall p :: p in known ==> qm[p].delivered == pm[p].delivered
    ensures Delivered(known, qm) == Delivered(known, pm)
  {
    if known != [] {
      DeliveredSame(known[1..], pm, qm);
    }
  }

  lemma {:induction false} DeliveredUpdate<P>(known: seq<P>, pm: map<P, PathSt>, p: P, st: PathSt)
    requires Known(known, pm) && NoDup(known) && p in pm
    ensures Delivered(known, pm[p := st])
      == Delivered(known, pm) + (if p in known then st.delivered - pm[p].delivered else 0)
  {
    if known != [] {
      DeliveredUpdate(known[1..], pm, p, st);
    }
  }

  /** Releasing [lo, cum) adds exactly cum - lo to the paths' delivered counts and the unassigned count. */
  lemma {:induction false} FreeConserves<P>(segs: seq<SendSeg<P>>, pm: map<P, PathSt>, cum: nat, un: nat, now: int,
                                            known: seq<P>, written: seq<byte>, lo: nat, hi: nat)
    requires Tiles(segs, written, lo, hi) && lo <= cum <= hi
    requires Known(known, pm) && NoDup(known) && AllLive(segs, known)
    ensures var (t, qm, un') := Free(segs, pm, cum, un, now);
      && Known(known, qm)
      && Delivered(known, qm) + un' == Delivered(known, pm) + un + (cum - lo)
    decreases |segs|
  {
    if segs != [] {
      var s := segs[0];
      var n := if SegEnd(s) <= cum then |s.data| else if s.off < cum then cum - s.off else 0;
      var qm := FreeOne(pm, s, n, now);
      if s.path.Some? {
        FreeOneKeeps(pm, s, n, now, s.path.value);
        DeliveredUpdate(known, pm, s.path.value, qm[s.path.value]);
      }
      if SegEnd(s) <= cum {
        FreeConserves(segs[1..], qm, cum, un + Unassigned(s, n), now, known, written, SegEnd(s), hi);
      }
    }
  }
}
