/** The choice of a path for the next frame (scheduler.go). */
module Scheduler {
  import opened Base
  import opened Paths

  /** Every listed path has a state. */
  predicate Known<P(==)>(live: seq<P>, pm: map<P, PathSt>) {
    forall p :: p in live ==> p in pm
  }

  function DrainTime(s: PathSt, frameLen: nat, now: int): real {
    var eff := EffRate(s, now);
    var rate := if eff <= 0.0 then COLD_RATE else eff;
    (s.inflight + frameLen) as real / (if s.suspect then rate / SUSPECT_PENALTY else rate)
  }

  predicate UnderCap(s: PathSt, now: int) {
    s.inflight < InflightCap(s, now)
  }

  predicate Eligible(s: PathSt, now: int, includeSuspect: bool) {
    (includeSuspect || !s.suspect) && UnderCap(s, now)
  }

  /** Lexicographic order of (drain time, bytes in flight, path id). */
  predicate Better(a: PathSt, b: PathSt, frameLen: nat, now: int) {
    var da, db := DrainTime(a, frameLen, now), DrainTime(b, frameLen, now);
    da < db || (da == db && (a.inflight < b.inflight || (a.inflight == b.inflight && a.id < b.id)))
  }

  /** One look of the loop at path p. */
  function Consider<P(==)>(pm: map<P, PathSt>, best: Option<P>, p: P, frameLen: nat, now: int, incl: bool): Option<P>
    requires p in pm && (best.Some? ==> best.value in pm)
  {
    if Eligible(pm[p], now, incl) && (best == None || Better(pm[p], pm[best.value], frameLen, now))
    then Some(p) else best
  }

  function MinDrainFrom<P(==)>(live: seq<P>, pm: map<P, PathSt>, best: Option<P>, frameLen: nat, now: int,
                          incl: bool): Option<P>
    requires Known(live, pm) && (best.Some? ==> best.value in pm)
  {
    if live == [] then best
    else MinDrainFrom(live[1..], pm, Consider(pm, best, live[0], frameLen, now, incl), frameLen, now, incl)
  }

  function PickMinDrain<P(==)>(live: seq<P>, pm: map<P, PathSt>, frameLen: nat, now: int, incl: bool): Option<P>
    requires Known(live, pm)
  {
    MinDrainFrom(live, pm, None, frameLen, now, incl)
  }

  function PickData<P(==)>(live: seq<P>, pm: map<P, PathSt>, frameLen: nat, now: int): Option<P>
    requires Known(live, pm)
  {
    var p := PickMinDrain(live, pm, frameLen, now, false);
    if p.Some? then p else PickMinDrain(live, pm, frameLen, now, true)
  }

  ghost predicate IsLeast<P>(p: P, live: seq<P>, pm: map<P, PathSt>, frameLen: nat, now: int, incl: bool)
    requires Known(live, pm)
  {
    && p in live && Eligible(pm[p], now, incl)
    && forall q :: q in live && Eligible(pm[q], now, incl) ==> !Better(pm[q], pm[p], frameLen, now)
  }

  lemma {:induction false} MinDrainFromIsLeast<P>(live: seq<P>, pm: map<P, PathSt>, best: Option<P>, frameLen: nat,
                                                  now: int, incl: bool)
    requires Known(live, pm) && (best.Some? ==> best.value in pm && Eligible(pm[best.value], now, incl))
    ensures var r := MinDrainFrom(live, pm, best, frameLen, now, incl);
      && (r == None <==> best == None && forall q :: q in live ==> !Eligible(pm[q], now, incl))
      && (r.Some? ==>
           && (r.value in live || r == best) && r.value in pm && Eligible(pm[r.value], now, incl)
           && (best.Some? ==> !Better(pm[best.value], pm[r.value], frameLen, now))
           && forall q :: q in live && Eligible(pm[q], now, incl) ==> !Better(pm[q], pm[r.value], frameLen, now))
  {
    if live != [] {
      var b := Consider(pm, best, live[0], frameLen, now, incl);
      MinDrainFromIsLeast(live[1..], pm, b, frameLen, now, incl);
      assert forall q :: q in live <==> q == live[0] || q in live[1..];
    }
  }

  /** The chosen path is the lexicographic minimum over the eligible ones; none only if none is eligible. */
  lemma PickMinDrainIsLeast<P>(live: seq<P>, pm: map<P, PathSt>, frameLen: nat, now: int, incl: bool)
    requires Known(live, pm)
    ensures var r := PickMinDrain(live, pm, frameLen, now, incl);
      && (r == None <==> forall q :: q in live ==> !Eligible(pm[q], now, incl))
      && (r.Some? ==> IsLeast(r.value, live, pm, frameLen, now, incl))
  {
    MinDrainFromIsLeast(live, pm, None, frameLen, now, incl);
  }

  ghost predicate DistinctIds<P>(live: seq<P>, pm: map<P, PathSt>)
    requires Known(live, pm)
  {
    forall p, q :: p in live && q in live && pm[p].id == pm[q].id ==> p == q
  }

  /** With distinct ids the choice depends on the set of paths, not on the order of the list. */
  lemma ChoiceIgnoresListOrder<P>(live: seq<P>, other: seq<P>, pm: map<P, PathSt>, frameLen: nat, now: int)
    requires Known(live, pm) && Known(other, pm) && DistinctIds(live, pm)
    requires forall p :: p in live <==> p in other
    ensures PickData(live, pm, frameLen, now) == PickData(other, pm, frameLen, now)
  {
    forall incl: bool
      ensures PickMinDrain(live, pm, frameLen, now, incl) == PickMinDrain(other, pm, frameLen, now, incl)
    {
      PickMinDrainIsLeast(live, pm, frameLen, now, incl);
      PickMinDrainIsLeast(other, pm, frameLen, now, incl);
      var a, b := PickMinDrain(live, pm, frameLen, now, incl), PickMinDrain(other, pm, frameLen, now, incl);
      assert a.Some? ==> a.value in other;
      assert b.Some? ==> b.value in live;
      if a.Some? && b.Some? {
        assert !Better(pm[a.value], pm[b.value], frameLen, now) && !Better(pm[b.value], pm[a.value], frameLen, now);
      }
    }
  }

  /**
   * A suspect path carries data only when no healthy path is under its cap, and nothing is sent only
   * when every path is at its cap.
   */
  lemma PickDataPrefersHealthy<P>(live: seq<P>, pm: map<P, PathSt>, frameLen: nat, now: int)
    requires Known(live, pm)
    ensures var r := PickData(live, pm, frameLen, now);
      && (r == None <==> forall q :: q in live ==> !UnderCap(pm[q], now))
      && (r.Some? ==> r.value in live && UnderCap(pm[r.value], now))
      && (r.Some? && pm[r.value].suspect ==> forall q :: q in live && UnderCap(pm[q], now) ==> pm[q].suspect)
      && (r.Some? ==> IsLeast(r.value, live, pm, frameLen, now, pm[r.value].suspect))
  {
    PickMinDrainIsLeast(live, pm, frameLen, now, false);
    PickMinDrainIsLeast(live, pm, frameLen, now, true);
  }

  lemma IdleIsUnderCap(s: PathSt, now: int)
    requires s.inflight <= 0
    ensures UnderCap(s, now)
  {
  }

  /** Below the cap: room for two full frames, or for one more byte than half again the bandwidth-delay product. */
  lemma UnderCapExactly(s: PathSt, now: int)
    ensures var rate := if s.suspect then EffRate(s, now) / 4.0 else EffRate(s, now);
      UnderCap(s, now) <==>
        s.inflight < 131072 || (s.inflight + 1) as real <= 1.5 * rate * (s.minRTT as real / 1_000_000_000.0)
  {
  }

  /** A fresh report of the peer decides how long a frame takes, whatever was measured here. */
  lemma ReportDecides(s: PathSt, hasRate: bool, estRate: real, lastRateAt: Option<int>, frameLen: nat, now: int)
    requires Reported(s, now)
    ensures var t := s.(hasRate := hasRate, estRate := estRate, lastRateAt := lastRateAt);
      DrainTime(t, frameLen, now) * (if s.suspect then s.peerRate / 4.0 else s.peerRate)
      == (s.inflight + frameLen) as real
  {
    BelievedRate(s, now);
    BelievedRate(s.(hasRate := hasRate, estRate := estRate, lastRateAt := lastRateAt), now);
  }

  /** Of an unknown rate a quarter of a megabyte a second is assumed. */
  lemma UnknownIsNominal(s: PathSt, frameLen: nat, now: int)
    requires EffRate(s, now) <= 0.0
    ensures DrainTime(s, frameLen, now) * (if s.suspect then 65536.0 else 262144.0) == (s.inflight + frameLen) as real
  {
  }

  /** Sooner drained, or as soon with less in flight, or that as well with a smaller id, or the same. */
  predicate NoWorse(a: PathSt, b: PathSt, frameLen: nat, now: int) {
    var da, db := DrainTime(a, frameLen, now), DrainTime(b, frameLen, now);
    da < db || (da == db && (a.inflight < b.inflight || (a.inflight == b.inflight && a.id <= b.id)))
  }

  /** The path chosen for a frame is no worse than any healthy one under its cap, or than any if none is healthy. */
  lemma ChoiceIsLexicographic<P>(live: seq<P>, pm: map<P, PathSt>, frameLen: nat, now: int, q: P)
    requires Known(live, pm) && q in live && UnderCap(pm[q], now)
    ensures var r := PickData(live, pm, frameLen, now);
      && r.Some? && r.value in live
      && ((pm[q].suspect && !pm[r.value].suspect) || NoWorse(pm[r.value], pm[q], frameLen, now))
  {
    PickDataPrefersHealthy(live, pm, frameLen, now);
  }

  lemma CapGrowsWithRate(r: real, q: real, rtt: real)
    requires 0.0 <= r <= q && rtt >= 0.0
    ensures (INFLIGHT_CAP_K * r * rtt).Floor <= (INFLIGHT_CAP_K * q * rtt).Floor
  {
    assert (q - r) * rtt >= 0.0;
    assert INFLIGHT_CAP_K * q * rtt - INFLIGHT_CAP_K * r * rtt == INFLIGHT_CAP_K * ((q - r) * rtt);
  }

  lemma MarkLowersCap(s: PathSt, now: int)
    requires !s.suspect && s.minRTT >= 0 && s.estRate >= 0.0
    ensures MIN_INFLIGHT_CAP <= InflightCap(s.(suspect := true), now) <= InflightCap(s, now)
  {
    var r := EffRate(s, now);
    CapGrowsWithRate(r / SUSPECT_PENALTY, r, Seconds(s.minRTT));
  }

  lemma MarkSlows(s: PathSt, frameLen: nat, now: int)
    requires !s.suspect
    ensures DrainTime(s.(suspect := true), frameLen, now) == SUSPECT_PENALTY * DrainTime(s, frameLen, now)
  {
    var r := EffRate(s, now);
    var x, c := (s.inflight + frameLen) as real, if r <= 0.0 then COLD_RATE else r;
    assert x / (c / SUSPECT_PENALTY) == SUSPECT_PENALTY * (x / c);
  }

  /** A mark never raises a path's cap, makes its frames look four times as slow, and lets two through. */
  lemma SuspectIsHeldBack(s: PathSt, frameLen: nat, now: int)
    requires !s.suspect && Sane(s)
    ensures var t := s.(suspect := true);
      && MIN_INFLIGHT_CAP <= InflightCap(t, now) <= InflightCap(s, now)
      && DrainTime(t, frameLen, now) == SUSPECT_PENALTY * DrainTime(s, frameLen, now)
  {
    MarkLowersCap(s, now);
    MarkSlows(s, frameLen, now);
  }

  // ---------- control frames ----------

  function ConsiderAck<P(==)>(pm: map<P, PathSt>, best: Option<P>, p: P): Option<P>
    requires p in pm && (best.Some? ==> best.value in pm)
  {
    if best == None then Some(p)
    else
      var a, b := pm[p], pm[best.value];
      if a.suspect != b.suspect then (if !a.suspect then Some(p) else best)
      else if a.hasRTT && (!b.hasRTT || a.srtt < b.srtt) then Some(p)
      else best
  }

  function AckFrom<P(==)>(live: seq<P>, pm: map<P, PathSt>, best: Option<P>): Option<P>
    requires Known(live, pm) && (best.Some? ==> best.value in pm)
  {
    if live == [] then best else AckFrom(live[1..], pm, ConsiderAck(pm, best, live[0]))
  }

  function PickAck<P(==)>(live: seq<P>, pm: map<P, PathSt>): Option<P>
    requires Known(live, pm)
  {
    AckFrom(live, pm, None)
  }

  /** a is strictly preferred to b for control frames. */
  predicate Fresher(a: PathSt, b: PathSt) {
    (!a.suspect && b.suspect) || (a.suspect == b.suspect && a.hasRTT && (!b.hasRTT || a.srtt < b.srtt))
  }

  lemma {:induction false} AckFromIsBest<P>(live: seq<P>, pm: map<P, PathSt>, best: Option<P>)
    requires Known(live, pm) && (best.Some? ==> best.value in pm)
    ensures var r := AckFrom(live, pm, best);
      && (r == None <==> best == None && live == [])
      && (r.Some? ==>
           && (r.value in live || r == best) && r.value in pm
           && (best.Some? ==> !Fresher(pm[best.value], pm[r.value]))
           && forall q :: q in live ==> !Fresher(pm[q], pm[r.value]))
  {
    if live != [] {
      AckFromIsBest(live[1..], pm, ConsiderAck(pm, best, live[0]));
      assert forall q :: q in live <==> q == live[0] || q in live[1..];
    }
  }

  /** A control frame can always be sent while a path lives, on a path that none is preferred to. */
  lemma PickAckIsBest<P>(live: seq<P>, pm: map<P, PathSt>)
    requires Known(live, pm)
    ensures var r := PickAck(live, pm);
      && (r == None <==> live == [])
      && (r.Some? ==> r.value in live && forall q :: q in live ==> !Fresher(pm[q], pm[r.value]))
  {
    AckFromIsBest(live, pm, None);
  }
}
