/** One data path: its measurements, its in-flight account and its liveness marks (path.go, scheduler.go). */
module Paths {
  import opened Base

  // Durations and instants are in nanoseconds; an unset instant is None.
  const MILLISECOND: int := 1_000_000
  const SECOND: int := 1000 * MILLISECOND

  const RATE_SAMPLE_FLOOR: int := 2 * MILLISECOND
  const EST_RATE_STALE_FLOOR: int := 500 * MILLISECOND
  const PEER_RATE_TTL: int := 600 * MILLISECOND
  const SUSPECT_K: int := 2
  const SUSPECT_FLOOR: int := 200 * MILLISECOND
  const PATH_RTO_FLOOR: int := SECOND
  const SUSPECT_PENALTY: real := 4.0
  const COLD_RATE: real := 262144.0
  const INFLIGHT_CAP_K: real := 1.5
  const MIN_INFLIGHT_CAP: int := 2 * MAX_FRAME_PAYLOAD

  /** The fields of a path as a value. */
  datatype PathSt = PathSt(
    id: nat,
    srtt: int, rttvar: int, minRTT: int, hasRTT: bool,
    inflight: int, delivered: nat,
    estRate: real, hasRate: bool, rateMark: int, lastRateAt: Option<int>, attachedAt: Option<int>,
    peerRate: real, peerRateAt: Option<int>,
    suspect: bool, suspectSince: Option<int>, suspectSinceTs: int)

  function NewPath(id: nat, attachedAt: int): PathSt {
    PathSt(id, 0, 0, 0, false, 0, 0, 0.0, false, 0, None, Some(attachedAt), 0.0, None, false, None, 0)
  }

  function SuspectAfter(p: PathSt): int {
    Max(SUSPECT_K * p.srtt, SUSPECT_FLOOR)
  }

  function Rto(p: PathSt): int {
    Max(p.srtt + 4 * p.rttvar, PATH_RTO_FLOOR)
  }

  function StaleAfter(p: PathSt): int {
    Max(4 * p.srtt, EST_RATE_STALE_FLOOR)
  }

  function Abs(x: int): nat {
    if x < 0 then -x else x
  }

  /** Go's integer division, which truncates toward zero. */
  function Quot(a: int, b: int): int
    requires b > 0
  {
    if a >= 0 then a / b else -(-a / b)
  }

  function ClearSuspect(p: PathSt): PathSt {
    p.(suspect := false, suspectSince := None)
  }

  /** RFC 6298 smoothing. */
  function Smoothed(p: PathSt, r: int): PathSt {
    if !p.hasRTT then
      p.(srtt := r, rttvar := Quot(r, 2), minRTT := r, hasRTT := true)
    else
      p.(rttvar := Quot(3 * p.rttvar + Abs(p.srtt - r), 4), srtt := Quot(7 * p.srtt + r, 8),
         minRTT := if r < p.minRTT then r else p.minRTT)
  }

  /** The sample, then the liveness check: only an echo of something sent after the mark clears it. */
  function NoteRTT(p: PathSt, r: int, echoTs: int): PathSt {
    if r < 0 then
      p
    else
      var q := Smoothed(p, r);
      if echoTs > q.suspectSinceTs then ClearSuspect(q) else q
  }

  /** A rise is taken at once and a fall in part, so the estimate is never below the newest sample. */
  function FilterRate(cur: real, sample: real): (r: real)
    ensures sample <= r && (r <= sample || r < cur) && (r == sample <==> sample >= cur)
    ensures sample < cur ==> 8.0 * (r - sample) == 7.0 * (cur - sample)
  {
    if sample >= cur then sample else cur + (sample - cur) / 8.0
  }

  function Seconds(d: int): real {
    d as real / SECOND as real
  }

  function CreditDelivered(p: PathSt, n: nat, now: int): PathSt {
    var start := if p.lastRateAt.Some? then p.lastRateAt.value
                 else if p.attachedAt.Some? then p.attachedAt.value else now;
    var q := p.(delivered := p.delivered + n, lastRateAt := Some(start));
    var dt := now - start;
    if dt < Max(p.srtt, RATE_SAMPLE_FLOOR) then
      q
    else
      var d := q.delivered - q.rateMark;
      if d == 0 then
        q.(lastRateAt := Some(now))
      else
        q.(estRate := FilterRate(q.estRate, d as real / Seconds(dt)), hasRate := true,
           rateMark := q.delivered, lastRateAt := Some(now))
  }

  function OnDelivered(p: PathSt, n: nat, now: int): PathSt {
    CreditDelivered(p.(inflight := p.inflight - n), n, now)
  }

  /** The mark of a soft failure, made once until it is cleared. */
  function MarkSuspect(p: PathSt, now: int, ts: int): PathSt {
    if p.suspect then p else p.(suspect := true, suspectSince := Some(now), suspectSinceTs := ts)
  }

  function EffRate(p: PathSt, now: int): real {
    if p.peerRateAt.Some? && now - p.peerRateAt.value <= PEER_RATE_TTL && p.peerRate > 0.0 then
      p.peerRate
    else if p.hasRate && p.lastRateAt.Some? && now - p.lastRateAt.value <= StaleAfter(p) then
      p.estRate
    else
      0.0
  }

  function InflightCap(p: PathSt, now: int): int {
    var rate := if p.suspect then EffRate(p, now) / SUSPECT_PENALTY else EffRate(p, now);
    Max((INFLIGHT_CAP_K * rate * Seconds(p.minRTT)).Floor, MIN_INFLIGHT_CAP)
  }

  // ---------- round-trip estimates over whole runs ----------

  function NoteAll(p: PathSt, samples: seq<(int, int)>): PathSt {
    if samples == [] then p
    else NoteRTT(NoteAll(p, samples[..|samples| - 1]), samples[|samples| - 1].0, samples[|samples| - 1].1)
  }

  predicate AcceptedWithin(samples: seq<(int, int)>, lo: int, hi: int) {
    forall i :: 0 <= i < |samples| && samples[i].0 >= 0 ==> lo <= samples[i].0 <= hi
  }

  /** The estimates lie in the span of the samples. */
  predicate Spans(q: PathSt, lo: nat, hi: nat) {
    lo <= q.minRTT <= hi && lo <= q.srtt <= hi && 0 <= q.rttvar <= Max(hi / 2, hi - lo)
  }

  lemma SmoothedSpans(p: PathSt, r: int, lo: nat, hi: nat)
    requires lo <= r <= hi && (p.hasRTT ==> Spans(p, lo, hi))
    ensures var q := Smoothed(p, r);
      q.hasRTT && Spans(q, lo, hi) && q.minRTT <= r && (q.minRTT == r || (p.hasRTT && q.minRTT == p.minRTT))
      && (p.hasRTT ==> q.minRTT <= p.minRTT)
  {
    if p.hasRTT {
      assert lo <= (7 * p.srtt + r) / 8 <= hi;
    }
  }

  /**
   * However the samples arrive, the smoothed estimate never leaves their span, the minimum is a true
   * minimum, and the variation never exceeds the larger of half the top sample and the span.
   */
  lemma {:induction false} EstimatesStayWithinSamples(p: PathSt, samples: seq<(int, int)>, lo: nat, hi: nat)
    requires !p.hasRTT && AcceptedWithin(samples, lo, hi) && lo <= hi
    ensures var q := NoteAll(p, samples);
      && (q.hasRTT <==> exists i :: 0 <= i < |samples| && samples[i].0 >= 0)
      && (q.hasRTT ==>
           && lo <= q.minRTT <= hi && lo <= q.srtt <= hi
           && 0 <= q.rttvar <= Max(hi / 2, hi - lo)
           && (exists i :: 0 <= i < |samples| && samples[i].0 == q.minRTT)
           && (forall i :: 0 <= i < |samples| && samples[i].0 >= 0 ==> q.minRTT <= samples[i].0))
  {
    if samples != [] {
      var init, last := samples[..|samples| - 1], samples[|samples| - 1].0;
      EstimatesStayWithinSamples(p, init, lo, hi);
      var r := NoteAll(p, init);
      assert forall i :: 0 <= i < |init| ==> init[i] == samples[i];
      assert samples[|samples| - 1].0 == last;
      if last >= 0 {
        SmoothedSpans(r, last, lo, hi);
      }
      if r.hasRTT {
        var i :| 0 <= i < |init| && init[i].0 == r.minRTT;
        assert samples[i].0 == r.minRTT;
      }
    }
  }

  // ---------- how fast the estimates follow ----------

  /**
   * Each sample takes the smoothed time to 7/8 of its distance, and the variation to 3/4 of its own plus a
   * quarter of that distance, both rounded down.
   */
  lemma SmoothedFollows(p: PathSt, r: nat)
    requires p.hasRTT && p.srtt >= 0 && p.rttvar >= 0
    ensures var q := Smoothed(p, r);
      && 0 <= 7 * (p.srtt - r) - 8 * (q.srtt - r) < 8
      && 0 <= 3 * p.rttvar + (if p.srtt >= r then p.srtt - r else r - p.srtt) - 4 * q.rttvar < 4
  {
  }

  /** The first sample is taken for the time, and half of it for the variation. */
  lemma FirstSample(p: PathSt, r: nat)
    requires !p.hasRTT
    ensures var q := Smoothed(p, r); q.hasRTT && q.srtt == r == q.minRTT && 0 <= r - 2 * q.rttvar < 2
  {
  }

  function Repeated(p: PathSt, r: nat, k: nat): PathSt
    decreases k
  {
    if k == 0 then p else Repeated(Smoothed(p, r), r, k - 1)
  }

  /** From either side the same sample over and over brings the smoothed time to it, less seven at most, for good. */
  lemma {:induction false} RepeatedSettles(p: PathSt, r: nat) returns (k: nat)
    requires p.hasRTT && p.srtt >= 0 && p.rttvar >= 0
    ensures forall j: nat :: j >= k ==> r - 7 <= Repeated(p, r, j).srtt <= r
    decreases if p.srtt > r then p.srtt - r else 0, if p.srtt < r then r - p.srtt else 0
  {
    var q := Smoothed(p, r);
    SmoothedFollows(p, r);
    if r - 7 <= p.srtt <= r {
      k := 0;
      forall j: nat
        ensures r - 7 <= Repeated(p, r, j).srtt <= r
      {
        StaysSettled(p, r, j);
      }
    } else {
      var i := RepeatedSettles(q, r);
      k := i + 1;
      assert forall j: nat :: j >= k ==> Repeated(p, r, j) == Repeated(q, r, j - 1);
    }
  }

  lemma {:induction false} StaysSettled(p: PathSt, r: nat, j: nat)
    requires p.hasRTT && p.srtt >= 0 && p.rttvar >= 0 && r - 7 <= p.srtt <= r
    ensures r - 7 <= Repeated(p, r, j).srtt <= r
    decreases j
  {
    if j > 0 {
      SmoothedFollows(p, r);
      StaysSettled(Smoothed(p, r), r, j - 1);
    }
  }

  // ---------- rate estimates over whole runs ----------

  /** The marks are in order, and the rate lies between nothing and all delivered bytes in the shortest period. */
  predicate Sane(p: PathSt) {
    && 0 <= p.rateMark <= p.delivered
    && 0.0 <= p.estRate <= p.delivered as real / Seconds(RATE_SAMPLE_FLOOR)
    && p.srtt >= 0 && p.rttvar >= 0 && p.minRTT >= 0
  }

  /** When the current sampling period began. */
  function PeriodStart(p: PathSt, now: int): int {
    if p.lastRateAt.Some? then p.lastRateAt.value else if p.attachedAt.Some? then p.attachedAt.value else now
  }

  lemma Cancel(x: real, y: real, d: real)
    requires d > 0.0 && x * d <= y * d
    ensures x <= y
  {
  }

  lemma Scale(x: real, d: real, c: real)
    requires x >= 0.0 && d <= c
    ensures x * d <= x * c
  {
    assert x * (c - d) >= 0.0;
  }

  lemma QuotientGrows(a: real, b: real, c: real, d: real)
    requires 0.0 <= a <= b && 0.0 < d <= c
    ensures 0.0 <= a / c <= b / d
  {
    var x, y := a / c, b / d;
    assert x * c == a && y * d == b;
    assert 0.0 * c == 0.0;
    Cancel(0.0, x, c);
    Scale(x, d, c);
    assert x * d <= y * d;
    Cancel(x, y, d);
  }

  /** A credit adds to the delivered bytes and takes at most one sample, of everything since the last one. */
  lemma CreditMarks(p: PathSt, n: nat, now: int)
    requires 0 <= p.rateMark <= p.delivered
    ensures var q, dt := CreditDelivered(p, n, now), now - PeriodStart(p, now);
      && q.delivered == p.delivered + n && (q.srtt, q.rttvar, q.minRTT) == (p.srtt, p.rttvar, p.minRTT)
      && (q.rateMark == p.rateMark ==> q.estRate == p.estRate)
      && (q.rateMark != p.rateMark ==>
           && dt >= Max(p.srtt, RATE_SAMPLE_FLOOR) && q.rateMark == q.delivered && q.lastRateAt == Some(now)
           && q.estRate == FilterRate(p.estRate, (q.rateMark - p.rateMark) as real / Seconds(dt)))
  {
  }

  /** A rate sample over two milliseconds or more is at most all delivered bytes in two milliseconds. */
  lemma SampleIsBounded(d: nat, delivered: nat, dt: int)
    requires d <= delivered && dt >= RATE_SAMPLE_FLOOR
    ensures Seconds(dt) > 0.0 && 0.0 <= d as real / Seconds(dt) <= delivered as real / Seconds(RATE_SAMPLE_FLOOR)
  {
    QuotientGrows(d as real, delivered as real, Seconds(dt), Seconds(RATE_SAMPLE_FLOOR));
  }

  /** A credit takes a sample of a whole period or none, and the rate stays within its bounds. */
  lemma CreditKeepsSane(p: PathSt, n: nat, now: int)
    requires Sane(p)
    ensures var q, dt := CreditDelivered(p, n, now), now - PeriodStart(p, now);
      && Sane(q) && q.delivered == p.delivered + n
      && (q.rateMark == p.rateMark ==> q.estRate == p.estRate)
      && (q.rateMark != p.rateMark ==>
           && dt >= Max(p.srtt, RATE_SAMPLE_FLOOR) && q.rateMark == q.delivered && q.lastRateAt == Some(now)
           && exists rate :: rate * Seconds(dt) == (q.rateMark - p.rateMark) as real
                             && q.estRate == FilterRate(p.estRate, rate))
  {
    var q, dt := CreditDelivered(p, n, now), now - PeriodStart(p, now);
    CreditMarks(p, n, now);
    BoundGrows(p.delivered, q.delivered);
    if q.rateMark != p.rateMark {
      var d := q.rateMark - p.rateMark;
      SampleIsBounded(d, q.delivered, dt);
      var rate := d as real / Seconds(dt);
      assert rate * Seconds(dt) == d as real;
    }
  }

  lemma BoundGrows(a: nat, b: nat)
    requires a <= b
    ensures a as real / Seconds(RATE_SAMPLE_FLOOR) <= b as real / Seconds(RATE_SAMPLE_FLOOR)
  {
    QuotientGrows(a as real, b as real, Seconds(RATE_SAMPLE_FLOOR), Seconds(RATE_SAMPLE_FLOOR));
  }

  /** A sampling period ends, with a sample or without, exactly when it has lasted max(srtt, 2 ms). */
  lemma PeriodEnds(p: PathSt, n: nat, now: int)
    ensures var start := PeriodStart(p, now);
      CreditDelivered(p, n, now).lastRateAt
      == Some(if now - start >= p.srtt && now - start >= 2_000_000 then now else start)
  {
  }

  /** The peer has reported a rate within the last 600 ms. */
  predicate Reported(p: PathSt, now: int) {
    p.peerRateAt.Some? && now - p.peerRateAt.value <= 600_000_000 && p.peerRate > 0.0
  }

  /** A credit that takes a sample is believed at once, unless the peer has reported. */
  lemma SampleIsBelieved(p: PathSt, n: nat, now: int)
    requires Sane(p) && CreditDelivered(p, n, now).rateMark != p.rateMark && !Reported(p, now)
    ensures var q := CreditDelivered(p, n, now); EffRate(q, now) == q.estRate > 0.0
  {
    CreditKeepsSane(p, n, now);
    CreditMarks(p, n, now);
    SampleIsPositive(CreditDelivered(p, n, now).rateMark - p.rateMark, now - PeriodStart(p, now));
  }

  lemma SampleIsPositive(d: nat, dt: int)
    requires d > 0 && dt >= RATE_SAMPLE_FLOOR
    ensures d as real / Seconds(dt) > 0.0
  {
    var x, y := d as real, Seconds(dt);
    assert x / y * y == x;
    if x / y <= 0.0 {
      Scale(0.0 - x / y, 0.0, y);
    }
  }

  /** Who is believed: a fresh report; else a local sample not older than max(4 srtt, 500 ms); else nobody. */
  lemma BelievedRate(p: PathSt, now: int)
    ensures Reported(p, now) ==> EffRate(p, now) == p.peerRate
    ensures var recent := p.hasRate && p.lastRateAt.Some?
              && (now - p.lastRateAt.value <= 4 * p.srtt || now - p.lastRateAt.value <= 500_000_000);
      !Reported(p, now) ==> EffRate(p, now) == if recent then p.estRate else 0.0
  {
  }

  lemma NoteKeepsSane(p: PathSt, r: int, echoTs: int)
    requires Sane(p)
    ensures Sane(NoteRTT(p, r, echoTs))
  {
  }

  datatype PathOp = Credited(n: nat, now: int) | Echoed(r: int, echoTs: int)

  function StepPath(p: PathSt, op: PathOp): PathSt {
    match op
    case Credited(n, now) => CreditDelivered(p, n, now)
    case Echoed(r, echoTs) => NoteRTT(p, r, echoTs)
  }

  function RunPath(p: PathSt, ops: seq<PathOp>): PathSt
    decreases |ops|
  {
    if ops == [] then p else RunPath(StepPath(p, ops[0]), ops[1..])
  }

  /** How many rate samples the operations take. */
  function SamplesTaken(p: PathSt, ops: seq<PathOp>): nat
    decreases |ops|
  {
    if ops == [] then 0
    else
      var q := StepPath(p, ops[0]);
      (if q.rateMark != p.rateMark then 1 else 0) + SamplesTaken(q, ops[1..])
  }

  /**
   * In any run of acknowledged bytes and round-trip samples, by whatever clock: the rate stays within its
   * bounds, and the samples are disjoint periods of two milliseconds or more.
   */
  lemma {:induction false} RatesOverRun(p: PathSt, ops: seq<PathOp>)
    requires Sane(p) && p.attachedAt.Some?
    ensures var q := RunPath(p, ops);
      && Sane(q) && q.attachedAt == p.attachedAt
      && SamplesTaken(p, ops) * RATE_SAMPLE_FLOOR <= PeriodStart(q, 0) - PeriodStart(p, 0)
    decreases |ops|
  {
    if ops != [] {
      match ops[0] {
        case Credited(n, now) => CreditKeepsSane(p, n, now);
        case Echoed(r, echoTs) => NoteKeepsSane(p, r, echoTs);
      }
      RatesOverRun(StepPath(p, ops[0]), ops[1..]);
    }
  }

  // ---------- the object ----------

  class Path {
    const id: nat
    var srtt: int
    var rttvar: int
    var minRTT: int
    var hasRTT: bool
    var inflight: int
    var delivered: nat
    var estRate: real
    var hasRate: bool
    var rateMark: int
    var lastRateAt: Option<int>
    var attachedAt: Option<int>
    var peerRate: real
    var peerRateAt: Option<int>
    var suspect: bool
    var suspectSince: Option<int>
    var suspectSinceTs: int

    function State(): PathSt
      reads this
    {
      PathSt(id, srtt, rttvar, minRTT, hasRTT, inflight, delivered, estRate, hasRate, rateMark, lastRateAt,
             attachedAt, peerRate, peerRateAt, suspect, suspectSince, suspectSinceTs)
    }

    constructor (id: nat, attachedAt: int)
      ensures State() == NewPath(id, attachedAt)
    {
      this.id := id;
      srtt, rttvar, minRTT, hasRTT, inflight, delivered := 0, 0, 0, false, 0, 0;
      estRate, hasRate, rateMark, lastRateAt, this.attachedAt := 0.0, false, 0, None, Some(attachedAt);
      peerRate, peerRateAt, suspect, suspectSince, suspectSinceTs := 0.0, None, false, None, 0;
    }

    method Smooth(r: int)
      modifies this`srtt, this`rttvar, this`minRTT, this`hasRTT
      ensures State() == Smoothed(old(State()), r)
    {
      if !hasRTT {
        srtt, rttvar, minRTT := r, Quot(r, 2), r;
        hasRTT := true;
      } else {
        var d := srtt - r;
        if d < 0 {
          d := -d;
        }
        rttvar := Quot(3 * rttvar + d, 4);
        srtt := Quot(7 * srtt + r, 8);
        if r < minRTT {
          minRTT := r;
        }
      }
    }

    method NoteSample(r: int, echoTs: int)
      modifies this
      ensures State() == NoteRTT(old(State()), r, echoTs)
    {
      if r < 0 {
        return;
      }
      Smooth(r);
      if echoTs > suspectSinceTs {
        suspect := false;
        suspectSince := None;
      }
    }

    method Credit(n: nat, now: int)
      modifies this
      ensures State() == CreditDelivered(old(State()), n, now)
    {
      delivered := delivered + n;
      if lastRateAt == None {
        lastRateAt := attachedAt;
        if lastRateAt == None {
          lastRateAt := Some(now);
        }
      }
      var iv := srtt;
      if iv < RATE_SAMPLE_FLOOR {
        iv := RATE_SAMPLE_FLOOR;
      }
      var dt := now - lastRateAt.value;
      if dt < iv {
        return;
      }
      var d := delivered - rateMark;
      if d == 0 {
        lastRateAt := Some(now);
        return;
      }
      estRate := FilterRate(estRate, d as real / Seconds(dt));
      hasRate := true;
      rateMark := delivered;
      lastRateAt := Some(now);
    }

    method Deliver(n: nat, now: int)
      modifies this
      ensures State() == OnDelivered(old(State()), n, now)
    {
      inflight := inflight - n;
      Credit(n, now);
    }

    method Mark(now: int, ts: int)
      modifies this
      ensures State() == MarkSuspect(old(State()), now, ts)
    {
      if !suspect {
        suspect := true;
        suspectSince := Some(now);
        suspectSinceTs := ts;
      }
    }

    method Release(n: nat)
      modifies this`inflight
      ensures State() == old(State()).(inflight := old(inflight) - n)
    {
      inflight := inflight - n;
    }

    method Charge(n: nat)
      modifies this`inflight
      ensures State() == old(State()).(inflight := old(inflight) + n)
    {
      inflight := inflight + n;
    }
  }
}
