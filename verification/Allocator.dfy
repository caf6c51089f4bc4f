/** The relay's allocator: a table of buckets, resampled and refilled every period (relay/allocator.go). */
module RelayAllocator {
  import opened WaterFilling

  // ---------- the buckets ----------

  type PeerId = string

  datatype BucketSt = BucketSt(cur: nat, waited: bool, refs: nat, demand: real, share: real)

  /** One period's sample: a peer that had to wait asks for everything, another for its smoothed rate. */
  function Sampled(b: BucketSt, total: real, seconds: real): BucketSt
    requires seconds > 0.0
  {
    b.(cur := 0, waited := false,
       demand := if b.waited then total else 0.5 * b.demand + 0.5 * (b.cur as real / seconds))
  }

  predicate Idle(b: BucketSt, minShare: real) {
    b.refs == 0 && b.demand <= minShare
  }

  function Demands(order: seq<PeerId>, v: map<PeerId, BucketSt>): (r: seq<real>)
    requires forall p :: p in order ==> p in v
    ensures |r| == |order| && forall i :: 0 <= i < |order| ==> r[i] == v[order[i]].demand
  {
    if order == [] then [] else [v[order[0]].demand] + Demands(order[1..], v)
  }

  function Shares(order: seq<PeerId>, v: map<PeerId, BucketSt>): (r: seq<real>)
    requires forall p :: p in order ==> p in v
    ensures |r| == |order| && forall i :: 0 <= i < |order| ==> r[i] == v[order[i]].share
  {
    if order == [] then [] else [v[order[0]].share] + Shares(order[1..], v)
  }

  /** The list holds every peer of the table once. */
  ghost predicate Lists(order: seq<PeerId>, v: map<PeerId, BucketSt>) {
    Distinct(order) && forall p :: p in order <==> p in v
  }

  /** Everyone sampled, and the idle gone. */
  function Kept(v: map<PeerId, BucketSt>, total: real, minShare: real, seconds: real): map<PeerId, BucketSt>
    requires seconds > 0.0
  {
    map p | p in v && !Idle(Sampled(v[p], total, seconds), minShare) :: Sampled(v[p], total, seconds)
  }

  /** The same buckets, with shares watered in some order. */
  ghost predicate Shared(k: map<PeerId, BucketSt>, w: map<PeerId, BucketSt>, total: real, minShare: real) {
    && w.Keys == k.Keys
    && (forall p :: p in w ==> w[p] == k[p].(share := w[p].share))
    && exists order :: SharedIn(order, w, total, minShare)
  }

  ghost predicate SharedIn(order: seq<PeerId>, w: map<PeerId, BucketSt>, total: real, minShare: real) {
    Lists(order, w) && Watered(Shares(order, w), Demands(order, w), total, minShare)
  }

  lemma SomeMember(b: seq<PeerId>)
    ensures b != [] ==> exists p :: p in b
  {
    if b != [] {
      assert b[0] in b;
    }
  }

  lemma {:induction false} ListsAgree(a: seq<PeerId>, b: seq<PeerId>, v: map<PeerId, BucketSt>, m: real, L: real)
    requires Distinct(a) && Distinct(b) && (forall p :: p in a <==> p in b) && forall p :: p in a ==> p in v
    ensures EffSum(Demands(a, v), m) == EffSum(Demands(b, v), m)
    ensures ShareSum(Demands(a, v), m, L) == ShareSum(Demands(b, v), m, L)
    decreases |a|
  {
    if a == [] {
      SomeMember(b);
    } else {
      assert a[0] in b;
      var i :| 0 <= i < |b| && b[i] == a[0];
      var rest := b[..i] + b[i + 1..];
      RestsList(a, b, i);
      DropSums(b, i, v, m, L);
      HeadSums(a, v, m, L);
      ListsAgree(a[1..], rest, v, m, L);
    }
  }

  lemma HeadSums(a: seq<PeerId>, v: map<PeerId, BucketSt>, m: real, L: real)
    requires a != [] && forall p :: p in a ==> p in v
    ensures EffSum(Demands(a, v), m) == Eff(v[a[0]].demand, m) + EffSum(Demands(a[1..], v), m)
    ensures ShareSum(Demands(a, v), m, L) == Share(v[a[0]].demand, m, L) + ShareSum(Demands(a[1..], v), m, L)
  {
    assert Demands(a, v)[1..] == Demands(a[1..], v);
  }

  lemma RestsList(a: seq<PeerId>, b: seq<PeerId>, i: nat)
    requires Distinct(a) && Distinct(b) && (forall p :: p in a <==> p in b) && a != [] && i < |b| && b[i] == a[0]
    ensures var rest := b[..i] + b[i + 1..];
      Distinct(rest) && (forall p :: p in a[1..] <==> p in rest) && forall p :: p in rest ==> p in b
  {
    DropOne(b, i);
    assert forall p :: p in a <==> p == a[0] || p in a[1..];
  }

  lemma DropSums(b: seq<PeerId>, i: nat, v: map<PeerId, BucketSt>, m: real, L: real)
    requires i < |b| && forall p :: p in b ==> p in v
    ensures var ds, es := Demands(b, v), Demands(b[..i] + b[i + 1..], v);
      && EffSum(ds, m) == Eff(v[b[i]].demand, m) + EffSum(es, m)
      && ShareSum(ds, m, L) == Share(v[b[i]].demand, m, L) + ShareSum(es, m, L)
  {
    SumsWithout(Demands(b, v), i, m, L);
    assert Without(Demands(b, v), i) == Demands(b[..i] + b[i + 1..], v);
  }

  lemma {:induction false} DropOne(b: seq<PeerId>, i: nat)
    requires Distinct(b) && i < |b|
    ensures var rest := b[..i] + b[i + 1..];
      Distinct(rest) && b[i] !in rest && forall p :: p in b <==> p == b[i] || p in rest
  {
    var rest := b[..i] + b[i + 1..];
    assert forall p :: p in b <==> p == b[0] || p in b[1..];
    if i == 0 {
      assert rest == b[1..];
    } else {
      var tail := b[1..][..i - 1] + b[1..][i..];
      DropOne(b[1..], i - 1);
      assert rest == [b[0]] + tail && rest[1..] == tail;
    }
  }

  lemma SameDemands(order: seq<PeerId>, v: map<PeerId, BucketSt>, w: map<PeerId, BucketSt>)
    requires forall p :: p in order ==> p in v && p in w && v[p].demand == w[p].demand
    ensures Demands(order, v) == Demands(order, w)
  {
  }

  /** The result does not depend on the order in which the table is walked. */
  lemma SharesAreDetermined(k: map<PeerId, BucketSt>, w: map<PeerId, BucketSt>, u: map<PeerId, BucketSt>,
                            total: real, minShare: real)
    requires Shared(k, w, total, minShare) && Shared(k, u, total, minShare)
    ensures w == u
  {
    var a :| SharedIn(a, w, total, minShare);
    var b :| SharedIn(b, u, total, minShare);
    SameDemands(b, u, w);
    SumsAgree(a, b, w, minShare);
    forall p | p in w
      ensures w[p] == u[p]
    {
      SameShare(a, w, b, u, total, minShare, p);
    }
  }

  lemma SumsAgree(a: seq<PeerId>, b: seq<PeerId>, w: map<PeerId, BucketSt>, m: real)
    requires Lists(a, w) && Lists(b, w)
    ensures SameSums(Demands(a, w), Demands(b, w), m)
  {
    forall L
      ensures ShareSum(Demands(a, w), m, L) == ShareSum(Demands(b, w), m, L)
    {
      ListsAgree(a, b, w, m, L);
    }
    ListsAgree(a, b, w, m, 0.0);
  }

  lemma SameShare(a: seq<PeerId>, w: map<PeerId, BucketSt>, b: seq<PeerId>, u: map<PeerId, BucketSt>,
                  total: real, minShare: real, p: PeerId)
    requires (forall q :: q in a ==> q in w) && (forall q :: q in b ==> q in u)
    requires Watered(Shares(a, w), Demands(a, w), total, minShare)
    requires Watered(Shares(b, u), Demands(b, u), total, minShare)
    requires SameSums(Demands(a, w), Demands(b, u), minShare)
    requires p in a && p in b && w[p].demand == u[p].demand
    ensures w[p].share == u[p].share
  {
    var i :| 0 <= i < |a| && a[i] == p;
    var j :| 0 <= j < |b| && b[j] == p;
    SharesFollowSums(Shares(a, w), Demands(a, w), Shares(b, u), Demands(b, u), total, minShare, i, j);
  }

  /** k periods without a read. */
  function Quiet(b: BucketSt, k: nat, total: real, seconds: real): BucketSt
    requires seconds > 0.0
    decreases k
  {
    if k == 0 then b else Quiet(Sampled(b, total, seconds), k - 1, total, seconds)
  }

  function Pow2(k: nat): nat {
    if k == 0 then 1 else 2 * Pow2(k - 1)
  }

  /** A bucket nobody uses is given up at the latest after as many periods as its demand takes to halve down. */
  lemma {:induction false} UnusedIsReclaimed(b: BucketSt, k: nat, total: real, minShare: real, seconds: real)
    requires seconds > 0.0 && b.refs == 0 && b.cur == 0 && !b.waited
    ensures Idle(Quiet(b, k, total, seconds), minShare) <==> b.demand <= minShare * Pow2(k) as real
    decreases k
  {
    if k > 0 {
      var c := Sampled(b, total, seconds);
      UnusedIsReclaimed(c, k - 1, total, minShare, seconds);
      var x := minShare * Pow2(k - 1) as real;
      assert minShare * Pow2(k) as real == 2.0 * x;
    }
  }

  // ---------- from one table to the next ----------

  /** One period of the relay, by what Recompute promises. */
  ghost predicate Period(v: map<PeerId, BucketSt>, w: map<PeerId, BucketSt>, total: real, minShare: real, seconds: real)
    requires seconds > 0.0
  {
    Shared(Kept(v, total, minShare, seconds), w, total, minShare)
  }

  lemma {:induction false} DistinctCount(order: seq<PeerId>, keys: set<PeerId>)
    requires Distinct(order) && forall p :: p in order <==> p in keys
    ensures |order| == |keys|
    decreases |order|
  {
    if order == [] {
      assert keys == {};
    } else {
      assert forall p :: p in order <==> p == order[0] || p in order[1..];
      DistinctCount(order[1..], keys - {order[0]});
      assert order[0] in keys;
    }
  }

  /**
   * A peer that had to wait asks for everything, however little it read: it stays unless it has no stream and
   * the relay no more than the guaranteed rate, it gets at least an even split, and nobody gets more.
   */
  lemma WaitedGetsMost(v: map<PeerId, BucketSt>, w: map<PeerId, BucketSt>, total: real, minShare: real, seconds: real,
                       p: PeerId)
    requires seconds > 0.0 && total >= 0.0 && minShare >= 0.0 && Period(v, w, total, minShare, seconds)
    requires p in v && v[p].waited
    ensures p in w <==> v[p].refs > 0 || total > minShare
    ensures p in w ==>
      && w[p].demand == total && w[p].share >= total / |w| as real
      && forall q :: q in w ==> w[q].share <= w[p].share
  {
    if p in w {
      var order :| SharedIn(order, w, total, minShare);
      DistinctCount(order, w.Keys);
      var i :| 0 <= i < |order| && order[i] == p;
      ThrottledGetMost(Shares(order, w), Demands(order, w), total, minShare, i);
      forall q | q in w
        ensures w[q].share <= w[p].share
      {
        var j :| 0 <= j < |order| && order[j] == q;
        assert Shares(order, w)[j] <= Shares(order, w)[i];
      }
    }
  }

  /** In every period p has a stream open, reads at that rate and never waits. */
  ghost predicate ReadsSteadily(before: seq<map<PeerId, BucketSt>>, after: seq<map<PeerId, BucketSt>>, p: PeerId,
                                rate: real, total: real, minShare: real, seconds: real)
    requires seconds > 0.0
  {
    && |before| == |after|
    && (forall i :: 0 <= i < |before| ==>
          && p in before[i] && before[i][p].refs > 0 && !before[i][p].waited
          && before[i][p].cur as real / seconds == rate
          && Period(before[i], after[i], total, minShare, seconds))
    && forall i :: 0 < i < |before| ==> p in after[i - 1] && before[i][p].demand == after[i - 1][p].demand
  }

  /** A peer that did not wait comes half as far from the rate it read at; it goes only if idle. */
  lemma ReaderHalves(v: map<PeerId, BucketSt>, w: map<PeerId, BucketSt>, total: real, minShare: real, seconds: real,
                     p: PeerId, rate: real)
    requires seconds > 0.0 && Period(v, w, total, minShare, seconds)
    requires p in v && !v[p].waited && rate == v[p].cur as real / seconds
    ensures p in w <==> v[p].refs > 0 || (v[p].demand + rate) / 2.0 > minShare
    ensures p in w ==> 2.0 * (w[p].demand - rate) == v[p].demand - rate && w[p].cur == 0 && !w[p].waited
  {
  }

  /** x halved k times. */
  function Halved(x: real, k: nat): real {
    if k == 0 then x else Halved(x, k - 1) / 2.0
  }

  /** The demand of a peer that reads at one rate comes twice as close to that rate with every period. */
  lemma {:induction false} DemandApproaches(before: seq<map<PeerId, BucketSt>>, after: seq<map<PeerId, BucketSt>>,
                                            p: PeerId,
                                            rate: real, total: real, minShare: real, seconds: real, i: nat)
    requires seconds > 0.0 && ReadsSteadily(before, after, p, rate, total, minShare, seconds) && i < |before|
    ensures p in after[i] && after[i][p].demand - rate == Halved(before[0][p].demand - rate, i + 1)
  {
    ReaderHalves(before[i], after[i], total, minShare, seconds, p, rate);
    if i > 0 {
      DemandApproaches(before, after, p, rate, total, minShare, seconds, i - 1);
    }
  }

  /** The shares put into the table one after another. */
  function WithShares(v: map<PeerId, BucketSt>, peers: seq<PeerId>, xs: seq<real>): (w: map<PeerId, BucketSt>)
    requires |peers| == |xs| && forall p :: p in peers ==> p in v
    ensures w.Keys == v.Keys
    decreases |peers|
  {
    if peers == [] then v
    else WithShares(v[peers[0] := v[peers[0]].(share := xs[0])], peers[1..], xs[1..])
  }

  lemma {:induction false} WithSharesIs(v: map<PeerId, BucketSt>, peers: seq<PeerId>, xs: seq<real>)
    requires |peers| == |xs| && Distinct(peers) && forall p :: p in peers ==> p in v
    ensures var w := WithShares(v, peers, xs);
      && (forall p :: p in v && p !in peers ==> w[p] == v[p])
      && (forall p :: p in v ==> w[p] == v[p].(share := w[p].share))
      && Shares(peers, w) == xs
    decreases |peers|
  {
    if peers != [] {
      var p := peers[0];
      var u := v[p := v[p].(share := xs[0])];
      WithSharesIs(u, peers[1..], xs[1..]);
      var w := WithShares(v, peers, xs);
      assert w[p] == u[p];
      assert Shares(peers, w) == [w[p].share] + Shares(peers[1..], w);
    }
  }

  /** The table in the middle of the first loop, with todo still to be sampled. */
  ghost predicate HalfSampled(v: map<PeerId, BucketSt>, cur: map<PeerId, BucketSt>, todo: set<PeerId>,
                              total: real, minShare: real, seconds: real)
    requires seconds > 0.0
  {
    && todo <= cur.Keys <= v.Keys
    && (forall p :: p in todo ==> cur[p] == v[p])
    && (forall p :: p in cur && p !in todo ==> cur[p] == Sampled(v[p], total, seconds))
    && (forall p :: p in v && p !in todo ==> (p in cur <==> !Idle(Sampled(v[p], total, seconds), minShare)))
  }

  /** The kept and sampled buckets, in the order they were met. */
  ghost predicate Met(peers: seq<PeerId>, demands: seq<real>, cur: map<PeerId, BucketSt>, todo: set<PeerId>) {
    && Distinct(peers) && (forall p :: p in peers <==> p in cur && p !in todo)
    && demands == Demands(peers, cur)
  }

  lemma MeetOne(peers: seq<PeerId>, demands: seq<real>, cur: map<PeerId, BucketSt>, todo: set<PeerId>, p: PeerId,
                b: BucketSt)
    requires Met(peers, demands, cur, todo) && p in todo && p in cur
    ensures Met(peers + [p], demands + [b.demand], cur[p := b], todo - {p})
  {
    DistinctAppend(peers, p);
    assert Demands(peers + [p], cur[p := b]) == Demands(peers, cur) + [b.demand];
  }

  lemma SkipOne(peers: seq<PeerId>, demands: seq<real>, cur: map<PeerId, BucketSt>, todo: set<PeerId>, p: PeerId)
    requires Met(peers, demands, cur, todo) && p in todo && p in cur
    ensures Met(peers, demands, cur - {p}, todo - {p})
  {
    assert forall q :: q in peers ==> q in cur - {p};
    SameDemands(peers, cur, cur - {p});
  }

  /** The table after one bucket was looked at. */
  function Visited(cur: map<PeerId, BucketSt>, p: PeerId, b: BucketSt, minShare: real): map<PeerId, BucketSt> {
    if Idle(b, minShare) then cur - {p} else cur[p := b]
  }

  lemma HalfStep(v: map<PeerId, BucketSt>, cur: map<PeerId, BucketSt>, todo: set<PeerId>, p: PeerId,
                 total: real, minShare: real, seconds: real)
    requires seconds > 0.0 && HalfSampled(v, cur, todo, total, minShare, seconds) && p in todo
    ensures var next := Visited(cur, p, Sampled(cur[p], total, seconds), minShare);
      HalfSampled(v, next, todo - {p}, total, minShare, seconds)
  {
  }

  lemma HalfEnds(v: map<PeerId, BucketSt>, cur: map<PeerId, BucketSt>, total: real, minShare: real, seconds: real)
    requires seconds > 0.0 && HalfSampled(v, cur, {}, total, minShare, seconds)
    ensures cur == Kept(v, total, minShare, seconds)
  {
  }

  lemma PutOne(cur: map<PeerId, BucketSt>, peers: seq<PeerId>, xs: seq<real>, i: nat)
    requires |peers| == |xs| && i < |peers| && forall p :: p in peers ==> p in cur
    ensures var next := cur[peers[i] := cur[peers[i]].(share := xs[i])];
      && (forall p :: p in peers[i..] ==> p in cur)
      && WithShares(cur, peers[i..], xs[i..]) == WithShares(next, peers[i + 1..], xs[i + 1..])
  {
    assert peers[i..][1..] == peers[i + 1..] && xs[i..][1..] == xs[i + 1..];
  }

  lemma PutAll(v: map<PeerId, BucketSt>, peers: seq<PeerId>, xs: seq<real>, total: real, minShare: real)
    requires Lists(peers, v) && Watered(xs, Demands(peers, v), total, minShare)
    ensures Shared(v, WithShares(v, peers, xs), total, minShare)
  {
    var w := WithShares(v, peers, xs);
    WithSharesIs(v, peers, xs);
    SameDemands(peers, v, w);
    assert SharedIn(peers, w, total, minShare);
  }

  lemma {:induction false} DistinctAppend(xs: seq<PeerId>, p: PeerId)
    requires Distinct(xs) && p !in xs
    ensures Distinct(xs + [p])
  {
    if xs != [] {
      DistinctAppend(xs[1..], p);
      assert (xs + [p])[1..] == xs[1..] + [p];
    }
  }

  // ---------- the objects ----------

  class Bucket {
    var cur: nat
    var waited: bool
    var refs: nat
    var demand: real
    var share: real

    function State(): BucketSt
      reads this
    {
      BucketSt(cur, waited, refs, demand, share)
    }

    constructor (total: real)
      ensures State() == BucketSt(0, false, 0, total, total)
    {
      cur, waited, refs, demand, share := 0, false, 0, total, total;
    }

    method Sample(total: real, seconds: real)
      requires seconds > 0.0
      modifies this
      ensures State() == Sampled(old(State()), total, seconds)
    {
      var observed := cur as real / seconds;
      cur := 0;
      if waited {
        waited := false;
        demand := total;
      } else {
        demand := 0.5 * demand + (1.0 - 0.5) * observed;
      }
    }
  }

  // ---------- settings ----------

  const MAX_CHUNK: int := 65536

  /** The period in seconds, the burst of a bucket in bytes and the guaranteed rate in bytes per second. */
  datatype Config = Config(seconds: real, burst: int, minShare: real)

  const DEFAULTS: Config := Config(0.2, 131072, 65536.0)

  datatype Setting = RecomputeInterval(seconds: real) | Burst(bytes: int) | MinShare(rate: real)

  /** A period is moved into [0.1, 0.5], a burst up to one chunk; a rate that is not positive is ignored. */
  function Apply(c: Config, s: Setting): Config {
    match s
    case RecomputeInterval(d) => c.(seconds := if d < 0.1 then 0.1 else if d > 0.5 then 0.5 else d)
    case Burst(n) => c.(burst := if n < MAX_CHUNK then MAX_CHUNK else n)
    case MinShare(v) => if v > 0.0 then c.(minShare := v) else c
  }

  function Configured(settings: seq<Setting>): Config {
    if settings == [] then DEFAULTS
    else Apply(Configured(settings[..|settings| - 1]), settings[|settings| - 1])
  }

  /** Whatever is set, in whatever order, the values stay in their ranges, and each is the default or as it was set. */
  lemma {:induction false} ConfiguredInRange(settings: seq<Setting>)
    ensures var c := Configured(settings);
      && 0.1 <= c.seconds <= 0.5 && c.burst >= MAX_CHUNK && c.minShare > 0.0
      && (c.minShare == DEFAULTS.minShare || MinShare(c.minShare) in settings)
      && (0.1 < c.seconds < 0.5 && c.seconds != DEFAULTS.seconds ==> RecomputeInterval(c.seconds) in settings)
      && (c.burst > MAX_CHUNK && c.burst != DEFAULTS.burst ==> Burst(c.burst) in settings)
  {
    if settings != [] {
      ConfiguredInRange(settings[..|settings| - 1]);
      assert forall s :: s in settings[..|settings| - 1] ==> s in settings;
      assert settings[|settings| - 1] in settings;
    }
  }

  /** A value in its range is taken as it is, another as the nearest in it; no setting touches another's value. */
  lemma LastSettingWins(settings: seq<Setting>, s: Setting)
    ensures var c, d := Configured(settings), Configured(settings + [s]);
      && (!s.RecomputeInterval? ==> d.seconds == c.seconds)
      && (!s.Burst? ==> d.burst == c.burst)
      && (!s.MinShare? ==> d.minShare == c.minShare)
      && (s.RecomputeInterval? && 0.1 <= s.seconds <= 0.5 ==> d.seconds == s.seconds)
      && (s.RecomputeInterval? && s.seconds < 0.1 ==> d.seconds == 0.1)
      && (s.RecomputeInterval? && s.seconds > 0.5 ==> d.seconds == 0.5)
      && (s.Burst? ==> d.burst >= s.bytes && (d.burst == s.bytes || d.burst == 65536))
      && (s.MinShare? ==> d.minShare == if s.rate > 0.0 then s.rate else c.minShare)
  {
    assert (settings + [s])[..|settings|] == settings;
    ConfiguredInRange(settings + [s]);
  }

  class Allocator {
    const total: real
    const minShare: real
    const seconds: real
    const burst: int
    var buckets: map<PeerId, Bucket>

    ghost predicate Valid()
      reads this
    {
      && total > 0.0 && minShare > 0.0 && seconds > 0.0
      && forall p, q :: p in buckets && q in buckets && p != q ==> buckets[p] != buckets[q]
    }

    ghost function View(): map<PeerId, BucketSt>
      reads this, buckets.Values
    {
      map p | p in buckets :: buckets[p].State()
    }

    /** The settings are applied one after the other; a total that is not positive becomes 2^30. */
    constructor (total: real, settings: seq<Setting>)
      ensures Valid() && buckets == map[]
      ensures this.total == if total > 0.0 then total else 1073741824.0
      ensures Config(seconds, burst, minShare) == Configured(settings) && burst >= MAX_CHUNK
    {
      ConfiguredInRange(settings);
      var c := DEFAULTS;
      assert settings[..|settings|] == settings;
      for i := 0 to |settings|
        invariant c == Configured(settings[..i])
      {
        assert settings[..i + 1][..i] == settings[..i];
        c := Apply(c, settings[i]);
      }
      this.total := if total <= 0.0 then 1073741824.0 else total;
      seconds, burst, minShare := c.seconds, c.burst, c.minShare;
      buckets := map[];
    }

    /** The peer's bucket with one more stream on it, made if need be and then full of credit. */
    method AcquireBucket(p: PeerId) returns (b: Bucket)
      requires Valid()
      modifies this`buckets, buckets.Values
      ensures Valid() && p in buckets && b == buckets[p]
      ensures var was := if p in old(View()) then old(View())[p] else BucketSt(0, false, 0, total, total);
        View() == old(View())[p := was.(refs := was.refs + 1)]
    {
      if p !in buckets {
        b := new Bucket(total);
        buckets := buckets[p := b];
      }
      b := buckets[p];
      b.refs := b.refs + 1;
    }

    /** One period: everyone sampled, the idle removed, and the rest given max-min fair shares. */
    method Recompute()
      requires Valid()
      modifies this`buckets, buckets.Values
      ensures Valid() && buckets.Values <= old(buckets.Values)
      ensures Period(old(View()), View(), total, minShare, seconds)
    {
      if |buckets| == 0 {
        assert AtLevel([], [], minShare, 0.0);
        assert SharedIn([], View(), total, minShare);
        return;
      }
      var peers, demands := SampleAll();
      var shares := ProgressiveFill(demands, total, minShare);
      SetShares(peers, shares[..]);
    }

    method SampleOne(p: PeerId)
      requires Valid() && p in buckets
      modifies buckets[p]
      ensures View() == old(View())[p := Sampled(old(View())[p], total, seconds)]
    {
      buckets[p].Sample(total, seconds);
    }

    method Delete(p: PeerId)
      requires Valid()
      modifies this`buckets
      ensures Valid() && buckets.Values <= old(buckets.Values) && View() == old(View()) - {p}
    {
      buckets := map q | q in buckets && q != p :: buckets[q];
    }

    method SetShare(p: PeerId, x: real)
      requires Valid() && p in buckets
      modifies buckets[p]
      ensures View() == old(View())[p := old(View())[p].(share := x)]
    {
      buckets[p].share := x;
    }

    /** The first loop: samples every bucket, deletes the idle ones and lists the others. */
    method SampleAll() returns (peers: seq<PeerId>, demands: seq<real>)
      requires Valid()
      modifies this`buckets, buckets.Values
      ensures Valid() && buckets.Values <= old(buckets.Values)
      ensures View() == Kept(old(View()), total, minShare, seconds)
      ensures Lists(peers, View()) && demands == Demands(peers, View())
    {
      ghost var v := View();
      var todo := buckets.Keys;
      peers, demands := [], [];
      while todo != {}
        invariant Valid() && buckets.Values <= old(buckets.Values)
        invariant HalfSampled(v, View(), todo, total, minShare, seconds)
        invariant Met(peers, demands, View(), todo)
        decreases |todo|
      {
        ghost var u := View();
        var p :| p in todo;
        HalfStep(v, u, todo, p, total, minShare, seconds);
        MeetOne(peers, demands, u, todo, p, Sampled(u[p], total, seconds));
        SkipOne(peers, demands, u, todo, p);
        var kept, demand := Visit(p);
        if kept {
          peers := peers + [p];
          demands := demands + [demand];
        }
        todo := todo - {p};
      }
      HalfEnds(v, View(), total, minShare, seconds);
    }

    method Visit(p: PeerId) returns (kept: bool, demand: real)
      requires Valid() && p in buckets
      modifies this`buckets, buckets[p]
      ensures Valid() && buckets.Values <= old(buckets.Values)
      ensures var b := Sampled(old(View())[p], total, seconds);
        View() == Visited(old(View()), p, b, minShare) && kept == !Idle(b, minShare) && demand == b.demand
    {
      ghost var u := View();
      SampleOne(p);
      kept, demand := true, buckets[p].demand;
      assert View()[p] == buckets[p].State();
      if buckets[p].refs == 0 && demand <= minShare {
        Delete(p);
        kept := false;
        assert View() == u - {p};
      }
    }

    /** The second loop. */
    method SetShares(peers: seq<PeerId>, shares: seq<real>)
      requires Valid() && Lists(peers, View())
      requires Watered(shares, Demands(peers, View()), total, minShare)
      modifies buckets.Values
      ensures Shared(old(View()), View(), total, minShare)
    {
      ghost var v := View();
      ghost var w := WithShares(v, peers, shares);
      assert peers[0..] == peers && shares[0..] == shares;
      for i := 0 to |peers|
        invariant View().Keys == v.Keys
        invariant WithShares(View(), peers[i..], shares[i..]) == w
      {
        assert peers[i] in peers;
        PutOne(View(), peers, shares, i);
        SetShare(peers[i], shares[i]);
      }
      assert peers[|peers|..] == [];
      PutAll(v, peers, shares, total, minShare);
    }
  }
}
