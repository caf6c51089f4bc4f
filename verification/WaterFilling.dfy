/** Max-min sharing of the relay's bandwidth by progressive filling (relay/allocator.go). */
module WaterFilling {

  function MinR(a: real, b: real): real {
    if a <= b then a else b
  }

  /** A demand, raised to the guaranteed rate. */
  function Eff(d: real, minShare: real): real {
    if d < minShare then minShare else d
  }

  /** The share at water level L. */
  function Share(d: real, minShare: real, L: real): real {
    MinR(Eff(d, minShare), L)
  }

  function Sum(xs: seq<real>): real {
    if xs == [] then 0.0 else xs[0] + Sum(xs[1..])
  }

  function EffSum(ds: seq<real>, minShare: real): real {
    if ds == [] then 0.0 else Eff(ds[0], minShare) + EffSum(ds[1..], minShare)
  }

  function ShareSum(ds: seq<real>, minShare: real, L: real): real {
    if ds == [] then 0.0 else Share(ds[0], minShare, L) + ShareSum(ds[1..], minShare, L)
  }

  // ---------- sums do not depend on order ----------

  function Without(ds: seq<real>, i: nat): seq<real>
    requires i < |ds|
  {
    ds[..i] + ds[i + 1..]
  }

  lemma {:induction false} SumsWithout(ds: seq<real>, i: nat, m: real, L: real)
    requires i < |ds|
    ensures EffSum(ds, m) == Eff(ds[i], m) + EffSum(Without(ds, i), m)
    ensures ShareSum(ds, m, L) == Share(ds[i], m, L) + ShareSum(Without(ds, i), m, L)
  {
    if i == 0 {
      assert Without(ds, 0) == ds[1..];
    } else {
      SumsWithout(ds[1..], i - 1, m, L);
      assert Without(ds, i)[0] == ds[0] && Without(ds, i)[1..] == Without(ds[1..], i - 1);
    }
  }

  lemma RestsAgree(ds: seq<real>, es: seq<real>, i: nat)
    requires ds != [] && i < |es| && ds[0] == es[i] && multiset(ds) == multiset(es)
    ensures multiset(ds[1..]) == multiset(Without(es, i))
  {
    var l, r := es[..i], es[i + 1..];
    assert es == l + ([es[i]] + r);
    assert ds == [ds[0]] + ds[1..];
    var x := multiset{ds[0]};
    assert multiset(ds) == x + multiset(ds[1..]) && multiset(es) == x + multiset(Without(es, i));
    assert multiset(ds[1..]) == multiset(ds) - x && multiset(Without(es, i)) == multiset(es) - x;
  }

  lemma {:induction false} SumsOfPermutation(ds: seq<real>, es: seq<real>, m: real, L: real)
    requires multiset(ds) == multiset(es)
    ensures EffSum(ds, m) == EffSum(es, m) && ShareSum(ds, m, L) == ShareSum(es, m, L)
    decreases |ds|
  {
    if ds == [] {
      assert |multiset(es)| == 0;
    } else {
      assert ds[0] in multiset(es);
      var i :| 0 <= i < |es| && es[i] == ds[0];
      RestsAgree(ds, es, i);
      SumsWithout(es, i, m, L);
      SumsOfPermutation(ds[1..], Without(es, i), m, L);
    }
  }

  // ---------- filling demands in ascending order ----------

  predicate Ascending(ds: seq<real>) {
    |ds| >= 2 ==> ds[0] <= ds[1] && Ascending(ds[1..])
  }

  /** One share after another from what remains, split evenly over those left. */
  function Fill(ds: seq<real>, remain: real, minShare: real): (shares: seq<real>)
    ensures |shares| == |ds|
  {
    if ds == [] then []
    else
      var s := MinR(Eff(ds[0], minShare), remain / |ds| as real);
      [s] + Fill(ds[1..], remain - s, minShare)
  }

  function Level(ds: seq<real>, remain: real, minShare: real): real
    requires ds != []
  {
    var e, fair := Eff(ds[0], minShare), remain / |ds| as real;
    if e >= fair then fair
    else if |ds| == 1 then e
    else Level(ds[1..], remain - e, minShare)
  }

  /** Giving e away leaves the others a fair share no smaller than before if e is no larger than it. */
  lemma FairShareRises(remain: real, n: nat, e: real)
    requires n >= 2 && e <= remain / n as real
    ensures (remain - e) / (n - 1) as real >= remain / n as real
    ensures e == remain / n as real ==> (remain - e) / (n - 1) as real == remain / n as real
  {
    var fair := remain / n as real;
    assert remain == fair * n as real;
    assert remain - e == fair * (n - 1) as real + (fair - e);
  }

  lemma {:induction false} FillIsLevel(ds: seq<real>, remain: real, m: real)
    requires ds != [] && Ascending(ds)
    ensures var L := Level(ds, remain, m);
      && L >= MinR(Eff(ds[0], m), remain / |ds| as real)
      && (Eff(ds[0], m) >= remain / |ds| as real ==> L == remain / |ds| as real)
      && (forall j :: 0 <= j < |ds| ==> Fill(ds, remain, m)[j] == Share(ds[j], m, L))
    decreases |ds|
  {
    var e, fair, L := Eff(ds[0], m), remain / |ds| as real, Level(ds, remain, m);
    var s := MinR(e, fair);
    var rest := Fill(ds[1..], remain - s, m);
    assert Fill(ds, remain, m) == [s] + rest;
    if |ds| >= 2 {
      FairShareRises(remain, |ds|, s);
      FillIsLevel(ds[1..], remain - s, m);
      assert Level(ds[1..], remain - s, m) == L;
      forall j | 1 <= j < |ds|
        ensures Fill(ds, remain, m)[j] == Share(ds[j], m, L)
      {
        assert rest[j - 1] == Share(ds[1..][j - 1], m, L);
      }
    }
  }

  /** n times x, as a sum. */
  function Times(x: real, n: nat): real {
    if n == 0 then 0.0 else x + Times(x, n - 1)
  }

  lemma {:induction false} TimesIsProduct(x: real, n: nat)
    ensures Times(x, n) == x * n as real
  {
    if n > 0 {
      TimesIsProduct(x, n - 1);
      assert x * n as real == x + x * (n - 1) as real;
    }
  }

  lemma {:induction false} TimesOrdered(x: real, y: real, n: nat)
    ensures x <= y ==> Times(x, n) <= Times(y, n)
    ensures x < y && n > 0 ==> Times(x, n) < Times(y, n)
  {
    if n > 0 {
      TimesOrdered(x, y, n - 1);
    }
  }

  lemma EvenSplit(total: real, n: nat, x: real)
    requires n > 0
    ensures total == Times(total / n as real, n)
    ensures total == Times(x, n) <==> total / n as real == x
    ensures total <= Times(x, n) <==> total / n as real <= x
    ensures Times(x, n) <= total <==> x <= total / n as real
  {
    var y := total / n as real;
    TimesIsProduct(y, n);
    assert total == y * n as real;
    TimesOrdered(x, y, n);
    TimesOrdered(y, x, n);
  }

  /** From the first demand above the fair share on, everyone gets that share. */
  lemma {:induction false} FillFlat(ds: seq<real>, remain: real, fair: real, m: real)
    requires ds != [] && Ascending(ds) && Eff(ds[0], m) >= fair && remain == Times(fair, |ds|)
    ensures Sum(Fill(ds, remain, m)) == remain
    ensures EffSum(ds, m) >= remain
    decreases |ds|
  {
    EvenSplit(remain, |ds|, fair);
    var rest := Fill(ds[1..], remain - fair, m);
    assert ([fair] + rest)[1..] == rest;
    if |ds| >= 2 {
      FillFlat(ds[1..], remain - fair, fair, m);
    }
  }

  /** Everything is given out, or everyone is satisfied. */
  lemma {:induction false} FillSpends(ds: seq<real>, remain: real, m: real)
    requires ds != [] && Ascending(ds)
    ensures Sum(Fill(ds, remain, m)) == MinR(remain, EffSum(ds, m))
    decreases |ds|
  {
    var e, fair := Eff(ds[0], m), remain / |ds| as real;
    if e >= fair {
      EvenSplit(remain, |ds|, fair);
      FillFlat(ds, remain, fair, m);
    } else {
      var rest := Fill(ds[1..], remain - e, m);
      assert ([e] + rest)[1..] == rest;
      if |ds| >= 2 {
        FillSpends(ds[1..], remain - e, m);
      }
    }
  }

  // ---------- the shares of a list of demands ----------

  /** One level for all, and as much given out as there is or as is wanted. */
  ghost predicate Watered(shares: seq<real>, ds: seq<real>, total: real, minShare: real) {
    && |shares| == |ds|
    && (exists L :: AtLevel(shares, ds, minShare, L))
    && Sum(shares) == MinR(total, EffSum(ds, minShare))
  }

  ghost predicate AtLevel(shares: seq<real>, ds: seq<real>, minShare: real, L: real)
    requires |shares| == |ds|
  {
    forall i :: 0 <= i < |ds| ==> shares[i] == Share(ds[i], minShare, L)
  }

  lemma {:induction false} LevelSum(shares: seq<real>, ds: seq<real>, m: real, L: real)
    requires |shares| == |ds| && AtLevel(shares, ds, m, L)
    ensures Sum(shares) == ShareSum(ds, m, L)
  {
    if ds != [] {
      LevelSum(shares[1..], ds[1..], m, L);
    }
  }

  lemma {:induction false} LevelsOrdered(ds: seq<real>, m: real, L: real, K: real)
    requires L <= K
    ensures ShareSum(ds, m, L) <= ShareSum(ds, m, K) <= EffSum(ds, m)
    ensures ShareSum(ds, m, L) == ShareSum(ds, m, K) ==>
      forall i :: 0 <= i < |ds| ==> Share(ds[i], m, L) == Share(ds[i], m, K)
    ensures ShareSum(ds, m, K) == EffSum(ds, m) ==> forall i :: 0 <= i < |ds| ==> Share(ds[i], m, K) == Eff(ds[i], m)
  {
    if ds != [] {
      LevelsOrdered(ds[1..], m, L, K);
      assert forall i :: 1 <= i < |ds| ==> ds[i] == ds[1..][i - 1];
    }
  }

  /** The two lists of demands add up to the same at every level. */
  ghost predicate SameSums(ds: seq<real>, es: seq<real>, m: real) {
    EffSum(ds, m) == EffSum(es, m) && forall L :: ShareSum(ds, m, L) == ShareSum(es, m, L)
  }

  lemma SharesFollowSums(a: seq<real>, ds: seq<real>, b: seq<real>, es: seq<real>, total: real, m: real, i: nat, j: nat)
    requires SameSums(ds, es, m) && Watered(a, ds, total, m) && Watered(b, es, total, m)
    requires i < |ds| && j < |es| && ds[i] == es[j]
    ensures a[i] == b[j]
  {
    var L :| AtLevel(a, ds, m, L);
    var K :| AtLevel(b, es, m, K);
    LevelSum(a, ds, m, L);
    LevelSum(b, es, m, K);
    assert ShareSum(ds, m, K) == ShareSum(es, m, K);
    if L <= K {
      LevelsOrdered(ds, m, L, K);
    } else {
      LevelsOrdered(ds, m, K, L);
    }
  }

  /** Equal demands in any two orderings of the same list get equal shares; so the shares are unique. */
  lemma SharesIgnoreOrder(a: seq<real>, ds: seq<real>, b: seq<real>, es: seq<real>, total: real, m: real, i: nat,
                          j: nat)
    requires multiset(ds) == multiset(es) && Watered(a, ds, total, m) && Watered(b, es, total, m)
    requires i < |ds| && j < |es| && ds[i] == es[j]
    ensures a[i] == b[j]
  {
    forall L
      ensures ShareSum(ds, m, L) == ShareSum(es, m, L) && EffSum(ds, m) == EffSum(es, m)
    {
      SumsOfPermutation(ds, es, m, L);
    }
    SumsOfPermutation(ds, es, m, 0.0);
    SharesFollowSums(a, ds, b, es, total, m, i, j);
  }

  lemma {:induction false} SomeLess(x: seq<real>, y: seq<real>, i: nat) returns (j: nat)
    requires |x| == |y| && i < |x| && Sum(x) <= Sum(y) && x[i] > y[i]
    ensures j < |x| && x[j] < y[j]
  {
    if x[0] < y[0] {
      j := 0;
    } else if i == 0 {
      j := SomeLessSum(x[1..], y[1..]);
      j := j + 1;
    } else {
      j := SomeLess(x[1..], y[1..], i - 1);
      j := j + 1;
    }
  }

  lemma {:induction false} SomeLessSum(x: seq<real>, y: seq<real>) returns (j: nat)
    requires |x| == |y| && Sum(x) < Sum(y)
    ensures j < |x| && x[j] < y[j]
  {
    if x[0] < y[0] {
      j := 0;
    } else {
      j := SomeLessSum(x[1..], y[1..]);
      j := j + 1;
    }
  }

  /**
   * Max-min fairness: whoever got more under another allocation within the demands and the total took it
   * from someone who had no more than he had.
   */
  lemma MaxMinFair(shares: seq<real>, ds: seq<real>, total: real, m: real, other: seq<real>, i: nat)
    requires Watered(shares, ds, total, m) && |other| == |ds| && i < |ds|
    requires Sum(other) <= total && forall k :: 0 <= k < |ds| ==> other[k] <= Eff(ds[k], m)
    requires other[i] > shares[i]
    ensures exists j :: 0 <= j < |ds| && other[j] < shares[j] <= shares[i]
  {
    var L :| AtLevel(shares, ds, m, L);
    LevelSum(shares, ds, m, L);
    LevelsOrdered(ds, m, L, L);
    assert other[i] <= Eff(ds[i], m);
    var j := SomeLess(other, shares, i);
    assert shares[i] == L;
  }

  lemma {:induction false} SumBounds(xs: seq<real>, lo: real)
    requires forall i :: 0 <= i < |xs| ==> xs[i] >= lo
    ensures Sum(xs) >= Times(lo, |xs|)
  {
    if xs != [] {
      SumBounds(xs[1..], lo);
    }
  }

  lemma {:induction false} SumCapped(xs: seq<real>, hi: real)
    requires forall i :: 0 <= i < |xs| ==> xs[i] <= hi
    ensures Sum(xs) <= Times(hi, |xs|)
  {
    if xs != [] {
      SumCapped(xs[1..], hi);
    }
  }

  lemma WaterLevel(shares: seq<real>, ds: seq<real>, total: real, m: real) returns (L: real)
    requires Watered(shares, ds, total, m) && ds != []
    ensures AtLevel(shares, ds, m, L)
    ensures L >= total / |ds| as real || forall i :: 0 <= i < |ds| ==> shares[i] == Eff(ds[i], m)
  {
    L :| AtLevel(shares, ds, m, L);
    LevelSum(shares, ds, m, L);
    LevelsOrdered(ds, m, L, L);
    if Sum(shares) == total {
      SumCapped(shares, L);
      EvenSplit(total, |ds|, L);
    }
  }

  /**
   * Every peer gets at least the smaller of the guaranteed rate and an even split; and all get the
   * guaranteed rate exactly when the total holds it for all of them.
   */
  lemma GuaranteedRate(shares: seq<real>, ds: seq<real>, total: real, m: real)
    requires Watered(shares, ds, total, m) && ds != []
    ensures forall i :: 0 <= i < |ds| ==> shares[i] >= MinR(m, total / |ds| as real)
    ensures (forall i :: 0 <= i < |ds| ==> shares[i] >= m) <==> total / |ds| as real >= m
  {
    var L := WaterLevel(shares, ds, total, m);
    EvenSplit(total, |ds|, m);
    if forall i :: 0 <= i < |ds| ==> shares[i] >= m {
      SumBounds(shares, m);
    }
  }

  /** Two peers on a relay that holds the guaranteed rate only once get half of it each. */
  lemma GuaranteeCanFail()
    ensures Watered([0.5, 0.5], [1.0, 1.0], 1.0, 1.0) && 0.5 < 1.0
  {
    assert [0.5, 0.5][1..] == [0.5] && [0.5][1..] == [];
    assert [1.0, 1.0][1..] == [1.0] && [1.0][1..] == [];
    assert AtLevel([0.5, 0.5], [1.0, 1.0], 1.0, 0.5);
  }

  /** A peer that had to wait, and so asks for the total, gets the largest share and at least an even split. */
  lemma ThrottledGetMost(shares: seq<real>, ds: seq<real>, total: real, m: real, i: nat)
    requires Watered(shares, ds, total, m) && total >= 0.0 && m >= 0.0
    requires i < |ds| && ds[i] >= total
    ensures shares[i] >= total / |ds| as real
    ensures forall j :: 0 <= j < |ds| ==> shares[j] <= shares[i]
  {
    var L := WaterLevel(shares, ds, total, m);
    EvenSplit(total, |ds|, total);
    TimesAtLeast(total, |ds|);
    if L < 0.0 {
      SumCapped(shares, L);
      TimesNegative(L, |ds|);
      EffsNonNegative(ds, m);
    }
    forall j | 0 <= j < |ds|
      ensures shares[j] <= shares[i]
    {
      if shares[j] > shares[i] {
        TwoOfMany(shares, i, j);
      }
    }
  }

  lemma {:induction false} TimesAtLeast(x: real, n: nat)
    requires x >= 0.0 && n > 0
    ensures Times(x, n) >= x
  {
    if n > 1 {
      TimesAtLeast(x, n - 1);
    }
  }

  lemma {:induction false} TimesNegative(x: real, n: nat)
    requires x < 0.0
    ensures Times(x, n) <= 0.0 && (n > 0 ==> Times(x, n) < 0.0)
  {
    if n > 0 {
      TimesNegative(x, n - 1);
    }
  }

  lemma {:induction false} EffsNonNegative(ds: seq<real>, m: real)
    requires m >= 0.0
    ensures EffSum(ds, m) >= 0.0
  {
    if ds != [] {
      EffsNonNegative(ds[1..], m);
    }
  }

  lemma {:induction false} TwoOfMany(xs: seq<real>, i: nat, j: nat)
    requires i < |xs| && j < |xs| && i != j && forall k :: 0 <= k < |xs| ==> xs[k] >= 0.0
    ensures Sum(xs) >= xs[i] + xs[j]
  {
    if i == 0 {
      OneOfMany(xs[1..], j - 1);
    } else if j == 0 {
      OneOfMany(xs[1..], i - 1);
    } else {
      TwoOfMany(xs[1..], i - 1, j - 1);
    }
  }

  lemma {:induction false} OneOfMany(xs: seq<real>, i: nat)
    requires i < |xs| && forall k :: 0 <= k < |xs| ==> xs[k] >= 0.0
    ensures Sum(xs) >= xs[i]
  {
    if i > 0 {
      OneOfMany(xs[1..], i - 1);
    } else {
      SumNonNegative(xs[1..]);
    }
  }

  lemma {:induction false} SumNonNegative(xs: seq<real>)
    requires forall k :: 0 <= k < |xs| ==> xs[k] >= 0.0
    ensures Sum(xs) >= 0.0
  {
    if xs != [] {
      SumNonNegative(xs[1..]);
    }
  }

  // ---------- progressiveFill ----------

  predicate InRange(order: seq<nat>, n: nat) {
    order != [] ==> order[0] < n && InRange(order[1..], n)
  }

  function Gather(ds: seq<real>, order: seq<nat>): (r: seq<real>)
    requires InRange(order, |ds|)
    ensures |r| == |order|
  {
    if order == [] then [] else [ds[order[0]]] + Gather(ds, order[1..])
  }

  /** Puts index i where its demand belongs. */
  function PutIndex(order: seq<nat>, i: nat, ds: seq<real>): (r: seq<nat>)
    requires i < |ds| && InRange(order, |ds|)
    ensures InRange(r, |ds|) && |r| == |order| + 1
  {
    if order == [] || ds[i] < ds[order[0]] then [i] + order else [order[0]] + PutIndex(order[1..], i, ds)
  }

  /** The first n indices, in ascending order of demand: what the library's sort leaves. */
  function SortIndices(n: nat, ds: seq<real>): (r: seq<nat>)
    requires n <= |ds|
    ensures InRange(r, |ds|) && |r| == n
  {
    if n == 0 then [] else PutIndex(SortIndices(n - 1, ds), n - 1, ds)
  }

  ghost predicate Distinct<T>(xs: seq<T>) {
    xs != [] ==> xs[0] !in xs[1..] && Distinct(xs[1..])
  }

  lemma {:induction false} PutIndexMembers(order: seq<nat>, i: nat, ds: seq<real>)
    requires i < |ds| && InRange(order, |ds|)
    ensures forall k :: k in PutIndex(order, i, ds) <==> k in order || k == i
    ensures Distinct(order) && i !in order ==> Distinct(PutIndex(order, i, ds))
  {
    if order == [] || ds[i] < ds[order[0]] {
      assert ([i] + order)[1..] == order;
    } else {
      var t := PutIndex(order[1..], i, ds);
      PutIndexMembers(order[1..], i, ds);
      assert ([order[0]] + t)[1..] == t;
      assert forall k :: k in order <==> k == order[0] || k in order[1..];
    }
  }

  lemma {:induction false} PutIndexSums(order: seq<nat>, i: nat, ds: seq<real>, m: real, L: real)
    requires i < |ds| && InRange(order, |ds|)
    ensures var g, h := Gather(ds, order), Gather(ds, PutIndex(order, i, ds));
      EffSum(h, m) == EffSum(g, m) + Eff(ds[i], m) && ShareSum(h, m, L) == ShareSum(g, m, L) + Share(ds[i], m, L)
  {
    if order == [] || ds[i] < ds[order[0]] {
      assert ([i] + order)[1..] == order;
      assert ([ds[i]] + Gather(ds, order))[1..] == Gather(ds, order);
    } else {
      var t := PutIndex(order[1..], i, ds);
      PutIndexSums(order[1..], i, ds, m, L);
      assert ([order[0]] + t)[1..] == t;
      assert ([ds[order[0]]] + Gather(ds, t))[1..] == Gather(ds, t);
      assert Gather(ds, order)[1..] == Gather(ds, order[1..]);
    }
  }

  lemma {:induction false} PutIndexSorts(order: seq<nat>, i: nat, ds: seq<real>)
    requires i < |ds| && InRange(order, |ds|) && Ascending(Gather(ds, order))
    ensures var g := Gather(ds, PutIndex(order, i, ds));
      Ascending(g) && (g[0] == ds[i] || (order != [] && g[0] == ds[order[0]]))
  {
    if order == [] || ds[i] < ds[order[0]] {
      assert ([i] + order)[1..] == order;
      assert ([ds[i]] + Gather(ds, order))[1..] == Gather(ds, order);
    } else {
      var t := PutIndex(order[1..], i, ds);
      assert Gather(ds, order)[1..] == Gather(ds, order[1..]);
      PutIndexSorts(order[1..], i, ds);
      assert ([order[0]] + t)[1..] == t;
      assert ([ds[order[0]]] + Gather(ds, t))[1..] == Gather(ds, t);
    }
  }

  lemma {:induction false} IndicesAreAll(n: nat, ds: seq<real>)
    requires n <= |ds|
    ensures (forall k: nat :: k in SortIndices(n, ds) <==> k < n) && Distinct(SortIndices(n, ds))
  {
    if n > 0 {
      IndicesAreAll(n - 1, ds);
      PutIndexMembers(SortIndices(n - 1, ds), n - 1, ds);
    }
  }

  lemma {:induction false} IndicesSum(n: nat, ds: seq<real>, m: real, L: real)
    requires n <= |ds|
    ensures var g := Gather(ds, SortIndices(n, ds));
      EffSum(g, m) == EffSum(ds[..n], m) && ShareSum(g, m, L) == ShareSum(ds[..n], m, L)
  {
    if n > 0 {
      IndicesSum(n - 1, ds, m, L);
      PutIndexSums(SortIndices(n - 1, ds), n - 1, ds, m, L);
      SumsWithout(ds[..n], n - 1, m, L);
      assert Without(ds[..n], n - 1) == ds[..n - 1];
    }
  }

  lemma {:induction false} IndicesAreSorted(n: nat, ds: seq<real>)
    requires n <= |ds|
    ensures Ascending(Gather(ds, SortIndices(n, ds)))
  {
    if n > 0 {
      IndicesAreSorted(n - 1, ds);
      PutIndexSorts(SortIndices(n - 1, ds), n - 1, ds);
    }
  }

  lemma {:induction false} GatherAt(ds: seq<real>, order: seq<nat>, j: nat)
    requires InRange(order, |ds|) && j < |order|
    ensures order[j] < |ds| && Gather(ds, order)[j] == ds[order[j]]
  {
    if j > 0 {
      GatherAt(ds, order[1..], j - 1);
    }
  }

  lemma {:induction false} DistinctAt<T>(xs: seq<T>, i: nat, j: nat)
    requires Distinct(xs) && i < j < |xs|
    ensures xs[i] != xs[j]
  {
    if i == 0 {
      assert xs[j] in xs[1..];
    } else {
      DistinctAt(xs[1..], i - 1, j - 1);
    }
  }

  /** The shares stand where the order says. */
  ghost predicate Placed(shares: seq<real>, order: seq<nat>, dealt: seq<real>) {
    && |dealt| <= |order|
    && forall j :: 0 <= j < |dealt| ==> order[j] < |shares| && shares[order[j]] == dealt[j]
  }

  /** Shares dealt in sorted order are watered in the order of the demands. */
  lemma DealtIsWatered(shares: seq<real>, ds: seq<real>, total: real, m: real)
    requires |shares| == |ds| > 0
    requires var order := SortIndices(|ds|, ds); Placed(shares, order, Fill(Gather(ds, order), total, m))
    ensures Watered(shares, ds, total, m)
  {
    var order := SortIndices(|ds|, ds);
    var es := Gather(ds, order);
    var L := Level(es, total, m);
    IndicesAreAll(|ds|, ds);
    IndicesAreSorted(|ds|, ds);
    FillIsLevel(es, total, m);
    FillSpends(es, total, m);
    forall i | 0 <= i < |ds|
      ensures shares[i] == Share(ds[i], m, L)
    {
      assert i in order;
      var j :| 0 <= j < |order| && order[j] == i;
      GatherAt(ds, order, j);
    }
    assert ds[..|ds|] == ds;
    IndicesSum(|ds|, ds, m, L);
    assert AtLevel(shares, ds, m, L) && AtLevel(Fill(es, total, m), es, m, L);
    LevelSum(shares, ds, m, L);
    LevelSum(Fill(es, total, m), es, m, L);
  }

  lemma FillStep(es: seq<real>, k: nat, left: nat, remain: real, m: real, dealt: seq<real>, all: seq<real>)
    requires k < |es| && left == |es| - k && all == dealt + Fill(es[k..], remain, m)
    ensures var s := MinR(Eff(es[k], m), remain / left as real);
      all == dealt + [s] + Fill(es[k + 1..], remain - s, m)
  {
    assert es[k..][1..] == es[k + 1..];
  }

  lemma PlaceOne(shares: seq<real>, order: seq<nat>, dealt: seq<real>, s: real)
    requires Placed(shares, order, dealt) && Distinct(order) && |dealt| < |order| && order[|dealt|] < |shares|
    ensures Placed(shares[order[|dealt|] := s], order, dealt + [s])
  {
    var k := |dealt|;
    forall j | 0 <= j < k
      ensures order[j] != order[k]
    {
      DistinctAt(order, j, k);
    }
  }

  method NextShare(demand: real, remain: real, left: nat, minShare: real) returns (share: real)
    requires left > 0
    ensures share == MinR(Eff(demand, minShare), remain / left as real)
  {
    var d := demand;
    if d < minShare {
      d := minShare;
    }
    share := remain / left as real;
    if d < share {
      share := d;
    }
  }

  method ProgressiveFill(demands: seq<real>, total: real, minShare: real) returns (shares: array<real>)
    requires total >= 0.0
    ensures fresh(shares) && Watered(shares[..], demands, total, minShare)
  {
    var n := |demands|;
    shares := new real[n];
    var idx := SortIndices(n, demands);
    IndicesAreAll(n, demands);
    ghost var es, dealt := Gather(demands, idx), [];
    ghost var all := Fill(es, total, minShare);
    assert es[0..] == es && [] + all == all;
    var remain, left: nat := total, n;
    for k := 0 to |idx|
      invariant left == n - k && |dealt| == k
      invariant Placed(shares[..], idx, dealt)
      invariant all == dealt + Fill(es[k..], remain, minShare)
    {
      GatherAt(demands, idx, k);
      var i := idx[k];
      var share := NextShare(demands[i], remain, left, minShare);
      FillStep(es, k, left, remain, minShare, dealt, all);
      PlaceOne(shares[..], idx, dealt, share);
      ghost var placed := shares[..][i := share];
      shares[i] := share;
      assert shares[..] == placed;
      dealt := dealt + [share];
      remain := remain - share;
      left := left - 1;
    }
    assert es[n..] == [] && dealt + [] == dealt;
    if n > 0 {
      DealtIsWatered(shares[..], demands, total, minShare);
    } else {
      assert AtLevel(shares[..], demands, minShare, 0.0);
    }
  }
}
