/** The portfolio allocation without cvxpy (decision_engine/optimizer.py): inverse-variance weights,
    then a floor and renormalisation. */
module Optimizer {
  import opened Sums
  import opened Numbers

  ghost function Id(): real -> real { x => x }

  ghost function Total(xs: seq<real>): real
  {
    Sum(xs, Id())
  }

  method Add(xs: seq<real>) returns (total: real)
    ensures total == Total(xs)
  {
    total := 0.0;
    for i := 0 to |xs|
      invariant total == Total(xs[..i])
    {
      SumTake(xs, i, Id());
      total := total + xs[i];
    }
    assert xs[..|xs|] == xs;
  }

  /** sum(xs) or 1.0 */
  function OrOne(total: real): real { if total == 0.0 then 1.0 else total }

  function Scaled(xs: seq<real>, total: real): seq<real>
    requires total != 0.0
  {
    seq(|xs|, i requires 0 <= i < |xs| => xs[i] / total)
  }

  /** The tilt of one candidate: its positive return over its variance, kept above zero. */
  function Tilt(ret: real, variance: real): (t: real)
    ensures t > 0.0
  {
    var v := if variance > 0.0 then variance else 0.000001;
    Ratio(Max(ret, 0.0), v);
    Max(ret, 0.0) / v + 0.000000001
  }

  lemma Ratio(x: real, y: real)
    requires x >= 0.0 && y > 0.0
    ensures x / y >= 0.0
  {
  }

  // ----- scaling by a positive total

  lemma {:induction false} ScaledTotal(xs: seq<real>, t: real)
    requires t != 0.0
    ensures Total(Scaled(xs, t)) == Total(xs) / t
    decreases |xs|
  {
    if xs != [] {
      var k := |xs| - 1;
      ScaledTotal(xs[..k], t);
      assert Scaled(xs, t) == Scaled(xs[..k], t) + [xs[k] / t];
      SumSnoc(Scaled(xs[..k], t), xs[k] / t, Id());
      assert Total(xs) / t == Total(xs[..k]) / t + xs[k] / t;
    }
  }

  lemma QuotientOrder(x: real, y: real, t: real)
    requires t > 0.0
    ensures x <= y <==> x / t <= y / t
  {
    assert x / t * t == x && y / t * t == y;
    TimesOrder(x / t, y / t, t);
  }

  ghost predicate AllPositive(xs: seq<real>)
  {
    forall i :: 0 <= i < |xs| ==> xs[i] > 0.0
  }

  ghost predicate SameOrder(xs: seq<real>, ys: seq<real>)
  {
    |xs| == |ys| && forall i, j :: 0 <= i < |xs| && 0 <= j < |xs| && xs[i] <= xs[j] ==> ys[i] <= ys[j]
  }

  lemma {:induction false} TotalPositive(xs: seq<real>)
    requires AllPositive(xs) && xs != []
    ensures Total(xs) > 0.0
    decreases |xs|
  {
    if |xs| > 1 {
      TotalPositive(xs[..|xs| - 1]);
    } else {
      assert xs[..|xs| - 1] == [] && Total([]) == 0.0;
      assert Total(xs) == Total([]) + xs[0];
    }
  }

  /** Dividing positive weights by their total makes them add up to one and keeps their order. */
  lemma Normalised(xs: seq<real>)
    requires AllPositive(xs) && xs != []
    ensures Total(xs) > 0.0
    ensures Total(Scaled(xs, Total(xs))) == 1.0 && AllPositive(Scaled(xs, Total(xs)))
      && SameOrder(xs, Scaled(xs, Total(xs)))
  {
    TotalPositive(xs);
    var t := Total(xs);
    ScaledTotal(xs, t);
    assert t / t == 1.0;
    hide Total;
    forall i | 0 <= i < |xs| ensures Scaled(xs, t)[i] > 0.0 {
      QuotientOrder(xs[i], 0.0, t);
    }
    forall i, j | 0 <= i < |xs| && 0 <= j < |xs| && xs[i] <= xs[j] ensures Scaled(xs, t)[i] <= Scaled(xs, t)[j] {
      QuotientOrder(xs[i], xs[j], t);
    }
  }

  // ----- the floor

  function Clamped(wMin: real, ws: seq<real>): seq<real>
  {
    seq(|ws|, i requires 0 <= i < |ws| => Max(wMin, ws[i]))
  }

  ghost function Times(k: nat, x: real): real { k as real * x }

  lemma OneMore(k: nat, x: real)
    ensures Times(k + 1, x) == Times(k, x) + x
  {
  }

  /** Clamping adds at most w_min per weight; where the weight is above w_min it adds nothing. */
  lemma {:induction false} ClampedTotal(wMin: real, ws: seq<real>)
    requires 0.0 < wMin && AllPositive(ws)
    ensures Total(Clamped(wMin, ws)) <= Total(ws) + Times(|ws|, wMin) - Min(wMin, Total(ws))
    ensures Total(Clamped(wMin, ws)) >= Total(ws) >= 0.0
    decreases |ws|
  {
    if ws == [] {
      assert Clamped(wMin, ws) == [];
    } else {
      hide Times;
      var k := |ws| - 1;
      ClampedTotal(wMin, ws[..k]);
      assert Clamped(wMin, ws) == Clamped(wMin, ws[..k]) + [Max(wMin, ws[k])];
      SumSnoc(Clamped(wMin, ws[..k]), Max(wMin, ws[k]), Id());
      OneMore(k, wMin);
    }
  }

  /** Clamping raises the total exactly when some weight is below the minimum. */
  lemma {:induction false} ClampedRaises(wMin: real, ws: seq<real>)
    ensures Total(Clamped(wMin, ws)) >= Total(ws)
    ensures Total(Clamped(wMin, ws)) == Total(ws) <==> forall i :: 0 <= i < |ws| ==> ws[i] >= wMin
    decreases |ws|
  {
    if ws == [] {
      assert Clamped(wMin, ws) == [];
    } else {
      var k := |ws| - 1;
      ClampedRaises(wMin, ws[..k]);
      assert Clamped(wMin, ws) == Clamped(wMin, ws[..k]) + [Max(wMin, ws[k])];
      SumSnoc(Clamped(wMin, ws[..k]), Max(wMin, ws[k]), Id());
    }
  }

  /** _apply_min_and_renormalize on weights that are positive. */
  ghost function Floored(wMin: real, ws: seq<real>): seq<real>
    requires Total(Clamped(wMin, ws)) != 0.0
  {
    Scaled(Clamped(wMin, ws), Total(Clamped(wMin, ws)))
  }

  /** Allocation weights: positive, adding up to one. */
  ghost predicate Allocation(ws: seq<real>)
  {
    ws != [] && AllPositive(ws) && Total(ws) == 1.0
  }

  lemma ClampedPositive(wMin: real, ws: seq<real>)
    requires Allocation(ws)
    ensures AllPositive(Clamped(wMin, ws)) && SameOrder(ws, Clamped(wMin, ws))
    ensures Total(Clamped(wMin, ws)) > 0.0
  {
    TotalPositive(Clamped(wMin, ws));
  }

  /** The least share that renormalising can leave of the minimum, among n weights. */
  function LeastWeight(wMin: real, n: nat): real
    requires 0.0 < wMin && n > 0
  {
    LeastShare(wMin, (n - 1) as real)
  }

  function LeastShare(w: real, m: real): real
    requires 0.0 < w && m >= 0.0
  {
    assert w * m >= 0.0;
    w / (w * m + 1.0)
  }

  /** What the renormalised weights can be relied on for: they add up to one, keep the order, and none
      falls below w_min / (1 + (n - 1) * w_min). */
  lemma FloorBound(wMin: real, ws: seq<real>)
    requires 0.0 < wMin <= 1.0 && Allocation(ws)
    ensures Total(Clamped(wMin, ws)) > 0.0
    ensures Allocation(Floored(wMin, ws)) && SameOrder(ws, Floored(wMin, ws))
    ensures forall i :: 0 <= i < |ws| ==> Floored(wMin, ws)[i] >= LeastWeight(wMin, |ws|)
  {
    ClampedPositive(wMin, ws);
    Normalised(Clamped(wMin, ws));
    ClampedTotal(wMin, ws);
    hide Total, AllPositive, SameOrder, Scaled;
    var t := Total(Clamped(wMin, ws));
    assert wMin * (|ws| - 1) as real == |ws| as real * wMin - wMin;
    assert 0.0 < t <= wMin * (|ws| - 1) as real + 1.0;
    EachAbove(wMin, ws, t);
  }

  lemma EachAbove(wMin: real, ws: seq<real>, t: real)
    requires 0.0 < wMin && 0.0 < t <= wMin * (|ws| - 1) as real + 1.0 && ws != []
    ensures forall i :: 0 <= i < |ws| ==> Scaled(Clamped(wMin, ws), t)[i] >= LeastWeight(wMin, |ws|)
  {
    forall i | 0 <= i < |ws| ensures Scaled(Clamped(wMin, ws), t)[i] >= LeastWeight(wMin, |ws|) {
      FloorOne(wMin, Clamped(wMin, ws)[i], t, wMin * (|ws| - 1) as real + 1.0);
    }
  }

  lemma FloorOne(wMin: real, c: real, t: real, bound: real)
    requires 0.0 < wMin <= c && 0.0 < t <= bound
    ensures c / t >= wMin / bound
  {
    var x, y := c / t, wMin / bound;
    assert x * t == c && y * bound == wMin;
    assert y > 0.0;
    assert y * t <= y * bound;
    TimesOrder(y, x, t);
  }

  // ----- minimums above one

  lemma {:induction false} EachAtMostTotal(ws: seq<real>, i: nat)
    requires AllPositive(ws) && i < |ws|
    ensures ws[i] <= Total(ws)
    decreases |ws|
  {
    var k := |ws| - 1;
    if i < k {
      EachAtMostTotal(ws[..k], i);
    } else if k > 0 {
      TotalPositive(ws[..k]);
    } else {
      assert ws[..k] == [] && Total([]) == 0.0;
    }
  }

  /** A minimum of one or more makes all weights equal. */
  lemma AllEqual(wMin: real, ws: seq<real>)
    requires wMin >= 1.0 && Allocation(ws)
    ensures Total(Clamped(wMin, ws)) > 0.0
    ensures forall i :: 0 <= i < |ws| ==> Floored(wMin, ws)[i] == 1.0 / |ws| as real
  {
    ClampedPositive(wMin, ws);
    forall i | 0 <= i < |ws| ensures Clamped(wMin, ws)[i] == wMin {
      EachAtMostTotal(ws, i);
    }
    hide Sum, AllPositive, SameOrder, Total;
    EqualShares(wMin, Clamped(wMin, ws));
  }

  lemma EqualShares(w: real, xs: seq<real>)
    requires w > 0.0 && xs != [] && (forall i :: 0 <= i < |xs| ==> xs[i] == w) && Total(xs) > 0.0
    ensures forall i :: 0 <= i < |xs| ==> Scaled(xs, Total(xs))[i] == 1.0 / |xs| as real
  {
    SumConst(xs, Id(), w);
    hide Sum;
    ShareOfEqual(w, |xs| as real);
  }

  lemma ShareOfEqual(w: real, n: real)
    requires w > 0.0 && n > 0.0
    ensures n * w > 0.0 && w / (n * w) == 1.0 / n
  {
    assert n * w > 0.0;
    Reassociate(1.0 / n, n, w);
    QuotientIs(w, n * w, 1.0 / n);
  }

  lemma QuotientIs(x: real, t: real, r: real)
    requires t > 0.0 && r * t == x
    ensures x / t == r
  {
    var q := x / t;
    assert q * t == x;
    TimesOrder(q, r, t);
    TimesOrder(r, q, t);
  }

  lemma Reassociate(r: real, n: real, w: real)
    requires n > 0.0 && r == 1.0 / n
    ensures r * (n * w) == w
  {
    assert r * n == 1.0;
    assert r * (n * w) == (r * n) * w;
  }

  /** The least weight for any positive minimum. */
  function BestFloor(wMin: real, n: nat): real
    requires 0.0 < wMin && n > 0
  {
    LeastWeight(Min(wMin, 1.0), n)
  }

  lemma FloorHolds(wMin: real, ws: seq<real>)
    requires 0.0 < wMin && Allocation(ws)
    ensures Total(Clamped(wMin, ws)) > 0.0
    ensures forall i :: 0 <= i < |ws| ==> Floored(wMin, ws)[i] >= BestFloor(wMin, |ws|)
  {
    if wMin <= 1.0 {
      FloorBound(wMin, ws);
    } else {
      AllEqual(wMin, ws);
      LeastOfOne(|ws|);
    }
  }

  lemma LeastOfOne(n: nat)
    requires n > 0
    ensures LeastWeight(1.0, n) == 1.0 / n as real
  {
    assert 1.0 * (n - 1) as real + 1.0 == n as real;
  }

  // ----- the floor is the best one

  /** One weight close to one and n - 1 weights of e. */
  ghost function Skewed(n: nat, e: real): seq<real>
    requires n > 0
  {
    [1.0 - (n - 1) as real * e] + seq(n - 1, _ => e)
  }

  lemma SkewedIsAllocation(n: nat, e: real)
    requires n > 0 && 0.0 < e && (n - 1) as real * e < 1.0
    ensures Allocation(Skewed(n, e)) && |Skewed(n, e)| == n
  {
    var rest := seq(n - 1, _ => e);
    SumConst(rest, Id(), e);
    SumConcat([1.0 - (n - 1) as real * e], rest, Id());
    SumSnoc([], 1.0 - (n - 1) as real * e, Id());
    assert [] + [1.0 - (n - 1) as real * e] == [1.0 - (n - 1) as real * e];
  }

  /** What such weights at least add up to after clamping, with m weights of e. */
  ghost function SkewTotal(m: real, e: real, w: real): real
  {
    1.0 - m * e + m * w
  }

  lemma SkewedClamped(wMin: real, n: nat, e: real)
    requires n > 1 && 0.0 < e <= wMin
    ensures Total(Clamped(wMin, Skewed(n, e))) >= SkewTotal((n - 1) as real, e, wMin)
  {
    var first := Max(wMin, 1.0 - (n - 1) as real * e);
    var rest := seq(n - 1, _ => wMin);
    assert Clamped(wMin, Skewed(n, e)) == [first] + rest;
    SumConst(rest, Id(), wMin);
    SumConcat([first], rest, Id());
    SumSnoc([], first, Id());
    assert [] + [first] == [first];
  }

  lemma OverBound(w: real, bound: real, c: real)
    requires 0.0 < w && 0.0 < bound && c > w / bound
    ensures c > 0.0 && c * bound > w
  {
    SmallQuotients(w, bound);
    assert w / bound * bound == w;
    TimesOrder(c, w / bound, bound);
  }

  /** How small e has to be for the other weights to end below c. */
  lemma Smaller(w: real, m: real, c: real) returns (e: real)
    requires 0.0 < w && m > 0.0 && c > LeastShare(w, m)
    ensures 0.0 < c && 0.0 < e <= w && m * e < 1.0
    ensures c * SkewTotal(m, e, w) > w
  {
    OverBound(w, w * m + 1.0, c);
    var cm, all := c * m, c * (w * m + 1.0);
    assert cm > 0.0;
    var gap := all - w;
    SmallQuotients(gap, cm);
    SmallQuotients(1.0, m);
    e := Min(w, Min(1.0 / m, gap / cm)) / 2.0;
    HalfBelow(e, 1.0, m);
    HalfBelow(e, gap, cm);
    Expand(c, m, e, w);
  }

  lemma HalfBelow(e: real, q: real, m: real)
    requires m > 0.0 && 0.0 < e && e < q / m
    ensures m * e < q
  {
    assert q / m * m == q;
    TimesOrder(q / m, e, m);
  }

  lemma Expand(c: real, m: real, e: real, w: real)
    ensures c * (1.0 - m * e + m * w) == c * (w * m + 1.0) - (c * m) * e
  {
  }

  lemma SmallQuotients(gap: real, m: real)
    requires gap > 0.0 && m > 0.0
    ensures gap / m > 0.0
  {
  }

  lemma SkewedFalls(wMin: real, n: nat, e: real, c: real)
    requires n > 1 && 0.0 < e <= wMin && (n - 1) as real * e < 1.0
    requires 0.0 < c && c * SkewTotal((n - 1) as real, e, wMin) > wMin
    ensures Allocation(Skewed(n, e)) && |Skewed(n, e)| == n && Total(Clamped(wMin, Skewed(n, e))) > 0.0
    ensures Floored(wMin, Skewed(n, e))[1] < c
  {
    var ws := Skewed(n, e);
    SkewedIsAllocation(n, e);
    ClampedPositive(wMin, ws);
    SkewedClamped(wMin, n, e);
    assert Clamped(wMin, ws)[1] == wMin;
    hide *;
    BelowQuotient(wMin, Total(Clamped(wMin, ws)), SkewTotal((n - 1) as real, e, wMin), c);
    ScaledAt(Clamped(wMin, ws), Total(Clamped(wMin, ws)), 1);
    FlooredIs(wMin, ws);
  }

  lemma ScaledAt(xs: seq<real>, t: real, i: nat)
    requires t != 0.0 && i < |xs|
    ensures |Scaled(xs, t)| == |xs| && Scaled(xs, t)[i] == xs[i] / t
  {
  }

  lemma FlooredIs(wMin: real, ws: seq<real>)
    requires Total(Clamped(wMin, ws)) != 0.0
    ensures Floored(wMin, ws) == Scaled(Clamped(wMin, ws), Total(Clamped(wMin, ws)))
  {
  }

  lemma FindSkew(wMin: real, n: nat, c: real) returns (e: real)
    requires 0.0 < wMin && n > 1 && c > LeastWeight(wMin, n)
    ensures 0.0 < c && 0.0 < e <= wMin && (n - 1) as real * e < 1.0
    ensures c * SkewTotal((n - 1) as real, e, wMin) > wMin
  {
    e := Smaller(wMin, (n - 1) as real, c);
  }

  /** No constant above the floor is a floor: some allocation ends with a weight below it. */
  lemma FloorIsBest(wMin: real, n: nat, c: real) returns (ws: seq<real>)
    requires 0.0 < wMin <= 1.0 && n > 1 && c > LeastWeight(wMin, n)
    ensures Allocation(ws) && |ws| == n && Total(Clamped(wMin, ws)) > 0.0
    ensures Floored(wMin, ws)[1] < c
  {
    var e := FindSkew(wMin, n, c);
    hide *;
    SkewedFalls(wMin, n, e, c);
    ws := Skewed(n, e);
  }

  lemma BelowQuotient(w: real, t: real, bound: real, c: real)
    requires 0.0 < w && 0.0 < c && 0.0 < t && bound <= t && c * bound > w
    ensures w / t < c
  {
    var q := w / t;
    assert q * t == w;
    TimesOrder(bound, t, c);
    TimesOrder(c, q, t);
  }

  /** The greatest constant that every renormalised allocation of n weights stays above. */
  lemma FloorIsExact(wMin: real, n: nat, c: real)
    requires 0.0 < wMin <= 1.0 && n > 1
    ensures (forall ws :: Allocation(ws) && |ws| == n && Total(Clamped(wMin, ws)) > 0.0 ==>
              forall i :: 0 <= i < n ==> Floored(wMin, ws)[i] >= c)
       <==> c <= LeastWeight(wMin, n)
  {
    hide Total, Allocation;
    if c <= LeastWeight(wMin, n) {
      forall ws, i | Allocation(ws) && |ws| == n && Total(Clamped(wMin, ws)) > 0.0 && 0 <= i < n
        ensures Floored(wMin, ws)[i] >= c
      {
        FloorBound(wMin, ws);
      }
    } else {
      var ws := FloorIsBest(wMin, n, c);
    }
  }

  // ----- the documented floor

  ghost predicate AllAtLeast(ws: seq<real>, w: real)
  {
    forall i :: 0 <= i < |ws| ==> ws[i] >= w
  }

  /** The documented floor, every weight at least w_min, holds exactly when no weight had to be raised. */
  lemma DocumentedFloor(wMin: real, ws: seq<real>)
    requires Allocation(ws)
    ensures Total(Clamped(wMin, ws)) > 0.0
    ensures AllAtLeast(Floored(wMin, ws), wMin) <==> AllAtLeast(ws, wMin)
  {
    ClampedPositive(wMin, ws);
    ClampedRaises(wMin, ws);
    var t := Total(Clamped(wMin, ws));
    hide Total;
    if AllAtLeast(ws, wMin) {
      assert forall i :: 0 <= i < |ws| ==> Floored(wMin, ws)[i] == ws[i] / 1.0;
    } else {
      var i :| 0 <= i < |ws| && ws[i] < wMin;
      assert Floored(wMin, ws)[i] == wMin / t && t > 1.0;
      BelowOne(wMin, t);
    }
  }

  lemma BelowOne(w: real, t: real)
    requires w > 0.0 && t > 1.0
    ensures w / t < w
  {
    var q := w / t;
    assert q * t == w;
    FactorBelow(w, t, q);
  }

  lemma FactorBelow(w: real, t: real, q: real)
    requires w > 0.0 && t > 1.0 && q * t == w
    ensures q < w
  {
    TimesOrder(1.0, t, w);
    TimesOrder(w, q, t);
    TimesOrder(t, 1.0, w);
  }

  // ----- the optimizer

  datatype Outcome = Weights(weights: seq<real>) | ValueError

  /** The inverse-variance weights, before normalisation. */
  function Tilts(rets: seq<real>, cov: seq<seq<real>>): (tilts: seq<real>)
    requires |cov| == |rets| && forall i :: 0 <= i < |cov| ==> i < |cov[i]|
    ensures |tilts| == |rets| && AllPositive(tilts)
  {
    seq(|rets|, i requires 0 <= i < |rets| => Tilt(rets[i], cov[i][i]))
  }

  lemma RatioOrder(x: real, y: real, s: real, t: real)
    requires 0.0 <= x <= y && 0.0 < t <= s
    ensures x / s <= y / t
  {
    var p, q := x / s, y / t;
    assert p * s == x && q * t == y;
    Ratio(x, s);
    assert p * t <= p * s;
    TimesOrder(p, q, t);
  }

  /** What a tilt has above the least one is the positive part of the return per unit of variance; a
      variance that is not positive counts as a millionth. */
  lemma TiltEarns(ret: real, variance: real)
    ensures variance > 0.0 ==> (Tilt(ret, variance) - 0.000000001) * variance == Max(ret, 0.0)
    ensures variance <= 0.0 ==> Tilt(ret, variance) == Tilt(ret, 0.000001)
  {
  }

  lemma CrossOrder(x: real, v: real, y: real, w: real)
    requires v > 0.0 && w > 0.0
    ensures x <= y <==> x * v * w <= y * w * v
  {
    assert x * v * w == x * (v * w) && y * w * v == y * (v * w);
    TimesOrder(x, y, v * w);
  }

  lemma TiltsByRatio(ret: real, v: real, other: real, w: real)
    requires v > 0.0 && w > 0.0
    ensures Tilt(ret, v) <= Tilt(other, w) <==> Max(ret, 0.0) * w <= Max(other, 0.0) * v
  {
    hide Tilt, Max;
    TiltEarns(ret, v);
    TiltEarns(other, w);
    CrossOrder(Tilt(ret, v) - 0.000000001, v, Tilt(other, w) - 0.000000001, w);
  }

  /** Of two candidates the one with the greater ratio of positive return to variance has the greater
      normalised weight, and equal ratios mean equal weights. */
  lemma RatioDecides(rets: seq<real>, cov: seq<seq<real>>, i: nat, j: nat)
    requires |cov| == |rets| && (forall k :: 0 <= k < |cov| ==> k < |cov[k]|) && i < |rets| && j < |rets|
    requires 0.0 < cov[i][i] && 0.0 < cov[j][j]
    ensures Total(Tilts(rets, cov)) > 0.0
    ensures var ws := Scaled(Tilts(rets, cov), Total(Tilts(rets, cov)));
      ws[i] <= ws[j] <==> Max(rets[i], 0.0) * cov[j][j] <= Max(rets[j], 0.0) * cov[i][i]
  {
    hide Total, Tilt, Max;
    var tilts := Tilts(rets, cov);
    TotalPositive(tilts);
    TiltsByRatio(rets[i], cov[i][i], rets[j], cov[j][j]);
    QuotientOrder(tilts[i], tilts[j], Total(tilts));
  }

  /** A candidate with at least the return of another and no more variance gets at least its weight. */
  lemma DominantGetsMore(rets: seq<real>, cov: seq<seq<real>>, ws: seq<real>, i: nat, j: nat)
    requires |cov| == |rets| && forall k :: 0 <= k < |cov| ==> k < |cov[k]|
    requires SameOrder(Tilts(rets, cov), ws) && i < |rets| && j < |rets|
    requires rets[i] <= rets[j] && 0.0 < cov[j][j] <= cov[i][i]
    ensures ws[i] <= ws[j]
  {
    RatioOrder(Max(rets[i], 0.0), Max(rets[j], 0.0), cov[i][i], cov[j][j]);
    assert Tilts(rets, cov)[i] <= Tilts(rets, cov)[j];
  }

  /** The weights that the tilts lead to. */
  ghost function Weighted(wMin: real, tilts: seq<real>): seq<real>
    requires AllPositive(tilts) && tilts != []
  {
    Normalised(tilts);
    ClampedPositive(wMin, Scaled(tilts, Total(tilts)));
    Floored(wMin, Scaled(tilts, Total(tilts)))
  }

  /** Two candidates with returns one and zero, uncorrelated with unit variance: at the default minimum
      of one percent the second one ends below it. */
  lemma DocumentedFloorFails()
    ensures var rets, cov := [1.0, 0.0], [[1.0, 0.0], [0.0, 1.0]];
      !AllAtLeast(Weighted(0.01, Tilts(rets, cov)), 0.01)
  {
    var rets, cov := [1.0, 0.0], [[1.0, 0.0], [0.0, 1.0]];
    var tilts := Tilts(rets, cov);
    assert tilts == [1.000000001, 0.000000001];
    Normalised(tilts);
    TotalOfTwo(1.000000001, 0.000000001);
    var ws := Scaled(tilts, Total(tilts));
    hide Total;
    assert ws[1] == 0.000000001 / 1.000000002;
    assert ws[1] < 0.01;
    DocumentedFloor(0.01, ws);
  }

  lemma TotalOfTwo(x: real, y: real)
    ensures Total([x, y]) == x + y
  {
    assert [x, y] == [x] + [y] && [] + [x] == [x];
    SumSnoc([x], y, Id());
    SumSnoc([], x, Id());
  }

  method Fallback(rets: seq<real>, cov: seq<seq<real>>) returns (ws: seq<real>)
    requires |cov| == |rets| > 0 && forall i :: 0 <= i < |cov| ==> i < |cov[i]|
    ensures Allocation(ws) && SameOrder(Tilts(rets, cov), ws)
    ensures Total(Tilts(rets, cov)) > 0.0 && ws == Scaled(Tilts(rets, cov), Total(Tilts(rets, cov)))
  {
    var inv := [];
    for i := 0 to |rets|
      invariant inv == Tilts(rets, cov)[..i]
    {
      inv := inv + [Tilt(rets[i], cov[i][i])];
    }
    assert inv == Tilts(rets, cov);
    Normalised(inv);
    var total := Add(inv);
    ws := Scaled(inv, OrOne(total));
  }

  /** _apply_min_and_renormalize on any weights; an allocation becomes one again, in the same order. */
  method ApplyMinAndRenormalize(wMin: real, ws: seq<real>) returns (out: seq<real>)
    ensures out == Scaled(Clamped(wMin, ws), OrOne(Total(Clamped(wMin, ws))))
    ensures if Total(Clamped(wMin, ws)) != 0.0 then Total(out) == 1.0 else out == Clamped(wMin, ws)
    ensures Allocation(ws) ==> Total(Clamped(wMin, ws)) > 0.0 && out == Floored(wMin, ws)
    ensures Allocation(ws) ==> Allocation(out) && SameOrder(ws, out)
  {
    var clamped := Clamped(wMin, ws);
    var total := Add(clamped);
    out := Scaled(clamped, OrOne(total));
    ScaledTotal(clamped, OrOne(total));
    assert total != 0.0 ==> total / total == 1.0;
    if Allocation(ws) {
      ClampedPositive(wMin, ws);
      Normalised(clamped);
    }
  }

  /** optimize without cvxpy. The weights add up to one, follow the order of the tilts, and stay above
      the bound that renormalising leaves of a positive minimum. They all reach the minimum itself, as
      documented, exactly when the normalised tilts do. */
  method Optimize(wMin: real, candidates: nat, rets: seq<real>, cov: seq<seq<real>>) returns (r: Outcome)
    requires candidates == |cov| == |rets| > 1 ==> forall i :: 0 <= i < |cov| ==> i < |cov[i]|
    ensures |rets| == 0 ==> r == Weights([])
    ensures |rets| > 0 ==> (r.ValueError? <==> candidates != |rets| || |cov| != |rets|)
    ensures |rets| > 0 && r.Weights? ==> |r.weights| == |rets| && Allocation(r.weights)
    ensures |rets| > 1 && r.Weights?
      ==> SameOrder(Tilts(rets, cov), r.weights) && r.weights == Weighted(wMin, Tilts(rets, cov))
    ensures |rets| > 0 && r.Weights? && 0.0 < wMin
      ==> forall i :: 0 <= i < |rets| ==> r.weights[i] >= BestFloor(wMin, |rets|)
    ensures |rets| > 1 && r.Weights? ==> Total(Tilts(rets, cov)) > 0.0
    ensures |rets| > 1 && r.Weights?
      ==> (AllAtLeast(r.weights, wMin) <==> AllAtLeast(Scaled(Tilts(rets, cov), Total(Tilts(rets, cov))), wMin))
    ensures |rets| == 1 && r.Weights? ==> r.weights == [1.0]
  {
    var n := |rets|;
    if n == 0 {
      return Weights([]);
    }
    if candidates != n || |cov| != n {
      return ValueError;
    }
    if n == 1 {
      assert Total([1.0]) == 1.0 by { assert [1.0][..0] == []; }
      assert wMin > 0.0 ==> BestFloor(wMin, 1) == Min(wMin, 1.0) / 1.0;
      return Weights([1.0]);
    }
    var weights := Fallback(rets, cov);
    if 0.0 < wMin {
      FloorHolds(wMin, weights);
    }
    DocumentedFloor(wMin, weights);
    hide Total, Allocation, Clamped, SameOrder, AllAtLeast;
    var out := ApplyMinAndRenormalize(wMin, weights);
    return Weights(out);
  }
}
