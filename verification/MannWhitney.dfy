/** The Mann-Whitney U statistic from tie-averaged ranks (experiments/statistical_significance.py). */
module MannWhitney {
  import opened Sums
  import opened Sorting
  import opened Numbers

  /** A pooled observation: its value, and whether it belongs to the treatment group. */
  datatype Obs = Obs(value: real, treated: bool)

  // ----- the pair count

  /** One for a greater value, one half for a tie. */
  function Beats(a: real, b: real): real
  {
    if a > b then 1.0 else if a == b then 0.5 else 0.0
  }

  ghost function BeatsOf(a: real): real -> real
  {
    b => Beats(a, b)
  }

  /** How much of ys the value a beats. */
  ghost function Wins(ys: seq<real>): real -> real
  {
    a => Sum(ys, BeatsOf(a))
  }

  /** The number of pairs in which the value from xs is greater, ties counting one half. */
  ghost function PairCount(xs: seq<real>, ys: seq<real>): real
  {
    Sum(xs, Wins(ys))
  }

  ghost function LosesTo(b: real): real -> real
  {
    a => Beats(a, b)
  }

  lemma {:induction false} PairCountSnoc(xs: seq<real>, ys: seq<real>, b: real)
    ensures PairCount(xs, ys + [b]) == PairCount(xs, ys) + Sum(xs, LosesTo(b))
    decreases |xs|
  {
    if xs != [] {
      var k := |xs| - 1;
      PairCountSnoc(xs[..k], ys, b);
      SumSnoc(ys, b, BeatsOf(xs[k]));
    }
  }

  lemma ComplementRow(xs: seq<real>, b: real)
    ensures Sum(xs, BeatsOf(b)) + Sum(xs, LosesTo(b)) == |xs| as real
  {
    var one: real -> real := a => 1.0;
    SumConst(xs, one, 1.0);
    SumLinear(xs, BeatsOf(b), LosesTo(b), one, 1.0, 1.0);
  }

  /** Every pair is won by one side or split. */
  lemma {:induction false} PairsAddUp(xs: seq<real>, ys: seq<real>)
    ensures PairCount(xs, ys) + PairCount(ys, xs) == (|xs| * |ys|) as real
    decreases |ys|
  {
    if ys == [] {
      SumConst(xs, Wins([]), 0.0);
    } else {
      var k := |ys| - 1;
      PairsAddUp(xs, ys[..k]);
      PairCountSnoc(xs, ys[..k], ys[k]);
      assert ys == ys[..k] + [ys[k]];
      ComplementRow(xs, ys[k]);
      assert |xs| * |ys| == |xs| * k + |xs|;
    }
  }

  lemma {:induction false} PairCountNonNegative(xs: seq<real>, ys: seq<real>)
    ensures PairCount(xs, ys) >= 0.0
  {
    var zero: real -> real := a => 0.0;
    SumConst(xs, zero, 0.0);
    forall a | a in xs ensures zero(a) <= Wins(ys)(a) {
      SumConst(ys, zero, 0.0);
      SumLe(ys, zero, BeatsOf(a));
    }
    SumLe(xs, zero, Wins(ys));
  }

  // ----- pooling

  function Tag(xs: seq<real>, treated: bool): seq<Obs>
  {
    seq(|xs|, i requires 0 <= i < |xs| => Obs(xs[i], treated))
  }

  ghost function ValueBeaten(a: real): Obs -> real
  {
    (o: Obs) => Beats(a, o.value)
  }

  lemma {:induction false} SumTagged(xs: seq<real>, treated: bool, f: Obs -> real, g: real -> real)
    requires forall x :: f(Obs(x, treated)) == g(x)
    ensures Sum(Tag(xs, treated), f) == Sum(xs, g)
    decreases |xs|
  {
    if xs != [] {
      var k := |xs| - 1;
      SumTagged(xs[..k], treated, f, g);
      assert Tag(xs, treated) == Tag(xs[..k], treated) + [Obs(xs[k], treated)];
      SumSnoc(Tag(xs[..k], treated), Obs(xs[k], treated), f);
    }
  }

  ghost predicate Pools(pooled: seq<Obs>, treatment: seq<real>, control: seq<real>)
  {
    multiset(pooled) == multiset(Tag(treatment, true) + Tag(control, false))
  }

  /** In the pooled sample a beats what it beats in the two groups. */
  lemma PooledWins(pooled: seq<Obs>, treatment: seq<real>, control: seq<real>, a: real)
    requires Pools(pooled, treatment, control)
    ensures Sum(pooled, ValueBeaten(a)) == Wins(treatment)(a) + Wins(control)(a)
  {
    var ts, cs := Tag(treatment, true), Tag(control, false);
    SumPermutation(pooled, ts + cs, ValueBeaten(a));
    SumConcat(ts, cs, ValueBeaten(a));
    SumTagged(treatment, true, ValueBeaten(a), BeatsOf(a));
    SumTagged(control, false, ValueBeaten(a), BeatsOf(a));
  }

  // ----- ranks

  /** The tie-averaged rank of the value a in the pooled sample. */
  ghost function Rank(pooled: seq<Obs>, a: real): real
  {
    Sum(pooled, ValueBeaten(a)) + 0.5
  }

  ghost function TreatedRank(pooled: seq<Obs>): Obs -> real
  {
    (o: Obs) => if o.treated then Rank(pooled, o.value) else 0.0
  }

  ghost function RankOf(pooled: seq<Obs>): real -> real
  {
    a => Rank(pooled, a)
  }

  ghost function Half(): real -> real { x => 0.5 }

  lemma OnlyTreatedCount(pooled: seq<Obs>, treatment: seq<real>, control: seq<real>)
    requires Pools(pooled, treatment, control)
    ensures Sum(pooled, TreatedRank(pooled)) == Sum(treatment, RankOf(pooled))
  {
    var ts, cs, f := Tag(treatment, true), Tag(control, false), TreatedRank(pooled);
    var zero: real -> real := x => 0.0;
    SumPermutation(pooled, ts + cs, f);
    SumConcat(ts, cs, f);
    SumTagged(treatment, true, f, RankOf(pooled));
    SumTagged(control, false, f, zero);
    SumConst(control, zero, 0.0);
  }

  lemma RanksAreWins(pooled: seq<Obs>, treatment: seq<real>, control: seq<real>)
    requires Pools(pooled, treatment, control)
    ensures Sum(treatment, RankOf(pooled))
         == PairCount(treatment, treatment) + PairCount(treatment, control) + |treatment| as real * 0.5
  {
    hide *;
    SplitSum(pooled, treatment, control);
    BothAddUp(treatment, control);
    HalvesAddUp(treatment);
  }

  lemma HalvesAddUp(xs: seq<real>)
    ensures Sum(xs, Half()) == |xs| as real * 0.5
  {
    hide Sum;
    SumConst(xs, Half(), 0.5);
  }

  lemma SplitSum(pooled: seq<Obs>, treatment: seq<real>, control: seq<real>)
    requires Pools(pooled, treatment, control)
    ensures Sum(treatment, RankOf(pooled)) == Sum(treatment, Both(treatment, control)) + Sum(treatment, Half())
  {
    hide Sum;
    forall a ensures RankOf(pooled)(a) == 1.0 * Both(treatment, control)(a) + 1.0 * Half()(a) {
      PooledWins(pooled, treatment, control, a);
    }
    SumLinear(treatment, Both(treatment, control), Half(), RankOf(pooled), 1.0, 1.0);
  }

  ghost function Both(treatment: seq<real>, control: seq<real>): real -> real
  {
    a => Wins(treatment)(a) + Wins(control)(a)
  }

  lemma BothAddUp(treatment: seq<real>, control: seq<real>)
    ensures Sum(treatment, Both(treatment, control)) == PairCount(treatment, treatment) + PairCount(treatment, control)
  {
    hide Sum;
    SumLinear(treatment, Wins(treatment), Wins(control), Both(treatment, control), 1.0, 1.0);
  }

  function LeastRankSum(n: nat): real
  {
    n as real * (n as real + 1.0) / 2.0
  }

  /** The rank sum of the treatment group exceeds its least possible value by the pair count. */
  lemma RankSum(pooled: seq<Obs>, treatment: seq<real>, control: seq<real>)
    requires Pools(pooled, treatment, control)
    ensures Sum(pooled, TreatedRank(pooled)) == LeastRankSum(|treatment|) + PairCount(treatment, control)
  {
    OnlyTreatedCount(pooled, treatment, control);
    RanksAreWins(pooled, treatment, control);
    PairsAddUp(treatment, treatment);
    Halves(|treatment|, PairCount(treatment, treatment));
    hide Sum, PairCount, LeastRankSum;
  }

  lemma Halves(n: nat, p: real)
    requires p + p == (n * n) as real
    ensures p + n as real * 0.5 == LeastRankSum(n)
  {
    assert (n * n) as real == n as real * n as real;
  }

  /** In a sorted sample the tie group i..j has the average rank (i + j) / 2 + 1. */
  lemma TieRank(pooled: seq<Obs>, i: nat, j: nat, a: real)
    requires i <= j < |pooled|
    requires forall k :: 0 <= k < i ==> pooled[k].value < a
    requires forall k :: i <= k <= j ==> pooled[k].value == a
    requires forall k :: j < k < |pooled| ==> pooled[k].value > a
    ensures Rank(pooled, a) == (i + j) as real / 2.0 + 1.0
  {
    hide Sum;
    var xs, ys, zs := pooled[..i], pooled[i..j + 1], pooled[j + 1..];
    assert pooled == xs + (ys + zs);
    SumConcat(xs, ys + zs, ValueBeaten(a));
    SumConcat(ys, zs, ValueBeaten(a));
    BeatenBlock(xs, a, 1.0);
    BeatenBlock(ys, a, 0.5);
    BeatenBlock(zs, a, 0.0);
  }

  lemma BeatenBlock(block: seq<Obs>, a: real, each: real)
    requires forall k :: 0 <= k < |block| ==> Beats(a, block[k].value) == each
    ensures Sum(block, ValueBeaten(a)) == |block| as real * each
  {
    SumConst(block, ValueBeaten(a), each);
  }

  function ByValue(o: Obs): real { o.value }

  /** The nested loops that fill the ranks array, tie group by tie group. */
  method FillRanks(pooled: seq<Obs>, ranks: array<real>)
    requires SortedBy(pooled, ByValue) && ranks.Length == |pooled|
    modifies ranks
    ensures forall k :: 0 <= k < |pooled| ==> ranks[k] == Rank(pooled, pooled[k].value)
  {
    var i := 0;
    while i < |pooled|
      invariant 0 <= i <= |pooled|
      invariant forall k :: 0 <= k < i ==> ranks[k] == Rank(pooled, pooled[k].value)
      invariant 0 < i < |pooled| ==> pooled[i - 1].value < pooled[i].value
    {
      var j := i;
      while j + 1 < |pooled| && pooled[j + 1].value == pooled[i].value
        invariant i <= j < |pooled|
        invariant forall k :: i <= k <= j ==> pooled[k].value == pooled[i].value
      {
        j := j + 1;
      }
      var avgRank := (i + j) as real / 2.0 + 1.0;
      Sorted(pooled, i, j);
      TieRank(pooled, i, j, pooled[i].value);
      hide Rank;
      for k := i to j + 1
        invariant forall m :: 0 <= m < i ==> ranks[m] == Rank(pooled, pooled[m].value)
        invariant forall m :: i <= m < k ==> ranks[m] == avgRank
      {
        ranks[k] := avgRank;
      }
      i := j + 1;
    }
  }

  /** Around a tie group of a sorted sample everything is smaller before and greater behind. */
  lemma Sorted(pooled: seq<Obs>, i: nat, j: nat)
    requires SortedBy(pooled, ByValue) && i <= j < |pooled|
    requires i > 0 ==> pooled[i - 1].value < pooled[i].value
    requires pooled[j].value == pooled[i].value
    requires j + 1 < |pooled| ==> pooled[j + 1].value != pooled[i].value
    ensures forall k :: 0 <= k < i ==> pooled[k].value < pooled[i].value
    ensures forall k :: j < k < |pooled| ==> pooled[k].value > pooled[i].value
  {
    forall k | 0 <= k < i ensures pooled[k].value < pooled[i].value {
      assert k < i - 1 ==> ByValue(pooled[k]) <= ByValue(pooled[i - 1]);
    }
    forall k | j < k < |pooled| ensures pooled[k].value > pooled[i].value {
      assert ByValue(pooled[j]) <= ByValue(pooled[j + 1]);
      assert j + 1 < k ==> ByValue(pooled[j + 1]) <= ByValue(pooled[k]);
    }
  }

  method SumTreated(pooled: seq<Obs>, ranks: array<real>) returns (r1: real)
    requires ranks.Length == |pooled|
    requires forall k :: 0 <= k < |pooled| ==> ranks[k] == Rank(pooled, pooled[k].value)
    ensures r1 == Sum(pooled, TreatedRank(pooled))
  {
    r1 := 0.0;
    for k := 0 to |pooled|
      invariant r1 == Sum(pooled[..k], TreatedRank(pooled))
    {
      SumTake(pooled, k, TreatedRank(pooled));
      if pooled[k].treated {
        r1 := r1 + ranks[k];
      }
    }
    assert pooled[..|pooled|] == pooled;
  }

  /** The statistic: the smaller of the two groups' pair counts. */
  ghost function U(xs: seq<real>, ys: seq<real>): real
  {
    Min(PairCount(xs, ys), PairCount(ys, xs))
  }

  /** _mannwhitney_normal, with the square root and the normal distribution left open. */
  method Test(control: seq<real>, treatment: seq<real>, sqrt: real -> real, cdf: real -> real)
    returns (u: real, p: real)
    ensures u == U(treatment, control)
    ensures p == PValue(|treatment|, |control|, u, sqrt, cdf)
  {
    hide Sum, Rank, TreatedRank, SortedBy, SortBy, PairCount, PValue;
    var n1, n2 := |treatment|, |control|;
    var combined := Tag(treatment, true) + Tag(control, false);
    var pooled := SortBy(combined, ByValue);
    SortByKeeps(combined, ByValue);
    SortBySorted(combined, ByValue);
    assert |pooled| == |multiset(pooled)| == |combined|;
    var ranks := new real[|pooled|](_ => 0.0);
    FillRanks(pooled, ranks);
    var r1 := SumTreated(pooled, ranks);
    RankSum(pooled, treatment, control);
    PairsAddUp(treatment, control);
    var u1 := r1 - LeastRankSum(n1);
    hide LeastRankSum;
    u := Min(u1, (n1 * n2) as real - u1);
    p := PValue(n1, n2, u, sqrt, cdf);
  }

  /** The mean and the variance of the statistic that the approximation takes. */
  function Mean(n1: nat, n2: nat): real
  {
    (n1 * n2) as real / 2.0
  }

  function Variance(n1: nat, n2: nat): real
  {
    n1 as real * n2 as real * (n1 + n2 + 1) as real / 12.0
  }

  /** The p-value that the normal approximation gives for u. */
  function PValue(n1: nat, n2: nat, u: real, sqrt: real -> real, cdf: real -> real): real
  {
    var sigma := sqrt(Variance(n1, n2));
    if sigma == 0.0 then 1.0 else Clamp(2.0 * cdf((u - Mean(n1, n2)) / sigma))
  }

  function Clamp(p: real): real
  {
    Min(1.0, if p > 0.0 then p else 0.0)
  }

  /** The statistic does not depend on which group is called treatment, and lies between zero and
      half the number of pairs, so that z is never positive. */
  lemma StatisticBounds(xs: seq<real>, ys: seq<real>, sigma: real)
    ensures U(xs, ys) == U(ys, xs)
    ensures 0.0 <= U(xs, ys) <= (|xs| * |ys|) as real / 2.0
    ensures sigma > 0.0 ==> (U(xs, ys) - (|xs| * |ys|) as real / 2.0) / sigma <= 0.0
  {
    PairsAddUp(xs, ys);
    PairCountNonNegative(xs, ys);
    PairCountNonNegative(ys, xs);
    hide Sum, PairCount;
    if sigma > 0.0 {
      Quotient(U(xs, ys) - (|xs| * |ys|) as real / 2.0, sigma);
    }
  }

  lemma Quotient(x: real, s: real)
    requires s > 0.0 && x <= 0.0
    ensures x / s <= 0.0
  {
  }

  /** With a distribution function that is at most one half on the left, the clamp never acts. */
  lemma ClampIsIdle(xs: seq<real>, ys: seq<real>, sigma: real, cdf: real -> real)
    requires sigma > 0.0 && forall z :: z <= 0.0 ==> 0.0 <= cdf(z) <= 0.5
    ensures var p := 2.0 * cdf((U(xs, ys) - (|xs| * |ys|) as real / 2.0) / sigma); Clamp(p) == p
  {
    StatisticBounds(xs, ys, sigma);
  }

  /** A p-value lies between zero and one, and is one when a group is empty. */
  lemma PValueRange(n1: nat, n2: nat, u: real, sqrt: real -> real, cdf: real -> real)
    ensures 0.0 <= PValue(n1, n2, u, sqrt, cdf) <= 1.0
    ensures sqrt(0.0) == 0.0 && (n1 == 0 || n2 == 0) ==> PValue(n1, n2, u, sqrt, cdf) == 1.0
  {
  }

  /** For a symmetric distribution the p-value is the probability of both tails: of a deviation from the
      mean at least as great as that of the statistic, to either side. */
  lemma PValueIsBothTails(xs: seq<real>, ys: seq<real>, sqrt: real -> real, cdf: real -> real)
    requires (forall z :: cdf(z) + cdf(-z) == 1.0) && forall z :: z <= 0.0 ==> 0.0 <= cdf(z) <= 0.5
    requires sqrt(Variance(|xs|, |ys|)) > 0.0
    ensures var z := (U(xs, ys) - Mean(|xs|, |ys|)) / sqrt(Variance(|xs|, |ys|));
      z <= 0.0 && PValue(|xs|, |ys|, U(xs, ys), sqrt, cdf) == cdf(z) + (1.0 - cdf(-z))
  {
    hide Variance, U;
    var sigma := sqrt(Variance(|xs|, |ys|));
    ClampIsIdle(xs, ys, sigma, cdf);
    StatisticBounds(xs, ys, sigma);
  }
}
