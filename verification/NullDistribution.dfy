/** Why the normal approximation of the Mann-Whitney statistic takes the mean and the variance it takes
    (experiments/statistical_significance.py): they are those of the pair count over all ways in which two
    groups without ties can be arranged. */
module NullDistribution {
  import opened Sums
  import opened MannWhitney
  import opened Numbers

  /** The groups of a sorted sample without ties: true where an observation belongs to the treatment. */
  type Arrangement = seq<bool>

  function Count(arr: Arrangement, treated: bool): nat
  {
    if arr == [] then 0 else Count(arr[..|arr| - 1], treated) + (if arr[|arr| - 1] == treated then 1 else 0)
  }

  // ----- all arrangements

  ghost function ExtendAll(lists: seq<Arrangement>, last: bool): seq<Arrangement>
  {
    if lists == [] then [] else ExtendAll(lists[..|lists| - 1], last) + [lists[|lists| - 1] + [last]]
  }

  /** All arrangements of m treated and n control observations. */
  ghost function Arrangements(m: nat, n: nat): seq<Arrangement>
    decreases m + n
  {
    if m == 0 && n == 0 then
      [[]]
    else
      (if m > 0 then ExtendAll(Arrangements(m - 1, n), true) else [])
        + (if n > 0 then ExtendAll(Arrangements(m, n - 1), false) else [])
  }

  lemma {:induction false} ExtendMembers(lists: seq<Arrangement>, last: bool, arr: Arrangement)
    ensures arr in ExtendAll(lists, last) <==> arr != [] && arr[|arr| - 1] == last && arr[..|arr| - 1] in lists
    ensures |ExtendAll(lists, last)| == |lists|
    ensures forall i :: 0 <= i < |lists| ==> ExtendAll(lists, last)[i] == lists[i] + [last]
    decreases |lists|
  {
    if lists != [] {
      var k := |lists| - 1;
      ExtendMembers(lists[..k], last, arr);
      assert lists == lists[..k] + [lists[k]];
      assert arr == lists[k] + [last] <==> arr != [] && arr[|arr| - 1] == last && arr[..|arr| - 1] == lists[k];
    }
  }

  lemma Unfold(m: nat, n: nat)
    requires m > 0 || n > 0
    ensures Arrangements(m, n) == (if m > 0 then ExtendAll(Arrangements(m - 1, n), true) else [])
      + (if n > 0 then ExtendAll(Arrangements(m, n - 1), false) else [])
  {
  }

  lemma {:induction false} CountsAddUp(arr: Arrangement)
    ensures Count(arr, true) + Count(arr, false) == |arr|
    decreases |arr|
  {
    if arr != [] {
      CountsAddUp(arr[..|arr| - 1]);
    }
  }

  lemma CountSnoc(arr: Arrangement, last: bool, treated: bool)
    requires arr != [] && arr[|arr| - 1] == last
    ensures Count(arr, treated) == Count(arr[..|arr| - 1], treated) + (if last == treated then 1 else 0)
  {
  }

  lemma OnlyEmpty(arr: Arrangement)
    ensures arr in Arrangements(0, 0) <==> Count(arr, true) == 0 && Count(arr, false) == 0
  {
    CountsAddUp(arr);
  }

  /** The list holds exactly the arrangements with these numbers of observations. */
  lemma {:induction false} ArrangementsAreAll(m: nat, n: nat, arr: Arrangement)
    ensures arr in Arrangements(m, n) <==> Count(arr, true) == m && Count(arr, false) == n
    decreases m + n
  {
    hide Arrangements, ExtendAll, Count;
    if m == 0 && n == 0 {
      OnlyEmpty(arr);
    } else {
      Unfold(m, n);
      CountsAddUp(arr);
      if m > 0 {
        ExtendMembers(Arrangements(m - 1, n), true, arr);
      }
      if n > 0 {
        ExtendMembers(Arrangements(m, n - 1), false, arr);
      }
      if arr != [] {
        var last := arr[|arr| - 1];
        CountSnoc(arr, last, true);
        CountSnoc(arr, last, false);
        if m > 0 {
          ArrangementsAreAll(m - 1, n, arr[..|arr| - 1]);
        }
        if n > 0 {
          ArrangementsAreAll(m, n - 1, arr[..|arr| - 1]);
        }
      }
    }
  }

  ghost predicate AllEndIn(lists: seq<Arrangement>, last: bool)
  {
    forall i :: 0 <= i < |lists| ==> lists[i] != [] && lists[i][|lists[i]| - 1] == last
  }

  lemma ExtendDistinct(lists: seq<Arrangement>, last: bool)
    requires Distinct(lists)
    ensures Distinct(ExtendAll(lists, last))
    ensures AllEndIn(ExtendAll(lists, last), last)
  {
    ExtendMembers(lists, last, []);
    var all := ExtendAll(lists, last);
    hide ExtendAll;
    forall i, j | 0 <= i < j < |all| ensures all[i] != all[j] {
      assert all[i][..|lists[i]|] == lists[i] && all[j][..|lists[j]|] == lists[j];
    }
  }

  lemma OneIsDistinct()
    ensures Distinct(Arrangements(0, 0))
  {
  }

  /** And each of them once. */
  lemma {:induction false} ArrangementsAreDistinct(m: nat, n: nat)
    ensures Distinct(Arrangements(m, n))
    decreases m + n
  {
    hide Arrangements, ExtendAll, Distinct, AllEndIn;
    if m == 0 && n == 0 {
      OneIsDistinct();
    } else {
      Unfold(m, n);
      EmptyParts();
      if m > 0 {
        ArrangementsAreDistinct(m - 1, n);
        ExtendDistinct(Arrangements(m - 1, n), true);
      }
      if n > 0 {
        ArrangementsAreDistinct(m, n - 1);
        ExtendDistinct(Arrangements(m, n - 1), false);
      }
      DistinctParts(if m > 0 then ExtendAll(Arrangements(m - 1, n), true) else [],
                    if n > 0 then ExtendAll(Arrangements(m, n - 1), false) else []);
    }
  }

  lemma DistinctParts(a: seq<Arrangement>, b: seq<Arrangement>)
    requires Distinct(a) && Distinct(b)
    requires AllEndIn(a, true) && AllEndIn(b, false)
    ensures Distinct(a + b)
  {
    var all := a + b;
    forall i, j | 0 <= i < j < |all| ensures all[i] != all[j] {
      if i < |a| <= j {
        assert a[i][|a[i]| - 1] && !b[j - |a|][|b[j - |a|]| - 1];
      }
    }
  }

  lemma EmptyParts()
    ensures Distinct<Arrangement>([]) && AllEndIn([], true) && AllEndIn([], false)
  {
  }

  // ----- the statistic of an arrangement

  /** The positions of one group, which stand for its values. */
  ghost function Values(arr: Arrangement, treated: bool): seq<real>
  {
    if arr == [] then
      []
    else
      var k := |arr| - 1;
      Values(arr[..k], treated) + (if arr[k] == treated then [k as real] else [])
  }

  lemma {:induction false} ValuesBelow(arr: Arrangement, treated: bool)
    ensures |Values(arr, treated)| == Count(arr, treated)
    ensures forall x :: x in Values(arr, treated) ==> x < |arr| as real
    decreases |arr|
  {
    if arr != [] {
      ValuesBelow(arr[..|arr| - 1], treated);
    }
  }

  ghost function Statistic(arr: Arrangement): real
  {
    PairCount(Values(arr, true), Values(arr, false))
  }

  lemma ValuesSnoc(arr: Arrangement, last: bool)
    ensures Values(arr + [last], last) == Values(arr, last) + [|arr| as real]
    ensures Values(arr + [last], !last) == Values(arr, !last)
  {
    assert (arr + [last])[..|arr|] == arr;
    assert Values(arr, !last) + [] == Values(arr, !last);
  }

  /** A last observation that is treated beats all control observations. */
  lemma TreatedLast(arr: Arrangement)
    ensures Statistic(arr + [true]) == Statistic(arr) + Count(arr, false) as real
  {
    hide Values, Count, Sum;
    var xs, ys, a := Values(arr, true), Values(arr, false), |arr| as real;
    ValuesSnoc(arr, true);
    ValuesBelow(arr, false);
    SumSnoc(xs, a, Wins(ys));
    SumConst(ys, BeatsOf(a), 1.0);
  }

  /** One of the control group is beaten by none. */
  lemma ControlLast(arr: Arrangement)
    ensures Statistic(arr + [false]) == Statistic(arr)
  {
    hide Values, Count, Sum;
    var xs, ys, b := Values(arr, true), Values(arr, false), |arr| as real;
    ValuesSnoc(arr, false);
    ValuesBelow(arr, true);
    PairCountSnoc(xs, ys, b);
    SumConst(xs, LosesTo(b), 0.0);
  }

  // ----- the moments over all arrangements

  ghost function One(): Arrangement -> real { arr => 1.0 }

  ghost function First(): Arrangement -> real { arr => Statistic(arr) }

  ghost function Second(): Arrangement -> real { arr => Statistic(arr) * Statistic(arr) }

  ghost function Deviation(mean: real): Arrangement -> real
  {
    arr => (Statistic(arr) - mean) * (Statistic(arr) - mean)
  }

  ghost function Total(m: nat, n: nat, f: Arrangement -> real): real
  {
    Sum(Arrangements(m, n), f)
  }

  lemma {:induction false} SumExtended(lists: seq<Arrangement>, last: bool, f: Arrangement -> real,
                                       g: Arrangement -> real)
    requires forall arr :: arr in lists ==> f(arr + [last]) == g(arr)
    ensures Sum(ExtendAll(lists, last), f) == Sum(lists, g)
    decreases |lists|
  {
    if lists != [] {
      var k := |lists| - 1;
      assert lists[k] in lists && forall arr :: arr in lists[..k] ==> arr in lists;
      assert Sum(lists, g) == Sum(lists[..k], g) + g(lists[k]);
      assert ExtendAll(lists, last) == ExtendAll(lists[..k], last) + [lists[k] + [last]];
      hide Sum, ExtendAll;
      SumExtended(lists[..k], last, f, g);
      SumSnoc(ExtendAll(lists[..k], last), lists[k] + [last], f);
    }
  }

  /** The total over the arrangements that end with a treated observation, when f then is g. */
  lemma TotalSplits(m: nat, n: nat, f: Arrangement -> real, g: Arrangement -> real, h: Arrangement -> real)
    requires m > 0 || n > 0
    requires m > 0 ==> forall arr :: arr in Arrangements(m - 1, n) ==> f(arr + [true]) == g(arr)
    requires n > 0 ==> forall arr :: arr in Arrangements(m, n - 1) ==> f(arr + [false]) == h(arr)
    ensures Total(m, n, f) ==
      (if m > 0 then Total(m - 1, n, g) else 0.0) + (if n > 0 then Total(m, n - 1, h) else 0.0)
  {
    var a := if m > 0 then ExtendAll(Arrangements(m - 1, n), true) else [];
    var b := if n > 0 then ExtendAll(Arrangements(m, n - 1), false) else [];
    if m > 0 {
      SumExtended(Arrangements(m - 1, n), true, f, g);
    }
    if n > 0 {
      SumExtended(Arrangements(m, n - 1), false, f, h);
    }
    Unfold(m, n);
    SumConcat(a, b, f);
    assert Sum([], f) == 0.0;
  }

  lemma CountsSplit(m: nat, n: nat)
    requires m > 0 || n > 0
    ensures Total(m, n, One())
      == (if m > 0 then Total(m - 1, n, One()) else 0.0) + (if n > 0 then Total(m, n - 1, One()) else 0.0)
  {
    hide Sum, Total, Arrangements;
    TotalSplits(m, n, One(), One(), One());
  }

  /** The statistic after one more treated observation, when n control observations are there. */
  ghost function Shifted(n: real): Arrangement -> real { arr => Statistic(arr) + n }

  ghost function ShiftedSquare(n: real): Arrangement -> real
  {
    arr => (Statistic(arr) + n) * (Statistic(arr) + n)
  }

  lemma LastObservation(m: nat, n: nat)
    ensures m > 0 ==>
      forall arr :: arr in Arrangements(m - 1, n) ==> Statistic(arr + [true]) == Statistic(arr) + n as real
    ensures n > 0 ==> forall arr :: arr in Arrangements(m, n - 1) ==> Statistic(arr + [false]) == Statistic(arr)
  {
    hide Arrangements, Statistic;
    if m > 0 {
      forall arr | arr in Arrangements(m - 1, n) ensures Statistic(arr + [true]) == Statistic(arr) + n as real {
        ArrangementsAreAll(m - 1, n, arr);
        TreatedLast(arr);
      }
    }
    if n > 0 {
      forall arr | arr in Arrangements(m, n - 1) ensures Statistic(arr + [false]) == Statistic(arr) {
        ControlLast(arr);
      }
    }
  }

  lemma FirstSplits(m: nat, n: nat)
    requires m > 0 || n > 0
    ensures Total(m, n, First()) ==
      (if m > 0 then Total(m - 1, n, Shifted(n as real)) else 0.0)
        + (if n > 0 then Total(m, n - 1, First()) else 0.0)
  {
    hide Sum, Total, Arrangements, Statistic;
    LastObservation(m, n);
    TotalSplits(m, n, First(), Shifted(n as real), First());
  }

  lemma SecondSplits(m: nat, n: nat)
    requires m > 0 || n > 0
    ensures Total(m, n, Second()) ==
      (if m > 0 then Total(m - 1, n, ShiftedSquare(n as real)) else 0.0)
        + (if n > 0 then Total(m, n - 1, Second()) else 0.0)
  {
    hide Sum, Total, Arrangements, Statistic;
    LastObservation(m, n);
    TotalSplits(m, n, Second(), ShiftedSquare(n as real), Second());
  }

  ghost function Mixed(a: real): Arrangement -> real { arr => 2.0 * a * Statistic(arr) + a * a * 1.0 }

  lemma Square(x: real, a: real)
    ensures (x + a) * (x + a) == x * x + (2.0 * a * x + a * a)
  {
  }

  lemma ShiftedTotals(m: nat, n: nat, a: real)
    ensures Total(m, n, Shifted(a)) == Total(m, n, First()) + a * Total(m, n, One())
    ensures Total(m, n, ShiftedSquare(a))
      == Total(m, n, Second()) + 2.0 * a * Total(m, n, First()) + a * a * Total(m, n, One())
  {
    hide Sum, Arrangements, Statistic;
    var all := Arrangements(m, n);
    SumLinear(all, First(), One(), Shifted(a), 1.0, a);
    forall arr ensures ShiftedSquare(a)(arr) == 1.0 * Second()(arr) + 1.0 * Mixed(a)(arr) {
      Square(Statistic(arr), a);
    }
    SumLinear(all, Second(), Mixed(a), ShiftedSquare(a), 1.0, 1.0);
    SumLinear(all, First(), One(), Mixed(a), 2.0 * a, a * a);
  }

  // ----- how many arrangements there are

  ghost function Number(m: nat, n: nat): real
  {
    Total(m, n, One())
  }

  lemma NumberIsLength(m: nat, n: nat)
    ensures Number(m, n) == |Arrangements(m, n)| as real
  {
    hide Sum, Arrangements;
    SumConst(Arrangements(m, n), One(), 1.0);
  }

  lemma OneArrangement()
    ensures Number(0, 0) == 1.0 && Total(0, 0, First()) == 0.0 && Total(0, 0, Second()) == 0.0
  {
    var none: Arrangement := [];
    assert Arrangements(0, 0) == [none] && [none][..0] == [];
    assert Statistic([]) == 0.0;
  }

  /** The part of the arrangements that end with a treated observation. */
  lemma {:induction false} Shares(m: nat, n: nat)
    ensures m > 0 ==> (m + n) as real * Number(m - 1, n) == m as real * Number(m, n)
    ensures n > 0 ==> (m + n) as real * Number(m, n - 1) == n as real * Number(m, n)
    decreases m + n
  {
    hide Number;
    if m > 0 || n > 0 {
      NumberSplits(m, n);
      if m > 0 && n > 0 {
        Shares(m - 1, n);
        Shares(m, n - 1);
        ShareOf(m as real, n as real, Number(m - 1, n - 1), Number(m - 1, n), Number(m, n - 1), Number(m, n));
      }
    }
  }

  lemma NumberSplits(m: nat, n: nat)
    requires m > 0 || n > 0
    ensures Number(m, n) == (if m > 0 then Number(m - 1, n) else 0.0) + (if n > 0 then Number(m, n - 1) else 0.0)
  {
    hide Total, One;
    CountsSplit(m, n);
  }

  lemma ShareOf(m: real, n: real, both: real, fewerTreated: real, fewerControl: real, all: real)
    requires all == fewerTreated + fewerControl
    requires (m + n - 1.0) * both == n * fewerTreated && (m + n - 1.0) * both == m * fewerControl
    ensures (m + n) * fewerTreated == m * all && (m + n) * fewerControl == n * all
  {
    assert m * all == m * fewerTreated + m * fewerControl;
    assert n * all == n * fewerTreated + n * fewerControl;
  }

  // ----- mean and variance

  /** The mean of the squares that go with this mean and variance. */
  function MeanSquare(m: real, n: real): real
  {
    m * n * (m + n + 1.0) / 12.0 + m * n / 2.0 * (m * n / 2.0)
  }

  function MeanOf(m: real, n: real): real
  {
    m * n / 2.0
  }

  /** What the statistic is on average after one more treated observation. */
  function Risen(m: real, n: real): real
  {
    MeanOf(m - 1.0, n) + n
  }

  lemma MeansAverage(m: real, n: real)
    ensures m * Risen(m, n) + n * MeanOf(m, n - 1.0) == (m + n) * MeanOf(m, n)
  {
    assert m * ((m - 1.0) * n / 2.0 + n) == (m * m * n + m * n) / 2.0;
    assert n * (m * (n - 1.0) / 2.0) == (m * n * n - m * n) / 2.0;
  }

  /** What the square of the statistic is on average after one more treated observation. */
  function Grown(m: real, n: real): real
  {
    MeanSquare(m - 1.0, n) + 2.0 * n * ((m - 1.0) * n / 2.0) + n * n
  }

  function TreatedPart(m: real, n: real): real
  {
    (m - 1.0) * (m + n) + 3.0 * n * (m + 1.0) * (m + 1.0)
  }

  function ControlPart(m: real, n: real): real
  {
    m + n + 3.0 * m * (n - 1.0)
  }

  function Whole(m: real, n: real): real
  {
    m + n + 1.0 + 3.0 * m * n
  }

  lemma GrownIs(m: real, n: real)
    ensures 12.0 * Grown(m, n) == n * TreatedPart(m, n)
  {
    var k := m - 1.0;
    assert 12.0 * Grown(m, n) == k * n * (k + n + 1.0) + 3.0 * (k * n) * (k * n) + 12.0 * n * (k * n) + 12.0 * n * n;
    assert 3.0 * (k * n) * (k * n) == n * (3.0 * n * k * k);
    assert k * n * (k + n + 1.0) == n * (k * (m + n));
    assert 3.0 * n * (k + 2.0) * (k + 2.0) == 3.0 * n * k * k + 12.0 * n * k + 12.0 * n;
  }

  lemma MeanSquareIs(m: real, n: real)
    ensures 12.0 * MeanSquare(m, n) == m * n * Whole(m, n)
  {
    assert 3.0 * (m * n) * (m * n) == m * n * (3.0 * m * n);
  }

  lemma ControlPartIs(m: real, n: real)
    ensures Whole(m, n - 1.0) == ControlPart(m, n)
  {
  }

  lemma PartsAddUp(m: real, n: real)
    ensures TreatedPart(m, n) + (n - 1.0) * ControlPart(m, n) == (m + n) * Whole(m, n)
  {
  }

  lemma SquaresAverage(m: real, n: real)
    ensures m * Grown(m, n) + n * MeanSquare(m, n - 1.0) == (m + n) * MeanSquare(m, n)
  {
    hide *;
    GrownIs(m, n);
    MeanSquareIs(m, n);
    MeanSquareIs(m, n - 1.0);
    ControlPartIs(m, n);
    PartsAddUp(m, n);
    Collect(m, n, TreatedPart(m, n), ControlPart(m, n), Whole(m, n),
            Grown(m, n), MeanSquare(m, n - 1.0), MeanSquare(m, n));
  }

  lemma Collect(m: real, n: real, a: real, b: real, c: real, x: real, y: real, z: real)
    requires 12.0 * x == n * a && 12.0 * y == m * (n - 1.0) * b && 12.0 * z == m * n * c
    requires a + (n - 1.0) * b == (m + n) * c
    ensures m * x + n * y == (m + n) * z
  {
    assert m * (12.0 * x) == m * n * a;
    assert n * (12.0 * y) == m * n * ((n - 1.0) * b);
    assert (m + n) * (12.0 * z) == m * n * ((m + n) * c);
    assert m * n * a + m * n * ((n - 1.0) * b) == m * n * ((m + n) * c);
  }

  /** Totals that split in these parts average to a value that averages to itself in these parts. */
  lemma Averages(m: real, n: real, x: real, y: real, all: real, fewerTreated: real, fewerControl: real, mean: real)
    requires m + n > 0.0 && (m + n) * fewerTreated == m * all && (m + n) * fewerControl == n * all
    requires m * x + n * y == (m + n) * mean
    ensures fewerTreated * x + fewerControl * y == all * mean
  {
    var whole := fewerTreated * x + fewerControl * y;
    assert (m + n) * whole == (m * all) * x + (n * all) * y by {
      assert (m + n) * (fewerTreated * x) == ((m + n) * fewerTreated) * x;
      assert (m + n) * (fewerControl * y) == ((m + n) * fewerControl) * y;
    }
    assert (m * all) * x + (n * all) * y == all * (m * x + n * y);
    assert (m + n) * whole == (m + n) * (all * mean);
    Cancel(m + n, whole, all * mean);
  }

  lemma Cancel(t: real, x: real, y: real)
    requires t > 0.0 && t * x == t * y
    ensures x == y
  {
    TimesOrder(x, y, t);
    TimesOrder(y, x, t);
  }

  ghost predicate HasMoments(m: nat, n: nat)
  {
    && Total(m, n, First()) == Number(m, n) * MeanOf(m as real, n as real)
    && Total(m, n, Second()) == Number(m, n) * MeanSquare(m as real, n as real)
  }

  lemma MomentsAtEdge(m: nat, n: nat)
    requires m == 0 || n == 0
    requires m > 0 ==> HasMoments(m - 1, n)
    requires n > 0 ==> HasMoments(m, n - 1)
    ensures HasMoments(m, n)
  {
    hide Total, Number;
    if m == 0 && n == 0 {
      OneArrangement();
    } else {
      hide First, Second;
      FirstSplits(m, n);
      SecondSplits(m, n);
      if m > 0 {
        ShiftedTotals(m - 1, n, n as real);
      }
    }
  }

  lemma NumberIsTotal(m: nat, n: nat)
    ensures Number(m, n) == Total(m, n, One())
  {
  }

  lemma FactorOut(number: real, x: real, y: real)
    ensures number * (x + y) == number * x + y * number
  {
  }

  lemma GrownTotal(m: real, n: real, number: real)
    ensures number * Grown(m, n)
      == number * MeanSquare(m - 1.0, n) + 2.0 * n * (number * ((m - 1.0) * n / 2.0)) + n * n * number
  {
    hide MeanSquare;
    assert number * (2.0 * n * ((m - 1.0) * n / 2.0)) == 2.0 * n * (number * ((m - 1.0) * n / 2.0));
  }

  lemma FirstInside(m: nat, n: nat)
    requires m > 0 && n > 0 && HasMoments(m - 1, n) && HasMoments(m, n - 1)
    ensures var a, b := m as real, n as real;
      Total(m, n, First()) == Number(m - 1, n) * Risen(a, b) + Number(m, n - 1) * MeanOf(a, b - 1.0)
  {
    hide Total, Number, First, Second, MeanSquare, MeanOf;
    FirstSplits(m, n);
    ShiftedTotals(m - 1, n, n as real);
    NumberIsTotal(m - 1, n);
    assert (m - 1) as real == m as real - 1.0 && (n - 1) as real == n as real - 1.0;
    FactorOut(Number(m - 1, n), MeanOf(m as real - 1.0, n as real), n as real);
  }

  lemma SecondInside(m: nat, n: nat)
    requires m > 0 && n > 0 && HasMoments(m - 1, n) && HasMoments(m, n - 1)
    ensures var a, b := m as real, n as real;
      Total(m, n, Second()) == Number(m - 1, n) * Grown(a, b) + Number(m, n - 1) * MeanSquare(a, b - 1.0)
  {
    hide Total, Number, First, Second, MeanSquare, Grown;
    SecondSplits(m, n);
    ShiftedTotals(m - 1, n, n as real);
    NumberIsTotal(m - 1, n);
    assert (m - 1) as real == m as real - 1.0 && (n - 1) as real == n as real - 1.0;
    GrownTotal(m as real, n as real, Number(m - 1, n));
  }

  lemma MomentsAre(m: nat, n: nat)
    requires Total(m, n, First()) == Number(m, n) * MeanOf(m as real, n as real)
    requires Total(m, n, Second()) == Number(m, n) * MeanSquare(m as real, n as real)
    ensures HasMoments(m, n)
  {
  }

  lemma MomentsInside(m: nat, n: nat)
    requires m > 0 && n > 0 && HasMoments(m - 1, n) && HasMoments(m, n - 1)
    ensures HasMoments(m, n)
  {
    hide Total, Number, First, Second, MeanSquare, MeanOf, Grown, Risen;
    var a, b := m as real, n as real;
    FirstInside(m, n);
    SecondInside(m, n);
    hide HasMoments;
    Shares(m, n);
    MeansAverage(a, b);
    SquaresAverage(a, b);
    var fewerTreated, fewerControl, all := Number(m - 1, n), Number(m, n - 1), Number(m, n);
    Averages(a, b, Risen(a, b), MeanOf(a, b - 1.0), all, fewerTreated, fewerControl, MeanOf(a, b));
    Averages(a, b, Grown(a, b), MeanSquare(a, b - 1.0), all, fewerTreated, fewerControl, MeanSquare(a, b));
    MomentsAre(m, n);
  }

  lemma {:induction false} Moments(m: nat, n: nat)
    ensures HasMoments(m, n)
    decreases m + n
  {
    hide HasMoments;
    if m > 0 {
      Moments(m - 1, n);
    }
    if n > 0 {
      Moments(m, n - 1);
    }
    if m == 0 || n == 0 {
      MomentsAtEdge(m, n);
    } else {
      MomentsInside(m, n);
    }
  }

  lemma AroundMean(number: real, mean: real, square: real)
    ensures number * square - 2.0 * mean * (number * mean) + mean * mean * number == number * (square - mean * mean)
  {
  }

  lemma DeviationTotal(m: nat, n: nat, mean: real)
    ensures Total(m, n, Deviation(mean))
      == Total(m, n, Second()) - 2.0 * mean * Total(m, n, First()) + mean * mean * Number(m, n)
  {
    hide Sum, Arrangements, Statistic;
    ShiftedTotals(m, n, -mean);
    SumSame(Arrangements(m, n), Deviation(mean), ShiftedSquare(-mean));
  }

  /** Over all arrangements of m treated and n control observations without ties, the pair count has the
      mean m * n / 2 and the variance m * n * (m + n + 1) / 12. */
  lemma NullVariance(m: nat, n: nat)
    ensures var all := Arrangements(m, n);
      && Sum(all, First()) == |all| as real * Mean(m, n)
      && Sum(all, Deviation(Mean(m, n))) == |all| as real * Variance(m, n)
  {
    hide Sum, Arrangements, Statistic;
    Moments(m, n);
    NumberIsLength(m, n);
    var mean, number := Mean(m, n), Number(m, n);
    assert mean == m as real * n as real / 2.0;
    DeviationTotal(m, n, mean);
    assert Total(m, n, Deviation(mean)) ==
      number * MeanSquare(m as real, n as real) - 2.0 * mean * (number * mean) + mean * mean * number;
    AroundMean(number, mean, MeanSquare(m as real, n as real));
    assert MeanSquare(m as real, n as real) == Variance(m, n) + mean * mean;
  }
}
