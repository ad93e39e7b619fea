/** Affine iteration with a non-negative matrix whose rows all add up to d: what power iteration
    rests on, for any finite index sequence. */
module Markov {
  import opened Sums

  type Matrix<!T> = (T, T) -> real

  ghost function Const<T(!new)>(c: real): T -> real
  {
    x => c
  }

  /** Row x of k, multiplied by f(x). */
  ghost function Scaled<T(!new)>(k: Matrix<T>, f: T -> real): Matrix<T>
  {
    (x, y) => f(x) * k(x, y)
  }

  /** What each index receives when every x holds f(x) and k(x, y) is the part of it sent to y. */
  ghost function Flow<T(!new)>(k: Matrix<T>, xs: seq<T>, f: T -> real): T -> real
  {
    ColumnSums(Scaled(k, f), xs)
  }

  ghost function Push<T(!new)>(k: Matrix<T>, xs: seq<T>, c: real, f: T -> real): T -> real
  {
    y => c + Flow(k, xs, f)(y)
  }

  ghost function Minus<T(!new)>(f: T -> real, g: T -> real): T -> real
  {
    x => f(x) - g(x)
  }

  ghost predicate RowsAddTo<T(!new)>(k: Matrix<T>, xs: seq<T>, d: real)
  {
    forall x :: x in xs ==> Sum(xs, Row(k, x)) == d
  }

  ghost predicate NonNegative<T(!new)>(k: Matrix<T>)
  {
    forall x, y :: k(x, y) >= 0.0
  }

  lemma RowTotal<T(!new)>(k: Matrix<T>, xs: seq<T>, d: real, f: T -> real, x: T)
    requires Sum(xs, Row(k, x)) == d
    ensures Sum(xs, Row(Scaled(k, f), x)) == d * f(x)
  {
    SumLinear(xs, Row(k, x), Row(k, x), Row(Scaled(k, f), x), f(x), 0.0);
  }

  /** Sending f through the matrix multiplies its total by d. */
  lemma FlowTotal<T(!new)>(k: Matrix<T>, xs: seq<T>, d: real, f: T -> real)
    requires RowsAddTo(k, xs, d)
    ensures Sum(xs, Flow(k, xs, f)) == d * Sum(xs, f)
  {
    var totals := RowSums(Scaled(k, f), xs);
    SumSwap(Scaled(k, f), xs, xs);
    forall x | x in xs ensures totals(x) == d * f(x) {
      RowTotal(k, xs, d, f, x);
    }
    SumLinear(xs, f, f, totals, d, 0.0);
  }

  lemma PushTotal<T(!new)>(k: Matrix<T>, xs: seq<T>, d: real, c: real, f: T -> real)
    requires RowsAddTo(k, xs, d)
    ensures Sum(xs, Push(k, xs, c, f)) == |xs| as real * c + d * Sum(xs, f)
  {
    FlowTotal(k, xs, d, f);
    SumConst(xs, Const(c), c);
    SumLinear(xs, Const(c), Flow(k, xs, f), Push(k, xs, c, f), 1.0, 1.0);
  }

  lemma PushFloor<T(!new)>(k: Matrix<T>, xs: seq<T>, c: real, f: T -> real, y: T)
    requires NonNegative(k) && forall x :: x in xs ==> f(x) >= 0.0
    ensures Push(k, xs, c, f)(y) >= c
  {
    var column := Column(Scaled(k, f), y);
    forall x | x in xs ensures Const(0.0)(x) <= column(x) {
      AbsTimes(f(x), k(x, y));
    }
    SumConst(xs, Const(0.0), 0.0);
    SumLe(xs, Const(0.0), column);
    assert Flow(k, xs, f)(y) == Sum(xs, column);
  }

  lemma AbsTimes(x: real, y: real)
    requires y >= 0.0
    ensures Abs(x * y) == Abs(x) * y
  {
    if x < 0.0 {
      assert (-x) * y >= 0.0;
    } else {
      assert x * y >= 0.0;
    }
  }

  lemma RowNorm<T(!new)>(k: Matrix<T>, xs: seq<T>, d: real, f: T -> real, x: T)
    requires NonNegative(k) && Sum(xs, Row(k, x)) == d
    ensures Sum(xs, Row(Entries(Scaled(k, f)), x)) == d * Abs(f(x))
  {
    var row, a := Row(Entries(Scaled(k, f)), x), Abs(f(x));
    forall y ensures row(y) == a * Row(k, x)(y) {
      AbsTimes(f(x), k(x, y));
      assert Scaled(k, f)(x, y) == f(x) * k(x, y);
      assert row(y) == Abs(Scaled(k, f)(x, y));
    }
    SumLinear(xs, Row(k, x), Row(k, x), row, a, 0.0);
  }

  lemma RowNorms<T(!new)>(k: Matrix<T>, xs: seq<T>, d: real, f: T -> real)
    requires RowsAddTo(k, xs, d) && NonNegative(k)
    ensures Sum(xs, RowSums(Entries(Scaled(k, f)), xs)) == d * Sum(xs, AbsOf(f))
  {
    var norms := RowSums(Entries(Scaled(k, f)), xs);
    forall x | x in xs ensures norms(x) == d * AbsOf(f)(x) {
      RowNorm(k, xs, d, f, x);
    }
    SumLinear(xs, AbsOf(f), AbsOf(f), norms, d, 0.0);
  }

  /** Sending f through the matrix scales its L1 norm by at most d. */
  lemma FlowShrinks<T(!new)>(k: Matrix<T>, xs: seq<T>, d: real, f: T -> real)
    requires RowsAddTo(k, xs, d) && NonNegative(k)
    ensures Sum(xs, AbsOf(Flow(k, xs, f))) <= d * Sum(xs, AbsOf(f))
  {
    SumSwapTriangle(Scaled(k, f), xs, xs);
    RowNorms(k, xs, d, f);
  }

  lemma FlowOfMinus<T(!new)>(k: Matrix<T>, xs: seq<T>, f: T -> real, g: T -> real, y: T)
    ensures Flow(k, xs, Minus(f, g))(y) == Flow(k, xs, f)(y) - Flow(k, xs, g)(y)
  {
    var a, b := Column(Scaled(k, f), y), Column(Scaled(k, g), y);
    var c := Column(Scaled(k, Minus(f, g)), y);
    forall x ensures c(x) == 1.0 * a(x) + -1.0 * b(x) {
      assert (f(x) - g(x)) * k(x, y) == f(x) * k(x, y) - g(x) * k(x, y);
    }
    SumLinear(xs, a, b, c, 1.0, -1.0);
  }

  /** One step brings any two vectors closer, in L1, by at least the factor d. */
  lemma PushContracts<T(!new)>(k: Matrix<T>, xs: seq<T>, d: real, c: real, f: T -> real, g: T -> real)
    requires RowsAddTo(k, xs, d) && NonNegative(k)
    ensures Sum(xs, AbsOf(Minus(Push(k, xs, c, f), Push(k, xs, c, g)))) <= d * Sum(xs, AbsOf(Minus(f, g)))
  {
    var p, q := AbsOf(Minus(Push(k, xs, c, f), Push(k, xs, c, g))), AbsOf(Flow(k, xs, Minus(f, g)));
    forall y ensures p(y) == q(y) {
      FlowOfMinus(k, xs, f, g, y);
    }
    SumSame(xs, p, q);
    FlowShrinks(k, xs, d, Minus(f, g));
  }

  lemma PushNorm<T(!new)>(k: Matrix<T>, xs: seq<T>, c: real, f: T -> real)
    requires c >= 0.0
    ensures Sum(xs, AbsOf(Push(k, xs, c, f))) <= |xs| as real * c + Sum(xs, AbsOf(Flow(k, xs, f)))
  {
    var flow := AbsOf(Flow(k, xs, f));
    var bound: T -> real := y => c + flow(y);
    SumLe(xs, AbsOf(Push(k, xs, c, f)), bound);
    SumConst(xs, Const(c), c);
    SumLinear(xs, Const(c), flow, bound, 1.0, 1.0);
  }

  /** A fixed point has L1 norm at most one, so it need not be assumed to be a distribution. */
  lemma FixedPointNorm<T(!new)>(k: Matrix<T>, xs: seq<T>, d: real, c: real, f: T -> real)
    requires RowsAddTo(k, xs, d) && NonNegative(k) && d < 1.0
    requires c >= 0.0 && |xs| as real * c == 1.0 - d
    requires forall y :: y in xs ==> f(y) == Push(k, xs, c, f)(y)
    ensures Sum(xs, AbsOf(f)) <= 1.0
  {
    SumSame(xs, AbsOf(f), AbsOf(Push(k, xs, c, f)));
    PushNorm(k, xs, c, f);
    FlowShrinks(k, xs, d, f);
    AtMostOne(d, Sum(xs, AbsOf(f)));
  }

  lemma NonPositiveFactor(e: real, y: real)
    requires e > 0.0 && e * y <= 0.0
    ensures y <= 0.0
  {
  }

  lemma AtMostOne(d: real, x: real)
    requires d < 1.0 && x <= (1.0 - d) + d * x
    ensures x <= 1.0
  {
    var e, y := 1.0 - d, x - 1.0;
    assert e * y == x - d * x - e;
    NonPositiveFactor(e, y);
  }

  lemma DistanceAtMostTwo<T(!new)>(xs: seq<T>, f: T -> real, g: T -> real)
    requires forall x :: x in xs ==> f(x) >= 0.0
    requires Sum(xs, f) <= 1.0 && Sum(xs, AbsOf(g)) <= 1.0
    ensures Sum(xs, AbsOf(Minus(f, g))) <= 2.0
  {
    var bound: T -> real := x => f(x) + AbsOf(g)(x);
    SumLe(xs, AbsOf(Minus(f, g)), bound);
    SumLinear(xs, f, AbsOf(g), bound, 1.0, 1.0);
  }

  lemma DistanceSame<T(!new)>(xs: seq<T>, f: T -> real, g: T -> real, f': T -> real, g': T -> real)
    requires forall x :: x in xs ==> f(x) == f'(x) && g(x) == g'(x)
    ensures Sum(xs, AbsOf(Minus(f, g))) == Sum(xs, AbsOf(Minus(f', g')))
  {
    SumSame(xs, AbsOf(Minus(f, g)), AbsOf(Minus(f', g')));
  }

  lemma FlowSplit<T(!new)>(k: Matrix<T>, xs: seq<T>, f: T -> real, y: T, a: real, p: T -> real, q: T -> real)
    requires forall x :: f(x) * k(x, y) == a * p(x) + q(x)
    ensures Flow(k, xs, f)(y) == a * Sum(xs, p) + Sum(xs, q)
  {
    var column := Column(Scaled(k, f), y);
    forall x ensures column(x) == a * p(x) + 1.0 * q(x) {
      assert column(x) == Scaled(k, f)(x, y);
    }
    SumLinear(xs, p, q, column, a, 1.0);
  }
}
