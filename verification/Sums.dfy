/** Finite sums of reals over sequences, and the few laws the other modules share. */
module Sums {

  ghost function Sum<T(!new)>(xs: seq<T>, f: T -> real): real
  {
    if xs == [] then 0.0 else Sum(xs[..|xs| - 1], f) + f(xs[|xs| - 1])
  }

  function Abs(x: real): real { if x < 0.0 then -x else x }

  ghost predicate Distinct<T>(xs: seq<T>)
  {
    forall i, j :: 0 <= i < j < |xs| ==> xs[i] != xs[j]
  }

  lemma SumSnoc<T(!new)>(xs: seq<T>, x: T, f: T -> real)
    ensures Sum(xs + [x], f) == Sum(xs, f) + f(x)
  {
    assert (xs + [x])[..|xs|] == xs;
  }

  lemma SumTake<T(!new)>(xs: seq<T>, i: nat, f: T -> real)
    requires i < |xs|
    ensures Sum(xs[..i + 1], f) == Sum(xs[..i], f) + f(xs[i])
  {
    assert xs[..i + 1] == xs[..i] + [xs[i]];
    SumSnoc(xs[..i], xs[i], f);
  }

  lemma {:induction false} SumConcat<T(!new)>(xs: seq<T>, ys: seq<T>, f: T -> real)
    ensures Sum(xs + ys, f) == Sum(xs, f) + Sum(ys, f)
    decreases |ys|
  {
    if ys == [] {
      assert xs + ys == xs;
    } else {
      var k := |ys| - 1;
      SumConcat(xs, ys[..k], f);
      assert xs + ys == (xs + ys[..k]) + [ys[k]];
      SumSnoc(xs + ys[..k], ys[k], f);
    }
  }

  /** A sum of a linear combination is the linear combination of the sums. */
  lemma {:induction false} SumLinear<T(!new)>(xs: seq<T>, f: T -> real, g: T -> real, h: T -> real, a: real, b: real)
    requires forall x :: x in xs ==> h(x) == a * f(x) + b * g(x)
    ensures Sum(xs, h) == a * Sum(xs, f) + b * Sum(xs, g)
    decreases |xs|
  {
    if xs != [] {
      var k := |xs| - 1;
      assert forall x :: x in xs[..k] ==> x in xs;
      SumLinear(xs[..k], f, g, h, a, b);
      assert xs[k] in xs;
      assert a * Sum(xs, f) == a * Sum(xs[..k], f) + a * f(xs[k]);
      assert b * Sum(xs, g) == b * Sum(xs[..k], g) + b * g(xs[k]);
    }
  }

  lemma {:induction false} SumSame<T(!new)>(xs: seq<T>, f: T -> real, g: T -> real)
    requires forall x :: x in xs ==> f(x) == g(x)
    ensures Sum(xs, f) == Sum(xs, g)
    decreases |xs|
  {
    if xs != [] {
      var k := |xs| - 1;
      assert forall x :: x in xs[..k] ==> x in xs;
      SumSame(xs[..k], f, g);
      assert xs[k] in xs;
    }
  }

  lemma {:induction false} SumLe<T(!new)>(xs: seq<T>, f: T -> real, g: T -> real)
    requires forall x :: x in xs ==> f(x) <= g(x)
    ensures Sum(xs, f) <= Sum(xs, g)
    decreases |xs|
  {
    if xs != [] {
      var k := |xs| - 1;
      assert forall x :: x in xs[..k] ==> x in xs;
      SumLe(xs[..k], f, g);
      assert xs[k] in xs;
    }
  }

  lemma {:induction false} SumConst<T(!new)>(xs: seq<T>, f: T -> real, c: real)
    requires forall x :: x in xs ==> f(x) == c
    ensures Sum(xs, f) == |xs| as real * c
    decreases |xs|
  {
    if xs != [] {
      var k := |xs| - 1;
      assert forall x :: x in xs[..k] ==> x in xs;
      SumConst(xs[..k], f, c);
      assert xs[k] in xs;
      assert |xs| as real * c == (k as real + 1.0) * c;
    }
  }

  /** Changing one summand of a duplicate-free sum by d changes the sum by d. */
  lemma {:induction false} SumPoint<T(!new)>(xs: seq<T>, f: T -> real, g: T -> real, t: T, d: real)
    requires Distinct(xs) && t in xs
    requires forall x :: x in xs && x != t ==> g(x) == f(x)
    requires g(t) == f(t) + d
    ensures Sum(xs, g) == Sum(xs, f) + d
    decreases |xs|
  {
    var k := |xs| - 1;
    assert xs[k] in xs;
    if xs[k] == t {
      SumSame(xs[..k], f, g);
    } else {
      assert t in xs[..k];
      assert forall x :: x in xs[..k] ==> x in xs;
      SumPoint(xs[..k], f, g, t, d);
    }
  }

  /** A sum of non-negative terms that is not positive has only zeros. */
  lemma {:induction false} SumZero<T(!new)>(xs: seq<T>, f: T -> real, t: T)
    requires (forall x :: f(x) >= 0.0) && Sum(xs, f) <= 0.0 && t in xs
    ensures f(t) == 0.0
    decreases |xs|
  {
    var k := |xs| - 1;
    SumNonNegative(xs[..k], f);
    if t in xs[..k] {
      SumZero(xs[..k], f, t);
    }
  }

  lemma {:induction false} SumNonNegative<T(!new)>(xs: seq<T>, f: T -> real)
    requires forall x :: f(x) >= 0.0
    ensures Sum(xs, f) >= 0.0
    decreases |xs|
  {
    if xs != [] {
      SumNonNegative(xs[..|xs| - 1], f);
    }
  }

  lemma WithoutOne<T>(xs: seq<T>, i: nat)
    requires i < |xs|
    ensures multiset(xs[..i] + xs[i + 1..]) == multiset(xs) - multiset{xs[i]}
  {
    assert xs == xs[..i] + [xs[i]] + xs[i + 1..];
  }

  lemma SumWithoutOne<T(!new)>(xs: seq<T>, i: nat, f: T -> real)
    requires i < |xs|
    ensures Sum(xs, f) == Sum(xs[..i] + xs[i + 1..], f) + f(xs[i])
  {
    hide Sum;
    var a, b := xs[..i], xs[i + 1..];
    assert xs == a + [xs[i]] + b;
    SumConcat(a + [xs[i]], b, f);
    SumConcat(a, b, f);
    SumSnoc(a, xs[i], f);
  }

  /** A sum depends only on the multiset of its terms. */
  lemma {:induction false} SumPermutation<T(!new)>(xs: seq<T>, ys: seq<T>, f: T -> real)
    requires multiset(xs) == multiset(ys)
    ensures Sum(xs, f) == Sum(ys, f)
    decreases |xs|
  {
    assert |xs| == |multiset(xs)| == |multiset(ys)| == |ys|;
    if xs != [] {
      var k := |xs| - 1;
      var x := xs[k];
      assert xs == xs[..k] + [x];
      assert x in multiset(ys);
      var i :| 0 <= i < |ys| && ys[i] == x;
      WithoutOne(xs, k);
      WithoutOne(ys, i);
      assert xs[..k] + xs[k + 1..] == xs[..k];
      SumPermutation(xs[..k], ys[..i] + ys[i + 1..], f);
      SumWithoutOne(ys, i, f);
    }
  }

  // ----- double sums

  ghost function Row<S(!new), T(!new)>(m: (S, T) -> real, x: S): T -> real
  {
    y => m(x, y)
  }

  ghost function Column<S(!new), T(!new)>(m: (S, T) -> real, y: T): S -> real
  {
    x => m(x, y)
  }

  ghost function RowSums<S(!new), T(!new)>(m: (S, T) -> real, ys: seq<T>): S -> real
  {
    x => Sum(ys, Row(m, x))
  }

  ghost function ColumnSums<S(!new), T(!new)>(m: (S, T) -> real, xs: seq<S>): T -> real
  {
    y => Sum(xs, Column(m, y))
  }

  ghost function AbsOf<T(!new)>(f: T -> real): T -> real
  {
    x => Abs(f(x))
  }

  ghost function Entries<S(!new), T(!new)>(m: (S, T) -> real): (S, T) -> real
  {
    (x, y) => Abs(m(x, y))
  }

  /** Summing a finite matrix by rows or by columns gives the same total. */
  lemma {:induction false} SumSwap<S(!new), T(!new)>(m: (S, T) -> real, xs: seq<S>, ys: seq<T>)
    ensures Sum(ys, ColumnSums(m, xs)) == Sum(xs, RowSums(m, ys))
    decreases |xs|
  {
    if xs == [] {
      SumConst(ys, ColumnSums(m, xs), 0.0);
    } else {
      var k := |xs| - 1;
      SumSwap(m, xs[..k], ys);
      SumLinear(ys, ColumnSums(m, xs[..k]), Row(m, xs[k]), ColumnSums(m, xs), 1.0, 1.0);
    }
  }

  lemma {:induction false} SumTriangle<T(!new)>(xs: seq<T>, f: T -> real)
    ensures Abs(Sum(xs, f)) <= Sum(xs, AbsOf(f))
    decreases |xs|
  {
    if xs != [] {
      SumTriangle(xs[..|xs| - 1], f);
    }
  }

  /** The L1 norm of the column sums is at most the sum of the rows' L1 norms. */
  lemma SumSwapTriangle<S(!new), T(!new)>(m: (S, T) -> real, xs: seq<S>, ys: seq<T>)
    ensures Sum(ys, AbsOf(ColumnSums(m, xs))) <= Sum(xs, RowSums(Entries(m), ys))
  {
    forall y | y in ys ensures AbsOf(ColumnSums(m, xs))(y) <= ColumnSums(Entries(m), xs)(y) {
      SumTriangle(xs, Column(m, y));
      SumSame(xs, AbsOf(Column(m, y)), Column(Entries(m), y));
    }
    SumLe(ys, AbsOf(ColumnSums(m, xs)), ColumnSums(Entries(m), xs));
    SumSwap(Entries(m), xs, ys);
  }
}
