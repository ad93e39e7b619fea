/** The library sort the program calls: a stable sort by a numeric key, as an insertion sort. */
module Sorting {
  import opened Numbers

  ghost predicate SortedBy<T(!new)>(xs: seq<T>, key: T -> real)
  {
    forall i, j :: 0 <= i < j < |xs| ==> key(xs[i]) <= key(xs[j])
  }

  /** Puts x behind every element whose key does not exceed its own. */
  function Insert<T>(x: T, xs: seq<T>, key: T -> real): seq<T>
  {
    if xs == [] || key(xs[|xs| - 1]) <= key(x) then
      xs + [x]
    else
      Insert(x, xs[..|xs| - 1], key) + [xs[|xs| - 1]]
  }

  function SortBy<T>(xs: seq<T>, key: T -> real): seq<T>
  {
    if xs == [] then [] else Insert(xs[|xs| - 1], SortBy(xs[..|xs| - 1], key), key)
  }

  lemma {:induction false} InsertKeeps<T>(x: T, xs: seq<T>, key: T -> real)
    ensures multiset(Insert(x, xs, key)) == multiset(xs) + multiset{x}
    decreases |xs|
  {
    if xs != [] {
      var k := |xs| - 1;
      assert xs == xs[..k] + [xs[k]];
      InsertKeeps(x, xs[..k], key);
    }
  }

  lemma {:induction false} InsertSorted<T(!new)>(x: T, xs: seq<T>, key: T -> real, bound: real)
    requires SortedBy(xs, key) && key(x) <= bound && forall y :: y in xs ==> key(y) <= bound
    ensures SortedBy(Insert(x, xs, key), key)
    ensures forall y :: y in Insert(x, xs, key) ==> key(y) <= bound
    decreases |xs|
  {
    if xs != [] && key(x) < key(xs[|xs| - 1]) {
      var k := |xs| - 1;
      InsertSorted(x, xs[..k], key, key(xs[k]));
      assert xs[k] in xs;
    }
  }

  lemma {:induction false} SortByKeeps<T>(xs: seq<T>, key: T -> real)
    ensures multiset(SortBy(xs, key)) == multiset(xs)
    decreases |xs|
  {
    if xs != [] {
      var k := |xs| - 1;
      assert xs == xs[..k] + [xs[k]];
      SortByKeeps(xs[..k], key);
      InsertKeeps(xs[k], SortBy(xs[..k], key), key);
    }
  }

  lemma {:induction false} SortBySorted<T(!new)>(xs: seq<T>, key: T -> real)
    ensures SortedBy(SortBy(xs, key), key)
    decreases |xs|
  {
    if xs != [] {
      var k := |xs| - 1;
      var s := SortBy(xs[..k], key);
      SortBySorted(xs[..k], key);
      InsertSorted(xs[k], s, key, if s == [] then key(xs[k]) else Max(key(xs[k]), key(s[|s| - 1])));
    }
  }

  // ----- stability

  /** The elements with the key k, in order. */
  ghost function WithKey<T(!new)>(xs: seq<T>, key: T -> real, k: real): seq<T>
  {
    if xs == [] then
      []
    else
      WithKey(xs[..|xs| - 1], key, k) + (if key(xs[|xs| - 1]) == k then [xs[|xs| - 1]] else [])
  }

  lemma WithKeySnoc<T(!new)>(xs: seq<T>, x: T, key: T -> real, k: real)
    ensures WithKey(xs + [x], key, k) == WithKey(xs, key, k) + (if key(x) == k then [x] else [])
  {
    assert (xs + [x])[..|xs|] == xs;
  }

  lemma {:induction false} NoneWithKey<T(!new)>(xs: seq<T>, key: T -> real, k: real)
    requires forall x :: x in xs ==> key(x) != k
    ensures WithKey(xs, key, k) == []
    decreases |xs|
  {
    if xs != [] {
      var last := |xs| - 1;
      assert xs[last] in xs && forall x :: x in xs[..last] ==> x in xs;
      NoneWithKey(xs[..last], key, k);
    }
  }

  /** Inserting puts x behind the elements with its own key, and leaves the others as they were. */
  lemma {:induction false} InsertStable<T(!new)>(x: T, xs: seq<T>, key: T -> real, k: real)
    requires SortedBy(xs, key)
    ensures WithKey(Insert(x, xs, key), key, k) == WithKey(xs, key, k) + (if key(x) == k then [x] else [])
    decreases |xs|
  {
    if xs == [] || key(xs[|xs| - 1]) <= key(x) {
      WithKeySnoc(xs, x, key, k);
    } else {
      var last := |xs| - 1;
      InsertStable(x, xs[..last], key, k);
      WithKeySnoc(Insert(x, xs[..last], key), xs[last], key, k);
      var before, own := WithKey(xs[..last], key, k), if key(x) == k then [x] else [];
      assert key(xs[last]) == k ==> before + own + [xs[last]] == before + [xs[last]] + own;
      assert key(xs[last]) != k ==> before + own + [] == before + [] + own;
    }
  }

  /** Sorting keeps the order of the elements with equal keys. */
  lemma {:induction false} SortByStable<T(!new)>(xs: seq<T>, key: T -> real, k: real)
    ensures WithKey(SortBy(xs, key), key, k) == WithKey(xs, key, k)
    decreases |xs|
  {
    if xs != [] {
      var last := |xs| - 1;
      SortByStable(xs[..last], key, k);
      SortBySorted(xs[..last], key);
      InsertStable(xs[last], SortBy(xs[..last], key), key, k);
    }
  }

  /** The two lists have the same elements of each key in the same order. */
  ghost predicate SameByKey<T(!new)>(ys: seq<T>, zs: seq<T>, key: T -> real)
  {
    forall k :: WithKey(ys, key, k) == WithKey(zs, key, k)
  }

  lemma LastIsKept<T(!new)>(ys: seq<T>, zs: seq<T>, key: T -> real)
    requires SortedBy(zs, key) && SameByKey(ys, zs, key) && ys != []
    ensures zs != [] && key(ys[|ys| - 1]) <= key(zs[|zs| - 1])
  {
    var k := key(ys[|ys| - 1]);
    assert WithKey(zs, key, k) == WithKey(ys, key, k) != [];
    if forall z :: z in zs ==> key(z) != k {
      NoneWithKey(zs, key, k);
      assert false;
    }
  }

  lemma SameEnd<T>(xs: seq<T>, ys: seq<T>, x: T, y: T)
    requires xs + [x] == ys + [y]
    ensures xs == ys && x == y
  {
    assert (xs + [x])[|xs|] == x && (ys + [y])[|ys|] == y;
    assert (xs + [x])[..|xs|] == xs && (ys + [y])[..|ys|] == ys;
  }

  lemma WithoutLast<T(!new)>(ys: seq<T>, y: T, zs: seq<T>, z: T, key: T -> real)
    requires SameByKey(ys + [y], zs + [z], key) && key(y) == key(z)
    ensures y == z && SameByKey(ys, zs, key)
  {
    hide WithKey;
    WithKeySnoc(ys, y, key, key(y));
    WithKeySnoc(zs, z, key, key(y));
    assert WithKey(ys + [y], key, key(y)) == WithKey(zs + [z], key, key(y));
    SameEnd(WithKey(ys, key, key(y)), WithKey(zs, key, key(y)), y, z);
    forall k ensures WithKey(ys, key, k) == WithKey(zs, key, k) {
      assert WithKey(ys + [y], key, k) == WithKey(zs + [z], key, k);
      WithKeySnoc(ys, y, key, k);
      WithKeySnoc(zs, z, key, k);
      var before, after := WithKey(ys, key, k), WithKey(zs, key, k);
      assert before + [] == before && after + [] == after;
    }
  }

  /** There is only one sorted list that keeps the order of the elements with equal keys. */
  lemma {:induction false} StableSortIsUnique<T(!new)>(ys: seq<T>, zs: seq<T>, key: T -> real)
    requires SortedBy(ys, key) && SortedBy(zs, key) && SameByKey(ys, zs, key)
    ensures ys == zs
    decreases |ys|
  {
    if ys == [] {
      if zs != [] {
        LastIsKept(zs, ys, key);
      }
    } else {
      LastIsKept(ys, zs, key);
      LastIsKept(zs, ys, key);
      var m, n := |ys| - 1, |zs| - 1;
      assert ys == ys[..m] + [ys[m]] && zs == zs[..n] + [zs[n]];
      WithoutLast(ys[..m], ys[m], zs[..n], zs[n], key);
      StableSortIsUnique(ys[..m], zs[..n], key);
    }
  }
}
