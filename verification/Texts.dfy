/** Strings in the program's order, character by character, and sorted lists of them. */
module Texts {
  predicate Less(a: string, b: string)
  {
    if b == "" then false
    else if a == "" then true
    else a[0] < b[0] || (a[0] == b[0] && Less(a[1..], b[1..]))
  }

  /** a and b agree before position i, and there a ends first or has the smaller character. */
  ghost predicate DiffersAt(a: string, b: string, i: nat)
  {
    && i <= |a| && i < |b| && a[..i] == b[..i]
    && (i == |a| || a[i] < b[i])
  }

  /** The order is that of the first position in which the two strings differ. */
  lemma {:induction false} LessIsLexicographic(a: string, b: string)
    ensures Less(a, b) <==> exists i :: DiffersAt(a, b, i)
    decreases |a|
  {
    if a == "" {
      assert b != "" ==> DiffersAt(a, b, 0);
    } else if b != "" {
      if a[0] < b[0] {
        assert DiffersAt(a, b, 0);
      }
      LessIsLexicographic(a[1..], b[1..]);
      forall i: nat | DiffersAt(a[1..], b[1..], i) && a[0] == b[0] ensures DiffersAt(a, b, i + 1) {
        assert a[..i + 1] == [a[0]] + a[1..][..i] && b[..i + 1] == [b[0]] + b[1..][..i];
      }
      forall i: nat | DiffersAt(a, b, i) && i > 0 ensures a[0] == b[0] && DiffersAt(a[1..], b[1..], i - 1) {
        assert a[..i][0] == b[..i][0];
        assert a[1..][..i - 1] == a[..i][1..] && b[1..][..i - 1] == b[..i][1..];
      }
      if i: nat :| DiffersAt(a, b, i) {
        assert i > 0 ==> DiffersAt(a[1..], b[1..], i - 1);
      }
      if Less(a, b) && a[0] == b[0] {
        var i: nat :| DiffersAt(a[1..], b[1..], i);
        assert DiffersAt(a, b, i + 1);
      }
    }
  }

  lemma {:induction false} LessTrichotomy(a: string, b: string)
    ensures Less(a, b) || a == b || Less(b, a)
    ensures !(Less(a, b) && Less(b, a)) && !Less(a, a)
    decreases |a|
  {
    if a != "" && b != "" {
      LessTrichotomy(a[1..], b[1..]);
      LessTrichotomy(a[1..], a[1..]);
      assert a == [a[0]] + a[1..] && b == [b[0]] + b[1..];
    } else if a != "" {
      LessTrichotomy(a[1..], a[1..]);
    }
  }

  lemma {:induction false} LessTransitive(a: string, b: string, c: string)
    requires Less(a, b) && Less(b, c)
    ensures Less(a, c)
    decreases |a|
  {
    if a != "" && a[0] == b[0] && b[0] == c[0] {
      LessTransitive(a[1..], b[1..], c[1..]);
    }
  }

  ghost predicate Ascending(xs: seq<string>)
  {
    forall i, j :: 0 <= i < j < |xs| ==> Less(xs[i], xs[j])
  }

  /** xs lists the elements of s in order, each once. */
  ghost predicate SortedList(s: set<string>, xs: seq<string>)
  {
    Ascending(xs) && forall x :: x in s <==> x in xs
  }

  /** x at its place in an ascending list that does not contain it. */
  function Place(x: string, xs: seq<string>): seq<string>
  {
    if xs == [] then [x]
    else if Less(xs[|xs| - 1], x) then xs + [x]
    else Place(x, xs[..|xs| - 1]) + [xs[|xs| - 1]]
  }

  lemma {:induction false} PlaceMembers(x: string, xs: seq<string>, y: string)
    ensures y in Place(x, xs) <==> y == x || y in xs
    decreases |xs|
  {
    if xs != [] {
      PlaceMembers(x, xs[..|xs| - 1], y);
      assert xs == xs[..|xs| - 1] + [xs[|xs| - 1]];
    }
  }

  lemma AscendingSnoc(xs: seq<string>, x: string)
    requires Ascending(xs) && forall y :: y in xs ==> Less(y, x)
    ensures Ascending(xs + [x])
  {
  }

  lemma {:induction false} PlaceAscends(x: string, xs: seq<string>)
    requires Ascending(xs) && x !in xs
    ensures Ascending(Place(x, xs))
    decreases |xs|
  {
    if xs != [] {
      var k := |xs| - 1;
      var last := xs[k];
      if Less(last, x) {
        forall y | y in xs ensures Less(y, x) {
          if y != last {
            LessTransitive(y, last, x);
          }
        }
        AscendingSnoc(xs, x);
      } else {
        PlaceAscends(x, xs[..k]);
        LessTrichotomy(last, x);
        forall y | y in Place(x, xs[..k]) ensures Less(y, last) {
          PlaceMembers(x, xs[..k], y);
        }
        AscendingSnoc(Place(x, xs[..k]), last);
      }
    }
  }

  /** sorted on a set of strings. */
  method Sort(s: set<string>) returns (xs: seq<string>)
    ensures SortedList(s, xs)
  {
    xs := [];
    var left := s;
    while left != {}
      invariant left <= s && SortedList(s - left, xs)
      decreases left
    {
      var x :| x in left;
      PlaceAscends(x, xs);
      forall y ensures y in Place(x, xs) <==> y == x || y in xs {
        PlaceMembers(x, xs, y);
      }
      left, xs := left - {x}, Place(x, xs);
    }
    assert s - left == s;
  }

  /** There is only one such list. */
  lemma {:induction false} SortedListIsUnique(s: set<string>, xs: seq<string>, ys: seq<string>)
    requires SortedList(s, xs) && SortedList(s, ys)
    ensures xs == ys
    decreases |xs|
  {
    if ys != [] {
      EmptyTogether(s, xs, ys);
    }
    if xs != [] {
      EmptyTogether(s, ys, xs);
      var k, l := |xs| - 1, |ys| - 1;
      LastIsGreatest(s, xs, ys);
      LastIsGreatest(s, ys, xs);
      LessTrichotomy(xs[k], ys[l]);
      WithoutLast(s, xs);
      WithoutLast(s, ys);
      SortedListIsUnique(s - {xs[k]}, xs[..k], ys[..l]);
      assert xs == xs[..k] + [xs[k]] && ys == ys[..l] + [ys[l]];
    }
  }

  lemma EmptyTogether(s: set<string>, xs: seq<string>, ys: seq<string>)
    requires SortedList(s, xs) && SortedList(s, ys) && ys != []
    ensures xs != []
  {
    assert ys[0] in s;
  }

  lemma LastIsGreatest(s: set<string>, xs: seq<string>, ys: seq<string>)
    requires SortedList(s, xs) && SortedList(s, ys) && xs != [] && ys != []
    ensures xs[|xs| - 1] == ys[|ys| - 1] || Less(xs[|xs| - 1], ys[|ys| - 1])
  {
    assert xs[|xs| - 1] in s;
  }

  lemma WithoutLast(s: set<string>, xs: seq<string>)
    requires SortedList(s, xs) && xs != []
    ensures SortedList(s - {xs[|xs| - 1]}, xs[..|xs| - 1])
  {
    var k := |xs| - 1;
    LessTrichotomy(xs[k], xs[k]);
    assert xs == xs[..k] + [xs[k]];
    forall i | 0 <= i < k ensures xs[i] != xs[k] {
      assert Less(xs[i], xs[k]);
    }
  }
}
