/** Hop-limited influence propagation (graph/propagation.py): a worklist whose result is a sum over
    walks, although the graph may have cycles. */
module Propagation {
  import opened Sums
  import opened Graphs
  import opened Options

  // ----- the sum over walks

  /** es is a walk from u, first edge first. */
  ghost predicate WalkFrom(g: Graph, u: Id, es: seq<Edge>)
    decreases |es|
  {
    es == [] || (es[0] in Out(g, u) && WalkFrom(g, es[0].to, es[1..]))
  }

  ghost function Prepend(e: Edge, walks: seq<seq<Edge>>): seq<seq<Edge>>
  {
    if walks == [] then [] else Prepend(e, walks[..|walks| - 1]) + [[e] + walks[|walks| - 1]]
  }

  /** All walks of 1..k edges from u. */
  ghost function Walks(g: Graph, u: Id, k: nat): seq<seq<Edge>>
    decreases k, 0
  {
    if k == 0 then [] else WalksOver(g, Out(g, u), k - 1)
  }

  /** All walks that start with an edge of es and go on for up to k edges. */
  ghost function WalksOver(g: Graph, es: seq<Edge>, k: nat): seq<seq<Edge>>
    decreases k, |es| + 1
  {
    if es == [] then
      []
    else
      var e := es[|es| - 1];
      WalksOver(g, es[..|es| - 1], k) + [[e]] + Prepend(e, Walks(g, e.to, k))
  }

  /** The product of weight times decay over a walk; zero when an edge is not positive. */
  ghost function Influence(decay: real, es: seq<Edge>): real
  {
    if es == [] then 1.0 else Rate(decay, es[0]) * Influence(decay, es[1..])
  }

  /** What one edge does to the influence that passes over it. */
  function Rate(decay: real, e: Edge): real
  {
    if e.weight <= 0.0 then 0.0 else e.weight * decay
  }

  /** A walk's contribution to v. */
  ghost function Gain(decay: real, v: Id): seq<Edge> -> real
  {
    (es: seq<Edge>) => if es != [] && es[|es| - 1].to == v then Influence(decay, es) else 0.0
  }

  ghost function WalkSum(g: Graph, decay: real, u: Id, k: nat, v: Id): real
  {
    Sum(Walks(g, u, k), Gain(decay, v))
  }

  lemma {:induction false} PrependMembers(e: Edge, walks: seq<seq<Edge>>, w: seq<Edge>)
    ensures w in Prepend(e, walks) <==> w != [] && w[0] == e && w[1..] in walks
    ensures |Prepend(e, walks)| == |walks|
    ensures forall i :: 0 <= i < |walks| ==> Prepend(e, walks)[i] == [e] + walks[i]
    decreases |walks|
  {
    if walks != [] {
      var k := |walks| - 1;
      PrependMembers(e, walks[..k], w);
      assert walks == walks[..k] + [walks[k]];
      assert w == [e] + walks[k] <==> w != [] && w[0] == e && w[1..] == walks[k];
    }
  }

  /** Walks lists exactly the walks of 1..k edges. */
  lemma {:induction false} WalksAreAll(g: Graph, u: Id, k: nat, w: seq<Edge>)
    ensures w in Walks(g, u, k) <==> WalkFrom(g, u, w) && 1 <= |w| <= k
    decreases k, 0
  {
    if k > 0 {
      WalksOverAreAll(g, Out(g, u), k - 1, w);
    }
  }

  lemma {:induction false} WalksOverAreAll(g: Graph, es: seq<Edge>, k: nat, w: seq<Edge>)
    ensures w in WalksOver(g, es, k) <==> w != [] && w[0] in es && WalkFrom(g, w[0].to, w[1..]) && |w| <= k + 1
    decreases k, |es| + 1
  {
    if es != [] {
      var m := |es| - 1;
      var e := es[m];
      WalksOverAreAll(g, es[..m], k, w);
      PrependMembers(e, Walks(g, e.to, k), w);
      assert es == es[..m] + [e];
      if w != [] {
        WalksAreAll(g, e.to, k, w[1..]);
        assert w == [e] <==> w[0] == e && w[1..] == [];
      }
    }
  }

  /** Each walk is listed once when no node lists an edge twice. */
  lemma {:induction false} WalksAreDistinct(g: Graph, u: Id, k: nat)
    requires forall x :: x in g ==> Distinct(g[x])
    ensures Distinct(Walks(g, u, k))
    decreases k, 0
  {
    if k > 0 {
      WalksOverAreDistinct(g, Out(g, u), k - 1);
    }
  }

  lemma {:induction false} WalksOverAreDistinct(g: Graph, es: seq<Edge>, k: nat)
    requires Distinct(es) && forall x :: x in g ==> Distinct(g[x])
    ensures Distinct(WalksOver(g, es, k))
    decreases k, |es| + 1
  {
    if es != [] {
      var m := |es| - 1;
      var e := es[m];
      var a, b := WalksOver(g, es[..m], k), Prepend(e, Walks(g, e.to, k));
      WalksOverAreDistinct(g, es[..m], k);
      WalksAreDistinct(g, e.to, k);
      PrependMembers(e, Walks(g, e.to, k), []);
      forall i | 0 <= i < |a| ensures a[i] != [e] && a[i] !in b {
        WalksOverAreAll(g, es[..m], k, a[i]);
        PrependMembers(e, Walks(g, e.to, k), a[i]);
      }
      forall i | 0 <= i < |b| ensures b[i] != [e] {
        WalksAreAll(g, e.to, k, Walks(g, e.to, k)[i]);
      }
      forall i, j | 0 <= i < j < |b| ensures b[i] != b[j] {
        assert b[i][1..] == Walks(g, e.to, k)[i] && b[j][1..] == Walks(g, e.to, k)[j];
      }
      DistinctConcat(a, [[e]] + b);
      assert a + [[e]] + b == a + ([[e]] + b);
    }
  }

  lemma DistinctConcat<T>(xs: seq<T>, ys: seq<T>)
    requires Distinct(xs) && Distinct(ys) && forall i :: 0 <= i < |xs| ==> xs[i] !in ys
    ensures Distinct(xs + ys)
  {
  }

  // ----- the same sum, edge by edge

  ghost function Spread(g: Graph, decay: real, u: Id, k: nat, v: Id): real
    decreases k, 0
  {
    if k == 0 then 0.0 else SpreadOver(g, decay, Out(g, u), k - 1, v)
  }

  /** What one unit at e's source brings to v by way of e, with k hops left after it. */
  ghost function Through(g: Graph, decay: real, e: Edge, k: nat, v: Id): real
    decreases k, 1
  {
    Rate(decay, e) * ((if e.to == v then 1.0 else 0.0) + Spread(g, decay, e.to, k, v))
  }

  ghost function SpreadOver(g: Graph, decay: real, es: seq<Edge>, k: nat, v: Id): real
    decreases k, |es| + 2
  {
    if es == [] then 0.0
    else SpreadOver(g, decay, es[..|es| - 1], k, v) + Through(g, decay, es[|es| - 1], k, v)
  }

  lemma {:induction false} SumPrepend(e: Edge, walks: seq<seq<Edge>>, gain: seq<Edge> -> real, tail: seq<Edge> -> real)
    requires forall w :: w in walks ==> gain([e] + w) == tail(w)
    ensures Sum(Prepend(e, walks), gain) == Sum(walks, tail)
    decreases |walks|
  {
    if walks != [] {
      var k := |walks| - 1;
      assert walks[k] in walks && forall x :: x in walks[..k] ==> x in walks;
      SumPrepend(e, walks[..k], gain, tail);
      SumSnoc(Prepend(e, walks[..k]), [e] + walks[k], gain);
    }
  }

  /** Putting e in front multiplies a walk's contribution by weight and decay. */
  lemma GainPrepend(decay: real, e: Edge, w: seq<Edge>, v: Id)
    requires w != []
    ensures Gain(decay, v)([e] + w) == Rate(decay, e) * Gain(decay, v)(w)
  {
    assert ([e] + w)[1..] == w && ([e] + w)[|w|] == w[|w| - 1];
    assert Influence(decay, [e] + w) == Rate(decay, e) * Influence(decay, w);
  }

  lemma Distribute(a: real, x: real, y: real)
    ensures a * (x + y) == a * x + a * y
  {
  }

  /** The recursion computes the sum over all walks. */
  lemma {:induction false} SpreadIsWalkSum(g: Graph, decay: real, u: Id, k: nat, v: Id)
    ensures Spread(g, decay, u, k, v) == WalkSum(g, decay, u, k, v)
    decreases k, 0
  {
    if k > 0 {
      SpreadOverIsWalkSum(g, decay, Out(g, u), k - 1, v);
    }
  }

  ghost function Scale(a: real, gain: seq<Edge> -> real): seq<Edge> -> real
  {
    w => a * gain(w)
  }

  lemma SumScale(walks: seq<seq<Edge>>, gain: seq<Edge> -> real, a: real)
    ensures Sum(walks, Scale(a, gain)) == a * Sum(walks, gain)
  {
    hide Sum;
    SumLinear(walks, gain, gain, Scale(a, gain), a, 0.0);
  }

  lemma PrependScales(decay: real, e: Edge, walks: seq<seq<Edge>>, v: Id)
    requires forall w :: w in walks ==> w != []
    ensures Sum(Prepend(e, walks), Gain(decay, v)) == Rate(decay, e) * Sum(walks, Gain(decay, v))
  {
    hide Sum, Rate, Prepend;
    var tail := Scale(Rate(decay, e), Gain(decay, v));
    forall w | w in walks ensures Gain(decay, v)([e] + w) == tail(w) {
      GainPrepend(decay, e, w, v);
    }
    hide Gain, Scale;
    SumPrepend(e, walks, Gain(decay, v), tail);
    SumScale(walks, Gain(decay, v), Rate(decay, e));
  }

  /** What goes by way of e is the walk [e] and all longer walks that start with e. */
  lemma ThroughIsWalkSum(g: Graph, decay: real, e: Edge, k: nat, v: Id)
    requires Spread(g, decay, e.to, k, v) == WalkSum(g, decay, e.to, k, v)
    ensures Through(g, decay, e, k, v) == Gain(decay, v)([e]) + Sum(Prepend(e, Walks(g, e.to, k)), Gain(decay, v))
  {
    hide Sum, Gain, Spread, Rate, Walks, Prepend;
    forall w | w in Walks(g, e.to, k) ensures w != [] {
      WalksAreAll(g, e.to, k, w);
    }
    PrependScales(decay, e, Walks(g, e.to, k), v);
    OneEdge(decay, e, v);
    Distribute(Rate(decay, e), if e.to == v then 1.0 else 0.0, Spread(g, decay, e.to, k, v));
  }

  lemma {:induction false} SpreadOverIsWalkSum(g: Graph, decay: real, es: seq<Edge>, k: nat, v: Id)
    ensures SpreadOver(g, decay, es, k, v) == Sum(WalksOver(g, es, k), Gain(decay, v))
    decreases k, |es| + 1
  {
    if es != [] {
      var m := |es| - 1;
      var e := es[m];
      SpreadOverIsWalkSum(g, decay, es[..m], k, v);
      SpreadIsWalkSum(g, decay, e.to, k, v);
      ThroughIsWalkSum(g, decay, e, k, v);
      SumSnoc(WalksOver(g, es[..m], k), [e], Gain(decay, v));
      SumConcat(WalksOver(g, es[..m], k) + [[e]], Prepend(e, Walks(g, e.to, k)), Gain(decay, v));
      hide Sum, Gain, Spread, Walks, Prepend, Through;
    }
  }

  lemma OneEdge(decay: real, e: Edge, v: Id)
    ensures Gain(decay, v)([e]) == if e.to == v then Rate(decay, e) else 0.0
  {
    assert [e][1..] == [];
    assert Influence(decay, []) == 1.0;
    assert Influence(decay, [e]) == Rate(decay, e) * 1.0;
  }

  // ----- termination: the walks still to be taken

  ghost function Size(g: Graph, u: Id, k: nat): nat
    decreases k, 0
  {
    1 + if k == 0 then 0 else SizeOver(g, Out(g, u), k - 1)
  }

  ghost function SizeOver(g: Graph, es: seq<Edge>, k: nat): nat
    decreases k, |es| + 1
  {
    if es == [] then 0 else SizeOver(g, es[..|es| - 1], k) + Size(g, es[|es| - 1].to, k)
  }

  datatype Item = Item(node: Id, influence: real, depth: nat)

  function Left(hops: int, depth: nat): nat
  {
    if depth < hops then hops - depth else 0
  }

  ghost function TotalSize(g: Graph, hops: int, items: seq<Item>): nat
  {
    if items == [] then
      0
    else
      var last := items[|items| - 1];
      TotalSize(g, hops, items[..|items| - 1]) + Size(g, last.node, Left(hops, last.depth))
  }

  lemma {:induction false} TotalSizeConcat(g: Graph, hops: int, xs: seq<Item>, ys: seq<Item>)
    ensures TotalSize(g, hops, xs + ys) == TotalSize(g, hops, xs) + TotalSize(g, hops, ys)
    decreases |ys|
  {
    if ys == [] {
      assert xs + ys == xs;
    } else {
      var k := |ys| - 1;
      TotalSizeConcat(g, hops, xs, ys[..k]);
      assert (xs + ys)[..|xs + ys| - 1] == xs + ys[..k];
    }
  }

  lemma TotalSizeOne(g: Graph, hops: int, it: Item)
    ensures TotalSize(g, hops, [it]) == Size(g, it.node, Left(hops, it.depth))
  {
    assert TotalSize(g, hops, []) == 0;
  }

  // ----- the worklist

  /** What an item of the worklist will still bring to v. */
  ghost function Worth(g: Graph, decay: real, hops: int, v: Id): Item -> real
  {
    (it: Item) => it.influence * Spread(g, decay, it.node, Left(hops, it.depth), v)
  }

  function Score(scores: map<Id, real>, v: Id): real
  {
    if v in scores then scores[v] else 0.0
  }

  /** What v has, plus what the worklist will bring. */
  ghost function Prospect(g: Graph, decay: real, hops: int, scores: map<Id, real>, items: seq<Item>, v: Id): real
  {
    Score(scores, v) + Sum(items, Worth(g, decay, hops, v))
  }

  ghost predicate AllPositive(scores: map<Id, real>, items: seq<Item>)
  {
    && (forall v :: v in scores ==> scores[v] > 0.0)
    && (forall i :: 0 <= i < |items| ==> items[i].influence > 0.0)
  }

  lemma ContributionSplits(influence: real, weight: real, decay: real, c: real, mark: real, spread: real)
    requires c == influence * weight * decay
    ensures influence * (weight * decay * (mark + spread)) == c * mark + c * spread
  {
  }

  lemma ContributionSign(influence: real, weight: real, decay: real)
    requires influence > 0.0 && decay > 0.0
    ensures influence * weight * decay <= 0.0 <==> weight <= 0.0
  {
    if weight > 0.0 {
      assert influence * weight > 0.0;
    } else {
      assert influence * weight <= 0.0;
    }
  }

  /** Taking one edge moves its share from the item to its target's score and to a new item. */
  lemma TakeEdge(g: Graph, decay: real, hops: int, it: Item, e: Edge, scores: map<Id, real>, items: seq<Item>, v: Id)
    requires it.depth < hops && it.influence > 0.0 && decay > 0.0
    ensures var c := it.influence * e.weight * decay;
      Prospect(g, decay, hops, scores, items, v) + it.influence * Through(g, decay, e, Left(hops, it.depth + 1), v)
      == if c <= 0.0 then Prospect(g, decay, hops, scores, items, v)
         else Prospect(g, decay, hops, scores[e.to := Score(scores, e.to) + c],
                       items + [Item(e.to, c, it.depth + 1)], v)
  {
    var c := it.influence * e.weight * decay;
    var mark := if e.to == v then 1.0 else 0.0;
    ContributionSign(it.influence, e.weight, decay);
    ContributionSplits(it.influence, e.weight, decay, c, mark, Spread(g, decay, e.to, Left(hops, it.depth + 1), v));
    SumSnoc(items, Item(e.to, c, it.depth + 1), Worth(g, decay, hops, v));
    hide Sum, Spread;
  }

  lemma TakenSoFar(g: Graph, decay: real, hops: int, it: Item, es: seq<Edge>, j: nat, start: real, v: Id)
    requires j < |es|
    ensures var k := Left(hops, it.depth + 1);
      start + it.influence * SpreadOver(g, decay, es[..j + 1], k, v)
      == start + it.influence * SpreadOver(g, decay, es[..j], k, v) + it.influence * Through(g, decay, es[j], k, v)
  {
    assert es[..j + 1][..j] == es[..j];
    var k := Left(hops, it.depth + 1);
    Distribute(it.influence, SpreadOver(g, decay, es[..j], k, v), Through(g, decay, es[j], k, v));
  }

  /** The loop over one item's edges. */
  method ExpandItem(g: Graph, decay: real, hops: int, it: Item, scores: map<Id, real>, items: seq<Item>)
    returns (scores': map<Id, real>, items': seq<Item>)
    requires it.depth < hops && it.influence > 0.0 && decay > 0.0 && AllPositive(scores, items)
    ensures AllPositive(scores', items')
    ensures forall v ::
      Prospect(g, decay, hops, scores', items', v)
      == Prospect(g, decay, hops, scores, items, v)
        + it.influence * SpreadOver(g, decay, Out(g, it.node), Left(hops, it.depth + 1), v)
    ensures TotalSize(g, hops, items')
      <= TotalSize(g, hops, items) + SizeOver(g, Out(g, it.node), Left(hops, it.depth + 1))
  {
    hide Prospect, SpreadOver, Through, TotalSize;
    scores', items' := scores, items;
    var es := Out(g, it.node);
    ghost var k := Left(hops, it.depth + 1);
    assert forall v :: SpreadOver(g, decay, es[..0], k, v) == 0.0 by {
      NothingTaken(g, decay, k);
      assert es[..0] == [];
    }
    for j := 0 to |es|
      invariant AllPositive(scores', items')
      invariant forall v ::
        Prospect(g, decay, hops, scores', items', v)
        == Prospect(g, decay, hops, scores, items, v) + it.influence * SpreadOver(g, decay, es[..j], k, v)
      invariant TotalSize(g, hops, items') <= TotalSize(g, hops, items) + SizeOver(g, es[..j], k)
    {
      var e := es[j];
      var c := it.influence * e.weight * decay;
      forall v
        ensures Prospect(g, decay, hops, scores, items, v) + it.influence * SpreadOver(g, decay, es[..j + 1], k, v)
          == if c <= 0.0 then Prospect(g, decay, hops, scores', items', v)
             else Prospect(g, decay, hops, scores'[e.to := Score(scores', e.to) + c],
                           items' + [Item(e.to, c, it.depth + 1)], v)
      {
        TakenSoFar(g, decay, hops, it, es, j, Prospect(g, decay, hops, scores, items, v), v);
        TakeEdge(g, decay, hops, it, e, scores', items', v);
      }
      assert es[..j + 1][..j] == es[..j];
      if c > 0.0 {
        TotalSizeConcat(g, hops, items', [Item(e.to, c, it.depth + 1)]);
        TotalSizeOne(g, hops, Item(e.to, c, it.depth + 1));
        scores' := scores'[e.to := Score(scores', e.to) + c];
        items' := items' + [Item(e.to, c, it.depth + 1)];
      }
    }
    assert es[..|es|] == es;
  }

  lemma NothingTaken(g: Graph, decay: real, k: nat)
    ensures forall v :: SpreadOver(g, decay, [], k, v) == 0.0
  {
  }

  /** An item that is taken from the front brings what its edges bring. */
  lemma PopItem(g: Graph, decay: real, hops: int, scores: map<Id, real>, items: seq<Item>, v: Id)
    requires items != []
    ensures var it := items[0];
      Prospect(g, decay, hops, scores, items, v) == Prospect(g, decay, hops, scores, items[1..], v)
        + (if it.depth < hops
           then it.influence * SpreadOver(g, decay, Out(g, it.node), Left(hops, it.depth + 1), v) else 0.0)
  {
    var worth := Worth(g, decay, hops, v);
    assert items == [items[0]] + items[1..];
    SumConcat([items[0]], items[1..], worth);
    SumSnoc([], items[0], worth);
    assert [] + [items[0]] == [items[0]];
    hide SpreadOver;
  }

  lemma PopSize(g: Graph, hops: int, items: seq<Item>)
    requires items != []
    ensures var it := items[0];
      TotalSize(g, hops, items) == 1 + TotalSize(g, hops, items[1..])
        + (if it.depth < hops then SizeOver(g, Out(g, it.node), Left(hops, it.depth + 1)) else 0)
  {
    assert items == [items[0]] + items[1..];
    TotalSizeConcat(g, hops, [items[0]], items[1..]);
    TotalSizeOne(g, hops, items[0]);
  }

  /** propagate: each node other than the start gets exactly the sum, over all walks of 1..hops edges
      to it, of the product of weight times decay; nodes with nothing are absent. */
  method Propagate(g: Graph, decay: real, src: Id, hops: int) returns (r: Result<map<Id, real>>)
    requires 0.0 < decay <= 1.0
    ensures r.Missing? <==> src !in g
    ensures r.Ok? ==> forall v :: v in r.value <==> v != src && WalkSum(g, decay, src, Left(hops, 0), v) > 0.0
    ensures r.Ok? ==> forall v :: v in r.value ==> r.value[v] == WalkSum(g, decay, src, Left(hops, 0), v)
  {
    if src !in g {
      return Missing;
    }
    hide Walks, Prospect, TotalSize, SpreadOver, SizeOver, Spread;
    var scores: map<Id, real>, items := map[], [Item(src, 1.0, 0)];
    forall v ensures Prospect(g, decay, hops, scores, items, v) == Spread(g, decay, src, Left(hops, 0), v) {
      StartProspect(g, decay, hops, src, v);
    }
    while items != []
      invariant AllPositive(scores, items)
      invariant forall v :: Prospect(g, decay, hops, scores, items, v) == Spread(g, decay, src, Left(hops, 0), v)
      decreases TotalSize(g, hops, items)
    {
      var it, rest := items[0], items[1..];
      forall v ensures Prospect(g, decay, hops, scores, items, v) == Prospect(g, decay, hops, scores, rest, v)
          + (if it.depth < hops
            then it.influence * SpreadOver(g, decay, Out(g, it.node), Left(hops, it.depth + 1), v) else 0.0)
      {
        PopItem(g, decay, hops, scores, items, v);
      }
      PopSize(g, hops, items);
      items := rest;
      if it.depth < hops {
        scores, items := ExpandItem(g, decay, hops, it, scores, items);
      }
    }
    forall v ensures Score(scores, v) == WalkSum(g, decay, src, Left(hops, 0), v) {
      EndProspect(g, decay, hops, scores, v);
      SpreadIsWalkSum(g, decay, src, Left(hops, 0), v);
    }
    return Ok(scores - {src});
  }

  lemma StartProspect(g: Graph, decay: real, hops: int, src: Id, v: Id)
    ensures Prospect(g, decay, hops, map[], [Item(src, 1.0, 0)], v) == Spread(g, decay, src, Left(hops, 0), v)
  {
    SumSnoc([], Item(src, 1.0, 0), Worth(g, decay, hops, v));
    assert [] + [Item(src, 1.0, 0)] == [Item(src, 1.0, 0)];
    hide Spread;
  }

  lemma EndProspect(g: Graph, decay: real, hops: int, scores: map<Id, real>, v: Id)
    ensures Prospect(g, decay, hops, scores, [], v) == Score(scores, v)
  {
  }
}
