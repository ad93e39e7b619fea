/** Weighted PageRank by power iteration (graph/graph_store.py). The operator is stated as a matrix;
    the loops, which scatter rank along edges, are proved to apply it. */
module PageRank {
  import opened Sums
  import opened Markov
  import opened Graphs

  type Rank = map<Id, real>

  // ----- the operator, as a matrix

  /** The value a rank dictionary gives a node. */
  ghost function At(r: Rank): Id -> real
  {
    u => if u in r then r[u] else 0.0
  }

  function Weights(es: seq<Edge>): real
  {
    if es == [] then 0.0 else Weights(es[..|es| - 1]) + es[|es| - 1].weight
  }

  function OutWeight(g: Graph, u: Id): real
  {
    Weights(Out(g, u))
  }

  /** Total weight of the edges in es that end at v. */
  ghost function WeightTo(es: seq<Edge>, v: Id): real
  {
    if es == [] then
      0.0
    else
      var e := es[|es| - 1];
      WeightTo(es[..|es| - 1], v) + (if e.to == v then e.weight else 0.0)
  }

  ghost function Targets(es: seq<Edge>): Id -> real
  {
    v => WeightTo(es, v)
  }

  /** The share of u's rank that one iteration moves to v: along edges in proportion to their
      weight, or evenly to all n nodes when u has no out-weight. */
  ghost function Share(g: Graph, n: nat, d: real, u: Id, v: Id): real
    requires n > 0
  {
    if OutWeight(g, u) == 0.0 then d / n as real else d / OutWeight(g, u) * WeightTo(Out(g, u), v)
  }

  ghost function Kernel(g: Graph, n: nat, d: real): Matrix<Id>
    requires n > 0
  {
    (u, v) => Share(g, n, d, u, v)
  }

  ghost function Teleport(n: nat, d: real): (c: real)
    requires n > 0
    ensures n as real * c == 1.0 - d
    ensures d <= 1.0 ==> c >= 0.0
  {
    (1.0 - d) / n as real
  }

  ghost function PushRank(nodes: seq<Id>, k: Matrix<Id>, c: real, r: Rank): Rank
  {
    map v | v in nodes :: Push(k, nodes, c, At(r))(v)
  }

  /** One application of the PageRank operator. */
  ghost function Step(nodes: seq<Id>, g: Graph, d: real, r: Rank): Rank
    requires nodes != []
  {
    PushRank(nodes, Kernel(g, |nodes|, d), Teleport(|nodes|, d), r)
  }

  ghost function Uniform(nodes: seq<Id>): Rank
    requires nodes != []
  {
    map v | v in nodes :: 1.0 / |nodes| as real
  }

  ghost function Iterate(nodes: seq<Id>, g: Graph, d: real, k: nat): Rank
    requires nodes != []
  {
    if k == 0 then Uniform(nodes) else Step(nodes, g, d, Iterate(nodes, g, d, k - 1))
  }

  ghost function Total(nodes: seq<Id>, r: Rank): real
  {
    Sum(nodes, At(r))
  }

  /** The L1 distance of two rank vectors. */
  ghost function Dist(nodes: seq<Id>, r: Rank, s: Rank): real
  {
    Sum(nodes, AbsOf(Minus(At(r), At(s))))
  }

  ghost predicate NonNegativeWeights(g: Graph)
  {
    forall u, i :: u in g && 0 <= i < |g[u]| ==> g[u][i].weight >= 0.0
  }

  // ----- the rows of the matrix

  lemma {:induction false} WeightToTotal(nodes: seq<Id>, es: seq<Edge>)
    requires Distinct(nodes) && forall i :: 0 <= i < |es| ==> es[i].to in nodes
    ensures Sum(nodes, Targets(es)) == Weights(es)
    decreases |es|
  {
    if es == [] {
      SumConst(nodes, Targets(es), 0.0);
    } else {
      var k := |es| - 1;
      WeightToTotal(nodes, es[..k]);
      SumPoint(nodes, Targets(es[..k]), Targets(es), es[k].to, es[k].weight);
    }
  }

  lemma RowSum(nodes: seq<Id>, g: Graph, d: real, u: Id)
    requires nodes != [] && Sum(nodes, Targets(Out(g, u))) == OutWeight(g, u)
    ensures Sum(nodes, Row(Kernel(g, |nodes|, d), u)) == d
  {
    hide Sum;
    var n, ow, row := |nodes|, OutWeight(g, u), Row(Kernel(g, |nodes|, d), u);
    if ow == 0.0 {
      SumConst(nodes, row, d / n as real);
    } else {
      SumLinear(nodes, Targets(Out(g, u)), Targets(Out(g, u)), row, d / ow, 0.0);
    }
  }

  /** A node sends out d of its rank. This is where an edge ending outside the node set would leak. */
  lemma ClosedRows(nodes: seq<Id>, g: Graph, d: real)
    requires nodes != [] && Closed(nodes, g)
    ensures RowsAddTo(Kernel(g, |nodes|, d), nodes, d)
  {
    forall u | u in nodes ensures Sum(nodes, Row(Kernel(g, |nodes|, d), u)) == d {
      assert Sum(nodes, Targets(Out(g, u))) == OutWeight(g, u) by { WeightToTotal(nodes, Out(g, u)); }
      RowSum(nodes, g, d, u);
    }
  }

  lemma {:induction false} WeightToNonNegative(es: seq<Edge>, v: Id)
    requires forall i :: 0 <= i < |es| ==> es[i].weight >= 0.0
    ensures WeightTo(es, v) >= 0.0 && Weights(es) >= 0.0
    decreases |es|
  {
    if es != [] {
      WeightToNonNegative(es[..|es| - 1], v);
    }
  }

  lemma KernelNonNegative(g: Graph, n: nat, d: real)
    requires n > 0 && NonNegativeWeights(g) && 0.0 <= d
    ensures NonNegative(Kernel(g, n, d))
  {
    forall u, v ensures Share(g, n, d, u, v) >= 0.0 {
      WeightToNonNegative(Out(g, u), v);
      ShareSign(d, n as real, OutWeight(g, u), WeightTo(Out(g, u), v));
    }
  }

  lemma ShareSign(d: real, n: real, ow: real, w: real)
    requires 0.0 <= d && 0.0 < n && 0.0 <= ow && 0.0 <= w
    ensures d / n >= 0.0 && (ow != 0.0 ==> d / ow * w >= 0.0)
  {
    if ow != 0.0 {
      assert d / ow >= 0.0;
    }
  }

  // ----- one step, for any matrix

  lemma PushRankTotal(nodes: seq<Id>, k: Matrix<Id>, d: real, c: real, r: Rank)
    requires RowsAddTo(k, nodes, d)
    ensures Total(nodes, PushRank(nodes, k, c, r)) == |nodes| as real * c + d * Total(nodes, r)
  {
    SumSame(nodes, At(PushRank(nodes, k, c, r)), Push(k, nodes, c, At(r)));
    PushTotal(k, nodes, d, c, At(r));
  }

  lemma PushRankContracts(nodes: seq<Id>, k: Matrix<Id>, d: real, c: real, r: Rank, s: Rank)
    requires RowsAddTo(k, nodes, d) && NonNegative(k)
    ensures Dist(nodes, PushRank(nodes, k, c, r), PushRank(nodes, k, c, s)) <= d * Dist(nodes, r, s)
  {
    hide Sum;
    PushContracts(k, nodes, d, c, At(r), At(s));
    DistanceSame(nodes, At(PushRank(nodes, k, c, r)), At(PushRank(nodes, k, c, s)),
                 Push(k, nodes, c, At(r)), Push(k, nodes, c, At(s)));
  }

  lemma FixedRankNorm(nodes: seq<Id>, k: Matrix<Id>, d: real, c: real, r: Rank)
    requires RowsAddTo(k, nodes, d) && NonNegative(k) && d < 1.0
    requires c >= 0.0 && |nodes| as real * c == 1.0 - d
    requires PushRank(nodes, k, c, r) == r
    ensures Sum(nodes, AbsOf(At(r))) <= 1.0
  {
    forall v | v in nodes ensures At(r)(v) == Push(k, nodes, c, At(r))(v) {
      assert v in PushRank(nodes, k, c, r);
    }
    FixedPointNorm(k, nodes, d, c, At(r));
  }

  // ----- conservation, floor, contraction

  lemma UniformTotal(nodes: seq<Id>)
    requires nodes != []
    ensures Total(nodes, Uniform(nodes)) == 1.0
    ensures forall v :: At(Uniform(nodes))(v) >= 0.0
  {
    SumConst(nodes, At(Uniform(nodes)), 1.0 / |nodes| as real);
  }

  /** One iteration turns a total of t into (1 - d) + d * t. */
  lemma StepTotal(nodes: seq<Id>, g: Graph, d: real, r: Rank)
    requires nodes != [] && Closed(nodes, g)
    ensures Total(nodes, Step(nodes, g, d, r)) == (1.0 - d) + d * Total(nodes, r)
  {
    hide Sum;
    ClosedRows(nodes, g, d);
    PushRankTotal(nodes, Kernel(g, |nodes|, d), d, Teleport(|nodes|, d), r);
  }

  /** Every iterate is exactly one unit of rank, whatever the damping and the signs of the weights. */
  lemma {:induction false} MassIsOne(nodes: seq<Id>, g: Graph, d: real, k: nat)
    requires nodes != [] && Closed(nodes, g)
    ensures Total(nodes, Iterate(nodes, g, d, k)) == 1.0
  {
    if k == 0 {
      UniformTotal(nodes);
    } else {
      MassIsOne(nodes, g, d, k - 1);
      StepTotal(nodes, g, d, Iterate(nodes, g, d, k - 1));
    }
  }

  /** No node falls below the teleport share. */
  lemma {:induction false} RankFloor(nodes: seq<Id>, g: Graph, d: real, k: nat, v: Id)
    requires nodes != [] && NonNegativeWeights(g) && 0.0 <= d <= 1.0 && v in nodes
    ensures v in Iterate(nodes, g, d, k) && Iterate(nodes, g, d, k)[v] >= (1.0 - d) / |nodes| as real
  {
    if k > 0 {
      var r, c := Iterate(nodes, g, d, k - 1), Teleport(|nodes|, d);
      forall u | u in nodes ensures At(r)(u) >= 0.0 {
        RankFloor(nodes, g, d, k - 1, u);
        assert c == (1.0 - d) / |nodes| as real;
      }
      KernelNonNegative(g, |nodes|, d);
      PushFloor(Kernel(g, |nodes|, d), nodes, c, At(r), v);
    }
  }

  /** One iteration brings any two rank vectors closer by at least the factor d. */
  lemma StepContracts(nodes: seq<Id>, g: Graph, d: real, r: Rank, s: Rank)
    requires nodes != [] && Closed(nodes, g) && NonNegativeWeights(g) && 0.0 <= d
    ensures Dist(nodes, Step(nodes, g, d, r), Step(nodes, g, d, s)) <= d * Dist(nodes, r, s)
  {
    ClosedRows(nodes, g, d);
    KernelNonNegative(g, |nodes|, d);
    PushRankContracts(nodes, Kernel(g, |nodes|, d), d, Teleport(|nodes|, d), r, s);
  }

  function Power(d: real, k: nat): real
  {
    if k == 0 then 1.0 else d * Power(d, k - 1)
  }

  lemma FixedPointIsSmall(nodes: seq<Id>, g: Graph, d: real, fixed: Rank)
    requires nodes != [] && Closed(nodes, g) && NonNegativeWeights(g) && 0.0 <= d < 1.0
    requires Step(nodes, g, d, fixed) == fixed
    ensures Sum(nodes, AbsOf(At(fixed))) <= 1.0
  {
    ClosedRows(nodes, g, d);
    KernelNonNegative(g, |nodes|, d);
    FixedRankNorm(nodes, Kernel(g, |nodes|, d), d, Teleport(|nodes|, d), fixed);
  }

  lemma StartDistance(nodes: seq<Id>, g: Graph, d: real, fixed: Rank)
    requires nodes != [] && Closed(nodes, g) && NonNegativeWeights(g) && 0.0 <= d < 1.0
    requires Step(nodes, g, d, fixed) == fixed
    ensures Dist(nodes, Uniform(nodes), fixed) <= 2.0
  {
    hide Sum;
    FixedPointIsSmall(nodes, g, d, fixed);
    UniformTotal(nodes);
    hide Uniform, NonNegativeWeights;
    DistanceAtMostTwo(nodes, At(Uniform(nodes)), At(fixed));
  }

  lemma ShrinkTwice(d: real, before: real, after: real, p: real)
    requires 0.0 <= d && after <= d * before && before <= 2.0 * p
    ensures after <= 2.0 * (d * p)
  {
    assert d * before <= d * (2.0 * p);
  }

  /** k iterations end within 2 * d^k of any fixed point. */
  lemma {:induction false} Convergence(nodes: seq<Id>, g: Graph, d: real, k: nat, fixed: Rank)
    requires nodes != [] && Closed(nodes, g) && NonNegativeWeights(g) && 0.0 <= d < 1.0
    requires Step(nodes, g, d, fixed) == fixed
    ensures Dist(nodes, Iterate(nodes, g, d, k), fixed) <= 2.0 * Power(d, k)
  {
    hide Dist, Step;
    if k == 0 {
      StartDistance(nodes, g, d, fixed);
    } else {
      var before := Iterate(nodes, g, d, k - 1);
      Convergence(nodes, g, d, k - 1, fixed);
      StepContracts(nodes, g, d, before, fixed);
      ShrinkTwice(d, Dist(nodes, before, fixed), Dist(nodes, Iterate(nodes, g, d, k), fixed), Power(d, k - 1));
    }
  }

  /** Every iterate is non-negative with total one, so it is at most two away from the start. */
  lemma IterateNearStart(nodes: seq<Id>, g: Graph, d: real, m: nat)
    requires nodes != [] && Closed(nodes, g) && NonNegativeWeights(g) && 0.0 <= d < 1.0
    ensures Dist(nodes, Uniform(nodes), Iterate(nodes, g, d, m)) <= 2.0
  {
    var r := Iterate(nodes, g, d, m);
    MassIsOne(nodes, g, d, m);
    forall v | v in nodes ensures AbsOf(At(r))(v) == At(r)(v) {
      RankFloor(nodes, g, d, m, v);
      Floor(d, |nodes| as real);
    }
    hide Iterate, NonNegativeWeights, Sum;
    SumSame(nodes, AbsOf(At(r)), At(r));
    UniformTotal(nodes);
    hide Uniform;
    DistanceAtMostTwo(nodes, At(Uniform(nodes)), At(r));
  }

  lemma Floor(d: real, n: real)
    requires d < 1.0 && n > 0.0
    ensures (1.0 - d) / n >= 0.0
  {
  }

  /** The iterates approach each other geometrically, whether or not a fixed point is known. */
  lemma {:induction false} IteratesApproach(nodes: seq<Id>, g: Graph, d: real, k: nat, m: nat)
    requires nodes != [] && Closed(nodes, g) && NonNegativeWeights(g) && 0.0 <= d < 1.0
    ensures Dist(nodes, Iterate(nodes, g, d, k), Iterate(nodes, g, d, k + m)) <= 2.0 * Power(d, k)
    decreases k
  {
    hide Dist, Step;
    if k == 0 {
      IterateNearStart(nodes, g, d, m);
    } else {
      var r, s := Iterate(nodes, g, d, k - 1), Iterate(nodes, g, d, k - 1 + m);
      IteratesApproach(nodes, g, d, k - 1, m);
      StepContracts(nodes, g, d, r, s);
      ShrinkTwice(d, Dist(nodes, r, s), Dist(nodes, Step(nodes, g, d, r), Step(nodes, g, d, s)), Power(d, k - 1));
    }
  }

  lemma {:induction false} NoDistance(nodes: seq<Id>, r: Rank, s: Rank, v: Id)
    requires Dist(nodes, r, s) <= 0.0 && v in nodes
    ensures At(r)(v) == At(s)(v)
  {
    var f := AbsOf(Minus(At(r), At(s)));
    SumZero(nodes, f, v);
  }

  /** There is at most one fixed point. */
  lemma FixedPointIsUnique(nodes: seq<Id>, g: Graph, d: real, r: Rank, s: Rank)
    requires nodes != [] && Closed(nodes, g) && NonNegativeWeights(g) && 0.0 <= d < 1.0
    requires Step(nodes, g, d, r) == r && Step(nodes, g, d, s) == s
    ensures r == s
  {
    StepContracts(nodes, g, d, r, s);
    assert r.Keys == s.Keys == set v | v in nodes;
    hide Step, Dist;
    assert Dist(nodes, r, s) <= 0.0 by { NonPositiveFactor(1.0 - d, Dist(nodes, r, s)); }
    forall v | v in r ensures r[v] == s[v] {
      NoDistance(nodes, r, s, v);
    }
  }

  // ----- the loops

  /** What u adds to v in the edge loops; nothing for a node without out-weight. */
  ghost function Scatter(g: Graph, d: real, r: Rank, v: Id): Id -> real
  {
    u => if OutWeight(g, u) == 0.0 then 0.0 else d * At(r)(u) / OutWeight(g, u) * WeightTo(Out(g, u), v)
  }

  ghost function Dangling(g: Graph, r: Rank): Id -> real
  {
    u => if OutWeight(g, u) == 0.0 then At(r)(u) else 0.0
  }

  lemma ShareSplit(d: real, n: real, ow: real, w: real, x: real)
    requires n != 0.0
    ensures x * (d / n) == d / n * x == d * x / n
    ensures ow != 0.0 ==> x * (d / ow * w) == d * x / ow * w
  {
    if ow != 0.0 {
      assert d * x / ow == d / ow * x;
    }
  }

  lemma ColumnSplit(g: Graph, n: nat, d: real, r: Rank, u: Id, v: Id)
    requires n > 0
    ensures At(r)(u) * Kernel(g, n, d)(u, v) == d / n as real * Dangling(g, r)(u) + Scatter(g, d, r, v)(u)
  {
    hide OutWeight, WeightTo, At;
    ShareSplit(d, n as real, OutWeight(g, u), WeightTo(Out(g, u), v), At(r)(u));
  }

  lemma ColumnSplits(g: Graph, n: nat, d: real, a: real, r: Rank, v: Id)
    requires n > 0 && a == d / n as real
    ensures forall u :: At(r)(u) * Kernel(g, n, d)(u, v) == a * Dangling(g, r)(u) + Scatter(g, d, r, v)(u)
  {
    forall u ensures At(r)(u) * Kernel(g, n, d)(u, v) == a * Dangling(g, r)(u) + Scatter(g, d, r, v)(u) {
      ColumnSplit(g, n, d, r, u, v);
    }
  }

  /** Spreading dangling rank evenly and then scattering along edges applies the matrix. */
  lemma LoopsApplyFlow(nodes: seq<Id>, g: Graph, d: real, a: real, r: Rank, v: Id)
    requires nodes != [] && a == d / |nodes| as real
    ensures Flow(Kernel(g, |nodes|, d), nodes, At(r))(v)
         == a * Sum(nodes, Dangling(g, r)) + Sum(nodes, Scatter(g, d, r, v))
  {
    hide *;
    ColumnSplits(g, |nodes|, d, a, r, v);
    FlowSplit(Kernel(g, |nodes|, d), nodes, At(r), v, a, Dangling(g, r), Scatter(g, d, r, v));
  }

  method TotalDangling(nodes: seq<Id>, g: Graph, outWeight: Rank, rank: Rank) returns (sum: real)
    requires forall u :: u in nodes ==> u in outWeight && u in rank && outWeight[u] == OutWeight(g, u)
    ensures sum == Sum(nodes, Dangling(g, rank))
  {
    sum := 0.0;
    for i := 0 to |nodes|
      invariant sum == Sum(nodes[..i], Dangling(g, rank))
    {
      var u := nodes[i];
      SumTake(nodes, i, Dangling(g, rank));
      assert u in nodes;
      assert outWeight[u] == OutWeight(g, u);
      assert At(rank)(u) == rank[u];
      assert Dangling(g, rank)(u) == if outWeight[u] == 0.0 then rank[u] else 0.0;
      sum := sum + (if outWeight[u] == 0.0 then rank[u] else 0.0);
    }
    assert nodes[..|nodes|] == nodes;
  }

  /** What the edges es bring to v when each unit of weight carries `share`. */
  ghost function Delivered(es: seq<Edge>, share: real, v: Id): real
  {
    if es == [] then
      0.0
    else
      var e := es[|es| - 1];
      Delivered(es[..|es| - 1], share, v) + (if e.to == v then share * e.weight else 0.0)
  }

  lemma {:induction false} DeliveredIsShare(es: seq<Edge>, share: real, v: Id)
    ensures Delivered(es, share, v) == share * WeightTo(es, v)
    decreases |es|
  {
    if es != [] {
      var e := es[|es| - 1];
      DeliveredIsShare(es[..|es| - 1], share, v);
      var w := if e.to == v then e.weight else 0.0;
      assert share * WeightTo(es, v) == share * WeightTo(es[..|es| - 1], v) + share * w;
    }
  }

  lemma DeliveredNext(es: seq<Edge>, j: nat, share: real, v: Id)
    requires j < |es|
    ensures Delivered(es[..j + 1], share, v)
      == Delivered(es[..j], share, v) + (if es[j].to == v then share * es[j].weight else 0.0)
  {
    assert es[..j + 1][..j] == es[..j];
  }

  /** The inner loop over one node's edges. */
  method ScatterEdges(es: seq<Edge>, share: real, before: Rank) returns (after: Rank)
    requires forall i :: 0 <= i < |es| ==> es[i].to in before
    ensures after.Keys == before.Keys
    ensures forall v :: v in before ==> after[v] == before[v] + Delivered(es, share, v)
  {
    after := before;
    for j := 0 to |es|
      invariant after.Keys == before.Keys
      invariant forall v :: v in before ==> after[v] == before[v] + Delivered(es[..j], share, v)
    {
      hide Delivered;
      forall v {
        DeliveredNext(es, j, share, v);
      }
      var part := share * es[j].weight;
      after := after[es[j].to := after[es[j].to] + part];
    }
    assert es[..|es|] == es;
  }

  /** What one node's inner loop delivers is its summand in the gather form. */
  lemma DeliveredIsScatter(g: Graph, d: real, r: Rank, u: Id, ow: real, share: real, v: Id)
    requires u in r && ow == OutWeight(g, u) != 0.0 && share == d * r[u] / ow
    ensures Delivered(Out(g, u), share, v) == Scatter(g, d, r, v)(u)
  {
    DeliveredIsShare(Out(g, u), share, v);
    assert At(r)(u) == r[u];
  }

  /** One node's turn in the edge loops. */
  method ScatterNode(g: Graph, damping: real, u: Id, ow: real, rank: Rank, before: Rank) returns (after: Rank)
    requires u in rank && ow == OutWeight(g, u)
    requires forall i :: 0 <= i < |Out(g, u)| ==> Out(g, u)[i].to in before
    ensures after.Keys == before.Keys
    ensures forall v :: v in before ==> after[v] == before[v] + Scatter(g, damping, rank, v)(u)
  {
    if ow == 0.0 {
      return before;
    }
    var share := damping * rank[u] / ow;
    forall v ensures Delivered(Out(g, u), share, v) == Scatter(g, damping, rank, v)(u) {
      DeliveredIsScatter(g, damping, rank, u, ow, share, v);
    }
    after := ScatterEdges(Out(g, u), share, before);
  }

  method ScatterNodes(nodes: seq<Id>, g: Graph, damping: real, outWeight: Rank, rank: Rank, before: Rank)
    returns (after: Rank)
    requires Closed(nodes, g) && forall u :: u in nodes ==> u in before
    requires forall u :: u in nodes ==> u in outWeight && u in rank && outWeight[u] == OutWeight(g, u)
    ensures after.Keys == before.Keys
    ensures forall v :: v in before ==> after[v] == before[v] + Sum(nodes, Scatter(g, damping, rank, v))
  {
    after := before;
    for i := 0 to |nodes|
      invariant after.Keys == before.Keys
      invariant forall v :: v in before ==> after[v] == before[v] + Sum(nodes[..i], Scatter(g, damping, rank, v))
    {
      var u := nodes[i];
      assert u in nodes;
      forall v ensures Sum(nodes[..i + 1], Scatter(g, damping, rank, v))
                    == Sum(nodes[..i], Scatter(g, damping, rank, v)) + Scatter(g, damping, rank, v)(u) {
        SumTake(nodes, i, Scatter(g, damping, rank, v));
      }
      hide Sum, Scatter;
      after := ScatterNode(g, damping, u, outWeight[u], rank, after);
    }
    assert nodes[..|nodes|] == nodes;
  }

  method OneIteration(nodes: seq<Id>, g: Graph, damping: real, outWeight: Rank, rank: Rank) returns (newRank: Rank)
    requires nodes != [] && Closed(nodes, g)
    requires forall u :: u in nodes ==> u in outWeight && u in rank && outWeight[u] == OutWeight(g, u)
    ensures newRank == Step(nodes, g, damping, rank)
  {
    hide Sum, Scatter, Dangling, Step, Closed;
    var n := |nodes|;
    var lost := TotalDangling(nodes, g, outWeight, rank);
    var base := (1.0 - damping) / n as real + damping * lost / n as real;
    newRank := map v | v in nodes :: base;
    newRank := ScatterNodes(nodes, g, damping, outWeight, rank, newRank);
    IterationIsStep(nodes, g, damping, rank, lost, base, newRank);
  }

  lemma IterationIsStep(nodes: seq<Id>, g: Graph, d: real, r: Rank, lost: real, base: real, s: Rank)
    requires nodes != [] && s.Keys == set v | v in nodes
    requires lost == Sum(nodes, Dangling(g, r))
    requires base == (1.0 - d) / |nodes| as real + d * lost / |nodes| as real
    requires forall v :: v in s ==> s[v] == base + Sum(nodes, Scatter(g, d, r, v))
    ensures s == Step(nodes, g, d, r)
  {
    hide Sum, Kernel, Dangling, Scatter;
    var a := d / |nodes| as real;
    ShareSplit(d, |nodes| as real, 0.0, 0.0, lost);
    forall v | v in nodes ensures s[v] == Step(nodes, g, d, r)[v] {
      LoopsApplyFlow(nodes, g, d, a, r, v);
    }
  }

  method Compute(nodes: seq<Id>, g: Graph, damping: real, iterations: int) returns (rank: Rank)
    requires Closed(nodes, g)
    ensures nodes == [] ==> rank == map[]
    ensures nodes != [] ==> rank == Iterate(nodes, g, damping, if iterations < 0 then 0 else iterations)
  {
    if nodes == [] {
      return map[];
    }
    rank := map v | v in nodes :: 1.0 / |nodes| as real;
    var outWeight := map u | u in nodes :: OutWeight(g, u);
    var count := if iterations < 0 then 0 else iterations;
    for k := 0 to count
      invariant rank == Iterate(nodes, g, damping, k)
      invariant forall u :: u in nodes ==> u in rank
    {
      hide Closed, OutWeight;
      rank := OneIteration(nodes, g, damping, outWeight, rank);
    }
    rank := Normalise(nodes, g, damping, count, rank);
  }

  /** The final division by the total: it divides by one. */
  method Normalise(nodes: seq<Id>, g: Graph, ghost d: real, ghost k: nat, rank: Rank) returns (r: Rank)
    requires nodes != [] && Closed(nodes, g) && rank == Iterate(nodes, g, d, k)
    ensures r == rank
  {
    var total := 0.0;
    for i := 0 to |nodes|
      invariant total == Sum(nodes[..i], At(rank))
    {
      SumTake(nodes, i, At(rank));
      total := total + rank[nodes[i]];
    }
    assert nodes[..|nodes|] == nodes;
    MassIsOne(nodes, g, d, k);
    if total == 0.0 {
      total := 1.0;
    }
    r := map v | v in rank :: rank[v] / total;
  }
}
