/** Dijkstra's algorithm with lazy deletion (graph/query.py): there is no visited set, and stale heap
    entries are expanded again. */
module ShortestPath {
  import opened Sums
  import opened Graphs
  import opened Numbers
  import opened Options

  // ----- what is to be found

  ghost predicate Positive(es: seq<Edge>)
  {
    forall i :: 0 <= i < |es| ==> es[i].weight > 0.0
  }

  /** What a walk costs: the sum of 1 / weight over its edges. */
  ghost function Cost(es: seq<Edge>): real
    requires Positive(es)
  {
    if es == [] then 0.0 else Cost(es[..|es| - 1]) + 1.0 / es[|es| - 1].weight
  }

  /** The step the search takes over an edge: stronger edges are shorter. */
  function Length(e: Edge): (c: real)
    requires e.weight > 0.0
    ensures c > 0.0 && c * e.weight == 1.0
  {
    1.0 / e.weight
  }

  ghost predicate Route(g: Graph, src: Id, es: seq<Edge>, v: Id)
  {
    IsWalk(g, src, es, v) && Positive(es)
  }

  /** The nodes a walk visits. */
  ghost function Stops(src: Id, es: seq<Edge>): seq<Id>
  {
    if es == [] then [src] else Stops(src, es[..|es| - 1]) + [es[|es| - 1].to]
  }

  /** The stops of a walk start at src, end at v, and its edges lead from each to the next. */
  lemma {:induction false} StopsFollowEdges(g: Graph, src: Id, es: seq<Edge>, v: Id)
    requires IsWalk(g, src, es, v)
    ensures var stops := Stops(src, es);
      && |stops| == |es| + 1 && stops[0] == src && stops[|es|] == v
      && forall i :: 0 <= i < |es| ==> stops[i] == es[i].from && stops[i + 1] == es[i].to
    decreases |es|
  {
    if es != [] {
      var k := |es| - 1;
      StopsFollowEdges(g, src, es[..k], es[k].from);
    }
  }

  /** Making edges stronger makes a walk cheaper. */
  lemma {:induction false} StrongerIsCheaper(es: seq<Edge>, fs: seq<Edge>)
    requires Positive(es) && |es| == |fs| && forall i :: 0 <= i < |es| ==> es[i].weight <= fs[i].weight
    ensures Positive(fs) && Cost(fs) <= Cost(es)
    decreases |es|
  {
    if es != [] {
      var k := |es| - 1;
      StrongerIsCheaper(es[..k], fs[..k]);
      ReciprocalsFall(es[k].weight, fs[k].weight);
    }
  }

  lemma ReciprocalsFall(x: real, y: real)
    requires 0.0 < x <= y
    ensures 1.0 / y <= 1.0 / x
  {
    var a, b := 1.0 / x, 1.0 / y;
    assert a * x == 1.0 && b * y == 1.0;
    assert b * (x * y) == x && a * (x * y) == y;
    TimesOrder(b, a, x * y);
  }

  /** A detour over two edges is cheaper than a direct edge exactly when the direct one is weaker than
      half the harmonic mean of the two. */
  lemma DetourPays(direct: Edge, first: Edge, second: Edge)
    requires direct.weight > 0.0 && first.weight > 0.0 && second.weight > 0.0
    ensures Cost([first, second]) < Cost([direct])
      <==> direct.weight * (first.weight + second.weight) < first.weight * second.weight
  {
    assert [direct][..0] == [] && [first, second][..1] == [first] && [first][..0] == [];
    assert Cost([first, second]) == Cost([first]) + 1.0 / second.weight;
    Detour(direct.weight, first.weight, second.weight);
  }

  lemma Detour(d: real, x: real, y: real)
    requires d > 0.0 && x > 0.0 && y > 0.0
    ensures 1.0 / x + 1.0 / y < 1.0 / d <==> d * (x + y) < x * y
  {
    var a, b, c := 1.0 / x, 1.0 / y, 1.0 / d;
    assert a * x == 1.0 && b * y == 1.0 && c * d == 1.0;
    var all := d * (x * y);
    assert x * y > 0.0;
    assert all > 0.0;
    Cleared(a, b, c, d, x, y);
    if a + b < c {
      assert (c - (a + b)) * all > 0.0;
    } else {
      assert (a + b - c) * all >= 0.0;
    }
  }

  lemma Cleared(a: real, b: real, c: real, d: real, x: real, y: real)
    requires a * x == 1.0 && b * y == 1.0 && c * d == 1.0
    ensures (a + b) * (d * (x * y)) == d * (x + y)
    ensures c * (d * (x * y)) == x * y
  {
    assert a * (d * (x * y)) == (a * x) * (d * y);
    assert b * (d * (x * y)) == (b * y) * (d * x);
    assert c * (d * (x * y)) == (c * d) * (x * y);
  }

  ghost predicate Cheapest(g: Graph, src: Id, es: seq<Edge>, v: Id)
  {
    Route(g, src, es, v) && forall fs :: Route(g, src, fs, v) ==> Cost(es) <= Cost(fs)
  }

  lemma {:induction false} CostNonNegative(es: seq<Edge>)
    requires Positive(es)
    ensures Cost(es) >= 0.0
    decreases |es|
  {
    if es != [] {
      CostNonNegative(es[..|es| - 1]);
    }
  }

  // ----- counting edges

  function PositiveCount(es: seq<Edge>): nat
  {
    if es == [] then 0 else PositiveCount(es[..|es| - 1]) + (if es[|es| - 1].weight > 0.0 then 1 else 0)
  }

  /** How many positive edges leave nodes not in done. */
  ghost function Remaining(nodes: seq<Id>, g: Graph, done: set<Id>): nat
  {
    if nodes == [] then
      0
    else
      var last := nodes[|nodes| - 1];
      Remaining(nodes[..|nodes| - 1], g, done) + (if last in done then 0 else PositiveCount(Out(g, last)))
  }

  lemma {:induction false} RemainingSame(nodes: seq<Id>, g: Graph, done: set<Id>, u: Id)
    requires u !in nodes
    ensures Remaining(nodes, g, done + {u}) == Remaining(nodes, g, done)
    decreases |nodes|
  {
    if nodes != [] {
      RemainingSame(nodes[..|nodes| - 1], g, done, u);
    }
  }

  lemma {:induction false} RemainingDrops(nodes: seq<Id>, g: Graph, done: set<Id>, u: Id)
    requires Distinct(nodes) && u in nodes && u !in done
    ensures Remaining(nodes, g, done + {u}) == Remaining(nodes, g, done) - PositiveCount(Out(g, u))
    decreases |nodes|
  {
    var k := |nodes| - 1;
    if nodes[k] == u {
      RemainingSame(nodes[..k], g, done, u);
    } else {
      RemainingDrops(nodes[..k], g, done, u);
    }
  }

  // ----- the heap

  datatype Entry = Entry(cost: real, node: Id, path: seq<Id>)

  /** The entry stands for a walk from src. */
  ghost predicate Real(g: Graph, src: Id, en: Entry)
  {
    exists es :: Route(g, src, es, en.node) && Cost(es) == en.cost && Stops(src, es) == en.path
  }

  lemma RealExtends(g: Graph, src: Id, en: Entry, e: Edge)
    requires Filed(g) && Real(g, src, en) && e in Out(g, en.node) && e.weight > 0.0
    ensures Real(g, src, Entry(en.cost + Length(e), e.to, en.path + [e.to]))
  {
    var es :| Route(g, src, es, en.node) && Cost(es) == en.cost && Stops(src, es) == en.path;
    WalkSnoc(g, src, es, en.node, e);
    assert (es + [e])[..|es|] == es;
    assert Route(g, src, es + [e], e.to);
  }

  /** heappop: an entry of least cost; which of several is left open. */
  method PopLeast(heap: seq<Entry>) returns (least: Entry, rest: seq<Entry>)
    requires heap != []
    ensures least in heap && |rest| == |heap| - 1
    ensures forall en :: en in heap <==> en == least || en in rest
    ensures forall en :: en in heap ==> least.cost <= en.cost
  {
    var at := 0;
    for i := 1 to |heap|
      invariant 0 <= at < i
      invariant forall k :: 0 <= k < i ==> heap[at].cost <= heap[k].cost
    {
      if heap[i].cost < heap[at].cost {
        at := i;
      }
    }
    least, rest := heap[at], heap[..at] + heap[at + 1..];
    assert heap == heap[..at] + [least] + heap[at + 1..];
  }

  // ----- the invariant

  ghost predicate HasEntry(heap: seq<Entry>, v: Id, cost: real)
  {
    exists en :: en in heap && en.node == v && en.cost == cost
  }

  /** v's edges have been relaxed from its best cost. */
  ghost predicate Settled(g: Graph, best: map<Id, real>, v: Id)
  {
    v in best && forall e :: e in Out(g, v) && e.weight > 0.0 ==> e.to in best && best[e.to] <= best[v] + Length(e)
  }

  /** The entries stand for walks, cost at least c, and at least the best known cost of their node. */
  ghost predicate EntriesFrom(g: Graph, src: Id, heap: seq<Entry>, best: map<Id, real>, c: real)
  {
    forall x :: x in heap ==> Real(g, src, x) && x.node in best && best[x.node] <= x.cost && c <= x.cost
  }

  /** The settled nodes are settled, no later than c. */
  ghost predicate AllSettled(g: Graph, best: map<Id, real>, done: set<Id>, c: real)
  {
    forall v :: v in done ==> Settled(g, best, v) && best[v] <= c
  }

  /** Every known node outside `except` has an entry at its best cost. */
  ghost predicate Pending(heap: seq<Entry>, best: map<Id, real>, except: set<Id>)
  {
    forall v :: v in best && v !in except ==> HasEntry(heap, v, best[v])
  }

  /** c separates the settled nodes from the entries still in the heap. */
  ghost predicate Inv(g: Graph, src: Id, dst: Id, heap: seq<Entry>, best: map<Id, real>, done: set<Id>, c: real)
  {
    && src in best && best[src] <= 0.0
    && dst !in done
    && EntriesFrom(g, src, heap, best, c)
    && Pending(heap, best, done)
    && AllSettled(g, best, done, c)
  }

  /** Every walk either ends at a settled node no later than it, or costs at least as much as some
      entry of the heap. */
  lemma {:induction false} WalkIsCovered(g: Graph, src: Id, dst: Id, heap: seq<Entry>, best: map<Id, real>,
                                         done: set<Id>, c: real, es: seq<Edge>, v: Id)
    requires Inv(g, src, dst, heap, best, done, c) && Filed(g) && Route(g, src, es, v)
    ensures (exists en :: en in heap && en.cost <= Cost(es)) || (v in done && best[v] <= Cost(es))
    decreases |es|
  {
    hide Real, Settled, Stops;
    if es != [] {
      var k := |es| - 1;
      var e := es[k];
      assert Route(g, src, es[..k], e.from) && Cost(es) == Cost(es[..k]) + Length(e);
      hide Cost, Length, IsWalk;
      WalkIsCovered(g, src, dst, heap, best, done, c, es[..k], e.from);
      if exists en :: en in heap && en.cost <= Cost(es[..k]) {
        var en :| en in heap && en.cost <= Cost(es[..k]);
        assert en.cost <= Cost(es);
      } else {
        SettledStep(g, best, e);
        assert v in done || HasEntry(heap, v, best[v]);
      }
    }
  }

  lemma SettledStep(g: Graph, best: map<Id, real>, e: Edge)
    requires Settled(g, best, e.from) && e in Out(g, e.from) && e.weight > 0.0
    ensures e.to in best && best[e.to] <= best[e.from] + Length(e)
  {
  }

  // ----- one pop

  /** The invariant while the edges of the popped entry are being relaxed. */
  ghost predicate Popped(g: Graph, src: Id, dst: Id, heap: seq<Entry>, best: map<Id, real>, done: set<Id>, en: Entry)
  {
    && src in best && best[src] <= 0.0
    && dst !in done && en.node != dst
    && EntriesFrom(g, src, [en], best, en.cost)
    && (en.node in done || best[en.node] == en.cost)
    && EntriesFrom(g, src, heap, best, en.cost)
    && Pending(heap, best, done + {en.node})
    && AllSettled(g, best, done, en.cost)
  }

  lemma PopKeeps(g: Graph, src: Id, dst: Id, heap: seq<Entry>, best: map<Id, real>, done: set<Id>, c: real, en: Entry,
                 rest: seq<Entry>)
    requires Inv(g, src, dst, heap, best, done, c) && en in heap && en.node != dst
    requires forall x :: x in heap <==> x == en || x in rest
    requires forall x :: x in heap ==> en.cost <= x.cost
    ensures Popped(g, src, dst, rest, best, done, en)
  {
    hide Real, Settled;
    if en.node !in done {
      assert HasEntry(heap, en.node, best[en.node]);
    }
    forall v | v in best && v !in done + {en.node} ensures HasEntry(rest, v, best[v]) {
      assert HasEntry(heap, v, best[v]);
    }
  }

  lemma EntriesPush(g: Graph, src: Id, heap: seq<Entry>, best: map<Id, real>, c: real, x: Entry)
    requires EntriesFrom(g, src, heap, best, c) && Real(g, src, x) && c <= x.cost
    requires x.node !in best || x.cost <= best[x.node]
    ensures EntriesFrom(g, src, heap + [x], best[x.node := x.cost], c)
    ensures EntriesFrom(g, src, heap, best[x.node := x.cost], c)
  {
    hide Real;
  }

  lemma PendingPush(heap: seq<Entry>, best: map<Id, real>, except: set<Id>, x: Entry)
    requires Pending(heap, best, except)
    ensures Pending(heap + [x], best[x.node := x.cost], except)
  {
    var best' := best[x.node := x.cost];
    forall v | v in best' && v !in except ensures HasEntry(heap + [x], v, best'[v]) {
      if v == x.node {
        assert x in heap + [x];
      } else {
        assert HasEntry(heap, v, best[v]);
        var y :| y in heap && y.node == v && y.cost == best[v];
        assert y in heap + [x];
      }
    }
  }

  lemma SettledPush(g: Graph, best: map<Id, real>, done: set<Id>, c: real, u: Id, cost: real)
    requires AllSettled(g, best, done, c) && u !in done && (u in best ==> cost <= best[u])
    ensures AllSettled(g, best[u := cost], done, c)
  {
    forall v | v in done ensures Settled(g, best[u := cost], v) {
      assert Settled(g, best, v);
    }
  }

  lemma SettledAt(g: Graph, best: map<Id, real>, u: Id, e: Edge)
    requires Settled(g, best, u) && e in Out(g, u) && e.weight > 0.0
    ensures e.to in best && best[e.to] <= best[u] + Length(e)
  {
  }

  /** An edge that improves its target leads from an unsettled node to another unsettled one. */
  lemma ImprovingEdge(g: Graph, src: Id, dst: Id, heap: seq<Entry>, best: map<Id, real>, done: set<Id>, en: Entry,
                      e: Edge)
    requires Popped(g, src, dst, heap, best, done, en) && e in Out(g, en.node) && e.weight > 0.0
    requires e.to !in best || en.cost + Length(e) < best[e.to]
    ensures Real(g, src, en) && en.node !in done && e.to !in done && e.to != en.node
  {
    hide Real;
    assert en in [en];
    if en.node in done {
      SettledAt(g, best, en.node, e);
    }
    hide Length, Settled;
  }

  lemma PoppedPush(g: Graph, src: Id, dst: Id, heap: seq<Entry>, best: map<Id, real>, done: set<Id>, en: Entry,
                   x: Entry)
    requires Popped(g, src, dst, heap, best, done, en) && Real(g, src, x) && en.cost <= x.cost
    requires (x.node !in best || x.cost <= best[x.node]) && x.node !in done && x.node != en.node
    ensures Popped(g, src, dst, heap + [x], best[x.node := x.cost], done, en)
  {
    hide Real, Settled, EntriesFrom, Pending, AllSettled;
    EntriesPush(g, src, heap, best, en.cost, x);
    EntriesPush(g, src, [en], best, en.cost, x);
    PendingPush(heap, best, done + {en.node}, x);
    SettledPush(g, best, done, en.cost, x.node, x.cost);
  }

  /** Pushing it keeps the invariant. */
  lemma PushKeeps(g: Graph, src: Id, dst: Id, heap: seq<Entry>, best: map<Id, real>, done: set<Id>, en: Entry, e: Edge)
    requires Filed(g) && Popped(g, src, dst, heap, best, done, en) && e in Out(g, en.node) && e.weight > 0.0
    requires e.to !in best || en.cost + Length(e) < best[e.to]
    ensures en.node !in done
    ensures Popped(g, src, dst, heap + [Entry(en.cost + Length(e), e.to, en.path + [e.to])],
                   best[e.to := en.cost + Length(e)], done, en)
  {
    hide Real, Popped, Length, Filed, Out;
    ImprovingEdge(g, src, dst, heap, best, done, en, e);
    RealExtends(g, src, en, e);
    PoppedPush(g, src, dst, heap, best, done, en, Entry(en.cost + Length(e), e.to, en.path + [e.to]));
  }

  /** The first j edges lead to nodes that are no further than over them. */
  ghost predicate Relaxed(es: seq<Edge>, j: nat, best: map<Id, real>, c: real)
    requires j <= |es|
  {
    forall k :: 0 <= k < j && es[k].weight > 0.0 ==> es[k].to in best && best[es[k].to] <= c + Length(es[k])
  }

  lemma DoneKeeps(g: Graph, src: Id, dst: Id, heap: seq<Entry>, best: map<Id, real>, done: set<Id>, en: Entry)
    requires Popped(g, src, dst, heap, best, done, en)
    requires Relaxed(Out(g, en.node), |Out(g, en.node)|, best, en.cost)
    ensures Inv(g, src, dst, heap, best, done + {en.node}, en.cost)
  {
    hide Real;
    assert en in [en] && Settled(g, best, en.node);
  }

  method RelaxEdges(g: Graph, ghost src: Id, ghost dst: Id, en: Entry, heap: seq<Entry>, best: map<Id, real>,
                    ghost done: set<Id>)
    returns (heap': seq<Entry>, best': map<Id, real>)
    requires Filed(g) && Popped(g, src, dst, heap, best, done, en)
    ensures Inv(g, src, dst, heap', best', done + {en.node}, en.cost)
    ensures |heap'| <= |heap| + (if en.node in done then 0 else PositiveCount(Out(g, en.node)))
  {
    hide Popped, Inv, Filed;
    heap', best' := heap, best;
    var es := Out(g, en.node);
    for j := 0 to |es|
      invariant Popped(g, src, dst, heap', best', done, en)
      invariant Relaxed(es, j, best', en.cost)
      invariant |heap'| <= |heap| + (if en.node in done then 0 else PositiveCount(es[..j]))
    {
      var e := es[j];
      assert es[..j + 1][..j] == es[..j];
      // A non-positive weight makes the step infinite, and no cost is above that.
      if e.weight > 0.0 {
        var newCost := en.cost + Length(e);
        if e.to !in best' || newCost < best'[e.to] {
          PushKeeps(g, src, dst, heap', best', done, en, e);
          best' := best'[e.to := newCost];
          heap' := heap' + [Entry(newCost, e.to, en.path + [e.to])];
        }
      }
    }
    assert es[..|es|] == es;
    DoneKeeps(g, src, dst, heap', best', done, en);
  }

  // ----- the search

  lemma HeapIsEmpty(g: Graph, src: Id, dst: Id, best: map<Id, real>, done: set<Id>, c: real)
    requires Inv(g, src, dst, [], best, done, c) && Filed(g)
    ensures forall es :: !Route(g, src, es, dst)
  {
    forall es | Route(g, src, es, dst) ensures false {
      WalkIsCovered(g, src, dst, [], best, done, c, es, dst);
    }
  }

  lemma LeastIsCheapest(g: Graph, src: Id, dst: Id, heap: seq<Entry>, best: map<Id, real>, done: set<Id>, c: real,
                        en: Entry)
    returns (walk: seq<Edge>)
    requires Inv(g, src, dst, heap, best, done, c) && Filed(g) && en in heap && en.node == dst
    requires forall x :: x in heap ==> en.cost <= x.cost
    ensures Cheapest(g, src, walk, dst) && Stops(src, walk) == en.path
  {
    walk :| Route(g, src, walk, en.node) && Cost(walk) == en.cost && Stops(src, walk) == en.path;
    forall es | Route(g, src, es, dst) ensures Cost(walk) <= Cost(es) {
      WalkIsCovered(g, src, dst, heap, best, done, c, es, dst);
    }
  }

  /** Returns the stops of a cheapest route, or [] exactly when there is none. Every pop takes a
      pushed entry, and there is at most one push per positive edge besides the first. */
  method Find(nodes: seq<Id>, g: Graph, src: Id, dst: Id)
    returns (r: Result<seq<Id>>, ghost walk: seq<Edge>, ghost pops: nat, ghost pushes: nat)
    requires Closed(nodes, g)
    ensures r.Missing? <==> src !in g || dst !in g
    ensures r.Ok? && r.value != [] ==> Cheapest(g, src, walk, dst) && r.value == Stops(src, walk)
    ensures r.Ok? && r.value == [] ==> forall es :: !Route(g, src, es, dst)
    ensures pops <= pushes <= 1 + Remaining(nodes, g, {})
  {
    walk, pops, pushes := [], 0, 0;
    if src !in g || dst !in g {
      return Missing, walk, pops, pushes;
    }
    if src == dst {
      StayingIsCheapest(g, src);
      return Ok([src]), walk, pops, pushes;
    }
    var heap := [Entry(0.0, src, [src])];
    var best := map[src := 0.0];
    ghost var done: set<Id>, c := {}, 0.0;
    pushes := 1;
    StartKeeps(g, src, dst);
    hide Inv, Closed, Cheapest, Filed;
    while heap != []
      invariant Inv(g, src, dst, heap, best, done, c)
      invariant pops + |heap| == pushes
      invariant pushes + Remaining(nodes, g, done) <= 1 + Remaining(nodes, g, {})
      decreases Remaining(nodes, g, done) + |heap|
    {
      ghost var before := heap;
      var en, rest := PopLeast(heap);
      pops := pops + 1;
      if en.node == dst {
        walk := LeastIsCheapest(g, src, dst, before, best, done, c, en);
        return Ok(en.path), walk, pops, pushes;
      }
      PopKeeps(g, src, dst, before, best, done, c, en, rest);
      heap, best := RelaxEdges(g, src, dst, en, rest, best, done);
      SettleCount(nodes, g, done, en.node);
      pushes := pushes + |heap| - |rest|;
      done, c := done + {en.node}, en.cost;
    }
    HeapIsEmpty(g, src, dst, best, done, c);
    return Ok([]), walk, pops, pushes;
  }

  lemma SettleCount(nodes: seq<Id>, g: Graph, done: set<Id>, u: Id)
    requires Closed(nodes, g)
    ensures Remaining(nodes, g, done + {u})
      == Remaining(nodes, g, done) - (if u in done then 0 else PositiveCount(Out(g, u)))
  {
    if u in done {
      assert done + {u} == done;
    } else if u in nodes {
      RemainingDrops(nodes, g, done, u);
    } else {
      RemainingSame(nodes, g, done, u);
    }
  }

  lemma StayingIsCheapest(g: Graph, src: Id)
    ensures Cheapest(g, src, [], src)
  {
    forall es | Route(g, src, es, src) ensures 0.0 <= Cost(es) {
      CostNonNegative(es);
    }
  }

  lemma StartKeeps(g: Graph, src: Id, dst: Id)
    ensures Inv(g, src, dst, [Entry(0.0, src, [src])], map[src := 0.0], {}, 0.0)
  {
    var en := Entry(0.0, src, [src]);
    assert Route(g, src, [], src);
    assert en in [en];
  }
}
