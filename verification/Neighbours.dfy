/** Hop-bounded breadth-first neighbour search with an optional relation filter (graph/query.py). */
module Neighbours {
  import opened Sums
  import opened Graphs
  import opened Options

  datatype Neighbour = Neighbour(node: Id, relation: Relation, weight: real, hops: nat)

  datatype Waiting = Waiting(node: Id, depth: nat)

  /** A walk from src to v along edges of the chosen relation. */
  ghost predicate Trail(g: Graph, filter: Option<Relation>, src: Id, es: seq<Edge>, v: Id)
  {
    IsWalk(g, src, es, v) && forall i :: 0 <= i < |es| ==> filter.None? || es[i].rel == filter.value
  }

  /** The test that lets an edge through. */
  predicate Follows(filter: Option<Relation>, e: Edge)
  {
    filter.None? || e.rel == filter.value
  }

  lemma TrailSnoc(g: Graph, filter: Option<Relation>, src: Id, es: seq<Edge>, v: Id, e: Edge)
    requires Filed(g) && Trail(g, filter, src, es, v) && e in Out(g, v) && Follows(filter, e)
    ensures Trail(g, filter, src, es + [e], e.to)
  {
    hide IsWalk, Filed, Out;
    WalkSnoc(g, src, es, v, e);
    var all := es + [e];
    forall i | 0 <= i < |all| ensures filter.None? || all[i].rel == filter.value {
      assert all[i] == if i < |es| then es[i] else e;
    }
  }

  /** n reports the end of a trail of n.hops edges whose last edge has n's relation and weight. */
  ghost predicate Reports(g: Graph, filter: Option<Relation>, src: Id, n: Neighbour)
  {
    exists es: seq<Edge> :: Trail(g, filter, src, es, n.node) && |es| == n.hops && n.hops > 0
      && es[n.hops - 1].rel == n.relation && es[n.hops - 1].weight == n.weight
  }

  predicate Listed(results: seq<Neighbour>, v: Id)
  {
    exists i :: 0 <= i < |results| && results[i].node == v
  }

  ghost predicate ListedWithin(results: seq<Neighbour>, v: Id, hops: nat)
  {
    exists i :: 0 <= i < |results| && results[i].node == v && results[i].hops <= hops
  }

  // ----- the invariant

  /** The results so far: sound, each node once, in order of distance, none beyond `limit` hops. */
  ghost predicate Sound(g: Graph, filter: Option<Relation>, src: Id, results: seq<Neighbour>, limit: int)
  {
    && (forall i :: 0 <= i < |results| ==> Reports(g, filter, src, results[i]) && results[i].hops <= limit)
    && (forall i, j :: 0 <= i < j < |results| ==> results[i].node != results[j].node)
    && (forall i, j :: 0 <= i < j < |results| ==> results[i].hops <= results[j].hops)
  }

  /** The visited nodes are at the recorded distance, and each waits in the queue or is done. The
      queue is in order of depth, at depths c and c + 1. */
  ghost predicate Queue(frontier: seq<Waiting>, depth: map<Id, nat>, done: set<Id>, c: nat)
  {
    && (forall i :: 0 <= i < |frontier| ==> frontier[i].node in depth && depth[frontier[i].node] == frontier[i].depth)
    && (forall i :: 0 <= i < |frontier| ==> c <= frontier[i].depth <= c + 1)
    && (forall i, j :: 0 <= i < j < |frontier| ==> frontier[i].depth <= frontier[j].depth)
    && (forall v :: v in depth ==> v in done || Waiting(v, depth[v]) in frontier)
    && (forall v :: v in done ==> v in depth && depth[v] <= c)
  }

  ghost predicate Reached(g: Graph, filter: Option<Relation>, src: Id, depth: map<Id, nat>)
  {
    && src in depth && depth[src] == 0
    && forall v :: v in depth ==> exists es :: Trail(g, filter, src, es, v) && |es| == depth[v]
  }

  /** Over e, its target is known no later than one hop after depth d. */
  ghost predicate Taken(results: seq<Neighbour>, depth: map<Id, nat>, e: Edge, d: nat)
  {
    e.to in depth && depth[e.to] <= d + 1 && ListedWithin(results, e.to, d + 1)
  }

  ghost predicate Expanded(g: Graph, filter: Option<Relation>, results: seq<Neighbour>, depth: map<Id, nat>,
                           done: set<Id>, maxHops: int)
  {
    forall v, e :: v in done && v in depth && depth[v] < maxHops && e in Out(g, v) && Follows(filter, e)
      ==> Taken(results, depth, e, depth[v])
  }

  ghost predicate Inv(g: Graph, filter: Option<Relation>, src: Id, maxHops: int, results: seq<Neighbour>,
                      frontier: seq<Waiting>, depth: map<Id, nat>, done: set<Id>, c: nat)
  {
    && Sound(g, filter, src, results, maxHops)
    && (forall i :: 0 <= i < |results| ==> results[i].hops <= c + 1)
    && Queue(frontier, depth, done, c)
    && Reached(g, filter, src, depth)
    && Expanded(g, filter, results, depth, done, maxHops)
  }

  // ----- what the invariant says once the queue is empty

  lemma {:induction false} TrailIsFound(g: Graph, filter: Option<Relation>, src: Id, maxHops: int,
                                        results: seq<Neighbour>,
                                        depth: map<Id, nat>, done: set<Id>, c: nat, es: seq<Edge>, v: Id)
    requires Filed(g) && Inv(g, filter, src, maxHops, results, [], depth, done, c)
    requires Trail(g, filter, src, es, v) && |es| <= maxHops
    ensures v in depth && depth[v] <= |es|
    ensures es != [] ==> ListedWithin(results, v, |es|)
    decreases |es|
  {
    hide Sound, Reached, ListedWithin;
    if es != [] {
      var k := |es| - 1;
      TrailIsFound(g, filter, src, maxHops, results, depth, done, c, es[..k], es[k].from);
      assert Follows(filter, es[k]);
      assert Taken(results, depth, es[k], depth[es[k].from]);
      ListedLater(results, v, depth[es[k].from] + 1, |es|);
    } else {
      assert src in depth && depth[src] == 0 by {
        assert Reached(g, filter, src, depth);
        ReachedStart(g, filter, src, depth);
      }
    }
  }

  lemma ReachedStart(g: Graph, filter: Option<Relation>, src: Id, depth: map<Id, nat>)
    requires Reached(g, filter, src, depth)
    ensures src in depth && depth[src] == 0
  {
  }

  lemma ListedLater(results: seq<Neighbour>, v: Id, h: nat, k: nat)
    requires ListedWithin(results, v, h) && h <= k
    ensures ListedWithin(results, v, k)
  {
  }

  /** The answer: sound, complete within maxHops, and every reported distance is the shortest. */
  ghost predicate Correct(g: Graph, filter: Option<Relation>, src: Id, maxHops: int, results: seq<Neighbour>)
  {
    && Sound(g, filter, src, results, maxHops)
    && (forall es, v :: Trail(g, filter, src, es, v) && 1 <= |es| <= maxHops ==> Listed(results, v))
    && (forall i, es :: 0 <= i < |results| && Trail(g, filter, src, es, results[i].node) && es != [] ==>
          results[i].hops <= |es|)
  }

  lemma EmptyQueueIsCorrect(g: Graph, filter: Option<Relation>, src: Id, maxHops: int, results: seq<Neighbour>,
                            depth: map<Id, nat>, done: set<Id>, c: nat)
    requires Filed(g) && Inv(g, filter, src, maxHops, results, [], depth, done, c)
    ensures Correct(g, filter, src, maxHops, results)
  {
    hide Reached, Expanded, Queue, Reports;
    forall es, v | Trail(g, filter, src, es, v) && 1 <= |es| <= maxHops ensures ListedWithin(results, v, |es|) {
      TrailIsFound(g, filter, src, maxHops, results, depth, done, c, es, v);
    }
    forall i, es | 0 <= i < |results| && Trail(g, filter, src, es, results[i].node) && es != []
      ensures results[i].hops <= |es|
    {
      if |es| <= maxHops {
        assert ListedWithin(results, results[i].node, |es|);
      }
    }
  }

  // ----- one node of the queue

  lemma PopKeeps(frontier: seq<Waiting>, depth: map<Id, nat>, done: set<Id>, c: nat)
    requires Queue(frontier, depth, done, c) && frontier != []
    ensures Queue(frontier[1..], depth, done + {frontier[0].node}, frontier[0].depth)
  {
    forall v | v in depth && v !in done + {frontier[0].node} ensures Waiting(v, depth[v]) in frontier[1..] {
      assert Waiting(v, depth[v]) in frontier;
    }
  }

  /** While the edges of `cur` are looked at: the first j are taken. */
  ghost predicate Mid(g: Graph, filter: Option<Relation>, src: Id, maxHops: int, results: seq<Neighbour>,
                      frontier: seq<Waiting>, depth: map<Id, nat>, done: set<Id>, cur: Waiting, j: nat)
  {
    && Sound(g, filter, src, results, maxHops)
    && (forall i :: 0 <= i < |results| ==> results[i].hops <= cur.depth + 1)
    && Queue(frontier, depth, done + {cur.node}, cur.depth)
    && Reached(g, filter, src, depth)
    && Expanded(g, filter, results, depth, done, maxHops)
    && cur.node in depth && depth[cur.node] == cur.depth
    && TakenUpTo(filter, Out(g, cur.node), j, results, depth, cur.depth)
  }

  ghost predicate TakenUpTo(filter: Option<Relation>, es: seq<Edge>, j: nat, results: seq<Neighbour>,
                            depth: map<Id, nat>, d: nat)
  {
    j <= |es| && forall k :: 0 <= k < j && Follows(filter, es[k]) ==> Taken(results, depth, es[k], d)
  }

  lemma TakenUpToGrows(filter: Option<Relation>, es: seq<Edge>, j: nat, results: seq<Neighbour>,
                       results': seq<Neighbour>,
                       depth: map<Id, nat>, depth': map<Id, nat>, d: nat)
    requires TakenUpTo(filter, es, j, results, depth, d) && j < |es| && Taken(results', depth', es[j], d)
    requires results <= results' && forall v :: v in depth ==> v in depth' && depth'[v] == depth[v]
    ensures TakenUpTo(filter, es, j + 1, results', depth', d)
  {
    forall k | 0 <= k < j && Follows(filter, es[k]) ensures Taken(results', depth', es[k], d) {
      TakenGrows(results, results', depth, depth', es[k], d);
    }
  }

  lemma TakenGrows(results: seq<Neighbour>, results': seq<Neighbour>, depth: map<Id, nat>, depth': map<Id, nat>,
                   e: Edge, d: nat)
    requires Taken(results, depth, e, d)
    requires results <= results' && forall v :: v in depth ==> v in depth' && depth'[v] == depth[v]
    ensures Taken(results', depth', e, d)
  {
    var i :| 0 <= i < |results| && results[i].node == e.to && results[i].hops <= d + 1;
    assert results'[i] == results[i];
  }

  lemma ExpandedGrows(g: Graph, filter: Option<Relation>, results: seq<Neighbour>, results': seq<Neighbour>,
                      depth: map<Id, nat>, depth': map<Id, nat>, done: set<Id>, maxHops: int)
    requires Expanded(g, filter, results, depth, done, maxHops) && forall v :: v in done ==> v in depth
    requires results <= results' && forall v :: v in depth ==> v in depth' && depth'[v] == depth[v]
    ensures Expanded(g, filter, results', depth', done, maxHops)
  {
    forall v, e | v in done && v in depth' && depth'[v] < maxHops && e in Out(g, v) && Follows(filter, e)
      ensures Taken(results', depth', e, depth'[v])
    {
      TakenGrows(results, results', depth, depth', e, depth[v]);
    }
  }

  lemma ReachedGrows(g: Graph, filter: Option<Relation>, src: Id, depth: map<Id, nat>, cur: Waiting, e: Edge)
    requires Filed(g) && Reached(g, filter, src, depth) && cur.node in depth && depth[cur.node] == cur.depth
    requires e in Out(g, cur.node) && Follows(filter, e) && e.to !in depth
    ensures Reached(g, filter, src, depth[e.to := cur.depth + 1])
  {
    var es :| Trail(g, filter, src, es, cur.node) && |es| == cur.depth;
    TrailSnoc(g, filter, src, es, cur.node, e);
    hide Trail, Filed;
    var depth' := depth[e.to := cur.depth + 1];
    forall v | v in depth' ensures exists fs :: Trail(g, filter, src, fs, v) && |fs| == depth'[v] {
      if v == e.to {
        assert |es + [e]| == cur.depth + 1;
      } else {
        assert v in depth;
      }
    }
  }

  lemma NewReport(g: Graph, filter: Option<Relation>, src: Id, depth: map<Id, nat>, cur: Waiting, e: Edge)
    requires Filed(g) && Reached(g, filter, src, depth) && cur.node in depth && depth[cur.node] == cur.depth
    requires e in Out(g, cur.node) && Follows(filter, e)
    ensures Reports(g, filter, src, Neighbour(e.to, e.rel, e.weight, cur.depth + 1))
  {
    var es :| Trail(g, filter, src, es, cur.node) && |es| == cur.depth;
    TrailSnoc(g, filter, src, es, cur.node, e);
    assert (es + [e])[cur.depth] == e;
  }

  function AddResult(results: seq<Neighbour>, e: Edge, d: nat): seq<Neighbour>
  {
    if Listed(results, e.to) then results else results + [Neighbour(e.to, e.rel, e.weight, d + 1)]
  }

  /** Taking one more edge, which may list its target and may put it in the queue. */
  lemma EdgeKeeps(g: Graph, filter: Option<Relation>, src: Id, maxHops: int, results: seq<Neighbour>,
                  frontier: seq<Waiting>, depth: map<Id, nat>, done: set<Id>, cur: Waiting, j: nat)
    requires Filed(g) && Mid(g, filter, src, maxHops, results, frontier, depth, done, cur, j)
    requires j < |Out(g, cur.node)| && Follows(filter, Out(g, cur.node)[j]) && cur.depth < maxHops
    ensures var e := Out(g, cur.node)[j];
      Mid(g, filter, src, maxHops, AddResult(results, e, cur.depth),
          if e.to in depth then frontier else frontier + [Waiting(e.to, cur.depth + 1)],
          if e.to in depth then depth else depth[e.to := cur.depth + 1], done, cur, j + 1)
  {
    hide Sound, Reports, Reached, Queue, Expanded, TakenUpTo, ListedWithin, Listed, Filed, Trail, AddResult, Follows;
    var es := Out(g, cur.node);
    var e := es[j];
    var results' := AddResult(results, e, cur.depth);
    var depth' := if e.to in depth then depth else depth[e.to := cur.depth + 1];
    NewReport(g, filter, src, depth, cur, e);
    SoundGrows(g, filter, src, results, maxHops, e, cur.depth);
    if e.to !in depth {
      ReachedGrows(g, filter, src, depth, cur, e);
      QueuePush(frontier, depth, done + {cur.node}, cur.depth, e.to);
    }
    QueueDepth(frontier, depth, done + {cur.node}, cur.depth);
    ExpandedGrows(g, filter, results, results', depth, depth', done, maxHops);
    TakenUpToGrows(filter, es, j, results, results', depth, depth', cur.depth);
  }

  lemma SoundGrows(g: Graph, filter: Option<Relation>, src: Id, results: seq<Neighbour>, maxHops: int, e: Edge, d: nat)
    requires Sound(g, filter, src, results, maxHops) && forall i :: 0 <= i < |results| ==> results[i].hops <= d + 1
    requires Reports(g, filter, src, Neighbour(e.to, e.rel, e.weight, d + 1)) && d < maxHops
    ensures var results' := AddResult(results, e, d);
      && Sound(g, filter, src, results', maxHops) && (forall i :: 0 <= i < |results'| ==> results'[i].hops <= d + 1)
      && results <= results' && ListedWithin(results', e.to, d + 1)
  {
    hide Reports;
    if !Listed(results, e.to) {
      assert AddResult(results, e, d)[|results|].node == e.to;
    }
  }

  lemma QueuePush(frontier: seq<Waiting>, depth: map<Id, nat>, done: set<Id>, c: nat, v: Id)
    requires Queue(frontier, depth, done, c) && v !in depth
    ensures Queue(frontier + [Waiting(v, c + 1)], depth[v := c + 1], done, c)
  {
    var frontier' := frontier + [Waiting(v, c + 1)];
    assert frontier'[|frontier|] == Waiting(v, c + 1);
    forall u | u in depth && u !in done ensures Waiting(u, depth[u]) in frontier' {
      assert Waiting(u, depth[u]) in frontier;
    }
  }

  lemma QueueDepth(frontier: seq<Waiting>, depth: map<Id, nat>, done: set<Id>, c: nat)
    requires Queue(frontier, depth, done, c)
    ensures forall v :: v in depth ==> depth[v] <= c + 1
    ensures forall v :: v in done ==> v in depth
  {
    forall v | v in depth && v !in done ensures depth[v] <= c + 1 {
      assert Waiting(v, depth[v]) in frontier;
    }
  }

  lemma MidDone(g: Graph, filter: Option<Relation>, src: Id, maxHops: int, results: seq<Neighbour>,
                frontier: seq<Waiting>, depth: map<Id, nat>, done: set<Id>, cur: Waiting, j: nat)
    requires Mid(g, filter, src, maxHops, results, frontier, depth, done, cur, j)
    requires j == |Out(g, cur.node)| || cur.depth >= maxHops
    ensures Inv(g, filter, src, maxHops, results, frontier, depth, done + {cur.node}, cur.depth)
  {
    hide Sound, Queue, Reached, Taken;
  }

  /** The nodes not yet visited and the waiting ones are n in all: what is still to be popped. */
  ghost predicate ToPop(universe: set<Id>, visited: set<Id>, frontier: seq<Waiting>, n: nat)
  {
    visited <= universe && |universe - visited| + |frontier| == n
  }

  /** Visiting a node moves it into the queue. */
  lemma Visiting(universe: set<Id>, visited: set<Id>, frontier: seq<Waiting>, n: nat, w: Waiting)
    requires ToPop(universe, visited, frontier, n) && w.node in universe && w.node !in visited
    ensures ToPop(universe, visited + {w.node}, frontier + [w], n)
  {
    assert universe - visited == (universe - (visited + {w.node})) + {w.node};
  }

  // ----- which edge is reported

  /** The results after the edges es of a node at depth d: each new target is reported with its edge. */
  function ScanEdges(filter: Option<Relation>, es: seq<Edge>, d: nat, results: seq<Neighbour>): seq<Neighbour>
  {
    if es == [] then
      results
    else
      var before, e := ScanEdges(filter, es[..|es| - 1], d, results), es[|es| - 1];
      if Follows(filter, e) then AddResult(before, e, d) else before
  }

  lemma ScanNext(filter: Option<Relation>, es: seq<Edge>, j: nat, d: nat, results: seq<Neighbour>)
    requires j < |es|
    ensures var before := ScanEdges(filter, es[..j], d, results);
      ScanEdges(filter, es[..j + 1], d, results)
        == if Follows(filter, es[j]) then AddResult(before, es[j], d) else before
  {
    assert es[..j + 1][..j] == es[..j];
  }

  /** The results after the nodes in `queue` have been taken from it one by one. */
  function Scanned(g: Graph, filter: Option<Relation>, maxHops: int, queue: seq<Waiting>): seq<Neighbour>
  {
    if queue == [] then
      []
    else
      var before, w := Scanned(g, filter, maxHops, queue[..|queue| - 1]), queue[|queue| - 1];
      if w.depth < maxHops then ScanEdges(filter, Out(g, w.node), w.depth, before) else before
  }

  lemma ScannedNext(g: Graph, filter: Option<Relation>, maxHops: int, queue: seq<Waiting>, w: Waiting)
    ensures var before := Scanned(g, filter, maxHops, queue);
      Scanned(g, filter, maxHops, queue + [w]) ==
        if w.depth < maxHops then ScanEdges(filter, Out(g, w.node), w.depth, before) else before
  {
    assert (queue + [w])[..|queue|] == queue;
  }

  /** All that is ever put in the queue: the start, then every reported node but the start. */
  function Enqueued(src: Id, results: seq<Neighbour>): seq<Waiting>
  {
    if results == [] then
      [Waiting(src, 0)]
    else
      var n := results[|results| - 1];
      Enqueued(src, results[..|results| - 1]) + (if n.node == src then [] else [Waiting(n.node, n.hops)])
  }

  /** The popped and the waiting nodes are those enqueued, in this order, and the visited ones are those reported. */
  ghost predicate Queued(src: Id, results: seq<Neighbour>, popped: seq<Waiting>, frontier: seq<Waiting>,
                         visited: set<Id>)
  {
    && popped + frontier == Enqueued(src, results)
    && forall v :: v in visited <==> v == src || Listed(results, v)
  }

  lemma QueuedNext(src: Id, results: seq<Neighbour>, popped: seq<Waiting>, frontier: seq<Waiting>, visited: set<Id>,
                   e: Edge, d: nat)
    requires Queued(src, results, popped, frontier, visited)
    ensures Queued(src, AddResult(results, e, d), popped,
                   if e.to in visited then frontier else frontier + [Waiting(e.to, d + 1)], visited + {e.to})
  {
    hide Enqueued, Listed;
    if Listed(results, e.to) {
      assert visited + {e.to} == visited;
    } else {
      var n := Neighbour(e.to, e.rel, e.weight, d + 1);
      EnqueuedSnoc(src, results, n);
      ListedSnoc(results, n);
      assert popped + (frontier + [Waiting(e.to, d + 1)]) == popped + frontier + [Waiting(e.to, d + 1)];
    }
  }

  lemma EnqueuedSnoc(src: Id, results: seq<Neighbour>, n: Neighbour)
    ensures Enqueued(src, results + [n]) ==
      if n.node == src then Enqueued(src, results) else Enqueued(src, results) + [Waiting(n.node, n.hops)]
  {
    assert (results + [n])[..|results|] == results;
    assert Enqueued(src, results) + [] == Enqueued(src, results);
  }

  lemma QueuedPop(src: Id, results: seq<Neighbour>, popped: seq<Waiting>, frontier: seq<Waiting>, visited: set<Id>)
    requires Queued(src, results, popped, frontier, visited) && frontier != []
    ensures Queued(src, results, popped + [frontier[0]], frontier[1..], visited)
  {
    assert popped + [frontier[0]] + frontier[1..] == popped + frontier;
  }

  lemma QueuedAll(src: Id, results: seq<Neighbour>, popped: seq<Waiting>, visited: set<Id>)
    requires Queued(src, results, popped, [], visited)
    ensures popped == Enqueued(src, results)
  {
    assert popped + [] == popped;
  }

  lemma ListedSnoc(results: seq<Neighbour>, n: Neighbour)
    ensures forall v :: Listed(results + [n], v) <==> Listed(results, v) || v == n.node
  {
    var more := results + [n];
    forall v ensures Listed(more, v) <==> Listed(results, v) || v == n.node {
      assert more[|results|] == n;
      assert forall i :: 0 <= i < |results| ==> more[i] == results[i];
    }
  }

  /** Every node is reported over the edge that the search meets first, node by node in the order in
      which they were enqueued, and edge by edge in the order of insertion. */
  ghost predicate InQueueOrder(g: Graph, filter: Option<Relation>, src: Id, maxHops: int, results: seq<Neighbour>)
  {
    results == Scanned(g, filter, maxHops, Enqueued(src, results))
  }

  method ExpandNode(g: Graph, filter: Option<Relation>, ghost src: Id, maxHops: int, ghost universe: set<Id>,
                    ghost n: nat, cur: Waiting,
                    results: seq<Neighbour>, frontier: seq<Waiting>, visited: set<Id>, ghost depth: map<Id, nat>,
                    ghost done: set<Id>,
                    ghost popped: seq<Waiting>)
    returns (results': seq<Neighbour>, frontier': seq<Waiting>, visited': set<Id>, ghost depth': map<Id, nat>)
    requires Filed(g) && Mid(g, filter, src, maxHops, results, frontier, depth, done, cur, 0)
    requires cur.depth < maxHops && visited == depth.Keys && ToPop(universe, visited, frontier, n)
    requires forall i :: 0 <= i < |Out(g, cur.node)| ==> Out(g, cur.node)[i].to in universe
    requires Queued(src, results, popped, frontier, visited)
    ensures Queued(src, results', popped, frontier', visited')
    ensures results' == ScanEdges(filter, Out(g, cur.node), cur.depth, results)
    ensures Inv(g, filter, src, maxHops, results', frontier', depth', done + {cur.node}, cur.depth)
    ensures visited' == depth'.Keys && ToPop(universe, visited', frontier', n)
  {
    hide *;
    results', frontier', visited', depth' := results, frontier, visited, depth;
    var es := Out(g, cur.node);
    NothingScanned(filter, es, cur.depth, results);
    for j := 0 to |es|
      invariant Queued(src, results', popped, frontier', visited')
      invariant results' == ScanEdges(filter, es[..j], cur.depth, results)
      invariant Mid(g, filter, src, maxHops, results', frontier', depth', done, cur, j)
      invariant visited' == depth'.Keys && ToPop(universe, visited', frontier', n)
    {
      ScanNext(filter, es, j, cur.depth, results);
      if Follows(filter, es[j]) {
        QueuedNext(src, results', popped, frontier', visited', es[j], cur.depth);
        results', frontier', visited', depth' :=
          TakeEdge(g, filter, src, maxHops, universe, n, cur, j, results', frontier', visited', depth', done);
      } else {
        MidSkip(g, filter, src, maxHops, results', frontier', depth', done, cur, j);
      }
    }
    MidDone(g, filter, src, maxHops, results', frontier', depth', done, cur, |es|);
    assert es[..|es|] == es;
  }

  lemma NothingScanned(filter: Option<Relation>, es: seq<Edge>, d: nat, results: seq<Neighbour>)
    ensures ScanEdges(filter, es[..0], d, results) == results
  {
  }

  method TakeEdge(g: Graph, filter: Option<Relation>, ghost src: Id, maxHops: int, ghost universe: set<Id>,
                  ghost n: nat, cur: Waiting, j: nat,
                  results: seq<Neighbour>, frontier: seq<Waiting>, visited: set<Id>, ghost depth: map<Id, nat>,
                  ghost done: set<Id>)
    returns (results': seq<Neighbour>, frontier': seq<Waiting>, visited': set<Id>, ghost depth': map<Id, nat>)
    requires Filed(g) && Mid(g, filter, src, maxHops, results, frontier, depth, done, cur, j)
    requires j < |Out(g, cur.node)| && Follows(filter, Out(g, cur.node)[j]) && cur.depth < maxHops
    requires visited == depth.Keys && ToPop(universe, visited, frontier, n) && Out(g, cur.node)[j].to in universe
    ensures var e := Out(g, cur.node)[j];
      && results' == AddResult(results, e, cur.depth) && visited' == visited + {e.to}
      && frontier' == if e.to in visited then frontier else frontier + [Waiting(e.to, cur.depth + 1)]
    ensures Mid(g, filter, src, maxHops, results', frontier', depth', done, cur, j + 1)
    ensures visited' == depth'.Keys && ToPop(universe, visited', frontier', n)
  {
    hide *;
    EdgeKeeps(g, filter, src, maxHops, results, frontier, depth, done, cur, j);
    var e := Out(g, cur.node)[j];
    results', frontier', visited', depth' := AddResult(results, e, cur.depth), frontier, visited, depth;
    assert e.to in visited ==> visited + {e.to} == visited;
    if e.to !in visited {
      Visiting(universe, visited, frontier, n, Waiting(e.to, cur.depth + 1));
      visited' := visited + {e.to};
      frontier' := frontier + [Waiting(e.to, cur.depth + 1)];
      depth' := depth[e.to := cur.depth + 1];
    }
  }

  lemma MidSkip(g: Graph, filter: Option<Relation>, src: Id, maxHops: int, results: seq<Neighbour>,
                frontier: seq<Waiting>, depth: map<Id, nat>, done: set<Id>, cur: Waiting, j: nat)
    requires Mid(g, filter, src, maxHops, results, frontier, depth, done, cur, j)
    requires j < |Out(g, cur.node)| && !Follows(filter, Out(g, cur.node)[j])
    ensures Mid(g, filter, src, maxHops, results, frontier, depth, done, cur, j + 1)
  {
    hide Sound, Queue, Reached, Taken, Expanded;
  }

  lemma StartKeeps(g: Graph, filter: Option<Relation>, src: Id, maxHops: int)
    ensures Inv(g, filter, src, maxHops, [], [Waiting(src, 0)], map[src := 0], {}, 0)
  {
    assert Trail(g, filter, src, [], src);
    assert [Waiting(src, 0)][0] == Waiting(src, 0);
  }

  lemma PopMid(g: Graph, filter: Option<Relation>, src: Id, maxHops: int, results: seq<Neighbour>,
               frontier: seq<Waiting>, depth: map<Id, nat>, done: set<Id>, c: nat)
    requires Inv(g, filter, src, maxHops, results, frontier, depth, done, c) && frontier != []
    ensures Mid(g, filter, src, maxHops, results, frontier[1..], depth, done, frontier[0], 0)
  {
    PopKeeps(frontier, depth, done, c);
    hide Sound, Reached, Expanded;
  }

  /** get_neighbors: the nodes reachable over 1..maxHops edges of the chosen relation, each with its
      shortest such distance, over the edge the search meets first; the start node appears when it lies
      on a cycle. */
  method Get(nodes: seq<Id>, g: Graph, src: Id, filter: Option<Relation>, maxHops: int)
    returns (r: Result<seq<Neighbour>>)
    requires Closed(nodes, g)
    ensures r.Missing? <==> src !in g
    ensures r.Ok? ==> Correct(g, filter, src, maxHops, r.value) && InQueueOrder(g, filter, src, maxHops, r.value)
  {
    if src !in g {
      return Missing;
    }
    ghost var universe := set u | u in nodes;
    var results: seq<Neighbour>, frontier, visited := [], [Waiting(src, 0)], {src};
    ghost var depth: map<Id, nat>, done: set<Id>, c: nat := map[src := 0], {}, 0;
    ghost var popped: seq<Waiting> := [];
    StartKeeps(g, filter, src, maxHops);
    assert Queued(src, results, popped, frontier, visited);
    hide Inv, Mid, Correct, Queued, Scanned, ScanEdges;
    while frontier != []
      invariant Inv(g, filter, src, maxHops, results, frontier, depth, done, c)
      invariant visited == depth.Keys <= universe
      invariant Queued(src, results, popped, frontier, visited) && results == Scanned(g, filter, maxHops, popped)
      decreases |universe - visited| + |frontier|
    {
      var cur, rest := frontier[0], frontier[1..];
      PopMid(g, filter, src, maxHops, results, frontier, depth, done, c);
      QueuedPop(src, results, popped, frontier, visited);
      ScannedNext(g, filter, maxHops, popped, cur);
      popped := popped + [cur];
      if cur.depth >= maxHops {
        MidDone(g, filter, src, maxHops, results, rest, depth, done, cur, 0);
        frontier := rest;
      } else {
        results, frontier, visited, depth :=
          ExpandNode(g, filter, src, maxHops, universe, |universe - visited| + |rest|, cur,
                     results, rest, visited, depth, done, popped);
      }
      done, c := done + {cur.node}, cur.depth;
    }
    EmptyQueueIsCorrect(g, filter, src, maxHops, results, depth, done, c);
    QueuedAll(src, results, popped, visited);
    return Ok(results);
  }
}
