/** The in-memory graph store as objects (graph/graph_store.py): edges are mutable objects, so
    strengthening an edge through one index is seen through the other exactly when both hold the
    same object. */
module GraphStore {
  import opened Graphs
  import opened Options
  import opened GraphState
  import PageRank
  import opened Numbers

  class StoredEdge {
    const key: Triple
    var weight: real

    constructor (e: Edge)
      ensures Value() == e
    {
      key := Key(e);
      weight := e.weight;
    }

    function Value(): Edge
      reads this
    {
      Edge(key.from, key.to, key.rel, weight)
    }
  }

  function Values(es: seq<StoredEdge>): (r: seq<Edge>)
    reads es
    ensures |r| == |es|
    ensures forall i :: 0 <= i < |es| ==> r[i] == es[i].Value()
  {
    if es == [] then [] else Values(es[..|es| - 1]) + [es[|es| - 1].Value()]
  }

  type Index = map<Id, seq<StoredEdge>>

  ghost function Objects(g: Index): set<StoredEdge>
  {
    set u, i | u in g && 0 <= i < |g[u]| :: g[u][i]
  }

  /** The index g holds exactly the edges of v, in the same order. */
  ghost predicate Mirrors(g: Index, v: Graph)
    reads Objects(g)
  {
    && g.Keys == v.Keys
    && (forall u :: u in g ==> |g[u]| == |v[u]|)
    && (forall u, i :: u in g && 0 <= i < |g[u]| ==> g[u][i].Value() == v[u][i])
  }

  /** Two entries with one key are the same object exactly when the key is marked shared. */
  ghost predicate Aliased(outs: Index, ins: Index, shared: set<Triple>)
  {
    forall u, i, v, j ::
      u in outs && 0 <= i < |outs[u]| && v in ins && 0 <= j < |ins[v]| && outs[u][i].key == ins[v][j].key
      ==> (outs[u][i] == ins[v][j] <==> outs[u][i].key in shared)
  }

  lemma AliasedInsert(outs: Index, ins: Index, shared: set<Triple>, u: Id)
    requires Aliased(outs, ins, shared) && u !in outs && u !in ins
    ensures Aliased(outs[u := []], ins[u := []], shared)
  {
  }

  lemma ObjectsAppend(g: Index, u: Id, e: StoredEdge)
    requires u in g
    ensures Objects(g[u := g[u] + [e]]) <= Objects(g) + {e}
  {
    var h := g[u := g[u] + [e]];
    forall v, i | v in h && 0 <= i < |h[v]| ensures h[v][i] in Objects(g) + {e} {
      assert v in g;
      assert (v == u && i == |g[u]|) || h[v][i] == g[v][i];
    }
  }

  lemma AliasedAppend(outs: Index, ins: Index, shared: set<Triple>, e: StoredEdge)
    requires Aliased(outs, ins, shared) && e.key.from in outs && e.key.to in ins
    requires forall u, i :: u in outs && 0 <= i < |outs[u]| ==> outs[u][i].key != e.key
    requires forall v, j :: v in ins && 0 <= j < |ins[v]| ==> ins[v][j].key != e.key
    ensures Aliased(outs[e.key.from := outs[e.key.from] + [e]], ins[e.key.to := ins[e.key.to] + [e]], shared + {e.key})
  {
  }

  lemma MirrorsAppend(g: Index, v: Graph, u: Id, copy: StoredEdge)
    requires Mirrors(g, v) && u in g
    ensures Mirrors(g[u := g[u] + [copy]], v[u := v[u] + [copy.Value()]])
  {
  }

  lemma MirrorsInsert(g: Index, v: Graph, u: Id)
    requires Mirrors(g, v) && u !in g
    ensures Mirrors(g[u := []], v[u := []]) && Objects(g[u := []]) <= Objects(g)
  {
  }

  /** What a node does that was not there. */
  lemma AddNodeInserts(s: State, n: Node)
    requires !n.kind.OtherType? && n.id !in s.nodes
    ensures GraphState.AddNode(s, n).0 ==
      s.(order := s.order + [n.id], nodes := s.nodes[n.id := n], out := s.out[n.id := []], inn := s.inn[n.id := []])
  {
  }

  /** What an accepted edge does that was not there. */
  lemma AddEdgeAppends(s: State, e: Edge)
    requires WellFormed(s) && OutWeight(s, Key(e)).None? && GraphState.AddEdge(s, e).1 == Done
    ensures e.from in s.out && e.to in s.inn
    ensures GraphState.AddEdge(s, e).0 ==
      s.(out := s.out[e.from := s.out[e.from] + [e]],
         inn := s.inn[e.to := s.inn[e.to] + [e]],
         shared := s.shared + {Key(e)})
  {
  }

  /** What an accepted edge does that was there. */
  lemma AddEdgeStrengthens(s: State, e: Edge)
    requires WellFormed(s) && OutWeight(s, Key(e)).Some? && GraphState.AddEdge(s, e).1 == Done
    ensures e.from in s.out && e.to in s.inn
    ensures GraphState.AddEdge(s, e).0 ==
      s.(out := s.out[e.from := Strengthen(s.out[e.from], e)],
         inn := if Key(e) in s.shared then s.inn[e.to := Strengthen(s.inn[e.to], e)] else s.inn)
  {
  }

  /** Raising the one weight filed at g[u][i] strengthens that entry of the mirrored graph. */
  lemma MirrorsStrengthened(g: Index, before: Graph, u: Id, i: nat, e: Edge)
    requires g.Keys == before.Keys && (forall v :: v in g ==> |g[v]| == |before[v]|)
    requires u in g && i < |g[u]| && Key(before[u][i]) == Key(e) && UniqueKeys(before[u])
    requires forall v, j :: v in g && 0 <= j < |g[v]| && !(v == u && j == i) ==> g[v][j].Value() == before[v][j]
    requires g[u][i].Value() == before[u][i].(weight := Max(before[u][i].weight, e.weight))
    ensures Mirrors(g, before[u := Strengthen(before[u], e)])
  {
    StrengthenAt(before[u], e, i);
    hide Strengthen, UniqueKeys;
  }

  lemma FoundIn(g: Index, v: Graph, u: Id, t: Triple)
    requires Mirrors(g, v)
    ensures Lookup(Out(v, u), t).Some? <==> u in g && exists i :: 0 <= i < |g[u]| && g[u][i].key == t
  {
    var es := Out(v, u);
    LookupFinds(es, t);
    hide Lookup;
    if u in g {
      assert forall i :: 0 <= i < |es| ==> es[i] == g[u][i].Value() && Key(es[i]) == g[u][i].key;
    }
  }

  class InMemoryGraphStore {
    var order: seq<Id>
    var nodes: map<Id, Node>
    var adj: Index
    var inn: Index
    ghost var contents: State

    ghost function Repr(): set<StoredEdge>
      reads this
    {
      Objects(adj) + Objects(inn)
    }

    ghost predicate Valid()
      reads this, Repr()
    {
      && WellFormed(contents)
      && order == contents.order && nodes == contents.nodes
      && Mirrors(adj, contents.out) && Mirrors(inn, contents.inn)
      && Aliased(adj, inn, contents.shared)
    }

    constructor ()
      ensures Valid() && contents == EMPTY_STATE
    {
      order, nodes, adj, inn, contents := [], map[], map[], map[], EMPTY_STATE;
    }

    /** What one operation does to the contents. */
    ghost function Next(op: Op): (State, Outcome)
      requires Valid()
      reads this, Repr()
    {
      Apply(contents, op)
    }

    lemma SameKeys()
      requires Valid()
      ensures nodes.Keys == adj.Keys == inn.Keys
    {
    }

    lemma OrderIsNodes()
      requires Valid()
      ensures forall u :: u in order <==> u in nodes
    {
    }

    /** add_node for an id not yet present. */
    method InsertNode(node: Node)
      requires Valid() && node.id !in nodes && node.id !in adj && node.id !in inn
      requires WellFormed(GraphState.AddNode(contents, node).0) && !node.kind.OtherType?
      modifies this
      ensures Valid() && contents == GraphState.AddNode(old(contents), node).0
      ensures Repr() <= old(Repr())
    {
      hide WellFormed, Aliased, GraphState.AddNode;
      AddNodeInserts(contents, node);
      AliasedInsert(adj, inn, contents.shared, node.id);
      MirrorsInsert(adj, contents.out, node.id);
      MirrorsInsert(inn, contents.inn, node.id);
      contents := GraphState.AddNode(contents, node).0;
      order := order + [node.id];
      nodes := nodes[node.id := node];
      adj := adj[node.id := []];
      inn := inn[node.id := []];
    }

    method AddNode(node: Node) returns (outcome: Outcome)
      requires Valid()
      modifies this
      ensures Valid() && Repr() <= old(Repr())
      ensures (contents, outcome) == GraphState.AddNode(old(contents), node)
    {
      hide WellFormed, Aliased;
      if node.kind.OtherType? {
        return ValueError;
      }
      SameKeys();
      AddNodeKeeps(contents, node);
      if node.id !in nodes {
        InsertNode(node);
        return Done;
      }
      var had := nodes[node.id];
      had := had.(weight := Max(had.weight, node.weight));
      if had.embedding.None? && node.embedding.Some? {
        had := had.(embedding := node.embedding);
      }
      contents := GraphState.AddNode(contents, node).0;
      nodes := nodes[node.id := had];
      return Done;
    }

    /** Within one index, an object is filed once. */
    lemma FiledOnce(u: Id, i: nat)
      requires Valid() && u in adj && i < |adj[u]|
      ensures forall v, j :: v in adj && 0 <= j < |adj[v]| && adj[v][j].key == adj[u][i].key ==> v == u && j == i
    {
      var g := contents.out;
      forall v, j | v in adj && 0 <= j < |adj[v]| && adj[v][j].key == adj[u][i].key ensures v == u && j == i {
        assert g[v][j] == adj[v][j].Value() && g[u][i] == adj[u][i].Value();
        assert g[v][j].from == v && g[u][i].from == u && UniqueKeys(g[u]);
      }
    }

    lemma FiledOnceIn(v: Id, j: nat)
      requires Valid() && v in inn && j < |inn[v]|
      ensures forall u, i :: u in inn && 0 <= i < |inn[u]| && inn[u][i].key == inn[v][j].key ==> u == v && i == j
    {
      var g := contents.inn;
      forall u, i | u in inn && 0 <= i < |inn[u]| && inn[u][i].key == inn[v][j].key ensures u == v && i == j {
        assert g[u][i] == inn[u][i].Value() && g[v][j] == inn[v][j].Value();
        assert g[u][i].to == u && g[v][j].to == v && UniqueKeys(g[v]);
      }
    }

    /** A key is found in an index exactly when the contents have a weight for it. */
    lemma Found(t: Triple)
      requires Valid()
      ensures OutWeight(contents, t).Some?
        <==> t.from in adj && exists i :: 0 <= i < |adj[t.from]| && adj[t.from][i].key == t
      ensures OutWeight(contents, t).Some? <==> t.to in inn && exists j :: 0 <= j < |inn[t.to]| && inn[t.to][j].key == t
    {
      BothOrNone(contents, t);
      hide WellFormed, Aliased, Lookup;
      FoundIn(adj, contents.out, t.from, t);
      FoundIn(inn, contents.inn, t.to, t);
    }

    /** Where the incoming index files the edge filed at adj[u][i], and whether it holds the same object. */
    lemma IncomingEntry(u: Id, i: nat) returns (j: nat)
      requires Valid() && u in adj && i < |adj[u]|
      ensures var e := adj[u][i]; var v := e.key.to;
        && e.key.from == u
        && OutWeight(contents, e.key).Some?
        && v in inn && j < |inn[v]| && inn[v][j].key == e.key
        && UniqueKeys(contents.out[u]) && UniqueKeys(contents.inn[v])
        && (if e.key in contents.shared then inn[v][j] == e
            else forall w, k :: w in inn && 0 <= k < |inn[w]| ==> inn[w][k] != e)
    {
      var e := adj[u][i];
      assert contents.out[u][i] == e.Value();
      Found(e.key);
      j :| 0 <= j < |inn[e.key.to]| && inn[e.key.to][j].key == e.key;
    }

    /** The matching entry is raised in place; the incoming index sees it only if it holds the object. */
    method StrengthenEntry(u: Id, i: nat, ghost e: Edge, weight: real)
      requires Valid() && u in adj && i < |adj[u]| && adj[u][i].key == Key(e) && e.weight == weight
      requires GraphState.AddEdge(contents, e).1 == Done
      modifies this`contents, Repr()
      ensures Valid() && contents == GraphState.AddEdge(old(contents), e).0
    {
      hide WellFormed, Aliased, Lookup, Strengthen, UniqueKeys, OutWeight, Max, GraphState.AddEdge;
      SameKeys();
      AddEdgeKeeps(contents, e);
      ghost var j := IncomingEntry(u, i);
      AddEdgeStrengthens(contents, e);
      FiledOnce(u, i);
      FiledOnceIn(e.to, j);
      ghost var before := contents;
      contents := GraphState.AddEdge(contents, e).0;
      adj[u][i].weight := Max(adj[u][i].weight, weight);
      MirrorsStrengthened(adj, before.out, u, i, e);
      if Key(e) in before.shared {
        MirrorsStrengthened(inn, before.inn, e.to, j, e);
      }
    }

    lemma NotFiled(t: Triple)
      requires Valid() && OutWeight(contents, t).None?
      ensures forall u, i :: u in adj && 0 <= i < |adj[u]| ==> adj[u][i].key != t
      ensures forall v, j :: v in inn && 0 <= j < |inn[v]| ==> inn[v][j].key != t
    {
      Found(t);
      forall u, i | u in adj && 0 <= i < |adj[u]| ensures adj[u][i].key.from == u {
        assert contents.out[u][i] == adj[u][i].Value();
      }
      forall v, j | v in inn && 0 <= j < |inn[v]| ensures inn[v][j].key.to == v {
        assert contents.inn[v][j] == inn[v][j].Value();
      }
    }

    /** A new edge object goes into both indexes. */
    method AppendEdge(edge: StoredEdge)
      requires Valid() && OutWeight(contents, edge.key).None?
      requires GraphState.AddEdge(contents, edge.Value()).1 == Done
      modifies this
      ensures Valid() && contents == GraphState.AddEdge(old(contents), old(edge.Value())).0
      ensures Repr() <= old(Repr()) + {edge}
    {
      hide WellFormed, Aliased, Lookup, Strengthen, OutWeight, GraphState.AddEdge;
      SameKeys();
      AddEdgeAppends(contents, edge.Value());
      MirrorsAppend(adj, contents.out, edge.key.from, edge);
      MirrorsAppend(inn, contents.inn, edge.key.to, edge);
      ObjectsAppend(adj, edge.key.from, edge);
      ObjectsAppend(inn, edge.key.to, edge);
      AddEdgeKeeps(contents, edge.Value());
      NotFiled(edge.key);
      AliasedAppend(adj, inn, contents.shared, edge);
      contents := GraphState.AddEdge(contents, edge.Value()).0;
      adj := adj[edge.key.from := adj[edge.key.from] + [edge]];
      inn := inn[edge.key.to := inn[edge.key.to] + [edge]];
    }

    method AddEdge(edge: StoredEdge) returns (outcome: Outcome)
      requires Valid()
      modifies this, Repr()
      ensures Valid()
      ensures (contents, outcome) == GraphState.AddEdge(old(contents), old(edge.Value()))
      ensures Repr() <= old(Repr()) + {edge}
    {
      hide WellFormed, Aliased, Lookup, Strengthen, OutWeight, Mirrors;
      SameKeys();
      if edge.key.rel.Other? {
        return ValueError;
      }
      if edge.key.from !in nodes || edge.key.to !in nodes {
        return KeyError;
      }
      var u := edge.key.from;
      Found(edge.key);
      for i := 0 to |adj[u]|
        invariant Valid() && contents == old(contents) && edge.weight == old(edge.weight)
        invariant u in adj && adj == old(adj) && inn == old(inn)
        invariant forall k :: 0 <= k < i ==> adj[u][k].key != edge.key
      {
        FiledUnder(u, i);
        if adj[u][i].key.to == edge.key.to && adj[u][i].key.rel == edge.key.rel {
          StrengthenEntry(u, i, edge.Value(), edge.weight);
          assert Repr() == old(Repr());
          return Done;
        }
      }
      AppendEdge(edge);
      return Done;
    }

    lemma FiledUnder(u: Id, i: nat)
      requires Valid() && u in adj && i < |adj[u]|
      ensures adj[u][i].key.from == u
    {
      assert contents.out[u][i] == adj[u][i].Value();
    }

    lemma ListsAgree()
      requires Valid()
      ensures adj.Keys == contents.out.Keys
      ensures forall u :: u in adj ==> Values(adj[u]) == contents.out[u]
    {
      var outs := contents.out;
      hide Values, WellFormed, Aliased;
      assert Mirrors(adj, outs);
      forall u | u in adj ensures Values(adj[u]) == outs[u] {
        assert forall i :: 0 <= i < |adj[u]| ==> Values(adj[u])[i] == outs[u][i];
      }
    }

    /** The stored adjacency as a value, which is what the read-only algorithms work on. */
    method Adjacency() returns (g: Graph)
      requires Valid()
      ensures g == contents.out
    {
      hide *;
      g := map u | u in adj :: Values(adj[u]);
      ListsAgree();
    }

    /** compute_centrality: no edge ends outside the node set, so rank cannot leak. */
    method ComputeCentrality(damping: real, iterations: int) returns (rank: PageRank.Rank)
      requires Valid()
      ensures order == [] ==> rank == map[]
      ensures order != [] ==>
        rank == PageRank.Iterate(order, contents.out, damping, if iterations < 0 then 0 else iterations)
    {
      var g := Adjacency();
      rank := PageRank.Compute(order, g, damping, iterations);
    }
  }
}
