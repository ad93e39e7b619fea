/** The directed, weighted multigraph the engine works on, as a value: for each node its
    outgoing edges in insertion order. */
module Graphs {
  import opened Sums

  /** A node id; only equality of ids matters here. */
  datatype Id = Id(text: string)

  /** The admitted relation types; Other is any other string. */
  datatype Relation =
    | RelatedTo | Causes | SimilarTo | LeadsTo | MonetizesVia | TriggersEmotion | BelongsToEvent
    | Other(text: string)

  /** What identifies an edge. */
  datatype Triple = Triple(from: Id, to: Id, rel: Relation)

  datatype Edge = Edge(from: Id, to: Id, rel: Relation, weight: real)

  function Key(e: Edge): Triple
  {
    Triple(e.from, e.to, e.rel)
  }

  type Graph = map<Id, seq<Edge>>

  /** The edges leaving u; none for an unknown node. */
  function Out(g: Graph, u: Id): seq<Edge>
  {
    if u in g then g[u] else []
  }

  /** Every edge is filed under the node it leaves. */
  ghost predicate Filed(g: Graph)
  {
    forall u, i :: u in g && 0 <= i < |g[u]| ==> g[u][i].from == u
  }

  /** The nodes, each once, are exactly the keys, and every edge ends at one of them. */
  ghost predicate Closed(nodes: seq<Id>, g: Graph)
  {
    && Distinct(nodes)
    && (forall u :: u in nodes <==> u in g)
    && Filed(g)
    && (forall u, i :: u in g && 0 <= i < |g[u]| ==> g[u][i].to in nodes)
  }

  /** es is a walk from u to v along stored edges. */
  ghost predicate IsWalk(g: Graph, u: Id, es: seq<Edge>, v: Id)
  {
    if es == [] then
      u == v
    else
      var e := es[|es| - 1];
      e.to == v && e in Out(g, e.from) && IsWalk(g, u, es[..|es| - 1], e.from)
  }

  /** A walk extended by one edge leaving its end. */
  lemma WalkSnoc(g: Graph, u: Id, es: seq<Edge>, v: Id, e: Edge)
    requires Filed(g) && IsWalk(g, u, es, v) && e in Out(g, v)
    ensures IsWalk(g, u, es + [e], e.to)
  {
    assert (es + [e])[..|es|] == es;
  }
}
