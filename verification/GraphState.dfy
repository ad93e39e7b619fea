/** The graph store as a value: what one add_node or add_edge call does to it, what every run keeps,
    and which weight each edge ends up with (graph/graph_store.py). */
module GraphState {
  import opened Sums
  import opened Graphs
  import opened Options
  import opened Numbers

  /** The admitted node types; OtherType is any other string. */
  datatype NodeType = Topic | Entity | Event | Emotion | Audience | Product | OtherType(text: string)

  datatype Node = Node(id: Id, kind: NodeType, name: string, weight: real, embedding: Option<seq<real>>)

  /** order lists the dictionary keys in insertion order. out and inn are the two adjacency indexes.
      shared holds the keys of the edges whose entries in the two indexes are one and the same
      object; after a rollback the entries are separate copies. */
  datatype State = State(order: seq<Id>, nodes: map<Id, Node>, out: Graph, inn: Graph, shared: set<Triple>)

  datatype Outcome = Done | ValueError | KeyError

  const EMPTY_STATE := State([], map[], map[], map[], {})

  // ----- one list of edges

  /** The weight filed under t in a list of edges. */
  function Lookup(es: seq<Edge>, t: Triple): Option<real>
  {
    if es == [] then
      None
    else if Key(es[|es| - 1]) == t then
      Some(es[|es| - 1].weight)
    else
      Lookup(es[..|es| - 1], t)
  }

  ghost predicate UniqueKeys(es: seq<Edge>)
  {
    forall i, j :: 0 <= i < j < |es| ==> Key(es[i]) != Key(es[j])
  }

  /** Strengthens the edge of es that has e's key. */
  function Strengthen(es: seq<Edge>, e: Edge): seq<Edge>
  {
    if es == [] then
      []
    else
      var last := es[|es| - 1];
      if Key(last) == Key(e) then
        es[..|es| - 1] + [last.(weight := Max(last.weight, e.weight))]
      else
        Strengthen(es[..|es| - 1], e) + [last]
  }

  lemma {:induction false} LookupFinds(es: seq<Edge>, t: Triple)
    ensures Lookup(es, t).Some? <==> exists i :: 0 <= i < |es| && Key(es[i]) == t
    ensures Lookup(es, t).Some? ==> exists i :: 0 <= i < |es| && Key(es[i]) == t && es[i].weight == Lookup(es, t).value
    decreases |es|
  {
    if es != [] && Key(es[|es| - 1]) != t {
      LookupFinds(es[..|es| - 1], t);
    }
  }

  lemma LookupAppend(es: seq<Edge>, e: Edge, t: Triple)
    ensures Lookup(es + [e], t) == if t == Key(e) then Some(e.weight) else Lookup(es, t)
  {
    assert (es + [e])[..|es|] == es;
  }

  lemma {:induction false} StrengthenLookup(es: seq<Edge>, e: Edge, t: Triple)
    ensures Lookup(Strengthen(es, e), t) ==
      (if t == Key(e) && Lookup(es, t).Some? then Some(Max(Lookup(es, t).value, e.weight)) else Lookup(es, t))
    decreases |es|
  {
    if es != [] {
      var k := |es| - 1;
      StrengthenLookup(es[..k], e, t);
      if Key(es[k]) == Key(e) {
        LookupAppend(es[..k], es[k].(weight := Max(es[k].weight, e.weight)), t);
      } else {
        LookupAppend(Strengthen(es[..k], e), es[k], t);
      }
    }
  }

  /** Strengthening changes one weight and nothing else. */
  lemma {:induction false} StrengthenShape(es: seq<Edge>, e: Edge)
    ensures |Strengthen(es, e)| == |es|
    ensures forall i :: 0 <= i < |es| ==> Key(Strengthen(es, e)[i]) == Key(es[i])
    decreases |es|
  {
    if es != [] {
      StrengthenShape(es[..|es| - 1], e);
    }
  }

  lemma {:induction false} StrengthenAt(es: seq<Edge>, e: Edge, i: nat)
    requires UniqueKeys(es) && i < |es| && Key(es[i]) == Key(e)
    ensures Strengthen(es, e) == es[i := es[i].(weight := Max(es[i].weight, e.weight))]
    decreases |es|
  {
    var k := |es| - 1;
    if i < k {
      StrengthenAt(es[..k], e, i);
      assert es == es[..k] + [es[k]];
    }
  }

  // ----- the whole store

  /** The weight under t in the outgoing index, the one every reader uses. */
  ghost function OutWeight(s: State, t: Triple): Option<real>
  {
    Lookup(Out(s.out, t.from), t)
  }

  /** The weight under t in the incoming index. */
  ghost function InWeight(s: State, t: Triple): Option<real>
  {
    Lookup(Out(s.inn, t.to), t)
  }

  ghost predicate FiledByTarget(g: Graph)
  {
    forall v, i :: v in g && 0 <= i < |g[v]| ==> g[v][i].to == v
  }

  ghost predicate AllUnique(g: Graph)
  {
    forall u :: u in g ==> UniqueKeys(g[u])
  }

  /** Both indexes are keyed by the nodes; every edge is filed once, between existing nodes. */
  ghost predicate Shaped(s: State)
  {
    && Closed(s.order, s.out)
    && s.nodes.Keys == s.out.Keys == s.inn.Keys
    && AllUnique(s.out) && AllUnique(s.inn)
    && FiledByTarget(s.inn)
  }

  /** Both indexes hold the same keys, and the two entries of a shared edge carry the same weight. */
  ghost predicate Mirrored(s: State)
  {
    && (forall t :: OutWeight(s, t).Some? <==> InWeight(s, t).Some?)
    && (forall t :: t in s.shared ==> OutWeight(s, t).Some? && OutWeight(s, t) == InWeight(s, t))
  }

  ghost predicate WellFormed(s: State)
  {
    Shaped(s) && Mirrored(s)
  }

  /** The two indexes agree on every weight. */
  ghost predicate Agreement(s: State)
  {
    forall t :: OutWeight(s, t) == InWeight(s, t)
  }

  ghost function AddNode(s: State, n: Node): (State, Outcome)
  {
    if n.kind.OtherType? then
      (s, ValueError)
    else if n.id !in s.nodes then
      (s.(order := s.order + [n.id], nodes := s.nodes[n.id := n],
          out := s.out[n.id := []], inn := s.inn[n.id := []]), Done)
    else
      var had := s.nodes[n.id];
      var merged := had.(weight := Max(had.weight, n.weight),
                         embedding := if had.embedding.None? then n.embedding else had.embedding);
      (s.(nodes := s.nodes[n.id := merged]), Done)
  }

  ghost function AddEdge(s: State, e: Edge): (State, Outcome)
    requires s.out.Keys == s.inn.Keys == s.nodes.Keys
  {
    if e.rel.Other? then
      (s, ValueError)
    else if e.from !in s.nodes || e.to !in s.nodes then
      (s, KeyError)
    else if OutWeight(s, Key(e)).Some? then
      (s.(out := s.out[e.from := Strengthen(s.out[e.from], e)],
          inn := if Key(e) in s.shared then s.inn[e.to := Strengthen(s.inn[e.to], e)] else s.inn), Done)
    else
      (s.(out := s.out[e.from := s.out[e.from] + [e]],
          inn := s.inn[e.to := s.inn[e.to] + [e]],
          shared := s.shared + {Key(e)}), Done)
  }

  /** The weight after adding w to what was there. */
  function Stronger(w: Option<real>, x: real): Option<real>
  {
    if w.None? then Some(x) else Some(Max(w.value, x))
  }

  /** An accepted edge changes exactly one outgoing weight, to the maximum. Its incoming entry
      follows unless it is an unshared entry that was there before. */
  lemma AddEdgeWeights(s: State, e: Edge, t: Triple)
    requires WellFormed(s) && AddEdge(s, e).1 == Done
    ensures OutWeight(AddEdge(s, e).0, t) ==
      (if t == Key(e) then Stronger(OutWeight(s, t), e.weight) else OutWeight(s, t))
    ensures InWeight(AddEdge(s, e).0, t) ==
      (if t == Key(e) && (OutWeight(s, t).None? || t in s.shared) then Stronger(InWeight(s, t), e.weight)
       else InWeight(s, t))
  {
    var outs, ins := s.out[e.from], s.inn[e.to];
    assert OutWeight(s, Key(e)).Some? <==> InWeight(s, Key(e)).Some?;
    hide Lookup, Strengthen, Shaped, Mirrored;
    if OutWeight(s, Key(e)).Some? {
      StrengthenLookup(outs, e, t);
      StrengthenLookup(ins, e, t);
    } else {
      LookupAppend(outs, e, t);
      LookupAppend(ins, e, t);
    }
  }

  lemma AppendUnique(es: seq<Edge>, e: Edge)
    requires UniqueKeys(es) && Lookup(es, Key(e)).None?
    ensures UniqueKeys(es + [e])
  {
    LookupFinds(es, Key(e));
  }

  lemma StrengthenUnique(es: seq<Edge>, e: Edge)
    requires UniqueKeys(es)
    ensures UniqueKeys(Strengthen(es, e))
  {
    StrengthenShape(es, e);
  }

  /** Replacing one node's list by a list of the same or one more edge keeps the index in shape. */
  lemma UpdateKeepsOut(order: seq<Id>, g: Graph, u: Id, es: seq<Edge>)
    requires Closed(order, g) && AllUnique(g) && u in g && UniqueKeys(es)
    requires forall i :: 0 <= i < |es| ==> es[i].from == u && es[i].to in order
    ensures Closed(order, g[u := es]) && AllUnique(g[u := es])
  {
  }

  lemma UpdateKeepsIn(g: Graph, v: Id, es: seq<Edge>)
    requires FiledByTarget(g) && AllUnique(g) && v in g && UniqueKeys(es)
    requires forall i :: 0 <= i < |es| ==> es[i].to == v
    ensures FiledByTarget(g[v := es]) && AllUnique(g[v := es])
  {
  }

  lemma StrengthenKeepsEnds(es: seq<Edge>, e: Edge)
    ensures |Strengthen(es, e)| == |es|
    ensures forall i :: 0 <= i < |es| ==> Strengthen(es, e)[i].from == es[i].from && Strengthen(es, e)[i].to == es[i].to
  {
    StrengthenShape(es, e);
    forall i | 0 <= i < |es| ensures Strengthen(es, e)[i].from == es[i].from && Strengthen(es, e)[i].to == es[i].to {
      assert Key(Strengthen(es, e)[i]) == Key(es[i]);
    }
  }

  lemma BothOrNone(s: State, t: Triple)
    requires WellFormed(s)
    ensures OutWeight(s, t).Some? <==> InWeight(s, t).Some?
  {
    hide Lookup, Shaped;
  }

  lemma AddEdgeShape(s: State, e: Edge)
    requires WellFormed(s) && AddEdge(s, e).1 == Done
    ensures Shaped(AddEdge(s, e).0)
  {
    hide Strengthen, Closed, AllUnique, FiledByTarget, Mirrored, Lookup;
    BothOrNone(s, Key(e));
    EndsInOrder(s, e);
    if OutWeight(s, Key(e)).Some? {
      StrengthenKeepsOut(s.order, s.out, e);
      StrengthenKeepsIn(s.inn, e);
    } else {
      AppendKeepsOut(s.order, s.out, e);
      AppendKeepsIn(s.inn, e);
    }
  }

  lemma EndsInOrder(s: State, e: Edge)
    requires Shaped(s) && e.to in s.nodes
    ensures e.to in s.order
  {
  }

  lemma StrengthenKeepsOut(order: seq<Id>, g: Graph, e: Edge)
    requires Closed(order, g) && AllUnique(g) && e.from in g
    ensures var es := Strengthen(g[e.from], e); Closed(order, g[e.from := es]) && AllUnique(g[e.from := es])
  {
    StrengthenKeepsEnds(g[e.from], e);
    StrengthenUnique(g[e.from], e);
    hide Strengthen;
    UpdateKeepsOut(order, g, e.from, Strengthen(g[e.from], e));
  }

  lemma StrengthenKeepsIn(g: Graph, e: Edge)
    requires FiledByTarget(g) && AllUnique(g) && e.to in g
    ensures var es := Strengthen(g[e.to], e); FiledByTarget(g[e.to := es]) && AllUnique(g[e.to := es])
  {
    StrengthenKeepsEnds(g[e.to], e);
    StrengthenUnique(g[e.to], e);
    hide Strengthen;
    UpdateKeepsIn(g, e.to, Strengthen(g[e.to], e));
  }

  lemma AppendKeepsOut(order: seq<Id>, g: Graph, e: Edge)
    requires Closed(order, g) && AllUnique(g) && e.from in g && e.to in order && Lookup(g[e.from], Key(e)).None?
    ensures var es := g[e.from] + [e]; Closed(order, g[e.from := es]) && AllUnique(g[e.from := es])
  {
    AppendUnique(g[e.from], e);
    UpdateKeepsOut(order, g, e.from, g[e.from] + [e]);
  }

  lemma AppendKeepsIn(g: Graph, e: Edge)
    requires FiledByTarget(g) && AllUnique(g) && e.to in g && Lookup(g[e.to], Key(e)).None?
    ensures var es := g[e.to] + [e]; FiledByTarget(g[e.to := es]) && AllUnique(g[e.to := es])
  {
    AppendUnique(g[e.to], e);
    UpdateKeepsIn(g, e.to, g[e.to] + [e]);
  }

  lemma AddEdgeKeeps(s: State, e: Edge)
    requires WellFormed(s)
    ensures WellFormed(AddEdge(s, e).0)
  {
    if AddEdge(s, e).1 == Done {
      AddEdgeShape(s, e);
      AddEdgeMirrors(s, e);
    }
    hide Shaped, Mirrored;
  }

  lemma AddEdgeMirrors(s: State, e: Edge)
    requires WellFormed(s) && AddEdge(s, e).1 == Done
    ensures Mirrored(AddEdge(s, e).0)
  {
    var r := AddEdge(s, e).0;
    hide AddEdge, Lookup, Shaped;
    forall t
      ensures OutWeight(r, t).Some? <==> InWeight(r, t).Some?
      ensures t in r.shared ==> OutWeight(r, t).Some? && OutWeight(r, t) == InWeight(r, t)
    {
      AddEdgeMirrorsAt(s, e, t);
    }
  }

  lemma AddEdgeMirrorsAt(s: State, e: Edge, t: Triple)
    requires WellFormed(s) && AddEdge(s, e).1 == Done
    ensures var r := AddEdge(s, e).0;
      && (OutWeight(r, t).Some? <==> InWeight(r, t).Some?)
      && (t in r.shared ==> OutWeight(r, t).Some? && OutWeight(r, t) == InWeight(r, t))
  {
    hide Lookup, Out, Shaped;
    AddEdgeWeights(s, e, t);
    assert OutWeight(s, t).Some? <==> InWeight(s, t).Some?;
    assert t in s.shared ==> OutWeight(s, t) == InWeight(s, t);
  }

  lemma AddNodeWeights(s: State, n: Node, t: Triple)
    requires WellFormed(s)
    ensures OutWeight(AddNode(s, n).0, t) == OutWeight(s, t)
    ensures InWeight(AddNode(s, n).0, t) == InWeight(s, t)
  {
  }

  lemma AddNodeKeeps(s: State, n: Node)
    requires WellFormed(s)
    ensures WellFormed(AddNode(s, n).0)
  {
    AddNodeShape(s, n);
    forall t {
      AddNodeWeights(s, n, t);
    }
    hide OutWeight, InWeight, Shaped;
  }

  lemma AddNodeShape(s: State, n: Node)
    requires Shaped(s)
    ensures Shaped(AddNode(s, n).0)
  {
    if n.id !in s.nodes {
      InsertKeepsOut(s.order, s.out, n.id);
      InsertKeepsIn(s.inn, n.id);
    }
    hide Closed, AllUnique, FiledByTarget;
  }

  lemma InsertKeepsOut(order: seq<Id>, g: Graph, u: Id)
    requires Closed(order, g) && AllUnique(g) && u !in g
    ensures Closed(order + [u], g[u := []]) && AllUnique(g[u := []])
  {
  }

  lemma InsertKeepsIn(g: Graph, v: Id)
    requires FiledByTarget(g) && AllUnique(g) && v !in g
    ensures FiledByTarget(g[v := []]) && AllUnique(g[v := []])
  {
  }

  /** The two indexes stop agreeing exactly when an edge whose entries are separate copies, as a
      rollback leaves them, is strengthened. */
  lemma AgreementBreaks(s: State, e: Edge)
    requires WellFormed(s) && Agreement(s)
    ensures Agreement(AddEdge(s, e).0) <==>
      !(&& AddEdge(s, e).1 == Done
        && Key(e) !in s.shared
        && OutWeight(s, Key(e)).Some?
        && OutWeight(s, Key(e)).value < e.weight)
  {
    if AddEdge(s, e).1 == Done {
      forall t {
        AddEdgeWeights(s, e, t);
      }
      assert OutWeight(s, Key(e)) == InWeight(s, Key(e));
    }
  }

  // ----- runs

  datatype Op = NodeOp(node: Node) | EdgeOp(edge: Edge)

  ghost function Apply(s: State, op: Op): (State, Outcome)
    requires WellFormed(s)
    ensures WellFormed(Apply(s, op).0)
  {
    match op
    case NodeOp(n) => AddNodeKeeps(s, n); AddNode(s, n)
    case EdgeOp(e) => AddEdgeKeeps(s, e); AddEdge(s, e)
  }

  /** One step changes at most the weight under the key it adds. */
  lemma ApplyWeights(s: State, op: Op, t: Triple)
    requires WellFormed(s)
    ensures var hit := op.EdgeOp? && Key(op.edge) == t && Apply(s, op).1 == Done;
      && OutWeight(Apply(s, op).0, t) == (if hit then Stronger(OutWeight(s, t), op.edge.weight) else OutWeight(s, t))
      && InWeight(Apply(s, op).0, t) ==
         (if hit && (OutWeight(s, t).None? || t in s.shared) then Stronger(InWeight(s, t), op.edge.weight)
          else InWeight(s, t))
  {
    match op {
      case NodeOp(n) => AddNodeWeights(s, n, t);
      case EdgeOp(e) =>
        if AddEdge(s, e).1 == Done {
          AddEdgeWeights(s, e, t);
        }
    }
  }

  /** A step never gives up a shared entry, and makes exactly the edges it adds shared. */
  lemma ApplyShared(s: State, op: Op, t: Triple)
    requires WellFormed(s)
    ensures t in Apply(s, op).0.shared <==>
      t in s.shared || (op.EdgeOp? && Key(op.edge) == t && Apply(s, op).1 == Done && OutWeight(s, t).None?)
  {
    hide OutWeight, InWeight, Closed, AllUnique, FiledByTarget, Mirrored;
    SharedIsFiled(s, t);
  }

  lemma SharedIsFiled(s: State, t: Triple)
    requires WellFormed(s)
    ensures t in s.shared ==> OutWeight(s, t).Some?
  {
    hide OutWeight, InWeight, Shaped;
    assert Mirrored(s);
  }

  ghost function Run(s: State, ops: seq<Op>): (r: State)
    requires WellFormed(s)
    ensures WellFormed(r)
  {
    if ops == [] then s else Apply(Run(s, ops[..|ops| - 1]), ops[|ops| - 1]).0
  }

  /** The weights of the edges with key t that the run accepted, in order. */
  ghost function Accepted(s: State, ops: seq<Op>, t: Triple): seq<real>
    requires WellFormed(s)
  {
    if ops == [] then
      []
    else
      var before := Run(s, ops[..|ops| - 1]);
      var op := ops[|ops| - 1];
      Accepted(s, ops[..|ops| - 1], t) +
      (if op.EdgeOp? && Key(op.edge) == t && Apply(before, op).1 == Done then [op.edge.weight] else [])
  }

  /** w is the greatest of start and the weights ws, if there is any. */
  ghost predicate IsHeaviest(w: Option<real>, start: Option<real>, ws: seq<real>)
  {
    match w
    case None => start.None? && ws == []
    case Some(m) =>
      && (start == Some(m) || m in ws)
      && (start.Some? ==> start.value <= m)
      && (forall x :: x in ws ==> x <= m)
  }

  lemma HeaviestSnoc(w: Option<real>, start: Option<real>, ws: seq<real>, x: real)
    requires IsHeaviest(w, start, ws)
    ensures IsHeaviest(Stronger(w, x), start, ws + [x])
  {
    assert x in ws + [x] && forall y :: y in ws ==> y in ws + [x];
  }

  /** After any run, each edge's weight is the greatest ever accepted for it. */
  lemma {:induction false} RunWeight(s: State, ops: seq<Op>, t: Triple)
    requires WellFormed(s)
    ensures IsHeaviest(OutWeight(Run(s, ops), t), OutWeight(s, t), Accepted(s, ops, t))
    decreases |ops|
  {
    if ops != [] {
      var k := |ops| - 1;
      RunWeight(s, ops[..k], t);
      var before, accepted := Run(s, ops[..k]), Accepted(s, ops[..k], t);
      ApplyWeights(before, ops[k], t);
      hide Apply, OutWeight, InWeight, WellFormed, IsHeaviest;
      if ops[k].EdgeOp? && Key(ops[k].edge) == t && Apply(before, ops[k]).1 == Done {
        HeaviestSnoc(OutWeight(before, t), OutWeight(s, t), accepted, ops[k].edge.weight);
      } else {
        assert accepted + [] == accepted;
      }
    }
  }

  lemma HeaviestIsUnique(v: Option<real>, w: Option<real>, start: Option<real>, xs: seq<real>, ys: seq<real>)
    requires IsHeaviest(v, start, xs) && IsHeaviest(w, start, ys)
    requires forall x :: x in xs <==> x in ys
    ensures v == w
  {
    if xs != [] {
      assert xs[0] in xs;
    }
    if ys != [] {
      assert ys[0] in ys;
    }
  }

  lemma EmptyWellFormed()
    ensures WellFormed(EMPTY_STATE) && Agreement(EMPTY_STATE)
    ensures forall t :: OutWeight(EMPTY_STATE, t).None?
  {
  }

  /** An edge whose two entries are separate copies, as a rollback leaves them. */
  ghost predicate Separate(s: State, t: Triple)
  {
    OutWeight(s, t).Some? && t !in s.shared
  }

  /** Whether the two entries agree on t once more weights have been accepted than s had: those of a
      separate edge do as long as none of them is greater. */
  ghost predicate Outgrown(s: State, ws: seq<real>, t: Triple)
  {
    Separate(s, t) && exists x :: x in ws && x > OutWeight(s, t).value
  }

  /** Over a run, the incoming entry of a separate edge keeps its weight, and all other edges keep or
      get entries that agree. */
  ghost predicate Follows(s: State, r: State, t: Triple)
  {
    if Separate(s, t) then
      Separate(r, t) && InWeight(r, t) == InWeight(s, t)
    else
      !Separate(r, t) && InWeight(r, t) == OutWeight(r, t)
  }

  lemma FollowsNext(s: State, r: State, op: Op, t: Triple)
    requires WellFormed(r) && Follows(s, r, t)
    ensures Follows(s, Apply(r, op).0, t)
  {
    ApplyWeights(r, op, t);
    ApplyShared(r, op, t);
    hide Apply, OutWeight, InWeight, WellFormed;
  }

  lemma {:induction false} RunFollows(s: State, ops: seq<Op>, t: Triple)
    requires WellFormed(s) && OutWeight(s, t) == InWeight(s, t)
    ensures Follows(s, Run(s, ops), t)
    decreases |ops|
  {
    if ops != [] {
      var k := |ops| - 1;
      RunFollows(s, ops[..k], t);
      FollowsNext(s, Run(s, ops[..k]), ops[k], t);
      hide Apply, Follows, WellFormed;
    }
  }

  lemma OutgrownApart(s: State, r: State, ws: seq<real>, t: Triple)
    requires OutWeight(s, t) == InWeight(s, t) && Follows(s, r, t) && IsHeaviest(OutWeight(r, t), OutWeight(s, t), ws)
    ensures OutWeight(r, t) != InWeight(r, t) <==> Outgrown(s, ws, t)
  {
    hide OutWeight, InWeight;
  }

  lemma RunDisagrees(s: State, ops: seq<Op>, t: Triple)
    requires WellFormed(s) && OutWeight(s, t) == InWeight(s, t)
    ensures OutWeight(Run(s, ops), t) != InWeight(Run(s, ops), t) <==> Outgrown(s, Accepted(s, ops, t), t)
  {
    RunFollows(s, ops, t);
    RunWeight(s, ops, t);
    OutgrownApart(s, Run(s, ops), Accepted(s, ops, t), t);
  }

  ghost predicate NoneOutgrown(s: State, ops: seq<Op>)
    requires WellFormed(s)
  {
    forall t :: !Outgrown(s, Accepted(s, ops, t), t)
  }

  lemma AgreementStays(s: State, ops: seq<Op>)
    requires WellFormed(s) && Agreement(s) && NoneOutgrown(s, ops)
    ensures Agreement(Run(s, ops))
  {
    hide Lookup, Out, WellFormed, Outgrown;
    forall t ensures OutWeight(Run(s, ops), t) == InWeight(Run(s, ops), t) {
      assert OutWeight(s, t) == InWeight(s, t);
      RunDisagrees(s, ops, t);
    }
  }

  lemma AgreementGoes(s: State, ops: seq<Op>, t: Triple)
    requires WellFormed(s) && Agreement(s) && Outgrown(s, Accepted(s, ops, t), t)
    ensures !Agreement(Run(s, ops))
  {
    hide Lookup, Out, WellFormed, Outgrown;
    assert OutWeight(s, t) == InWeight(s, t);
    RunDisagrees(s, ops, t);
  }

  /** Over a whole run the two indexes stay in agreement exactly as long as no edge with separate
      entries has received a greater weight. */
  lemma RunAgreement(s: State, ops: seq<Op>)
    requires WellFormed(s) && Agreement(s)
    ensures Agreement(Run(s, ops)) <==> NoneOutgrown(s, ops)
  {
    hide WellFormed, Agreement;
    if NoneOutgrown(s, ops) {
      AgreementStays(s, ops);
    } else {
      var t :| Outgrown(s, Accepted(s, ops, t), t);
      AgreementGoes(s, ops, t);
    }
  }

  /** Every graph built from nothing is well formed, its edges are shared and its two indexes agree. */
  lemma BuiltGraphsAgree(ops: seq<Op>)
    ensures WellFormed(EMPTY_STATE)
    ensures Agreement(Run(EMPTY_STATE, ops))
    ensures forall t :: OutWeight(Run(EMPTY_STATE, ops), t).Some? ==> t in Run(EMPTY_STATE, ops).shared
  {
    EmptyWellFormed();
    hide Lookup, Out, Run, WellFormed;
    forall t
      ensures OutWeight(Run(EMPTY_STATE, ops), t) == InWeight(Run(EMPTY_STATE, ops), t)
      ensures OutWeight(Run(EMPTY_STATE, ops), t).Some? ==> t in Run(EMPTY_STATE, ops).shared
    {
      RunFollows(EMPTY_STATE, ops, t);
      assert !Separate(EMPTY_STATE, t);
    }
  }

  // ----- what becomes of a node

  /** The nodes with the id u that the run accepted, in order: those of an admitted type. */
  ghost function Offers(ops: seq<Op>, u: Id): seq<Node>
  {
    if ops == [] then
      []
    else
      var op := ops[|ops| - 1];
      Offers(ops[..|ops| - 1], u) +
      (if op.NodeOp? && op.node.id == u && !op.node.kind.OtherType? then [op.node] else [])
  }

  /** All that was ever known of u: the node that was there, then those the run accepted. */
  ghost function Versions(s: State, ops: seq<Op>, u: Id): seq<Node>
  {
    (if u in s.nodes then [s.nodes[u]] else []) + Offers(ops, u)
  }

  /** e is the first embedding among ns, if there is any. */
  ghost predicate IsFirstEmbedding(e: Option<seq<real>>, ns: seq<Node>)
  {
    if e.None? then forall i :: 0 <= i < |ns| ==> ns[i].embedding.None?
    else exists i :: 0 <= i < |ns| && ns[i].embedding == e && forall j :: 0 <= j < i ==> ns[j].embedding.None?
  }

  /** n has the id, type and name of the first of ns, the greatest of their weights, and the first of
      their embeddings. */
  ghost predicate IsMerged(n: Node, ns: seq<Node>)
  {
    && ns != []
    && n.id == ns[0].id && n.kind == ns[0].kind && n.name == ns[0].name
    && (exists i :: 0 <= i < |ns| && ns[i].weight == n.weight)
    && (forall i :: 0 <= i < |ns| ==> ns[i].weight <= n.weight)
    && IsFirstEmbedding(n.embedding, ns)
  }

  lemma MergedAlone(n: Node)
    ensures IsMerged(n, [n])
  {
    assert [n][0] == n;
  }

  lemma EmbeddingNext(e: Option<seq<real>>, ns: seq<Node>, n: Node)
    requires IsFirstEmbedding(e, ns)
    ensures IsFirstEmbedding(if e.None? then n.embedding else e, ns + [n])
  {
    var all := ns + [n];
    assert all[|ns|] == n && forall i :: 0 <= i < |ns| ==> all[i] == ns[i];
    if e.Some? {
      var i :| 0 <= i < |ns| && ns[i].embedding == e && forall j :: 0 <= j < i ==> ns[j].embedding.None?;
      assert all[i].embedding == e;
    }
  }

  /** One more node of an admitted type: a new one enters as it is, one that is there takes the greater
      weight, and the embedding if it has none. No other node changes. */
  lemma MergedNext(s: State, n: Node, ns: seq<Node>)
    requires !n.kind.OtherType? && (if n.id in s.nodes then IsMerged(s.nodes[n.id], ns) else ns == [])
    ensures var r := AddNode(s, n).0;
      && r.nodes.Keys == s.nodes.Keys + {n.id}
      && IsMerged(r.nodes[n.id], ns + [n])
      && forall u :: u in s.nodes && u != n.id ==> r.nodes[u] == s.nodes[u]
  {
    if n.id !in s.nodes {
      MergedAlone(n);
      assert [] + [n] == [n];
    } else {
      var had, got, all := s.nodes[n.id], AddNode(s, n).0.nodes[n.id], ns + [n];
      assert all[|ns|] == n && forall i :: 0 <= i < |ns| ==> all[i] == ns[i];
      EmbeddingNext(had.embedding, ns, n);
      var i :| 0 <= i < |ns| && ns[i].weight == had.weight;
      assert all[i].weight == had.weight;
    }
  }

  /** An operation that is no accepted node leaves the nodes alone. */
  lemma OthersKeepNodes(s: State, op: Op)
    requires WellFormed(s) && (op.NodeOp? ==> op.node.kind.OtherType?)
    ensures Apply(s, op).0.nodes == s.nodes
  {
    hide WellFormed, OutWeight;
  }

  /** Whether and how u is known: exactly when something was known of it, as the merge of all that was. */
  ghost predicate NodeIs(s: State, u: Id, ns: seq<Node>)
  {
    if u in s.nodes then IsMerged(s.nodes[u], ns) else ns == []
  }

  lemma NodeAtFirst(s: State, u: Id)
    ensures NodeIs(s, u, Versions(s, [], u))
  {
    if u in s.nodes {
      MergedAlone(s.nodes[u]);
    }
  }

  lemma VersionsNext(s: State, ops: seq<Op>, u: Id)
    requires ops != []
    ensures var k := |ops| - 1;
      Versions(s, ops, u) == Versions(s, ops[..k], u)
        + if ops[k].NodeOp? && ops[k].node.id == u && !ops[k].node.kind.OtherType? then [ops[k].node] else []
  {
  }

  lemma OtherNodesKept(s: State, n: Node)
    ensures AddNode(s, n).0.nodes.Keys <= s.nodes.Keys + {n.id}
    ensures forall u :: u in s.nodes && u != n.id ==>
      u in AddNode(s, n).0.nodes && AddNode(s, n).0.nodes[u] == s.nodes[u]
  {
  }

  lemma NodeStep(s: State, op: Op, u: Id, ns: seq<Node>)
    requires WellFormed(s) && NodeIs(s, u, ns)
    ensures NodeIs(Apply(s, op).0, u,
                   ns + if op.NodeOp? && op.node.id == u && !op.node.kind.OtherType? then [op.node] else [])
  {
    hide WellFormed, IsMerged;
    assert ns + [] == ns;
    if op.NodeOp? && !op.node.kind.OtherType? {
      if op.node.id == u {
        MergedNext(s, op.node, ns);
      } else {
        OtherNodesKept(s, op.node);
      }
    } else {
      OthersKeepNodes(s, op);
    }
  }

  /** After any run a node has the name, type and id it came with, the greatest weight ever accepted for
      it and the first embedding; it is there exactly when it was there or was accepted. */
  lemma {:induction false} RunNode(s: State, ops: seq<Op>, u: Id)
    requires WellFormed(s)
    ensures NodeIs(Run(s, ops), u, Versions(s, ops, u))
    decreases |ops|
  {
    hide Apply, WellFormed, NodeIs;
    if ops == [] {
      NodeAtFirst(s, u);
    } else {
      var k := |ops| - 1;
      RunNode(s, ops[..k], u);
      NodeStep(Run(s, ops[..k]), ops[k], u, Versions(s, ops[..k], u));
      VersionsNext(s, ops, u);
    }
  }

  // ----- what is accepted

  /** The run so far, or the store it started from, has the node u. */
  ghost predicate Known(s: State, ops: seq<Op>, u: Id)
  {
    u in s.nodes || exists i :: 0 <= i < |ops| && ops[i].NodeOp? && ops[i].node.id == u && !ops[i].node.kind.OtherType?
  }

  lemma {:induction false} OffersKnow(ops: seq<Op>, u: Id)
    ensures Offers(ops, u) != []
      <==> exists i :: 0 <= i < |ops| && ops[i].NodeOp? && ops[i].node.id == u && !ops[i].node.kind.OtherType?
    decreases |ops|
  {
    if ops != [] {
      OffersKnow(ops[..|ops| - 1], u);
    }
  }

  lemma KnownNodes(s: State, ops: seq<Op>, u: Id)
    requires WellFormed(s)
    ensures u in Run(s, ops).nodes <==> Known(s, ops, u)
  {
    RunNode(s, ops, u);
    OffersKnow(ops, u);
    hide WellFormed, Run, Offers;
  }

  /** What an operation after a run answers: a type or relation that is not admitted is a ValueError, an
      edge with an end that was never accepted a KeyError, and neither changes anything. */
  lemma RunOutcome(s: State, ops: seq<Op>, op: Op)
    requires WellFormed(s)
    ensures var r := Run(s, ops);
      && (Apply(r, op).1 == ValueError <==> if op.NodeOp? then op.node.kind.OtherType? else op.edge.rel.Other?)
      && (Apply(r, op).1 == KeyError
          <==> op.EdgeOp? && !op.edge.rel.Other? && !(Known(s, ops, op.edge.from) && Known(s, ops, op.edge.to)))
      && (Apply(r, op).1 != Done ==> Apply(r, op).0 == r)
  {
    if op.EdgeOp? {
      KnownNodes(s, ops, op.edge.from);
      KnownNodes(s, ops, op.edge.to);
    }
    hide WellFormed, Run, OutWeight, Known;
  }

  // ----- what stands where

  /** Each list of h starts with the edges of the list of g, in the same places. */
  ghost predicate KeysGrow(g: Graph, h: Graph)
  {
    forall u :: u in g ==>
      u in h && |g[u]| <= |h[u]| && forall i :: 0 <= i < |g[u]| ==> Key(h[u][i]) == Key(g[u][i])
  }

  /** What was there keeps its place: in the order of the nodes and in every list of edges. */
  ghost predicate Grows(s: State, r: State)
  {
    s.order <= r.order && KeysGrow(s.out, r.out) && KeysGrow(s.inn, r.inn)
  }

  lemma UpdateGrows(g: Graph, u: Id, es: seq<Edge>)
    requires u in g ==> |g[u]| <= |es| && forall i :: 0 <= i < |g[u]| ==> Key(es[i]) == Key(g[u][i])
    ensures KeysGrow(g, g[u := es]) && KeysGrow(g, g)
  {
  }

  lemma GrowsAgain(s: State, r: State, q: State)
    requires Grows(s, r) && Grows(r, q)
    ensures Grows(s, q)
  {
    KeysGrowAgain(s.out, r.out, q.out);
    KeysGrowAgain(s.inn, r.inn, q.inn);
    hide KeysGrow;
  }

  lemma KeysGrowAgain(g: Graph, h: Graph, k: Graph)
    requires KeysGrow(g, h) && KeysGrow(h, k)
    ensures KeysGrow(g, k)
  {
  }

  lemma NothingGrows(s: State)
    ensures Grows(s, s)
  {
  }

  lemma AddNodeGrows(s: State, n: Node)
    requires s.nodes.Keys == s.out.Keys == s.inn.Keys
    ensures Grows(s, AddNode(s, n).0)
  {
    if n.id !in s.nodes {
      UpdateGrows(s.out, n.id, []);
      UpdateGrows(s.inn, n.id, []);
    } else {
      NothingGrows(s);
    }
    hide KeysGrow;
  }

  lemma AddEdgeGrows(s: State, e: Edge)
    requires s.nodes.Keys == s.out.Keys == s.inn.Keys && AddEdge(s, e).1 == Done
    ensures Grows(s, AddEdge(s, e).0)
  {
    hide OutWeight, Strengthen;
    var outs, ins := s.out[e.from], s.inn[e.to];
    StrengthenShape(outs, e);
    StrengthenShape(ins, e);
    UpdateGrows(s.out, e.from, Strengthen(outs, e));
    UpdateGrows(s.inn, e.to, Strengthen(ins, e));
    UpdateGrows(s.out, e.from, outs + [e]);
    UpdateGrows(s.inn, e.to, ins + [e]);
    hide KeysGrow;
  }

  lemma StepGrows(s: State, op: Op)
    requires WellFormed(s)
    ensures Grows(s, Apply(s, op).0)
  {
    hide Grows, Closed, AllUnique, FiledByTarget, Mirrored;
    match op {
      case NodeOp(n) => AddNodeGrows(s, n);
      case EdgeOp(e) =>
        if AddEdge(s, e).1 == Done {
          AddEdgeGrows(s, e);
        } else {
          NothingGrows(s);
        }
    }
  }

  /** Over any run new nodes and new edges come behind what was there. */
  lemma {:induction false} RunGrows(s: State, ops: seq<Op>)
    requires WellFormed(s)
    ensures Grows(s, Run(s, ops))
    decreases |ops|
  {
    hide Apply, WellFormed, Grows;
    if ops == [] {
      NothingGrows(s);
    } else {
      var k := |ops| - 1;
      RunGrows(s, ops[..k]);
      StepGrows(Run(s, ops[..k]), ops[k]);
      GrowsAgain(s, Run(s, ops[..k]), Run(s, ops));
    }
  }

  // ----- order of insertion

  ghost predicate Acceptable(s: State, e: Edge)
  {
    !e.rel.Other? && e.from in s.nodes && e.to in s.nodes
  }

  lemma ApplyEdge(s: State, e: Edge)
    requires WellFormed(s)
    ensures Apply(s, EdgeOp(e)).1 == Done <==> Acceptable(s, e)
    ensures Apply(s, EdgeOp(e)).0.nodes == s.nodes
  {
    hide OutWeight, InWeight, Closed, AllUnique, FiledByTarget;
  }

  ghost function EdgeOps(es: seq<Edge>): seq<Op>
  {
    seq(|es|, i requires 0 <= i < |es| => EdgeOp(es[i]))
  }

  lemma EdgeOpsPrefix(es: seq<Edge>, k: nat)
    requires k < |es|
    ensures EdgeOps(es)[..k] == EdgeOps(es[..k]) && EdgeOps(es)[k] == EdgeOp(es[k])
  {
  }

  lemma {:induction false} EdgesKeepNodes(s: State, es: seq<Edge>)
    requires WellFormed(s)
    ensures Run(s, EdgeOps(es)).nodes == s.nodes
    decreases |es|
  {
    if es != [] {
      var k := |es| - 1;
      EdgesKeepNodes(s, es[..k]);
      EdgeOpsPrefix(es, k);
      ApplyEdge(Run(s, EdgeOps(es[..k])), es[k]);
      hide Apply, WellFormed, EdgeOps;
    }
  }

  /** Some acceptable edge among es has the key t and the weight x. */
  ghost predicate Offered(s: State, es: seq<Edge>, t: Triple, x: real)
  {
    exists e :: e in es && Key(e) == t && e.weight == x && Acceptable(s, e)
  }

  lemma OfferedSnoc(s: State, es: seq<Edge>, e: Edge, t: Triple, x: real)
    ensures Offered(s, es + [e], t, x) <==> Offered(s, es, t, x) || (Key(e) == t && e.weight == x && Acceptable(s, e))
  {
    hide Acceptable;
    assert e in es + [e] && forall f :: f in es ==> f in es + [e];
  }

  lemma {:induction false} EdgesOnly(s: State, es: seq<Edge>, t: Triple, x: real)
    requires WellFormed(s)
    ensures x in Accepted(s, EdgeOps(es), t) <==> Offered(s, es, t, x)
    decreases |es|
  {
    if es != [] {
      var k := |es| - 1;
      EdgesOnly(s, es[..k], t, x);
      EdgeOpsPrefix(es, k);
      EdgesKeepNodes(s, es[..k]);
      ApplyEdge(Run(s, EdgeOps(es[..k])), es[k]);
      OfferedSnoc(s, es[..k], es[k], t, x);
      assert es == es[..k] + [es[k]];
      hide Apply, WellFormed, EdgeOps, Run, Offered;
    }
  }

  /** Adding the same edges in any order gives every edge the same weight. */
  lemma OrderDoesNotMatter(s: State, es: seq<Edge>, fs: seq<Edge>, t: Triple)
    requires WellFormed(s) && multiset(es) == multiset(fs)
    ensures OutWeight(Run(s, EdgeOps(es)), t) == OutWeight(Run(s, EdgeOps(fs)), t)
  {
    assert forall e :: e in es <==> e in multiset(es);
    assert forall e :: e in fs <==> e in multiset(fs);
    forall x ensures x in Accepted(s, EdgeOps(es), t) <==> x in Accepted(s, EdgeOps(fs), t) {
      EdgesOnly(s, es, t, x);
      EdgesOnly(s, fs, t, x);
    }
    RunWeight(s, EdgeOps(es), t);
    RunWeight(s, EdgeOps(fs), t);
    HeaviestIsUnique(OutWeight(Run(s, EdgeOps(es)), t), OutWeight(Run(s, EdgeOps(fs)), t), OutWeight(s, t),
                     Accepted(s, EdgeOps(es), t), Accepted(s, EdgeOps(fs), t));
  }
}
