/** Snapshots as values: what a snapshot keeps of a store, what rolling back to it restores, and what
    the difference of two snapshots says (graph/versioning.py). */
module Snapshots {
  import opened Sums
  import opened Graphs
  import opened Options
  import opened GraphState

  /** The counter makes an id unique; the time stamp is whatever the clock gave. */
  datatype SnapshotId = SnapshotId(number: nat, stamp: string)

  datatype Snapshot = Snapshot(
    id: SnapshotId, title: string, parent: Option<SnapshotId>,
    order: seq<Id>, nodes: map<Id, Node>, edges: seq<Edge>,
    deltaNodes: seq<Id>, deltaEdges: seq<string>)

  // ----- flattening and regrouping

  /** All edges, node by node. */
  function Flatten(order: seq<Id>, g: Graph): seq<Edge>
  {
    if order == [] then [] else Flatten(order[..|order| - 1], g) + Out(g, order[|order| - 1])
  }

  function FromNode(es: seq<Edge>, u: Id): seq<Edge>
  {
    if es == [] then
      []
    else
      FromNode(es[..|es| - 1], u) + (if es[|es| - 1].from == u then [es[|es| - 1]] else [])
  }

  function ToNode(es: seq<Edge>, v: Id): seq<Edge>
  {
    if es == [] then
      []
    else
      ToNode(es[..|es| - 1], v) + (if es[|es| - 1].to == v then [es[|es| - 1]] else [])
  }

  lemma {:induction false} FromNodeConcat(xs: seq<Edge>, ys: seq<Edge>, u: Id)
    ensures FromNode(xs + ys, u) == FromNode(xs, u) + FromNode(ys, u)
    decreases |ys|
  {
    if ys == [] {
      assert xs + ys == xs;
    } else {
      var k := |ys| - 1;
      FromNodeConcat(xs, ys[..k], u);
      assert (xs + ys)[..|xs + ys| - 1] == xs + ys[..k];
    }
  }

  lemma {:induction false} ToNodeConcat(xs: seq<Edge>, ys: seq<Edge>, v: Id)
    ensures ToNode(xs + ys, v) == ToNode(xs, v) + ToNode(ys, v)
    decreases |ys|
  {
    if ys == [] {
      assert xs + ys == xs;
    } else {
      var k := |ys| - 1;
      ToNodeConcat(xs, ys[..k], v);
      assert (xs + ys)[..|xs + ys| - 1] == xs + ys[..k];
    }
  }

  lemma Split<T>(xs: seq<T>, i: nat)
    requires i < |xs|
    ensures xs == xs[..i] + [xs[i]] + xs[i + 1..]
  {
  }

  lemma ToNodeOne(e: Edge)
    ensures ToNode([e], e.to) == [e]
  {
    assert [e][..0] == [] && [] + [e] == [e];
  }

  /** The edges that end at one node keep the order they have among all. */
  lemma ToNodeInOrder(es: seq<Edge>, j: nat)
    requires j < |es|
    ensures var v := es[j].to;
      ToNode(es, v) == ToNode(es[..j], v) + [es[j]] + ToNode(es[j + 1..], v)
  {
    hide *;
    var v := es[j].to;
    Split(es, j);
    ToNodeConcat(es[..j] + [es[j]], es[j + 1..], v);
    ToNodeConcat(es[..j], [es[j]], v);
    ToNodeOne(es[j]);
  }

  lemma {:induction false} FlattenConcat(xs: seq<Id>, ys: seq<Id>, g: Graph)
    ensures Flatten(xs + ys, g) == Flatten(xs, g) + Flatten(ys, g)
    decreases |ys|
  {
    hide Out;
    if ys == [] {
      assert xs + ys == xs;
    } else {
      var k := |ys| - 1;
      assert (xs + ys)[..|xs + ys| - 1] == xs + ys[..k] && (xs + ys)[|xs| + k] == ys[k];
      assert Flatten(xs + ys, g) == Flatten(xs + ys[..k], g) + Out(g, ys[k]);
      assert Flatten(ys, g) == Flatten(ys[..k], g) + Out(g, ys[k]);
      hide Flatten;
      FlattenConcat(xs, ys[..k], g);
    }
  }

  lemma FlattenOne(u: Id, g: Graph)
    ensures Flatten([u], g) == Out(g, u)
  {
    assert [u][..0] == [] && [] + Out(g, u) == Out(g, u);
  }

  /** The edges stand node by node in the order of the nodes, and for each node in its own order. */
  lemma FlattenInOrder(order: seq<Id>, g: Graph, k: nat)
    requires k < |order|
    ensures Flatten(order, g) == Flatten(order[..k], g) + Out(g, order[k]) + Flatten(order[k + 1..], g)
  {
    hide Flatten, Out;
    Split(order, k);
    FlattenConcat(order[..k] + [order[k]], order[k + 1..], g);
    FlattenConcat(order[..k], [order[k]], g);
    FlattenOne(order[k], g);
  }

  lemma {:induction false} FromNodeUniform(es: seq<Edge>, u: Id, v: Id)
    requires forall i :: 0 <= i < |es| ==> es[i].from == v
    ensures FromNode(es, u) == if u == v then es else []
    decreases |es|
  {
    if es != [] {
      FromNodeUniform(es[..|es| - 1], u, v);
      assert es == es[..|es| - 1] + [es[|es| - 1]];
    }
  }

  lemma OutIsFiled(g: Graph, u: Id)
    requires Filed(g)
    ensures forall i :: 0 <= i < |Out(g, u)| ==> Out(g, u)[i].from == u
    ensures u !in g ==> Out(g, u) == []
  {
  }

  lemma FlattenSnoc(order: seq<Id>, g: Graph)
    requires order != []
    ensures var k := |order| - 1; Flatten(order, g) == Flatten(order[..k], g) + Out(g, order[k])
  {
  }

  lemma LastIsNew(order: seq<Id>, u: Id)
    requires Distinct(order) && order != []
    ensures var k := |order| - 1; Distinct(order[..k]) && order[k] !in order[..k]
    ensures var k := |order| - 1; u in order <==> u in order[..k] || u == order[k]
  {
  }

  lemma NoneRegrouped(g: Graph, u: Id)
    ensures FromNode(Flatten([], g), u) == []
  {
  }

  /** Regrouping the flattened edges by source gives back each node's own list. */
  lemma {:induction false} RegroupedBySource(order: seq<Id>, g: Graph, u: Id)
    requires Distinct(order) && Filed(g)
    ensures FromNode(Flatten(order, g), u) == if u in order then Out(g, u) else []
    decreases |order|
  {
    hide *;
    if order == [] {
      NoneRegrouped(g, u);
    } else {
      var k := |order| - 1;
      LastIsNew(order, u);
      FlattenSnoc(order, g);
      RegroupedBySource(order[..k], g, u);
      OutIsFiled(g, order[k]);
      FromNodeConcat(Flatten(order[..k], g), Out(g, order[k]), u);
      FromNodeUniform(Out(g, order[k]), u, order[k]);
    }
  }

  lemma {:induction false} LookupRegrouped(es: seq<Edge>, t: Triple)
    ensures Lookup(FromNode(es, t.from), t) == Lookup(es, t) == Lookup(ToNode(es, t.to), t)
    decreases |es|
  {
    if es != [] {
      var k := |es| - 1;
      LookupRegrouped(es[..k], t);
      LookupAppend(FromNode(es[..k], t.from), es[k], t);
      LookupAppend(ToNode(es[..k], t.to), es[k], t);
      assert FromNode(es[..k], t.from) + [] == FromNode(es[..k], t.from);
      assert ToNode(es[..k], t.to) + [] == ToNode(es[..k], t.to);
    }
  }

  lemma {:induction false} RegroupedUnique(es: seq<Edge>, v: Id)
    requires UniqueKeys(es)
    ensures UniqueKeys(ToNode(es, v))
    decreases |es|
  {
    if es != [] {
      var k := |es| - 1;
      RegroupedUnique(es[..k], v);
      if es[k].to == v {
        LookupFinds(es[..k], Key(es[k]));
        LookupRegrouped(es[..k], Key(es[k]));
        AppendUnique(ToNode(es[..k], v), es[k]);
      }
    }
  }

  lemma {:induction false} ToNodeTargets(es: seq<Edge>, v: Id)
    ensures forall i :: 0 <= i < |ToNode(es, v)| ==> ToNode(es, v)[i].to == v
    decreases |es|
  {
    if es != [] {
      ToNodeTargets(es[..|es| - 1], v);
    }
  }

  lemma {:induction false} FlattenUnique(order: seq<Id>, g: Graph)
    requires Distinct(order) && Filed(g) && AllUnique(g)
    ensures UniqueKeys(Flatten(order, g))
    ensures forall e :: e in Flatten(order, g) ==> e.from in order
    ensures forall e :: e in Flatten(order, g) ==> exists u :: u in g && e in g[u]
    decreases |order|
  {
    if order != [] {
      var k := |order| - 1;
      FlattenUnique(order[..k], g);
      var xs, ys := Flatten(order[..k], g), Out(g, order[k]);
      forall i, j | 0 <= i < j < |xs + ys| ensures Key((xs + ys)[i]) != Key((xs + ys)[j]) {
        if i < |xs| <= j {
          assert xs[i] in xs;
        }
      }
    }
  }

  // ----- what a rollback installs

  function BySource(order: seq<Id>, es: seq<Edge>): Graph
  {
    map u | u in order :: FromNode(es, u)
  }

  function ByTarget(order: seq<Id>, es: seq<Edge>): Graph
  {
    map v | v in order :: ToNode(es, v)
  }

  function Regroup(order: seq<Id>, nodes: map<Id, Node>, es: seq<Edge>): State
  {
    State(order, nodes, BySource(order, es), ByTarget(order, es), {})
  }

  /** Rolling back to a snapshot of s restores its nodes, their order and each node's outgoing edges
      in order. The incoming index is rebuilt, from copies: nothing is shared, and both indexes
      agree even if those of s did not. */
  lemma RollbackRestores(s: State)
    requires WellFormed(s)
    ensures var r := Regroup(s.order, s.nodes, Flatten(s.order, s.out));
      && r.order == s.order && r.nodes == s.nodes && r.out == s.out && r.shared == {}
      && WellFormed(r) && Agreement(r)
  {
    var es := Flatten(s.order, s.out);
    RegroupedOut(s.order, s.out);
    FlattenUnique(s.order, s.out);
    RegroupedIn(s.order, es);
    FlattenTargets(s, es);
    RegroupAgrees(s, es);
    hide Flatten, BySource, ByTarget, UniqueKeys, OutWeight, InWeight, Closed, AllUnique, FiledByTarget;
  }

  lemma RegroupedOut(order: seq<Id>, g: Graph)
    requires Closed(order, g)
    ensures BySource(order, Flatten(order, g)) == g
  {
    hide Flatten, FromNode;
    forall u | u in order ensures FromNode(Flatten(order, g), u) == g[u] {
      RegroupedBySource(order, g, u);
    }
  }

  lemma RegroupedIn(order: seq<Id>, es: seq<Edge>)
    requires UniqueKeys(es)
    ensures ByTarget(order, es).Keys == (set u | u in order)
    ensures AllUnique(ByTarget(order, es)) && FiledByTarget(ByTarget(order, es))
  {
    hide ToNode;
    forall v ensures UniqueKeys(ToNode(es, v)) && forall i :: 0 <= i < |ToNode(es, v)| ==> ToNode(es, v)[i].to == v {
      RegroupedUnique(es, v);
      ToNodeTargets(es, v);
    }
  }

  lemma FlattenTargets(s: State, es: seq<Edge>)
    requires WellFormed(s) && es == Flatten(s.order, s.out)
    ensures forall e :: e in es ==> e.to in s.order && e.from in s.order
  {
    FlattenUnique(s.order, s.out);
  }

  lemma RegroupAgrees(s: State, es: seq<Edge>)
    requires forall e :: e in es ==> e.to in s.order && e.from in s.order
    ensures Agreement(Regroup(s.order, s.nodes, es))
  {
    var r := Regroup(s.order, s.nodes, es);
    forall t ensures OutWeight(r, t) == InWeight(r, t) {
      LookupRegrouped(es, t);
      LookupFinds(es, t);
    }
  }

  /** Rolling back to a snapshot of any store and adding any of its edges again with a greater weight
      leaves the two indexes with different weights for it. */
  lemma StrengtheningAfterRollback(s: State, u: Id, i: nat, w: real)
    requires WellFormed(s) && u in s.out && i < |s.out[u]| && !s.out[u][i].rel.Other? && w > s.out[u][i].weight
    ensures var r, e := Regroup(s.order, s.nodes, Flatten(s.order, s.out)), s.out[u][i].(weight := w);
      && WellFormed(r) && Agreement(r)
      && AddEdge(r, e).1 == Done && !Agreement(AddEdge(r, e).0) && !Agreement(Run(r, [EdgeOp(e)]))
  {
    var r, e := Regroup(s.order, s.nodes, Flatten(s.order, s.out)), s.out[u][i].(weight := w);
    RollbackRestores(s);
    StoredWeight(s, u, i);
    assert e.from == u && e.to in s.order;
    AgreementBreaks(r, e);
    assert [EdgeOp(e)][..0] == [];
    assert Run(r, [EdgeOp(e)]) == AddEdge(r, e).0;
  }

  lemma StoredWeight(s: State, u: Id, i: nat)
    requires WellFormed(s) && u in s.out && i < |s.out[u]|
    ensures OutWeight(s, Key(s.out[u][i])) == Some(s.out[u][i].weight)
  {
    hide Lookup, Mirrored;
    var t := Key(s.out[u][i]);
    assert s.out[u][i].from == u;
    LookupFinds(s.out[u], t);
    var j :| 0 <= j < |s.out[u]| && Key(s.out[u][j]) == t && s.out[u][j].weight == Lookup(s.out[u], t).value;
    assert UniqueKeys(s.out[u]);
  }
}
