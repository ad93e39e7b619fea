/** The bounded history of snapshots and rollback, as objects (graph/versioning.py). */
module Versioning {
  import opened Graphs
  import opened Options
  import opened GraphState
  import opened GraphStore
  import opened Snapshots
  import opened Differences

  lemma BySourceSnoc(order: seq<Id>, es: seq<Edge>, i: nat)
    requires i < |es| && es[i].from in order
    ensures var g := BySource(order, es[..i]);
      BySource(order, es[..i + 1]) == g[es[i].from := g[es[i].from] + [es[i]]]
  {
    assert es[..i + 1][..i] == es[..i];
    assert forall u :: FromNode(es[..i], u) + [] == FromNode(es[..i], u);
  }

  lemma ByTargetSnoc(order: seq<Id>, es: seq<Edge>, i: nat)
    requires i < |es| && es[i].to in order
    ensures var g := ByTarget(order, es[..i]);
      ByTarget(order, es[..i + 1]) == g[es[i].to := g[es[i].to] + [es[i]]]
  {
    assert es[..i + 1][..i] == es[..i];
    assert forall v :: ToNode(es[..i], v) + [] == ToNode(es[..i], v);
  }

  // ----- copies

  ghost predicate Made(g: Index, objects: set<StoredEdge>)
  {
    forall u, i :: u in g && 0 <= i < |g[u]| ==> g[u][i] in objects
  }

  lemma MadeAppend(g: Index, objects: set<StoredEdge>, u: Id, copy: StoredEdge)
    requires Made(g, objects) && u in g
    ensures Made(g[u := g[u] + [copy]], objects + {copy})
  {
  }

  /** g holds the edges es, grouped by source, in the objects outs; h by target, in the objects ins. */
  ghost predicate CopiesOf(order: seq<Id>, es: seq<Edge>, g: Index, h: Index, outs: set<StoredEdge>,
                           ins: set<StoredEdge>)
    reads Objects(g), Objects(h)
  {
    && Mirrors(g, BySource(order, es)) && Mirrors(h, ByTarget(order, es))
    && Made(g, outs) && Made(h, ins) && outs !! ins
  }

  lemma CopiesNext(order: seq<Id>, es: seq<Edge>, i: nat, g: Index, h: Index, outs: set<StoredEdge>,
                   ins: set<StoredEdge>, outCopy: StoredEdge, inCopy: StoredEdge)
    requires i < |es| && es[i].from in order && es[i].to in order
    requires CopiesOf(order, es[..i], g, h, outs, ins)
    requires outCopy.Value() == inCopy.Value() == es[i] && outCopy != inCopy && outCopy !in ins && inCopy !in outs
    ensures es[i].from in g && es[i].to in h
    ensures var e := es[i];
      CopiesOf(order, es[..i + 1], g[e.from := g[e.from] + [outCopy]], h[e.to := h[e.to] + [inCopy]],
               outs + {outCopy}, ins + {inCopy})
  {
    var e := es[i];
    BySourceSnoc(order, es, i);
    ByTargetSnoc(order, es, i);
    assert e.from in g && e.to in h;
    hide BySource, ByTarget;
    MirrorsAppend(g, BySource(order, es[..i]), e.from, outCopy);
    MirrorsAppend(h, ByTarget(order, es[..i]), e.to, inCopy);
    MadeAppend(g, outs, e.from, outCopy);
    MadeAppend(h, ins, e.to, inCopy);
  }

  /** Two separate new copies of every edge, one for each index. */
  method CopyEdges(order: seq<Id>, es: seq<StoredEdge>) returns (adj: Index, inn: Index)
    requires forall e :: e in es ==> e.key.from in order && e.key.to in order
    ensures Mirrors(adj, BySource(order, Values(es))) && Mirrors(inn, ByTarget(order, Values(es)))
    ensures Aliased(adj, inn, {}) && fresh(Objects(adj)) && fresh(Objects(inn))
  {
    ghost var values := Values(es);
    hide Values, BySource, ByTarget;
    adj, inn := map u | u in order :: [], map u | u in order :: [];
    NothingCopied(order, values);
    ghost var outs: set<StoredEdge>, ins: set<StoredEdge> := {}, {};
    for i := 0 to |es|
      invariant CopiesOf(order, values[..i], adj, inn, outs, ins) && fresh(outs) && fresh(ins)
    {
      assert es[i] in es && values[i] == es[i].Value();
      var outCopy := new StoredEdge(es[i].Value());
      var inCopy := new StoredEdge(es[i].Value());
      CopiesNext(order, values, i, adj, inn, outs, ins, outCopy, inCopy);
      var u, v := es[i].key.from, es[i].key.to;
      adj, inn := adj[u := adj[u] + [outCopy]], inn[v := inn[v] + [inCopy]];
      outs, ins := outs + {outCopy}, ins + {inCopy};
    }
    assert values[..|es|] == values;
    SeparateCopies(adj, inn, outs, ins);
  }

  lemma NothingCopied(order: seq<Id>, es: seq<Edge>)
    ensures CopiesOf(order, es[..0], map u | u in order :: [], map u | u in order :: [], {}, {})
  {
  }

  /** All edge objects of the store, node by node. */
  function AllEdges(order: seq<Id>, g: Index): seq<StoredEdge>
    requires forall u :: u in order ==> u in g
  {
    if order == [] then [] else AllEdges(order[..|order| - 1], g) + g[order[|order| - 1]]
  }

  lemma {:induction false} ValuesConcat(xs: seq<StoredEdge>, ys: seq<StoredEdge>)
    ensures Values(xs + ys) == Values(xs) + Values(ys)
    decreases |ys|
  {
  }

  lemma {:induction false} AllEdgesValues(order: seq<Id>, g: Index, v: Graph)
    requires (forall u :: u in order ==> u in g) && g.Keys == v.Keys && forall u :: u in g ==> Values(g[u]) == v[u]
    ensures Values(AllEdges(order, g)) == Flatten(order, v)
    decreases |order|
  {
    hide Values;
    if order != [] {
      var k := |order| - 1;
      AllEdgesValues(order[..k], g, v);
      ValuesConcat(AllEdges(order[..k], g), g[order[k]]);
    } else {
      assert Values([]) == [];
    }
  }

  /** A deep copy of a list of edges. */
  method DeepCopy(es: seq<StoredEdge>) returns (copies: seq<StoredEdge>)
    ensures Values(copies) == Values(es)
    ensures forall e :: e in copies ==> fresh(e)
  {
    hide Values;
    copies := [];
    for i := 0 to |es|
      invariant |copies| == i
      invariant forall j :: 0 <= j < i ==> copies[j].Value() == es[j].Value() && fresh(copies[j])
    {
      var copy := new StoredEdge(es[i].Value());
      copies := copies + [copy];
    }
    assert Values(copies) == Values(es);
  }

  lemma SeparateCopies(adj: Index, inn: Index, outs: set<StoredEdge>, ins: set<StoredEdge>)
    requires Made(adj, outs) && Made(inn, ins) && outs !! ins
    ensures Aliased(adj, inn, {})
  {
  }

  // ----- snapshots as objects

  /** A snapshot holds edge objects of its own. */
  datatype StoredSnapshot = StoredSnapshot(
    id: SnapshotId, title: string, parent: Option<SnapshotId>,
    order: seq<Id>, nodes: map<Id, Node>, edges: seq<StoredEdge>,
    deltaNodes: seq<Id>, deltaEdges: seq<string>)

  /** What a snapshot says now. */
  function View(s: StoredSnapshot): Snapshot
    reads s.edges
  {
    Snapshot(s.id, s.title, s.parent, s.order, s.nodes, Values(s.edges), s.deltaNodes, s.deltaEdges)
  }

  ghost function EdgeObjects(snapshots: seq<StoredSnapshot>): set<StoredEdge>
  {
    set i, j | 0 <= i < |snapshots| && 0 <= j < |snapshots[i].edges| :: snapshots[i].edges[j]
  }

  /** The snapshots say what is listed. */
  ghost predicate Show(snapshots: seq<StoredSnapshot>, said: seq<Snapshot>)
    reads EdgeObjects(snapshots)
  {
    |snapshots| == |said| && forall i :: 0 <= i < |snapshots| ==> View(snapshots[i]) == said[i]
  }

  /** A bounded deque of snapshots, after one more. */
  function Pushed<T>(xs: seq<T>, x: T, keep: nat): seq<T>
  {
    var appended := xs + [x];
    if |appended| > keep then appended[1..] else appended
  }

  lemma ShowPushed(snapshots: seq<StoredSnapshot>, said: seq<Snapshot>, snap: StoredSnapshot, keep: nat)
    requires Show(snapshots, said)
    ensures Show(Pushed(snapshots, snap, keep), Pushed(said, View(snap), keep))
    ensures forall e :: e in EdgeObjects(Pushed(snapshots, snap, keep)) ==>
              e in EdgeObjects(snapshots) || e in snap.edges
  {
    ShowAppended(snapshots, said, snap);
    if |snapshots + [snap]| > keep {
      ShowDropped(snapshots + [snap], said + [View(snap)]);
    }
    hide Show, View;
  }

  lemma ShowAppended(snapshots: seq<StoredSnapshot>, said: seq<Snapshot>, snap: StoredSnapshot)
    requires Show(snapshots, said)
    ensures Show(snapshots + [snap], said + [View(snap)])
    ensures forall e :: e in EdgeObjects(snapshots + [snap]) ==> e in EdgeObjects(snapshots) || e in snap.edges
  {
    var appended, all := snapshots + [snap], said + [View(snap)];
    forall i | 0 <= i < |appended| ensures View(appended[i]) == all[i] {
      assert i < |snapshots| ==> appended[i] == snapshots[i];
    }
  }

  lemma ShowDropped(snapshots: seq<StoredSnapshot>, said: seq<Snapshot>)
    requires Show(snapshots, said) && snapshots != []
    ensures Show(snapshots[1..], said[1..]) && EdgeObjects(snapshots[1..]) <= EdgeObjects(snapshots)
  {
    forall i | 0 <= i < |snapshots| - 1 ensures View(snapshots[1..][i]) == said[1..][i] {
      assert snapshots[1..][i] == snapshots[i + 1];
    }
  }

  function Retained(history: seq<Snapshot>, keep: nat): seq<Snapshot>
  {
    if |history| < keep then history else history[|history| - keep..]
  }

  lemma RetainedAppend(history: seq<Snapshot>, keep: nat, snap: Snapshot)
    ensures Retained(history + [snap], keep) == Pushed(Retained(history, keep), snap, keep)
  {
  }

  lemma RetainedIds(history: seq<Snapshot>, keep: nat, id: SnapshotId)
    ensures (exists snap :: snap in Retained(history, keep) && snap.id == id)
      <==> exists i :: 0 <= i < |history| && |history| - keep <= i && history[i].id == id
  {
    var retained := Retained(history, keep);
    var from := |history| - |retained|;
    assert forall k :: 0 <= k < |retained| ==> retained[k] == history[from + k];
    if i :| 0 <= i < |history| && |history| - keep <= i && history[i].id == id {
      assert retained[i - from] == history[i];
    }
  }

  lemma ShownIds(snapshots: seq<StoredSnapshot>, said: seq<Snapshot>, id: SnapshotId)
    requires Show(snapshots, said)
    ensures (exists s :: s in snapshots && s.id == id) <==> exists snap :: snap in said && snap.id == id
  {
    forall k | 0 <= k < |snapshots| ensures snapshots[k].id == said[k].id {
      assert View(snapshots[k]) == said[k];
    }
    hide Show;
  }

  lemma RegroupIs(order: seq<Id>, nodes: map<Id, Node>, es: seq<Edge>)
    ensures Regroup(order, nodes, es) == State(order, nodes, BySource(order, es), ByTarget(order, es), {})
  {
  }

  lemma RollbackFacts(snap: Snapshot, s: State)
    requires Holds(snap, s)
    ensures var r := Regroup(snap.order, snap.nodes, snap.edges); WellFormed(r) && RolledBackTo(r, s)
    ensures forall e :: e in snap.edges ==> e.from in snap.order && e.to in snap.order
  {
    RollbackRestores(s);
    FlattenTargets(s, snap.edges);
  }

  /** The nodes, their order and each node's outgoing edges are those of s. The index entries are
      separate copies that agree. */
  ghost predicate RolledBackTo(r: State, s: State)
  {
    r.order == s.order && r.nodes == s.nodes && r.out == s.out && r.shared == {} && Agreement(r)
  }

  method Install(store: InMemoryGraphStore, order: seq<Id>, nodes: map<Id, Node>, adj: Index, inn: Index,
                 ghost state: State)
    requires WellFormed(state) && state.order == order && state.nodes == nodes
    requires Mirrors(adj, state.out) && Mirrors(inn, state.inn) && Aliased(adj, inn, state.shared)
    modifies store
    ensures store.Valid() && store.contents == state && store.Repr() == Objects(adj) + Objects(inn)
  {
    hide WellFormed, Aliased;
    store.nodes, store.order, store.adj, store.inn := nodes, order, adj, inn;
    store.contents := state;
  }

  /** The counter counts the snapshots ever created, which number their ids, and each held what the
      store held when it was created. */
  ghost predicate Consistent(counter: nat, history: seq<Snapshot>, states: seq<State>)
  {
    && counter == |history| == |states|
    && (forall i :: 0 <= i < |history| ==> history[i].id.number == i + 1)
    && (forall i :: 0 <= i < |history| ==> Holds(history[i], states[i]))
  }

  lemma ConsistentAppend(history: seq<Snapshot>, states: seq<State>, snap: Snapshot, s: State)
    requires Consistent(|history|, history, states)
    requires snap.id.number == |history| + 1 && Holds(snap, s)
    ensures Consistent(|history| + 1, history + [snap], states + [s])
  {
    hide Holds;
  }

  /** The snapshot that a new one is created on: the newest ever created, unless none is retained. */
  function Newest(history: seq<Snapshot>, keep: nat): Option<Snapshot>
  {
    if history == [] || keep == 0 then None else Some(history[|history| - 1])
  }

  /** snap names its parent, and its deltas are what diff reports as added since then. */
  ghost predicate Linked(parent: Option<Snapshot>, snap: Snapshot)
  {
    match parent
    case None => snap.parent.None? && snap.deltaNodes == [] && snap.deltaEdges == []
    case Some(p) =>
      && snap.parent == Some(p.id)
      && (forall u :: u in snap.deltaNodes <==> u in DiffOf(p, snap).addedNodes)
      && (forall key :: key in snap.deltaEdges <==> key in DiffOf(p, snap).addedEdges)
  }

  /** Each snapshot was created on the one just before it. */
  ghost predicate Chained(history: seq<Snapshot>, keep: nat)
  {
    forall i :: 0 <= i < |history| ==> Linked(Newest(history[..i], keep), history[i])
  }

  lemma ChainedAppend(history: seq<Snapshot>, keep: nat, snap: Snapshot)
    requires Chained(history, keep) && Linked(Newest(history, keep), snap)
    ensures Chained(history + [snap], keep)
  {
    hide Linked, Newest;
    var all := history + [snap];
    forall i | 0 <= i < |all| ensures Linked(Newest(all[..i], keep), all[i]) {
      assert all[..i] == history[..i];
      assert history[..|history|] == history;
    }
  }

  lemma CaptureIsLinked(s: State, id: SnapshotId, title: string, parent: Option<Snapshot>)
    requires WellFormed(s)
    ensures Linked(parent, Capture(s, id, title, parent))
  {
    hide WellFormed, DiffOf, Ids, NewKeys, EdgeKeys, Flatten;
    if parent.Some? {
      DeltaIsDiff(s, id, title, parent.value);
    }
  }

  lemma EndsAre(snap: StoredSnapshot)
    requires forall e :: e in View(snap).edges ==> e.from in snap.order && e.to in snap.order
    ensures forall e :: e in snap.edges ==> e.key.from in snap.order && e.key.to in snap.order
  {
    hide Values;
    forall e | e in snap.edges ensures e.key.from in snap.order && e.key.to in snap.order {
      var i :| 0 <= i < |snap.edges| && snap.edges[i] == e;
      assert Values(snap.edges)[i] in View(snap).edges;
    }
  }

  /** The state that the copies of what a snapshot holds make up. */
  lemma RestoredState(snap: StoredSnapshot, s: State) returns (state: State)
    requires Holds(View(snap), s)
    ensures state == State(snap.order, snap.nodes, BySource(snap.order, Values(snap.edges)),
                           ByTarget(snap.order, Values(snap.edges)), {})
    ensures WellFormed(state) && RolledBackTo(state, s)
    ensures forall e :: e in snap.edges ==> e.key.from in snap.order && e.key.to in snap.order
  {
    hide Holds, WellFormed, RolledBackTo, BySource, ByTarget, Values, Regroup;
    RollbackFacts(View(snap), s);
    state := Regroup(snap.order, snap.nodes, Values(snap.edges));
    RegroupIs(snap.order, snap.nodes, Values(snap.edges));
    EndsAre(snap);
  }

  /** The store gets new copies of what the snapshot holds. */
  method Restore(store: InMemoryGraphStore, snap: StoredSnapshot, ghost s: State)
    requires Holds(View(snap), s)
    modifies store
    ensures store.Valid() && RolledBackTo(store.contents, s) && fresh(store.Repr())
  {
    hide *;
    ghost var state := RestoredState(snap, s);
    var adj, inn := CopyEdges(snap.order, snap.edges);
    Install(store, snap.order, snap.nodes, adj, inn, state);
  }

  class GraphVersioning {
    const keepVersions: nat
    var snapshots: seq<StoredSnapshot>
    var counter: nat
    /** What every snapshot ever created said at its creation, and the state of the store then. */
    ghost var history: seq<Snapshot>
    ghost var states: seq<State>

    ghost function Copies(): set<StoredEdge>
      reads this
    {
      EdgeObjects(snapshots)
    }

    /** Exactly the newest keep_versions snapshots are retained, oldest first, and each still says what
        it said at its creation. */
    ghost predicate Valid()
      reads this, Copies()
    {
      && Consistent(counter, history, states)
      && Chained(history, keepVersions)
      && Show(snapshots, Retained(history, keepVersions))
    }

    /** No edge object of a retained snapshot is in the store. */
    ghost predicate ApartFrom(store: InMemoryGraphStore)
      reads this, store
    {
      Copies() !! store.Repr()
    }

    /** keep_versions or the configured number: zero counts as not given. */
    constructor (keep: nat, configured: nat)
      ensures Valid() && history == [] && Copies() == {}
      ensures keepVersions == if keep == 0 then configured else keep
    {
      keepVersions := if keep == 0 then configured else keep;
      snapshots, counter, history, states := [], 0, [], [];
    }

    function Latest(): Option<Snapshot>
      reads this, Copies()
    {
      if snapshots == [] then None else Some(View(snapshots[|snapshots| - 1]))
    }

    /** A snapshot with edge objects of its own joins the retained ones; the oldest may go. */
    method Retain(snap: StoredSnapshot, ghost said: Snapshot, ghost state: State)
      requires Valid() && said == View(snap) && said.id.number == counter + 1 && Holds(said, state)
      requires Linked(Newest(history, keepVersions), said)
      modifies this
      ensures Valid() && counter == old(counter) + 1
      ensures history == old(history) + [said] && states == old(states) + [state]
      ensures forall e :: e in Copies() ==> e in old(Copies()) || e in snap.edges
    {
      hide Holds, Retained, Consistent, Chained, Linked, Newest;
      CounterIsLength();
      ConsistentAppend(history, states, said, state);
      ChainedAppend(history, keepVersions, said);
      RetainedAppend(history, keepVersions, said);
      ShowPushed(snapshots, Retained(history, keepVersions), snap, keepVersions);
      counter := counter + 1;
      snapshots := Pushed(snapshots, snap, keepVersions);
      history, states := history + [said], states + [state];
    }

    /** The snapshot of the store as it is, with deep copies of its edges. */
    static method Take(store: InMemoryGraphStore, id: SnapshotId, title: string, parent: Option<Snapshot>)
      returns (snap: StoredSnapshot, ghost said: Snapshot)
      requires store.Valid()
      ensures said == View(snap) == Capture(store.contents, id, title, parent)
      ensures Holds(said, store.contents) && said.id == id
      ensures forall e :: e in snap.edges ==> fresh(e)
    {
      hide WellFormed, Aliased, Ids, NewKeys, EdgeKeys, Flatten, AllEdges;
      store.ListsAgree();
      store.SameKeys();
      store.OrderIsNodes();
      CaptureHolds(store.contents, id, title, parent);
      var objects := AllEdges(store.order, store.adj);
      AllEdgesValues(store.order, store.adj, store.contents.out);
      assert Values(objects) == Flatten(store.contents.order, store.contents.out);
      said := Capture(store.contents, id, title, parent);
      var copies := DeepCopy(objects);
      assert Values(copies) == Flatten(store.contents.order, store.contents.out);
      if parent.None? {
        snap := StoredSnapshot(id, title, None, store.order, store.nodes, copies, [], []);
      } else {
        var p := parent.value;
        snap := StoredSnapshot(id, title, Some(p.id), store.order, store.nodes, copies,
                               Ids(store.order, p.nodes), NewKeys(Values(copies), EdgeKeys(p.edges)));
      }
    }

    /** create_snapshot: what the store holds is copied, so that later changes to the store cannot reach it. */
    method CreateSnapshot(store: InMemoryGraphStore, title: string, stamp: string) returns (id: SnapshotId)
      requires Valid() && store.Valid()
      modifies this
      ensures Valid()
      ensures id == SnapshotId(|history|, stamp)
      ensures history == old(history) + [Capture(store.contents, id, title, old(Newest(history, keepVersions)))]
      ensures states == old(states) + [store.contents]
      ensures fresh(Copies() - old(Copies()))
      ensures old(ApartFrom(store)) ==> ApartFrom(store)
    {
      hide WellFormed, Aliased, Capture, Holds, Consistent, Chained, Linked, Newest, Retained;
      CounterIsLength();
      LatestIsNewest();
      var parent := Latest();
      id := SnapshotId(counter + 1, stamp);
      var snap;
      ghost var said;
      snap, said := Take(store, id, title, parent);
      CaptureIsLinked(store.contents, id, title, parent);
      Retain(snap, said, store.contents);
    }

    /** _latest: the newest retained snapshot is the one created last. */
    lemma LatestIsNewest()
      requires Valid()
      ensures Latest() == Newest(history, keepVersions)
    {
      hide Consistent, Chained, View;
      var retained := Retained(history, keepVersions);
      if snapshots != [] {
        assert View(snapshots[|snapshots| - 1]) == retained[|retained| - 1];
      }
    }

    /** A retained snapshot still says what it said when it was created from one of the states. */
    lemma Origin(snap: StoredSnapshot) returns (i: nat)
      requires Valid() && snap in snapshots
      ensures |states| == |history| && i < |history| && history[i] == View(snap) && Holds(View(snap), states[i])
      ensures i >= |history| - keepVersions
    {
      hide Holds;
      var k :| 0 <= k < |snapshots| && snapshots[k] == snap;
      i := |history| - |snapshots| + k;
      assert Retained(history, keepVersions)[k] == history[i];
    }

    /** One of the newest keep_versions snapshots has the id. */
    ghost predicate Available(id: SnapshotId)
      reads this
    {
      exists i :: 0 <= i < |history| && |history| - keepVersions <= i && history[i].id == id
    }

    lemma AvailableIffRetained(id: SnapshotId)
      requires Valid()
      ensures Available(id) <==> exists s :: s in snapshots && s.id == id
    {
      hide Consistent, Chained, Retained, View;
      ShownIds(snapshots, Retained(history, keepVersions), id);
      RetainedIds(history, keepVersions, id);
    }

    /** The first retained snapshot with the given id, if any is left: one is exactly when it is among the
        newest keep_versions. */
    method Get(id: SnapshotId) returns (found: Option<StoredSnapshot>)
      requires Valid()
      ensures found.Some? <==> Available(id)
      ensures found.Some? ==> found.value in snapshots && found.value.id == id
      ensures found.None? ==> forall s :: s in snapshots ==> s.id != id
    {
      hide *;
      AvailableIffRetained(id);
      for i := 0 to |snapshots|
        invariant forall k :: 0 <= k < i ==> snapshots[k].id != id
      {
        if snapshots[i].id == id {
          return Some(snapshots[i]);
        }
      }
      return None;
    }

    /** diff: an error unless both snapshots are still retained. */
    method Difference(a: SnapshotId, b: SnapshotId) returns (diff: Option<DiffLists>)
      requires Valid()
      ensures diff.Some? ==> exists s, t :: s in snapshots && t in snapshots && s.id == a && t.id == b
                                            && Lists(DiffOf(View(s), View(t)), diff.value)
      ensures diff.Some? <==> Available(a) && Available(b)
    {
      hide Consistent, Chained, Retained, Available, DiffOf, Lists;
      var from := Get(a);
      var to := Get(b);
      if from.None? || to.None? {
        return None;
      }
      var lists := SortedDiff(DiffOf(View(from.value), View(to.value)));
      return Some(lists);
    }

    ghost predicate WasSaved(id: SnapshotId, r: State)
      reads this
    {
      |states| == |history| && exists i :: 0 <= i < |history| && i >= |history| - keepVersions && history[i].id == id
                                           && RolledBackTo(r, states[i])
    }

    method GoBack(store: InMemoryGraphStore, snap: StoredSnapshot)
      requires Valid() && snap in snapshots
      modifies store
      ensures Valid() && store.Valid() && fresh(store.Repr()) && ApartFrom(store)
      ensures WasSaved(snap.id, store.contents)
    {
      hide WellFormed, Consistent, Chained, Retained, Aliased, RolledBackTo, Holds;
      ghost var i := Origin(snap);
      Restore(store, snap, states[i]);
    }

    /** An evicted or unknown id changes nothing. Otherwise the store gets back the nodes, node order
        and per-node edge order it had when the snapshot was made, and separate copies in its two
        indexes. The snapshots stay as they are, and stay apart from the store. */
    method Rollback(store: InMemoryGraphStore, id: SnapshotId) returns (outcome: Outcome)
      requires Valid() && store.Valid()
      modifies store
      ensures Valid() && store.Valid()
      ensures outcome == KeyError || outcome == Done
      ensures outcome == KeyError ==> store.contents == old(store.contents) && store.Repr() == old(store.Repr())
      ensures outcome == KeyError <==> !Available(id)
      ensures outcome == Done ==> fresh(store.Repr()) && ApartFrom(store)
      ensures outcome == Done ==> WasSaved(id, store.contents)
    {
      hide WellFormed, Consistent, Chained, Retained, Aliased, WasSaved, Available;
      var found := Get(id);
      if found.None? {
        return KeyError;
      }
      GoBack(store, found.value);
      return Done;
    }

    lemma CounterIsLength()
      requires Valid()
      ensures counter == |history| == |states|
    {
    }
  }

  /** add_edge may strengthen an edge object in place or take one in; the retained snapshots go on saying
      what they said, because none of their objects is in the store. */
  method AddEdgeBeside(versions: GraphVersioning, store: InMemoryGraphStore, edge: StoredEdge)
    returns (outcome: Outcome)
    requires versions.Valid() && store.Valid() && versions.ApartFrom(store) && edge !in versions.Copies()
    modifies store, store.Repr()
    ensures versions.Valid() && store.Valid() && versions.ApartFrom(store)
    ensures (store.contents, outcome) == old(store.Next(EdgeOp(edge.Value())))
    ensures unchanged(versions)
  {
    hide WellFormed, Consistent, Chained, Retained, Aliased;
    outcome := store.AddEdge(edge);
  }

  lemma NextNode(store: InMemoryGraphStore, node: Node)
    requires store.Valid()
    ensures store.Next(NodeOp(node)) == GraphState.AddNode(store.contents, node)
  {
    hide GraphState.AddNode;
  }

  /** add_node leaves them alone as well. */
  method AddNodeBeside(versions: GraphVersioning, store: InMemoryGraphStore, node: Node) returns (outcome: Outcome)
    requires versions.Valid() && store.Valid() && versions.ApartFrom(store)
    modifies store
    ensures versions.Valid() && store.Valid() && versions.ApartFrom(store)
    ensures (store.contents, outcome) == old(store.Next(NodeOp(node)))
    ensures unchanged(versions)
  {
    hide WellFormed, Consistent, Chained, Retained, Aliased, Show, Apply, GraphState.AddNode;
    NextNode(store, node);
    outcome := store.AddNode(node);
  }
}
