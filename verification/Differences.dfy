/** What diff says about two snapshots, and when its textual edge keys are enough (graph/versioning.py). */
module Differences {
  import opened Sums
  import opened Graphs
  import opened Options
  import opened GraphState
  import opened Snapshots
  import opened Texts

  // ----- edge keys

  function RelationText(r: Relation): string
  {
    match r
    case RelatedTo => "related_to"
    case Causes => "causes"
    case SimilarTo => "similar_to"
    case LeadsTo => "leads_to"
    case MonetizesVia => "monetizes_via"
    case TriggersEmotion => "triggers_emotion"
    case BelongsToEvent => "belongs_to_event"
    case Other(text) => text
  }

  function EdgeKey(t: Triple): string
  {
    t.from.text + "->" + (t.to.text + ":" + RelationText(t.rel))
  }

  function EdgeKeys(es: seq<Edge>): set<string>
  {
    set e | e in es :: EdgeKey(Key(e))
  }

  /** a contains no arrow. */
  ghost predicate Plain(a: string)
  {
    forall i :: 0 <= i < |a| - 1 ==> !(a[i] == '-' && a[i + 1] == '>')
  }

  lemma ArrowNotLater(a: string, b: string, c: string, d: string)
    requires a + "->" + b == c + "->" + d && Plain(c)
    ensures |c| <= |a|
  {
    var s := a + "->" + b;
    assert s[|a|] == '-' && s[|a| + 1] == '>';
    assert forall i :: 0 <= i < |c| ==> s[i] == c[i];
    assert s[|c|] == '-';
  }

  lemma ArrowSplits(a: string, b: string, c: string, d: string)
    requires a + "->" + b == c + "->" + d && Plain(a) && Plain(c)
    ensures a == c && b == d
  {
    ArrowNotLater(a, b, c, d);
    ArrowNotLater(c, d, a, b);
    var s := a + "->" + b;
    assert a == s[..|a|] == c;
    assert b == s[|a| + 2..] == d;
  }

  lemma ColonNotEarlier(a: string, b: string, c: string, d: string)
    requires a + ":" + b == c + ":" + d && ':' !in b
    ensures |c| <= |a|
  {
    var s := a + ":" + b;
    assert s[|c|] == ':';
    assert forall i :: |a| < i < |s| ==> s[i] == b[i - |a| - 1];
  }

  lemma ColonSplits(a: string, b: string, c: string, d: string)
    requires a + ":" + b == c + ":" + d && ':' !in b && ':' !in d
    ensures a == c && b == d
  {
    ColonNotEarlier(a, b, c, d);
    ColonNotEarlier(c, d, a, b);
    var s := a + ":" + b;
    assert a == s[..|a|] == c;
    assert b == s[|a| + 1..] == d;
  }

  lemma RelationTexts(r: Relation, q: Relation)
    requires !r.Other? && !q.Other?
    ensures ':' !in RelationText(r)
    ensures RelationText(r) == RelationText(q) ==> r == q
  {
  }

  const RELATION_TYPES: set<string> :=
    {"related_to", "causes", "similar_to", "leads_to", "monetizes_via", "triggers_emotion", "belongs_to_event"}

  /** The relation that a text names. */
  function RelationOf(text: string): Relation
  {
    if text == "related_to" then RelatedTo
    else if text == "causes" then Causes
    else if text == "similar_to" then SimilarTo
    else if text == "leads_to" then LeadsTo
    else if text == "monetizes_via" then MonetizesVia
    else if text == "triggers_emotion" then TriggersEmotion
    else if text == "belongs_to_event" then BelongsToEvent
    else Other(text)
  }

  /** Texts and relations stand for each other, and exactly the listed texts name an admitted relation. */
  lemma RelationRoundTrip(text: string, r: Relation)
    ensures RelationText(RelationOf(text)) == text
    ensures !r.Other? ==> RelationOf(RelationText(r)) == r
    ensures !RelationOf(text).Other? <==> text in RELATION_TYPES
  {
  }

  /** Edges whose source ids contain no arrow are told apart by their textual keys. */
  lemma EdgeKeyInjective(s: Triple, t: Triple)
    requires EdgeKey(s) == EdgeKey(t) && !s.rel.Other? && !t.rel.Other?
    requires Plain(s.from.text) && Plain(t.from.text)
    ensures s == t
  {
    RelationTexts(s.rel, t.rel);
    RelationTexts(t.rel, s.rel);
    ArrowSplits(s.from.text, s.to.text + ":" + RelationText(s.rel), t.from.text, t.to.text + ":" + RelationText(t.rel));
    ColonSplits(s.to.text, RelationText(s.rel), t.to.text, RelationText(t.rel));
  }

  /** An arrow in a source id lets the same text be read as another edge. */
  lemma ArrowClashes(s: Triple, i: nat)
    requires i + 1 < |s.from.text| && s.from.text[i] == '-' && s.from.text[i + 1] == '>'
    ensures var a := s.from.text;
      EdgeKey(Triple(Id(a[..i]), Id(a[i + 2..] + "->" + s.to.text), s.rel)) == EdgeKey(s)
  {
    var a, rest := s.from.text, s.to.text + ":" + RelationText(s.rel);
    assert a == a[..i] + "->" + a[i + 2..];
    assert a[..i] + "->" + ((a[i + 2..] + "->" + s.to.text) + ":" + RelationText(s.rel)) == a + "->" + rest;
  }

  ghost predicate Ambiguous(s: Triple)
  {
    exists t: Triple :: t != s && !t.rel.Other? && Plain(t.from.text) && EdgeKey(t) == EdgeKey(s)
  }

  lemma {:induction false} FirstArrow(a: string) returns (i: nat)
    requires !Plain(a)
    ensures i + 1 < |a| && a[i] == '-' && a[i + 1] == '>' && Plain(a[..i])
    decreases |a|
  {
    i :| 0 <= i < |a| - 1 && a[i] == '-' && a[i + 1] == '>';
    if !Plain(a[..i]) {
      var j := FirstArrow(a[..i]);
      assert a[..i][..j] == a[..j];
      i := j;
    }
  }

  /** The key of an edge can also be that of an edge with an arrow-free source id exactly when its own
      source id contains an arrow. */
  lemma AmbiguousIffArrow(s: Triple)
    requires !s.rel.Other?
    ensures Ambiguous(s) <==> !Plain(s.from.text)
  {
    if Plain(s.from.text) {
      forall t: Triple | !t.rel.Other? && Plain(t.from.text) && EdgeKey(t) == EdgeKey(s) ensures t == s {
        EdgeKeyInjective(s, t);
      }
    } else {
      var a := s.from.text;
      var i := FirstArrow(a);
      ArrowClashes(s, i);
      var t := Triple(Id(a[..i]), Id(a[i + 2..] + "->" + s.to.text), s.rel);
      assert t != s && Plain(t.from.text) && EdgeKey(t) == EdgeKey(s);
    }
  }

  datatype Diff = Diff(addedNodes: set<Id>, removedNodes: set<Id>, addedEdges: set<string>, removedEdges: set<string>)

  function DiffOf(a: Snapshot, b: Snapshot): Diff
  {
    var aNodes, bNodes, aEdges, bEdges := a.nodes.Keys, b.nodes.Keys, EdgeKeys(a.edges), EdgeKeys(b.edges);
    Diff(bNodes - aNodes, aNodes - bNodes, bEdges - aEdges, aEdges - bEdges)
  }

  function Patch<T>(base: set<T>, added: set<T>, removed: set<T>): set<T>
  {
    (base - removed) + added
  }

  /** What diff returns: the same four sets as sorted lists. */
  datatype DiffLists = DiffLists(addedNodes: seq<string>, removedNodes: seq<string>, addedEdges: seq<string>,
                                 removedEdges: seq<string>)

  function TextsOf(ids: set<Id>): set<string>
  {
    set u | u in ids :: u.text
  }

  ghost predicate Lists(d: Diff, lists: DiffLists)
  {
    && SortedList(TextsOf(d.addedNodes), lists.addedNodes) && SortedList(TextsOf(d.removedNodes), lists.removedNodes)
    && SortedList(d.addedEdges, lists.addedEdges) && SortedList(d.removedEdges, lists.removedEdges)
  }

  method SortedDiff(d: Diff) returns (lists: DiffLists)
    ensures Lists(d, lists)
  {
    var addedNodes := Sort(TextsOf(d.addedNodes));
    var removedNodes := Sort(TextsOf(d.removedNodes));
    var addedEdges := Sort(d.addedEdges);
    var removedEdges := Sort(d.removedEdges);
    return DiffLists(addedNodes, removedNodes, addedEdges, removedEdges);
  }

  function Elements(xs: seq<string>): set<string>
  {
    set x | x in xs
  }

  lemma ListElements(s: set<string>, xs: seq<string>)
    requires SortedList(s, xs)
    ensures Elements(xs) == s
  {
  }

  /** The same for the sorted lists that diff returns, which the two snapshots determine. */
  lemma DiffListsApply(a: Snapshot, b: Snapshot, lists: DiffLists)
    requires Lists(DiffOf(a, b), lists)
    ensures Patch(TextsOf(a.nodes.Keys), Elements(lists.addedNodes), Elements(lists.removedNodes))
      == TextsOf(b.nodes.Keys)
    ensures Patch(EdgeKeys(a.edges), Elements(lists.addedEdges), Elements(lists.removedEdges)) == EdgeKeys(b.edges)
    ensures forall others :: Lists(DiffOf(a, b), others) ==> others == lists
  {
    var d := DiffOf(a, b);
    hide EdgeKeys, SortedList;
    ListElements(TextsOf(d.addedNodes), lists.addedNodes);
    ListElements(TextsOf(d.removedNodes), lists.removedNodes);
    ListElements(d.addedEdges, lists.addedEdges);
    ListElements(d.removedEdges, lists.removedEdges);
    assert forall u: Id, v: Id :: u.text == v.text ==> u == v;
    forall others | Lists(d, others) ensures others == lists {
      OneList(d, lists, others);
    }
  }

  lemma OneList(d: Diff, lists: DiffLists, others: DiffLists)
    requires Lists(d, lists) && Lists(d, others)
    ensures others == lists
  {
    hide SortedList, TextsOf;
    SortedListIsUnique(TextsOf(d.addedNodes), lists.addedNodes, others.addedNodes);
    SortedListIsUnique(TextsOf(d.removedNodes), lists.removedNodes, others.removedNodes);
    SortedListIsUnique(d.addedEdges, lists.addedEdges, others.addedEdges);
    SortedListIsUnique(d.removedEdges, lists.removedEdges, others.removedEdges);
  }

  ghost function Triples(a: Snapshot): set<Triple>
  {
    set e | e in a.edges :: Key(e)
  }

  /** The relations are admitted ones, and no source id contains an arrow. */
  ghost predicate Unambiguous(a: Snapshot)
  {
    forall e :: e in a.edges ==> !e.rel.Other? && Plain(e.from.text)
  }

  /** Between such snapshots diff reports no edge exactly when they have the same edges. */
  lemma NoDifference(a: Snapshot, b: Snapshot)
    requires Unambiguous(a) && Unambiguous(b)
    ensures DiffOf(a, b).addedEdges == {} == DiffOf(a, b).removedEdges <==> Triples(a) == Triples(b)
  {
    var d := DiffOf(a, b);
    if d.addedEdges == {} == d.removedEdges {
      SameKeysSameEdges(a, b);
      SameKeysSameEdges(b, a);
    } else {
      assert EdgeKeys(a.edges) == (set t | t in Triples(a) :: EdgeKey(t));
      assert EdgeKeys(b.edges) == (set t | t in Triples(b) :: EdgeKey(t));
      assert EdgeKeys(a.edges) != EdgeKeys(b.edges);
    }
  }

  lemma SameKeysSameEdges(a: Snapshot, b: Snapshot)
    requires Unambiguous(a) && Unambiguous(b) && EdgeKeys(a.edges) <= EdgeKeys(b.edges)
    ensures Triples(a) <= Triples(b)
  {
    forall e | e in a.edges ensures Key(e) in Triples(b) {
      assert EdgeKey(Key(e)) in EdgeKeys(b.edges);
      var f :| f in b.edges && EdgeKey(Key(f)) == EdgeKey(Key(e));
      EdgeKeyInjective(Key(e), Key(f));
    }
  }

  /** Applying the difference to the older snapshot's ids and keys gives the newer one's. */
  lemma DiffApplies(a: Snapshot, b: Snapshot)
    ensures var ab := DiffOf(a, b);
      && Patch(a.nodes.Keys, ab.addedNodes, ab.removedNodes) == b.nodes.Keys
      && Patch(EdgeKeys(a.edges), ab.addedEdges, ab.removedEdges) == EdgeKeys(b.edges)
  {
  }

  /** What the differences a to b and b to c make up together: an item removed again was not added, and
      one added again was not removed. */
  function Then(ab: Diff, bc: Diff): Diff
  {
    Diff((ab.addedNodes - bc.removedNodes) + (bc.addedNodes - ab.removedNodes),
         (ab.removedNodes - bc.addedNodes) + (bc.removedNodes - ab.addedNodes),
         (ab.addedEdges - bc.removedEdges) + (bc.addedEdges - ab.removedEdges),
         (ab.removedEdges - bc.addedEdges) + (bc.removedEdges - ab.addedEdges))
  }

  /** The differences compose: those of a to b and of b to c determine that of a to c. */
  lemma DiffComposes(a: Snapshot, b: Snapshot, c: Snapshot)
    ensures DiffOf(a, c) == Then(DiffOf(a, b), DiffOf(b, c))
  {
    hide EdgeKeys;
    StepsCompose(a.nodes.Keys, b.nodes.Keys, c.nodes.Keys);
    StepsCompose(c.nodes.Keys, b.nodes.Keys, a.nodes.Keys);
    StepsCompose(EdgeKeys(a.edges), EdgeKeys(b.edges), EdgeKeys(c.edges));
    StepsCompose(EdgeKeys(c.edges), EdgeKeys(b.edges), EdgeKeys(a.edges));
  }

  lemma StepsCompose<T>(a: set<T>, b: set<T>, c: set<T>)
    ensures c - a == ((b - a) - (b - c)) + ((c - b) - (a - b))
  {
  }

  // ----- what a snapshot says about the store

  function Ids(nodes: seq<Id>, known: map<Id, Node>): seq<Id>
  {
    if nodes == [] then
      []
    else
      var last := nodes[|nodes| - 1];
      Ids(nodes[..|nodes| - 1], known) + (if last in known then [] else [last])
  }

  function NewKeys(es: seq<Edge>, known: set<string>): seq<string>
  {
    if es == [] then
      []
    else
      var key := EdgeKey(Key(es[|es| - 1]));
      NewKeys(es[..|es| - 1], known) + (if key in known then [] else [key])
  }

  /** What create_snapshot stores for the state s when the newest retained snapshot is parent. */
  function Capture(s: State, id: SnapshotId, title: string, parent: Option<Snapshot>): Snapshot
  {
    var edges := Flatten(s.order, s.out);
    match parent
    case None => Snapshot(id, title, None, s.order, s.nodes, edges, [], [])
    case Some(p) =>
      Snapshot(id, title, Some(p.id), s.order, s.nodes, edges, Ids(s.order, p.nodes), NewKeys(edges, EdgeKeys(p.edges)))
  }

  ghost predicate Holds(snap: Snapshot, s: State)
  {
    WellFormed(s) && snap.order == s.order && snap.nodes == s.nodes && snap.edges == Flatten(s.order, s.out)
  }

  lemma {:induction false} IdsAre(nodes: seq<Id>, known: map<Id, Node>, u: Id)
    ensures u in Ids(nodes, known) <==> u in nodes && u !in known
    decreases |nodes|
  {
    if nodes != [] {
      IdsAre(nodes[..|nodes| - 1], known, u);
    }
  }

  lemma {:induction false} NewKeysAre(es: seq<Edge>, known: set<string>, key: string)
    ensures key in NewKeys(es, known) <==> key in EdgeKeys(es) && key !in known
    decreases |es|
  {
    if es != [] {
      var k := |es| - 1;
      NewKeysAre(es[..k], known, key);
      assert es == es[..k] + [es[k]];
      assert EdgeKeys(es) == EdgeKeys(es[..k]) + {EdgeKey(Key(es[k]))};
    }
  }

  lemma {:induction false} IdsConcat(xs: seq<Id>, ys: seq<Id>, known: map<Id, Node>)
    ensures Ids(xs + ys, known) == Ids(xs, known) + Ids(ys, known)
    decreases |ys|
  {
    if ys == [] {
      assert xs + ys == xs;
    } else {
      var k := |ys| - 1;
      IdsConcat(xs, ys[..k], known);
      assert (xs + ys)[..|xs + ys| - 1] == xs + ys[..k];
    }
  }

  lemma {:induction false} NewKeysConcat(xs: seq<Edge>, ys: seq<Edge>, known: set<string>)
    ensures NewKeys(xs + ys, known) == NewKeys(xs, known) + NewKeys(ys, known)
    decreases |ys|
  {
    hide EdgeKey;
    if ys == [] {
      assert xs + ys == xs;
    } else {
      var k := |ys| - 1;
      NewKeysConcat(xs, ys[..k], known);
      assert (xs + ys)[..|xs + ys| - 1] == xs + ys[..k];
    }
  }

  lemma IdsInOrder(nodes: seq<Id>, known: map<Id, Node>, i: nat)
    requires i < |nodes| && nodes[i] !in known
    ensures Ids(nodes, known) == Ids(nodes[..i], known) + [nodes[i]] + Ids(nodes[i + 1..], known)
  {
    assert nodes == nodes[..i] + [nodes[i]] + nodes[i + 1..];
    assert (nodes[..i] + [nodes[i]])[..i] == nodes[..i];
    assert Ids(nodes[..i] + [nodes[i]], known) == Ids(nodes[..i], known) + [nodes[i]];
    hide Ids;
    IdsConcat(nodes[..i] + [nodes[i]], nodes[i + 1..], known);
  }

  lemma NewKeysInOrder(es: seq<Edge>, known: set<string>, j: nat)
    requires j < |es| && EdgeKey(Key(es[j])) !in known
    ensures NewKeys(es, known) == NewKeys(es[..j], known) + [EdgeKey(Key(es[j]))] + NewKeys(es[j + 1..], known)
  {
    hide EdgeKey;
    assert es == es[..j] + [es[j]] + es[j + 1..];
    assert (es[..j] + [es[j]])[..j] == es[..j];
    assert NewKeys(es[..j] + [es[j]], known) == NewKeys(es[..j], known) + [EdgeKey(Key(es[j]))];
    hide NewKeys;
    NewKeysConcat(es[..j] + [es[j]], es[j + 1..], known);
  }

  /** Deltas keep the order of the snapshot: what is new stands where it stands there, the rest is left out. */
  lemma DeltasInOrder(s: State, id: SnapshotId, title: string, p: Snapshot, i: nat, j: nat)
    requires i < |s.order| && s.order[i] !in p.nodes
    requires j < |Flatten(s.order, s.out)| && EdgeKey(Key(Flatten(s.order, s.out)[j])) !in EdgeKeys(p.edges)
    ensures var snap := Capture(s, id, title, Some(p));
      && snap.deltaNodes == Ids(s.order[..i], p.nodes) + [s.order[i]] + Ids(s.order[i + 1..], p.nodes)
      && snap.deltaEdges == NewKeys(snap.edges[..j], EdgeKeys(p.edges)) + [EdgeKey(Key(snap.edges[j]))]
                            + NewKeys(snap.edges[j + 1..], EdgeKeys(p.edges))
  {
    hide EdgeKeys, EdgeKey, Flatten, Ids, NewKeys;
    IdsInOrder(s.order, p.nodes, i);
    NewKeysInOrder(Flatten(s.order, s.out), EdgeKeys(p.edges), j);
  }

  /** The stored delta is what diff reports as added since the parent. */
  lemma DeltaIsDiff(s: State, id: SnapshotId, title: string, parent: Snapshot)
    requires WellFormed(s)
    ensures var snap := Capture(s, id, title, Some(parent));
      && (forall u :: u in snap.deltaNodes <==> u in DiffOf(parent, snap).addedNodes)
      && (forall key :: key in snap.deltaEdges <==> key in DiffOf(parent, snap).addedEdges)
  {
    var snap := Capture(s, id, title, Some(parent));
    forall u ensures u in snap.deltaNodes <==> u in DiffOf(parent, snap).addedNodes {
      IdsAre(s.order, parent.nodes, u);
    }
    forall key ensures key in snap.deltaEdges <==> key in DiffOf(parent, snap).addedEdges {
      NewKeysAre(snap.edges, EdgeKeys(parent.edges), key);
    }
  }

  lemma CaptureHolds(s: State, id: SnapshotId, title: string, parent: Option<Snapshot>)
    requires WellFormed(s)
    ensures var snap := Capture(s, id, title, parent); Holds(snap, s) && snap.id == id && snap.title == title
  {
    hide WellFormed, Flatten, Ids, NewKeys, EdgeKeys;
  }

  // ----- when diff sees a change of the edges

  /** a is a snapshot of a store with the nodes ids and admitted relations. */
  ghost predicate SnapshotOver(a: Snapshot, ids: set<Id>)
  {
    exists s :: Holds(a, s) && s.nodes.Keys == ids && forall e :: e in a.edges ==> !e.rel.Other?
  }

  ghost predicate NoEdgeReported(a: Snapshot, b: Snapshot)
  {
    DiffOf(a, b).addedEdges == {} == DiffOf(a, b).removedEdges
  }

  /** Whatever two stores with the nodes ids hold, diff reports no edge only if the edges are the same. */
  ghost predicate DiffTells(ids: set<Id>)
  {
    forall a, b :: SnapshotOver(a, ids) && SnapshotOver(b, ids) && NoEdgeReported(a, b) ==> Triples(a) == Triples(b)
  }

  /** An edge from u to x->z and one from u->x to z would have the same key. */
  predicate Tangle(ids: set<Id>, u: string, x: string, z: string)
  {
    Id(u) in ids && Id(u + "->" + x) in ids && Id(z) in ids && Id(x + "->" + z) in ids
  }

  ghost predicate Tangled(ids: set<Id>)
  {
    exists u, x, z :: Tangle(ids, u, x, z)
  }

  /** Where one text is split in two places, the parts between them are the same. */
  lemma TwoSplits(u: string, v: string, w: string, z: string) returns (x: string)
    requires u + "->" + v == w + "->" + z && u != w && |u| <= |w|
    ensures w == u + "->" + x && v == x + "->" + z
  {
    var s := u + "->" + v;
    assert u == s[..|u|] && w == s[..|w|] && s[..|w|][..|u|] == s[..|u|];
    assert s[|u|] == '-' && s[|u| + 1] == '>' && s[|w|] == '-';
    assert |w| >= |u| + 2;
    x := w[|u| + 2..];
    assert w == w[..|u|] + w[|u|..|u| + 2] + x;
    assert w[|u|..|u| + 2] == s[|u|..|u| + 2] == "->";
    assert v == s[|u| + 2..];
    assert s == w + "->" + z;
    assert s[|u| + 2..] == x + ("->" + z);
  }

  /** The two parts of a key: the ends, and the relation. */
  lemma KeyParts(s: Triple, t: Triple)
    requires EdgeKey(s) == EdgeKey(t) && !s.rel.Other? && !t.rel.Other?
    ensures s.from.text + "->" + s.to.text == t.from.text + "->" + t.to.text && s.rel == t.rel
  {
    hide RelationText;
    RelationTexts(s.rel, t.rel);
    RelationTexts(t.rel, s.rel);
    var u, v, w, z := s.from.text, s.to.text, t.from.text, t.to.text;
    var q, r := RelationText(s.rel), RelationText(t.rel);
    SameText(u, v, q);
    SameText(w, z, r);
    ColonSplits(u + "->" + v, q, w + "->" + z, r);
  }

  lemma SameText(u: string, v: string, q: string)
    ensures u + "->" + (v + ":" + q) == (u + "->" + v) + ":" + q
  {
  }

  /** Equal keys of different edges tangle their ends. */
  lemma ClashTangles(s: Triple, t: Triple, ids: set<Id>)
    requires EdgeKey(s) == EdgeKey(t) && s != t && !s.rel.Other? && !t.rel.Other?
    requires s.from in ids && s.to in ids && t.from in ids && t.to in ids
    ensures Tangled(ids)
  {
    hide EdgeKey, Tangled;
    KeyParts(s, t);
    var u, v, w, z := s.from.text, s.to.text, t.from.text, t.to.text;
    if u == w {
      SameRest(u, v, z);
    } else if |u| <= |w| {
      var x := TwoSplits(u, v, w, z);
      TangleOf(ids, s, t, x);
    } else {
      var x := TwoSplits(w, z, u, v);
      TangleOf(ids, t, s, x);
    }
  }

  lemma SameRest(u: string, v: string, z: string)
    requires u + "->" + v == u + "->" + z
    ensures v == z
  {
    assert (u + "->" + v)[|u| + 2..] == v && (u + "->" + z)[|u| + 2..] == z;
  }

  lemma TangleOf(ids: set<Id>, s: Triple, t: Triple, x: string)
    requires s.from in ids && s.to in ids && t.from in ids && t.to in ids
    requires t.from.text == s.from.text + "->" + x && s.to.text == x + "->" + t.to.text
    ensures Tangled(ids)
  {
    assert Id(s.from.text) == s.from && Id(t.from.text) == t.from && Id(s.to.text) == s.to && Id(t.to.text) == t.to;
    assert Tangle(ids, s.from.text, x, t.to.text);
  }

  lemma EndsAreNodes(a: Snapshot, ids: set<Id>, e: Edge)
    requires SnapshotOver(a, ids) && e in a.edges
    ensures e.from in ids && e.to in ids && !e.rel.Other?
  {
    var s :| Holds(a, s) && s.nodes.Keys == ids && forall e :: e in a.edges ==> !e.rel.Other?;
    FlattenTargets(s, a.edges);
    assert forall u :: u in s.order ==> u in s.nodes;
  }

  lemma UntangledTells(ids: set<Id>, a: Snapshot, b: Snapshot)
    requires !Tangled(ids) && SnapshotOver(a, ids) && SnapshotOver(b, ids) && EdgeKeys(a.edges) <= EdgeKeys(b.edges)
    ensures Triples(a) <= Triples(b)
  {
    hide SnapshotOver, EdgeKey, Tangled;
    forall e | e in a.edges ensures Key(e) in Triples(b) {
      assert EdgeKey(Key(e)) in EdgeKeys(b.edges);
      var f :| f in b.edges && EdgeKey(Key(f)) == EdgeKey(Key(e));
      EndsAreNodes(a, ids, e);
      EndsAreNodes(b, ids, f);
      if Key(e) != Key(f) {
        ClashTangles(Key(e), Key(f), ids);
      }
    }
  }

  // ----- two stores that diff confuses

  lemma {:induction false} Listing(ids: set<Id>) returns (order: seq<Id>)
    ensures Distinct(order) && forall u :: u in order <==> u in ids
    decreases ids
  {
    if ids == {} {
      order := [];
    } else {
      var u :| u in ids;
      var rest := Listing(ids - {u});
      order := rest + [u];
      assert forall i :: 0 <= i < |rest| ==> rest[i] in rest;
    }
  }

  ghost function Bare(order: seq<Id>): State
  {
    var empty: Graph := map u | u in order :: [];
    State(order, map u | u in order :: Node(u, Topic, "", 1.0, None), empty, empty, {})
  }

  lemma BareIsWellFormed(order: seq<Id>)
    requires Distinct(order)
    ensures WellFormed(Bare(order)) && forall t :: OutWeight(Bare(order), t).None?
  {
  }

  /** The store with the given nodes and one edge. */
  lemma WithOneEdge(order: seq<Id>, e: Edge) returns (s: State)
    requires Distinct(order) && e.from in order && e.to in order && !e.rel.Other?
    ensures WellFormed(s) && s.order == order && s.nodes == Bare(order).nodes
    ensures forall f :: f in Flatten(order, s.out) <==> f == e
  {
    hide WellFormed, AddEdge;
    var bare := Bare(order);
    BareIsWellFormed(order);
    AddEdgeKeeps(bare, e);
    FirstEdge(order, e);
    s := AddEdge(bare, e).0;
    OnlyEdge(order, s.out, e);
  }

  lemma FirstEdge(order: seq<Id>, e: Edge)
    requires Distinct(order) && e.from in order && e.to in order && !e.rel.Other?
    ensures WellFormed(Bare(order))
    ensures var bare := Bare(order);
      var s := AddEdge(bare, e).0;
      s.order == order && s.nodes == bare.nodes && s.out == bare.out[e.from := [e]]
  {
    BareIsWellFormed(order);
    hide WellFormed, OutWeight;
    assert Bare(order).out[e.from] + [e] == [e];
  }

  lemma {:induction false} OnlyEdge(order: seq<Id>, g: Graph, e: Edge)
    requires e.from in g && g[e.from] == [e] && forall u :: u in g && u != e.from ==> g[u] == []
    ensures forall f :: f in Flatten(order, g) <==> f == e && e.from in order
    decreases |order|
  {
    if order != [] {
      var k := |order| - 1;
      OnlyEdge(order[..k], g, e);
      assert order == order[..k] + [order[k]];
      assert forall f :: f in Out(g, order[k]) <==> f == e && order[k] == e.from;
    }
  }

  lemma OneEdgeSnapshot(order: seq<Id>, ids: set<Id>, e: Edge, id: SnapshotId, title: string) returns (a: Snapshot)
    requires Distinct(order) && (forall u :: u in order <==> u in ids)
    requires e.from in ids && e.to in ids && !e.rel.Other?
    ensures SnapshotOver(a, ids) && a.nodes == Bare(order).nodes
    ensures Triples(a) == {Key(e)} && EdgeKeys(a.edges) == {EdgeKey(Key(e))}
  {
    hide EdgeKey, Holds, WellFormed, Flatten, Ids, NewKeys;
    var s := WithOneEdge(order, e);
    CaptureHolds(s, id, title, None);
    a := Capture(s, id, title, None);
    OnlyOne(a, e);
    assert s.nodes.Keys == ids;
    assert Holds(a, s);
  }

  lemma OnlyOne(a: Snapshot, e: Edge)
    requires forall f :: f in a.edges <==> f == e
    ensures Triples(a) == {Key(e)} && EdgeKeys(a.edges) == {EdgeKey(Key(e))}
    ensures !e.rel.Other? ==> forall f :: f in a.edges ==> !f.rel.Other?
  {
    hide EdgeKey;
    assert e in a.edges;
    assert Key(e) in Triples(a) && EdgeKey(Key(e)) in EdgeKeys(a.edges);
  }

  /** Over tangled nodes, two snapshots with the same nodes and different edges between which diff
      reports nothing at all. */
  lemma TangledConfuses(ids: set<Id>, u: string, x: string, z: string) returns (a: Snapshot, b: Snapshot)
    requires Tangle(ids, u, x, z)
    ensures SnapshotOver(a, ids) && SnapshotOver(b, ids) && Triples(a) != Triples(b)
    ensures DiffOf(a, b) == Diff({}, {}, {}, {})
  {
    var order := Listing(ids);
    var e := Edge(Id(u), Id(x + "->" + z), RelatedTo, 1.0);
    var f := Edge(Id(u + "->" + x), Id(z), RelatedTo, 1.0);
    SameKey(u, x, z);
    LongerDiffers(u, x);
    hide EdgeKey, SnapshotOver, Bare;
    a := OneEdgeSnapshot(order, ids, e, SnapshotId(1, ""), "before");
    b := OneEdgeSnapshot(order, ids, f, SnapshotId(2, ""), "after");
    assert Key(e) in Triples(a) && Key(e) != Key(f);
  }

  lemma SameKey(u: string, x: string, z: string)
    ensures EdgeKey(Triple(Id(u), Id(x + "->" + z), RelatedTo)) == EdgeKey(Triple(Id(u + "->" + x), Id(z), RelatedTo))
  {
    var rest := ":related_to";
    assert u + "->" + ((x + "->" + z) + ":" + "related_to") == (u + "->" + x) + "->" + (z + ":" + "related_to");
  }

  lemma LongerDiffers(u: string, x: string)
    ensures u != u + "->" + x
  {
    assert |u + "->" + x| == |u| + 2 + |x|;
  }

  /** diff can be relied on for the edges between given nodes exactly when those are not tangled. */
  lemma TellsIffUntangled(ids: set<Id>)
    ensures DiffTells(ids) <==> !Tangled(ids)
  {
    if Tangled(ids) {
      var u, x, z :| Tangle(ids, u, x, z);
      hide SnapshotOver, DiffOf, Triples;
      var a, b := TangledConfuses(ids, u, x, z);
      assert NoEdgeReported(a, b);
    } else {
      hide SnapshotOver, EdgeKeys, Triples, Tangled;
      forall a, b | SnapshotOver(a, ids) && SnapshotOver(b, ids) && NoEdgeReported(a, b)
        ensures Triples(a) == Triples(b)
      {
        UntangledTells(ids, a, b);
        UntangledTells(ids, b, a);
      }
    }
  }

  /** Four nodes suffice: an edge from a to b->c and one from a->b to c. */
  lemma DiffConfuses() returns (a: Snapshot, b: Snapshot)
    ensures var ids := {Id("a"), Id("a->b"), Id("b->c"), Id("c")};
      && SnapshotOver(a, ids) && SnapshotOver(b, ids)
      && DiffOf(a, b) == Diff({}, {}, {}, {}) && Triples(a) != Triples(b)
  {
    var ids := {Id("a"), Id("a->b"), Id("b->c"), Id("c")};
    assert "a" + "->" + "b" == "a->b" && "b" + "->" + "c" == "b->c";
    hide SnapshotOver, DiffOf, Triples;
    a, b := TangledConfuses(ids, "a", "b", "c");
  }
}
