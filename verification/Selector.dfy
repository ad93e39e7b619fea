/** Thompson selection under topic and quota caps (decision_engine/selector.py): sort by sampled value,
    cap per topic, truncate. The sampled values are inputs. */
module Selector {
  import opened Sums
  import opened Sorting
  import opened Options

  /** A candidate with its topic and the value drawn for it. */
  datatype Item = Item(id: nat, topic: string, value: real)

  function TopicCount(xs: seq<Item>, topic: string): nat
  {
    if xs == [] then 0 else TopicCount(xs[..|xs| - 1], topic) + (if xs[|xs| - 1].topic == topic then 1 else 0)
  }

  /** What enforce_diversity keeps: an item goes through while its topic has room. */
  function Diverse(xs: seq<Item>, cap: int): seq<Item>
  {
    if xs == [] then
      []
    else
      var kept, x := Diverse(xs[..|xs| - 1], cap), xs[|xs| - 1];
      if TopicCount(kept, x.topic) >= cap then kept else kept + [x]
  }

  lemma DiverseNext(xs: seq<Item>, i: nat, cap: int)
    requires i < |xs|
    ensures var kept := Diverse(xs[..i], cap);
      Diverse(xs[..i + 1], cap) == if TopicCount(kept, xs[i].topic) >= cap then kept else kept + [xs[i]]
  {
    assert xs[..i + 1][..i] == xs[..i];
  }

  ghost predicate Counted(counts: map<string, nat>, xs: seq<Item>)
  {
    forall t :: (if t in counts then counts[t] else 0) == TopicCount(xs, t)
  }

  lemma CountedNext(counts: map<string, nat>, xs: seq<Item>, x: Item)
    requires Counted(counts, xs)
    ensures TopicCount(xs, x.topic) == if x.topic in counts then counts[x.topic] else 0
    ensures Counted(counts[x.topic := TopicCount(xs, x.topic) + 1], xs + [x])
  {
    forall t ensures TopicCount(xs + [x], t) == TopicCount(xs, t) + (if x.topic == t then 1 else 0) {
      TopicCountSnoc(xs, x, t);
    }
  }

  method EnforceDiversity(xs: seq<Item>, cap: int) returns (out: seq<Item>)
    ensures out == Diverse(xs, cap)
  {
    var counts: map<string, nat> := map[];
    out := [];
    for i := 0 to |xs|
      invariant out == Diverse(xs[..i], cap) && Counted(counts, out)
    {
      hide Diverse, Counted, TopicCount;
      DiverseNext(xs, i, cap);
      CountedNext(counts, out, xs[i]);
      var topic := xs[i].topic;
      var count := if topic in counts then counts[topic] else 0;
      if count >= cap {
        continue;
      }
      counts := counts[topic := count + 1];
      out := out + [xs[i]];
    }
    assert xs[..|xs|] == xs;
  }

  /** A slice s[:n] with the meaning Python gives it: a negative n counts from the end. */
  function Prefix(s: seq<Item>, n: int): seq<Item>
  {
    if n >= |s| then s
    else if n >= 0 then s[..n]
    else if -n <= |s| then s[..|s| + n]
    else []
  }

  /** A slice up to n keeps the first n items, one up to -n drops the last n; more than there are keeps
      all or nothing. */
  lemma SliceKeepsOrDrops(s: seq<Item>, t: seq<Item>, n: int)
    ensures Prefix(s + t, |s|) == s && (t != [] ==> Prefix(s + t, -|t|) == s)
    ensures n >= |s| ==> Prefix(s, n) == s
    ensures n <= -|s| && n < 0 ==> Prefix(s, n) == []
  {
    var all := s + t;
    assert all[..|s|] == s && |all| - |t| == |s|;
  }

  function ApplyQuota(xs: seq<Item>, quota: Option<int>): seq<Item>
  {
    match quota
    case None => xs
    case Some(q) => Prefix(xs, q)
  }

  function Descending(x: Item): real { -x.value }

  method Select(candidates: seq<Item>, quota: Option<int>, cap: int, n: int) returns (out: seq<Item>)
    ensures out == Selected(candidates, quota, cap, n)
  {
    if n <= 0 || candidates == [] {
      assert n > 0 ==> SortBy(candidates, Descending) == [];
      return [];
    }
    var scored := SortBy(candidates, Descending);
    var diverse := EnforceDiversity(scored, cap);
    var limited := ApplyQuota(diverse, quota);
    return Prefix(limited, n);
  }

  // ----- the best that the caps allow

  ghost function ValueOf(): Item -> real
  {
    (x: Item) => x.value
  }

  ghost function Value(xs: seq<Item>): real
  {
    Sum(xs, ValueOf())
  }

  function Room(cap: int): nat { if cap < 0 then 0 else cap }

  /** How many items quota and n let through, of `kept` that are left after capping. */
  function Limit(kept: nat, quota: Option<int>, n: int): nat
  {
    if n <= 0 then 0
    else match quota
      case None => n
      case Some(q) =>
        var allowed := if q >= 0 then q else if -q <= kept then kept + q else 0;
        if allowed < n then allowed else n
  }

  /** A selection from the candidates that respects both caps. */
  ghost predicate Feasible(other: seq<Item>, candidates: seq<Item>, cap: int, limit: nat)
  {
    && multiset(other) <= multiset(candidates)
    && (forall t :: TopicCount(other, t) <= Room(cap))
    && |other| <= limit
  }

  // ----- counting

  ghost function HasTopic(t: string): Item -> real
  {
    (x: Item) => if x.topic == t then 1.0 else 0.0
  }

  lemma {:induction false} TopicCountIsSum(xs: seq<Item>, t: string)
    ensures TopicCount(xs, t) as real == Sum(xs, HasTopic(t))
    decreases |xs|
  {
    if xs != [] {
      TopicCountIsSum(xs[..|xs| - 1], t);
    }
  }

  lemma TopicCountPermutes(xs: seq<Item>, ys: seq<Item>, t: string)
    requires multiset(xs) == multiset(ys)
    ensures TopicCount(xs, t) == TopicCount(ys, t)
  {
    TopicCountIsSum(xs, t);
    TopicCountIsSum(ys, t);
    SumPermutation(xs, ys, HasTopic(t));
  }

  lemma TopicCountSnoc(xs: seq<Item>, x: Item, t: string)
    ensures TopicCount(xs + [x], t) == TopicCount(xs, t) + (if x.topic == t then 1 else 0)
  {
    assert (xs + [x])[..|xs|] == xs;
  }

  lemma {:induction false} TopicCountWitness(xs: seq<Item>, t: string) returns (i: nat)
    requires TopicCount(xs, t) > 0
    ensures i < |xs| && xs[i].topic == t
    decreases |xs|
  {
    i := |xs| - 1;
    if xs[i].topic != t {
      i := TopicCountWitness(xs[..i], t);
    }
  }

  lemma TopicCountWithout(xs: seq<Item>, i: nat, t: string)
    requires i < |xs|
    ensures TopicCount(xs, t) == TopicCount(xs[..i] + xs[i + 1..], t) + (if xs[i].topic == t then 1 else 0)
  {
    var rest := xs[..i] + xs[i + 1..];
    assert xs == xs[..i] + [xs[i]] + xs[i + 1..];
    assert multiset(rest + [xs[i]]) == multiset(xs);
    TopicCountPermutes(rest + [xs[i]], xs, t);
    TopicCountSnoc(rest, xs[i], t);
  }

  /** Having at least as many items of every topic means having at least as many items. */
  lemma {:induction false} TopicsBoundLength(xs: seq<Item>, ys: seq<Item>)
    requires forall t :: TopicCount(xs, t) <= TopicCount(ys, t)
    ensures |xs| <= |ys|
    decreases |xs|
  {
    if xs != [] {
      var k := |xs| - 1;
      assert TopicCount(xs, xs[k].topic) > 0;
      var i := TopicCountWitness(ys, xs[k].topic);
      forall t ensures TopicCount(xs[..k], t) <= TopicCount(ys[..i] + ys[i + 1..], t) {
        TopicCountWithout(ys, i, t);
      }
      TopicsBoundLength(xs[..k], ys[..i] + ys[i + 1..]);
    }
  }

  /** Capping keeps as many items of each topic as there are, up to the cap. */
  lemma {:induction false} DiverseCounts(xs: seq<Item>, cap: int, t: string)
    ensures var c := TopicCount(xs, t); TopicCount(Diverse(xs, cap), t) == if c < Room(cap) then c else Room(cap)
    decreases |xs|
  {
    if xs != [] {
      var k := |xs| - 1;
      DiverseCounts(xs[..k], cap, t);
      TopicCountSnoc(Diverse(xs[..k], cap), xs[k], t);
    }
  }

  // ----- selections along the sorted list

  /** The items of xs at the marked positions. */
  ghost function Picked(xs: seq<Item>, marks: seq<bool>): seq<Item>
    requires |marks| == |xs|
  {
    if xs == [] then
      []
    else
      var k := |xs| - 1;
      Picked(xs[..k], marks[..k]) + (if marks[k] then [xs[k]] else [])
  }

  /** Every selection from xs can be made by marking positions. */
  lemma {:induction false} MarksFor(xs: seq<Item>, chosen: multiset<Item>) returns (marks: seq<bool>)
    requires chosen <= multiset(xs)
    ensures |marks| == |xs| && multiset(Picked(xs, marks)) == chosen
    decreases |xs|
  {
    if xs == [] {
      marks := [];
    } else {
      var k := |xs| - 1;
      var x := xs[k];
      assert xs == xs[..k] + [x];
      assert multiset(xs) == multiset(xs[..k]) + multiset{x};
      var take := chosen[x] > multiset(xs[..k])[x];
      var rest := if take then chosen - multiset{x} else chosen;
      var before := MarksFor(xs[..k], rest);
      marks := before + [take];
      assert marks[..k] == before;
    }
  }

  lemma {:induction false} PickedCounts(xs: seq<Item>, marks: seq<bool>, t: string)
    requires |marks| == |xs|
    ensures TopicCount(Picked(xs, marks), t) <= TopicCount(xs, t)
    decreases |xs|
  {
    if xs != [] {
      var k := |xs| - 1;
      PickedCounts(xs[..k], marks[..k], t);
      assert Picked(xs[..k], marks[..k]) + [] == Picked(xs[..k], marks[..k]);
      TopicCountSnoc(Picked(xs[..k], marks[..k]), xs[k], t);
    }
  }

  lemma {:induction false} PickedPrefix(xs: seq<Item>, marks: seq<bool>, p: nat, t: string)
    requires |marks| == |xs| && p <= |xs|
    ensures TopicCount(Picked(xs[..p], marks[..p]), t) <= TopicCount(Picked(xs, marks), t)
    decreases |xs|
  {
    if p == |xs| {
      assert xs[..p] == xs && marks[..p] == marks;
    } else {
      var k := |xs| - 1;
      PickedPrefix(xs[..k], marks[..k], p, t);
      assert Picked(xs[..k], marks[..k]) + [] == Picked(xs[..k], marks[..k]);
      assert xs[..k][..p] == xs[..p] && marks[..k][..p] == marks[..p];
      TopicCountSnoc(Picked(xs[..k], marks[..k]), xs[k], t);
    }
  }

  lemma {:induction false} PickedLength(xs: seq<Item>, marks: seq<bool>, p: nat)
    requires |marks| == |xs| && p <= |xs|
    ensures |Picked(xs[..p], marks[..p])| <= |Picked(xs, marks)|
    decreases |xs|
  {
    if p == |xs| {
      assert xs[..p] == xs && marks[..p] == marks;
    } else {
      var k := |xs| - 1;
      PickedLength(xs[..k], marks[..k], p);
      assert xs[..k][..p] == xs[..p] && marks[..k][..p] == marks[..p];
    }
  }

  /** The greedy choice among the first p items. */
  function Greedy(xs: seq<Item>, cap: int, limit: nat): seq<Item>
  {
    var kept := Diverse(xs, cap);
    if |kept| <= limit then kept else kept[..limit]
  }

  /** marks selects at most Room(cap) items per topic and at most limit in all. */
  ghost predicate Allowed(xs: seq<Item>, marks: seq<bool>, cap: int, limit: nat)
  {
    |marks| == |xs| && (forall t :: TopicCount(Picked(xs, marks), t) <= Room(cap)) && |Picked(xs, marks)| <= limit
  }

  /** Among the first p items no allowed selection has more items than the greedy one. */
  lemma GreedyIsLongest(xs: seq<Item>, marks: seq<bool>, cap: int, limit: nat, p: nat)
    requires Allowed(xs, marks, cap, limit) && p <= |xs|
    ensures |Picked(xs[..p], marks[..p])| <= |Greedy(xs[..p], cap, limit)|
  {
    forall t ensures TopicCount(Picked(xs[..p], marks[..p]), t) <= TopicCount(Diverse(xs[..p], cap), t) {
      PickedPrefix(xs, marks, p, t);
      PickedCounts(xs[..p], marks[..p], t);
      DiverseCounts(xs[..p], cap, t);
    }
    TopicsBoundLength(Picked(xs[..p], marks[..p]), Diverse(xs[..p], cap));
    PickedLength(xs, marks, p);
  }

  /** The lead of the greedy choice over a selection, among the first p items. */
  ghost function Lead(xs: seq<Item>, marks: seq<bool>, cap: int, limit: nat, p: nat): real
    requires |marks| == |xs| && p <= |xs|
  {
    Value(Greedy(xs[..p], cap, limit)) - Value(Picked(xs[..p], marks[..p]))
  }

  ghost function Surplus(xs: seq<Item>, marks: seq<bool>, cap: int, limit: nat, p: nat): int
    requires |marks| == |xs| && p <= |xs|
  {
    |Greedy(xs[..p], cap, limit)| - |Picked(xs[..p], marks[..p])|
  }

  /** g is before or before with x appended, and its value follows. */
  ghost predicate Extends(before: seq<Item>, after: seq<Item>, x: Item)
  {
    && (after == before || after == before + [x])
    && Value(after) - Value(before) == (|after| - |before|) as real * x.value
  }

  lemma ExtendsIf(before: seq<Item>, after: seq<Item>, x: Item)
    requires after == before || after == before + [x]
    ensures Extends(before, after, x)
  {
    SumSnoc(before, x, ValueOf());
    hide Sum;
  }

  lemma GreedySnoc(xs: seq<Item>, p: nat, cap: int, limit: nat)
    requires p < |xs|
    ensures Extends(Greedy(xs[..p], cap, limit), Greedy(xs[..p + 1], cap, limit), xs[p])
  {
    assert xs[..p + 1][..p] == xs[..p];
    ExtendsIf(Greedy(xs[..p], cap, limit), Greedy(xs[..p + 1], cap, limit), xs[p]);
  }

  lemma PickedSnoc(xs: seq<Item>, marks: seq<bool>, p: nat)
    requires |marks| == |xs| && p < |xs|
    ensures Extends(Picked(xs[..p], marks[..p]), Picked(xs[..p + 1], marks[..p + 1]), xs[p])
  {
    assert xs[..p + 1][..p] == xs[..p] && marks[..p + 1][..p] == marks[..p];
    ExtendsIf(Picked(xs[..p], marks[..p]), Picked(xs[..p + 1], marks[..p + 1]), xs[p]);
  }

  lemma Difference(a: real, b: real, i: int, j: int, v: real)
    requires a == i as real * v && b == j as real * v
    ensures a - b == (i - j) as real * v
  {
  }

  /** Item p adds its value to the lead once for each item it adds to the surplus. */
  lemma LeadStep(xs: seq<Item>, marks: seq<bool>, cap: int, limit: nat, p: nat)
    requires |marks| == |xs| && p < |xs|
    ensures Lead(xs, marks, cap, limit, p + 1) - Lead(xs, marks, cap, limit, p)
         == (Surplus(xs, marks, cap, limit, p + 1) - Surplus(xs, marks, cap, limit, p)) as real * xs[p].value
  {
    hide Greedy, Picked, Value;
    GreedySnoc(xs, p, cap, limit);
    PickedSnoc(xs, marks, p);
    var g, h := Greedy(xs[..p], cap, limit), Greedy(xs[..p + 1], cap, limit);
    var o, q := Picked(xs[..p], marks[..p]), Picked(xs[..p + 1], marks[..p + 1]);
    Difference(Value(h) - Value(g), Value(q) - Value(o), |h| - |g|, |q| - |o|, xs[p].value);
  }

  /** The lead is at least the surplus times w. */
  ghost predicate Ahead(xs: seq<Item>, marks: seq<bool>, cap: int, limit: nat, p: nat, w: real)
    requires |marks| == |xs| && p <= |xs|
  {
    Lead(xs, marks, cap, limit, p) >= Surplus(xs, marks, cap, limit, p) as real * w
  }

  lemma AheadStep(xs: seq<Item>, marks: seq<bool>, cap: int, limit: nat, p: nat, w: real)
    requires Allowed(xs, marks, cap, limit) && p < |xs|
    requires Ahead(xs, marks, cap, limit, p, xs[p].value) && xs[p].value >= w
    ensures Ahead(xs, marks, cap, limit, p + 1, w)
  {
    hide Lead, Surplus;
    LeadStep(xs, marks, cap, limit, p);
    SurplusNonNegative(xs, marks, cap, limit, p + 1);
    LeadArithmetic(Lead(xs, marks, cap, limit, p + 1), Lead(xs, marks, cap, limit, p),
                   Surplus(xs, marks, cap, limit, p + 1), Surplus(xs, marks, cap, limit, p), xs[p].value, w);
  }

  /** Abel summation: the lead is at least the surplus times any lower bound of the values so far. */
  lemma {:induction false} LeadIsSurplus(xs: seq<Item>, marks: seq<bool>, cap: int, limit: nat, p: nat, w: real)
    requires SortedBy(xs, Descending) && Allowed(xs, marks, cap, limit) && p <= |xs|
    requires forall i :: 0 <= i < p ==> xs[i].value >= w
    ensures Ahead(xs, marks, cap, limit, p, w)
    decreases p
  {
    if p == 0 {
      NothingPicked(xs, marks, cap, limit);
    } else {
      hide Ahead, SortedBy;
      SortedPrefix(xs, p - 1);
      LeadIsSurplus(xs, marks, cap, limit, p - 1, xs[p - 1].value);
      AheadStep(xs, marks, cap, limit, p - 1, w);
    }
  }

  lemma NothingPicked(xs: seq<Item>, marks: seq<bool>, cap: int, limit: nat)
    requires |marks| == |xs|
    ensures Lead(xs, marks, cap, limit, 0) == 0.0 && Surplus(xs, marks, cap, limit, 0) == 0
  {
  }

  lemma SortedPrefix(xs: seq<Item>, p: nat)
    requires SortedBy(xs, Descending) && p < |xs|
    ensures forall i :: 0 <= i < p ==> xs[i].value >= xs[p].value
  {
    forall i | 0 <= i < p ensures xs[i].value >= xs[p].value {
      assert Descending(xs[i]) <= Descending(xs[p]);
    }
  }

  lemma SurplusNonNegative(xs: seq<Item>, marks: seq<bool>, cap: int, limit: nat, p: nat)
    requires Allowed(xs, marks, cap, limit) && p <= |xs|
    ensures Surplus(xs, marks, cap, limit, p) >= 0
  {
    GreedyIsLongest(xs, marks, cap, limit, p);
  }

  lemma LeadArithmetic(now: real, before: real, s: int, t: int, v: real, w: real)
    requires now - before == (s - t) as real * v && before >= t as real * v && s >= 0 && v >= w
    ensures now >= s as real * w
  {
    assert (s - t) as real * v == s as real * v - t as real * v;
    assert s as real * v >= s as real * w;
  }

  ghost predicate NoneNegative(xs: seq<Item>)
  {
    forall x :: x in xs ==> x.value >= 0.0
  }

  /** As long as the greedy choice has no negative value in it, no allowed selection is worth more. */
  lemma {:induction false} LeadNonNegative(xs: seq<Item>, marks: seq<bool>, cap: int, limit: nat, p: nat)
    requires SortedBy(xs, Descending) && Allowed(xs, marks, cap, limit) && p <= |xs|
    requires NoneNegative(Greedy(xs[..p], cap, limit))
    ensures Lead(xs, marks, cap, limit, p) >= 0.0
    decreases p
  {
    hide Greedy, Lead, SortedBy, NoneNegative;
    if p == 0 {
      NothingPicked(xs, marks, cap, limit);
    } else if xs[p - 1].value >= 0.0 {
      AheadOfZero(xs, marks, cap, limit, p);
    } else {
      GreedyKeepsOff(xs, p - 1, cap, limit);
      LeadNonNegative(xs, marks, cap, limit, p - 1);
      LeadDoesNotShrink(xs, marks, cap, limit, p - 1);
    }
  }

  lemma AheadOfZero(xs: seq<Item>, marks: seq<bool>, cap: int, limit: nat, p: nat)
    requires SortedBy(xs, Descending) && Allowed(xs, marks, cap, limit) && 0 < p <= |xs| && xs[p - 1].value >= 0.0
    ensures Lead(xs, marks, cap, limit, p) >= 0.0
  {
    hide Lead, Surplus;
    SortedPrefix(xs, p - 1);
    LeadIsSurplus(xs, marks, cap, limit, p, 0.0);
    assert Surplus(xs, marks, cap, limit, p) as real * 0.0 == 0.0;
  }

  /** A negative item is not taken by a greedy choice without negative items. */
  lemma GreedyKeepsOff(xs: seq<Item>, p: nat, cap: int, limit: nat)
    requires p < |xs| && xs[p].value < 0.0 && NoneNegative(Greedy(xs[..p + 1], cap, limit))
    ensures Greedy(xs[..p + 1], cap, limit) == Greedy(xs[..p], cap, limit)
  {
    var x := xs[p];
    assert x in Greedy(xs[..p], cap, limit) + [x];
    GreedySnoc(xs, p, cap, limit);
    hide Greedy;
  }

  lemma LeadDoesNotShrink(xs: seq<Item>, marks: seq<bool>, cap: int, limit: nat, p: nat)
    requires |marks| == |xs| && p < |xs| && xs[p].value < 0.0
    requires Greedy(xs[..p + 1], cap, limit) == Greedy(xs[..p], cap, limit)
    ensures Lead(xs, marks, cap, limit, p + 1) >= Lead(xs, marks, cap, limit, p)
  {
    hide Greedy, Picked, Value;
    PickedSnoc(xs, marks, p);
    NegativeStep(|Picked(xs[..p + 1], marks[..p + 1])| - |Picked(xs[..p], marks[..p])|, xs[p].value);
  }

  lemma NegativeStep(n: int, v: real)
    requires n >= 0 && v < 0.0
    ensures n as real * v <= 0.0
  {
  }

  // ----- the selection

  ghost function Selected(candidates: seq<Item>, quota: Option<int>, cap: int, n: int): seq<Item>
  {
    if n <= 0 then [] else Prefix(ApplyQuota(Diverse(SortBy(candidates, Descending), cap), quota), n)
  }

  /** Sorting best first, with equal values in the order they came, decides the selection: every such
      arrangement of the candidates gives the same one. */
  lemma ArrangementDecides(candidates: seq<Item>, ys: seq<Item>, quota: Option<int>, cap: int, n: int)
    requires SortedBy(ys, Descending) && SameByKey(ys, candidates, Descending)
    ensures ys == SortBy(candidates, Descending)
    ensures Selected(candidates, quota, cap, n) == if n <= 0 then [] else Prefix(ApplyQuota(Diverse(ys, cap), quota), n)
  {
    hide Diverse, SortBy, SortedBy;
    SortBySorted(candidates, Descending);
    forall k ensures WithKey(ys, Descending, k) == WithKey(SortBy(candidates, Descending), Descending, k) {
      SortByStable(candidates, Descending, k);
      assert WithKey(ys, Descending, k) == WithKey(candidates, Descending, k);
    }
    StableSortIsUnique(ys, SortBy(candidates, Descending), Descending);
  }

  ghost function SelectionLimit(candidates: seq<Item>, quota: Option<int>, cap: int, n: int): nat
  {
    Limit(|Diverse(SortBy(candidates, Descending), cap)|, quota, n)
  }

  lemma SelectedIsGreedy(candidates: seq<Item>, quota: Option<int>, cap: int, n: int)
    ensures Selected(candidates, quota, cap, n)
         == Greedy(SortBy(candidates, Descending), cap, SelectionLimit(candidates, quota, cap, n))
  {
    hide Diverse, SortBy;
    if n > 0 {
      SlicesLimit(Diverse(SortBy(candidates, Descending), cap), quota, n);
    }
  }

  /** Both slices together keep as many items as the limit says. */
  lemma SlicesLimit(kept: seq<Item>, quota: Option<int>, n: int)
    requires n > 0
    ensures var limit := Limit(|kept|, quota, n);
      Prefix(ApplyQuota(kept, quota), n) == if |kept| <= limit then kept else kept[..limit]
  {
  }

  lemma {:induction false} DiverseIsPicked(xs: seq<Item>, cap: int) returns (marks: seq<bool>)
    ensures |marks| == |xs| && Picked(xs, marks) == Diverse(xs, cap)
    ensures multiset(Diverse(xs, cap)) <= multiset(xs)
    decreases |xs|
  {
    if xs == [] {
      marks := [];
    } else {
      var k := |xs| - 1;
      var before := DiverseIsPicked(xs[..k], cap);
      var kept := Diverse(xs[..k], cap);
      marks := before + [TopicCount(kept, xs[k].topic) < cap];
      assert marks[..k] == before;
      assert xs == xs[..k] + [xs[k]];
      assert multiset(xs) == multiset(xs[..k]) + multiset{xs[k]};
    }
  }

  lemma {:induction false} PrefixCounts(xs: seq<Item>, n: nat, t: string)
    requires n <= |xs|
    ensures TopicCount(xs[..n], t) <= TopicCount(xs, t)
    decreases |xs|
  {
    if n < |xs| {
      PrefixCounts(xs[..|xs| - 1], n, t);
      assert xs[..|xs| - 1][..n] == xs[..n];
    } else {
      assert xs[..n] == xs;
    }
  }

  /** The selection itself respects the caps. */
  lemma SelectedIsFeasible(candidates: seq<Item>, quota: Option<int>, cap: int, n: int)
    ensures Feasible(Selected(candidates, quota, cap, n), candidates, cap, SelectionLimit(candidates, quota, cap, n))
  {
    hide Diverse, SortBy, SelectionLimit, Selected, TopicCount, Picked;
    var xs, limit := SortBy(candidates, Descending), SelectionLimit(candidates, quota, cap, n);
    SelectedIsGreedy(candidates, quota, cap, n);
    SortByKeeps(candidates, Descending);
    var marks := DiverseIsPicked(xs, cap);
    var kept := Diverse(xs, cap);
    var out := Greedy(xs, cap, limit);
    assert kept == out + kept[|out|..];
    assert multiset(out) <= multiset(kept);
    forall t ensures TopicCount(out, t) <= Room(cap) {
      DiverseCounts(xs, cap, t);
      PrefixCounts(kept, |out|, t);
      assert out == kept[..|out|];
    }
  }

  ghost predicate Best(out: seq<Item>, candidates: seq<Item>, cap: int, limit: nat)
  {
    forall other :: Feasible(other, candidates, cap, limit) ==> Value(other) <= Value(out)
  }

  /** The selection is worth at least as much as any other within the caps exactly when nothing of
      negative value was selected. */
  lemma BestIffNoneNegative(candidates: seq<Item>, quota: Option<int>, cap: int, n: int)
    ensures NoneNegative(Selected(candidates, quota, cap, n))
       <==> Best(Selected(candidates, quota, cap, n), candidates, cap, SelectionLimit(candidates, quota, cap, n))
  {
    hide Selected, SelectionLimit, Value, TopicCount;
    var out, limit := Selected(candidates, quota, cap, n), SelectionLimit(candidates, quota, cap, n);
    if NoneNegative(out) {
      hide Feasible;
      forall other | Feasible(other, candidates, cap, limit) ensures Value(other) <= Value(out) {
        NothingBetter(candidates, quota, cap, n, other);
      }
    } else {
      var i :| 0 <= i < |out| && out[i].value < 0.0;
      SelectedIsFeasible(candidates, quota, cap, n);
      DroppingHelps(out, candidates, cap, limit, i);
    }
  }

  lemma NothingBetter(candidates: seq<Item>, quota: Option<int>, cap: int, n: int, other: seq<Item>)
    requires NoneNegative(Selected(candidates, quota, cap, n))
    requires Feasible(other, candidates, cap, SelectionLimit(candidates, quota, cap, n))
    ensures Value(other) <= Value(Selected(candidates, quota, cap, n))
  {
    var xs, limit := SortBy(candidates, Descending), SelectionLimit(candidates, quota, cap, n);
    SelectedIsGreedy(candidates, quota, cap, n);
    SortByKeeps(candidates, Descending);
    SortBySorted(candidates, Descending);
    hide SortBy, SortedBy, Selected, SelectionLimit, Greedy;
    var marks := AllowedMarks(xs, other, cap, limit);
    assert xs[..|xs|] == xs && marks[..|xs|] == marks;
    LeadNonNegative(xs, marks, cap, limit, |xs|);
  }

  /** A feasible selection, as marks on the sorted list. */
  lemma AllowedMarks(xs: seq<Item>, other: seq<Item>, cap: int, limit: nat) returns (marks: seq<bool>)
    requires Feasible(other, xs, cap, limit)
    ensures Allowed(xs, marks, cap, limit) && Value(Picked(xs, marks)) == Value(other)
  {
    marks := MarksFor(xs, multiset(other));
    var picked := Picked(xs, marks);
    hide Sum, Picked, TopicCount;
    assert |picked| == |multiset(picked)| == |other|;
    forall t ensures TopicCount(picked, t) <= Room(cap) {
      TopicCountPermutes(picked, other, t);
    }
    SumPermutation(picked, other, ValueOf());
  }

  lemma DroppingHelps(out: seq<Item>, candidates: seq<Item>, cap: int, limit: nat, i: nat)
    requires Feasible(out, candidates, cap, limit) && i < |out| && out[i].value < 0.0
    ensures var rest := out[..i] + out[i + 1..]; Feasible(rest, candidates, cap, limit) && Value(rest) > Value(out)
  {
    var rest := out[..i] + out[i + 1..];
    assert out == out[..i] + [out[i]] + out[i + 1..];
    assert multiset(out) == multiset(rest + [out[i]]);
    SumPermutation(out, rest + [out[i]], ValueOf());
    SumSnoc(rest, out[i], ValueOf());
    forall t ensures TopicCount(rest, t) <= Room(cap) {
      TopicCountWithout(out, i, t);
    }
    assert multiset(rest) <= multiset(out);
  }

  // ----- when nothing of negative value is selected, in terms of the candidates

  function NonNegatives(xs: seq<Item>): seq<Item>
  {
    if xs == [] then
      []
    else
      NonNegatives(xs[..|xs| - 1]) + (if xs[|xs| - 1].value >= 0.0 then [xs[|xs| - 1]] else [])
  }

  lemma {:induction false} NonNegativesAre(xs: seq<Item>, x: Item)
    ensures multiset(NonNegatives(xs))[x] == if x.value >= 0.0 then multiset(xs)[x] else 0
    decreases |xs|
  {
    if xs != [] {
      var k := |xs| - 1;
      NonNegativesAre(xs[..k], x);
      assert xs == xs[..k] + [xs[k]];
      assert multiset(xs) == multiset(xs[..k]) + multiset{xs[k]};
    }
  }

  lemma {:induction false} AllNonNegative(xs: seq<Item>)
    requires NoneNegative(xs)
    ensures NonNegatives(xs) == xs
    decreases |xs|
  {
    if xs != [] {
      AllNonNegative(xs[..|xs| - 1]);
      assert xs == xs[..|xs| - 1] + [xs[|xs| - 1]];
    }
  }

  /** In the sorted list the non-negative values come first. */
  lemma {:induction false} NonNegativesFirst(xs: seq<Item>)
    requires SortedBy(xs, Descending)
    ensures var p := |NonNegatives(xs)|;
      p <= |xs| && NonNegatives(xs) == xs[..p] && forall i :: p <= i < |xs| ==> xs[i].value < 0.0
    decreases |xs|
  {
    if xs != [] {
      var k := |xs| - 1;
      if xs[k].value >= 0.0 {
        SortedPrefix(xs, k);
        AllNonNegative(xs);
      } else {
        NonNegativesFirst(xs[..k]);
      }
    }
  }

  /** Capping a list that goes on with negative values only adds negative items behind. */
  lemma {:induction false} DiverseGrows(xs: seq<Item>, p: nat, cap: int)
    requires p <= |xs| && forall i :: p <= i < |xs| ==> xs[i].value < 0.0
    ensures var before, after := Diverse(xs[..p], cap), Diverse(xs, cap);
      before <= after && forall j :: |before| <= j < |after| ==> after[j].value < 0.0
    decreases |xs|
  {
    if p == |xs| {
      assert xs[..p] == xs;
    } else {
      var k := |xs| - 1;
      DiverseGrows(xs[..k], p, cap);
      assert xs[..k][..p] == xs[..p];
      DiverseStep(xs, cap);
      hide Diverse;
    }
  }

  lemma DiverseStep(xs: seq<Item>, cap: int)
    requires xs != []
    ensures var k := |xs| - 1;
      Diverse(xs, cap) == Diverse(xs[..k], cap) || Diverse(xs, cap) == Diverse(xs[..k], cap) + [xs[k]]
  {
  }

  lemma {:induction false} DiverseNoneNegative(xs: seq<Item>, cap: int)
    requires NoneNegative(xs)
    ensures NoneNegative(Diverse(xs, cap))
    decreases |xs|
  {
    if xs != [] {
      DiverseNoneNegative(xs[..|xs| - 1], cap);
      DiverseStep(xs, cap);
      hide Diverse;
    }
  }

  lemma {:induction false} NonNegativesAreNone(xs: seq<Item>)
    ensures NoneNegative(NonNegatives(xs))
    decreases |xs|
  {
    if xs != [] {
      NonNegativesAreNone(xs[..|xs| - 1]);
    }
  }

  lemma DiversePermutes(xs: seq<Item>, ys: seq<Item>, cap: int)
    requires multiset(xs) == multiset(ys)
    ensures |Diverse(xs, cap)| == |Diverse(ys, cap)|
  {
    forall t ensures TopicCount(Diverse(xs, cap), t) == TopicCount(Diverse(ys, cap), t) {
      TopicCountPermutes(xs, ys, t);
      DiverseCounts(xs, cap, t);
      DiverseCounts(ys, cap, t);
    }
    hide Diverse, TopicCount;
    TopicsBoundLength(Diverse(xs, cap), Diverse(ys, cap));
    TopicsBoundLength(Diverse(ys, cap), Diverse(xs, cap));
  }

  /** The greedy choice has no negative item exactly when the non-negative ones fill it. */
  lemma GreedyNoneNegative(xs: seq<Item>, cap: int, limit: nat)
    requires SortedBy(xs, Descending)
    ensures NoneNegative(Greedy(xs, cap, limit)) <==> |Greedy(xs, cap, limit)| <= |Diverse(NonNegatives(xs), cap)|
  {
    NonNegativesFirst(xs);
    var p := |NonNegatives(xs)|;
    DiverseGrows(xs, p, cap);
    NonNegativesAreNone(xs);
    DiverseNoneNegative(NonNegatives(xs), cap);
    PrefixNoneNegative(Diverse(xs[..p], cap), Diverse(xs, cap), limit);
  }

  lemma PrefixNoneNegative(good: seq<Item>, kept: seq<Item>, limit: nat)
    requires good <= kept && NoneNegative(good) && forall j :: |good| <= j < |kept| ==> kept[j].value < 0.0
    ensures var out := if |kept| <= limit then kept else kept[..limit]; NoneNegative(out) <==> |out| <= |good|
  {
    var out := if |kept| <= limit then kept else kept[..limit];
    if |good| < |out| {
      assert out[|good|] in out;
    } else {
      assert out == good[..|out|];
    }
  }

  /** The candidates with a value of at least zero fill all the places that the caps leave. */
  predicate NonNegativesFill(candidates: seq<Item>, quota: Option<int>, cap: int, n: int)
  {
    var kept := |Diverse(candidates, cap)|;
    var limit := Limit(kept, quota, n);
    (if kept <= limit then kept else limit) <= |Diverse(NonNegatives(candidates), cap)|
  }

  /** The selection is worth at least as much as any other within the caps exactly when the candidates
      with a value of at least zero fill all the places that the caps leave. */
  lemma SelectedIsBest(candidates: seq<Item>, quota: Option<int>, cap: int, n: int)
    ensures NonNegativesFill(candidates, quota, cap, n)
       <==> Best(Selected(candidates, quota, cap, n), candidates, cap, SelectionLimit(candidates, quota, cap, n))
  {
    var xs, limit := SortBy(candidates, Descending), SelectionLimit(candidates, quota, cap, n);
    BestIffNoneNegative(candidates, quota, cap, n);
    SelectedIsGreedy(candidates, quota, cap, n);
    SortByKeeps(candidates, Descending);
    SortBySorted(candidates, Descending);
    GreedyNoneNegative(xs, cap, limit);
    DiversePermutes(xs, candidates, cap);
    NonNegativesPermute(xs, candidates);
    DiversePermutes(NonNegatives(xs), NonNegatives(candidates), cap);
    hide SortBy, SortedBy, Selected, Best, NonNegatives, NoneNegative, Diverse;
  }

  lemma NonNegativesPermute(xs: seq<Item>, ys: seq<Item>)
    requires multiset(xs) == multiset(ys)
    ensures multiset(NonNegatives(xs)) == multiset(NonNegatives(ys))
  {
    forall x: Item ensures multiset(NonNegatives(xs))[x] == multiset(NonNegatives(ys))[x] {
      NonNegativesAre(xs, x);
      NonNegativesAre(ys, x);
    }
  }

  /** When no sampled value is negative, the selection is the best there is. */
  lemma BestForNonNegative(candidates: seq<Item>, quota: Option<int>, cap: int, n: int)
    requires NoneNegative(candidates)
    ensures Best(Selected(candidates, quota, cap, n), candidates, cap, SelectionLimit(candidates, quota, cap, n))
  {
    AllNonNegative(candidates);
    SelectedIsBest(candidates, quota, cap, n);
  }

  /** A single candidate of negative value is selected, although selecting nothing would be better. */
  lemma NegativeIsSelected()
    ensures var candidates := [Item(0, "t", -1.0)];
      Selected(candidates, None, 1, 1) == candidates
        && !Best(candidates, candidates, 1, SelectionLimit(candidates, None, 1, 1))
  {
    var candidates := [Item(0, "t", -1.0)];
    assert candidates[..0] == [];
    assert SortBy(candidates, Descending) == candidates;
    assert Diverse(candidates, 1) == candidates;
    assert NonNegatives(candidates) == [];
    SelectedIsBest(candidates, None, 1, 1);
  }
}
