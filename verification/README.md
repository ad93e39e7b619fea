# A verified model of the trend engine's core

This Dafny project models the parts of the repository that carry an algorithm or a protocol, and proves what each of
them is for. Code that updates fields is a class with those fields, a loop is a loop with invariants, and every such
method is tied to a value-level function about which the laws are proved.

- **Graph engine** (`GraphState`, `GraphStore`, `PageRank`, `ShortestPath`, `Neighbours`, `Propagation`,
  `Snapshots`, `Differences`, `Texts`, `Versioning`). The store keeps two indexes whose entries are one object per
  edge until a rollback replaces them by separate copies; the model tracks which keys are shared, so the invariant
  says what strengthening does to each index in either case. PageRank's loops scatter rank along edges; they are
  proved to apply a matrix whose rows add up to the damping factor, which gives the conservation of rank, the lower
  bound and the geometric convergence. Snapshots hold edge objects of their own, and changes to the store are proved
  not to reach them. Dijkstra has no visited set, and the frontiers of breadth-first search and propagation are
  plain lists; each is proved against a definition over walks.
- **Near-duplicate index** (`Lsh`, `MinHash`, `Deduplicator`). The banded index against the scan it stands in for,
  with the exact condition on threshold, bands and permutations, and what whole runs of the detector, which looks at
  candidates only, can be relied on for.
- **Statistics and selection** (`MannWhitney`, `NullDistribution`, `Selector`, `Optimizer`). Rank sums against pair
  counts, the mean and variance of the statistic over all arrangements of two groups, the capped greedy against every
  other selection, and the floor that renormalising really leaves.
- **Resilience** (`TokenBuckets`, `Collector`, `PiiMasker`, `DbAdapter`). Rate bounds over any window, from above and
  from below, the breaker under every run of `collect` against what the trace of its fetches says, right-to-left
  splicing against one left-to-right pass, and the conservation of pooled connections and the commits whatever
  raises.

`Graphs`, `Options`, `Numbers`, `Sums`, `Sorting` and `Markov` hold what these share. Numbers are reals or integers
without rounding; clocks, random draws, hash values, regular-expression matches, `sqrt`, the normal distribution,
fetch results and what the database raises are inputs.

## Where the code differs from what is written about it

- `decision_engine/optimizer.py:46` promises every weight at least `w_min`. Renormalising after the clamp breaks
  this exactly when some weight had to be raised (`Optimizer.DocumentedFloor`), for instance for returns one and
  zero at the default minimum (`Optimizer.DocumentedFloorFails`). The best floor that does hold is `w_min / (1 + (n
  - 1) * w_min)` for a minimum up to one (`Optimizer.FloorIsExact`).
- `graph/versioning.py:127` promises to restore the snapshot's state. The values come back, but the two indexes then
  hold separate copies, so a later strengthening makes them disagree (`GraphState.AgreementBreaks`, over runs
  `GraphState.RunAgreement`); any stored edge that is added again with a greater weight does
  (`Snapshots.StrengtheningAfterRollback`).
- `graph/versioning.py:68` joins ids by `->`, so two different edges can get the same key, and `diff` then reports
  nothing when one replaces the other: an edge from `a` to `b->c` and one from `a->b` to `c`
  (`Differences.DiffConfuses`). For stores over given nodes this can happen exactly when four of them have the form
  `u`, `u->x`, `z`, `x->z` (`Differences.TellsIffUntangled`).
- `database/db_adapter.py:147-152` promises the connection back on exit. If the block's own checkout raises, the
  adapter stays in transaction mode and the next statement's connection stays out, uncommitted, until some block
  ends (`DbAdapter.FailedCheckoutLeaks`, over runs `DbAdapter.ConnectionsAreConserved`).
- `utils/rate_limiter.py:34` lets the key expire after an hour. This is harmless exactly when an hour refills the
  bucket (`TokenBuckets.LuaBoundIsExact`). A bucket that switches between Redis and the fallback is two buckets
  (`TokenBuckets.OneBudgetIsNotEnough`); `wait_time` is enough exactly when the bucket can hold one token.
- `processing/deduplicator.py:4-5` offers the banded index as candidate generation for a similarity threshold.
  Similar texts can be missed exactly when `(1 - threshold) * num_perm >= bands` and there are at most `num_perm`
  bands (`Lsh.BoundIsExact`); with such parameters, which the constructor accepts, a similar text can be accepted
  (`Deduplicator.IncompleteMisses`). The defaults are on the safe side.
- `processing/deduplicator.py:113` overwrites the signature of a key that is used again. Everything accepted stays
  stored exactly when no two accepted documents have the same key (`Deduplicator.StoredIffDistinct`); otherwise a
  copy of the first text can be accepted (`Deduplicator.ReusedKeyForgets`).
- `experiments/statistical_significance.py:77` says that ties are ignored. The ranks do average ties; only the
  variance ignores them: it is the exact one for groups without ties (`NullDistribution.NullVariance`).
- `decision_engine/selector.py:62-71` is an optimal choice exactly when the candidates with a value of at least zero
  fill all places that the caps leave (`Selector.SelectedIsBest`); it always is when no value is negative, and is
  not for a single candidate of negative value (`Selector.NegativeIsSelected`).
- `ingestion/base_collector.py:264` keeps the given dead-letter queue only if it holds something: an empty queue has
  length zero, counts as not given, and is replaced by a new one without a file
  (`Collector.BaseCollector.constructor`).

## Model

| member | source | states |
|---|---|---|
| GraphState.AddEdgeWeights | graph/graph_store.py:105-116 | an accepted edge changes the weight of its own key only, to the maximum; the incoming entry follows unless it is a separate copy |
| GraphState.AddEdgeKeeps | graph/graph_store.py:105-116 | endpoints stay nodes, keys stay unique in each index, both indexes hold the same keys, shared entries agree |
| GraphState.AddNodeKeeps | graph/graph_store.py:91-103 | the same invariant under the node upsert |
| GraphState.AddNodeWeights | graph/graph_store.py:91-103 | adding or upserting a node changes no edge weight in either index |
| GraphState.StrengthenAt | graph/graph_store.py:111-114 | strengthening replaces one entry by the maximum and leaves order and all others alone |
| GraphState.AgreementBreaks | graph/graph_store.py:110-116 | the two indexes stop agreeing if and only if an unshared existing edge is given a greater weight |
| GraphState.RunWeight | graph/graph_store.py:91-116 | after any run of add_node and add_edge an edge's weight is the greatest ever accepted for it |
| GraphState.MergedNext | graph/graph_store.py:94-103 | one upsert keeps the name and type of the first, takes the greatest weight and the first embedding, and changes no other node |
| GraphState.RunNode | graph/graph_store.py:91-116 | after any run a node is there exactly when it was there or was accepted, with the name and type it came with, the greatest weight ever accepted for its id and the first embedding that is not missing |
| GraphState.RunOutcome | graph/graph_store.py:91-109 | after any run, a type or relation that is not admitted is a ValueError, an edge with an end that was never accepted a KeyError, and neither changes anything |
| GraphState.RunGrows | graph/graph_store.py:91-116 | over any run the node order and every list of edges keep what they had in place, and what is new comes behind it |
| GraphState.RunFollows | graph/graph_store.py:91-116 | over a run the incoming entry of an edge with separate copies keeps its weight, all other edges keep or get agreeing entries |
| GraphState.RunAgreement | graph/graph_store.py:91-116 | over a whole run from agreeing indexes, they agree at the end if and only if no edge with separate copies received a greater weight |
| GraphState.BuiltGraphsAgree | graph/graph_store.py:86-116 | a store built from nothing by any run has agreeing indexes and shares every edge |
| GraphState.OrderDoesNotMatter | graph/graph_store.py:105-116 | any reordering of the same add_edge calls ends in the same weights |
| GraphStore.InMemoryGraphStore.constructor | graph/graph_store.py:86-89 | a new store is empty and valid |
| GraphStore.InMemoryGraphStore.AddNode | graph/graph_store.py:91-103 | the object-level upsert does what the value model does, about which `RunNode` says what becomes of a node |
| GraphStore.InMemoryGraphStore.StrengthenEntry | graph/graph_store.py:111-114 | raising one object's weight strengthens the outgoing index, and the incoming one exactly if it holds that object |
| GraphStore.InMemoryGraphStore.AppendEdge | graph/graph_store.py:115-116 | the same object enters both indexes and becomes shared |
| GraphStore.InMemoryGraphStore.AddEdge | graph/graph_store.py:105-116 | the scan, the in-place strengthening, the append and both errors do what the value model does, and no other edge object enters the store |
| GraphStore.InMemoryGraphStore.Found | graph/graph_store.py:111-116 | a key is filed in either index exactly when the contents have a weight for it |
| GraphStore.InMemoryGraphStore.ComputeCentrality | graph/graph_store.py:124-146 | on any valid store the result is the given number of PageRank steps from the uniform vector |
| PageRank.ClosedRows | graph/graph_store.py:131-143 | each node sends out exactly the damping share of its rank, because no edge ends outside the node set |
| PageRank.StepTotal | graph/graph_store.py:132-144 | an iteration turns total rank t into (1 - d) + d * t |
| PageRank.MassIsOne | graph/graph_store.py:130-144 | every iterate adds up to exactly one, dangling mass included |
| PageRank.RankFloor | graph/graph_store.py:133-144 | with non-negative weights no rank falls below (1 - d) / n |
| PageRank.StepContracts | graph/graph_store.py:132-144 | an iteration shrinks the L1 distance of any two rank vectors by at least the damping factor |
| PageRank.FixedPointIsSmall | graph/graph_store.py:132-144 | any fixed point has L1 norm at most one, so none needs to be assumed a distribution |
| PageRank.Convergence | graph/graph_store.py:124-144 | k iterations end within 2 * d^k of any fixed point |
| PageRank.IteratesApproach | graph/graph_store.py:124-144 | k iterations and k + m iterations are within 2 * d^k of each other, whether or not a fixed point is known |
| PageRank.FixedPointIsUnique | graph/graph_store.py:132-144 | there is at most one fixed point |
| PageRank.LoopsApplyFlow | graph/graph_store.py:133-143 | spreading dangling rank evenly and scattering along edges applies the PageRank matrix |
| PageRank.TotalDangling | graph/graph_store.py:134 | the dangling sum is that of the ranks of nodes without out-weight |
| PageRank.ScatterEdges | graph/graph_store.py:142-143 | the inner loop adds to each node what the edges ending there deliver |
| PageRank.DeliveredIsScatter | graph/graph_store.py:138-143 | what one node's inner loop delivers is its summand in the gather form |
| PageRank.ScatterNodes | graph/graph_store.py:137-143 | the outer loop adds the sum of all nodes' summands |
| PageRank.OneIteration | graph/graph_store.py:132-144 | one pass of the loop body is one step of the operator |
| PageRank.Compute | graph/graph_store.py:124-146 | the whole computation is the iterated operator; the empty graph gives the empty dictionary; a negative count means none |
| PageRank.Normalise | graph/graph_store.py:145-146 | the final division changes nothing, since the total is one |
| ShortestPath.WalkIsCovered | graph/query.py:63-75 | every positive walk from src ends at a settled node no later than it, or costs at least as much as some heap entry |
| ShortestPath.PopKeeps | graph/query.py:66-69 | popping a least entry keeps the separation of settled nodes and heap, stale entries included |
| ShortestPath.PushKeeps | graph/query.py:69-74 | an edge that improves its target leaves an unsettled node, and the push keeps the invariant |
| ShortestPath.RelaxEdges | graph/query.py:69-74 | relaxing settles the popped node and pushes nothing when it was settled before |
| ShortestPath.LeastIsCheapest | graph/query.py:66-68 | when dst is popped its path is that of a walk no positive walk undercuts |
| ShortestPath.HeapIsEmpty | graph/query.py:65-75 | an empty heap means that no positive walk reaches dst |
| ShortestPath.Find | graph/query.py:56-75 | a cheapest path under the sum of 1/weight, [] exactly when none exists, KeyError exactly for unknown ends, pops at most pushes at most 1 + positive edges |
| ShortestPath.Length | graph/query.py:70 | the step over an edge times its weight is one |
| ShortestPath.StopsFollowEdges | graph/query.py:72-74 | the returned stops start at src, end at dst, and each edge of the walk leads from one to the next |
| ShortestPath.StrongerIsCheaper | graph/query.py:57-70 | making edges stronger never makes a walk dearer |
| ShortestPath.DetourPays | graph/query.py:57-70 | two edges of weights x and y are cheaper than a direct one of weight d if and only if d * (x + y) < x * y |
| Neighbours.TrailIsFound | graph/query.py:37-53 | every admissible trail within max_hops has its end listed no later than its length |
| Neighbours.EmptyQueueIsCorrect | graph/query.py:37-54 | an empty queue means a sound and complete list with shortest distances |
| Neighbours.EdgeKeeps | graph/query.py:41-53 | one edge, with its two separate membership tests, keeps the search invariant |
| Neighbours.ExpandNode | graph/query.py:41-53 | the edge loop finishes a node and keeps the termination measure |
| Neighbours.Get | graph/query.py:28-54 | exactly the nodes reached by 1..max_hops edges of the relation, each once with its true distance and over the edge the queue order meets first; the source when it lies on a cycle; KeyError exactly when unknown |
| Propagation.WalksAreAll | graph/propagation.py:31-37 | the reference list holds exactly the walks of 1..k edges |
| Propagation.WalksAreDistinct | graph/propagation.py:31-37 | and each of them once |
| Propagation.SpreadIsWalkSum | graph/propagation.py:31-37 | pushing influence edge by edge sums over all walks the product of weight and decay |
| Propagation.TakeEdge | graph/propagation.py:47-52 | one edge moves its share from the item to a score and a new item, or drops it when not positive |
| Propagation.PopItem | graph/propagation.py:43-46 | an item taken from the front was worth what its edges will bring |
| Propagation.ExpandItem | graph/propagation.py:47-52 | the edge loop conserves score plus outstanding worth and bounds the remaining work on cyclic graphs |
| Propagation.Propagate | graph/propagation.py:31-54 | every other node gets exactly its walk sum, nodes without influence and the source are absent, KeyError exactly for an unknown source |
| Snapshots.RegroupedBySource | graph/versioning.py:131-136 | flattening and regrouping by source gives back every node's own edge list in order |
| Snapshots.FlattenUnique | graph/versioning.py:36-40 | the flattened edges of a valid store have unique keys, all between its nodes |
| Snapshots.FlattenInOrder | graph/versioning.py:39 | the flattened edges stand in the order of the nodes, each node's own in its order |
| Snapshots.ToNodeInOrder | graph/versioning.py:134-136 | a rebuilt incoming list has its edges in the order of the snapshot |
| Snapshots.RollbackRestores | graph/versioning.py:131-136 | nodes, node order and per-node edge order come back, nothing is shared, and the store is valid |
| Snapshots.RegroupAgrees | graph/versioning.py:132-136 | right after a rollback both indexes agree |
| Snapshots.StrengtheningAfterRollback | graph/versioning.py:131-136 | adding any stored edge again with a greater weight after a rollback makes the indexes disagree |
| Differences.EdgeKeyInjective | graph/versioning.py:66-68 | the textual key determines the edge among edges whose source ids contain no arrow |
| Differences.RelationRoundTrip | graph/graph_store.py:21-29 | relations and their texts stand for each other, and exactly the listed texts are admitted |
| Differences.ArrowClashes | graph/versioning.py:66-68 | any arrow in a source id lets the same key be read as another edge |
| Differences.AmbiguousIffArrow | graph/versioning.py:66-68 | an edge's key is also that of an edge with an arrow-free source id if and only if its own source id contains an arrow |
| Differences.DiffApplies | graph/versioning.py:139-151 | applying the difference of a and b to a's ids and keys gives b's |
| Differences.DiffComposes | graph/versioning.py:139-151 | the differences a to b and b to c determine the one of a to c, all four sets |
| Differences.DiffListsApply | graph/versioning.py:139-151 | so do the sorted lists that diff returns, and the two snapshots determine them |
| Differences.NoDifference | graph/versioning.py:139-151 | without arrows in source ids, diff reports no edge if and only if the edges are the same |
| Differences.TwoSplits | graph/versioning.py:66-68 | when one text reads as two pairs of ends, the parts between the two arrows are the same |
| Differences.ClashTangles | graph/versioning.py:66-68 | equal keys of different edges make their ends u, u->x, z and x->z |
| Differences.TangledConfuses | graph/versioning.py:139-151 | over such nodes, snapshots of two stores with the same nodes and different edges between which diff reports nothing |
| Differences.TellsIffUntangled | graph/versioning.py:139-151 | over all stores with given nodes, an empty edge report means equal edges if and only if there are no four such nodes |
| Differences.DiffConfuses | graph/versioning.py:139-151 | four concrete nodes and two such snapshots |
| Texts.Sort | graph/versioning.py:147-150 | the elements in lexicographic order, each once |
| Texts.LessIsLexicographic | graph/versioning.py:147-150 | that order is decided at the first position in which two strings differ |
| Texts.SortedListIsUnique | graph/versioning.py:147-150 | a set has only one such list |
| Differences.DeltaIsDiff | graph/versioning.py:77-85 | the stored delta is what diff reports as added since the parent |
| Differences.DeltasInOrder | graph/versioning.py:79-85 | the stored deltas list what is new in the order of the snapshot |
| Versioning.CopyEdges | graph/versioning.py:132-136 | the copying loop fills the indexes by source and by target with new objects, and no object of one is in the other |
| Versioning.DeepCopy | graph/versioning.py:36-40 | new edge objects with the same values |
| Versioning.RetainedAppend | graph/versioning.py:58-102 | a bounded deque holds the last keep_versions of all that was appended |
| Versioning.ConsistentAppend | graph/versioning.py:70-102 | every creation keeps: ids are distinct, and what each snapshot said at its creation is what the store held then |
| Versioning.ChainedAppend | graph/versioning.py:70-102 | over the whole history each snapshot names the one created just before it as its parent, and its deltas are what diff reports as added since then; the first has no parent and empty deltas |
| Versioning.CaptureIsLinked | graph/versioning.py:73-98 | a snapshot taken on a parent names it and has the deltas against it, without one it has neither |
| Versioning.GraphVersioning.Origin | graph/versioning.py:120-124 | every retained snapshot, read through its edge objects now, is one of the newest keep_versions and still says what the store held at its creation |
| Versioning.GraphVersioning.constructor | graph/versioning.py:58-61 | an empty history; zero or no argument takes the configured number |
| Versioning.GraphVersioning.Take | graph/versioning.py:36-40 | the snapshot says what the store holds and has edge objects that are all new |
| Versioning.GraphVersioning.CreateSnapshot | graph/versioning.py:70-102 | the history grows by the captured store under a new id with the snapshot created last as its parent, the oldest retained snapshot may go, and no snapshot shares an edge object with the store |
| Versioning.GraphVersioning.LatestIsNewest | graph/versioning.py:63-64 | the latest retained snapshot is the one created last, if any is retained at all |
| Versioning.GraphVersioning.AvailableIffRetained | graph/versioning.py:60 | an id can be found exactly when it is that of one of the newest keep_versions snapshots |
| Versioning.AddEdgeBeside | graph/graph_store.py:105-116 | strengthening an edge in place or appending one leaves every retained snapshot saying what it said |
| Versioning.AddNodeBeside | graph/graph_store.py:91-103 | adding or upserting a node leaves the edge objects of every retained snapshot alone |
| Versioning.GraphVersioning.Get | graph/versioning.py:120-124 | found exactly when it is one of the newest keep_versions snapshots |
| Versioning.GraphVersioning.Difference | graph/versioning.py:139-151 | the sorted differences of two retained snapshots, an error exactly when one is no longer among the newest keep_versions |
| Versioning.GraphVersioning.Rollback | graph/versioning.py:126-137 | after any mutation the store is again what it was at creation time, in new objects apart from all snapshots; refused exactly for an id that is not among the newest keep_versions, which changes nothing |
| Lsh.DiffZero | processing/deduplicator.py:142-143 | the Hamming distance is zero exactly for equal values |
| Lsh.SimilarityRange | processing/deduplicator.py:67-72 | between zero and one; one exactly for equal signatures, zero exactly when the lengths differ or no position agrees |
| Lsh.Pigeonhole | processing/deduplicator.py:106-110 | b differing bands need b differing positions |
| Lsh.FewDifferences | processing/deduplicator.py:102-121 | fewer differences than bands leave a whole band equal |
| Lsh.AgreementIsFound | processing/deduplicator.py:112-121 | a stored signature that agrees on a band is a candidate, whatever collisions the hash has |
| Lsh.SimilarDiffers | processing/deduplicator.py:67-72 | similarity at the threshold bounds the differences below the number of bands |
| Lsh.IndexEqualsScan | processing/deduplicator.py:102-121 | looking at candidates only gives the answer of a scan of all stored signatures |
| Lsh.BoundIsExact | processing/deduplicator.py:97-121 | no similar pair can be missed if and only if (1 - threshold) * num_perm < bands or there are more bands than entries |
| MinHash.MinOver | processing/deduplicator.py:63-64 | the minimum over the images of the hashed shingles |
| MinHash.Signature | processing/deduplicator.py:58-65 | one entry per coefficient pair, the least image, or the prime for an empty set |
| MinHash.Bezout | processing/deduplicator.py:46-47 | coprime numbers combine to one, which is what inverting the multiplier needs |
| MinHash.InjectiveIffCoprime | processing/deduplicator.py:43-47 | a permutation is injective on the residues if and only if its multiplier is coprime to the modulus |
| MinHash.PairwiseIndependent | processing/deduplicator.py:44-64 | universal hashing: modulo a prime, exactly one pair of coefficients sends two different values to two given images |
| MinHash.EntryOfUnion | processing/deduplicator.py:58-65 | the signature of a union is the pointwise minimum |
| MinHash.EntriesAgree | processing/deduplicator.py:58-72 | two signatures agree at a position exactly when the least hash value of the union lies in both sets |
| Deduplicator.LSHIndex.Add | processing/deduplicator.py:112-115 | the signature is stored and the buckets are those that filing every band gives |
| Deduplicator.FileBandsFiles | processing/deduplicator.py:106-115 | which is: the key is in the bucket of every band, and nothing else changes |
| Deduplicator.LSHIndex.Candidates | processing/deduplicator.py:117-121 | exactly the keys sharing a bucket with some band, all of them stored |
| Deduplicator.AddKeeps | processing/deduplicator.py:112-115 | the index stays complete when a key is added, also again |
| Deduplicator.DuplicateIsScan | processing/deduplicator.py:168-184 | looking at candidates never reports what a scan of everything would not, and reports the same when the index is complete |
| Deduplicator.RunIsSearchable | processing/deduplicator.py:168-190 | over every run each stored signature stays filed in all its bands |
| Deduplicator.AcceptedStaysKnown | processing/deduplicator.py:168-190 | for all parameters, a text once accepted is a duplicate ever after, even if its key is reused |
| Deduplicator.ReportedForAReason | processing/deduplicator.py:168-190 | after any run a text reported as a duplicate has the content hash of an accepted document, or its signature or SimHash is close to that of one |
| Deduplicator.AcceptedIsStored | processing/deduplicator.py:187-189 | when no two accepted documents have the same key, the signature and SimHash of each stay stored |
| Deduplicator.StoredIffDistinct | processing/deduplicator.py:168-190 | all accepted SimHashes stay stored if and only if no two accepted documents have the same key; so do the signatures for a threshold up to one |
| Deduplicator.SimHashesAreApart | processing/deduplicator.py:168-190 | for all parameters, when no key is reused before the last accepted document, any two accepted documents are above the maximum SimHash distance |
| Deduplicator.SignaturesAreApart | processing/deduplicator.py:168-190 | with a complete index their signatures are also below the threshold |
| Deduplicator.ApartIffComplete | processing/deduplicator.py:152-190 | over all hash functions and all runs in which no key is reused before the last accepted document, signatures stay below the threshold if and only if the index is complete or every SimHash counts as close |
| Deduplicator.IncompleteMisses | processing/deduplicator.py:152-190 | with an incomplete index, two documents with different keys and similar signatures that are both accepted |
| Deduplicator.ReusedKeyForgets | processing/deduplicator.py:168-190 | a reused key makes the detector accept a copy of what the key stood for |
| Deduplicator.NearDuplicateDetector.constructor | processing/deduplicator.py:152-166 | a detector that has seen nothing |
| Deduplicator.NearDuplicateDetector.CandidateIsNear | processing/deduplicator.py:176-179 | true exactly when some candidate's stored signature reaches the threshold |
| Deduplicator.NearDuplicateDetector.CloseSimHash | processing/deduplicator.py:181-184 | true exactly when some remembered SimHash is within the maximum distance |
| Deduplicator.NearDuplicateDetector.IsDuplicate | processing/deduplicator.py:168-190 | exactly what content hash, candidates and SimHashes say; what is remembered is the run over all that was offered, and a duplicate changes nothing |
| Deduplicator.VotesCount | processing/deduplicator.py:129-134 | a bit's votes are twice the features that set it minus all features |
| Deduplicator.SimHash | processing/deduplicator.py:127-139 | a bit is set exactly when more than half of the feature hashes set it |
| MannWhitney.PairsAddUp | experiments/statistical_significance.py:93-94 | the two groups' pair counts add up to n1 * n2 |
| MannWhitney.PooledWins | experiments/statistical_significance.py:79-92 | what a value beats in the pool is what it beats in the two groups |
| MannWhitney.TieRank | experiments/statistical_significance.py:84-91 | a tie group's average rank is the pair-count rank of its value |
| MannWhitney.FillRanks | experiments/statistical_significance.py:82-91 | the nested loops give every position of the sorted sample its tie-averaged rank |
| MannWhitney.SumTreated | experiments/statistical_significance.py:92 | r1 is the rank sum of the treatment group |
| MannWhitney.RankSum | experiments/statistical_significance.py:92-93 | the rank sum exceeds n1 * (n1 + 1) / 2 by the number of won pairs, ties counting one half, for any ties |
| MannWhitney.Test | experiments/statistical_significance.py:74-101 | the returned statistic is the smaller of the two pair counts |
| MannWhitney.StatisticBounds | experiments/statistical_significance.py:94-100 | swapping the groups changes nothing, and 0 <= u <= n1 * n2 / 2, so z is never positive |
| MannWhitney.ClampIsIdle | experiments/statistical_significance.py:99-101 | with a distribution function at most one half on the left the p-value clamp never acts |
| MannWhitney.PValueRange | experiments/statistical_significance.py:95-101 | a p-value is between zero and one, and one when a group is empty |
| MannWhitney.PValueIsBothTails | experiments/statistical_significance.py:95-101 | for a symmetric distribution the p-value is the probability of a deviation at least as great to either side |
| NullDistribution.ArrangementsAreAll | experiments/statistical_significance.py:95-96 | the reference list holds exactly the arrangements of the two groups |
| NullDistribution.ArrangementsAreDistinct | experiments/statistical_significance.py:95-96 | and each of them once |
| NullDistribution.NullVariance | experiments/statistical_significance.py:95-96 | over all arrangements without ties the pair count has the mean n1 * n2 / 2 and the variance n1 * n2 * (n1 + n2 + 1) / 12 |
| Selector.EnforceDiversity | decision_engine/selector.py:73-85 | the counting loop keeps an item exactly while its topic has room |
| Selector.DiverseCounts | decision_engine/selector.py:73-85 | each topic keeps the lesser of its count and the cap |
| Selector.Select | decision_engine/selector.py:62-71 | sort, cap, quota and slice, with Python's meaning of a negative slice |
| Selector.SliceKeepsOrDrops | decision_engine/selector.py:71-92 | a slice up to n keeps the first n items, up to -n it drops the last n, as in Python |
| Sorting.SortByStable | decision_engine/selector.py:68 | sorting keeps the order of elements with equal keys |
| Sorting.StableSortIsUnique | decision_engine/selector.py:68 | only one sorted list does |
| Selector.ArrangementDecides | decision_engine/selector.py:68-71 | any arrangement of the candidates that is best first and keeps ties in order gives the same selection |
| Selector.SelectedIsFeasible | decision_engine/selector.py:62-92 | the selection is part of the candidates and respects topic cap, quota and n |
| Selector.GreedyIsLongest | decision_engine/selector.py:69-71 | on every prefix of the sorted candidates no allowed selection has more items |
| Selector.LeadIsSurplus | decision_engine/selector.py:68-71 | the greedy's lead over any allowed selection is at least its surplus times the least value so far |
| Selector.BestIffNoneNegative | decision_engine/selector.py:62-92 | the selection is of greatest total value among all within the caps if and only if it contains nothing negative |
| Selector.SelectedIsBest | decision_engine/selector.py:62-92 | which is the case if and only if the candidates with a value of at least zero fill all the places that topic cap, quota and n leave |
| Selector.BestForNonNegative | decision_engine/selector.py:62-92 | when no sampled value is negative the selection is the best there is |
| Selector.NegativeIsSelected | decision_engine/selector.py:62-92 | a single candidate of negative value is selected and the selection is not the best |
| Selector.DroppingHelps | decision_engine/selector.py:62-92 | a negative item that was selected could be dropped for a greater value |
| Optimizer.Normalised | decision_engine/optimizer.py:90-91 | dividing positive weights by their total makes them an allocation in the same order |
| Optimizer.ClampedTotal | decision_engine/optimizer.py:94-95 | clamping adds at most w_min per weight, and one weight less than that |
| Optimizer.ClampedRaises | decision_engine/optimizer.py:94-95 | clamping leaves the total alone exactly when no weight is below the minimum |
| Optimizer.FloorBound | decision_engine/optimizer.py:93-96 | for 0 < w_min <= 1 the result adds up to one, keeps the order, and no weight falls below w_min / (1 + (n - 1) * w_min) |
| Optimizer.FloorHolds | decision_engine/optimizer.py:93-96 | for any positive w_min the same bound holds with w_min cut off at one |
| Optimizer.FloorIsExact | decision_engine/optimizer.py:93-96 | a constant is a floor for all allocations of n weights if and only if it is not above that bound |
| Optimizer.DocumentedFloor | decision_engine/optimizer.py:93-96 | every weight is at least w_min if and only if none had to be raised |
| Optimizer.DocumentedFloorFails | decision_engine/optimizer.py:40-58 | for returns one and zero with unit variances and w_min 0.01 some weight ends below w_min |
| Optimizer.DominantGetsMore | decision_engine/optimizer.py:82-96 | a candidate with at least the return of another and no more variance gets at least its weight |
| Optimizer.TiltEarns | decision_engine/optimizer.py:87-89 | above 1e-9 a tilt is the positive part of the return per unit of variance; a variance that is not positive counts as 1e-6 |
| Optimizer.RatioDecides | decision_engine/optimizer.py:82-91 | normalised weights are in the order of the ratios of positive return to variance, both ways |
| Optimizer.Fallback | decision_engine/optimizer.py:82-91 | an allocation ordered by positive return over variance, non-positive variances replaced |
| Optimizer.ApplyMinAndRenormalize | decision_engine/optimizer.py:93-96 | on any weights: clamped, divided by the total, left as they are if that is zero; an allocation becomes one again, in the order of the input |
| Optimizer.Optimize | decision_engine/optimizer.py:40-58 | errors exactly on misaligned inputs; otherwise exactly the normalised, clamped and renormalised tilts, in their order and above the true floor; all reach w_min if and only if the normalised tilts do; one candidate gets everything |
| TokenBuckets.InMemoryTokenBucket.Acquire | utils/rate_limiter.py:54-63 | refill up to capacity, then grant and take or refuse and leave |
| TokenBuckets.InMemoryTokenBucket.WaitTime | utils/rate_limiter.py:65-70 | the time in which the missing part of one token is earned, for any rate; a rate of zero fails exactly when a part is missing |
| TokenBuckets.TokenBucket.constructor | ingestion/base_collector.py:132-139 | a full bucket that refills its capacity once per window |
| TokenBuckets.TokenBucket.Create | ingestion/base_collector.py:132-139 | refused exactly when the capacity is not positive |
| TokenBuckets.TokenBucket.Consume | ingestion/base_collector.py:141-153 | the same transition as the in-process bucket |
| TokenBuckets.OneEvent | utils/rate_limiter.py:54-63 | what a call hands out and leaves is together what was there and was earned, cut off at the capacity |
| TokenBuckets.LevelNonNegative | utils/rate_limiter.py:54-63 | the level never falls below zero, whatever is asked for |
| TokenBuckets.LevelWithinCapacity | utils/rate_limiter.py:54-63 | nor rises above the capacity for requests that are not negative |
| TokenBuckets.WindowBound | utils/rate_limiter.py:54-63 | over any stretch of events at most capacity + rate * time is handed out, from any earlier state |
| TokenBuckets.NothingIsLost | utils/rate_limiter.py:54-63 | over any run, what was handed out and what is left is at least what was held and earned, or the capacity if that is less |
| TokenBuckets.RefusedOnlyWhenSpent | utils/rate_limiter.py:54-63 | after any run a request is refused only if granting it would hand out more than that |
| TokenBuckets.WaitSuffices | utils/rate_limiter.py:54-70 | after waiting wait_time a request for one token succeeds if and only if the capacity is at least one |
| TokenBuckets.WaitIsExact | utils/rate_limiter.py:54-70 | and not before: between refill and wait_time the request fails |
| TokenBuckets.OneTokenSuffices | utils/rate_limiter.py:119-121 | the distributed estimate is never too short under the same condition |
| TokenBuckets.LuaIsBucket | utils/rate_limiter.py:12-41 | while an hour refills the bucket, the script with key expiry is the plain bucket |
| TokenBuckets.LuaOneEvent | utils/rate_limiter.py:12-41 | on any clock, what the script hands out and leaves is what it found: the plain bucket's refill while the key lives, a full bucket without a key, and the tokens as they were when the clock has gone back |
| TokenBuckets.LuaRunIsRun | utils/rate_limiter.py:12-41 | and so over whole runs, also starting without a key |
| TokenBuckets.LuaBoundIsExact | utils/rate_limiter.py:12-41 | the script keeps the rate bound over every run if and only if capacity <= 3600 * rate |
| TokenBuckets.ExpiryForgets | utils/rate_limiter.py:34-38 | otherwise two full buckets are handed out around one expiry |
| TokenBuckets.DistributedTokenBucket.Acquire | utils/rate_limiter.py:105-117 | Redis decides when it answers; when it is absent or raises, before or after the script, the fallback decides |
| TokenBuckets.CallTakes | utils/rate_limiter.py:105-117 | for any capacity and rate, one call hands out no more than it takes from the two buckets together |
| TokenBuckets.CallsSplit | utils/rate_limiter.py:105-117 | after any run each bucket is what the events that reached it make of it; one whose answer got lost is charged to both |
| TokenBuckets.DistributedBound | utils/rate_limiter.py:105-117 | for any capacity and rate and however calls switch, at most the budgets of the fallback and of the script are handed out, the script refilling at its rate or a full bucket per hour, whichever is more |
| TokenBuckets.TwoBudgetsAreExact | utils/rate_limiter.py:105-117 | every run stays within twice one bucket's budget if and only if capacity <= 3600 * rate |
| TokenBuckets.ThreeBuckets | utils/rate_limiter.py:105-117 | otherwise a run around one expiry that exceeds it |
| TokenBuckets.OneBudgetIsNotEnough | utils/rate_limiter.py:105-117 | one call answered by Redis and one not, at the same instant, hand out two full buckets |
| TokenBuckets.OneBucketOneBudget | utils/rate_limiter.py:105-117 | one budget is enough while all calls are decided by the fallback, or all by a script whose key lives long enough |
| Collector.CountingIsKept | ingestion/base_collector.py:96-119 | the circuit is closed exactly while failures are below the threshold, for every operation, provided the threshold is positive |
| Collector.ProbeFailureReopens | ingestion/base_collector.py:96-119 | one failure in HALF_OPEN opens the circuit at once |
| Collector.CircuitBreaker.Allow | ingestion/base_collector.py:96-107 | a call may proceed unless the circuit is open for less than the timeout |
| Collector.CircuitBreaker.RecordFailure | ingestion/base_collector.py:114-119 | counts in every state, and opens at the threshold with the current time; over runs this is `RunIsExplained` |
| Collector.RetryFetches | ingestion/base_collector.py:293-310 | at most max_retries fetches, all but the last raised, and the loop's outcome is that of the last |
| Collector.RetryGoesTo | ingestion/base_collector.py:292-310 | the loop ends exactly at the first success, at max_retries, or at the failure that has the failures in a row at the threshold with the timeout not over at the check |
| Collector.RetryIsRespected | ingestion/base_collector.py:288-310 | within one collect no fetch starts between an opening and the timeout after it |
| Collector.NoFetchWhileOpen | ingestion/base_collector.py:278-317 | nor in any run of one collect after another |
| Collector.CollectFollowsFetches | ingestion/base_collector.py:278-317 | a refused collect fetches nothing, any other makes exactly the fetches the loop goes to and ends with what the last one did: its items, or a dead letter with its error |
| Collector.RunCounts | ingestion/base_collector.py:278-317 | after any run of collects the circuit is closed exactly while failures are below the threshold |
| Collector.RunIsExplained | ingestion/base_collector.py:96-119 | after any run the breaker's count is the number of failed fetches since the last success, it is closed exactly while that is below the threshold and remembers the last failure; an opening is noted exactly behind each failure that leaves the count at the threshold or above |
| Collector.OpenIffTripped | ingestion/base_collector.py:96-107 | the circuit refuses at a given time exactly when enough fetches in a row have failed and the last failure is less than the timeout ago |
| Collector.RefusedIffTripped | ingestion/base_collector.py:278-290 | so a collect with quota left is refused after any run of collects exactly when its trace says so |
| Collector.QuotaIsBucket | ingestion/base_collector.py:284-286 | over any run the quota is a token bucket asked for one token per collect |
| Collector.QuotaIsExact | ingestion/base_collector.py:284-286 | no more collects pass than the quota and its refill, and one is refused for its quota only if it would be one too many |
| Collector.DeadLetterQueue.Push | ingestion/base_collector.py:173-185 | one record with its time at the end, and one more in the file if there is one |
| Collector.DeadLetterQueue.Drain | ingestion/base_collector.py:190-193 | all records, and the queue is empty |
| Collector.BaseCollector.constructor | ingestion/base_collector.py:249-264 | a fresh breaker, a full bucket and no calls; the given queue if it holds something, else a new one without a file |
| Collector.BaseCollector.FetchWithRetries | ingestion/base_collector.py:292-310 | the loop's own fetches and openings, breaker, items and last error are those of the value model |
| Collector.BaseCollector.Collect | ingestion/base_collector.py:278-317 | exactly one of quota refusal, circuit refusal, the items of the last fetch, or nothing and one dead letter; the fetches made so far are those of the run of all calls |
| Collector.BaseCollector.NeverFetchedWhileOpen | ingestion/base_collector.py:278-317 | when its calls came one after another, the loops of a collector never started a fetch less than the timeout after an opening |
| Collector.BaseCollector.TraceExplainsBreaker | ingestion/base_collector.py:278-317 | a collector's breaker is at all times what the trace of its own fetches says |
| PiiMasker.Detect | compliance/pii_masker.py:38-56 | the claiming loops, then a stable sort by start |
| PiiMasker.DetectOnly | compliance/pii_masker.py:38-56 | the ordered detections, each with the text it stands for; none for the empty text |
| PiiMasker.OriginalsRestore | compliance/pii_masker.py:54 | putting the kept texts where the tokens are gives the original text back |
| PiiMasker.ClaimedIffFree | compliance/pii_masker.py:45-54 | a match is claimed if and only if no span of an earlier pattern overlaps it |
| PiiMasker.ClaimKeeps | compliance/pii_masker.py:48-54 | the claimed spans are pairwise disjoint and inside the text |
| PiiMasker.EveryMatchIsCovered | compliance/pii_masker.py:48-54 | every match of every pattern is claimed or overlaps a claimed span |
| PiiMasker.DetectionsAreMaximal | compliance/pii_masker.py:38-56 | the sorted detections are ordered, disjoint and maximal |
| PiiMasker.SpliceFirst | compliance/pii_masker.py:63-65 | replacing a span in front leaves what was spliced behind it in place |
| PiiMasker.TokenTells | compliance/pii_masker.py:26-32 | a token says what it hides, up to the two sorts of telephone numbers |
| PiiMasker.Mask | compliance/pii_masker.py:61-66 | replacing from the end gives the single left-to-right pass of gaps and tokens |
| PiiMasker.DetectAndMask | compliance/pii_masker.py:58-66 | mask on any text, the empty one included |
| DbAdapter.ExecuteOutside | database/db_adapter.py:119-143 | outside a block a statement returns its connection whatever raises |
| DbAdapter.ExecuteCommits | database/db_adapter.py:119-143 | outside a block a statement succeeds exactly when nothing raises, and then it is checked out, run, committed and returned in this order; if it or the commit raises there is no commit, if the checkout raises nothing happens |
| DbAdapter.ExecuteInside | database/db_adapter.py:119-143 | inside a block it runs on the block's connection, takes no other, commits nothing, and succeeds unless it raises |
| DbAdapter.BodyInside | database/db_adapter.py:145-157 | the body runs on that connection exactly up to the first statement that raises uncaught, and nothing but statements happens to it |
| DbAdapter.FinishReturns | database/db_adapter.py:155-166 | from wherever a block got its connection, its end leaves nothing out; committed if and only if nothing raises out of it, else rolled back unless that raises too |
| DbAdapter.BlockKeepsOneConnection | database/db_adapter.py:145-166 | checkout, statements up to the first uncaught error, commit or rollback and return, all on one connection; committed if and only if nothing raises |
| DbAdapter.StaysIdle | database/db_adapter.py:153-166 | an operation leaves nothing out if and only if it is not a block whose own checkout raises |
| DbAdapter.RunPhase | database/db_adapter.py:86-166 | after every run, failed block checkouts included, the adapter is idle, stuck or leaking as its inputs say |
| DbAdapter.ConnectionsAreConserved | database/db_adapter.py:86-166 | over every run one connection is out at a time, only that one is used, each was returned as often as it was taken except one that is leaking, and the run ends idle if and only if no failed block checkout is left unrepaired |
| DbAdapter.NoFailedBlockEndsIdle | database/db_adapter.py:86-166 | in particular when no block's own checkout raises |
| DbAdapter.CheckoutsAreReturned | database/db_adapter.py:86-110 | in a fine log the returns of a connection trail its checkouts by the one still held |
| DbAdapter.FailedCheckoutLeaks | database/db_adapter.py:153-166 | after a block whose checkout raised, the next statement's connection stays out, uncommitted, until some block ends |
| DbAdapter.PooledAdapter.Acquire | database/db_adapter.py:86-101 | reuses the held connection in a block, else takes one and holds it in a block |
| DbAdapter.PooledAdapter.Release | database/db_adapter.py:103-110 | returns a connection unless a block holds it |
| DbAdapter.PooledAdapter.Execute | database/db_adapter.py:119-143 | the try and finally do what the value model does, for execute and executemany; what that is outside a block says `ExecuteCommits` |
| DbAdapter.PooledAdapter.Transaction | database/db_adapter.py:145-166 | the context manager does what the value model does |

## Left out

- Floating point: weights, ranks, costs, tokens and statistics are reals, so rounding, infinities and NaN are not modelled.
- Node objects: the value of a node is modelled, not that the caller keeps a reference to it; `created_at` and `attrs` are dropped, and so are the attributes of edges.
- NetworkX backend and the fallback for stores without `_adj`: only the in-memory store is modelled. `GraphQuery.subgraph`, the top-k helpers and `batch_propagate` would only add easy members.
- ShortestPath.Find: `heapq` compares node ids and paths on equal costs; the model leaves open which least entry is popped, so ties between equally cheap paths are not decided.
- PageRank.Convergence: that a fixed point exists is not shown; the bound holds for every one, there is at most one, and the iterates approach each other in any case.
- Versioning.GraphVersioning.CreateSnapshot: the time stamp in the id is an input, and the label is only stored.
- Versioning.AddNodeBeside: nodes are values in the store and in snapshots, so that the deep copy of the nodes keeps an in-place upsert away from a snapshot is not modelled; for the edges it is.
- Deduplicator.NearDuplicateDetector.IsDuplicate: shingling, text normalisation and the three hash functions are parameters, and with them that signatures have num_perm entries; the embedding tier named in the module's header is not part of the file.
- MinHash.InjectiveIffCoprime: the coefficients are inputs; that the generator's values are coprime to 2^61 - 1 is not shown, nor that this number is prime.
- MannWhitney.Test: `sqrt` and the normal distribution function are parameters; `test`, its scipy path and `required_sample_size` are left out.
- Selector.Select: the sampled values are inputs, one per candidate; reading quota and topic out of the candidate dictionaries is left out. The early return for n <= 0 is covered by the limit.
- Optimizer.Optimize: the cvxpy path is left out, and the covariance rows are assumed long enough for their diagonal entry.
- TokenBuckets.WindowBound: needs a clock that does not run backwards, as a monotonic clock guarantees; for the Redis script, which is given wall-clock time, this is an assumption.
- TokenBuckets.DistributedBound: one clock is used for Redis and fallback, where the code uses wall clock and monotonic clock; one Redis key and one process are modelled.
- Collector.NoFetchWhileOpen: for one collect at a time; concurrent collects, cancellation and the length of the back-off delay are left out.
- Collector.DeadLetterQueue.Push: the file is a list of records, without the encoding of a record as a line.
- PiiMasker.Detect: the regular expressions are inputs, assumed to give non-empty, disjoint matches from left to right, as `finditer` does for these patterns.
- DbAdapter.ConnectionsAreConserved: blocks are not nested, and the pool gives out a connection that is not already out. SQLite, the fallback without a pool, query text and result rows are left out.
- Thread locks: a locked method is one atomic step.
- The web layer, collectors, publishers, schedulers, repositories and the formula-only scoring modules are not part of this model.
