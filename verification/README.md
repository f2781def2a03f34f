# MemOS: verified model of the distributed fabric and the in-process core

This project models the parts of the memory service whose correctness is a matter of logic rather than of
plumbing, and proves what they keep over every input, every run and every interleaving.

- **Anti-entropy.** The Merkle summary (`Merkle.dfy`), version vectors (`VersionVectors.dfy`) and the
  reconciliation cycle (`AntiEntropy.dfy`).
- **Membership and placement.** Gossip (`Gossip.dfy`) and shard windows (`Sharding.dfy`).
- **Replication.** Last-writer-wins upserts (`Storage.dfy`) and the cluster as a step system of saves,
  deliveries, applications and republished events (`Replication.dfy`).
- **Retrieval.** Ranking (`Ranking.dfy`), content keys (`Words.dfy`), deduplication (`Dedup.dfy`), the whole
  pipeline (`Retrieval.dfy`), and the entities that feed the graph (`Entities.dfy`).
- **In-process state.** The TTL and LRU cache (`Cache.dfy`), the circuit breaker (`Breaker.dfy`), the lock-free
  lag maximum (`LagMaximum.dfy`), the atomic counters (`Telemetry.dfy`), and the metrics page with the client that
  reads it (`Metrics.dfy`).
- `Common.dfy`, `Events.dfy`, `Sorting.dfy` and `Text.dfy` hold what is shared: options, events, stable sorting and its uniqueness,
  decimal numerals, Go's string order, UUID texts (section 4 of RFC 9562).

Objects that the service mutates are classes whose methods are proved against functions of their abstract state;
loops are methods with invariants; concurrent code is a step system whose steps are the locked sections or atomic
operations. Ranging over a Go map and unstable sorting are nondeterministic choices, and every result below holds
for all of them. Hash functions, `exp`, `tanh`, letter case and rounding are parameters; what is assumed of them
is a named predicate in the hypotheses (`Merkle.CollisionFree` on the finitely many strings two trees hash,
`Merkle.HashLength`, `Ranking.Sound`, `Ranking.Rising`, `Words.CaseMapping`, `Metrics.ExactIntegers`, `Metrics.Monotone`).
`dafny verify dfyconfig.toml` checks everything.

## Where the code differs from its description

- The repository's README promises automatic repair of divergence. Digests that nodes compute never contradict one
  another (`AntiEntropy.ComputedDigestsAgree`), because every shard key contains a memory id and the checksum
  covers ids only; the roots, which do tell any two tables apart, are broadcast and compared with nothing
  (`AntiEntropy.RootsSeeWhatDigestsMiss`).
- Were a repair triggered, it would publish an empty content. A replica that held the memory keeps what it held; one
  that did not keeps the empty content for good (`Replication.RepairRestoresExactly`).
- `internal/storage/postgres.go:630` speaks of versions `>= current`; the code takes only greater ones. A tie is
  decided by arrival, so convergence needs ties and owners to agree, and exactly that (`Storage.OrderIrrelevantExactly`).
- `internal/fabric/merkle.go:43` speaks of content hashes; the leaves are id and version.
- `VersionVector.Merge` is commutative in what it reads but not as a map (`VersionVectors.MergeCommutesExactly`).
- `internal/core/relationships.go:44` speaks of start-of-sentence words; the code tests a length of more than two
  bytes, and names run on across sentence ends (`Entities.NamesIgnorePunctuation`).
- The metric labelled average replication lag divides the sum of lags by the number of stores, not of replications
  (`internal/core/telemetry.go:89-92`, `Metrics.AveragesAreMeans`).
- The text `<empty>` shares its deduplication key with blank content (`Words.SameKeyExactly`).

## Model

| member | source | states |
|---|---|---|
| Merkle.BuildMerkleTree | internal/fabric/merkle.go:44-72 | for every outcome of the unstable sort, the root hash depends on the data alone, and the tree carries all sorted leaf hashes at one depth under nodes that hash their children |
| Merkle.BuildLevel | internal/fabric/merkle.go:58-69 | one level up keeps all leaves under well-hashed parents, an odd last node getting a parent of its own |
| Merkle.RootIgnoresOrder | internal/fabric/merkle.go:44-72 | permuted data give equal roots under any hash whatever, ties included |
| Merkle.RootDeterminesData | internal/fabric/merkle.go:23-72 | with no collision among the strings the two trees hash, equal roots of leaves shorter than 64 characters mean equal multisets of leaves, trees of different height included |
| Merkle.RootsAgreeExactly | internal/fabric/antientropy.go:149-154 | two nodes' roots are equal if and only if their stores list the same multiset of (id, version) |
| Merkle.SameRootNested | internal/fabric/merkle.go:58-69 | two folds with one root are levels of one another |
| Merkle.LeafInjective | internal/fabric/antientropy.go:150-152 | id and version can be read back from a leaf's text |
| Merkle.LeafLength | internal/fabric/antientropy.go:150-152 | a leaf's text has 37 to 56 characters, fewer than any inner preimage |
| Merkle.ArbitraryLeavesConfuse | internal/fabric/merkle.go:23-41 | without the length gap the claim fails: under any hash, a one-leaf list has the root of a two-leaf list |
| VersionVectors.Dominates | internal/fabric/antientropy.go:21-28 | true exactly when no entry, missing ones read as 0, exceeds the vector's |
| VersionVectors.Merge | internal/fabric/antientropy.go:31-42 | the two loops, in any map order, give the merge whose laws follow |
| VersionVectors.MergedMeans | internal/fabric/antientropy.go:31-42 | every entry of the merge comes from one of the vectors, and neither vector has a greater one |
| VersionVectors.CoversIsPreorder | internal/fabric/antientropy.go:20-28 | domination is reflexive and transitive, and mutual exactly for vectors that read alike |
| VersionVectors.MergeIsLeastUpperBound | internal/fabric/antientropy.go:30-42 | a vector dominates both arguments if and only if it dominates their merge |
| VersionVectors.MergeIdempotent | internal/fabric/antientropy.go:30-42 | merging a vector with itself changes nothing |
| VersionVectors.MergeAssociative | internal/fabric/antientropy.go:30-42 | merging is associative on the maps themselves |
| VersionVectors.MergeCommutesExactly | internal/fabric/antientropy.go:30-42 | the merged maps agree in both orders if and only if no zero entry of one vector is missing from the other; the readings always agree |
| AntiEntropy.GroupByShard | internal/fabric/antientropy.go:156-164 | a shard key has a group if and only if some memory has that key, and the group lists the ids of exactly those memories in order |
| AntiEntropy.GroupsPartition | internal/fabric/antientropy.go:156-164 | the same of the grouping as a function, for any one key |
| AntiEntropy.ComputeDigests | internal/fabric/antientropy.go:166-175 | one digest per shard key in any order, the counts adding up to the number of memories; every group is left sorted for the repairs |
| AntiEntropy.ComputeChecksum | internal/fabric/antientropy.go:254-260 | feeding ids one by one hashes their concatenation |
| AntiEntropy.ConcatAppends | internal/fabric/antientropy.go:254-260 | the hashed text of one id is the id, and of two lists one after the other their two texts in that order |
| AntiEntropy.SortedIdsAscend | internal/fabric/antientropy.go:166-169 | the ids that are digested and repaired are those of the shard, each as often as listed, none before a smaller one |
| AntiEntropy.DigestIgnoresOrder | internal/fabric/antientropy.go:166-175 | a digest is the same for every order of the listing, ids repeated or not |
| AntiEntropy.RepairShard | internal/fabric/antientropy.go:218-251 | publishes, for each listed id that has a row, that row's event without embedding, in list order, and counts the publications that succeed |
| AntiEntropy.RowIsLast | internal/fabric/antientropy.go:219-231 | an id finds a row if and only if one is listed under it, and then the last such row |
| AntiEntropy.SuccessesAreCounted | internal/fabric/antientropy.go:244-249 | the count of repairs is the number of publications, among those attempted, that succeed |
| AntiEntropy.CompareWithPeer | internal/fabric/antientropy.go:193-207 | one peer's digests trigger exactly the publications of the contradicted shards, digest by digest, each shard in the order of its sorted ids |
| AntiEntropy.RunCycle | internal/fabric/antientropy.go:139-215 | the whole cycle: nothing after a failed listing; otherwise root and digests of the local table broadcast, every peer compared once in some order, successes counted |
| AntiEntropy.GroupsAreSingletons | internal/fabric/sharding.go:22-24 | with ids as primary keys every shard group is a single memory |
| AntiEntropy.ComputedDigestsAgree | internal/fabric/antientropy.go:193-206 | a digest that any node computed from any table never contradicts another node's: the mismatch branch is unreachable |
| AntiEntropy.NothingToRepair | internal/fabric/antientropy.go:191-214 | a cycle that has heard only computed digests republishes nothing, in any peer order |
| AntiEntropy.ContradictionRepublishesRow | internal/fabric/antientropy.go:201-205 | a foreign digest with another checksum republishes the one row of its shard, and a matching one nothing |
| AntiEntropy.DigestsSeeOnlyIds | internal/fabric/antientropy.go:156-175 | tables that agree on ids and owners have the same digests, whatever else differs and ids repeated or not |
| AntiEntropy.RootsSeeWhatDigestsMiss | internal/fabric/antientropy.go:149-175 | for any two tables, the roots differ if and only if the tables differ in an id or a version, while the digests of every shard that both hold are equal |
| Sharding.ShardingStrategy.GetReplicaNodes | internal/fabric/sharding.go:34-50 | the replicas are the node list turned to start at hash mod n, cut to the replication factor |
| Sharding.ShardingStrategy.IsShardOwner | internal/fabric/sharding.go:53-61 | true exactly for the ids of nodes in that window |
| Sharding.ShardingStrategy.GetPrimaryNode | internal/fabric/sharding.go:73-79 | the node at hash mod n, or none for an empty list or a zero factor |
| Sharding.ShardingStrategy.IsPrimaryOwner | internal/fabric/sharding.go:64-70 | true exactly for the id of that node |
| Sharding.PlacementByHash | internal/fabric/sharding.go:34-50 | in terms of the hash itself: node p of n owns a shard if and only if hash + k = q n + p for some round q and some k < min(replication factor, n) |
| Sharding.PrimaryByHash | internal/fabric/sharding.go:27-46 | and windows start at p if and only if hash = q n + p for some q |
| Sharding.WindowIsDistinct | internal/fabric/sharding.go:34-50 | the replicas are distinct and led by the primary |
| Sharding.OwnershipByDistance | internal/fabric/sharding.go:34-61 | a node owns a shard if and only if it is fewer than the replication factor steps after the start, going round |
| Sharding.EvenLoad | internal/fabric/sharding.go:34-50 | over the n start positions every node appears in exactly min(replication factor, n) windows |
| Sharding.SmallClusterOwnsAll | internal/fabric/sharding.go:34-61 | with at most as many nodes as the replication factor, the owners are exactly the listed nodes, in any list order |
| Sharding.FirstNodeReplicates | internal/fabric/replication.go:98-110 | the node listed first owns a shard without being its primary if and only if s != 0 and n - s < replication factor |
| Sharding.ShardKeyInjective | internal/fabric/sharding.go:22-24 | a shard key of UUIDs determines tenant, agent and memory |
| Gossip.GossipProtocol.HandleHealthCheck | internal/fabric/gossip.go:120-130 | refreshes a known node in place and never adds one |
| Gossip.GossipProtocol.HandleNodeJoined | internal/fabric/gossip.go:133-151 | enters or replaces a remote node; the node's own join is ignored |
| Gossip.GossipProtocol.HandleNodeLeft | internal/fabric/gossip.go:154-161 | removes the node and no other |
| Gossip.GossipProtocol.GetActiveNodes | internal/fabric/gossip.go:197-211 | the local node at index 0 and nowhere else, then each remote node last heard from less than 30,000 ms ago, once, and no other |
| Gossip.GossipProtocol.GetNodes | internal/fabric/gossip.go:179-189 | the local node first, then every known node once |
| Gossip.ViewIsHistory | internal/fabric/gossip.go:119-161 | after any events, a remote node is known if and only if a join of it has not been followed by a leave; its entry is that of its latest join refreshed by the latest event about it; the local id is never a key |
| Storage.PostgresStore.UpsertMemoryWithConflictResolution | internal/storage/postgres.go:609-646 | an absent id is inserted, a greater version replaces the columns but not tenant and agent, anything else and any failure leaves the table alone; `updated` tells which |
| Storage.PostgresStore.SaveMemory | internal/storage/postgres.go:329-339 | stores the row under the drawn id or, on any failure, nothing |
| Storage.UpsertAllSettles | internal/storage/postgres.go:609-646 | after any sequence of upserts a row holds the earliest of the greatest versions sent for its id, under the owner that arrived first |
| Storage.Converges | internal/storage/postgres.go:609-646 | nodes that received the same models in any order and number agree on the whole table, if ties and owners agree |
| Storage.OrderIrrelevantExactly | internal/storage/postgres.go:630-642 | order and repetition are invisible if and only if models tied at the greatest version carry the same columns and models of one id the same owner |
| Storage.VersionedModelsConverge | internal/storage/postgres.go:607-608 | it suffices that (id, version) determines the columns |
| Replication.ReplicationManager.EnqueueMemoryEvent | internal/fabric/replication.go:150-156 | appends to a queue of at most 1000 and drops the event when it is full |
| Replication.ReplicationManager.ApplyReplication | internal/fabric/replication.go:96-147 | the upsert is reached if and only if s != 0 and n - s < replication factor for n active nodes and s = hash mod n; stores and error follow from that and from the faults met |
| Replication.ReplicationManager.ReachesByHash | internal/fabric/replication.go:96-110 | that condition in terms of the hash: hash = q n + s for some q, with 0 < s < n and n - s < replication factor |
| Replication.ReplicationManager.ProcessNext | internal/fabric/replication.go:79-93 | takes the oldest event and applies it; an event that fails is gone |
| Replication.RowsAreFrozen | internal/fabric/replication.go:96-147 | in any run of saves, deliveries, applications and republications, a stored row never changes, so versions never decrease |
| Replication.RowsComeFromSaves | internal/api/memory_handler.go:116-188 | every row on every node carries the event columns of the one save of its id; only the content may be missing, and only after a republication |
| Replication.SaveExactly | internal/api/memory_handler.go:128-188 | a save that the database accepts stores the row as given, its vector exactly if the index is reached, and publishes exactly if publication succeeds the event of that row with that embedding; a failed one changes nothing anywhere |
| Replication.SavesAreDurable | internal/api/memory_handler.go:128-188 | its node shows that row, and that vector if the index was reached, in every later run |
| Replication.VectorsComeFromSaves | internal/fabric/replication.go:123-137 | in every run each vector on any node is the one its memory was saved with, or the empty one of a republication |
| Replication.ReplicasAgree | internal/fabric/replication.go:96-147 | any two nodes that hold a memory agree on it, unless it has been republished without content |
| Replication.AppliersAgree | internal/fabric/replication.go:96-147 | convergence: in any run, nodes that have applied events about a memory, whichever and whenever, all hold it from then on and agree on it |
| Replication.FirstArrivalDecides | internal/fabric/replication.go:112-129 | after an event has been applied, in every later run the node shows the row it had before, or else the event's, and so has the saved content if and only if that row has |
| Replication.QueuesAreBounded | internal/fabric/replication.go:57-93 | every queue stays within 1000, and processed followed by queued events are a subsequence of those delivered |
| Replication.DroppedExactly | internal/fabric/replication.go:60-67 | a delivered event is queued last if fewer than 1000 wait, and is otherwise lost |
| Replication.FewEventsAreNeverLost | internal/fabric/replication.go:57-93 | a node sent at most 1000 events in all takes every one of them, in order |
| Replication.EchoIsIgnored | internal/fabric/replication.go:96-147 | in every run, an event that returns to the node that saved the memory changes nothing there |
| Replication.RepairsAreRepublications | internal/fabric/antientropy.go:230-243 | whatever a contradicting digest makes a node publish is a republication, without content, of a row it holds |
| Replication.RepublicationsAreRepairs | internal/storage/postgres.go:500-524 | and for every row it holds some digest makes it publish exactly that event |
| Replication.RepairRestoresExactly | internal/fabric/antientropy.go:230-243 | a repaired replica has the saved content in every later run if and only if it held the memory already and held it so, or the saved content is empty |
| Replication.LostVectorIsNotRetried | internal/fabric/replication.go:123-137 | after an event has been applied, in every later run the node has the vector of the memory if and only if it had it before, or took the row and reached the index; it is the one it had before, or else the embedding of the event |
| Replication.VectorsAreFrozen | internal/fabric/replication.go:123-137 | once a node holds a memory, no run adds, removes or changes its vector |
| Retrieval.ScoreHits | internal/api/memory_handler.go:254-342 | keeps, in order, the hits that can be fetched and reach the threshold, and indexes each id at its last position |
| Retrieval.HitsKept | internal/api/memory_handler.go:254-342 | a candidate is kept if and only if it is the scored memory of a hit that can be fetched and its score is at least the threshold |
| Retrieval.ScoredMeasures | internal/api/memory_handler.go:287-327 | each component of its breakdown is the measure of the column it is named after: similarity, importance decayed by age at the rate of the memory, importance, reinforcement |
| Retrieval.ScoredWeighs | internal/api/memory_handler.go:239-252 | and its score is their mean with the requested weights, or 0.4, 0.3, 0.2 where none is requested, and 0.1 |
| Retrieval.LayerExactly | internal/api/memory_handler.go:501-524 | which memories are working, episodic, long-term and archived, each by its own condition |
| Retrieval.NeighborBoosts | internal/api/memory_handler.go:355-369 | each neighbour gains 0.05 for every mention in the lists of the first five, a memory's mention of itself apart |
| Retrieval.MentionsArePlaces | internal/api/memory_handler.go:355-369 | the mentions of a memory are the places, in the lists of other memories among the first five, at which it stands |
| Retrieval.MergeNeighbors | internal/api/memory_handler.go:371-425 | in whatever order the map is ranged over, each neighbour boosts its last listing once or joins once if it can be fetched |
| Retrieval.MergedExactly | internal/api/memory_handler.go:371-425 | without the loops: the merged list is the hits, the last listing of each id raised by 0.05 for each mention, then one candidate with score 0.6 and the same raise for each mentioned memory that is no hit and can be fetched, and no other |
| Retrieval.Retrieve | internal/api/memory_handler.go:224-457 | the result equals the pipeline's for every order in which the neighbours might have been visited, of which there is at least one |
| Retrieval.RetrievedIsTop | internal/api/memory_handler.go:428-457 | whatever the order of visits, the returned list is the top of the merged candidates, in the sense of PipelineIsTop |
| Retrieval.RetrievedByScore | internal/api/memory_handler.go:428-457 | of any returned list: scores never rise along it and equal scores stand in increasing id order; every entry is a merged candidate and no candidate with its content key scores higher; no candidate whose key is missing scores above any entry, and no key is missing from a list that is not full |
| Retrieval.RetrievedExactly | internal/api/memory_handler.go:428-457 | when the search returns each memory once, a list is what Retrieve returns if and only if it is that top |
| Retrieval.VisitOrderIsInvisible | internal/api/memory_handler.go:371-435 | two visiting orders sort to the same candidates, even when several hits share an id |
| Retrieval.PipelineIsTop | internal/api/memory_handler.go:428-457 | the result is ranked, holds at most `limit` candidates and one per content key, each the best of its key; nothing left out beats anything in, and keys are left out only when the list is full |
| Retrieval.ScoresBounded | internal/api/memory_handler.go:344-425 | every candidate's score is between 0 and 1.25 for duplicate-free neighbour lists |
| Dedup.DedupAndCut | internal/api/memory_handler.go:437-457 | the loop with its early stop returns the first `limit` of the first element of each key |
| Dedup.TopOfSorted | internal/api/memory_handler.go:437-457 | for any key and any total order, deduplicating a ranked list from the front yields its top, one element per key |
| Dedup.TopIsUnique | internal/api/memory_handler.go:428-457 | when no two elements share a rank, being the top determines the list |
| Words.SameKeyExactly | internal/api/memory_handler.go:491-497 | two contents share a key if and only if their words agree, case and spacing aside, or one is blank and the other is the word `<empty>` |
| Words.FieldsOfJoin | internal/api/memory_handler.go:491-497 | splitting undoes joining |
| Text.StringLessExactly | internal/api/memory_handler.go:428-435 | the order that breaks ties is lexicographic: one text comes first if and only if it ends where they first differ, or has the smaller character there |
| Ranking.ScoreIsMean | internal/core/ranking.go:41-82 | the final score lies between the least and the greatest of its four components, for any positive weights |
| Ranking.ComponentsMeasure | internal/core/ranking.go:41-82 | similarity and importance count as they are between 0 and 1 and are cut off there, and the reinforcement score never falls as reinforcement rises |
| Ranking.TemporalFallsWithAge | internal/core/ranking.go:41-82 | the temporal score never rises with age or with the decay factor |
| Ranking.TemporalAtBirth | internal/core/ranking.go:41-82 | and is the importance, at most 1, at age 0 |
| Ranking.ForgettingCurve | internal/core/ranking.go:41-82 | in between it is importance times exp(-rate age), the rate being the decay factor but at least 0.01 a day |
| Ranking.ScoreInUnitInterval | internal/core/ranking.go:41-82 | for non-negative importance and reinforcement every score is in [0, 1] |
| Ranking.DefaultScore | internal/core/ranking.go:18-23 | the default weights give the documented sum of the four components |
| Ranking.RequestedScore | internal/api/memory_handler.go:239-252 | for any requested weights the score times their total is the sum of the components, each with its own weight, requested or default |
| Ranking.WeightsAreRelative | internal/core/ranking.go:66-74 | scaling all weights changes no score |
| Ranking.OverriddenIsPositive | internal/api/memory_handler.go:239-252 | whatever weights a request sends, the total weight is positive |
| Entities.ExtractEntities | internal/core/relationships.go:16-56 | returns, each once and in any order, exactly the keywords mentioned and the names of the maximal runs of capitalised words longer than two bytes |
| Entities.CollectNames | internal/core/relationships.go:32-49 | the index-jumping nested loop ends and finds every run's name and no other |
| Entities.Extend | internal/core/relationships.go:35-43 | from a capitalised word that begins a run, the inner loop joins exactly that run |
| Entities.EachCapitalInOneRun | internal/core/relationships.go:32-49 | every capitalised word lies in one maximal run and in no other |
| Entities.NameKeepsWords | internal/core/relationships.go:35-38 | a name can be split back into the words of its run |
| Entities.NamesIgnorePunctuation | internal/core/relationships.go:28-30 | a punctuation mark anywhere in a text changes none of its names, so runs cross sentence ends |
| Entities.ContainsExactly | internal/core/relationships.go:20-25 | a keyword is mentioned if and only if the text is something, the keyword, and something again |
| Entities.CleanedExactly | internal/core/relationships.go:28-29 | cleaning removes every punctuation mark and no other character, and leaves a text without any alone |
| Entities.ByteLengthBounds | internal/core/relationships.go:45-47 | the length that is tested is between one and four bytes a character, and one byte each exactly for ASCII texts |
| Cache.MemoryCache.constructor | internal/core/cache.go:25-38 | an empty cache; a capacity or TTL that is not positive becomes 256 or 30 seconds |
| Cache.MemoryCache.Get | internal/core/cache.go:40-56 | a hit through the expiry instant moves the entry to the front, an expired entry is dropped, and map and list stay views of the same entries |
| Cache.MemoryCache.Set | internal/core/cache.go:58-81 | overwrites in place or pushes and evicts the least recent, never above capacity |
| Cache.MapMatchesList | internal/core/cache.go:17-23 | map and list are in bijection, key by key |
| Cache.RunKeeps | internal/core/cache.go:40-81 | in every run keys stay distinct and the size within capacity |
| Cache.HitReturnsLatest | internal/core/cache.go:40-81 | in every run a hit returns what the latest Set of the key stored, at most the TTL ago |
| Cache.MissLeavesNothing | internal/core/cache.go:49-52 | in every run, after a Get that missed the key holds no slot: what it found expired is gone |
| Cache.GuaranteedHit | internal/core/cache.go:40-81 | if no earlier operation read a later clock, an unexpired key is a hit while fewer than `capacity` other keys were touched since its last touch |
| Cache.HitExactly | internal/core/cache.go:40-81 | if no Get has met an expired entry, those two conditions are also necessary |
| Cache.HitCriterion | internal/core/cache.go:40-81 | for any run, expired Gets included: if no operation read a later clock, a key hits if and only if it was last set at most the TTL ago and, at every point since its last touch, fewer than `capacity` other keys had been touched since then without a Get having missed them afterwards |
| Breaker.CircuitBreaker.Begin | internal/core/reliability.go:40-52 | the first locked section admits exactly when the breaker is not open or the clock is past the last failure by more than the timeout |
| Breaker.CircuitBreaker.End | internal/core/reliability.go:57-75 | the second locked section counts a failure and opens at the threshold, or closes a half-open breaker |
| Breaker.ClosedExactly | internal/core/reliability.go:40-76 | under any interleaving of calls in flight there is one point of the latest half-open success, and the breaker is closed if and only if fewer than `threshold` failures have been recorded since |
| Breaker.CountIsFailures | internal/core/reliability.go:60-73 | the counter equals the failures since then |
| Breaker.ThresholdMustBePositive | internal/core/reliability.go:31-37 | that rule holds over all runs if and only if the threshold is at least 1 |
| Breaker.OpenAdmitsNobody | internal/core/reliability.go:44-51 | after a failure at t leaves it open, whatever calls return meanwhile, nobody is admitted until the clock passes t + timeout |
| Breaker.AdmissionExactly | internal/core/reliability.go:44-52 | after any run a call is let through if and only if the breaker is closed, half open, or past its last failure by more than the timeout; a refused call changes nothing |
| Breaker.ClosedAdmitsAll | internal/core/reliability.go:44-52 | so in any run every call is let through while fewer than `threshold` failures have been recorded since the breaker last closed |
| Breaker.ReopeningWaits | internal/core/reliability.go:44-51 | in any run, a call that an open breaker admits comes more than the timeout after every failure recorded so far, and turns it half open |
| Breaker.FirstOutcomeDecides | internal/core/reliability.go:44-75 | half open admits any number of callers, and the first outcome of any call in flight decides the state |
| LagMaximum.MaximumGrows | internal/core/telemetry.go:141-153 | under every schedule of atomic operations the stored maximum never decreases |
| LagMaximum.FailedSwapMeansProgress | internal/core/telemetry.go:149-151 | a failed compare-and-swap means that the maximum has grown since the load |
| LagMaximum.AtRest | internal/core/telemetry.go:141-153 | when all calls have returned, the maximum is max(0, all durations) and the sum their total modulo 2^64 |
| LagMaximum.RetriesEnd | internal/core/telemetry.go:144-152 | n calls take at most n(2n + 6) atomic operations under any schedule |
| Telemetry.Telemetry.Handler | internal/core/telemetry.go:170-240 | writes the page of the counters as eleven separate loads see them, whatever other calls do between the loads |
| Metrics.PageLookup | sdk/typescript/src/client.ts:522-525 | on a page of distinct metrics the client's expression finds, for each name, that metric's value if it is unsigned and nothing otherwise; comment lines and other names never match |
| Metrics.PositionIsRead | sdk/typescript/src/client.ts:522-525 | for any well-formed labels, each position of the page is read as its own value |
| Metrics.ClientAsksForLabels | sdk/typescript/src/client.ts:527-545 | the names that the client asks for are the names on the page |
| Metrics.CountersAreRead | sdk/typescript/src/client.ts:521-548 | for every snapshot, what the client shows for each counter, wrapped-round negative ones included |
| Metrics.GaugesAreRead | sdk/typescript/src/client.ts:542-545 | each gauge is shown to three decimals, a negative one as 0 |
| Metrics.AveragesAreMeans | internal/core/telemetry.go:79-104 | rounding aside, each average times its count is its sum in milliseconds, the lag being divided by the number of stores, and an average over nothing is 0 |
| Metrics.RateIsShare | internal/core/telemetry.go:74-77 | rounding aside, the hit rate is the share of hits in hundredths, and 0 when nothing was looked up |
| Metrics.ThousandthsAreNear | internal/core/telemetry.go:230-239 | printing to three decimals is off by at most half a thousandth |
| Metrics.ClientSeesSnapshot | sdk/typescript/src/client.ts:521-548 | for all counters in [0, 2^53) the client recovers every counter exactly and derives the service's own hit rate and, as a double, its own total |
| Telemetry.Telemetry.RecordStore | internal/core/telemetry.go:111-114 | two atomic additions with whatever other calls do in between |
| Telemetry.Telemetry.RecordRetrieve | internal/core/telemetry.go:116-119 | the same for a retrieval |
| Telemetry.StepsAddUp | internal/core/telemetry.go:111-142 | however the steps of any calls interleave, each counter ends at its total modulo 2^64 |
| Telemetry.SeenIsBetween | internal/core/telemetry.go:179-189 | while nothing wraps, every counter on a page lies between its value when the page began and its value when it was done |
| Text.NatValueOfDecimal | internal/core/telemetry.go:209-227 | reading a printed natural number gives the number back |

## Left out

- Drivers, transport and handlers: PostgreSQL, Qdrant, Neo4j, NATS, gRPC, HTTP, row-level security, authorisation, audit log and configuration. A transaction is one atomic step that may fail at any stage; a message may be delivered any number of times or never.
- Floating point: scores, weights and boosts are reals, so rounding of scores is not modelled. The metrics model rounds through an abstract function known only to be exact on integers up to 2^53 and monotone.
- Malformed identifiers: `uuid.MustParse` panics on them (internal/fabric/replication.go:115-117); ids in the cluster are arbitrary texts that parse.
- Sharding.ShardingStrategy.GetReplicaNodes: does not model a negative replication factor, for which the source panics in `make`; the hash is a 32-bit value and `int` has 64 bits.
- Agreement between nodes on replicas or primaries: each node lists itself first, so nothing of the kind is claimed.
- Replication.RowsAreFrozen: does not model deletion, `ReduceImportance`, retrieval statistics, consolidation, reflection or aging, none of which events carry. Store saves version 1 under a fresh id, so no run brings a newer version of a stored row; upserts of any other versions are the subject of the Storage results.
- AntiEntropy.RunCycle: models neither the subscription that collects peer digests nor their replacement during a cycle, and leaves logging out; `updated_at` and the event's timestamp are not columns of the model.
- Gossip: the heartbeat and announcement loops, `UpdateLocalMemoryCount`, and message loss; histories are arbitrary event sequences.
- Retrieval.Retrieve: does not model the goroutines that update statistics, traces, audit entries, or the search's fetch of twice the limit; cache and table lookups are one function per call, so a lookup repeated within a call gives the same answer.
- Breaker.CircuitBreaker.End: does not model the value that the protected function returns.
- Telemetry.Telemetry.Handler: writes through a table, three lines per metric, where the source repeats the writes; headers and the OPTIONS reply are not modelled. The five one-line counters (audit, denied, cache) are single `Add` steps and have no methods of their own.
- LagMaximum: values that a single call adds are unbounded integers; the shared sum wraps at 64 bits.
- Entities: invalid UTF-8 in a text.
- `TemporalDecay`, `ShouldConvertToSemantic`, role tables, conflict heuristics, the MCP server, the dashboard and the other SDKs: formatting or finite tables.
