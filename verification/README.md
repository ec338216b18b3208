# KNN index: models and proofs

This project models the two algorithms at the heart of the KNN service, a Robin Hood hash table and an HNSW graph
index, with the parts they rest on, and proves what they promise. `dafny verify dfyconfig.toml` checks all of it.

**The hash table** (`Cyclic`, `GrowthPolicy`, `LoadFactor`, `RobinHoodLayout`, `RobinHash`). A class over an array
of buckets, updated in place as the source does: insertion steals buckets, probes stop early, erasure shifts
backward, the table grows or shrinks on the next insertion. `RobinHoodLayout` is the theory of the bucket array as
a value; a ghost map from keys to buckets gives the finite map a table stands for. The hash function is a
parameter, load factors are reals. `Run` takes the table through any sequence of operations. `HistoryIsForgotten`
says that the probe lengths depend on the keys alone. Range erase is correct on exactly those ranges behind which
no element has wrapped round the array end: the shift stops at the end of the array, and
`WrappedChainIsNotDetached` is a table it breaks. The condition can be read off the buckets before the call: the
range starts at bucket 0, or bucket 0 is empty or holds an element at its home, or so does some bucket from the end
of the range on. The maximum load factor is kept by every insertion if and only if the table has room for one
element under it: the threshold is compared before the element is counted, and a table of one to four buckets may
have grown to a size that is still too small for its factor (`ResizedFits`; `TooSmallForOne` is such a table).

**The graph index** (`BestFirst`, `BeamSearch`, `GreedyDescent`, `HnswGraph`, `NeighborHeuristic`, `Hnsw`,
`UniqueInsertion`, `HnswIndex`). Insertion and search are methods over arrays of vectors, labels, levels and link
lists; a link list is its stored size and its fixed block of ids. Distance is any function into the reals, the
random level is an argument, a priority queue is a set of pairs whose `pop` may return any largest element by the
queue's own order. `searchBaseLayer` and `searchBaseLayerST` run the same loop and are one method here,
`SearchLayer`. The contract of `AddPoint` describes an insertion as one step for each level, and each step by the
search it runs, the neighbours chosen and the answer of each of them; all start where a greedy descent ends, which
is a relation of its own. A search is pinned down without its queues: `BestFirst` says which node a best-first
exploration with a beam expands next and when it is over, `SearchLayer` makes exactly such an exploration, and
without ties there is only one (`ResultIsUnique`, `KnnIndexes.AnswerIsUnique`). `UniqueInsertion` shows the same of insertion: without ties the contract of `AddPoint` admits one graph, slot by slot.

**Memory and file** (`LittleEndian`, `FlatMemory`, `ByteGraph`, `IndexFile`). One byte array holds base-layer
lists, vectors and labels; the lists of the higher levels lie in a block for each element. Every write the program
makes is shown to change one list of one element in the node table that the graph model works on. `saveIndex` and
`loadIndex` are modelled byte by byte, with the scan that tells old files. `ByteGraph` runs `addPoint` on the graph
and makes its writes on the bytes, level by level and neighbour by neighbour; both keep holding the same lists,
slot by slot.

**Concurrent insertion** (`ConcurrentInsert`, `SequentialRun`, `InsertHistory`). `addPoint` as a step relation: any
number of calls, a lock for each node, the global lock, unsynchronised reads of the entry point as steps of their
own. Link lists are the slots of the sequential model. Which node is looked at next is left open; the neighbours
chosen are what the heuristic keeps of nodes seen, and a list answers as the sequential model says, for whatever
distances. The step relation is tied to the sequential program: every sequential insertion is a run of one call
(`InsertionIsRun`), every sequence of them a run (`AddPointsAsRun`), and over every run a call leaves a level with
exactly its selection in its own list and every selected neighbour asked (`LevelFinished`).

**Around them**: the 16-bit epoch tags of `VisitedLists`, the heap merge of `AnswerHeap` and `KnnIndex`, the
blocked distance kernels of `Lanes`, `SpaceL2` and `SpaceIp` over the reals.

Three places where the code does less than one might expect, all stated exactly: a range erase can strand the
element in bucket 0 (`EraseRange`), a tiny table can exceed its maximum load factor (`ResizedFits`), and the size
of an element's higher lists is cut to 32 bits when it is saved, so that an element with more of them comes back on
a lower level (`SaveThenLoad`; `TallElementIsCut` is one such element). Pruning can drop links, so the results of
searches are stated relative to the nodes reachable from where they start.

## Model

| member | source | states |
|---|---|---|
| MachineBits.PowerOfTwoTest | include/tsl/robin_growth_policy.h:154-156 | the bit test holds exactly for the powers of two |
| MachineBits.SmearStep | include/tsl/robin_growth_policy.h:147-149 | one round of smearing turns a run of i ones below the top bit into a run of 2 i ones |
| MachineBits.SmearTopBit | include/tsl/robin_growth_policy.h:146-149 | the loop turns a 64-bit value into the mask of all bits up to its highest one |
| MachineBits.RoundUpToPowerOfTwo | include/tsl/robin_growth_policy.h:137-152 | the result is a power of two, not below the value, and no smaller power of two is |
| MachineBits.AndMask | include/tsl/robin_growth_policy.h:105-107 | masking with 2^k - 1 is the remainder modulo 2^k |
| GrowthPolicies.BucketIsRemainder | include/tsl/robin_growth_policy.h:105-107 | for either policy the bucket of a hash is its remainder modulo the bucket count, and 0 without buckets |
| GrowthPolicies.NextBucketCountGrows | include/tsl/robin_growth_policy.h:112-118 | when the next bucket count does not throw it is larger, at least 2 and within the maximum |
| GrowthPolicies.NextBucketCountFollows | include/tsl/robin_growth_policy.h:112-118 | the next bucket count is the growth factor times the present one, or the next prime of the table, and throws exactly where that exceeds the maximum |
| GrowthPolicies.LargestCounts | include/tsl/robin_growth_policy.h:123-126 | the maxima are 2^63 and 4294967291 |
| GrowthPolicies.PrimesSorted | include/tsl/robin_growth_policy.h:231-236 | the prime table is strictly positive and ascending, as the lower bound search needs |
| GrowthPolicies.LowerBound | include/tsl/robin_growth_policy.h:279-280 | the first entry not below the value asked for |
| GrowthPolicies.CreatePolicy | include/tsl/robin_growth_policy.h:87-99 | throws exactly above the maximum; otherwise the policy serves the least bucket count it offers that is not below the one asked for |
| GrowthPolicies.TruncatedHashSuffices | include/tsl/robin_hash.h:374-386 | the hash cut to 32 bits selects the same bucket as the full hash if bucket_count - 1 fits in 32 bits |
| RobinHashTable.StoredHashAgrees | include/tsl/robin_hash.h:1278-1287 | rehashing from the stored hash sends a key to the bucket of its full hash |
| Cyclic.DistVia | include/tsl/robin_hash.h:1108-1121 | cyclic distances add up along the array, the measure by which every probe loop ends |
| RobinHoodLayout.Climb | include/tsl/robin_hash.h:1136-1144 | walking on from a bucket, distances rise by at most the number of steps walked |
| RobinHoodLayout.ProbeStep | include/tsl/robin_hash.h:1136-1144 | stepping past a bucket that holds another key keeps the claim that the key can only be further on |
| RobinHoodLayout.ProbeStop | include/tsl/robin_hash.h:1136-1146 | once the resident is closer to its home than the probe is long, the key is in no bucket at all |
| RobinHoodLayout.CarrySkip | include/tsl/robin_hash.h:1251-1268 | an element that goes past a resident can still be placed further on |
| RobinHoodLayout.CarrySwap | include/tsl/robin_hash.h:253-268 | exchanging the carried element with a closer resident keeps the table invariant, and the pair of table and carried element stands for the same map |
| RobinHoodLayout.CarryPlace | include/tsl/robin_hash.h:240-251 | placing the carried element in an empty bucket completes the map |
| RobinHoodLayout.HoleOpens | include/tsl/robin_hash.h:1149-1151 | clearing a bucket leaves a table that is good but for one hole and has lost exactly that key |
| RobinHoodLayout.HoleMoves | include/tsl/robin_hash.h:1162-1172 | one round of the backward shift moves the hole one bucket on, nearer to an empty bucket |
| RobinHoodLayout.HoleCloses | include/tsl/robin_hash.h:1162-1172 | where the shift stops the table invariant holds again |
| RobinHoodLayout.ShiftKeepsBefore | include/tsl/robin_hash.h:807-817 | after a backward shift, even one round the array end, a bucket before the erased one keeps its element, has that of the next bucket, or is empty |
| RobinHoodLayout.AllFindable | include/tsl/robin_hash.h:1131-1147 | in a table that satisfies the invariant every stored element is found by a probe from its home |
| RobinHoodLayout.LostAtTheStart | include/tsl/robin_hash.h:850-875 | an element that stays in bucket 0 behind an emptied last bucket is not findable |
| RobinHoodLayout.RangeShiftNext | include/tsl/robin_hash.h:858-875 | one round of the range shift moves an element into an empty bucket nearer to its home and keeps what the loop relies on |
| RobinHoodLayout.RangeShiftEnds | include/tsl/robin_hash.h:850-875 | after a range erase the table invariant holds if and only if the range was detached from the elements round the array end |
| RobinHoodLayout.FullBucketsCounted | include/tsl/robin_hash.h:1214-1214 | the number of full buckets is the number of keys |
| RobinHoodLayout.SomeEmpty | include/tsl/robin_hash.h:1136-1144 | with fewer keys than buckets some bucket is empty, so every probe loop has an end |
| RobinHoodLayout.HomeAgrees | include/tsl/robin_hash.h:1149-1173 | an element between another one and that one's home, no further from this home than its bucket is, shares the home |
| RobinHoodLayout.NoFurther | include/tsl/robin_hash.h:1149-1173 | with as many elements for each home, no element of one table is further from home than what the other has in that bucket |
| RobinHoodLayout.LayoutIsCanonical | include/tsl/robin_hash.h:1149-1173 | two tables with the invariant, the same bucket count and as many elements for each home bucket have the same probe length in every bucket |
| RobinHoodLayout.SameKeysSameLayout | include/tsl/robin_hash.h:1149-1173 | two tables with the same keys and bucket count have the same probe length in every bucket |
| RobinHashTable.HistoryIsForgotten | include/tsl/robin_hash.h:1149-1312 | two valid table objects with the same hash function, bucket count and keys agree in every probe length, whatever insertions, erasures and rehashes they went through |
| LoadFactors.Clamp | include/tsl/robin_hash.h:1051-1060 | load factors are clamped to their bounds |
| LoadFactors.LoadIsShare | include/tsl/robin_hash.h:1035-1041 | the load factor is the share of the buckets that is full, 0 without buckets |
| LoadFactors.Threshold | include/tsl/robin_hash.h:1056-1060 | the sizes up to the threshold are exactly those that fit under the load factor, and it is below the bucket count |
| LoadFactors.BucketsFor | include/tsl/robin_hash.h:1067-1069 | the fewest buckets in which the elements fit under the load factor; more of them than elements |
| LoadFactors.LeastThatFits | include/tsl/robin_hash.h:1062-1065 | rehashing for what the elements need yields the least count offered that is not below the one asked for and in which they fit |
| LoadFactors.GrownFits | include/tsl/robin_hash.h:1324-1329 | growing a table whose elements fit makes room for one more if and only if the new table has room for one at all |
| LoadFactors.ResizedFits | include/tsl/robin_hash.h:1324-1341 | an insertion keeps the elements under the load factor if and only if the table after it has room for one at all |
| LoadFactors.TooSmallForOne | include/tsl/robin_hash.h:1324-1329 | with factor 2 and a maximum load of 0.2 the first insertion leaves 1 element in 2 buckets |
| RobinHashTable.RobinHash.BucketFor | include/tsl/robin_hash.h:1101-1106 | the home bucket is the remainder of the hash, 0 without buckets |
| RobinHashTable.RobinHash.NextBucket | include/tsl/robin_hash.h:1108-1121 | masked or compared, the next bucket is the cyclic successor |
| RobinHashTable.RobinHash.Probe | include/tsl/robin_hash.h:1131-1147 | the probe loop ends; it finds the key exactly when the table holds it, in the bucket it lives in |
| RobinHashTable.RobinHash.Find | include/tsl/robin_hash.h:1131-1147 | find returns the bucket that holds the key and its value, and the end position exactly for absent keys |
| RobinHashTable.RobinHash.SwapWithBucket | include/tsl/robin_hash.h:253-268 | the bucket afterwards holds the carried element, the resident is carried, and nothing else has changed |
| RobinHashTable.RobinHash.PlaceInBucket | include/tsl/robin_hash.h:240-251 | the carried element is in the empty bucket and the map has gained it |
| RobinHashTable.RobinHash.Displace | include/tsl/robin_hash.h:1251-1268 | one round of the displacing loop keeps the table and the carried element together the same map, gets nearer to an empty bucket, and sets the growth flag exactly on a steal after a long probe in a loaded table |
| RobinHashTable.RobinHash.InsertValue | include/tsl/robin_hash.h:1244-1271 | the stolen bucket holds the inserted key at the end, the map has gained it, and the growth flag is set exactly when some resident was displaced after 128 probes at a load of at least 15 percent |
| RobinHashTable.RobinHash.InsertOnRehash | include/tsl/robin_hash.h:1295-1312 | one element finds its place in the new array and the new map has gained it |
| RobinHashTable.RobinHash.MoveElement | include/tsl/robin_hash.h:1279-1290 | moving one element, by its stored hash or its full one, extends the new table by exactly that element |
| RobinHashTable.RobinHash.MoveElements | include/tsl/robin_hash.h:1274-1293 | the new table satisfies the invariant and holds the same map |
| RobinHashTable.RobinHash.RehashImpl | include/tsl/robin_hash.h:1274-1293 | the map is unchanged; the bucket count is the least the policy offers for the count asked for; it fails exactly where the policy or the allocator refuses, and then changes nothing |
| RobinHashTable.RobinHash.Rehash | include/tsl/robin_hash.h:1062-1065 | afterwards the bucket count is not below the one asked for, the elements fit under the load factor, and no smaller count the policy offers has both; it fails exactly where the policy or the allocator refuses |
| RobinHashTable.RobinHash.Reserve | include/tsl/robin_hash.h:1067-1069 | afterwards the elements announced and those there fit under the load factor, and in no smaller count the policy offers |
| RobinHashTable.RobinHash.Grow | include/tsl/robin_hash.h:1324-1329 | growing yields the count that follows the present one under the policy, and a bucket to spare after one more element |
| RobinHashTable.RobinHash.RehashOnExtremeLoad | include/tsl/robin_hash.h:1323-1341 | grows to the following count when asked to or when one more element would not fit under the load factor, shrinks to the least count in which it fits when asked to and the load is below the minimum, keeps the count otherwise; throws exactly when the buckets are refused, clears both flags, and leaves a bucket empty |
| RobinHashTable.RobinHash.SeekPlace | include/tsl/robin_hash.h:1193-1201 | the second probe loop after a rehash ends at the first bucket the new key may take |
| RobinHashTable.RobinHash.InsertAt | include/tsl/robin_hash.h:1204-1219 | the bucket of the insertion holds the key although later residents are displaced; the map gains it, and the growth flag is set exactly when one of them was displaced after a long probe in a loaded table |
| RobinHashTable.RobinHash.Insert | include/tsl/robin_hash.h:1176-1220 | insertion adds an absent key, leaves the value of a present one, returns the bucket that holds it, and throws exactly when a due rehash is refused; for a present key nothing changes at all, for an absent one the shrink flag is cleared and the growth flag is that of the table after the rehash, or set by a long displacement |
| RobinHashTable.RobinHash.InsertAbsent | include/tsl/robin_hash.h:1186-1220 | for an absent key the bucket count stays as long as one more element fits under the load factor and no flag asks for a rehash; elements that fitted before still fit, but in a table too small for one |
| RobinHashTable.RobinHash.InsertOrAssign | include/tsl/robin_hash.h:752-760 | afterwards the key has the value given, whether it was there or not; the bucket returned holds both |
| RobinHashTable.RobinHash.InsertHint | include/tsl/robin_hash.h:722-729 | whatever the hint points to, an absent key is added, a present one keeps its value, and the bucket returned holds the key |
| RobinHashTable.RobinHash.InsertRange | include/tsl/robin_hash.h:731-748 | the elements are inserted in order, so the first of equal keys wins, up to the first refused rehash; if the reservation is refused none is; where the elements announced did not fit under the load factor the table has room for all of them afterwards |
| RobinHashTable.RobinHash.EraseFromBucket | include/tsl/robin_hash.h:1149-1173 | the map has lost exactly that key; every element between it and where the shift stopped has moved back one bucket and no other has moved |
| RobinHashTable.RobinHash.EraseKey | include/tsl/robin_hash.h:883-898 | erases the key if it is there, returns how many were erased, and asks for shrinking only then |
| RobinHashTable.RobinHash.Begin | include/tsl/robin_hash.h:653-660 | the first full bucket, or the end |
| RobinHashTable.RobinHash.Increment | include/tsl/robin_hash.h:462-474 | the next full bucket or the end, reached through the last-bucket marker alone |
| RobinHashTable.RobinHash.Traverse | include/tsl/robin_hash.h:462-474 | from begin to end each full bucket is visited once, in order, and no empty one |
| RobinHashTable.RobinHash.EraseIterator | include/tsl/robin_hash.h:807-821 | exactly the pointed-to element goes, what is returned is the next element still to be visited, and nothing moves into the buckets already visited |
| RobinHashTable.RobinHash.EraseIf | include/tsl/robin_hash.h:807-821 | the loop that erases through iterators ends with exactly the elements it had to keep, and asks for shrinking only if it erased one |
| RobinHashTable.RobinHash.Clear | include/tsl/robin_hash.h:706-713 | the table is the empty map on the same buckets; the growth flag is cleared, the shrink flag is not |
| RobinHashTable.RobinHash.ShiftAfterRange | include/tsl/robin_hash.h:854-875 | the shift moves elements only into empty buckets, keeps the map, stops at the array end, and the returned bucket holds the first element behind the range |
| RobinHashTable.RobinHash.RemoveRange | include/tsl/robin_hash.h:827-880 | removes exactly the elements of the range; the invariant holds afterwards if and only if the range was detached |
| RobinHashTable.RobinHash.EraseRange | include/tsl/robin_hash.h:827-880 | removes exactly the elements of the range and returns the first survivor behind it; the table stays valid if and only if no element wrapped round the array end is left behind, otherwise the element in bucket 0 is stored but not found |
| RobinHashTable.WrappedChainIsNotDetached | include/tsl/robin_hash.h:850-875 | a table of four buckets in which erasing the last bucket as a range strands the element in bucket 0 |
| RobinHashTable.RobinHash.Create | include/tsl/robin_hash.h:501-530 | the constructor throws exactly where the count is refused and otherwise yields the empty map on the least bucket count offered, with the load factors clamped, its hash function and no rehash asked for |
| RobinHashTable.RobinHash.SetMaxLoadFactor | include/tsl/robin_hash.h:1056-1060 | the factor is clamped, the map untouched, and from then on growth is due exactly when asked for or when one more element would not fit under the new factor |
| RobinHashTable.RobinHash.SetMinLoadFactor | include/tsl/robin_hash.h:1051-1054 | the factor is clamped, the map untouched |
| RobinHashTable.Run | include/tsl/robin_hash.h:1131-1341 | over every sequence of insertions, assignments, erasures, rehashes, reservations, clears and load factor changes the table is the finite map those operations make, and it stops only at an operation that throws |
| VisitedLists.VisitedList.Reset | src/cpp/visited_list_pool.h:21-27 | no node is visited after a reset, also when the counter wraps or the array was never initialised |
| VisitedLists.VisitedList.Mark | src/cpp/hnswalg.h:203-203 | marking inserts into the set |
| VisitedLists.VisitedList.IsVisited | src/cpp/hnswalg.h:202-202 | the tag test is membership in the set |
| VisitedLists.VisitedListPool.Get | src/cpp/visited_list_pool.h:49-62 | hands out a list nobody else holds, denoting the empty set, and disturbs no outstanding list; it is the front of the pool, and a new one exactly when the pool is empty |
| VisitedLists.VisitedListPool.Mark | src/cpp/hnswalg.h:203-203 | marking through one outstanding list changes no other |
| VisitedLists.VisitedListPool.Release | src/cpp/visited_list_pool.h:64-67 | pooled and outstanding lists together remain the lists created |
| BeamSearch.ClosedHoldsReached | src/cpp/hnswalg.h:169-219 | a set that holds the start and the neighbours of its members holds everything reachable |
| BeamSearch.NodeAccepted | src/cpp/hnswalg.h:207-217 | taking a near node into the beam, and dropping the worst when it is full, keeps the beam the ef nearest of the visited nodes |
| BeamSearch.NodeRejected | src/cpp/hnswalg.h:207-217 | a node refused by a full beam is no nearer than anything in it |
| BeamSearch.LookAt | src/cpp/hnswalg.h:206-217 | one visited neighbour keeps what the search knows |
| BeamSearch.SearchEnds | src/cpp/hnswalg.h:169-219 | when the loop ends, by the empty queue or by the break, every node in the beam has been expanded |
| BestFirst.BeatenIsNoNearer | src/cpp/hnswalg.h:173-175 | a node that as many others beat as the beam is wide is no nearer than a candidate the beam has room for |
| BestFirst.ExplorationIsUnique | src/cpp/hnswalg.h:169-219 | without ties the nodes are expanded in one order only, and the exploration ends at one place only |
| BeamSearch.CandidateIsNext | src/cpp/hnswalg.h:171-176 | the nearest candidate within the bound is what a best-first exploration expands next: met, not expanded, no farther than any other such node, and with fewer than ef nodes nearer than it |
| BeamSearch.ExplorationEnds | src/cpp/hnswalg.h:171-175 | the break, and running out of candidates, come exactly when every node met is expanded or beaten by ef others |
| BeamSearch.ResultIsUnique | src/cpp/hnswalg.h:155-223 | without ties layer, distances, start and width determine the result of a search, the nodes it evaluates and those it expands |
| BeamSearch.LocallyClosed | src/cpp/hnswalg.h:155-223 | a neighbour of a returned node is returned too, or the result is full and the neighbour is no nearer than any of it |
| BeamSearch.NearestOfVisited | src/cpp/hnswalg.h:155-223 | what is returned is the ef nearest of all nodes evaluated |
| BeamSearch.WideBeamIsExact | src/cpp/hnswalg.h:226-294 | if the beam is at least as wide as what is reachable from the start, exactly the reachable nodes are returned |
| NeighborHeuristic.PruningChooses | src/cpp/hnswalg.h:309-328 | choosing the nearest remaining candidate that no chosen one shadows keeps what the loop relies on |
| NeighborHeuristic.PruningRejects | src/cpp/hnswalg.h:316-325 | so does rejecting one that is closer to a chosen element than to the query |
| NeighborHeuristic.IsGood | src/cpp/hnswalg.h:315-325 | the inner loop tells whether a chosen element is closer to the candidate than the query is |
| NeighborHeuristic.GetNeighborsByHeuristic2 | src/cpp/hnswalg.h:296-337 | fewer than M candidates are all kept; otherwise at most M are, among them a nearest one, each at least as far from every earlier chosen one as from the query, and each rejected one is shadowed by a chosen one or came after M no farther ones |
| NeighborHeuristic.ChosenAtMost | src/cpp/hnswalg.h:356-358 | what the heuristic keeps never exceeds M, so the check for too many candidates does not fail |
| HnswGraph.ReachedExists | src/cpp/hnswalg.h:155-223 | a search on a level from a node of that level meets only nodes of that level, and never one nobody points to |
| HnswGraph.ListReplaced | src/cpp/hnswalg.h:352-453 | replacing one list by a good one keeps the whole graph good |
| HnswGraph.NodeAdded | src/cpp/hnswalg.h:661-698 | a new element with blank lists keeps the graph good and nobody points to it |
| Hnsw.AppendKeepsGood | src/cpp/hnswalg.h:412-415 | appending a new id to a list with room keeps it good |
| Hnsw.PrunedIsGood | src/cpp/hnswalg.h:415-437 | ids kept from a good list and the new element form a good list |
| Hnsw.HierarchicalNSW.SearchLayer | src/cpp/hnswalg.h:155-294 | both beam searches make a complete best-first exploration from the start, no longer and no shorter, and return the ef nearest of the nodes it meets, all of them expanded |
| Hnsw.HierarchicalNSW.DescendLevel | src/cpp/hnswalg.h:708-727 | every round moves to the first nearest of the neighbours, if one is nearer, and the last one ends on a node that has no nearer neighbour; no error is raised |
| Hnsw.HierarchicalNSW.Descend | src/cpp/hnswalg.h:702-729 | one such walk on each level from the highest down to just above the one asked for, each from where the one above has ended |
| GreedyDescent.DescentEnds | src/cpp/hnswalg.h:702-729 | a descent ends no farther than it starts, on a node that has no nearer neighbour on the last level |
| GreedyDescent.WalkIsUnique | src/cpp/hnswalg.h:708-727 | list, distances and start determine every hop on a level, ties included |
| GreedyDescent.DescentIsUnique | src/cpp/hnswalg.h:702-729 | links, distances and start determine where a descent ends |
| Hnsw.HierarchicalNSW.KeepPruned | src/cpp/hnswalg.h:429-437 | the rewritten list holds exactly what the heuristic keeps, the farthest first |
| Hnsw.HierarchicalNSW.PrunedList | src/cpp/hnswalg.h:415-437 | a full list becomes a good one: exactly what the heuristic keeps of its ids and the new element, by their distance to the owner; never empty if it was not |
| Hnsw.HierarchicalNSW.LinkedList | src/cpp/hnswalg.h:395-450 | no error is raised; the new id is appended while there is room, otherwise the list is pruned |
| Hnsw.HierarchicalNSW.OwnList | src/cpp/hnswalg.h:367-390 | the blank list receives exactly the selected ids; none of the three errors is raised |
| Hnsw.HierarchicalNSW.ConnectBackAll | src/cpp/hnswalg.h:391-452 | every selected neighbour answers, no other list changes, and the graph stays good |
| Hnsw.HierarchicalNSW.MutuallyConnectNewElement | src/cpp/hnswalg.h:352-453 | no error is raised; the new list holds exactly the chosen neighbours, the farthest first, exactly these answer, and no list loses its last entry |
| Hnsw.HierarchicalNSW.StoreElement | src/cpp/hnswalg.h:663-698 | the element gets the next id, blank lists, its label and vector; the label leads to it, nobody points to it |
| Hnsw.HierarchicalNSW.ConnectLevel | src/cpp/hnswalg.h:731-738 | one level of an insertion is one search and one linking from its result |
| Hnsw.HierarchicalNSW.ConnectLevels | src/cpp/hnswalg.h:731-738 | every level from the smaller maximum down to 0 is linked, each once, all searches starting from the same node |
| Hnsw.HierarchicalNSW.ConnectElement | src/cpp/hnswalg.h:699-739 | the start of these searches is where the greedy descent from the entry point ends, down to just above the element's level |
| Hnsw.HierarchicalNSW.EnterGraph | src/cpp/hnswalg.h:699-752 | the levels are linked from where the descent from the old entry point ends; the new element becomes entry point exactly if its level exceeds the maximum |
| Hnsw.HierarchicalNSW.AddPoint | src/cpp/hnswalg.h:661-754 | fails exactly when the index is full; otherwise the graph invariant holds, vectors, levels and labels have grown by the element, the links come from one step per level, and all steps start where the greedy descent from the old entry point ends, level by level from the old maximum level |
| Hnsw.HierarchicalNSW.AddPoints | src/cpp/hnswalg.h:661-754 | any sequence of insertions keeps the invariant and succeeds until the index is full; vectors, levels and labels are those given, in order, and each label leads to the vector last added under it |
| Hnsw.ListSettled | src/cpp/hnswalg.h:731-738 | a level linked earlier in an insertion is not disturbed by the lower ones: the element has a neighbour on each of them if M is at least 1 |
| Hnsw.LevelSettled | src/cpp/hnswalg.h:731-738 | seen as a whole, an insertion writes on each of its levels the new list and the answers of its ids, and changes no other list on any level |
| Hnsw.AnswerIsGood | src/cpp/hnswalg.h:395-450 | in whichever way a good list answers a link it stays good, and only the new id can join it |
| Hnsw.NobodyLeftAlone | src/cpp/hnswalg.h:661-754 | from two elements on every element has a neighbour on the base layer, if M is at least 1, and an insertion keeps it so |
| UniqueInsertion.PrunedIsUnique | src/cpp/hnswalg.h:296-337 | without ties the heuristic keeps one selection, taken in one order |
| UniqueInsertion.HandedOutIsUnique | src/cpp/hnswalg.h:361-366 | without ties a queue hands its ids out in one order, so a list has one content |
| UniqueInsertion.AnswerIsUnique | src/cpp/hnswalg.h:391-452 | without ties a list answers a link in one way, slot by slot |
| UniqueInsertion.StepIsUnique | src/cpp/hnswalg.h:731-738 | without ties one level of an insertion leaves one graph |
| UniqueInsertion.InsertionIsUnique | src/cpp/hnswalg.h:661-754 | without ties among the elements the links before an insertion into a good graph, the new element and its level determine the start of its searches and every list after it, slot by slot |
| Hnsw.HierarchicalNSW.GetItem | src/cpp/hnswindex.h:78-86 | the vector last added under the label, nothing for a label never added |
| Hnsw.HierarchicalNSW.EntryIsNear | src/cpp/hnswalg.h:757-781 | the start of a search is no farther than the entry point, and no neighbour of it on level 1 is nearer |
| Hnsw.HierarchicalNSW.SearchKnn | src/cpp/hnswalg.h:756-796 | the k nearest of what the base-layer search with width max(ef, k) delivers, under their labels; it starts where the greedy descent from the entry point ends, down from the maximum level |
| HnswIndex.DrainAscending | src/cpp/hnswindex.h:109-116 | the arrays hold the whole result, by ascending distance |
| HnswIndex.WideQueryIsExact | src/cpp/hnswindex.h:98-117 | a beam as wide as what is reachable makes the answer the k nearest of all reachable nodes |
| HnswIndex.KnnQuery | src/cpp/hnswindex.h:98-117 | the arrays hold the k nearest of what the search from the end of the descent delivers, ascending, under their labels |
| HnswIndex.KNearestIsUnique | src/cpp/hnswalg.h:786-788 | without ties the k nearest of a result and their order are determined |
| HnswIndex.NearestRelabelled | src/cpp/hnswalg.h:790-794 | the k nearest nodes under their labels are the k nearest of all nodes under theirs, also when labels repeat |
| AnswerHeap.FrontIsLargest | src/cpp/KnnIndex.h:73-73 | the front of a heap is its largest element by distance, and by label among equal distances |
| AnswerHeap.PushHeap | src/cpp/KnnIndex.h:71-71 | std::push_heap: a heap of the same elements |
| AnswerHeap.PopHeap | src/cpp/KnnIndex.h:74-74 | std::pop_heap: the largest at the back, the rest a heap |
| AnswerHeap.ReplaceWorst | src/cpp/KnnIndex.h:74-76 | the largest element is replaced by the new one and the heap order kept |
| AnswerHeap.Offer | src/cpp/KnnIndex.h:69-78 | the heap of the k nearest answers so far takes in one more |
| AnswerHeap.NearestOfUnion | src/cpp/KnnIndex.h:65-80 | looking only at the k nearest of a part loses nothing |
| AnswerHeap.MergeIsBruteForce | src/cpp/KnnIndex.h:65-80 | if every index answers with its k nearest, the k nearest answers are the k nearest elements of all indices |
| KnnIndexes.AnswerIsUnique | src/cpp/KnnIndex.h:65-66 | without ties among the distances of its elements an index has exactly one answer to a query: start, nodes evaluated, nodes returned and their order |
| KnnIndexes.WideAnswerIsExact | src/cpp/KnnIndex.h:65-66 | an index whose beam is wide enough answers with the k nearest of all its reachable elements |
| KnnIndexes.WideSearchIsExact | src/cpp/KnnIndex.h:53-82 | then the merged result is a brute-force search over the reachable elements of all indices |
| KnnIndexes.KnnIndex.AddExtraItems | src/cpp/KnnIndex.h:34-36 | an extra item is added unless its label is taken; one already there stays; it fails exactly when the label is new and a due rehash is refused; afterwards there are at least two buckets for every extra item |
| KnnIndexes.KnnIndex.GetItem | src/cpp/KnnIndex.h:38-51 | an extra item, else the item of the first index that knows the label, else nothing |
| KnnIndexes.MergeIndex | src/cpp/KnnIndex.h:65-80 | one index is asked and its answer merged |
| KnnIndexes.KnnIndex.Search | src/cpp/KnnIndex.h:53-82 | the result is a heap of the k nearest among the answers of all indices; each of these comes from a search of that index that starts where its greedy descent ends |
| LittleEndian.RoundTrip | src/cpp/hnswlib.h:34-42 | a number that fits is read back from the bytes it was written to |
| LittleEndian.RoundTripModulo | src/cpp/hnswlib.h:34-42 | any number is read back modulo the range of its width |
| LittleEndian.Canonical | src/cpp/hnswlib.h:34-42 | bytes are determined by the number they store |
| LittleEndian.ByteAt | src/cpp/hnswlib.h:34-42 | byte i of a number is its i-th digit to the base 256 |
| FlatMemory.ElementLies | src/cpp/hnswalg.h:51-73 | which bytes hold an element: size and ids of its base list, vector and label in a block of 4 maxM0 + dataSize + 12 bytes, and the lists of level l at (l - 1)(4 maxM + 4) in a block of its own |
| FlatMemory.BlocksApart | src/cpp/hnswalg.h:51-55 | the blocks of different elements do not overlap |
| FlatMemory.BlockOverwritten | src/cpp/hnswalg.h:134-146 | a write inside one block changes that block only, and there only what is written |
| FlatMemory.SizeWritten | src/cpp/hnswalg.h:377-377 | writing the size word changes the size of the list only |
| FlatMemory.LinkWritten | src/cpp/hnswalg.h:387-387 | writing one slot changes that id of the list only |
| FlatMemory.ZerosAreBlank | src/cpp/hnswalg.h:688-697 | memory set to zero is a blank list |
| FlatMemory.SameListSameBytes | src/cpp/hnswalg.h:340-350 | bytes that hold the same list are the same bytes |
| FlatMemory.BaseListWritten | src/cpp/hnswalg.h:340-346 | a write to the base-layer list leaves the vector, the label and the higher lists of the element alone |
| FlatMemory.UpperListWritten | src/cpp/hnswalg.h:348-350 | a write to the list of one higher level leaves all other lists alone |
| FlatMemory.TableBaseWritten | src/cpp/hnswalg.h:340-346 | a write to a base-layer list changes, in the whole node table, that list of that element only |
| FlatMemory.TableUpperWritten | src/cpp/hnswalg.h:348-350 | so does a write to a higher list |
| FlatMemory.TableStored | src/cpp/hnswalg.h:688-698 | zeroing a block and copying label and vector into it appends one element with blank lists to the node table |
| FlatMemory.LookupIsLast | src/cpp/hnswalg.h:670-670 | the lookup table leads to the last element added under a label |
| FlatMemory.LookupFindsLastAdded | src/cpp/hnswindex.h:78-86 | through the lookup table one gets the vector last added under a label |
| FlatMemory.FlatIndex.constructor | src/cpp/hnswalg.h:35-75 | an index without elements, entry point -1 and maximum level -1, over memory that may hold anything |
| FlatMemory.FlatIndex.Store | src/cpp/hnswalg.h:663-698 | fails exactly when the index is full, and then changes nothing; otherwise the node table has grown by the element with blank lists; the id is the count cut to 32 bits |
| FlatMemory.FlatIndex.GetExternalLabel | src/cpp/hnswalg.h:134-138 | the label read is the one the element was added with |
| FlatMemory.FlatIndex.GetDataByInternalId | src/cpp/hnswalg.h:144-146 | the bytes read are those the element was added with |
| FlatMemory.FlatIndex.GetItem | src/cpp/hnswindex.h:78-86 | after any history of insertions and link writes, the bytes most recently added under the label |
| FlatMemory.FlatIndex.WriteWord | src/cpp/hnswalg.h:340-350 | pointer arithmetic reaches the right list: one list of one element changes |
| FlatMemory.FlatIndex.FillBlank | src/cpp/hnswalg.h:381-389 | the slots receive the ids up to the first one that is not zero or whose element does not reach the level, with the error of that case |
| FlatMemory.FlatIndex.WriteOwnList | src/cpp/hnswalg.h:367-390 | the three errors are told exactly, the first faulty slot included; a list that is not blank is left alone, otherwise it holds the size and the ids before that slot, all of them without an error |
| FlatMemory.FlatIndex.AppendLink | src/cpp/hnswalg.h:396-415 | the id goes behind the last one and the size grows; a size beyond the capacity and a self link are errors, a full list is told to be pruned, and in these cases nothing changes |
| FlatMemory.FlatIndex.RewriteList | src/cpp/hnswalg.h:431-437 | the kept ids come to the front with the new size, what lies behind them stays |
| ByteGraphs.SizeFits | src/cpp/hnswalg.h:377-377 | a list of different ids below 2^32 that leaves out its own element has a size that fits in an unsigned int |
| ByteGraphs.FromTheFront | src/cpp/hnswalg.h:431-437 | a list rewritten from the front is known from its ids and the old list |
| ByteGraphs.AllPending | src/cpp/hnswalg.h:731-738 | after an insertion, all levels from the highest linked one down have gone from blank to the new list and its answers, and the levels above are unchanged |
| ByteGraphs.ByteGraph.AnswerLink | src/cpp/hnswalg.h:391-452 | on the bytes, the list of a selected neighbour becomes the graph's list, appended to or rewritten, whole block included |
| ByteGraphs.ByteGraph.WriteLevel | src/cpp/hnswalg.h:352-453 | mutuallyConnectNewElement on the bytes: without an error the lists of one level in the bytes become those of the graph, and no other list changes |
| ByteGraphs.ByteGraph.AddPoint | src/cpp/hnswalg.h:661-754 | addPoint on bytes and graph: both keep holding the same elements, lists, labels and entry point, no write raises an error, and the lists in the bytes have changed as the insertion says |
| IndexFile.HeaderRoundTrip | src/cpp/hnswalg.h:503-516 | the thirteen header fields are read back as written, negative maximum level included |
| IndexFile.HeaderCanonical | src/cpp/hnswalg.h:539-557 | any 96 bytes are the header of something |
| IndexFile.FileUnique | src/cpp/hnswalg.h:499-527 | different contents give different files |
| IndexFile.PreScan | src/cpp/hnswalg.h:566-585 | the scan flags a file as old exactly when what follows the base memory is not one sized block for each element |
| IndexFile.LevelSurvives | src/cpp/hnswalg.h:521-521 | an element keeps its level through a file exactly when the size of its higher lists fits in an unsigned int |
| IndexFile.SaveIndex | src/cpp/hnswalg.h:499-527 | which bytes hold which field of the index: the thirteen fields at their places in the first 96 bytes, then the base memory in use, then a sized block of higher lists for each element |
| IndexFile.FieldsIn | src/cpp/hnswalg.h:503-516 | the fields read at these places from a saved file are those of the index |
| IndexFile.RestoreElements | src/cpp/hnswalg.h:616-629 | levels and higher lists are those of the file and the lookup table is rebuilt with the last writer winning |
| IndexFile.LoadIndex | src/cpp/hnswalg.h:529-633 | a file is loaded exactly when it is a saved image whose header matches; the index then holds its elements, parameters, entry point and lookup table; a saved file is never taken for an old one |
| IndexFile.SavedTableExactly | src/cpp/hnswalg.h:520-525 | the image holds the same elements as the index if and only if all sizes of higher lists fit in an unsigned int |
| IndexFile.SaveThenLoad | src/cpp/hnswalg.h:499-633 | saving and loading always gives a valid index with the same lookup table, count, entry point, maximum level, layout, M, mult and ef_construction, and the capacity asked for unless it is below the count; it has the same elements, levels, links, vectors and labels if and only if all sizes of higher lists fit in an unsigned int; ef is 10 again |
| IndexFile.SavedImageTable | src/cpp/hnswalg.h:518-526 | the same condition for the image of an index; its labels are in any case those of the index |
| IndexFile.TallElementIsCut | src/cpp/hnswalg.h:521-521 | with M = 16 an element of level 63161284 comes back on level 0 |
| ConcurrentInsert.StepAdvances | src/cpp/hnswalg.h:661-754 | no step takes visibility back: a node once open on a level stays open, the maximum level never falls |
| ConcurrentInsert.LocksStep | src/cpp/hnswalg.h:673-712 | every held lock belongs to the one call whose phase says so |
| ConcurrentInsert.GlobalStep | src/cpp/hnswalg.h:681-684 | the global lock is held exactly by the call that has not released it |
| ConcurrentInsert.SelectedFew | src/cpp/hnswalg.h:355-365 | whatever the heuristic keeps of the nodes a call has seen are at most M different ones of them |
| ConcurrentInsert.LinksGrow | src/cpp/hnswalg.h:391-452 | a step adds to the list of another node at most the node of its own call, and only where this one is being asked |
| ConcurrentInsert.UnansweredStep | src/cpp/hnswalg.h:391-391 | the selected neighbours a call has still to ask never come to know its node in another way |
| ConcurrentInsert.ListsStep | src/cpp/hnswalg.h:367-452 | every list stays good: within capacity, no repetitions, no self link, only nodes of its level; it holds only nodes opened on the level, and all its slots are blank until its own node is opened |
| ConcurrentInsert.EntryStep | src/cpp/hnswalg.h:741-752 | while a maximum level is set, the entry point is a finished node of at least that level |
| ConcurrentInsert.LockedIsDone | src/cpp/hnswalg.h:180-180 | a seen node whose lock another call obtained has a finished inserter |
| ConcurrentInsert.InvStep | src/cpp/hnswalg.h:661-754 | every step of every call keeps the invariant |
| ConcurrentInsert.InvHolds | src/cpp/hnswalg.h:661-754 | the invariant holds in every state of every run, with any number of calls in any interleaving |
| ConcurrentInsert.NothingThrows | src/cpp/hnswalg.h:352-740 | in no interleaving does a call raise one of the errors of searching, descending or linking, nor use a list that does not exist: too many candidates, a list that is not blank, memory corruption, a size beyond the capacity, a self link, a level that does not exist, a bad candidate |
| ConcurrentInsert.EveryListServes | src/cpp/hnswalg.h:352-740 | in every state of every interleaving a call about to read a list finds it with existing elements only, its own list blank and its selected neighbours on the level, and a neighbour to ask another element within its capacity |
| ConcurrentInsert.GraphIsGood | src/cpp/hnswalg.h:661-754 | in every state of every interleaving the link lists form a good graph: within capacity, without repetitions or self links, and only with links to elements that reach the level |
| ConcurrentInsert.WaitsForLower | src/cpp/hnswalg.h:180-180 | a blocked call waits for one that is not blocked, or lower in the order of level, phase and time linking began |
| ConcurrentInsert.ChainDescends | src/cpp/hnswalg.h:393-393 | along a chain of waiting calls this order falls |
| ConcurrentInsert.NoDeadlock | src/cpp/hnswalg.h:661-754 | in no interleaving is there a cycle of calls waiting for each other's locks, the global one included, and no call waits for itself |
| ConcurrentInsert.AlwaysProgress | src/cpp/hnswalg.h:661-754 | as long as a call is unfinished some call can take a step |
| SequentialRuns.DescentGoes | src/cpp/hnswalg.h:702-729 | a greedy descent of the sequential index is a sequence of steps of a call that is alone |
| SequentialRuns.AllKnown | src/cpp/hnswalg.h:169-219 | a call that is alone can come to know every node its search reaches |
| SequentialRuns.LevelGoes | src/cpp/hnswalg.h:731-738 | one level of a sequential insertion, its search, its choice, its own list and all answers, is a sequence of steps of a call that is alone |
| SequentialRuns.InsertionIsRun | src/cpp/hnswalg.h:661-754 | for every sequential insertion into a good graph, with its descent, neighbours, level, entry point and maximum level, the steps of one call lead from its arrival to its return and leave the same lists, entry point and maximum level |
| SequentialRuns.FirstIsRun | src/cpp/hnswalg.h:741-745 | so do those of the first call |
| SequentialRuns.AddPointAsRun | src/cpp/hnswalg.h:661-754 | addPoint of the sequential index leads to the state one call of the step relation leads to |
| SequentialRuns.AddPointsAsRun | src/cpp/hnswalg.h:661-754 | any sequence of sequential insertions leads to the state of a run of the step relation |
| InsertHistories.OwnListHolds | src/cpp/hnswalg.h:367-390 | in every state of every run the list of a call that is linking a level holds exactly what it has selected, in that order |
| InsertHistories.SelectedRemain | src/cpp/hnswalg.h:367-390 | over every run this list stays as it is on that level until the call returns |
| InsertHistories.ReadIsKnown | src/cpp/hnswalg.h:180-217 | over every run a call that reads the list of a node it knows knows from then on exactly what it knew and what the list held |
| InsertHistories.PassedAreAsked | src/cpp/hnswalg.h:391-452 | over every run a call has asked every selected neighbour it has passed |
| InsertHistories.AccessUnderLock | src/cpp/hnswalg.h:180-712 | over every run a list is read, and its content changed, only by the call that holds the lock of its node |
| InsertHistories.LevelFinished | src/cpp/hnswalg.h:352-453 | over every run, when a call leaves a level its list there is what it selected, and it has asked each of these |
| Lanes.BlockAdded | src/cpp/space_l2.h:37-51 | adding a block of terms to the lanes adds them to the sum of the lanes |
| Lanes.HalvesAdded | src/cpp/space_ip.h:52-52 | adding the two halves of a register keeps its sum |
| SpaceL2.DistanceSeparates | src/cpp/space_l2.h:6-19 | the distance is symmetric, never negative, and zero between equal vectors only |
| SpaceL2.L2Sqr | src/cpp/space_l2.h:6-19 | the scalar loop computes the sum of the squared differences |
| SpaceL2.L2SqrSIMD16ExtAvx | src/cpp/space_l2.h:25-58 | the kernel of eight lanes with its tail is the squared Euclidean distance |
| SpaceL2.L2SqrSIMD16ExtSse | src/cpp/space_l2.h:63-111 | so is the kernel of four lanes unrolled four times |
| SpaceL2.L2SqrSIMD4Ext | src/cpp/space_l2.h:117-145 | and the one in steps of four |
| SpaceL2.L2Space.Compute | src/cpp/space_l2.h:154-164 | for every dimension and instruction set the kernel chosen computes the squared Euclidean distance |
| SpaceIp.InnerProduct | src/cpp/space_ip.h:7-15 | the scalar loop computes one minus the inner product |
| SpaceIp.InnerProductSIMD4ExtAvx | src/cpp/space_ip.h:20-65 | rounds of sixteen and of four: all terms but those behind the last four |
| SpaceIp.InnerProductSIMD4ExtSse | src/cpp/space_ip.h:70-123 | the same with four lanes |
| SpaceIp.InnerProductSIMD16ExtAvx | src/cpp/space_ip.h:130-163 | all terms but those behind the last sixteen |
| SpaceIp.InnerProductSIMD16ExtSse | src/cpp/space_ip.h:168-210 | the same with four lanes |
| SpaceIp.ExactWithoutTail | src/cpp/space_ip.h:21-65 | a kernel without a tail is exact if and only if the products it leaves out add up to zero; a multiple of the block size leaves none out |
| SpaceIp.InnerProductSpace.Compute | src/cpp/space_ip.h:220-230 | for every dimension and instruction set the kernel chosen computes one minus the inner product |

## Left out

- The legacy branch of loadIndex for old files: a file the scan flags is reported as old and not read further.
- Files whose header does not match the vector size of the space, or whose elements exceed the capacity: loadIndex does not check this; they are reported as unsound and not read.
- searchKnnInternal, which nothing calls and whose queue types do not match; getDataByLabel, getIdsList, setEf.
- The gRPC server, the country map, the loaders and transcoders, JNI and C headers, `normalize` and the weighted averages.
- robin_map and robin_set, which forward to robin_hash; operator[], at, count, equal_range, copy, move and swap of tables.
- The floating-point growth of mod_growth_policy, and size_t of 32 bits: hashes and counts are unbounded or 64-bit.
- Float rounding, NaN and infinities: distances and load factors are reals.
- The int16 range of stored probe distances: distances are unbounded integers, assumed to fit.
- A table compiled without stored hashes keeps no hash in its buckets: the model keeps it always and consults it only where the flags allow.
- Exceptions other than those modelled as results, allocators, destructors and malloc or free lifetimes; the one allocation limit of a table is a parameter.
- Value moves and moved-from states; keys and values are values.
- Equality of keys other than `==`, and hash functions that disagree with it.
- std::priority_queue and std::unordered_map are taken by contract; std::push_heap and std::pop_heap are one implementation among those their contract allows.
- The visited array inside the searches is a set; that the epoch tags refine sets is shown in VisitedLists.
- The searches of the sequential model read link lists from arrays of values; ByteGraph shows that the bytes hold the same lists, and does not repeat the searches on bytes.
- ef of 0 acts as 1 in searchBaseLayerST; M of 0 is allowed and links nothing.
- Hnsw.HierarchicalNSW.SearchKnn: only asked of an index with elements, because the source reads the vector of the entry point -1 of an empty one.
- RobinHashTable.RobinHash.EraseRange: `last` is the end or points to an element, as every iterator of the table does.
- SpaceIp.InnerProduct: the 32-bit loop counter of the scalar kernel is unbounded; it would not end for 2^32 dimensions or more.
- The integer kernel L2SqrI and its space, which no index uses.
- FlatMemory.FlatIndex.Store: an index of more than 2^32 elements gives ids a second time; which id an element gets is stated, what becomes of the node table is stated only below.
- ByteGraphs.ByteGraph.AddPoint: only for capacities up to 2^32, for the same reason; the searches run on the graph, the byte form repeats its choices.
- IndexFile.LoadIndex: an old file or one with an unsound header is told apart and not read, where the source reads on.
- The random level generator, prefetching and the timing metrics.
- Queries that run beside insertions: searchBaseLayerST reads lists without locks and nothing is claimed of it.
- The guards of the element counter and of the visited-list pool in concurrent insertion: each is held for a few assignments with no other lock taken inside, so taking the next id is one step and the pool none.
- The capacity check in concurrent insertion: a call that is refused at once takes no part.
- Weak memory: every unsynchronised read of the entry point and the maximum level is one atomic step.
- Termination of concurrent calls: progress is shown, that a search comes to an end is shown for the sequential one.
- Global connectivity of the graph: pruning can drop links.
