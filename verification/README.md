# A verified model of an approximate nearest neighbour database

The system stores vectors with metadata under 16-byte ids and answers nearest neighbour queries. Items are
spread over partitions. Each partition is a replicated state machine: a Raft group drives it, a write-ahead
log on an ordered key-value store keeps the group's entries, and an HNSW index, a layered graph searched
greedily and best-first, is the state. This project models the parts where the behaviour is hard to see from
the code, in the code's own form: vertices, queues, the index, the write-ahead log and the group are classes
whose methods change fields in place; the loops are loops with invariants; pure arithmetic is functions.

What is proved, from the bottom up:

- **Heaps on a shared array** (`PriorityQueue.dfy`). Push and pop keep the multiset and give the extreme
  item; reversing re-heapifies the same array, and draining the reversed queue to the end leaves the original
  queue a heap with all its items.
- **The graph** (`Graph`, `BeamSearch`, `BeamWalk`, `BeamRuns`, `LevelSearch`, `Greedy`, `Linking`, `LevelLinks`,
  `Weaving`, `Insertion`, `Removal`, `Querying`, `IndexTable`, `Hnsw`, `ReachedAnswers`). Vertices are objects: one id
  can belong to deleted vertices and to a live one. `Snap` reads the heap into a value, `Graph`, about which the
  lemmas reason; the methods are tied to it. Kept by every operation: the structural invariant (edge sets per level,
  no edges to oneself, every length is the distance, ends present at the level), the degree limits, the sharded table
  holding exactly the live vertices, the 64-bit counters. Proved of searches: termination, what is found in general,
  that all is found if it fits, exactly when a turn keeps the result the nearest of all that was visited, and, with
  removals too, exactly when an answer is exact that has all it can reach; proved of whole insert-only runs
  (`ExactRuns`): answers equal those of brute force. `EntrypointRuns` has runs that end with a bad entrypoint.
- **The write-ahead log** (`WalLogs`, `WalStore`, `Wal`, `WalRuns`, `WalKeys`). Disk and three caches refine a
  plain log with a dummy head through appending, truncation, compaction, snapshot installation and restarts.
- **The Raft group** (`RaftGroup`, `RaftRuns`). For whatever etcd's node delivers, and wherever the process dies in the
  middle of a batch: exactly when what is on disk can be recovered, and that it then recovers the state after the
  committed entries.
- **Persistence** (`BigEndian`, `Encoding`, `Metadata`, `IndexBody`, `IndexSave`, `IndexLoad`, `Copies`,
  `Persistence`, `Layout`, `RoundTrip`, `UniqueCodes`, `PartitionRestart`). Saving writes lists in whatever order maps
  are walked; loading builds new vertices from them; the loaded index is isomorphic to the saved one and satisfies every
  invariant again.
- **The partition's state machine** (`Changes`: what each change comes to, said of its items alone; `Partition`: the
  changes carried out on the index; `PartitionReplica`: recovery of a replicated partition, from the snapshot bytes and
  the log on disk to a sound index with what was committed), **the two-level search** (`Merging`, `Collecting`,
  `Dataset`, `DatasetSearch`: a query of a whole dataset against the ranking of everything stored) and **the vector
  kernels** (`Kernels`, and `Metrics`: that the Euclidean and the Manhattan distance are metrics, and that the cosine
  distance lies between 0 and 2).

How numbers are modelled: a distance is a float32 that is neither negative nor NaN, represented by its bit pattern, on
which the order of the floats is the order of the naturals (`Common.Distance`); the distance function of an index is
any symmetric function on vectors, together with the type of its space. Vectors and metadata are opaque 4-byte values
and byte strings. The order in which maps are walked is a nondeterministic choice (`:|`), and so are the random levels
and random node choices (parameters). The kernels are over exact reals.

Where the code does not do what one may expect, the model follows the code:

- The bound in the best-first search is read once per expansion, so the result need not be the nearest of all that
  was visited (`BeamRuns.NearNeighborCanBeLost`). `BeamWalk.EveryOrderKeepsNearest` says exactly for which
  neighbourhoods no walking order can lose a nearer one; for searches see `BeamRuns.RunKeepsNearest` and
  `BeamWalk.NarrowOrWideIsNearest`.
- After removals the entrypoint may be none although items are left (`EntrypointRuns.LoseEntrypoint`), or a deleted
  vertex, which is then found although it is not stored (`EntrypointRuns.FindDeleted`). `Removal.ReplacementIsNone`
  and `Removal.ReplacementIsLive` say exactly when. A saved entrypoint that is no longer stored is loaded as none.
- A snapshot saved at an index that the log still stores is lost, because the deletion of the old entries comes after
  it in the same batch. Raft delivers such a snapshot to a follower whose log has a divergent tail
  (`RaftGroups.DivergentTailLosesSnapshot`); a batch leaves a log on disk exactly if its snapshot lies beyond the
  log (`RaftGroups.LogSurvivesIff`).
- A group that is given node ids is started with etcd's `StartNode`, on a used log too. That commits all that is stored,
  and the peers after it, whether the group has committed it or not (`RaftGroups.StaleTailIsApplied`): the first batch
  is as Raft promises exactly if the whole tail is committed (`RaftGroups.FirstBatchIsPromisedIff`). It also takes the
  term back to 1 and forgets the vote.
- Deleting a group leaves its hard state and snapshot records, which contradict the log that is started on reopening
  (`WalRuns.DeleteAndReopen`).
- An empty index is saved as an empty body, which cannot be loaded (`RoundTrips.SaveAndLoadEmpty`), so an empty
  partition that was snapshotted cannot be started again; and taking a snapshot fails for a partition with items and
  without entrypoint (`PartitionRestarts.SnapshotAndRestart`: contents survive exactly otherwise).
- Loading adds to the byte counter instead of setting it (`RoundTrips.SaveAndLoad`: equal exactly if the counter
  was zero modulo 2^64), and the header does not carry the two heuristic flags (`Persistence.LoadConfig`).
- An update without metadata of an item that has some writes to a nil map and ends the process, since empty
  metadata does not survive marshalling (`Partitions.UpdateOne` says exactly when).
- The channels of a search are closed as soon as all replies are in, even if some still wait to be read. For any
  replies, the search can then end with neither answer nor error exactly if none is a failure, and it can always pass
  over all failures (`Collecting.LateReadings`). Every reading ends as it should exactly if it is prompt and not
  cancelled, or there is nothing to read (`Collecting.EveryReadingIsProperIff`).

## Model

| member | source | states |
|---|---|---|
| `PriorityQueues.RootIsExtreme` | utils/priority_queue.go:143-151 | in a heap no item is ordered before the root, for both orders |
| `PriorityQueues.UpStep` | utils/priority_queue.go:69-75 | one swap of container/heap's sift-up moves the only possible disorder to the parent |
| `PriorityQueues.DownStep` | utils/priority_queue.go:77-83 | one swap of container/heap's sift-down moves the only possible disorder to the extreme child |
| `PriorityQueues.PriorityQueue.Over` | utils/priority_queue.go:42-54 | heapifying in place makes a heap of any array contents without losing an item or touching what lies behind |
| `PriorityQueues.PriorityQueue.Push` | utils/priority_queue.go:69-75 | the queue stays a heap and has exactly one more item |
| `PriorityQueues.PriorityQueue.Pop` | utils/priority_queue.go:77-83 | an extreme item is returned and is exactly what the queue loses; it ends up right behind the queue in the array |
| `PriorityQueues.PriorityQueue.Peek` | utils/priority_queue.go:85-91 | an extreme item of the queue |
| `PriorityQueues.PriorityQueue.Reverse` | utils/priority_queue.go:93-106 | a queue of the opposite order with the same items, on the same array |
| `PriorityQueues.PriorityQueue.Drain` | utils/priority_queue.go:108-117 | popping to the end gives all items in order and leaves them reversed in the array |
| `PriorityQueues.ReversedOrderIsHeap` | utils/priority_queue.go:93-106 | what one order pops, backwards, is a heap of the other order |
| `PriorityQueues.DrainReversed` | utils/priority_queue.go:93-117 | draining the reversed queue to the end leaves the original, whose array it shares, a heap with its original items |
| `Nearest.NearestAgree` | index/hnsw.go:361-417 | any two choices of k nearest have the same distances, position by position, so either selection algorithm keeps equally near neighbours |
| `Selection.SelectNeighbors` | index/hnsw.go:361-367 | popping the farthest until k are left keeps k nearest |
| `Selection.SelectNeighborsHeuristic` | index/hnsw.go:369-417 | without extension, whether or not pruned candidates are kept, the result is k nearest |
| `Graphs.ReachIsLeast` | index/hnsw.go:314-359 | what can be reached through live vertices is the least set closed under live edges |
| `Graphs.Vertex.constructor` | index/hnsw_vertex.go:27-38 | a vertex has level + 1 empty edge sets and is not deleted |
| `Graphs.Vertex.AddEdge` | index/hnsw_vertex.go:81-86 | in the whole graph exactly one edge set changes, by one edge |
| `Graphs.Vertex.RemoveEdge` | index/hnsw_vertex.go:88-93 | in the whole graph exactly one edge set changes, by losing one edge |
| `Graphs.Vertex.SetEdges` | index/hnsw_vertex.go:102-107 | in the whole graph exactly one edge set is replaced |
| `Graphs.Vertex.SetDeleted` | index/hnsw_vertex.go:60-62 | in the whole graph exactly one vertex becomes deleted and keeps its edges |
| `BeamSearch.AcceptAndEvict` | index/hnsw.go:343-352 | accepting into a full result and dropping the farthest keeps the result the nearest of all accepted, never loses the closest of all visited, and keeps every distance exact |
| `BeamSearch.Reject` | index/hnsw.go:343-352 | not accepting a vertex keeps the same invariants, and cannot happen if everything reachable fits |
| `BeamSearch.Finish` | index/hnsw.go:324-358 | a search that stops has visited all live neighbours of what it found, and has found everything reachable if that fits |
| `BeamWalk.EveryOrderKeepsNearest` | index/hnsw.go:332-354 | if the result is the ef nearest of all visited before a vertex is expanded, it is so afterwards for every order of walking its unseen live neighbours if and only if: those nearer than the bound fill the result, or all of them fit, or those not nearer than the bound are equally far |
| `BeamWalk.AnyOrderKeepsNearest` | index/hnsw.go:332-354 | one half of it, for one walk |
| `BeamWalk.SomeOrderLoses` | index/hnsw.go:332-354 | the other half: otherwise there is an order, and a walk in it, that turns away a nearer neighbour than one it keeps |
| `BeamWalk.NarrowOrWideIsNearest` | index/hnsw.go:314-359 | a completed search for at most one result, or for at least as many as can be reached, holds the nearest of all visited |
| `BeamRuns.RunKeepsNearest` | index/hnsw.go:314-359 | a search, as a run of turns, none of which depends on a walking order, holds the nearest of all that it visited |
| `BeamRuns.NearNeighborCanBeLost` | index/hnsw.go:314-359 | a whole search for two, from a vertex at 1 with neighbours at 5 and 3 in this order: it ends complete, with the 5 and without the 3 |
| `LevelSearch.Expand` | index/hnsw.go:332-354 | the inner loop is such a walk through exactly the unseen live neighbours, in some order |
| `LevelSearch.ExpandNearest` | index/hnsw.go:324-355 | a turn of the outer loop expands the nearest candidate, by such a walk, under the bound of the farthest result, or stops because the candidate is beyond it |
| `LevelSearch.BestFirst` | index/hnsw.go:324-355 | the whole loop is a run of such turns from the start, and ends with nothing left to expand that was found |
| `LevelSearch.SearchLevel` | index/hnsw.go:314-359 | terminates; the result holds min(max(ef,1), accepted) distinct reachable vertices with exact distances, the nearest of those accepted; its nearest is no farther than anything visited; all live neighbours of results were visited; complete if the reachable vertices number at most ef; the nearest of all visited if no turn depends on the walking order; the graph is unchanged |
| `Greedy.GreedyClosestNeighbor` | index/hnsw.go:289-312 | terminates, and has walked from each vertex to the nearest of its live neighbours as long as that is nearer; where it ends no live neighbour is closer than the returned distance |
| `Greedy.WalksAgree` | index/hnsw.go:289-312 | if no two reachable vertices are equally far, two such walks from the same vertex are the same, in whatever order edges are walked |
| `Greedy.DescentEndsNearest` | index/hnsw.go:99-103 | where a descent ends, no live neighbour on the lowest level that it walked is nearer |
| `LevelLinks.PruneNeighbors` | index/hnsw.go:419-444 | what is left are k nearest of the live edges, no deleted one, under either algorithm; no other edge set changes |
| `LevelLinks.LinkAll` | index/hnsw.go:115-131 | the new vertex gets exactly the chosen edges, each chosen vertex the reverse edge, cut down to the nearest live ones if over its limit; nothing else changes; the nearest of the chosen, which is linked last, is where the next level starts |
| `LevelLinks.LinkLevel` | index/hnsw.go:105-132 | at one level, the vertex is linked to the m nearest that a completed search with efConstruction found, and the nearest of them is returned |
| `LevelLinks.ChosenAreTargets` | index/hnsw.go:105-113 | what a search for a vertex finds never includes the vertex itself, is present at the level, and is not empty for m > 0 |
| `Linking.LinkedKeepsWellFormed` | index/hnsw.go:115-131 | linking keeps the structural invariant: ends present at the level, no edge to oneself, lengths are distances |
| `Linking.LinkedKeepsDegrees` | index/hnsw.go:115-131 | linking keeps the limits on the number of edges |
| `Linking.LinkedKeepsIntact` | index/hnsw.go:115-131 | while a vertex can be a neighbour of all, linking prunes nothing, and the bottom level stays connected by edges that go both ways |
| `Linking.IntactReach` | index/hnsw.go:314-359 | in such a bottom level everything is reachable from everywhere |
| `Weaving.WovenKeepsIntact` | index/hnsw.go:105-132 | the whole insertion, all levels composed, adds the vertex to the connected bottom level |
| `Greedy.Descend` | index/hnsw.go:99-103 | a greedy walk at each level from that of the start down to the one above the level needed, each beginning where the one above ended; it arrives where the last one ended |
| `Insertion.Connect` | index/hnsw.go:99-132 | after linking at all common levels the structural invariant and degree limits hold, and each level is as linked at that level, no level undoing another |
| `Weaving.ComesNext` | index/hnsw.go:105-132 | one more level of linking: each level is searched from the nearest vertex linked to on the level above, or, if there was none, from where that level was searched from |
| `Insertion.DegreesAreCapped` | index/hnsw.go:115-131 | if m is at most mMax and mMax0, no vertex has more than mMax0 edges at level 0 and mMax above |
| `Common.MaxFloatIsLargest` | math/math.go:16-16 | the distance with which the search for the nearest edge begins is the largest finite one |
| `Removal.NextEntrypoint` | index/hnsw.go:170-190 | the nearest neighbour, at finite distance, on the highest level that has one; none if no level has one |
| `Removal.ReplacementIsNone` | index/hnsw.go:170-190 | a removed entrypoint is replaced by none if and only if it has no finite edge on any level |
| `Removal.ReplacementIsLive` | index/hnsw.go:170-190 | it is replaced by a live vertex, in whatever order the edges are walked, if and only if on its highest level with a finite edge every nearest edge leads to a live vertex |
| `Removal.UnlinkLevels` | index/hnsw.go:192-211 | every neighbour, at every level, keeps exactly the nearest live edges that do not lead to the vertex; all other edge sets, and the vertex's own, are unchanged |
| `Linking.DetachedKeepsWellFormed` | index/hnsw.go:192-211 | unlinking keeps the structural invariant |
| `IndexTable.ShardLookup` | index/hnsw.go:253-256 | looking up an id in its shard is looking it up in the whole table |
| `IndexTable.ShardsStore` | index/hnsw.go:258-271 | storing in one shard stores in the table, and in no other shard |
| `IndexTable.MetadataBytesRemove` | index/metadata.go:10-17 | the size of metadata does not depend on the order in which it is added up |
| `IndexTable.BytesSize` | index/hnsw_vertex.go:109-111 | 16 bytes of id, 4 per component, and the lengths of all keys and values |
| `IndexTable.StoreKeepsCounts` | index/hnsw.go:267-270 | the counters stay the number of items and the sum of their sizes, modulo 2^64 |
| `IndexTable.DeleteKeepsCounts` | index/hnsw.go:278-283 | so does subtraction by adding the complement |
| `Uuids.LittleEndianIsReversed` | utils/uuid.go:10-10 | the halves of an id are read lowest byte first |
| `Uuids.UuidModIsSumMod` | utils/uuid.go:9-12 | up to a modulus of 2^63 the sum of the halves modulo m, without overflow |
| `Hnsws.Hnsw.constructor` | index/hnsw.go:38-54 | an empty index satisfies the invariant |
| `Hnsws.Hnsw.GetVertex` | index/hnsw.go:153-162 | the stored vertex, or none |
| `Hnsws.Hnsw.StoreVertex` | index/hnsw.go:258-271 | an existing id is refused and nothing changes; otherwise exactly the vertex is added, without edges, and the invariant holds |
| `Hnsws.Hnsw.RemoveVertex` | index/hnsw.go:273-287 | exactly the vertex is taken out of the table and marked deleted, and the invariant holds |
| `Hnsws.Hnsw.Insert` | index/hnsw.go:80-140 | keeps the invariant; an existing id is an error and changes nothing; otherwise a fresh vertex with the given data is stored, linked at each common level to the m nearest that a search of that level found, which began at the nearest vertex linked to above, and at the top where the greedy descent from the entrypoint ended, and becomes entrypoint if it is higher; the first vertex gets level 0 |
| `Hnsws.Hnsw.Remove` | index/hnsw.go:164-214 | keeps the invariant; a missing id is an error and changes nothing; otherwise the item leaves the table, every neighbour is unlinked and cut down, and only if it was the entrypoint is it replaced, by a nearest neighbour or none |
| `Hnsws.Hnsw.Search` | index/hnsw.go:216-247 | the answer is the k nearest of what a completed bottom-level search found that began where the greedy descent from the entrypoint ended, in ascending order with exact distances, each live or the entrypoint, the first no farther than the entrypoint; on an insert-only index that fits, it is exact |
| `Hnsws.InsertKeepsPristine` | index/hnsw.go:80-140 | as long as no vertex can exceed mMax0 neighbours, inserting keeps an insert-only index connected at the bottom |
| `Querying.BottomIsEnteredNearest` | index/hnsw.go:222-228 | if the entrypoint has a level above the bottom, no live neighbour on level 1 of the vertex where the bottom is entered is nearer to the query than that vertex |
| `Querying.PartOfAllIsExact` | index/hnsw.go:237-246 | an answer read off the k nearest of all stored vertices is exact |
| `ReachedAnswers.AllReachedIsAnswered` | index/hnsw.go:216-247 | for any valid index, removals included: if what can be reached at the bottom from where the descent ends fits into the search, the answer is the k nearest of exactly that |
| `ReachedAnswers.ReachedAnswerIsExactIff` | index/hnsw.go:216-247 | if the bottom search, moreover, starts at a live vertex, the answer is exact for everything stored if all of that can be reached, and, asked for that many, only if |
| `ReachedAnswers.DeletedStartIsNotExact` | index/hnsw.go:216-247 | started at a deleted vertex whose id is not stored, an answer with room for all that can be reached is not exact |
| `Answers.ExactAnswerIsBruteForce` | index/hnsw_test.go:21-52 | the scores of any exact answer are the first k of any ranking of everything stored |
| `ExactRuns.InsertIntoPristine` | index/hnsw.go:80-140 | one more step of an insert-only run |
| `ExactRuns.BuildIndex` | index/hnsw.go:80-140 | after any run of inserts of distinct ids, with any levels, the index holds exactly the items and is connected at the bottom |
| `ExactRuns.SearchVsBruteForce` | index/hnsw_test.go:21-52 | for any n items with distinct ids and any levels, m > 0, n at most mMax0 + 1 and max(ef,k), searching gives exactly the min(k,n) smallest distances of a comparison with all items, in order |
| `EntrypointRuns.LoseEntrypoint` | index/hnsw.go:80-247 | two items at no finite distance, the first removed: one item is stored, there is no entrypoint, and every query answers nothing |
| `EntrypointRuns.FindDeleted` | index/hnsw.go:80-247 | three items in a row with one edge each, the second and then the first removed: the entrypoint is the deleted second vertex, and a query finds it first although it is not stored |
| `WalLogs.AppendedAt` | storage/wal/badger.go:387-426 | index by index: entries not compacted are there, what was below the first of them is untouched, nothing is left behind the last |
| `WalLogs.CompactedAt` | storage/wal/badger.go:228-267 | compaction keeps every entry above the index, and of the index itself the term |
| `WalLogs.InstalledIsLog` | storage/wal/badger.go:205-226 | a snapshot beyond the log leaves its dummy and the entries after it, without gaps |
| `WalLogs.LimitedIsUnique` | storage/wal/badger.go:330-385 | the size limit determines which entries are returned |
| `WalStores.Store.Seek` | storage/wal/badger.go:302-328 | the first stored index from a key on, or the last up to it |
| `WalStores.Store.Flush` | storage/wal/badger.go:205-226 | all operations of a batch take effect in their order |
| `WalStores.HoldsOne` | storage/wal/badger.go:302-328 | the entries on disk determine the log |
| `WalStores.WrittenIsAppended` | storage/wal/badger.go:387-426 | setting entries over the store and deleting behind them is appending to the log |
| `WalStores.CutIsCompacted` | storage/wal/badger.go:441-544 | setting the dummy and deleting below it is compacting the log |
| `WalStores.SavedHeadsLogIffInstallable` | storage/wal/badger.go:205-226 | after Save with a snapshot the disk holds a log that the snapshot heads if and only if its index was not stored and the new entries, if any lie beyond the old ones, begin at it or right after it; a snapshot whose index was stored is always lost |
| `WalStores.SnapshotCanBeLost` | storage/wal/badger.go:216-223 | with one entry stored, saving a snapshot at its index leaves no entry at all |
| `Wals.SaveKeepsLog` | storage/wal/badger.go:205-226 | saving acceptable entries or an acceptable snapshot keeps caches and disk in agreement with the new log |
| `Wals.BadgerWAL.constructor` | storage/wal/badger.go:59-75 | opening a used store changes nothing on disk and gives the log that is there; opening one without entries starts with a dummy at 0, and caches, log and disk then agree exactly if no snapshot record was left behind |
| `Wals.BadgerWAL.FirstIndex` | storage/wal/badger.go:143-162 | whatever the caches hold, the first index of the log on disk; an error if and only if the store is new; what had to be looked up is cached |
| `Wals.BadgerWAL.LastIndex` | storage/wal/badger.go:134-141 | whatever the cache holds, the last index of the log on disk |
| `Wals.BadgerWAL.Snapshot` | storage/wal/badger.go:164-185 | the stored snapshot, cached or not, or an empty one |
| `Wals.BadgerWAL.InitialState` | storage/wal/badger.go:77-89 | the stored hard state and the configuration of the stored snapshot |
| `Wals.BadgerWAL.Term` | storage/wal/badger.go:111-132 | the term at an index, also at the dummy; compacted below it, unavailable beyond the log |
| `Wals.BadgerWAL.Entries` | storage/wal/badger.go:91-109 | compacted or unavailable outside the log; otherwise the longest beginning of the range that the size limit allows, but at least one entry |
| `Wals.BadgerWAL.GetEntries` | storage/wal/badger.go:330-385 | the same for a range inside the log, for the single-entry shortcut too |
| `Wals.BadgerWAL.DeleteEntriesFromIndex` | storage/wal/badger.go:476-498 | what is deleted are the entries stored before the batch, from an index on |
| `Wals.BadgerWAL.DeleteEntriesUntilIndex` | storage/wal/badger.go:501-544 | what is deleted are the entries stored below an index; compacted if and only if there is none; a cached first index moves along |
| `Wals.BadgerWAL.WriteEntries` | storage/wal/badger.go:387-426 | the batch's effect is to overwrite with what is not compacted and to truncate the tail |
| `Wals.BadgerWAL.WriteSnapshot` | storage/wal/badger.go:441-474 | the batch's effect is the snapshot record and its dummy entry |
| `Wals.BadgerWAL.Save` | storage/wal/badger.go:205-226 | for anything saved, what is on disk; for what is acceptable, the log afterwards and caches that agree with it |
| `Wals.BadgerWAL.CreateSnapshot` | storage/wal/badger.go:228-267 | fails exactly without conf state, below the first or beyond the last index, and then changes neither log nor disk; otherwise the log is compacted to the index and the snapshot stored |
| `Wals.BadgerWAL.Reset` | storage/wal/badger.go:560-582 | the entries and caches are gone and the given entries stored; hard state and snapshot records stay |
| `Wals.BadgerWAL.DeleteGroup` | storage/wal/badger.go:269-271 | the entries and caches are gone; hard state and snapshot records stay |
| `WalKeys.EntryKeysInOrder` | storage/wal/badger.go:273-282 | iterating in key order is iterating in index order, over the whole 64-bit range |
| `WalKeys.ParsedIndex` | storage/wal/badger.go:298-300 | the index is read back from the key |
| `WalKeys.KeysAreDistinct` | storage/wal/badger.go:273-296 | keys of different groups or kinds never coincide |
| `WalKeys.SingleRecordsUnderPrefix` | storage/wal/badger.go:284-313 | an iterator over a group's entries meets a single record of some group exactly if its id is that record's two letters and the first 14 bytes of the other id |
| `WalKeys.OwnRecordsAreNotUnderPrefix` | storage/wal/badger.go:284-313 | with random (version 4) ids it never meets the group's own |
| `WalRuns.ReopensAreInvisible` | storage/wal/badger.go:59-75 | what a run leads to does not depend on the restarts in it |
| `WalRuns.Run` | storage/wal/badger.go:59-267 | after any run of saves, compactions and restarts, the log, hard state and snapshot that all queries answer from are those of the run without restarts |
| `WalRuns.DeleteAndReopen` | storage/wal/badger.go:59-75 | a deleted group opened again: the log starts at 0, with the old hard state, and agrees with the disk exactly if there was no snapshot |
| `RaftGroups.RecoveryIsReplay` | storage/raft/group.go:107-119 | from a sound disk, processing the stored snapshot succeeds, and with the committed entries after it gives the state after the whole committed log |
| `RaftGroups.KeptIsDurable` | storage/raft/group.go:203-205 | saving a batch that keeps the agreement leaves a sound disk, with exactly the log that saving makes |
| `RaftGroups.PromisedIsKeptIff` | storage/raft/group.go:203-205 | of batches as Raft promises: the agreement is kept if and only if a snapshot in it lies beyond the log and restores the state after its index |
| `RaftGroups.LogSurvivesIff` | storage/raft/group.go:203-205 | of any batch of etcd's: after saving it some log is on disk if and only if there is no snapshot in it or the snapshot lies beyond the log |
| `RaftGroups.SoundIffKept` | storage/raft/group.go:203-205 | of any batch of etcd's: the disk can be recovered afterwards if and only if the log that saving makes agrees with the committed one, and the data of a snapshot restore the state after its index |
| `RaftGroups.DivergentTailLosesSnapshot` | storage/raft/group.go:203-205 | a batch that is as Raft promises, and leaves no log on disk: a snapshot at an index that holds an uncommitted entry of another term |
| `RaftGroups.FirstBatchIsShaped` | storage/raft/group.go:50-73 | starting etcd's node with peers gives a batch like any other, that commits the whole log and the peers |
| `RaftGroups.FirstBatchIsPromisedIff` | storage/raft/group.go:50-73 | it is as Raft promises, and keeps the agreement, if and only if all that is stored and the peers after it are what the group has committed |
| `RaftGroups.StaleTailIsApplied` | storage/raft/group.go:50-73 | with an entry stored that was never committed it does not: the entry is applied, and the machine is in another state than the group's |
| `RaftGroups.RaftGroup.constructor` | storage/raft/group.go:75-105 | the machine is in its initial state, and lastAppliedIdx is 0 whatever the snapshot (etcd's node is the first batch) |
| `RaftGroups.RaftGroup.Start` | storage/raft/group.go:107-119 | fails if and only if a stored snapshot cannot be processed, which does not happen on a sound disk; there the machine is then in the state of the snapshot |
| `RaftGroups.RaftGroup.ProcessReady` | storage/raft/group.go:195-231 | for any batch of etcd's, wherever the process dies in it: the disk is sound if and only if nothing was saved or the batch keeps the agreement; the process lives on if and only if its snapshot can be processed; then the committed entries have been applied one by one, lastAppliedIdx is the last of them, the conf state is etcd's answer to the last conf change that could be read, and what it was if there was none, and if the agreement is kept the machine is in the group's state |
| `RaftGroups.RaftGroup.ProcessCommitted` | storage/raft/group.go:215-226 | entry by entry, the machine stays in the state after the applied entries; the conf state is the answer to the last conf change that has one |
| `RaftGroups.ConfNext` | storage/raft/group.go:254-273 | one more entry: the conf state is kept unless it is a conf change that could be read |
| `RaftGroups.Machine.ReplayOne` | storage/raft/group.go:215-226 | conf changes and empty entries leave the machine as it is, every other entry is processed |
| `RaftGroups.RaftGroup.TrySnapshot` | storage/raft/group.go:275-300 | if a snapshot is due, fails if and only if snapshotFn does, or else if the conf state is unknown, never because of the index; a snapshot taken is of the applied index, and everything is kept if and only if its data restore the state |
| `RaftGroups.ReplicasAgree` | storage/raft/group.go:179-236 | corollary of what every step keeps: replicas that have applied equally much are in the same state |
| `RaftRuns.DeliveredIsKeptIff` | storage/raft/group.go:195-231 | of what etcd delivers, the first batch after a start with peers included, a batch keeps the agreement if and only if it is harmless |
| `RaftRuns.Happen` | storage/raft/group.go:179-236 | what one harmless event makes of disk, log, machine, cursors and conf state: a batch is saved and applied, or saved and followed by a restart that knows the stored snapshot only, if the process dies in it; a snapshot that is due is stored and compacts the log; the group keeps running, and the commit index does not go back |
| `RaftRuns.Live` | storage/raft/group.go:179-236 | after any number of batches, snapshots and crashes, in any order, with or without peers at each start, none of them harmful: each step of the course is what so happens; the machine is in the state after what it has applied, the disk recovers the state after everything committed, and the commit index never went back |
| `MetadataIO.InRangeFits` | index/metadata.go:46-60 | sizes are in range exactly if they fit the length prefixes |
| `MetadataIO.Save` | index/metadata.go:19-29 | what is written lists each pair once, in whatever order the map is walked |
| `MetadataIO.Load` | index/metadata.go:31-44 | from what was written for metadata in range, the same metadata, and exactly its bytes are consumed; whatever is loaded from any input is in range |
| `MetadataIO.SaveAndLoad` | index/metadata.go:19-82 | metadata survives if and only if its sizes are in range |
| `IndexBodies.SaveVector` | math/vector.go:25-32 | the components, in order, four bytes each |
| `IndexBodies.LoadVector` | math/vector.go:34-41 | reads back what was written for a vector of this size, and exactly its bytes |
| `IndexBodies.AsEdgesHas` | index/hnsw_persistence.go:208-236 | the edges read from a list, looked up by id, are exactly those listed |
| `IndexSaving.SaveShard` | index/hnsw_persistence.go:75-93 | each vertex of the shard is written exactly once, in whatever order |
| `IndexSaving.SaveLevel` | index/hnsw_persistence.go:102-121 | the number written is that of the live edges, and each of them is written exactly once, in an order of its own |
| `IndexSaving.SaveOwner` | index/hnsw_persistence.go:97-121 | the live edges of all levels, top level first |
| `IndexSaving.SaveBody` | index/hnsw_persistence.go:62-124 | what is written lists exactly what is live in the index |
| `IndexLoading.LoadShard` | index/hnsw_persistence.go:164-199 | new vertices without edges, one for each item, with its data, and the sum of their sizes |
| `IndexLoading.LoadLevel` | index/hnsw_persistence.go:216-236 | the edges of one level are those listed, and those of other levels are untouched |
| `IndexLoading.LoadOwners` | index/hnsw_persistence.go:207-238 | each vertex of the shard gets its listed edges, and no other vertex is touched |
| `Copies.ListedIndexesAreSame` | index/hnsw_persistence_test.go:17-80 | two indexes listed by the same body have the same ids, levels, vectors, metadata and live edges with lengths |
| `Copies.CopyIsSound` | index/hnsw_persistence.go:127-241 | a copy of a sound index satisfies the structural invariant and the degree limits |
| `Persistence.LoadConfig` | index/config.go:150-216 | the saved parameters with the receiver's flags: the saved configuration exactly if the flags agree |
| `Persistence.HeaderLayout` | index/config.go:150-173 | a header takes 33 bytes, with the parameters, the size and the byte for the space in their places |
| `Persistence.Save` | index/hnsw_persistence.go:45-125 | an error exactly if the index is not empty and has no entrypoint; nothing but the header for an empty index; else the header and a body that lists the index |
| `Persistence.LoadedIsListed` | index/hnsw_persistence.go:127-241 | what was read is listed by the body it was read from |
| `Persistence.Load` | index/hnsw_persistence.go:127-241 | from what was saved, an index that the same body lists, with exactly the bytes consumed; with a header its space is the Euclidean, Manhattan or cosine one for the byte 1, 2 or 3, and any other byte is an error; the byte counter is added to; an empty body is an error; and whatever input is accepted is a header and a body as they are written, and then what is left of it |
| `Layouts.VertexLayout` | index/hnsw_persistence.go:77-89 | a vertex is its 16 bytes of id, its level in four, its components in four each, and the number of its pairs in two |
| `Layouts.KVLayout` | index/metadata.go:46-60 | a pair is the length of the key in one byte, the key, the length of the value in two, the value |
| `Layouts.LevelLayout` | index/hnsw_persistence.go:100-121 | the edges of a level are their number in four bytes, and 20 bytes each of id and length |
| `Layouts.WrittenSize` | index/hnsw_vertex.go:109-111 | the size counted for a vertex is the number of bytes written for it, without its level and the lengths |
| `RoundTrips.ListedBodyFits` | index/hnsw_persistence.go:45-125 | if the sizes of an index fit their fields, what is written for it can be read back |
| `RoundTrips.LoadedIsSound` | index/hnsw_persistence.go:127-241 | a loaded copy satisfies the whole invariant of an index if the byte counter started at zero |
| `RoundTrips.SaveAndLoad` | index/hnsw_persistence.go:45-241 | for every non-empty index with an entrypoint whose sizes fit, and any walking orders, the loaded index is the same, with a header also its space, whichever of the three known ones it is, while a space of another type cannot be read back; all bytes are consumed, length and size agree, the byte total agrees exactly if the receiver's was zero, the entrypoint is there exactly if its id is stored |
| `RoundTrips.SaveAndLoadEmpty` | index/hnsw_persistence.go:60-62 | what is written for an empty index cannot be loaded |
| `UniqueCodes.BodyShardsUnique` | index/hnsw_persistence.go:45-125 | bytes that fit were written for one entrypoint and one list of vertices only |
| `PartitionRestarts.SnapshotAndRestart` | storage/partition.go:476-492 | if sizes fit: a partition's contents survive its snapshot and a restart from it, with a sound index, if and only if it is not empty and has an entrypoint; without entrypoint the snapshot fails, and for an empty one the restart |
| `Changes.UpdateKeepsIds` | storage/partition.go:349-367 | corollary of the update's content: an update never loses an id, and merges the old metadata under the new |
| `Changes.BatchIsFold` | storage/partition.go:375-433 | corollary, single and batch changes share their steps: a batch stores what its items would have stored as single changes in order |
| `Changes.BatchErrors` | storage/partition.go:375-433 | an id has an error exactly if one of its items failed on what the items before it left |
| `Changes.InsertsCome` | storage/partition.go:375-388 | after a batch of inserts every listed id is stored, a new one with the vector and metadata of its first item, and what was stored is as it was; the errors are of the ids that were stored or are listed twice |
| `Changes.UpdatesCome` | storage/partition.go:390-416 | the process ends exactly if an item without metadata is to update one that has some, be it from an earlier item; otherwise the same ids are stored, those listed with the vector of their last item and each key with its last value; the errors are of the ids that were not stored |
| `Changes.DeletesCome` | storage/partition.go:418-433 | after a batch of deletes none of its ids is stored, and all others are as they were; the errors are of the ids that were not stored or are listed twice |
| `Changes.ChangeComesTo` | storage/partition.go:435-474 | each of the six changes has the outcome so stated |
| `Partitions.MergeMetadata` | storage/partition.go:359-363 | the old metadata under the new, or a write to a nil map exactly if the new is empty and the old is not |
| `Partitions.UpdateOne` | storage/partition.go:349-367 | the content and error are functions of the content before; the level stays or is 0; the process ends exactly if metadata is missing and the item has some |
| `Partitions.Process` | storage/partition.go:435-474 | for each of the six changes, what is stored afterwards and what is answered, said of its items alone; both are functions of the content before |
| `Partitions.ProcessLog` | storage/partition.go:435-474 | content and all answers after a log are functions of the log and the content before, whatever levels and map orders |
| `PartitionReplicas.RestoredIs` | storage/partition.go:476-482 | what bytes restore is determined by them: the contents of any index they were written for |
| `PartitionReplicas.StateIsReplayed` | storage/partition.go:435-474 | the state of the replicated machine is what the committed changes, one by one, make of an empty partition |
| `PartitionReplicas.SnapshotPartition` | storage/raft/group.go:275-300 | a partition's snapshot fails exactly if it is due and there are items and no entrypoint, or else the conf state is unknown; the disk can be recovered afterwards exactly if none was taken or the partition is not empty |
| `PartitionReplicas.RecoverPartition` | storage/raft/group.go:107-119 | from any sound disk, the snapshot loaded and the committed entries after it processed give a sound index with exactly what all committed changes make |
| `PartitionReplicas.SnapshotAndRecover` | storage/partition.go:476-492 | dying right after a snapshot of a partition that is not empty, taken or not, loses nothing that was committed |
| `Merging.SufficesTogether` | storage/dataset.go:418-431 | sufficient parts of two collections are together sufficient for both |
| `Merging.NearestOfSufficient` | storage/dataset.go:386-387 | the k nearest of a sufficient part are k nearest of the whole |
| `Merging.SortAndCut` | storage/dataset.go:386-387 | sorting and cutting gives the k nearest in order |
| `Collecting.Collect` | storage/dataset.go:373-387 | one of these readings, for any order of arrival; read promptly and not cancelled, an error exactly if one arrives; what is answered is always the k nearest, in order, of everything behind the replies that are not errors |
| `Collecting.LateReadings` | storage/dataset.go:367-384 | read late, and for any replies: the loop can end with neither answer nor error if and only if none is a failure, and can always end with an answer, whatever fails |
| `Collecting.EveryReadingIsProperIff` | storage/dataset.go:367-384 | every reading ends with an error if there is one and else with everything read, if and only if it is prompt and not cancelled or there are no replies |
| `Datasets.GetPartitionForId` | storage/dataset.go:444-449 | a partition is always found, by the sum of the halves of the id modulo the number of partitions |
| `Datasets.InOneGroupOnce` | storage/dataset.go:458-472 | each partition is in exactly one node's list, once |
| `Datasets.GetSearchQueryNodes` | storage/dataset.go:458-472 | each partition is asked for on one of its own nodes, for any random picks |
| `Datasets.ChosenNext` | storage/dataset.go:537-547 | grouping neither loses nor repeats an element |
| `Datasets.GroupBatchItemsByPartition` | storage/dataset.go:537-547 | each item is in the group of its id's partition, in the order given |
| `Datasets.SearchPartitions` | storage/dataset.go:390-432 | an error if a partition is unknown; an error only if one is unknown or fails, and, read promptly and not cancelled, exactly then; otherwise the k nearest of what the partitions store that did not fail, for any order of arrival |
| `Datasets.Search` | storage/dataset.go:349-388 | read promptly and not cancelled: an error exactly if the dimension is wrong, a partition is unknown or fails or a node cannot be reached, and otherwise the k nearest of everything stored in all partitions, ascending, for every choice of nodes and every order of arrival; in any case what is answered is the k nearest of a part of it |
| `DatasetSearches.ExactIsNearest` | storage/dataset.go:349-432 | an exact answer of an index is the k nearest of its items, as merging needs it |
| `DatasetSearches.SearchVsRanking` | storage/dataset.go:349-432 | a query from the indexes up: over partitions nothing was removed from and that fit into their searches, an answer read promptly has exactly the scores of the first k of any ranking of everything stored; if it is not cancelled, there is one exactly if its dimension is right, all partitions are known and all picked nodes reachable |
| `Kernels.HorizontalAddSums` | simd/cpp/avx.cpp:3-8 | a horizontal addition neither loses a lane nor counts one twice |
| `Kernels.SumVector` | simd/cpp/avx.cpp:3-8 | two horizontal additions and two lanes, or four lanes, give the sum of all lanes |
| `Kernels.Accumulate` | simd/cpp/avx.cpp:15-32 | registers and scalar tail together give the sum over all places, for any length and 8 or 4 lanes |
| `Kernels.ManhattanDistance` | simd/cpp/sse.cpp:32-49 | with the root of the square on the lanes and the absolute value in the tail, the sum of absolute differences |
| `Kernels.CosineSimilarityDotNorm` | simd/cpp/avx.cpp:51-75 | the dot product and the product of the squared norms |
| `Kernels.KernelsAgree` | index/space/native_impl.go:9-37 | for all vectors and both widths the three distances are those of the scalar loops; the cosine distance is a division by zero in both or in neither |
| `Metrics.EuclideanIsMetric` | index/space/native_impl.go:9-16 | not negative, 0 only between equal vectors, the same in both directions, and no detour is shorter |
| `Metrics.ManhattanIsMetric` | index/space/native_impl.go:18-25 | the same of the Manhattan distance |
| `Metrics.OneAxis` | index/space/native_impl.go:9-25 | along one axis both measure the difference |
| `Metrics.CauchySchwarz` | index/space/native_impl.go:27-38 | the square of the dot product is at most the product of the squared norms |
| `Metrics.CosineIsBounded` | index/space/native_impl.go:27-38 | where it is defined, the cosine distance lies between 0 and 2 and is the same in both directions |
| `Metrics.CosineOfMultiple` | index/space/native_impl.go:27-38 | it is 0 for a positive multiple and 2 for a negative one |

## Left out

- Concurrent writers of the index, the compare-and-swap race in Insert (its branch that calls setLevel) and all
  mutexes: changes reach an index from one Raft apply loop.
- Selection.SelectNeighborsHeuristic: without `extendCandidates`. With it, reversing shares its array with the queue
  being popped, and pruning can make edges to oneself.
- Hnsws.Hnsw.constructor: only for configurations without `extendCandidates`, the default (`Configs.Config.Supported`).
- Parsing options and defaults of the configuration, the level multiplier and random levels: levels are parameters.
- The estimate of pointer memory in `BytesSize` of the index (floating point); the exact part, the counter, is modelled.
- NaN and negative distances: the queue panics on negative priorities, and NaN has no order.
- A configuration with negative numbers, which Load accepts: the model's Load stops with an error.
- Persistence.Load: of input that Save did not write it says that it is accepted only if it is the written form of some
  lists whose sizes fit, and that an empty body is not; not which index comes of it. Where the code would go on with an
  edge to nil, or panic on a missing vertex or a level below -1, the model stops with an error.
- Wals.BadgerWAL.Save: keeps the log only for what is acceptable, that is, entries that leave no gap and a snapshot
  beyond the last index; what is on disk is stated for everything, and exactly when a snapshot survives.
- Wals.BadgerWAL.Entries: sizes of entries are any function and their sum does not wrap at 2^64.
- Failing reads, writes and marshalling of the key-value store: operations succeed, and a batch is atomic.
- RaftRuns.Live: etcd's node and Raft are an environment that delivers what `IsDelivered` says; the first batch after
  a start with peers brings nothing but what `FirstBatch` says of `StartNode` in etcd 3.3, which is a dependency. Runs
  in which `Harmless` fails are not followed further: a write-ahead log that has lost its snapshot answers nothing
  that this model knows. Terms and votes are not used.
- RaftGroups.RaftGroup.ProcessCommitted: processFn does not fail; in the code its failure ends the process.
- The conf state after a restart: it is unknown until the next conf change, so snapshots fail until then.
- Marshalling of changes, malformed ids in them, and notifications to proposers: an answer is what would be sent.
- Ids that cannot be parsed in the replies of nodes.
- PartitionReplicas.RecoverPartition: the committed entries are read from the stored log one by one, as etcd would
  deliver them; a batch with a snapshot, which is loaded into the index in use, is not followed (its byte counter is
  added to).
- Rounding in the kernels, alignment, and the values NaN and infinity that dividing by zero gives.
- gRPC services, clients, the allocator, the dataset manager, the shared group, and the in-memory write-ahead log.
