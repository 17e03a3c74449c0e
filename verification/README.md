# A verified model of the key-value store

The store is an LSM tree (memtable, immutable memtable, levels of sorted table files, a write-ahead log,
an LRU cache) with a leader that ships its command log to followers. This project models its core in
Dafny and proves what that core keeps over every run, every input and every interleaving of its steps.
`dafny verify dfyconfig.toml` checks the whole project.

## How it is put together

* **Engine.** `EngineModel` is a state machine over the steps of `engine.cpp`: write, rotate,
  flush-install, drop-immutable, compaction snapshot, compaction install. Its specification is the write
  history: the value of a key is its last write. `Merge`, `Levels`, `Compaction` and `CompactionProof`
  supply the k-way merge, the lookup with its early exits and the edit a compaction makes; `EngineProof`
  shows the invariant inductive; `EngineRuns` draws the conclusions for whole runs and says exactly when
  `get` is right; `EngineReads` does so for a `get` whose three samples are taken at different moments.
  `EngineTraces` puts the same in terms of the writes a client made. `StorageEngine.dfy` and
  `TableVersion.dfy` are the classes of the program, with its loops, proved to perform exactly the steps of
  the machine.
* **Cache.** `Lru` is the list-and-map cache, as a value with its laws and as a class; `CachedEngine` puts
  it in front of the engine machine.
* **Table files.** `SSTable`, `SSTableProof`, `SSTableReopen`, `Bloom` and `Encoding` go down to the
  bytes: records, sparse index, packed filter, metadata, iterator; `Formats` fixes the positions.
  `EndToEnd` connects them to the tables of the engine machine.
* **Log and write path.** `Wal` is the byte format and its replay, `GroupCommit` the double-buffered sync
  with generations, `WritePipeline` the queue, the writer's numbering and recovery; `Durability` runs the
  writer on top of the group commit.
* **Replication.** `Replication` is the protocol with concurrent `replicate` calls over a network that
  loses, duplicates and reorders, `Delivery` which entries reach the followers; `Wire` and `Framing` are
  the text codec and the line framing; `DoubleApply` treats the leader's two executions of each command,
  `Commands` the stores in terms of the commands given.

Every lemma carries `{:induction false}`: inductions are written out in the bodies, and none is left to
Dafny's own choice.

The members worth reading first: `EngineReads.SampledGetExact`, `EngineRuns.GetExact`,
`CompactionProof.L0CompactionExact`, `Merge.KWayMerge`, `CachedEngine.CacheIsTransparent`,
`Lru.RunIncluded`, `SSTableProof.GetIsFind`, `SSTableReopen.ReopenRestores`,
`Replication.AppliedIsLogPrefix`, `Commands.FollowerObeys`, `Delivery.FollowersCatchUpExactly`, `DoubleApply.LeaderMatchesExactly`,
`Framing.ChunkedStreamDelivers`, `Wal.ReplayPrefixExact`, `GroupCommit.QuietFlushDurable` with
`GroupCommit.UnquietFlushMayLie`, and `Durability.CompletionExact`.

## Where the code does not meet the natural claim

Each of these has its exact condition and, where a run is needed, a run that shows it.

* An L0 to L1 compaction drops every tombstone, so a deleted key comes back when level 2 or deeper still
  holds an older copy. `CompactionProof.L0CompactionExact` and `EngineRuns.InstallChangesAnswer` say
  exactly when one installation changes an answer, `EngineRuns.GetExact` and `EngineReads.SampledGetExact`
  exactly when a read in any run is wrong, and `Resurrection.ProvisoIsNeeded` builds a run from a fresh
  engine, every compaction started by the program's own size and count triggers, in which it happens. The
  condition concerns the key read only, and ends with the next write to it. A key whose last write is a
  put is always answered.
* A log `flush` can return before the records appended ahead of it are in the file: the sync publishes a
  generation it loads after its write, while the records were appended after its swap. `QuietFlushDurable`
  and `UnquietFlushMayLie` are the two halves of the exact condition. One layer up,
  `Durability.CompletionExact` says exactly when a batch of writes can be reported as stored and then lost
  in a crash, `Durability.CompletedCanBeLost` is such a run, `Durability.CompletedSurvives` says what never
  is lost.
* `replicate` ships the last log entry, not its own. An entry overtaken by a concurrent call before anyone
  read it back is never shipped, and followers stop in front of it for good. `Delivery.OvertakingStrands`
  and `Delivery.FollowersCatchUpExactly` give the exact condition on the schedule of calls. Nothing wrong
  is ever applied, and with one call at a time everything is shipped.
* Each command on the leader is executed twice. Its own execution comes after `replicate` has returned, so
  two commands can execute in the other order than they were logged even if their `replicate` calls never
  overlap; leader and followers then keep different values. `DoubleApply.LeaderMatchesExactly` is the exact
  condition, `DoubleApply.DivergenceIsReachable` such a run. Commands on different keys may overlap freely
  (`DoubleApply.DisjointCommandsMatch`).
* A replication message with no entries is rejected by its own parser (`MessageRoundTrip`).
* Table readers do not skip the value bytes of a DELETE record; `ReadRecExact` shows that files are
  readable exactly because tombstones carry no value, which every store keeps.

## Model

| member | source | states |
|---|---|---|
| `Types.LessTransitive` | engine/src/engine.cpp:694-699 | the byte-wise key order every sorted structure relies on is transitive (with `LessIrreflexive` and `LessTotal`: a strict total order) |
| `Types.LessExact` | engine/src/engine.cpp:694-699 | one key comes before another exactly if it is a proper prefix of it, or has the smaller byte where they first differ |
| `SortedMap.InsertFind` | engine/src/memtable.cpp:3-14 | `put`/`del` bind exactly the written key and leave every other key's entry alone |
| `SortedMap.InsertSorted` | engine/src/memtable.cpp:3-14 | the map stays strictly sorted and gains no record but the written one |
| `SortedMap.FindInGap` | engine/src/memtable.cpp:16-24 | a key that falls between two neighbours of a sorted map is absent |
| `Merge.Top` | engine/src/engine.cpp:701-714 | the queue hands out an element no other element precedes under the comparator |
| `Merge.FillHeap` | engine/src/engine.cpp:703-708 | at the start the queue holds exactly the first record of every non-empty input |
| `Merge.PopGroup` | engine/src/engine.cpp:713-732 | one round pops every iterator standing on the smallest key, and nothing else, and keeps the entry of highest sequence number among them |
| `Merge.Refill` | engine/src/engine.cpp:738-744 | exactly the popped iterators advance, and the queue again holds the current record of every valid iterator |
| `Merge.GroupIsComplete` | engine/src/engine.cpp:713-732 | the popped group contains every record of its key over all inputs, so the kept entry is the newest overall |
| `Merge.AdvanceKeepsFrontier` | engine/src/engine.cpp:738-744 | consumed keys stay below all remaining keys, and the number of remaining records strictly falls (termination) |
| `Merge.StepIsRight` | engine/src/engine.cpp:734-736 | after a round the merged map is right for every key the cursors have passed: newest entry, or nothing if it is a DELETE |
| `Merge.KWayMerge` | engine/src/engine.cpp:693-745 | the merge terminates; its result is sorted, holds no tombstone, and gives every key exactly its highest-sequence entry over all inputs, omitted when that is a DELETE, and no other key |
| `Levels.ProbeFinds` | engine/src/engine.cpp:191-194 | in a sorted, disjoint level `lower_bound` lands on the one table that holds the key |
| `Levels.ScanIsMax` | engine/src/engine.cpp:178-188 | the level-0 scan returns an entry of maximal sequence number among the candidate and all tables, and it is one of them |
| `Levels.SearchIsNewest` | engine/src/engine.cpp:171-209 | without a candidate, the level loop with its early exits returns the first hit from level 0 downward |
| `Levels.SearchWithCandidate` | engine/src/engine.cpp:171-209 | with a candidate, the loop returns the candidate or a stored entry that is newer |
| `Levels.NewestIsMax` | engine/src/engine.cpp:171-209 | under recency the first hit has the highest sequence number of all tables of the version |
| `Compaction.HullCovers` | engine/src/engine.cpp:651-658 | the computed key range encloses the range of every source table |
| `Compaction.HullReached` | engine/src/engine.cpp:651-658 | and no wider than needed: its ends are ends of source tables |
| `Compaction.OverlapsExactly` | engine/src/engine.cpp:674 | a table overlaps a range exactly if some key lies in both |
| `Compaction.OverlappingMembers` | engine/src/engine.cpp:671-682 | the chosen next-level tables are exactly those whose range meets the source range |
| `Compaction.NextKeyApart` | engine/src/engine.cpp:821-830 | a next-level table outside the source range stays strictly on one side of every key that an overlapping table contributes |
| `Compaction.InsertDisjoint` | engine/src/engine.cpp:777-780 | putting a table that overlaps no other into a sorted disjoint level keeps it sorted and disjoint |
| `Compaction.SortFixed` | engine/src/engine.cpp:928-929 | sorting by `minKey` leaves a sorted disjoint level as it is |
| `CompactionProof.RemovedIds` | engine/src/table_version.cpp:33-50 | the ids a compaction removes from the later version are those of its sources and of the overlapping next-level tables, and no other |
| `CompactionProof.InstallLevels` | engine/src/engine.cpp:767-775 | after the edit the source level holds exactly the tables flushed since the snapshot, and no level besides source and target changes |
| `CompactionProof.MergedFits` | engine/src/engine.cpp:757-765 | every table that stays in the target level lies wholly on one side of the merged table |
| `CompactionProof.InstallTarget` | engine/src/engine.cpp:777-780 | the target level is exactly the merged table plus the tables that stay, sorted, disjoint and free of tombstones |
| `CompactionProof.InstallShaped` | engine/src/engine.cpp:643-796 | every compaction keeps ids distinct and levels 1 and deeper sorted, disjoint and free of tombstones |
| `CompactionProof.TargetProbe` | engine/src/engine.cpp:915-931 | the target level's answer for each key after the installation: the newest source entry unless a DELETE, else what the level answered before |
| `CompactionProof.SourceProbe` | engine/src/engine.cpp:915-931 | a deeper source level stops answering exactly for the keys of the compacted table |
| `CompactionProof.L0InstallNewest` | engine/src/engine.cpp:643-796 | the newest entry of each key before and after an L0 to L1 compaction, in all cases |
| `CompactionProof.L0CompactionExact` | engine/src/engine.cpp:643-796 | with any flushes between snapshot and installation, no flushed table is lost and a key is answered as before if and only if it is not resurrected: newest merged version a DELETE, nothing newer flushed, an older copy at level 2 or deeper |
| `CompactionProof.DeepCompactionKeepsLookups` | engine/src/engine.cpp:798-945 | `compactlevelN` changes the newest entry of no key |
| `CompactionProof.InstallRecent` | engine/src/engine.cpp:767-782 | recency across levels survives every compaction |
| `EngineModel.SearchResult` | engine/src/engine.cpp:171-209 | what the level loop returns over a candidate was really written to the key and is at least as new as the candidate |
| `EngineModel.LookupIsNewest` | engine/src/engine.cpp:154-215 | `get` with its early exits returns the first hit in the order memtable, immutable memtable, levels, unless that is a DELETE |
| `EngineModel.NewestIsMaximum` | engine/src/engine.cpp:154-213 | that first hit is an entry of maximal sequence number over all stores |
| `EngineProof.StructureStep` | engine/src/engine.cpp:349-360 | writes, rotations, flush-installs, immutable-drops and compactions keep all stores sorted, recorded in the write history and the levels well formed |
| `EngineProof.MergedTable` | engine/src/engine.cpp:747-765 | the merged table of a compaction in flight holds only puts that were really written and can be installed on the version current by then |
| `EngineProof.WriteRecency` | engine/src/engine.cpp:501-527 | a write leaves its entry above every stored entry of the key and disturbs no other key |
| `EngineProof.FlushNewest` | engine/src/engine.cpp:410-421 | installing a flushed table makes the immutable memtable's entry the newest of the levels for its keys and changes no other |
| `EngineProof.InstallRecency` | engine/src/engine.cpp:767-782 | a compaction keeps recency, and if it changes a key's newest entry at all it dropped a newest tombstone |
| `EngineProof.RecencyStep` | engine/src/engine.cpp:349-437 | per-key recency (memtable above immutable memtable above L0 above L1 ...) is kept by every step |
| `EngineProof.InvStep` | engine/src/engine.cpp:349-437 | the whole invariant is inductive |
| `EngineTraces.WriteIsAnswered` | engine/src/engine.cpp:501-523 | right after a write, `get` answers its key with exactly the value put, or with nothing if it was a delete, and every other key as before |
| `EngineTraces.HistIsWrites` | engine/src/engine.cpp:501-523 | the n-th write of a run is recorded under number n with its own key, value and kind |
| `EngineTraces.RunHasTrace` | engine/src/engine.cpp:484-547 | every run has its list of actions |
| `EngineTraces.GetReturnsWritten` | engine/src/engine.cpp:145-222 | at the end of any run, in terms of the writes made: `get` returns the value of the last put; nothing for a key never written; and for a key deleted last, nothing exactly unless the key is uncovered |
| `EngineRuns.RunInv` | engine/src/engine.cpp:154-213 | the invariant holds in every state of every run from a fresh engine |
| `EngineRuns.NoTombstonesBelowL0` | engine/src/engine.cpp:734-736 | in every run no table at level 1 or deeper ever holds a tombstone |
| `EngineRuns.TracksStep` | engine/src/engine.cpp:349-437 | every step keeps what the stores owe to a key's last write: a memtable still has to deliver it, or the levels hold it, or they merged it away as a tombstone with nothing below, or over an older put |
| `EngineRuns.ExposedStep` | engine/src/engine.cpp:767-782 | a key becomes exposed exactly by an installation that drops its last write over an older copy, and stops being so exactly by the next write to it |
| `EngineRuns.RunTracks` | engine/src/engine.cpp:349-437 | hence, in every state of every run, which of these cases holds is decided by whether the run has exposed the key |
| `EngineRuns.ExposedSource` | engine/src/engine.cpp:734-736 | an exposed key was uncovered by a resurrecting installation, and nothing of it has been flushed since |
| `EngineRuns.UncoveredAnswers` | engine/src/engine.cpp:171-209 | from a resurrecting installation on, and until an entry of the key is flushed, the levels answer with the put that lay uncovered at level 2 or deeper |
| `EngineRuns.GetExact` | engine/src/engine.cpp:145-222 | in every state of every run, with no proviso, `get` returns the key's last put, or nothing when it was deleted or never written, if and only if the key is not uncovered; a wrong answer is an older put in place of a delete |
| `EngineRuns.GetRefinesSpec` | engine/src/engine.cpp:145-222 | a key no compaction has exposed since its last write is answered with that write, whatever happened to other keys |
| `EngineRuns.PutsAreAnswered` | engine/src/engine.cpp:145-222 | in every run a key whose last write is a put is answered with it |
| `EngineRuns.InstallChangesAnswer` | engine/src/engine.cpp:643-796 | in every state that satisfies the invariant, an L0 to L1 installation changes `get` for a key if and only if it resurrects the key and neither memtable holds it |
| `EngineRuns.HistMoment` | engine/src/engine.cpp:501-527 | every prefix of the write history since some moment was the whole history at a later moment of the run |
| `EngineReads.ReaderRun` | engine/src/engine.cpp:157-161 | what a reader that missed in the memtable can rely on at any later state of any run: the immutable memtable and the levels give an answer the key had since, or a compaction has uncovered a stale put |
| `EngineReads.LevelReaderRun` | engine/src/engine.cpp:161-171 | the same for a reader that has missed in both memtables |
| `EngineReads.CandidateNoOlder` | engine/src/engine.cpp:156-169 | a candidate from the two memtable samples is no older than the key's last write at the first sample |
| `EngineReads.SampledGetExact` | engine/src/engine.cpp:145-222 | in every run, with the cache off, a `get` that samples memtable, immutable memtable and version at three moments, with any steps in between, returns what the key held at one moment between its first and last sample, unless both memtable samples miss the key and an earlier compaction had uncovered a put overwritten before the first sample, with no entry of the key flushed between that compaction and the last sample; and in that case never |
| `EngineReads.GetIsLinearizable` | engine/src/engine.cpp:145-222 | hence a `get` of a key that no compaction has resurrected is linearizable |
| `Resurrection.DeletedKeyReturns` | engine/src/engine.cpp:594-613 | a concrete run, every compaction started under the program's own triggers, that ends with a deleted key answered by its old value |
| `Resurrection.TriggerExactly` | engine/src/engine.cpp:594-613 | when a level asks for a compaction: four tables at level 0, more than 10 MiB, 100 MiB and 1 GiB at levels 1 to 3, never deeper |
| `Resurrection.ProvisoIsNeeded` | engine/src/engine.cpp:734-736 | for all file sizes at least as large as the values stored, such a run exists: keys do get uncovered |
| `Lru.ApplyValid` | engine/src/lru_cache.cpp:6-51 | every operation keeps list and map on the same keys, without duplicates, within capacity |
| `Lru.StoreIncluded` | engine/src/lru_cache.cpp:18-36 | `put` keeps a smaller cache included in a larger one, whichever of them evicts |
| `Lru.RunValid` | engine/src/lru_cache.cpp:6-51 | after any operation sequence list and map agree within capacity |
| `Lru.RunIncluded` | engine/src/lru_cache.cpp:6-51 | for capacities 1 <= c <= d the smaller cache's list is the larger's restricted to its keys, with identical entries, at most d - c behind |
| `Lru.RunRecency` | engine/src/lru_cache.cpp:6-36 | after any operation sequence the list is in order of last use, so the victim is the least recently used key |
| `Lru.RunEntries` | engine/src/lru_cache.cpp:18-36 | a cached entry is the one last put under its key |
| `Lru.ContentsAfter` | engine/src/lru_cache.cpp:6-51 | after any operations, what one more does to the contents: a lookup changes none; a stored key is there, and only if it is new and the cache full does another go, the least recently used one; an invalidated key is gone; clearing leaves nothing |
| `Lru.LRUCache.Unlink` | engine/src/lru_cache.cpp:48 | erases exactly the key's node |
| `Lru.LRUCache.Get` | engine/src/lru_cache.cpp:6-16 | returns the cached entry, moves a hit to the front, changes nothing on a miss |
| `Lru.LRUCache.Put` | engine/src/lru_cache.cpp:18-36 | replaces or inserts at the front, evicting the last key when full, keeping the agreement invariant |
| `Lru.LRUCache.ClearAll` | engine/src/lru_cache.cpp:38-42 | empties list and map |
| `Lru.LRUCache.InvalidateKey` | engine/src/lru_cache.cpp:44-51 | removes exactly the key from list and map |
| `CachedEngine.QuietStep` | engine/src/engine.cpp:508-521 | a step that neither writes the key nor clears the cache does not change the answer for a key that has one |
| `CachedEngine.TransparentStep` | engine/src/engine.cpp:428-430 | reads, writes, rotations, flushes and compactions keep every cached entry equal to the uncached lookup |
| `CachedEngine.CacheIsTransparent` | engine/src/engine.cpp:146-152 | in every reachable state and for every capacity, 0 meaning no cache, `get` with the cache answers as without it, and every cached entry is a PUT |
| `CachedEngine.CacheAfter` | engine/src/engine.cpp:508-521 | a write removes exactly its key from the cache, an installed version empties it, other steps and unanswered reads leave it alone |
| `CachedEngine.ReadFillsCache` | engine/src/engine.cpp:217-219 | a successful read leaves its answer at the front of the cache and the stores unchanged |
| `Versions.ResolveWithout` | engine/src/table_version.cpp:33-50 | removing ids from metadata and tables together removes exactly those tables from what the version stands for |
| `Versions.ResolveAppended` | engine/src/table_version.cpp:24-31 | adding a table changes what no other metadata record stands for |
| `Versions.ResolveSort` | engine/src/engine.cpp:777-780 | sorting metadata by `minKey` sorts the tables it stands for |
| `Versions.FindByIdExactly` | engine/src/table_version.cpp:16-22 | the table found has the id, and none is found exactly if none has it |
| `Versions.TableVersion.Initial` | engine/src/engine.cpp:20 | a fresh version has four empty levels |
| `Versions.TableVersion.CopyFrom` | engine/src/table_version.cpp:5-14 | a copy stands for the same levels of tables |
| `Versions.TableVersion.FindSSTableById` | engine/src/table_version.cpp:16-22 | the table with the id, or none |
| `Versions.TableVersion.AddSSTable` | engine/src/table_version.cpp:24-31 | appends the table to its level, growing the levels if needed, and keeps metadata and tables consistent |
| `Versions.TableVersion.RemoveSSTablesByIds` | engine/src/table_version.cpp:33-50 | removes exactly the listed tables from every level, keeping the order of the others |
| `Versions.TableVersion.SortLevel` | engine/src/engine.cpp:777-780 | sorts one level by smallest key and leaves the rest |
| `StorageEngines.ScanLevel0` | engine/src/engine.cpp:178-188 | the loop over level 0 computes the scan on the tables the version stands for |
| `StorageEngines.ProbeLevel` | engine/src/engine.cpp:189-203 | the lower-bound probe of one level computes its answer for the key |
| `StorageEngines.SearchVersion` | engine/src/engine.cpp:171-209 | the level loop with `continue` and `break` computes the specified search |
| `StorageEngines.HullOf` | engine/src/engine.cpp:651-658 | the loop computes the key range of the sources |
| `StorageEngines.OverlappingMetas` | engine/src/engine.cpp:671-682 | the loop picks exactly the metadata of the overlapping tables |
| `StorageEngines.PickInputs` | engine/src/engine.cpp:660-686 | the tables to merge and the ids to remove, from the snapshot |
| `StorageEngines.CopyMap` | engine/src/engine.cpp:349-357 | the entry-by-entry copy of a rotation reproduces the memtable exactly |
| `StorageEngines.MergeInputs` | engine/src/engine.cpp:684-745 | picks the inputs and merges them into a sorted map that is the merge of what the snapshot holds |
| `StorageEngines.StorageEngine.constructor` | engine/src/engine.cpp:3-30 | a new engine is the fresh state with an empty cache of the given size, or none for size 0 |
| `StorageEngines.StorageEngine.ApplyWrite` | engine/src/engine.cpp:501-527 | one request performs the write step: memtable, sequence number, cache invalidation; the invariant is kept |
| `StorageEngines.StorageEngine.Get` | engine/src/engine.cpp:145-222 | returns exactly the uncached lookup, whatever the cache holds, and performs the read step |
| `StorageEngines.StorageEngine.ReadStores` | engine/src/engine.cpp:154-215 | a cache miss answers from the three stores |
| `StorageEngines.StorageEngine.CheckFlush` | engine/src/engine.cpp:349-360 | performs the rotation step |
| `StorageEngines.StorageEngine.InstallFlush` | engine/src/engine.cpp:399-430 | performs the flush-install step on a copied version and clears the cache |
| `StorageEngines.StorageEngine.ReleaseImmutable` | engine/src/engine.cpp:435 | performs the drop-immutable step |
| `StorageEngines.StorageEngine.StartCompaction` | engine/src/engine.cpp:643-647 | takes a snapshot if and only if the level is not empty |
| `StorageEngines.StorageEngine.FinishCompaction` | engine/src/engine.cpp:651-795 | merges the snapshot and performs an enabled install step, or none when nothing is left |
| `StorageEngines.StorageEngine.InstallVersion` | engine/src/engine.cpp:767-782 | copy, remove, add, sort, install: the new version stands for the specified edit of the version current by then |
| `Replication.InvStep` | distributed/replication/leader.cpp:48-79 | append, commit, read-back, ship, deliver (any message, any number of times, in any order or never) and apply steps keep the protocol invariant |
| `Replication.ReceiveAdds` | distributed/replication/follower.cpp:122-138 | a message adds its entries at the end, raises term and commit index to the greater ones, and applies nothing |
| `Replication.AppliedIsLogPrefix` | distributed/replication/follower.cpp:159-187 | in every run each follower's applied history is the leader's log up to its `last_applied_`: no index skipped, repeated or reordered; the same for the leader's own apply loop |
| `Replication.FollowersPrefixComparable` | distributed/replication/follower.cpp:159-187 | any two followers' histories are prefix-comparable in every state |
| `Delivery.StrandedForever` | distributed/replication/leader.cpp:56-61 | a stranded entry is never shipped, and no follower ever applies it or anything after it |
| `Delivery.OfferedExactly` | distributed/replication/leader.cpp:56-61 | an entry is shipped, or about to be, if and only if some call read the log back while that entry was the last |
| `Delivery.OvertakingStrands` | distributed/replication/leader.cpp:48-79 | an entry is stranded if and only if another append overtook it before any call read it back, and then no follower gets as far as that entry, now or later |
| `Delivery.StrandingIsReachable` | distributed/replication/leader.cpp:48-61 | two overlapping calls are enough to strand an entry |
| `Delivery.RunPledged` | distributed/replication/leader.cpp:51-59 | in every run a commit index that covers the whole log, and the last entry, are shipped or still on their way |
| `Delivery.NodeCatchesUpExactly` | distributed/replication/follower.cpp:159-187 | once no call is in flight, a node that has received every message applies the whole log if and only if no entry is stranded |
| `Delivery.FollowersCatchUpExactly` | distributed/replication/follower.cpp:122-187 | the same for a new follower and any order and multiplicity of the messages, with the condition also read off the schedule: every entry but the last was read back while it was the last |
| `Delivery.ShippedExactly` | distributed/replication/leader.cpp:48-67 | once no call is in flight, the entries shipped are exactly the last one and those read back while they were the last, and some message carries a commit index that covers the whole log |
| `Delivery.SerialShipsEverything` | distributed/replication/leader.cpp:48-67 | with one call at a time, once none is in flight every entry has been shipped together with a commit index that covers it |
| `Delivery.SerialFollowersCatchUp` | distributed/replication/follower.cpp:122-138 | hence, with one call at a time, every follower that has received all messages applies the whole log |
| `Replication.ApplyAllExact` | distributed/replication/follower.cpp:159-187 | the apply loop stops at the commit index or at the first missing entry, and at no other place |
| `Replication.CaughtUp` | distributed/replication/follower.cpp:159-187 | a follower holding all committed entries applies the whole log |
| `Replication.FollowerNode.HandleReplication` | distributed/replication/follower.cpp:122-138 | performs the receive step |
| `Replication.FollowerNode.FindEntry` | distributed/replication/follower.cpp:164 | the first entry with the index, or none |
| `Replication.FollowerNode.ApplyLoop` | distributed/replication/follower.cpp:159-187 | performs apply steps until none is possible |
| `Replication.LeaderNode.AppendLog` | distributed/replication/leader.cpp:69-79 | appends the entry under the next index and keeps indices consecutive from 1 |
| `Replication.LeaderNode.Replicate` | distributed/replication/leader.cpp:48-67 | an undisturbed call commits the whole log and ships exactly the entry it appended |
| `DoubleApply.ExecutedValue` | server/src/tcp_server.cpp:361-377 | executing a log leaves under each key the effect of its last write |
| `DoubleApply.InterleavedLast` | server/src/tcp_server.cpp:284-324 | the last write to a key in any interleaving of two streams is the last of one of them |
| `DoubleApply.TwiceIsOnce` | server/src/tcp_server.cpp:284-324 | every interleaving of the log with itself ends in the store of executing it once |
| `DoubleApply.ConcurrentExact` | server/src/tcp_server.cpp:284-324 | when local writes may come in another order than the log, every interleaving ends like the log if and only if each key's last local write has the effect of its last logged one |
| `DoubleApply.StreamsInterleave` | server/src/tcp_server.cpp:299-324 | the leader's engine sees an interleaving of the handlers' local writes and the apply loop's writes |
| `DoubleApply.LocalInvStep` | server/src/tcp_server.cpp:299-324 | every step keeps the balance of log entries, local writes done and local writes owed |
| `DoubleApply.LeaderMatchesExactly` | server/src/tcp_server.cpp:284-324 | in every run, a drained leader and a caught-up follower hold the same store if and only if no key was last written by a local write with another effect than its last logged one; the handlers have by then written exactly the log's entries |
| `DoubleApply.DisjointCommandsMatch` | server/src/tcp_server.cpp:284-324 | if commands on the same key never overlap, whatever the others do, a drained leader and a caught-up follower hold the same store |
| `DoubleApply.LeaderMatchesFollower` | server/src/tcp_server.cpp:284-324 | in particular with one command at a time |
| `DoubleApply.DivergenceIsReachable` | server/src/tcp_server.cpp:299-310 | two puts to one key, replicated one after the other but written locally in the other order, leave leader and follower with different values |
| `DoubleApply.EngineHoldsStore` | server/src/tcp_server.cpp:361-377 | the engine's last-write specification of the executed entries is that store |
| `Commands.LogIsCommands` | distributed/replication/leader.cpp:69-79 | the log holds the commands given, each with its own operation, key and value, in the order of the appends |
| `Commands.CommandStays` | distributed/replication/leader.cpp:69-79 | a command, once appended, keeps its place, operation, key and value in every later state |
| `Commands.FollowerObeys` | server/src/tcp_server.cpp:361-377 | in every run a follower's store is what the first so many commands make of an empty store, 1 being put and 2 being delete, as many as it has applied |
| `Commands.LeaderObeys` | server/src/tcp_server.cpp:284-324 | if commands on the same key never overlap, a drained leader's store is what its commands make |
| `Commands.HistoryOfRun` | server/src/tcp_server.cpp:361-377 | an engine run that makes the writes of the executed entries has exactly the history the store law speaks of |
| `Commands.EngineServesStore` | server/src/tcp_server.cpp:361-377 | such an engine answers every key of the store with its value, and every other key with nothing unless a compaction has uncovered it |
| `Wire.ParseDigits` | distributed/replication/log_entry.cpp:8-12 | a printed number is read back by `stoull` and `stoi`, and contains neither delimiter nor newline |
| `Wire.NumberRead` | distributed/replication/log_entry.cpp:33-37 | how a number is read: space before it and text behind it ignored, one sign allowed, 64-bit numbers wrapping when negative and failing on overflow, operations 32-bit and cut to a byte |
| `Wire.NoNumber` | distributed/replication/log_entry.cpp:33-37 | a text without a digit where the number should be fails |
| `Wire.TokenAt` | distributed/replication/log_entry.cpp:18-26 | a delimiter-free token is read back whole from any position and the cursor lands behind its delimiter |
| `Wire.EntryRoundTrip` | distributed/replication/log_entry.cpp:8-52 | every entry is read back, whatever bytes its key and value hold, delimiters included |
| `Wire.EntriesRoundTrip` | distributed/replication/log_entry.cpp:58-91 | a list of entries is read back from its length-prefixed text |
| `Wire.MessageRoundTrip` | distributed/replication/log_entry.cpp:54-100 | a message is read back if it has at least one entry; one with none is always rejected |
| `Wire.NoDelimiter` | distributed/replication/log_entry.cpp:66-74 | a text without a delimiter is neither an entry nor a message |
| `Formats.MessageSample` | distributed/replication/log_entry.cpp:54-64 | the exact text of a message with one entry |
| `Wire.Deserialize` | distributed/replication/log_entry.cpp:66-100 | the cursor-based parser computes the specified parse, error cases included |
| `Wire.ReadEntries` | distributed/replication/log_entry.cpp:86-91 | the entry loop computes the specified list or fails with it |
| `Framing.TakeLinesConcat` | distributed/replication/follower.cpp:98-103 | splitting a buffer early or late yields the same lines and the same rest |
| `Framing.TakeLinesExactly` | distributed/replication/follower.cpp:98-103 | splitting loses nothing: lines and rest joined by newlines are the buffer, and none holds a newline |
| `Framing.DeliverExactly` | distributed/replication/follower.cpp:105-117 | a line is delivered exactly if it is not empty and parses; anything else is passed over |
| `Framing.FeedAllIsSplit` | distributed/replication/follower.cpp:92-119 | where received data is cut does not matter |
| `Framing.MessageNewlineFree` | distributed/replication/log_shipper.cpp:105-106 | a message whose keys and values have no newline has none itself |
| `Framing.StreamDelivers` | distributed/replication/log_shipper.cpp:105-106 | newline-terminated messages split back into exactly the messages sent |
| `Framing.ChunkedStreamDelivers` | distributed/replication/follower.cpp:88-120 | any list of sendable messages, cut into any receive chunks, is delivered exactly, in order, with nothing left over |
| `Framing.ConsumeLines` | distributed/replication/follower.cpp:100-118 | the inner loop delivers the parsable non-empty lines and keeps the unfinished rest |
| `Framing.HandleConnection` | distributed/replication/follower.cpp:88-120 | the receive loop over all chunks delivers as specified |
| `Encoding.LERoundTrip` | engine/src/wal.cpp:128-134 | a number that fits is read back from its little-endian bytes |
| `Encoding.LittleEndian` | engine/src/wal.cpp:128-134 | the least significant byte comes first |
| `Formats.LogRecordLayout` | engine/src/wal.cpp:128-134 | checksum, number, operation, two lengths, key and value at their positions |
| `Wal.ReadBodyWhole` | engine/src/wal.cpp:176-184 | a record that is wholly there is read back whatever the loop's variables held before |
| `Wal.ReplayWhole` | engine/src/wal.cpp:165-193 | replay passes over any number of whole records, leaving the last one's fields behind |
| `Wal.ReplayAll` | engine/src/wal.cpp:165-193 | the whole log replays to all records in order |
| `Wal.ReplayTorn` | engine/src/wal.cpp:175-192 | a record cut short ends the replay, and is applied only if the checksum of the tuple assembled with leftover fields matches |
| `Wal.DamageEndsReplay` | engine/src/wal.cpp:185-191 | behind any whole records, bytes whose checksum does not match end the replay |
| `Wal.LeftoverFields` | engine/src/wal.cpp:170-184 | a record of which only the checksum is there takes its other fields from the record before it |
| `Wal.FourBytes` | engine/src/wal.cpp:170-191 | at the front of a log those fields are zero |
| `Wal.CoveredIsWhole` | engine/src/wal.cpp:165-193 | records whose bytes a prefix covers are among the whole ones |
| `Wal.CutPrefix` | engine/src/wal.cpp:165-193 | any byte prefix of a log is some whole records followed by a strict prefix of the next |
| `Wal.ReplayPrefixExact` | engine/src/wal.cpp:165-193 | replaying any byte prefix applies exactly the whole records, plus the torn tuple if and only if its checksum matches; no hypothesis on the checksum |
| `Wal.ReplayPrefix` | engine/src/wal.cpp:165-193 | hence a prefix of the appended records, provided the one torn tuple does not collide |
| `Wal.ReplayFile` | engine/src/wal.cpp:165-193 | the reading loop applies exactly the specified records |
| `GroupCommit.InvStep` | engine/src/wal.cpp:54-79 | append, swap, write, generation load and publish, and the steps of any number of flushes keep the group-commit invariant |
| `GroupCommit.NothingLost` | engine/src/wal.cpp:54-79 | in every run file ++ sync buffer ++ write buffer is all appended bytes in order |
| `GroupCommit.EarlierFlushDurable` | engine/src/wal.cpp:137-148 | when a flush may return, everything appended before an earlier, already returned flush began is in the file |
| `GroupCommit.FloorCoversReturned` | engine/src/wal.cpp:137-148 | that bound covers every flush that had returned when this one began |
| `GroupCommit.QuietFlushDurable` | engine/src/wal.cpp:137-148 | a flush that began while no sync was between its swap and its generation load, or with nothing in the write buffer, finds its own records in the file when it returns |
| `GroupCommit.UnquietFlushMayLie` | engine/src/wal.cpp:62-78 | at any other moment a flush can return before its own records are in the file: the condition is exact |
| `GroupCommit.UnquietIsReachable` | engine/src/wal.cpp:54-66 | such a moment is reached |
| `GroupCommit.CrashReplay` | engine/src/wal.cpp:165-193 | whatever byte prefix of the file survives a crash at any moment of any run, replay applies a prefix of the appended records, given no collision on the torn tuple |
| `GroupCommit.WriteAheadLog.Append` | engine/src/wal.cpp:104-135 | appends the record's encoding field by field |
| `GroupCommit.WriteAheadLog.RequestSync` | engine/src/wal.cpp:137-139 | takes the next generation and waits for it |
| `GroupCommit.WriteAheadLog.DoSync` | engine/src/wal.cpp:54-79 | moves the write buffer to the end of the file and publishes the current generation |
| `WritePipeline.InvStep` | engine/src/engine.cpp:484-547 | pushes, shutdown, batch pops, single writes and completions keep the pipeline invariant |
| `WritePipeline.CompletedOnceInOrder` | engine/src/engine.cpp:543-545 | in every run each accepted request is completed exactly once, in acceptance order, with success exactly for PUT and DELETE |
| `WritePipeline.NumberedInAcceptanceOrder` | engine/src/engine.cpp:498-531 | the log holds the accepted writes in acceptance order numbered 1, 2, 3, ... |
| `WritePipeline.NumberedInOrder` | engine/src/engine.cpp:501-523 | numbering gives strictly increasing numbers with none left out |
| `WritePipeline.Recover` | engine/src/engine.cpp:279-298 | rebuilds the memtable from the replayed records and continues above the highest number |
| `WritePipeline.MaxSeqOfNumbered` | engine/src/engine.cpp:280-296 | the highest replayed number of a log numbered from 1 is its length |
| `WritePipeline.MaxSeqIsMax` | engine/src/engine.cpp:280-284 | the number recovery goes on from is the greatest replayed, or the start |
| `WritePipeline.RebuiltHolds` | engine/src/engine.cpp:285-291 | for any requests and key, the memtable built from their log holds the key's last write: its value as a PUT, or a DELETE without value, numbered among all writes; and nothing for a key not written |
| `WritePipeline.MemtableHolds` | engine/src/engine.cpp:501-523 | in every run the live memtable holds that of the requests processed |
| `WritePipeline.RecoveredHolds` | engine/src/engine.cpp:279-298 | the memtable recovered from the log of any requests holds that of the requests |
| `WritePipeline.AcceptedOrRefused` | engine/src/write_queue.cpp:19-24 | in every run a pushed request is accepted exactly if no shutdown came before it, and refused exactly if one did |
| `WritePipeline.QueueBounded` | engine/src/write_queue.cpp:17 | in every run the queue holds at most 10000 requests and a batch at most 1000 |
| `WritePipeline.BatchTaken` | engine/src/write_queue.cpp:67-70 | a batch is all there is, or the first 1000 |
| `WritePipeline.RecoveryRebuildsMemtable` | engine/src/engine.cpp:279-298 | before the first rotation, replaying the bytes of all logged records rebuilds the live memtable exactly and the numbering continues where the writer was |
| `Durability.InvStep` | engine/src/engine.cpp:484-547 | writer steps and log steps together keep the log's bytes equal to the logged records and each batch's flush behind the one before it |
| `Durability.CompletedSurvives` | engine/src/engine.cpp:498-545 | once a batch is completed, a crash at that or any later moment of any run, leaving any bytes between what was synced and what was appended, loses no request of an earlier batch, and none of the batch itself if its flush began at a quiet moment |
| `Durability.CrashRecovers` | engine/src/engine.cpp:279-298 | after a crash at any moment of any run, recovery builds the memtable of some first so many accepted requests: for every key the last write among them |
| `Durability.SyncedRecovery` | engine/src/engine.cpp:279-298 | once everything appended is synced, replaying the file gives exactly the live memtable, the log and the next sequence number |
| `Durability.CompletionExact` | engine/src/engine.cpp:532-545 | whenever the writer of any run is about to flush a batch, some continuation completes the batch and loses it in a crash if and only if the moment is not quiet |
| `Durability.CompletedCanBeLost` | engine/src/engine.cpp:532-545 | such a moment is reached: a run in which a write is reported as stored and is not in the synced file |
| `WritePipeline.WriteQueue.Push` | engine/src/write_queue.cpp:10-29 | enqueues at the end, or refuses after shutdown |
| `WritePipeline.WriteQueue.PopBatch` | engine/src/write_queue.cpp:48-79 | takes a prefix of the queue, full-sized unless the queue runs empty |
| `Bloom.AddedContains` | engine/src/bloom_filter.cpp:35-45 | an added key is contained, and adding removes no other key |
| `Bloom.NoFalseNegatives` | engine/src/bloom_filter.cpp:35-45 | after any additions every added key is contained, for every hash function |
| `Bloom.ProbeFormula` | engine/src/bloom_filter.cpp:15-29 | where the i-th probe of a key goes, written out |
| `Bloom.ContainsExactly` | engine/src/bloom_filter.cpp:35-45 | a filter built from keys contains exactly the keys all of whose probes are probes of added keys |
| `Bloom.EmptyContainsNothing` | engine/src/bloom_filter.cpp:42-45 | a new filter contains nothing |
| `Bloom.PowerHasOneBit` | engine/src/bloom_filter.cpp:66-68 | bit t alone is worth 2 to the t |
| `Bloom.WithBitSets` | engine/src/bloom_filter.cpp:64-70 | setting a bit of a number sets that bit and no other |
| `Bloom.BitsDetermine` | engine/src/bloom_filter.cpp:64-70 | a number below 2^n is determined by its n bits |
| `Bloom.PackingUnique` | engine/src/bloom_filter.cpp:63-70 | a bit array has one packed form |
| `Bloom.Pack` | engine/src/bloom_filter.cpp:63-70 | the loop packs exactly the set bits, padding clear |
| `Bloom.SetBitAt` | engine/src/bloom_filter.cpp:66-68 | sets exactly one bit of the byte array |
| `Bloom.UnpackPacked` | engine/src/bloom_filter.cpp:94-100 | unpacking a packed array restores the bits |
| `Bloom.Serialize` | engine/src/bloom_filter.cpp:47-72 | produces the three size fields and the packed bits |
| `Formats.FilterSample` | engine/src/bloom_filter.cpp:47-72 | the exact bytes of a small filter |
| `Bloom.FilterRoundTrip` | engine/src/bloom_filter.cpp:47-102 | a filter is restored from its bytes |
| `Bloom.BloomFilter.Add` | engine/src/bloom_filter.cpp:35-40 | sets exactly the probe positions of the key |
| `Bloom.BloomFilter.ContainsKey` | engine/src/bloom_filter.cpp:42-45 | true exactly when all probe positions are set |
| `SSTables.Flush` | engine/src/sstable.cpp:54-133 | writes the data, the key range, every sixteenth key with its offset, the filter of all keys and the data end |
| `SSTables.PointRead` | engine/src/sstable.cpp:135-197 | the point read with its index search computes the specified read |
| `SSTables.ScanLoop` | engine/src/sstable.cpp:167-195 | the bounded scan loop computes the specified scan |
| `Formats.TableRecordLayout` | engine/src/sstable.cpp:91-96 | number, type, two lengths, key and value at their positions |
| `Formats.MetadataSample` | engine/src/sstable.cpp:107-130 | the exact metadata bytes of a small table |
| `SSTableProof.ReadRecExact` | engine/src/sstable.cpp:170-186 | a record is read back and the next one found if and only if it is a PUT or its value is empty |
| `SSTableProof.DeleteNotSkipped` | engine/src/sstable.cpp:177-186 | a DELETE is read as zeros of its stored length with the cursor left right behind its key |
| `SSTableProof.FileNotRead` | engine/src/sstable.cpp:136-142 | keys outside the range or not in the filter are answered without the file |
| `SSTableProof.RecAt` | engine/src/sstable.cpp:174-186 | in a snapshot's file reading at a record's offset gives the record and the next offset |
| `SSTableProof.ScanFinds` | engine/src/sstable.cpp:167-195 | scanning between two record offsets finds exactly what the records between them hold |
| `SSTableProof.IndexEntries` | engine/src/sstable.cpp:80-84 | index entry j is key number 16 j with its offset |
| `SSTableProof.UpperBoundEncloses` | engine/src/sstable.cpp:151-161 | the key lies at or above the entry before the bound and below the bound |
| `SSTableProof.IndexedScan` | engine/src/sstable.cpp:147-196 | for a key in the table's range the scan bounded by the index finds what the whole snapshot holds |
| `SSTableProof.GetIsFind` | engine/src/sstable.cpp:135-197 | through range check, Bloom filter, sparse index and bounded scan, every point read returns exactly what the snapshot holds, for present and absent keys |
| `SSTableProof.IteratorEnumerates` | engine/src/sstable.cpp:281-320 | iteration yields exactly the snapshot in key order |
| `SSTableProof.FileCoversValues` | engine/src/sstable.cpp:89-96 | the file is at least as long as any value in it |
| `SSTableProof.Iterator.constructor` | engine/src/sstable.cpp:281-289 | a new iterator has everything before it |
| `SSTableProof.Iterator.ReadNext` | engine/src/sstable.cpp:291-320 | reads the record at the cursor or ends the iteration |
| `SSTableProof.Iterator.Advance` | engine/src/sstable.cpp:322-324 | drops the first of the remaining records |
| `SSTableReopen.LoadIndexAt` | engine/src/sstable.cpp:253-266 | the index is restored from its bytes, wherever it lies in the file |
| `SSTableReopen.MetadataRoundTrip` | engine/src/sstable.cpp:231-275 | key range, index, data end and filter are restored from the file |
| `SSTableReopen.ReopenRestores` | engine/src/sstable.cpp:231-275 | reopening a flushed table from its bytes restores it exactly, packed filter included |
| `SSTableReopen.ReopenedGetIsFind` | engine/src/sstable.cpp:135-197 | point reads of a reopened table still answer from the snapshot |
| `EndToEnd.EngineTablesAreSnapshots` | engine/src/sstable.cpp:54-133 | in every run of the engine every table is a snapshot the file format carries faithfully |
| `EndToEnd.FilesServeTheEngine` | engine/src/sstable.cpp:135-197 | hence the files' point reads and iterators are the lookups and runs the engine proofs use |

## Left out

- Grain of the steps: a rotation is one step, and so is each copy-edit-install of a version. At a finer grain the source has no lock that protects them: `flush()` from a user thread can race the writer between snapshot and clear, and two version copies can be in flight at once.
- A cache fill racing an invalidation: with the cache on, whole operations are the steps; the three-sample `get` is treated with the cache off.
- Compaction scheduling: the engine machine admits any schedule of compactions at levels 0 to 2, one at a time, so its theorems cover the program's; the triggers appear only in `Resurrection`. `sizeBytes` is a parameter there, and `maxSeq`, `version_number` and a version's own `flush_counter` are not modelled because nothing modelled reads them.
- Sequence numbers and table ids are unbounded in the engine machine; 64-bit wrap-around of them is not modelled. Where a byte or text format limits a field, the limit is a hypothesis (`Fits`, `FitsRec`, `FitsEntry`, `FitsMessage`, `FitsTable`).
- Crash recovery after the first rotation: the log file is unlinked while its descriptor stays open (engine/src/engine.cpp:367 against engine/src/wal.cpp:7), so later records are not in a file that replay would find.
- Restart of a leader or follower: both logs live in memory only. The leader's term is always 0, as nothing in the source changes it.
- CRC-32 and `std::hash` are arbitrary functions; no collision is excluded except for the single torn record of `ReplayPrefix`, `CrashReplay` and `CompletedSurvives`. The Bloom filter's size and probe count are any positive size and any count; its false-positive rate is not treated.
- `findSSTableById` compares ids; the source searches for `_<id>.` in the file name, which agrees as long as the directory path contains no such text.
- Reads past the end of a table file are `None` in the model; the source would go on with whatever the failed reads left. Flushed files never lead there. Integers are stored little-endian, as on the hosts the source targets.
- `std::priority_queue`, `std::sort`, `std::lower_bound`, `std::upper_bound`, `std::map` and `std::list` are stand-ins with the library's contract (a set with a least-element search, insertion by key, linear searches, sorted sequences); their internal layout is not modelled.
- Failed or partial `write`, a log that cannot be opened, and exceptions in the writer loop (engine/src/engine.cpp:536-541), which would report a whole batch as failed, are not modelled.
- The writer on top of the log (`Durability`) and the engine machine are separate models of the writer: the one stops at the first rotation, the other has no log file.
- WritePipeline.RecoveryRebuildsMemtable: takes the bytes of all logged records for the file; what the group commit has synced of them is the subject of `Durability.SyncedRecovery` and `Durability.CompletedSurvives`.
- Delivery.SerialShipsEverything: is about calls that never overlap, where each entry travels with its own commit index; for all runs see `Delivery.ShippedExactly`.
- Delivery.SerialFollowersCatchUp: is the corollary for calls that never overlap; for all runs see `Delivery.FollowersCatchUpExactly`.
- DoubleApply.LeaderMatchesFollower: is the corollary for commands that never overlap; for all runs see `DoubleApply.LeaderMatchesExactly`.
- WritePipeline: waiting on condition variables appears as steps that are not enabled; the batch-size yield at engine/src/write_queue.cpp:59-63 only lets other steps run in between.
- StorageEngines.StorageEngine.Get: is one undisturbed call; interleaved calls are the subject of `EngineReads.SampledGetExact`.
- Replication.FollowerNode.ApplyLoop: is the loop with nothing arriving meanwhile; arrivals between rounds are steps of the cluster machine. An apply is one step although the source releases its lock around the callback.
- Sockets, retries, acknowledgements, heartbeat, node registry, command and protocol parsers, configuration, `levels.txt` and `metadata.txt`, `clearData`, `ls`, `getSize`, the Go client, benchmarks and deployment: input and output, or only easy members.
