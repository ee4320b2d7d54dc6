# Verification models of an LSM store's iterators and caches

Dafny models of five components of this repository (RocksDB with a persistent-memory store), with
proofs that hold for every input, every run and every interleaving. `dafny verify dfyconfig.toml`
checks the whole project.

| files | component |
|---|---|
| `DbFormat.dfy`, `SnapshotView.dfy`, `DbIter.dfy`, `ViewMeaning.dfy` | `DBIter`: the bidirectional user-key iterator over a sorted stream of versioned entries |
| `SuperVersion.dfy`, `SuperVersionRuns.dfy` | the lock-free cache of super versions in thread-local slots, its installer, its readers and `Refresh` |
| `ClockCache.dfy`, `ClockRuns.dfy`, `ClockLookup.dfy`, `ClockEviction.dfy`, `ClockInsert.dfy`, `ClockShard.dfy` | `ClockCacheShard`: atomic flag words, handle reuse, lookups without the mutex, and the eviction scan |
| `LruModel.dfy`, `LruOps.dfy`, `LruPolicy.dfy`, `LruRuns.dfy`, `LruTable.dfy`, `LruCache.dfy`, `LruHistory.dfy` | `LRUHandleTable` and `LRUCacheShard`: a chained hash table and a two-pool circular list relinked in place |
| `Sharded.dfy` | `ShardedCache`: the split by hash bits |
| `Wrappers.dfy` | `Option` |

**DBIter.** `SnapshotView` says what a client should see: what the versions of a key amount to, the
table of live rows, and a plain cursor over it. `DbIter.DBIter` is the class of the source, field for
field, over an inner iterator that is a position in the stream. `DBIter.Run` shows that for any
stream, snapshot, bounds, `max_skip_` and sequence of calls the client sees exactly the run of the
plain cursor; only a limit on skipped internal keys can cut a call short, and only one below three
times the number of entries (an entry can be counted more than once in a call). `ViewMeaning` says what
the view and the cursor are on the fields of entries alone.

**Super versions.** A transition system with any number of threads; swap, version check, unref,
lock-and-ref, compare-and-swap, every slot of a scrape, and cleanup are separate steps. The invariant
counts references; `EveryRunIsSafe` is about all schedules. The comment at
db/column_family.cc:1231-1233 says that a super version put back is still current. That is not so
while an installer has replaced it but has not yet scraped the slot: `ReturnOfReplaced` is such a run
for each of the two places that put one back, and `ReturnedIsCurrent` gives the exact condition. The
code is right all the same, because the slot is then scraped. Nor does a slot that caches something
with the mutex free always cache the current super version: `CachedDuringTeardown` is a run that drops
the column family first, and `SlotsWithMutexFree` says that this is the only way. `SuperVersionRuns` is
about whole runs of a reader: how fresh a Get is, when it takes no lock, and when Refresh keeps.

**Clock cache.** Every atomic operation on a flag word is a step of its own in an interleaving of any
number of threads, the clearing of the usage bit after a failed eviction included; so is every change of
the table. What the mutex holder does to the bin, the usage and the fields of a free handle goes with a
neighbouring step, since nobody else looks at them. Handles carry the number of their occupancy, so that
"recycled at most once" and "deleted only after Release" can be said about runs.

Three things that one might expect do not hold, and each has a run that shows it and an exact condition:

- Release sets the usage bit, so that the clock hand should pass the entry once before it takes it. A hand
  that has already failed on the entry can clear the fresh mark: `MarkIsLost`, `ReleasedIsSparedOnce`.
- Lookup should return an entry that was in the table while it ran, and miss only a key that was not. It
  can return an entry that its Insert has yet to enter, which a later Lookup then misses, and it can miss
  an entry that an eviction has yet to take out: `ReturnedBeforeEntered`, `MissedBeforeErased`,
  `LookupIsExplained`.
- `EvictFromCache` should fail only if the charge does not fit. It does not look at the usage again after
  its last step: `GivesUpThoughItFits`, `GivesUpRightly`, and the contract of `EvictFromCache`.

`EvictFromCache`, `SetCapacity` and `Insert` are methods of a class, for the mutex holder with no `Ref` in
between; `ScanReached` and `InsertReached` show that the protocol gets where they get.

**LRU cache.** `LruModel` is the shard over values: entries, a table, a low and a high pool, and the
three running sums. `LruOps` has each operation as a function, `LruPolicy` what single calls promise,
and `LruRuns` what sequences of calls promise: which value a hit returns, that a held entry stays, when
a deleter may run. `LruTable` and `LruCache` are the classes of the source: handles linked through
`next`, `prev` and `next_hash`, buckets in an array, and methods that relink them; every method is
proved to do what the function of the model does. `LruHistory` adds a record of the Inserts to the
class, and shows that each of its calls is a call of `LruRuns`. `SetCapacity` does not shrink the
high-priority pool: `PoolBoundCanBreak` is a run and `PoolAfterSetCapacity` the exact condition.

**Sharded cache.** Shards are those of `LruRuns`, so the theorems about one shard lift to the whole.

Conventions: byte counts are unbounded naturals and the pool ratio is a real; a user key is a real
number, since any order on byte strings embeds in the reals; the merge operator is an arbitrary total
function of the key, the optional base and the operands; a handle's charge includes its metadata;
`hash & (length - 1)` is computed bit by bit and proved to be the remainder.

## Model

| member | source | states |
|---|---|---|
| `SnapshotView.ViewIsLiveKeys` | db/db_iter.h:52-69 | the reference view has, in key order, a row for a user key exactly if the key is inside the bounds and its versions visible at the snapshot leave a value, and the row carries that value |
| `SnapshotView.FirstShownIsFirstRow` | db/db_iter.cc:1242-1302 | the least shown key past a bound, and nothing else, is what a forward cursor over that view finds |
| `SnapshotView.LastShownIsLastRow` | db/db_iter.cc:1304-1366 | the greatest shown key before a bound, and nothing else, is what a backward cursor finds |
| `ViewMeaning.ViewByFields` | db/db_iter.cc:288-395 | said of the fields of entries: the view has a row with a value exactly if the key is inside the bounds and its newest visible version is a put outside every range deletion with that value, or begins a run of such merge operands whose merge, oldest first, over the put that ends the run, if any, is that value |
| `ViewMeaning.ErasedHasNoRow` | db/db_iter.cc:340-360 | a newest visible version that is a deletion, a single deletion or inside a range deletion hides the key, whatever lies below it |
| `ViewMeaning.CursorByKeys` | db/db_iter.cc:1242-1464 | said of keys: each call ends on the nearest row at or past, at or before, past or before the key it goes by, or becomes invalid exactly if there is none |
| `ViewMeaning.CursorRunAt` | db/db_iter.h:56-69 | each call of a run is one such step over the view at the snapshot last set |
| `SnapshotView.GapIsDead` | db/db_iter.cc:196-284 | no key between neighbouring keys of the stream has a visible version |
| `SnapshotView.SkipUnmatched` | db/db_iter.cc:1190-1208 | versions of other keys or beyond the snapshot do not change what a key amounts to |
| `DbFormat.FirstAtOrAfterSplits` | db/dbformat.h:697-737 | Seek of the inner iterator splits the stream into the entries before the target and the rest |
| `DbFormat.LastAtOrBeforeSplits` | db/dbformat.h:697-737 | SeekForPrev of the inner iterator splits the stream after the last entry that is not past the target |
| `DbIter.MergeContext.PushOperand` | db/merge_context.h:31-44 | the operand comes before all others in oldest-first order, whichever way the list is stored |
| `DbIter.MergeContext.PushOperandBack` | db/merge_context.h:46-60 | the operand comes after all others in oldest-first order, whichever way the list is stored |
| `DbIter.NewestDecides` | db/db_iter.cc:288-395 | a newest visible version that is a put or is deleted settles the key; no visible version leaves it absent |
| `DbIter.MergeStops` | db/db_iter.cc:493-601 | a merge that stops at a put, a deletion, another key or the end has exactly the operands and the base that the versions amount to, and ends where the position rule says |
| `DbIter.OperandsApply` | db/db_iter.cc:508-560 | a run of merge operands applied to what is older gives the outcome of the whole run |
| `DbIter.SearchReaches` | db/db_iter.cc:265-300 | stepping past the saved key to a visible entry of the next key keeps every key in between settled as dead |
| `DbIter.SearchReseeksPast` | db/db_iter.cc:425-477 | the reseek after too many skips never jumps over an entry that matters |
| `DbIter.SearchFails` | db/db_iter.cc:215-245 | running off the stream or past the upper bound means that no live key is left there |
| `DbIter.ScanReads` | db/db_iter.cc:783-867 | one step of the old-to-new scan keeps its summary equal to what the versions read so far amount to |
| `DbIter.ScanEnds` | db/db_iter.cc:874-942 | when the scan stops, its summary is the outcome of the key |
| `DbIter.DBIter.TooManyInternalKeysSkipped` | db/db_iter.cc:1178-1188 | fails exactly if a limit is set and already exceeded, and counts otherwise |
| `DbIter.DBIter.FindNextUserEntry` | db/db_iter.cc:190-491 | ends on the first live key past a bound with rules (1a) and (1b) kept, or finds that there is none; terminates for every max_skip_, including 0 |
| `DbIter.DBIter.MergeValuesNewToOld` | db/db_iter.cc:493-601 | the forward resolver leaves the merge of the operands and base that the visible versions amount to |
| `DbIter.DBIter.ReverseToForward` | db/db_iter.cc:641-674 | after a change of direction the inner iterator is where a forward search for the next key may begin |
| `DbIter.DBIter.Next` | db/db_iter.cc:122-188 | ends on the least shown key above the current one with its value, or becomes invalid exactly if there is none, from either direction |
| `DbIter.DBIter.SetSavedKeyToSeekTarget` | db/db_iter.cc:1210-1225 | the target is raised to the lower bound |
| `DbIter.DBIter.Seek` | db/db_iter.cc:1242-1302 | ends on the least shown key at or above the target, or becomes invalid exactly if there is none |
| `DbIter.DBIter.SeekToFirst` | db/db_iter.cc:1368-1413 | ends on the least shown key, or becomes invalid exactly if there is none |
| `DbIter.DBIter.FindUserKeyBeforeSavedKey` | db/db_iter.cc:1121-1176 | ends just before all entries of the saved key, by steps or by a reseek, and always terminates |
| `DbIter.DBIter.FindValueForCurrentKey` | db/db_iter.cc:770-942 | the old-to-new resolver, with its fall-back to a seek, yields the outcome of the key and ends on one of its entries, just before them or just after them |
| `DbIter.DBIter.FindValueForCurrentKeyUsingSeek` | db/db_iter.cc:948-1117 | the seek-based resolver yields the same outcome |
| `DbIter.DBIter.PrevInternal` | db/db_iter.cc:708-757 | ends on the greatest live key before a bound with rule (2) kept, or finds that there is none |
| `DbIter.DBIter.ReverseToBackward` | db/db_iter.cc:676-706 | after a change of direction the inner iterator is just before all entries of the current key |
| `DbIter.DBIter.Prev` | db/db_iter.cc:603-639 | ends on the greatest shown key below the current one with its value, or becomes invalid exactly if there is none, from either direction |
| `DbIter.DBIter.SeekForPrev` | db/db_iter.cc:1304-1366 | ends on the greatest shown key at or below the target, or becomes invalid exactly if there is none |
| `DbIter.DBIter.SeekToLast` | db/db_iter.cc:1415-1464 | ends on the greatest shown key, or becomes invalid exactly if there is none |
| `DbIter.DBIter.SetSequence` | db/arena_wrapped_db_iter.cc:52-88 | a new snapshot leaves no position behind |
| `DbIter.DBIter.Call` | db/db_iter.cc:122-188 | every call does what the plain cursor does, or reports too many skipped keys, which takes a limit that is set and below three times the number of entries |
| `DbIter.ExplainedRun` | db/db_iter.cc:122-188 | calls that are explained one by one add up to the run of the plain cursor, without a limit on skipped keys or with one of at least three times the number of entries |
| `DbIter.DBIter.Run` | db/db_iter.h:56-69 | for any stream, snapshot, bounds and sequence of calls, what the client sees is the run of a plain cursor over the snapshot view, unless a limit on skipped keys below three times the number of entries is set |
| `DbIter.SkipLimitIsInvisible` | db/db_iter.cc:216-284 | what the client sees does not depend on max_skip_ |
| `SuperVersions.SwapKeeps` | db/column_family.cc:1189-1197 | the slot is not in use when it is exchanged, and its reference moves to the reader |
| `SuperVersions.CheckKeeps` | db/column_family.cc:1197-1213 | the pointer that was swapped out is not the in-use mark and, if it is a super version, is alive |
| `SuperVersions.LockAndRefKeeps` | db/column_family.cc:1213-1224 | under the mutex there is a current super version, alive, and the reader gains a counted reference |
| `SuperVersions.ReturnKeeps` | db/column_family.cc:1226-1242 | the super version put back is alive, and a slot that is not in use is obsolete, never another super version |
| `SuperVersions.InstallKeeps` | db/column_family.cc:1250-1275 | the new super version is current under the next number, the others stay, and the invariant is kept |
| `SuperVersions.ScrapeKeeps` | db/column_family.cc:1288-1304 | scraping one slot keeps the invariant: its reference moves to the installer |
| `SuperVersions.UnrefScrapedKeeps` | db/column_family.cc:1291-1303 | dropping a scraped reference is never dropping the last one |
| `SuperVersions.FinishKeeps` | db/column_family.cc:1276-1286 | the installer still has its reference to the replaced super version when it drops it last |
| `SuperVersions.CleanUpKeeps` | db/db_impl/db_impl.cc:3340-3358 | cleanup finds the super version alive with count zero, and frees it |
| `SuperVersions.ExitKeeps` | db/column_family.cc:471-484 | a thread that exits leaves its slot obsolete and drops its reference, never the last one |
| `SuperVersions.ResetIsSafe` | util/thread_local.cc:499-516 | resetting a slot of a dropped column family never meets one in use and never drops the last reference |
| `SuperVersions.DropKeeps` | db/column_family.cc:663-691 | taking the super version from a column family that is going away keeps every count |
| `SuperVersions.RefreshKeeps` | db/arena_wrapped_db_iter.cc:52-88 | the super version of an iterator is alive when it is refreshed |
| `SuperVersions.StepKeeps` | db/column_family.cc:1164-1304 | every step of any thread meets the assertions of the code and keeps the invariant |
| `SuperVersions.EveryRunIsSafe` | db/column_family.cc:1164-1304 | no schedule of any number of threads uses a freed super version, underflows a count, or drops a last reference when scraping, resetting or exiting |
| `SuperVersions.ReferencesAreConserved` | db/column_family.cc:429-468 | a count is exactly one if current, plus one if being retired, plus slots and readers; a freed one has count zero |
| `SuperVersions.CleanupIsExclusive` | db/column_family.cc:434-455 | when cleanup is due nobody else owes it and nobody can reach the super version |
| `SuperVersions.SlotsWithMutexFree` | db/column_family.cc:1264-1304 | with the mutex free a slot is in use, obsolete, or caches a super version, and that is the current one exactly if there is one; otherwise it is the one being withdrawn from a dropped column family |
| `SuperVersions.GetIsFresh` | db/column_family.cc:1177-1224 | a reader gets a version no older than the one current when it began |
| `SuperVersions.RefreshKeepsOnlyCurrent` | db/arena_wrapped_db_iter.cc:52-88 | Refresh keeps its iterator exactly if its super version is current and was recorded under its own number, which never exceeds the real one |
| `SuperVersions.ReturnedIsCurrent` | db/column_family.cc:1164-1242 | at either return, after a Get or inside GetReferencedSuperVersion, the super version put back is current exactly if no installer has replaced it; one that has still holds the mutex and has yet to scrape this slot |
| `SuperVersions.ReturnOfReplaced` | db/column_family.cc:1164-1242 | that exception occurs at either return: a run in which a reader puts back a super version that is no longer current |
| `SuperVersions.CachedDuringTeardown` | db/column_family.cc:663-691 | a run in which a column family is dropped while a slot still caches its last super version: the mutex is free and nothing is current |
| `SuperVersionRuns.GetIsFreshOverRun` | db/column_family.cc:1177-1224 | whatever others do while a Get runs, what it gets is no older than what was current when it began |
| `SuperVersionRuns.GetIsLockFree` | db/column_family.cc:1197-1213 | a Get that found a super version in its slot gets it without the mutex exactly if it is the current one, and otherwise drops it and locks |
| `SuperVersionRuns.PutBackIsFound` | db/column_family.cc:1164-1242 | what either return puts back stays in the slot until something is installed: the next Get finds it and takes no lock, whatever others do before and during it |
| `SuperVersionRuns.RefreshKeepsUntilInstall` | db/arena_wrapped_db_iter.cc:52-88 | an iterator opened on the current super version, or reopened by a Refresh that nothing overtook, records its number and is kept by every Refresh until something is installed |
| `SuperVersionRuns.RefreshReopens` | db/arena_wrapped_db_iter.cc:60-76 | Refresh of an iterator that has been overtaken drops it and asks for a new one under the number it saw |
| `SuperVersionRuns.DropResumes` | db/column_family.cc:1197-1224 | a thread that has dropped what it held goes on where it was bound: to rest, to the mutex for its Get, or to reopen its iterator, by way of Cleanup exactly if the reference was the last |
| `SuperVersionRuns.OpensWhatItGot` | db/column_family.cc:1164-1175 | the iterator has what was got, recorded under the number that Refresh saw or, for a new one, under its own |
| `SuperVersionRuns.NobodyIsStuck` | db/column_family.cc:1164-1304 | whoever is in the middle of something can take its next step, unless it waits for the mutex |
| `SuperVersionRuns.HolderCanMove` | db/column_family.cc:1250-1304 | the mutex holder can always take a step |
| `ClockCache.TryRefKeeps` | cache/clock_cache.cc:450-469 | the compare-and-swap of Ref keeps every count and the invariant |
| `ClockCache.CheckKeyKeeps` | cache/clock_cache.cc:654-666 | the check of the key, under the reference, keeps the invariant |
| `ClockCache.UnrefKeeps` | cache/clock_cache.cc:471-492 | the count is positive before it drops, and the invariant is kept |
| `ClockCache.RecycleOwnKeeps` | cache/clock_cache.cc:485-488 | a thread recycles only a handle without in-cache bit and references whose value has not been deleted |
| `ClockCache.LockRecycleKeeps` | cache/clock_cache.cc:425-437 | so does the mutex holder, and the usage does not underflow |
| `ClockCache.UnsetKeeps` | cache/clock_cache.cc:494-507 | clearing the in-cache bit keeps the invariant: a handle left without references is owed to the bin once |
| `ClockCache.TryEvictKeeps` | cache/clock_cache.cc:509-522 | the compare-and-swap of TryEvict keeps the invariant, whether it takes the handle or fails |
| `ClockCache.ClearUsageKeeps` | cache/clock_cache.cc:520-521 | after a failed compare-and-swap, clearing the usage bit is a step of its own, and keeps the invariant |
| `ClockCache.EraseEvictedKeeps` | cache/clock_cache.cc:514-517 | an evicted handle is found in the table under its key |
| `ClockCache.ReuseKeeps` | cache/clock_cache.cc:579-600 | filling a handle from the bin keeps the invariant: nobody referred to it or owed it |
| `ClockCache.GrowKeeps` | cache/clock_cache.cc:583-600 | so does filling a new handle |
| `ClockCache.PublishKeeps` | cache/clock_cache.cc:600-607 | taking an older entry of the key out of the table keeps the invariant |
| `ClockCache.EnterKeeps` | cache/clock_cache.cc:607-607 | entering the new handle in the table keeps the invariant |
| `ClockCache.AccountKeeps` | cache/clock_cache.cc:608-613 | adding the charge keeps the invariant, and the reference counted for the caller is now held |
| `ClockCache.ClearKeeps` | cache/clock_cache.cc:699-709 | clearing the table and then every in-cache bit keeps the invariant at each handle |
| `ClockCache.EraseKeeps` | cache/clock_cache.cc:686-697 | taking a key out of the table keeps the invariant |
| `ClockCache.StepKeeps` | cache/clock_cache.cc:450-709 | every step of any thread meets the assertions of the code and keeps the invariant |
| `ClockCache.EveryRunIsSafe` | cache/clock_cache.cc:425-709 | no schedule of any number of threads, with any limits, breaks an assertion |
| `ClockCache.RecycledAtMostOnce` | cache/clock_cache.cc:425-437 | over any run an occupancy of a handle is recycled once if its value was deleted, and otherwise never |
| `ClockCache.FreedIsOwedOnce` | cache/clock_cache.cc:471-522 | the step that takes a handle to no in-cache bit and no references leaves its thread, and no other, with the duty to recycle it |
| `ClockCache.BinHoldsFree` | cache/clock_cache.cc:425-437 | a handle in the bin is there once, has no in-cache bit and no references, and is owed by nobody |
| `ClockCache.HeldIsLive` | cache/clock_cache.cc:644-667 | what a caller holds is what Insert put in for that occupancy, and has not been deleted |
| `ClockCache.HeldUntilReleased` | cache/clock_cache.cc:450-492 | no step but its own Release ends a hold, changes the entry or deletes it |
| `ClockCache.LookupReturnsRequested` | cache/clock_cache.cc:644-667 | Lookup returns an entry exactly if the handle it referenced was filled under the requested key and hash |
| `ClockCache.HandleReusedUnderLookup` | cache/clock_cache.cc:656-666 | the check of the key is needed: a run in which a lookup comes to refer to the entry of another key |
| `ClockCache.MutexFree` | cache/clock_cache.cc:565-613 | with the mutex free the usage is the charge outside the bin, and the table leads exactly to the handles with the in-cache bit |
| `ClockRuns.HeldThroughRun` | cache/clock_cache.cc:450-492 | whoever holds an entry and does not release it holds it through any run, unchanged and not deleted |
| `ClockRuns.EraseRemoves` | cache/clock_cache.cc:686-697 | Erase takes the key out of the table whoever refers to its entry, and leaves all other keys and all handles alone; once the mutex is free again the occupancy it led to has left the cache |
| `ClockRuns.ClearRemoves` | cache/clock_cache.cc:699-709 | EraseUnRefEntries empties the table, and once the mutex is free again every occupancy that was there has left the cache |
| `ClockRuns.InsertReplaces` | cache/clock_cache.cc:600-606 | an Insert takes the older entry of its key out of the table, and once the mutex is free again that occupancy has left the cache |
| `ClockRuns.InsertEnds` | cache/clock_cache.cc:607-613 | when Insert unlocks, its key leads to its handle with what was given for it, its charge is counted, and the caller holds it exactly if it wanted to |
| `ClockRuns.InsertMayGoOn` | cache/clock_cache.cc:572-578 | an Insert may go on exactly if its item fits or the limit is not strict and a reference is wanted, and may give up exactly if the limit is strict or no reference is wanted |
| `ClockRuns.ShareGivesHold` | cache/clock_cache.cc:450-469 | Ref on a held entry of the cache gives the receiver a hold of its own, and otherwise nothing |
| `ClockRuns.SetStrictTakesOver` | cache/clock_cache.cc:560-563 | SetStrictCapacityLimit changes the limit and nothing else |
| `ClockRuns.NobodyIsStuck` | cache/clock_cache.cc:425-709 | whoever is in the middle of a call can take its next step, or waits for the mutex to recycle |
| `ClockRuns.HolderCanMove` | cache/clock_cache.cc:425-709 | the mutex holder can always take a step |
| `ClockRuns.RecyclingDeletes` | cache/clock_cache.cc:425-437 | recycling hands the value to its deleter, bins the handle and takes its charge off |
| `ClockRuns.EvictedAfterTries` | cache/clock_cache.cc:509-522 | a run evicts an occupancy only if it tries its handle, and twice if the handle is marked used and the mark is not about to be cleared, whoever reuses handles in between |
| `ClockRuns.EvictedAfterOneTry` | cache/clock_cache.cc:471-522 | from any state in which the mutex holder has failed to evict an entry of the cache and is about to clear its usage bit, some run evicts it with one further try |
| `ClockRuns.ReleasedIsSparedOnce` | cache/clock_cache.cc:471-522 | after a Release some run evicts that occupancy with fewer than two tries of its handle if and only if the entry is in the cache and the mutex holder is between the failed compare-and-swap and the clearing of the usage bit of that handle |
| `ClockRuns.MarkIsLost` | cache/clock_cache.cc:471-522 | that case is reached: SetCapacity fails to evict a held entry, its holder releases it, and the next try evicts it |
| `ClockRuns.StepWithin` | cache/clock_cache.cc:565-613 | only SetCapacity, and an Insert that wants a reference while the limit is not strict, can take what is in the cache or about to be above the capacity |
| `ClockRuns.StrictCacheStaysWithin` | cache/clock_cache.cc:565-613 | under the strict limit, with the limits left alone, no schedule ever takes the charge of the handles outside the bin above the capacity |
| `ClockLookup.CachedWasEntry` | cache/clock_cache.cc:579-613 | a handle that a run leaves in the cache under a key was the entry of that key, in that occupancy, at some moment of the run or before it, unless an Insert is still putting it in |
| `ClockLookup.EntryStays` | cache/clock_cache.cc:600-607 | over any run the entry of a key stays the same handle, or there is a moment without entry |
| `ClockLookup.FoundIsExplained` | cache/clock_cache.cc:644-657 | at the Ref of a Lookup: the occupancy it hits was the entry of the key at some moment since Find, exactly unless an Insert is still putting it in; if it misses, the table had no entry at some moment since Find, or the handle is just being evicted |
| `ClockLookup.HitIsReturned` | cache/clock_cache.cc:654-667 | Ref and the check of the key turn exactly such a hit into a handle for the caller, whatever others do in between |
| `ClockLookup.LookupIsExplained` | cache/clock_cache.cc:644-667 | a whole Lookup, with any moves of others between its three steps: what it returns, and when it returns nothing, are explained by the table at some moment between Find and Ref, except in those two cases |
| `ClockLookup.ReturnedBeforeEntered` | cache/clock_cache.cc:582-607 | the first case is reached: a Lookup returns an entry while the table has none for the key, so that a Lookup that begins later misses it |
| `ClockLookup.MissedBeforeErased` | cache/clock_cache.cc:509-518 | the second case is reached: a Lookup misses a key whose entry is in the table |
| `ClockEviction.ReachableShardOk` | cache/clock_cache.cc:524-548 | the scan starts from states the protocol reaches |
| `ClockShard.ClockCacheShard.RecycleHandle` | cache/clock_cache.cc:425-437 | the handle is cleared and binned, and its charge taken off |
| `ClockShard.ClockCacheShard.TryEvict` | cache/clock_cache.cc:509-522 | evicts exactly an unreferenced, unused handle of the cache, and otherwise takes its usage bit; the accounts stay right |
| `ClockShard.ClockCacheShard.EvictFromCache` | cache/clock_cache.cc:524-548 | evicts exactly the handles whose turn comes before the hand stops, used ones a round later; stops as soon as the charge fits; after two rounds nothing evictable is left; head stays in range; succeeds exactly if the charge fits beside what cannot be evicted, except in the one case of RefusesThoughItFits |
| `ClockShard.ClockCacheShard.SetCapacity` | cache/clock_cache.cc:550-558 | what EvictFromCache does at the new capacity for no further charge: which handles go, where head ends, and exactly when it succeeds; usage comes within the capacity, or nothing evictable is left |
| `ClockEviction.TwoRoundsLeavePinned` | cache/clock_cache.cc:533-545 | two rounds of the hand leave exactly the charge of the handles outside the bin that cannot be evicted |
| `ClockEviction.GivesUpRightly` | cache/clock_cache.cc:533-545 | the charge fits before the last step of the second round if and only if it fits beside what cannot be evicted and it is not the case that the handle just behind head is evictable, marked used, and its charge what is missing |
| `ClockEviction.GivesUpThoughItFits` | cache/clock_cache.cc:533-545 | that case is reached: one entry inserted, looked up and released fills the cache, and the scan refuses a second of the same charge though it would fit |
| `ClockEviction.ScanReached` | cache/clock_cache.cc:524-548 | every state the scan goes through is reached by moves of the mutex holder in the interleaved protocol |
| `ClockEviction.SetCapacityReached` | cache/clock_cache.cc:550-558 | so what SetCapacity leaves behind is a reachable state with the mutex free |
| `ClockInsert.InsertedIs` | cache/clock_cache.cc:579-607 | after an accepted Insert its key leads to the last handle of the bin or to a new one, which carries what was given, and every other key is as before |
| `ClockInsert.InsertedSpares` | cache/clock_cache.cc:579-607 | so is every handle but that one and the older entry of the key |
| `ClockInsert.InsertedRetires` | cache/clock_cache.cc:600-606 | the older entry of the key has lost its in-cache bit, and is in the bin exactly if nobody refers to it |
| `ClockInsert.InsertReached` | cache/clock_cache.cc:565-613 | the protocol gets where such an Insert gets |
| `ClockShard.ClockCacheShard.UnsetInCache` | cache/clock_cache.cc:494-507 | the in-cache bit goes, and the handle is recycled exactly if nobody refers to it |
| `ClockShard.ClockCacheShard.Insert` | cache/clock_cache.cc:565-613 | accepted exactly if the item fits beside what cannot be evicted, but for the case of RefusesThoughItFits, or if the limit is not strict and a reference is wanted; refused, it leaves what the scan leaves |
| `ClockShard.ClockCacheShard.InsertAndReport` | cache/clock_cache.cc:615-642 | Incomplete exactly if a reference was wanted and the item refused, OkOverwritten exactly if an older entry of the key was still there, a reference handed out exactly if wanted and accepted; the accepted item is in the table |
| `LruModel.MaintainOverflows` | cache/lru_cache.cc:221-232 | the shortest prefix of the high-priority pool overflows that brings the pool within its capacity; the dummy head is never reached |
| `LruModel.ListInsertKeeps` | cache/lru_cache.cc:195-219 | the entry becomes the newest of its pool; a high-priority insertion restores the pool bound |
| `LruModel.ListInsertPools` | cache/lru_cache.cc:195-219 | an entry joins the low-priority pool as its newest, and nothing else moves, exactly if there is no other pool or the entry is neither of high priority nor hit; otherwise it joins the high-priority pool, whose oldest then overflow, no more than it takes |
| `LruModel.PoolIsShare` | cache/lru_cache.cc:258-261 | each unit of capacity adds the ratio to the pool |
| `LruModel.DiscardKeeps` | cache/lru_cache.cc:238-247 | discarding a listed entry keeps table, list and sums in step |
| `LruOps.EvictKeeps` | cache/lru_cache.cc:234-248 | after eviction the charge fits or the list is empty |
| `LruOps.InsertKeeps` | cache/lru_cache.cc:338-416 | Insert keeps the invariant whether it accepts, drops or refuses |
| `LruOps.LookupKeeps` | cache/lru_cache.cc:270-283 | Lookup keeps the invariant and the pool bound |
| `LruOps.RefKeeps` | cache/lru_cache.cc:285-292 | another reference to a referenced entry keeps the invariant |
| `LruOps.ReleaseKeeps` | cache/lru_cache.cc:301-336 | Release keeps the invariant and the pool bound |
| `LruOps.EraseKeeps` | cache/lru_cache.cc:418-443 | Erase keeps the invariant, the key is gone from the table, and the usage does not grow |
| `LruOps.SetCapacityKeeps` | cache/lru_cache.cc:250-263 | the new capacity holds for the invariant at once |
| `LruOps.SetRatioKeeps` | cache/lru_cache.cc:294-299 | a change of the ratio takes it over, resizes the pool, restores the pool bound and leaves the order and the entries alone |
| `LruOps.EraseUnRefKeeps` | cache/lru_cache.cc:117-138 | nothing is left on the list |
| `LruPolicy.EvictsShortestPrefix` | cache/lru_cache.cc:234-248 | eviction removes the shortest oldest-first prefix that makes room, or the whole list, and nothing else |
| `LruPolicy.EvictMakesRoom` | cache/lru_cache.cc:234-248 | eviction makes room for a charge exactly if it fits beside what is referenced |
| `LruPolicy.InsertDecides` | cache/lru_cache.cc:338-416 | an Insert is accepted exactly if its charge fits beside what is referenced, or the limit is not strict and the handle is wanted; then the key leads to the handle, which carries the entry; otherwise a caller that wants the handle gets Incomplete |
| `LruPolicy.OverwritesWhatIsLeft` | cache/lru_cache.cc:380-404 | an accepted Insert gives OkOverwritten exactly if the key had an entry that the eviction left |
| `LruPolicy.InsertLeaves` | cache/lru_cache.cc:338-416 | Insert evicts the fewest of the oldest that make room; the accepted entry joins as the newest of its pool or goes to its holder; every other key, entry and place on the list is as before, but for the older entry of the key |
| `LruPolicy.SetCapacityEvicts` | cache/lru_cache.cc:250-263 | SetCapacity takes over the capacity, resizes the pool, and evicts the fewest of the oldest that bring the usage within it, and nothing else |
| `LruPolicy.EraseUnRefLeaves` | cache/lru_cache.cc:117-138 | EraseUnRefEntries frees everything on the list, oldest first, and nothing else |
| `LruPolicy.LookupMoves` | cache/lru_cache.cc:270-283 | a hit takes the entry off the list, gives it one more reference and marks it hit; nothing else changes |
| `LruPolicy.ReleaseSettles` | cache/lru_cache.cc:301-336 | a last reference frees the entry exactly if it has left the table, the cache is overfull or erasing is forced, and then no key leads to it; otherwise the list gets it back; other references only count down |
| `LruPolicy.EraseRetires` | cache/lru_cache.cc:418-443 | the key leaves the table; its entry leaves the list and is freed if nobody refers to it, and stays with its holders otherwise |
| `LruPolicy.TouchedIsNewest` | cache/lru_cache.cc:270-325 | an entry looked up and released is the newest of the list, or of the low-priority pool if there is no other, and nothing else changes |
| `LruPolicy.PinnedIsReferenced` | cache/lru_cache.cc:450-454 | pinned usage is the charge of the referenced entries |
| `LruPolicy.PoolAfterSetCapacity` | cache/lru_cache.cc:250-263 | after SetCapacity the pool is within its capacity exactly if the high-priority entries that are not evicted fit |
| `LruRuns.StepKeeps` | cache/lru_cache.cc:117-454 | every call keeps the invariant, and the log of what became of every value |
| `LruRuns.EveryRunKeepsAccounts` | cache/lru_cache.h:24-48 | after any sequence of calls the list is exactly the table entries without references, the three sums are what they stand for, and an overfull cache has an empty list |
| `LruRuns.EveryRunKeepsValues` | cache/lru_cache.cc:270-443 | after any sequence of calls a key leads to its latest accepted Insert and the value given there; no deleter ran twice, for a live handle or for a refused Insert; no value is lost |
| `LruRuns.HeldUntilReleased` | cache/lru_cache.cc:234-443 | no call but its own last Release ends a hold: the entry stays live with its key, value and charge, its references change by exactly what the call does, and its deleter has not run |
| `LruRuns.FreedUnreferenced` | cache/lru_cache.cc:234-443 | a call runs a deleter only for an entry without references, for one whose last reference it gives up, or for the value of a dropped Insert; then the handle is out of the cache and no key leads to it |
| `LruRuns.HeldThroughRun` | cache/lru_cache.cc:234-443 | a holder that gives up fewer references than there are keeps the entry through any sequence of calls, with its references counted exactly |
| `LruRuns.FreedForGood` | cache/lru_cache.cc:234-443 | a freed handle never comes back, whatever calls follow |
| `LruRuns.FreedOnlyUnreferenced` | cache/lru_cache.cc:234-443 | whatever a run has freed, one of its calls freed rightly |
| `LruRuns.EveryRunFreesUnreferenced` | cache/lru_cache.cc:234-443 | in any run of a new shard a deleter runs at most once for a handle, only at such a call, and for good |
| `LruRuns.StrictLimit` | cache/lru_cache.cc:363-407 | under the strict limit only SetCapacity can take the usage above the capacity |
| `LruRuns.StrictShardStaysWithin` | cache/lru_cache.cc:338-416 | a strict shard whose capacity is left alone never exceeds it |
| `LruRuns.PoolKept` | cache/lru_cache.cc:195-232 | every call but SetCapacity keeps the high-priority pool within its capacity, and a change of the ratio brings it there |
| `LruRuns.SmallerCapacityBreaks` | cache/lru_cache.cc:250-263 | SetCapacity leaves the pool over its capacity after any high-priority Insert into a new shard whose charge fits the old pool and the new capacity but not the new pool |
| `LruRuns.PoolBoundCanBreak` | cache/lru_cache.cc:250-263 | one such run: capacity two, ratio one half, an entry of charge one, then capacity one |
| `LruRuns.LimitsStay` | cache/lru_cache.cc:250-268 | no other call changes the capacity or the strict limit |
| `LruTable.MaskIsRemainder` | cache/lru_cache.cc:63-69 | masking a hash with a power of two less one is taking the remainder |
| `LruTable.LRUHandleTable.constructor` | cache/lru_cache.cc:20-22 | an empty table with sixteen buckets |
| `LruTable.LRUHandleTable.ChainedByHash` | cache/lru_cache.cc:63-69 | every chain holds exactly the handles whose hash leads to its bucket |
| `LruTable.LRUHandleTable.FindPointer` | cache/lru_cache.cc:63-69 | finds the slot of the key in its chain, or the end of the chain |
| `LruTable.LRUHandleTable.Lookup` | cache/lru_cache.cc:33-35 | returns what the map has for the key |
| `LruTable.LRUHandleTable.Link` | cache/lru_cache.cc:37-41 | the handle takes the place of the one of its key, or the end of the chain |
| `LruTable.LRUHandleTable.Insert` | cache/lru_cache.cc:37-51 | updates the map at the key and returns what it had; no more elements than buckets |
| `LruTable.LRUHandleTable.Remove` | cache/lru_cache.cc:53-61 | removes the key from the map and returns what it had |
| `LruTable.LRUHandleTable.NewLength` | cache/lru_cache.cc:71-75 | a power of two, at least sixteen and one and a half times the elements |
| `LruTable.LRUHandleTable.Resize` | cache/lru_cache.cc:71-95 | relinks every chain and leaves the map as it was; the count of moved handles is the number of elements |
| `LruCache.LRUCacheShard.constructor` | cache/lru_cache.cc:97-115 | an empty shard with a list that holds only the dummy head |
| `LruCache.LRUCacheShard.LruRemove` | cache/lru_cache.cc:177-193 | unlinks the handle, moves the low-priority mark if need be, and takes its charge off both sums |
| `LruCache.LRUCacheShard.LruInsert` | cache/lru_cache.cc:195-219 | links the handle as the newest of its pool and overflows the pool |
| `LruCache.LRUCacheShard.MaintainPoolSize` | cache/lru_cache.cc:221-232 | moves the low-priority mark over exactly the entries that overflow; the mark never reaches the dummy head |
| `LruCache.LRUCacheShard.EvictOldest` | cache/lru_cache.cc:236-246 | the first handle of the list has no references and is in the table, and leaves both |
| `LruCache.LRUCacheShard.EvictFromLRU` | cache/lru_cache.cc:234-248 | does what the model evicts, handle by handle |
| `LruCache.LRUCacheShard.EraseUnRefEntries` | cache/lru_cache.cc:117-138 | empties the list |
| `LruCache.LRUCacheShard.SetCapacity` | cache/lru_cache.cc:250-263 | does what the model does, and returns the freed handles |
| `LruCache.LRUCacheShard.SetHighPriorityPoolRatio` | cache/lru_cache.cc:294-299 | does what the model does |
| `LruCache.LRUCacheShard.SetStrictCapacityLimit` | cache/lru_cache.cc:265-268 | changes the limit only |
| `LruCache.LRUCacheShard.Lookup` | cache/lru_cache.cc:270-283 | returns the handle of the key, off the list and with one more reference, or null |
| `LruCache.LRUCacheShard.Ref` | cache/lru_cache.cc:285-292 | one more reference |
| `LruCache.LRUCacheShard.Release` | cache/lru_cache.cc:301-336 | frees the handle exactly if it was the last reference and the entry is erased, the cache overfull or the erase forced; otherwise the list gets it back; the assertion on the empty list holds |
| `LruCache.LRUCacheShard.Erase` | cache/lru_cache.cc:418-443 | does what the model does, leaving the table before the list |
| `LruCache.LRUCacheShard.Admit` | cache/lru_cache.cc:380-404 | adding the new entry and then retiring the one it replaced is erasing the key and then adding |
| `LruCache.LRUCacheShard.Insert` | cache/lru_cache.cc:338-416 | status, handle and state are those of the model for a fresh handle; the value is in the cache, with what was given for it, exactly if it fits beside what is referenced or may overflow; the handle is returned exactly if wanted and accepted, Incomplete exactly if wanted and refused |
| `LruCache.LRUCacheShard.GetUsage` | cache/lru_cache.cc:445-448 | the charge of all entries in the table or referenced |
| `LruCache.LRUCacheShard.GetPinnedUsage` | cache/lru_cache.cc:450-454 | the charge of the referenced entries |
| `LruHistory.RecordedShard.ValuesAreKept` | cache/lru_cache.cc:270-443 | for the class on handles in memory, whatever calls were made: a key leads to its latest accepted Insert, no deleter ran twice or for a live handle, no value is lost |
| `LruHistory.RecordedShard.Insert` | cache/lru_cache.cc:338-416 | the call is the step of the run theorems for a fresh handle; accepted exactly if the charge fits beside what is referenced or may overflow; the caller gets the handle of an accepted value it wanted, and Incomplete exactly for a refused one |
| `LruHistory.RecordedShard.Lookup` | cache/lru_cache.cc:270-283 | the call is the step of the run theorems; a hit is held, and carries the value of the latest accepted Insert of the key |
| `LruHistory.RecordedShard.Release` | cache/lru_cache.cc:301-336 | the call is the step of the run theorems; it returns true exactly if the value is gone |
| `LruHistory.RecordedShard.Ref` | cache/lru_cache.cc:285-292 | the call is the step of the run theorems |
| `LruHistory.RecordedShard.Erase` | cache/lru_cache.cc:418-443 | the call is the step of the run theorems |
| `LruHistory.RecordedShard.SetCapacity` | cache/lru_cache.cc:250-263 | the call is the step of the run theorems, and the handles it returns are those it freed |
| `LruHistory.RecordedShard.EraseUnRefEntries` | cache/lru_cache.cc:117-138 | the call is the step of the run theorems, and the handles it returns are those it freed |
| `Sharded.ShardInRange` | cache/sharded_cache.h:97-100 | the shard of a hash is in range, and every shard has an interval of hashes of the same length |
| `Sharded.CapacitySplit` | cache/sharded_cache.cc:27-35 | the capacities of the shards add up to at least the capacity and to less than one more per shard |
| `Sharded.StrictUsageBound` | cache/sharded_cache.cc:88-96 | shards within their capacities hold at most the capacity and one less than the number of shards |
| `Sharded.CallKeeps` | cache/sharded_cache.cc:46-72 | a call to one shard keeps the whole in order, and a strict cache within its limits |
| `Sharded.GetDefaultCacheShardBits` | cache/sharded_cache.cc:149-160 | at most six bits, at least 512 KiB per shard if there is that much, and no fewer bits than these allow |
| `Sharded.ShardedCache.constructor` | cache/lru_cache.cc:465-483 | every shard is new, with its part of the capacity and the given limit and ratio |
| `Sharded.ShardedCache.OwnerFound` | cache/sharded_cache.cc:59-67 | the hash of a handle leads to the shard that made it |
| `Sharded.CallKeepsHolds` | cache/sharded_cache.cc:46-72 | a call to one shard keeps every handle that is held anywhere, with its key, value and charge, and changes references exactly as that call should |
| `Sharded.ShardedCache.Insert` | cache/sharded_cache.cc:46-52 | one shard changes, that of the key; accepted exactly if the charge fits beside what is referenced in that shard or may overflow; a returned handle is held; Incomplete exactly if the value was refused; every hold is kept |
| `Sharded.ShardedCache.Lookup` | cache/sharded_cache.cc:54-57 | a hit is the latest accepted Insert of the key in its shard, and no other shard has ever seen the key; every hold is kept and the hit gains a reference |
| `Sharded.ShardedCache.Ref` | cache/sharded_cache.cc:59-62 | reaches the shard that made the handle; every hold is kept and this one gains a reference |
| `Sharded.ShardedCache.Release` | cache/sharded_cache.cc:64-67 | reaches the shard that made the handle; every hold is kept but this one if it was the last; true exactly if the value is gone |
| `Sharded.ShardedCache.Erase` | cache/sharded_cache.cc:69-72 | the key is gone from its shard, the other shards are left alone, and every hold is kept |
| `Sharded.ShardedCache.GetUsage` | cache/sharded_cache.cc:88-96 | the sum over the shards, within the strict bound |
| `Sharded.ShardedCache.SetCapacity` | cache/sharded_cache.cc:27-35 | every shard is resized to its part; every hold is kept |
| `Sharded.ShardedCache.SetStrictCapacityLimit` | cache/sharded_cache.cc:37-44 | every shard gets the limit; every hold is kept |
| `Sharded.ShardedCache.EraseUnRefEntries` | cache/sharded_cache.cc:120-125 | every shard drops its unreferenced entries; every hold is kept |

## Left out

- Persistent-memory redirection in `value()` (db/db_iter.h:172-184) and the `iter_llsm` stepping of `Next` (db/db_iter.cc:167-174): values are those of the stored entry chosen.
- Timestamps, `start_seqnum_`, `read_callback_`, prefix-seek mode, blob indexes, corruption and I/O statuses, a missing or failing merge operator, pinning and statistics in `DBIter`.
- The upper-bound and lower-bound hints of the inner iterator (`MayBeOutOfUpperBound`, `MayBeOutOfLowerBound`): the bounds are always compared.
- Weak memory orders: atomic operations are sequentially consistent steps, and TBB's hash map is an atomic map.
- Eventual release: nothing is freed while referenced, but that everything dropped is freed in the end is not stated.
- Purging queues, memtables and versions behind a super version: cleanup is one step.
- `pinned_usage_` of the clock cache: it reads the charge after the reference has been dropped.
- `Release` with `force_erase` in the interleaved clock model: a Release step followed by an Erase step of whatever key the handle then has; as one call it is not modelled.
- The order of the clock hand in the interleaved model: the mutex holder may try any handle any number of times before it goes on or, where the code may refuse, gives up, which covers every scan; the order is that of `ClockEviction`.
- ClockCache.AccountKeeps: the status and the overwritten flag that Insert returns are not part of the interleaved state; `ClockShard` has them.
- Sharded.ShardedCache.GetUsage: reads all shards at one moment, while the source locks them one by one.
- Sharded.ShardedCache.Insert: the shards are values of the LRU model, so their layout in memory and the locks between them are not captured; `LruHistory` has that for one shard.
- `GetPinnedUsage` and `ApplyToAllCacheEntries` of the sharded cache: loops over the shards like those of `GetUsage` and `SetCapacity`.
- Destructors, `DisownData`, `TEST_` accessors and printable options of the caches.
- Wrap-around of `size_t` and `uint32_t`, and rounding of the pool ratio.
- Write stalls, compaction picking, column family sets and the rest of the repository.
