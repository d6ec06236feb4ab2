# Verification of the MVTLSYS transaction schedulers

MVTLSYS is a small multi-server transactional store with three interchangeable concurrency controls. This project
models all three and proves what each of them is for.

- **MVTO+** (`Mvto*.dfy`): multiversion timestamp ordering. Each key has a list of versions with a PENDING or COMMITTED
  state and a set of read marks. Proved: one-copy serializability in timestamp order.
- **2PL** (`TwoPhase*.dfy`): strict two-phase locking with lock upgrade. Proved: refinement of atomic transactions on a
  plain map, although commits reach the servers one by one.
- **MVTIL** (`Mvtil*.dfy`, `Lock*.dfy`, `VersionManagers.dfy`): interval locks over versions. Proved: exclusion,
  stable reads, one-copy serializability in commit-timestamp order and abort as exact undo, each under the guards that
  it needs.

## How the model is layered

1. **Servers by value** (`MvtoServer`, `TwoPhaseServer`, `MvtilServer`, `LockList`). A version list is a finite map that
   contains the two sentinels (`SortedMap`); a lock list is the sequence of its locks, sentinels included, sorted or
   not. One function per accessor-protected section of the C++ code, and one per whole handler.
2. **Heap objects** (`Links`, `SkipLists`, `LockManagers`, `VersionManagers`, `MvtilSchedulers`, `MvtoTables`,
   `MvtoSchedulers`, `TwoPhaseSchedulers`, `TwoPhaseClients`, `MvtilClients`, `LocalOracles`). Classes with the source's
   fields and loops, each method proved against the functions of the first layer. All level pointers of a node lead to
   its immediate successor, so the lists are linked lists with redundant pointers: every search is shown to stop where
   a plain walk stops, for any levels (1 to 4) and, in the lock lists, even when the order is lost.
3. **Runs** (`MvtoRuns`, `TwoPhaseRuns`, `MvtilRuns`). State machines over any number of servers, keys and transactions.
   A step is one section; commits and aborts reach servers, and keys on a server, one at a time and in any order. Key
   placement is an arbitrary function. For MVTO+ and 2PL the invariants are in `*Invariant` and the theorems in
   `*Theorems`. For MVTIL, `MvtilSteps`, `MvtilBase`, `MvtilVersions` and `MvtilAborts` are about every run, guarded or
   not; `MvtilExclusion`, `MvtilStability` and `MvtilTheorems` are about runs that meet guards; `MvtilWitnesses` has
   concrete runs. The handlers as wholes are compared with the steps, and what they leave and when they grant is stated
   for runs, in `TwoPhaseHandlers`, `MvtoHandlers`, `MvtilHandlers`, `MvtilOrders` and `MvtilGrants`; `LockGrants` has
   the same for a sorted lock list.
4. **Sections of a first access** (`MvtoSections`, `TwoPhaseSections`, `MvtilSections`). The same machines with the
   first access to a key in two steps, as in the code; see below.

`Serial` is the reference that all three protocols are compared with: a replay of write sets on a plain map.

## Modelling decisions

- Timestamps are 64-bit signed (`Common.Timestamp`); the types check that no `+ 1` or `- 1` leaves the range. Timestamps
  that clients use lie strictly between the sentinel keys 0 and 2^63 - 1 (`Common.Instant`).
- A request that spins on a pending version or a lock is a step that is not enabled; timing out is the client's abort
  step. In the handlers the retry loop is there: other requests may do anything between two passes, and how many passes
  the clock allows is a parameter. Liveness is not claimed.
- **The first access to a key** is one step in the runs. In the code it is two sections: a find that misses holds no
  accessor, and the insertion that follows ignores that the key may be there by now and overwrites its entry
  (system/tx_MVTO+/server/Scheduler.cpp:191-225, system/tx_2PL/server/Scheduler.cpp:116-134 and 207-215,
  system/tx_MVTIL/server/VersionManager.cpp:32-69 and 85-88). In 2PL, where commits erase lock entries, this is every
  access to a key without one. So the theorems about runs hold for the code as long as
  each insertion finds no entry for its key (in 2PL: nobody holding it), and this is so when no two first accesses to a
  key overlap. The `*Sections` modules prove that: with the two sections modelled, a run that meets this guard ends as a
  run of one-section steps does, and concrete runs that do not meet it lose a version list, share a write lock, or lose
  a granted read lock.
- The insertion of a version or lock and its record in the pending table are one step. In the code they are two
  sections, but only the requesting transaction ever looks at its own record, and it waits for the reply.
- 2PL reads are two steps, lock and fetch, because commits of other keys may fall between them.
- Values are what servers answer. A read without a version is answered with an empty value; the client then shows its
  caller the marker `"_"`.
- The state of an MVTO+ sentinel is left unset by the code; a new list takes an arbitrary one as a parameter.
- Where a list is searched with `<` at or below the key of the lower sentinel, the head itself is never found
  (`SortedMap.Sought`). An aborted MVTO+ reader of the sentinel therefore leaves its mark there.
- MVTO+ and MVTIL clients contact only write servers on commit and abort; records on servers that were only read stay.
- `LockManager::GarbageCollection` passes the first lock and the one behind each removed lock without looking at them;
  the model does the same. `LockRemoval.GarbageCollectionClearsIff` says exactly when a collection removes every expired
  lock.
- The payload of a list node is one record field, `next[]` is a sequence field of length 4, and a random level is any
  level from 1 to 4.

## The guards of the MVTIL runs

The code alone keeps neither exclusion nor order nor every committed value. `MvtilRuns.Legal` is about every run of the
steps as the code takes them; `MvtilRuns.Guarded` says which of four guards a run meets, and each theorem names the ones
that it needs.

- *Nested reads* (`MeetsNested`): a first write overruns no foreign read lock. `LockWriteInterval` has no branch for a
  read lock strictly inside its candidate. On a sorted exclusive list this is exactly when a grant keeps exclusion
  (`LockSafety.GrantKeepsExclusionIff`).
- *Order* (`MeetsOrder`): settling a write lock at its commit timestamp moves it past no later lock. `CommitInterval`
  does not reposition the node. This is exactly when a sorted list stays sorted (`LockSafety.CommitKeepsOrderIff`);
  `LockSafety.MovedWriteIsMissed` shows what follows when it does not.
- *Distinct commits* (`MeetsDistinct`): two transactions that write a common key do not commit at one timestamp.
  `skiplist::insert` keeps the first value. `MvtilVersions.ValuesSurviveIff` says exactly when all committed values
  survive, over every run; `MvtilWitnesses.SecondValueIsLost` is a run that meets the other three guards only.
- *Watermark* (`MeetsWatermark`): collection stays below active transactions and unfinished commits, and new
  transactions begin above it. `MvtilGuards.ErasePreservesLookupIff` says exactly when one lookup survives a collection;
  `MvtilWitnesses.CollectedValueIsMissed` is a run that meets the other three guards only.

| result | nested | order | distinct | watermark |
|---|---|---|---|---|
| narrowing, commit in every grant, records, abort as undo on sorted lists | | | | |
| exclusion and order in every state | yes | yes | | |
| stable reads, without collection | yes | yes | | |
| stable reads, with collection | yes | yes | | yes |
| newest version is the final value | | | yes | |
| one-copy serializability, without collection | yes | yes | yes | |
| one-copy serializability, with collection | yes | yes | yes | yes |

The runs use LOCK_FIRST_INTERVAL. LOCK_LAST_INTERVAL may read a version above the start of the interval, so above the
commit timestamp; `MvtilGuards.LastIntervalReadsBelowStartIff` says exactly when it does not.

## Model

| member | source | states |
|---|---|---|
| MvtoTheorems.OneCopySerializable | system/tx_MVTO+/server/Scheduler.cpp:25-237 | in every run, each R_SUCCESS read of a committed attempt returned what a serial replay of the committed attempts by timestamp gives just before it |
| MvtoTheorems.NewestVersionIsFinalValue | system/tx_MVTO+/server/Scheduler.cpp:67-95 | once no server has an unfinished write set, the newest version of each key is the final value of that replay, or the key was never written |
| MvtoInvariant.StepKeeps | system/tx_MVTO+/server/Scheduler.cpp:25-237 | every section of every handler keeps the invariant of lists, owners, marks and pending tables |
| MvtoInvariant.RunKeeps | system/tx_MVTO+/server/Scheduler.cpp:25-237 | the invariant holds in every reachable state |
| MvtoTheorems.MarksFenceVersions | system/tx_MVTO+/server/Scheduler.cpp:116-137 | a read mark r on version w has w < r with no version strictly between them, and a pending version carries no mark, in every reachable state |
| MvtoTheorems.PendingIffRecorded | system/tx_MVTO+/server/Scheduler.cpp:173-236 | a live attempt has a pending version of a key exactly when pendingWrite of the key's server records it |
| MvtoTheorems.CommittedVersionsStay | system/tx_MVTO+/server/Scheduler.cpp:72-87 | a committed version keeps its place, value and state in every continuation of a run |
| MvtoTheorems.UnmarkedRead | system/tx_MVTO+/server/Scheduler.cpp:139-147 | a FAIL_NO_VERSION answer leaves no mark: a legal run in which the reader at 10 is told that the key has no version and a writer at 5 commits it afterwards |
| MvtoTheorems.NoVersionAgreesIff | system/tx_MVTO+/server/Scheduler.cpp:139-147 | however the run goes on until the reader has committed, a FAIL_NO_VERSION answer agrees with the serial replay if and only if no attempt below the reader writes the key afterwards and commits |
| MvtoTheorems.AbortDropsMarkIff | system/tx_MVTO+/server/Scheduler.cpp:46-62 | an abort takes a read mark back exactly when it does not sit on the lower sentinel; the other marks of that version and all other versions stay, and for a mark on the sentinel the list does not change |
| MvtoTheorems.CommitPublishes | system/tx_MVTO+/server/Scheduler.cpp:67-95 | in every reachable state the commit of a key makes exactly the attempt's own version visible, with the value the client wrote |
| MvtoHandlers.HandleCommitPublishes | system/tx_MVTO+/server/Scheduler.cpp:67-95 | in every run, the whole commit handler makes exactly the attempt's recorded versions COMMITTED, with the client's values and the marks they had; no other version or list changes, and it forgets the transaction's two records and no others |
| MvtoHandlers.HandleAbortUndoes | system/tx_MVTO+/server/Scheduler.cpp:25-65 | in every run, the whole abort handler takes back exactly the attempt's version and read mark on each key, but for a mark on the lower sentinel, and forgets the transaction's two records and no others |
| MvtoHandlers.CommitSectionsAddUp | system/tx_MVTO+/server/Scheduler.cpp:71-92 | on any server, the per-key sections of a commit in any order, and then both table sections, end where the handler does |
| MvtoHandlers.AbortSectionsAddUp | system/tx_MVTO+/server/Scheduler.cpp:30-62 | the same for the abort's loop over the writes and its loop over the reads |
| MvtoHandlers.RunOwnsMarks | system/tx_MVTO+/server/Scheduler.cpp:116-137 | in every run, each read mark was left by a read of its attempt, and while that attempt is active its server has recorded the version it read |
| MvtoHandlers.WriteIsLateIff | system/tx_MVTO+/server/Scheduler.cpp:194-203 | in every run, a write is refused exactly when it is the attempt's first of the key and would come between a version and an attempt above it that has read that version and whose mark is there; it always is there for readers that have not aborted |
| MvtoHandlers.CommittedIffPublished | system/tx_MVTO+/server/Scheduler.cpp:75-84 | in every run, a version is COMMITTED exactly when the commit section of its writer has run for its key |
| MvtoHandlers.ReadIsAnsweredIff | system/tx_MVTO+/server/Scheduler.cpp:107-161 | in every run, a read is told FAIL_NO_VERSION exactly when no attempt has ever written the key, and is answered with the newest version below it and its writer's value exactly when the writer's commit has reached the key; below all versions it depends on the state that the sentinel's memory held |
| MvtoSections.SectionsAreAtomic | system/tx_MVTO+/server/Scheduler.cpp:190-225 | with the find and the insertion of a first write as two sections: a run whose insertions find no list for their key ends as a run of one-section steps does |
| MvtoSections.OneAtATimeIsUndisturbed | system/tx_MVTO+/server/Scheduler.cpp:190-225 | insertions find no list for their key when no two first writes of a key overlap |
| MvtoSections.SectionsAreSerializable | system/tx_MVTO+/server/Scheduler.cpp:190-225 | so such a run is one-copy serializable in timestamp order |
| MvtoSections.OverlappingWritesLoseAList | system/tx_MVTO+/server/Scheduler.cpp:72-87 | two first writes that overlap: the version of the first is lost, and its commit makes the other attempt's pending version visible |
| MvtoSchedulers.Scheduler.HandleReadRequest | system/tx_MVTO+/server/Scheduler.cpp:97-161 | the retry loop, with other requests in between: the last pass marks the newest version below ts if it is committed, records it, and answers with it; the request times out only when the last pass finds it pending |
| MvtoSchedulers.Scheduler.HandleWriteRequest | system/tx_MVTO+/server/Scheduler.cpp:163-237 | on the heap: refuses exactly when a mark above ts sits on the version below ts; otherwise overwrites its own version or inserts a pending one and records it |
| MvtoSchedulers.Scheduler.InsertVersion | system/tx_MVTO+/server/Scheduler.cpp:194-225 | inserts a pending version into the key's list, made first if there is none; all other lists stay |
| MvtoSchedulers.Scheduler.HandleCommit | system/tx_MVTO+/server/Scheduler.cpp:67-95 | the loop over the recorded keys, in any order, commits version ts of each and forgets both tables of the transaction |
| MvtoSchedulers.Scheduler.HandleAbort | system/tx_MVTO+/server/Scheduler.cpp:25-65 | the two loops, in any order, remove version ts of each recorded key and the marks of ts that the search finds, and forget both tables |
| MvtoTables.VersionTable.AssignAtOrAbove | system/tx_MVTO+/server/Scheduler.cpp:76-81 | overwriting the entry that find returns changes exactly the version at or above the timestamp of that key |
| MvtoTables.VersionTable.MarkBelow | system/tx_MVTO+/server/Scheduler.cpp:116-128 | the version below ts gets the mark ts exactly when it is committed |
| MvtoTables.VersionTable.IsLate | system/tx_MVTO+/server/Scheduler.cpp:199-203 | a write comes too late exactly when the version below ts has a mark above ts |
| MvtoServer.ChangedStep | system/tx_MVTO+/server/Scheduler.cpp:72-83 | one round of a handler's loop changes the list of its key and no other, whatever rounds came before |
| SkipLists.SkipList.constructor | system/tx_MVTIL/common/SkipList.h:77-87 | a new list stands for the map of the two sentinels |
| SkipLists.SkipList.FindAtOrBelow | system/tx_MVTIL/common/SkipList.h:111-127 | find with <= returns the greatest entry at or below the key and the least above it, whatever the levels; below the head it returns the head and its successor |
| SkipLists.SkipList.FindBelow | system/tx_MVTO+/common/SkipList.h:96-112 | find with < returns the greatest entry below the key and the least at or above it, whatever the levels |
| SkipLists.SkipList.Insert | system/tx_MVTIL/common/SkipList.h:129-152 | adds exactly an absent key, at any level; a present key keeps its value |
| SkipLists.SkipList.Remove | system/tx_MVTIL/common/SkipList.h:154-173 | removes exactly the given key, and reports whether it was there |
| SkipLists.SkipList.Erase | system/tx_MVTIL/common/SkipList.h:175-186 | drops exactly the entries that have a newer one at or below the key |
| SkipLists.SkipList.Size | system/tx_MVTIL/common/SkipList.h:202-204 | len is the number of entries without the sentinels, kept by every operation |
| SkipLists.SkipList.Pass | system/tx_MVTIL/common/SkipList.h:176-182 | the loop of erase stops in front of the first key above the bound, having discounted every node it passed from len |
| SkipLists.SkipList.Assign | system/tx_MVTO+/server/Scheduler.cpp:76-81 | overwriting the value of a node in place changes the map at its key only |
| SkipLists.InsertInMap | system/tx_MVTIL/common/SkipList.h:137-150 | linking an absent key in between its neighbours adds exactly that key to the map |
| SkipLists.RemoveInMap | system/tx_MVTIL/common/SkipList.h:162-171 | unlinking a node removes exactly its key from the map |
| SkipLists.EraseInMap | system/tx_MVTIL/common/SkipList.h:175-186 | pointing the head past a prefix removes exactly the superseded entries |
| SkipLists.NeighboursInMap | system/tx_MVTIL/common/SkipList.h:125-126 | adjacent nodes around a bound are its neighbours in the map |
| SkipLists.MapSize | system/tx_MVTIL/common/SkipList.h:202-204 | a list has as many nodes as its map has keys |
| Links.Descend | system/tx_MVTIL/common/SkipList.h:113-126 | the multi-level descent stops where a walk along the list stops, for any levels and whether or not the keys ascend, and terminates |
| Links.Splice | system/tx_MVTIL/common/SkipList.h:142-148 | rewiring the levels of two nodes puts the new node in between and keeps the chain |
| Links.Unlink | system/tx_MVTIL/common/SkipList.h:166-168 | rewiring the levels of a node takes its successor out and keeps the chain |
| LinearSearch.StopSplits | system/tx_MVTIL/common/SkipList.h:113-126 | in an ascending list the walk separates the keys at or below the bound from those above |
| SortedMap.Below | system/tx_MVTO+/common/SkipList.h:96-112 | the greatest key strictly below a timestamp exists and is unique |
| LockManagers.LockManager.constructor | system/tx_MVTIL/server/LockManager.cpp:25-44 | a new lock list holds the two sentinels |
| LockManagers.LockManager.LockReadInterval | system/tx_MVTIL/server/LockManager.cpp:46-84 | on the heap, sorted or not: the outcome, the narrowed interval and the new list are those of LockList.LockRead; sentinels, chain and size stay in order |
| LockManagers.LockManager.SearchRead | system/tx_MVTIL/server/LockManager.cpp:50-65 | the search reports a conflict exactly when a write lock on its way reaches the timestamp |
| LockManagers.LockManager.LockWriteInterval | system/tx_MVTIL/server/LockManager.cpp:86-137 | on the heap, sorted or not: the outcome, the narrowed interval and the new list are those of LockList.LockWrite |
| LockManagers.LockManager.ScanReads | system/tx_MVTIL/server/LockManager.cpp:91-114 | the level-0 scan narrows the candidate as LockList.Narrow says, and refuses where it does |
| LockManagers.LockManager.CommitInterval | system/tx_MVTIL/server/LockManager.cpp:139-179 | settles exactly the transaction's locks in the run that starts at the old timestamp, in place |
| LockManagers.SettleFromIsRange | system/tx_MVTIL/server/LockManager.cpp:148-169 | the settling loop equals settling that run at once, although it overwrites the starts it compares |
| LockManagers.LockManager.RemoveLock | system/tx_MVTIL/server/LockManager.cpp:212-241 | removes the transaction's locks from the run that starts at the old timestamp and keeps size exact |
| LockManagers.LockManager.GarbageCollection | system/tx_MVTIL/server/LockManager.cpp:243-257 | the loop as it is, including the locks that it passes unexamined; size stays exact |
| LockManagers.LockManager.GetSize | system/tx_MVTIL/server/LockManager.h:64-66 | size is the number of locks between the sentinels, kept by every operation |
| LockSafety.ReadLockAvoidsWrites | system/tx_MVTIL/server/LockManager.cpp:46-84 | sorted list: a granted read lock shares no timestamp with any write lock, its end is at least the start of the request, and a refusal changes nothing |
| LockSafety.LockReadKeeps | system/tx_MVTIL/server/LockManager.cpp:46-84 | a read request keeps the sentinels, the order and the exclusion |
| LockSafety.NarrowAvoidsReads | system/tx_MVTIL/server/LockManager.cpp:91-114 | the scan only narrows, and what it leaves meets a scanned foreign read lock only if that lock is strictly inside the request |
| LockSafety.WriteLockShape | system/tx_MVTIL/server/LockManager.cpp:86-137 | a granted write interval is not empty, lies in the request and is inserted where its start belongs; a refusal changes nothing |
| LockSafety.WriteLockAvoidsReads | system/tx_MVTIL/server/LockManager.cpp:86-137 | sorted list: a foreign read lock that shares a timestamp with the granted write lock was strictly inside the request |
| LockSafety.LockWriteKeeps | system/tx_MVTIL/server/LockManager.cpp:86-137 | a write request that overruns no foreign read lock keeps the sentinels, the order and the exclusion |
| LockSafety.GrantMeetsReadIff | system/tx_MVTIL/server/LockManager.cpp:91-137 | sorted list: a granted write lock shares a timestamp with a given foreign read lock exactly when that lock is strictly inside the candidate at the moment the scan comes to it, and no later foreign read lock with the same start reaches the candidate's end |
| LockSafety.GrantKeepsExclusionIff | system/tx_MVTIL/server/LockManager.cpp:91-137 | on any sorted exclusive list a granted write request keeps exclusion if and only if it overruns no foreign read lock in that sense |
| LockSafety.NothingInsideIsOverrun | system/tx_MVTIL/server/LockManager.cpp:99-110 | a request that strictly contains no foreign read lock overruns none |
| LockSafety.NestedReadMayBeCutOff | system/tx_MVTIL/server/LockManager.cpp:99-110 | the converse fails: a concrete request that strictly contains a foreign read lock is cut off in front of it by a later one, and exclusion holds |
| LockSafety.CommitKeepsOrderIff | system/tx_MVTIL/server/LockManager.cpp:148-169 | settling keeps a sorted list sorted exactly when no lock behind a moved write lock starts below the commit timestamp |
| LockSafety.CommitKeepsExclusion | system/tx_MVTIL/server/LockManager.cpp:139-179 | settling at a timestamp that lies in the locks keeps exclusion |
| LockSafety.SettlingIsHarmless | system/tx_MVTIL/server/LockManager.cpp:148-169 | settling either of two locks that do not conflict, at a timestamp that lies in it, makes no conflict |
| LockSafety.MovedWriteIsMissed | system/tx_MVTIL/server/LockManager.cpp:157-158 | a write lock that moved past another hides it: a concrete later read overlaps a foreign write lock |
| LockSafety.CommitKeepsBounds | system/tx_MVTIL/server/LockManager.cpp:139-179 | settling keeps the sentinels and all locks between them, sorted or not |
| LockSafety.CommitSettlesExactly | system/tx_MVTIL/server/LockManager.cpp:139-179 | sorted list: each write lock of the transaction that starts at the given time then covers the commit timestamp alone, each such read lock ends there, and every other lock is unchanged and in its place |
| LockSafety.CommitReleases | system/tx_MVTIL/server/LockManager.cpp:155-168 | sorted list, commit inside the locks: such a read lock covers afterwards exactly the timestamps it covered up to the commit, such a write lock exactly the commit timestamp, and every other lock what it did |
| LockGrants.ReadIsRefusedIff | system/tx_MVTIL/server/LockManager.cpp:46-84 | sorted list: a read request is refused exactly when a write lock covers the time at which its lock would begin or a lock starts between that and the request; a granted lock reaches the end of the request or the next lock |
| LockGrants.WriteIsRefusedIff | system/tx_MVTIL/server/LockManager.cpp:86-137 | sorted list: a write request is refused exactly when other transactions' read locks cover every timestamp of it, and a granted interval contains every timestamp that they do not cover |
| LockGrants.BeginsFree | system/tx_MVTIL/server/LockManager.cpp:91-114 | sorted list: wherever the scan stands, a candidate that it keeps begins at a timestamp that no foreign read lock covers |
| LockRemoval.RemoveLockIsWithout | system/tx_MVTIL/server/LockManager.cpp:212-241 | sorted list: removal takes away every lock of the transaction with that start and nothing else, in order |
| LockRemoval.RemoveLockKeeps | system/tx_MVTIL/server/LockManager.cpp:212-241 | removal keeps the sentinels, the order and the exclusion |
| LockRemoval.RemoveLockBounded | system/tx_MVTIL/server/LockManager.cpp:212-241 | removal keeps the sentinels, sorted or not |
| LockRemoval.RemoveTwoStarts | system/tx_MVTIL/server/Scheduler.cpp:122-140 | removing a recorded write start and then a recorded read start removes exactly the locks with either start |
| LockRemoval.GarbageCollectionIsSound | system/tx_MVTIL/server/LockManager.cpp:243-257 | collection removes only locks that end at or below ts, keeps the others in order, never the sentinels, and keeps order and exclusion |
| LockRemoval.CollectKeepsLive | system/tx_MVTIL/server/LockManager.cpp:243-257 | the locks that end above ts are the same before and after, in the same order |
| LockRemoval.GarbageCollectionClearsIff | system/tx_MVTIL/server/LockManager.cpp:243-257 | a collection of a sorted list removes every expired lock if and only if the first lock has not expired and no two neighbours have |
| LockRemoval.CollectClearsIff | system/tx_MVTIL/server/LockManager.cpp:245-255 | the same for the loop from any node on: behind it everything expired goes exactly when no two neighbours there have expired |
| LockRemoval.CollectionSkips | system/tx_MVTIL/server/LockManager.cpp:243-257 | the witness for the condition: a list in which every lock has expired, and two of four survive the collection |
| VersionManagers.VersionEntry.ReadLock | system/tx_MVTIL/server/VersionManager.cpp:34-61 | find and lock on the entry: the version that answers, and the interval behind it and in front of the next one |
| VersionManagers.VersionManager.TryReadLock | system/tx_MVTIL/server/VersionManager.cpp:25-74 | as the entry does, or, for an absent key, a new entry with a lock from 1 on and FAIL_NO_VERSION; all other entries stay |
| VersionManagers.VersionManager.TryWriteLock | system/tx_MVTIL/server/VersionManager.cpp:77-108 | makes the entry if there is none and locks the narrowed interval; all other entries stay |
| VersionManagers.VersionManager.UpdateAndPersistVersion | system/tx_MVTIL/server/VersionManager.cpp:110-127 | adds the version, unless the timestamp is taken, and settles the lock of one key |
| VersionManagers.VersionManager.PersistReadLock | system/tx_MVTIL/server/VersionManager.cpp:129-139 | settles the read lock of one key, versions untouched |
| VersionManagers.VersionManager.RemoveVersion | system/tx_MVTIL/server/VersionManager.cpp:141-156 | removes the recorded lock of one key, versions untouched |
| VersionManagers.VersionManager.GarbageCollection | system/tx_MVTIL/server/VersionManager.cpp:158-179 | collects versions and locks of every entry, in any order of the entries |
| MvtilServer.ErasePreservesSnapshots | system/tx_MVTIL/server/VersionManager.cpp:158-179 | after a collection at ts, every lookup at or above ts finds the same neighbours and the same value |
| MvtilGuards.ErasePreservesLookupIff | system/tx_MVTIL/common/SkipList.h:175-186 | a lookup at t survives the collection at ts exactly when the next version is above ts or there was nothing below to lose |
| MvtilGuards.FirstIntervalReadsBelowStart | system/tx_MVTIL/server/VersionManager.cpp:39-56 | LOCK_FIRST_INTERVAL reads at or below the start of the interval and locks in front of the next version |
| MvtilGuards.LastIntervalReadsBelowStartIff | system/tx_MVTIL/server/VersionManager.cpp:44-52 | LOCK_LAST_INTERVAL reads at or below the start exactly when no version lies behind the start in the interval |
| MvtilSchedulers.Scheduler.HandleReadRequest | system/tx_MVTIL/server/Scheduler.cpp:25-72 | the retry loop, with other requests in between: the lock, the recorded start and the answer are those of the last pass; the request is refused only when its last pass is, and leaves no record then |
| MvtilSchedulers.Scheduler.HandleWriteRequest | system/tx_MVTIL/server/Scheduler.cpp:74-112 | on the heap: a second write only replaces the recorded value; a first one locks and records its start |
| MvtilSchedulers.Scheduler.HandleCommit | system/tx_MVTIL/server/Scheduler.cpp:151-186 | persists all recorded writes, then all recorded read locks, in any order, and forgets both sets |
| MvtilSchedulers.Scheduler.HandleAbort | system/tx_MVTIL/server/Scheduler.cpp:114-149 | removes all recorded write locks, then all recorded read locks, in any order, and forgets both sets |
| MvtilSchedulers.Scheduler.PersistWrites | system/tx_MVTIL/server/Scheduler.cpp:155-162 | the loop over the write set ends in the same entries for every order |
| MvtilSchedulers.Scheduler.GarbageCollection | system/tx_MVTIL/server/Scheduler.cpp:188-190 | collects every entry and leaves the pending sets alone |
| MvtilServer.HandleAbortAt | system/tx_MVTIL/server/Scheduler.cpp:114-149 | on each key the handler first removes the recorded write start and then the recorded read start |
| MvtilHandlers.ReadStepIsHandler | system/tx_MVTIL/server/Scheduler.cpp:25-72 | a read step of the runs leaves the server as the handler does and records the value it answers |
| MvtilHandlers.TryReadOnAnyKey | system/tx_MVTIL/server/VersionManager.cpp:25-74 | a read request on an absent key locks and answers as on a fresh entry |
| MvtilHandlers.WriteStepIsHandler | system/tx_MVTIL/server/Scheduler.cpp:74-112 | a write step of the runs leaves the server as the handler does and narrows the client to the reply |
| MvtilHandlers.HandleAbortUndoes | system/tx_MVTIL/server/Scheduler.cpp:114-149 | in every run, guarded or not, HandleAbort of an active transaction leaves every key with a sorted list without exactly its locks, versions untouched, and forgets its two sets and no others |
| MvtilHandlers.HandleCommitPublishes | system/tx_MVTIL/server/Scheduler.cpp:151-186 | in every run that meets the guard on commit timestamps HandleCommit stores the client's value at the commit timestamp under every recorded key, and keeps all other versions |
| MvtilHandlers.CommitSectionsAddUp | system/tx_MVTIL/server/Scheduler.cpp:155-162 | persisting the writes one section at a time, in any order without repetition, gives what the handler gives |
| MvtilHandlers.HandleCommitReleases | system/tx_MVTIL/server/Scheduler.cpp:151-186 | in every run, when an active transaction commits, HandleCommit ends its locks at the commit timestamp, which they covered, and leaves it nothing above; other locks keep their places; for sorted lists on which no write lock moves past another lock |
| MvtilHandlers.HandleCommitForgets | system/tx_MVTIL/server/Scheduler.cpp:151-186 | on any server, HandleCommit changes only keys that the transaction has recorded there, the versions only of those it wrote, and its pending sets go and no others |
| MvtilOrders.CommitAddsUp | system/tx_MVTIL/server/Scheduler.cpp:151-186 | on any server, the per-key sections of both loops of a commit, each in any order, end where the handler does |
| MvtilOrders.AbortAddsUp | system/tx_MVTIL/server/Scheduler.cpp:114-149 | the same for the two loops of an abort |
| MvtilOrders.CollectionAddsUp | system/tx_MVTIL/server/VersionManager.cpp:158-179 | a collection of a whole server collects every entry once, in any order |
| MvtilGrants.RefusalTakesNothing | system/tx_MVTIL/server/VersionManager.cpp:32-108 | a refused request leaves both tables of pending sets and every key's versions and locks as they were; at most an empty entry is new |
| MvtilGrants.ReadAnswers | system/tx_MVTIL/server/VersionManager.cpp:32-74 | sorted list: a read is told FAIL_NO_VERSION exactly for an absent key, and FAIL_PENDING_VERSION exactly when a lock bars its start from the newest version at or below it |
| MvtilGrants.WriteAnswers | system/tx_MVTIL/server/Scheduler.cpp:74-112 | sorted list: a write succeeds exactly when the key is in its write set already or others' read locks leave a timestamp of its interval free |
| MvtilGrants.ReadIsGrantedIff | system/tx_MVTIL/server/Scheduler.cpp:25-72 | in the runs that meet the guards on nested reads and on order: an active transaction can read a new key exactly when no lock bars it |
| MvtilGrants.WriteIsGrantedIff | system/tx_MVTIL/server/Scheduler.cpp:74-112 | in those runs: it can write a key exactly when it has written it before or others' read locks leave a timestamp of its interval free |
| MvtilSections.SectionsAreAtomic | system/tx_MVTIL/server/VersionManager.cpp:32-88 | with the find and the insertion of a first access as two sections: a run whose insertions find no entry for their key ends as a run of one-section steps that meets the same guards |
| MvtilSections.OneAtATimeIsUndisturbed | system/tx_MVTIL/server/VersionManager.cpp:32-88 | insertions find no entry for their key when no two first accesses to a key overlap |
| MvtilSections.SectionsAreSerializable | system/tx_MVTIL/server/VersionManager.cpp:32-88 | so such a run is one-copy serializable when it meets the four guards |
| MvtilSections.OverlappingAccessesLoseALock | system/tx_MVTIL/server/VersionManager.cpp:62-88 | a first read and a first write that overlap: every step meets the four guards, but a granted read lock is lost, and the reader's answer contradicts every serial order |
| MvtilTheorems.OneCopySerializable | system/tx_MVTIL/server/VersionManager.cpp:25-139 | in every run that meets the four guards, each read of a committed transaction returned what a serial replay of the committed transactions gives just before it, ordered by commit timestamp and, at one timestamp, by the start of their commits |
| MvtilTheorems.SerializableWithoutCollection | system/tx_MVTIL/server/VersionManager.cpp:25-139 | in runs without collection the same holds under three of the guards |
| MvtilTheorems.SerialOrderOfRun | system/tx_MVTIL/client/TransactionManager.cpp:128-148 | every run has such a serial order |
| MvtilTheorems.NewestVersionIsFinalValue | system/tx_MVTIL/server/VersionManager.cpp:110-127 | once the commits of a key have been persisted, its newest version is the final value of that replay, collections included; of the guards only the one on commit timestamps is needed |
| MvtilExclusion.ExclusionInEveryState | system/tx_MVTIL/server/LockManager.cpp:46-179 | in every state of every run that meets the guards on nested reads and on order, every lock list is sorted, and no timestamp is covered by a read lock and another transaction's write lock |
| MvtilExclusion.RunKeepsOrder | system/tx_MVTIL/server/LockManager.cpp:46-257 | in those runs every list stays sorted and exclusive |
| MvtilWitnesses.SampleRunMeetsAllGuards | system/tx_MVTIL/server/VersionManager.cpp:25-127 | the guards admit real work: a run that meets all four, in which one transaction commits a write and a later one reads it |
| MvtilWitnesses.SecondValueIsLost | system/tx_MVTIL/server/VersionManager.cpp:110-127 | without the guard on commit timestamps, and with the other three: two transactions commit one key at 5, the second value is lost, a later read contradicts every serial order, and the newest version is not the final value |
| MvtilWitnesses.CollectedValueIsMissed | system/tx_MVTIL/server/VersionManager.cpp:158-179 | without the guard on collection, and with the other three: a collection above an active reader drops the version below it and the lock that guarded it, and the reader's answer contradicts every serial order |
| MvtilVersions.ValuesSurviveIff | system/tx_MVTIL/server/VersionManager.cpp:110-127 | in every run without collection, guarded or not, once the commits of a key are persisted: every committed value of the key is stored at its commit timestamp if and only if no two transactions committed different values at one timestamp |
| MvtilVersions.RunKeepsFacts | system/tx_MVTIL/server/Scheduler.cpp:25-190 | in every run, guarded or not: every version was written by a committed transaction, every read names such a version or the initial value, and what was read or committed is lost only to a newer version at or below the watermark |
| MvtilVersions.StepKeepsPersisted | system/tx_MVTIL/server/VersionManager.cpp:110-179 | a write that has been persisted stays, or is lost only to a newer version at or below the watermark, even when a collection comes before its handler ends |
| MvtilTheorems.OwnReadsNewest | system/tx_MVTIL/client/TransactionManager.cpp:128-148 | what a committing transaction has read is still the newest committed value at or below its timestamp, persisted or not |
| MvtilTheorems.OthersReadsNewest | system/tx_MVTIL/client/TransactionManager.cpp:128-148 | a commit never lands between another committed transaction and the version it has read |
| MvtilStability.ReadsAreStable | system/tx_MVTIL/server/VersionManager.cpp:25-139 | in every run without collection that meets the guards on nested reads and on order: as long as the lock of a read is in the list, even when its transaction has aborted, the version it returned is the answer of the lookup, with the same value, at every timestamp of the lock below a commit of its own transaction; a transaction that has not aborted holds such a lock |
| MvtilStability.ReadsAreStableUnderCollection | system/tx_MVTIL/server/VersionManager.cpp:25-179 | with collections below the watermark guard the same holds for every transaction that has not finished below the watermark |
| MvtilSteps.StepEntry | system/tx_MVTIL/server/Scheduler.cpp:25-190 | a step changes at most the entry of its own key |
| MvtilVersions.StepKeepsVersion | system/tx_MVTIL/server/VersionManager.cpp:158-179 | a version is lost only when a newer one is at or below the watermark |
| MvtilBase.RunNarrows | system/tx_MVTIL/client/TransactionManager.cpp:47-126 | in every run, guarded or not, a transaction's interval only narrows from any point on, and is never empty |
| MvtilBase.CommitLiesInReadGrant | system/tx_MVTIL/client/TransactionManager.cpp:67-87 | in every run, guarded or not, the commit timestamp lies in every interval granted to a read, and the version read was then the newest at or below it |
| MvtilBase.CommitLiesInWriteGrant | system/tx_MVTIL/client/TransactionManager.cpp:93-126 | in every run, guarded or not, the commit timestamp lies in every interval granted to a first write |
| MvtilBase.RunKeepsBase | system/tx_MVTIL/server/Scheduler.cpp:25-190 | in every run, guarded or not: intervals are not empty, every lock contains the interval that its transaction has left, and the pending write sets are what the clients wrote |
| MvtilAborts.RunKeepsAccounts | system/tx_MVTIL/server/Scheduler.cpp:65-111 | in every run, guarded or not, each lock of an active transaction is recorded in the pending sets with its start |
| MvtilAborts.AbortUndoes | system/tx_MVTIL/server/Scheduler.cpp:114-149 | in every run, guarded or not, the abort of an active transaction leaves each sorted lock list without exactly its locks, the others in their order, and the versions untouched |
| MvtilClients.GrantsAreInRequest | system/tx_MVTIL/server/VersionManager.cpp:25-108 | a granted read or write interval is not empty and lies in the request, sorted list or not |
| MvtilClients.TransactionManager.ReadData | system/tx_MVTIL/client/TransactionManager.cpp:47-91 | answers from its own sets without a message, narrows the interval to the reply, records the operation with the value that the code records, or sends each write server one abort message |
| MvtilClients.TransactionManager.WriteData | system/tx_MVTIL/client/TransactionManager.cpp:93-126 | asks the server for every write, narrows the interval to the reply, records the operation, or sends each write server one abort message |
| MvtilClients.TransactionManager.CommitTransaction | system/tx_MVTIL/client/TransactionManager.cpp:128-157 | commits at the start of the interval: each write server, and nobody else, is sent exactly one commit message with that timestamp, and all sets are cleared |
| MvtilClients.TransactionManager.AbortTransaction | system/tx_MVTIL/client/TransactionManager.cpp:159-185 | each write server, and nobody else, is sent exactly one abort message; the recorded operations stay |
| MvtilClients.TransactionManager.Tell | system/tx_MVTIL/client/TransactionManager.cpp:144-150 | the loop over the write servers sends each of them the ending once, in any order |
| MvtilClients.TransactionManager.ReplayOne | system/tx_MVTIL/client/TransactionManager.cpp:196-203 | one recorded operation again: it succeeds exactly when it is answered locally or granted, is answered locally exactly when it reads a key that the client has a value for, and sends one request otherwise |
| MvtilClients.TransactionManager.Replay | system/tx_MVTIL/client/TransactionManager.cpp:196-206 | succeeds exactly when every operation was answered locally or granted, and else ends with a refused one; sends one request for each operation but for reads of keys met before; success records the same reads and writes, with their values, again |
| MvtilClients.TransactionManager.RestartTransaction | system/tx_MVTIL/client/TransactionManager.cpp:187-211 | terminates; over a transaction's life at most c_restart + 1 replays; it fails only when each of its replays met a refusal and the bound is used up, so never without operations; success records the same reads and writes, in an interval inside the one the clock gave the last replay; the requests sent are exactly those of its replays; once it has failed, no call sends a message |
| LocalOracles.LocalOracle.GetTransactionId | system/tx_MVTIL/client/LocalOracle.cpp:35-39 | the ids that one oracle returns are the sequence NthId of its client, one after the other, from the first on; the client id and the counter mod 8196 can be read back from an id |
| LocalOracles.LocalOracle.GetTimestamp | system/tx_MVTIL/client/LocalOracle.cpp:30-33 | for client ids below 1024 the millisecond, the client id and the counter mod 1024 can be read back from the timestamp |
| LocalOracles.TimestampsDetermineIff | system/tx_MVTIL/client/LocalOracle.cpp:30-33 | for client ids below 1024 two timestamps are equal exactly when millisecond, client and counter mod 1024 are |
| LocalOracles.TimestampsFollowTheClock | system/tx_MVTIL/client/LocalOracle.cpp:30-33 | for client ids below 1024 a smaller millisecond gives a smaller timestamp |
| LocalOracles.LargeClientsCollide | system/tx_MVTIL/client/LocalOracle.cpp:30-33 | a client id of 1024 or more shares timestamps with the client 1024 below it one millisecond later |
| LocalOracles.IdsCollideIff | system/tx_MVTIL/client/LocalOracle.cpp:35-39 | ids of different clients never collide, and those of one client exactly every 8196 draws |
| LocalOracles.ConsecutiveIdsAreDistinct | system/tx_MVTIL/client/LocalOracle.cpp:35-39 | any 8196 consecutive ids of a client are distinct |
| TwoPhaseTheorems.StepRefinesAtomic | system/tx_2PL/client/TransactionManager.cpp:115-131 | the start of a commit is one atomic transaction on the abstract store that validates every read and applies every pending write; every other step leaves the abstract store alone |
| TwoPhaseTheorems.SerializableInCommitOrder | system/tx_2PL/server/Scheduler.cpp:65-177 | every server read of a committed transaction is what a serial replay in commit order gives just before it |
| TwoPhaseTheorems.StoreIsReplay | system/tx_2PL/server/Scheduler.cpp:65-102 | once the commits have reached a key's server, its store holds the final value of the replay |
| TwoPhaseTheorems.LockTableAgrees | system/tx_2PL/server/Scheduler.cpp:104-260 | a read entry lists exactly the transactions with an unfinished READ, a write entry has exactly one holder, with an unfinished WRITE, in every reachable state |
| TwoPhaseTheorems.EndedHoldsNothing | system/tx_2PL/server/Scheduler.cpp:25-102 | a transaction whose servers have all answered holds no lock |
| TwoPhaseTheorems.AbortLeavesStores | system/tx_2PL/server/Scheduler.cpp:25-63 | no step of an abort changes a store |
| TwoPhaseTheorems.NoConflictingHolders | system/tx_2PL/server/Scheduler.cpp:104-260 | two transactions that hold the same key both hold it for reading |
| TwoPhaseHandlers.ReadIsGrantedIff | system/tx_2PL/server/Scheduler.cpp:104-177 | in every run, a read is granted exactly when nobody holds the key with an unfinished WRITE |
| TwoPhaseHandlers.WriteIsGrantedIff | system/tx_2PL/server/Scheduler.cpp:179-260 | in every run, a write of an active transaction is granted exactly when no other transaction holds the key: so a sole reader is upgraded |
| TwoPhaseHandlers.HandleCommitAt | system/tx_2PL/server/Scheduler.cpp:65-102 | on any server, after a commit each key with a recorded WRITE has its recorded value and no lock, each with a recorded READ has a lock with one holder less, every other key is unchanged, and only the transaction's record is gone |
| TwoPhaseHandlers.HandleCommitPublishes | system/tx_2PL/server/Scheduler.cpp:65-102 | in every run, a commit leaves on each server what the client wrote there, and nothing else changed in the store; the keys that the transaction wrote are free, it is in no holder set, and no other lock or record changes |
| TwoPhaseHandlers.HandleAbortUndoes | system/tx_2PL/server/Scheduler.cpp:25-63 | in every run, an abort leaves the store as it was, and gives up exactly the transaction's locks and record |
| TwoPhaseHandlers.SectionsAddUp | system/tx_2PL/server/Scheduler.cpp:25-102 | on any server, the per-key sections of a commit, or of an abort, in any order and then the last one end where the handler does |
| TwoPhaseSections.SectionsAreAtomic | system/tx_2PL/server/Scheduler.cpp:116-215 | with the find and the insertion of a first lock as two sections: a run whose insertions find no lock entry for their key, or one that nobody is left in, ends as a run of one-section steps does |
| TwoPhaseSections.InsertionIsStep | system/tx_2PL/server/Scheduler.cpp:116-215 | an insertion over an entry that nobody is left in takes the lock as the one-section request does |
| TwoPhaseSections.OneAtATimeIsUndisturbed | system/tx_2PL/server/Scheduler.cpp:116-215 | insertions find nobody holding their key when no two first locks of a key overlap |
| TwoPhaseSections.SectionsAreSerializable | system/tx_2PL/server/Scheduler.cpp:116-215 | so such a run is serializable in commit order |
| TwoPhaseSections.OverlappingWritesShareAKey | system/tx_2PL/server/Scheduler.cpp:207-215 | two first writes that overlap: both transactions hold the key for writing |
| TwoPhaseInvariant.RunKeeps | system/tx_2PL/server/Scheduler.cpp:25-260 | the invariant of locks, pending operations, simulation and reads holds in every reachable state |
| TwoPhaseServer.CommitStep | system/tx_2PL/server/Scheduler.cpp:70-96 | one round of the commit loop is the section of its key, whatever the order of the rounds |
| TwoPhaseServer.AbortStep | system/tx_2PL/server/Scheduler.cpp:33-57 | one round of the abort loop is the section of its key, whatever the order of the rounds |
| TwoPhaseSchedulers.Scheduler.HandleReadRequest | system/tx_2PL/server/Scheduler.cpp:104-177 | the retry loop, with other transactions' requests in between: shares or takes the read lock exactly when the last pass finds no write lock, records the operation, and answers from the store; it times out only when the last pass is refused |
| TwoPhaseSchedulers.Scheduler.HandleWriteRequest | system/tx_2PL/server/Scheduler.cpp:179-260 | the retry loop: takes a free lock or upgrades its own read lock, records the value; a second write only replaces it; it times out only when the last pass is refused |
| TwoPhaseSchedulers.Scheduler.HandleCommit | system/tx_2PL/server/Scheduler.cpp:65-102 | the loop, in any order, stores all recorded writes and gives up all locks of the transaction |
| TwoPhaseSchedulers.Scheduler.HandleAbort | system/tx_2PL/server/Scheduler.cpp:25-63 | the loop, in any order, gives up all locks and leaves the store alone |
| TwoPhaseClients.TransactionManager.ReadData | system/tx_2PL/client/TransactionManager.cpp:44-85 | a cached key is answered without a message; otherwise the server's answer is kept and recorded for a replay, or every server is told to abort |
| TwoPhaseClients.TransactionManager.WriteData | system/tx_2PL/client/TransactionManager.cpp:87-113 | a second write of a key is neither forwarded nor recorded for a replay: client and servers still agree on what will commit exactly when it repeats the earlier value |
| TwoPhaseClients.TransactionManager.CommitTransaction | system/tx_2PL/client/TransactionManager.cpp:115-131 | the loop reaches every locked server once, in any order, and clears the sets |
| TwoPhaseClients.TransactionManager.AbortTransaction | system/tx_2PL/client/TransactionManager.cpp:133-148 | the loop tells every locked server to abort, in any order, and clears the sets |

## Left out

- Liveness: a blocked request may wait or fail.
- Thrift code, sockets, ServerConnection, CommunicationService, ConfigLoader and the XML configuration.
- The internals of TBB hash maps, mutexes and LockSet: an accessor is taken to give exclusive access to one entry.
- Restarts in the MVTIL runs: records of an earlier attempt survive on servers that were only read, and a later commit
  could then widen an old read lock. Restarts are covered for MVTO+ and 2PL, where an attempt is a new begin of the
  same transaction, and by `MvtilClients` on the client side.
- LOCK_LAST_INTERVAL in the MVTIL runs: it reads above the commit timestamp; only its entry-level behaviour is modelled.
- FAIL_NO_VERSION reads in MVTO+ serializability: they leave no mark. `MvtoTheorems.NoVersionAgreesIff` says exactly
  when such an answer agrees with the serial order, and `MvtoTheorems.UnmarkedRead` shows a run in which it does not.
- TwoPhaseSchedulers.Scheduler.HandleReadRequest: no isReadOnly flag; it only disables the timeout, and a loop without
  one need not end.
- SkipLists.SkipList.Insert: keys below the lower sentinel are not covered; the code would put them behind the head.
- SkipLists.SkipList.Remove: the key of the upper sentinel is not covered; the code would unlink the tail.
- LockManagers.LockManager.LockReadInterval: a candidate that begins at or below the lower sentinel, or ends at the
  upper one, is not covered; the version manager never passes one.
- LockManagers.LockManager.LockWriteInterval: a candidate at or beyond a sentinel is not covered; client intervals lie
  between the sentinels.
- LockManagers.LockManager.ScanReads: a candidate at or beyond a sentinel is not covered, as for LockWriteInterval.
- LockManagers.LockManager.CommitInterval: timestamps at or beyond a sentinel are not covered; the recorded and the
  commit timestamps lie between the sentinels.
- LockManagers.LockManager.RemoveLock: a timestamp at or beyond a sentinel is not covered; recorded starts lie between
  the sentinels.
- LockManagers.LockManager.GarbageCollection: a watermark at the upper sentinel is not covered; it would collect the
  tail.
- MvtilHandlers.HandleCommitReleases: on a list that has lost its order the search may miss a lock, which then keeps its
  end (`LockSafety.MovedWriteIsMissed` shows such a list).
- MvtilClients.TransactionManager.RestartTransaction: server replies are arbitrary grants inside the request, and the
  new interval is taken to end below 2^63 - 1.
- The clock, the random number generator, and the memory that removed nodes occupy.
- The restart loops of the 2PL and MVTO+ clients, which have the shape of the MVTIL one.
- GetSize over a whole server, the test programs, parse.cpp, scripts, and server/Version.h, which the core does not use.
