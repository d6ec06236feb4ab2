/**
  One server of the MVTIL protocol: what server/VersionManager.cpp and server/Scheduler.cpp do to the entry of
  one key, its versions and its lock list, under that key's accessor.
 */
module MvtilServer {
  import opened Common
  import opened SortedMap
  import opened LockList
  import opened LockSafety
  import opened LockRemoval

  /** The committed values of one key by write timestamp, as the skip list holds them, sentinels included. */
  type Versions = m: map<Timestamp, Value> | HasBounds(m) ghost witness NO_VERSIONS

  type LockSeq = s: seq<Lock> | Bounded(s) ghost witness NO_LOCKS

  const NO_VERSIONS: map<Timestamp, Value> := map[MIN_TIMESTAMP := "", MAX_TIMESTAMP := ""]

  datatype Entry = Entry(versions: Versions, locks: LockSeq)

  const FRESH_ENTRY := Entry(NO_VERSIONS, NO_LOCKS)

  datatype Policy = LOCK_FIRST_INTERVAL | LOCK_LAST_INTERVAL

  datatype PendingWrite = PendingWrite(value: Value, start: Instant)

  datatype Server = Server(
    entries: map<Key, Entry>,
    pendingReadSets: map<TransactionId, map<Key, Instant>>,
    pendingWriteSets: map<TransactionId, map<Key, PendingWrite>>)

  const EMPTY_SERVER := Server(map[], map[], map[])

  // ----- reads

  /** The version a read request takes: the newest at or below the start, or the finish, of the interval. */
  ghost function Candidate(versions: Versions, start: Instant, finish: Instant, policy: Policy): Timestamp {
    Below(versions, (if policy == LOCK_FIRST_INTERVAL then start else finish) + 1)
  }

  /** TryReadLock on an existing entry: the interval it asks the lock manager for. */
  ghost function ReadRequest(versions: Versions, start: Instant, finish: Instant, policy: Policy): Interval {
    var at: Instant := if policy == LOCK_FIRST_INTERVAL then start else finish;
    var next := AtOrAbove(versions, at + 1);
    assert at + 1 <= next;
    Interval(Below(versions, at + 1) + 1, start, Min(finish, next - 1))
  }

  /** Every lock list that LockReadInterval leaves is again bounded by its sentinels. */
  lemma LockReadBounded(locks: seq<Lock>, tid: TransactionId, c: Interval)
    requires Bounded(locks) && MIN_TIMESTAMP < c.lockStart && c.finish < MAX_TIMESTAMP
    ensures Bounded(LockRead(locks, tid, c).locks)
  {
    TailConflicts(locks, c.lockStart);
  }

  ghost function TryReadLock(e: Entry, tid: TransactionId, start: Instant, finish: Instant, policy: Policy): (g: Granted)
    ensures Bounded(g.locks)
  {
    var c := ReadRequest(e.versions, start, finish, policy);
    LockReadBounded(e.locks, tid, c);
    LockRead(e.locks, tid, c)
  }

  /** TryReadLock on a key without an entry: FAIL_NO_VERSION, with a lock on [1, finish] of the new entry. */
  function LockAbsentKey(tid: TransactionId, start: Instant, finish: Instant): (g: Granted)
    ensures Bounded(g.locks)
  {
    LockReadBounded(NO_LOCKS, tid, Interval(1, start, finish));
    LockRead(NO_LOCKS, tid, Interval(1, start, finish))
  }

  // ----- writes

  lemma LockWriteBounded(locks: seq<Lock>, tid: TransactionId, c: Interval)
    requires Bounded(locks) && MIN_TIMESTAMP < c.start && c.finish < MAX_TIMESTAMP
    ensures Bounded(LockWrite(locks, tid, c).locks)
  {
    var g := LockWrite(locks, tid, c);
    NarrowAvoidsReads(locks, tid, c.start, c.finish, c.finish, 1);
    if g.ok {
      StopsBeforeTail(locks, g.interval.start);
    }
  }

  function TryWriteLock(locks: LockSeq, tid: TransactionId, start: Instant, finish: Instant): (g: Granted)
    ensures Bounded(g.locks)
  {
    LockWriteBounded(locks, tid, Interval(MIN_TIMESTAMP, start, finish));
    LockWrite(locks, tid, Interval(MIN_TIMESTAMP, start, finish))
  }

  // ----- commit and abort

  function CommitLocks(locks: LockSeq, tid: TransactionId, oldTs: Instant, ts: Instant): LockSeq {
    CommitKeepsBounds(locks, tid, oldTs, ts);
    CommitInterval(locks, tid, oldTs, ts)
  }

  /** UpdateAndPersistVersion: skiplist::insert adds only an absent key, then the lock is settled. */
  function PersistVersion(e: Entry, tid: TransactionId, value: Value, oldTs: Instant, ts: Instant): Entry {
    Entry(if ts in e.versions then e.versions else e.versions[ts := value], CommitLocks(e.locks, tid, oldTs, ts))
  }

  function PersistReadLock(e: Entry, tid: TransactionId, oldTs: Instant, ts: Instant): Entry {
    e.(locks := CommitLocks(e.locks, tid, oldTs, ts))
  }

  function RemoveVersion(e: Entry, tid: TransactionId, oldTs: Instant): Entry {
    RemoveLockBounded(e.locks, tid, oldTs);
    e.(locks := RemoveLock(e.locks, tid, oldTs))
  }

  // ----- garbage collection

  /** skiplist::erase drops a version when a newer one is at or below ts. */
  function Erase(versions: Versions, ts: Timestamp): Versions {
    EraseUpTo(versions, ts)
  }

  function CollectEntry(e: Entry, ts: Instant): Entry {
    CollectKeeps(e.locks, ts, 1);
    Entry(Erase(e.versions, ts), GarbageCollection(e.locks, ts))
  }

  /** Collection preserves snapshots: every lookup at or above the watermark finds the same neighbours and value. */
  lemma ErasePreservesSnapshots(versions: Versions, ts: Instant, t: Instant)
    requires ts <= t
    ensures Below(Erase(versions, ts), t + 1) == Below(versions, t + 1)
    ensures AtOrAbove(Erase(versions, ts), t + 1) == AtOrAbove(versions, t + 1)
    ensures Erase(versions, ts)[Below(versions, t + 1)] == versions[Below(versions, t + 1)]
  {
    var kept := Erase(versions, ts);
    var w := Below(versions, t + 1);
    var n := AtOrAbove(versions, t + 1);
    assert w in kept && n in kept;
    assert IsBelow(kept, t + 1, w) && IsAtOrAbove(kept, t + 1, n);
  }

  /** An absent key is as good as one with a fresh entry. */
  function EntryOr(entries: map<Key, Entry>, k: Key): Entry {
    if k in entries then entries[k] else FRESH_ENTRY
  }

  // ----- pending sets

  function ReadSet(s: Server, tid: TransactionId): map<Key, Instant> {
    if tid in s.pendingReadSets then s.pendingReadSets[tid] else map[]
  }

  function WriteSet(s: Server, tid: TransactionId): map<Key, PendingWrite> {
    if tid in s.pendingWriteSets then s.pendingWriteSets[tid] else map[]
  }

  /** What a request reports. */
  datatype LockState = R_LOCK_SUCCESS | W_LOCK_SUCCESS | FAIL_NO_VERSION | FAIL_PENDING_VERSION

  // ----- whole handlers

  /** The bounds of a granted read are no sentinels. */
  lemma GrantedReadIsInner(e: Entry, tid: TransactionId, start: Instant, finish: Instant, policy: Policy)
    requires TryReadLock(e, tid, start, finish, policy).ok
    ensures var i := TryReadLock(e, tid, start, finish, policy).interval;
      Inner(i.lockStart) && Inner(i.start) && Inner(i.finish)
  {
    TailConflicts(e.locks, ReadRequest(e.versions, start, finish, policy).lockStart);
  }

  /** VersionManager::TryReadLock: the entries after it, its state and the interval it reports. */
  ghost function TryRead(entries: map<Key, Entry>, tid: TransactionId, start: Instant, finish: Instant, k: Key, policy: Policy)
    : (r: (map<Key, Entry>, LockState, Interval))
    ensures r.1 != FAIL_PENDING_VERSION ==> Inner(r.2.lockStart)
  {
    if k in entries then
      var e := entries[k];
      var g := TryReadLock(e, tid, start, finish, policy);
      var state := if g.ok then GrantedReadIsInner(e, tid, start, finish, policy); R_LOCK_SUCCESS else FAIL_PENDING_VERSION;
      (entries[k := e.(locks := g.locks)], state, g.interval)
    else
      var g := LockAbsentKey(tid, start, finish);
      (entries[k := FRESH_ENTRY.(locks := g.locks)], FAIL_NO_VERSION, g.interval)
  }

  /** What a read is answered with. */
  ghost function ReadValue(entries: map<Key, Entry>, start: Instant, finish: Instant, k: Key, policy: Policy): Value {
    if k in entries then entries[k].versions[Candidate(entries[k].versions, start, finish, policy)] else ""
  }

  function NoteRead(s: Server, tid: TransactionId, k: Key, lockStart: Instant): Server {
    s.(pendingReadSets := s.pendingReadSets[tid := ReadSet(s, tid)[k := lockStart]])
  }

  /** One pass of HandleReadRequest: the server after it, and what it reports. */
  ghost function HandleRead(s: Server, tid: TransactionId, start: Instant, finish: Instant, k: Key, policy: Policy)
    : (Server, LockState)
  {
    var (entries, state, locked) := TryRead(s.entries, tid, start, finish, k, policy);
    var after := s.(entries := entries);
    (if state == FAIL_PENDING_VERSION then after else NoteRead(after, tid, k, locked.lockStart), state)
  }

  lemma GrantedWriteIsInner(locks: LockSeq, tid: TransactionId, start: Instant, finish: Instant)
    requires TryWriteLock(locks, tid, start, finish).ok
    ensures Inner(TryWriteLock(locks, tid, start, finish).interval.start)
    ensures Inner(TryWriteLock(locks, tid, start, finish).interval.finish)
  {
    NarrowAvoidsReads(locks, tid, start, finish, finish, 1);
  }

  /** VersionManager::TryWriteLock: the entries after it, its state and the interval it reports. */
  function TryWrite(entries: map<Key, Entry>, tid: TransactionId, start: Instant, finish: Instant, k: Key)
    : (r: (map<Key, Entry>, LockState, Interval))
    ensures r.1 == W_LOCK_SUCCESS ==> Inner(r.2.start) && Inner(r.2.finish)
  {
    var e := EntryOr(entries, k);
    var g := TryWriteLock(e.locks, tid, start, finish);
    var state := if g.ok then GrantedWriteIsInner(e.locks, tid, start, finish); W_LOCK_SUCCESS else FAIL_PENDING_VERSION;
    (entries[k := e.(locks := g.locks)], state, g.interval)
  }

  function NoteWrite(s: Server, tid: TransactionId, k: Key, p: PendingWrite): Server {
    s.(pendingWriteSets := s.pendingWriteSets[tid := WriteSet(s, tid)[k := p]])
  }

  /** HandleWriteRequest: a second write of a key only replaces the recorded value. */
  function HandleWrite(s: Server, tid: TransactionId, start: Instant, finish: Instant, k: Key, v: Value)
    : (Server, LockState, Interval)
  {
    if k in WriteSet(s, tid) then
      (NoteWrite(s, tid, k, WriteSet(s, tid)[k].(value := v)), W_LOCK_SUCCESS, Interval(MIN_TIMESTAMP, start, finish))
    else
      var (entries, state, locked) := TryWrite(s.entries, tid, start, finish, k);
      var after := s.(entries := entries);
      (if state == W_LOCK_SUCCESS then NoteWrite(after, tid, k, PendingWrite(v, locked.start)) else after, state, locked)
  }

  /** The entries when all writes of `writes` but those of `todo` have been persisted. */
  function Written(entries: map<Key, Entry>, writes: map<Key, PendingWrite>, todo: set<Key>, tid: TransactionId, ts: Instant)
    : map<Key, Entry>
  {
    map k | k in entries ::
      if k in writes && k !in todo then PersistVersion(entries[k], tid, writes[k].value, writes[k].start, ts) else entries[k]
  }

  /** The entries when all read locks of `readStarts` but those of `todo` have been persisted. */
  function Settled(entries: map<Key, Entry>, readStarts: map<Key, Instant>, todo: set<Key>, tid: TransactionId, ts: Instant)
    : map<Key, Entry>
  {
    map k | k in entries ::
      if k in readStarts && k !in todo then PersistReadLock(entries[k], tid, readStarts[k], ts) else entries[k]
  }

  /** The entries when the locks recorded by `starts`, but for those of `todo`, have been removed. */
  function Removed(entries: map<Key, Entry>, starts: map<Key, Instant>, todo: set<Key>, tid: TransactionId): map<Key, Entry> {
    map k | k in entries :: if k in starts && k !in todo then RemoveVersion(entries[k], tid, starts[k]) else entries[k]
  }

  function StartsOf(writes: map<Key, PendingWrite>): map<Key, Instant> {
    map k | k in writes :: writes[k].start
  }

  function Forget(s: Server, tid: TransactionId, entries: map<Key, Entry>): Server {
    Server(entries, s.pendingReadSets - {tid}, s.pendingWriteSets - {tid})
  }

  function HandleCommit(s: Server, tid: TransactionId, ts: Instant): Server {
    Forget(s, tid, Settled(Written(s.entries, WriteSet(s, tid), {}, tid, ts), ReadSet(s, tid), {}, tid, ts))
  }

  function HandleAbort(s: Server, tid: TransactionId): Server {
    Forget(s, tid, Removed(Removed(s.entries, StartsOf(WriteSet(s, tid)), {}, tid), ReadSet(s, tid), {}, tid))
  }

  /** HandleAbort on one key: the recorded write start is removed first, then the recorded read start. */
  function AbortEntry(e: Entry, tid: TransactionId, w: Option<PendingWrite>, r: Option<Instant>): Entry {
    var unwritten := if w.Some? then RemoveVersion(e, tid, w.value.start) else e;
    if r.Some? then RemoveVersion(unwritten, tid, r.value) else unwritten
  }

  lemma HandleAbortAt(s: Server, tid: TransactionId, k: Key)
    requires k in s.entries
    ensures k in HandleAbort(s, tid).entries
    ensures HandleAbort(s, tid).entries[k]
         == AbortEntry(s.entries[k], tid, Lookup(WriteSet(s, tid), k), Lookup(ReadSet(s, tid), k))
  {
  }

  // ----- one round of each handler's loop

  lemma LoopsStart(
      entries: map<Key, Entry>, writes: map<Key, PendingWrite>, starts: map<Key, Instant>, tid: TransactionId, ts: Instant)
    ensures Written(entries, writes, writes.Keys, tid, ts) == entries
    ensures Settled(entries, starts, starts.Keys, tid, ts) == entries
    ensures Removed(entries, starts, starts.Keys, tid) == entries
  {
  }

  lemma WrittenStep(entries: map<Key, Entry>, writes: map<Key, PendingWrite>, todo: set<Key>, tid: TransactionId, ts: Instant, k: Key)
    requires k in writes && k in todo
    ensures var now := Written(entries, writes, todo, tid, ts);
      Written(entries, writes, todo - {k}, tid, ts)
      == if k in now then now[k := PersistVersion(now[k], tid, writes[k].value, writes[k].start, ts)] else now
  {
  }

  lemma SettledStep(entries: map<Key, Entry>, readStarts: map<Key, Instant>, todo: set<Key>, tid: TransactionId, ts: Instant, k: Key)
    requires k in readStarts && k in todo
    ensures var now := Settled(entries, readStarts, todo, tid, ts);
      Settled(entries, readStarts, todo - {k}, tid, ts)
      == if k in now then now[k := PersistReadLock(now[k], tid, readStarts[k], ts)] else now
  {
  }

  lemma RemovedStep(entries: map<Key, Entry>, starts: map<Key, Instant>, todo: set<Key>, tid: TransactionId, k: Key)
    requires k in starts && k in todo
    ensures var now := Removed(entries, starts, todo, tid);
      Removed(entries, starts, todo - {k}, tid)
      == if k in now then now[k := RemoveVersion(now[k], tid, starts[k])] else now
  {
  }

  /** The entries when all but those of `todo` have been collected. */
  function Collected(entries: map<Key, Entry>, todo: set<Key>, ts: Instant): map<Key, Entry> {
    map k | k in entries :: if k in todo then entries[k] else CollectEntry(entries[k], ts)
  }

  lemma CollectedNothing(entries: map<Key, Entry>, ts: Instant)
    ensures Collected(entries, entries.Keys, ts) == entries
  {
  }

  lemma CollectedStep(entries: map<Key, Entry>, todo: set<Key>, k: Key, ts: Instant)
    requires k in entries && k in todo
    ensures var now := Collected(entries, todo, ts);
      now[k] == entries[k] && now[k := CollectEntry(now[k], ts)] == Collected(entries, todo - {k}, ts)
  {
  }
}
