/**
  The MVTIL server (server/Scheduler.cpp): the version manager and the two tables of pending sets. Each handler
  computes what MvtilServer says about the whole server.
 */
module MvtilSchedulers {
  import opened Common
  import opened SortedMap
  import opened Links
  import opened LockList
  import opened VersionManagers
  import S = MvtilServer

  class Scheduler {
    const manager: VersionManager
    var pendingReadSets: map<TransactionId, map<Key, Instant>>
    var pendingWriteSets: map<TransactionId, map<Key, S.PendingWrite>>

    ghost predicate Valid()
      reads this, manager, manager.Repr
    {
      this !in manager.Repr && manager.Valid()
    }

    /** The server by value. */
    ghost function View(): S.Server
      requires Valid()
      reads this, manager, manager.Repr
    {
      S.Server(manager.View(), pendingReadSets, pendingWriteSets)
    }

    constructor (policy: S.Policy)
      ensures Valid() && fresh(manager.Repr) && View() == S.EMPTY_SERVER && manager.policy == policy
    {
      manager := new VersionManager(policy);
      pendingReadSets, pendingWriteSets := map[], map[];
    }

    /**
      The retry loop of a read. `patience` is how many more passes the clock allows after the first. Each pass is one
      section, and other requests run in between: the last pass begins at the server `at`. A request is refused only
      when its last pass is.
     */
    method HandleReadRequest(tid: TransactionId, start: Instant, finish: Instant, k: Key, patience: nat, level: nat)
      returns (state: S.LockState, value: Value, locked: Interval, ghost at: S.Server, passes: nat)
      requires Valid() && 1 <= level <= MAX_LEVEL
      modifies this, manager.Repr
      ensures Valid() && fresh(manager.Repr - old(manager.Repr))
      ensures (View(), state) == S.HandleRead(at, tid, start, finish, k, manager.policy)
      ensures locked == S.TryRead(at.entries, tid, start, finish, k, manager.policy).2
      ensures value == if state == S.FAIL_PENDING_VERSION then "" else S.ReadValue(at.entries, start, finish, k, manager.policy)
      ensures 1 <= passes <= patience + 1 && (passes == 1 ==> at == old(View()))
      ensures state == S.FAIL_PENDING_VERSION ==> passes == patience + 1
    {
      at, passes := View(), 1;
      state, value, locked := ReadOnce(tid, start, finish, k, level);
      while state == S.FAIL_PENDING_VERSION && passes <= patience
        invariant Valid() && fresh(manager.Repr - old(manager.Repr))
        invariant (View(), state) == S.HandleRead(at, tid, start, finish, k, manager.policy)
        invariant locked == S.TryRead(at.entries, tid, start, finish, k, manager.policy).2
        invariant state != S.FAIL_PENDING_VERSION ==> value == S.ReadValue(at.entries, start, finish, k, manager.policy)
        invariant 1 <= passes <= patience + 1 && (passes == 1 ==> at == old(View()))
        decreases patience + 1 - passes
      {
        Yield();
        at, passes := View(), passes + 1;
        state, value, locked := ReadOnce(tid, start, finish, k, level);
      }
      if state == S.FAIL_PENDING_VERSION {
        value := "";
      }
    }

    /** Other requests run: they may do anything that keeps the server valid. */
    method Yield()
      requires Valid()
      modifies this, manager.Repr
      ensures Valid() && fresh(manager.Repr - old(manager.Repr))
    {
    }

    /** One pass of the retry loop, with the record that a pass leaves when it succeeds. */
    method ReadOnce(tid: TransactionId, start: Instant, finish: Instant, k: Key, level: nat)
      returns (state: S.LockState, value: Value, locked: Interval)
      requires Valid() && 1 <= level <= MAX_LEVEL
      modifies this, manager.Repr
      ensures Valid() && fresh(manager.Repr - old(manager.Repr))
      ensures (View(), state) == S.HandleRead(old(View()), tid, start, finish, k, manager.policy)
      ensures locked == S.TryRead(old(View()).entries, tid, start, finish, k, manager.policy).2
      ensures state != S.FAIL_PENDING_VERSION ==> value == S.ReadValue(old(View()).entries, start, finish, k, manager.policy)
    {
      state, locked, value := manager.TryReadLock(tid, k, start, finish, level);
      if state != S.FAIL_PENDING_VERSION {
        NoteRead(tid, k, locked.lockStart);
      }
    }

    method NoteRead(tid: TransactionId, k: Key, lockStart: Instant)
      requires Valid()
      modifies this`pendingReadSets
      ensures Valid() && View() == S.NoteRead(old(View()), tid, k, lockStart)
    {
      var mine := if tid in pendingReadSets then pendingReadSets[tid] else map[];
      pendingReadSets := pendingReadSets[tid := mine[k := lockStart]];
    }

    method HandleWriteRequest(tid: TransactionId, start: Instant, finish: Instant, k: Key, value: Value, level: nat)
      returns (state: S.LockState, locked: Interval)
      requires Valid() && 1 <= level <= MAX_LEVEL
      modifies this, manager.Repr
      ensures Valid() && fresh(manager.Repr - old(manager.Repr))
      ensures (View(), state, locked) == S.HandleWrite(old(View()), tid, start, finish, k, value)
    {
      if tid in pendingWriteSets && k in pendingWriteSets[tid] {
        NoteWrite(tid, k, pendingWriteSets[tid][k].(value := value));
        return S.W_LOCK_SUCCESS, Interval(MIN_TIMESTAMP, start, finish);
      }
      state, locked := manager.TryWriteLock(tid, k, start, finish, level);
      if state == S.W_LOCK_SUCCESS {
        NoteWrite(tid, k, S.PendingWrite(value, locked.start));
      }
    }

    method NoteWrite(tid: TransactionId, k: Key, p: S.PendingWrite)
      requires Valid()
      modifies this`pendingWriteSets
      ensures Valid() && View() == S.NoteWrite(old(View()), tid, k, p)
    {
      var mine := if tid in pendingWriteSets then pendingWriteSets[tid] else map[];
      pendingWriteSets := pendingWriteSets[tid := mine[k := p]];
    }

    /** Persists the recorded writes, in any order. */
    static method PersistWrites(manager: VersionManager, tid: TransactionId, ts: Instant, writes: map<Key, S.PendingWrite>)
      requires manager.Valid()
      modifies manager.Repr
      ensures manager.Valid() && fresh(manager.Repr - old(manager.Repr))
      ensures manager.View() == S.Written(old(manager.View()), writes, {}, tid, ts)
    {
      var todo := writes.Keys;
      ghost var was := manager.View();
      S.LoopsStart(was, writes, map[], tid, ts);
      while todo != {}
        invariant manager.Valid() && fresh(manager.Repr - old(manager.Repr)) && todo <= writes.Keys
        invariant manager.View() == S.Written(was, writes, todo, tid, ts)
        decreases |todo|
      {
        var k :| k in todo;
        var level: nat :| 1 <= level <= MAX_LEVEL;
        S.WrittenStep(was, writes, todo, tid, ts, k);
        manager.UpdateAndPersistVersion(tid, k, writes[k].value, writes[k].start, ts, level);
        todo := todo - {k};
      }
    }

    /** Ends the recorded read locks at the commit timestamp, in any order. */
    static method PersistReads(manager: VersionManager, tid: TransactionId, ts: Instant, readStarts: map<Key, Instant>)
      requires manager.Valid()
      modifies manager.Repr
      ensures manager.Valid() && fresh(manager.Repr - old(manager.Repr))
      ensures manager.View() == S.Settled(old(manager.View()), readStarts, {}, tid, ts)
    {
      var todo := readStarts.Keys;
      ghost var was := manager.View();
      S.LoopsStart(was, map[], readStarts, tid, ts);
      while todo != {}
        invariant manager.Valid() && fresh(manager.Repr - old(manager.Repr)) && todo <= readStarts.Keys
        invariant manager.View() == S.Settled(was, readStarts, todo, tid, ts)
        decreases |todo|
      {
        var k :| k in todo;
        S.SettledStep(was, readStarts, todo, tid, ts, k);
        manager.PersistReadLock(tid, k, readStarts[k], ts);
        todo := todo - {k};
      }
    }

    /** Removes the recorded locks, in any order. */
    static method RemoveLocks(manager: VersionManager, tid: TransactionId, starts: map<Key, Instant>)
      requires manager.Valid()
      modifies manager.Repr
      ensures manager.Valid() && fresh(manager.Repr - old(manager.Repr))
      ensures manager.View() == S.Removed(old(manager.View()), starts, {}, tid)
    {
      var todo := starts.Keys;
      ghost var was := manager.View();
      S.LoopsStart(was, map[], starts, tid, 1);
      while todo != {}
        invariant manager.Valid() && fresh(manager.Repr - old(manager.Repr)) && todo <= starts.Keys
        invariant manager.View() == S.Removed(was, starts, todo, tid)
        decreases |todo|
      {
        var k :| k in todo;
        S.RemovedStep(was, starts, todo, tid, k);
        manager.RemoveVersion(tid, k, starts[k]);
        todo := todo - {k};
      }
    }

    /** Takes the pending sets of a transaction out of the tables. */
    method Take(tid: TransactionId) returns (writes: map<Key, S.PendingWrite>, readStarts: map<Key, Instant>)
      requires Valid()
      modifies this
      ensures Valid()
      ensures writes == S.WriteSet(old(View()), tid) && readStarts == S.ReadSet(old(View()), tid)
      ensures View() == S.Forget(old(View()), tid, old(View()).entries)
    {
      writes := if tid in pendingWriteSets then pendingWriteSets[tid] else map[];
      readStarts := if tid in pendingReadSets then pendingReadSets[tid] else map[];
      pendingWriteSets := pendingWriteSets - {tid};
      pendingReadSets := pendingReadSets - {tid};
    }

    method HandleCommit(tid: TransactionId, ts: Instant)
      requires Valid()
      modifies this, manager.Repr
      ensures Valid() && fresh(manager.Repr - old(manager.Repr))
      ensures View() == S.HandleCommit(old(View()), tid, ts)
    {
      var writes, readStarts := Take(tid);
      PersistWrites(manager, tid, ts, writes);
      PersistReads(manager, tid, ts, readStarts);
    }

    method HandleAbort(tid: TransactionId)
      requires Valid()
      modifies this, manager.Repr
      ensures Valid() && fresh(manager.Repr - old(manager.Repr))
      ensures View() == S.HandleAbort(old(View()), tid)
    {
      var writes, readStarts := Take(tid);
      RemoveLocks(manager, tid, S.StartsOf(writes));
      RemoveLocks(manager, tid, readStarts);
    }

    method GarbageCollection(ts: Instant)
      requires Valid()
      modifies this, manager.Repr
      ensures Valid() && fresh(manager.Repr - old(manager.Repr))
      ensures View() == old(View()).(entries := S.Collected(old(View()).entries, {}, ts))
    {
      manager.GarbageCollection(ts);
    }
  }
}
