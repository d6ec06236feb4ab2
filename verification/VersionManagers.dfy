/**
  Versions and locks of the keys of one MVTIL server (server/VersionManager.cpp): each key has an entry with a
  version list and a lock manager of its own. Each method computes what MvtilServer says about the entry.
 */
module VersionManagers {
  import opened Common
  import opened SortedMap
  import opened Links
  import opened SkipLists
  import opened LockList
  import opened LockManagers
  import S = MvtilServer

  class VersionEntry {
    const versions: SkipList<Value>
    const manager: LockManager
    /** The entry by value. */
    ghost var view: S.Entry
    ghost var Repr: set<object>

    ghost predicate Valid()
      reads this, Repr
    {
      && this in Repr && versions in Repr && manager in Repr
      && versions.Repr <= Repr && manager.Repr <= Repr
      && versions.Repr !! manager.Repr && this !in versions.Repr && this !in manager.Repr
      && versions.Valid() && manager.Valid()
      && view.versions == versions.view && view.locks == manager.locks
    }

    constructor ()
      ensures Valid() && fresh(Repr) && view == S.FRESH_ENTRY
    {
      versions := new SkipList<Value>("");
      manager := new LockManager();
      new;
      view := S.FRESH_ENTRY;
      Repr := {this} + versions.Repr + manager.Repr;
    }

    /** The version that answers a read, and the interval to lock behind it. */
    method Request(start: Instant, finish: Instant, policy: S.Policy)
      returns (candidate: Interval, version: Timestamp, value: Value)
      requires Valid()
      ensures candidate == S.ReadRequest(view.versions, start, finish, policy)
      ensures version == S.Candidate(view.versions, start, finish, policy) && value == view.versions[version]
    {
      var prev, curr;
      if policy == S.LOCK_FIRST_INTERVAL {
        prev, curr := versions.FindAtOrBelow(start);
      } else {
        prev, curr := versions.FindAtOrBelow(finish);
      }
      version, value := prev.item.key, prev.item.value;
      candidate := Interval(version + 1, start, Min(finish, curr.item.key - 1));
    }

    /** LockReadInterval of the entry's lock manager. */
    method LockRequest(tid: TransactionId, c: Interval, level: nat) returns (ok: bool, locked: Interval)
      requires Valid() && 1 <= level <= MAX_LEVEL && MIN_TIMESTAMP < c.lockStart && c.finish < MAX_TIMESTAMP
      modifies Repr
      ensures Valid() && fresh(Repr - old(Repr)) && view.versions == old(view).versions
      ensures Granted(ok, locked, view.locks) == LockRead(old(view).locks, tid, c)
    {
      ok, locked := manager.LockReadInterval(tid, c, level);
      view := view.(locks := manager.locks);
      Repr := Repr + manager.Repr;
    }

    /** TryReadLock on the entry. */
    method ReadLock(tid: TransactionId, start: Instant, finish: Instant, policy: S.Policy, level: nat)
      returns (ok: bool, locked: Interval, version: Timestamp, value: Value)
      requires Valid() && 1 <= level <= MAX_LEVEL
      modifies Repr
      ensures Valid() && fresh(Repr - old(Repr))
      ensures var g := S.TryReadLock(old(view), tid, start, finish, policy);
        ok == g.ok && locked == g.interval && view == old(view).(locks := g.locks)
      ensures version == S.Candidate(old(view).versions, start, finish, policy) && value == old(view).versions[version]
    {
      var candidate;
      candidate, version, value := Request(start, finish, policy);
      ok, locked := LockRequest(tid, candidate, level);
    }

    /** TryReadLock on the entry it has just made for an absent key. */
    method ReadLockFresh(tid: TransactionId, start: Instant, finish: Instant, level: nat) returns (locked: Interval)
      requires Valid() && view == S.FRESH_ENTRY && 1 <= level <= MAX_LEVEL
      modifies Repr
      ensures Valid() && fresh(Repr - old(Repr))
      ensures var g := S.LockAbsentKey(tid, start, finish);
        locked == g.interval && view == S.FRESH_ENTRY.(locks := g.locks)
    {
      var ignored;
      ignored, locked := LockRequest(tid, Interval(1, start, finish), level);
    }

    method WriteLock(tid: TransactionId, start: Instant, finish: Instant, level: nat)
      returns (ok: bool, locked: Interval)
      requires Valid() && 1 <= level <= MAX_LEVEL
      modifies Repr
      ensures Valid() && fresh(Repr - old(Repr))
      ensures var g := S.TryWriteLock(old(view).locks, tid, start, finish);
        ok == g.ok && locked == g.interval && view == old(view).(locks := g.locks)
    {
      ok, locked := manager.LockWriteInterval(tid, Interval(MIN_TIMESTAMP, start, finish), level);
      view := view.(locks := manager.locks);
      Repr := Repr + manager.Repr;
    }

    /** The list adds only an absent version. */
    method StoreVersion(value: Value, ts: Instant, level: nat)
      requires Valid() && 1 <= level <= MAX_LEVEL
      modifies Repr
      ensures Valid() && fresh(Repr - old(Repr))
      ensures view == old(view).(versions := if ts in old(view).versions then old(view).versions else old(view).versions[ts := value])
    {
      var _ := versions.Insert(ts, value, level);
      view := view.(versions := versions.view);
      Repr := Repr + versions.Repr;
    }

    method Persist(tid: TransactionId, value: Value, oldTs: Instant, ts: Instant, level: nat)
      requires Valid() && 1 <= level <= MAX_LEVEL
      modifies Repr
      ensures Valid() && fresh(Repr - old(Repr))
      ensures view == S.PersistVersion(old(view), tid, value, oldTs, ts)
    {
      StoreVersion(value, ts, level);
      PersistRead(tid, oldTs, ts);
    }

    method PersistRead(tid: TransactionId, oldTs: Instant, ts: Instant)
      requires Valid()
      modifies Repr
      ensures Valid() && Repr == old(Repr)
      ensures view == S.PersistReadLock(old(view), tid, oldTs, ts)
    {
      manager.CommitInterval(tid, oldTs, ts);
      view := view.(locks := manager.locks);
    }

    method Remove(tid: TransactionId, oldTs: Instant)
      requires Valid()
      modifies Repr
      ensures Valid() && Repr == old(Repr)
      ensures view == S.RemoveVersion(old(view), tid, oldTs)
    {
      manager.RemoveLock(tid, oldTs);
      view := view.(locks := manager.locks);
    }

    method Collect(ts: Instant)
      requires Valid()
      modifies Repr
      ensures Valid() && Repr == old(Repr)
      ensures view == S.CollectEntry(old(view), ts)
    {
      versions.Erase(ts);
      manager.GarbageCollection(ts);
      view := S.Entry(versions.view, manager.locks);
    }
  }

  class VersionManager {
    const policy: S.Policy
    var entries: map<Key, VersionEntry>
    ghost var Repr: set<object>

    ghost predicate Valid()
      reads this, Repr
    {
      && this in Repr
      && (forall k :: k in entries ==> entries[k] in Repr && entries[k].Repr <= Repr && this !in entries[k].Repr)
      && (forall k :: k in entries ==> entries[k].Valid())
      && forall j, k :: j in entries && k in entries && j != k ==> entries[j].Repr !! entries[k].Repr
    }

    /** The entries by value. */
    ghost function View(): map<Key, S.Entry>
      reads this, set k | k in entries :: entries[k]
    {
      map k | k in entries :: entries[k].view
    }

    constructor (policy: S.Policy)
      ensures Valid() && fresh(Repr) && View() == map[] && this.policy == policy
    {
      this.policy := policy;
      entries := map[];
      Repr := {this};
    }

    // ----- a change of one entry leaves the others alone

    /** The heap has changed only inside the footprint of k's entry, which may have grown by new objects. */
    twostate predicate OnlyEntryChanged(k: Key)
      requires k in entries && k in old(entries)
      reads this, Repr, entries[k]
    {
      && entries == old(entries) && Repr == old(Repr) + entries[k].Repr
      && fresh(entries[k].Repr - old(entries[k].Repr))
      && unchanged(old(Repr) - {this} - old(entries[k].Repr))
    }

    /** The other entries are as they were, and still apart from k's. */
    twostate predicate OthersStay(k: Key)
      requires old(Valid()) && k in entries && k in old(entries) && OnlyEntryChanged(k)
      reads this, Repr, set j, o | j in entries && o in entries[j].Repr :: o, set j | j in entries :: entries[j]
    {
      forall j :: j in entries && j != k ==>
        && entries[j].Valid() && entries[j].Repr == old(entries[j].Repr) && entries[j].view == old(entries[j].view)
        && entries[j].Repr !! entries[k].Repr
    }

    twostate lemma OtherEntriesStay(k: Key)
      requires old(Valid()) && k in entries && k in old(entries) && OnlyEntryChanged(k)
      ensures OthersStay(k)
    {
      forall j | j in entries && j != k
        ensures entries[j].Valid() && entries[j].Repr == old(entries[j].Repr) && entries[j].view == old(entries[j].view)
        ensures entries[j].Repr !! entries[k].Repr
      {
        assert old(entries[j].Repr) !! old(entries[k].Repr);
        assert entries[j] in old(entries[j].Repr) && this !in old(entries[j].Repr);
        forall o | o in old(entries[j].Repr) ensures unchanged(o) {
          assert o in old(Repr);
        }
      }
    }

    twostate lemma StillValid(k: Key)
      requires old(Valid()) && k in entries && k in old(entries) && OnlyEntryChanged(k) && entries[k].Valid() && OthersStay(k)
      ensures Valid()
    {
      forall j | j in entries && j != k
        ensures entries[j] in Repr && entries[j].Repr <= Repr && this !in entries[j].Repr
      {
        assert old(entries[j].Repr) <= old(Repr) && this !in old(entries[j].Repr);
      }
      forall i, j | i in entries && j in entries && i != k && j != k && i != j ensures entries[i].Repr !! entries[j].Repr {
        assert old(entries[i].Repr) !! old(entries[j].Repr);
      }
    }

    twostate lemma ViewChanged(k: Key)
      requires old(Valid()) && k in entries && k in old(entries) && OnlyEntryChanged(k) && OthersStay(k)
      ensures View() == old(View())[k := entries[k].view]
    {
    }

    /** A new entry has been added, and nothing that existed was touched. */
    twostate lemma AddedStillValid(k: Key)
      requires old(Valid()) && k !in old(entries) && k in entries && entries == old(entries)[k := entries[k]]
      requires Repr == old(Repr) + entries[k].Repr && entries[k].Repr !! old(Repr) && unchanged(old(Repr) - {this})
      requires entries[k].Valid()
      ensures Valid()
    {
      forall j | j in entries && j != k
        ensures entries[j] in Repr && entries[j].Repr <= Repr && this !in entries[j].Repr
        ensures entries[j].Valid() && entries[j].Repr !! entries[k].Repr
      {
        assert old(entries[j].Repr) <= old(Repr) && this !in old(entries[j].Repr) && old(entries[j].Valid());
      }
      forall i, j | i in entries && j in entries && i != j ensures entries[i].Repr !! entries[j].Repr {
        if i != k && j != k {
          assert old(entries[i].Repr) !! old(entries[j].Repr);
        }
      }
    }

    twostate lemma AddedToView(k: Key)
      requires k !in old(entries) && k in entries && entries == old(entries)[k := entries[k]]
      requires forall j :: j in old(entries) ==> entries[j].view == old(entries[j].view)
      ensures View() == old(View())[k := entries[k].view]
    {
    }

    // ----- the operations

    /** Makes the entry of a key that has none. */
    method Make(k: Key)
      requires Valid() && k !in entries
      modifies this
      ensures Valid() && fresh(Repr - old(Repr)) && k in entries && fresh(entries[k].Repr)
      ensures View() == old(View())[k := S.FRESH_ENTRY]
    {
      var e := new VersionEntry();
      Adopt(k, e);
    }

    method Adopt(k: Key, e: VersionEntry)
      requires Valid() && k !in entries && e.Valid() && e.Repr !! Repr
      modifies this
      ensures Valid() && entries == old(entries)[k := e] && Repr == old(Repr) + e.Repr
      ensures e.Repr == old(e.Repr) && View() == old(View())[k := e.view] && e.view == old(e.view)
    {
      entries := entries[k := e];
      Repr := Repr + e.Repr;
      AddedStillValid(k);
      AddedToView(k);
    }

    method ReadEntry(tid: TransactionId, k: Key, start: Instant, finish: Instant, level: nat)
      returns (ok: bool, locked: Interval, version: Timestamp, value: Value)
      requires Valid() && k in entries && 1 <= level <= MAX_LEVEL
      modifies Repr
      ensures Valid() && fresh(Repr - old(Repr)) && k in old(View())
      ensures var e := old(View())[k];
        var g := S.TryReadLock(e, tid, start, finish, policy);
        && ok == g.ok && locked == g.interval && View() == old(View())[k := e.(locks := g.locks)]
        && version == S.Candidate(e.versions, start, finish, policy) && value == e.versions[version]
    {
      ok, locked, version, value := entries[k].ReadLock(tid, start, finish, policy, level);
      Repr := Repr + entries[k].Repr;
      OtherEntriesStay(k);
      StillValid(k);
      ViewChanged(k);
    }

    method ReadFreshEntry(tid: TransactionId, k: Key, start: Instant, finish: Instant, level: nat)
      returns (locked: Interval)
      requires Valid() && k in entries && View()[k] == S.FRESH_ENTRY && 1 <= level <= MAX_LEVEL
      modifies Repr
      ensures Valid() && fresh(Repr - old(Repr))
      ensures var g := S.LockAbsentKey(tid, start, finish);
        locked == g.interval && View() == old(View())[k := S.FRESH_ENTRY.(locks := g.locks)]
    {
      locked := entries[k].ReadLockFresh(tid, start, finish, level);
      Repr := Repr + entries[k].Repr;
      OtherEntriesStay(k);
      StillValid(k);
      ViewChanged(k);
    }

    method TryReadLock(tid: TransactionId, k: Key, start: Instant, finish: Instant, level: nat)
      returns (state: S.LockState, locked: Interval, value: Value)
      requires Valid() && 1 <= level <= MAX_LEVEL
      modifies Repr
      ensures Valid() && fresh(Repr - old(Repr))
      ensures (View(), state, locked) == S.TryRead(old(View()), tid, start, finish, k, policy)
      ensures value == S.ReadValue(old(View()), start, finish, k, policy)
    {
      if k in entries {
        var ok, version;
        ok, locked, version, value := ReadEntry(tid, k, start, finish, level);
        state := if ok then S.R_LOCK_SUCCESS else S.FAIL_PENDING_VERSION;
      } else {
        ghost var was := View();
        Make(k);
        locked := ReadFreshEntry(tid, k, start, finish, level);
        state, value := S.FAIL_NO_VERSION, "";
        ghost var g := S.LockAbsentKey(tid, start, finish);
        PutTwice(was, k, S.FRESH_ENTRY, S.FRESH_ENTRY.(locks := g.locks));
      }
    }

    method WriteEntry(tid: TransactionId, k: Key, start: Instant, finish: Instant, level: nat)
      returns (ok: bool, locked: Interval)
      requires Valid() && k in entries && 1 <= level <= MAX_LEVEL
      modifies Repr
      ensures Valid() && fresh(Repr - old(Repr)) && k in old(View())
      ensures var e := old(View())[k];
        var g := S.TryWriteLock(e.locks, tid, start, finish);
        ok == g.ok && locked == g.interval && View() == old(View())[k := e.(locks := g.locks)]
    {
      ok, locked := entries[k].WriteLock(tid, start, finish, level);
      Repr := Repr + entries[k].Repr;
      OtherEntriesStay(k);
      StillValid(k);
      ViewChanged(k);
    }

    method Ensure(k: Key)
      requires Valid()
      modifies this
      ensures Valid() && fresh(Repr - old(Repr)) && k in entries
      ensures k in View() && View()[k] == S.EntryOr(old(View()), k) && View() == old(View())[k := S.EntryOr(old(View()), k)]
    {
      if k !in entries {
        Make(k);
      }
    }

    method TryWriteLock(tid: TransactionId, k: Key, start: Instant, finish: Instant, level: nat)
      returns (state: S.LockState, locked: Interval)
      requires Valid() && 1 <= level <= MAX_LEVEL
      modifies Repr
      ensures Valid() && fresh(Repr - old(Repr))
      ensures (View(), state, locked) == S.TryWrite(old(View()), tid, start, finish, k)
    {
      ghost var was := View();
      ghost var e := S.EntryOr(was, k);
      Ensure(k);
      var ok;
      ok, locked := WriteEntry(tid, k, start, finish, level);
      state := if ok then S.W_LOCK_SUCCESS else S.FAIL_PENDING_VERSION;
      ghost var g := S.TryWriteLock(e.locks, tid, start, finish);
      PutTwice(was, k, e, e.(locks := g.locks));
    }

    method UpdateAndPersistVersion(tid: TransactionId, k: Key, value: Value, oldTs: Instant, ts: Instant, level: nat)
      requires Valid() && 1 <= level <= MAX_LEVEL
      modifies Repr
      ensures Valid() && fresh(Repr - old(Repr))
      ensures View() == if k in old(View())
                        then old(View())[k := S.PersistVersion(old(View())[k], tid, value, oldTs, ts)] else old(View())
    {
      if k in entries {
        entries[k].Persist(tid, value, oldTs, ts, level);
        Repr := Repr + entries[k].Repr;
        OtherEntriesStay(k);
        StillValid(k);
        ViewChanged(k);
      }
    }

    method PersistReadLock(tid: TransactionId, k: Key, oldTs: Instant, ts: Instant)
      requires Valid()
      modifies Repr
      ensures Valid() && fresh(Repr - old(Repr))
      ensures View() == if k in old(View())
                        then old(View())[k := S.PersistReadLock(old(View())[k], tid, oldTs, ts)] else old(View())
    {
      if k in entries {
        entries[k].PersistRead(tid, oldTs, ts);
        Repr := Repr + entries[k].Repr;
        OtherEntriesStay(k);
        StillValid(k);
        ViewChanged(k);
      }
    }

    method RemoveVersion(tid: TransactionId, k: Key, oldTs: Instant)
      requires Valid()
      modifies Repr
      ensures Valid() && fresh(Repr - old(Repr))
      ensures View() == if k in old(View())
                        then old(View())[k := S.RemoveVersion(old(View())[k], tid, oldTs)] else old(View())
    {
      if k in entries {
        entries[k].Remove(tid, oldTs);
        Repr := Repr + entries[k].Repr;
        OtherEntriesStay(k);
        StillValid(k);
        ViewChanged(k);
      }
    }

    method CollectKey(k: Key, ts: Instant)
      requires Valid() && k in entries
      modifies Repr
      ensures Valid() && fresh(Repr - old(Repr)) && k in old(View())
      ensures entries == old(entries)
      ensures View() == old(View())[k := S.CollectEntry(old(View())[k], ts)]
    {
      entries[k].Collect(ts);
      Repr := Repr + entries[k].Repr;
      OtherEntriesStay(k);
      StillValid(k);
      ViewChanged(k);
    }

    /** GarbageCollection visits the entries in any order. */
    method GarbageCollection(ts: Instant)
      requires Valid()
      modifies Repr
      ensures Valid() && fresh(Repr - old(Repr))
      ensures View() == S.Collected(old(View()), {}, ts)
    {
      var todo := entries.Keys;
      ghost var was := View();
      S.CollectedNothing(was, ts);
      while todo != {}
        invariant Valid() && fresh(Repr - old(Repr)) && todo <= entries.Keys
        invariant View() == S.Collected(was, todo, ts)
        decreases |todo|
      {
        var k :| k in todo;
        S.CollectedStep(was, todo, k, ts);
        CollectKey(k, ts);
        todo := todo - {k};
      }
    }
  }
}
