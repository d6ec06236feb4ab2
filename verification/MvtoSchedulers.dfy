/**
  The MVTO+ server (server/Scheduler.cpp): the table of version lists and the two tables of pending operations.
  Each handler computes what MvtoServer says about the whole server.
 */
module MvtoSchedulers {
  import opened Common
  import opened SortedMap
  import opened Links
  import opened MvtoTables
  import S = MvtoServer

  class Scheduler {
    const table: VersionTable
    var pendingWrite: map<TransactionId, set<Key>>
    var pendingRead: map<TransactionId, map<Key, Timestamp>>

    ghost predicate Valid()
      reads this, table, table.Repr
    {
      this !in table.Repr && table.Valid()
    }

    /** The server by value. */
    ghost function View(): S.Server
      requires Valid()
      reads this, table, table.Repr
    {
      S.Server(table.View(), pendingWrite, pendingRead)
    }

    constructor ()
      ensures Valid() && fresh(table.Repr) && View() == S.EMPTY_SERVER
    {
      table := new VersionTable();
      pendingWrite, pendingRead := map[], map[];
    }

    /**
      The retry loop of a read. `patience` is how many more passes the clock allows after the first. Each pass is one
      section, and other requests run in between: the last pass begins at the server `at`. Blocked is the timeout: a
      request gets it only when its last pass still finds the version pending.
     */
    method HandleReadRequest(tid: TransactionId, ts: Instant, k: Key, patience: nat)
      returns (reply: S.ReadReply, ghost at: S.Server, passes: nat)
      requires Valid()
      modifies this, table.Repr
      ensures Valid() && fresh(table.Repr - old(table.Repr))
      ensures (View(), reply) == S.Read(at, tid, ts, k)
      ensures 1 <= passes <= patience + 1 && (passes == 1 ==> at == old(View()))
      ensures reply == S.Blocked ==> passes == patience + 1
    {
      at, passes := View(), 1;
      reply := ReadOnce(tid, ts, k);
      while reply == S.Blocked && passes <= patience
        invariant Valid() && fresh(table.Repr - old(table.Repr)) && (View(), reply) == S.Read(at, tid, ts, k)
        invariant 1 <= passes <= patience + 1 && (passes == 1 ==> at == old(View()))
        decreases patience + 1 - passes
      {
        Yield();
        at, passes := View(), passes + 1;
        reply := ReadOnce(tid, ts, k);
      }
    }

    /** Other requests run: they may do anything that keeps the server valid. */
    method Yield()
      requires Valid()
      modifies this, table.Repr
      ensures Valid() && fresh(table.Repr - old(table.Repr))
    {
    }

    /** One pass of the retry loop. */
    method ReadOnce(tid: TransactionId, ts: Instant, k: Key) returns (reply: S.ReadReply)
      requires Valid()
      modifies this, table.Repr
      ensures Valid() && fresh(table.Repr - old(table.Repr))
      ensures (View(), reply) == S.Read(old(View()), tid, ts, k)
    {
      if k !in table.lists {
        return S.NoVersion;
      }
      var committed, version, value := table.MarkBelow(k, ts);
      if !committed {
        return S.Blocked;
      }
      NoteRead(tid, k, version);
      reply := S.ReadOk(version, value);
    }

    method NoteRead(tid: TransactionId, k: Key, version: Timestamp)
      requires Valid()
      modifies this`pendingRead
      ensures Valid() && View() == S.NoteRead(old(View()), tid, k, version)
    {
      var mine := if tid in pendingRead then pendingRead[tid] else map[];
      pendingRead := pendingRead[tid := mine[k := version]];
    }

    /** `garbage` is what a new list's sentinels happen to hold; the result is W_SUCCESS or W_FAIL_LATE. */
    method HandleWriteRequest(tid: TransactionId, ts: Instant, k: Key, value: Value, garbage: S.VersionState, level: nat)
      returns (success: bool)
      requires Valid() && 1 <= level <= MAX_LEVEL
      modifies this, table.Repr
      ensures Valid() && fresh(table.Repr - old(table.Repr))
      ensures success == S.WriteAllowed(old(View()), tid, ts, k)
      ensures View() == if success then S.Write(old(View()), tid, ts, k, value, garbage) else old(View())
    {
      if tid in pendingWrite && k in pendingWrite[tid] {
        if k in table.lists {
          table.AssignAtOrAbove(k, ts, S.SetValue(value));
        }
        return true;
      }
      if k in table.lists {
        var late := table.IsLate(k, ts);
        if late {
          return false;
        }
      }
      InsertVersion(k, ts, value, garbage, level);
      NoteWrite(tid, k);
      success := true;
    }

    method InsertVersion(k: Key, ts: Instant, value: Value, garbage: S.VersionState, level: nat)
      requires Valid() && 1 <= level <= MAX_LEVEL
      modifies table.Repr
      ensures Valid() && fresh(table.Repr - old(table.Repr))
      ensures var list := S.ListOr(old(View()).versions, k, garbage);
        View() == old(View()).(versions := old(View()).versions[k := S.InsertAbsent(list, ts, S.VersionEntry(value, S.PENDING, {}))])
    {
      ghost var was := table.View();
      if k !in table.lists {
        table.Make(k, garbage);
      }
      table.InsertPending(k, ts, value, level);
      ghost var list := S.ListOr(was, k, garbage);
      PutTwice(was, k, list, S.InsertAbsent(list, ts, S.VersionEntry(value, S.PENDING, {})));
    }

    method NoteWrite(tid: TransactionId, k: Key)
      requires Valid()
      modifies this`pendingWrite
      ensures Valid() && View() == S.NoteWrite(old(View()), tid, k)
    {
      var mine := if tid in pendingWrite then pendingWrite[tid] else {};
      pendingWrite := pendingWrite[tid := mine + {k}];
    }

    /** Takes the pending operations of a transaction out of the tables. */
    method Take(tid: TransactionId) returns (writes: set<Key>, readVersions: map<Key, Timestamp>)
      requires Valid()
      modifies this
      ensures Valid()
      ensures writes == S.Writes(old(View()), tid) && readVersions == S.ReadVersions(old(View()), tid)
      ensures View() == S.Forget(old(View()), tid, old(View()).versions)
    {
      ghost var versions := table.View();
      writes := if tid in pendingWrite then pendingWrite[tid] else {};
      readVersions := if tid in pendingRead then pendingRead[tid] else map[];
      pendingWrite := pendingWrite - {tid};
      pendingRead := pendingRead - {tid};
      assert table.View() == versions;
    }

    /** Makes a change at the recorded timestamp of each key, in any order. */
    static method ChangeAll(table: VersionTable, at: map<Key, Timestamp>, change: S.Change)
      requires table.Valid()
      modifies table.Repr
      ensures table.Valid() && fresh(table.Repr - old(table.Repr))
      ensures table.View() == S.Changed(old(table.View()), at, {}, change)
    {
      var todo := at.Keys;
      ghost var was := table.View();
      S.LoopsStart(was, at, {}, change, 1);
      while todo != {}
        invariant table.Valid() && fresh(table.Repr - old(table.Repr)) && todo <= at.Keys
        invariant table.View() == S.Changed(was, at, todo, change)
        decreases |todo|
      {
        var k :| k in todo;
        S.ChangedStep(was, at, todo, change, k);
        if k in table.lists {
          table.AssignAtOrAbove(k, at[k], change);
        }
        todo := todo - {k};
      }
    }

    /** Removes version ts of each written key, in any order. */
    static method RemoveAll(table: VersionTable, writes: set<Key>, ts: Instant)
      requires table.Valid()
      modifies table.Repr
      ensures table.Valid() && fresh(table.Repr - old(table.Repr))
      ensures table.View() == S.Removed(old(table.View()), writes, {}, ts)
    {
      var todo := writes;
      ghost var was := table.View();
      S.LoopsStart(was, map[], writes, S.SetCommitted, ts);
      while todo != {}
        invariant table.Valid() && fresh(table.Repr - old(table.Repr)) && todo <= writes
        invariant table.View() == S.Removed(was, writes, todo, ts)
        decreases |todo|
      {
        var k :| k in todo;
        S.RemovedStep(was, writes, todo, ts, k);
        if k in table.lists {
          table.RemoveVersion(k, ts);
        }
        todo := todo - {k};
      }
    }

    method HandleCommit(tid: TransactionId, ts: Instant)
      requires Valid()
      modifies this, table.Repr
      ensures Valid() && fresh(table.Repr - old(table.Repr))
      ensures View() == S.HandleCommit(old(View()), tid, ts)
    {
      var writes, readVersions := Take(tid);
      ChangeAll(table, S.AllAt(writes, ts), S.SetCommitted);
    }

    method HandleAbort(tid: TransactionId, ts: Instant)
      requires Valid()
      modifies this, table.Repr
      ensures Valid() && fresh(table.Repr - old(table.Repr))
      ensures View() == S.HandleAbort(old(View()), tid, ts)
    {
      var writes, readVersions := Take(tid);
      RemoveAll(table, writes, ts);
      ChangeAll(table, readVersions, S.DropMark(ts));
    }
  }
}
