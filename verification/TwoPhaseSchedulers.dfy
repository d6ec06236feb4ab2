/**
  The two-phase-locking server (server/Scheduler.cpp). Each handler computes what TwoPhaseServer says about the whole server.
 */
module TwoPhaseSchedulers {
  import opened Common
  import S = TwoPhaseServer

  class Scheduler {
    var locks: map<Key, S.LockEntry>
    var pending: map<TransactionId, map<Key, S.Pending>>
    var store: map<Key, Value>

    /** The server by value. */
    function View(): S.Server
      reads this
    {
      S.Server(locks, pending, store)
    }

    constructor ()
      ensures View() == S.EMPTY_SERVER
    {
      locks, pending, store := map[], map[], map[];
    }

    /**
      The retry loop of a read. `patience` is how many more passes the clock allows after the first. Each pass is one
      section, and requests of other transactions run in between: the last pass begins at the server `at`. The request
      times out only when its last pass is still refused.
     */
    method HandleReadRequest(tid: TransactionId, k: Key, patience: nat)
      returns (granted: bool, value: Option<Value>, ghost at: S.Server, passes: nat)
      modifies this
      ensures granted == S.ReadGranted(at, k)
      ensures if granted then View() == S.LockRead(at, tid, k) && value == S.Fetch(at, k) else View() == at && value == None
      ensures S.Operations(at, tid) == S.Operations(old(View()), tid)
      ensures 1 <= passes <= patience + 1 && (passes == 1 ==> at == old(View())) && (!granted ==> passes == patience + 1)
    {
      at, passes := View(), 1;
      granted, value := ReadOnce(tid, k);
      while !granted && passes <= patience
        invariant granted == S.ReadGranted(at, k)
        invariant if granted then View() == S.LockRead(at, tid, k) && value == S.Fetch(at, k) else View() == at && value == None
        invariant S.Operations(at, tid) == S.Operations(old(View()), tid)
        invariant 1 <= passes <= patience + 1 && (passes == 1 ==> at == old(View()))
        decreases patience + 1 - passes
      {
        Yield(tid);
        at, passes := View(), passes + 1;
        granted, value := ReadOnce(tid, k);
      }
    }

    /** Requests of other transactions run: they may do anything to the locks and the store, but record nothing for tid. */
    method Yield(tid: TransactionId)
      modifies this
      ensures S.Operations(View(), tid) == S.Operations(old(View()), tid)
    {
    }

    /** One pass of the retry loop of a read. */
    method ReadOnce(tid: TransactionId, k: Key) returns (granted: bool, value: Option<Value>)
      modifies this
      ensures granted == S.ReadGranted(old(View()), k)
      ensures granted ==> View() == S.LockRead(old(View()), tid, k) && value == S.Fetch(old(View()), k)
      ensures !granted ==> View() == old(View()) && value == None
    {
      granted, value := false, None;
      assert {} + {tid} == {tid};
      if k in locks {
        if locks[k].mode == S.READ {
          locks := locks[k := locks[k].(holders := locks[k].holders + {tid})];
          granted := true;
        }
      } else {
        locks := locks[k := S.LockEntry(S.READ, {tid})];
        granted := true;
      }
      if granted {
        value := if k in store then Some(store[k]) else None;
        Note(tid, k, S.Pending(S.READ, ""));
      }
    }

    /** The retry loop of a write, as for a read; a second write of a key only replaces the recorded value. */
    method HandleWriteRequest(tid: TransactionId, k: Key, value: Value, patience: nat)
      returns (granted: bool, ghost at: S.Server, passes: nat)
      modifies this
      ensures granted == S.WriteGranted(at, tid, k)
      ensures View() == if granted then S.Write(at, tid, k, value) else at
      ensures S.Operations(at, tid) == S.Operations(old(View()), tid)
      ensures 1 <= passes <= patience + 1 && (passes == 1 ==> at == old(View())) && (!granted ==> passes == patience + 1)
    {
      at, passes := View(), 1;
      if tid in pending && k in pending[tid] && pending[tid][k].mode == S.WRITE {
        Note(tid, k, S.Pending(S.WRITE, value));
        return true, at, passes;
      }
      granted := WriteOnce(tid, k, value);
      while !granted && passes <= patience
        invariant granted == S.WriteGranted(at, tid, k) && !S.Rewrites(at, tid, k)
        invariant View() == if granted then S.Write(at, tid, k, value) else at
        invariant S.Operations(at, tid) == S.Operations(old(View()), tid)
        invariant 1 <= passes <= patience + 1 && (passes == 1 ==> at == old(View()))
        decreases patience + 1 - passes
      {
        Yield(tid);
        at, passes := View(), passes + 1;
        granted := WriteOnce(tid, k, value);
      }
    }

    /** One pass of the retry loop of a first write. */
    method WriteOnce(tid: TransactionId, k: Key, value: Value) returns (granted: bool)
      requires !S.Rewrites(View(), tid, k)
      modifies this
      ensures granted == S.WriteGranted(old(View()), tid, k)
      ensures View() == if granted then S.Write(old(View()), tid, k, value) else old(View())
    {
      granted := false;
      assert {} + {tid} == {tid} && {tid} + {tid} == {tid};
      if k !in locks {
        locks := locks[k := S.LockEntry(S.WRITE, {tid})];
        granted := true;
      } else if |locks[k].holders| == 0 {
        locks := locks[k := S.LockEntry(S.WRITE, {tid})];
        granted := true;
      } else if locks[k].holders == {tid} {
        locks := locks[k := locks[k].(mode := S.WRITE)];
        granted := true;
      }
      if granted {
        Note(tid, k, S.Pending(S.WRITE, value));
      }
    }

    method Note(tid: TransactionId, k: Key, p: S.Pending)
      modifies this`pending
      ensures pending == old(pending)[tid := S.Operations(old(View()), tid)[k := p]]
    {
      var mine := if tid in pending then pending[tid] else map[];
      pending := pending[tid := mine[k := p]];
    }

    method HandleCommit(tid: TransactionId)
      modifies this
      ensures View() == S.HandleCommit(old(View()), tid)
    {
      ghost var was := View();
      var ops := if tid in pending then pending[tid] else map[];
      var todo := ops.Keys;
      S.LoopsStart(was, tid);
      while todo != {}
        invariant todo <= ops.Keys && View() == S.PartlyCommitted(was, tid, todo)
        decreases |todo|
      {
        var k :| k in todo;
        S.CommitStep(was, tid, todo, k);
        CommitKey(tid, k, ops[k]);
        todo := todo - {k};
      }
      pending := pending - {tid};
    }

    /** One round of the loop of HandleCommit. */
    method CommitKey(tid: TransactionId, k: Key, op: S.Pending)
      requires k in S.Operations(View(), tid) && S.Operations(View(), tid)[k] == op
      modifies `locks, `store
      ensures View() == S.CommitKey(old(View()), tid, k)
    {
      if op.mode == S.WRITE {
        store := store[k := op.value];
        locks := locks - {k};
      } else if k in locks {
        locks := locks[k := locks[k].(holders := locks[k].holders - {tid})];
      }
    }

    method HandleAbort(tid: TransactionId)
      modifies this
      ensures View() == S.HandleAbort(old(View()), tid)
    {
      ghost var was := View();
      var ops := if tid in pending then pending[tid] else map[];
      var todo := ops.Keys;
      S.LoopsStart(was, tid);
      while todo != {}
        invariant todo <= ops.Keys && View() == S.PartlyAborted(was, tid, todo)
        decreases |todo|
      {
        var k :| k in todo;
        S.AbortStep(was, tid, todo, k);
        if ops[k].mode == S.WRITE {
          locks := locks - {k};
        } else if k in locks {
          locks := locks[k := locks[k].(holders := locks[k].holders - {tid})];
        }
        todo := todo - {k};
      }
      pending := pending - {tid};
    }

    method GetSize() returns (lockLen: int)
      ensures lockLen == |View().locks|
    {
      lockLen := |locks|;
    }
  }
}
