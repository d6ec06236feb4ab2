/**
  The two-phase-locking client (client/TransactionManager.cpp): which requests a transaction sends to which
  server, and the loops by which a commit or an abort reaches the servers one after the other.
 */
module TwoPhaseClients {
  import opened Common
  import opened TwoPhaseSchedulers
  import S = TwoPhaseServer

  class Transaction {
    const tid: TransactionId
    var readSet: map<Key, Option<Value>>
    var writeSet: map<Key, Value>
    /** lockSetServers: the servers that hold locks of the transaction. */
    var servers: set<Scheduler>
    var pendingOperations: seq<Operation>
    var isAbort: bool

    constructor (tid: TransactionId)
      ensures this.tid == tid && readSet == map[] && writeSet == map[] && servers == {} && pendingOperations == [] && !isAbort
    {
      this.tid := tid;
      readSet, writeSet, servers, pendingOperations, isAbort := map[], map[], {}, [], false;
    }
  }

  class TransactionManager {
    const cluster: seq<Scheduler>
    const place: Key -> nat

    /** Every key has a server. */
    ghost predicate Valid() {
      forall k :: place(k) < |cluster|
    }

    constructor (cluster: seq<Scheduler>, place: Key -> nat)
      requires forall k :: place(k) < |cluster|
      ensures Valid() && this.cluster == cluster && this.place == place
    {
      this.cluster, this.place := cluster, place;
    }

    function ServerOf(key: Key): Scheduler
      requires Valid()
    {
      cluster[place(key)]
    }

    /** What the transaction has written is what its servers have recorded for it. */
    ghost predicate Agrees(tx: Transaction)
      requires Valid()
      reads tx, cluster
    {
      forall k :: k in tx.writeSet ==>
        var ops := S.Operations(ServerOf(k).View(), tx.tid);
        k in ops && ops[k] == S.Pending(S.WRITE, tx.writeSet[k])
    }

    /**
      None stands for FAIL_NO_VERSION; a key that was written or read before is answered without a message. `at` is
      the key's server when it answers.
     */
    method ReadData(tx: Transaction, key: Key, patience: nat) returns (ok: bool, value: Option<Value>, ghost at: S.Server)
      requires Valid()
      modifies tx, tx.servers, ServerOf(key)
      ensures old(tx.isAbort) ==> !ok && unchanged(tx) && unchanged(old(tx.servers)) && unchanged(ServerOf(key))
      ensures !old(tx.isAbort) && key in old(tx.writeSet) ==>
        ok && value == Some(old(tx.writeSet)[key]) && unchanged(tx) && unchanged(ServerOf(key))
      ensures !old(tx.isAbort) && key !in old(tx.writeSet) && key in old(tx.readSet) ==>
        ok && value == old(tx.readSet)[key] && unchanged(tx) && unchanged(ServerOf(key))
      ensures !old(tx.isAbort) && key !in old(tx.writeSet) && key !in old(tx.readSet) && ok ==>
        && S.ReadGranted(at, key) && value == S.Fetch(at, key)
        && ServerOf(key).View() == S.LockRead(at, tx.tid, key)
        && tx.readSet == old(tx.readSet)[key := value] && tx.servers == old(tx.servers) + {ServerOf(key)}
        && tx.writeSet == old(tx.writeSet)
        && tx.pendingOperations
           == old(tx.pendingOperations) + [Operation(key, if value.Some? then value.value else NULL_VALUE, ReadOperation)]
      ensures !ok ==> tx.pendingOperations == old(tx.pendingOperations)
      ensures !old(tx.isAbort) && !ok ==>
        && !S.ReadGranted(at, key)
        && forall s :: s in old(tx.servers) ==>
             s.View() == S.HandleAbort(if s == ServerOf(key) then at else old(s.View()), tx.tid)
    {
      at := ServerOf(key).View();
      if tx.isAbort {
        return false, None, at;
      }
      if key in tx.writeSet {
        return true, Some(tx.writeSet[key]), at;
      }
      if key in tx.readSet {
        return true, tx.readSet[key], at;
      }
      var server := ServerOf(key);
      var passes;
      ok, value, at, passes := server.HandleReadRequest(tx.tid, key, patience);
      if ok {
        tx.readSet := tx.readSet[key := value];
        tx.pendingOperations := tx.pendingOperations
          + [Operation(key, if value.Some? then value.value else NULL_VALUE, ReadOperation)];
        tx.servers := tx.servers + {server};
      } else {
        var _ := AbortTransaction(tx);
      }
    }

    /**
      A write of a key that was written before is not sent to the server. So the client's write set still agrees
      with what the servers have recorded, and will commit, exactly when such a write repeats the earlier value. Nor
      is it recorded for a replay.
     */
    method WriteData(tx: Transaction, key: Key, value: Value, patience: nat) returns (ok: bool, ghost at: S.Server)
      requires Valid()
      modifies tx, tx.servers, ServerOf(key)
      ensures old(tx.isAbort) ==> !ok && unchanged(tx) && unchanged(old(tx.servers)) && unchanged(ServerOf(key))
      ensures !old(tx.isAbort) && key in old(tx.writeSet) ==>
        && ok && unchanged(old(tx.servers)) && unchanged(ServerOf(key))
        && tx.writeSet == old(tx.writeSet)[key := value] && tx.servers == old(tx.servers)
        && tx.pendingOperations == old(tx.pendingOperations)
      ensures !old(tx.isAbort) && key !in old(tx.writeSet) && ok ==>
        && S.WriteGranted(at, tx.tid, key)
        && ServerOf(key).View() == S.Write(at, tx.tid, key, value)
        && tx.writeSet == old(tx.writeSet)[key := value] && tx.servers == old(tx.servers) + {ServerOf(key)}
        && tx.pendingOperations == old(tx.pendingOperations) + [Operation(key, value, WriteOperation)]
        && forall s :: s in old(tx.servers) && s != ServerOf(key) ==> unchanged(s)
      ensures !ok ==> tx.pendingOperations == old(tx.pendingOperations)
      ensures ok && old(Agrees(tx)) ==>
        (Agrees(tx) <==> (key in old(tx.writeSet) ==> value == old(tx.writeSet)[key]))
      ensures !old(tx.isAbort) && !ok ==>
        && !S.WriteGranted(at, tx.tid, key)
        && forall s :: s in old(tx.servers) ==>
             s.View() == S.HandleAbort(if s == ServerOf(key) then at else old(s.View()), tx.tid)
    {
      at := ServerOf(key).View();
      if tx.isAbort {
        return false, at;
      }
      if key in tx.writeSet {
        tx.writeSet := tx.writeSet[key := value];
        return true, at;
      }
      var server := ServerOf(key);
      var passes;
      ok, at, passes := server.HandleWriteRequest(tx.tid, key, value, patience);
      if ok {
        tx.writeSet := tx.writeSet[key := value];
        tx.servers := tx.servers + {server};
        tx.pendingOperations := tx.pendingOperations + [Operation(key, value, WriteOperation)];
      } else {
        var _ := AbortTransaction(tx);
      }
    }

    method CommitTransaction(tx: Transaction) returns (ok: bool)
      modifies tx, tx.servers
      ensures ok == !old(tx.isAbort)
      ensures !ok ==> unchanged(tx) && unchanged(old(tx.servers))
      ensures ok ==>
        && (forall s :: s in old(tx.servers) ==> s.View() == S.HandleCommit(old(s.View()), tx.tid))
        && tx.readSet == map[] && tx.writeSet == map[] && tx.servers == {} && !tx.isAbort
        && tx.pendingOperations == old(tx.pendingOperations)
    {
      if tx.isAbort {
        return false;
      }
      var servers := tx.servers;
      var todo := servers;
      while todo != {}
        invariant todo <= servers && unchanged(tx)
        invariant forall s :: s in servers ==>
                    s.View() == if s in todo then old(s.View()) else S.HandleCommit(old(s.View()), tx.tid)
        decreases |todo|
      {
        var server :| server in todo;
        server.HandleCommit(tx.tid);
        todo := todo - {server};
      }
      tx.readSet, tx.writeSet, tx.servers := map[], map[], {};
      ok := true;
    }

    method AbortTransaction(tx: Transaction) returns (ok: bool)
      modifies tx, tx.servers
      ensures ok == !old(tx.isAbort)
      ensures !ok ==> unchanged(tx) && unchanged(old(tx.servers))
      ensures ok ==>
        && (forall s :: s in old(tx.servers) ==> s.View() == S.HandleAbort(old(s.View()), tx.tid))
        && tx.readSet == map[] && tx.writeSet == map[] && tx.servers == {} && !tx.isAbort
        && tx.pendingOperations == old(tx.pendingOperations)
    {
      if tx.isAbort {
        return false;
      }
      var servers := tx.servers;
      var todo := servers;
      while todo != {}
        invariant todo <= servers && unchanged(tx)
        invariant forall s :: s in servers ==>
                    s.View() == if s in todo then old(s.View()) else S.HandleAbort(old(s.View()), tx.tid)
        decreases |todo|
      {
        var server :| server in todo;
        server.HandleAbort(tx.tid);
        todo := todo - {server};
      }
      tx.readSet, tx.writeSet, tx.servers := map[], map[], {};
      ok := true;
    }
  }
}
