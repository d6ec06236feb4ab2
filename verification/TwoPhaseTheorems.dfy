/**
  Distributed strict two-phase locking refines atomic transactions on a plain map, over all runs.
 */
module TwoPhaseTheorems {
  import opened Common
  import opened Serial
  import opened TwoPhaseRuns
  import opened TwoPhaseInvariant
  import S = TwoPhaseServer

  /**
    The refinement, step by step: the start of a commit is one atomic transaction on the abstract store,
    which validates everything the transaction read and applies everything it wrote; every other step,
    among them each server's commit of each key, leaves the abstract store alone.
   */
  lemma StepRefinesAtomic(place: Placement, ops: seq<Op>, op: Op)
    requires Legal(place, ops) && Enabled(place, Run(place, ops), op)
    ensures var sys := Run(place, ops);
      var after := Next(place, sys, op);
      if op.Commit? then
        && (forall rd :: rd in sys.txns[op.tid].readSet ==> Lookup(sys.atomic, rd.key) == rd.value)
        && (forall k :: Lookup(after.atomic, k)
              == if Holds(place, sys, op.tid, k) && OpOf(place, sys, op.tid, k).mode == S.WRITE
                 then Some(OpOf(place, sys, op.tid, k).value) else Lookup(sys.atomic, k))
      else
        after.atomic == sys.atomic
  {
    var sys := Run(place, ops);
    RunKeeps(place, ops);
    if op.Commit? {
      forall k ensures k in sys.txns[op.tid].writeSet
                       <==> Holds(place, sys, op.tid, k) && OpOf(place, sys, op.tid, k).mode == S.WRITE {
      }
    }
  }

  /** Every server read of a committed transaction is what a serial replay in commit order gives just before it. */
  lemma SerializableInCommitOrder(place: Placement, ops: seq<Op>, i: nat, rd: ReadRecord)
    requires Legal(place, ops) && i < |Run(place, ops).history| && rd in Run(place, ops).history[i].readSet
    ensures Lookup(Replay(Writes(Run(place, ops).history[..i])), rd.key) == rd.value
  {
    RunKeeps(place, ops);
  }

  /** No committed transaction still has a value of k to store. */
  ghost predicate Settled(place: Placement, sys: System, k: Key) {
    forall t :: !Unstored(place, sys, t, k)
  }

  /** Once the commits have reached the server of k, its store holds the final value of the serial replay. */
  lemma StoreIsReplay(place: Placement, ops: seq<Op>, k: Key)
    requires Legal(place, ops) && Settled(place, Run(place, ops), k)
    ensures var sys := Run(place, ops);
      Lookup(Srv(sys.servers, place(k)).store, k) == Lookup(Replay(Writes(sys.history)), k)
  {
    RunKeeps(place, ops);
    assert SimulatesAt(place, Run(place, ops), k);
  }

  /** A read lock lists the transactions with an unfinished READ on k; a write lock has one holder, with a WRITE. */
  lemma LockTableAgrees(place: Placement, ops: seq<Op>, k: Key)
    requires Legal(place, ops)
    ensures var sys := Run(place, ops);
      var locks := Srv(sys.servers, place(k)).locks;
      if k !in locks then
        forall t :: !Holds(place, sys, t, k)
      else if locks[k].mode == S.READ then
        forall t :: t in locks[k].holders <==> Holds(place, sys, t, k) && OpOf(place, sys, t, k).mode == S.READ
      else
        exists t :: locks[k].holders == {t} && Holds(place, sys, t, k) && OpOf(place, sys, t, k).mode == S.WRITE
  {
    RunKeeps(place, ops);
    var sys := Run(place, ops);
    assert LockAgrees(place, sys, k);
    var locks := Srv(sys.servers, place(k)).locks;
    if k in locks && locks[k].mode == S.WRITE {
      var t :| locks[k].holders == {t};
      assert t in locks[k].holders;
    }
  }

  /** A transaction whose servers have all answered holds no lock anywhere. */
  lemma EndedHoldsNothing(place: Placement, ops: seq<Op>, t: TransactionId, k: Key)
    requires Legal(place, ops) && t in Run(place, ops).txns && Ended(Run(place, ops), t)
    requires k in Srv(Run(place, ops).servers, place(k)).locks
    ensures t !in Srv(Run(place, ops).servers, place(k)).locks[k].holders
  {
    RunKeeps(place, ops);
    var sys := Run(place, ops);
    assert LockAgrees(place, sys, k);
    assert t !in Srv(sys.servers, place(k)).pending;
  }

  /** Nothing that an aborted transaction does reaches a store. */
  lemma AbortLeavesStores(place: Placement, sys: System, op: Op, s: ServerId)
    requires Enabled(place, sys, op) && (op.Abort? || op.AbortKey? || op.Done?)
    ensures Srv(Next(place, sys, op).servers, s).store == Srv(sys.servers, s).store
    ensures Next(place, sys, op).atomic == sys.atomic
  {
  }

  /** Two transactions never hold conflicting locks. */
  lemma NoConflictingHolders(place: Placement, ops: seq<Op>, t: TransactionId, u: TransactionId, k: Key)
    requires Legal(place, ops) && t != u
    requires Holds(place, Run(place, ops), t, k) && Holds(place, Run(place, ops), u, k)
    ensures OpOf(place, Run(place, ops), t, k).mode == S.READ && OpOf(place, Run(place, ops), u, k).mode == S.READ
  {
    RunKeeps(place, ops);
    var sys := Run(place, ops);
    assert LockAgrees(place, sys, k);
    if OpOf(place, sys, t, k).mode == S.WRITE {
      OneWriter(place, sys, t, u, k);
    } else if OpOf(place, sys, u, k).mode == S.WRITE {
      OneWriter(place, sys, u, t, k);
    }
  }
}
