/**
  The invariant of TwoPhaseRuns: the lock tables agree with the pending operations, and the servers'
  stores together with the unfinished commits are the atomic store.
 */
module TwoPhaseInvariant {
  import opened Common
  import opened Serial
  import opened TwoPhaseRuns
  import S = TwoPhaseServer

  function OpOf(place: Placement, sys: System, tid: TransactionId, k: Key): S.Pending
    requires Holds(place, sys, tid, k)
  {
    S.Operations(Srv(sys.servers, place(k)), tid)[k]
  }

  /** The lock entry of k lists exactly the transactions that hold k, and its mode is their mode. */
  ghost predicate LockAgrees(place: Placement, sys: System, k: Key) {
    var locks := Srv(sys.servers, place(k)).locks;
    if k in locks then
      && (forall t :: t in locks[k].holders <==> Holds(place, sys, t, k))
      && (forall t :: Holds(place, sys, t, k) ==> OpOf(place, sys, t, k).mode == locks[k].mode)
      && (locks[k].mode == S.WRITE ==> exists t :: locks[k].holders == {t})
    else
      forall t :: !Holds(place, sys, t, k)
  }

  ghost predicate LocksAgree(place: Placement, sys: System) {
    forall k :: LockAgrees(place, sys, k)
  }

  ghost predicate PendingPlaced(place: Placement, sys: System) {
    forall s, t :: t in Srv(sys.servers, s).pending ==>
      && t in sys.txns && s in sys.txns[t].servers
      && forall k :: k in Srv(sys.servers, s).pending[t] ==> place(k) == s
  }

  ghost predicate TxnsOk(place: Placement, sys: System) {
    forall t :: t in sys.txns ==>
      && (sys.txns[t].phase == Active ==> sys.txns[t].released == {})
      && (sys.txns[t].fetching.Some? ==> sys.txns[t].phase == Active && Holds(place, sys, t, sys.txns[t].fetching.value))
  }

  /** The write set of a transaction is what the servers have recorded for it, but for the keys that its end has passed. */
  ghost predicate WriteSetsRecorded(place: Placement, sys: System) {
    forall t, k :: t in sys.txns && k !in sys.txns[t].released ==>
      (k in sys.txns[t].writeSet
       <==> Holds(place, sys, t, k) && OpOf(place, sys, t, k).mode == S.WRITE)
      && (k in sys.txns[t].writeSet ==> OpOf(place, sys, t, k).value == sys.txns[t].writeSet[k])
  }

  /** A committed transaction still has to store its value at k. */
  ghost predicate Unstored(place: Placement, sys: System, t: TransactionId, k: Key) {
    In(sys, t, Committed) && Holds(place, sys, t, k) && OpOf(place, sys, t, k).mode == S.WRITE
  }

  /** The atomic value of k is the one a commit has yet to store, or else the one in the server's store. */
  ghost predicate SimulatesAt(place: Placement, sys: System, k: Key) {
    && (forall t :: Unstored(place, sys, t, k) ==> Lookup(sys.atomic, k) == Some(OpOf(place, sys, t, k).value))
    && ((exists t :: Unstored(place, sys, t, k))
        || Lookup(sys.atomic, k) == Lookup(Srv(sys.servers, place(k)).store, k))
  }

  ghost predicate Simulates(place: Placement, sys: System) {
    forall k :: SimulatesAt(place, sys, k)
  }

  /** What an active transaction has read is locked by it and still current in the atomic store. */
  ghost predicate ReadsCurrent(place: Placement, sys: System) {
    forall t, rd :: In(sys, t, Active) && rd in sys.txns[t].readSet ==>
      Holds(place, sys, t, rd.key) && Lookup(sys.atomic, rd.key) == rd.value
  }

  ghost predicate HistoryOk(sys: System) {
    && sys.atomic == Replay(Writes(sys.history))
    && forall i, rd :: 0 <= i < |sys.history| && rd in sys.history[i].readSet ==>
         Lookup(Replay(Writes(sys.history[..i])), rd.key) == rd.value
  }

  ghost predicate Inv(place: Placement, sys: System) {
    && LocksAgree(place, sys)
    && PendingPlaced(place, sys)
    && TxnsOk(place, sys)
    && WriteSetsRecorded(place, sys)
    && Simulates(place, sys)
    && ReadsCurrent(place, sys)
    && HistoryOk(sys)
  }

  // ----- keys that a step does not touch

  /** The step leaves the lock, the stored value and the operations on k alone. */
  ghost predicate SameAt(place: Placement, sys: System, after: System, k: Key) {
    && Lookup(Srv(after.servers, place(k)).locks, k) == Lookup(Srv(sys.servers, place(k)).locks, k)
    && Lookup(Srv(after.servers, place(k)).store, k) == Lookup(Srv(sys.servers, place(k)).store, k)
    && (forall t :: Holds(place, after, t, k) <==> Holds(place, sys, t, k))
    && (forall t :: Holds(place, sys, t, k) ==> OpOf(place, after, t, k) == OpOf(place, sys, t, k))
  }

  lemma SameLock(place: Placement, sys: System, after: System, k: Key)
    requires SameAt(place, sys, after, k) && LockAgrees(place, sys, k)
    ensures LockAgrees(place, after, k)
  {
  }

  lemma SameSimulation(place: Placement, sys: System, after: System, k: Key)
    requires SameAt(place, sys, after, k) && SimulatesAt(place, sys, k)
    requires Lookup(after.atomic, k) == Lookup(sys.atomic, k)
    requires forall t :: Holds(place, sys, t, k) ==> (In(after, t, Committed) <==> In(sys, t, Committed))
    ensures SimulatesAt(place, after, k)
  {
    if t :| Unstored(place, sys, t, k) {
      assert Unstored(place, after, t, k);
    }
    assert forall t :: Unstored(place, after, t, k) ==> Unstored(place, sys, t, k);
  }

  /** The step is a section of one key. */
  predicate IsOnKey(op: Op) {
    op.LockRead? || op.Write? || op.CommitKey? || op.AbortKey?
  }

  lemma FrameRequest(place: Placement, sys: System, op: Op, j: Key)
    requires Enabled(place, sys, op) && (op.LockRead? || op.Write?) && j != op.key
    ensures SameAt(place, sys, Next(place, sys, op), j)
  {
  }

  lemma FrameRelease(place: Placement, sys: System, op: Op, j: Key)
    requires Enabled(place, sys, op) && (op.CommitKey? || op.AbortKey?) && j != op.key
    ensures SameAt(place, sys, Next(place, sys, op), j)
  {
  }

  lemma FrameNoKey(place: Placement, sys: System, op: Op, j: Key)
    requires Inv(place, sys) && Enabled(place, sys, op) && !IsOnKey(op)
    ensures SameAt(place, sys, Next(place, sys, op), j)
  {
  }

  lemma FrameOthers(place: Placement, sys: System, op: Op, j: Key)
    requires Inv(place, sys) && Enabled(place, sys, op) && (IsOnKey(op) ==> j != op.key)
    ensures SameAt(place, sys, Next(place, sys, op), j)
  {
    if op.LockRead? || op.Write? {
      FrameRequest(place, sys, op, j);
    } else if op.CommitKey? || op.AbortKey? {
      FrameRelease(place, sys, op, j);
    } else {
      FrameNoKey(place, sys, op, j);
    }
  }

  predicate Touches(op: Op, k: Key) {
    IsOnKey(op) && op.key == k
  }

  // ----- the lock table

  /** A granted request changes what is held at its key for its own transaction only. */
  lemma GrantFrame(place: Placement, sys: System, op: Op, t: TransactionId)
    requires Enabled(place, sys, op) && (op.LockRead? || op.Write?) && t != op.tid
    ensures var after := Next(place, sys, op);
      && (Holds(place, after, t, op.key) <==> Holds(place, sys, t, op.key))
      && (Holds(place, sys, t, op.key) ==> OpOf(place, after, t, op.key) == OpOf(place, sys, t, op.key))
  {
  }

  lemma GrantHolds(place: Placement, sys: System, op: Op)
    requires TxnsOk(place, sys) && Enabled(place, sys, op) && (op.LockRead? || op.Write?)
    ensures var after := Next(place, sys, op);
      && Holds(place, after, op.tid, op.key)
      && OpOf(place, after, op.tid, op.key).mode == (if op.LockRead? then S.READ else S.WRITE)
  {
  }

  lemma ReadGrantAgrees(place: Placement, sys: System, op: Op)
    requires op.LockRead? && Enabled(place, sys, op) && TxnsOk(place, sys) && LockAgrees(place, sys, op.key)
    ensures LockAgrees(place, Next(place, sys, op), op.key)
  {
    GrantHolds(place, sys, op);
    forall t | t != op.tid { GrantFrame(place, sys, op, t); }
  }

  lemma WriteGrantAgrees(place: Placement, sys: System, op: Op)
    requires op.Write? && Enabled(place, sys, op) && TxnsOk(place, sys) && LockAgrees(place, sys, op.key)
    ensures LockAgrees(place, Next(place, sys, op), op.key)
  {
    var after := Next(place, sys, op);
    GrantHolds(place, sys, op);
    forall t | t != op.tid { GrantFrame(place, sys, op, t); }
    var locks := Srv(sys.servers, place(op.key)).locks;
    if S.Rewrites(Srv(sys.servers, place(op.key)), op.tid, op.key) {
      assert Holds(place, sys, op.tid, op.key);
      var t :| locks[op.key].holders == {t};
      assert op.tid in locks[op.key].holders;
    }
    assert Srv(after.servers, place(op.key)).locks[op.key].holders == {op.tid};
  }

  lemma GrantAgrees(place: Placement, sys: System, op: Op)
    requires (op.LockRead? || op.Write?) && Enabled(place, sys, op) && TxnsOk(place, sys) && LockAgrees(place, sys, op.key)
    ensures LockAgrees(place, Next(place, sys, op), op.key)
  {
    if op.LockRead? {
      ReadGrantAgrees(place, sys, op);
    } else {
      WriteGrantAgrees(place, sys, op);
    }
  }

  lemma ReleaseAgrees(place: Placement, sys: System, op: Op)
    requires Inv(place, sys) && Enabled(place, sys, op) && (op.CommitKey? || op.AbortKey?)
    ensures LockAgrees(place, Next(place, sys, op), op.key)
  {
    var after := Next(place, sys, op);
    assert LockAgrees(place, sys, op.key);
    forall t | t != op.tid
      ensures Holds(place, after, t, op.key) <==> Holds(place, sys, t, op.key)
      ensures Holds(place, sys, t, op.key) ==> OpOf(place, after, t, op.key) == OpOf(place, sys, t, op.key)
    {
    }
    assert !Holds(place, after, op.tid, op.key);
  }

  lemma LocksKept(place: Placement, sys: System, op: Op)
    requires Inv(place, sys) && Enabled(place, sys, op)
    ensures LocksAgree(place, Next(place, sys, op))
  {
    forall k ensures LockAgrees(place, Next(place, sys, op), k) {
      if !Touches(op, k) {
        FrameOthers(place, sys, op, k);
        SameLock(place, sys, Next(place, sys, op), k);
      } else if op.LockRead? || op.Write? {
        GrantAgrees(place, sys, op);
      } else {
        ReleaseAgrees(place, sys, op);
      }
    }
  }

  // ----- the stores

  /** The holders of an exclusively locked key are one transaction. */
  lemma OneWriter(place: Placement, sys: System, t: TransactionId, u: TransactionId, k: Key)
    requires LockAgrees(place, sys, k) && Holds(place, sys, t, k) && Holds(place, sys, u, k)
    requires OpOf(place, sys, t, k).mode == S.WRITE
    ensures t == u
  {
    var holders := Srv(sys.servers, place(k)).locks[k].holders;
    assert t in holders && u in holders;
  }

  lemma GrantSimulates(place: Placement, sys: System, op: Op)
    requires Inv(place, sys) && Enabled(place, sys, op) && (op.LockRead? || op.Write?)
    ensures SimulatesAt(place, Next(place, sys, op), op.key)
  {
    var after := Next(place, sys, op);
    assert SimulatesAt(place, sys, op.key) && LockAgrees(place, sys, op.key);
    forall t ensures !Unstored(place, sys, t, op.key) {
      if Unstored(place, sys, t, op.key) {
        assert t in Srv(sys.servers, place(op.key)).locks[op.key].holders;
        if Holds(place, sys, op.tid, op.key) {
          OneWriter(place, sys, t, op.tid, op.key);
        }
      }
    }
    forall t ensures !Unstored(place, after, t, op.key) {
      assert !Unstored(place, sys, t, op.key);
    }
  }

  lemma CommitSimulates(place: Placement, sys: System, op: Op)
    requires Inv(place, sys) && Enabled(place, sys, op) && op.CommitKey?
    ensures SimulatesAt(place, Next(place, sys, op), op.key)
  {
    var after := Next(place, sys, op);
    assert SimulatesAt(place, sys, op.key) && LockAgrees(place, sys, op.key);
    forall t ensures !Unstored(place, after, t, op.key) {
      if Unstored(place, after, t, op.key) {
        assert Unstored(place, sys, t, op.key);
        OneWriter(place, sys, t, op.tid, op.key);
      }
    }
    if OpOf(place, sys, op.tid, op.key).mode == S.WRITE {
      assert Unstored(place, sys, op.tid, op.key);
    } else {
      forall t ensures !Unstored(place, sys, t, op.key) {
        if Unstored(place, sys, t, op.key) {
          OneWriter(place, sys, t, op.tid, op.key);
        }
      }
    }
  }

  lemma AbortSimulates(place: Placement, sys: System, op: Op)
    requires Inv(place, sys) && Enabled(place, sys, op) && op.AbortKey?
    ensures SimulatesAt(place, Next(place, sys, op), op.key)
  {
    var after := Next(place, sys, op);
    assert SimulatesAt(place, sys, op.key);
    if t :| Unstored(place, sys, t, op.key) {
      assert Unstored(place, after, t, op.key);
    }
    forall t | Unstored(place, after, t, op.key)
      ensures Unstored(place, sys, t, op.key) && OpOf(place, after, t, op.key) == OpOf(place, sys, t, op.key)
    {
    }
  }

  /** The commit point: the atomic store takes the writes, and every written key is now waiting to be stored. */
  lemma CommitPointSimulates(place: Placement, sys: System, op: Op, k: Key)
    requires Inv(place, sys) && Enabled(place, sys, op) && op.Commit?
    ensures SimulatesAt(place, Next(place, sys, op), k)
  {
    var after := Next(place, sys, op);
    assert SimulatesAt(place, sys, k) && LockAgrees(place, sys, k);
    FrameOthers(place, sys, op, k);
    if k in sys.txns[op.tid].writeSet {
      assert Unstored(place, after, op.tid, k);
      forall t | Unstored(place, after, t, k) ensures t == op.tid {
        OneWriter(place, sys, op.tid, t, k);
      }
    } else {
      assert !Unstored(place, after, op.tid, k);
      assert Lookup(after.atomic, k) == Lookup(sys.atomic, k);
      if t :| Unstored(place, sys, t, k) {
        assert Unstored(place, after, t, k);
      }
    }
  }

  lemma SimulationKept(place: Placement, sys: System, op: Op)
    requires Inv(place, sys) && Enabled(place, sys, op)
    ensures Simulates(place, Next(place, sys, op))
  {
    forall k ensures SimulatesAt(place, Next(place, sys, op), k) {
      if op.Commit? {
        CommitPointSimulates(place, sys, op, k);
      } else if !Touches(op, k) {
        FrameOthers(place, sys, op, k);
        SameSimulation(place, sys, Next(place, sys, op), k);
      } else if op.CommitKey? {
        CommitSimulates(place, sys, op);
      } else if op.AbortKey? {
        AbortSimulates(place, sys, op);
      } else {
        GrantSimulates(place, sys, op);
      }
    }
  }

  // ----- the transactions

  lemma RequestKeepsPlacement(place: Placement, sys: System, op: Op)
    requires PendingPlaced(place, sys) && Enabled(place, sys, op) && (op.LockRead? || op.Write?)
    ensures PendingPlaced(place, Next(place, sys, op))
  {
  }

  lemma ReleaseKeepsPlacement(place: Placement, sys: System, op: Op)
    requires PendingPlaced(place, sys) && Enabled(place, sys, op) && (op.CommitKey? || op.AbortKey?)
    ensures PendingPlaced(place, Next(place, sys, op))
  {
  }

  lemma NoKeyKeepsPlacement(place: Placement, sys: System, op: Op)
    requires PendingPlaced(place, sys) && Enabled(place, sys, op) && !IsOnKey(op)
    ensures PendingPlaced(place, Next(place, sys, op))
  {
  }

  lemma PlacementKept(place: Placement, sys: System, op: Op)
    requires Inv(place, sys) && Enabled(place, sys, op)
    ensures PendingPlaced(place, Next(place, sys, op))
  {
    if op.LockRead? || op.Write? {
      RequestKeepsPlacement(place, sys, op);
    } else if op.CommitKey? || op.AbortKey? {
      ReleaseKeepsPlacement(place, sys, op);
    } else {
      NoKeyKeepsPlacement(place, sys, op);
    }
  }

  lemma KeyKeepsTxns(place: Placement, sys: System, op: Op)
    requires TxnsOk(place, sys) && Enabled(place, sys, op) && IsOnKey(op)
    ensures TxnsOk(place, Next(place, sys, op))
  {
  }

  lemma NoKeyKeepsTxns(place: Placement, sys: System, op: Op)
    requires Inv(place, sys) && Enabled(place, sys, op) && !IsOnKey(op)
    ensures TxnsOk(place, Next(place, sys, op))
  {
  }

  lemma TxnsKept(place: Placement, sys: System, op: Op)
    requires Inv(place, sys) && Enabled(place, sys, op)
    ensures TxnsOk(place, Next(place, sys, op))
  {
    if IsOnKey(op) {
      KeyKeepsTxns(place, sys, op);
    } else {
      NoKeyKeepsTxns(place, sys, op);
    }
  }

  /** Seen from t and k, nothing has changed. */
  ghost predicate SameFor(place: Placement, sys: System, after: System, t: TransactionId, k: Key) {
    && (t in after.txns <==> t in sys.txns)
    && (t in sys.txns ==> after.txns[t] == sys.txns[t])
    && (Holds(place, after, t, k) <==> Holds(place, sys, t, k))
    && (Holds(place, sys, t, k) ==> OpOf(place, after, t, k) == OpOf(place, sys, t, k))
  }

  lemma KeyFramesTxns(place: Placement, sys: System, op: Op, t: TransactionId, k: Key)
    requires Enabled(place, sys, op) && IsOnKey(op) && t != op.tid
    ensures SameFor(place, sys, Next(place, sys, op), t, k)
  {
  }

  lemma NoKeyFramesTxns(place: Placement, sys: System, op: Op, t: TransactionId, k: Key)
    requires Enabled(place, sys, op) && !IsOnKey(op) && t != op.tid
    ensures SameFor(place, sys, Next(place, sys, op), t, k)
  {
  }

  /** Seen from any other transaction, a step changes neither its operations nor its record. */
  lemma FrameTxns(place: Placement, sys: System, op: Op, t: TransactionId, k: Key)
    requires Inv(place, sys) && Enabled(place, sys, op) && t != op.tid
    ensures SameFor(place, sys, Next(place, sys, op), t, k)
  {
    if IsOnKey(op) {
      KeyFramesTxns(place, sys, op, t, k);
    } else {
      NoKeyFramesTxns(place, sys, op, t, k);
    }
  }

  lemma OwnWriteSet(place: Placement, sys: System, op: Op, k: Key)
    requires Inv(place, sys) && Enabled(place, sys, op) && k !in Next(place, sys, op).txns[op.tid].released
    ensures var after := Next(place, sys, op);
      && (k in after.txns[op.tid].writeSet
          <==> Holds(place, after, op.tid, k) && OpOf(place, after, op.tid, k).mode == S.WRITE)
      && (k in after.txns[op.tid].writeSet ==> OpOf(place, after, op.tid, k).value == after.txns[op.tid].writeSet[k])
  {
    if op.LockRead? && k == op.key {
      assert LockAgrees(place, sys, k);
    }
  }

  lemma WriteSetsKept(place: Placement, sys: System, op: Op)
    requires Inv(place, sys) && Enabled(place, sys, op)
    ensures WriteSetsRecorded(place, Next(place, sys, op))
  {
    var after := Next(place, sys, op);
    forall t, k | t in after.txns && k !in after.txns[t].released
      ensures k in after.txns[t].writeSet <==> Holds(place, after, t, k) && OpOf(place, after, t, k).mode == S.WRITE
      ensures k in after.txns[t].writeSet ==> OpOf(place, after, t, k).value == after.txns[t].writeSet[k]
    {
      if t == op.tid {
        OwnWriteSet(place, sys, op, k);
      } else {
        FrameTxns(place, sys, op, t, k);
      }
    }
  }

  /** A key that an active transaction holds has one value: nobody is about to store another. */
  lemma HeldIsStored(place: Placement, sys: System, t: TransactionId, k: Key)
    requires Inv(place, sys) && In(sys, t, Active) && Holds(place, sys, t, k)
    ensures Lookup(sys.atomic, k) == Lookup(Srv(sys.servers, place(k)).store, k)
  {
    assert SimulatesAt(place, sys, k) && LockAgrees(place, sys, k);
    if u :| Unstored(place, sys, u, k) {
      OneWriter(place, sys, u, t, k);
    }
  }

  lemma ReadKept(place: Placement, sys: System, op: Op, t: TransactionId, rd: ReadRecord)
    requires Inv(place, sys) && Enabled(place, sys, op)
    requires In(Next(place, sys, op), t, Active) && rd in Next(place, sys, op).txns[t].readSet
    ensures Holds(place, Next(place, sys, op), t, rd.key)
    ensures Lookup(Next(place, sys, op).atomic, rd.key) == rd.value
  {
    if t != op.tid {
      FrameTxns(place, sys, op, t, rd.key);
      if op.Commit? && rd.key in sys.txns[op.tid].writeSet {
        assert LockAgrees(place, sys, rd.key);
        OneWriter(place, sys, op.tid, t, rd.key);
      }
    } else if op.Fetch? && rd !in sys.txns[t].readSet {
      HeldIsStored(place, sys, t, rd.key);
    }
  }

  lemma ReadsKept(place: Placement, sys: System, op: Op)
    requires Inv(place, sys) && Enabled(place, sys, op)
    ensures ReadsCurrent(place, Next(place, sys, op))
  {
    var after := Next(place, sys, op);
    forall t, rd | In(after, t, Active) && rd in after.txns[t].readSet
      ensures Holds(place, after, t, rd.key) && Lookup(after.atomic, rd.key) == rd.value
    {
      ReadKept(place, sys, op, t, rd);
    }
  }

  lemma HistoryGrows(sys: System, after: System, c: Commitment)
    requires HistoryOk(sys) && after.history == sys.history + [c] && after.atomic == sys.atomic + c.writeSet
    requires forall rd :: rd in c.readSet ==> Lookup(sys.atomic, rd.key) == rd.value
    ensures HistoryOk(after)
  {
    var n := |sys.history|;
    assert Writes(after.history) == Writes(sys.history) + [c.writeSet];
    assert Writes(after.history)[..n] == Writes(sys.history);
    forall i, rd | 0 <= i < |after.history| && rd in after.history[i].readSet
      ensures Lookup(Replay(Writes(after.history[..i])), rd.key) == rd.value
    {
      if i < n {
        assert after.history[..i] == sys.history[..i];
      } else {
        assert after.history[..i] == sys.history;
      }
    }
  }

  lemma HistoryKept(place: Placement, sys: System, op: Op)
    requires Inv(place, sys) && Enabled(place, sys, op)
    ensures HistoryOk(Next(place, sys, op))
  {
    if op.Commit? {
      var a := sys.txns[op.tid];
      HistoryGrows(sys, Next(place, sys, op), Commitment(a.readSet, a.writeSet));
    } else {
      assert Next(place, sys, op).history == sys.history && Next(place, sys, op).atomic == sys.atomic;
    }
  }

  lemma StepKeeps(place: Placement, sys: System, op: Op)
    requires Inv(place, sys) && Enabled(place, sys, op)
    ensures Inv(place, Next(place, sys, op))
  {
    LocksKept(place, sys, op);
    SimulationKept(place, sys, op);
    PlacementKept(place, sys, op);
    TxnsKept(place, sys, op);
    WriteSetsKept(place, sys, op);
    ReadsKept(place, sys, op);
    HistoryKept(place, sys, op);
  }

  /** Every state that a legal run reaches satisfies the invariant. */
  lemma {:induction false} RunKeeps(place: Placement, ops: seq<Op>)
    requires Legal(place, ops)
    ensures Inv(place, Run(place, ops))
  {
    if ops == [] {
      forall k ensures LockAgrees(place, START, k) && SimulatesAt(place, START, k) {
      }
    } else {
      RunKeeps(place, ops[..|ops| - 1]);
      StepKeeps(place, Run(place, ops[..|ops| - 1]), ops[|ops| - 1]);
    }
  }
}
