/**
  What holds in every run of MvtilRuns, guarded or not: intervals only narrow and are never empty, a lock contains
  the interval that its transaction has left, and the pending sets record what active transactions hold.
 */
module MvtilBase {
  import opened Common
  import opened SortedMap
  import opened LockList
  import opened LockSafety
  import opened LockRemoval
  import opened MvtilRuns
  import opened MvtilSteps
  import S = MvtilServer

  // ----- intervals

  ghost predicate Intervals(txns: Txns) {
    forall t :: t in txns ==>
      txns[t].start <= txns[t].finish && (txns[t].phase == Committed ==> txns[t].start == txns[t].finish)
  }

  /** The transaction's interval lies in [start, finish] and is not empty. */
  ghost predicate Within(sys: System, t: TransactionId, start: Timestamp, finish: Timestamp) {
    t in sys.txns && start <= sys.txns[t].start <= sys.txns[t].finish <= finish
  }

  lemma StepNarrows(place: Placement, sys: System, op: Op, t: TransactionId, start: Timestamp, finish: Timestamp)
    requires Enabled(place, sys, op) && Within(sys, t, start, finish)
    ensures Within(Next(place, sys, op), t, start, finish)
  {
    StepTxn(place, sys, op, t);
    if op.Read? && op.tid == t {
      ReadGrantFacts(place, sys, t, op.key);
    } else if op.Write? && op.tid == t && !PendsWrite(place, sys, t, op.key) {
      WriteGrantFacts(place, sys, t, op.key);
    }
  }

  lemma StepKeepsIntervals(place: Placement, sys: System, op: Op)
    requires Intervals(sys.txns) && Enabled(place, sys, op)
    ensures Intervals(Next(place, sys, op).txns)
  {
    forall t | t in Next(place, sys, op).txns
      ensures var a := Next(place, sys, op).txns[t]; a.start <= a.finish && (a.phase == Committed ==> a.start == a.finish)
    {
      StepTxn(place, sys, op, t);
      if t in sys.txns {
        StepNarrows(place, sys, op, t, sys.txns[t].start, sys.txns[t].finish);
      }
    }
  }

  /** From any point of a run on, a transaction's interval only narrows, and it is never empty. */
  lemma {:induction false} RunNarrows(
      place: Placement, ops: seq<Op>, more: seq<Op>, t: TransactionId, start: Timestamp, finish: Timestamp)
    requires Legal(place, ops) && Legal(place, ops + more) && Within(Run(place, ops), t, start, finish)
    ensures Within(Run(place, ops + more), t, start, finish)
  {
    if more == [] {
      assert ops + more == ops;
    } else {
      var all := ops + more;
      assert all[..|all| - 1] == ops + more[..|more| - 1];
      RunNarrows(place, ops, more[..|more| - 1], t, start, finish);
      StepNarrows(place, Run(place, all[..|all| - 1]), all[|all| - 1], t, start, finish);
    }
  }

  lemma {:induction false} PrefixIsLegal(place: Placement, ops: seq<Op>, more: seq<Op>)
    requires Legal(place, ops + more)
    ensures Legal(place, ops)
  {
    if more == [] {
      assert ops + more == ops;
    } else {
      var all := ops + more;
      assert all[..|all| - 1] == ops + more[..|more| - 1];
      PrefixIsLegal(place, ops, more[..|more| - 1]);
    }
  }

  lemma LastStep(place: Placement, ops: seq<Op>, op: Op)
    requires Legal(place, ops + [op])
    ensures Legal(place, ops) && Enabled(place, Run(place, ops), op)
    ensures Run(place, ops + [op]) == Next(place, Run(place, ops), op)
  {
    assert (ops + [op])[..|ops|] == ops;
  }

  /**
    The commit timestamp lies in the interval that a read was granted at any earlier point of the run, and the
    version read was at that moment the newest at or below the commit timestamp.
   */
  lemma CommitLiesInReadGrant(place: Placement, ops: seq<Op>, more: seq<Op>, t: TransactionId, k: Key)
    requires Legal(place, ops + [Read(t, k)] + more) && In(Run(place, ops + [Read(t, k)] + more), t, Committed)
    ensures Legal(place, ops) && Enabled(place, Run(place, ops), Read(t, k))
    ensures var sys := Run(place, ops);
      var c := Run(place, ops + [Read(t, k)] + more).txns[t].start;
      var g := ReadGrant(place, sys, t, k).interval;
      && g.start <= c <= g.finish && ReadVersion(place, sys, t, k) < g.lockStart
      && IsBelow(EntryOf(place, sys.servers, k).versions, c + 1, ReadVersion(place, sys, t, k))
  {
    var first := ops + [Read(t, k)];
    PrefixIsLegal(place, first, more);
    LastStep(place, ops, Read(t, k));
    var sys := Run(place, ops);
    StepTxn(place, sys, Read(t, k), t);
    ReadGrantFacts(place, sys, t, k);
    var g := ReadGrant(place, sys, t, k).interval;
    RunNarrows(place, first, more, t, g.start, g.finish);
  }

  /** The commit timestamp lies in the interval that a first write was granted at any earlier point of the run. */
  lemma CommitLiesInWriteGrant(place: Placement, ops: seq<Op>, more: seq<Op>, t: TransactionId, k: Key, v: Value)
    requires Legal(place, ops + [Write(t, k, v)] + more) && In(Run(place, ops + [Write(t, k, v)] + more), t, Committed)
    ensures Legal(place, ops) && Enabled(place, Run(place, ops), Write(t, k, v))
    ensures var sys := Run(place, ops);
      var c := Run(place, ops + [Write(t, k, v)] + more).txns[t].start;
      !PendsWrite(place, sys, t, k) ==>
        WriteGrant(place, sys, t, k).interval.start <= c <= WriteGrant(place, sys, t, k).interval.finish
  {
    var first := ops + [Write(t, k, v)];
    PrefixIsLegal(place, first, more);
    LastStep(place, ops, Write(t, k, v));
    var sys := Run(place, ops);
    if !PendsWrite(place, sys, t, k) {
      StepTxn(place, sys, Write(t, k, v), t);
      WriteGrantFacts(place, sys, t, k);
      var g := WriteGrant(place, sys, t, k).interval;
      RunNarrows(place, first, more, t, g.start, g.finish);
    }
  }

  // ----- locks

  /** A lock contains the interval that its transaction has left; a read lock only has to reach its end. */
  ghost predicate LockOwned(txns: Txns, l: Lock) {
    && l.tid in txns
    && txns[l.tid].finish <= l.finish
    && (l.op == WRITE ==> l.start <= txns[l.tid].start)
  }

  ghost predicate AllOwned(txns: Txns, locks: seq<Lock>) {
    forall l :: l in locks && Inner(l.start) ==> LockOwned(txns, l)
  }

  ghost predicate Owned(place: Placement, sys: System) {
    forall k :: AllOwned(sys.txns, EntryOf(place, sys.servers, k).locks)
  }

  /** The lock that a step has just been granted for its transaction on k. */
  ghost predicate JustGranted(place: Placement, sys: System, op: Op, l: Lock, k: Key)
    requires Enabled(place, sys, op)
  {
    || (op == Read(l.tid, k) && l == ReadLock(l.tid, ReadGrant(place, sys, l.tid, k)))
    || (op.Write? && op.tid == l.tid && op.key == k && !PendsWrite(place, sys, l.tid, k)
        && l == WriteLock(l.tid, WriteGrant(place, sys, l.tid, k)))
  }

  /** The lock is what a commit makes of a lock that its transaction had on k. */
  ghost predicate JustSettled(place: Placement, sys: System, op: Op, l: Lock, k: Key)
    requires Enabled(place, sys, op)
  {
    && (op.PersistWrite? || op.PersistRead?) && op.key == k
    && exists m :: m in EntryOf(place, sys.servers, k).locks && m.tid == op.tid && Inner(m.start)
                   && l == Settle(m, sys.txns[op.tid].start)
  }

  lemma SettledMembers(locks: seq<Lock>, tid: TransactionId, oldTs: Timestamp, ts: Timestamp)
    requires locks != []
    ensures forall l :: l in CommitInterval(locks, tid, oldTs, ts) ==>
              l in locks || exists m :: m in locks && Own(m, tid, oldTs) && l == Settle(m, ts)
    ensures forall m :: m in locks ==>
              m in CommitInterval(locks, tid, oldTs, ts)
              || (Own(m, tid, oldTs) && Settle(m, ts) in CommitInterval(locks, tid, oldTs, ts))
  {
    var r := CommitInterval(locks, tid, oldTs, ts);
    forall m | m in locks ensures m in r || (Own(m, tid, oldTs) && Settle(m, ts) in r) {
      var i :| 0 <= i < |locks| && locks[i] == m;
      assert r[i] in r;
    }
  }

  lemma GrantLocks(place: Placement, sys: System, op: Op, l: Lock, k: Key)
    requires Enabled(place, sys, op) && (op.Read? || op.Write?)
    requires l in EntryAfter(place, sys, op, k).locks
    ensures l in EntryOf(place, sys.servers, k).locks || JustGranted(place, sys, op, l, k)
  {
    if op.Read? && op.key == k {
      ReadGrantFacts(place, sys, op.tid, k);
    } else if op.Write? && op.key == k && !PendsWrite(place, sys, op.tid, k) {
      WriteGrantFacts(place, sys, op.tid, k);
    }
  }

  lemma PersistLocks(place: Placement, sys: System, op: Op, l: Lock, k: Key)
    requires Enabled(place, sys, op) && (op.PersistWrite? || op.PersistRead?)
    requires l in EntryAfter(place, sys, op, k).locks
    ensures l in EntryOf(place, sys.servers, k).locks || JustSettled(place, sys, op, l, k)
  {
    var locks := EntryOf(place, sys.servers, k).locks;
    if op.key == k {
      var oldTs := if op.PersistWrite? then WriteStart(place, sys, op.tid, k) else ReadStart(place, sys, op.tid, k);
      SettledMembers(locks, op.tid, oldTs, sys.txns[op.tid].start);
    }
  }

  lemma RemovalLocks(place: Placement, sys: System, op: Op, l: Lock, k: Key)
    requires Enabled(place, sys, op) && (op.AbortWrite? || op.AbortRead? || op.Collect?)
    requires l in EntryAfter(place, sys, op, k).locks
    ensures l in EntryOf(place, sys.servers, k).locks
  {
    var locks := EntryOf(place, sys.servers, k).locks;
    if op.key == k {
      match op
      case AbortWrite(t, _) =>
        var start: int := WriteStart(place, sys, t, k);
        RemoveFromShrinks(locks, Find(locks, start - 1), t, start);
      case AbortRead(t, _) =>
        var start: int := ReadStart(place, sys, t, k);
        RemoveFromShrinks(locks, Find(locks, start - 1), t, start);
      case Collect(_, ts) => CollectKeeps(locks, ts, 1);
    }
  }

  /** Every lock after a step was there before, has just been granted, or is a settled one. */
  lemma StepLocks(place: Placement, sys: System, op: Op, l: Lock, k: Key)
    requires Enabled(place, sys, op) && l in EntryOf(place, Next(place, sys, op).servers, k).locks
    ensures || l in EntryOf(place, sys.servers, k).locks
            || JustGranted(place, sys, op, l, k)
            || JustSettled(place, sys, op, l, k)
  {
    StepEntry(place, sys, op, k);
    if op.Read? || op.Write? {
      GrantLocks(place, sys, op, l, k);
    } else if op.PersistWrite? || op.PersistRead? {
      PersistLocks(place, sys, op, l, k);
    } else if op.AbortWrite? || op.AbortRead? || op.Collect? {
      RemovalLocks(place, sys, op, l, k);
    }
  }

  /** What was owned stays owned: transactions only narrow their intervals. */
  lemma OwnedStays(place: Placement, sys: System, op: Op, l: Lock)
    requires Intervals(sys.txns) && Enabled(place, sys, op) && LockOwned(sys.txns, l)
    ensures LockOwned(Next(place, sys, op).txns, l)
  {
    StepNarrows(place, sys, op, l.tid, sys.txns[l.tid].start, sys.txns[l.tid].finish);
  }

  lemma GrantIsOwned(place: Placement, sys: System, op: Op, l: Lock, k: Key)
    requires Enabled(place, sys, op) && JustGranted(place, sys, op, l, k)
    ensures LockOwned(Next(place, sys, op).txns, l)
  {
    StepTxn(place, sys, op, l.tid);
    if op.Read? {
      ReadGrantFacts(place, sys, l.tid, k);
    } else {
      WriteGrantFacts(place, sys, l.tid, k);
    }
  }

  lemma SettledIsOwned(place: Placement, sys: System, op: Op, l: Lock, k: Key)
    requires Intervals(sys.txns) && Owned(place, sys) && Enabled(place, sys, op) && JustSettled(place, sys, op, l, k)
    ensures LockOwned(Next(place, sys, op).txns, l)
  {
    StepTxn(place, sys, op, op.tid);
    assert AllOwned(sys.txns, EntryOf(place, sys.servers, k).locks);
  }

  lemma StepKeepsOwned(place: Placement, sys: System, op: Op)
    requires Intervals(sys.txns) && Owned(place, sys) && Enabled(place, sys, op)
    ensures Owned(place, Next(place, sys, op))
  {
    var after := Next(place, sys, op);
    forall k, l | l in EntryOf(place, after.servers, k).locks && Inner(l.start) ensures LockOwned(after.txns, l) {
      StepLocks(place, sys, op, l, k);
      if l in EntryOf(place, sys.servers, k).locks {
        assert AllOwned(sys.txns, EntryOf(place, sys.servers, k).locks);
        OwnedStays(place, sys, op, l);
      } else if JustGranted(place, sys, op, l, k) {
        GrantIsOwned(place, sys, op, l, k);
      } else {
        SettledIsOwned(place, sys, op, l, k);
      }
    }
  }

  // ----- write tables

  /** A recorded write is one that the client made, on the key's server, with the client's value. */
  ghost predicate RecordOk(place: Placement, sys: System, s: ServerId, t: TransactionId, k: Key, v: Value) {
    place(k) == s && t in sys.txns && s in sys.txns[t].servers && k in sys.txns[t].writeSet && sys.txns[t].writeSet[k] == v
  }

  ghost predicate RecordsOk(place: Placement, sys: System) {
    forall s, t, k :: k in S.WriteSet(Srv(sys.servers, s), t) ==>
      RecordOk(place, sys, s, t, k, S.WriteSet(Srv(sys.servers, s), t)[k].value)
  }

  /** What an active transaction has written is recorded. */
  ghost predicate WritesRecorded(place: Placement, sys: System) {
    forall t, k :: In(sys, t, Active) && k in sys.txns[t].writeSet ==> PendsWrite(place, sys, t, k)
  }

  lemma StepKeepsRecord(place: Placement, sys: System, op: Op, s: ServerId, t: TransactionId, k: Key, v: Value)
    requires Enabled(place, sys, op) && RecordOk(place, sys, s, t, k, v)
    requires op.Write? ==> op.tid != t || op.key != k
    ensures RecordOk(place, Next(place, sys, op), s, t, k, v)
  {
    StepTxn(place, sys, op, t);
  }

  lemma StepKeepsRecords(place: Placement, sys: System, op: Op)
    requires RecordsOk(place, sys) && Enabled(place, sys, op)
    ensures RecordsOk(place, Next(place, sys, op))
  {
    var after := Next(place, sys, op);
    forall s, t, k | k in S.WriteSet(Srv(after.servers, s), t)
      ensures RecordOk(place, after, s, t, k, S.WriteSet(Srv(after.servers, s), t)[k].value)
    {
      StepWriteSet(place, sys, op, s, t);
      if op.Write? && op.tid == t && op.key == k {
        StepTxn(place, sys, op, t);
        assert k in S.WriteSet(Srv(sys.servers, s), t) ==>
            RecordOk(place, sys, s, t, k, S.WriteSet(Srv(sys.servers, s), t)[k].value);
      } else {
        StepKeepsRecord(place, sys, op, s, t, k, S.WriteSet(Srv(sys.servers, s), t)[k].value);
      }
    }
  }

  lemma StepKeepsWritesRecorded(place: Placement, sys: System, op: Op)
    requires WritesRecorded(place, sys) && Enabled(place, sys, op)
    ensures WritesRecorded(place, Next(place, sys, op))
  {
    var after := Next(place, sys, op);
    forall t, k | In(after, t, Active) && k in after.txns[t].writeSet ensures PendsWrite(place, after, t, k) {
      StepTxn(place, sys, op, t);
      StepWriteSet(place, sys, op, place(k), t);
      assert !(op.Write? && op.tid == t && op.key == k) ==> PendsWrite(place, sys, t, k);
    }
  }

  // ----- all of it, in every run

  ghost predicate Base(place: Placement, sys: System) {
    Intervals(sys.txns) && Owned(place, sys) && RecordsOk(place, sys) && WritesRecorded(place, sys)
  }

  lemma {:induction false} RunKeepsBase(place: Placement, ops: seq<Op>)
    requires Legal(place, ops)
    ensures Base(place, Run(place, ops))
  {
    if ops == [] {
      assert forall k :: EntryOf(place, START.servers, k) == S.FRESH_ENTRY;
    } else {
      var sys := Run(place, ops[..|ops| - 1]);
      var op := ops[|ops| - 1];
      RunKeepsBase(place, ops[..|ops| - 1]);
      StepKeepsIntervals(place, sys, op);
      StepKeepsOwned(place, sys, op);
      StepKeepsRecords(place, sys, op);
      StepKeepsWritesRecorded(place, sys, op);
    }
  }
}
