/**
  Abort in the MVTIL store, in every run: each lock of an active transaction is recorded in the pending sets, so
  replaying the records takes back exactly that transaction's locks.
 */
module MvtilAborts {
  import opened Common
  import opened SortedMap
  import opened LockList
  import opened LockSafety
  import opened LockRemoval
  import opened MvtilRuns
  import opened MvtilSteps
  import opened MvtilBase
  import S = MvtilServer

  /** The list without any lock of tid; the sentinels and all other locks keep their order. */
  function WithoutOwner(locks: seq<Lock>, tid: TransactionId): seq<Lock> {
    if locks == [] then []
    else if locks[0].tid == tid && Inner(locks[0].start) then WithoutOwner(locks[1..], tid)
    else [locks[0]] + WithoutOwner(locks[1..], tid)
  }

  lemma {:induction false} WithoutAllStarts(locks: seq<Lock>, tid: TransactionId, starts: set<Timestamp>)
    requires forall s :: s in starts ==> Inner(s)
    requires forall l :: l in locks && l.tid == tid && Inner(l.start) ==> l.start in starts
    ensures Without(locks, tid, starts) == WithoutOwner(locks, tid)
  {
    if locks != [] {
      assert locks[0] in locks;
      WithoutAllStarts(locks[1..], tid, starts);
    }
  }

  /** What HandleAbort leaves of the entry of k. */
  function Undone(place: Placement, sys: System, t: TransactionId, k: Key): S.Entry {
    var server := Srv(sys.servers, place(k));
    S.AbortEntry(EntryOf(place, sys.servers, k), t, Lookup(S.WriteSet(server, t), k), Lookup(S.ReadSet(server, t), k))
  }

  /** The pending sets of the key's server record where the lock starts. */
  predicate Recorded(place: Placement, sys: System, l: Lock, k: Key) {
    if l.op == READ then
      PendsRead(place, sys, l.tid, k) && S.ReadSet(Srv(sys.servers, place(k)), l.tid)[k] == l.start
    else
      PendsWrite(place, sys, l.tid, k) && S.WriteSet(Srv(sys.servers, place(k)), l.tid)[k].start == l.start
  }

  ghost predicate Accounted(place: Placement, sys: System) {
    && (forall k, l :: l in EntryOf(place, sys.servers, k).locks && Inner(l.start) && In(sys, l.tid, Active) ==>
          Recorded(place, sys, l, k))
    && forall t, k :: PendsRead(place, sys, t, k) ==> t in sys.txns && k in sys.txns[t].readSet
  }

  /** What is recorded for an active transaction stays recorded. */
  lemma RecordStays(place: Placement, sys: System, op: Op, l: Lock, k: Key)
    requires Enabled(place, sys, op) && Recorded(place, sys, l, k) && In(sys, l.tid, Active)
    requires op == Read(l.tid, k) ==> l.op == WRITE
    ensures Recorded(place, Next(place, sys, op), l, k)
  {
    StepReadSet(place, sys, op, place(k), l.tid);
    StepWriteSet(place, sys, op, place(k), l.tid);
  }

  lemma GrantIsRecorded(place: Placement, sys: System, op: Op, l: Lock, k: Key)
    requires Enabled(place, sys, op) && JustGranted(place, sys, op, l, k)
    ensures Recorded(place, Next(place, sys, op), l, k)
  {
    StepReadSet(place, sys, op, place(k), l.tid);
    StepWriteSet(place, sys, op, place(k), l.tid);
  }

  /** Active after a step means active before it, unless the step is the beginning. */
  lemma StepKeepsPhase(place: Placement, sys: System, op: Op, t: TransactionId)
    requires Enabled(place, sys, op) && In(Next(place, sys, op), t, Active)
    ensures In(sys, t, Active) || (op.Begin? && op.tid == t && t !in sys.txns)
  {
    StepTxn(place, sys, op, t);
  }

  /** Only a transaction that has committed has its locks settled. */
  lemma SettledIsCommitted(place: Placement, sys: System, op: Op, l: Lock, k: Key)
    requires Enabled(place, sys, op) && JustSettled(place, sys, op, l, k)
    ensures !In(Next(place, sys, op), l.tid, Active)
  {
    StepTxn(place, sys, op, l.tid);
  }

  /** A step gives an active transaction at most the lock that it has just been granted. */
  lemma ActiveLocks(place: Placement, sys: System, op: Op, l: Lock, k: Key)
    requires Owned(place, sys) && Enabled(place, sys, op) && In(Next(place, sys, op), l.tid, Active)
    requires l in EntryOf(place, Next(place, sys, op).servers, k).locks && Inner(l.start)
    ensures JustGranted(place, sys, op, l, k) || (l in EntryOf(place, sys.servers, k).locks && In(sys, l.tid, Active))
  {
    StepLocks(place, sys, op, l, k);
    if l in EntryOf(place, sys.servers, k).locks {
      assert AllOwned(sys.txns, EntryOf(place, sys.servers, k).locks) && LockOwned(sys.txns, l);
      StepKeepsPhase(place, sys, op, l.tid);
    } else if JustSettled(place, sys, op, l, k) {
      SettledIsCommitted(place, sys, op, l, k);
    }
  }

  lemma StepRecordsLock(place: Placement, sys: System, op: Op, l: Lock, k: Key)
    requires Owned(place, sys) && Accounted(place, sys) && Enabled(place, sys, op)
    requires In(Next(place, sys, op), l.tid, Active)
    requires l in EntryOf(place, Next(place, sys, op).servers, k).locks && Inner(l.start)
    ensures Recorded(place, Next(place, sys, op), l, k)
  {
    ActiveLocks(place, sys, op, l, k);
    if JustGranted(place, sys, op, l, k) {
      GrantIsRecorded(place, sys, op, l, k);
    } else {
      assert Recorded(place, sys, l, k);
      RecordStays(place, sys, op, l, k);
    }
  }

  lemma StepKeepsReadTable(place: Placement, sys: System, op: Op, t: TransactionId, k: Key)
    requires Accounted(place, sys) && Enabled(place, sys, op) && PendsRead(place, Next(place, sys, op), t, k)
    ensures t in Next(place, sys, op).txns && k in Next(place, sys, op).txns[t].readSet
  {
    StepReadSet(place, sys, op, place(k), t);
    StepTxn(place, sys, op, t);
    assert PendsRead(place, sys, t, k) || op == Read(t, k);
  }

  lemma {:induction false} RunKeepsAccounts(place: Placement, ops: seq<Op>)
    requires Legal(place, ops)
    ensures Accounted(place, Run(place, ops))
  {
    if ops == [] {
      assert forall k :: EntryOf(place, START.servers, k) == S.FRESH_ENTRY;
    } else {
      var sys := Run(place, ops[..|ops| - 1]);
      var op := ops[|ops| - 1];
      RunKeepsAccounts(place, ops[..|ops| - 1]);
      RunKeepsBase(place, ops[..|ops| - 1]);
      var after := Next(place, sys, op);
      forall k, l | l in EntryOf(place, after.servers, k).locks && Inner(l.start) && In(after, l.tid, Active)
        ensures Recorded(place, after, l, k)
      {
        StepRecordsLock(place, sys, op, l, k);
      }
      forall t, k | PendsRead(place, after, t, k) ensures t in after.txns && k in after.txns[t].readSet {
        StepKeepsReadTable(place, sys, op, t, k);
      }
    }
  }

  /** The starts that an abort removes, given the key's recorded write and read. */
  function StartsIn(w: Option<S.PendingWrite>, r: Option<Instant>): set<Timestamp> {
    match (w, r)
    case (Some(p), Some(s)) => {p.start, s}
    case (Some(p), None) => {p.start}
    case (None, Some(s)) => {s}
    case (None, None) => {}
  }

  lemma AbortKeepsVersions(e: S.Entry, tid: TransactionId, w: Option<S.PendingWrite>, r: Option<Instant>)
    ensures S.AbortEntry(e, tid, w, r).versions == e.versions
  {
  }

  lemma AbortEntryIsWithout(e: S.Entry, tid: TransactionId, w: Option<S.PendingWrite>, r: Option<Instant>)
    requires Sorted(e.locks)
    ensures S.AbortEntry(e, tid, w, r).locks == Without(e.locks, tid, StartsIn(w, r))
  {
    match (w, r)
    case (Some(p), Some(s)) => RemoveTwoStarts(e.locks, tid, p.start, s);
    case (Some(p), None) => RemoveLockIsWithout(e.locks, tid, p.start);
    case (None, Some(s)) => RemoveLockIsWithout(e.locks, tid, s);
    case (None, None) => WithoutNothing(e.locks, tid, {});
  }

  /** The starts that an abort removes from the lock list of k. */
  function RecordedStarts(place: Placement, sys: System, t: TransactionId, k: Key): set<Timestamp> {
    var server := Srv(sys.servers, place(k));
    StartsIn(Lookup(S.WriteSet(server, t), k), Lookup(S.ReadSet(server, t), k))
  }

  lemma UndoneIsWithout(place: Placement, sys: System, t: TransactionId, k: Key)
    requires Sorted(EntryOf(place, sys.servers, k).locks)
    ensures var e := EntryOf(place, sys.servers, k);
      && Undone(place, sys, t, k).versions == e.versions
      && Undone(place, sys, t, k).locks == Without(e.locks, t, RecordedStarts(place, sys, t, k))
  {
    var server := Srv(sys.servers, place(k));
    AbortKeepsVersions(EntryOf(place, sys.servers, k), t, Lookup(S.WriteSet(server, t), k), Lookup(S.ReadSet(server, t), k));
    AbortEntryIsWithout(EntryOf(place, sys.servers, k), t, Lookup(S.WriteSet(server, t), k), Lookup(S.ReadSet(server, t), k));
  }

  lemma RecordsCoverLocks(place: Placement, sys: System, t: TransactionId, k: Key)
    requires Accounted(place, sys) && In(sys, t, Active)
    ensures Without(EntryOf(place, sys.servers, k).locks, t, RecordedStarts(place, sys, t, k))
         == WithoutOwner(EntryOf(place, sys.servers, k).locks, t)
  {
    var locks := EntryOf(place, sys.servers, k).locks;
    forall l | l in locks && l.tid == t && Inner(l.start) ensures l.start in RecordedStarts(place, sys, t, k) {
      assert Recorded(place, sys, l, k);
    }
    WithoutAllStarts(locks, t, RecordedStarts(place, sys, t, k));
  }

  /**
    Abort undoes an active transaction on every key whose lock list is sorted: what its records take back is exactly
    its own locks. The other locks stay in their order, and the versions are untouched.
   */
  lemma AbortUndoes(place: Placement, ops: seq<Op>, t: TransactionId, k: Key)
    requires Legal(place, ops) && In(Run(place, ops), t, Active)
    requires Sorted(EntryOf(place, Run(place, ops).servers, k).locks)
    ensures var e := EntryOf(place, Run(place, ops).servers, k);
      && Undone(place, Run(place, ops), t, k).versions == e.versions
      && Undone(place, Run(place, ops), t, k).locks == WithoutOwner(e.locks, t)
  {
    var sys := Run(place, ops);
    RunKeepsAccounts(place, ops);
    UndoneIsWithout(place, sys, t, k);
    RecordsCoverLocks(place, sys, t, k);
  }
}
