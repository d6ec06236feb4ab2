/**
  Order and exclusion of the lock lists in the MVTIL runs whose writes overrun no foreign read lock and whose commits
  move no write lock past another lock.
 */
module MvtilExclusion {
  import opened Common
  import opened SortedMap
  import opened LockList
  import opened LockSafety
  import opened LockRemoval
  import opened MvtilRuns
  import opened MvtilSteps
  import opened MvtilBase
  import S = MvtilServer

  ghost predicate Orderly(locks: seq<Lock>) {
    Sorted(locks) && Exclusive(locks)
  }

  ghost predicate AllOrderly(place: Placement, sys: System) {
    forall k :: Orderly(EntryOf(place, sys.servers, k).locks)
  }

  lemma SettleKeepsOrder(locks: S.LockSeq, tid: TransactionId, oldTs: Instant, ts: Instant)
    requires Sorted(locks) && CommitInside(locks, tid, oldTs, ts) && OrderSafe(locks, tid, oldTs, ts)
    ensures Sorted(CommitInterval(locks, tid, oldTs, ts))
  {
    if l :| l in locks && Moves(l, tid, oldTs) {
      CommitKeepsOrderIff(locks, tid, oldTs, ts);
    } else {
      var r := CommitInterval(locks, tid, oldTs, ts);
      forall i | 0 <= i < |locks| ensures r[i].start == locks[i].start {
        assert locks[i] in locks;
      }
    }
  }

  /** Settling at a committed transaction's timestamp keeps order and exclusion: the timestamp lies in its locks. */
  lemma SettleKeeps(txns: Txns, locks: S.LockSeq, tid: TransactionId, oldTs: Instant)
    requires Orderly(locks) && AllOwned(txns, locks) && tid in txns && txns[tid].start == txns[tid].finish
    requires OrderSafe(locks, tid, oldTs, txns[tid].start)
    ensures CommitInside(locks, tid, oldTs, txns[tid].start)
    ensures Orderly(CommitInterval(locks, tid, oldTs, txns[tid].start))
  {
    CommitKeepsExclusion(locks, tid, oldTs, txns[tid].start);
    SettleKeepsOrder(locks, tid, oldTs, txns[tid].start);
  }

  lemma StepKeepsOrder(place: Placement, sys: System, op: Op, k: Key)
    requires Intervals(sys.txns) && Owned(place, sys) && Orderly(EntryOf(place, sys.servers, k).locks)
    requires Enabled(place, sys, op) && MeetsNested(place, sys, op) && MeetsOrder(place, sys, op)
    ensures Orderly(EntryAfter(place, sys, op, k).locks)
  {
    var e := EntryOf(place, sys.servers, k);
    assert AllOwned(sys.txns, e.locks);
    match op
    case Read(t, j) =>
      if j == k {
        LockReadKeeps(e.locks, t, S.ReadRequest(e.versions, sys.txns[t].start, sys.txns[t].finish, S.LOCK_FIRST_INTERVAL));
      }
    case Write(t, j, _) =>
      if j == k && !PendsWrite(place, sys, t, k) {
        LockWriteKeeps(e.locks, t, Interval(MIN_TIMESTAMP, sys.txns[t].start, sys.txns[t].finish));
      }
    case PersistWrite(t, j) => if j == k { SettleKeeps(sys.txns, e.locks, t, WriteStart(place, sys, t, k)); }
    case PersistRead(t, j) => if j == k { SettleKeeps(sys.txns, e.locks, t, ReadStart(place, sys, t, k)); }
    case AbortWrite(t, j) => if j == k { RemoveLockKeeps(e.locks, t, WriteStart(place, sys, t, k)); }
    case AbortRead(t, j) => if j == k { RemoveLockKeeps(e.locks, t, ReadStart(place, sys, t, k)); }
    case Collect(j, ts) => if j == k { GarbageCollectionIsSound(e.locks, ts); }
    case _ =>
  }

  lemma {:induction false} RunKeepsOrder(place: Placement, g: Guards, ops: seq<Op>)
    requires Legal(place, ops) && Guarded(place, g, ops) && g.nested && g.order
    ensures AllOrderly(place, Run(place, ops))
  {
    if ops == [] {
      assert forall k :: EntryOf(place, START.servers, k) == S.FRESH_ENTRY;
    } else {
      var sys := Run(place, ops[..|ops| - 1]);
      var op := ops[|ops| - 1];
      RunKeepsOrder(place, g, ops[..|ops| - 1]);
      RunKeepsBase(place, ops[..|ops| - 1]);
      forall k ensures Orderly(EntryOf(place, Next(place, sys, op).servers, k).locks) {
        StepEntry(place, sys, op, k);
        StepKeepsOrder(place, sys, op, k);
      }
    }
  }

  /** Two locks that cover a common timestamp, a read and another transaction's write, cannot be in one exclusive list. */
  lemma NoSharedTimestamp(locks: seq<Lock>, r: Lock, w: Lock, t: Timestamp)
    requires Exclusive(locks) && r in locks && w in locks && r.op == READ && w.op == WRITE
    requires Covers(r, t) && Covers(w, t)
    ensures r.tid == w.tid
  {
    OverlapMeansCommonTimestamp(r, w);
    assert !Conflicting(r, w);
  }

  /**
    In every reachable state every lock list is sorted between its sentinels, and no timestamp is covered by a
    read lock and by another transaction's write lock.
   */
  lemma ExclusionInEveryState(place: Placement, ops: seq<Op>, k: Key)
    requires Legal(place, ops) && Guarded(place, EXCLUSION, ops)
    ensures var locks := EntryOf(place, Run(place, ops).servers, k).locks;
      && Bounded(locks) && Sorted(locks)
      && forall r, w, t: Timestamp ::
           (r in locks && w in locks && r.op == READ && w.op == WRITE && Covers(r, t) && Covers(w, t) ==> r.tid == w.tid)
  {
    var sys := Run(place, ops);
    RunKeepsOrder(place, EXCLUSION, ops);
    var locks := EntryOf(place, sys.servers, k).locks;
    assert Orderly(locks);
    forall r, w, t: Timestamp | r in locks && w in locks && r.op == READ && w.op == WRITE && Covers(r, t) && Covers(w, t)
      ensures r.tid == w.tid
    {
      NoSharedTimestamp(locks, r, w, t);
    }
  }
}
