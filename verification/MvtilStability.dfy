/**
  Read locks fence off the versions they protect. This needs order and exclusion, and that collection stays below
  unfinished transactions; it does not need commit timestamps to be distinct.
 */
module MvtilStability {
  import opened Common
  import opened SortedMap
  import opened LockList
  import opened LockSafety
  import opened LockRemoval
  import opened MvtilRuns
  import opened MvtilSteps
  import opened MvtilBase
  import opened MvtilExclusion
  import opened MvtilVersions
  import S = MvtilServer

  // ----- the invariant

  /** A version inside a read lock was committed by the lock's own transaction. */
  ghost predicate Fenced(txns: Txns, k: Key, l: Lock, x: Timestamp) {
    l.op == READ && Covers(l, x) ==> Writer(txns, l.tid, k, x)
  }

  ghost predicate Fences(txns: Txns, k: Key, e: S.Entry) {
    forall l, x :: l in e.locks && x in e.versions && Inner(x) ==> Fenced(txns, k, l, x)
  }

  ghost predicate AllFenced(place: Placement, sys: System) {
    forall k :: Fences(sys.txns, k, EntryOf(place, sys.servers, k))
  }

  ghost predicate HasReadLock(locks: seq<Lock>, tid: TransactionId, start: int) {
    exists l :: l in locks && l.tid == tid && l.op == READ && l.start == start
  }

  ghost predicate HasWriteLock(locks: seq<Lock>, tid: TransactionId) {
    exists l :: l in locks && l.tid == tid && l.op == WRITE && Inner(l.start)
  }

  /** A transaction is still to commit, or has committed above everything that was collected. */
  predicate Live(sys: System, t: TransactionId) {
    t in sys.txns && sys.txns[t].phase != Aborted && sys.watermark < sys.txns[t].finish
  }

  /** What a live transaction has read or written is locked by it. */
  ghost predicate Protected(place: Placement, sys: System) {
    forall t, k :: Live(sys, t) ==>
      && (k in sys.txns[t].readSet ==>
            HasReadLock(EntryOf(place, sys.servers, k).locks, t, sys.txns[t].readSet[k].version + 1))
      && (k in sys.txns[t].writeSet ==> HasWriteLock(EntryOf(place, sys.servers, k).locks, t))
  }

  ghost predicate Recent(sys: System) {
    forall t :: Unfinished(sys, t) ==> t in sys.txns && sys.watermark < sys.txns[t].start
  }

  ghost predicate Stable(place: Placement, sys: System) {
    AllFenced(place, sys) && Protected(place, sys) && Recent(sys)
  }

  // ----- fences

  /** A recorded write is protected by a lock that covers the start of its transaction. */
  lemma WriteLockCovers(place: Placement, sys: System, t: TransactionId, k: Key) returns (l: Lock)
    requires Owned(place, sys) && Protected(place, sys) && Live(sys, t) && k in sys.txns[t].writeSet
    ensures l in EntryOf(place, sys.servers, k).locks && l.tid == t && l.op == WRITE
    ensures l.start <= sys.txns[t].start && sys.txns[t].finish <= l.finish
  {
    var locks := EntryOf(place, sys.servers, k).locks;
    assert AllOwned(sys.txns, locks) && HasWriteLock(locks, t);
    l :| l in locks && l.tid == t && l.op == WRITE && Inner(l.start);
  }

  /** The read lock of a live transaction covers everything from behind the version it read to its interval's end. */
  lemma ReadLockCovers(place: Placement, sys: System, t: TransactionId, k: Key) returns (l: Lock)
    requires Owned(place, sys) && Protected(place, sys) && Live(sys, t) && k in sys.txns[t].readSet
    ensures l in EntryOf(place, sys.servers, k).locks && l.tid == t && l.op == READ
    ensures l.start == sys.txns[t].readSet[k].version + 1 && sys.txns[t].finish <= l.finish < MAX_TIMESTAMP
  {
    var locks := EntryOf(place, sys.servers, k).locks;
    assert AllOwned(sys.txns, locks) && HasReadLock(locks, t, sys.txns[t].readSet[k].version + 1);
    l :| l in locks && l.tid == t && l.op == READ && l.start == sys.txns[t].readSet[k].version + 1;
    ReadLocksAreInner(locks, l);
  }

  lemma ReadLocksAreInner(locks: S.LockSeq, l: Lock)
    requires l in locks && l.op == READ
    ensures Inner(l.start) && l.finish < MAX_TIMESTAMP
  {
  }

  /** A transaction with an unfinished write is live. */
  lemma PendingIsLive(place: Placement, sys: System, t: TransactionId, k: Key)
    requires Intervals(sys.txns) && RecordsOk(place, sys) && Recent(sys)
    requires PendsWrite(place, sys, t, k) && t in sys.txns && sys.txns[t].phase != Aborted
    ensures Live(sys, t) && k in sys.txns[t].writeSet
  {
    assert t in Srv(sys.servers, place(k)).pendingWriteSets;
    assert Unfinished(sys, t);
    assert RecordOk(place, sys, place(k), t, k, S.WriteSet(Srv(sys.servers, place(k)), t)[k].value);
  }

  /** A read is granted no version that the list holds. */
  lemma GrantMeetsNoVersion(place: Placement, sys: System, t: TransactionId, k: Key, x: Timestamp)
    requires Enabled(place, sys, Read(t, k)) && x in EntryOf(place, sys.servers, k).versions
    ensures !Covers(ReadLock(t, ReadGrant(place, sys, t, k)), x)
  {
    ReadGrantFacts(place, sys, t, k);
  }

  /** A settled lock covers no more than the lock it was. */
  lemma SettledComesFrom(place: Placement, sys: System, op: Op, k: Key, l: Lock, x: Timestamp) returns (m: Lock)
    requires Intervals(sys.txns) && Owned(place, sys) && Enabled(place, sys, op)
    requires JustSettled(place, sys, op, l, k) && l.op == READ && Covers(l, x)
    ensures m in EntryOf(place, sys.servers, k).locks && m.op == READ && m.tid == l.tid && Covers(m, x)
  {
    var locks := EntryOf(place, sys.servers, k).locks;
    m :| m in locks && m.tid == op.tid && Inner(m.start) && l == Settle(m, sys.txns[op.tid].start);
    assert AllOwned(sys.txns, locks);
  }

  /** A read lock that covers a version after a step grew out of one that covered it before. */
  lemma CoverComesFrom(place: Placement, sys: System, op: Op, k: Key, l: Lock, x: Timestamp) returns (m: Lock)
    requires Intervals(sys.txns) && Owned(place, sys) && Enabled(place, sys, op)
    requires l in EntryOf(place, Next(place, sys, op).servers, k).locks && x in EntryAfter(place, sys, op, k).versions
    requires l.op == READ && Covers(l, x)
    ensures m in EntryOf(place, sys.servers, k).locks && m.op == READ && m.tid == l.tid && Covers(m, x)
  {
    StepLocks(place, sys, op, l, k);
    m := l;
    if l !in EntryOf(place, sys.servers, k).locks {
      if JustSettled(place, sys, op, l, k) {
        m := SettledComesFrom(place, sys, op, k, l, x);
      } else if op == Read(l.tid, k) {
        GrantMeetsNoVersion(place, sys, l.tid, k, x);
      }
    }
  }

  lemma StepKeepsFence(place: Placement, sys: System, op: Op, k: Key, l: Lock, x: Timestamp)
    requires Base(place, sys) && AllOrderly(place, sys) && AllFenced(place, sys) && Protected(place, sys) && Recent(sys)
    requires Enabled(place, sys, op)
    requires l in EntryOf(place, Next(place, sys, op).servers, k).locks
    requires x in EntryAfter(place, sys, op, k).versions && Inner(x)
    ensures Fenced(Next(place, sys, op).txns, k, l, x)
  {
    if l.op == READ && Covers(l, x) {
      var m := CoverComesFrom(place, sys, op, k, l, x);
      StepVersions(place, sys, op, k, x);
      if x in EntryOf(place, sys.servers, k).versions {
        assert Fences(sys.txns, k, EntryOf(place, sys.servers, k)) && Fenced(sys.txns, k, m, x);
        WriterStays(place, sys, op, m.tid, k, x);
      } else {
        PersistMeetsOwnReads(place, sys, op.tid, k, m);
        WriterStays(place, sys, op, op.tid, k, x);
      }
    }
  }

  /** A commit that is being persisted lies in no read lock of another transaction. */
  lemma PersistMeetsOwnReads(place: Placement, sys: System, t: TransactionId, k: Key, m: Lock)
    requires Base(place, sys) && AllOrderly(place, sys) && Protected(place, sys) && Recent(sys)
    requires In(sys, t, Committed) && PendsWrite(place, sys, t, k)
    requires m in EntryOf(place, sys.servers, k).locks && m.op == READ && Covers(m, sys.txns[t].start)
    ensures m.tid == t && Writer(sys.txns, t, k, sys.txns[t].start)
  {
    PendingIsLive(place, sys, t, k);
    var w := WriteLockCovers(place, sys, t, k);
    assert Orderly(EntryOf(place, sys.servers, k).locks);
    NoSharedTimestamp(EntryOf(place, sys.servers, k).locks, m, w, sys.txns[t].start);
  }

  lemma StepKeepsFences(place: Placement, sys: System, op: Op, k: Key)
    requires Base(place, sys) && AllOrderly(place, sys) && AllFenced(place, sys) && Protected(place, sys) && Recent(sys)
    requires Enabled(place, sys, op)
    ensures Fences(Next(place, sys, op).txns, k, EntryOf(place, Next(place, sys, op).servers, k))
  {
    var e := EntryAfter(place, sys, op, k);
    StepEntry(place, sys, op, k);
    forall l, x | l in e.locks && x in e.versions && Inner(x) ensures Fenced(Next(place, sys, op).txns, k, l, x) {
      StepKeepsFence(place, sys, op, k, l, x);
    }
  }

  // ----- protection

  lemma {:induction false} LiveMembers(locks: seq<Lock>, ts: Timestamp)
    ensures forall l :: l in LockRemoval.Live(locks, ts) <==> l in locks && ts < l.finish
  {
    if locks != [] {
      LiveMembers(locks[1..], ts);
      assert locks == [locks[0]] + locks[1..];
    }
  }

  /** Collection leaves every lock that ends above ts. */
  lemma CollectKeepsLock(locks: S.LockSeq, ts: Instant, l: Lock)
    requires l in locks && ts < l.finish
    ensures l in GarbageCollection(locks, ts)
  {
    GarbageCollectionIsSound(locks, ts);
    LiveMembers(locks, ts);
    LiveMembers(GarbageCollection(locks, ts), ts);
    assert l in LockRemoval.Live(locks, ts);
  }

  lemma RemovalKeepsLock(locks: S.LockSeq, tid: TransactionId, oldTs: Instant, l: Lock)
    requires Sorted(locks) && l in locks && l.tid != tid
    ensures l in RemoveLock(locks, tid, oldTs)
  {
    RemoveLockIsWithout(locks, tid, oldTs);
    WithoutMembers(locks, tid, {oldTs});
  }

  /** m does the same work for its transaction as l: a read lock with the same start, or a write lock. */
  predicate Replaces(m: Lock, l: Lock) {
    m.tid == l.tid && m.op == l.op && (if l.op == READ then m.start == l.start else Inner(m.start))
  }

  lemma SettlingKeepsLock(locks: S.LockSeq, tid: TransactionId, oldTs: Instant, ts: Instant, l: Lock) returns (m: Lock)
    requires l in locks && Inner(l.start)
    ensures m in CommitInterval(locks, tid, oldTs, ts) && Replaces(m, l)
  {
    SettledMembers(locks, tid, oldTs, ts);
    m := if l in CommitInterval(locks, tid, oldTs, ts) then l else Settle(l, ts);
  }

  lemma PersistKeepsLock(place: Placement, sys: System, op: Op, k: Key, l: Lock) returns (m: Lock)
    requires Enabled(place, sys, op) && (op.PersistWrite? || op.PersistRead?) && op.key == k
    requires l in EntryOf(place, sys.servers, k).locks && Inner(l.start)
    ensures m in EntryAfter(place, sys, op, k).locks && Replaces(m, l)
  {
    var oldTs := if op.PersistWrite? then WriteStart(place, sys, op.tid, k) else ReadStart(place, sys, op.tid, k);
    m := SettlingKeepsLock(EntryOf(place, sys.servers, k).locks, op.tid, oldTs, sys.txns[op.tid].start, l);
  }

  lemma GrantKeepsLock(place: Placement, sys: System, op: Op, k: Key, l: Lock)
    requires Enabled(place, sys, op) && (op.Read? || op.Write?) && l in EntryOf(place, sys.servers, k).locks
    ensures l in EntryAfter(place, sys, op, k).locks
  {
    if op.Read? && op.key == k {
      ReadGrantFacts(place, sys, op.tid, k);
    } else if op.Write? && op.key == k && !PendsWrite(place, sys, op.tid, k) {
      WriteGrantFacts(place, sys, op.tid, k);
    }
  }

  /** Aborts leave other transactions' locks, and collection leaves what ends above the watermark. */
  lemma DropKeepsLock(place: Placement, sys: System, op: Op, k: Key, l: Lock)
    requires Enabled(place, sys, op) && (op.AbortWrite? || op.AbortRead? || op.Collect?)
    requires Sorted(EntryOf(place, sys.servers, k).locks) && l in EntryOf(place, sys.servers, k).locks
    requires if op.Collect? then op.ts < l.finish else op.tid != l.tid
    ensures l in EntryAfter(place, sys, op, k).locks
  {
    var locks := EntryOf(place, sys.servers, k).locks;
    if op.key == k {
      match op
      case AbortWrite(t, _) => RemovalKeepsLock(locks, t, WriteStart(place, sys, t, k), l);
      case AbortRead(t, _) => RemovalKeepsLock(locks, t, ReadStart(place, sys, t, k), l);
      case Collect(_, ts) => CollectKeepsLock(locks, ts, l);
    }
  }

  /** The locks of a transaction that is live after a step survive it. */
  lemma LiveLockSurvives(place: Placement, sys: System, op: Op, k: Key, l: Lock) returns (m: Lock)
    requires Owned(place, sys) && AllOrderly(place, sys) && Enabled(place, sys, op)
    requires l in EntryOf(place, sys.servers, k).locks && Inner(l.start)
    requires l.tid in sys.txns && sys.txns[l.tid].phase != Aborted
    requires Next(place, sys, op).watermark < sys.txns[l.tid].finish
    ensures m in EntryOf(place, Next(place, sys, op).servers, k).locks && Replaces(m, l)
  {
    StepEntry(place, sys, op, k);
    assert AllOwned(sys.txns, EntryOf(place, sys.servers, k).locks) && Orderly(EntryOf(place, sys.servers, k).locks);
    m := l;
    if op.Read? || op.Write? {
      GrantKeepsLock(place, sys, op, k, l);
    } else if (op.PersistWrite? || op.PersistRead?) && op.key == k {
      m := PersistKeepsLock(place, sys, op, k, l);
    } else if op.AbortWrite? || op.AbortRead? || op.Collect? {
      DropKeepsLock(place, sys, op, k, l);
    }
  }

  /** A transaction that is live after a step was live before it, or has just begun. */
  lemma LiveBefore(place: Placement, sys: System, op: Op, t: TransactionId)
    requires Intervals(sys.txns) && Enabled(place, sys, op) && Live(Next(place, sys, op), t)
    ensures if t in sys.txns then Live(sys, t) && Next(place, sys, op).watermark < sys.txns[t].finish
            else op.Begin? && op.tid == t
  {
    StepTxn(place, sys, op, t);
    if t in sys.txns {
      StepNarrows(place, sys, op, t, sys.txns[t].start, sys.txns[t].finish);
    }
  }

  /** A read leaves its lock on the key. */
  lemma ReadIsProtected(place: Placement, sys: System, t: TransactionId, k: Key)
    requires Enabled(place, sys, Read(t, k))
    ensures HasReadLock(EntryAfter(place, sys, Read(t, k), k).locks, t, ReadVersion(place, sys, t, k) + 1)
  {
    ReadGrantFacts(place, sys, t, k);
    assert ReadLock(t, ReadGrant(place, sys, t, k)) in ReadGrant(place, sys, t, k).locks;
  }

  lemma ReadLockStays(place: Placement, sys: System, op: Op, t: TransactionId, k: Key)
    requires Owned(place, sys) && AllOrderly(place, sys) && Protected(place, sys) && Enabled(place, sys, op)
    requires Live(sys, t) && k in sys.txns[t].readSet && Next(place, sys, op).watermark < sys.txns[t].finish
    ensures HasReadLock(EntryOf(place, Next(place, sys, op).servers, k).locks, t, sys.txns[t].readSet[k].version + 1)
  {
    var l := ReadLockCovers(place, sys, t, k);
    ReadLocksAreInner(EntryOf(place, sys.servers, k).locks, l);
    var m := LiveLockSurvives(place, sys, op, k, l);
  }

  lemma ReadStaysProtected(place: Placement, sys: System, op: Op, t: TransactionId, k: Key)
    requires Base(place, sys) && AllOrderly(place, sys) && Protected(place, sys) && Enabled(place, sys, op)
    requires Live(Next(place, sys, op), t) && k in Next(place, sys, op).txns[t].readSet
    ensures HasReadLock(EntryOf(place, Next(place, sys, op).servers, k).locks, t, Next(place, sys, op).txns[t].readSet[k].version + 1)
  {
    LiveBefore(place, sys, op, t);
    StepRecords(place, sys, op, t, k);
    if op == Read(t, k) {
      StepEntry(place, sys, op, k);
      ReadIsProtected(place, sys, t, k);
    } else {
      ReadLockStays(place, sys, op, t, k);
    }
  }

  lemma WriteStaysProtected(place: Placement, sys: System, op: Op, t: TransactionId, k: Key)
    requires Base(place, sys) && AllOrderly(place, sys) && Protected(place, sys) && Enabled(place, sys, op)
    requires Live(Next(place, sys, op), t) && k in Next(place, sys, op).txns[t].writeSet
    ensures HasWriteLock(EntryOf(place, Next(place, sys, op).servers, k).locks, t)
  {
    LiveBefore(place, sys, op, t);
    StepTxn(place, sys, op, t);
    if op.Write? && op.tid == t && op.key == k && !PendsWrite(place, sys, t, k) {
      StepEntry(place, sys, op, k);
      WriteGrantFacts(place, sys, t, k);
      assert WriteLock(t, WriteGrant(place, sys, t, k)) in WriteGrant(place, sys, t, k).locks;
    } else {
      assert op.Write? && op.tid == t && op.key == k ==>
          RecordOk(place, sys, place(k), t, k, S.WriteSet(Srv(sys.servers, place(k)), t)[k].value);
      assert HasWriteLock(EntryOf(place, sys.servers, k).locks, t);
      var l :| l in EntryOf(place, sys.servers, k).locks && l.tid == t && l.op == WRITE && Inner(l.start);
      var m := LiveLockSurvives(place, sys, op, k, l);
    }
  }

  // ----- the watermark

  /** Unfinished after a step means unfinished before it, with a start that has not fallen, or just begun. */
  lemma UnfinishedBefore(place: Placement, sys: System, op: Op, t: TransactionId)
    requires Intervals(sys.txns) && Enabled(place, sys, op) && Unfinished(Next(place, sys, op), t)
    ensures Unfinished(sys, t) || (op.Begin? && op.tid == t)
    ensures t in sys.txns ==> t in Next(place, sys, op).txns && sys.txns[t].start <= Next(place, sys, op).txns[t].start
  {
    var after := Next(place, sys, op);
    StepTxn(place, sys, op, t);
    if t in sys.txns {
      StepNarrows(place, sys, op, t, sys.txns[t].start, sys.txns[t].finish);
    }
    if !In(after, t, Active) {
      var s :| t in Srv(after.servers, s).pendingWriteSets;
      StepWriteSet(place, sys, op, s, t);
    }
  }

  lemma StepKeepsRecent(place: Placement, sys: System, op: Op)
    requires Intervals(sys.txns) && Recent(sys) && Enabled(place, sys, op) && MeetsWatermark(sys, op)
    ensures Recent(Next(place, sys, op))
  {
    forall t | Unfinished(Next(place, sys, op), t)
      ensures t in Next(place, sys, op).txns && Next(place, sys, op).watermark < Next(place, sys, op).txns[t].start
    {
      UnfinishedBefore(place, sys, op, t);
      StepTxn(place, sys, op, t);
    }
  }

  // ----- over runs

  lemma StepKeepsStable(place: Placement, sys: System, op: Op)
    requires Base(place, sys) && AllOrderly(place, sys) && Stable(place, sys)
    requires Enabled(place, sys, op) && MeetsWatermark(sys, op)
    ensures Stable(place, Next(place, sys, op))
  {
    var after := Next(place, sys, op);
    forall k ensures Fences(after.txns, k, EntryOf(place, after.servers, k)) {
      StepKeepsFences(place, sys, op, k);
    }
    forall t, k | Live(after, t) && k in after.txns[t].readSet
      ensures HasReadLock(EntryOf(place, after.servers, k).locks, t, after.txns[t].readSet[k].version + 1)
    {
      ReadStaysProtected(place, sys, op, t, k);
    }
    forall t, k | Live(after, t) && k in after.txns[t].writeSet ensures HasWriteLock(EntryOf(place, after.servers, k).locks, t) {
      WriteStaysProtected(place, sys, op, t, k);
    }
    StepKeepsRecent(place, sys, op);
  }

  lemma {:induction false} RunKeepsStable(place: Placement, g: Guards, ops: seq<Op>)
    requires Legal(place, ops) && Guarded(place, g, ops) && g.nested && g.order && g.watermark
    ensures Stable(place, Run(place, ops))
  {
    if ops == [] {
      assert forall k :: EntryOf(place, START.servers, k) == S.FRESH_ENTRY;
    } else {
      RunKeepsStable(place, g, ops[..|ops| - 1]);
      RunKeepsBase(place, ops[..|ops| - 1]);
      RunKeepsOrder(place, g, ops[..|ops| - 1]);
      StepKeepsStable(place, Run(place, ops[..|ops| - 1]), ops[|ops| - 1]);
    }
  }

  // ----- stable reads

  /** A version inside the read lock of a live transaction is that transaction's own, above everything collected. */
  lemma VersionInOwnLock(place: Placement, sys: System, t: TransactionId, k: Key, l: Lock, x: Timestamp)
    requires Base(place, sys) && AllFenced(place, sys) && Live(sys, t)
    requires l in EntryOf(place, sys.servers, k).locks && l.tid == t && l.op == READ && Covers(l, x)
    requires x in EntryOf(place, sys.servers, k).versions && Inner(x)
    ensures Writer(sys.txns, t, k, x) && sys.watermark < x
  {
    assert Fences(sys.txns, k, EntryOf(place, sys.servers, k)) && Fenced(sys.txns, k, l, x);
  }

  /** What a live transaction has read is still there. */
  lemma ReadVersionStays(place: Placement, sys: System, t: TransactionId, k: Key, l: Lock)
    requires Base(place, sys) && AllFenced(place, sys) && ReadsKept(place, sys)
    requires Live(sys, t) && k in sys.txns[t].readSet
    requires l in EntryOf(place, sys.servers, k).locks && l.tid == t && l.op == READ
    requires l.start == sys.txns[t].readSet[k].version + 1 && sys.txns[t].finish <= l.finish
    ensures sys.txns[t].readSet[k].version in EntryOf(place, sys.servers, k).versions
  {
    var e := EntryOf(place, sys.servers, k);
    var w := sys.txns[t].readSet[k].version;
    assert Kept(e.versions, w, sys.watermark);
    if w !in e.versions {
      var y :| y in e.versions && Inner(y) && w < y <= sys.watermark;
      VersionInOwnLock(place, sys, t, k, l, y);
    }
  }

  /** The versions that live transactions have read are there, with the values that were read. */
  ghost predicate Held(place: Placement, sys: System) {
    forall t, k :: Live(sys, t) && k in sys.txns[t].readSet ==>
      Lookup(EntryOf(place, sys.servers, k).versions, sys.txns[t].readSet[k].version) == Some(sys.txns[t].readSet[k].value)
  }

  lemma StepKeepsHeld(place: Placement, sys: System, op: Op, t: TransactionId, k: Key)
    requires Intervals(sys.txns) && Held(place, sys) && Enabled(place, sys, op)
    requires Live(Next(place, sys, op), t) && k in Next(place, sys, op).txns[t].readSet
    requires Next(place, sys, op).txns[t].readSet[k].version in EntryOf(place, Next(place, sys, op).servers, k).versions
    ensures var rd := Next(place, sys, op).txns[t].readSet[k];
      EntryOf(place, Next(place, sys, op).servers, k).versions[rd.version] == rd.value
  {
    LiveBefore(place, sys, op, t);
    StepRecords(place, sys, op, t, k);
    StepEntry(place, sys, op, k);
    StepVersions(place, sys, op, k, Next(place, sys, op).txns[t].readSet[k].version);
    if op == Read(t, k) {
      ReadGrantFacts(place, sys, t, k);
    }
  }

  lemma HeldFollows(place: Placement, sys: System, op: Op)
    requires Intervals(sys.txns) && Held(place, sys) && Enabled(place, sys, op)
    requires Base(place, Next(place, sys, op)) && Stable(place, Next(place, sys, op)) && ReadsKept(place, Next(place, sys, op))
    ensures Held(place, Next(place, sys, op))
  {
    var after := Next(place, sys, op);
    forall t, k | Live(after, t) && k in after.txns[t].readSet
      ensures Lookup(EntryOf(place, after.servers, k).versions, after.txns[t].readSet[k].version)
           == Some(after.txns[t].readSet[k].value)
    {
      var l := ReadLockCovers(place, after, t, k);
      ReadVersionStays(place, after, t, k, l);
      StepKeepsHeld(place, sys, op, t, k);
    }
  }

  lemma {:induction false} RunKeepsHeld(place: Placement, g: Guards, ops: seq<Op>)
    requires Legal(place, ops) && Guarded(place, g, ops) && g.nested && g.order && g.watermark
    ensures Base(place, Run(place, ops)) && Stable(place, Run(place, ops)) && Held(place, Run(place, ops))
  {
    RunKeepsBase(place, ops);
    RunKeepsStable(place, g, ops);
    if ops != [] {
      RunKeepsFacts(place, ops);
      RunKeepsHeld(place, g, ops[..|ops| - 1]);
      HeldFollows(place, Run(place, ops[..|ops| - 1]), ops[|ops| - 1]);
    }
  }

  /** ts is below t's own commit of k, if there is one. */
  predicate BelowOwnCommit(sys: System, t: TransactionId, k: Key, ts: Timestamp)
    requires t in sys.txns
  {
    Writer(sys.txns, t, k, sys.txns[t].start) ==> ts < sys.txns[t].start
  }

  /** l is the lock that t has taken for its read of k, and it is still in the list. */
  ghost predicate HoldsLock(place: Placement, sys: System, t: TransactionId, k: Key, l: Lock)
    requires t in sys.txns && k in sys.txns[t].readSet
  {
    && l in EntryOf(place, sys.servers, k).locks
    && l.tid == t && l.op == READ && l.start == sys.txns[t].readSet[k].version + 1
  }

  /** The lock keeps its version the answer of every lookup in it, short of t's own commit of k. */
  ghost predicate HoldsStill(place: Placement, sys: System, t: TransactionId, k: Key, l: Lock)
    requires t in sys.txns && k in sys.txns[t].readSet
  {
    var rd := sys.txns[t].readSet[k];
    var e := EntryOf(place, sys.servers, k);
    && HoldsLock(place, sys, t, k, l) && sys.txns[t].finish <= l.finish
    && Lookup(e.versions, rd.version) == Some(rd.value)
    && forall ts: Timestamp {:trigger BelowOwnCommit(sys, t, k, ts)} ::
         rd.version <= ts <= l.finish && BelowOwnCommit(sys, t, k, ts) ==> IsBelow(e.versions, ts + 1, rd.version)
  }

  lemma ReadStaysNewest(place: Placement, sys: System, t: TransactionId, k: Key, l: Lock, ts: Timestamp)
    requires AllFenced(place, sys) && t in sys.txns && k in sys.txns[t].readSet && HoldsLock(place, sys, t, k, l)
    requires sys.txns[t].readSet[k].version in EntryOf(place, sys.servers, k).versions
    requires sys.txns[t].readSet[k].version <= ts <= l.finish && BelowOwnCommit(sys, t, k, ts)
    ensures ts < MAX_TIMESTAMP && IsBelow(EntryOf(place, sys.servers, k).versions, ts + 1, sys.txns[t].readSet[k].version)
  {
    var e := EntryOf(place, sys.servers, k);
    var w := sys.txns[t].readSet[k].version;
    ReadLocksAreInner(e.locks, l);
    forall x | x in e.versions && x < ts + 1 ensures x <= w {
      assert w < x ==> Fences(sys.txns, k, e) && Fenced(sys.txns, k, l, x);
    }
  }

  lemma LockHoldsStill(place: Placement, sys: System, t: TransactionId, k: Key, l: Lock)
    requires Owned(place, sys) && AllFenced(place, sys) && t in sys.txns && k in sys.txns[t].readSet
    requires Lookup(EntryOf(place, sys.servers, k).versions, sys.txns[t].readSet[k].version) == Some(sys.txns[t].readSet[k].value)
    requires HoldsLock(place, sys, t, k, l)
    ensures HoldsStill(place, sys, t, k, l)
  {
    ReadLocksAreInner(EntryOf(place, sys.servers, k).locks, l);
    assert AllOwned(sys.txns, EntryOf(place, sys.servers, k).locks) && LockOwned(sys.txns, l);
    forall ts: Timestamp | sys.txns[t].readSet[k].version <= ts <= l.finish && BelowOwnCommit(sys, t, k, ts)
      ensures IsBelow(EntryOf(place, sys.servers, k).versions, ts + 1, sys.txns[t].readSet[k].version)
    {
      ReadStaysNewest(place, sys, t, k, l, ts);
    }
  }

  /** A live transaction holds such a lock. */
  lemma ReadHoldsStill(place: Placement, sys: System, t: TransactionId, k: Key) returns (l: Lock)
    requires Base(place, sys) && Stable(place, sys) && Held(place, sys) && Live(sys, t) && k in sys.txns[t].readSet
    ensures HoldsStill(place, sys, t, k, l)
  {
    l := ReadLockCovers(place, sys, t, k);
    LockHoldsStill(place, sys, t, k, l);
  }

  /** A run that never collects meets the watermark guard. */
  lemma {:induction false} CollectionFreeMeetsWatermark(place: Placement, g: Guards, ops: seq<Op>)
    requires Legal(place, ops) && CollectionFree(ops) && Guarded(place, g, ops)
    ensures Run(place, ops).watermark == MIN_TIMESTAMP && Guarded(place, g.(watermark := true), ops)
  {
    if ops != [] {
      CollectionFreeMeetsWatermark(place, g, ops[..|ops| - 1]);
    }
  }

  /** Without collection every version that was read is there, with the value that was read, whoever has read it. */
  lemma {:induction false} ReadValuesStay(place: Placement, ops: seq<Op>, t: TransactionId, k: Key)
    requires Legal(place, ops) && CollectionFree(ops)
    requires t in Run(place, ops).txns && k in Run(place, ops).txns[t].readSet
    ensures var rd := Run(place, ops).txns[t].readSet[k];
      Lookup(EntryOf(place, Run(place, ops).servers, k).versions, rd.version) == Some(rd.value)
  {
    if ops != [] {
      var before := ops[..|ops| - 1];
      var sys, op := Run(place, before), ops[|ops| - 1];
      StepRecords(place, sys, op, t, k);
      StepEntry(place, sys, op, k);
      if op == Read(t, k) {
        ReadGrantFacts(place, sys, t, k);
      } else {
        ReadValuesStay(place, before, t, k);
      }
    }
  }

  /**
    In a run without collection that meets the two guards of exclusion: as long as the lock of a read is in the list,
    even when its transaction has aborted, the version it returned stays the answer of the lookup at every timestamp of
    the lock below a commit of its own, whatever others lock, commit or abort. Unless it has aborted, the transaction
    holds such a lock.
   */
  lemma ReadsAreStable(place: Placement, ops: seq<Op>, t: TransactionId, k: Key)
    requires Legal(place, ops) && Guarded(place, EXCLUSION, ops) && CollectionFree(ops)
    requires t in Run(place, ops).txns && k in Run(place, ops).txns[t].readSet
    ensures forall l :: HoldsLock(place, Run(place, ops), t, k, l) ==> HoldsStill(place, Run(place, ops), t, k, l)
    ensures Run(place, ops).txns[t].phase != Aborted ==> exists l :: HoldsStill(place, Run(place, ops), t, k, l)
  {
    var sys := Run(place, ops);
    CollectionFreeMeetsWatermark(place, EXCLUSION, ops);
    RunKeepsHeld(place, EXCLUSION.(watermark := true), ops);
    ReadValuesStay(place, ops, t, k);
    forall l | HoldsLock(place, sys, t, k, l) ensures HoldsStill(place, sys, t, k, l) {
      LockHoldsStill(place, sys, t, k, l);
    }
    if sys.txns[t].phase != Aborted {
      var l := ReadHoldsStill(place, sys, t, k);
    }
  }

  /** With collections below the watermark guard the same holds for every live transaction. */
  lemma ReadsAreStableUnderCollection(place: Placement, g: Guards, ops: seq<Op>, t: TransactionId, k: Key)
    requires Legal(place, ops) && Guarded(place, g, ops) && g.nested && g.order && g.watermark
    requires Live(Run(place, ops), t) && k in Run(place, ops).txns[t].readSet
    ensures exists l :: HoldsStill(place, Run(place, ops), t, k, l)
  {
    RunKeepsHeld(place, g, ops);
    var l := ReadHoldsStill(place, Run(place, ops), t, k);
  }
}
