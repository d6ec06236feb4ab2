/**
  What the operations on a sorted lock list guarantee: order, exclusion between read locks and the write locks
  of other transactions, and exactly when a commit keeps the order.
 */
module LockSafety {
  import opened Common
  import opened LinearSearch
  import opened LockList

  ghost predicate Sorted(locks: seq<Lock>) {
    forall i, j :: 0 <= i < j < |locks| ==> locks[i].start <= locks[j].start
  }

  predicate Covers(lock: Lock, t: Timestamp) {
    lock.start <= t <= lock.finish
  }

  /** The two locks have a timestamp in common. */
  predicate Overlap(a: Lock, b: Lock) {
    a.start <= a.finish && b.start <= b.finish && a.start <= b.finish && b.start <= a.finish
  }

  lemma OverlapMeansCommonTimestamp(a: Lock, b: Lock)
    ensures Overlap(a, b) <==> exists t: Timestamp :: Covers(a, t) && Covers(b, t)
  {
    if Overlap(a, b) {
      var t: Timestamp := if a.start < b.start then b.start else a.start;
      assert Covers(a, t) && Covers(b, t);
    }
  }

  predicate Conflicting(a: Lock, b: Lock) {
    a.op == READ && b.op == WRITE && a.tid != b.tid && Overlap(a, b)
  }

  /** No timestamp is covered by a read lock and by another transaction's write lock. */
  ghost predicate Exclusive(locks: seq<Lock>) {
    forall a, b :: a in locks && b in locks ==> !Conflicting(a, b)
  }

  lemma SortedFind(locks: seq<Lock>, bound: int, i: nat)
    requires Sorted(locks) && i < |locks| && locks[0].start <= bound
    ensures i <= Find(locks, bound) <==> locks[i].start <= bound
  {
    StopSplits(Starts(locks), bound, i);
  }

  lemma InsertMembers(locks: seq<Lock>, p: nat, lock: Lock)
    requires p < |locks|
    ensures forall x :: x in Insert(locks, p, lock) <==> x == lock || x in locks
  {
    var r := Insert(locks, p, lock);
    assert r[p + 1] == lock;
    forall x | x in locks ensures x in r {
      var i :| 0 <= i < |locks| && locks[i] == x;
      assert x == r[if i <= p then i else i + 1];
    }
  }

  lemma InsertKeepsBounds(locks: seq<Lock>, p: nat, lock: Lock)
    requires Bounded(locks) && p + 1 < |locks| && InRange(lock)
    ensures Bounded(Insert(locks, p, lock))
  {
  }

  /** The walk stops before the tail when the bound is below the tail's timestamp. */
  lemma StopsBeforeTail(locks: seq<Lock>, bound: Timestamp)
    requires Bounded(locks) && bound < MAX_TIMESTAMP
    ensures Find(locks, bound) + 1 < |locks|
  {
  }

  lemma InsertKeepsOrder(locks: seq<Lock>, lock: Lock)
    requires locks != [] && Sorted(locks) && locks[0].start <= lock.start
    ensures Sorted(Insert(locks, Find(locks, lock.start), lock))
  {
    forall i | 0 <= i < |locks| ensures i <= Find(locks, lock.start) <==> locks[i].start <= lock.start {
      SortedFind(locks, lock.start, i);
    }
  }

  lemma InsertKeepsExclusion(locks: seq<Lock>, p: nat, lock: Lock)
    requires p < |locks| && Exclusive(locks)
    requires forall x :: x in locks ==> !Conflicting(x, lock) && !Conflicting(lock, x)
    ensures Exclusive(Insert(locks, p, lock))
  {
    InsertMembers(locks, p, lock);
  }

  // ----- LockReadInterval

  /** The lock that a successful LockReadInterval inserts. */
  function ReadLock(tid: TransactionId, g: Granted): Lock {
    Lock(tid, g.interval.lockStart, g.interval.finish, READ, false)
  }

  /** A granted read lock shares no timestamp with any write lock; a refusal leaves the list unchanged. */
  lemma ReadLockAvoidsWrites(locks: seq<Lock>, tid: TransactionId, c: Interval)
    requires Bounded(locks) && Sorted(locks) && MIN_TIMESTAMP < c.lockStart
    ensures var g := LockRead(locks, tid, c);
      && (g.ok ==>
            && (forall w :: w in locks && w.op == WRITE ==> !Overlap(ReadLock(tid, g), w))
            && g.interval.lockStart == c.lockStart && g.interval.start == c.start <= g.interval.finish <= c.finish
            && g.locks == Insert(locks, Find(locks, c.lockStart), ReadLock(tid, g))
            && Find(locks, c.lockStart) + 1 < |locks|)
      && (!g.ok ==> g.locks == locks)
  {
    var g := LockRead(locks, tid, c);
    if g.ok {
      TailConflicts(locks, c.lockStart);
      forall w | w in locks && w.op == WRITE ensures !Overlap(ReadLock(tid, g), w) {
        var i :| 0 <= i < |locks| && locks[i] == w;
        SortedFind(locks, c.lockStart, i);
      }
    }
  }

  lemma LockReadKeeps(locks: seq<Lock>, tid: TransactionId, c: Interval)
    requires Bounded(locks) && Sorted(locks) && Exclusive(locks)
    requires MIN_TIMESTAMP < c.lockStart && c.finish < MAX_TIMESTAMP
    ensures var r := LockRead(locks, tid, c).locks; Bounded(r) && Sorted(r) && Exclusive(r)
  {
    var g := LockRead(locks, tid, c);
    var lock := ReadLock(tid, g);
    ReadLockAvoidsWrites(locks, tid, c);
    if g.ok {
      var p := Find(locks, c.lockStart);
      SortedFind(locks, c.lockStart, |locks| - 1);
      InsertKeepsBounds(locks, p, lock);
      InsertKeepsOrder(locks, lock);
      forall x | x in locks ensures !Conflicting(x, lock) && !Conflicting(lock, x) {
        assert x.op == WRITE ==> !Overlap(lock, x);
      }
      InsertKeepsExclusion(locks, p, lock);
    }
  }

  // ----- LockWriteInterval

  /** The one case that the scan has no branch for: a foreign read lock strictly inside the request. */
  predicate StrictlyInside(lock: Lock, start: Timestamp, finish: Timestamp) {
    start < lock.start && lock.finish < finish
  }

  function WriteLock(tid: TransactionId, g: Granted): Lock {
    Lock(tid, g.interval.start, g.interval.finish, WRITE, false)
  }

  /** How many locks a scan from i visits. */
  function Scanned(locks: seq<Lock>, bound: Timestamp, i: nat): (n: nat)
    requires i <= |locks|
    ensures i + n <= |locks|
    ensures i + n < |locks| ==> bound < locks[i + n].start
    decreases |locks| - i
  {
    if i == |locks| || bound < locks[i].start then 0 else 1 + Scanned(locks, bound, i + 1)
  }

  predicate ForeignRead(lock: Lock, tid: TransactionId) {
    lock.tid != tid && lock.op == READ
  }

  /** The scan only narrows, and what it leaves meets a scanned foreign read lock only if that one was strictly inside. */
  lemma {:induction false} NarrowAvoidsReads(
      locks: seq<Lock>, tid: TransactionId, start: Timestamp, finish: Timestamp, bound: Timestamp, i: nat)
    requires Bounded(locks) && 0 < i <= |locks| && MIN_TIMESTAMP <= start && bound < MAX_TIMESTAMP
    ensures var n := Narrow(locks, tid, start, finish, bound, i);
      && start <= n.start && n.finish <= finish
      && (n.ok && n.start <= n.finish ==>
            forall j :: i <= j < i + Scanned(locks, bound, i) && ForeignRead(locks[j], tid) ==>
              StrictlyInside(locks[j], start, finish) || !Intersects(n.start, n.finish, locks[j]))
    decreases |locks| - i
  {
    if i == |locks| || bound < locks[i].start {
    } else if locks[i].tid != tid && locks[i].op == READ && Intersects(start, finish, locks[i]) {
      if locks[i].start <= start && finish <= locks[i].finish {
      } else if locks[i].start <= start {
        NarrowAvoidsReads(locks, tid, locks[i].finish + 1, finish, bound, i + 1);
      } else if finish <= locks[i].finish {
        NarrowAvoidsReads(locks, tid, start, locks[i].start - 1, bound, i + 1);
      } else {
        NarrowAvoidsReads(locks, tid, start, finish, bound, i + 1);
      }
    } else {
      NarrowAvoidsReads(locks, tid, start, finish, bound, i + 1);
    }
  }

  /** A granted write lock lies inside the request and is inserted where the search for its start stops. */
  lemma WriteLockShape(locks: seq<Lock>, tid: TransactionId, c: Interval)
    requires Bounded(locks) && MIN_TIMESTAMP < c.start && c.finish < MAX_TIMESTAMP
    ensures var g := LockWrite(locks, tid, c);
      && (g.ok ==>
            && c.start <= g.interval.start <= g.interval.finish <= c.finish
            && Find(locks, g.interval.start) + 1 < |locks|
            && g.locks == Insert(locks, Find(locks, g.interval.start), WriteLock(tid, g)))
      && (!g.ok ==> g.locks == locks)
  {
    var g := LockWrite(locks, tid, c);
    NarrowAvoidsReads(locks, tid, c.start, c.finish, c.finish, 1);
    if g.ok {
      StopsBeforeTail(locks, g.interval.start);
    }
  }

  /** Behind the last scanned lock of a sorted list, everything starts above the bound. */
  lemma ScanIsComplete(locks: seq<Lock>, bound: Timestamp, i: nat)
    requires Sorted(locks) && i <= |locks|
    ensures forall j :: i + Scanned(locks, bound, i) <= j < |locks| ==> bound < locks[j].start
  {
    var n := i + Scanned(locks, bound, i);
    forall j | n <= j < |locks| ensures bound < locks[j].start {
      assert n == j || locks[n].start <= locks[j].start;
    }
  }

  /** A granted write lock meets only those foreign read locks that are strictly inside the request. */
  lemma WriteLockAvoidsReads(locks: seq<Lock>, tid: TransactionId, c: Interval, r: Lock)
    requires Bounded(locks) && Sorted(locks) && MIN_TIMESTAMP < c.start && c.finish < MAX_TIMESTAMP
    requires LockWrite(locks, tid, c).ok && r in locks && ForeignRead(r, tid)
    requires Overlap(r, WriteLock(tid, LockWrite(locks, tid, c)))
    ensures StrictlyInside(r, c.start, c.finish)
  {
    WriteLockShape(locks, tid, c);
    NarrowAvoidsReads(locks, tid, c.start, c.finish, c.finish, 1);
    var j :| 0 <= j < |locks| && locks[j] == r;
    ScanIsComplete(locks, c.finish, 1);
  }

  /** The candidate when the scan of LockWriteInterval comes to position j. */
  function CandidateAt(locks: seq<Lock>, tid: TransactionId, start: Timestamp, finish: Timestamp, j: nat): (n: Candidate)
    requires Bounded(locks) && 0 < j <= |locks| && MIN_TIMESTAMP <= start
    ensures start <= n.start && n.finish <= finish
  {
    if j == 1 then
      Candidate(true, start, finish)
    else
      var n := CandidateAt(locks, tid, start, finish, j - 1);
      var lock := locks[j - 1];
      if !n.ok || lock.tid == tid || lock.op != READ || !Intersects(n.start, n.finish, lock) then n
      else if lock.start <= n.start && n.finish <= lock.finish then Candidate(false, n.start, n.finish)
      else if lock.start <= n.start then Candidate(true, lock.finish + 1, n.finish)
      else if n.finish <= lock.finish then Candidate(true, n.start, lock.start - 1)
      else n
  }

  /** The scan that continues from the candidate at any position it comes to ends as the whole scan does. */
  lemma {:induction false} ScanContinues(locks: seq<Lock>, tid: TransactionId, c: Interval, j: nat)
    requires Bounded(locks) && 0 < j <= |locks| && MIN_TIMESTAMP <= c.start && c.finish < MAX_TIMESTAMP
    requires forall i :: 0 < i < j ==> locks[i].start <= c.finish
    ensures var n := CandidateAt(locks, tid, c.start, c.finish, j);
      Narrow(locks, tid, c.start, c.finish, c.finish, 1)
      == if n.ok then Narrow(locks, tid, n.start, n.finish, c.finish, j) else n
  {
    if j > 1 {
      ScanContinues(locks, tid, c, j - 1);
    }
  }

  /** A later foreign read lock with the same start cuts the candidate's end off, together with the lock at j. */
  predicate CutBehind(locks: seq<Lock>, tid: TransactionId, j: nat, finish: Timestamp)
    requires j < |locks|
  {
    exists i :: j < i < |locks| && ForeignRead(locks[i], tid) && locks[i].start == locks[j].start && finish <= locks[i].finish
  }

  /**
    Behind a lock strictly inside the candidate, a sorted scan never cuts from the left, and it cuts that lock off
    exactly when a lock with the same start reaches the candidate's end.
   */
  lemma {:induction false} ScanBehind(
      locks: seq<Lock>, tid: TransactionId, start: Timestamp, finish: Timestamp, bound: Timestamp, i: nat, r: Lock)
    requires Bounded(locks) && Sorted(locks) && 0 < i <= |locks| && MIN_TIMESTAMP <= start
    requires finish <= bound < MAX_TIMESTAMP && start < r.start <= finish
    requires forall m :: i <= m < |locks| ==> r.start <= locks[m].start
    ensures var n := Narrow(locks, tid, start, finish, bound, i);
      && n.ok && n.start == start && r.start - 1 <= n.finish
      && (n.finish < r.start <==>
            exists m :: i <= m < |locks| && ForeignRead(locks[m], tid) && locks[m].start == r.start && finish <= locks[m].finish)
    decreases |locks| - i
  {
    if i == |locks| || bound < locks[i].start {
      forall m | i <= m < |locks| ensures locks[m].start != r.start {
        assert i == m || locks[i].start <= locks[m].start;
      }
    } else if ForeignRead(locks[i], tid) && Intersects(start, finish, locks[i]) && finish <= locks[i].finish {
      if locks[i].start == r.start {
        CutScan(locks, tid, start, r.start - 1, bound, i + 1);
      } else {
        ScanBehind(locks, tid, start, locks[i].start - 1, bound, i + 1, r);
        forall m | i <= m < |locks| ensures locks[m].start != r.start {
          assert i == m || locks[i].start <= locks[m].start;
        }
      }
    } else {
      ScanBehind(locks, tid, start, finish, bound, i + 1, r);
    }
  }

  /** When all locks to come start behind the candidate, it stays as it is. */
  lemma {:induction false} CutScan(
      locks: seq<Lock>, tid: TransactionId, start: Timestamp, finish: Timestamp, bound: Timestamp, i: nat)
    requires Bounded(locks) && 0 < i <= |locks| && MIN_TIMESTAMP <= start && bound < MAX_TIMESTAMP
    requires forall m :: i <= m < |locks| ==> finish < locks[m].start
    ensures Narrow(locks, tid, start, finish, bound, i) == Candidate(true, start, finish)
    decreases |locks| - i
  {
    if i < |locks| && locks[i].start <= bound {
      CutScan(locks, tid, start, finish, bound, i + 1);
    }
  }

  /**
    The case that LockWriteInterval has no branch for: when the scan comes to j, a non-empty foreign read lock lies
    strictly inside the candidate, and no later one with the same start cuts it off.
   */
  ghost predicate Overrun(locks: seq<Lock>, tid: TransactionId, c: Interval, j: nat)
    requires Bounded(locks) && 0 < j < |locks| && MIN_TIMESTAMP <= c.start
  {
    var n := CandidateAt(locks, tid, c.start, c.finish, j);
    && n.ok && ForeignRead(locks[j], tid) && locks[j].start <= locks[j].finish
    && StrictlyInside(locks[j], n.start, n.finish) && !CutBehind(locks, tid, j, n.finish)
  }

  ghost predicate Overruns(locks: seq<Lock>, tid: TransactionId, c: Interval)
    requires Bounded(locks) && MIN_TIMESTAMP <= c.start
  {
    exists j :: 0 < j < |locks| && Overrun(locks, tid, c, j)
  }

  /** The whole scan, seen from the position of a lock that it comes to. */
  lemma ScanFrom(locks: seq<Lock>, tid: TransactionId, c: Interval, j: nat)
    requires Bounded(locks) && Sorted(locks) && MIN_TIMESTAMP < c.start && c.finish < MAX_TIMESTAMP
    requires LockWrite(locks, tid, c).ok && 0 < j < |locks| && locks[j].start <= c.finish
    ensures var n := CandidateAt(locks, tid, c.start, c.finish, j);
      n.ok && Narrow(locks, tid, c.start, c.finish, c.finish, 1) == Narrow(locks, tid, n.start, n.finish, c.finish, j)
  {
    forall i | 0 < i < j ensures locks[i].start <= c.finish {
      assert locks[i].start <= locks[j].start;
    }
    ScanContinues(locks, tid, c, j);
  }

  /** On a sorted list a granted write lock meets a foreign read lock exactly when it overruns it. */
  lemma GrantMeetsReadIff(locks: seq<Lock>, tid: TransactionId, c: Interval, j: nat)
    requires Bounded(locks) && Sorted(locks) && MIN_TIMESTAMP < c.start && c.finish < MAX_TIMESTAMP
    requires LockWrite(locks, tid, c).ok && 0 < j < |locks| && ForeignRead(locks[j], tid)
    ensures Overlap(locks[j], WriteLock(tid, LockWrite(locks, tid, c))) <==> Overrun(locks, tid, c, j)
  {
    var r := locks[j];
    var n := CandidateAt(locks, tid, c.start, c.finish, j);
    if c.finish < r.start {
      WriteLockShape(locks, tid, c);
    } else {
      ScanFrom(locks, tid, c, j);
      if StrictlyInside(r, n.start, n.finish) && r.start <= r.finish {
        ScanBehind(locks, tid, n.start, n.finish, c.finish, j + 1, r);
      } else {
        NarrowAvoidsReads(locks, tid, n.start, n.finish, c.finish, j);
      }
    }
  }

  /** A grant on a sorted, exclusive list keeps exclusion exactly when it overruns no foreign read lock. */
  lemma GrantKeepsExclusionIff(locks: seq<Lock>, tid: TransactionId, c: Interval)
    requires Bounded(locks) && Sorted(locks) && Exclusive(locks)
    requires MIN_TIMESTAMP < c.start && c.finish < MAX_TIMESTAMP && LockWrite(locks, tid, c).ok
    ensures Exclusive(LockWrite(locks, tid, c).locks) <==> !Overruns(locks, tid, c)
  {
    var g := LockWrite(locks, tid, c);
    var lock := WriteLock(tid, g);
    WriteLockShape(locks, tid, c);
    InsertMembers(locks, Find(locks, g.interval.start), lock);
    if Overruns(locks, tid, c) {
      var j :| 0 < j < |locks| && Overrun(locks, tid, c, j);
      GrantMeetsReadIff(locks, tid, c, j);
      assert locks[j] in g.locks && lock in g.locks && Conflicting(locks[j], lock);
    } else {
      forall r | r in locks ensures !Conflicting(r, lock) {
        var j :| 0 <= j < |locks| && locks[j] == r;
        if 0 < j && ForeignRead(r, tid) {
          GrantMeetsReadIff(locks, tid, c, j);
        }
      }
      InsertKeepsExclusion(locks, Find(locks, g.interval.start), lock);
    }
  }

  /** A write request that encloses no foreign read lock overruns none. */
  lemma NothingInsideIsOverrun(locks: seq<Lock>, tid: TransactionId, c: Interval)
    requires Bounded(locks) && MIN_TIMESTAMP <= c.start
    requires forall r :: r in locks && ForeignRead(r, tid) && r.start <= r.finish ==> !StrictlyInside(r, c.start, c.finish)
    ensures !Overruns(locks, tid, c)
  {
    forall j | 0 < j < |locks| ensures !Overrun(locks, tid, c, j) {
      assert locks[j] in locks;
    }
  }

  lemma LockWriteKeeps(locks: seq<Lock>, tid: TransactionId, c: Interval)
    requires Bounded(locks) && Sorted(locks) && Exclusive(locks)
    requires MIN_TIMESTAMP < c.start && c.finish < MAX_TIMESTAMP && !Overruns(locks, tid, c)
    ensures var r := LockWrite(locks, tid, c).locks; Bounded(r) && Sorted(r) && Exclusive(r)
  {
    var g := LockWrite(locks, tid, c);
    WriteLockShape(locks, tid, c);
    if g.ok {
      InsertKeepsBounds(locks, Find(locks, g.interval.start), WriteLock(tid, g));
      InsertKeepsOrder(locks, WriteLock(tid, g));
      GrantKeepsExclusionIff(locks, tid, c);
    }
  }

  /** A nested read lock need not be overrun: the second lock cuts the candidate off in front of the first. */
  lemma NestedReadMayBeCutOff()
    ensures var locks := [HEAD, Lock(1, 5, 6, READ, false), Lock(3, 5, 20, READ, false), TAIL];
      var g := LockWrite(locks, 2, Interval(MIN_TIMESTAMP, 3, 10));
      && Bounded(locks) && Sorted(locks) && StrictlyInside(locks[1], 3, 10)
      && g.ok && WriteLock(2, g) == Lock(2, 3, 4, WRITE, false) && Exclusive(g.locks)
  {
    var locks := [HEAD, Lock(1, 5, 6, READ, false), Lock(3, 5, 20, READ, false), TAIL];
    assert Narrow(locks, 2, 3, 4, 10, 3) == Candidate(true, 3, 4);
    assert Narrow(locks, 2, 3, 10, 10, 2) == Candidate(true, 3, 4);
    assert LockWrite(locks, 2, Interval(MIN_TIMESTAMP, 3, 10)).ok;
    assert CutBehind(locks, 2, 1, 10) by { assert ForeignRead(locks[2], 2); }
    assert !Overrun(locks, 2, Interval(MIN_TIMESTAMP, 3, 10), 1);
    assert CandidateAt(locks, 2, 3, 10, 2) == Candidate(true, 3, 10);
    assert !Overruns(locks, 2, Interval(MIN_TIMESTAMP, 3, 10));
    GrantKeepsExclusionIff(locks, 2, Interval(MIN_TIMESTAMP, 3, 10));
  }

  // ----- CommitInterval

  predicate Own(lock: Lock, tid: TransactionId, oldTs: Timestamp) {
    lock.tid == tid && lock.start == oldTs
  }

  /** The commit timestamp lies in each lock that the commit touches; a read lock only has to reach it. */
  ghost predicate CommitInside(locks: seq<Lock>, tid: TransactionId, oldTs: Timestamp, ts: Timestamp) {
    forall l :: l in locks && Own(l, tid, oldTs) ==> ts <= l.finish && (l.op == WRITE ==> l.start <= ts)
  }

  lemma CommitBlockIsComplete(locks: seq<Lock>, oldTs: Timestamp)
    requires Bounded(locks) && Sorted(locks) && MIN_TIMESTAMP < oldTs
    ensures var p := Find(locks, oldTs - 1);
      forall j :: 0 <= j < |locks| ==> (locks[j].start == oldTs <==> p + 1 <= j < BlockEnd(locks, oldTs, p + 1))
  {
    var p := Find(locks, oldTs - 1);
    var e := BlockEnd(locks, oldTs, p + 1);
    forall j | 0 <= j < |locks| ensures locks[j].start == oldTs <==> p + 1 <= j < e {
      SortedFind(locks, oldTs - 1, j);
      if e <= j {
        assert locks[e].start <= locks[j].start;
        SortedFind(locks, oldTs - 1, e);
      }
    }
  }

  /** The lock after a commit at ts: a write lock covers ts alone, and a read lock ends there. */
  predicate EndsAt(after: Lock, before: Lock, ts: Timestamp) {
    && after.tid == before.tid && after.op == before.op && after.committed && after.finish == ts
    && after.start == (if before.op == READ then before.start else ts)
  }

  /** The commit has ended the locks of tid that start at oldTs, and every other lock is unchanged and in its place. */
  ghost predicate EndedOwn(before: seq<Lock>, after: seq<Lock>, tid: TransactionId, oldTs: Timestamp, ts: Timestamp) {
    && |after| == |before|
    && forall i :: 0 <= i < |after| ==> if Own(before[i], tid, oldTs) then EndsAt(after[i], before[i], ts) else after[i] == before[i]
  }

  lemma CommitSettlesExactly(locks: seq<Lock>, tid: TransactionId, oldTs: Timestamp, ts: Timestamp)
    requires Bounded(locks) && Sorted(locks) && MIN_TIMESTAMP < oldTs
    ensures EndedOwn(locks, CommitInterval(locks, tid, oldTs, ts), tid, oldTs, ts)
  {
    CommitBlockIsComplete(locks, oldTs);
  }

  /** A read lock covers afterwards exactly the timestamps it covered up to the commit, and a write lock exactly the commit. */
  lemma CommitReleases(locks: seq<Lock>, tid: TransactionId, oldTs: Timestamp, ts: Timestamp, i: nat, x: Timestamp)
    requires Bounded(locks) && Sorted(locks) && MIN_TIMESTAMP < oldTs && CommitInside(locks, tid, oldTs, ts)
    requires i < |locks|
    ensures var r := CommitInterval(locks, tid, oldTs, ts);
      Covers(r[i], x)
      <==> if !Own(locks[i], tid, oldTs) then Covers(locks[i], x)
           else if locks[i].op == READ then Covers(locks[i], x) && x <= ts
           else x == ts
  {
    CommitSettlesExactly(locks, tid, oldTs, ts);
    assert locks[i] in locks;
  }

  lemma CommitKeepsBounds(locks: seq<Lock>, tid: TransactionId, oldTs: Timestamp, ts: Timestamp)
    requires Bounded(locks) && MIN_TIMESTAMP < oldTs < MAX_TIMESTAMP && MIN_TIMESTAMP < ts < MAX_TIMESTAMP
    ensures Bounded(CommitInterval(locks, tid, oldTs, ts))
  {
  }

  /** What a commit may make of a lock: the lock itself, or, for one of the transaction that reaches ts, the settled lock. */
  predicate MaySettle(before: Lock, after: Lock, ts: Timestamp) {
    || after == before
    || (after == Settle(before, ts) && ts <= before.finish && (before.op == WRITE ==> before.start <= ts))
  }

  /** Settling makes no conflict: a settled lock covers no more than it did. */
  lemma SettlingIsHarmless(a: Lock, b: Lock, a': Lock, b': Lock, ts: Timestamp)
    requires !Conflicting(a, b) && MaySettle(a, a', ts) && MaySettle(b, b', ts)
    ensures !Conflicting(a', b')
  {
  }

  lemma CommitKeepsExclusion(locks: seq<Lock>, tid: TransactionId, oldTs: Timestamp, ts: Timestamp)
    requires locks != [] && Exclusive(locks) && CommitInside(locks, tid, oldTs, ts)
    ensures Exclusive(CommitInterval(locks, tid, oldTs, ts))
  {
    var r := CommitInterval(locks, tid, oldTs, ts);
    forall i | 0 <= i < |r| ensures MaySettle(locks[i], r[i], ts) {
      assert locks[i] in locks;
    }
    forall a, b | a in r && b in r ensures !Conflicting(a, b) {
      var i :| 0 <= i < |r| && r[i] == a;
      var j :| 0 <= j < |r| && r[j] == b;
      SettlingIsHarmless(locks[i], locks[j], a, b, ts);
    }
  }

  /** The commit moves this lock: CommitInterval changes where it starts. */
  predicate Moves(lock: Lock, tid: TransactionId, oldTs: Timestamp) {
    Own(lock, tid, oldTs) && lock.op == WRITE
  }

  /** No lock behind a write lock that the commit moves, and not moved itself, starts below the commit timestamp. */
  ghost predicate OrderSafe(locks: seq<Lock>, tid: TransactionId, oldTs: Timestamp, ts: Timestamp) {
    forall i, j :: 0 <= i < j < |locks| && Moves(locks[i], tid, oldTs) && !Moves(locks[j], tid, oldTs) ==>
      ts <= locks[j].start
  }

  /** CommitInterval moves a write lock without repositioning it: the list stays sorted exactly under OrderSafe. */
  lemma CommitKeepsOrderIff(locks: seq<Lock>, tid: TransactionId, oldTs: Timestamp, ts: Timestamp)
    requires Bounded(locks) && Sorted(locks) && MIN_TIMESTAMP < oldTs <= ts
    ensures Sorted(CommitInterval(locks, tid, oldTs, ts)) <==> OrderSafe(locks, tid, oldTs, ts)
  {
    var r := CommitInterval(locks, tid, oldTs, ts);
    CommitBlockIsComplete(locks, oldTs);
    forall j | 0 <= j < |locks|
      ensures r[j].start == if Moves(locks[j], tid, oldTs) then ts else locks[j].start
    {
    }
    if Sorted(r) {
      forall i, j | 0 <= i < j < |locks| && Moves(locks[i], tid, oldTs) && !Moves(locks[j], tid, oldTs)
        ensures ts <= locks[j].start
      {
        assert r[i].start <= r[j].start;
      }
    }
  }

  /** The guard is needed: a commit at 8 moves the lock of 1 behind a lock that starts at 3; a later read misses it. */
  lemma MovedWriteIsMissed()
    ensures var locks := [HEAD, Lock(1, 2, 9, WRITE, false), Lock(2, 3, 9, WRITE, false), TAIL];
      var moved := CommitInterval(locks, 1, 2, 8);
      && Sorted(locks) && !OrderSafe(locks, 1, 2, 8)
      && moved == [HEAD, Lock(1, 8, 8, WRITE, true), Lock(2, 3, 9, WRITE, false), TAIL] && !Sorted(moved)
      && var g := LockRead(moved, 3, Interval(3, 3, 7));
         g.ok && Conflicting(ReadLock(3, g), moved[2])
  {
    var locks := [HEAD, Lock(1, 2, 9, WRITE, false), Lock(2, 3, 9, WRITE, false), TAIL];
    assert Starts(locks) == [0, 2, 3, MAX_TIMESTAMP];
    assert Stop(Starts(locks), 1, 0) == 0;
    assert BlockEnd(locks, 2, 1) == 2;
    var moved := CommitInterval(locks, 1, 2, 8);
    assert moved == [HEAD, Lock(1, 8, 8, WRITE, true), Lock(2, 3, 9, WRITE, false), TAIL];
    assert moved[1].start > moved[2].start;
    assert Stop(Starts(moved), 3, 0) == 0;
    assert Moves(locks[1], 1, 2) && !Moves(locks[2], 1, 2);
  }
}
