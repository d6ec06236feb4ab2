/**
  When the lock manager has to grant a request on a sorted list, and how much of it, in terms of the timestamps that
  other locks cover.
 */
module LockGrants {
  import opened Common
  import opened LinearSearch
  import opened LockList
  import opened LockSafety

  // ----- LockReadInterval

  /** The lock keeps a read lock that begins at lockStart from reaching start. */
  predicate Bars(lock: Lock, lockStart: Timestamp, start: Timestamp) {
    (lock.op == WRITE && Covers(lock, lockStart)) || lockStart < lock.start <= start
  }

  /**
    A read is refused exactly when a write lock covers the timestamp where its lock would begin, or some lock begins
    behind that and at or before the start of the request. A granted lock reaches the end of the request or the next lock.
   */
  lemma ReadIsRefusedIff(locks: seq<Lock>, tid: TransactionId, c: Interval)
    requires Bounded(locks) && Sorted(locks) && MIN_TIMESTAMP < c.lockStart && c.start <= c.finish
    ensures var g := LockRead(locks, tid, c);
      && (!g.ok <==> exists l :: l in locks && Bars(l, c.lockStart, c.start))
      && (g.ok ==> g.interval.finish == c.finish || exists l :: l in locks && l.start == g.interval.finish + 1)
  {
    var g := LockRead(locks, tid, c);
    var p := Find(locks, c.lockStart);
    TailConflicts(locks, c.lockStart);
    if ReadConflict(locks, c.lockStart) {
      var i :| 0 < i <= p && locks[i].op == WRITE && c.lockStart <= locks[i].finish;
      SortedFind(locks, c.lockStart, i);
      assert locks[i] in locks && Bars(locks[i], c.lockStart, c.start);
    } else {
      SortedFind(locks, c.lockStart, p + 1);
      assert locks[p + 1] in locks;
      forall l | l in locks && Bars(l, c.lockStart, c.start) ensures locks[p + 1].start <= c.start {
        var i :| 0 <= i < |locks| && locks[i] == l;
        SortedFind(locks, c.lockStart, i);
      }
    }
  }

  // ----- LockWriteInterval

  /** A read lock of another transaction covers the timestamp. */
  ghost predicate Taken(locks: seq<Lock>, tid: TransactionId, x: Timestamp) {
    exists l :: l in locks && ForeignRead(l, tid) && Covers(l, x)
  }

  /** The scan gives up only what is taken. */
  lemma {:induction false} GivesUpTaken(
      locks: seq<Lock>, tid: TransactionId, start: Timestamp, finish: Timestamp, bound: Timestamp, i: nat, x: Timestamp)
    requires Bounded(locks) && 0 < i <= |locks| && MIN_TIMESTAMP <= start <= x <= finish && bound < MAX_TIMESTAMP
    ensures var n := Narrow(locks, tid, start, finish, bound, i);
      (n.ok && n.start <= x <= n.finish) || Taken(locks, tid, x)
    decreases |locks| - i
  {
    if i < |locks| && locks[i].start <= bound {
      assert locks[i] in locks;
      if !ForeignRead(locks[i], tid) || !Intersects(start, finish, locks[i]) {
        GivesUpTaken(locks, tid, start, finish, bound, i + 1, x);
      } else if Covers(locks[i], x) {
      } else if locks[i].start <= start {
        GivesUpTaken(locks, tid, locks[i].finish + 1, finish, bound, i + 1, x);
      } else if finish <= locks[i].finish {
        GivesUpTaken(locks, tid, start, locks[i].start - 1, bound, i + 1, x);
      } else {
        GivesUpTaken(locks, tid, start, finish, bound, i + 1, x);
      }
    }
  }

  /** No foreign read lock at a position from lo up to hi covers the timestamp. */
  ghost predicate FreeIn(locks: seq<Lock>, tid: TransactionId, hi: nat, x: Timestamp) {
    forall j :: 0 <= j < hi && j < |locks| && ForeignRead(locks[j], tid) ==> !Covers(locks[j], x)
  }

  /** On a sorted list, where the scan's candidate begins is not taken. */
  lemma {:induction false} BeginsFree(
      locks: seq<Lock>, tid: TransactionId, start: Timestamp, finish: Timestamp, bound: Timestamp, i: nat)
    requires Bounded(locks) && Sorted(locks) && 0 < i <= |locks|
    requires MIN_TIMESTAMP <= start <= finish <= bound < MAX_TIMESTAMP && FreeIn(locks, tid, i, start)
    ensures var n := Narrow(locks, tid, start, finish, bound, i);
      n.start <= n.finish && (n.ok ==> FreeIn(locks, tid, |locks|, n.start))
    decreases |locks| - i
  {
    if i < |locks| && locks[i].start <= bound {
      if !ForeignRead(locks[i], tid) || !Intersects(start, finish, locks[i]) {
        BeginsFree(locks, tid, start, finish, bound, i + 1);
      } else if locks[i].start <= start && finish <= locks[i].finish {
      } else if locks[i].start <= start {
        BeginsFree(locks, tid, locks[i].finish + 1, finish, bound, i + 1);
      } else if finish <= locks[i].finish {
        BeginsFree(locks, tid, start, locks[i].start - 1, bound, i + 1);
      } else {
        BeginsFree(locks, tid, start, finish, bound, i + 1);
      }
    }
  }

  /** A write is refused exactly when every timestamp of the request is taken, and is granted all that is not. */
  lemma WriteIsRefusedIff(locks: seq<Lock>, tid: TransactionId, c: Interval)
    requires Bounded(locks) && Sorted(locks) && MIN_TIMESTAMP < c.start <= c.finish < MAX_TIMESTAMP
    ensures var g := LockWrite(locks, tid, c);
      && (!g.ok <==> forall x: Timestamp :: c.start <= x <= c.finish ==> Taken(locks, tid, x))
      && (g.ok ==> forall x: Timestamp :: c.start <= x <= c.finish && !Taken(locks, tid, x) ==>
            g.interval.start <= x <= g.interval.finish)
  {
    var g := LockWrite(locks, tid, c);
    var n := Narrow(locks, tid, c.start, c.finish, c.finish, 1);
    BeginsFree(locks, tid, c.start, c.finish, c.finish, 1);
    NarrowAvoidsReads(locks, tid, c.start, c.finish, c.finish, 1);
    forall x: Timestamp | c.start <= x <= c.finish
      ensures (n.ok && n.start <= x <= n.finish) || Taken(locks, tid, x)
    {
      GivesUpTaken(locks, tid, c.start, c.finish, c.finish, 1, x);
    }
    if n.ok {
      assert !Taken(locks, tid, n.start);
    }
  }
}
