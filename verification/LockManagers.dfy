/**
  The lock manager of one key (server/LockManager.cpp): the linked list of interval locks that its methods rewire
  in place. Each method computes what LockList says, for any levels, and whether or not the list is sorted.
 */
module LockManagers {
  import opened Common
  import opened LinearSearch
  import opened Links
  import opened LockList
  import opened LockSafety
  import opened LockRemoval

  function StartOf(lock: Lock): int {
    lock.start
  }

  lemma KeysAreStarts(locks: seq<Lock>)
    ensures Keys(locks, StartOf) == Starts(locks)
  {
  }

  /** Where the lock of a request would end: before the next lock begins. */
  function ReadFinish(locks: seq<Lock>, c: Interval, p: nat): Timestamp
    requires p + 1 < |locks| && MIN_TIMESTAMP < locks[p + 1].start
  {
    Min(c.finish, locks[p + 1].start - 1)
  }

  /** When the search of LockReadInterval meets no conflict, it has stopped in front of another lock. */
  lemma SearchStops(locks: seq<Lock>, c: Interval)
    requires Bounded(locks) && !ReadConflict(locks, c.lockStart) && MIN_TIMESTAMP < c.lockStart
    ensures Find(locks, c.lockStart) + 1 < |locks| && c.lockStart < locks[Find(locks, c.lockStart) + 1].start
  {
    TailConflicts(locks, c.lockStart);
  }

  /** What LockReadInterval then does, in front of that lock. */
  lemma ReadGrantIs(locks: seq<Lock>, tid: TransactionId, c: Interval, p: nat)
    requires Bounded(locks) && !ReadConflict(locks, c.lockStart) && MIN_TIMESTAMP < c.lockStart
    requires p == Find(locks, c.lockStart) && p + 1 < |locks| && c.lockStart < locks[p + 1].start
    ensures var finish := ReadFinish(locks, c, p);
      LockRead(locks, tid, c)
      == if c.start <= finish then
           Granted(true, c.(finish := finish), Insert(locks, p, Lock(tid, c.lockStart, finish, READ, false)))
         else Granted(false, c.(finish := finish), locks)
  {
  }

  class LockManager {
    const head: Node<Lock>
    var size: int
    ghost var nodes: seq<Node<Lock>>
    ghost var locks: seq<Lock>
    ghost var Repr: set<object>

    /** The list is a chain between its sentinels and `size` counts the locks; nothing is said about their order. */
    ghost predicate Valid()
      reads this, Repr
    {
      && this in Repr && (forall i :: 0 <= i < |nodes| ==> nodes[i] in Repr)
      && Linked(nodes) && Hold(nodes, locks) && Bounded(locks)
      && head == nodes[0] && size == |locks| - 2
    }

    constructor ()
      ensures Valid() && fresh(Repr) && locks == NO_LOCKS
    {
      var first := new Node(HEAD, MAX_LEVEL);
      var last := new Node(TAIL, 1);
      head := first;
      size := 0;
      nodes := [first, last];
      locks := NO_LOCKS;
      Repr := {this, first, last};
      new;
      Redirect(first, last);
    }

    method GetSize() returns (n: int)
      requires Valid()
      ensures n == |locks| - 2
    {
      n := size;
    }

    /** The search loop that the other methods share. */
    method Search(bound: int) returns (node: Node<Lock>, ghost p: nat)
      requires Valid()
      ensures p == Find(locks, bound) && node == nodes[p] && LinkAt(nodes, p)
    {
      node, p := Descend(nodes, locks, head, StartOf, bound);
      KeysAreStarts(locks);
    }

    /** Links a new lock in behind `node`. */
    method Attach(ghost p: nat, node: Node<Lock>, lock: Lock, level: nat)
      requires Valid() && p + 1 < |nodes| && node == nodes[p] && 1 <= level <= MAX_LEVEL
      requires Bounded(Insert(locks, p, lock))
      modifies Repr
      ensures Valid() && fresh(Repr - old(Repr)) && locks == Insert(old(locks), p, lock)
    {
      var added := new Node(lock, level);
      Splice(nodes, locks, p, node, added);
      nodes := Added(nodes, p, added);
      locks := Insert(locks, p, lock);
      Repr := Repr + {added};
      size := size + 1;
    }

    /** Takes the lock behind `node` out. */
    method Detach(ghost p: nat, node: Node<Lock>)
      requires Valid() && p + 2 < |nodes| && node == nodes[p]
      requires Bounded(RemoveAt(locks, p + 1))
      modifies Repr
      ensures Valid() && Repr == old(Repr) && nodes == RemoveAt(old(nodes), p + 1) && locks == RemoveAt(old(locks), p + 1)
    {
      Unlink(nodes, locks, p, node);
      nodes := RemoveAt(nodes, p + 1);
      locks := RemoveAt(locks, p + 1);
      size := size - 1;
    }

    method LockReadInterval(tid: TransactionId, candidate: Interval, level: nat) returns (ok: bool, interval: Interval)
      requires Valid() && 1 <= level <= MAX_LEVEL
      requires MIN_TIMESTAMP < candidate.lockStart && candidate.finish < MAX_TIMESTAMP
      modifies Repr
      ensures Valid() && fresh(Repr - old(Repr))
      ensures Granted(ok, interval, locks) == LockRead(old(locks), tid, candidate)
    {
      interval := candidate;
      var conflict, node;
      ghost var p;
      conflict, node, p := SearchRead(candidate.lockStart);
      if conflict {
        return false, candidate;
      }
      SearchStops(locks, candidate);
      ReadGrantIs(locks, tid, candidate, p);
      ok, interval := LockBehind(p, node, tid, candidate, level);
    }

    /** LockReadInterval behind its search: the lock ends before the next one begins, unless nothing is left of it. */
    method LockBehind(ghost p: nat, node: Node<Lock>, tid: TransactionId, candidate: Interval, level: nat)
      returns (ok: bool, interval: Interval)
      requires Valid() && 1 <= level <= MAX_LEVEL && p + 1 < |nodes| && node == nodes[p]
      requires MIN_TIMESTAMP < candidate.lockStart < locks[p + 1].start && candidate.finish < MAX_TIMESTAMP
      modifies Repr
      ensures Valid() && fresh(Repr - old(Repr))
      ensures interval == candidate.(finish := ReadFinish(old(locks), candidate, p))
      ensures ok == (candidate.start <= interval.finish)
      ensures locks == if ok then Insert(old(locks), p, Lock(tid, candidate.lockStart, interval.finish, READ, false)) else old(locks)
    {
      assert LinkAt(nodes, p);
      var next := node.next[0];
      interval := candidate.(finish := Min(candidate.finish, next.item.start - 1));
      ok := interval.start <= interval.finish;
      if ok {
        var lock := Lock(tid, candidate.lockStart, interval.finish, READ, false);
        InsertKeepsBounds(locks, p, lock);
        Attach(p, node, lock, level);
      }
    }

    /** The search loop of LockReadInterval, which also looks for a write lock that reaches the timestamp. */
    method SearchRead(ts: Timestamp) returns (conflict: bool, node: Node<Lock>, ghost p: nat)
      requires Valid()
      ensures conflict == ReadConflict(locks, ts)
      ensures !conflict ==> p == Find(locks, ts) && node == nodes[p]
    {
      node, p := head, 0;
      conflict := false;
      assert LinkAt(nodes, 0);
      var level: int := head.topLevel - 1;
      while 0 <= level
        invariant -1 <= level < MAX_LEVEL && p < |nodes| && node == nodes[p] && LinkAt(nodes, p)
        invariant forall i :: 0 < i <= p ==> locks[i].start <= ts && !(locks[i].op == WRITE && ts <= locks[i].finish)
        invariant level == -1 && p + 1 < |nodes| ==> ts < locks[p + 1].start
      {
        while node.next[level] != null && node.next[level].item.start <= ts
          invariant p < |nodes| && node == nodes[p] && LinkAt(nodes, p)
          invariant forall i :: 0 < i <= p ==> locks[i].start <= ts && !(locks[i].op == WRITE && ts <= locks[i].finish)
          decreases |nodes| - p
        {
          if ts <= node.next[level].item.finish && node.next[level].item.op == WRITE {
            PassedIsFound(locks, ts, p + 1);
            return true, node, p;
          }
          node, p := node.next[level], p + 1;
        }
        level := level - 1;
      }
      StopIs(Starts(locks), ts, 0, p);
    }

    method LockWriteInterval(tid: TransactionId, candidate: Interval, level: nat) returns (ok: bool, interval: Interval)
      requires Valid() && 1 <= level <= MAX_LEVEL
      requires MIN_TIMESTAMP < candidate.start && candidate.finish < MAX_TIMESTAMP
      modifies Repr
      ensures Valid() && fresh(Repr - old(Repr))
      ensures Granted(ok, interval, locks) == LockWrite(old(locks), tid, candidate)
    {
      ok, interval := ScanReads(tid, candidate);
      WriteGrantIs(locks, tid, candidate);
      ok := ok && interval.start <= interval.finish;
      if ok {
        var node;
        ghost var p;
        node, p := Search(interval.start);
        Attach(p, node, Lock(tid, interval.start, interval.finish, WRITE, false), level);
      }
    }

    /** The level-0 scan of LockWriteInterval, which cuts the candidate at foreign read locks. */
    method ScanReads(tid: TransactionId, candidate: Interval) returns (ok: bool, interval: Interval)
      requires Valid() && MIN_TIMESTAMP < candidate.start && candidate.finish < MAX_TIMESTAMP
      ensures var n := Narrow(locks, tid, candidate.start, candidate.finish, candidate.finish, 1);
        ok == n.ok && interval == candidate.(start := n.start, finish := n.finish)
    {
      interval := candidate;
      var node := head;
      ghost var p := 0;
      assert LinkAt(nodes, 0);
      while node.next[0] != null && node.next[0].item.start <= candidate.finish
        invariant p < |nodes| && node == nodes[p] && LinkAt(nodes, p)
        invariant MIN_TIMESTAMP <= interval.start && interval.lockStart == candidate.lockStart
        invariant Narrow(locks, tid, candidate.start, candidate.finish, candidate.finish, 1)
               == Narrow(locks, tid, interval.start, interval.finish, candidate.finish, p + 1)
        decreases |nodes| - p
      {
        var lock := node.next[0].item;
        if lock.tid != tid && lock.op == READ {
          if Intersects(interval.start, interval.finish, lock) {
            if lock.start <= interval.start && interval.finish <= lock.finish {
              return false, interval;
            } else if lock.start <= interval.start {
              interval := interval.(start := lock.finish + 1);
            } else if interval.finish <= lock.finish {
              interval := interval.(finish := lock.start - 1);
            }
          }
        }
        node, p := node.next[0], p + 1;
        assert LinkAt(nodes, p);
      }
      ok := true;
    }

    method CommitInterval(tid: TransactionId, oldTs: Timestamp, commitTs: Timestamp)
      requires Valid() && MIN_TIMESTAMP < oldTs < MAX_TIMESTAMP && MIN_TIMESTAMP < commitTs < MAX_TIMESTAMP
      modifies Repr
      ensures Valid() && Repr == old(Repr)
      ensures locks == LockList.CommitInterval(old(locks), tid, oldTs, commitTs)
    {
      var node, p := Search(oldTs - 1);
      SettleRun(p + 1, node.next[0], tid, oldTs, commitTs);
    }

    /** The loop of CommitInterval, from position lo on. */
    method SettleRun(ghost lo: nat, first: Node?<Lock>, tid: TransactionId, oldTs: Timestamp, commitTs: Timestamp)
      requires Valid() && MIN_TIMESTAMP < oldTs < MAX_TIMESTAMP && MIN_TIMESTAMP < commitTs < MAX_TIMESTAMP
      requires 0 < lo <= |nodes| && first == (if lo < |nodes| then nodes[lo] else null)
      modifies Repr
      ensures Valid() && Repr == old(Repr)
      ensures locks == SettleRange(old(locks), lo, BlockEnd(old(locks), oldTs, lo), tid, commitTs)
    {
      var node := first;
      ghost var i := lo;
      SettleFromIsRange(locks, lo, tid, oldTs, commitTs);
      while node != null && node.item.start == oldTs
        invariant Valid() && Repr == old(Repr)
        invariant lo <= i <= |nodes| && node == (if i < |nodes| then nodes[i] else null)
        invariant SettleFrom(locks, i, tid, oldTs, commitTs) == SettleFrom(old(locks), lo, tid, oldTs, commitTs)
        decreases |nodes| - i
      {
        node := SettleOne(i, node, tid, commitTs);
        i := i + 1;
      }
    }

    /** One round of the loop of CommitInterval: settles the lock if it is the transaction's, and moves on. */
    method SettleOne(ghost i: nat, node: Node<Lock>, tid: TransactionId, commitTs: Timestamp) returns (next: Node?<Lock>)
      requires Valid() && i < |nodes| && node == nodes[i]
      requires locks[i].tid == tid ==> Bounded(locks[i := Settle(locks[i], commitTs)])
      modifies Repr
      ensures Valid() && Repr == old(Repr) && nodes == old(nodes)
      ensures locks == if old(locks)[i].tid == tid then old(locks)[i := Settle(old(locks)[i], commitTs)] else old(locks)
      ensures next == if i + 1 < |nodes| then nodes[i + 1] else null
    {
      if node.item.tid == tid {
        SetItem(i, node, Settle(node.item, commitTs));
      }
      assert LinkAt(nodes, i);
      next := node.next[0];
    }

    /** Overwrites a lock in place. */
    method SetItem(ghost i: nat, node: Node<Lock>, lock: Lock)
      requires Valid() && i < |nodes| && node == nodes[i] && Bounded(locks[i := lock])
      modifies Repr
      ensures Valid() && Repr == old(Repr) && nodes == old(nodes) && locks == old(locks)[i := lock]
    {
      node.item := lock;
      locks := locks[i := lock];
      forall j | 0 <= j < |nodes| ensures LinkAt(nodes, j) {
        assert old(LinkAt(nodes, j));
      }
    }

    method RemoveLock(tid: TransactionId, oldTs: Timestamp)
      requires Valid() && MIN_TIMESTAMP < oldTs < MAX_TIMESTAMP
      modifies Repr
      ensures Valid() && Repr == old(Repr)
      ensures locks == LockList.RemoveLock(old(locks), tid, oldTs)
    {
      var node, p := Search(oldTs - 1);
      while node.next[0] != null && node.next[0].item.start == oldTs
        invariant Valid() && Repr == old(Repr)
        invariant 0 <= p < |nodes| && node == nodes[p] && LinkAt(nodes, p)
        invariant RemoveFrom(locks, p, tid, oldTs) == LockList.RemoveLock(old(locks), tid, oldTs)
        decreases |nodes| - p
      {
        node, p := RemoveOne(p, node, tid, oldTs);
        assert LinkAt(nodes, p);
      }
    }

    /** One round of the loop of RemoveLock: takes the next lock out if it is the transaction's, or moves on to it. */
    method RemoveOne(ghost p: nat, current: Node<Lock>, tid: TransactionId, oldTs: Timestamp)
      returns (node: Node<Lock>, ghost q: nat)
      requires Valid() && MIN_TIMESTAMP < oldTs < MAX_TIMESTAMP
      requires p + 1 < |nodes| && current == nodes[p] && locks[p + 1].start == oldTs
      modifies Repr
      ensures Valid() && Repr == old(Repr) && q < |nodes| && node == nodes[q] && |nodes| - q < old(|nodes|) - p
      ensures RemoveFrom(locks, q, tid, oldTs) == RemoveFrom(old(locks), p, tid, oldTs)
    {
      assert LinkAt(nodes, p);
      if current.next[0].item.tid == tid {
        Detach(p, current);
        node, q := current, p;
      } else {
        node, q := current.next[0], p + 1;
      }
    }

    method GarbageCollection(ts: Timestamp)
      requires Valid() && ts < MAX_TIMESTAMP
      modifies Repr
      ensures Valid() && Repr == old(Repr)
      ensures locks == LockList.GarbageCollection(old(locks), ts)
    {
      assert LinkAt(nodes, 0) && LinkAt(nodes, 1);
      var node := head.next[0];
      ghost var i := 1;
      while node.next[0] != null && node.next[0].item.start <= ts
        invariant Valid() && Repr == old(Repr)
        invariant 0 < i < |nodes| && node == nodes[i] && LinkAt(nodes, i)
        invariant Collect(locks, ts, i) == LockList.GarbageCollection(old(locks), ts)
        decreases |nodes| - i
      {
        if node.next[0].item.finish <= ts {
          Detach(i, node);
          assert LinkAt(nodes, i);
        }
        node, i := node.next[0], i + 1;
        assert LinkAt(nodes, i);
      }
    }
  }

  /** What LockWriteInterval does after its scan. */
  lemma WriteGrantIs(locks: seq<Lock>, tid: TransactionId, c: Interval)
    requires Bounded(locks) && MIN_TIMESTAMP < c.start && c.finish < MAX_TIMESTAMP
    ensures var n := Narrow(locks, tid, c.start, c.finish, c.finish, 1);
      n.ok && n.start <= n.finish ==>
        && Find(locks, n.start) + 1 < |locks|
        && Bounded(Insert(locks, Find(locks, n.start), Lock(tid, n.start, n.finish, WRITE, false)))
  {
    NarrowAvoidsReads(locks, tid, c.start, c.finish, c.finish, 1);
    var n := Narrow(locks, tid, c.start, c.finish, c.finish, 1);
    if n.ok && n.start <= n.finish {
      StopsBeforeTail(locks, n.start);
      InsertKeepsBounds(locks, Find(locks, n.start), Lock(tid, n.start, n.finish, WRITE, false));
    }
  }

  /** The loop of CommitInterval with the current node at position i. */
  ghost function SettleFrom(locks: seq<Lock>, i: nat, tid: TransactionId, start: Timestamp, ts: Timestamp): seq<Lock>
    decreases |locks| - i
  {
    if |locks| <= i || locks[i].start != start then locks
    else SettleFrom(if locks[i].tid == tid then locks[i := Settle(locks[i], ts)] else locks, i + 1, tid, start, ts)
  }

  lemma {:induction false} SettleFromIsRange(locks: seq<Lock>, i: nat, tid: TransactionId, start: Timestamp, ts: Timestamp)
    requires i <= |locks|
    ensures SettleFrom(locks, i, tid, start, ts) == SettleRange(locks, i, BlockEnd(locks, start, i), tid, ts)
    decreases |locks| - i
  {
    if i < |locks| && locks[i].start == start {
      var next := if locks[i].tid == tid then locks[i := Settle(locks[i], ts)] else locks;
      SettleFromIsRange(next, i + 1, tid, start, ts);
      SameBlock(locks, next, start, i + 1);
    }
  }

  lemma {:induction false} SameBlock(a: seq<Lock>, b: seq<Lock>, start: Timestamp, i: nat)
    requires |a| == |b| && i <= |a| && forall j :: i <= j < |a| ==> a[j] == b[j]
    ensures BlockEnd(a, start, i) == BlockEnd(b, start, i)
    decreases |a| - i
  {
    if i < |a| && a[i].start == start {
      SameBlock(a, b, start, i + 1);
    }
  }

  /** A position that the walk can reach lies in front of where it stops. */
  lemma PassedIsFound(locks: seq<Lock>, bound: int, p: nat)
    requires p < |locks| && forall i :: 0 < i <= p ==> locks[i].start <= bound
    ensures p <= Find(locks, bound)
  {
    var q := Find(locks, bound);
    assert forall i :: 0 < i <= p ==> Starts(locks)[i] <= bound;
  }
}
