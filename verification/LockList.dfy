/**
  The interval-lock list of one key (server/LockManager.cpp) as a sequence of locks, both sentinels
  included: what each operation of the lock manager does to it, sorted or not.
 */
module LockList {
  import opened Common
  import opened LinearSearch

  datatype LockOperation = READ | WRITE

  datatype Lock = Lock(tid: TransactionId, start: Timestamp, finish: Timestamp, op: LockOperation, committed: bool)

  /** TimestampInterval: a request [start, finish] and, for reads, where its lock begins. */
  datatype Interval = Interval(lockStart: Timestamp, start: Timestamp, finish: Timestamp)

  const HEAD := Lock(0, MIN_TIMESTAMP, MIN_TIMESTAMP, WRITE, true)
  const TAIL := Lock(0, MAX_TIMESTAMP, MAX_TIMESTAMP, WRITE, true)
  const NO_LOCKS: seq<Lock> := [HEAD, TAIL]

  predicate InRange(lock: Lock) {
    MIN_TIMESTAMP < lock.start < MAX_TIMESTAMP && lock.finish < MAX_TIMESTAMP
  }

  /** Both sentinels are in place and no other lock reaches them. Sortedness is not part of this. */
  ghost predicate Bounded(locks: seq<Lock>) {
    && 2 <= |locks| && locks[0] == HEAD && locks[|locks| - 1] == TAIL
    && forall i :: 0 < i < |locks| - 1 ==> InRange(locks[i])
  }

  function Starts(locks: seq<Lock>): (keys: seq<int>)
    ensures |keys| == |locks|
    ensures forall i :: 0 <= i < |locks| ==> keys[i] == locks[i].start
  {
    seq(|locks|, i requires 0 <= i < |locks| => locks[i].start)
  }

  /** Where a search that passes every start up to the bound stops. */
  function Find(locks: seq<Lock>, bound: int): (p: nat)
    requires locks != []
    ensures p < |locks|
  {
    Stop(Starts(locks), bound, 0)
  }

  function Insert(locks: seq<Lock>, p: nat, lock: Lock): (r: seq<Lock>)
    requires p < |locks|
    ensures |r| == |locks| + 1
    ensures forall i :: 0 <= i < |r| ==>
              r[i] == if i <= p then locks[i] else if i == p + 1 then lock else locks[i - 1]
  {
    Added(locks, p, lock)
  }

  // ----- LockReadInterval

  /** The search meets a write lock that reaches the timestamp. */
  predicate ReadConflict(locks: seq<Lock>, ts: Timestamp)
    requires locks != []
  {
    exists i :: 0 < i <= Find(locks, ts) && locks[i].op == WRITE && ts <= locks[i].finish
  }

  datatype Granted = Granted(ok: bool, interval: Interval, locks: seq<Lock>)

  /** The tail is a write lock that reaches every timestamp, so a search without conflict stops before it. */
  lemma TailConflicts(locks: seq<Lock>, ts: Timestamp)
    requires Bounded(locks)
    ensures ReadConflict(locks, ts) || Find(locks, ts) + 1 < |locks|
  {
    if Find(locks, ts) == |locks| - 1 {
      assert locks[|locks| - 1].op == WRITE;
    }
  }

  function LockRead(locks: seq<Lock>, tid: TransactionId, c: Interval): Granted
    requires Bounded(locks)
  {
    if ReadConflict(locks, c.lockStart) then
      Granted(false, c, locks)
    else
      TailConflicts(locks, c.lockStart);
      var p := Find(locks, c.lockStart);
      var finish := Min(c.finish, locks[p + 1].start - 1);
      if c.start > finish then
        Granted(false, c.(finish := finish), locks)
      else
        Granted(true, c.(finish := finish), Insert(locks, p, Lock(tid, c.lockStart, finish, READ, false)))
  }

  // ----- LockWriteInterval

  datatype Candidate = Candidate(ok: bool, start: Timestamp, finish: Timestamp)

  predicate Intersects(start: Timestamp, finish: Timestamp, lock: Lock) {
    !(finish < lock.start || lock.finish < start)
  }

  /** The scan of LockWriteInterval from position i on: foreign read locks cut the candidate from the left or the right. */
  function Narrow(locks: seq<Lock>, tid: TransactionId, start: Timestamp, finish: Timestamp, bound: Timestamp, i: nat): Candidate
    requires Bounded(locks) && 0 < i <= |locks| && MIN_TIMESTAMP <= start && bound < MAX_TIMESTAMP
    decreases |locks| - i
  {
    if i == |locks| || bound < locks[i].start then
      Candidate(true, start, finish)
    else if locks[i].tid != tid && locks[i].op == READ && Intersects(start, finish, locks[i]) then
      if locks[i].start <= start && finish <= locks[i].finish then
        Candidate(false, start, finish)
      else if locks[i].start <= start then
        Narrow(locks, tid, locks[i].finish + 1, finish, bound, i + 1)
      else if finish <= locks[i].finish then
        Narrow(locks, tid, start, locks[i].start - 1, bound, i + 1)
      else
        Narrow(locks, tid, start, finish, bound, i + 1)
    else
      Narrow(locks, tid, start, finish, bound, i + 1)
  }

  function LockWrite(locks: seq<Lock>, tid: TransactionId, c: Interval): Granted
    requires Bounded(locks) && MIN_TIMESTAMP < c.start && c.finish < MAX_TIMESTAMP
  {
    var n := Narrow(locks, tid, c.start, c.finish, c.finish, 1);
    var interval := c.(start := n.start, finish := n.finish);
    if !n.ok || n.start > n.finish then
      Granted(false, interval, locks)
    else
      Granted(true, interval, Insert(locks, Find(locks, n.start), Lock(tid, n.start, n.finish, WRITE, false)))
  }

  // ----- CommitInterval

  /** A committed write lock shrinks to the commit timestamp; a committed read lock ends there. */
  function Settle(lock: Lock, ts: Timestamp): Lock {
    if lock.op == WRITE then lock.(start := ts, finish := ts, committed := true)
    else lock.(finish := ts, committed := true)
  }

  /** The end of the run of locks from i on that start at `start`. */
  function BlockEnd(locks: seq<Lock>, start: Timestamp, i: nat): (e: nat)
    requires i <= |locks|
    ensures i <= e <= |locks|
    ensures forall j :: i <= j < e ==> locks[j].start == start
    ensures e < |locks| ==> locks[e].start != start
    decreases |locks| - i
  {
    if i < |locks| && locks[i].start == start then BlockEnd(locks, start, i + 1) else i
  }

  /** The locks with those of tid in positions lo..hi settled. */
  function SettleRange(locks: seq<Lock>, lo: nat, hi: nat, tid: TransactionId, ts: Timestamp): (r: seq<Lock>)
    ensures |r| == |locks|
    ensures forall i :: 0 <= i < |locks| ==>
              r[i] == if lo <= i < hi && locks[i].tid == tid then Settle(locks[i], ts) else locks[i]
  {
    seq(|locks|, i requires 0 <= i < |locks| =>
      if lo <= i < hi && locks[i].tid == tid then Settle(locks[i], ts) else locks[i])
  }

  function CommitInterval(locks: seq<Lock>, tid: TransactionId, oldTs: Timestamp, ts: Timestamp): (r: seq<Lock>)
    requires locks != []
    ensures |r| == |locks|
  {
    var p := Find(locks, oldTs - 1);
    SettleRange(locks, p + 1, BlockEnd(locks, oldTs, p + 1), tid, ts)
  }

  // ----- RemoveLock

  /** The loop of RemoveLock with the current node at position p: it removes the next node when that is a lock of tid. */
  function RemoveFrom(locks: seq<Lock>, p: nat, tid: TransactionId, start: Timestamp): seq<Lock>
    decreases |locks| - p
  {
    if |locks| <= p + 1 || locks[p + 1].start != start then locks
    else if locks[p + 1].tid == tid then RemoveFrom(RemoveAt(locks, p + 1), p, tid, start)
    else RemoveFrom(locks, p + 1, tid, start)
  }

  function RemoveLock(locks: seq<Lock>, tid: TransactionId, oldTs: Timestamp): seq<Lock>
    requires locks != []
  {
    RemoveFrom(locks, Find(locks, oldTs - 1), tid, oldTs)
  }

  // ----- GarbageCollection

  /**
    The loop of GarbageCollection with the current node at position i: it removes the next node when that has
    expired, and moves on either way, so the node after a removed one is passed unexamined.
   */
  function Collect(locks: seq<Lock>, ts: Timestamp, i: nat): seq<Lock>
    decreases |locks| - i
  {
    if |locks| <= i + 1 || ts < locks[i + 1].start then locks
    else if locks[i + 1].finish <= ts then Collect(RemoveAt(locks, i + 1), ts, i + 1)
    else Collect(locks, ts, i + 1)
  }

  function GarbageCollection(locks: seq<Lock>, ts: Timestamp): seq<Lock> {
    Collect(locks, ts, 1)
  }
}
