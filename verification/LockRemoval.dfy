/**
  Abort and garbage collection of a lock list: which locks go, which stay, in which order.
 */
module LockRemoval {
  import opened Common
  import opened LinearSearch
  import opened LockList
  import opened LockSafety

  predicate Released(l: Lock, tid: TransactionId, starts: set<Timestamp>) {
    l.tid == tid && l.start in starts
  }

  /** The list without the locks of tid that start in `starts`; the others keep their order. */
  function Without(locks: seq<Lock>, tid: TransactionId, starts: set<Timestamp>): seq<Lock> {
    if locks == [] then []
    else if Released(locks[0], tid, starts) then Without(locks[1..], tid, starts)
    else [locks[0]] + Without(locks[1..], tid, starts)
  }

  lemma {:induction false} WithoutConcat(a: seq<Lock>, b: seq<Lock>, tid: TransactionId, starts: set<Timestamp>)
    ensures Without(a + b, tid, starts) == Without(a, tid, starts) + Without(b, tid, starts)
  {
    if a == [] {
      assert a + b == b;
    } else {
      assert (a + b)[1..] == a[1..] + b;
      WithoutConcat(a[1..], b, tid, starts);
    }
  }

  lemma {:induction false} WithoutNothing(locks: seq<Lock>, tid: TransactionId, starts: set<Timestamp>)
    requires forall l :: l in locks ==> !Released(l, tid, starts)
    ensures Without(locks, tid, starts) == locks
  {
    if locks != [] {
      assert locks[0] in locks;
      WithoutNothing(locks[1..], tid, starts);
    }
  }

  lemma {:induction false} WithoutMembers(locks: seq<Lock>, tid: TransactionId, starts: set<Timestamp>)
    ensures forall l :: l in Without(locks, tid, starts) <==> l in locks && !Released(l, tid, starts)
  {
    if locks != [] {
      WithoutMembers(locks[1..], tid, starts);
      assert locks == [locks[0]] + locks[1..];
    }
  }

  lemma {:induction false} WithoutTwice(locks: seq<Lock>, tid: TransactionId, a: set<Timestamp>, b: set<Timestamp>)
    ensures Without(Without(locks, tid, a), tid, b) == Without(locks, tid, a + b)
  {
    if locks != [] {
      WithoutTwice(locks[1..], tid, a, b);
      if !Released(locks[0], tid, a) {
        var rest := Without(locks[1..], tid, a);
        assert ([locks[0]] + rest)[1..] == rest;
      }
    }
  }

  lemma WithoutPair(locks: seq<Lock>, tid: TransactionId, a: Timestamp, b: Timestamp)
    ensures Without(Without(locks, tid, {a}), tid, {b}) == Without(locks, tid, {a, b})
  {
    WithoutTwice(locks, tid, {a}, {b});
    assert {a} + {b} == {a, b};
  }

  lemma {:induction false} WithoutKeepsOrder(locks: seq<Lock>, tid: TransactionId, starts: set<Timestamp>)
    requires Sorted(locks)
    ensures Sorted(Without(locks, tid, starts))
  {
    if locks != [] {
      WithoutKeepsOrder(locks[1..], tid, starts);
      WithoutMembers(locks[1..], tid, starts);
      var rest := Without(locks[1..], tid, starts);
      forall i | 0 <= i < |rest| ensures locks[0].start <= rest[i].start {
        assert rest[i] in locks[1..];
      }
    }
  }

  /** The list without the locks of tid in the leading run of locks that start at `start`. */
  function DropBlock(locks: seq<Lock>, tid: TransactionId, start: Timestamp): seq<Lock> {
    if locks == [] || locks[0].start != start then locks
    else if locks[0].tid == tid then DropBlock(locks[1..], tid, start)
    else [locks[0]] + DropBlock(locks[1..], tid, start)
  }

  lemma {:induction false} RemoveFromIsDropBlock(locks: seq<Lock>, p: nat, tid: TransactionId, start: Timestamp)
    requires p < |locks|
    ensures RemoveFrom(locks, p, tid, start) == locks[..p + 1] + DropBlock(locks[p + 1..], tid, start)
    decreases |locks| - p
  {
    if p + 1 < |locks| && locks[p + 1].start == start {
      assert locks[p + 1..][1..] == locks[p + 2..];
      if locks[p + 1].tid == tid {
        var fewer := RemoveAt(locks, p + 1);
        RemoveFromIsDropBlock(fewer, p, tid, start);
        assert fewer[..p + 1] == locks[..p + 1] && fewer[p + 1..] == locks[p + 2..];
      } else {
        RemoveFromIsDropBlock(locks, p + 1, tid, start);
        assert locks[..p + 2] == locks[..p + 1] + [locks[p + 1]];
      }
    } else {
      TakeAndDrop(locks, p + 1);
    }
  }

  lemma {:induction false} DropBlockIsWithout(locks: seq<Lock>, tid: TransactionId, start: Timestamp)
    requires Sorted(locks) && forall l :: l in locks ==> start <= l.start
    ensures DropBlock(locks, tid, start) == Without(locks, tid, {start})
  {
    if locks != [] && locks[0].start != start {
      forall l | l in locks ensures !Released(l, tid, {start}) {
        var i :| 0 <= i < |locks| && locks[i] == l;
        assert i == 0 || locks[0].start <= locks[i].start;
      }
      WithoutNothing(locks, tid, {start});
    } else if locks != [] {
      DropBlockIsWithout(locks[1..], tid, start);
    }
  }

  lemma SplitAtFind(locks: seq<Lock>, bound: int)
    requires locks != [] && Sorted(locks) && locks[0].start <= bound
    ensures var p := Find(locks, bound);
      && (forall l :: l in locks[..p + 1] ==> l.start <= bound)
      && (forall l :: l in locks[p + 1..] ==> bound < l.start)
      && Sorted(locks[p + 1..])
  {
    var p := Find(locks, bound);
    forall i | 0 <= i < |locks| ensures i <= p <==> locks[i].start <= bound {
      SortedFind(locks, bound, i);
    }
  }

  lemma DropBehind(front: seq<Lock>, back: seq<Lock>, tid: TransactionId, start: Timestamp)
    requires forall l :: l in front ==> l.start < start
    requires Sorted(back) && forall l :: l in back ==> start <= l.start
    ensures front + DropBlock(back, tid, start) == Without(front + back, tid, {start})
  {
    WithoutConcat(front, back, tid, {start});
    WithoutNothing(front, tid, {start});
    DropBlockIsWithout(back, tid, start);
  }

  /** On a sorted list RemoveLock removes every lock of tid that starts at oldTs, and nothing else. */
  lemma RemoveLockIsWithout(locks: seq<Lock>, tid: TransactionId, oldTs: Timestamp)
    requires locks != [] && Sorted(locks) && locks[0].start < oldTs
    ensures RemoveLock(locks, tid, oldTs) == Without(locks, tid, {oldTs})
  {
    var p := Find(locks, oldTs - 1);
    SplitAtFind(locks, oldTs - 1);
    RemoveFromIsDropBlock(locks, p, tid, oldTs);
    DropBehind(locks[..p + 1], locks[p + 1..], tid, oldTs);
    TakeAndDrop(locks, p + 1);
  }

  lemma TakeAndDrop(locks: seq<Lock>, n: nat)
    requires n <= |locks|
    ensures locks[..n] + locks[n..] == locks
  {
  }

  lemma {:induction false} WithoutKeepsEnds(locks: seq<Lock>, tid: TransactionId, starts: set<Timestamp>)
    requires Bounded(locks) && MIN_TIMESTAMP !in starts && MAX_TIMESTAMP !in starts
    ensures Bounded(Without(locks, tid, starts))
  {
    var mid := locks[1..|locks| - 1];
    assert locks == [HEAD] + mid + [TAIL];
    WithoutConcat([HEAD] + mid, [TAIL], tid, starts);
    WithoutConcat([HEAD], mid, tid, starts);
    WithoutNothing([HEAD], tid, starts);
    WithoutNothing([TAIL], tid, starts);
    WithoutMembers(mid, tid, starts);
    var r := Without(mid, tid, starts);
    assert Without(locks, tid, starts) == [HEAD] + r + [TAIL];
    forall i | 0 <= i < |r| ensures InRange(r[i]) {
      assert r[i] in mid;
      var j :| 0 <= j < |mid| && mid[j] == r[i];
      assert mid[j] == locks[j + 1];
    }
  }

  lemma {:induction false} RemoveFromBounded(locks: seq<Lock>, p: nat, tid: TransactionId, start: Timestamp)
    requires Bounded(locks) && start < MAX_TIMESTAMP
    ensures Bounded(RemoveFrom(locks, p, tid, start))
    decreases |locks| - p
  {
    if p + 1 < |locks| && locks[p + 1].start == start {
      if locks[p + 1].tid == tid {
        RemoveFromBounded(RemoveAt(locks, p + 1), p, tid, start);
      } else {
        RemoveFromBounded(locks, p + 1, tid, start);
      }
    }
  }

  /** Removal only removes, sorted or not. */
  lemma {:induction false} RemoveFromShrinks(locks: seq<Lock>, p: nat, tid: TransactionId, start: Timestamp)
    ensures forall l :: l in RemoveFrom(locks, p, tid, start) ==> l in locks
    decreases |locks| - p
  {
    if p + 1 < |locks| && locks[p + 1].start == start {
      if locks[p + 1].tid == tid {
        RemoveFromShrinks(RemoveAt(locks, p + 1), p, tid, start);
      } else {
        RemoveFromShrinks(locks, p + 1, tid, start);
      }
    }
  }

  lemma RemoveLockBounded(locks: seq<Lock>, tid: TransactionId, oldTs: Timestamp)
    requires Bounded(locks) && MIN_TIMESTAMP < oldTs < MAX_TIMESTAMP
    ensures Bounded(RemoveLock(locks, tid, oldTs))
  {
    RemoveFromBounded(locks, Find(locks, oldTs - 1), tid, oldTs);
  }

  lemma WithoutKeeps(locks: seq<Lock>, tid: TransactionId, oldTs: Timestamp)
    requires Bounded(locks) && Sorted(locks) && Exclusive(locks) && MIN_TIMESTAMP < oldTs < MAX_TIMESTAMP
    ensures var r := Without(locks, tid, {oldTs}); Bounded(r) && Sorted(r) && Exclusive(r)
  {
    WithoutKeepsEnds(locks, tid, {oldTs});
    WithoutKeepsOrder(locks, tid, {oldTs});
    WithoutMembers(locks, tid, {oldTs});
  }

  lemma RemoveLockKeeps(locks: seq<Lock>, tid: TransactionId, oldTs: Timestamp)
    requires Bounded(locks) && Sorted(locks) && Exclusive(locks) && MIN_TIMESTAMP < oldTs < MAX_TIMESTAMP
    ensures var r := RemoveLock(locks, tid, oldTs); Bounded(r) && Sorted(r) && Exclusive(r)
  {
    RemoveLockIsWithout(locks, tid, oldTs);
    WithoutKeeps(locks, tid, oldTs);
  }

  /** Removing two recorded starts one after the other, as HandleAbort does for a key that was written and read. */
  lemma RemoveTwoStarts(locks: seq<Lock>, tid: TransactionId, a: Timestamp, b: Timestamp)
    requires Bounded(locks) && Sorted(locks)
    requires MIN_TIMESTAMP < a < MAX_TIMESTAMP && MIN_TIMESTAMP < b < MAX_TIMESTAMP
    ensures RemoveLock(locks, tid, a) != []
    ensures RemoveLock(RemoveLock(locks, tid, a), tid, b) == Without(locks, tid, {a, b})
  {
    RemoveLockIsWithout(locks, tid, a);
    RemoveFromRest(locks, Without(locks, tid, {a}), tid, a, b);
  }

  lemma RemoveFromRest(locks: seq<Lock>, once: seq<Lock>, tid: TransactionId, a: Timestamp, b: Timestamp)
    requires Bounded(locks) && Sorted(locks) && once == Without(locks, tid, {a})
    requires MIN_TIMESTAMP < a < MAX_TIMESTAMP && MIN_TIMESTAMP < b < MAX_TIMESTAMP
    ensures once != [] && RemoveLock(once, tid, b) == Without(locks, tid, {a, b})
  {
    WithoutKeepsEnds(locks, tid, {a});
    WithoutKeepsOrder(locks, tid, {a});
    RemoveLockIsWithout(once, tid, b);
    WithoutPair(locks, tid, a, b);
  }

  // ----- garbage collection

  /** The locks that end above ts, in order. */
  function Live(locks: seq<Lock>, ts: Timestamp): seq<Lock> {
    if locks == [] then []
    else if ts < locks[0].finish then [locks[0]] + Live(locks[1..], ts)
    else Live(locks[1..], ts)
  }

  lemma {:induction false} LiveConcat(a: seq<Lock>, b: seq<Lock>, ts: Timestamp)
    ensures Live(a + b, ts) == Live(a, ts) + Live(b, ts)
  {
    if a == [] {
      assert a + b == b;
    } else {
      assert (a + b)[1..] == a[1..] + b;
      LiveConcat(a[1..], b, ts);
    }
  }

  lemma RemoveAtKeepsLive(locks: seq<Lock>, i: nat, ts: Timestamp)
    requires i < |locks| && locks[i].finish <= ts
    ensures Live(RemoveAt(locks, i), ts) == Live(locks, ts)
  {
    assert RemoveAt(locks, i) == locks[..i] + locks[i + 1..];
    assert locks == locks[..i] + ([locks[i]] + locks[i + 1..]);
    LiveConcat(locks[..i], [locks[i]] + locks[i + 1..], ts);
    LiveConcat([locks[i]], locks[i + 1..], ts);
    LiveConcat(locks[..i], locks[i + 1..], ts);
    assert Live([locks[i]], ts) == [];
  }

  lemma RemoveAtKeeps(locks: seq<Lock>, i: nat)
    requires Bounded(locks) && 0 < i < |locks| - 1
    ensures var r := RemoveAt(locks, i);
      Bounded(r) && (forall l :: l in r ==> l in locks) && (Sorted(locks) ==> Sorted(r))
  {
  }

  /** Collection removes only expired locks: every lock that ends above ts stays, in order. */
  lemma {:induction false} CollectKeepsLive(locks: seq<Lock>, ts: Timestamp, i: nat)
    ensures Live(Collect(locks, ts, i), ts) == Live(locks, ts)
    decreases |locks| - i
  {
    if |locks| <= i + 1 || ts < locks[i + 1].start {
    } else if locks[i + 1].finish <= ts {
      RemoveAtKeepsLive(locks, i + 1, ts);
      CollectKeepsLive(RemoveAt(locks, i + 1), ts, i + 1);
    } else {
      CollectKeepsLive(locks, ts, i + 1);
    }
  }

  /** The sentinels stay, nothing is added, and the order is kept. */
  lemma {:induction false} CollectKeeps(locks: seq<Lock>, ts: Timestamp, i: nat)
    requires Bounded(locks) && 0 < i && ts < MAX_TIMESTAMP
    ensures var r := Collect(locks, ts, i);
      Bounded(r) && (forall l :: l in r ==> l in locks) && (Sorted(locks) ==> Sorted(r))
    decreases |locks| - i
  {
    if |locks| <= i + 1 || ts < locks[i + 1].start {
    } else if locks[i + 1].finish <= ts {
      RemoveAtKeeps(locks, i + 1);
      CollectKeeps(RemoveAt(locks, i + 1), ts, i + 1);
    } else {
      CollectKeeps(locks, ts, i + 1);
    }
  }

  lemma GarbageCollectionIsSound(locks: seq<Lock>, ts: Timestamp)
    requires Bounded(locks) && ts < MAX_TIMESTAMP
    ensures var r := GarbageCollection(locks, ts);
      && Bounded(r)
      && Live(r, ts) == Live(locks, ts)
      && (forall l :: l in r ==> l in locks)
      && (Sorted(locks) ==> Sorted(r))
      && (Exclusive(locks) ==> Exclusive(r))
  {
    CollectKeeps(locks, ts, 1);
    CollectKeepsLive(locks, ts, 1);
  }

  /** A collection at ts could remove the lock. */
  predicate Expired(lock: Lock, ts: Timestamp) {
    lock.start <= ts && lock.finish <= ts
  }

  predicate ExpiredPair(locks: seq<Lock>, ts: Timestamp, j: nat)
    requires j + 1 < |locks|
  {
    Expired(locks[j], ts) && Expired(locks[j + 1], ts)
  }

  /** From position i on, no two neighbours have both expired. */
  ghost predicate NoExpiredPair(locks: seq<Lock>, ts: Timestamp, i: nat) {
    forall j :: i <= j < |locks| - 1 ==> !ExpiredPair(locks, ts, j)
  }

  /** From position i on, no lock has expired. */
  ghost predicate Cleared(locks: seq<Lock>, ts: Timestamp, i: nat) {
    forall j :: i <= j < |locks| ==> !Expired(locks[j], ts)
  }

  lemma ClearedFrom(locks: seq<Lock>, ts: Timestamp, i: nat)
    requires i < |locks|
    ensures Cleared(locks, ts, i) <==> !Expired(locks[i], ts) && Cleared(locks, ts, i + 1)
  {
  }

  lemma NoExpiredPairFrom(locks: seq<Lock>, ts: Timestamp, i: nat)
    requires i + 1 < |locks|
    ensures NoExpiredPair(locks, ts, i) <==> !ExpiredPair(locks, ts, i) && NoExpiredPair(locks, ts, i + 1)
  {
  }

  /** The loop leaves everything up to its current node alone. */
  lemma {:induction false} CollectKeepsPrefix(locks: seq<Lock>, ts: Timestamp, i: nat)
    requires i < |locks|
    ensures i < |Collect(locks, ts, i)| && forall j :: 0 <= j <= i ==> Collect(locks, ts, i)[j] == locks[j]
    decreases |locks| - i
  {
    if |locks| <= i + 1 || ts < locks[i + 1].start {
    } else if locks[i + 1].finish <= ts {
      if i + 2 < |locks| {
        CollectKeepsPrefix(RemoveAt(locks, i + 1), ts, i + 1);
      }
    } else {
      CollectKeepsPrefix(locks, ts, i + 1);
    }
  }

  /** The lock behind a removed one is not examined: it has to be unexpired, and the pairs behind it are those of before. */
  lemma RemovalShiftsPairs(locks: seq<Lock>, ts: Timestamp, i: nat)
    requires i + 2 < |locks| && Expired(locks[i + 1], ts)
    ensures NoExpiredPair(locks, ts, i + 1)
       <==> !Expired(locks[i + 2], ts) && NoExpiredPair(RemoveAt(locks, i + 1), ts, i + 2)
  {
    var r := RemoveAt(locks, i + 1);
    NoExpiredPairFrom(locks, ts, i + 1);
    if i + 3 < |locks| {
      NoExpiredPairFrom(locks, ts, i + 2);
    }
    forall j | i + 3 <= j < |locks| - 1 ensures ExpiredPair(locks, ts, j) == ExpiredPair(r, ts, j - 1) {
    }
    if NoExpiredPair(locks, ts, i + 3) {
      forall j | i + 2 <= j < |r| - 1 ensures !ExpiredPair(r, ts, j) {
        assert !ExpiredPair(locks, ts, j + 1);
      }
    }
  }

  /** Where the loop stops nothing has expired. */
  lemma NothingExpiredBehind(locks: seq<Lock>, ts: Timestamp, i: nat)
    requires Sorted(locks) && (i < |locks| ==> ts < locks[i].start)
    ensures Cleared(locks, ts, i) && NoExpiredPair(locks, ts, i)
  {
    forall j | i <= j < |locks| ensures !Expired(locks[j], ts) {
      assert j == i || locks[i].start <= locks[j].start;
    }
  }

  /** A lock that stays separates the pairs behind it from those in front. */
  lemma KeptLockEndsPair(locks: seq<Lock>, ts: Timestamp, i: nat)
    requires i < |locks| && !Expired(locks[i], ts)
    ensures NoExpiredPair(locks, ts, i) <==> NoExpiredPair(locks, ts, i + 1)
  {
    if i + 1 < |locks| {
      NoExpiredPairFrom(locks, ts, i);
    }
  }

  /** Behind its current node the loop removes every expired lock exactly when no two neighbours there have expired. */
  lemma {:induction false} CollectClearsIff(locks: seq<Lock>, ts: Timestamp, i: nat)
    requires 0 < i < |locks| && Bounded(locks) && Sorted(locks) && ts < MAX_TIMESTAMP
    ensures Cleared(Collect(locks, ts, i), ts, i + 1) <==> NoExpiredPair(locks, ts, i + 1)
    decreases |locks| - i
  {
    if |locks| <= i + 1 || ts < locks[i + 1].start {
      NothingExpiredBehind(locks, ts, i + 1);
    } else if locks[i + 1].finish <= ts {
      var r := RemoveAt(locks, i + 1);
      RemovalShiftsPairs(locks, ts, i);
      RemoveAtKeeps(locks, i + 1);
      CollectKeepsPrefix(r, ts, i + 1);
      CollectClearsIff(r, ts, i + 1);
      ClearedFrom(Collect(r, ts, i + 1), ts, i + 1);
    } else {
      KeptLockEndsPair(locks, ts, i + 1);
      CollectKeepsPrefix(locks, ts, i + 1);
      CollectClearsIff(locks, ts, i + 1);
      ClearedFrom(Collect(locks, ts, i + 1), ts, i + 1);
    }
  }

  /**
    A collection of a sorted list removes every expired lock exactly when the first lock has not expired and no two
    neighbours have: the loop examines neither the first lock nor the one behind a lock that it removes.
   */
  lemma GarbageCollectionClearsIff(locks: seq<Lock>, ts: Timestamp)
    requires Bounded(locks) && Sorted(locks) && ts < MAX_TIMESTAMP
    ensures var r := GarbageCollection(locks, ts);
      (forall j :: 1 <= j < |r| ==> !Expired(r[j], ts))
      <==> !Expired(locks[1], ts) && forall j :: 1 <= j < |locks| - 1 ==> !ExpiredPair(locks, ts, j)
  {
    CollectKeepsPrefix(locks, ts, 1);
    CollectClearsIff(locks, ts, 1);
    ClearedFrom(GarbageCollection(locks, ts), ts, 1);
    if !Expired(locks[1], ts) {
      KeptLockEndsPair(locks, ts, 1);
    }
  }

  /** A list that does not meet the condition: all four locks have expired, and every other one outlives the collection. */
  lemma CollectionSkips()
    ensures var a, b, c, d := Lock(1, 1, 1, READ, true), Lock(1, 2, 2, READ, true),
                              Lock(1, 3, 3, READ, true), Lock(1, 4, 4, READ, true);
      GarbageCollection([HEAD, a, b, c, d, TAIL], 9) == [HEAD, a, c, TAIL]
  {
    var a, b, c, d := Lock(1, 1, 1, READ, true), Lock(1, 2, 2, READ, true),
                      Lock(1, 3, 3, READ, true), Lock(1, 4, 4, READ, true);
    assert RemoveAt([HEAD, a, b, c, d, TAIL], 2) == [HEAD, a, c, d, TAIL];
    assert RemoveAt([HEAD, a, c, d, TAIL], 3) == [HEAD, a, c, TAIL];
    assert Collect([HEAD, a, c, d, TAIL], 9, 2) == Collect([HEAD, a, c, TAIL], 9, 3);
  }
}
