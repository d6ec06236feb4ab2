/**
  When an MVTIL server has to grant a request, and what a refusal leaves, for single handlers and in runs.
 */
module MvtilGrants {
  import opened Common
  import opened SortedMap
  import opened LockList
  import opened LockSafety
  import opened LockGrants
  import opened MvtilRuns
  import opened MvtilBase
  import opened MvtilExclusion
  import S = MvtilServer

  // ----- handlers

  /** Both tables of pending sets and every key's versions and locks are as before; a key may have got an empty entry. */
  ghost predicate NothingTaken(s: S.Server, after: S.Server) {
    && after.pendingReadSets == s.pendingReadSets && after.pendingWriteSets == s.pendingWriteSets
    && forall j :: S.EntryOr(after.entries, j) == S.EntryOr(s.entries, j)
  }

  /** A refused request leaves nothing behind. */
  lemma RefusalTakesNothing(
      s: S.Server, tid: TransactionId, start: Instant, finish: Instant, k: Key, v: Value, policy: S.Policy)
    ensures var (after, state) := S.HandleRead(s, tid, start, finish, k, policy);
      state == S.FAIL_PENDING_VERSION ==> NothingTaken(s, after)
    ensures var (after, state, _) := S.HandleWrite(s, tid, start, finish, k, v);
      state != S.W_LOCK_SUCCESS ==> state == S.FAIL_PENDING_VERSION && NothingTaken(s, after)
  {
  }

  /** Some lock of the entry bars a read lock that begins behind the newest version at or below start. */
  ghost predicate ReadBarred(e: S.Entry, start: Instant) {
    var w := Below(e.versions, start + 1);
    exists l :: l in e.locks && Bars(l, w + 1, start)
  }

  lemma ReadLockIsRefusedIff(e: S.Entry, tid: TransactionId, start: Instant, finish: Instant)
    requires Sorted(e.locks) && start <= finish
    ensures !S.TryReadLock(e, tid, start, finish, S.LOCK_FIRST_INTERVAL).ok <==> ReadBarred(e, start)
  {
    var c := S.ReadRequest(e.versions, start, finish, S.LOCK_FIRST_INTERVAL);
    assert start <= AtOrAbove(e.versions, start + 1) - 1;
    ReadIsRefusedIff(e.locks, tid, c);
  }

  /** What a read is told: FAIL_NO_VERSION exactly for an absent key, FAIL_PENDING_VERSION exactly when a lock bars it. */
  lemma ReadAnswers(s: S.Server, tid: TransactionId, start: Instant, finish: Instant, k: Key)
    requires start <= finish && Sorted(S.EntryOr(s.entries, k).locks)
    ensures var state := S.HandleRead(s, tid, start, finish, k, S.LOCK_FIRST_INTERVAL).1;
      && (state == S.FAIL_NO_VERSION <==> k !in s.entries)
      && (state == S.FAIL_PENDING_VERSION <==> k in s.entries && ReadBarred(s.entries[k], start))
      && state != S.W_LOCK_SUCCESS
  {
    if k in s.entries {
      ReadLockIsRefusedIff(s.entries[k], tid, start, finish);
    }
  }

  /**
    What a write is told: success when the key is in its write set already, else exactly when some timestamp of its
    interval is covered by no read lock of another transaction.
   */
  lemma WriteAnswers(s: S.Server, tid: TransactionId, start: Instant, finish: Instant, k: Key, v: Value)
    requires start <= finish && Sorted(S.EntryOr(s.entries, k).locks)
    ensures var locks := S.EntryOr(s.entries, k).locks;
      S.HandleWrite(s, tid, start, finish, k, v).1 == S.W_LOCK_SUCCESS
      <==> k in S.WriteSet(s, tid) || exists x: Timestamp :: start <= x <= finish && !Taken(locks, tid, x)
  {
    WriteIsRefusedIff(S.EntryOr(s.entries, k).locks, tid, Interval(MIN_TIMESTAMP, start, finish));
  }

  // ----- runs

  /**
    In the runs whose lists stay sorted, an active transaction can read a key exactly when no lock bars its start from
    the version below it.
   */
  lemma ReadIsGrantedIff(place: Placement, ops: seq<Op>, t: TransactionId, k: Key)
    requires Legal(place, ops) && Guarded(place, EXCLUSION, ops) && In(Run(place, ops), t, Active)
    requires k !in Run(place, ops).txns[t].readSet && k !in Run(place, ops).txns[t].writeSet
    ensures var sys := Run(place, ops);
      Enabled(place, sys, Read(t, k)) <==> !ReadBarred(EntryOf(place, sys.servers, k), sys.txns[t].start)
  {
    var sys := Run(place, ops);
    RunKeepsBase(place, ops);
    ExclusionInEveryState(place, ops, k);
    ReadLockIsRefusedIff(EntryOf(place, sys.servers, k), t, sys.txns[t].start, sys.txns[t].finish);
  }

  /** It can write a key exactly when it has written it before or others' read locks leave it a timestamp. */
  lemma WriteIsGrantedIff(place: Placement, ops: seq<Op>, t: TransactionId, k: Key, v: Value)
    requires Legal(place, ops) && Guarded(place, EXCLUSION, ops) && In(Run(place, ops), t, Active)
    ensures var sys := Run(place, ops);
      var a := sys.txns[t];
      Enabled(place, sys, Write(t, k, v))
      <==> k in a.writeSet
           || exists x: Timestamp :: a.start <= x <= a.finish && !Taken(EntryOf(place, sys.servers, k).locks, t, x)
  {
    var sys := Run(place, ops);
    var a := sys.txns[t];
    RunKeepsBase(place, ops);
    ExclusionInEveryState(place, ops, k);
    WriteIsRefusedIff(EntryOf(place, sys.servers, k).locks, t, Interval(MIN_TIMESTAMP, a.start, a.finish));
    assert PendsWrite(place, sys, t, k) ==>
        RecordOk(place, sys, place(k), t, k, S.WriteSet(Srv(sys.servers, place(k)), t)[k].value);
  }
}
