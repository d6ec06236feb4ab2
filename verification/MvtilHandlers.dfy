/**
  The steps of MvtilRuns against the handlers of the server: a read or write step leaves the server as its
  handler does, and the steps of a commit or abort add up to the whole handler.
 */
module MvtilHandlers {
  import opened Common
  import opened SortedMap
  import opened LockList
  import opened MvtilRuns
  import opened LockSafety
  import opened MvtilSteps
  import opened MvtilBase
  import opened MvtilAborts
  import opened MvtilVersions
  import opened MvtilTheorems
  import S = MvtilServer

  /** A read lock on an absent key is the one that a fresh entry would give. */
  lemma AbsentIsFresh(tid: TransactionId, start: Instant, finish: Instant, policy: S.Policy)
    ensures S.LockAbsentKey(tid, start, finish) == S.TryReadLock(S.FRESH_ENTRY, tid, start, finish, policy)
    ensures S.Candidate(S.NO_VERSIONS, start, finish, policy) == MIN_TIMESTAMP
  {
    var at: Instant := if policy == S.LOCK_FIRST_INTERVAL then start else finish;
    assert IsBelow(S.NO_VERSIONS, at + 1, MIN_TIMESTAMP);
    assert S.ReadRequest(S.NO_VERSIONS, start, finish, policy) == Interval(1, start, finish);
  }

  /** TryReadLock on any key, absent or not, in terms of the entry that the runs give it. */
  lemma TryReadOnAnyKey(entries: map<Key, S.Entry>, t: TransactionId, start: Instant, finish: Instant, k: Key)
    ensures var e := S.EntryOr(entries, k);
      var g := S.TryReadLock(e, t, start, finish, S.LOCK_FIRST_INTERVAL);
      var (after, state, locked) := S.TryRead(entries, t, start, finish, k, S.LOCK_FIRST_INTERVAL);
      && after == entries[k := e.(locks := g.locks)] && (g.ok ==> state != S.FAIL_PENDING_VERSION && locked == g.interval)
      && S.ReadValue(entries, start, finish, k, S.LOCK_FIRST_INTERVAL)
         == e.versions[S.Candidate(e.versions, start, finish, S.LOCK_FIRST_INTERVAL)]
  {
    if k !in entries {
      AbsentIsFresh(t, start, finish, S.LOCK_FIRST_INTERVAL);
    }
  }

  lemma ReadStepIsHandler(place: Placement, sys: System, t: TransactionId, k: Key)
    requires Enabled(place, sys, Read(t, k))
    ensures var a := sys.txns[t];
      var after := Next(place, sys, Read(t, k));
      var server := Srv(sys.servers, place(k));
      && Srv(after.servers, place(k)) == S.HandleRead(server, t, a.start, a.finish, k, S.LOCK_FIRST_INTERVAL).0
      && after.txns[t].readSet[k].value == S.ReadValue(server.entries, a.start, a.finish, k, S.LOCK_FIRST_INTERVAL)
  {
    TryReadOnAnyKey(Srv(sys.servers, place(k)).entries, t, sys.txns[t].start, sys.txns[t].finish, k);
  }

  lemma WriteStepIsHandler(place: Placement, sys: System, t: TransactionId, k: Key, v: Value)
    requires Enabled(place, sys, Write(t, k, v))
    ensures var a := sys.txns[t];
      var after := Next(place, sys, Write(t, k, v));
      var (server, state, locked) := S.HandleWrite(Srv(sys.servers, place(k)), t, a.start, a.finish, k, v);
      && Srv(after.servers, place(k)) == server && state == S.W_LOCK_SUCCESS
      && after.txns[t].start == locked.start && after.txns[t].finish == locked.finish
  {
  }

  /** The entries after the writes `keys` have been persisted one by one, each in a section of its own. */
  ghost function PersistInOrder(
      entries: map<Key, S.Entry>, writes: map<Key, S.PendingWrite>, keys: seq<Key>, tid: TransactionId, ts: Instant)
    : map<Key, S.Entry>
    requires forall i :: 0 <= i < |keys| ==> keys[i] in writes
  {
    if keys == [] then entries
    else
      var k := keys[|keys| - 1];
      var now := PersistInOrder(entries, writes, keys[..|keys| - 1], tid, ts);
      if k in now then now[k := S.PersistVersion(now[k], tid, writes[k].value, writes[k].start, ts)] else now
  }

  /** In whatever order a commit persists its writes, each once, the entries end up as HandleCommit leaves them. */
  lemma {:induction false} CommitSectionsAddUp(
      entries: map<Key, S.Entry>, writes: map<Key, S.PendingWrite>, keys: seq<Key>, tid: TransactionId, ts: Instant)
    requires forall i :: 0 <= i < |keys| ==> keys[i] in writes
    requires Distinct(keys)
    ensures PersistInOrder(entries, writes, keys, tid, ts)
         == S.Written(entries, writes, writes.Keys - (set k | k in keys), tid, ts)
  {
    if keys == [] {
      S.LoopsStart(entries, writes, map[], tid, ts);
      assert writes.Keys - (set k | k in keys) == writes.Keys;
    } else {
      var k := keys[|keys| - 1];
      var rest := keys[..|keys| - 1];
      CommitSectionsAddUp(entries, writes, rest, tid, ts);
      var todo := writes.Keys - (set j | j in rest);
      S.WrittenStep(entries, writes, todo, tid, ts, k);
      assert keys == rest + [k];
      assert todo - {k} == writes.Keys - (set j | j in keys);
    }
  }

  /**
    HandleAbort of an active transaction, in every run: on a key with a sorted list exactly its locks go, versions
    stay, and its sets are forgotten.
   */
  lemma HandleAbortUndoes(place: Placement, ops: seq<Op>, t: TransactionId, k: Key)
    requires Legal(place, ops) && In(Run(place, ops), t, Active) && HasEntry(place, Run(place, ops).servers, k)
    requires Sorted(EntryOf(place, Run(place, ops).servers, k).locks)
    ensures var server := Srv(Run(place, ops).servers, place(k));
      var after := S.HandleAbort(server, t);
      && k in after.entries
      && after.entries[k].versions == server.entries[k].versions
      && after.entries[k].locks == WithoutOwner(server.entries[k].locks, t)
      && t !in after.pendingReadSets && t !in after.pendingWriteSets
      && forall u :: u != t ==> S.ReadSet(after, u) == S.ReadSet(server, u) && S.WriteSet(after, u) == S.WriteSet(server, u)
  {
    AbortUndoes(place, ops, t, k);
    S.HandleAbortAt(Srv(Run(place, ops).servers, place(k)), t, k);
  }

  /** A version at the timestamp of a unique writer has that writer's value. */
  lemma OwnVersion(txns: Txns, k: Key, versions: S.Versions, t: TransactionId)
    requires Known(txns, k, versions) && UniqueWriters(txns)
    requires HasCommitted(txns, t) && k in txns[t].writeSet && txns[t].start in versions
    ensures versions[txns[t].start] == txns[t].writeSet[k]
  {
    assert Writer(txns, t, k, txns[t].start) && VersionOf(txns, k, txns[t].start, versions[txns[t].start]);
  }

  lemma WrittenAt(entries: map<Key, S.Entry>, writes: map<Key, S.PendingWrite>, t: TransactionId, ts: Instant, k: Key)
    requires k in entries && k in writes
    ensures k in S.Written(entries, writes, {}, t, ts)
    ensures S.Written(entries, writes, {}, t, ts)[k] == S.PersistVersion(entries[k], t, writes[k].value, writes[k].start, ts)
  {
  }

  /** Settling read locks leaves the versions alone. */
  lemma SettledVersions(entries: map<Key, S.Entry>, readStarts: map<Key, Instant>, t: TransactionId, ts: Instant, k: Key)
    requires k in entries
    ensures k in S.Settled(entries, readStarts, {}, t, ts)
    ensures S.Settled(entries, readStarts, {}, t, ts)[k].versions == entries[k].versions
  {
  }

  /** HandleCommit on one recorded key: the version is added unless its timestamp is taken. */
  lemma HandleCommitAt(server: S.Server, t: TransactionId, ts: Instant, k: Key)
    requires k in server.entries && k in S.WriteSet(server, t)
    ensures var versions := server.entries[k].versions;
      && k in S.HandleCommit(server, t, ts).entries
      && S.HandleCommit(server, t, ts).entries[k].versions
         == if ts in versions then versions else versions[ts := S.WriteSet(server, t)[k].value]
  {
    WrittenAt(server.entries, S.WriteSet(server, t), t, ts, k);
    SettledVersions(S.Written(server.entries, S.WriteSet(server, t), {}, t, ts), S.ReadSet(server, t), t, ts, k);
  }

  /**
    HandleCommit stores what the client wrote: in every run with distinct commit timestamps each recorded key has the
    transaction's value at its commit timestamp, and the other versions stay.
   */
  lemma HandleCommitPublishes(place: Placement, g: Guards, ops: seq<Op>, t: TransactionId, k: Key)
    requires Legal(place, ops) && Guarded(place, g, ops) && g.distinct && In(Run(place, ops), t, Committed)
    requires PendsWrite(place, Run(place, ops), t, k) && HasEntry(place, Run(place, ops).servers, k)
    ensures var a := Run(place, ops).txns[t];
      var server := Srv(Run(place, ops).servers, place(k));
      var after := S.HandleCommit(server, t, a.start);
      && k in a.writeSet && k in after.entries
      && a.start in after.entries[k].versions && after.entries[k].versions[a.start] == a.writeSet[k]
      && forall x :: x in server.entries[k].versions ==>
           x in after.entries[k].versions && after.entries[k].versions[x] == server.entries[k].versions[x]
  {
    var sys := Run(place, ops);
    RunKeepsBase(place, ops);
    RunKeepsFacts(place, ops);
    RunKeepsUnique(place, g, ops);
    var server := Srv(sys.servers, place(k));
    assert RecordOk(place, sys, place(k), t, k, S.WriteSet(server, t)[k].value);
    HandleCommitAt(server, t, sys.txns[t].start, k);
    var versions := EntryOf(place, sys.servers, k).versions;
    if sys.txns[t].start in versions {
      assert Known(sys.txns, k, versions);
      OwnVersion(sys.txns, k, versions, t);
    }
  }

  /** On any server, HandleCommit changes only keys that it has recorded, versions only of those written, and forgets. */
  lemma HandleCommitForgets(server: S.Server, t: TransactionId, ts: Instant, k: Key)
    ensures var after := S.HandleCommit(server, t, ts);
      && (k in after.entries <==> k in server.entries)
      && (k in server.entries && k !in S.WriteSet(server, t) ==> after.entries[k].versions == server.entries[k].versions)
      && (k !in S.WriteSet(server, t) && k !in S.ReadSet(server, t) ==> Lookup(after.entries, k) == Lookup(server.entries, k))
      && t !in after.pendingReadSets && t !in after.pendingWriteSets
      && forall u :: u != t ==> S.ReadSet(after, u) == S.ReadSet(server, u) && S.WriteSet(after, u) == S.WriteSet(server, u)
  {
  }

  // ----- what a commit releases

  /** HandleCommit on the lock list of one key: the recorded write start is settled first, then the recorded read start. */
  function CommittedLocks(locks: S.LockSeq, t: TransactionId, w: Option<Instant>, r: Option<Instant>, ts: Instant): S.LockSeq {
    var written := if w.Some? then S.CommitLocks(locks, t, w.value, ts) else locks;
    if r.Some? then S.CommitLocks(written, t, r.value, ts) else written
  }

  lemma HandleCommitLocks(server: S.Server, t: TransactionId, ts: Instant, k: Key)
    requires k in server.entries
    ensures k in S.HandleCommit(server, t, ts).entries
    ensures S.HandleCommit(server, t, ts).entries[k].locks
         == CommittedLocks(server.entries[k].locks, t, Lookup(S.StartsOf(S.WriteSet(server, t)), k),
                           Lookup(S.ReadSet(server, t), k), ts)
  {
  }

  predicate OwnInner(l: Lock, t: TransactionId) {
    l.tid == t && Inner(l.start)
  }

  /** Each lock of t begins where the records say, and its write locks begin at or below ts. */
  ghost predicate Claimed(locks: seq<Lock>, t: TransactionId, w: Option<Instant>, r: Option<Instant>, ts: Timestamp) {
    forall l :: l in locks && OwnInner(l, t) ==>
      if l.op == READ then r.Some? && r.value == l.start else w.Some? && w.value == l.start && l.start <= ts
  }

  lemma WriteSettledKeepsOrder(locks: seq<Lock>, t: TransactionId, start: Instant, ts: Instant)
    requires Bounded(locks) && Sorted(locks) && OrderSafe(locks, t, start, ts)
    requires forall l :: l in locks && Moves(l, t, start) ==> start <= ts
    ensures Sorted(CommitInterval(locks, t, start, ts))
  {
    if exists l :: l in locks && Moves(l, t, start) {
      CommitKeepsOrderIff(locks, t, start, ts);
    } else {
      CommitSettlesExactly(locks, t, start, ts);
      var r := CommitInterval(locks, t, start, ts);
      forall i | 0 <= i < |r| ensures r[i].start == locks[i].start {
        assert locks[i] in locks;
      }
    }
  }

  /** All locks of t have ended at ts, and every other lock is unchanged and in its place. */
  ghost predicate EndedAll(before: seq<Lock>, after: seq<Lock>, t: TransactionId, ts: Timestamp) {
    && |after| == |before|
    && forall i :: 0 <= i < |after| ==> if OwnInner(before[i], t) then EndsAt(after[i], before[i], ts) else after[i] == before[i]
  }

  lemma EndedBoth(
      locks: seq<Lock>, written: seq<Lock>, after: seq<Lock>, t: TransactionId, w: Option<Instant>, r: Option<Instant>, ts: Instant)
    requires Claimed(locks, t, w, r, ts)
    requires if w.Some? then EndedOwn(locks, written, t, w.value, ts) else written == locks
    requires if r.Some? then EndedOwn(written, after, t, r.value, ts) else after == written
    ensures EndedAll(locks, after, t, ts)
  {
    forall i | 0 <= i < |locks|
      ensures if OwnInner(locks[i], t) then EndsAt(after[i], locks[i], ts) else after[i] == locks[i]
    {
      assert locks[i] in locks;
    }
  }

  lemma CommittedExactly(locks: S.LockSeq, t: TransactionId, w: Option<Instant>, r: Option<Instant>, ts: Instant)
    requires Sorted(locks) && Claimed(locks, t, w, r, ts)
    requires w.Some? ==> OrderSafe(locks, t, w.value, ts)
    ensures EndedAll(locks, CommittedLocks(locks, t, w, r, ts), t, ts)
  {
    var written := if w.Some? then S.CommitLocks(locks, t, w.value, ts) else locks;
    if w.Some? {
      CommitSettlesExactly(locks, t, w.value, ts);
      WriteSettledKeepsOrder(locks, t, w.value, ts);
    }
    if r.Some? {
      CommitSettlesExactly(written, t, r.value, ts);
    }
    EndedBoth(locks, written, CommittedLocks(locks, t, w, r, ts), t, w, r, ts);
  }

  /** What an active transaction holds on k is recorded, and contains its commit timestamp. */
  lemma ActiveClaims(place: Placement, ops: seq<Op>, t: TransactionId, k: Key)
    requires Legal(place, ops) && In(Run(place, ops), t, Active)
    ensures var sys := Run(place, ops);
      var server := Srv(sys.servers, place(k));
      var locks := EntryOf(place, sys.servers, k).locks;
      && Claimed(locks, t, Lookup(S.StartsOf(S.WriteSet(server, t)), k), Lookup(S.ReadSet(server, t), k), sys.txns[t].start)
      && forall l :: l in locks && OwnInner(l, t) ==> sys.txns[t].start <= l.finish
  {
    var sys := Run(place, ops);
    var locks := EntryOf(place, sys.servers, k).locks;
    RunKeepsAccounts(place, ops);
    RunKeepsBase(place, ops);
    assert AllOwned(sys.txns, locks);
    forall l | l in locks && OwnInner(l, t) ensures LockOwned(sys.txns, l) && Recorded(place, sys, l, k) {
    }
  }

  /** The lock has ended at ts: it covered ts before, and covers nothing above it any more. */
  ghost predicate ReleasedAbove(after: Lock, before: Lock, ts: Timestamp) {
    ts <= before.finish && EndsAt(after, before, ts) && forall x: Timestamp :: ts < x ==> !Covers(after, x)
  }

  /**
    A commit releases everything above its timestamp: in every run, when an active transaction commits, HandleCommit
    makes its write locks cover exactly the commit timestamp and ends its read locks there. All other locks stay in
    their places. The list has to be sorted, and no write lock may move past another lock.
   */
  lemma HandleCommitReleases(place: Placement, ops: seq<Op>, t: TransactionId, k: Key)
    requires Legal(place, ops) && In(Run(place, ops), t, Active) && HasEntry(place, Run(place, ops).servers, k)
    requires Sorted(EntryOf(place, Run(place, ops).servers, k).locks)
    requires PendsWrite(place, Run(place, ops), t, k) ==>
      OrderSafe(EntryOf(place, Run(place, ops).servers, k).locks, t, WriteStart(place, Run(place, ops), t, k),
                Run(place, ops).txns[t].start)
    ensures var sys := Run(place, ops);
      var ts := sys.txns[t].start;
      var locks := EntryOf(place, sys.servers, k).locks;
      var after := S.HandleCommit(Srv(sys.servers, place(k)), t, ts);
      && k in after.entries && |after.entries[k].locks| == |locks|
      && forall i :: 0 <= i < |locks| ==>
           if OwnInner(locks[i], t) then ReleasedAbove(after.entries[k].locks[i], locks[i], ts)
           else after.entries[k].locks[i] == locks[i]
  {
    var sys := Run(place, ops);
    var ts := sys.txns[t].start;
    var server := Srv(sys.servers, place(k));
    var locks := EntryOf(place, sys.servers, k).locks;
    var w, r := Lookup(S.StartsOf(S.WriteSet(server, t)), k), Lookup(S.ReadSet(server, t), k);
    ActiveClaims(place, ops, t, k);
    HandleCommitLocks(server, t, ts, k);
    CommittedExactly(locks, t, w, r, ts);
    var after := CommittedLocks(locks, t, w, r, ts);
    forall i | 0 <= i < |locks| && OwnInner(locks[i], t) ensures ReleasedAbove(after[i], locks[i], ts) {
      assert locks[i] in locks && EndsAt(after[i], locks[i], ts);
    }
  }
}
