/**
  Concrete runs of the MVTIL store on one key: one that meets every guard, and for the guards on commit timestamps and
  on collection one each that meets all other guards and is not serializable.
 */
module MvtilWitnesses {
  import opened Common
  import opened SortedMap
  import opened LinearSearch
  import opened LockList
  import opened LockSafety
  import opened MvtilRuns
  import opened MvtilVersions
  import opened MvtilTheorems
  import Serial
  import S = MvtilServer

  // ----- runs of one key, stage by stage

  /** What a run on one key has come to: the key's entry and tables, and the transactions. */
  datatype Stage = Stage(
    entry: S.Entry, readSets: map<TransactionId, map<Key, Instant>>,
    writeSets: map<TransactionId, map<Key, S.PendingWrite>>,
    txns: Txns, commits: nat, watermark: Timestamp, persisted: set<(TransactionId, Key)>)

  /** The system at a stage; without an entry for the key, and with no server at all before the first access. */
  function At(place: Placement, k: Key, touched: bool, g: Stage): System {
    System(if !touched && g.readSets == map[] && g.writeSets == map[] then map[]
           else map[place(k) := S.Server(if touched then map[k := g.entry] else map[], g.readSets, g.writeSets)],
           g.txns, g.commits, g.watermark, g.persisted)
  }

  /** A key without an entry is as good as one with a fresh entry. */
  predicate Coherent(touched: bool, g: Stage) {
    !touched ==> g.entry == S.FRESH_ENTRY
  }

  ghost predicate Leads(place: Placement, guards: Guards, before: System, op: Op, after: System) {
    Enabled(place, before, op) && Meets(place, guards, before, op) && after == Next(place, before, op)
  }

  /** `states` are the systems in front of, between and behind the steps of a run. */
  ghost predicate Trace(place: Placement, guards: Guards, ops: seq<Op>, states: seq<System>) {
    && |states| == |ops| + 1 && states[0] == START
    && forall i :: 0 <= i < |ops| ==> Leads(place, guards, states[i], ops[i], states[i + 1])
  }

  /** The guarded steps `ops` lead from the start to sys. */
  ghost predicate Reaches(place: Placement, guards: Guards, ops: seq<Op>, sys: System) {
    exists states :: Trace(place, guards, ops, states) && states[|ops|] == sys
  }

  lemma Step(place: Placement, guards: Guards, ops: seq<Op>, sys: System, op: Op)
    requires Reaches(place, guards, ops, sys) && Enabled(place, sys, op) && Meets(place, guards, sys, op)
    ensures Reaches(place, guards, ops + [op], Next(place, sys, op))
  {
    var states :| Trace(place, guards, ops, states) && states[|ops|] == sys;
    var longer := states + [Next(place, sys, op)];
    forall i | 0 <= i < |ops| + 1 ensures Leads(place, guards, longer[i], (ops + [op])[i], longer[i + 1]) {
      if i < |ops| {
        assert Leads(place, guards, states[i], ops[i], states[i + 1]);
      }
    }
    assert Trace(place, guards, ops + [op], longer);
  }

  lemma {:induction false} TraceIsRun(place: Placement, guards: Guards, ops: seq<Op>, states: seq<System>)
    requires Trace(place, guards, ops, states)
    ensures Legal(place, ops) && Guarded(place, guards, ops) && Run(place, ops) == states[|ops|]
  {
    if ops != [] {
      var n := |ops| - 1;
      TraceIsRun(place, guards, ops[..n], states[..|ops|]);
      assert Leads(place, guards, states[n], ops[n], states[n + 1]);
    }
  }

  /** What is reached is the outcome of a legal run that meets the guards. */
  lemma ReachedByRun(place: Placement, guards: Guards, ops: seq<Op>, sys: System)
    requires Reaches(place, guards, ops, sys)
    ensures Legal(place, ops) && Guarded(place, guards, ops) && Run(place, ops) == sys
  {
    var states :| Trace(place, guards, ops, states) && states[|ops|] == sys;
    TraceIsRun(place, guards, ops, states);
  }

  lemma BeginStep(place: Placement, guards: Guards, ops: seq<Op>, k: Key, touched: bool, g: Stage,
                  t: TransactionId, start: Instant, finish: Instant)
    returns (after: Stage)
    requires Reaches(place, guards, ops, At(place, k, touched, g)) && Coherent(touched, g)
    requires t !in g.txns && start <= finish && g.watermark < start
    ensures after == g.(txns := g.txns[t := Txn(Active, start, finish, map[], map[], {}, 0)]) && Coherent(touched, after)
    ensures Reaches(place, guards, ops + [Begin(t, start, finish)], At(place, k, touched, after))
  {
    after := g.(txns := g.txns[t := Txn(Active, start, finish, map[], map[], {}, 0)]);
    Step(place, guards, ops, At(place, k, touched, g), Begin(t, start, finish));
  }

  lemma CommitStep(place: Placement, guards: Guards, ops: seq<Op>, k: Key, g: Stage, t: TransactionId) returns (after: Stage)
    requires Reaches(place, guards, ops, At(place, k, true, g)) && t in g.txns && g.txns[t].phase == Active
    requires guards.distinct ==> MeetsDistinct(At(place, k, true, g), Commit(t))
    ensures after == g.(txns := g.txns[t := g.txns[t].(phase := Committed, finish := g.txns[t].start, order := g.commits)],
                        commits := g.commits + 1)
    ensures Reaches(place, guards, ops + [Commit(t)], At(place, k, true, after))
  {
    after := g.(txns := g.txns[t := g.txns[t].(phase := Committed, finish := g.txns[t].start, order := g.commits)],
                commits := g.commits + 1);
    Step(place, guards, ops, At(place, k, true, g), Commit(t));
  }

  lemma EntryAt(place: Placement, k: Key, touched: bool, g: Stage)
    requires Coherent(touched, g)
    ensures EntryOf(place, At(place, k, touched, g).servers, k) == g.entry
    ensures Srv(At(place, k, touched, g).servers, place(k)).pendingReadSets == g.readSets
    ensures Srv(At(place, k, touched, g).servers, place(k)).pendingWriteSets == g.writeSets
    ensures touched ==> HasEntry(place, At(place, k, touched, g).servers, k)
  {
  }

  /** Replacing the key's server gives the next stage's server. */
  lemma PutAt(place: Placement, k: Key, touched: bool, g: Stage, after: Stage)
    requires Coherent(touched, g)
    ensures var server := Srv(At(place, k, touched, g).servers, place(k));
      Put(At(place, k, touched, g).servers, place(k),
          server.(entries := server.entries[k := after.entry], pendingReadSets := after.readSets, pendingWriteSets := after.writeSets))
      == At(place, k, true, after).servers
  {
    var server := Srv(At(place, k, touched, g).servers, place(k));
    assert server.entries[k := after.entry] == map[k := after.entry];
  }

  /** The stage after a first write that is granted the whole interval and leaves the locks `locks`. */
  function AfterWrite(place: Placement, k: Key, g: Stage, t: TransactionId, v: Value, locks: S.LockSeq): Stage
    requires t in g.txns
  {
    var a := g.txns[t];
    g.(entry := g.entry.(locks := locks), writeSets := g.writeSets[t := map[k := S.PendingWrite(v, a.start)]],
       txns := g.txns[t := a.(writeSet := a.writeSet[k := v], servers := a.servers + {place(k)})])
  }

  /** A first write of t would be granted its whole interval and leave the locks `locks`. */
  ghost predicate GrantsAll(g: Stage, t: TransactionId, locks: S.LockSeq) {
    && t in g.txns && g.txns[t].phase == Active && t !in g.writeSets
    && S.TryWriteLock(g.entry.locks, t, g.txns[t].start, g.txns[t].finish)
       == Granted(true, Interval(MIN_TIMESTAMP, g.txns[t].start, g.txns[t].finish), locks)
  }

  lemma WriteLockStep(place: Placement, k: Key, touched: bool, g: Stage, t: TransactionId, locks: S.LockSeq)
    requires Coherent(touched, g) && GrantsAll(g, t, locks)
    ensures var sys := At(place, k, touched, g);
      WriteGrant(place, sys, t, k).ok && WriteLocked(place, sys, t, k) == At(place, k, true, g.(entry := g.entry.(locks := locks)))
  {
    EntryAt(place, k, touched, g);
    PutAt(place, k, touched, g, g.(entry := g.entry.(locks := locks)));
  }

  lemma WriteNext(place: Placement, k: Key, touched: bool, g: Stage, t: TransactionId, v: Value, locks: S.LockSeq)
    requires Coherent(touched, g) && GrantsAll(g, t, locks)
    ensures Enabled(place, At(place, k, touched, g), Write(t, k, v)) && !PendsWrite(place, At(place, k, touched, g), t, k)
    ensures Next(place, At(place, k, touched, g), Write(t, k, v)) == At(place, k, true, AfterWrite(place, k, g, t, v, locks))
  {
    var locked := g.(entry := g.entry.(locks := locks));
    EntryAt(place, k, touched, g);
    WriteLockStep(place, k, touched, g, t, locks);
    EntryAt(place, k, true, locked);
    PutAt(place, k, true, locked, AfterWrite(place, k, g, t, v, locks));
  }

  lemma WriteStep(place: Placement, guards: Guards, ops: seq<Op>, k: Key, touched: bool, g: Stage,
                  t: TransactionId, v: Value, locks: S.LockSeq)
    requires Reaches(place, guards, ops, At(place, k, touched, g)) && Coherent(touched, g) && GrantsAll(g, t, locks)
    requires forall l :: l in g.entry.locks && ForeignRead(l, t) && l.start <= l.finish ==>
               !StrictlyInside(l, g.txns[t].start, g.txns[t].finish)
    ensures Reaches(place, guards, ops + [Write(t, k, v)], At(place, k, true, AfterWrite(place, k, g, t, v, locks)))
  {
    EntryAt(place, k, touched, g);
    NothingInsideIsOverrun(g.entry.locks, t, Interval(MIN_TIMESTAMP, g.txns[t].start, g.txns[t].finish));
    WriteNext(place, k, touched, g, t, v, locks);
    Step(place, guards, ops, At(place, k, touched, g), Write(t, k, v));
  }

  /** The stage after a read that takes version w, with a lock from lockStart on, and leaves the locks `locks`. */
  function AfterRead(k: Key, g: Stage, t: TransactionId, w: Timestamp, lockStart: Instant, locks: S.LockSeq): Stage
    requires t in g.txns && w in g.entry.versions
  {
    var a := g.txns[t];
    g.(entry := g.entry.(locks := locks), readSets := g.readSets[t := map[k := lockStart]],
       txns := g.txns[t := a.(readSet := a.readSet[k := ReadRecord(w, g.entry.versions[w])])])
  }

  /** A read of t would take version w and be granted its whole interval. */
  ghost predicate ReadsWhole(k: Key, g: Stage, t: TransactionId, w: Timestamp, lockStart: Instant, locks: S.LockSeq) {
    && t in g.txns && g.txns[t].phase == Active && k !in g.txns[t].readSet && k !in g.txns[t].writeSet && t !in g.readSets
    && w in g.entry.versions && S.Candidate(g.entry.versions, g.txns[t].start, g.txns[t].finish, S.LOCK_FIRST_INTERVAL) == w
    && S.TryReadLock(g.entry, t, g.txns[t].start, g.txns[t].finish, S.LOCK_FIRST_INTERVAL)
       == Granted(true, Interval(lockStart, g.txns[t].start, g.txns[t].finish), locks)
  }

  lemma ReadNext(place: Placement, k: Key, touched: bool, g: Stage,
                 t: TransactionId, w: Timestamp, lockStart: Instant, locks: S.LockSeq)
    requires Coherent(touched, g) && ReadsWhole(k, g, t, w, lockStart, locks)
    ensures Enabled(place, At(place, k, touched, g), Read(t, k))
    ensures Next(place, At(place, k, touched, g), Read(t, k)) == At(place, k, true, AfterRead(k, g, t, w, lockStart, locks))
  {
    EntryAt(place, k, touched, g);
    PutAt(place, k, touched, g, AfterRead(k, g, t, w, lockStart, locks));
  }

  lemma ReadStep(place: Placement, guards: Guards, ops: seq<Op>, k: Key, touched: bool, g: Stage,
                 t: TransactionId, w: Timestamp, lockStart: Instant, locks: S.LockSeq)
    returns (after: Stage)
    requires Reaches(place, guards, ops, At(place, k, touched, g)) && Coherent(touched, g)
    requires ReadsWhole(k, g, t, w, lockStart, locks)
    ensures after == AfterRead(k, g, t, w, lockStart, locks)
    ensures Reaches(place, guards, ops + [Read(t, k)], At(place, k, true, after))
  {
    after := AfterRead(k, g, t, w, lockStart, locks);
    ReadNext(place, k, touched, g, t, w, lockStart, locks);
    Step(place, guards, ops, At(place, k, touched, g), Read(t, k));
  }

  /** The commit of t would persist v under k and leave the entry e. */
  ghost predicate Persists(k: Key, g: Stage, t: TransactionId, v: Value, e: S.Entry) {
    && t in g.txns && g.txns[t].phase == Committed
    && t in g.writeSets && g.writeSets[t] == map[k := S.PendingWrite(v, g.txns[t].start)]
    && S.PersistVersion(g.entry, t, v, g.txns[t].start, g.txns[t].start) == e
    && OrderSafe(g.entry.locks, t, g.txns[t].start, g.txns[t].start)
  }

  /** The write of k by t is persisted. */
  lemma PersistStep(place: Placement, guards: Guards, ops: seq<Op>, k: Key, g: Stage, t: TransactionId, v: Value, e: S.Entry)
    returns (after: Stage)
    requires Reaches(place, guards, ops, At(place, k, true, g)) && Persists(k, g, t, v, e)
    ensures after == g.(entry := e, persisted := g.persisted + {(t, k)})
    ensures Reaches(place, guards, ops + [PersistWrite(t, k)], At(place, k, true, after))
  {
    after := g.(entry := e, persisted := g.persisted + {(t, k)});
    EntryAt(place, k, true, g);
    PutAt(place, k, true, g, after);
    Step(place, guards, ops, At(place, k, true, g), PersistWrite(t, k));
  }

  lemma DoneStep(place: Placement, guards: Guards, ops: seq<Op>, k: Key, g: Stage, t: TransactionId) returns (after: Stage)
    requires Reaches(place, guards, ops, At(place, k, true, g)) && t in g.txns && g.txns[t].phase == Committed
    requires place(k) in g.txns[t].servers && t in g.writeSets && g.writeSets[t].Keys == {k} && (t, k) in g.persisted
    ensures after == g.(writeSets := g.writeSets - {t})
    ensures Reaches(place, guards, ops + [WritesDone(t, place(k))], At(place, k, true, after))
  {
    after := g.(writeSets := g.writeSets - {t});
    EntryAt(place, k, true, g);
    PutAt(place, k, true, g, after);
    Step(place, guards, ops, At(place, k, true, g), WritesDone(t, place(k)));
  }

  lemma CollectStep(place: Placement, guards: Guards, ops: seq<Op>, k: Key, g: Stage, ts: Instant, e: S.Entry)
    returns (after: Stage)
    requires Reaches(place, guards, ops, At(place, k, true, g)) && !guards.watermark && g.watermark < ts
    requires S.CollectEntry(g.entry, ts) == e
    ensures after == g.(entry := e, watermark := ts)
    ensures Reaches(place, guards, ops + [Collect(k, ts)], At(place, k, true, after))
  {
    after := g.(entry := e, watermark := ts);
    EntryAt(place, k, true, g);
    PutAt(place, k, true, g, after);
    Step(place, guards, ops, At(place, k, true, g), Collect(k, ts));
  }

  // ----- what the lock manager and the searches answer on small lists

  lemma {:induction false} NothingNarrows(
      locks: seq<Lock>, tid: TransactionId, start: Timestamp, finish: Timestamp, bound: Timestamp, i: nat)
    requires Bounded(locks) && 0 < i <= |locks| && MIN_TIMESTAMP <= start && bound < MAX_TIMESTAMP
    requires forall j :: 0 < j < |locks| && ForeignRead(locks[j], tid) ==> !Intersects(start, finish, locks[j])
    ensures Narrow(locks, tid, start, finish, bound, i) == LockList.Candidate(true, start, finish)
    decreases |locks| - i
  {
    if i < |locks| && locks[i].start <= bound {
      NothingNarrows(locks, tid, start, finish, bound, i + 1);
    }
  }

  /** A write request that meets no foreign read lock is granted as it is. */
  lemma WholeWrite(locks: S.LockSeq, tid: TransactionId, start: Instant, finish: Instant, p: nat)
    requires p + 1 < |locks| && start <= finish && (forall i :: 0 < i <= p ==> locks[i].start <= start)
    requires start < locks[p + 1].start
    requires forall j :: 0 < j < |locks| && ForeignRead(locks[j], tid) ==> !Intersects(start, finish, locks[j])
    ensures S.TryWriteLock(locks, tid, start, finish)
         == Granted(true, Interval(MIN_TIMESTAMP, start, finish), Insert(locks, p, Lock(tid, start, finish, WRITE, false)))
  {
    NothingNarrows(locks, tid, start, finish, finish, 1);
    StopIs(Starts(locks), start, 0, p);
  }

  /** A read request that no write lock reaches is granted as it is. */
  lemma RequestIsGranted(locks: S.LockSeq, tid: TransactionId, c: Interval, p: nat)
    requires p + 1 < |locks| && c.lockStart < locks[p + 1].start && c.start <= c.finish < locks[p + 1].start
    requires forall i :: 0 < i <= p ==> locks[i].start <= c.lockStart && (locks[i].op == WRITE ==> locks[i].finish < c.lockStart)
    ensures LockRead(locks, tid, c) == Granted(true, c, Insert(locks, p, Lock(tid, c.lockStart, c.finish, READ, false)))
  {
    StopIs(Starts(locks), c.lockStart, 0, p);
  }

  lemma RequestBetween(versions: S.Versions, start: Instant, finish: Instant, w: Timestamp, n: Timestamp)
    requires IsBelow(versions, start + 1, w) && IsAtOrAbove(versions, start + 1, n) && start <= finish < n
    ensures S.Candidate(versions, start, finish, S.LOCK_FIRST_INTERVAL) == w
    ensures S.ReadRequest(versions, start, finish, S.LOCK_FIRST_INTERVAL) == Interval(w + 1, start, finish)
  {
  }

  /** A read between the neighbours w and n is granted as it is when no write lock reaches into it. */
  lemma WholeRead(e: S.Entry, tid: TransactionId, start: Instant, finish: Instant, w: Timestamp, n: Timestamp, p: nat)
    requires IsBelow(e.versions, start + 1, w) && IsAtOrAbove(e.versions, start + 1, n) && start <= finish < n
    requires p + 1 < |e.locks| && w + 1 < e.locks[p + 1].start && finish < e.locks[p + 1].start
    requires forall i :: 0 < i <= p ==> e.locks[i].start <= w + 1 && (e.locks[i].op == WRITE ==> e.locks[i].finish < w + 1)
    ensures S.Candidate(e.versions, start, finish, S.LOCK_FIRST_INTERVAL) == w
    ensures S.TryReadLock(e, tid, start, finish, S.LOCK_FIRST_INTERVAL)
         == Granted(true, Interval(w + 1, start, finish), Insert(e.locks, p, Lock(tid, w + 1, finish, READ, false)))
  {
    RequestBetween(e.versions, start, finish, w, n);
    RequestIsGranted(e.locks, tid, Interval(w + 1, start, finish), p);
  }

  /** The list has room for a lock of t that starts at `start` behind position p. */
  ghost predicate RoomAt(locks: S.LockSeq, t: TransactionId, start: Instant, p: nat) {
    && Sorted(locks) && p + 1 < |locks| && (forall l :: l in locks && Inner(l.start) ==> l.tid != t)
    && locks[p].start <= start < locks[p + 1].start
  }

  lemma RoomKeepsShape(locks: S.LockSeq, t: TransactionId, start: Instant, finish: Instant, p: nat)
    requires RoomAt(locks, t, start, p)
    ensures var own := Insert(locks, p, Lock(t, start, finish, WRITE, false)); Bounded(own) && Sorted(own)
  {
    InsertKeepsBounds(locks, p, Lock(t, start, finish, WRITE, false));
    forall i | 0 < i <= p ensures locks[i].start <= start {
      assert locks[i].start <= locks[p].start || i == p;
    }
    StopIs(Starts(locks), start, 0, p);
    InsertKeepsOrder(locks, Lock(t, start, finish, WRITE, false));
  }

  /** The new lock is the only one of t. */
  lemma OneOwnLock(locks: S.LockSeq, t: TransactionId, start: Instant, finish: Instant, p: nat)
    requires RoomAt(locks, t, start, p)
    ensures var own := Insert(locks, p, Lock(t, start, finish, WRITE, false));
      forall i :: 0 <= i < |own| ==> (Own(own[i], t, start) <==> i == p + 1)
  {
    var own := Insert(locks, p, Lock(t, start, finish, WRITE, false));
    forall i | 0 <= i < |own| && i != p + 1 ensures !Own(own[i], t, start) {
      assert own[i] in locks;
    }
  }

  /** Committing at its start, a writer settles the one lock that it has. */
  lemma OwnLockSettles(locks: S.LockSeq, t: TransactionId, start: Instant, finish: Instant, p: nat)
    requires RoomAt(locks, t, start, p)
    ensures CommitInterval(Insert(locks, p, Lock(t, start, finish, WRITE, false)), t, start, start)
         == Insert(locks, p, Lock(t, start, start, WRITE, true))
  {
    var own := Insert(locks, p, Lock(t, start, finish, WRITE, false));
    OneOwnLock(locks, t, start, finish, p);
    RoomKeepsShape(locks, t, start, finish, p);
    CommitBlockIsComplete(own, start);
    var r := CommitInterval(own, t, start, start);
    var settled := Insert(locks, p, Lock(t, start, start, WRITE, true));
    forall i | 0 <= i < |r| ensures r[i] == settled[i] {
      assert Own(own[i], t, start) <==> i == p + 1;
    }
    assert r == settled;
  }

  lemma OwnLockMovesNowhere(locks: S.LockSeq, t: TransactionId, start: Instant, finish: Instant, p: nat)
    requires RoomAt(locks, t, start, p)
    ensures OrderSafe(Insert(locks, p, Lock(t, start, finish, WRITE, false)), t, start, start)
  {
    OneOwnLock(locks, t, start, finish, p);
    RoomKeepsShape(locks, t, start, finish, p);
  }

  // ----- a whole writer

  /** A new transaction finds room for its lock, which meets no read lock. */
  ghost predicate HasRoom(g: Stage, t: TransactionId, start: Instant, finish: Instant, p: nat) {
    && t !in g.txns && t !in g.writeSets && start <= finish && g.watermark < start && RoomAt(g.entry.locks, t, start, p)
    && forall l :: l in g.entry.locks && l.op == READ ==> l.finish < start || finish < l.start
  }

  // The stages of a writer: when it has begun, written, committed and been persisted, and when it is done.

  function Begun(g: Stage, t: TransactionId, start: Instant, finish: Instant): Stage {
    g.(txns := g.txns[t := Txn(Active, start, finish, map[], map[], {}, 0)])
  }

  function Writing(place: Placement, k: Key, g: Stage,
                   t: TransactionId, start: Instant, finish: Instant, v: Value, locks: S.LockSeq): Stage {
    g.(entry := g.entry.(locks := locks), writeSets := g.writeSets[t := map[k := S.PendingWrite(v, start)]],
       txns := g.txns[t := Txn(Active, start, finish, map[], map[k := v], {place(k)}, 0)])
  }

  function Written(place: Placement, k: Key, g: Stage, t: TransactionId, start: Instant, v: Value, e: S.Entry): Stage {
    g.(entry := e, txns := g.txns[t := Txn(Committed, start, start, map[], map[k := v], {place(k)}, g.commits)],
       commits := g.commits + 1, persisted := g.persisted + {(t, k)})
  }

  function Persisting(place: Placement, k: Key, g: Stage, t: TransactionId, start: Instant, v: Value, e: S.Entry): Stage {
    Written(place, k, g, t, start, v, e).(
      writeSets := g.writeSets[t := map[k := S.PendingWrite(v, start)]], persisted := g.persisted)
  }

  lemma RoomGrantsAll(g: Stage, t: TransactionId, start: Instant, finish: Instant, p: nat, locks: S.LockSeq)
    requires HasRoom(g, t, start, finish, p) && locks == Insert(g.entry.locks, p, Lock(t, start, finish, WRITE, false))
    ensures GrantsAll(Begun(g, t, start, finish), t, locks)
    ensures forall l :: l in g.entry.locks && ForeignRead(l, t) && l.start <= l.finish ==> !StrictlyInside(l, start, finish)
  {
    WholeWrite(g.entry.locks, t, start, finish, p);
  }

  lemma WritingFollows(place: Placement, k: Key, g: Stage,
                       t: TransactionId, start: Instant, finish: Instant, v: Value, locks: S.LockSeq)
    ensures AfterWrite(place, k, Begun(g, t, start, finish), t, v, locks) == Writing(place, k, g, t, start, finish, v, locks)
  {
    var a := Begun(g, t, start, finish).txns[t];
    assert a.writeSet[k := v] == map[k := v] && a.servers + {place(k)} == {place(k)};
    PutTwice(g.txns, t, a, Txn(Active, start, finish, map[], map[k := v], {place(k)}, 0));
  }

  lemma WriterWrites(place: Placement, guards: Guards, ops: seq<Op>, k: Key, touched: bool, g: Stage,
                     t: TransactionId, start: Instant, finish: Instant, v: Value, p: nat, locks: S.LockSeq)
    requires Reaches(place, guards, ops, At(place, k, touched, g)) && Coherent(touched, g) && HasRoom(g, t, start, finish, p)
    requires locks == Insert(g.entry.locks, p, Lock(t, start, finish, WRITE, false))
    ensures Reaches(place, guards, ops + [Begin(t, start, finish)] + [Write(t, k, v)],
                    At(place, k, true, Writing(place, k, g, t, start, finish, v, locks)))
  {
    var begun := BeginStep(place, guards, ops, k, touched, g, t, start, finish);
    RoomGrantsAll(g, t, start, finish, p, locks);
    WriteStep(place, guards, ops + [Begin(t, start, finish)], k, touched, begun, t, v, locks);
    WritingFollows(place, k, g, t, start, finish, v, locks);
  }

  lemma WriterPersists(place: Placement, k: Key, g: Stage, t: TransactionId, start: Instant, finish: Instant, v: Value,
                       p: nat, locks: S.LockSeq, e: S.Entry)
    requires RoomAt(g.entry.locks, t, start, p) && locks == Insert(g.entry.locks, p, Lock(t, start, finish, WRITE, false))
    requires e.versions == if start in g.entry.versions then g.entry.versions else g.entry.versions[start := v]
    requires e.locks == Insert(g.entry.locks, p, Lock(t, start, start, WRITE, true))
    ensures Persists(k, Persisting(place, k, g, t, start, v, g.entry.(locks := locks)), t, v, e)
  {
    OwnLockSettles(g.entry.locks, t, start, finish, p);
    OwnLockMovesNowhere(g.entry.locks, t, start, finish, p);
  }

  lemma WriterCommits(place: Placement, guards: Guards, ops: seq<Op>, k: Key, g: Stage,
                      t: TransactionId, start: Instant, finish: Instant, v: Value, locks: S.LockSeq, e: S.Entry)
    requires t !in g.writeSets && start in e.versions
    requires Reaches(place, guards, ops, At(place, k, true, Writing(place, k, g, t, start, finish, v, locks)))
    requires guards.distinct ==> forall u :: u in g.txns ==> !Writer(g.txns, u, k, start)
    requires Persists(k, Persisting(place, k, g, t, start, v, g.entry.(locks := locks)), t, v, e)
    ensures Reaches(place, guards, ops + [Commit(t)] + [PersistWrite(t, k)] + [WritesDone(t, place(k))],
                    At(place, k, true, Written(place, k, g, t, start, v, e)))
  {
    var committed := CommitStep(place, guards, ops, k, Writing(place, k, g, t, start, finish, v, locks), t);
    var persisted := PersistStep(place, guards, ops + [Commit(t)], k, committed, t, v, e);
    var done := DoneStep(place, guards, ops + [Commit(t)] + [PersistWrite(t, k)], k, persisted, t);
    assert done.writeSets == g.writeSets;
  }

  /** A transaction that begins, writes k, commits at its start and is persisted, with nothing in between. */
  function WriterOps(place: Placement, k: Key, t: TransactionId, start: Instant, finish: Instant, v: Value): seq<Op> {
    [Begin(t, start, finish), Write(t, k, v), Commit(t), PersistWrite(t, k), WritesDone(t, place(k))]
  }

  lemma WriterRuns(place: Placement, guards: Guards, ops: seq<Op>, k: Key, touched: bool, g: Stage,
                   t: TransactionId, start: Instant, finish: Instant, v: Value, p: nat, e: S.Entry)
    requires Reaches(place, guards, ops, At(place, k, touched, g)) && Coherent(touched, g) && HasRoom(g, t, start, finish, p)
    requires guards.distinct ==> forall u :: u in g.txns ==> !Writer(g.txns, u, k, start)
    requires e.versions == if start in g.entry.versions then g.entry.versions else g.entry.versions[start := v]
    requires e.locks == Insert(g.entry.locks, p, Lock(t, start, start, WRITE, true))
    ensures Reaches(place, guards, ops + WriterOps(place, k, t, start, finish, v),
                    At(place, k, true, Written(place, k, g, t, start, v, e)))
  {
    RoomKeepsShape(g.entry.locks, t, start, finish, p);
    var locks: S.LockSeq := Insert(g.entry.locks, p, Lock(t, start, finish, WRITE, false));
    WriterWrites(place, guards, ops, k, touched, g, t, start, finish, v, p, locks);
    WriterPersists(place, k, g, t, start, finish, v, p, locks, e);
    var writing := ops + [Begin(t, start, finish)] + [Write(t, k, v)];
    WriterCommits(place, guards, writing, k, g, t, start, finish, v, locks, e);
    assert ops + WriterOps(place, k, t, start, finish, v)
        == writing + [Commit(t)] + [PersistWrite(t, k)] + [WritesDone(t, place(k))];
  }

  // ----- a run that meets every guard

  const NOTHING := Stage(S.FRESH_ENTRY, map[], map[], map[], 0, MIN_TIMESTAMP, {})

  lemma NothingIsReached(place: Placement, guards: Guards, k: Key)
    ensures Reaches(place, guards, [], At(place, k, false, NOTHING)) && Coherent(false, NOTHING)
  {
    assert Trace(place, guards, [], [START]);
  }

  const LOCK_AT_5: S.LockSeq := [HEAD, Lock(1, 5, 5, WRITE, true), TAIL]

  /** Transaction 1 writes v at 5, the first access to the key. */
  lemma FirstWriter(place: Placement, guards: Guards, k: Key, v: Value) returns (g: Stage)
    ensures g == Written(place, k, NOTHING, 1, 5, v, S.Entry(S.NO_VERSIONS[5 := v], LOCK_AT_5))
    ensures Reaches(place, guards, WriterOps(place, k, 1, 5, 9, v), At(place, k, true, g))
  {
    NothingIsReached(place, guards, k);
    var e := S.Entry(S.NO_VERSIONS[5 := v], LOCK_AT_5);
    assert e.locks == Insert(NO_LOCKS, 0, Lock(1, 5, 5, WRITE, true));
    WriterRuns(place, guards, [], k, false, NOTHING, 1, 5, 9, v, 0, e);
    assert [] + WriterOps(place, k, 1, 5, 9, v) == WriterOps(place, k, 1, 5, 9, v);
    g := Written(place, k, NOTHING, 1, 5, v, e);
  }

  /** Transaction 1 writes v at 5 and commits; transaction 2, which begins at 20, reads v. */
  lemma SampleRunMeetsAllGuards(place: Placement, k: Key, v: Value)
    ensures var ops := WriterOps(place, k, 1, 5, 9, v) + [Begin(2, 20, 30)] + [Read(2, k)];
      && Legal(place, ops) && Guarded(place, ALL, ops)
      && var sys := Run(place, ops);
         2 in sys.txns && sys.txns[2].readSet == map[k := ReadRecord(5, v)] && HasCommitted(sys.txns, 1)
  {
    var g := FirstWriter(place, ALL, k, v);
    var ops := WriterOps(place, k, 1, 5, 9, v);
    g := BeginStep(place, ALL, ops, k, true, g, 2, 20, 30);
    WholeRead(g.entry, 2, 20, 30, 5, MAX_TIMESTAMP, 1);
    var locks: S.LockSeq := Insert(LOCK_AT_5, 1, Lock(2, 6, 30, READ, false));
    g := ReadStep(place, ALL, ops + [Begin(2, 20, 30)], k, true, g, 2, 5, 6, locks);
    ReachedByRun(place, ALL, ops + [Begin(2, 20, 30)] + [Read(2, k)], At(place, k, true, g));
  }

  // ----- two writers at one timestamp

  const LOCKS_AT_5: S.LockSeq := [HEAD, Lock(1, 5, 5, WRITE, true), Lock(2, 5, 5, WRITE, true), TAIL]

  /** Transactions 1 and 2 both commit at 5; 3 reads at 20. */
  function TwoAtOneTimestamp(place: Placement, k: Key, a: Value, b: Value): seq<Op> {
    WriterOps(place, k, 1, 5, 9, a) + WriterOps(place, k, 2, 5, 9, b) + [Begin(3, 20, 30)] + [Read(3, k)] + [Commit(3)]
  }

  function AfterTwoAtOneTimestamp(place: Placement, k: Key, a: Value, b: Value): Stage {
    Stage(S.Entry(S.NO_VERSIONS[5 := a],
                  [HEAD, Lock(1, 5, 5, WRITE, true), Lock(2, 5, 5, WRITE, true), Lock(3, 6, 30, READ, false), TAIL]),
          map[3 := map[k := 6]], map[],
          map[1 := Txn(Committed, 5, 5, map[], map[k := a], {place(k)}, 0),
              2 := Txn(Committed, 5, 5, map[], map[k := b], {place(k)}, 1),
              3 := Txn(Committed, 20, 20, map[k := ReadRecord(5, a)], map[], {}, 2)],
          3, MIN_TIMESTAMP, {(1, k), (2, k)})
  }

  lemma SecondWriter(place: Placement, guards: Guards, k: Key, a: Value, b: Value) returns (g: Stage)
    requires !guards.distinct
    ensures g == Stage(S.Entry(S.NO_VERSIONS[5 := a], LOCKS_AT_5), map[], map[],
                       map[1 := Txn(Committed, 5, 5, map[], map[k := a], {place(k)}, 0),
                           2 := Txn(Committed, 5, 5, map[], map[k := b], {place(k)}, 1)], 2, MIN_TIMESTAMP, {(1, k), (2, k)})
    ensures Reaches(place, guards, WriterOps(place, k, 1, 5, 9, a) + WriterOps(place, k, 2, 5, 9, b), At(place, k, true, g))
  {
    g := FirstWriter(place, guards, k, a);
    var e := S.Entry(S.NO_VERSIONS[5 := a], LOCKS_AT_5);
    assert e.locks == Insert(LOCK_AT_5, 1, Lock(2, 5, 5, WRITE, true));
    WriterRuns(place, guards, WriterOps(place, k, 1, 5, 9, a), k, true, g, 2, 5, 9, b, 1, e);
    g := Written(place, k, g, 2, 5, b, e);
  }

  lemma TwoAtOneTimestampRuns(place: Placement, k: Key, a: Value, b: Value)
    ensures Reaches(place, Guards(true, true, false, true), TwoAtOneTimestamp(place, k, a, b),
                    At(place, k, true, AfterTwoAtOneTimestamp(place, k, a, b)))
  {
    var guards := Guards(true, true, false, true);
    var g := SecondWriter(place, guards, k, a, b);
    var ops := WriterOps(place, k, 1, 5, 9, a) + WriterOps(place, k, 2, 5, 9, b);
    g := BeginStep(place, guards, ops, k, true, g, 3, 20, 30);
    WholeRead(g.entry, 3, 20, 30, 5, MAX_TIMESTAMP, 2);
    g := ReadStep(place, guards, ops + [Begin(3, 20, 30)], k, true, g, 3, 5, 6, Insert(LOCKS_AT_5, 2, Lock(3, 6, 30, READ, false)));
    g := CommitStep(place, guards, ops + [Begin(3, 20, 30)] + [Read(3, k)], k, g, 3);
    assert g.entry.locks == AfterTwoAtOneTimestamp(place, k, a, b).entry.locks;
    assert g == AfterTwoAtOneTimestamp(place, k, a, b);
  }

  /** The read of t is not what the serial replay gives in front of t. */
  ghost predicate ReadContradicts(txns: Txns, log: seq<TransactionId>, t: TransactionId, k: Key)
    requires SerialOrder(txns, log) && HasCommitted(txns, t) && k in txns[t].readSet
  {
    exists i :: 0 <= i < |log| && log[i] == t
      && txns[t].readSet[k].value != ValueOr(Lookup(Serial.Replay(WriteSets(txns, log[..i])), k))
  }

  /** The second of two writers that commit at 5 comes last in front of the reader, in every serial order. */
  lemma SecondComesLast(place: Placement, k: Key, a: Value, b: Value, log: seq<TransactionId>, n: nat)
    requires SerialOrder(AfterTwoAtOneTimestamp(place, k, a, b).txns, log) && n <= |log|
    requires n == |log| || log[n] == 3
    ensures Lookup(Serial.Replay(WriteSets(AfterTwoAtOneTimestamp(place, k, a, b).txns, log[..n])), k) == Some(b)
  {
    var txns := AfterTwoAtOneTimestamp(place, k, a, b).txns;
    assert HasCommitted(txns, 2) && HasCommitted(txns, 3);
    var j :| 0 <= j < |log| && log[j] == 2;
    forall i | j < i < n ensures k !in txns[log[i]].writeSet {
      assert HasCommitted(txns, log[i]) && Precedes(txns, log[j], log[i]);
    }
    Serial.LastWriterWins(WriteSets(txns, log[..n]), k, j);
  }

  lemma NothingIsCollectedThere(place: Placement, k: Key, a: Value, b: Value)
    ensures CollectionFree(TwoAtOneTimestamp(place, k, a, b))
  {
  }

  lemma SecondIsContradicted(place: Placement, k: Key, a: Value, b: Value, log: seq<TransactionId>)
    requires a != b && SerialOrder(AfterTwoAtOneTimestamp(place, k, a, b).txns, log)
    ensures var txns := AfterTwoAtOneTimestamp(place, k, a, b).txns;
      && HasCommitted(txns, 3) && ReadContradicts(txns, log, 3, k)
      && ValueOr(Lookup(Serial.Replay(WriteSets(txns, log)), k)) == b
  {
    assert HasCommitted(AfterTwoAtOneTimestamp(place, k, a, b).txns, 3);
    var i :| 0 <= i < |log| && log[i] == 3;
    SecondComesLast(place, k, a, b, log, i);
    SecondComesLast(place, k, a, b, log, |log|);
    assert log[..|log|] == log;
  }

  /** k is quiet after the run, its newest value is a, and its writers disagree. */
  lemma FirstValueStands(place: Placement, k: Key, a: Value, b: Value)
    requires a != b
    ensures var sys := At(place, k, true, AfterTwoAtOneTimestamp(place, k, a, b));
      && Quiet(place, sys, k) && !WritersAgree(sys.txns, k)
      && EntryOf(place, sys.servers, k).versions[Newest(place, sys, k)] == a
  {
    var g := AfterTwoAtOneTimestamp(place, k, a, b);
    EntryAt(place, k, true, g);
    assert Writer(g.txns, 1, k, 5) && Writer(g.txns, 2, k, 5);
    assert IsBelow(g.entry.versions, MAX_TIMESTAMP, 5);
  }

  /**
    Without the guard on commit timestamps, and with the other three: two transactions commit k at 5, the second
    value is lost, and a later reader is given the first. The run is not serializable, and its newest version of k is
    not the final value.
   */
  lemma SecondValueIsLost(place: Placement, k: Key, a: Value, b: Value)
    requires a != b
    ensures var ops := TwoAtOneTimestamp(place, k, a, b);
      && Legal(place, ops) && Guarded(place, Guards(true, true, false, true), ops) && CollectionFree(ops)
      && var sys := Run(place, ops);
         && Quiet(place, sys, k) && !WritersAgree(sys.txns, k)
         && HasCommitted(sys.txns, 3) && k in sys.txns[3].readSet
         && (forall log :: SerialOrder(sys.txns, log) ==> ReadContradicts(sys.txns, log, 3, k))
         && EntryOf(place, sys.servers, k).versions[Newest(place, sys, k)] == a
         && forall log :: SerialOrder(sys.txns, log) ==> ValueOr(Lookup(Serial.Replay(WriteSets(sys.txns, log)), k)) == b
  {
    var g := AfterTwoAtOneTimestamp(place, k, a, b);
    NothingIsCollectedThere(place, k, a, b);
    TwoAtOneTimestampRuns(place, k, a, b);
    ReachedByRun(place, Guards(true, true, false, true), TwoAtOneTimestamp(place, k, a, b), At(place, k, true, g));
    FirstValueStands(place, k, a, b);
    forall log | SerialOrder(g.txns, log)
      ensures HasCommitted(g.txns, 3) && ReadContradicts(g.txns, log, 3, k)
      ensures ValueOr(Lookup(Serial.Replay(WriteSets(g.txns, log)), k)) == b
    {
      SecondIsContradicted(place, k, a, b, log);
    }
  }

  // ----- a collection above an active reader

  const COLLECTED_LOCKS: S.LockSeq := [HEAD, Lock(4, 1, 1, READ, false), Lock(3, 40, 40, WRITE, true), TAIL]
  const WRITERS_LOCKS: S.LockSeq :=
    [HEAD, Lock(4, 1, 1, READ, false), Lock(2, 5, 5, WRITE, true), Lock(3, 40, 40, WRITE, true), TAIL]

  /** A reader at 1 reads, reader 1 begins at 20, and 2 and 3 write. */
  function BothWriters(place: Placement, k: Key, v: Value, u: Value): seq<Op> {
    [Begin(4, 1, 1)] + [Read(4, k)] + [Begin(1, 20, 30)] + WriterOps(place, k, 2, 5, 9, v) + WriterOps(place, k, 3, 40, 45, u)
  }

  /** Reader 1 begins at 20; 2 commits v at 5 and 3 commits u at 40; then everything up to 50 is collected, and 1 reads. */
  function CollectedAbove(place: Placement, k: Key, v: Value, u: Value): seq<Op> {
    BothWriters(place, k, v, u) + [Collect(k, 50)] + [Read(1, k)] + [Commit(1)]
  }

  /** When both writers are done. */
  function BeforeCollection(place: Placement, k: Key, v: Value, u: Value): Stage {
    Stage(S.Entry(S.NO_VERSIONS[5 := v][40 := u], WRITERS_LOCKS), map[4 := map[k := 1]], map[],
          map[4 := Txn(Active, 1, 1, map[k := ReadRecord(0, "")], map[], {}, 0), 1 := Txn(Active, 20, 30, map[], map[], {}, 0),
              2 := Txn(Committed, 5, 5, map[], map[k := v], {place(k)}, 0),
              3 := Txn(Committed, 40, 40, map[], map[k := u], {place(k)}, 1)], 2, MIN_TIMESTAMP, {(2, k), (3, k)})
  }

  const NO_WATERMARK := Guards(true, true, true, false)

  /** A reader at 1, whose lock will hide the next one from the collection, and a reader at 20 that waits. */
  lemma ReadersBegin(place: Placement, k: Key) returns (g: Stage)
    ensures g == Stage(S.FRESH_ENTRY.(locks := [HEAD, Lock(4, 1, 1, READ, false), TAIL]), map[4 := map[k := 1]], map[],
                       map[4 := Txn(Active, 1, 1, map[k := ReadRecord(0, "")], map[], {}, 0),
                           1 := Txn(Active, 20, 30, map[], map[], {}, 0)], 0, MIN_TIMESTAMP, {})
    ensures Reaches(place, NO_WATERMARK, [Begin(4, 1, 1)] + [Read(4, k)] + [Begin(1, 20, 30)], At(place, k, true, g))
  {
    NothingIsReached(place, NO_WATERMARK, k);
    g := BeginStep(place, NO_WATERMARK, [], k, false, NOTHING, 4, 1, 1);
    assert [] + [Begin(4, 1, 1)] == [Begin(4, 1, 1)];
    WholeRead(g.entry, 4, 1, 1, 0, MAX_TIMESTAMP, 0);
    g := ReadStep(place, NO_WATERMARK, [Begin(4, 1, 1)], k, false, g, 4, 0, 1, Insert(NO_LOCKS, 0, Lock(4, 1, 1, READ, false)));
    g := BeginStep(place, NO_WATERMARK, [Begin(4, 1, 1)] + [Read(4, k)], k, true, g, 1, 20, 30);
  }

  lemma OlderWriterCommits(place: Placement, k: Key, v: Value) returns (g: Stage)
    ensures g == Stage(S.Entry(S.NO_VERSIONS[5 := v], [HEAD, Lock(4, 1, 1, READ, false), Lock(2, 5, 5, WRITE, true), TAIL]),
                       map[4 := map[k := 1]], map[],
                       map[4 := Txn(Active, 1, 1, map[k := ReadRecord(0, "")], map[], {}, 0),
                           1 := Txn(Active, 20, 30, map[], map[], {}, 0),
                           2 := Txn(Committed, 5, 5, map[], map[k := v], {place(k)}, 0)], 1, MIN_TIMESTAMP, {(2, k)})
    ensures Reaches(place, NO_WATERMARK,
                    [Begin(4, 1, 1)] + [Read(4, k)] + [Begin(1, 20, 30)] + WriterOps(place, k, 2, 5, 9, v), At(place, k, true, g))
  {
    g := ReadersBegin(place, k);
    var ops := [Begin(4, 1, 1)] + [Read(4, k)] + [Begin(1, 20, 30)];
    var locks: S.LockSeq := Insert(g.entry.locks, 1, Lock(2, 5, 5, WRITE, true));
    WriterRuns(place, NO_WATERMARK, ops, k, true, g, 2, 5, 9, v, 1, S.Entry(S.NO_VERSIONS[5 := v], locks));
    g := Written(place, k, g, 2, 5, v, S.Entry(S.NO_VERSIONS[5 := v], locks));
    assert g.entry.locks == [HEAD, Lock(4, 1, 1, READ, false), Lock(2, 5, 5, WRITE, true), TAIL];
  }

  lemma WritersCommit(place: Placement, k: Key, v: Value, u: Value)
    ensures Reaches(place, NO_WATERMARK,
                    BothWriters(place, k, v, u),
                    At(place, k, true, BeforeCollection(place, k, v, u)))
  {
    var g := OlderWriterCommits(place, k, v);
    var ops := [Begin(4, 1, 1)] + [Read(4, k)] + [Begin(1, 20, 30)] + WriterOps(place, k, 2, 5, 9, v);
    assert WRITERS_LOCKS == Insert(g.entry.locks, 2, Lock(3, 40, 40, WRITE, true));
    var f := S.Entry(S.NO_VERSIONS[5 := v][40 := u], WRITERS_LOCKS);
    WriterRuns(place, NO_WATERMARK, ops, k, true, g, 3, 40, 45, u, 2, f);
    assert Written(place, k, g, 3, 40, u, f) == BeforeCollection(place, k, v, u);
  }

  /** The collection drops the version at 5, and the lock that kept readers out of 5. */
  lemma CollectionDropsBoth(v: Value, u: Value)
    ensures S.CollectEntry(S.Entry(S.NO_VERSIONS[5 := v][40 := u], WRITERS_LOCKS), 50)
         == S.Entry(S.NO_VERSIONS[40 := u], COLLECTED_LOCKS)
  {
    assert RemoveAt(WRITERS_LOCKS, 2) == COLLECTED_LOCKS;
    assert LockList.Collect(WRITERS_LOCKS, 50, 1) == LockList.Collect(COLLECTED_LOCKS, 50, 2);
    var versions: S.Versions := S.NO_VERSIONS[5 := v][40 := u];
    assert 40 in versions && versions.Keys == {0, 5, 40, MAX_TIMESTAMP};
    assert S.Erase(versions, 50) == S.NO_VERSIONS[40 := u];
  }

  function AfterCollectedAbove(place: Placement, k: Key, v: Value, u: Value): Stage {
    BeforeCollection(place, k, v, u).(
      entry := S.Entry(S.NO_VERSIONS[40 := u],
                       [HEAD, Lock(4, 1, 1, READ, false), Lock(1, 1, 30, READ, false), Lock(3, 40, 40, WRITE, true), TAIL]),
      readSets := map[4 := map[k := 1]][1 := map[k := 1]],
      txns := BeforeCollection(place, k, v, u).txns[1 := Txn(Committed, 20, 20, map[k := ReadRecord(0, "")], map[], {}, 2)],
      commits := 3, watermark := 50)
  }

  lemma CollectionRuns(place: Placement, k: Key, v: Value, u: Value) returns (g: Stage)
    ensures g == BeforeCollection(place, k, v, u).(entry := S.Entry(S.NO_VERSIONS[40 := u], COLLECTED_LOCKS), watermark := 50)
    ensures Reaches(place, NO_WATERMARK,
                    BothWriters(place, k, v, u) + [Collect(k, 50)], At(place, k, true, g))
  {
    WritersCommit(place, k, v, u);
    var ops := BothWriters(place, k, v, u);
    CollectionDropsBoth(v, u);
    g := CollectStep(place, NO_WATERMARK, ops, k, BeforeCollection(place, k, v, u), 50,
                     S.Entry(S.NO_VERSIONS[40 := u], COLLECTED_LOCKS));
  }

  lemma LateReadRuns(place: Placement, k: Key, v: Value, u: Value) returns (g: Stage)
    ensures g == AfterCollectedAbove(place, k, v, u).(
                   txns := BeforeCollection(place, k, v, u).txns[1 := Txn(Active, 20, 30, map[k := ReadRecord(0, "")], map[], {}, 0)],
                   commits := 2)
    ensures Reaches(place, NO_WATERMARK,
                    BothWriters(place, k, v, u) + [Collect(k, 50)] + [Read(1, k)], At(place, k, true, g))
  {
    g := CollectionRuns(place, k, v, u);
    var ops := BothWriters(place, k, v, u) + [Collect(k, 50)];
    WholeRead(g.entry, 1, 20, 30, 0, 40, 1);
    g := ReadStep(place, NO_WATERMARK, ops, k, true, g, 1, 0, 1, Insert(COLLECTED_LOCKS, 1, Lock(1, 1, 30, READ, false)));
    assert g.entry.locks == AfterCollectedAbove(place, k, v, u).entry.locks;
  }

  lemma CollectedAboveRuns(place: Placement, k: Key, v: Value, u: Value)
    ensures Reaches(place, NO_WATERMARK, CollectedAbove(place, k, v, u), At(place, k, true, AfterCollectedAbove(place, k, v, u)))
  {
    var g := LateReadRuns(place, k, v, u);
    var ops := BothWriters(place, k, v, u) + [Collect(k, 50)] + [Read(1, k)];
    g := CommitStep(place, NO_WATERMARK, ops, k, g, 1);
    assert g == AfterCollectedAbove(place, k, v, u);
  }

  lemma CollectedReadIsContradicted(place: Placement, k: Key, v: Value, u: Value, log: seq<TransactionId>)
    requires v != "" && SerialOrder(AfterCollectedAbove(place, k, v, u).txns, log)
    ensures var txns := AfterCollectedAbove(place, k, v, u).txns; HasCommitted(txns, 1) && ReadContradicts(txns, log, 1, k)
  {
    var txns := AfterCollectedAbove(place, k, v, u).txns;
    assert HasCommitted(txns, 1) && HasCommitted(txns, 2);
    var i :| 0 <= i < |log| && log[i] == 1;
    var j :| 0 <= j < |log| && log[j] == 2;
    forall m | 0 <= m < i ensures log[m] == 2 {
      assert HasCommitted(txns, log[m]) && Precedes(txns, log[m], log[i]);
    }
    Serial.LastWriterWins(WriteSets(txns, log[..i]), k, i - 1);
  }

  /**
    Without the guard on collection, and with the other three: a collection above an active reader drops the version
    below it and the lock that guarded it, and the reader is given the initial value. The run is not serializable.
   */
  lemma CollectedValueIsMissed(place: Placement, k: Key, v: Value, u: Value)
    requires v != ""
    ensures var ops := CollectedAbove(place, k, v, u);
      && Legal(place, ops) && Guarded(place, NO_WATERMARK, ops)
      && var txns := Run(place, ops).txns;
         && HasCommitted(txns, 1) && k in txns[1].readSet
         && forall log :: SerialOrder(txns, log) ==> ReadContradicts(txns, log, 1, k)
  {
    var g := AfterCollectedAbove(place, k, v, u);
    CollectedAboveRuns(place, k, v, u);
    ReachedByRun(place, NO_WATERMARK, CollectedAbove(place, k, v, u), At(place, k, true, g));
    forall log | SerialOrder(g.txns, log) ensures HasCommitted(g.txns, 1) && ReadContradicts(g.txns, log, 1, k) {
      CollectedReadIsContradicted(place, k, v, u, log);
    }
  }
}