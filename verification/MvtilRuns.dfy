/**
  Runs of the MVTIL store under the LOCK_FIRST_INTERVAL policy: any number of servers and transactions, every
  interleaving of the per-key sections, commits and aborts that contact only write servers and reach them one
  by one, and garbage collection. Transactions are not restarted. A run is legal when each step is possible; four
  guards, which the code does not check, are predicates on legal runs of their own.
 */
module MvtilRuns {
  import opened Common
  import opened SortedMap
  import opened LockList
  import opened LockSafety
  import opened LockRemoval
  import S = MvtilServer

  /** Committed starts when CommitTransaction starts, Aborted when AbortTransaction starts. */
  datatype Phase = Active | Committed | Aborted

  /** A read: the timestamp of the version that answered it and that version's value. */
  datatype ReadRecord = ReadRecord(version: Timestamp, value: Value)

  /**
    A client transaction; [start, finish] is its committed_interval, which a commit collapses to its start. `order`
    numbers the commits as they start.
   */
  datatype Txn = Txn(
    phase: Phase, start: Instant, finish: Instant,
    readSet: map<Key, ReadRecord>, writeSet: map<Key, Value>, servers: set<ServerId>, order: nat)

  type Servers = map<ServerId, S.Server>
  type Txns = map<TransactionId, Txn>

  /**
    `commits` counts the commits that have started, `watermark` is the highest collected timestamp, and `persisted` are
    the writes that commits have persisted so far.
   */
  datatype System = System(
    servers: Servers, txns: Txns, commits: nat, watermark: Timestamp, persisted: set<(TransactionId, Key)>)

  datatype Op =
    | Begin(tid: TransactionId, start: Instant, finish: Instant)
    | Read(tid: TransactionId, key: Key)
    | Write(tid: TransactionId, key: Key, value: Value)
    | Commit(tid: TransactionId)
    | PersistWrite(tid: TransactionId, key: Key)
    | WritesDone(tid: TransactionId, server: ServerId)
    | PersistRead(tid: TransactionId, key: Key)
    | ReadsDone(tid: TransactionId, server: ServerId)
    | Abort(tid: TransactionId)
    | AbortWrite(tid: TransactionId, key: Key)
    | AbortRead(tid: TransactionId, key: Key)
    | Collect(key: Key, ts: Instant)

  type Placement = Key -> ServerId

  const START := System(map[], map[], 0, MIN_TIMESTAMP, {})

  function Srv(servers: Servers, s: ServerId): S.Server {
    if s in servers then servers[s] else S.EMPTY_SERVER
  }

  function Put(servers: Servers, s: ServerId, server: S.Server): (r: Servers)
    ensures forall t {:trigger Srv(r, t)} :: Srv(r, t) == if t == s then server else Srv(servers, t)
  {
    servers[s := server]
  }

  predicate HasEntry(place: Placement, servers: Servers, k: Key) {
    k in Srv(servers, place(k)).entries
  }

  /** The entry of a key; a key nobody asked for yet has no versions and no locks. */
  function EntryOf(place: Placement, servers: Servers, k: Key): S.Entry {
    S.EntryOr(Srv(servers, place(k)).entries, k)
  }

  function PutEntry(place: Placement, servers: Servers, k: Key, e: S.Entry): Servers {
    var server := Srv(servers, place(k));
    Put(servers, place(k), server.(entries := server.entries[k := e]))
  }

  predicate In(sys: System, tid: TransactionId, phase: Phase) {
    tid in sys.txns && sys.txns[tid].phase == phase
  }

  predicate PendsWrite(place: Placement, sys: System, tid: TransactionId, k: Key) {
    k in S.WriteSet(Srv(sys.servers, place(k)), tid)
  }

  predicate PendsRead(place: Placement, sys: System, tid: TransactionId, k: Key) {
    k in S.ReadSet(Srv(sys.servers, place(k)), tid)
  }

  /** What HandleReadRequest gets from TryReadLock. */
  ghost function ReadGrant(place: Placement, sys: System, tid: TransactionId, k: Key): (g: Granted)
    requires tid in sys.txns
    ensures Bounded(g.locks)
  {
    S.TryReadLock(EntryOf(place, sys.servers, k), tid, sys.txns[tid].start, sys.txns[tid].finish, S.LOCK_FIRST_INTERVAL)
  }

  /** The version that answers a read. */
  ghost function ReadVersion(place: Placement, sys: System, tid: TransactionId, k: Key): Timestamp
    requires tid in sys.txns
  {
    S.Candidate(EntryOf(place, sys.servers, k).versions, sys.txns[tid].start, sys.txns[tid].finish, S.LOCK_FIRST_INTERVAL)
  }

  function WriteGrant(place: Placement, sys: System, tid: TransactionId, k: Key): (g: Granted)
    requires tid in sys.txns
    ensures Bounded(g.locks)
  {
    S.TryWriteLock(EntryOf(place, sys.servers, k).locks, tid, sys.txns[tid].start, sys.txns[tid].finish)
  }

  /** Where the locks begin that a commit or an abort of a write, or of a read, looks for. */
  function WriteStart(place: Placement, sys: System, tid: TransactionId, k: Key): Instant
    requires PendsWrite(place, sys, tid, k)
  {
    S.WriteSet(Srv(sys.servers, place(k)), tid)[k].start
  }

  function ReadStart(place: Placement, sys: System, tid: TransactionId, k: Key): Instant
    requires PendsRead(place, sys, tid, k)
  {
    S.ReadSet(Srv(sys.servers, place(k)), tid)[k]
  }

  // ----- the steps

  ghost predicate Enabled(place: Placement, sys: System, op: Op) {
    match op
    case Begin(t, start, finish) => t !in sys.txns && start <= finish
    case Read(t, k) =>
      && In(sys, t, Active) && k !in sys.txns[t].readSet && k !in sys.txns[t].writeSet
      && ReadGrant(place, sys, t, k).ok
    case Write(t, k, v) =>
      In(sys, t, Active) && (PendsWrite(place, sys, t, k) || WriteGrant(place, sys, t, k).ok)
    case Commit(t) => In(sys, t, Active)
    case PersistWrite(t, k) => In(sys, t, Committed) && PendsWrite(place, sys, t, k) && HasEntry(place, sys.servers, k)
    case WritesDone(t, s) =>
      && t in sys.txns && sys.txns[t].phase != Active && s in sys.txns[t].servers
      && (sys.txns[t].phase == Committed ==>
            forall k :: k in S.WriteSet(Srv(sys.servers, s), t) ==> (t, k) in sys.persisted)
    case PersistRead(t, k) =>
      && In(sys, t, Committed) && PendsRead(place, sys, t, k) && place(k) in sys.txns[t].servers
      && HasEntry(place, sys.servers, k)
    case ReadsDone(t, s) => t in sys.txns && sys.txns[t].phase != Active && s in sys.txns[t].servers
    case Abort(t) => In(sys, t, Active)
    case AbortWrite(t, k) => In(sys, t, Aborted) && PendsWrite(place, sys, t, k) && HasEntry(place, sys.servers, k)
    case AbortRead(t, k) =>
      && In(sys, t, Aborted) && PendsRead(place, sys, t, k) && place(k) in sys.txns[t].servers
      && HasEntry(place, sys.servers, k)
    case Collect(k, ts) => HasEntry(place, sys.servers, k)
  }

  /** The server's part of a read: the lock is taken and recorded, and the reply narrows the interval. */
  ghost function ReadLocked(place: Placement, sys: System, t: TransactionId, k: Key): System
    requires t in sys.txns && ReadGrant(place, sys, t, k).ok
  {
    var g := ReadGrant(place, sys, t, k);
    S.GrantedReadIsInner(EntryOf(place, sys.servers, k), t, sys.txns[t].start, sys.txns[t].finish, S.LOCK_FIRST_INTERVAL);
    var server := Srv(sys.servers, place(k));
    var noted := server.(entries := server.entries[k := EntryOf(place, sys.servers, k).(locks := g.locks)],
                         pendingReadSets := server.pendingReadSets[t := S.ReadSet(server, t)[k := g.interval.lockStart]]);
    sys.(servers := Put(sys.servers, place(k), noted),
         txns := sys.txns[t := sys.txns[t].(start := g.interval.start, finish := g.interval.finish)])
  }

  /** The lock manager's part of a first write: the lock is taken and the reply narrows the interval. */
  ghost function WriteLocked(place: Placement, sys: System, t: TransactionId, k: Key): System
    requires t in sys.txns && WriteGrant(place, sys, t, k).ok
  {
    var g := WriteGrant(place, sys, t, k);
    S.GrantedWriteIsInner(EntryOf(place, sys.servers, k).locks, t, sys.txns[t].start, sys.txns[t].finish);
    sys.(servers := PutEntry(place, sys.servers, k, EntryOf(place, sys.servers, k).(locks := g.locks)),
         txns := sys.txns[t := sys.txns[t].(start := g.interval.start, finish := g.interval.finish)])
  }

  ghost function Next(place: Placement, sys: System, op: Op): System
    requires Enabled(place, sys, op)
  {
    match op
    case Begin(t, start, finish) => sys.(txns := sys.txns[t := Txn(Active, start, finish, map[], map[], {}, 0)])
    case Read(t, k) =>
      var w := ReadVersion(place, sys, t, k);
      var locked := ReadLocked(place, sys, t, k);
      var a := locked.txns[t];
      var rd := ReadRecord(w, EntryOf(place, sys.servers, k).versions[w]);
      locked.(txns := locked.txns[t := a.(readSet := a.readSet[k := rd])])
    case Write(t, k, v) =>
      var a := sys.txns[t];
      var server := Srv(sys.servers, place(k));
      if PendsWrite(place, sys, t, k) then
        var again := S.WriteSet(server, t)[k].(value := v);
        sys.(servers := Put(sys.servers, place(k),
               server.(pendingWriteSets := server.pendingWriteSets[t := S.WriteSet(server, t)[k := again]])),
             txns := sys.txns[t := a.(writeSet := a.writeSet[k := v])])
      else
        var locked := WriteLocked(place, sys, t, k);
        var noted := Srv(locked.servers, place(k));
        var p := S.PendingWrite(v, locked.txns[t].start);
        locked.(servers := Put(locked.servers, place(k),
                  noted.(pendingWriteSets := noted.pendingWriteSets[t := S.WriteSet(noted, t)[k := p]])),
                txns := locked.txns[t := locked.txns[t].(writeSet := a.writeSet[k := v], servers := a.servers + {place(k)})])
    case Commit(t) =>
      var a := sys.txns[t];
      sys.(txns := sys.txns[t := a.(phase := Committed, finish := a.start, order := sys.commits)], commits := sys.commits + 1)
    case PersistWrite(t, k) =>
      var p := S.WriteSet(Srv(sys.servers, place(k)), t)[k];
      var e := EntryOf(place, sys.servers, k);
      sys.(servers := PutEntry(place, sys.servers, k, S.PersistVersion(e, t, p.value, p.start, sys.txns[t].start)),
           persisted := sys.persisted + {(t, k)})
    case WritesDone(t, s) =>
      var server := Srv(sys.servers, s);
      sys.(servers := Put(sys.servers, s, server.(pendingWriteSets := server.pendingWriteSets - {t})))
    case PersistRead(t, k) =>
      var e := EntryOf(place, sys.servers, k);
      sys.(servers := PutEntry(place, sys.servers, k, S.PersistReadLock(e, t, ReadStart(place, sys, t, k), sys.txns[t].start)))
    case ReadsDone(t, s) =>
      var server := Srv(sys.servers, s);
      sys.(servers := Put(sys.servers, s, server.(pendingReadSets := server.pendingReadSets - {t})))
    case Abort(t) => sys.(txns := sys.txns[t := sys.txns[t].(phase := Aborted)])
    case AbortWrite(t, k) =>
      var e := EntryOf(place, sys.servers, k);
      sys.(servers := PutEntry(place, sys.servers, k, S.RemoveVersion(e, t, WriteStart(place, sys, t, k))))
    case AbortRead(t, k) =>
      var e := EntryOf(place, sys.servers, k);
      sys.(servers := PutEntry(place, sys.servers, k, S.RemoveVersion(e, t, ReadStart(place, sys, t, k))))
    case Collect(k, ts) =>
      sys.(servers := PutEntry(place, sys.servers, k, S.CollectEntry(EntryOf(place, sys.servers, k), ts)),
           watermark := if sys.watermark < ts then ts else sys.watermark)
  }

  ghost predicate Legal(place: Placement, ops: seq<Op>)
    decreases |ops|, 0
  {
    ops == [] || (Legal(place, ops[..|ops| - 1])
                  && Enabled(place, Run(place, ops[..|ops| - 1]), ops[|ops| - 1]))
  }

  ghost function Run(place: Placement, ops: seq<Op>): System
    requires Legal(place, ops)
    decreases |ops|, 1
  {
    if ops == [] then START else Next(place, Run(place, ops[..|ops| - 1]), ops[|ops| - 1])
  }

  // ----- the guards

  /** Which of the four guards a run has to meet. */
  datatype Guards = Guards(nested: bool, order: bool, distinct: bool, watermark: bool)

  /** What exclusion needs, and what serializability needs. */
  const EXCLUSION := Guards(true, true, false, false)
  const ALL := Guards(true, true, true, true)

  /** A first write overruns no read lock of another transaction. */
  ghost predicate MeetsNested(place: Placement, sys: System, op: Op)
    requires Enabled(place, sys, op)
  {
    op.Write? && !PendsWrite(place, sys, op.tid, op.key) ==>
      !Overruns(EntryOf(place, sys.servers, op.key).locks, op.tid,
                Interval(MIN_TIMESTAMP, sys.txns[op.tid].start, sys.txns[op.tid].finish))
  }

  /** Settling the locks of a committed transaction moves none past a lock behind it. */
  ghost predicate MeetsOrder(place: Placement, sys: System, op: Op)
    requires Enabled(place, sys, op)
  {
    match op
    case PersistWrite(t, k) =>
      OrderSafe(EntryOf(place, sys.servers, k).locks, t, WriteStart(place, sys, t, k), sys.txns[t].start)
    case PersistRead(t, k) =>
      OrderSafe(EntryOf(place, sys.servers, k).locks, t, ReadStart(place, sys, t, k), sys.txns[t].start)
    case _ => true
  }

  /** No two transactions that write a common key commit at one timestamp. */
  ghost predicate MeetsDistinct(sys: System, op: Op) {
    op.Commit? && op.tid in sys.txns ==>
      forall t :: In(sys, t, Committed) && sys.txns[t].start == sys.txns[op.tid].start ==>
        sys.txns[t].writeSet.Keys !! sys.txns[op.tid].writeSet.Keys
  }

  /** The transaction is active or still has writes to persist. */
  ghost predicate Unfinished(sys: System, t: TransactionId) {
    In(sys, t, Active) || exists s :: t in Srv(sys.servers, s).pendingWriteSets
  }

  /** Collection stays below every unfinished transaction, and new transactions begin above it. */
  ghost predicate MeetsWatermark(sys: System, op: Op) {
    match op
    case Begin(_, start, _) => sys.watermark < start
    case Collect(_, ts) => forall t :: t in sys.txns && Unfinished(sys, t) ==> ts < sys.txns[t].start
    case _ => true
  }

  ghost predicate Meets(place: Placement, g: Guards, sys: System, op: Op)
    requires Enabled(place, sys, op)
  {
    && (g.nested ==> MeetsNested(place, sys, op))
    && (g.order ==> MeetsOrder(place, sys, op))
    && (g.distinct ==> MeetsDistinct(sys, op))
    && (g.watermark ==> MeetsWatermark(sys, op))
  }

  /** Every step of the run meets the guards. */
  ghost predicate Guarded(place: Placement, g: Guards, ops: seq<Op>)
    requires Legal(place, ops)
  {
    ops == [] || (Guarded(place, g, ops[..|ops| - 1])
                  && Meets(place, g, Run(place, ops[..|ops| - 1]), ops[|ops| - 1]))
  }

  /** Nothing is ever collected. */
  ghost predicate CollectionFree(ops: seq<Op>) {
    forall i :: 0 <= i < |ops| ==> !ops[i].Collect?
  }
}
