/**
  All runs of the MVTO+ store: any number of servers and transactions, every interleaving of
  the sections of MvtoServer, with commits and aborts reaching the servers one by one and key by key.
 */
module MvtoRuns {
  import opened Common
  import opened SortedMap
  import Serial
  import S = MvtoServer

  /** Committed starts when CommitTransaction starts, Aborted when AbortTransaction starts. */
  datatype Phase = Active | Committed | Aborted

  datatype ReadRecord = ReadRecord(key: Key, version: Timestamp, value: Value)

  /** One attempt of a client transaction: what it read with R_SUCCESS, wrote, and which servers it must tell. */
  datatype Attempt = Attempt(
    tid: TransactionId, phase: Phase, readSet: set<ReadRecord>, writeSet: map<Key, Value>, servers: set<ServerId>)

  datatype System = System(
    servers: map<ServerId, S.Server>,
    attempts: map<Instant, Attempt>,
    current: map<TransactionId, Instant>)

  datatype Op =
    | Begin(tid: TransactionId, ts: Instant)
    | Read(ts: Instant, key: Key)
    | Write(ts: Instant, key: Key, value: Value, garbage: S.VersionState)
    | Commit(ts: Instant)
    | CommitKey(ts: Instant, key: Key)
    | CommitWritesDone(ts: Instant, server: ServerId)
    | CommitReadsDone(ts: Instant, server: ServerId)
    | Abort(ts: Instant)
    | AbortKey(ts: Instant, key: Key)
    | AbortWritesDone(ts: Instant, server: ServerId)
    | AbortMark(ts: Instant, server: ServerId, key: Key)
    | AbortReadsDone(ts: Instant, server: ServerId)

  type Placement = Key -> ServerId

  const START := System(map[], map[], map[])

  type Servers = map<ServerId, S.Server>

  /** A server that has not been reached yet is in its initial state. */
  function Srv(servers: Servers, s: ServerId): S.Server {
    if s in servers then servers[s] else S.EMPTY_SERVER
  }

  function Put(servers: Servers, s: ServerId, server: S.Server): (r: Servers)
    ensures forall t {:trigger Srv(r, t)} :: Srv(r, t) == if t == s then server else Srv(servers, t)
  {
    servers[s := server]
  }

  predicate HasList(place: Placement, servers: Servers, k: Key) {
    k in Srv(servers, place(k)).versions
  }

  function List(place: Placement, servers: Servers, k: Key): S.VersionList
    requires HasList(place, servers, k)
  {
    Srv(servers, place(k)).versions[k]
  }

  /** The attempt is the latest one of its transaction and is in the given phase. */
  predicate In(sys: System, ts: Instant, phase: Phase) {
    && ts in sys.attempts && sys.attempts[ts].phase == phase
    && sys.attempts[ts].tid in sys.current && sys.current[sys.attempts[ts].tid] == ts
  }

  /** The last attempt of the transaction, if any, has ended and its write servers have answered. */
  predicate Idle(sys: System, tid: TransactionId) {
    tid in sys.current ==>
      && sys.current[tid] in sys.attempts
      && var a := sys.attempts[sys.current[tid]];
      && a.phase != Active
      && forall s :: s in a.servers ==> tid !in Srv(sys.servers, s).pendingWrite
  }

  ghost predicate Enabled(place: Placement, sys: System, op: Op) {
    match op
    case Begin(tid, ts) => ts !in sys.attempts && Idle(sys, tid)
    case Read(ts, k) =>
      In(sys, ts, Active) && S.Read(Srv(sys.servers, place(k)), sys.attempts[ts].tid, ts, k).1.ReadOk?
    case Write(ts, k, v, garbage) =>
      In(sys, ts, Active) && S.WriteAllowed(Srv(sys.servers, place(k)), sys.attempts[ts].tid, ts, k)
    case Commit(ts) => In(sys, ts, Active)
    case Abort(ts) => In(sys, ts, Active)
    case CommitKey(ts, k) =>
      In(sys, ts, Committed) && S.Wrote(Srv(sys.servers, place(k)), sys.attempts[ts].tid, k)
    case CommitWritesDone(ts, s) =>
      && In(sys, ts, Committed) && s in sys.attempts[ts].servers
      && forall k :: S.Wrote(Srv(sys.servers, s), sys.attempts[ts].tid, k) && k in Srv(sys.servers, s).versions
           ==> ts in Srv(sys.servers, s).versions[k] && Srv(sys.servers, s).versions[k][ts].state == S.COMMITTED
    case CommitReadsDone(ts, s) => In(sys, ts, Committed) && s in sys.attempts[ts].servers
    case AbortKey(ts, k) =>
      In(sys, ts, Aborted) && S.Wrote(Srv(sys.servers, place(k)), sys.attempts[ts].tid, k)
    case AbortWritesDone(ts, s) =>
      && In(sys, ts, Aborted) && s in sys.attempts[ts].servers
      && forall k :: S.Wrote(Srv(sys.servers, s), sys.attempts[ts].tid, k) && k in Srv(sys.servers, s).versions
           ==> ts !in Srv(sys.servers, s).versions[k]
    case AbortMark(ts, s, k) =>
      && In(sys, ts, Aborted) && s in sys.attempts[ts].servers
      && sys.attempts[ts].tid in Srv(sys.servers, s).pendingRead && k in Srv(sys.servers, s).pendingRead[sys.attempts[ts].tid]
    case AbortReadsDone(ts, s) => In(sys, ts, Aborted) && s in sys.attempts[ts].servers
  }

  ghost function Next(place: Placement, sys: System, op: Op): System
    requires Enabled(place, sys, op)
  {
    match op
    case Begin(tid, ts) =>
      sys.(attempts := sys.attempts[ts := Attempt(tid, Active, {}, map[], {})], current := sys.current[tid := ts])
    case Read(ts, k) =>
      var a := sys.attempts[ts];
      var (server, reply) := S.Read(Srv(sys.servers, place(k)), a.tid, ts, k);
      sys.(servers := Put(sys.servers, place(k), server),
           attempts := sys.attempts[ts := a.(readSet := a.readSet + {ReadRecord(k, reply.version, reply.value)})])
    case Write(ts, k, v, garbage) =>
      var a := sys.attempts[ts];
      sys.(servers := Put(sys.servers, place(k), S.Write(Srv(sys.servers, place(k)), a.tid, ts, k, v, garbage)),
           attempts := sys.attempts[ts := a.(writeSet := a.writeSet[k := v], servers := a.servers + {place(k)})])
    case Commit(ts) => sys.(attempts := sys.attempts[ts := sys.attempts[ts].(phase := Committed)])
    case Abort(ts) => sys.(attempts := sys.attempts[ts := sys.attempts[ts].(phase := Aborted)])
    case CommitKey(ts, k) =>
      sys.(servers := Put(sys.servers, place(k), S.CommitKey(Srv(sys.servers, place(k)), ts, k)))
    case CommitWritesDone(ts, s) =>
      sys.(servers := Put(sys.servers, s, S.ForgetWrites(Srv(sys.servers, s), sys.attempts[ts].tid)))
    case CommitReadsDone(ts, s) =>
      sys.(servers := Put(sys.servers, s, S.ForgetReads(Srv(sys.servers, s), sys.attempts[ts].tid)))
    case AbortKey(ts, k) =>
      sys.(servers := Put(sys.servers, place(k), S.AbortKey(Srv(sys.servers, place(k)), ts, k)))
    case AbortWritesDone(ts, s) =>
      sys.(servers := Put(sys.servers, s, S.ForgetWrites(Srv(sys.servers, s), sys.attempts[ts].tid)))
    case AbortMark(ts, s, k) =>
      var server := Srv(sys.servers, s);
      sys.(servers := Put(sys.servers, s, S.EraseMark(server, ts, k, server.pendingRead[sys.attempts[ts].tid][k])))
    case AbortReadsDone(ts, s) =>
      sys.(servers := Put(sys.servers, s, S.ForgetReads(Srv(sys.servers, s), sys.attempts[ts].tid)))
  }

  ghost predicate Legal(place: Placement, ops: seq<Op>)
    decreases |ops|, 0
  {
    ops == [] || (Legal(place, ops[..|ops| - 1])
                  && Enabled(place, Run(place, ops[..|ops| - 1]), ops[|ops| - 1]))
  }

  ghost function Run(place: Placement, ops: seq<Op>): System
    requires Legal(place, ops)
    decreases |ops|, 1
  {
    if ops == [] then START else Next(place, Run(place, ops[..|ops| - 1]), ops[|ops| - 1])
  }

  /** A legal run may be extended by any enabled step. */
  lemma Extend(place: Placement, ops: seq<Op>, op: Op)
    requires Legal(place, ops) && Enabled(place, Run(place, ops), op)
    ensures Legal(place, ops + [op]) && Run(place, ops + [op]) == Next(place, Run(place, ops), op)
  {
    assert (ops + [op])[..|ops + [op]| - 1] == ops;
  }
}
