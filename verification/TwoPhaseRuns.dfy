/**
  All runs of the distributed two-phase-locking store, with commits and aborts reaching the servers
  one by one and key by key.
 */
module TwoPhaseRuns {
  import opened Common
  import opened Serial
  import S = TwoPhaseServer

  datatype Phase = Active | Committed | Aborted

  /** A server read: None is the FAIL_NO_VERSION answer. */
  datatype ReadRecord = ReadRecord(key: Key, value: Option<Value>)

  /**
    A client transaction. `fetching` is the key of a read whose lock is taken but whose value is not yet
    looked up; `released` are the keys that the commit or abort loop of a server has passed.
   */
  datatype Txn = Txn(
    phase: Phase, fetching: Option<Key>, readSet: set<ReadRecord>, writeSet: map<Key, Value>,
    servers: set<ServerId>, released: set<Key>)

  /** What a transaction had read and written when its CommitTransaction started. */
  datatype Commitment = Commitment(readSet: set<ReadRecord>, writeSet: map<Key, Value>)

  /** `atomic` is the abstract store: it takes all writes of a transaction when its commit starts. */
  datatype System = System(
    servers: Servers, txns: map<TransactionId, Txn>, history: seq<Commitment>, atomic: map<Key, Value>)

  datatype Op =
    | Begin(tid: TransactionId)
    | LockRead(tid: TransactionId, key: Key)
    | Fetch(tid: TransactionId)
    | Write(tid: TransactionId, key: Key, value: Value)
    | Commit(tid: TransactionId)
    | Abort(tid: TransactionId)
    | CommitKey(tid: TransactionId, key: Key)
    | AbortKey(tid: TransactionId, key: Key)
    | Done(tid: TransactionId, server: ServerId)

  type Placement = Key -> ServerId
  type Servers = map<ServerId, S.Server>

  const START := System(map[], map[], [], map[])
  const FRESH := Txn(Active, None, {}, map[], {}, {})

  function Srv(servers: Servers, s: ServerId): S.Server {
    if s in servers then servers[s] else S.EMPTY_SERVER
  }

  function Put(servers: Servers, s: ServerId, server: S.Server): (r: Servers)
    ensures forall t {:trigger Srv(r, t)} :: Srv(r, t) == if t == s then server else Srv(servers, t)
  {
    servers[s := server]
  }

  predicate In(sys: System, tid: TransactionId, phase: Phase) {
    tid in sys.txns && sys.txns[tid].phase == phase
  }

  /** Active, and no request is outstanding: the client calls one server at a time. */
  predicate Ready(sys: System, tid: TransactionId) {
    In(sys, tid, Active) && sys.txns[tid].fetching == None
  }

  /** tid has an unfinished operation on k at the server of k. */
  predicate Holds(place: Placement, sys: System, tid: TransactionId, k: Key) {
    && tid in sys.txns && k !in sys.txns[tid].released
    && k in S.Operations(Srv(sys.servers, place(k)), tid)
  }

  /** A transaction has ended when each server it locked keys on has answered the commit or abort. */
  predicate Ended(sys: System, tid: TransactionId) {
    tid in sys.txns ==>
      sys.txns[tid].phase != Active && forall s :: s in sys.txns[tid].servers ==> tid !in Srv(sys.servers, s).pending
  }

  predicate Enabled(place: Placement, sys: System, op: Op) {
    match op
    case Begin(t) => Ended(sys, t)
    case LockRead(t, k) => Ready(sys, t) && S.ReadGranted(Srv(sys.servers, place(k)), k)
    case Fetch(t) => In(sys, t, Active) && sys.txns[t].fetching.Some?
    case Write(t, k, v) => Ready(sys, t) && S.WriteGranted(Srv(sys.servers, place(k)), t, k)
    case Commit(t) => Ready(sys, t)
    case Abort(t) => Ready(sys, t)
    case CommitKey(t, k) => In(sys, t, Committed) && Holds(place, sys, t, k)
    case AbortKey(t, k) => In(sys, t, Aborted) && Holds(place, sys, t, k)
    case Done(t, s) =>
      && t in sys.txns && sys.txns[t].phase != Active && s in sys.txns[t].servers
      && forall k :: k in S.Operations(Srv(sys.servers, s), t) ==> k in sys.txns[t].released
  }

  function Next(place: Placement, sys: System, op: Op): System
    requires Enabled(place, sys, op)
  {
    var tid := op.tid;
    match op
    case Begin(_) => sys.(txns := sys.txns[tid := FRESH])
    case LockRead(_, k) =>
      var a := sys.txns[tid];
      sys.(servers := Put(sys.servers, place(k), S.LockRead(Srv(sys.servers, place(k)), tid, k)),
           txns := sys.txns[tid := a.(fetching := Some(k), servers := a.servers + {place(k)})])
    case Fetch(_) =>
      var a := sys.txns[tid];
      var k := a.fetching.value;
      var rd := ReadRecord(k, S.Fetch(Srv(sys.servers, place(k)), k));
      sys.(txns := sys.txns[tid := a.(fetching := None, readSet := a.readSet + {rd})])
    case Write(_, k, v) =>
      var a := sys.txns[tid];
      sys.(servers := Put(sys.servers, place(k), S.Write(Srv(sys.servers, place(k)), tid, k, v)),
           txns := sys.txns[tid := a.(writeSet := a.writeSet[k := v], servers := a.servers + {place(k)})])
    case Commit(_) =>
      var a := sys.txns[tid];
      sys.(txns := sys.txns[tid := a.(phase := Committed)],
           history := sys.history + [Commitment(a.readSet, a.writeSet)],
           atomic := sys.atomic + a.writeSet)
    case Abort(_) => sys.(txns := sys.txns[tid := sys.txns[tid].(phase := Aborted)])
    case CommitKey(_, k) =>
      var a := sys.txns[tid];
      sys.(servers := Put(sys.servers, place(k), S.CommitKey(Srv(sys.servers, place(k)), tid, k)),
           txns := sys.txns[tid := a.(released := a.released + {k})])
    case AbortKey(_, k) =>
      var a := sys.txns[tid];
      sys.(servers := Put(sys.servers, place(k), S.AbortKey(Srv(sys.servers, place(k)), tid, k)),
           txns := sys.txns[tid := a.(released := a.released + {k})])
    case Done(_, s) => sys.(servers := Put(sys.servers, s, S.Forget(Srv(sys.servers, s), tid)))
  }

  predicate Legal(place: Placement, ops: seq<Op>)
    decreases |ops|, 0
  {
    ops == [] || (Legal(place, ops[..|ops| - 1])
                  && Enabled(place, Run(place, ops[..|ops| - 1]), ops[|ops| - 1]))
  }

  function Run(place: Placement, ops: seq<Op>): System
    requires Legal(place, ops)
    decreases |ops|, 1
  {
    if ops == [] then START else Next(place, Run(place, ops[..|ops| - 1]), ops[|ops| - 1])
  }

  /** The write sets of the committed transactions, in the order in which their commits started. */
  function Writes(history: seq<Commitment>): seq<map<Key, Value>> {
    seq(|history|, i requires 0 <= i < |history| => history[i].writeSet)
  }
}
