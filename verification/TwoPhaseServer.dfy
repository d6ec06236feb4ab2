/**
  One server of the strict two-phase-locking protocol: what each accessor-protected section of
  server/Scheduler.cpp does to data_locks, pending_operations and persist_versions.
 */
module TwoPhaseServer {
  import opened Common

  datatype Mode = READ | WRITE

  datatype LockEntry = LockEntry(mode: Mode, holders: set<TransactionId>)

  datatype Pending = Pending(mode: Mode, value: Value)

  datatype Server = Server(
    locks: map<Key, LockEntry>,
    pending: map<TransactionId, map<Key, Pending>>,
    store: map<Key, Value>)

  const EMPTY_SERVER := Server(map[], map[], map[])

  function Operations(s: Server, tid: TransactionId): map<Key, Pending> {
    if tid in s.pending then s.pending[tid] else map[]
  }

  /** The lock loop of HandleReadRequest succeeds. */
  predicate ReadGranted(s: Server, k: Key) {
    k in s.locks ==> s.locks[k].mode == READ
  }

  /** HandleReadRequest takes the shared lock and, before it answers, records the operation. */
  function LockRead(s: Server, tid: TransactionId, k: Key): Server {
    var others := if k in s.locks then s.locks[k].holders else {};
    s.(locks := s.locks[k := LockEntry(READ, others + {tid})],
       pending := s.pending[tid := Operations(s, tid)[k := Pending(READ, "")]])
  }

  /** HandleReadRequest looks the value up in persist_versions; None is FAIL_NO_VERSION. */
  function Fetch(s: Server, k: Key): Option<Value> {
    Lookup(s.store, k)
  }

  predicate Rewrites(s: Server, tid: TransactionId, k: Key) {
    k in Operations(s, tid) && Operations(s, tid)[k].mode == WRITE
  }

  /** HandleWriteRequest succeeds: again, on a free key, or by upgrading its own shared lock. */
  predicate WriteGranted(s: Server, tid: TransactionId, k: Key) {
    Rewrites(s, tid, k) || (k in s.locks ==> s.locks[k].holders == {} || s.locks[k].holders == {tid})
  }

  function Write(s: Server, tid: TransactionId, k: Key, v: Value): Server {
    if Rewrites(s, tid, k) then
      s.(pending := s.pending[tid := Operations(s, tid)[k := Pending(WRITE, v)]])
    else
      var others := if k in s.locks then s.locks[k].holders else {};
      s.(locks := s.locks[k := LockEntry(WRITE, others + {tid})],
         pending := s.pending[tid := Operations(s, tid)[k := Pending(WRITE, v)]])
  }

  /** A shared lock loses a member; the entry stays even when it becomes empty. */
  function ReleaseRead(locks: map<Key, LockEntry>, tid: TransactionId, k: Key): map<Key, LockEntry> {
    if k in locks then locks[k := locks[k].(holders := locks[k].holders - {tid})] else locks
  }

  /** One iteration of the loop of HandleCommit. */
  function CommitKey(s: Server, tid: TransactionId, k: Key): Server
    requires k in Operations(s, tid)
  {
    var op := Operations(s, tid)[k];
    if op.mode == WRITE then
      s.(store := s.store[k := op.value], locks := s.locks - {k})
    else
      s.(locks := ReleaseRead(s.locks, tid, k))
  }

  /** One iteration of the loop of HandleAbort. */
  function AbortKey(s: Server, tid: TransactionId, k: Key): Server
    requires k in Operations(s, tid)
  {
    if Operations(s, tid)[k].mode == WRITE then
      s.(locks := s.locks - {k})
    else
      s.(locks := ReleaseRead(s.locks, tid, k))
  }

  function Forget(s: Server, tid: TransactionId): Server {
    s.(pending := s.pending - {tid})
  }

  // ----- whole handlers

  /** The lock table when the operations on all keys but those of `todo` have given up their locks. */
  function Unlocked(locks: map<Key, LockEntry>, ops: map<Key, Pending>, todo: set<Key>, tid: TransactionId): map<Key, LockEntry> {
    map k | k in locks && (k in ops && k !in todo ==> ops[k].mode == READ) ::
      if k in ops && k !in todo then locks[k].(holders := locks[k].holders - {tid}) else locks[k]
  }

  /** The store when the writes on all keys but those of `todo` have reached it. */
  function Stored(store: map<Key, Value>, ops: map<Key, Pending>, todo: set<Key>): map<Key, Value> {
    store + (map k | k in ops && k !in todo && ops[k].mode == WRITE :: ops[k].value)
  }

  function PartlyCommitted(s: Server, tid: TransactionId, todo: set<Key>): Server {
    Server(Unlocked(s.locks, Operations(s, tid), todo, tid), s.pending, Stored(s.store, Operations(s, tid), todo))
  }

  function PartlyAborted(s: Server, tid: TransactionId, todo: set<Key>): Server {
    s.(locks := Unlocked(s.locks, Operations(s, tid), todo, tid))
  }

  function HandleCommit(s: Server, tid: TransactionId): Server {
    Forget(PartlyCommitted(s, tid, {}), tid)
  }

  function HandleAbort(s: Server, tid: TransactionId): Server {
    Forget(PartlyAborted(s, tid, {}), tid)
  }

  lemma LoopsStart(s: Server, tid: TransactionId)
    ensures PartlyCommitted(s, tid, Operations(s, tid).Keys) == s && PartlyAborted(s, tid, Operations(s, tid).Keys) == s
  {
    var ops := Operations(s, tid);
    assert Unlocked(s.locks, ops, ops.Keys, tid) == s.locks && Stored(s.store, ops, ops.Keys) == s.store;
  }

  /** One round of the loop of HandleCommit is the section of that key, whatever the order of the rounds. */
  lemma CommitStep(s: Server, tid: TransactionId, todo: set<Key>, k: Key)
    requires k in Operations(s, tid) && k in todo
    ensures CommitKey(PartlyCommitted(s, tid, todo), tid, k) == PartlyCommitted(s, tid, todo - {k})
  {
    UnlockedStep(s.locks, Operations(s, tid), todo, tid, k);
    StoredStep(s.store, Operations(s, tid), todo, k);
  }

  lemma UnlockedStep(locks: map<Key, LockEntry>, ops: map<Key, Pending>, todo: set<Key>, tid: TransactionId, k: Key)
    requires k in ops && k in todo
    ensures var now := Unlocked(locks, ops, todo, tid);
      Unlocked(locks, ops, todo - {k}, tid) == if ops[k].mode == WRITE then now - {k} else ReleaseRead(now, tid, k)
  {
  }

  lemma StoredStep(store: map<Key, Value>, ops: map<Key, Pending>, todo: set<Key>, k: Key)
    requires k in ops && k in todo
    ensures var now := Stored(store, ops, todo);
      Stored(store, ops, todo - {k}) == if ops[k].mode == WRITE then now[k := ops[k].value] else now
  {
  }

  lemma AbortStep(s: Server, tid: TransactionId, todo: set<Key>, k: Key)
    requires k in Operations(s, tid) && k in todo
    ensures AbortKey(PartlyAborted(s, tid, todo), tid, k) == PartlyAborted(s, tid, todo - {k})
  {
    UnlockedStep(s.locks, Operations(s, tid), todo, tid, k);
  }
}
