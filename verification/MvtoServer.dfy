/**
  One server of the MVTO+ protocol: what each accessor-protected section of
  server/Scheduler.cpp does to the three tables of the scheduler.
 */
module MvtoServer {
  import opened Common
  import opened SortedMap

  datatype VersionState = COMMITTED | PENDING | ABORTED

  datatype VersionEntry = VersionEntry(value: Value, state: VersionState, readTimes: set<Timestamp>)

  /** The two sentinels of a new list: default-constructed entries whose state is whatever memory held. */
  function FreshVersions(garbage: VersionState): map<Timestamp, VersionEntry> {
    map[MIN_TIMESTAMP := VersionEntry("", garbage, {}), MAX_TIMESTAMP := VersionEntry("", garbage, {})]
  }

  /** The versions of one key by write timestamp, as the skip list holds them, sentinels included. */
  type VersionList = m: map<Timestamp, VersionEntry> | HasBounds(m) ghost witness FreshVersions(PENDING)

  datatype Server = Server(
    versions: map<Key, VersionList>,
    pendingWrite: map<TransactionId, set<Key>>,
    pendingRead: map<TransactionId, map<Key, Timestamp>>)

  const EMPTY_SERVER := Server(map[], map[], map[])

  /** What the handlers overwrite in place in an entry. */
  datatype Change = SetValue(value: Value) | SetCommitted | DropMark(ts: Timestamp)

  function Apply(change: Change, e: VersionEntry): VersionEntry {
    match change
    case SetValue(v) => e.(value := v)
    case SetCommitted => e.(state := COMMITTED)
    case DropMark(ts) => e.(readTimes := e.readTimes - {ts})
  }

  /** The change made to the version that `find` returns for a timestamp: the one at or above it. */
  ghost function ChangeAt(list: VersionList, t: Timestamp, change: Change): VersionList {
    var c := AtOrAbove(list, Sought(t));
    list[c := Apply(change, list[c])]
  }

  datatype ReadReply = NoVersion | Blocked | ReadOk(version: Timestamp, value: Value)

  /** skiplist::insert adds only absent keys. */
  function InsertAbsent(m: VersionList, t: Instant, e: VersionEntry): VersionList {
    if t in m then m else m[t := e]
  }

  /** A committed version w, read at ts, gets the read mark ts. */
  function Mark(list: VersionList, w: Timestamp, ts: Instant): VersionList
    requires w in list
  {
    list[w := list[w].(readTimes := list[w].readTimes + {ts})]
  }

  function ReadVersions(s: Server, tid: TransactionId): map<Key, Timestamp> {
    if tid in s.pendingRead then s.pendingRead[tid] else map[]
  }

  function NoteRead(s: Server, tid: TransactionId, k: Key, version: Timestamp): Server {
    s.(pendingRead := s.pendingRead[tid := ReadVersions(s, tid)[k := version]])
  }

  /** One pass of the retry loop of HandleReadRequest. */
  ghost function Read(s: Server, tid: TransactionId, ts: Instant, k: Key): (Server, ReadReply) {
    if k !in s.versions then
      (s, NoVersion)
    else
      var list := s.versions[k];
      var w := Below(list, ts);
      if list[w].state != COMMITTED then
        (s, Blocked)
      else
        (NoteRead(s.(versions := s.versions[k := Mark(list, w, ts)]), tid, k, w), ReadOk(w, list[w].value))
  }

  predicate Wrote(s: Server, tid: TransactionId, k: Key) {
    tid in s.pendingWrite && k in s.pendingWrite[tid]
  }

  /** HandleWriteRequest answers W_SUCCESS. */
  ghost predicate WriteAllowed(s: Server, tid: TransactionId, ts: Instant, k: Key) {
    || Wrote(s, tid, k)
    || k !in s.versions
    || !Late(s.versions[k], ts)
  }

  /** A read mark above ts sits on the version below ts: writing at ts would come too late for that reader. */
  ghost predicate Late(list: VersionList, ts: Instant) {
    exists r :: r in list[Below(list, ts)].readTimes && ts < r
  }

  function Writes(s: Server, tid: TransactionId): set<Key> {
    if tid in s.pendingWrite then s.pendingWrite[tid] else {}
  }

  function NoteWrite(s: Server, tid: TransactionId, k: Key): Server {
    s.(pendingWrite := s.pendingWrite[tid := Writes(s, tid) + {k}])
  }

  /** The list that a write goes to: the key's list, or a new one. */
  function ListOr(versions: map<Key, VersionList>, k: Key, garbage: VersionState): VersionList {
    if k in versions then versions[k] else FreshVersions(garbage)
  }

  /** The tables after a successful HandleWriteRequest. */
  ghost function Write(s: Server, tid: TransactionId, ts: Instant, k: Key, v: Value, garbage: VersionState): Server {
    if Wrote(s, tid, k) then
      if k !in s.versions then
        s
      else
        s.(versions := s.versions[k := ChangeAt(s.versions[k], ts, SetValue(v))])
    else
      var list := ListOr(s.versions, k, garbage);
      NoteWrite(s.(versions := s.versions[k := InsertAbsent(list, ts, VersionEntry(v, PENDING, {}))]), tid, k)
  }

  /** One iteration of the loop of HandleCommit. */
  ghost function CommitKey(s: Server, ts: Instant, k: Key): Server {
    if k !in s.versions then
      s
    else
      s.(versions := s.versions[k := ChangeAt(s.versions[k], ts, SetCommitted)])
  }

  /** skiplist::remove. */
  function RemoveVersion(m: VersionList, t: Instant): VersionList {
    m - {t}
  }

  /** One iteration of the first loop of HandleAbort. */
  function AbortKey(s: Server, ts: Instant, k: Key): Server {
    if k !in s.versions then s else s.(versions := s.versions[k := RemoveVersion(s.versions[k], ts)])
  }

  /** One iteration of the second loop of HandleAbort. */
  ghost function EraseMark(s: Server, ts: Instant, k: Key, version: Timestamp): Server {
    if k !in s.versions then
      s
    else
      s.(versions := s.versions[k := ChangeAt(s.versions[k], version, DropMark(ts))])
  }

  function ForgetWrites(s: Server, tid: TransactionId): Server {
    s.(pendingWrite := s.pendingWrite - {tid})
  }

  function ForgetReads(s: Server, tid: TransactionId): Server {
    s.(pendingRead := s.pendingRead - {tid})
  }

  // ----- whole handlers

  /** The lists when the change has been made at `at[k]` in the list of every key k of `at` but those of `todo`. */
  ghost function Changed(versions: map<Key, VersionList>, at: map<Key, Timestamp>, todo: set<Key>, change: Change)
    : map<Key, VersionList>
  {
    map k | k in versions :: if k in at && k !in todo then ChangeAt(versions[k], at[k], change) else versions[k]
  }

  /** The lists when version ts of every key of `writes`, but for those of `todo`, has been removed. */
  function Removed(versions: map<Key, VersionList>, writes: set<Key>, todo: set<Key>, ts: Instant): map<Key, VersionList> {
    map k | k in versions :: if k in writes && k !in todo then RemoveVersion(versions[k], ts) else versions[k]
  }

  function Forget(s: Server, tid: TransactionId, versions: map<Key, VersionList>): Server {
    Server(versions, s.pendingWrite - {tid}, s.pendingRead - {tid})
  }

  function AllAt(writes: set<Key>, ts: Instant): map<Key, Timestamp> {
    map k | k in writes :: ts
  }

  ghost function HandleCommit(s: Server, tid: TransactionId, ts: Instant): Server {
    Forget(s, tid, Changed(s.versions, AllAt(Writes(s, tid), ts), {}, SetCommitted))
  }

  ghost function HandleAbort(s: Server, tid: TransactionId, ts: Instant): Server {
    Forget(s, tid, Changed(Removed(s.versions, Writes(s, tid), {}, ts), ReadVersions(s, tid), {}, DropMark(ts)))
  }

  // ----- one round of each handler's loop

  lemma LoopsStart(versions: map<Key, VersionList>, at: map<Key, Timestamp>, writes: set<Key>, change: Change, ts: Instant)
    ensures Changed(versions, at, at.Keys, change) == versions
    ensures Removed(versions, writes, writes, ts) == versions
  {
  }

  lemma ChangedStep(versions: map<Key, VersionList>, at: map<Key, Timestamp>, todo: set<Key>, change: Change, k: Key)
    requires k in at && k in todo
    ensures var now := Changed(versions, at, todo, change);
      Changed(versions, at, todo - {k}, change) == if k in now then now[k := ChangeAt(now[k], at[k], change)] else now
  {
  }

  lemma RemovedStep(versions: map<Key, VersionList>, writes: set<Key>, todo: set<Key>, ts: Instant, k: Key)
    requires k in writes && k in todo
    ensures var now := Removed(versions, writes, todo, ts);
      Removed(versions, writes, todo - {k}, ts) == if k in now then now[k := RemoveVersion(now[k], ts)] else now
  {
  }
}
