/**
  What one step of MvtilRuns does: to the entry of a key, to the tables of a server and to a transaction.
 */
module MvtilSteps {
  import opened Common
  import opened SortedMap
  import opened LockList
  import opened LockSafety
  import opened LockRemoval
  import opened MvtilRuns
  import S = MvtilServer

  // ----- entries

  /** The entry of k after a step, as a function of the entry before. */
  ghost function EntryAfter(place: Placement, sys: System, op: Op, k: Key): S.Entry
    requires Enabled(place, sys, op)
  {
    var e := EntryOf(place, sys.servers, k);
    match op
    case Read(t, j) => if j == k then e.(locks := ReadGrant(place, sys, t, k).locks) else e
    case Write(t, j, _) =>
      if j == k && !PendsWrite(place, sys, t, k) then e.(locks := WriteGrant(place, sys, t, k).locks) else e
    case PersistWrite(t, j) =>
      if j == k then
        S.PersistVersion(e, t, S.WriteSet(Srv(sys.servers, place(k)), t)[k].value, WriteStart(place, sys, t, k), sys.txns[t].start)
      else e
    case PersistRead(t, j) => if j == k then S.PersistReadLock(e, t, ReadStart(place, sys, t, k), sys.txns[t].start) else e
    case AbortWrite(t, j) => if j == k then S.RemoveVersion(e, t, WriteStart(place, sys, t, k)) else e
    case AbortRead(t, j) => if j == k then S.RemoveVersion(e, t, ReadStart(place, sys, t, k)) else e
    case Collect(j, ts) => if j == k then S.CollectEntry(e, ts) else e
    case _ => e
  }

  lemma PutEntryAt(place: Placement, servers: Servers, j: Key, e: S.Entry, k: Key)
    ensures EntryOf(place, PutEntry(place, servers, j, e), k) == if k == j then e else EntryOf(place, servers, k)
  {
    var _ := Srv(PutEntry(place, servers, j, e), place(k));
  }

  lemma ReadEntry(place: Placement, sys: System, op: Op, k: Key)
    requires Enabled(place, sys, op) && op.Read?
    ensures EntryOf(place, Next(place, sys, op).servers, k) == EntryAfter(place, sys, op, k)
  {
    var _ := Srv(ReadLocked(place, sys, op.tid, op.key).servers, place(k));
  }

  lemma WriteEntry(place: Placement, sys: System, op: Op, k: Key)
    requires Enabled(place, sys, op) && op.Write? && !PendsWrite(place, sys, op.tid, op.key)
    ensures EntryOf(place, Next(place, sys, op).servers, k) == EntryAfter(place, sys, op, k)
  {
    var e := EntryOf(place, sys.servers, op.key).(locks := WriteGrant(place, sys, op.tid, op.key).locks);
    PutEntryAt(place, sys.servers, op.key, e, k);
    var _ := Srv(Next(place, sys, op).servers, place(k));
  }

  lemma ChangedEntry(place: Placement, sys: System, op: Op, k: Key)
    requires Enabled(place, sys, op)
    requires op.PersistWrite? || op.PersistRead? || op.AbortWrite? || op.AbortRead? || op.Collect?
    ensures EntryOf(place, Next(place, sys, op).servers, k) == EntryAfter(place, sys, op, k)
  {
    PutEntryAt(place, sys.servers, op.key, EntryAfter(place, sys, op, op.key), k);
  }

  lemma SameEntry(place: Placement, sys: System, op: Op, k: Key)
    requires Enabled(place, sys, op)
    requires op.WritesDone? || op.ReadsDone? || (op.Write? && PendsWrite(place, sys, op.tid, op.key))
    ensures EntryOf(place, Next(place, sys, op).servers, k) == EntryAfter(place, sys, op, k)
  {
    var _ := Srv(Next(place, sys, op).servers, place(k));
  }

  /** A step changes at most the entry of its own key. */
  lemma StepEntry(place: Placement, sys: System, op: Op, k: Key)
    requires Enabled(place, sys, op)
    ensures EntryOf(place, Next(place, sys, op).servers, k) == EntryAfter(place, sys, op, k)
  {
    match op
    case Begin(_, _, _) =>
    case Commit(_) =>
    case Abort(_) =>
    case Read(_, _) => ReadEntry(place, sys, op, k);
    case Write(t, j, _) =>
      if PendsWrite(place, sys, t, j) {
        SameEntry(place, sys, op, k);
      } else {
        WriteEntry(place, sys, op, k);
      }
    case WritesDone(_, _) => SameEntry(place, sys, op, k);
    case ReadsDone(_, _) => SameEntry(place, sys, op, k);
    case _ => ChangedEntry(place, sys, op, k);
  }

  // ----- grants

  /** The read lock begins behind the version read and ends before the next version. */
  lemma ReadGrantFacts(place: Placement, sys: System, t: TransactionId, k: Key)
    requires t in sys.txns && ReadGrant(place, sys, t, k).ok
    ensures var e := EntryOf(place, sys.servers, k);
      var g := ReadGrant(place, sys, t, k);
      var w := ReadVersion(place, sys, t, k);
      && sys.txns[t].start == g.interval.start <= g.interval.finish <= sys.txns[t].finish
      && g.interval.lockStart == w + 1 && Inner(g.interval.lockStart)
      && w in e.versions && MIN_TIMESTAMP <= w <= sys.txns[t].start
      && (forall x :: x in e.versions && w < x ==> g.interval.finish < x)
      && (forall l :: l in g.locks <==> l == ReadLock(t, g) || l in e.locks)
  {
    var e := EntryOf(place, sys.servers, k);
    var a := sys.txns[t];
    var c := S.ReadRequest(e.versions, a.start, a.finish, S.LOCK_FIRST_INTERVAL);
    S.GrantedReadIsInner(e, t, a.start, a.finish, S.LOCK_FIRST_INTERVAL);
    TailConflicts(e.locks, c.lockStart);
    InsertMembers(e.locks, Find(e.locks, c.lockStart), ReadLock(t, LockRead(e.locks, t, c)));
  }

  lemma WriteGrantFacts(place: Placement, sys: System, t: TransactionId, k: Key)
    requires t in sys.txns && WriteGrant(place, sys, t, k).ok
    ensures var locks := EntryOf(place, sys.servers, k).locks;
      var g := WriteGrant(place, sys, t, k);
      && sys.txns[t].start <= g.interval.start <= g.interval.finish <= sys.txns[t].finish
      && Inner(g.interval.start)
      && (forall l :: l in g.locks <==> l == WriteLock(t, g) || l in locks)
  {
    var locks := EntryOf(place, sys.servers, k).locks;
    var c := Interval(MIN_TIMESTAMP, sys.txns[t].start, sys.txns[t].finish);
    WriteLockShape(locks, t, c);
    InsertMembers(locks, Find(locks, LockWrite(locks, t, c).interval.start), WriteLock(t, LockWrite(locks, t, c)));
  }

  // ----- tables

  /** The write set that server s has recorded for t after a step. */
  ghost function WriteSetAfter(place: Placement, sys: System, op: Op, s: ServerId, t: TransactionId): map<Key, S.PendingWrite>
    requires Enabled(place, sys, op)
  {
    var writes := S.WriteSet(Srv(sys.servers, s), t);
    match op
    case Write(u, k, v) =>
      if u != t || place(k) != s then writes
      else if k in writes then writes[k := writes[k].(value := v)]
      else GrantedStart(place, sys, t, k); writes[k := S.PendingWrite(v, WriteGrant(place, sys, t, k).interval.start)]
    case WritesDone(u, r) => if u == t && r == s then map[] else writes
    case _ => writes
  }

  lemma GrantedStart(place: Placement, sys: System, t: TransactionId, k: Key)
    requires t in sys.txns && WriteGrant(place, sys, t, k).ok
    ensures Inner(WriteGrant(place, sys, t, k).interval.start)
  {
    WriteGrantFacts(place, sys, t, k);
  }

  /** A first write adds its record to the write set, and leaves all other tables alone. */
  lemma FirstWriteTables(place: Placement, sys: System, op: Op, s: ServerId)
    requires Enabled(place, sys, op) && op.Write? && !PendsWrite(place, sys, op.tid, op.key)
    ensures var before := Srv(sys.servers, s);
      var after := Srv(Next(place, sys, op).servers, s);
      && after.pendingReadSets == before.pendingReadSets
      && Inner(WriteGrant(place, sys, op.tid, op.key).interval.start)
      && var p := S.PendingWrite(op.value, WriteGrant(place, sys, op.tid, op.key).interval.start);
         after.pendingWriteSets == if s == place(op.key)
           then before.pendingWriteSets[op.tid := S.WriteSet(before, op.tid)[op.key := p]] else before.pendingWriteSets
  {
    GrantedStart(place, sys, op.tid, op.key);
    var _ := Srv(WriteLocked(place, sys, op.tid, op.key).servers, s);
    var _ := Srv(Next(place, sys, op).servers, s);
  }

  /** A second write replaces the recorded value, and leaves all other tables alone. */
  lemma SecondWriteTables(place: Placement, sys: System, op: Op, s: ServerId)
    requires Enabled(place, sys, op) && op.Write? && PendsWrite(place, sys, op.tid, op.key)
    ensures var before := Srv(sys.servers, s);
      var after := Srv(Next(place, sys, op).servers, s);
      && after.pendingReadSets == before.pendingReadSets
      && var p := S.WriteSet(Srv(sys.servers, place(op.key)), op.tid)[op.key].(value := op.value);
         after.pendingWriteSets == if s == place(op.key)
           then before.pendingWriteSets[op.tid := S.WriteSet(before, op.tid)[op.key := p]] else before.pendingWriteSets
  {
    var _ := Srv(Next(place, sys, op).servers, s);
  }

  lemma SameWriteTables(place: Placement, sys: System, op: Op, s: ServerId)
    requires Enabled(place, sys, op) && !op.Write? && !op.WritesDone?
    ensures Srv(Next(place, sys, op).servers, s).pendingWriteSets == Srv(sys.servers, s).pendingWriteSets
  {
    var _ := Srv(Next(place, sys, op).servers, s);
  }

  lemma DoneWriteSet(place: Placement, sys: System, op: Op, s: ServerId, t: TransactionId)
    requires Enabled(place, sys, op) && op.WritesDone?
    ensures S.WriteSet(Srv(Next(place, sys, op).servers, s), t) == WriteSetAfter(place, sys, op, s, t)
    ensures t in Srv(Next(place, sys, op).servers, s).pendingWriteSets ==> t in Srv(sys.servers, s).pendingWriteSets
  {
    var _ := Srv(Next(place, sys, op).servers, s);
  }

  lemma WrittenSet(place: Placement, sys: System, op: Op, s: ServerId, t: TransactionId)
    requires Enabled(place, sys, op) && op.Write?
    ensures S.WriteSet(Srv(Next(place, sys, op).servers, s), t) == WriteSetAfter(place, sys, op, s, t)
    ensures t in Srv(Next(place, sys, op).servers, s).pendingWriteSets ==>
              t in Srv(sys.servers, s).pendingWriteSets || op.tid == t
  {
    if PendsWrite(place, sys, op.tid, op.key) {
      SecondWriteTables(place, sys, op, s);
    } else {
      FirstWriteTables(place, sys, op, s);
    }
  }

  lemma StepWriteSet(place: Placement, sys: System, op: Op, s: ServerId, t: TransactionId)
    requires Enabled(place, sys, op)
    ensures S.WriteSet(Srv(Next(place, sys, op).servers, s), t) == WriteSetAfter(place, sys, op, s, t)
    ensures t in Srv(Next(place, sys, op).servers, s).pendingWriteSets ==>
              t in Srv(sys.servers, s).pendingWriteSets || (op.Write? && op.tid == t)
  {
    if op.Write? {
      WrittenSet(place, sys, op, s, t);
    } else if op.WritesDone? {
      DoneWriteSet(place, sys, op, s, t);
    } else {
      SameWriteTables(place, sys, op, s);
    }
  }

  /** The read set that server s has recorded for t after a step. */
  ghost function ReadSetAfter(place: Placement, sys: System, op: Op, s: ServerId, t: TransactionId): map<Key, Instant>
    requires Enabled(place, sys, op)
  {
    var starts := S.ReadSet(Srv(sys.servers, s), t);
    match op
    case Read(u, k) =>
      if u != t || place(k) != s then starts
      else ReadGrantFacts(place, sys, t, k); starts[k := ReadGrant(place, sys, t, k).interval.lockStart]
    case ReadsDone(u, r) => if u == t && r == s then map[] else starts
    case _ => starts
  }

  lemma ReadTables(place: Placement, sys: System, op: Op, s: ServerId, t: TransactionId)
    requires Enabled(place, sys, op) && (op.Read? || op.ReadsDone?)
    ensures S.ReadSet(Srv(Next(place, sys, op).servers, s), t) == ReadSetAfter(place, sys, op, s, t)
  {
    var _ := Srv(Next(place, sys, op).servers, s);
  }

  lemma SameReadTables(place: Placement, sys: System, op: Op, s: ServerId)
    requires Enabled(place, sys, op) && !op.Read? && !op.Write? && !op.ReadsDone?
    ensures Srv(Next(place, sys, op).servers, s).pendingReadSets == Srv(sys.servers, s).pendingReadSets
  {
    var _ := Srv(Next(place, sys, op).servers, s);
  }

  lemma StepReadSet(place: Placement, sys: System, op: Op, s: ServerId, t: TransactionId)
    requires Enabled(place, sys, op)
    ensures S.ReadSet(Srv(Next(place, sys, op).servers, s), t) == ReadSetAfter(place, sys, op, s, t)
  {
    if op.Read? || op.ReadsDone? {
      ReadTables(place, sys, op, s, t);
    } else if !op.Write? {
      SameReadTables(place, sys, op, s);
    } else if PendsWrite(place, sys, op.tid, op.key) {
      SecondWriteTables(place, sys, op, s);
    } else {
      FirstWriteTables(place, sys, op, s);
    }
  }

  // ----- transactions

  /** The transaction t after a step. */
  ghost function TxnAfter(place: Placement, sys: System, op: Op, t: TransactionId): Txn
    requires Enabled(place, sys, op) && t in sys.txns
  {
    var a := sys.txns[t];
    match op
    case Read(u, k) =>
      if u != t then a
      else
        ReadGrantFacts(place, sys, t, k);
        var w := ReadVersion(place, sys, t, k);
        a.(finish := ReadGrant(place, sys, t, k).interval.finish,
           readSet := a.readSet[k := ReadRecord(w, EntryOf(place, sys.servers, k).versions[w])])
    case Write(u, k, v) =>
      if u != t then a
      else if PendsWrite(place, sys, t, k) then a.(writeSet := a.writeSet[k := v])
      else
        WriteGrantFacts(place, sys, t, k);
        var i := WriteGrant(place, sys, t, k).interval;
        a.(start := i.start, finish := i.finish, writeSet := a.writeSet[k := v], servers := a.servers + {place(k)})
    case Commit(u) => if u == t then a.(phase := Committed, finish := a.start, order := sys.commits) else a
    case Abort(u) => if u == t then a.(phase := Aborted) else a
    case _ => a
  }

  lemma StepTxn(place: Placement, sys: System, op: Op, t: TransactionId)
    requires Enabled(place, sys, op)
    ensures var after := Next(place, sys, op).txns;
      && (t in after <==> t in sys.txns || (op.Begin? && op.tid == t))
      && (t in sys.txns ==> after[t] == TxnAfter(place, sys, op, t))
      && (op.Begin? && op.tid == t ==> after[t] == Txn(Active, op.start, op.finish, map[], map[], {}, 0))
  {
    if op.Read? {
      ReadGrantFacts(place, sys, op.tid, op.key);
    } else if op.Write? && !PendsWrite(place, sys, op.tid, op.key) {
      WriteGrantFacts(place, sys, op.tid, op.key);
    }
  }
}
