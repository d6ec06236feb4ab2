/**
  The versions of MvtilRuns in every run, guarded or not: each was written by a committed transaction, a version is
  lost only to a newer one at or below the watermark, and every commit's timestamp reaches the version list.
 */
module MvtilVersions {
  import opened Common
  import opened SortedMap
  import opened MvtilRuns
  import opened MvtilSteps
  import opened MvtilBase
  import S = MvtilServer

  /** t has committed at x and has written k. */
  predicate Writer(txns: Txns, t: TransactionId, k: Key, x: Timestamp) {
    t in txns && txns[t].phase == Committed && txns[t].start == x && k in txns[t].writeSet
  }

  /** Some transaction has committed v under k at x. */
  ghost predicate VersionOf(txns: Txns, k: Key, x: Timestamp, v: Value) {
    exists t :: Writer(txns, t, k, x) && txns[t].writeSet[k] == v
  }

  ghost predicate Known(txns: Txns, k: Key, versions: S.Versions) {
    && (forall x :: x in versions && Inner(x) ==> VersionOf(txns, k, x, versions[x]))
    && versions[MIN_TIMESTAMP] == ""
  }

  ghost predicate AllKnown(place: Placement, sys: System) {
    forall k :: Known(sys.txns, k, EntryOf(place, sys.servers, k).versions)
  }

  /** A read names a committed version at or below the reader, or the initial value. */
  ghost predicate ReadKnown(txns: Txns, k: Key, rd: ReadRecord, start: Timestamp) {
    && rd.version <= start
    && ((rd.version == MIN_TIMESTAMP && rd.value == "") || VersionOf(txns, k, rd.version, rd.value))
  }

  ghost predicate ReadsKnown(sys: System) {
    forall t, k :: t in sys.txns && k in sys.txns[t].readSet ==>
      ReadKnown(sys.txns, k, sys.txns[t].readSet[k], sys.txns[t].start)
  }

  /** A collected version has a newer one at or below the watermark. */
  ghost predicate Kept(versions: S.Versions, x: Timestamp, watermark: Timestamp) {
    x in versions || exists y :: y in versions && Inner(y) && x < y <= watermark
  }

  /** The version that each recorded read named is kept. */
  ghost predicate ReadsKept(place: Placement, sys: System) {
    forall t, k :: t in sys.txns && k in sys.txns[t].readSet ==>
      Kept(EntryOf(place, sys.servers, k).versions, sys.txns[t].readSet[k].version, sys.watermark)
  }

  /** Every committed write is still to be persisted, or its timestamp is kept. */
  ghost predicate Stored(place: Placement, sys: System) {
    forall t, k :: In(sys, t, Committed) && k in sys.txns[t].writeSet ==>
      || PendsWrite(place, sys, t, k)
      || Kept(EntryOf(place, sys.servers, k).versions, sys.txns[t].start, sys.watermark)
  }

  /** A persisted write is one of a committed transaction, whose timestamp is kept, even if a collection came since. */
  ghost predicate PersistedKept(place: Placement, sys: System) {
    forall t, k :: (t, k) in sys.persisted ==>
      In(sys, t, Committed) && Kept(EntryOf(place, sys.servers, k).versions, sys.txns[t].start, sys.watermark)
  }

  ghost predicate Facts(place: Placement, sys: System) {
    && AllKnown(place, sys) && ReadsKnown(sys) && ReadsKept(place, sys)
    && PersistedKept(place, sys) && Stored(place, sys)
  }

  // ----- what a step does to versions

  /** A committed transaction never changes again. */
  lemma WriterStays(place: Placement, sys: System, op: Op, t: TransactionId, k: Key, x: Timestamp)
    requires Enabled(place, sys, op) && Writer(sys.txns, t, k, x)
    ensures Writer(Next(place, sys, op).txns, t, k, x)
    ensures Next(place, sys, op).txns[t].writeSet == sys.txns[t].writeSet
  {
    StepTxn(place, sys, op, t);
  }

  lemma VersionOfStays(place: Placement, sys: System, op: Op, k: Key, x: Timestamp, v: Value)
    requires Enabled(place, sys, op) && VersionOf(sys.txns, k, x, v)
    ensures VersionOf(Next(place, sys, op).txns, k, x, v)
  {
    var t :| Writer(sys.txns, t, k, x) && sys.txns[t].writeSet[k] == v;
    WriterStays(place, sys, op, t, k, x);
  }

  /** The step adds version x of k: its commit has just been persisted. */
  ghost predicate JustPersisted(place: Placement, sys: System, op: Op, k: Key, x: Timestamp)
    requires Enabled(place, sys, op)
  {
    op.PersistWrite? && op.key == k && x == sys.txns[op.tid].start && x !in EntryOf(place, sys.servers, k).versions
  }

  lemma StepVersions(place: Placement, sys: System, op: Op, k: Key, x: Timestamp)
    requires Enabled(place, sys, op) && x in EntryAfter(place, sys, op, k).versions
    ensures var e := EntryOf(place, sys.servers, k);
      var v := EntryAfter(place, sys, op, k).versions[x];
      if x in e.versions then v == e.versions[x]
      else JustPersisted(place, sys, op, k, x) && v == S.WriteSet(Srv(sys.servers, place(k)), op.tid)[k].value
  {
  }

  lemma StepKeepsVersionOf(place: Placement, sys: System, op: Op, k: Key, x: Timestamp)
    requires RecordsOk(place, sys) && AllKnown(place, sys) && Enabled(place, sys, op)
    requires x in EntryAfter(place, sys, op, k).versions && Inner(x)
    ensures VersionOf(Next(place, sys, op).txns, k, x, EntryAfter(place, sys, op, k).versions[x])
  {
    var versions := EntryOf(place, sys.servers, k).versions;
    StepVersions(place, sys, op, k, x);
    if x in versions {
      assert Known(sys.txns, k, versions);
      VersionOfStays(place, sys, op, k, x, versions[x]);
    } else {
      assert RecordOk(place, sys, place(k), op.tid, k, S.WriteSet(Srv(sys.servers, place(k)), op.tid)[k].value);
      assert Writer(Next(place, sys, op).txns, op.tid, k, x);
    }
  }

  lemma StepKeepsKnownVersions(place: Placement, sys: System, op: Op, k: Key)
    requires RecordsOk(place, sys) && AllKnown(place, sys) && Enabled(place, sys, op)
    ensures Known(Next(place, sys, op).txns, k, EntryOf(place, Next(place, sys, op).servers, k).versions)
  {
    StepEntry(place, sys, op, k);
    forall x | x in EntryAfter(place, sys, op, k).versions && Inner(x)
      ensures VersionOf(Next(place, sys, op).txns, k, x, EntryAfter(place, sys, op, k).versions[x])
    {
      StepKeepsVersionOf(place, sys, op, k, x);
    }
    assert Known(sys.txns, k, EntryOf(place, sys.servers, k).versions);
    StepVersions(place, sys, op, k, MIN_TIMESTAMP);
  }

  /** A step adds at most one record to a read set: the read it performs. */
  lemma StepRecords(place: Placement, sys: System, op: Op, t: TransactionId, k: Key)
    requires Enabled(place, sys, op) && t in Next(place, sys, op).txns && k in Next(place, sys, op).txns[t].readSet
    ensures var rd := Next(place, sys, op).txns[t].readSet[k];
      && t in sys.txns
      && if op == Read(t, k) then
           rd == ReadRecord(ReadVersion(place, sys, t, k), EntryOf(place, sys.servers, k).versions[ReadVersion(place, sys, t, k)])
         else
           k in sys.txns[t].readSet && sys.txns[t].readSet[k] == rd
  {
    StepTxn(place, sys, op, t);
  }

  // ----- what was read

  lemma VersionReadIsKnown(place: Placement, sys: System, t: TransactionId, k: Key)
    requires AllKnown(place, sys) && t in sys.txns && ReadGrant(place, sys, t, k).ok
    ensures var w := ReadVersion(place, sys, t, k);
      var e := EntryOf(place, sys.servers, k);
      w in e.versions && ReadKnown(sys.txns, k, ReadRecord(w, e.versions[w]), sys.txns[t].start)
  {
    ReadGrantFacts(place, sys, t, k);
    assert Known(sys.txns, k, EntryOf(place, sys.servers, k).versions);
  }

  lemma ReadKnownStays(place: Placement, sys: System, op: Op, t: TransactionId, k: Key, rd: ReadRecord)
    requires Intervals(sys.txns) && Enabled(place, sys, op) && t in sys.txns && ReadKnown(sys.txns, k, rd, sys.txns[t].start)
    ensures t in Next(place, sys, op).txns && ReadKnown(Next(place, sys, op).txns, k, rd, Next(place, sys, op).txns[t].start)
  {
    StepNarrows(place, sys, op, t, sys.txns[t].start, sys.txns[t].finish);
    if !(rd.version == MIN_TIMESTAMP && rd.value == "") {
      VersionOfStays(place, sys, op, k, rd.version, rd.value);
    }
  }

  lemma StepKeepsRead(place: Placement, sys: System, op: Op, t: TransactionId, k: Key)
    requires Intervals(sys.txns) && AllKnown(place, sys) && ReadsKnown(sys) && Enabled(place, sys, op)
    requires t in Next(place, sys, op).txns && k in Next(place, sys, op).txns[t].readSet
    ensures ReadKnown(Next(place, sys, op).txns, k, Next(place, sys, op).txns[t].readSet[k], Next(place, sys, op).txns[t].start)
  {
    StepRecords(place, sys, op, t, k);
    var rd := Next(place, sys, op).txns[t].readSet[k];
    if op == Read(t, k) {
      VersionReadIsKnown(place, sys, t, k);
    }
    ReadKnownStays(place, sys, op, t, k, rd);
  }

  lemma CollectKeepsVersions(versions: S.Versions, ts: Instant, watermark: Timestamp, x: Timestamp)
    requires Kept(versions, x, watermark)
    ensures Kept(S.Erase(versions, ts), x, if watermark < ts then ts else watermark)
  {
    var kept := S.Erase(versions, ts);
    var g := Below(versions, ts + 1);
    assert g in kept;
    if x !in kept {
      if x in versions {
        assert x < g;
      } else {
        var y :| y in versions && Inner(y) && x < y <= watermark;
        assert y in kept || y < g;
      }
    }
  }

  /** A step drops a version only when a newer one is at or below the watermark. */
  lemma StepKeepsVersion(place: Placement, sys: System, op: Op, k: Key, x: Timestamp)
    requires Enabled(place, sys, op) && Kept(EntryOf(place, sys.servers, k).versions, x, sys.watermark)
    ensures var after := Next(place, sys, op);
      Kept(EntryOf(place, after.servers, k).versions, x, after.watermark)
  {
    StepEntry(place, sys, op, k);
    var e := EntryOf(place, sys.servers, k);
    if op.Collect? && op.key == k {
      CollectKeepsVersions(e.versions, op.ts, sys.watermark, x);
    } else if x !in e.versions {
      var y :| y in e.versions && Inner(y) && x < y <= sys.watermark;
      assert y in EntryAfter(place, sys, op, k).versions;
    }
  }

  lemma StepKeepsReads(place: Placement, sys: System, op: Op, t: TransactionId, k: Key)
    requires ReadsKept(place, sys) && Enabled(place, sys, op)
    requires t in Next(place, sys, op).txns && k in Next(place, sys, op).txns[t].readSet
    ensures var after := Next(place, sys, op);
      Kept(EntryOf(place, after.servers, k).versions, after.txns[t].readSet[k].version, after.watermark)
  {
    StepRecords(place, sys, op, t, k);
    if op == Read(t, k) {
      ReadGrantFacts(place, sys, t, k);
    }
    StepKeepsVersion(place, sys, op, k, Next(place, sys, op).txns[t].readSet[k].version);
  }

  // ----- what commits leave

  lemma StepKeepsPersisted(place: Placement, sys: System, op: Op, t: TransactionId, k: Key)
    requires PersistedKept(place, sys) && Enabled(place, sys, op) && (t, k) in Next(place, sys, op).persisted
    ensures var after := Next(place, sys, op);
      In(after, t, Committed) && Kept(EntryOf(place, after.servers, k).versions, after.txns[t].start, after.watermark)
  {
    StepTxn(place, sys, op, t);
    if op == PersistWrite(t, k) {
      StepEntry(place, sys, op, k);
    } else {
      assert (t, k) in sys.persisted;
      StepKeepsVersion(place, sys, op, k, sys.txns[t].start);
    }
  }

  lemma StepKeepsStoredAt(place: Placement, sys: System, op: Op, t: TransactionId, k: Key)
    requires WritesRecorded(place, sys) && Stored(place, sys) && PersistedKept(place, sys) && Enabled(place, sys, op)
    requires In(Next(place, sys, op), t, Committed) && k in Next(place, sys, op).txns[t].writeSet
    ensures var after := Next(place, sys, op);
      PendsWrite(place, after, t, k) || Kept(EntryOf(place, after.servers, k).versions, after.txns[t].start, after.watermark)
  {
    StepTxn(place, sys, op, t);
    StepWriteSet(place, sys, op, place(k), t);
    var x := sys.txns[t].start;
    if PendsWrite(place, sys, t, k) {
      if op == WritesDone(t, place(k)) {
        assert (t, k) in sys.persisted;
        StepKeepsVersion(place, sys, op, k, x);
      }
    } else {
      StepKeepsVersion(place, sys, op, k, x);
    }
  }

  lemma StepKeepsFacts(place: Placement, sys: System, op: Op)
    requires Base(place, sys) && Facts(place, sys) && Enabled(place, sys, op)
    ensures Facts(place, Next(place, sys, op))
  {
    var after := Next(place, sys, op);
    forall k ensures Known(after.txns, k, EntryOf(place, after.servers, k).versions) {
      StepKeepsKnownVersions(place, sys, op, k);
    }
    forall t, k | t in after.txns && k in after.txns[t].readSet
      ensures ReadKnown(after.txns, k, after.txns[t].readSet[k], after.txns[t].start)
    {
      StepKeepsRead(place, sys, op, t, k);
    }
    forall t, k | t in after.txns && k in after.txns[t].readSet
      ensures Kept(EntryOf(place, after.servers, k).versions, after.txns[t].readSet[k].version, after.watermark)
    {
      StepKeepsReads(place, sys, op, t, k);
    }
    forall t, k | (t, k) in after.persisted
      ensures In(after, t, Committed)
      ensures Kept(EntryOf(place, after.servers, k).versions, after.txns[t].start, after.watermark)
    {
      StepKeepsPersisted(place, sys, op, t, k);
    }
    forall t, k | In(after, t, Committed) && k in after.txns[t].writeSet
      ensures PendsWrite(place, after, t, k)
           || Kept(EntryOf(place, after.servers, k).versions, after.txns[t].start, after.watermark)
    {
      StepKeepsStoredAt(place, sys, op, t, k);
    }
  }

  lemma {:induction false} RunKeepsFacts(place: Placement, ops: seq<Op>)
    requires Legal(place, ops)
    ensures Facts(place, Run(place, ops))
  {
    if ops == [] {
      assert forall k :: EntryOf(place, START.servers, k) == S.FRESH_ENTRY;
    } else {
      RunKeepsFacts(place, ops[..|ops| - 1]);
      RunKeepsBase(place, ops[..|ops| - 1]);
      StepKeepsFacts(place, Run(place, ops[..|ops| - 1]), ops[|ops| - 1]);
    }
  }

  // ----- whose value survives

  /** No committed transaction has an unfinished write of the key. */
  ghost predicate Quiet(place: Placement, sys: System, k: Key) {
    forall t :: PendsWrite(place, sys, t, k) ==> !In(sys, t, Committed)
  }

  /** What t wrote under k is stored at t's commit timestamp. */
  ghost predicate ValueStored(place: Placement, sys: System, t: TransactionId, k: Key)
    requires t in sys.txns && k in sys.txns[t].writeSet
  {
    Lookup(EntryOf(place, sys.servers, k).versions, sys.txns[t].start) == Some(sys.txns[t].writeSet[k])
  }

  /** Two transactions that committed k at one timestamp have written the same value. */
  ghost predicate WritersAgree(txns: Txns, k: Key) {
    forall t, u, x :: Writer(txns, t, k, x) && Writer(txns, u, k, x) ==> txns[t].writeSet[k] == txns[u].writeSet[k]
  }

  /**
    In a run without collection, guarded or not, once a key's commits are persisted: every committed value of the key
    is stored at its commit timestamp if and only if no two transactions committed different values at one timestamp.
   */
  lemma ValuesSurviveIff(place: Placement, ops: seq<Op>, k: Key)
    requires Legal(place, ops) && CollectionFree(ops) && Quiet(place, Run(place, ops), k)
    ensures (forall t, x :: Writer(Run(place, ops).txns, t, k, x) ==> ValueStored(place, Run(place, ops), t, k))
       <==> WritersAgree(Run(place, ops).txns, k)
  {
    var sys := Run(place, ops);
    RunKeepsFacts(place, ops);
    NothingIsCollected(place, ops);
    if WritersAgree(sys.txns, k) {
      forall t, x | Writer(sys.txns, t, k, x) ensures ValueStored(place, sys, t, k) {
        assert In(sys, t, Committed) && !PendsWrite(place, sys, t, k);
        var versions := EntryOf(place, sys.servers, k).versions;
        assert Kept(versions, x, sys.watermark) && Known(sys.txns, k, versions);
        assert VersionOf(sys.txns, k, x, versions[x]);
      }
    } else {
      var t, u, x :| Writer(sys.txns, t, k, x) && Writer(sys.txns, u, k, x) && sys.txns[t].writeSet[k] != sys.txns[u].writeSet[k];
      assert !(ValueStored(place, sys, t, k) && ValueStored(place, sys, u, k));
    }
  }

  lemma {:induction false} NothingIsCollected(place: Placement, ops: seq<Op>)
    requires Legal(place, ops) && CollectionFree(ops)
    ensures Run(place, ops).watermark == MIN_TIMESTAMP
  {
    if ops != [] {
      NothingIsCollected(place, ops[..|ops| - 1]);
    }
  }
}
