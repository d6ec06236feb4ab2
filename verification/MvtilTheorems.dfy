/**
  One-copy serializability of the MVTIL runs that meet all four guards: committed transactions are as if executed one
  after the other, ordered by commit timestamp and, at one timestamp, by the moment their commits started.
 */
module MvtilTheorems {
  import opened Common
  import opened SortedMap
  import opened LockList
  import opened LockSafety
  import opened MvtilRuns
  import opened MvtilSteps
  import opened MvtilBase
  import opened MvtilVersions
  import opened MvtilExclusion
  import opened MvtilStability
  import Serial
  import S = MvtilServer

  // ----- the serial order

  predicate HasCommitted(txns: Txns, t: TransactionId) {
    t in txns && txns[t].phase == Committed
  }

  /** Committed transactions are ordered by timestamp, and at one timestamp by the start of their commits. */
  predicate Precedes(txns: Txns, t: TransactionId, u: TransactionId) {
    && t in txns && u in txns
    && (txns[t].start < txns[u].start || (txns[t].start == txns[u].start && txns[t].order < txns[u].order))
  }

  /** log lists exactly the committed transactions, each once, in the serial order. */
  ghost predicate SerialOrder(txns: Txns, log: seq<TransactionId>) {
    && (forall i :: 0 <= i < |log| ==> HasCommitted(txns, log[i]))
    && (forall i, j :: 0 <= i < j < |log| ==> Precedes(txns, log[i], log[j]))
    && (forall t :: HasCommitted(txns, t) ==> t in log)
  }

  /** The write sets of the transactions of a log, in the order of the log. */
  ghost function WriteSets(txns: Txns, log: seq<TransactionId>): (h: seq<map<Key, Value>>)
    requires forall i :: 0 <= i < |log| ==> log[i] in txns
    ensures |h| == |log|
  {
    seq(|log|, i requires 0 <= i < |log| => txns[log[i]].writeSet)
  }

  /** Commits are numbered as they start. */
  ghost predicate Numbered(sys: System) {
    && (forall t :: HasCommitted(sys.txns, t) ==> sys.txns[t].order < sys.commits)
    && (forall t, u :: HasCommitted(sys.txns, t) && HasCommitted(sys.txns, u) && sys.txns[t].order == sys.txns[u].order ==> t == u)
  }

  /** Nobody else has committed the key at the same timestamp. */
  ghost predicate UniqueWriters(txns: Txns) {
    forall t, u, k, x :: Writer(txns, t, k, x) && Writer(txns, u, k, x) ==> t == u
  }

  /** rd is the newest value of k at or below the transaction t, in the serial order. */
  ghost predicate ReadsNewest(txns: Txns, t: TransactionId, k: Key)
    requires t in txns && k in txns[t].readSet
  {
    var rd := txns[t].readSet[k];
    && (forall u :: HasCommitted(txns, u) && k in txns[u].writeSet && Precedes(txns, u, t) ==> txns[u].start <= rd.version)
    && ((rd.version == MIN_TIMESTAMP && rd.value == "")
        || exists u :: Writer(txns, u, k, rd.version) && txns[u].writeSet[k] == rd.value && Precedes(txns, u, t))
  }

  ghost predicate AllNewest(txns: Txns) {
    forall t, k :: HasCommitted(txns, t) && k in txns[t].readSet ==> ReadsNewest(txns, t, k)
  }

  // ----- the commit point

  /** What has committed before a step is the same after it, and only a commit adds to it. */
  lemma StepCommits(place: Placement, sys: System, op: Op, t: TransactionId)
    requires Enabled(place, sys, op)
    ensures var after := Next(place, sys, op).txns;
      if HasCommitted(sys.txns, t) then HasCommitted(after, t) && after[t] == sys.txns[t]
      else if op == Commit(t) then
        after[t] == sys.txns[t].(phase := Committed, finish := sys.txns[t].start, order := sys.commits)
      else !HasCommitted(after, t)
  {
    StepTxn(place, sys, op, t);
  }

  /** A committed write lies in no read lock that another live transaction has from behind an older version. */
  lemma WriteMeetsNoRead(place: Placement, sys: System, t: TransactionId, u: TransactionId, k: Key)
    requires Base(place, sys) && AllOrderly(place, sys) && Protected(place, sys) && t != u
    requires Live(sys, t) && k in sys.txns[t].readSet && Live(sys, u) && k in sys.txns[u].writeSet
    requires sys.txns[u].start <= sys.txns[t].finish
    ensures sys.txns[u].start <= sys.txns[t].readSet[k].version
  {
    var l := ReadLockCovers(place, sys, t, k);
    var w := WriteLockCovers(place, sys, u, k);
    var locks := EntryOf(place, sys.servers, k).locks;
    assert Orderly(locks);
    if Covers(l, sys.txns[u].start) {
      NoSharedTimestamp(locks, l, w, sys.txns[u].start);
    }
  }

  /** A version in the list that an active transaction has locked for reading is not behind the one it has read. */
  lemma VersionMeetsNoRead(place: Placement, sys: System, t: TransactionId, k: Key, x: Timestamp)
    requires Base(place, sys) && AllFenced(place, sys) && Protected(place, sys)
    requires In(sys, t, Active) && Live(sys, t) && k in sys.txns[t].readSet
    requires x in EntryOf(place, sys.servers, k).versions && Inner(x) && x <= sys.txns[t].finish
    ensures x <= sys.txns[t].readSet[k].version
  {
    var l := ReadLockCovers(place, sys, t, k);
    assert Fences(sys.txns, k, EntryOf(place, sys.servers, k)) && Fenced(sys.txns, k, l, x);
  }

  lemma ActiveIsLive(sys: System, t: TransactionId)
    requires Intervals(sys.txns) && Recent(sys) && In(sys, t, Active)
    ensures Live(sys, t) && sys.watermark < sys.txns[t].start
  {
    assert Unfinished(sys, t);
  }

  /** What a committing transaction has read is still the newest committed value at or below its timestamp. */
  lemma OwnReadsNewest(place: Placement, sys: System, t: TransactionId, k: Key, u: TransactionId)
    requires Base(place, sys) && AllOrderly(place, sys) && Stable(place, sys) && Facts(place, sys)
    requires In(sys, t, Active) && k in sys.txns[t].readSet
    requires HasCommitted(sys.txns, u) && k in sys.txns[u].writeSet && sys.txns[u].start <= sys.txns[t].start
    ensures sys.txns[u].start <= sys.txns[t].readSet[k].version
  {
    ActiveIsLive(sys, t);
    var x := sys.txns[u].start;
    var versions := EntryOf(place, sys.servers, k).versions;
    if PendsWrite(place, sys, u, k) {
      PendingIsLive(place, sys, u, k);
      WriteMeetsNoRead(place, sys, t, u, k);
    } else {
      assert In(sys, u, Committed) && Kept(versions, x, sys.watermark);
      var y := if x in versions then x else var y :| y in versions && Inner(y) && x < y <= sys.watermark; y;
      VersionMeetsNoRead(place, sys, t, k, y);
    }
  }

  /** A commit never lands between another committed transaction and the version that one has read. */
  lemma OthersReadsNewest(place: Placement, sys: System, t: TransactionId, k: Key, u: TransactionId)
    requires Base(place, sys) && AllOrderly(place, sys) && Stable(place, sys)
    requires In(sys, t, Active) && k in sys.txns[t].writeSet
    requires HasCommitted(sys.txns, u) && k in sys.txns[u].readSet && sys.txns[t].start < sys.txns[u].start
    ensures sys.txns[t].start <= sys.txns[u].readSet[k].version
  {
    ActiveIsLive(sys, t);
    WriteMeetsNoRead(place, sys, u, t, k);
  }

  /** At its commit a transaction has read the newest values, by known writers that precede it. */
  lemma CommitReadsNewest(place: Placement, sys: System, t: TransactionId, k: Key)
    requires Base(place, sys) && AllOrderly(place, sys) && Stable(place, sys) && Facts(place, sys) && Numbered(sys)
    requires In(sys, t, Active) && k in sys.txns[t].readSet
    ensures ReadsNewest(Next(place, sys, Commit(t)).txns, t, k)
  {
    var after := Next(place, sys, Commit(t)).txns;
    var rd := sys.txns[t].readSet[k];
    forall u | HasCommitted(after, u) && k in after[u].writeSet && Precedes(after, u, t) ensures after[u].start <= rd.version {
      StepCommits(place, sys, Commit(t), u);
      OwnReadsNewest(place, sys, t, k, u);
    }
    assert ReadKnown(sys.txns, k, rd, sys.txns[t].start);
    if !(rd.version == MIN_TIMESTAMP && rd.value == "") {
      var u :| Writer(sys.txns, u, k, rd.version) && sys.txns[u].writeSet[k] == rd.value;
      StepCommits(place, sys, Commit(t), u);
      assert HasCommitted(sys.txns, u) && Writer(after, u, k, rd.version) && Precedes(after, u, t);
    }
  }

  /** A step leaves the reads of the transactions that have committed the newest. */
  lemma StepKeepsNewest(place: Placement, sys: System, op: Op, t: TransactionId, k: Key)
    requires Base(place, sys) && AllOrderly(place, sys) && Stable(place, sys) && Numbered(sys)
    requires HasCommitted(sys.txns, t) && k in sys.txns[t].readSet && ReadsNewest(sys.txns, t, k) && Enabled(place, sys, op)
    ensures HasCommitted(Next(place, sys, op).txns, t) && k in Next(place, sys, op).txns[t].readSet
    ensures ReadsNewest(Next(place, sys, op).txns, t, k)
  {
    var after := Next(place, sys, op).txns;
    StepCommits(place, sys, op, t);
    var rd := sys.txns[t].readSet[k];
    forall u | HasCommitted(after, u) && k in after[u].writeSet && Precedes(after, u, t) ensures after[u].start <= rd.version {
      StepCommits(place, sys, op, u);
      if op == Commit(u) {
        OthersReadsNewest(place, sys, u, k, t);
      }
    }
    if !(rd.version == MIN_TIMESTAMP && rd.value == "") {
      var u :| Writer(sys.txns, u, k, rd.version) && sys.txns[u].writeSet[k] == rd.value && Precedes(sys.txns, u, t);
      StepCommits(place, sys, op, u);
      assert HasCommitted(sys.txns, u) && Writer(after, u, k, rd.version) && Precedes(after, u, t);
    }
  }

  lemma StepKeepsNumbers(place: Placement, sys: System, op: Op)
    requires Numbered(sys) && Enabled(place, sys, op)
    ensures Numbered(Next(place, sys, op))
  {
    var after := Next(place, sys, op);
    forall t | HasCommitted(after.txns, t)
      ensures HasCommitted(sys.txns, t) || op == Commit(t)
      ensures after.txns[t].order == if op == Commit(t) then sys.commits else sys.txns[t].order
    {
      StepCommits(place, sys, op, t);
    }
  }

  lemma CommitIsDistinct(sys: System, t: TransactionId, u: TransactionId)
    requires In(sys, t, Active) && MeetsDistinct(sys, Commit(t))
    requires In(sys, u, Committed) && sys.txns[u].start == sys.txns[t].start
    ensures sys.txns[u].writeSet.Keys !! sys.txns[t].writeSet.Keys
  {
  }

  lemma StepKeepsUnique(place: Placement, sys: System, op: Op)
    requires UniqueWriters(sys.txns) && Enabled(place, sys, op) && MeetsDistinct(sys, op)
    ensures UniqueWriters(Next(place, sys, op).txns)
  {
    var after := Next(place, sys, op).txns;
    forall t, u, k, x | Writer(after, t, k, x) && Writer(after, u, k, x) ensures t == u {
      StepCommits(place, sys, op, t);
      StepCommits(place, sys, op, u);
      if op == Commit(t) && t != u {
        CommitIsDistinct(sys, t, u);
      } else if op == Commit(u) && t != u {
        CommitIsDistinct(sys, u, t);
      } else {
        assert t != u ==> Writer(sys.txns, t, k, x) && Writer(sys.txns, u, k, x);
      }
    }
  }

  lemma StepKeepsAllNewest(place: Placement, sys: System, op: Op)
    requires Base(place, sys) && AllOrderly(place, sys) && Stable(place, sys) && Facts(place, sys) && Numbered(sys)
    requires AllNewest(sys.txns) && Enabled(place, sys, op)
    ensures AllNewest(Next(place, sys, op).txns)
  {
    var after := Next(place, sys, op).txns;
    forall t, k | HasCommitted(after, t) && k in after[t].readSet ensures ReadsNewest(after, t, k) {
      StepCommits(place, sys, op, t);
      if op == Commit(t) {
        CommitReadsNewest(place, sys, t, k);
      } else {
        StepKeepsNewest(place, sys, op, t, k);
      }
    }
  }

  // ----- over runs

  lemma {:induction false} RunKeepsNumbers(place: Placement, ops: seq<Op>)
    requires Legal(place, ops)
    ensures Numbered(Run(place, ops))
  {
    if ops != [] {
      RunKeepsNumbers(place, ops[..|ops| - 1]);
      StepKeepsNumbers(place, Run(place, ops[..|ops| - 1]), ops[|ops| - 1]);
    }
  }

  lemma {:induction false} RunKeepsUnique(place: Placement, g: Guards, ops: seq<Op>)
    requires Legal(place, ops) && Guarded(place, g, ops) && g.distinct
    ensures UniqueWriters(Run(place, ops).txns)
  {
    if ops != [] {
      RunKeepsUnique(place, g, ops[..|ops| - 1]);
      StepKeepsUnique(place, Run(place, ops[..|ops| - 1]), ops[|ops| - 1]);
    }
  }

  lemma {:induction false} RunKeepsNewest(place: Placement, g: Guards, ops: seq<Op>)
    requires Legal(place, ops) && Guarded(place, g, ops) && g.nested && g.order && g.watermark
    ensures AllNewest(Run(place, ops).txns)
  {
    if ops != [] {
      var before := ops[..|ops| - 1];
      RunKeepsNewest(place, g, before);
      RunKeepsBase(place, before);
      RunKeepsOrder(place, g, before);
      RunKeepsStable(place, g, before);
      RunKeepsFacts(place, before);
      RunKeepsNumbers(place, before);
      StepKeepsAllNewest(place, Run(place, before), ops[|ops| - 1]);
    }
  }

  // ----- serializability

  /** The last writer of k among the first n transactions of the serial order, if there is one. */
  lemma ReplayIsNewest(txns: Txns, log: seq<TransactionId>, n: nat, k: Key, w: Timestamp)
    requires SerialOrder(txns, log) && UniqueWriters(txns) && n <= |log|
    requires forall i :: 0 <= i < n && k in txns[log[i]].writeSet ==> txns[log[i]].start <= w
    ensures (forall i :: 0 <= i < n ==> k !in txns[log[i]].writeSet) ==>
              Lookup(Serial.Replay(WriteSets(txns, log[..n])), k) == None
    ensures forall j :: 0 <= j < n && Writer(txns, log[j], k, w) ==>
              Lookup(Serial.Replay(WriteSets(txns, log[..n])), k) == Some(txns[log[j]].writeSet[k])
  {
    var h := WriteSets(txns, log[..n]);
    if forall i :: 0 <= i < n ==> k !in txns[log[i]].writeSet {
      Serial.NobodyWrote(h, k);
    }
    forall j | 0 <= j < n && Writer(txns, log[j], k, w) ensures Lookup(Serial.Replay(h), k) == Some(txns[log[j]].writeSet[k]) {
      forall i | j < i < n ensures k !in h[i] {
        assert Precedes(txns, log[j], log[i]);
        assert k in h[i] ==> Writer(txns, log[i], k, w);
      }
      Serial.LastWriterWins(h, k, j);
    }
  }

  /** What precedes a transaction in the serial order stands in front of it. */
  lemma PrecedingComesFirst(txns: Txns, log: seq<TransactionId>, i: nat, u: TransactionId) returns (j: nat)
    requires SerialOrder(txns, log) && i < |log| && HasCommitted(txns, u) && Precedes(txns, u, log[i])
    ensures j < i && log[j] == u
  {
    j :| 0 <= j < |log| && log[j] == u;
  }

  lemma ReadIsReplay(txns: Txns, log: seq<TransactionId>, i: nat, k: Key)
    requires SerialOrder(txns, log) && UniqueWriters(txns) && i < |log|
    requires k in txns[log[i]].readSet && ReadsNewest(txns, log[i], k)
    ensures txns[log[i]].readSet[k].value == ValueOr(Lookup(Serial.Replay(WriteSets(txns, log[..i])), k))
  {
    var rd := txns[log[i]].readSet[k];
    forall j | 0 <= j < i && k in txns[log[j]].writeSet ensures txns[log[j]].start <= rd.version {
      assert HasCommitted(txns, log[j]) && Precedes(txns, log[j], log[i]);
    }
    ReplayIsNewest(txns, log, i, k, rd.version);
    if u :| Writer(txns, u, k, rd.version) && txns[u].writeSet[k] == rd.value && Precedes(txns, u, log[i]) {
      assert HasCommitted(txns, u);
      var j := PrecedingComesFirst(txns, log, i, u);
      assert Writer(txns, log[j], k, rd.version);
    } else {
      forall j | 0 <= j < i ensures k !in txns[log[j]].writeSet {
        assert HasCommitted(txns, log[j]);
      }
    }
  }

  /**
    Every read of a committed transaction returned what a serial replay of the committed transactions, in the
    serial order, gives just before it.
   */
  lemma OneCopySerializable(place: Placement, ops: seq<Op>, log: seq<TransactionId>, i: nat, k: Key)
    requires Legal(place, ops) && Guarded(place, ALL, ops)
    requires SerialOrder(Run(place, ops).txns, log) && i < |log| && k in Run(place, ops).txns[log[i]].readSet
    ensures var txns := Run(place, ops).txns;
      txns[log[i]].readSet[k].value == ValueOr(Lookup(Serial.Replay(WriteSets(txns, log[..i])), k))
  {
    var txns := Run(place, ops).txns;
    RunKeepsUnique(place, ALL, ops);
    RunKeepsNewest(place, ALL, ops);
    assert HasCommitted(txns, log[i]);
    ReadIsReplay(txns, log, i, k);
  }

  /** Without collection three of the guards are enough. */
  lemma SerializableWithoutCollection(place: Placement, ops: seq<Op>, log: seq<TransactionId>, i: nat, k: Key)
    requires Legal(place, ops) && Guarded(place, ALL.(watermark := false), ops) && CollectionFree(ops)
    requires SerialOrder(Run(place, ops).txns, log) && i < |log| && k in Run(place, ops).txns[log[i]].readSet
    ensures var txns := Run(place, ops).txns;
      txns[log[i]].readSet[k].value == ValueOr(Lookup(Serial.Replay(WriteSets(txns, log[..i])), k))
  {
    CollectionFreeMeetsWatermark(place, ALL.(watermark := false), ops);
    OneCopySerializable(place, ops, log, i, k);
  }

  /** The newest version of a key; the lower sentinel when there is none. */
  ghost function Newest(place: Placement, sys: System, k: Key): Timestamp {
    Below(EntryOf(place, sys.servers, k).versions, MAX_TIMESTAMP)
  }

  /**
    Once a key's commits are persisted, its newest version is the final value of the serial replay, collections
    included. Of the guards only the one on commit timestamps is needed.
   */
  lemma NewestVersionIsFinalValue(place: Placement, g: Guards, ops: seq<Op>, log: seq<TransactionId>, k: Key)
    requires Legal(place, ops) && Guarded(place, g, ops) && g.distinct
    requires Quiet(place, Run(place, ops), k) && SerialOrder(Run(place, ops).txns, log)
    ensures var sys := Run(place, ops);
      EntryOf(place, sys.servers, k).versions[Newest(place, sys, k)]
      == ValueOr(Lookup(Serial.Replay(WriteSets(sys.txns, log)), k))
  {
    var sys := Run(place, ops);
    RunKeepsUnique(place, g, ops);
    RunKeepsFacts(place, ops);
    var versions := EntryOf(place, sys.servers, k).versions;
    var w := Newest(place, sys, k);
    assert Known(sys.txns, k, versions);
    forall i | 0 <= i < |log| && k in sys.txns[log[i]].writeSet ensures sys.txns[log[i]].start <= w {
      assert In(sys, log[i], Committed) && Kept(versions, sys.txns[log[i]].start, sys.watermark);
    }
    assert log[..|log|] == log;
    ReplayIsNewest(sys.txns, log, |log|, k, w);
    if Inner(w) {
      assert VersionOf(sys.txns, k, w, versions[w]);
      var t :| Writer(sys.txns, t, k, w) && sys.txns[t].writeSet[k] == versions[w];
      assert HasCommitted(sys.txns, t);
      var j :| 0 <= j < |log| && log[j] == t;
    }
  }

  // ----- a serial order exists

  /** The transactions of a set have different numbers. */
  ghost predicate DistinctOrders(txns: Txns, s: set<TransactionId>) {
    s <= txns.Keys && forall t, u :: t in s && u in s && txns[t].order == txns[u].order ==> t == u
  }

  /** Among finitely many numbered transactions one comes last. */
  lemma {:induction false} LastOf(txns: Txns, s: set<TransactionId>, member: TransactionId) returns (t: TransactionId)
    requires member in s && DistinctOrders(txns, s)
    ensures t in s && forall u :: u in s && u != t ==> Precedes(txns, u, t)
  {
    t := member;
    if other :| other in s && other != member {
      var rest := s - {member};
      assert s == rest + {member};
      var u := LastOf(txns, rest, other);
      t := if Precedes(txns, member, u) then u else member;
    }
  }

  lemma {:induction false} InOrder(txns: Txns, s: set<TransactionId>) returns (log: seq<TransactionId>)
    requires DistinctOrders(txns, s)
    ensures forall t :: t in log <==> t in s
    ensures forall i, j :: 0 <= i < j < |log| ==> Precedes(txns, log[i], log[j])
  {
    if member :| member in s {
      var t := LastOf(txns, s, member);
      var earlier := InOrder(txns, s - {t});
      log := earlier + [t];
      forall i | 0 <= i < |earlier| ensures Precedes(txns, log[i], t) {
        assert log[i] in earlier;
      }
    } else {
      log := [];
    }
  }

  /** Every run has a serial order, so the theorems above are about every run. */
  lemma SerialOrderOfRun(place: Placement, ops: seq<Op>)
    requires Legal(place, ops)
    ensures exists log :: SerialOrder(Run(place, ops).txns, log)
  {
    RunKeepsNumbers(place, ops);
    var txns := Run(place, ops).txns;
    var s := set t | t in txns && HasCommitted(txns, t);
    var log := InOrder(txns, s);
    forall i | 0 <= i < |log| ensures HasCommitted(txns, log[i]) {
      assert log[i] in log;
    }
    assert SerialOrder(txns, log);
  }
}
