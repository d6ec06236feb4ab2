/**
  MVTO+ is one-copy serializable in timestamp order, over all runs of MvtoRuns.
 */
module MvtoTheorems {
  import opened Common
  import opened SortedMap
  import opened MvtoRuns
  import opened MvtoInvariant
  import Serial
  import S = MvtoServer

  /** The write sets of the attempts whose commit has started, by timestamp. */
  function Commits(sys: System): map<Timestamp, map<Key, Value>> {
    map ts | ts in sys.attempts && sys.attempts[ts].phase == Committed :: sys.attempts[ts].writeSet
  }

  /** No server has an unfinished write set. */
  ghost predicate Quiet(sys: System) {
    forall s :: Srv(sys.servers, s).pendingWrite == map[]
  }

  /** The read mark of an attempt fences off the interval between the version it read and itself. */
  lemma NoCommitBetween(place: Placement, sys: System, ts: Instant, rd: ReadRecord, x: Timestamp)
    requires Inv(place, sys) && ts in sys.attempts && sys.attempts[ts].phase == Committed
    requires rd in sys.attempts[ts].readSet
    requires x in Commits(sys) && rd.key in Commits(sys)[x] && x < ts
    ensures x <= rd.version
  {
    assert Marked(place, sys, ts, rd);
    assert x in List(place, sys.servers, rd.key);
  }

  lemma ReadIsReplay(place: Placement, sys: System, log: seq<Timestamp>, i: nat, ts: Instant, rd: ReadRecord)
    requires Inv(place, sys) && Serial.SerialOrder(log, Commits(sys)) && i < |log| && log[i] == ts
    requires ts in sys.attempts && sys.attempts[ts].phase == Committed && rd in sys.attempts[ts].readSet
    ensures rd.value == ValueOr(Lookup(Serial.Replay(Serial.History(log[..i], Commits(sys))), rd.key))
  {
    assert Marked(place, sys, ts, rd);
    var commits := Commits(sys);
    forall x | x in commits && x < ts && rd.key in commits[x] ensures x <= rd.version {
      NoCommitBetween(place, sys, ts, rd, x);
    }
    Serial.ReadsNewestBelow(commits, log, i, ts, rd.key, rd.version);
  }

  /**
    Every read that an attempt made with R_SUCCESS returned what a serial replay of the committed
    attempts by timestamp gives just before it, at every moment after its commit has started.
   */
  lemma OneCopySerializable(place: Placement, ops: seq<Op>, log: seq<Timestamp>, i: nat, rd: ReadRecord)
    requires Legal(place, ops)
    requires Serial.SerialOrder(log, Commits(Run(place, ops))) && i < |log|
    requires rd in Run(place, ops).attempts[log[i]].readSet
    ensures rd.value == ValueOr(Lookup(Serial.Replay(Serial.History(log[..i], Commits(Run(place, ops)))), rd.key))
  {
    RunKeeps(place, ops);
    ReadIsReplay(place, Run(place, ops), log, i, log[i], rd);
  }

  /** The newest version of a key, or the lower sentinel when the key has no list. */
  ghost function Newest(place: Placement, sys: System, k: Key): Timestamp {
    if HasList(place, sys.servers, k) then Below(List(place, sys.servers, k), MAX_TIMESTAMP) else MIN_TIMESTAMP
  }

  lemma PendingIsRecorded(place: Placement, sys: System, k: Key, x: Timestamp)
    requires Inv(place, sys)
    requires HasList(place, sys.servers, k) && x in List(place, sys.servers, k) && Inner(x)
    ensures List(place, sys.servers, k)[x].state == S.PENDING ==> Srv(sys.servers, place(k)).pendingWrite != map[]
  {
    if List(place, sys.servers, k)[x].state == S.PENDING {
      assert S.Wrote(Srv(sys.servers, place(k)), sys.attempts[x].tid, k);
    }
  }

  lemma QuietMeansCommitted(place: Placement, sys: System, k: Key, x: Timestamp)
    requires Inv(place, sys) && Quiet(sys)
    requires HasList(place, sys.servers, k) && x in List(place, sys.servers, k) && Inner(x)
    ensures x in Commits(sys) && k in Commits(sys)[x] && Commits(sys)[x][k] == List(place, sys.servers, k)[x].value
  {
    PendingIsRecorded(place, sys, k, x);
  }

  /** No committed writer is above the newest version. */
  lemma NoWriterAboveNewest(place: Placement, sys: System, k: Key, x: Timestamp)
    requires WritesPlaced(place, sys) && x in Commits(sys) && k in Commits(sys)[x]
    ensures x <= Newest(place, sys, k)
  {
    assert HasList(place, sys.servers, k) && x in List(place, sys.servers, k);
  }

  lemma NewestIsCommitted(place: Placement, sys: System, k: Key)
    requires Inv(place, sys) && Quiet(sys)
    ensures var w := Newest(place, sys, k);
      if HasList(place, sys.servers, k) && w != MIN_TIMESTAMP then
        w in Commits(sys) && k in Commits(sys)[w] && Commits(sys)[w][k] == List(place, sys.servers, k)[w].value
      else
        w == MIN_TIMESTAMP && (HasList(place, sys.servers, k) ==> List(place, sys.servers, k)[w].value == "")
  {
    var w := Newest(place, sys, k);
    if HasList(place, sys.servers, k) {
      if w != MIN_TIMESTAMP {
        QuietMeansCommitted(place, sys, k, w);
      } else {
        assert ListOk(List(place, sys.servers, k));
      }
    }
  }

  /** Once nothing is pending, the newest version of each key is the final value of the serial replay. */
  lemma NewestVersionIsFinalValue(place: Placement, ops: seq<Op>, log: seq<Timestamp>, k: Key)
    requires Legal(place, ops) && Quiet(Run(place, ops))
    requires Serial.SerialOrder(log, Commits(Run(place, ops)))
    ensures var sys := Run(place, ops);
      ValueOr(Lookup(Serial.Replay(Serial.History(log, Commits(sys))), k))
      == if HasList(place, sys.servers, k) then List(place, sys.servers, k)[Newest(place, sys, k)].value else ""
  {
    var sys := Run(place, ops);
    RunKeeps(place, ops);
    assert log[..|log|] == log;
    NewestIsCommitted(place, sys, k);
    forall x | x in Commits(sys) && k in Commits(sys)[x] ensures x <= Newest(place, sys, k) {
      NoWriterAboveNewest(place, sys, k, x);
    }
    Serial.ReadsNewestBelow(Commits(sys), log, |log|, MAX_TIMESTAMP, k, Newest(place, sys, k));
  }

  /** A serial order always exists, so the two theorems above are about every run. */
  lemma SerialOrderOfRun(place: Placement, ops: seq<Op>)
    requires Legal(place, ops)
    ensures exists log :: Serial.SerialOrder(log, Commits(Run(place, ops)))
  {
    Serial.SerialOrderExists(Commits(Run(place, ops)));
  }

  /** Read marks fence off the versions they were made on, and pending versions carry none, in every reachable state. */
  lemma MarksFenceVersions(place: Placement, ops: seq<Op>, k: Key, w: Timestamp, r: Timestamp)
    requires Legal(place, ops) && HasList(place, Run(place, ops).servers, k)
    requires w in List(place, Run(place, ops).servers, k) && r in List(place, Run(place, ops).servers, k)[w].readTimes
    ensures var list := List(place, Run(place, ops).servers, k);
      && w < r
      && (forall x :: x in list ==> !(w < x < r))
      && (Inner(w) ==> list[w].state != S.PENDING)
  {
    RunKeeps(place, ops);
    assert ListOk(List(place, Run(place, ops).servers, k));
  }

  /**
    An abort takes a read mark back exactly when it does not sit on the lower sentinel, which the search never finds.
    It takes back that one mark: the other marks of the version and all other versions stay. For a mark on the
    sentinel it changes nothing, since marks fence off the versions behind them.
   */
  lemma AbortDropsMarkIff(s: S.Server, ts: Instant, k: Key, version: Timestamp)
    requires k in s.versions && version in s.versions[k] && ts in s.versions[k][version].readTimes
    ensures var list := s.versions[k];
      var after := S.EraseMark(s, ts, k, version).versions[k];
      && (ts !in after[version].readTimes <==> MIN_TIMESTAMP < version)
      && (MIN_TIMESTAMP < version ==> after == list[version := list[version].(readTimes := list[version].readTimes - {ts})])
      && (version == MIN_TIMESTAMP && ListOk(list) ==> after == list)
  {
    var list := s.versions[k];
    if MIN_TIMESTAMP < version {
      assert IsAtOrAbove(list, version, version);
    } else {
      var n := AtOrAbove(list, MIN_TIMESTAMP + 1);
      assert ListOk(list) ==> list[n].readTimes - {ts} == list[n].readTimes;
    }
  }

  lemma ChangeOwnVersion(list: S.VersionList, ts: Instant, change: S.Change)
    requires ts in list
    ensures S.ChangeAt(list, ts, change) == list[ts := S.Apply(change, list[ts])]
  {
    assert IsAtOrAbove(list, ts, ts);
  }

  /** What a commit does to a key that its attempt has written: that version becomes visible, with its value, and no other changes. */
  lemma CommitPublishes(place: Placement, ops: seq<Op>, ts: Instant, k: Key)
    requires Legal(place, ops) && In(Run(place, ops), ts, Committed) && k in Run(place, ops).attempts[ts].writeSet
    ensures var sys := Run(place, ops);
      && HasList(place, sys.servers, k)
      && var list := List(place, sys.servers, k);
         var after := S.ChangeAt(list, ts, S.SetCommitted);
         && ts in list && after.Keys == list.Keys
         && after[ts].state == S.COMMITTED && after[ts].value == sys.attempts[ts].writeSet[k]
         && forall x :: x in list && x != ts ==> after[x] == list[x]
  {
    RunKeeps(place, ops);
    WrittenVersion(place, Run(place, ops), ts, k);
    ChangeOwnVersion(List(place, Run(place, ops).servers, k), ts, S.SetCommitted);
  }

  lemma WrittenVersion(place: Placement, sys: System, ts: Instant, k: Key)
    requires VersionsOwned(place, sys) && WritesPlaced(place, sys) && In(sys, ts, Committed) && k in sys.attempts[ts].writeSet
    ensures HasList(place, sys.servers, k) && ts in List(place, sys.servers, k)
    ensures List(place, sys.servers, k)[ts].value == sys.attempts[ts].writeSet[k]
  {
    assert HasList(place, sys.servers, k) && ts in List(place, sys.servers, k);
    assert VersionOf(sys.attempts[ts], k, List(place, sys.servers, k)[ts]);
  }

  ghost predicate HasCommitted(place: Placement, sys: System, k: Key, x: Instant, v: Value) {
    && HasList(place, sys.servers, k) && x in List(place, sys.servers, k)
    && List(place, sys.servers, k)[x].state == S.COMMITTED && List(place, sys.servers, k)[x].value == v
  }

  /** A committed version is never removed and never changes its value or state. */
  lemma {:induction false} CommittedVersionsStay(
      place: Placement, ops: seq<Op>, more: seq<Op>, k: Key, x: Instant, v: Value)
    requires Legal(place, ops) && Legal(place, ops + more)
    requires HasCommitted(place, Run(place, ops), k, x, v)
    ensures HasCommitted(place, Run(place, ops + more), k, x, v)
    decreases |more|
  {
    if more == [] {
      assert ops + more == ops;
    } else {
      var fewer, last := more[..|more| - 1], more[|more| - 1];
      assert (ops + more)[..|ops + more| - 1] == ops + fewer;
      CommittedVersionsStay(place, ops, fewer, k, x, v);
      RunKeeps(place, ops + fewer);
      CommittedVersionStays(place, Run(place, ops + fewer), last, k, x, v);
    }
  }

  lemma UntouchedVersionStays(place: Placement, sys: System, op: Op, k: Key, x: Instant, v: Value)
    requires Enabled(place, sys, op) && HasCommitted(place, sys, k, x, v)
    requires !op.Write? && !op.Read? && !op.CommitKey? && !op.AbortKey? && !op.AbortMark?
    ensures HasCommitted(place, Next(place, sys, op), k, x, v)
  {
    var _ := Srv(Next(place, sys, op).servers, place(k));
  }

  lemma ReadVersionStays(place: Placement, sys: System, op: Op, k: Key, x: Instant, v: Value)
    requires Enabled(place, sys, op) && HasCommitted(place, sys, k, x, v) && op.Read?
    ensures HasCommitted(place, Next(place, sys, op), k, x, v)
  {
    var _ := Srv(Next(place, sys, op).servers, place(k));
  }

  lemma ChangedVersionStays(place: Placement, sys: System, op: Op, k: Key, x: Instant, v: Value)
    requires Enabled(place, sys, op) && HasCommitted(place, sys, k, x, v) && (op.CommitKey? || op.AbortMark?)
    ensures HasCommitted(place, Next(place, sys, op), k, x, v)
  {
    var _ := Srv(Next(place, sys, op).servers, place(k));
  }

  lemma OtherVersionStays(place: Placement, sys: System, op: Op, k: Key, x: Instant, v: Value)
    requires Inv(place, sys) && Enabled(place, sys, op) && HasCommitted(place, sys, k, x, v) && op.AbortKey?
    ensures HasCommitted(place, Next(place, sys, op), k, x, v)
  {
    var _ := Srv(Next(place, sys, op).servers, place(k));
  }

  lemma CommittedVersionStays(place: Placement, sys: System, op: Op, k: Key, x: Instant, v: Value)
    requires Inv(place, sys) && Enabled(place, sys, op) && HasCommitted(place, sys, k, x, v)
    ensures HasCommitted(place, Next(place, sys, op), k, x, v)
  {
    if op.Write? {
      WriteInsertable(place, sys, op);
      WriteShape(place, sys, op);
      WrittenFrame(place, sys, op.ts, op.key, op.value, op.garbage);
    } else if op.Read? {
      ReadVersionStays(place, sys, op, k, x, v);
    } else if op.CommitKey? || op.AbortMark? {
      ChangedVersionStays(place, sys, op, k, x, v);
    } else if op.AbortKey? {
      OtherVersionStays(place, sys, op, k, x, v);
    } else {
      UntouchedVersionStays(place, sys, op, k, x, v);
    }
  }

  /** A version is pending exactly when the pendingWrite table of its server records it for a live attempt. */
  lemma PendingIffRecorded(place: Placement, ops: seq<Op>, k: Key, ts: Instant)
    requires Legal(place, ops) && In(Run(place, ops), ts, Active)
    ensures var sys := Run(place, ops);
      S.Wrote(Srv(sys.servers, place(k)), sys.attempts[ts].tid, k)
      <==> HasList(place, sys.servers, k) && ts in List(place, sys.servers, k)
           && List(place, sys.servers, k)[ts].state == S.PENDING
  {
    RunKeeps(place, ops);
    PendingIff(place, Run(place, ops), k, ts);
  }

  lemma PendingIff(place: Placement, sys: System, k: Key, ts: Instant)
    requires Inv(place, sys) && In(sys, ts, Active)
    ensures S.Wrote(Srv(sys.servers, place(k)), sys.attempts[ts].tid, k)
      <==> HasList(place, sys.servers, k) && ts in List(place, sys.servers, k)
           && List(place, sys.servers, k)[ts].state == S.PENDING
  {
    var tid := sys.attempts[ts].tid;
    if S.Wrote(Srv(sys.servers, place(k)), tid, k) {
      assert WriteSetOk(place, sys, place(k), tid, Srv(sys.servers, place(k)).pendingWrite[tid]);
      assert HasList(place, sys.servers, k) && ts in List(place, sys.servers, k);
      assert VersionOf(sys.attempts[ts], k, List(place, sys.servers, k)[ts]);
    }
  }

  /** Some step writes k for the attempt x. */
  ghost predicate WritesIn(steps: seq<Op>, x: Timestamp, k: Key) {
    exists j :: 0 <= j < |steps| && steps[j].Write? && steps[j].ts == x && steps[j].key == k
  }

  predicate HasWritten(sys: System, x: Instant, k: Key) {
    x in sys.attempts && k in sys.attempts[x].writeSet
  }

  /** A step writes at most its own key for its own attempt, and what has ended stays ended. */
  lemma StepWrites(place: Placement, sys: System, op: Op, x: Instant, k: Key)
    requires Enabled(place, sys, op)
    ensures HasWritten(Next(place, sys, op), x, k) <==> HasWritten(sys, x, k) || (op.Write? && op.ts == x && op.key == k)
    ensures x in sys.attempts && sys.attempts[x].phase == Aborted ==>
              x in Next(place, sys, op).attempts && Next(place, sys, op).attempts[x].phase == Aborted
  {
  }

  lemma {:induction false} WritesSince(place: Placement, ops: seq<Op>, more: seq<Op>, x: Instant, k: Key)
    requires Legal(place, ops) && Legal(place, ops + more)
    ensures HasWritten(Run(place, ops + more), x, k) <==> HasWritten(Run(place, ops), x, k) || WritesIn(more, x, k)
    ensures x in Run(place, ops).attempts && Run(place, ops).attempts[x].phase == Aborted ==>
              x in Run(place, ops + more).attempts && Run(place, ops + more).attempts[x].phase == Aborted
    decreases |more|
  {
    if more == [] {
      assert ops + more == ops;
    } else {
      var fewer, last := more[..|more| - 1], more[|more| - 1];
      assert (ops + more)[..|ops + more| - 1] == ops + fewer;
      WritesSince(place, ops, fewer, x, k);
      StepWrites(place, Run(place, ops + fewer), last, x, k);
      assert more == fewer + [last];
      WritesInLonger(fewer, last, x, k);
    }
  }

  lemma WritesInLonger(steps: seq<Op>, last: Op, x: Timestamp, k: Key)
    ensures WritesIn(steps + [last], x, k) <==> WritesIn(steps, x, k) || (last.Write? && last.ts == x && last.key == k)
  {
    var longer := steps + [last];
    if j :| 0 <= j < |steps| && steps[j].Write? && steps[j].ts == x && steps[j].key == k {
      assert longer[j] == steps[j];
    }
    assert longer[|steps|] == last;
  }

  /** A key without a list has been written by no attempt that commits later. */
  lemma NoListNoWriter(place: Placement, ops: seq<Op>, more: seq<Op>, x: Instant, k: Key)
    requires Legal(place, ops) && Legal(place, ops + more) && !HasList(place, Run(place, ops).servers, k)
    requires x in Commits(Run(place, ops + more))
    ensures k in Commits(Run(place, ops + more))[x] <==> WritesIn(more, x, k)
  {
    RunKeeps(place, ops);
    WritesSince(place, ops, more, x, k);
    assert WritesPlaced(place, Run(place, ops));
  }

  /**
    A FAIL_NO_VERSION answer leaves no mark. In whatever way the run goes on until its reader has committed, the answer
    agrees with the serial replay exactly when no attempt below the reader writes the key afterwards and commits.
   */
  lemma NoVersionAgreesIff(place: Placement, ops: seq<Op>, more: seq<Op>, ts: Instant, k: Key, log: seq<Timestamp>, i: nat)
    requires Legal(place, ops) && In(Run(place, ops), ts, Active)
    requires S.Read(Srv(Run(place, ops).servers, place(k)), Run(place, ops).attempts[ts].tid, ts, k).1.NoVersion?
    requires Legal(place, ops + more) && Serial.SerialOrder(log, Commits(Run(place, ops + more))) && i < |log| && log[i] == ts
    ensures Lookup(Serial.Replay(Serial.History(log[..i], Commits(Run(place, ops + more)))), k) == None
       <==> forall x :: x in Commits(Run(place, ops + more)) && x < ts ==> !WritesIn(more, x, k)
  {
    var commits := Commits(Run(place, ops + more));
    var h := Serial.History(log[..i], commits);
    Serial.ReplayHasIff(h, k);
    forall x | x in commits ensures k in commits[x] <==> WritesIn(more, x, k) {
      NoListNoWriter(place, ops, more, x, k);
    }
    if j :| 0 <= j < |h| && k in h[j] {
      assert log[j] in commits && log[j] < ts;
    }
    forall x | x in commits && x < ts && k in commits[x] ensures exists j :: 0 <= j < |h| && k in h[j] {
      var j :| 0 <= j < |log| && log[j] == x;
      assert k in h[j];
    }
  }

  /** The run of UnmarkedRead: a reader begins at 10, then a writer at 5 writes k and both commit. */
  function UnmarkedRun(k: Key, v: Value): seq<Op> {
    [Begin(1, 10)] + [Begin(2, 5)] + [Write(5, k, v, S.PENDING)] + [Commit(5)] + [Commit(10)]
  }

  const READER := Attempt(1, Active, {}, map[], {})

  lemma WriterWritesBelow(place: Placement, ops: seq<Op>, k: Key, v: Value)
    requires Legal(place, ops) && Run(place, ops) == System(map[], map[10 := READER], map[1 := 10])
    ensures var more := ops + [Begin(2, 5)] + [Write(5, k, v, S.PENDING)];
      && Legal(place, more)
      && Run(place, more).attempts == map[10 := READER, 5 := Attempt(2, Active, {}, map[k := v], {place(k)})]
      && Run(place, more).current == map[1 := 10, 2 := 5]
  {
    Extend(place, ops, Begin(2, 5));
    var ops2 := ops + [Begin(2, 5)];
    var sys2 := Run(place, ops2);
    assert sys2.attempts == map[10 := READER, 5 := Attempt(2, Active, {}, map[], {})];
    Extend(place, ops2, Write(5, k, v, S.PENDING));
    assert {} + {place(k)} == {place(k)};
  }

  lemma BothCommit(place: Placement, ops: seq<Op>, k: Key, v: Value)
    requires Legal(place, ops) && Run(place, ops).current == map[1 := 10, 2 := 5]
    requires Run(place, ops).attempts == map[10 := READER, 5 := Attempt(2, Active, {}, map[k := v], {place(k)})]
    ensures var all := ops + [Commit(5)] + [Commit(10)];
      Legal(place, all) && Commits(Run(place, all)) == map[5 := map[k := v], 10 := map[]]
  {
    Extend(place, ops, Commit(5));
    Extend(place, ops + [Commit(5)], Commit(10));
  }

  /**
    A FAIL_NO_VERSION answer leaves no mark, so it is not covered by the theorem, and cannot be: the reader
    at 10 is told that k has no version, and in the serial order the writer at 5 comes before it.
   */
  lemma UnmarkedRead(place: Placement, k: Key, v: Value)
    ensures Legal(place, [Begin(1, 10)]) && Legal(place, UnmarkedRun(k, v))
    ensures S.Read(Srv(Run(place, [Begin(1, 10)]).servers, place(k)), 1, 10, k).1.NoVersion?
    ensures Commits(Run(place, UnmarkedRun(k, v))) == map[5 := map[k := v], 10 := map[]]
    ensures Lookup(Serial.Replay([map[k := v]]), k) == Some(v)
  {
    assert Legal(place, []);
    Extend(place, [], Begin(1, 10));
    assert [] + [Begin(1, 10)] == [Begin(1, 10)];
    WriterWritesBelow(place, [Begin(1, 10)], k, v);
    BothCommit(place, [Begin(1, 10)] + [Begin(2, 5)] + [Write(5, k, v, S.PENDING)], k, v);
    Serial.LastWriterWins([map[k := v]], k, 0);
  }
}
