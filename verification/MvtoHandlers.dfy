/**
  The MVTO+ handlers as wholes, in every run: what a commit or an abort leaves on a server, that the sections of its
  loops, in any order, leave the same, and when a read or a write is refused.
 */
module MvtoHandlers {
  import opened Common
  import opened SortedMap
  import opened MvtoRuns
  import opened MvtoInvariant
  import opened MvtoTheorems
  import S = MvtoServer

  // ----- whose the read marks are

  predicate HasMark(place: Placement, sys: System, k: Key, w: Timestamp, r: Instant) {
    HasList(place, sys.servers, k) && w in List(place, sys.servers, k) && r in List(place, sys.servers, k)[w].readTimes
  }

  /** The attempt has read version w of k. */
  predicate HasRead(sys: System, r: Instant, k: Key, w: Timestamp) {
    r in sys.attempts && exists rd :: rd in sys.attempts[r].readSet && rd.key == k && rd.version == w
  }

  /** The server of k has recorded that the attempt's transaction read version w. */
  predicate IsNoted(place: Placement, sys: System, r: Instant, k: Key, w: Timestamp) {
    r in sys.attempts && Lookup(S.ReadVersions(Srv(sys.servers, place(k)), sys.attempts[r].tid), k) == Some(w)
  }

  /** Every mark was left by a read of its attempt, and for an active attempt that read is recorded. */
  ghost predicate MarkOwned(place: Placement, sys: System, k: Key, w: Timestamp, r: Instant) {
    HasMark(place, sys, k, w, r) ==> HasRead(sys, r, k, w) && (In(sys, r, Active) ==> IsNoted(place, sys, r, k, w))
  }

  lemma WriteMarks(place: Placement, sys: System, op: Op, k: Key, w: Timestamp, r: Instant)
    requires Inv(place, sys) && Enabled(place, sys, op) && op.Write? && HasMark(place, Next(place, sys, op), k, w, r)
    ensures HasMark(place, sys, k, w, r)
  {
    WriteInsertable(place, sys, op);
    WriteShape(place, sys, op);
    WrittenFrame(place, sys, op.ts, op.key, op.value, op.garbage);
  }

  lemma ReadMarks(place: Placement, sys: System, op: Op, k: Key, w: Timestamp, r: Instant)
    requires Enabled(place, sys, op) && op.Read? && HasMark(place, Next(place, sys, op), k, w, r)
    ensures HasMark(place, sys, k, w, r)
         || (op == Read(r, k) && HasList(place, sys.servers, k) && w == Below(List(place, sys.servers, k), r))
  {
    var _ := Srv(Next(place, sys, op).servers, place(k));
  }

  lemma ChangeMarks(place: Placement, sys: System, op: Op, k: Key, w: Timestamp, r: Instant)
    requires Enabled(place, sys, op) && (op.CommitKey? || op.AbortKey? || op.AbortMark?)
    requires HasMark(place, Next(place, sys, op), k, w, r)
    ensures HasMark(place, sys, k, w, r)
  {
    var _ := Srv(Next(place, sys, op).servers, place(k));
  }

  /** A mark was there before a step, unless the step is the read that leaves it. */
  lemma StepMarks(place: Placement, sys: System, op: Op, k: Key, w: Timestamp, r: Instant)
    requires Inv(place, sys) && Enabled(place, sys, op) && HasMark(place, Next(place, sys, op), k, w, r)
    ensures HasMark(place, sys, k, w, r)
         || (op == Read(r, k) && HasList(place, sys.servers, k) && w == Below(List(place, sys.servers, k), r))
  {
    if op.Write? {
      WriteMarks(place, sys, op, k, w, r);
    } else if op.Read? {
      ReadMarks(place, sys, op, k, w, r);
    } else if op.CommitKey? || op.AbortKey? || op.AbortMark? {
      ChangeMarks(place, sys, op, k, w, r);
    } else {
      var _ := Srv(Next(place, sys, op).servers, place(k));
    }
  }

  /** A step of another attempt, or on another key, changes no record of an active attempt. */
  lemma NoteStays(place: Placement, sys: System, op: Op, k: Key, w: Timestamp, r: Instant)
    requires CurrentOk(sys) && Enabled(place, sys, op) && In(sys, r, Active) && In(Next(place, sys, op), r, Active)
    requires IsNoted(place, sys, r, k, w) && op != Read(r, k)
    ensures IsNoted(place, Next(place, sys, op), r, k, w)
  {
    var _ := Srv(Next(place, sys, op).servers, place(k));
  }

  lemma ReadIsNoted(place: Placement, sys: System, k: Key, r: Instant)
    requires Enabled(place, sys, Read(r, k))
    ensures HasList(place, sys.servers, k)
    ensures HasRead(Next(place, sys, Read(r, k)), r, k, Below(List(place, sys.servers, k), r))
    ensures IsNoted(place, Next(place, sys, Read(r, k)), r, k, Below(List(place, sys.servers, k), r))
  {
    var after := Next(place, sys, Read(r, k));
    var list := List(place, sys.servers, k);
    var rd := ReadRecord(k, Below(list, r), list[Below(list, r)].value);
    assert rd in after.attempts[r].readSet;
    var _ := Srv(after.servers, place(k));
  }

  lemma ReadsStay(place: Placement, sys: System, op: Op, k: Key, w: Timestamp, r: Instant)
    requires Enabled(place, sys, op) && HasRead(sys, r, k, w)
    ensures HasRead(Next(place, sys, op), r, k, w)
  {
    var rd :| rd in sys.attempts[r].readSet && rd.key == k && rd.version == w;
    assert rd in Next(place, sys, op).attempts[r].readSet;
  }

  lemma StepOwnsMark(place: Placement, sys: System, op: Op, k: Key, w: Timestamp, r: Instant)
    requires Inv(place, sys) && Enabled(place, sys, op) && MarkOwned(place, sys, k, w, r)
    ensures MarkOwned(place, Next(place, sys, op), k, w, r)
  {
    var after := Next(place, sys, op);
    if HasMark(place, after, k, w, r) {
      StepMarks(place, sys, op, k, w, r);
      if HasMark(place, sys, k, w, r) {
        ReadsStay(place, sys, op, k, w, r);
        if In(after, r, Active) {
          if op == Read(r, k) {
            ReadIsNoted(place, sys, k, r);
            OneMark(List(place, sys.servers, k), w, r);
          } else {
            NoteStays(place, sys, op, k, w, r);
          }
        }
      } else {
        ReadIsNoted(place, sys, k, r);
      }
    }
  }

  /** A mark fences its version off, so that is the version below the mark. */
  lemma OneMark(list: S.VersionList, w: Timestamp, r: Instant)
    requires ListOk(list) && w in list && r in list[w].readTimes
    ensures w == Below(list, r)
  {
    assert IsBelow(list, r, w);
  }

  lemma {:induction false} RunOwnsMarks(place: Placement, ops: seq<Op>, k: Key, w: Timestamp, r: Instant)
    requires Legal(place, ops)
    ensures MarkOwned(place, Run(place, ops), k, w, r)
  {
    if ops != [] {
      RunKeeps(place, ops[..|ops| - 1]);
      RunOwnsMarks(place, ops[..|ops| - 1], k, w, r);
      StepOwnsMark(place, Run(place, ops[..|ops| - 1]), ops[|ops| - 1], k, w, r);
    }
  }

  // ----- when a write is late

  /** An attempt above ts has read a version of k below ts, and its mark is still there. */
  ghost predicate ReadAcross(place: Placement, sys: System, ts: Instant, k: Key) {
    exists r: Instant, w: Timestamp :: w < ts < r && HasRead(sys, r, k, w) && HasMark(place, sys, k, w, r)
  }

  lemma LateIff(place: Placement, ops: seq<Op>, ts: Instant, k: Key)
    requires Legal(place, ops) && HasList(place, Run(place, ops).servers, k)
    ensures S.Late(List(place, Run(place, ops).servers, k), ts) <==> ReadAcross(place, Run(place, ops), ts, k)
  {
    var sys := Run(place, ops);
    RunKeeps(place, ops);
    var list := List(place, sys.servers, k);
    assert ListOk(list);
    if S.Late(list, ts) {
      var r: Timestamp :| r in list[Below(list, ts)].readTimes && ts < r;
      RunOwnsMarks(place, ops, k, Below(list, ts), r);
      assert HasRead(sys, r, k, Below(list, ts)) && HasMark(place, sys, k, Below(list, ts), r);
    }
    if r: Instant, w: Timestamp :| w < ts < r && HasRead(sys, r, k, w) && HasMark(place, sys, k, w, r) {
      assert IsBelow(list, ts, w);
    }
  }

  /** The mark of a read of an attempt that has not aborted is there. */
  lemma ReadHasMark(place: Placement, sys: System, k: Key, w: Timestamp, r: Instant)
    requires Inv(place, sys) && HasRead(sys, r, k, w) && sys.attempts[r].phase != Aborted
    ensures HasMark(place, sys, k, w, r)
  {
    var rd :| rd in sys.attempts[r].readSet && rd.key == k && rd.version == w;
    assert Marked(place, sys, r, rd);
  }

  /**
    A write is refused exactly when it is the attempt's first of the key and would come between a version and an attempt
    that has read it. For readers that have not aborted the mark is always there.
   */
  lemma WriteIsLateIff(place: Placement, ops: seq<Op>, ts: Instant, k: Key)
    requires Legal(place, ops) && In(Run(place, ops), ts, Active)
    ensures var sys := Run(place, ops);
      S.WriteAllowed(Srv(sys.servers, place(k)), sys.attempts[ts].tid, ts, k)
      <==> S.Wrote(Srv(sys.servers, place(k)), sys.attempts[ts].tid, k) || !ReadAcross(place, sys, ts, k)
    ensures forall r: Instant, w: Timestamp {:trigger HasRead(Run(place, ops), r, k, w)} ::
              HasRead(Run(place, ops), r, k, w) && Run(place, ops).attempts[r].phase != Aborted ==>
                HasMark(place, Run(place, ops), k, w, r)
  {
    var sys := Run(place, ops);
    RunKeeps(place, ops);
    if HasList(place, sys.servers, k) {
      LateIff(place, ops, ts, k);
    }
    forall r: Instant, w: Timestamp | HasRead(sys, r, k, w) && sys.attempts[r].phase != Aborted
      ensures HasMark(place, sys, k, w, r)
    {
      ReadHasMark(place, sys, k, w, r);
    }
  }

  // ----- when a read is blocked

  /** The key has a list exactly when some attempt has written it. */
  ghost predicate ListedIffWritten(place: Placement, sys: System, k: Key) {
    HasList(place, sys.servers, k) <==> exists x: Instant :: HasWritten(sys, x, k)
  }

  lemma StepLists(place: Placement, sys: System, op: Op, k: Key)
    requires Inv(place, sys) && Enabled(place, sys, op)
    ensures HasList(place, Next(place, sys, op).servers, k)
       <==> HasList(place, sys.servers, k) || (op.Write? && op.key == k)
  {
    if op.Write? {
      WriteShape(place, sys, op);
      WriteInsertable(place, sys, op);
      WrittenFrame(place, sys, op.ts, op.key, op.value, op.garbage);
    }
    var _ := Srv(Next(place, sys, op).servers, place(k));
  }

  lemma {:induction false} RunListsWritten(place: Placement, ops: seq<Op>, k: Key)
    requires Legal(place, ops)
    ensures ListedIffWritten(place, Run(place, ops), k)
  {
    if ops != [] {
      var sys, op := Run(place, ops[..|ops| - 1]), ops[|ops| - 1];
      RunKeeps(place, ops[..|ops| - 1]);
      RunListsWritten(place, ops[..|ops| - 1], k);
      StepLists(place, sys, op, k);
      forall x: Instant
        ensures HasWritten(Next(place, sys, op), x, k) <==> HasWritten(sys, x, k) || (op.Write? && op.ts == x && op.key == k)
      {
        StepWrites(place, sys, op, x, k);
      }
      if op.Write? && op.key == k {
        assert HasWritten(Next(place, sys, op), op.ts, k);
      }
    }
  }

  lemma CommitStays(place: Placement, sys: System, op: Op, x: Instant)
    requires Enabled(place, sys, op) && x in sys.attempts && sys.attempts[x].phase == Committed
    ensures x in Next(place, sys, op).attempts && Next(place, sys, op).attempts[x].phase == Committed
  {
  }

  /** A commit section has run only for an attempt whose commit has started. */
  lemma {:induction false} PublisherCommitted(place: Placement, ops: seq<Op>, x: Instant, k: Key)
    requires Legal(place, ops) && CommitKey(x, k) in ops
    ensures x in Run(place, ops).attempts && Run(place, ops).attempts[x].phase == Committed
  {
    var rest, last := ops[..|ops| - 1], ops[|ops| - 1];
    assert ops == rest + [last];
    if CommitKey(x, k) in rest {
      PublisherCommitted(place, rest, x, k);
    }
    CommitStays(place, Run(place, rest), last, x);
  }

  /** Only its commit section changes the state of a version, and a new version is pending. */
  lemma StepState(place: Placement, sys: System, op: Op, k: Key, x: Instant)
    requires Inv(place, sys) && Enabled(place, sys, op) && op != CommitKey(x, k)
    requires HasList(place, Next(place, sys, op).servers, k) && x in List(place, Next(place, sys, op).servers, k)
    ensures var now := List(place, Next(place, sys, op).servers, k)[x].state;
      if HasList(place, sys.servers, k) && x in List(place, sys.servers, k) then now == List(place, sys.servers, k)[x].state
      else now == S.PENDING && In(sys, x, Active)
  {
    if op.Write? {
      WriteShape(place, sys, op);
      WriteInsertable(place, sys, op);
      WrittenFrame(place, sys, op.ts, op.key, op.value, op.garbage);
    } else if op.CommitKey? {
      CommitState(place, sys, op, k, x);
    } else {
      OtherState(place, sys, op, k, x);
    }
  }

  lemma OtherState(place: Placement, sys: System, op: Op, k: Key, x: Instant)
    requires Enabled(place, sys, op) && !op.Write? && !op.CommitKey?
    requires HasList(place, Next(place, sys, op).servers, k) && x in List(place, Next(place, sys, op).servers, k)
    ensures HasList(place, sys.servers, k) && x in List(place, sys.servers, k)
    ensures List(place, Next(place, sys, op).servers, k)[x].state == List(place, sys.servers, k)[x].state
  {
    var _ := Srv(Next(place, sys, op).servers, place(k));
  }

  lemma CommitState(place: Placement, sys: System, op: Op, k: Key, x: Instant)
    requires Inv(place, sys) && Enabled(place, sys, op) && op.CommitKey? && op != CommitKey(x, k)
    requires HasList(place, Next(place, sys, op).servers, k) && x in List(place, Next(place, sys, op).servers, k)
    ensures HasList(place, sys.servers, k) && x in List(place, sys.servers, k)
    ensures List(place, Next(place, sys, op).servers, k)[x].state == List(place, sys.servers, k)[x].state
  {
    assert WriteSetOk(place, sys, place(op.key), sys.attempts[op.ts].tid,
                      Srv(sys.servers, place(op.key)).pendingWrite[sys.attempts[op.ts].tid]);
    WrittenVersion(place, sys, op.ts, op.key);
    ChangeOwnVersion(List(place, sys.servers, op.key), op.ts, S.SetCommitted);
    var _ := Srv(Next(place, sys, op).servers, place(k));
  }

  lemma CommitKeyCommits(place: Placement, sys: System, x: Instant, k: Key)
    requires Inv(place, sys) && Enabled(place, sys, CommitKey(x, k))
    requires HasList(place, Next(place, sys, CommitKey(x, k)).servers, k)
    requires x in List(place, Next(place, sys, CommitKey(x, k)).servers, k)
    ensures List(place, Next(place, sys, CommitKey(x, k)).servers, k)[x].state == S.COMMITTED
  {
    var _ := Srv(Next(place, sys, CommitKey(x, k)).servers, place(k));
    assert x in List(place, sys.servers, k);
    ChangeOwnVersion(List(place, sys.servers, k), x, S.SetCommitted);
  }

  /** A version is committed exactly when the commit section of its writer has run for its key. */
  lemma {:induction false} CommittedIffPublished(place: Placement, ops: seq<Op>, k: Key, x: Instant)
    requires Legal(place, ops) && HasList(place, Run(place, ops).servers, k) && x in List(place, Run(place, ops).servers, k)
    ensures List(place, Run(place, ops).servers, k)[x].state == S.COMMITTED <==> CommitKey(x, k) in ops
  {
    if ops != [] {
      var rest, op := ops[..|ops| - 1], ops[|ops| - 1];
      assert ops == rest + [op];
      var sys := Run(place, rest);
      RunKeeps(place, rest);
      if op == CommitKey(x, k) {
        CommitKeyCommits(place, sys, x, k);
      } else {
        StepState(place, sys, op, k, x);
        if HasList(place, sys.servers, k) && x in List(place, sys.servers, k) {
          CommittedIffPublished(place, rest, k, x);
        } else if CommitKey(x, k) in rest {
          PublisherCommitted(place, rest, x, k);
        }
      }
    }
  }

  /**
    How a read is answered: FAIL_NO_VERSION when no attempt has ever written the key; with the newest version below ts,
    and its writer's value, when the writer's commit has reached the key; otherwise it has to wait. Below all versions
    it is answered with "" when the memory of the new sentinel happened to say COMMITTED.
   */
  lemma ReadIsAnsweredIff(place: Placement, ops: seq<Op>, ts: Instant, k: Key)
    requires Legal(place, ops) && In(Run(place, ops), ts, Active)
    ensures var sys := Run(place, ops);
      var reply := S.Read(Srv(sys.servers, place(k)), sys.attempts[ts].tid, ts, k).1;
      && (reply.NoVersion? <==> forall x: Instant :: !HasWritten(sys, x, k))
      && (HasList(place, sys.servers, k) ==>
            var w := Below(List(place, sys.servers, k), ts);
            && (Inner(w) ==>
                  && (reply.ReadOk? <==> CommitKey(w, k) in ops)
                  && HasWritten(sys, w, k) && (reply.ReadOk? ==> reply.value == sys.attempts[w].writeSet[k]))
            && (w == MIN_TIMESTAMP ==> (reply.ReadOk? <==> List(place, sys.servers, k)[w].state == S.COMMITTED))
            && (reply.ReadOk? ==> reply.version == w && (w == MIN_TIMESTAMP ==> reply.value == "")))
  {
    var sys := Run(place, ops);
    RunKeeps(place, ops);
    RunListsWritten(place, ops, k);
    if HasList(place, sys.servers, k) {
      var list := List(place, sys.servers, k);
      assert ListOk(list);
      var w := Below(list, ts);
      if Inner(w) {
        CommittedIffPublished(place, ops, k, w);
        assert VersionOf(sys.attempts[w], k, list[w]);
      }
    }
  }

  // ----- commit and abort as wholes

  /** Both records of tid are gone and all others stay. */
  ghost predicate OnlyForgets(s: S.Server, after: S.Server, tid: TransactionId) {
    && tid !in after.pendingWrite && tid !in after.pendingRead
    && forall u :: u != tid ==>
         Lookup(after.pendingWrite, u) == Lookup(s.pendingWrite, u) && Lookup(after.pendingRead, u) == Lookup(s.pendingRead, u)
  }

  lemma HandleCommitAt(s: S.Server, tid: TransactionId, ts: Instant, k: Key)
    ensures Lookup(S.HandleCommit(s, tid, ts).versions, k)
         == if k in s.versions && S.Wrote(s, tid, k) then Some(S.ChangeAt(s.versions[k], ts, S.SetCommitted))
            else Lookup(s.versions, k)
  {
  }

  /**
    In every run, HandleCommit makes exactly the recorded versions of the attempt visible, with the client's values and
    the marks they had, changes no other version or list, and forgets the transaction's two records and no others.
   */
  lemma HandleCommitPublishes(place: Placement, ops: seq<Op>, ts: Instant, k: Key)
    requires Legal(place, ops) && In(Run(place, ops), ts, Committed)
    ensures var sys := Run(place, ops);
      var tid := sys.attempts[ts].tid;
      var server := Srv(sys.servers, place(k));
      var after := S.HandleCommit(server, tid, ts);
      && OnlyForgets(server, after, tid)
      && (S.Wrote(server, tid, k) ==>
            && k in sys.attempts[ts].writeSet && HasList(place, sys.servers, k) && ts in server.versions[k]
            && Lookup(after.versions, k) == Some(server.versions[k][
                 ts := S.VersionEntry(sys.attempts[ts].writeSet[k], S.COMMITTED, server.versions[k][ts].readTimes)]))
      && (!S.Wrote(server, tid, k) ==> Lookup(after.versions, k) == Lookup(server.versions, k))
  {
    var sys := Run(place, ops);
    var tid := sys.attempts[ts].tid;
    var server := Srv(sys.servers, place(k));
    RunKeeps(place, ops);
    HandleCommitAt(server, tid, ts, k);
    if S.Wrote(server, tid, k) {
      assert WriteSetOk(place, sys, place(k), tid, server.pendingWrite[tid]);
      WrittenVersion(place, sys, ts, k);
      ChangeOwnVersion(server.versions[k], ts, S.SetCommitted);
    }
  }

  /** The list without version ts and without the mark ts, but for one on the lower sentinel, which stays. */
  function Undone(list: S.VersionList, ts: Instant): map<Timestamp, S.VersionEntry> {
    map x | x in list && x != ts ::
      if x == MIN_TIMESTAMP then list[x] else list[x].(readTimes := list[x].readTimes - {ts})
  }

  /** Dropping the mark at the version that is recorded as read drops it everywhere but on the sentinel. */
  lemma DroppedIsUndone(list: S.VersionList, ts: Instant, w: Timestamp)
    requires ListOk(list) && forall x :: x in list && ts in list[x].readTimes ==> x == w
    ensures S.ChangeAt(S.RemoveVersion(list, ts), w, S.DropMark(ts)) == Undone(list, ts)
  {
    var rest := S.RemoveVersion(list, ts);
    var c := AtOrAbove(rest, Sought(w));
    var after := S.ChangeAt(rest, w, S.DropMark(ts));
    if w in list && ts in list[w].readTimes && MIN_TIMESTAMP < w {
      assert IsAtOrAbove(rest, w, w);
    }
    forall x | x in rest ensures after[x] == Undone(list, ts)[x] {
      SameWithout(list[x], ts);
    }
    assert after.Keys == rest.Keys == Undone(list, ts).Keys;
  }

  lemma SameWithout(e: S.VersionEntry, ts: Instant)
    ensures ts !in e.readTimes ==> e.(readTimes := e.readTimes - {ts}) == e
  {
    assert ts !in e.readTimes ==> e.readTimes - {ts} == e.readTimes;
  }

  lemma UnmarkedIsUndone(list: S.VersionList, ts: Instant)
    requires forall x :: x in list ==> ts !in list[x].readTimes
    ensures S.RemoveVersion(list, ts) == Undone(list, ts)
  {
    forall x | x in list && x != ts ensures Undone(list, ts)[x] == list[x] {
      SameWithout(list[x], ts);
    }
  }

  /** HandleAbort on one key: the recorded version is removed first, then the recorded mark is dropped. */
  lemma HandleAbortAt(s: S.Server, tid: TransactionId, ts: Instant, k: Key)
    requires k in s.versions
    ensures var unwritten := if S.Wrote(s, tid, k) then S.RemoveVersion(s.versions[k], ts) else s.versions[k];
      Lookup(S.HandleAbort(s, tid, ts).versions, k)
      == Some(if k in S.ReadVersions(s, tid) then S.ChangeAt(unwritten, S.ReadVersions(s, tid)[k], S.DropMark(ts)) else unwritten)
  {
  }

  lemma OwnVersionIsRecorded(place: Placement, sys: System, ts: Instant, k: Key)
    requires Inv(place, sys) && In(sys, ts, Active) && HasList(place, sys.servers, k)
    requires !S.Wrote(Srv(sys.servers, place(k)), sys.attempts[ts].tid, k)
    ensures S.RemoveVersion(List(place, sys.servers, k), ts) == List(place, sys.servers, k)
  {
    PendingIff(place, sys, k, ts);
    var list := List(place, sys.servers, k);
    assert ts in list ==> VersionOf(sys.attempts[ts], k, list[ts]);
  }

  /** The recorded mark is the only one that the attempt has on k. */
  lemma OnlyRecordedMark(place: Placement, ops: seq<Op>, ts: Instant, k: Key, x: Timestamp)
    requires Legal(place, ops) && In(Run(place, ops), ts, Active) && HasMark(place, Run(place, ops), k, x, ts)
    ensures var sys := Run(place, ops);
      Lookup(S.ReadVersions(Srv(sys.servers, place(k)), sys.attempts[ts].tid), k) == Some(x)
  {
    RunOwnsMarks(place, ops, k, x, ts);
  }

  lemma AbortedListIsUndone(place: Placement, ops: seq<Op>, ts: Instant, k: Key)
    requires Legal(place, ops) && In(Run(place, ops), ts, Active) && HasList(place, Run(place, ops).servers, k)
    ensures var sys := Run(place, ops);
      Lookup(S.HandleAbort(Srv(sys.servers, place(k)), sys.attempts[ts].tid, ts).versions, k)
      == Some(Undone(List(place, sys.servers, k), ts))
  {
    var sys := Run(place, ops);
    var tid := sys.attempts[ts].tid;
    var server := Srv(sys.servers, place(k));
    var list := List(place, sys.servers, k);
    RunKeeps(place, ops);
    HandleAbortAt(server, tid, ts, k);
    if !S.Wrote(server, tid, k) {
      OwnVersionIsRecorded(place, sys, ts, k);
    }
    forall x | x in list && ts in list[x].readTimes ensures Lookup(S.ReadVersions(server, tid), k) == Some(x) {
      OnlyRecordedMark(place, ops, ts, k, x);
    }
    if k in S.ReadVersions(server, tid) {
      DroppedIsUndone(list, ts, S.ReadVersions(server, tid)[k]);
    } else {
      UnmarkedIsUndone(list, ts);
    }
  }

  /**
    In every run, HandleAbort of an active attempt takes back exactly its version and its mark on each key, but for a
    mark on the lower sentinel, and forgets the transaction's two records and no others.
   */
  lemma HandleAbortUndoes(place: Placement, ops: seq<Op>, ts: Instant, k: Key)
    requires Legal(place, ops) && In(Run(place, ops), ts, Active)
    ensures var sys := Run(place, ops);
      var tid := sys.attempts[ts].tid;
      var server := Srv(sys.servers, place(k));
      var after := S.HandleAbort(server, tid, ts);
      && OnlyForgets(server, after, tid)
      && (if k in server.versions then Lookup(after.versions, k) == Some(Undone(server.versions[k], ts))
          else k !in after.versions)
  {
    if HasList(place, Run(place, ops).servers, k) {
      AbortedListIsUndone(place, ops, ts, k);
    }
  }

  // ----- section by section

  /** The server after the commit has passed `keys` one by one, each in a section of its own. */
  ghost function CommitInOrder(s: S.Server, ts: Instant, keys: seq<Key>): S.Server {
    if keys == [] then s else S.CommitKey(CommitInOrder(s, ts, keys[..|keys| - 1]), ts, keys[|keys| - 1])
  }

  /** The server after the first loop of the abort has passed `keys` one by one. */
  function AbortInOrder(s: S.Server, ts: Instant, keys: seq<Key>): S.Server {
    if keys == [] then s else S.AbortKey(AbortInOrder(s, ts, keys[..|keys| - 1]), ts, keys[|keys| - 1])
  }

  /** The server after the second loop of the abort has passed `keys` one by one. */
  ghost function EraseInOrder(s: S.Server, ts: Instant, marks: map<Key, Timestamp>, keys: seq<Key>): S.Server
    requires forall i :: 0 <= i < |keys| ==> keys[i] in marks
  {
    if keys == [] then s
    else
      var k := keys[|keys| - 1];
      S.EraseMark(EraseInOrder(s, ts, marks, keys[..|keys| - 1]), ts, k, marks[k])
  }

  lemma {:induction false} CommittedInOrder(s: S.Server, ts: Instant, writes: set<Key>, keys: seq<Key>)
    requires Distinct(keys) && forall i :: 0 <= i < |keys| ==> keys[i] in writes
    ensures CommitInOrder(s, ts, keys)
         == s.(versions := S.Changed(s.versions, S.AllAt(writes, ts), writes - (set k | k in keys), S.SetCommitted))
  {
    var at := S.AllAt(writes, ts);
    assert at.Keys == writes;
    if keys == [] {
      S.LoopsStart(s.versions, at, writes, S.SetCommitted, ts);
      assert writes - (set k | k in keys) == writes;
    } else {
      var rest, last := keys[..|keys| - 1], keys[|keys| - 1];
      CommittedInOrder(s, ts, writes, rest);
      OneLess(writes, keys, rest, last);
      S.ChangedStep(s.versions, at, writes - (set k | k in rest), S.SetCommitted, last);
    }
  }

  lemma {:induction false} AbortedInOrder(s: S.Server, ts: Instant, writes: set<Key>, keys: seq<Key>)
    requires Distinct(keys) && forall i :: 0 <= i < |keys| ==> keys[i] in writes
    ensures AbortInOrder(s, ts, keys) == s.(versions := S.Removed(s.versions, writes, writes - (set k | k in keys), ts))
  {
    if keys == [] {
      S.LoopsStart(s.versions, map[], writes, S.SetCommitted, ts);
      assert writes - (set k | k in keys) == writes;
    } else {
      var rest, last := keys[..|keys| - 1], keys[|keys| - 1];
      AbortedInOrder(s, ts, writes, rest);
      OneLess(writes, keys, rest, last);
      S.RemovedStep(s.versions, writes, writes - (set k | k in rest), ts, last);
    }
  }

  lemma {:induction false} ErasedInOrder(s: S.Server, ts: Instant, marks: map<Key, Timestamp>, keys: seq<Key>)
    requires Distinct(keys) && forall i :: 0 <= i < |keys| ==> keys[i] in marks
    ensures EraseInOrder(s, ts, marks, keys)
         == s.(versions := S.Changed(s.versions, marks, marks.Keys - (set k | k in keys), S.DropMark(ts)))
  {
    if keys == [] {
      S.LoopsStart(s.versions, marks, {}, S.DropMark(ts), ts);
      assert marks.Keys - (set k | k in keys) == marks.Keys;
    } else {
      var rest, last := keys[..|keys| - 1], keys[|keys| - 1];
      ErasedInOrder(s, ts, marks, rest);
      OneLess(marks.Keys, keys, rest, last);
      S.ChangedStep(s.versions, marks, marks.Keys - (set k | k in rest), S.DropMark(ts), last);
    }
  }

  /** In whatever order the loop takes the written keys, its sections and the two last ones end where HandleCommit does. */
  lemma CommitSectionsAddUp(s: S.Server, tid: TransactionId, ts: Instant, keys: seq<Key>)
    requires EachOnce(keys, S.Writes(s, tid))
    ensures S.ForgetReads(S.ForgetWrites(CommitInOrder(s, ts, keys), tid), tid) == S.HandleCommit(s, tid, ts)
  {
    CommittedInOrder(s, ts, S.Writes(s, tid), keys);
    NoneLeft(keys, S.Writes(s, tid));
  }

  /** The same for the two loops of HandleAbort, the first over the written keys and the second over the read ones. */
  lemma AbortSectionsAddUp(s: S.Server, tid: TransactionId, ts: Instant, written: seq<Key>, read: seq<Key>)
    requires EachOnce(written, S.Writes(s, tid))
    requires EachOnce(read, S.ReadVersions(s, tid).Keys)
    ensures forall i :: 0 <= i < |read| ==> read[i] in S.ReadVersions(s, tid)
    ensures var unwritten := S.ForgetWrites(AbortInOrder(s, ts, written), tid);
      S.ForgetReads(EraseInOrder(unwritten, ts, S.ReadVersions(s, tid), read), tid) == S.HandleAbort(s, tid, ts)
  {
    AbortedInOrder(s, ts, S.Writes(s, tid), written);
    NoneLeft(written, S.Writes(s, tid));
    ErasedInOrder(S.ForgetWrites(AbortInOrder(s, ts, written), tid), ts, S.ReadVersions(s, tid), read);
    NoneLeft(read, S.ReadVersions(s, tid).Keys);
  }
}
