/**
  The invariant that every step of MvtoRuns keeps: the shape of the version lists, who owns each
  version, and that a read of a live attempt is protected by its mark.
 */
module MvtoInvariant {
  import opened Common
  import opened SortedMap
  import opened MvtoRuns
  import S = MvtoServer

  // ----- the invariant

  /** A read mark r on version w: w < r with no version strictly between them; pending versions carry none. */
  ghost predicate ListOk(m: S.VersionList) {
    && (forall w, r :: w in m && r in m[w].readTimes ==> w < r < MAX_TIMESTAMP)
    && (forall w, r, x :: w in m && r in m[w].readTimes && x in m && w < x ==> r <= x)
    && (forall w :: w in m && Inner(w) && m[w].state == S.PENDING ==> m[w].readTimes == {})
    && m[MIN_TIMESTAMP].value == ""
  }

  ghost predicate ListsOk(place: Placement, sys: System) {
    forall s, k :: k in Srv(sys.servers, s).versions ==> place(k) == s && ListOk(Srv(sys.servers, s).versions[k])
  }

  ghost predicate VersionOf(a: Attempt, k: Key, e: S.VersionEntry) {
    && k in a.writeSet && e.value == a.writeSet[k]
    && (e.state == S.PENDING || (e.state == S.COMMITTED && a.phase == Committed))
  }

  /** Every version was written by the attempt whose timestamp it carries. */
  ghost predicate VersionsOwned(place: Placement, sys: System) {
    forall k, x :: HasList(place, sys.servers, k) && x in List(place, sys.servers, k) && Inner(x) ==>
      x in sys.attempts && VersionOf(sys.attempts[x], k, List(place, sys.servers, k)[x])
  }

  /** A pending version is recorded in pendingWrite of its key's server. */
  ghost predicate PendingRecorded(place: Placement, sys: System) {
    forall k, x :: HasList(place, sys.servers, k) && x in List(place, sys.servers, k) && Inner(x)
                   && List(place, sys.servers, k)[x].state == S.PENDING && x in sys.attempts ==>
      && S.Wrote(Srv(sys.servers, place(k)), sys.attempts[x].tid, k)
      && sys.attempts[x].tid in sys.current && sys.current[sys.attempts[x].tid] == x
  }

  ghost predicate WritesPlaced(place: Placement, sys: System) {
    forall ts, k :: ts in sys.attempts && sys.attempts[ts].phase != Aborted && k in sys.attempts[ts].writeSet ==>
      HasList(place, sys.servers, k) && ts in List(place, sys.servers, k)
  }

  ghost predicate Marked(place: Placement, sys: System, ts: Instant, rd: ReadRecord) {
    && HasList(place, sys.servers, rd.key) && rd.version in List(place, sys.servers, rd.key)
    && var e := List(place, sys.servers, rd.key)[rd.version];
    ts in e.readTimes && e.state == S.COMMITTED && e.value == rd.value
  }

  ghost predicate ReadsMarked(place: Placement, sys: System) {
    forall ts, rd :: ts in sys.attempts && sys.attempts[ts].phase != Aborted && rd in sys.attempts[ts].readSet ==>
      Marked(place, sys, ts, rd)
  }

  /** The keys that server s records for tid were written by its latest attempt, which knows the server. */
  ghost predicate WriteSetOk(place: Placement, sys: System, s: ServerId, tid: TransactionId, keys: set<Key>) {
    && tid in sys.current && sys.current[tid] in sys.attempts
    && s in sys.attempts[sys.current[tid]].servers
    && forall k :: k in keys ==> place(k) == s && k in sys.attempts[sys.current[tid]].writeSet
  }

  ghost predicate WriteSetsOk(place: Placement, sys: System) {
    forall s, tid :: tid in Srv(sys.servers, s).pendingWrite ==>
      WriteSetOk(place, sys, s, tid, Srv(sys.servers, s).pendingWrite[tid])
  }

  ghost predicate CurrentOk(sys: System) {
    && (forall tid :: tid in sys.current ==>
          sys.current[tid] in sys.attempts && sys.attempts[sys.current[tid]].tid == tid)
    && (forall ts :: ts in sys.attempts && sys.attempts[ts].phase == Active ==> In(sys, ts, Active))
  }

  ghost predicate Inv(place: Placement, sys: System) {
    && ListsOk(place, sys)
    && VersionsOwned(place, sys)
    && PendingRecorded(place, sys)
    && WritesPlaced(place, sys)
    && ReadsMarked(place, sys)
    && WriteSetsOk(place, sys)
    && CurrentOk(sys)
  }

  // ----- every step keeps the invariant

  /** The system with a pending version of the active attempt ts at key k. */
  ghost function Written(place: Placement, sys: System, ts: Instant, k: Key, v: Value, garbage: S.VersionState): System
    requires In(sys, ts, Active)
  {
    var server := Srv(sys.servers, place(k));
    var a := sys.attempts[ts];
    var mine := if a.tid in server.pendingWrite then server.pendingWrite[a.tid] else {};
    var list: S.VersionList := S.ListOr(Srv(sys.servers, place(k)).versions, k, garbage)[ts := S.VersionEntry(v, S.PENDING, {})];
    sys.(servers := Put(sys.servers, place(k),
                        server.(versions := server.versions[k := list],
                                pendingWrite := server.pendingWrite[a.tid := mine + {k}])),
         attempts := sys.attempts[ts := a.(writeSet := a.writeSet[k := v], servers := a.servers + {place(k)})])
  }

  /** A new pending version of ts may be put into the list: no mark crosses it, and it replaces only its own kind. */
  ghost predicate Insertable(m: S.VersionList, ts: Instant) {
    && (forall w, r :: w in m && r in m[w].readTimes && w < ts ==> r <= ts)
    && (ts in m ==> m[ts].state == S.PENDING && m[ts].readTimes == {})
  }

  /** An enabled write may insert its version, and finds one of its own exactly when it has written the key before. */
  lemma WriteInsertable(place: Placement, sys: System, op: Op)
    requires Inv(place, sys) && Enabled(place, sys, op) && op.Write?
    ensures Insertable(S.ListOr(Srv(sys.servers, place(op.key)).versions, op.key, op.garbage), op.ts)
    ensures S.Wrote(Srv(sys.servers, place(op.key)), sys.attempts[op.ts].tid, op.key)
            <==> op.ts in S.ListOr(Srv(sys.servers, place(op.key)).versions, op.key, op.garbage)
    ensures op.ts in S.ListOr(Srv(sys.servers, place(op.key)).versions, op.key, op.garbage) ==> HasList(place, sys.servers, op.key)
  {
    if HasList(place, sys.servers, op.key) {
      var list := List(place, sys.servers, op.key);
      assert IsBelow(list, op.ts, Below(list, op.ts));
    }
  }

  /** Both branches of a successful write leave the key's list with a pending version of the attempt at ts. */
  lemma WriteShape(place: Placement, sys: System, op: Op)
    requires Inv(place, sys) && Enabled(place, sys, op) && op.Write?
    ensures Next(place, sys, op) == Written(place, sys, op.ts, op.key, op.value, op.garbage)
  {
    WriteInsertable(place, sys, op);
    var server := Srv(sys.servers, place(op.key));
    var tid := sys.attempts[op.ts].tid;
    if S.Wrote(server, tid, op.key) {
      assert AtOrAbove(List(place, sys.servers, op.key), op.ts) == op.ts;
      assert server.pendingWrite[tid] + {op.key} == server.pendingWrite[tid];
      assert server.pendingWrite[tid := server.pendingWrite[tid]] == server.pendingWrite;
    }
  }

  lemma InsertKeepsListOk(m: S.VersionList, ts: Instant, v: Value)
    requires ListOk(m) && Insertable(m, ts)
    ensures ListOk(m[ts := S.VersionEntry(v, S.PENDING, {})])
  {
  }

  /** What a write leaves alone, and the one list it changes. */
  lemma WrittenFrame(place: Placement, sys: System, ts: Instant, k: Key, v: Value, garbage: S.VersionState)
    requires In(sys, ts, Active)
    ensures var after := Written(place, sys, ts, k, v, garbage);
      && (forall j :: HasList(place, after.servers, j) <==> (j == k || HasList(place, sys.servers, j)))
      && (forall j :: j != k && HasList(place, sys.servers, j) ==>
            List(place, after.servers, j) == List(place, sys.servers, j))
      && HasList(place, after.servers, k)
      && List(place, after.servers, k)
         == S.ListOr(Srv(sys.servers, place(k)).versions, k, garbage)[ts := S.VersionEntry(v, S.PENDING, {})]
      && (forall s :: s != place(k) ==> Srv(after.servers, s) == Srv(sys.servers, s))
  {
  }

  lemma WriteKeepsLists(place: Placement, sys: System, ts: Instant, k: Key, v: Value, garbage: S.VersionState)
    requires Inv(place, sys) && In(sys, ts, Active) && Insertable(S.ListOr(Srv(sys.servers, place(k)).versions, k, garbage), ts)
    ensures ListsOk(place, Written(place, sys, ts, k, v, garbage))
  {
    var after := Written(place, sys, ts, k, v, garbage);
    var target := S.ListOr(Srv(sys.servers, place(k)).versions, k, garbage);
    assert ListOk(target);
    InsertKeepsListOk(target, ts, v);
    forall s, j | j in Srv(after.servers, s).versions
      ensures place(j) == s && ListOk(Srv(after.servers, s).versions[j])
    {
      if s != place(k) || j != k {
        assert j in Srv(sys.servers, s).versions;
      }
    }
  }

  lemma WriteKeepsOwners(place: Placement, sys: System, ts: Instant, k: Key, v: Value, garbage: S.VersionState)
    requires Inv(place, sys) && In(sys, ts, Active) && Insertable(S.ListOr(Srv(sys.servers, place(k)).versions, k, garbage), ts)
    ensures VersionsOwned(place, Written(place, sys, ts, k, v, garbage))
    ensures PendingRecorded(place, Written(place, sys, ts, k, v, garbage))
  {
    var after := Written(place, sys, ts, k, v, garbage);
    WrittenFrame(place, sys, ts, k, v, garbage);
    forall j, x | HasList(place, after.servers, j) && x in List(place, after.servers, j) && Inner(x)
      ensures x in after.attempts && VersionOf(after.attempts[x], j, List(place, after.servers, j)[x])
      ensures List(place, after.servers, j)[x].state == S.PENDING ==>
        && S.Wrote(Srv(after.servers, place(j)), after.attempts[x].tid, j)
        && after.attempts[x].tid in after.current && after.current[after.attempts[x].tid] == x
    {
      if j == k && x == ts {
      } else {
        assert HasList(place, sys.servers, j) && x in List(place, sys.servers, j);
      }
    }
  }

  lemma WriteKeepsAttempts(place: Placement, sys: System, ts: Instant, k: Key, v: Value, garbage: S.VersionState)
    requires Inv(place, sys) && In(sys, ts, Active) && Insertable(S.ListOr(Srv(sys.servers, place(k)).versions, k, garbage), ts)
    ensures WritesPlaced(place, Written(place, sys, ts, k, v, garbage))
    ensures CurrentOk(Written(place, sys, ts, k, v, garbage))
  {
    var after := Written(place, sys, ts, k, v, garbage);
    WrittenFrame(place, sys, ts, k, v, garbage);
    forall t, j | t in after.attempts && after.attempts[t].phase != Aborted && j in after.attempts[t].writeSet
      ensures HasList(place, after.servers, j) && t in List(place, after.servers, j)
    {
      if j != k || t != ts {
        assert j in sys.attempts[t].writeSet;
      }
    }
  }

  lemma WriteKeepsReads(place: Placement, sys: System, ts: Instant, k: Key, v: Value, garbage: S.VersionState)
    requires Inv(place, sys) && In(sys, ts, Active) && Insertable(S.ListOr(Srv(sys.servers, place(k)).versions, k, garbage), ts)
    ensures ReadsMarked(place, Written(place, sys, ts, k, v, garbage))
  {
    var after := Written(place, sys, ts, k, v, garbage);
    WrittenFrame(place, sys, ts, k, v, garbage);
    forall t, rd | t in after.attempts && after.attempts[t].phase != Aborted && rd in after.attempts[t].readSet
      ensures Marked(place, after, t, rd)
    {
      assert Marked(place, sys, t, rd);
    }
  }

  lemma WriteKeepsWriteSets(place: Placement, sys: System, ts: Instant, k: Key, v: Value, garbage: S.VersionState)
    requires Inv(place, sys) && In(sys, ts, Active)
    ensures WriteSetsOk(place, Written(place, sys, ts, k, v, garbage))
  {
  }

  // ----- steps that change one existing list

  /** Only the list of k differs, and only from m to `list`; the read table of a server is not restricted. */
  ghost predicate Patched(place: Placement, sys: System, after: System, k: Key, list: S.VersionList) {
    && after.attempts == sys.attempts && after.current == sys.current
    && HasList(place, sys.servers, k)
    && (forall s {:trigger Srv(after.servers, s)} ::
          && Srv(after.servers, s).pendingWrite == Srv(sys.servers, s).pendingWrite
          && Srv(after.servers, s).versions
             == if s == place(k) then Srv(sys.servers, s).versions[k := list] else Srv(sys.servers, s).versions)
  }

  /** A change of one list that the invariant allows. */
  ghost predicate GoodPatch(sys: System, k: Key, m: S.VersionList, list: S.VersionList) {
    && ListOk(list)
    && (forall x :: x in list ==> x in m)
    && (forall x :: x in list && Inner(x) && x in sys.attempts ==> VersionOf(sys.attempts[x], k, list[x]))
    && (forall x :: x in list && list[x].state == S.PENDING ==> m[x].state == S.PENDING)
    && (forall x :: x in m && x !in list && x in sys.attempts ==> sys.attempts[x].phase == Aborted)
    && (forall w, t :: w in m && m[w].state == S.COMMITTED && t in m[w].readTimes
                       && t in sys.attempts && sys.attempts[t].phase != Aborted ==>
          w in list && list[w].state == S.COMMITTED && list[w].value == m[w].value && t in list[w].readTimes)
  }

  lemma PatchFrame(place: Placement, sys: System, after: System, k: Key, list: S.VersionList)
    requires Patched(place, sys, after, k, list)
    ensures forall j {:trigger HasList(place, after.servers, j)} ::
              HasList(place, after.servers, j) <==> HasList(place, sys.servers, j)
    ensures forall j {:trigger List(place, after.servers, j)} :: HasList(place, sys.servers, j) ==>
              List(place, after.servers, j) == if j == k then list else List(place, sys.servers, j)
  {
    forall j
      ensures HasList(place, after.servers, j) <==> HasList(place, sys.servers, j)
      ensures HasList(place, sys.servers, j) ==>
                List(place, after.servers, j) == if j == k then list else List(place, sys.servers, j)
    {
      var _ := Srv(after.servers, place(j));
    }
  }

  lemma PatchKeepsLists(place: Placement, sys: System, after: System, k: Key, list: S.VersionList)
    requires ListsOk(place, sys) && Patched(place, sys, after, k, list) && ListOk(list)
    ensures ListsOk(place, after)
  {
    forall s, j | j in Srv(after.servers, s).versions
      ensures place(j) == s && ListOk(Srv(after.servers, s).versions[j])
    {
      assert j in Srv(sys.servers, s).versions;
    }
  }

  lemma PatchKeepsTables(place: Placement, sys: System, after: System, k: Key, list: S.VersionList)
    requires WriteSetsOk(place, sys) && CurrentOk(sys) && Patched(place, sys, after, k, list)
    ensures WriteSetsOk(place, after) && CurrentOk(after)
  {
  }

  lemma PatchKeepsOwners(place: Placement, sys: System, after: System, k: Key, list: S.VersionList)
    requires VersionsOwned(place, sys) && PendingRecorded(place, sys) && Patched(place, sys, after, k, list)
    requires GoodPatch(sys, k, List(place, sys.servers, k), list)
    ensures VersionsOwned(place, after) && PendingRecorded(place, after)
  {
    PatchFrame(place, sys, after, k, list);
    forall j, x | HasList(place, after.servers, j) && x in List(place, after.servers, j) && Inner(x)
      ensures x in after.attempts && VersionOf(after.attempts[x], j, List(place, after.servers, j)[x])
      ensures List(place, after.servers, j)[x].state == S.PENDING ==>
        && S.Wrote(Srv(after.servers, place(j)), after.attempts[x].tid, j)
        && after.attempts[x].tid in after.current && after.current[after.attempts[x].tid] == x
    {
      assert HasList(place, sys.servers, j) && x in List(place, sys.servers, j);
    }
  }

  lemma PatchKeepsWrites(place: Placement, sys: System, after: System, k: Key, list: S.VersionList)
    requires WritesPlaced(place, sys) && Patched(place, sys, after, k, list)
    requires GoodPatch(sys, k, List(place, sys.servers, k), list)
    ensures WritesPlaced(place, after)
  {
    PatchFrame(place, sys, after, k, list);
  }

  lemma PatchKeepsReads(place: Placement, sys: System, after: System, k: Key, list: S.VersionList)
    requires ReadsMarked(place, sys) && Patched(place, sys, after, k, list)
    requires GoodPatch(sys, k, List(place, sys.servers, k), list)
    ensures ReadsMarked(place, after)
  {
    PatchFrame(place, sys, after, k, list);
    forall t, rd | t in after.attempts && after.attempts[t].phase != Aborted && rd in after.attempts[t].readSet
      ensures Marked(place, after, t, rd)
    {
      assert Marked(place, sys, t, rd);
    }
  }

  lemma PatchKeeps(place: Placement, sys: System, after: System, k: Key, list: S.VersionList)
    requires Inv(place, sys) && Patched(place, sys, after, k, list)
    requires GoodPatch(sys, k, List(place, sys.servers, k), list)
    ensures Inv(place, after)
  {
    PatchKeepsLists(place, sys, after, k, list);
    PatchKeepsTables(place, sys, after, k, list);
    PatchKeepsOwners(place, sys, after, k, list);
    PatchKeepsWrites(place, sys, after, k, list);
    PatchKeepsReads(place, sys, after, k, list);
  }

  // ----- steps that change no list

  ghost predicate SameLists(sys: System, after: System) {
    forall s {:trigger Srv(after.servers, s)} :: Srv(after.servers, s).versions == Srv(sys.servers, s).versions
  }

  lemma SameListsFrame(place: Placement, sys: System, after: System)
    requires SameLists(sys, after)
    ensures forall j {:trigger HasList(place, after.servers, j)} ::
              HasList(place, after.servers, j) <==> HasList(place, sys.servers, j)
    ensures forall j {:trigger List(place, after.servers, j)} :: HasList(place, sys.servers, j) ==>
              List(place, after.servers, j) == List(place, sys.servers, j)
  {
    forall j
      ensures HasList(place, after.servers, j) <==> HasList(place, sys.servers, j)
      ensures HasList(place, sys.servers, j) ==> List(place, after.servers, j) == List(place, sys.servers, j)
    {
      var _ := Srv(after.servers, place(j));
    }
  }

  /** Tables may lose whole entries, as long as every pending version stays recorded. */
  lemma ClearingKeeps(place: Placement, sys: System, after: System)
    requires Inv(place, sys) && SameLists(sys, after)
    requires after.attempts == sys.attempts && after.current == sys.current
    requires forall s, tid :: tid in Srv(after.servers, s).pendingWrite ==>
               && tid in Srv(sys.servers, s).pendingWrite
               && Srv(after.servers, s).pendingWrite[tid] == Srv(sys.servers, s).pendingWrite[tid]
    requires PendingRecorded(place, after)
    ensures Inv(place, after)
  {
    SameListsFrame(place, sys, after);
    assert ListsOk(place, after);
    assert VersionsOwned(place, after);
    assert WritesPlaced(place, after);
    forall t, rd | t in after.attempts && after.attempts[t].phase != Aborted && rd in after.attempts[t].readSet
      ensures Marked(place, after, t, rd)
    {
      assert Marked(place, sys, t, rd);
    }
    forall s, tid | tid in Srv(after.servers, s).pendingWrite
      ensures WriteSetOk(place, after, s, tid, Srv(after.servers, s).pendingWrite[tid])
    {
      assert WriteSetOk(place, sys, s, tid, Srv(sys.servers, s).pendingWrite[tid]);
    }
  }

  // ----- every step keeps the invariant

  lemma BeginKeeps(place: Placement, sys: System, op: Op)
    requires Inv(place, sys) && Enabled(place, sys, op) && op.Begin?
    ensures Inv(place, Next(place, sys, op))
  {
    var after := Next(place, sys, op);
    BeginKeepsRecords(place, sys, op);
    forall t, rd | t in after.attempts && after.attempts[t].phase != Aborted && rd in after.attempts[t].readSet
      ensures Marked(place, after, t, rd)
    {
      assert Marked(place, sys, t, rd);
    }
  }

  lemma BeginKeepsRecords(place: Placement, sys: System, op: Op)
    requires Inv(place, sys) && Enabled(place, sys, op) && op.Begin?
    ensures PendingRecorded(place, Next(place, sys, op))
    ensures WriteSetsOk(place, Next(place, sys, op))
  {
    forall s ensures op.tid !in Srv(sys.servers, s).pendingWrite {
    }
  }

  lemma DecisionKeeps(place: Placement, sys: System, op: Op)
    requires Inv(place, sys) && Enabled(place, sys, op) && (op.Commit? || op.Abort?)
    ensures Inv(place, Next(place, sys, op))
  {
    var after := Next(place, sys, op);
    forall t, rd | t in after.attempts && after.attempts[t].phase != Aborted && rd in after.attempts[t].readSet
      ensures Marked(place, after, t, rd)
    {
      assert Marked(place, sys, t, rd);
    }
    assert CurrentOk(after);
  }

  lemma WriteKeeps(place: Placement, sys: System, op: Op)
    requires Inv(place, sys) && Enabled(place, sys, op) && op.Write?
    ensures Inv(place, Next(place, sys, op))
  {
    WriteInsertable(place, sys, op);
    WriteShape(place, sys, op);
    WriteKeepsLists(place, sys, op.ts, op.key, op.value, op.garbage);
    WriteKeepsOwners(place, sys, op.ts, op.key, op.value, op.garbage);
    WriteKeepsAttempts(place, sys, op.ts, op.key, op.value, op.garbage);
    WriteKeepsReads(place, sys, op.ts, op.key, op.value, op.garbage);
    WriteKeepsWriteSets(place, sys, op.ts, op.key, op.value, op.garbage);
  }

  lemma MarkKeepsListOk(m: S.VersionList, ts: Instant)
    requires ListOk(m) && m[Below(m, ts)].state == S.COMMITTED
    ensures var w := Below(m, ts); ListOk(m[w := m[w].(readTimes := m[w].readTimes + {ts})])
  {
  }

  lemma ReadKeeps(place: Placement, sys: System, op: Op)
    requires Inv(place, sys) && Enabled(place, sys, op) && op.Read?
    ensures Inv(place, Next(place, sys, op))
  {
    var after := Next(place, sys, op);
    var mid := after.(attempts := sys.attempts);
    var m := List(place, sys.servers, op.key);
    var w := Below(m, op.ts);
    var list: S.VersionList := m[w := m[w].(readTimes := m[w].readTimes + {op.ts})];
    MarkKeepsListOk(m, op.ts);
    assert GoodPatch(sys, op.key, m, list);
    PatchKeeps(place, sys, mid, op.key, list);
    var rd := ReadRecord(op.key, w, m[w].value);
    assert Marked(place, mid, op.ts, rd);
    NoteReadKeeps(place, mid, op.ts, rd);
  }

  /** The client notes a read whose mark is in place. */
  lemma NoteReadKeeps(place: Placement, sys: System, ts: Instant, rd: ReadRecord)
    requires Inv(place, sys) && ts in sys.attempts && Marked(place, sys, ts, rd)
    ensures var a := sys.attempts[ts];
      Inv(place, sys.(attempts := sys.attempts[ts := a.(readSet := a.readSet + {rd})]))
  {
    var a := sys.attempts[ts];
    var after := sys.(attempts := sys.attempts[ts := a.(readSet := a.readSet + {rd})]);
    forall t, r | t in after.attempts && after.attempts[t].phase != Aborted && r in after.attempts[t].readSet
      ensures Marked(place, after, t, r)
    {
      assert Marked(place, sys, t, r);
    }
  }

  lemma CommitKeyKeeps(place: Placement, sys: System, op: Op)
    requires Inv(place, sys) && Enabled(place, sys, op) && op.CommitKey?
    ensures Inv(place, Next(place, sys, op))
  {
    var m := List(place, sys.servers, op.key);
    assert AtOrAbove(m, op.ts) == op.ts;
    var list: S.VersionList := m[op.ts := m[op.ts].(state := S.COMMITTED)];
    assert GoodPatch(sys, op.key, m, list);
    PatchKeeps(place, sys, Next(place, sys, op), op.key, list);
  }

  lemma AbortKeyKeeps(place: Placement, sys: System, op: Op)
    requires Inv(place, sys) && Enabled(place, sys, op) && op.AbortKey?
    ensures Inv(place, Next(place, sys, op))
  {
    if HasList(place, sys.servers, op.key) {
      var m := List(place, sys.servers, op.key);
      assert GoodPatch(sys, op.key, m, S.RemoveVersion(m, op.ts));
      PatchKeeps(place, sys, Next(place, sys, op), op.key, S.RemoveVersion(m, op.ts));
    } else {
      ClearingKeeps(place, sys, Next(place, sys, op));
    }
  }

  lemma EraseIsGood(sys: System, k: Key, m: S.VersionList, ts: Instant, c: Timestamp)
    requires ListOk(m) && c in m && ts in sys.attempts && sys.attempts[ts].phase == Aborted
    requires forall x :: x in m && Inner(x) ==> x in sys.attempts && VersionOf(sys.attempts[x], k, m[x])
    ensures GoodPatch(sys, k, m, m[c := m[c].(readTimes := m[c].readTimes - {ts})])
  {
  }

  lemma AbortMarkKeeps(place: Placement, sys: System, op: Op)
    requires Inv(place, sys) && Enabled(place, sys, op) && op.AbortMark?
    ensures Inv(place, Next(place, sys, op))
  {
    var server := Srv(sys.servers, op.server);
    var after := Next(place, sys, op);
    if op.key in server.versions {
      assert place(op.key) == op.server;
      var m := List(place, sys.servers, op.key);
      var c := AtOrAbove(m, Sought(server.pendingRead[sys.attempts[op.ts].tid][op.key]));
      var list: S.VersionList := m[c := m[c].(readTimes := m[c].readTimes - {op.ts})];
      EraseIsGood(sys, op.key, m, op.ts, c);
      assert Patched(place, sys, after, op.key, list);
      PatchKeeps(place, sys, after, op.key, list);
    } else {
      ClearingKeeps(place, sys, after);
    }
  }

  /** The end of a handler's loop: the lists stay, and at most one transaction's tables are cleared. */
  lemma DoneKeeps(place: Placement, sys: System, op: Op)
    requires Inv(place, sys) && Enabled(place, sys, op)
    requires op.CommitWritesDone? || op.AbortWritesDone? || op.CommitReadsDone? || op.AbortReadsDone?
    ensures Inv(place, Next(place, sys, op))
  {
    var after := Next(place, sys, op);
    SameListsFrame(place, sys, after);
    forall j, x | HasList(place, after.servers, j) && x in List(place, after.servers, j) && Inner(x)
                  && List(place, after.servers, j)[x].state == S.PENDING && x in after.attempts
      ensures S.Wrote(Srv(after.servers, place(j)), after.attempts[x].tid, j)
      ensures after.attempts[x].tid in after.current && after.current[after.attempts[x].tid] == x
    {
      assert HasList(place, sys.servers, j) && x in List(place, sys.servers, j);
    }
    ClearingKeeps(place, sys, after);
  }

  lemma StepKeeps(place: Placement, sys: System, op: Op)
    requires Inv(place, sys) && Enabled(place, sys, op)
    ensures Inv(place, Next(place, sys, op))
  {
    match op
    case Begin(_, _) => BeginKeeps(place, sys, op);
    case Read(_, _) => ReadKeeps(place, sys, op);
    case Write(_, _, _, _) => WriteKeeps(place, sys, op);
    case Commit(_) => DecisionKeeps(place, sys, op);
    case Abort(_) => DecisionKeeps(place, sys, op);
    case CommitKey(_, _) => CommitKeyKeeps(place, sys, op);
    case AbortKey(_, _) => AbortKeyKeeps(place, sys, op);
    case AbortMark(_, _, _) => AbortMarkKeeps(place, sys, op);
    case _ => DoneKeeps(place, sys, op);
  }

  /** Every state that a legal run reaches satisfies the invariant. */
  lemma {:induction false} RunKeeps(place: Placement, ops: seq<Op>)
    requires Legal(place, ops)
    ensures Inv(place, Run(place, ops))
  {
    if ops != [] {
      RunKeeps(place, ops[..|ops| - 1]);
      StepKeeps(place, Run(place, ops[..|ops| - 1]), ops[|ops| - 1]);
    }
  }
}
