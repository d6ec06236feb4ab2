/**
  First accesses to a key in two sections. A find that misses holds no accessor, and the insertion that follows is a
  section of its own, which overwrites whatever entry the key has by then. A run whose insertions find no entry for
  their key, above all one in which no two first accesses to a key overlap, is a run of MvtilRuns, with the same guards
  met; with two that overlap, a granted read lock is lost.
 */
module MvtilSections {
  import opened Common
  import opened SortedMap
  import opened LockList
  import opened LockSafety
  import opened MvtilRuns
  import opened MvtilSteps
  import opened MvtilTheorems
  import Serial
  import S = MvtilServer
  import W = MvtilWitnesses

  /** `missed` are the first accesses whose find has missed and whose insertion is outstanding. */
  datatype Sectioned = Sectioned(sys: System, missed: set<Op>)

  /** The find of a first access misses, its insertion, and any step in one section. */
  datatype Step = Miss(op: Op) | Insert(op: Op) | Direct(op: Op)

  const IDLE := Sectioned(START, {})

  predicate Accesses(op: Op) {
    op.Read? || op.Write?
  }

  /** The request has to insert an entry. */
  predicate FirstAccess(place: Placement, sys: System, op: Op) {
    && Accesses(op) && !HasEntry(place, sys.servers, op.key)
    && (op.Write? ==> !PendsWrite(place, sys, op.tid, op.key))
  }

  /** The step is one of a transaction whose client waits for an answer: it has one request at a time. */
  ghost predicate Waits(st: Sectioned, op: Op) {
    !op.Collect? && exists m :: m in st.missed && Accesses(m) && m.tid == op.tid
  }

  /** What an insertion finds: whatever entry the key has by now counts for nothing. */
  function Without(place: Placement, sys: System, k: Key): System {
    if HasEntry(place, sys.servers, k) then
      var server := Srv(sys.servers, place(k));
      sys.(servers := Put(sys.servers, place(k), server.(entries := server.entries - {k})))
    else
      sys
  }

  /** The system that the step acts on. */
  function ActsOn(place: Placement, sys: System, step: Step): System {
    if step.Insert? && Accesses(step.op) then Without(place, sys, step.op.key) else sys
  }

  ghost predicate CanStep(place: Placement, st: Sectioned, step: Step) {
    && Enabled(place, ActsOn(place, st.sys, step), step.op)
    && match step
       case Miss(op) => FirstAccess(place, st.sys, op) && !Waits(st, op)
       case Insert(op) => op in st.missed && Accesses(op)
       case Direct(op) => !FirstAccess(place, st.sys, op) && !Waits(st, op)
  }

  ghost function After(place: Placement, st: Sectioned, step: Step): Sectioned
    requires CanStep(place, st, step)
  {
    match step
    case Miss(op) => st.(missed := st.missed + {op})
    case Insert(op) => Sectioned(Next(place, ActsOn(place, st.sys, step), op), st.missed - {op})
    case Direct(op) => st.(sys := Next(place, st.sys, op))
  }

  /** The sections, with the guards met wherever a step takes effect, lead from one state to another. */
  ghost predicate Leads(place: Placement, g: Guards, st: Sectioned, steps: seq<Step>, after: Sectioned)
    decreases |steps|
  {
    if steps == [] then
      after == st
    else
      && CanStep(place, st, steps[0])
      && (!steps[0].Miss? ==> Meets(place, g, ActsOn(place, st.sys, steps[0]), steps[0].op))
      && Leads(place, g, After(place, st, steps[0]), steps[1..], after)
  }

  /** No find of a first access misses while another first access to the key is outstanding. */
  ghost predicate OneAtATime(place: Placement, st: Sectioned, steps: seq<Step>)
    decreases |steps|
  {
    steps == []
    || (CanStep(place, st, steps[0])
        && (steps[0].Miss? ==> forall m :: m in st.missed ==> Accesses(m) && m.key != steps[0].op.key)
        && OneAtATime(place, After(place, st, steps[0]), steps[1..]))
  }

  /** Each insertion finds no entry for its key. */
  ghost predicate Undisturbed(place: Placement, st: Sectioned, steps: seq<Step>)
    decreases |steps|
  {
    steps == []
    || (CanStep(place, st, steps[0])
        && (steps[0].Insert? ==> Accesses(steps[0].op) && !HasEntry(place, st.sys.servers, steps[0].op.key))
        && Undisturbed(place, After(place, st, steps[0]), steps[1..]))
  }

  /** The steps of MvtilRuns that the sections amount to: a first access counts when it is inserted. */
  function Atomic(steps: seq<Step>): seq<Op> {
    if steps == [] then [] else (if steps[0].Miss? then [] else [steps[0].op]) + Atomic(steps[1..])
  }

  /** Outstanding first accesses are to different keys, which still have no entry. */
  ghost predicate Apart(place: Placement, st: Sectioned) {
    && (forall m :: m in st.missed ==> Accesses(m) && !HasEntry(place, st.sys.servers, m.key))
    && forall m, n :: m in st.missed && n in st.missed && m.key == n.key ==> m == n
  }

  /** Only a first access adds an entry, and only for its own key. */
  lemma EntriesAppear(place: Placement, sys: System, op: Op, k: Key)
    requires Enabled(place, sys, op) && !HasEntry(place, sys.servers, k) && HasEntry(place, Next(place, sys, op).servers, k)
    ensures FirstAccess(place, sys, op) && op.key == k
  {
    var _ := Srv(Next(place, sys, op).servers, place(k));
    if op.Write? && !PendsWrite(place, sys, op.tid, op.key) {
      var _ := Srv(WriteLocked(place, sys, op.tid, op.key).servers, place(k));
    }
  }

  lemma StepKeepsApart(place: Placement, st: Sectioned, step: Step)
    requires Apart(place, st) && CanStep(place, st, step)
    requires step.Miss? ==> forall m :: m in st.missed ==> Accesses(m) && m.key != step.op.key
    ensures ActsOn(place, st.sys, step) == st.sys && Apart(place, After(place, st, step))
  {
    forall m | m in After(place, st, step).missed
      ensures Accesses(m) && !HasEntry(place, After(place, st, step).sys.servers, m.key)
    {
      if !step.Miss? && HasEntry(place, Next(place, st.sys, step.op).servers, m.key) {
        EntriesAppear(place, st.sys, step.op, m.key);
      }
    }
  }

  lemma AtomicUnfolds(ops: seq<Op>, steps: seq<Step>)
    requires steps != []
    ensures ops + Atomic(steps) == (if steps[0].Miss? then ops else ops + [steps[0].op]) + Atomic(steps[1..])
  {
  }

  lemma ExtendGuarded(place: Placement, g: Guards, ops: seq<Op>, op: Op)
    requires Legal(place, ops) && Guarded(place, g, ops)
    requires Enabled(place, Run(place, ops), op) && Meets(place, g, Run(place, ops), op)
    ensures Legal(place, ops + [op]) && Guarded(place, g, ops + [op])
    ensures Run(place, ops + [op]) == Next(place, Run(place, ops), op)
  {
    assert (ops + [op])[..|ops + [op]| - 1] == ops;
  }

  /** Undisturbed sections do what their atomic steps do. */
  lemma {:induction false} SectionsAreAtomicFrom(
      place: Placement, g: Guards, ops: seq<Op>, st: Sectioned, steps: seq<Step>, after: Sectioned)
    requires Legal(place, ops) && Guarded(place, g, ops) && Run(place, ops) == st.sys
    requires Leads(place, g, st, steps, after) && Undisturbed(place, st, steps)
    ensures Legal(place, ops + Atomic(steps)) && Guarded(place, g, ops + Atomic(steps))
    ensures Run(place, ops + Atomic(steps)) == after.sys
    decreases |steps|
  {
    if steps == [] {
      assert ops + Atomic(steps) == ops;
    } else {
      var step := steps[0];
      AtomicUnfolds(ops, steps);
      if step.Miss? {
        SectionsAreAtomicFrom(place, g, ops, After(place, st, step), steps[1..], after);
      } else {
        ExtendGuarded(place, g, ops, step.op);
        SectionsAreAtomicFrom(place, g, ops + [step.op], After(place, st, step), steps[1..], after);
      }
    }
  }

  /** Every sectioned run whose insertions find no entry for their key ends as an atomic run with the same guards does. */
  lemma SectionsAreAtomic(place: Placement, g: Guards, steps: seq<Step>, after: Sectioned)
    requires Leads(place, g, IDLE, steps, after) && Undisturbed(place, IDLE, steps)
    ensures Legal(place, Atomic(steps)) && Guarded(place, g, Atomic(steps)) && Run(place, Atomic(steps)) == after.sys
  {
    SectionsAreAtomicFrom(place, g, [], IDLE, steps, after);
    assert [] + Atomic(steps) == Atomic(steps);
  }

  /** Sections are undisturbed, above all, when no two first accesses to a key overlap. */
  lemma {:induction false} OneAtATimeIsUndisturbed(place: Placement, st: Sectioned, steps: seq<Step>)
    requires Apart(place, st) && OneAtATime(place, st, steps)
    ensures Undisturbed(place, st, steps)
    decreases |steps|
  {
    if steps != [] {
      StepKeepsApart(place, st, steps[0]);
      OneAtATimeIsUndisturbed(place, After(place, st, steps[0]), steps[1..]);
    }
  }

  /** So such a run is one-copy serializable. */
  lemma SectionsAreSerializable(place: Placement, steps: seq<Step>, after: Sectioned, log: seq<TransactionId>, i: nat, k: Key)
    requires Leads(place, ALL, IDLE, steps, after) && Undisturbed(place, IDLE, steps)
    requires SerialOrder(after.sys.txns, log) && i < |log| && k in after.sys.txns[log[i]].readSet
    ensures var txns := after.sys.txns;
      txns[log[i]].readSet[k].value == ValueOr(Lookup(Serial.Replay(WriteSets(txns, log[..i])), k))
  {
    SectionsAreAtomic(place, ALL, steps, after);
    OneCopySerializable(place, Atomic(steps), log, i, k);
  }

  // ----- two overlapping first accesses

  lemma Before(place: Placement, g: Guards, st: Sectioned, step: Step, next: Sectioned, rest: seq<Step>, after: Sectioned)
    requires CanStep(place, st, step) && (!step.Miss? ==> Meets(place, g, ActsOn(place, st.sys, step), step.op))
    requires After(place, st, step) == next && Leads(place, g, next, rest, after)
    ensures Leads(place, g, st, [step] + rest, after)
  {
    assert ([step] + rest)[1..] == rest;
  }

  /** Transaction 1 is to read k at 20, and transaction 2 is to write v at 5. */
  const BOTH_BEGUN := W.NOTHING.(
    txns := map[1 := Txn(Active, 20, 30, map[], map[], {}, 0), 2 := Txn(Active, 5, 9, map[], map[], {}, 0)])

  const READ_LOCKS: S.LockSeq := [HEAD, Lock(1, 1, 30, READ, false), TAIL]
  const WRITE_LOCKS: S.LockSeq := [HEAD, Lock(2, 5, 9, WRITE, false), TAIL]

  function ReadInserted(k: Key): W.Stage {
    W.AfterRead(k, BOTH_BEGUN, 1, 0, 1, READ_LOCKS)
  }

  /** The entry of the write replaces that of the read. */
  function BothInserted(place: Placement, k: Key, v: Value): W.Stage {
    W.AfterWrite(place, k, ReadInserted(k).(entry := S.FRESH_ENTRY), 2, v, WRITE_LOCKS)
  }

  function BothCommitted(place: Placement, k: Key, v: Value): W.Stage {
    BothInserted(place, k, v).(
      txns := map[1 := Txn(Committed, 20, 20, map[k := ReadRecord(0, "")], map[], {}, 1),
                  2 := Txn(Committed, 5, 5, map[], map[k := v], {place(k)}, 0)], commits := 2)
  }

  function Idle(place: Placement, k: Key, touched: bool, g: W.Stage): Sectioned {
    Sectioned(W.At(place, k, touched, g), {})
  }

  /** On a fresh entry both requests are granted as they are. */
  lemma FirstGrants(k: Key)
    ensures W.ReadsWhole(k, BOTH_BEGUN, 1, 0, 1, READ_LOCKS) && W.GrantsAll(BOTH_BEGUN, 2, WRITE_LOCKS)
  {
    W.WholeRead(S.FRESH_ENTRY, 1, 20, 30, 0, MAX_TIMESTAMP, 0);
    assert READ_LOCKS == LockList.Insert(NO_LOCKS, 0, Lock(1, 1, 30, READ, false));
    W.WholeWrite(NO_LOCKS, 2, 5, 9, 0);
    assert WRITE_LOCKS == LockList.Insert(NO_LOCKS, 0, Lock(2, 5, 9, WRITE, false));
  }

  lemma BothBegin(place: Placement, k: Key, rest: seq<Step>, after: Sectioned)
    requires Leads(place, ALL, Idle(place, k, false, BOTH_BEGUN), rest, after)
    ensures Leads(place, ALL, IDLE, [Direct(Begin(1, 20, 30))] + ([Direct(Begin(2, 5, 9))] + rest), after)
  {
    var one := Sectioned(START.(txns := map[1 := Txn(Active, 20, 30, map[], map[], {}, 0)]), {});
    Before(place, ALL, one, Direct(Begin(2, 5, 9)), Idle(place, k, false, BOTH_BEGUN), rest, after);
    Before(place, ALL, IDLE, Direct(Begin(1, 20, 30)), one, [Direct(Begin(2, 5, 9))] + rest, after);
  }

  lemma ReadMisses(place: Placement, k: Key)
    ensures CanStep(place, Idle(place, k, false, BOTH_BEGUN), Miss(Read(1, k)))
  {
    FirstGrants(k);
    W.ReadNext(place, k, false, BOTH_BEGUN, 1, 0, 1, READ_LOCKS);
  }

  lemma WriteMisses(place: Placement, k: Key, v: Value)
    ensures CanStep(place, Sectioned(W.At(place, k, false, BOTH_BEGUN), {Read(1, k)}), Miss(Write(2, k, v)))
  {
    FirstGrants(k);
    W.WriteNext(place, k, false, BOTH_BEGUN, 2, v, WRITE_LOCKS);
  }

  lemma BothMiss(place: Placement, k: Key, v: Value, rest: seq<Step>, after: Sectioned)
    requires Leads(place, ALL, Sectioned(W.At(place, k, false, BOTH_BEGUN), {Read(1, k), Write(2, k, v)}), rest, after)
    ensures Leads(place, ALL, Idle(place, k, false, BOTH_BEGUN), [Miss(Read(1, k))] + ([Miss(Write(2, k, v))] + rest), after)
  {
    var sys := W.At(place, k, false, BOTH_BEGUN);
    WriteMisses(place, k, v);
    Before(place, ALL, Sectioned(sys, {Read(1, k)}), Miss(Write(2, k, v)), Sectioned(sys, {Read(1, k), Write(2, k, v)}), rest, after);
    ReadMisses(place, k);
    Before(place, ALL, Idle(place, k, false, BOTH_BEGUN), Miss(Read(1, k)), Sectioned(sys, {Read(1, k)}),
           [Miss(Write(2, k, v))] + rest, after);
  }

  lemma ReadInserts(place: Placement, k: Key, v: Value)
    ensures var st := Sectioned(W.At(place, k, false, BOTH_BEGUN), {Read(1, k), Write(2, k, v)});
      && CanStep(place, st, Insert(Read(1, k))) && Meets(place, ALL, ActsOn(place, st.sys, Insert(Read(1, k))), Read(1, k))
      && After(place, st, Insert(Read(1, k))) == Sectioned(W.At(place, k, true, ReadInserted(k)), {Write(2, k, v)})
  {
    FirstGrants(k);
    W.ReadNext(place, k, false, BOTH_BEGUN, 1, 0, 1, READ_LOCKS);
  }

  /** The insertion of the write drops the entry that holds the granted read lock. */
  lemma ReadLockIsLost(place: Placement, k: Key)
    ensures Without(place, W.At(place, k, true, ReadInserted(k)), k)
         == W.At(place, k, false, ReadInserted(k).(entry := S.FRESH_ENTRY))
  {
    var g := ReadInserted(k);
    assert 1 in g.readSets;
    assert map[k := g.entry] - {k} == map[];
    W.EntryAt(place, k, true, g);
  }

  lemma WriteInserts(place: Placement, k: Key, v: Value)
    ensures var st := Sectioned(W.At(place, k, true, ReadInserted(k)), {Write(2, k, v)});
      && CanStep(place, st, Insert(Write(2, k, v)))
      && Meets(place, ALL, ActsOn(place, st.sys, Insert(Write(2, k, v))), Write(2, k, v))
      && After(place, st, Insert(Write(2, k, v))) == Idle(place, k, true, BothInserted(place, k, v))
  {
    FirstGrants(k);
    ReadLockIsLost(place, k);
    var g := ReadInserted(k).(entry := S.FRESH_ENTRY);
    W.EntryAt(place, k, false, g);
    NothingInsideIsOverrun(NO_LOCKS, 2, Interval(MIN_TIMESTAMP, 5, 9));
    W.WriteNext(place, k, false, g, 2, v, WRITE_LOCKS);
  }

  function WriterCommitted(place: Placement, k: Key, v: Value): W.Stage {
    BothInserted(place, k, v).(
      txns := BothInserted(place, k, v).txns[2 := Txn(Committed, 5, 5, map[], map[k := v], {place(k)}, 0)], commits := 1)
  }

  lemma WriterCommits(place: Placement, k: Key, v: Value)
    ensures CanStep(place, Idle(place, k, true, BothInserted(place, k, v)), Direct(Commit(2)))
    ensures Meets(place, ALL, W.At(place, k, true, BothInserted(place, k, v)), Commit(2))
    ensures After(place, Idle(place, k, true, BothInserted(place, k, v)), Direct(Commit(2)))
         == Idle(place, k, true, WriterCommitted(place, k, v))
  {
    assert BothInserted(place, k, v).txns[2] == Txn(Active, 5, 9, map[], map[k := v], {place(k)}, 0);
  }

  lemma ReaderCommits(place: Placement, k: Key, v: Value)
    ensures CanStep(place, Idle(place, k, true, WriterCommitted(place, k, v)), Direct(Commit(1)))
    ensures Meets(place, ALL, W.At(place, k, true, WriterCommitted(place, k, v)), Commit(1))
    ensures After(place, Idle(place, k, true, WriterCommitted(place, k, v)), Direct(Commit(1)))
         == Idle(place, k, true, BothCommitted(place, k, v))
  {
  }

  lemma BothCommit(place: Placement, k: Key, v: Value)
    ensures Leads(place, ALL, Idle(place, k, true, BothInserted(place, k, v)), [Direct(Commit(2))] + ([Direct(Commit(1))] + []),
                  Idle(place, k, true, BothCommitted(place, k, v)))
  {
    var after := Idle(place, k, true, BothCommitted(place, k, v));
    var first := Idle(place, k, true, WriterCommitted(place, k, v));
    ReaderCommits(place, k, v);
    Before(place, ALL, first, Direct(Commit(1)), after, [], after);
    WriterCommits(place, k, v);
    Before(place, ALL, Idle(place, k, true, BothInserted(place, k, v)), Direct(Commit(2)), first, [Direct(Commit(1))] + [], after);
  }

  function Overlap(k: Key, v: Value): seq<Step> {
    [Direct(Begin(1, 20, 30))] + ([Direct(Begin(2, 5, 9))] + ([Miss(Read(1, k))] + ([Miss(Write(2, k, v))]
    + ([Insert(Read(1, k))] + ([Insert(Write(2, k, v))] + ([Direct(Commit(2))] + ([Direct(Commit(1))] + [])))))))
  }

  lemma OverlapRuns(place: Placement, k: Key, v: Value)
    ensures Leads(place, ALL, IDLE, Overlap(k, v), Idle(place, k, true, BothCommitted(place, k, v)))
  {
    var after := Idle(place, k, true, BothCommitted(place, k, v));
    var commits := [Direct(Commit(2))] + ([Direct(Commit(1))] + []);
    BothCommit(place, k, v);
    WriteInserts(place, k, v);
    Before(place, ALL, Sectioned(W.At(place, k, true, ReadInserted(k)), {Write(2, k, v)}), Insert(Write(2, k, v)),
           Idle(place, k, true, BothInserted(place, k, v)), commits, after);
    ReadInserts(place, k, v);
    Before(place, ALL, Sectioned(W.At(place, k, false, BOTH_BEGUN), {Read(1, k), Write(2, k, v)}), Insert(Read(1, k)),
           Sectioned(W.At(place, k, true, ReadInserted(k)), {Write(2, k, v)}), [Insert(Write(2, k, v))] + commits, after);
    var inserts := [Insert(Read(1, k))] + ([Insert(Write(2, k, v))] + commits);
    BothMiss(place, k, v, inserts, after);
    BothBegin(place, k, [Miss(Read(1, k))] + ([Miss(Write(2, k, v))] + inserts), after);
  }

  /** In the serial order the writer at 5 comes first, and the reader at 20 has not read its value. */
  lemma ReaderIsContradicted(place: Placement, k: Key, v: Value, log: seq<TransactionId>)
    requires v != "" && SerialOrder(BothCommitted(place, k, v).txns, log)
    ensures HasCommitted(BothCommitted(place, k, v).txns, 1) && W.ReadContradicts(BothCommitted(place, k, v).txns, log, 1, k)
  {
    var txns := BothCommitted(place, k, v).txns;
    assert HasCommitted(txns, 1) && HasCommitted(txns, 2);
    var i :| 0 <= i < |log| && log[i] == 1;
    var j :| 0 <= j < |log| && log[j] == 2;
    forall m | 0 <= m < i ensures log[m] == 2 {
      assert HasCommitted(txns, log[m]) && Precedes(txns, log[m], log[i]);
    }
    Serial.LastWriterWins(WriteSets(txns, log[..i]), k, i - 1);
  }

  /**
    Without the guard a first read and a first write of k overlap: every step meets the four guards of MvtilRuns, but
    the lock of the reader at 20 is lost, the writer commits at 5, and the run is not serializable.
   */
  lemma OverlappingAccessesLoseALock(place: Placement, k: Key, v: Value)
    requires v != ""
    ensures var after := Idle(place, k, true, BothCommitted(place, k, v));
      && Leads(place, ALL, IDLE, Overlap(k, v), after) && !Undisturbed(place, IDLE, Overlap(k, v))
      && HasCommitted(after.sys.txns, 1) && k in after.sys.txns[1].readSet
      && forall log :: SerialOrder(after.sys.txns, log) ==> W.ReadContradicts(after.sys.txns, log, 1, k)
  {
    var after := Idle(place, k, true, BothCommitted(place, k, v));
    OverlapRuns(place, k, v);
    forall log | SerialOrder(after.sys.txns, log)
      ensures HasCommitted(after.sys.txns, 1) && W.ReadContradicts(after.sys.txns, log, 1, k)
    {
      ReaderIsContradicted(place, k, v, log);
    }
    var log: seq<TransactionId> := [2, 1];
    assert SerialOrder(after.sys.txns, log);
    if Undisturbed(place, IDLE, Overlap(k, v)) {
      SectionsAreSerializable(place, Overlap(k, v), after, log, 1, k);
    }
  }
}
