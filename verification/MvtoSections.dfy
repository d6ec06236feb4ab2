/**
  First writes of a key in two sections. A find that misses holds no accessor, and the insertion that follows is a
  section of its own, which ignores that another one may have come in between: whatever the key has by then is
  overwritten. A run whose insertions find no list for their key, above all one in which no two first writes of a key
  overlap, is a run of MvtoRuns; two that overlap lose a list.
 */
module MvtoSections {
  import opened Common
  import opened SortedMap
  import opened MvtoRuns
  import opened MvtoInvariant
  import opened MvtoTheorems
  import Serial
  import S = MvtoServer

  /** `missed` are the first writes whose find has missed and whose insertion is outstanding. */
  datatype Sectioned = Sectioned(sys: System, missed: set<Op>)

  /** The find of a first write misses, its insertion, and any step in one section. */
  datatype Step = Miss(op: Op) | Insert(op: Op) | Direct(op: Op)

  const IDLE := Sectioned(START, {})

  /** The write has to insert a list. */
  predicate FirstWrite(place: Placement, sys: System, op: Op) {
    op.Write? && !HasList(place, sys.servers, op.key)
    && (op.ts in sys.attempts ==> !S.Wrote(Srv(sys.servers, place(op.key)), sys.attempts[op.ts].tid, op.key))
  }

  /** The client of the attempt waits for an answer: it has one request at a time. */
  ghost predicate Waits(st: Sectioned, ts: Instant) {
    exists m :: m in st.missed && m.ts == ts
  }

  /** What an insertion finds: whatever list the key has by now counts for nothing. */
  function Without(place: Placement, sys: System, k: Key): System {
    if HasList(place, sys.servers, k) then
      var server := Srv(sys.servers, place(k));
      sys.(servers := Put(sys.servers, place(k), server.(versions := server.versions - {k})))
    else
      sys
  }

  ghost predicate CanStep(place: Placement, st: Sectioned, step: Step) {
    match step
    case Miss(op) => Enabled(place, st.sys, op) && FirstWrite(place, st.sys, op) && !Waits(st, op.ts)
    case Insert(op) => op.Write? && op in st.missed && Enabled(place, Without(place, st.sys, op.key), op)
    case Direct(op) => Enabled(place, st.sys, op) && !FirstWrite(place, st.sys, op) && !Waits(st, op.ts)
  }

  ghost function After(place: Placement, st: Sectioned, step: Step): Sectioned
    requires CanStep(place, st, step)
  {
    match step
    case Miss(op) => st.(missed := st.missed + {op})
    case Insert(op) => Sectioned(Next(place, Without(place, st.sys, op.key), op), st.missed - {op})
    case Direct(op) => st.(sys := Next(place, st.sys, op))
  }

  /** The sections lead from one state to another. */
  ghost predicate Leads(place: Placement, st: Sectioned, steps: seq<Step>, after: Sectioned)
    decreases |steps|
  {
    if steps == [] then
      after == st
    else
      CanStep(place, st, steps[0]) && Leads(place, After(place, st, steps[0]), steps[1..], after)
  }

  /** No find of a first write misses while another first write of the key is outstanding. */
  ghost predicate OneAtATime(place: Placement, st: Sectioned, steps: seq<Step>)
    decreases |steps|
  {
    steps == []
    || (CanStep(place, st, steps[0])
        && (steps[0].Miss? ==> forall m :: m in st.missed ==> m.Write? && m.key != steps[0].op.key)
        && OneAtATime(place, After(place, st, steps[0]), steps[1..]))
  }

  /** Each insertion finds no list for its key. */
  ghost predicate Undisturbed(place: Placement, st: Sectioned, steps: seq<Step>)
    decreases |steps|
  {
    steps == []
    || (CanStep(place, st, steps[0])
        && (steps[0].Insert? ==> steps[0].op.Write? && !HasList(place, st.sys.servers, steps[0].op.key))
        && Undisturbed(place, After(place, st, steps[0]), steps[1..]))
  }

  /** The steps of MvtoRuns that the sections amount to: a first write counts when it inserts. */
  function Atomic(steps: seq<Step>): seq<Op> {
    if steps == [] then [] else (if steps[0].Miss? then [] else [steps[0].op]) + Atomic(steps[1..])
  }

  /** Outstanding first writes are of different keys, which still have no list. */
  ghost predicate Apart(place: Placement, st: Sectioned) {
    && (forall m :: m in st.missed ==> m.Write? && !HasList(place, st.sys.servers, m.key))
    && forall m, n :: m in st.missed && n in st.missed && m.key == n.key ==> m == n
  }

  /** Only a first write adds a list, and only for its own key. */
  lemma ListsAppear(place: Placement, sys: System, op: Op, k: Key)
    requires Enabled(place, sys, op) && !HasList(place, sys.servers, k) && HasList(place, Next(place, sys, op).servers, k)
    ensures FirstWrite(place, sys, op) && op.key == k
  {
    var _ := Srv(Next(place, sys, op).servers, place(k));
  }

  lemma StepKeepsApart(place: Placement, st: Sectioned, step: Step)
    requires Apart(place, st) && CanStep(place, st, step)
    requires step.Miss? ==> forall m :: m in st.missed ==> m.Write? && m.key != step.op.key
    ensures Apart(place, After(place, st, step))
    ensures !step.Miss? ==> Enabled(place, st.sys, step.op) && After(place, st, step).sys == Next(place, st.sys, step.op)
  {
    forall m | m in After(place, st, step).missed ensures m.Write? && !HasList(place, After(place, st, step).sys.servers, m.key) {
      if !step.Miss? && HasList(place, Next(place, st.sys, step.op).servers, m.key) {
        ListsAppear(place, st.sys, step.op, m.key);
      }
    }
  }

  lemma AtomicUnfolds(ops: seq<Op>, steps: seq<Step>)
    requires steps != []
    ensures ops + Atomic(steps) == (if steps[0].Miss? then ops else ops + [steps[0].op]) + Atomic(steps[1..])
  {
  }

  /** Undisturbed sections do what their atomic steps do. */
  lemma {:induction false} SectionsAreAtomicFrom(place: Placement, ops: seq<Op>, st: Sectioned, steps: seq<Step>, after: Sectioned)
    requires Legal(place, ops) && Run(place, ops) == st.sys
    requires Leads(place, st, steps, after) && Undisturbed(place, st, steps)
    ensures Legal(place, ops + Atomic(steps)) && Run(place, ops + Atomic(steps)) == after.sys
    decreases |steps|
  {
    if steps == [] {
      assert ops + Atomic(steps) == ops;
    } else {
      var step := steps[0];
      AtomicUnfolds(ops, steps);
      if step.Miss? {
        SectionsAreAtomicFrom(place, ops, After(place, st, step), steps[1..], after);
      } else {
        Extend(place, ops, step.op);
        SectionsAreAtomicFrom(place, ops + [step.op], After(place, st, step), steps[1..], after);
      }
    }
  }

  /** Every sectioned run whose insertions find no list for their key ends as an atomic run does. */
  lemma SectionsAreAtomic(place: Placement, steps: seq<Step>, after: Sectioned)
    requires Leads(place, IDLE, steps, after) && Undisturbed(place, IDLE, steps)
    ensures Legal(place, Atomic(steps)) && Run(place, Atomic(steps)) == after.sys
  {
    SectionsAreAtomicFrom(place, [], IDLE, steps, after);
    assert [] + Atomic(steps) == Atomic(steps);
  }

  /** Sections are undisturbed, above all, when no two first writes of a key overlap. */
  lemma {:induction false} OneAtATimeIsUndisturbed(place: Placement, st: Sectioned, steps: seq<Step>)
    requires Apart(place, st) && OneAtATime(place, st, steps)
    ensures Undisturbed(place, st, steps)
    decreases |steps|
  {
    if steps != [] {
      StepKeepsApart(place, st, steps[0]);
      OneAtATimeIsUndisturbed(place, After(place, st, steps[0]), steps[1..]);
    }
  }

  /** So such a run is one-copy serializable. */
  lemma SectionsAreSerializable(place: Placement, steps: seq<Step>, after: Sectioned, log: seq<Timestamp>, i: nat, rd: ReadRecord)
    requires Leads(place, IDLE, steps, after) && Undisturbed(place, IDLE, steps)
    requires Serial.SerialOrder(log, Commits(after.sys)) && i < |log| && rd in after.sys.attempts[log[i]].readSet
    ensures rd.value == ValueOr(Lookup(Serial.Replay(Serial.History(log[..i], Commits(after.sys))), rd.key))
  {
    SectionsAreAtomic(place, steps, after);
    OneCopySerializable(place, Atomic(steps), log, i, rd);
  }

  // ----- two overlapping first writes

  lemma Before(place: Placement, st: Sectioned, step: Step, next: Sectioned, rest: seq<Step>, after: Sectioned)
    requires CanStep(place, st, step) && After(place, st, step) == next && Leads(place, next, rest, after)
    ensures Leads(place, st, [step] + rest, after)
  {
    assert ([step] + rest)[1..] == rest;
  }

  /** Attempt 10 of transaction 1 writes a and attempt 20 of transaction 2 writes b; 10 goes on to commit. */
  function WriterAt10(place: Placement, k: Key, a: Value, phase: Phase, written: bool): Attempt {
    Attempt(1, phase, {}, if written then map[k := a] else map[], if written then {place(k)} else {})
  }

  function WriterAt20(place: Placement, k: Key, b: Value, written: bool): Attempt {
    Attempt(2, Active, {}, if written then map[k := b] else map[], if written then {place(k)} else {})
  }

  /** Both have begun, and their finds have missed. */
  function BothMissed(place: Placement, k: Key, a: Value, b: Value): Sectioned {
    Sectioned(System(map[], map[10 := WriterAt10(place, k, a, Active, false), 20 := WriterAt20(place, k, b, false)],
                     map[1 := 10, 2 := 20]),
              {Write(10, k, a, S.PENDING), Write(20, k, b, S.PENDING)})
  }

  function Inserted(t: Instant, v: Value, state: S.VersionState): S.VersionList {
    S.FreshVersions(S.PENDING)[t := S.VersionEntry(v, state, {})]
  }

  function FirstInserted(place: Placement, k: Key, a: Value, b: Value): Sectioned {
    Sectioned(System(map[place(k) := S.Server(map[k := Inserted(10, a, S.PENDING)], map[1 := {k}], map[])],
                     map[10 := WriterAt10(place, k, a, Active, true), 20 := WriterAt20(place, k, b, false)], map[1 := 10, 2 := 20]),
              {Write(20, k, b, S.PENDING)})
  }

  /** Both lists have been inserted, and the second one has replaced the first. */
  function BothInserted(place: Placement, k: Key, a: Value, b: Value, phase: Phase, state: S.VersionState): Sectioned {
    Sectioned(System(map[place(k) := S.Server(map[k := Inserted(20, b, state)], map[1 := {k}, 2 := {k}], map[])],
                     map[10 := WriterAt10(place, k, a, phase, true), 20 := WriterAt20(place, k, b, true)], map[1 := 10, 2 := 20]), {})
  }

  /** Both have begun. */
  function BothBegun(place: Placement, k: Key, a: Value, b: Value): Sectioned {
    BothMissed(place, k, a, b).(missed := {})
  }

  lemma BothBegin(place: Placement, k: Key, a: Value, b: Value, rest: seq<Step>, after: Sectioned)
    requires Leads(place, BothBegun(place, k, a, b), rest, after)
    ensures Leads(place, IDLE, [Direct(Begin(1, 10))] + ([Direct(Begin(2, 20))] + rest), after)
  {
    var one := Sectioned(System(map[], map[10 := WriterAt10(place, k, a, Active, false)], map[1 := 10]), {});
    Before(place, one, Direct(Begin(2, 20)), BothBegun(place, k, a, b), rest, after);
    Before(place, IDLE, Direct(Begin(1, 10)), one, [Direct(Begin(2, 20))] + rest, after);
  }

  lemma BothMiss(place: Placement, k: Key, a: Value, b: Value, rest: seq<Step>, after: Sectioned)
    requires Leads(place, BothMissed(place, k, a, b), rest, after)
    ensures Leads(place, BothBegun(place, k, a, b),
                  [Miss(Write(10, k, a, S.PENDING))] + ([Miss(Write(20, k, b, S.PENDING))] + rest), after)
  {
    var missing := BothBegun(place, k, a, b).(missed := {Write(10, k, a, S.PENDING)});
    Before(place, missing, Miss(Write(20, k, b, S.PENDING)), BothMissed(place, k, a, b), rest, after);
    Before(place, BothBegun(place, k, a, b), Miss(Write(10, k, a, S.PENDING)), missing,
           [Miss(Write(20, k, b, S.PENDING))] + rest, after);
  }

  lemma BothInsert(place: Placement, k: Key, a: Value, b: Value, rest: seq<Step>, after: Sectioned)
    requires Leads(place, BothInserted(place, k, a, b, Active, S.PENDING), rest, after)
    ensures Leads(place, BothMissed(place, k, a, b),
                  [Insert(Write(10, k, a, S.PENDING))] + ([Insert(Write(20, k, b, S.PENDING))] + rest), after)
  {
    SecondInsert(place, k, a, b);
    FirstInsert(place, k, a, b);
    var both := BothInserted(place, k, a, b, Active, S.PENDING);
    Before(place, FirstInserted(place, k, a, b), Insert(Write(20, k, b, S.PENDING)), both, rest, after);
    Before(place, BothMissed(place, k, a, b), Insert(Write(10, k, a, S.PENDING)), FirstInserted(place, k, a, b),
           [Insert(Write(20, k, b, S.PENDING))] + rest, after);
  }

  lemma FirstInsert(place: Placement, k: Key, a: Value, b: Value)
    ensures CanStep(place, BothMissed(place, k, a, b), Insert(Write(10, k, a, S.PENDING)))
    ensures After(place, BothMissed(place, k, a, b), Insert(Write(10, k, a, S.PENDING))) == FirstInserted(place, k, a, b)
  {
    var sys := BothMissed(place, k, a, b).sys;
    assert {} + {place(k)} == {place(k)} && {} + {k} == {k} && map[][k := a] == map[k := a];
    assert Without(place, sys, k) == sys;
    assert Next(place, sys, Write(10, k, a, S.PENDING)).attempts == FirstInserted(place, k, a, b).sys.attempts;
  }

  /** The second insertion drops the first list. */
  lemma FirstListIsLost(place: Placement, k: Key, a: Value, b: Value)
    ensures var sys := FirstInserted(place, k, a, b).sys;
      Without(place, sys, k) == System(map[place(k) := S.Server(map[], map[1 := {k}], map[])], sys.attempts, sys.current)
  {
    assert map[k := Inserted(10, a, S.PENDING)] - {k} == map[];
  }

  /** The write inserts its list as if the key had never had one. */
  lemma InsertedAnew(place: Placement, k: Key, b: Value)
    ensures var server := S.Server(map[], map[1 := {k}], map[]);
      && S.WriteAllowed(server, 2, 20, k)
      && S.Write(server, 2, 20, k, b, S.PENDING) == S.Server(map[k := Inserted(20, b, S.PENDING)], map[1 := {k}, 2 := {k}], map[])
  {
    assert {} + {k} == {k};
  }

  lemma SecondInsert(place: Placement, k: Key, a: Value, b: Value)
    ensures CanStep(place, FirstInserted(place, k, a, b), Insert(Write(20, k, b, S.PENDING)))
    ensures After(place, FirstInserted(place, k, a, b), Insert(Write(20, k, b, S.PENDING)))
         == BothInserted(place, k, a, b, Active, S.PENDING)
  {
    FirstListIsLost(place, k, a, b);
    InsertedAnew(place, k, b);
    assert {} + {place(k)} == {place(k)} && map[][k := b] == map[k := b];
  }

  /** The commit of 10 looks for its version with find, and comes to that of 20. */
  lemma WrongCommit(place: Placement, k: Key, a: Value, b: Value)
    ensures CanStep(place, BothInserted(place, k, a, b, Committed, S.PENDING), Direct(CommitKey(10, k)))
    ensures After(place, BothInserted(place, k, a, b, Committed, S.PENDING), Direct(CommitKey(10, k)))
         == BothInserted(place, k, a, b, Committed, S.COMMITTED)
  {
    var list := Inserted(20, b, S.PENDING);
    assert IsAtOrAbove(list, 10, 20);
    assert S.ChangeAt(list, 10, S.SetCommitted) == Inserted(20, b, S.COMMITTED);
    var server := S.Server(map[k := list], map[1 := {k}, 2 := {k}], map[]);
    assert S.CommitKey(server, 10, k) == server.(versions := map[k := Inserted(20, b, S.COMMITTED)]);
  }

  lemma CommitBegins(place: Placement, k: Key, a: Value, b: Value)
    ensures CanStep(place, BothInserted(place, k, a, b, Active, S.PENDING), Direct(Commit(10)))
    ensures After(place, BothInserted(place, k, a, b, Active, S.PENDING), Direct(Commit(10)))
         == BothInserted(place, k, a, b, Committed, S.PENDING)
  {
  }

  lemma FirstCommits(place: Placement, k: Key, a: Value, b: Value)
    ensures Leads(place, BothInserted(place, k, a, b, Active, S.PENDING), [Direct(Commit(10))] + ([Direct(CommitKey(10, k))] + []),
                  BothInserted(place, k, a, b, Committed, S.COMMITTED))
  {
    var after := BothInserted(place, k, a, b, Committed, S.COMMITTED);
    var committing := BothInserted(place, k, a, b, Committed, S.PENDING);
    WrongCommit(place, k, a, b);
    Before(place, committing, Direct(CommitKey(10, k)), after, [], after);
    CommitBegins(place, k, a, b);
    Before(place, BothInserted(place, k, a, b, Active, S.PENDING), Direct(Commit(10)), committing,
           [Direct(CommitKey(10, k))] + [], after);
  }

  /** The overlap contradicts what holds in every run of MvtoRuns, so the guard fails. */
  lemma OverlapIsNoRun(place: Placement, k: Key, a: Value, b: Value, steps: seq<Step>)
    requires Leads(place, IDLE, steps, BothInserted(place, k, a, b, Committed, S.COMMITTED))
    ensures !Undisturbed(place, IDLE, steps)
  {
    var sys := BothInserted(place, k, a, b, Committed, S.COMMITTED).sys;
    assert !WritesPlaced(place, sys) by {
      assert k in sys.attempts[10].writeSet && 10 !in List(place, sys.servers, k);
    }
    if Undisturbed(place, IDLE, steps) {
      SectionsAreAtomic(place, steps, BothInserted(place, k, a, b, Committed, S.COMMITTED));
      RunKeeps(place, Atomic(steps));
    }
  }

  lemma Spelled(a: Step, b: Step, c: Step, d: Step, rest: seq<Step>)
    ensures [a] + ([b] + ([c] + ([d] + rest))) == [a, b, c, d] + rest
  {
  }

  function Overlap(k: Key, a: Value, b: Value): seq<Step> {
    [Direct(Begin(1, 10)), Direct(Begin(2, 20)), Miss(Write(10, k, a, S.PENDING)), Miss(Write(20, k, b, S.PENDING))]
    + ([Insert(Write(10, k, a, S.PENDING)), Insert(Write(20, k, b, S.PENDING)), Direct(Commit(10)), Direct(CommitKey(10, k))] + [])
  }

  lemma OverlapRuns(place: Placement, k: Key, a: Value, b: Value)
    ensures Leads(place, IDLE, Overlap(k, a, b), BothInserted(place, k, a, b, Committed, S.COMMITTED))
  {
    var after := BothInserted(place, k, a, b, Committed, S.COMMITTED);
    var commits := [Direct(Commit(10))] + ([Direct(CommitKey(10, k))] + []);
    FirstCommits(place, k, a, b);
    BothInsert(place, k, a, b, commits, after);
    var inserts := [Insert(Write(10, k, a, S.PENDING))] + ([Insert(Write(20, k, b, S.PENDING))] + commits);
    BothMiss(place, k, a, b, inserts, after);
    BothBegin(place, k, a, b, [Miss(Write(10, k, a, S.PENDING))] + ([Miss(Write(20, k, b, S.PENDING))] + inserts), after);
    Spelled(Direct(Begin(1, 10)), Direct(Begin(2, 20)), Miss(Write(10, k, a, S.PENDING)), Miss(Write(20, k, b, S.PENDING)), inserts);
    Spelled(Insert(Write(10, k, a, S.PENDING)), Insert(Write(20, k, b, S.PENDING)), Direct(Commit(10)), Direct(CommitKey(10, k)), []);
  }

  /**
    Without the guard two first writes of k overlap: the version of 10 is lost, and when 10 commits it makes the
    version of 20 visible, although 20 has not ended.
   */
  lemma OverlappingWritesLoseAList(place: Placement, k: Key, a: Value, b: Value)
    ensures var after := BothInserted(place, k, a, b, Committed, S.COMMITTED);
      && Leads(place, IDLE, Overlap(k, a, b), after) && !Undisturbed(place, IDLE, Overlap(k, a, b))
      && In(after.sys, 10, Committed) && k in after.sys.attempts[10].writeSet && In(after.sys, 20, Active)
      && HasList(place, after.sys.servers, k) && 10 !in List(place, after.sys.servers, k)
      && 20 in List(place, after.sys.servers, k) && List(place, after.sys.servers, k)[20].state == S.COMMITTED
  {
    OverlapRuns(place, k, a, b);
    OverlapIsNoRun(place, k, a, b, Overlap(k, a, b));
  }
}