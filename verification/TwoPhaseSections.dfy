/**
  First locks of a key in two sections. A find that misses holds no accessor, and the insertion that follows is a
  section of its own, which overwrites whatever lock entry the key has by then. A run whose insertions find nobody
  holding their key, above all one in which no two first locks of a key overlap, is a run of TwoPhaseRuns; with two that
  overlap, two transactions hold the same key for writing.
 */
module TwoPhaseSections {
  import opened Common
  import opened Serial
  import opened TwoPhaseRuns
  import opened TwoPhaseInvariant
  import opened TwoPhaseTheorems
  import S = TwoPhaseServer

  /** `missed` are the first locks whose find has missed and whose insertion is outstanding. */
  datatype Sectioned = Sectioned(sys: System, missed: set<Op>)

  /** The find of a first lock misses, its insertion, and any step in one section. */
  datatype Step = Miss(op: Op) | Insert(op: Op) | Direct(op: Op)

  const IDLE := Sectioned(START, {})

  predicate HasLock(place: Placement, sys: System, k: Key) {
    k in Srv(sys.servers, place(k)).locks
  }

  /** The request has to insert a lock entry. */
  predicate FirstLock(place: Placement, sys: System, op: Op) {
    && (op.LockRead? || (op.Write? && !S.Rewrites(Srv(sys.servers, place(op.key)), op.tid, op.key)))
    && !HasLock(place, sys, op.key)
  }

  /** The client of the transaction waits for an answer: it has one request at a time. */
  predicate Waits(st: Sectioned, t: TransactionId) {
    exists m :: m in st.missed && m.tid == t
  }

  predicate OnKey(op: Op, k: Key) {
    (op.LockRead? || op.Write?) && op.key == k
  }

  /** What an insertion finds: whatever lock entry the key has by now counts for nothing. */
  function Without(place: Placement, sys: System, k: Key): System {
    if HasLock(place, sys, k) then
      var server := Srv(sys.servers, place(k));
      sys.(servers := Put(sys.servers, place(k), server.(locks := server.locks - {k})))
    else
      sys
  }

  predicate CanStep(place: Placement, st: Sectioned, step: Step) {
    match step
    case Miss(op) => Enabled(place, st.sys, op) && FirstLock(place, st.sys, op) && !Waits(st, op.tid)
    case Insert(op) => (op.LockRead? || op.Write?) && op in st.missed && Enabled(place, Without(place, st.sys, op.key), op)
    case Direct(op) => Enabled(place, st.sys, op) && !FirstLock(place, st.sys, op) && !Waits(st, op.tid)
  }

  function After(place: Placement, st: Sectioned, step: Step): Sectioned
    requires CanStep(place, st, step)
  {
    match step
    case Miss(op) => st.(missed := st.missed + {op})
    case Insert(op) => Sectioned(Next(place, Without(place, st.sys, op.key), op), st.missed - {op})
    case Direct(op) => st.(sys := Next(place, st.sys, op))
  }

  /** The sections lead from one state to another. */
  predicate Leads(place: Placement, st: Sectioned, steps: seq<Step>, after: Sectioned)
    decreases |steps|
  {
    if steps == [] then
      after == st
    else
      CanStep(place, st, steps[0]) && Leads(place, After(place, st, steps[0]), steps[1..], after)
  }

  /** No find of a first lock misses while another first lock of the key is outstanding. */
  predicate OneAtATime(place: Placement, st: Sectioned, steps: seq<Step>)
    decreases |steps|
  {
    steps == []
    || (CanStep(place, st, steps[0])
        && (steps[0].Miss? ==> forall m :: m in st.missed ==> !OnKey(m, steps[0].op.key))
        && OneAtATime(place, After(place, st, steps[0]), steps[1..]))
  }

  /** The key has no lock entry, or one that nobody is left in: commits and aborts of reads do not erase it. */
  predicate NobodyHolds(place: Placement, sys: System, k: Key) {
    HasLock(place, sys, k) ==> Srv(sys.servers, place(k)).locks[k] == S.LockEntry(S.READ, {})
  }

  /** Each insertion finds nobody holding its key. */
  predicate Undisturbed(place: Placement, st: Sectioned, steps: seq<Step>)
    decreases |steps|
  {
    steps == []
    || (CanStep(place, st, steps[0])
        && (steps[0].Insert? ==> (steps[0].op.LockRead? || steps[0].op.Write?) && NobodyHolds(place, st.sys, steps[0].op.key))
        && Undisturbed(place, After(place, st, steps[0]), steps[1..]))
  }

  /** The steps of TwoPhaseRuns that the sections amount to: a first lock counts when it is inserted. */
  function Atomic(steps: seq<Step>): seq<Op> {
    if steps == [] then [] else (if steps[0].Miss? then [] else [steps[0].op]) + Atomic(steps[1..])
  }

  /** Outstanding first locks are on different keys, which still have no lock entry. */
  ghost predicate Apart(place: Placement, st: Sectioned) {
    && (forall m :: m in st.missed ==> (m.LockRead? || m.Write?) && !HasLock(place, st.sys, m.key))
    && forall m, n :: m in st.missed && n in st.missed && m.key == n.key ==> m == n
  }

  /** Only a first lock adds a lock entry, and only for its own key. */
  lemma LocksAppear(place: Placement, sys: System, op: Op, k: Key)
    requires Enabled(place, sys, op) && !HasLock(place, sys, k) && HasLock(place, Next(place, sys, op), k)
    ensures FirstLock(place, sys, op) && op.key == k
  {
    var _ := Srv(Next(place, sys, op).servers, place(k));
  }

  lemma StepKeepsApart(place: Placement, st: Sectioned, step: Step)
    requires Apart(place, st) && CanStep(place, st, step)
    requires step.Miss? ==> forall m :: m in st.missed ==> !OnKey(m, step.op.key)
    ensures Apart(place, After(place, st, step))
    ensures !step.Miss? ==> Enabled(place, st.sys, step.op) && After(place, st, step).sys == Next(place, st.sys, step.op)
  {
    forall m | m in After(place, st, step).missed
      ensures (m.LockRead? || m.Write?) && !HasLock(place, After(place, st, step).sys, m.key)
    {
      if !step.Miss? && HasLock(place, Next(place, st.sys, step.op), m.key) {
        LocksAppear(place, st.sys, step.op, m.key);
      }
    }
  }

  lemma AtomicUnfolds(ops: seq<Op>, steps: seq<Step>)
    requires steps != []
    ensures ops + Atomic(steps) == (if steps[0].Miss? then ops else ops + [steps[0].op]) + Atomic(steps[1..])
  {
  }

  lemma Extend(place: Placement, ops: seq<Op>, op: Op)
    requires Legal(place, ops) && Enabled(place, Run(place, ops), op)
    ensures Legal(place, ops + [op]) && Run(place, ops + [op]) == Next(place, Run(place, ops), op)
  {
    assert (ops + [op])[..|ops + [op]| - 1] == ops;
  }

  /** Each waiting transaction has one request outstanding, and has not written the key of it before. */
  ghost predicate Requests(place: Placement, st: Sectioned) {
    && (forall m :: m in st.missed && m.Write? ==> !S.Rewrites(Srv(st.sys.servers, place(m.key)), m.tid, m.key))
    && forall m, n :: m in st.missed && n in st.missed && m.tid == n.tid ==> m == n
  }

  /** A step records nothing for other transactions. */
  lemma OthersOperations(place: Placement, sys: System, op: Op, s: ServerId, t: TransactionId)
    requires Enabled(place, sys, op) && t != op.tid
    ensures S.Operations(Srv(Next(place, sys, op).servers, s), t) == S.Operations(Srv(sys.servers, s), t)
  {
    var _ := Srv(Next(place, sys, op).servers, s);
  }

  lemma StepKeepsRequests(place: Placement, st: Sectioned, step: Step)
    requires Requests(place, st) && CanStep(place, st, step)
    ensures Requests(place, After(place, st, step))
  {
    forall m | m in After(place, st, step).missed && m.Write?
      ensures !S.Rewrites(Srv(After(place, st, step).sys.servers, place(m.key)), m.tid, m.key)
    {
      if step.Insert? {
        OthersOperations(place, Without(place, st.sys, step.op.key), step.op, place(m.key), m.tid);
      } else if step.Direct? {
        OthersOperations(place, st.sys, step.op, place(m.key), m.tid);
      }
    }
  }

  /** On the server, an insertion over an entry that nobody is left in takes the lock as the one-section request does. */
  lemma LockIsTaken(server: S.Server, tid: TransactionId, k: Key, v: Value)
    requires k in server.locks && server.locks[k] == S.LockEntry(S.READ, {})
    ensures S.LockRead(server.(locks := server.locks - {k}), tid, k) == S.LockRead(server, tid, k)
    ensures !S.Rewrites(server, tid, k) ==> S.Write(server.(locks := server.locks - {k}), tid, k, v) == S.Write(server, tid, k, v)
  {
    assert (server.locks - {k})[k := S.LockEntry(S.READ, {tid})] == server.locks[k := S.LockEntry(S.READ, {tid})];
    assert (server.locks - {k})[k := S.LockEntry(S.WRITE, {tid})] == server.locks[k := S.LockEntry(S.WRITE, {tid})];
  }

  /** Where nobody holds the key, an insertion does what the one-section step does. */
  lemma InsertionIsStep(place: Placement, st: Sectioned, op: Op)
    requires Requests(place, st) && CanStep(place, st, Insert(op)) && NobodyHolds(place, st.sys, op.key)
    ensures Enabled(place, st.sys, op) && Next(place, Without(place, st.sys, op.key), op) == Next(place, st.sys, op)
  {
    if HasLock(place, st.sys, op.key) {
      var server := Srv(st.sys.servers, place(op.key));
      LockIsTaken(server, op.tid, op.key, if op.Write? then op.value else "");
      var taken := if op.Write? then S.Write(server, op.tid, op.key, op.value) else S.LockRead(server, op.tid, op.key);
      PutTwice(st.sys.servers, place(op.key), server.(locks := server.locks - {op.key}), taken);
    }
  }

  /** Undisturbed sections do what their atomic steps do. */
  lemma {:induction false} SectionsAreAtomicFrom(place: Placement, ops: seq<Op>, st: Sectioned, steps: seq<Step>, after: Sectioned)
    requires Legal(place, ops) && Run(place, ops) == st.sys && Requests(place, st)
    requires Leads(place, st, steps, after) && Undisturbed(place, st, steps)
    ensures Legal(place, ops + Atomic(steps)) && Run(place, ops + Atomic(steps)) == after.sys
    decreases |steps|
  {
    if steps == [] {
      assert ops + Atomic(steps) == ops;
    } else {
      var step := steps[0];
      AtomicUnfolds(ops, steps);
      StepKeepsRequests(place, st, step);
      if step.Miss? {
        SectionsAreAtomicFrom(place, ops, After(place, st, step), steps[1..], after);
      } else {
        if step.Insert? {
          InsertionIsStep(place, st, step.op);
        }
        Extend(place, ops, step.op);
        SectionsAreAtomicFrom(place, ops + [step.op], After(place, st, step), steps[1..], after);
      }
    }
  }

  /** Every sectioned run whose insertions find nobody holding their key ends as an atomic run does. */
  lemma SectionsAreAtomic(place: Placement, steps: seq<Step>, after: Sectioned)
    requires Leads(place, IDLE, steps, after) && Undisturbed(place, IDLE, steps)
    ensures Legal(place, Atomic(steps)) && Run(place, Atomic(steps)) == after.sys
  {
    SectionsAreAtomicFrom(place, [], IDLE, steps, after);
    assert [] + Atomic(steps) == Atomic(steps);
  }

  /** Sections are undisturbed, above all, when no two first locks of a key overlap. */
  lemma {:induction false} OneAtATimeIsUndisturbed(place: Placement, st: Sectioned, steps: seq<Step>)
    requires Apart(place, st) && OneAtATime(place, st, steps)
    ensures Undisturbed(place, st, steps)
    decreases |steps|
  {
    if steps != [] {
      StepKeepsApart(place, st, steps[0]);
      OneAtATimeIsUndisturbed(place, After(place, st, steps[0]), steps[1..]);
    }
  }

  /** So such a run is serializable in commit order. */
  lemma SectionsAreSerializable(place: Placement, steps: seq<Step>, after: Sectioned, i: nat, rd: ReadRecord)
    requires Leads(place, IDLE, steps, after) && Undisturbed(place, IDLE, steps)
    requires i < |after.sys.history| && rd in after.sys.history[i].readSet
    ensures Lookup(Replay(Writes(after.sys.history[..i])), rd.key) == rd.value
  {
    SectionsAreAtomic(place, steps, after);
    SerializableInCommitOrder(place, Atomic(steps), i, rd);
  }

  // ----- two overlapping first locks

  lemma Before(place: Placement, st: Sectioned, step: Step, next: Sectioned, rest: seq<Step>, after: Sectioned)
    requires CanStep(place, st, step) && After(place, st, step) == next && Leads(place, next, rest, after)
    ensures Leads(place, st, [step] + rest, after)
  {
    assert ([step] + rest)[1..] == rest;
  }

  function Writer(place: Placement, k: Key, v: Value, written: bool): Txn {
    if written then FRESH.(writeSet := map[k := v], servers := {place(k)}) else FRESH
  }

  /** Transactions 1 and 2 write k, so far as the flags say; `holder` is the one in the lock entry. */
  function Writing(place: Placement, k: Key, a: Value, b: Value, second: bool): System {
    var first := map[1 := map[k := S.Pending(S.WRITE, a)]];
    System(map[place(k) := S.Server(map[k := S.LockEntry(S.WRITE, {if second then 2 else 1})],
                                    if second then first[2 := map[k := S.Pending(S.WRITE, b)]] else first, map[])],
           map[1 := Writer(place, k, a, true), 2 := Writer(place, k, b, second)], [], map[])
  }

  function BothMissed(k: Key, a: Value, b: Value): Sectioned {
    Sectioned(System(map[], map[1 := FRESH, 2 := FRESH], [], map[]), {Write(1, k, a), Write(2, k, b)})
  }

  lemma BothMiss(place: Placement, k: Key, a: Value, b: Value, rest: seq<Step>, after: Sectioned)
    requires Leads(place, BothMissed(k, a, b), rest, after)
    ensures Leads(place, IDLE,
                  [Direct(Begin(1))] + ([Direct(Begin(2))] + ([Miss(Write(1, k, a))] + ([Miss(Write(2, k, b))] + rest))), after)
  {
    var one := Sectioned(System(map[], map[1 := FRESH], [], map[]), {});
    var two := Sectioned(System(map[], map[1 := FRESH, 2 := FRESH], [], map[]), {});
    Before(place, two.(missed := {Write(1, k, a)}), Miss(Write(2, k, b)), BothMissed(k, a, b), rest, after);
    var tail := [Miss(Write(2, k, b))] + rest;
    Before(place, two, Miss(Write(1, k, a)), two.(missed := {Write(1, k, a)}), tail, after);
    Before(place, one, Direct(Begin(2)), two, [Miss(Write(1, k, a))] + tail, after);
    Before(place, IDLE, Direct(Begin(1)), one, [Direct(Begin(2))] + ([Miss(Write(1, k, a))] + tail), after);
  }

  lemma FirstInsert(place: Placement, k: Key, a: Value, b: Value)
    ensures CanStep(place, BothMissed(k, a, b), Insert(Write(1, k, a)))
    ensures After(place, BothMissed(k, a, b), Insert(Write(1, k, a)))
         == Sectioned(Writing(place, k, a, b, false), {Write(2, k, b)})
  {
    assert {} + {1} == {1} && {} + {place(k)} == {place(k)} && map[][k := a] == map[k := a];
    assert map[][k := S.Pending(S.WRITE, a)] == map[k := S.Pending(S.WRITE, a)];
  }

  /** The second insertion drops the lock of the first writer. */
  lemma FirstLockIsLost(place: Placement, k: Key, a: Value, b: Value)
    ensures var sys := Writing(place, k, a, b, false);
      Without(place, sys, k) == sys.(servers := map[place(k) := Srv(sys.servers, place(k)).(locks := map[])])
  {
    assert map[k := S.LockEntry(S.WRITE, {1})] - {k} == map[];
  }

  lemma SecondInsert(place: Placement, k: Key, a: Value, b: Value)
    ensures CanStep(place, Sectioned(Writing(place, k, a, b, false), {Write(2, k, b)}), Insert(Write(2, k, b)))
    ensures After(place, Sectioned(Writing(place, k, a, b, false), {Write(2, k, b)}), Insert(Write(2, k, b)))
         == Sectioned(Writing(place, k, a, b, true), {})
  {
    FirstLockIsLost(place, k, a, b);
    assert {} + {2} == {2} && {} + {place(k)} == {place(k)} && map[][k := b] == map[k := b];
    assert map[][k := S.Pending(S.WRITE, b)] == map[k := S.Pending(S.WRITE, b)];
  }

  function Overlap(k: Key, a: Value, b: Value): seq<Step> {
    [Direct(Begin(1)), Direct(Begin(2)), Miss(Write(1, k, a)), Miss(Write(2, k, b)), Insert(Write(1, k, a)), Insert(Write(2, k, b))]
  }

  lemma OverlapRuns(place: Placement, k: Key, a: Value, b: Value)
    ensures Leads(place, IDLE, Overlap(k, a, b), Sectioned(Writing(place, k, a, b, true), {}))
  {
    var after := Sectioned(Writing(place, k, a, b, true), {});
    SecondInsert(place, k, a, b);
    FirstInsert(place, k, a, b);
    Before(place, Sectioned(Writing(place, k, a, b, false), {Write(2, k, b)}), Insert(Write(2, k, b)), after, [], after);
    Before(place, BothMissed(k, a, b), Insert(Write(1, k, a)), Sectioned(Writing(place, k, a, b, false), {Write(2, k, b)}),
           [Insert(Write(2, k, b))] + [], after);
    BothMiss(place, k, a, b, [Insert(Write(1, k, a))] + ([Insert(Write(2, k, b))] + []), after);
    assert Overlap(k, a, b) == [Direct(Begin(1))] + ([Direct(Begin(2))] + ([Miss(Write(1, k, a))] + ([Miss(Write(2, k, b))]
                               + ([Insert(Write(1, k, a))] + ([Insert(Write(2, k, b))] + [])))));
  }

  /** Without the guard two first writes of k overlap, and both transactions hold k for writing. */
  lemma OverlappingWritesShareAKey(place: Placement, k: Key, a: Value, b: Value)
    ensures var after := Sectioned(Writing(place, k, a, b, true), {});
      && Leads(place, IDLE, Overlap(k, a, b), after) && !Undisturbed(place, IDLE, Overlap(k, a, b))
      && Holds(place, after.sys, 1, k) && OpOf(place, after.sys, 1, k).mode == S.WRITE
      && Holds(place, after.sys, 2, k) && OpOf(place, after.sys, 2, k).mode == S.WRITE
  {
    var sys := Writing(place, k, a, b, true);
    OverlapRuns(place, k, a, b);
    assert Holds(place, sys, 1, k) && Holds(place, sys, 2, k);
    if Undisturbed(place, IDLE, Overlap(k, a, b)) {
      SectionsAreAtomic(place, Overlap(k, a, b), Sectioned(sys, {}));
      NoConflictingHolders(place, Atomic(Overlap(k, a, b)), 1, 2, k);
    }
  }
}
