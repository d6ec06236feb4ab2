/**
  The two-phase-locking handlers as wholes, in every run: when a request is granted, what a commit or an abort
  leaves on a server, and that the sections of its loop, in any order, leave the same.
 */
module TwoPhaseHandlers {
  import opened Common
  import opened TwoPhaseRuns
  import opened TwoPhaseInvariant
  import S = TwoPhaseServer

  // ----- requests

  /** A read is granted exactly when nobody holds the key with a write. */
  lemma ReadIsGrantedIff(place: Placement, ops: seq<Op>, k: Key)
    requires Legal(place, ops)
    ensures var sys := Run(place, ops);
      S.ReadGranted(Srv(sys.servers, place(k)), k)
      <==> forall u :: Holds(place, sys, u, k) ==> OpOf(place, sys, u, k).mode == S.READ
  {
    var sys := Run(place, ops);
    RunKeeps(place, ops);
    assert LockAgrees(place, sys, k);
    var locks := Srv(sys.servers, place(k)).locks;
    if k in locks && locks[k].mode == S.WRITE {
      var u :| locks[k].holders == {u};
      assert u in locks[k].holders;
      assert Holds(place, sys, u, k) && OpOf(place, sys, u, k).mode == S.WRITE;
    }
  }

  /** A write of an active transaction is granted exactly when no other transaction holds the key. */
  lemma WriteIsGrantedIff(place: Placement, ops: seq<Op>, t: TransactionId, k: Key)
    requires Legal(place, ops) && In(Run(place, ops), t, Active)
    ensures var sys := Run(place, ops);
      S.WriteGranted(Srv(sys.servers, place(k)), t, k) <==> forall u :: Holds(place, sys, u, k) ==> u == t
  {
    var sys := Run(place, ops);
    RunKeeps(place, ops);
    assert LockAgrees(place, sys, k);
    var server := Srv(sys.servers, place(k));
    if S.Rewrites(server, t, k) {
      forall u | Holds(place, sys, u, k) ensures u == t {
        OneWriter(place, sys, t, u, k);
      }
    } else if k in server.locks {
      var holders := server.locks[k].holders;
      if forall u :: Holds(place, sys, u, k) ==> u == t {
        assert forall u :: u in holders ==> u == t;
        assert holders == {} || holders == {t};
      }
    }
  }

  // ----- commit and abort as wholes

  /** What HandleCommit does to one key of any server, and to the records. */
  lemma HandleCommitAt(s: S.Server, tid: TransactionId, k: Key)
    ensures var ops := S.Operations(s, tid);
      var after := S.HandleCommit(s, tid);
      && Lookup(after.store, k) == (if k in ops && ops[k].mode == S.WRITE then Some(ops[k].value) else Lookup(s.store, k))
      && Lookup(after.locks, k) == LockWithout(s.locks, ops, tid, k)
      && OnlyForgets(s, after, tid)
  {
  }

  lemma HandleAbortAt(s: S.Server, tid: TransactionId, k: Key)
    ensures var ops := S.Operations(s, tid);
      var after := S.HandleAbort(s, tid);
      && after.store == s.store
      && Lookup(after.locks, k) == LockWithout(s.locks, ops, tid, k)
      && OnlyForgets(s, after, tid)
  {
  }

  /** The lock of k when tid gives up what it has recorded: a write lock goes, a read lock loses one holder. */
  function LockWithout(locks: map<Key, S.LockEntry>, ops: map<Key, S.Pending>, tid: TransactionId, k: Key)
    : Option<S.LockEntry>
  {
    if k !in locks || k !in ops then Lookup(locks, k)
    else if ops[k].mode == S.WRITE then None
    else Some(S.LockEntry(locks[k].mode, locks[k].holders - {tid}))
  }

  /** The record of tid is gone and every other record stays. */
  ghost predicate OnlyForgets(s: S.Server, after: S.Server, tid: TransactionId) {
    tid !in after.pending && forall u :: u != tid ==> Lookup(after.pending, u) == Lookup(s.pending, u)
  }

  /** The commit or abort of t has not passed a key of this server yet. */
  predicate Untouched(place: Placement, sys: System, t: TransactionId, server: ServerId)
    requires t in sys.txns
  {
    forall k :: k in sys.txns[t].released ==> place(k) != server
  }

  /** The lock of k once t has ended: none if t wrote k, else the one that is there without t. */
  function LockAfter(place: Placement, sys: System, t: TransactionId, k: Key): Option<S.LockEntry>
    requires t in sys.txns
  {
    var locks := Srv(sys.servers, place(k)).locks;
    if k !in locks || k in sys.txns[t].writeSet then None
    else Some(S.LockEntry(locks[k].mode, locks[k].holders - {t}))
  }

  lemma LockIsGivenUp(place: Placement, sys: System, t: TransactionId, k: Key)
    requires Inv(place, sys) && t in sys.txns && Untouched(place, sys, t, place(k))
    ensures var server := Srv(sys.servers, place(k));
      LockWithout(server.locks, S.Operations(server, t), t, k) == LockAfter(place, sys, t, k)
  {
    assert LockAgrees(place, sys, k);
    var locks := Srv(sys.servers, place(k)).locks;
    assert k !in sys.txns[t].released;
    if k in locks && !Holds(place, sys, t, k) {
      assert t !in locks[k].holders;
      assert locks[k].holders - {t} == locks[k].holders;
    }
  }

  /**
    In every run, a commit stores on each server what the client wrote and nothing else, and gives up exactly the
    transaction's locks there: a key that it wrote is free, and it is in no holder set.
   */
  lemma HandleCommitPublishes(place: Placement, ops: seq<Op>, t: TransactionId, k: Key)
    requires Legal(place, ops) && In(Run(place, ops), t, Committed) && Untouched(place, Run(place, ops), t, place(k))
    ensures var sys := Run(place, ops);
      var server := Srv(sys.servers, place(k));
      var after := S.HandleCommit(server, t);
      && Lookup(after.store, k)
         == (if k in sys.txns[t].writeSet then Some(sys.txns[t].writeSet[k]) else Lookup(server.store, k))
      && Lookup(after.locks, k) == LockAfter(place, sys, t, k)
      && OnlyForgets(server, after, t)
  {
    var sys := Run(place, ops);
    RunKeeps(place, ops);
    HandleCommitAt(Srv(sys.servers, place(k)), t, k);
    LockIsGivenUp(place, sys, t, k);
    assert k !in sys.txns[t].released;
    assert k in sys.txns[t].writeSet <==> Holds(place, sys, t, k) && OpOf(place, sys, t, k).mode == S.WRITE;
  }

  /** In every run, an abort stores nothing and gives up exactly the transaction's locks. */
  lemma HandleAbortUndoes(place: Placement, ops: seq<Op>, t: TransactionId, k: Key)
    requires Legal(place, ops) && In(Run(place, ops), t, Aborted) && Untouched(place, Run(place, ops), t, place(k))
    ensures var sys := Run(place, ops);
      var server := Srv(sys.servers, place(k));
      var after := S.HandleAbort(server, t);
      && after.store == server.store
      && Lookup(after.locks, k) == LockAfter(place, sys, t, k)
      && OnlyForgets(server, after, t)
  {
    var sys := Run(place, ops);
    RunKeeps(place, ops);
    HandleAbortAt(Srv(sys.servers, place(k)), t, k);
    LockIsGivenUp(place, sys, t, k);
  }

  // ----- section by section

  /** The server after the commit has passed `keys` one by one, each in a section of its own. */
  function CommitInOrder(s: S.Server, tid: TransactionId, keys: seq<Key>): (r: S.Server)
    requires forall i :: 0 <= i < |keys| ==> keys[i] in S.Operations(s, tid)
    ensures r.pending == s.pending
  {
    if keys == [] then s else S.CommitKey(CommitInOrder(s, tid, keys[..|keys| - 1]), tid, keys[|keys| - 1])
  }

  function AbortInOrder(s: S.Server, tid: TransactionId, keys: seq<Key>): (r: S.Server)
    requires forall i :: 0 <= i < |keys| ==> keys[i] in S.Operations(s, tid)
    ensures r.pending == s.pending
  {
    if keys == [] then s else S.AbortKey(AbortInOrder(s, tid, keys[..|keys| - 1]), tid, keys[|keys| - 1])
  }

  lemma {:induction false} PassedInOrder(s: S.Server, tid: TransactionId, keys: seq<Key>)
    requires Distinct(keys) && forall i :: 0 <= i < |keys| ==> keys[i] in S.Operations(s, tid)
    ensures var todo := S.Operations(s, tid).Keys - (set k | k in keys);
      && CommitInOrder(s, tid, keys) == S.PartlyCommitted(s, tid, todo)
      && AbortInOrder(s, tid, keys) == S.PartlyAborted(s, tid, todo)
  {
    var all := S.Operations(s, tid).Keys;
    if keys == [] {
      assert all - (set k | k in keys) == all;
      S.LoopsStart(s, tid);
    } else {
      var rest, last := keys[..|keys| - 1], keys[|keys| - 1];
      PassedInOrder(s, tid, rest);
      var todo := all - (set k | k in rest);
      OneLess(all, keys, rest, last);
      S.CommitStep(s, tid, todo, last);
      S.AbortStep(s, tid, todo, last);
    }
  }

  /** In whatever order the loops take the recorded keys, their sections and the last one end where the handler does. */
  lemma SectionsAddUp(s: S.Server, tid: TransactionId, keys: seq<Key>)
    requires EachOnce(keys, S.Operations(s, tid).Keys)
    ensures forall i :: 0 <= i < |keys| ==> keys[i] in S.Operations(s, tid)
    ensures S.Forget(CommitInOrder(s, tid, keys), tid) == S.HandleCommit(s, tid)
    ensures S.Forget(AbortInOrder(s, tid, keys), tid) == S.HandleAbort(s, tid)
  {
    NoneLeft(keys, S.Operations(s, tid).Keys);
    PassedInOrder(s, tid, keys);
  }
}
