/**
  The loops of the MVTIL handlers and of the garbage collection, section by section: in whatever order a loop takes its
  keys, each once, it ends where the handler as a whole does.
 */
module MvtilOrders {
  import opened Common
  import opened MvtilHandlers
  import S = MvtilServer

  /** The entries after the read locks of `keys` have been persisted one by one, each in a section of its own. */
  function SettleInOrder(
      entries: map<Key, S.Entry>, readStarts: map<Key, Instant>, keys: seq<Key>, tid: TransactionId, ts: Instant)
    : map<Key, S.Entry>
    requires forall i :: 0 <= i < |keys| ==> keys[i] in readStarts
  {
    if keys == [] then entries
    else
      var k := keys[|keys| - 1];
      var now := SettleInOrder(entries, readStarts, keys[..|keys| - 1], tid, ts);
      if k in now then now[k := S.PersistReadLock(now[k], tid, readStarts[k], ts)] else now
  }

  /** The entries after the recorded locks of `keys` have been removed one by one. */
  function RemoveInOrder(entries: map<Key, S.Entry>, starts: map<Key, Instant>, keys: seq<Key>, tid: TransactionId)
    : map<Key, S.Entry>
    requires forall i :: 0 <= i < |keys| ==> keys[i] in starts
  {
    if keys == [] then entries
    else
      var k := keys[|keys| - 1];
      var now := RemoveInOrder(entries, starts, keys[..|keys| - 1], tid);
      if k in now then now[k := S.RemoveVersion(now[k], tid, starts[k])] else now
  }

  /** The entries after those of `keys` have been collected one by one. */
  function CollectInOrder(entries: map<Key, S.Entry>, keys: seq<Key>, ts: Instant): map<Key, S.Entry> {
    if keys == [] then entries
    else
      var k := keys[|keys| - 1];
      var now := CollectInOrder(entries, keys[..|keys| - 1], ts);
      if k in now then now[k := S.CollectEntry(now[k], ts)] else now
  }

  lemma {:induction false} SettledInOrder(
      entries: map<Key, S.Entry>, readStarts: map<Key, Instant>, keys: seq<Key>, tid: TransactionId, ts: Instant)
    requires Distinct(keys) && forall i :: 0 <= i < |keys| ==> keys[i] in readStarts
    ensures SettleInOrder(entries, readStarts, keys, tid, ts)
         == S.Settled(entries, readStarts, readStarts.Keys - (set k | k in keys), tid, ts)
  {
    if keys == [] {
      S.LoopsStart(entries, map[], readStarts, tid, ts);
      assert readStarts.Keys - (set k | k in keys) == readStarts.Keys;
    } else {
      var rest, last := keys[..|keys| - 1], keys[|keys| - 1];
      SettledInOrder(entries, readStarts, rest, tid, ts);
      OneLess(readStarts.Keys, keys, rest, last);
      S.SettledStep(entries, readStarts, readStarts.Keys - (set k | k in rest), tid, ts, last);
    }
  }

  lemma {:induction false} RemovedInOrder(entries: map<Key, S.Entry>, starts: map<Key, Instant>, keys: seq<Key>, tid: TransactionId)
    requires Distinct(keys) && forall i :: 0 <= i < |keys| ==> keys[i] in starts
    ensures RemoveInOrder(entries, starts, keys, tid) == S.Removed(entries, starts, starts.Keys - (set k | k in keys), tid)
  {
    if keys == [] {
      S.LoopsStart(entries, map[], starts, tid, 1);
      assert starts.Keys - (set k | k in keys) == starts.Keys;
    } else {
      var rest, last := keys[..|keys| - 1], keys[|keys| - 1];
      RemovedInOrder(entries, starts, rest, tid);
      OneLess(starts.Keys, keys, rest, last);
      S.RemovedStep(entries, starts, starts.Keys - (set k | k in rest), tid, last);
    }
  }

  lemma {:induction false} CollectedInOrder(entries: map<Key, S.Entry>, keys: seq<Key>, ts: Instant)
    requires Distinct(keys) && forall i :: 0 <= i < |keys| ==> keys[i] in entries
    ensures CollectInOrder(entries, keys, ts) == S.Collected(entries, entries.Keys - (set k | k in keys), ts)
  {
    if keys == [] {
      S.CollectedNothing(entries, ts);
      assert entries.Keys - (set k | k in keys) == entries.Keys;
    } else {
      var rest, last := keys[..|keys| - 1], keys[|keys| - 1];
      CollectedInOrder(entries, rest, ts);
      OneLess(entries.Keys, keys, rest, last);
      S.CollectedStep(entries, entries.Keys - (set k | k in rest), last, ts);
    }
  }

  /** The two loops of a commit, first over the writes and then over the read locks, and the end of both records. */
  lemma CommitAddsUp(s: S.Server, tid: TransactionId, ts: Instant, written: seq<Key>, read: seq<Key>)
    requires EachOnce(written, S.WriteSet(s, tid).Keys) && EachOnce(read, S.ReadSet(s, tid).Keys)
    ensures forall i :: 0 <= i < |written| ==> written[i] in S.WriteSet(s, tid)
    ensures forall i :: 0 <= i < |read| ==> read[i] in S.ReadSet(s, tid)
    ensures var persisted := PersistInOrder(s.entries, S.WriteSet(s, tid), written, tid, ts);
      S.HandleCommit(s, tid, ts)
      == S.Server(SettleInOrder(persisted, S.ReadSet(s, tid), read, tid, ts), s.pendingReadSets - {tid}, s.pendingWriteSets - {tid})
  {
    NoneLeft(written, S.WriteSet(s, tid).Keys);
    NoneLeft(read, S.ReadSet(s, tid).Keys);
    CommitSectionsAddUp(s.entries, S.WriteSet(s, tid), written, tid, ts);
    SettledInOrder(PersistInOrder(s.entries, S.WriteSet(s, tid), written, tid, ts), S.ReadSet(s, tid), read, tid, ts);
  }

  /** The two loops of an abort, first over the writes and then over the reads, and the end of both records. */
  lemma AbortAddsUp(s: S.Server, tid: TransactionId, written: seq<Key>, read: seq<Key>)
    requires EachOnce(written, S.StartsOf(S.WriteSet(s, tid)).Keys) && EachOnce(read, S.ReadSet(s, tid).Keys)
    ensures forall i :: 0 <= i < |written| ==> written[i] in S.StartsOf(S.WriteSet(s, tid))
    ensures forall i :: 0 <= i < |read| ==> read[i] in S.ReadSet(s, tid)
    ensures var unwritten := RemoveInOrder(s.entries, S.StartsOf(S.WriteSet(s, tid)), written, tid);
      S.HandleAbort(s, tid)
      == S.Server(RemoveInOrder(unwritten, S.ReadSet(s, tid), read, tid), s.pendingReadSets - {tid}, s.pendingWriteSets - {tid})
  {
    NoneLeft(written, S.StartsOf(S.WriteSet(s, tid)).Keys);
    NoneLeft(read, S.ReadSet(s, tid).Keys);
    RemovedInOrder(s.entries, S.StartsOf(S.WriteSet(s, tid)), written, tid);
    RemovedInOrder(RemoveInOrder(s.entries, S.StartsOf(S.WriteSet(s, tid)), written, tid), S.ReadSet(s, tid), read, tid);
  }

  /** A collection of a whole server takes every entry once, in any order. */
  lemma CollectionAddsUp(entries: map<Key, S.Entry>, keys: seq<Key>, ts: Instant)
    requires EachOnce(keys, entries.Keys)
    ensures CollectInOrder(entries, keys, ts) == S.Collected(entries, {}, ts)
  {
    NoneLeft(keys, entries.Keys);
    CollectedInOrder(entries, keys, ts);
  }
}
