/**
  The MVTIL client (client/TransactionManager.cpp): how a transaction's interval, sets and recorded operations
  change over its calls, and the bounded replays of RestartTransaction. Server replies are arbitrary, except that
  a granted interval is not empty and lies in the request.
 */
module MvtilClients {
  import opened Common
  import opened LockList
  import LockSafety
  import S = MvtilServer

  datatype Reply = Reply(state: S.LockState, value: Value, start: Instant, finish: Instant)

  /** What a client sends: a read or write request, with the reply it brings, or, to a server of the transaction, how it ends. */
  datatype Ending = CommitAt(ts: Instant) | AbortNow
  datatype Message = Request(key: Key, reply: Reply) | Order(server: ServerId, ending: Ending)

  /** The messages tell each of the servers the ending, once, and nobody else anything. */
  ghost predicate TellsEach(sent: seq<Message>, servers: set<ServerId>, ending: Ending) {
    && |sent| == |servers|
    && (forall m :: m in sent ==> m.Order? && m.server in servers && m.ending == ending)
    && forall s :: s in servers ==> Order(s, ending) in sent
  }

  /** What every server reply satisfies. */
  predicate InRequest(reply: Reply, start: Instant, finish: Instant) {
    reply.state == S.R_LOCK_SUCCESS || reply.state == S.W_LOCK_SUCCESS ==> start <= reply.start <= reply.finish <= finish
  }

  /** The servers keep this: a granted read or write interval is not empty and lies in the request. */
  lemma GrantsAreInRequest(entries: map<Key, S.Entry>, tid: TransactionId, start: Instant, finish: Instant, k: Key, policy: S.Policy)
    ensures var (_, state, i) := S.TryRead(entries, tid, start, finish, k, policy);
      state == S.R_LOCK_SUCCESS ==> i.start == start && start <= i.finish <= finish
    ensures var (_, state, i) := S.TryWrite(entries, tid, start, finish, k);
      state == S.W_LOCK_SUCCESS ==> start <= i.start <= i.finish <= finish
  {
    LockSafety.NarrowAvoidsReads(S.EntryOr(entries, k).locks, tid, start, finish, finish, 1);
  }

  /** The recorded operations without the values of the reads: what a replay has to do again. */
  function Work(ops: seq<Operation>): (work: seq<Operation>)
    ensures |work| == |ops|
    ensures forall i :: 0 <= i < |ops| ==> work[i] == if ops[i].kind == ReadOperation then ops[i].(value := "") else ops[i]
  {
    seq(|ops|, i requires 0 <= i < |ops| => if ops[i].kind == ReadOperation then ops[i].(value := "") else ops[i])
  }

  // ----- replays

  /** How a replay went on: what a message brought for each operation that it came to, None for a local answer. */
  type Replies = seq<Option<Reply>>

  /** The operation was answered locally or granted. */
  predicate Answered(op: Operation, reply: Option<Reply>) {
    if op.kind == ReadOperation then
      reply.None? || reply.value.state == S.FAIL_NO_VERSION || reply.value.state == S.R_LOCK_SUCCESS
    else
      reply.Some? && reply.value.state == S.W_LOCK_SUCCESS
  }

  /** Each operation that the replay came to was answered locally or granted. */
  predicate AllAnswered(operations: seq<Operation>, replies: Replies) {
    if replies == [] then true
    else
      var last := |replies| - 1;
      last < |operations| && AllAnswered(operations, replies[..last]) && Answered(operations[last], replies[last])
  }

  /** Every operation was answered locally or granted. */
  predicate Completed(operations: seq<Operation>, replies: Replies) {
    |replies| == |operations| && AllAnswered(operations, replies)
  }

  /** The last operation that the replay came to was refused, and none before it. */
  predicate EndsRefused(operations: seq<Operation>, replies: Replies) {
    replies != []
    && var last := |replies| - 1;
       last < |operations| && AllAnswered(operations, replies[..last]) && !Answered(operations[last], replies[last])
  }

  /** Exactly the reads of keys that are known, or come earlier in the replay, were answered locally. */
  ghost predicate AsksOnce(operations: seq<Operation>, replies: Replies, known: set<Key>) {
    if replies == [] then true
    else
      var last := |replies| - 1;
      && last < |operations| && AsksOnce(operations, replies[..last], known)
      && (replies[last].None?
          <==> operations[last].kind == ReadOperation && operations[last].key in known + Keys(operations, last))
  }

  /** The keys of the first n operations. */
  function Keys(operations: seq<Operation>, n: nat): set<Key>
    requires n <= |operations|
  {
    set j | 0 <= j < n :: operations[j].key
  }

  /** The requests among the messages. */
  function Requests(log: seq<Message>): seq<Message> {
    if log == [] then []
    else Requests(log[..|log| - 1]) + if log[|log| - 1].Request? then [log[|log| - 1]] else []
  }

  /** The request that an operation has sent, if any. */
  function AskedBy(op: Operation, reply: Option<Reply>): seq<Message> {
    if reply.Some? then [Request(op.key, reply.value)] else []
  }

  /** The requests that a replay has sent. */
  function Asked(operations: seq<Operation>, replies: Replies): seq<Message> {
    if replies == [] || |operations| < |replies| then []
    else Asked(operations, replies[..|replies| - 1]) + AskedBy(operations[|replies| - 1], replies[|replies| - 1])
  }

  /** The requests that several replays have sent, one replay after the other. */
  function AskedInAll(operations: seq<Operation>, rounds: seq<Replies>): seq<Message> {
    if rounds == [] then []
    else AskedInAll(operations, rounds[..|rounds| - 1]) + Asked(operations, rounds[|rounds| - 1])
  }

  /** Each replay was refused in the end; only the first one starts with known keys. */
  ghost predicate AllRefused(operations: seq<Operation>, rounds: seq<Replies>, known: set<Key>) {
    if rounds == [] then true
    else
      var last := |rounds| - 1;
      && AllRefused(operations, rounds[..last], known) && EndsRefused(operations, rounds[last])
      && AsksOnce(operations, rounds[last], if last == 0 then known else {})
  }

  /** All replays but the last were refused, and that one was completed. */
  ghost predicate LastCompleted(operations: seq<Operation>, rounds: seq<Replies>, known: set<Key>) {
    rounds != []
    && var last := |rounds| - 1;
       && AllRefused(operations, rounds[..last], known) && Completed(operations, rounds[last])
       && AsksOnce(operations, rounds[last], if last == 0 then known else {})
  }

  lemma RefusedRound(operations: seq<Operation>, rounds: seq<Replies>, replies: Replies, known: set<Key>)
    requires AllRefused(operations, rounds, known) && EndsRefused(operations, replies)
    requires AsksOnce(operations, replies, if rounds == [] then known else {})
    ensures AllRefused(operations, rounds + [replies], known)
  {
    var longer := rounds + [replies];
    assert longer[..|rounds|] == rounds && longer[|rounds|] == replies;
  }

  lemma NothingToRefuse(rounds: seq<Replies>, known: set<Key>)
    requires AllRefused([], rounds, known)
    ensures rounds == []
  {
  }

  lemma CompletedRound(operations: seq<Operation>, rounds: seq<Replies>, replies: Replies, known: set<Key>)
    requires AllRefused(operations, rounds, known) && Completed(operations, replies)
    requires AsksOnce(operations, replies, if rounds == [] then known else {})
    ensures LastCompleted(operations, rounds + [replies], known)
  {
    var longer := rounds + [replies];
    assert longer[..|rounds|] == rounds && longer[|rounds|] == replies;
  }

  lemma AskedNext(operations: seq<Operation>, rounds: seq<Replies>, replies: Replies)
    ensures AskedInAll(operations, rounds + [replies]) == AskedInAll(operations, rounds) + Asked(operations, replies)
  {
    assert (rounds + [replies])[..|rounds|] == rounds;
  }

  /** A replay has come to one more operation. */
  lemma NextAnswer(operations: seq<Operation>, replies: Replies, reply: Option<Reply>)
    requires |replies| < |operations| && AllAnswered(operations, replies)
    ensures if Answered(operations[|replies|], reply) then AllAnswered(operations, replies + [reply])
            else EndsRefused(operations, replies + [reply])
  {
    var longer := replies + [reply];
    assert longer[..|replies|] == replies && longer[|replies|] == reply;
  }

  lemma NextAsked(operations: seq<Operation>, replies: Replies, reply: Option<Reply>)
    requires |replies| < |operations|
    ensures Asked(operations, replies + [reply]) == Asked(operations, replies) + AskedBy(operations[|replies|], reply)
  {
    assert (replies + [reply])[..|replies|] == replies;
  }

  lemma NextAsks(operations: seq<Operation>, replies: Replies, reply: Option<Reply>, known: set<Key>)
    requires |replies| < |operations| && AsksOnce(operations, replies, known)
    requires var op := operations[|replies|];
      reply.None? <==> op.kind == ReadOperation && op.key in known + Keys(operations, |replies|)
    ensures AsksOnce(operations, replies + [reply], known)
  {
    assert (replies + [reply])[..|replies|] == replies;
  }

  /** The requests sent meanwhile are the asked ones. */
  ghost predicate SentMeanwhile(before: seq<Message>, after: seq<Message>, asked: seq<Message>) {
    Requests(after) == Requests(before) + asked
  }

  lemma SentInTurn(before: seq<Message>, now: seq<Message>, after: seq<Message>, first: seq<Message>, second: seq<Message>)
    requires SentMeanwhile(before, now, first) && SentMeanwhile(now, after, second)
    ensures SentMeanwhile(before, after, first + second)
  {
  }

  /** The operations recorded meanwhile are these, but for the values of the reads. */
  ghost predicate RecordedMeanwhile(before: seq<Operation>, after: seq<Operation>, operations: seq<Operation>) {
    Work(after) == Work(before) + Work(operations)
  }

  lemma RecordedSinceNothing(after: seq<Operation>, operations: seq<Operation>)
    requires RecordedMeanwhile([], after, operations)
    ensures Work(after) == Work(operations)
  {
  }

  lemma RecordedInTurn(before: seq<Operation>, now: seq<Operation>, after: seq<Operation>, operations: seq<Operation>, n: nat)
    requires n < |operations| && RecordedMeanwhile(before, now, operations[..n]) && RecordedMeanwhile(now, after, [operations[n]])
    ensures RecordedMeanwhile(before, after, operations[..n + 1])
  {
    assert Work(operations[..n + 1]) == Work(operations[..n]) + Work([operations[n]]);
  }

  lemma OneMore(operations: seq<Operation>, n: nat)
    requires n < |operations|
    ensures Keys(operations, n + 1) == Keys(operations, n) + {operations[n].key}
  {
  }

  lemma {:induction false} RequestsOfSum(a: seq<Message>, b: seq<Message>)
    ensures Requests(a + b) == Requests(a) + Requests(b)
  {
    if b == [] {
      assert a + b == a;
    } else {
      assert (a + b)[..|a + b| - 1] == a + b[..|b| - 1];
      RequestsOfSum(a, b[..|b| - 1]);
    }
  }

  lemma {:induction false} OrdersAreNoRequests(sent: seq<Message>)
    requires forall m :: m in sent ==> m.Order?
    ensures Requests(sent) == []
  {
    if sent != [] {
      assert sent[|sent| - 1] in sent;
      OrdersAreNoRequests(sent[..|sent| - 1]);
    }
  }

  /** What a call has added to the requests, given what it brought. */
  lemma RequestsOfCall(before: seq<Message>, after: seq<Message>, key: Key, reply: Option<Reply>)
    requires reply.None? ==> after == before
    requires reply.Some? ==>
      before + [Request(key, reply.value)] <= after && forall m :: m in after[|before| + 1..] ==> m.Order?
    ensures Requests(after) == Requests(before) + if reply.Some? then [Request(key, reply.value)] else []
  {
    if reply.Some? {
      var asked := before + [Request(key, reply.value)];
      assert after == asked + after[|before| + 1..];
      RequestsOfSum(asked, after[|before| + 1..]);
      OrdersAreNoRequests(after[|before| + 1..]);
      assert asked[..|asked| - 1] == before;
    }
  }

  class Transaction {
    var start: Instant
    var finish: Instant
    var readSet: map<Key, Value>
    var writeSet: map<Key, Value>
    /** writeSetServers. */
    var servers: set<ServerId>
    var pendingOperations: seq<Operation>
    var restartNum: nat
    var isAbort: bool
    /** The messages sent and the number of replays made so far. */
    ghost var log: seq<Message>
    ghost var replays: nat

    constructor (start: Instant, finish: Instant)
      ensures this.start == start && this.finish == finish && Fresh() && log == [] && replays == 0
    {
      this.start, this.finish := start, finish;
      readSet, writeSet, servers, pendingOperations := map[], map[], {}, [];
      restartNum, isAbort, log, replays := 0, false, [], 0;
    }

    ghost predicate Fresh()
      reads this
    {
      readSet == map[] && writeSet == map[] && servers == {} && pendingOperations == [] && restartNum == 0 && !isAbort
    }

    /** What holds over a transaction's whole life, for the restart bound `maxRestart`. */
    ghost predicate Alive(maxRestart: nat)
      reads this
    {
      && replays == restartNum <= maxRestart + 1
      && (isAbort ==> restartNum == maxRestart + 1)
    }

    /** The interval has only narrowed and is not empty. */
    twostate predicate Narrowed()
      reads this
    {
      old(start) <= start <= finish <= old(finish)
    }
  }

  class TransactionManager {
    /** c_restart, and the length of a new interval, c_interval_duration << LOW_BITE. */
    const maxRestart: nat
    const duration: nat
    const place: Key -> ServerId
    /** The timestamps that the clock has given to restarts. */
    ghost var ticks: seq<Instant>

    constructor (maxRestart: nat, duration: nat, place: Key -> ServerId)
      ensures this.maxRestart == maxRestart && this.duration == duration && this.place == place && ticks == []
    {
      this.maxRestart, this.duration, this.place, ticks := maxRestart, duration, place, [];
    }

    /** One request and its reply. */
    method Send(tx: Transaction, key: Key) returns (reply: Reply)
      modifies tx`log
      ensures tx.log == old(tx.log) + [Request(key, reply)] && InRequest(reply, tx.start, tx.finish)
    {
      assert InRequest(Reply(S.FAIL_NO_VERSION, "", tx.start, tx.finish), tx.start, tx.finish);
      reply :| InRequest(reply, tx.start, tx.finish);
      tx.log := tx.log + [Request(key, reply)];
    }

    /** One commit or abort message to each server of the transaction, in any order. */
    method Tell(tx: Transaction, ghost ending: Ending)
      modifies tx`log
      ensures old(tx.log) <= tx.log && TellsEach(tx.log[|old(tx.log)|..], tx.servers, ending)
    {
      var todo := tx.servers;
      ghost var sent: seq<Message> := [];
      while todo != {}
        invariant todo <= tx.servers && tx.log == old(tx.log) + sent && TellsEach(sent, tx.servers - todo, ending)
        decreases |todo|
      {
        var server :| server in todo;
        ghost var told := tx.servers - todo;
        todo := todo - {server};
        assert tx.servers - todo == told + {server};
        tx.log := tx.log + [Order(server, ending)];
        sent := sent + [Order(server, ending)];
      }
      assert tx.servers - todo == tx.servers;
    }

    /**
      A key that was written or read before is answered without a message; `reply` is what a message brought, and
      `prior` what the caller's out-parameter held before the call, which is what a granted read records.
     */
    method ReadData(tx: Transaction, key: Key, prior: Value) returns (ok: bool, value: Value, ghost reply: Option<Reply>)
      modifies tx
      ensures tx.restartNum == old(tx.restartNum) && tx.replays == old(tx.replays) && tx.isAbort == old(tx.isAbort)
      ensures old(tx.isAbort) ==> !ok && unchanged(tx)
      ensures old(tx.start) <= old(tx.finish) ==> tx.Narrowed()
      ensures !old(tx.isAbort) ==> (reply.None? <==> key in old(tx.writeSet) || key in old(tx.readSet))
      ensures !old(tx.isAbort) && reply.None? ==>
        && ok && value == (if key in old(tx.writeSet) then old(tx.writeSet)[key] else old(tx.readSet)[key])
        && tx.log == old(tx.log) && tx.readSet == old(tx.readSet) && tx.writeSet == old(tx.writeSet)
        && tx.start == old(tx.start) && tx.finish == old(tx.finish)
        && tx.pendingOperations == old(tx.pendingOperations) + [Operation(key, value, ReadOperation)]
      ensures !old(tx.isAbort) && reply.Some? ==>
        && ok == (reply.value.state == S.FAIL_NO_VERSION || reply.value.state == S.R_LOCK_SUCCESS)
        && (ok ==>
              && value == (if reply.value.state == S.FAIL_NO_VERSION then NULL_VALUE else reply.value.value)
              && tx.log == old(tx.log) + [Request(key, reply.value)] && tx.servers == old(tx.servers)
              && tx.readSet == old(tx.readSet)[key := value] && tx.writeSet == old(tx.writeSet)
              && (tx.start, tx.finish) == (if reply.value.state == S.FAIL_NO_VERSION then old((tx.start, tx.finish))
                                           else (reply.value.start, reply.value.finish))
              && tx.pendingOperations == old(tx.pendingOperations)
                   + [Operation(key, if reply.value.state == S.FAIL_NO_VERSION then NULL_VALUE else prior, ReadOperation)])
        && (!ok ==> HasAborted(tx) && Sent(old(tx.log) + [Request(key, reply.value)], tx.log, old(tx.servers), AbortNow))
    {
      reply := None;
      if tx.isAbort {
        return false, NULL_VALUE, None;
      }
      if key in tx.writeSet || key in tx.readSet {
        value := if key in tx.writeSet then tx.writeSet[key] else tx.readSet[key];
        tx.pendingOperations := tx.pendingOperations + [Operation(key, value, ReadOperation)];
        return true, value, None;
      }
      var answer := Send(tx, key);
      reply := Some(answer);
      if answer.state == S.FAIL_NO_VERSION {
        tx.readSet := tx.readSet[key := NULL_VALUE];
        tx.pendingOperations := tx.pendingOperations + [Operation(key, NULL_VALUE, ReadOperation)];
        return true, NULL_VALUE, reply;
      }
      if answer.state == S.R_LOCK_SUCCESS {
        tx.readSet := tx.readSet[key := answer.value];
        tx.pendingOperations := tx.pendingOperations + [Operation(key, prior, ReadOperation)];
        tx.start, tx.finish := answer.start, answer.finish;
        return true, answer.value, reply;
      }
      var _ := AbortTransaction(tx);
      ok, value := false, NULL_VALUE;
    }

    /** Behind the messages `before`, each of the servers is told the ending. */
    ghost predicate Sent(before: seq<Message>, after: seq<Message>, servers: set<ServerId>, ending: Ending) {
      before <= after && TellsEach(after[|before|..], servers, ending)
    }

    /** The sets are cleared; the recorded operations are kept. */
    ghost predicate HasAborted(tx: Transaction)
      reads tx
    {
      tx.readSet == map[] && tx.writeSet == map[] && tx.servers == {}
    }

    /** Every write is sent, also that of a key written before. */
    method WriteData(tx: Transaction, key: Key, value: Value) returns (ok: bool, ghost reply: Option<Reply>)
      modifies tx
      ensures tx.restartNum == old(tx.restartNum) && tx.replays == old(tx.replays) && tx.isAbort == old(tx.isAbort)
      ensures old(tx.isAbort) ==> !ok && unchanged(tx)
      ensures old(tx.start) <= old(tx.finish) ==> tx.Narrowed()
      ensures !old(tx.isAbort) ==>
        && reply.Some? && ok == (reply.value.state == S.W_LOCK_SUCCESS)
        && (ok ==>
              && tx.writeSet == old(tx.writeSet)[key := value] && tx.readSet == old(tx.readSet)
              && tx.servers == old(tx.servers) + {place(key)} && tx.log == old(tx.log) + [Request(key, reply.value)]
              && tx.start == reply.value.start && tx.finish == reply.value.finish
              && tx.pendingOperations == old(tx.pendingOperations) + [Operation(key, value, WriteOperation)])
        && (!ok ==> HasAborted(tx) && Sent(old(tx.log) + [Request(key, reply.value)], tx.log, old(tx.servers), AbortNow))
    {
      reply := None;
      if tx.isAbort {
        return false, None;
      }
      if key in tx.writeSet {
        tx.writeSet := tx.writeSet[key := value];
      }
      var answer := Send(tx, key);
      reply := Some(answer);
      if answer.state == S.W_LOCK_SUCCESS {
        tx.start, tx.finish := answer.start, answer.finish;
        if key !in tx.writeSet {
          tx.writeSet := tx.writeSet[key := value];
        }
        tx.servers := tx.servers + {place(key)};
        tx.pendingOperations := tx.pendingOperations + [Operation(key, value, WriteOperation)];
        return true, reply;
      }
      var _ := AbortTransaction(tx);
      ok := false;
    }

    /** Commits at the start of the interval: each write server is sent one commit message with that timestamp. */
    method CommitTransaction(tx: Transaction) returns (ok: bool, ts: Instant)
      modifies tx
      ensures tx.restartNum == old(tx.restartNum) && tx.replays == old(tx.replays) && tx.isAbort == old(tx.isAbort)
      ensures ok == !old(tx.isAbort) && ts == old(tx.start)
      ensures !ok ==> unchanged(tx)
      ensures ok ==>
        && tx.readSet == map[] && tx.writeSet == map[] && tx.servers == {} && tx.pendingOperations == []
        && Sent(old(tx.log), tx.log, old(tx.servers), CommitAt(ts))
    {
      ts := tx.start;
      if tx.isAbort {
        return false, ts;
      }
      Tell(tx, CommitAt(ts));
      tx.readSet, tx.writeSet, tx.servers, tx.pendingOperations := map[], map[], {}, [];
      ok := true;
    }

    /** Each write server is sent one abort message. The recorded operations stay, for a restart. */
    method AbortTransaction(tx: Transaction) returns (ok: bool)
      modifies tx
      ensures tx.restartNum == old(tx.restartNum) && tx.replays == old(tx.replays) && tx.isAbort == old(tx.isAbort)
      ensures tx.start == old(tx.start) && tx.finish == old(tx.finish) && tx.pendingOperations == old(tx.pendingOperations)
      ensures ok == !old(tx.isAbort)
      ensures !ok ==> unchanged(tx)
      ensures ok ==> HasAborted(tx) && Sent(old(tx.log), tx.log, old(tx.servers), AbortNow)
    {
      if tx.isAbort {
        return false;
      }
      Tell(tx, AbortNow);
      tx.readSet, tx.writeSet, tx.servers := map[], map[], {};
      ok := true;
    }

    /** The client has a value for these keys. */
    function Known(tx: Transaction): set<Key>
      reads tx
    {
      tx.readSet.Keys + tx.writeSet.Keys
    }

    /** One recorded operation again. */
    method ReplayOne(tx: Transaction, op: Operation) returns (ok: bool, ghost reply: Option<Reply>)
      requires !tx.isAbort && tx.start <= tx.finish
      modifies tx
      ensures tx.restartNum == old(tx.restartNum) && tx.replays == old(tx.replays) && !tx.isAbort && tx.Narrowed()
      ensures ok == Answered(op, reply)
      ensures reply.None? <==> op.kind == ReadOperation && op.key in old(Known(tx))
      ensures SentMeanwhile(old(tx.log), tx.log, AskedBy(op, reply))
      ensures ok ==> Known(tx) == old(Known(tx)) + {op.key}
      ensures ok ==> RecordedMeanwhile(old(tx.pendingOperations), tx.pendingOperations, [op])
      ensures !ok ==> HasAborted(tx)
    {
      if op.kind == ReadOperation {
        var value;
        ok, value, reply := ReadData(tx, op.key, op.value);
      } else {
        ok, reply := WriteData(tx, op.key, op.value);
      }
      ghost var asked := if reply.Some? then old(tx.log) + [Request(op.key, reply.value)] else old(tx.log);
      assert asked <= tx.log;
      assert ok ==> tx.log[|asked|..] == [];
      RequestsOfCall(old(tx.log), tx.log, op.key, reply);
    }

    /** Replays the recorded operations, up to the first that is refused. */
    method Replay(tx: Transaction, operations: seq<Operation>) returns (ok: bool, ghost replies: Replies)
      requires !tx.isAbort && tx.start <= tx.finish
      modifies tx
      ensures tx.restartNum == old(tx.restartNum) && tx.replays == old(tx.replays) && !tx.isAbort && tx.Narrowed()
      ensures ok ==> RecordedMeanwhile(old(tx.pendingOperations), tx.pendingOperations, operations)
      ensures if ok then Completed(operations, replies) else EndsRefused(operations, replies) && HasAborted(tx)
      ensures AsksOnce(operations, replies, old(Known(tx)))
      ensures SentMeanwhile(old(tx.log), tx.log, Asked(operations, replies))
    {
      replies := [];
      for i := 0 to |operations|
        invariant tx.restartNum == old(tx.restartNum) && tx.replays == old(tx.replays) && !tx.isAbort && tx.Narrowed()
        invariant RecordedMeanwhile(old(tx.pendingOperations), tx.pendingOperations, operations[..i])
        invariant |replies| == i && AllAnswered(operations, replies)
        invariant Known(tx) == old(Known(tx)) + Keys(operations, i)
        invariant AsksOnce(operations, replies, old(Known(tx)))
        invariant SentMeanwhile(old(tx.log), tx.log, Asked(operations, replies))
      {
        ghost var log, recorded := tx.log, tx.pendingOperations;
        ghost var reply;
        ok, reply := ReplayOne(tx, operations[i]);
        NextAnswer(operations, replies, reply);
        NextAsked(operations, replies, reply);
        NextAsks(operations, replies, reply, old(Known(tx)));
        OneMore(operations, i);
        SentInTurn(old(tx.log), log, tx.log, Asked(operations, replies), AskedBy(operations[i], reply));
        replies := replies + [reply];
        if !ok {
          return;
        }
        RecordedInTurn(old(tx.pendingOperations), recorded, tx.pendingOperations, operations, i);
      }
      assert operations[..|operations|] == operations;
      ok := true;
    }

    /** The transaction's interval is not empty and lies in the one that begins when the clock was last read. */
    ghost predicate InLastTick(tx: Transaction)
      reads tx, `ticks
    {
      ticks != [] && ticks[|ticks| - 1] <= tx.start <= tx.finish <= ticks[|ticks| - 1] + duration
    }

    /** The clock gives a new interval its start. */
    method Tick() returns (now: Instant)
      requires 1 + duration < MAX_TIMESTAMP
      modifies `ticks
      ensures now + duration < MAX_TIMESTAMP && ticks == old(ticks) + [now]
    {
      assert 1 + duration < MAX_TIMESTAMP;
      now :| now + duration < MAX_TIMESTAMP;
      ticks := ticks + [now];
    }

    /** One replay, in the interval that the clock gives it. */
    method ReplayAnew(tx: Transaction, operations: seq<Operation>) returns (ok: bool, ghost replies: Replies)
      requires !tx.isAbort && 1 + duration < MAX_TIMESTAMP
      modifies tx, `ticks
      ensures tx.restartNum == old(tx.restartNum) + 1 && tx.replays == old(tx.replays) + 1 && !tx.isAbort
      ensures ok ==> Work(tx.pendingOperations) == Work(operations)
      ensures if ok then Completed(operations, replies) else EndsRefused(operations, replies) && HasAborted(tx)
      ensures AsksOnce(operations, replies, old(Known(tx)))
      ensures SentMeanwhile(old(tx.log), tx.log, Asked(operations, replies))
      ensures |ticks| == |old(ticks)| + 1 && old(ticks) <= ticks
      ensures InLastTick(tx)
    {
      tx.restartNum := tx.restartNum + 1;
      tx.replays := tx.replays + 1;
      var now := Tick();
      tx.start, tx.finish := now, now + duration;
      tx.pendingOperations := [];
      assert Known(tx) == old(Known(tx)) && tx.log == old(tx.log);
      ok, replies := Replay(tx, operations);
      if ok {
        RecordedSinceNothing(tx.pendingOperations, operations);
      }
    }

    /** One more replay after those of `rounds`, none of which was completed; `first` is the log from before them. */
    method ReplayAgain(
        tx: Transaction, operations: seq<Operation>, ghost rounds: seq<Replies>, ghost known: set<Key>, ghost first: seq<Message>)
      returns (ok: bool, ghost longer: seq<Replies>)
      requires !tx.isAbort && 1 + duration < MAX_TIMESTAMP
      requires AllRefused(operations, rounds, known) && Known(tx) == if rounds == [] then known else {}
      requires SentMeanwhile(first, tx.log, AskedInAll(operations, rounds))
      modifies tx, `ticks
      ensures tx.restartNum == old(tx.restartNum) + 1 && tx.replays == old(tx.replays) + 1 && !tx.isAbort
      ensures ok ==> Work(tx.pendingOperations) == Work(operations) && LastCompleted(operations, longer, known)
      ensures !ok ==> AllRefused(operations, longer, known) && Known(tx) == {}
      ensures |longer| == |rounds| + 1 && SentMeanwhile(first, tx.log, AskedInAll(operations, longer))
      ensures |ticks| == |old(ticks)| + 1 && old(ticks) <= ticks && InLastTick(tx)
    {
      ghost var replies;
      ok, replies := ReplayAnew(tx, operations);
      if ok {
        CompletedRound(operations, rounds, replies, known);
      } else {
        RefusedRound(operations, rounds, replies, known);
      }
      AskedNext(operations, rounds, replies);
      SentInTurn(first, old(tx.log), tx.log, AskedInAll(operations, rounds), Asked(operations, replies));
      longer := rounds + [replies];
    }

    /**
      Replays until one succeeds or the bound is reached; the clock gives each replay its new interval. Over a
      transaction's whole life at most maxRestart + 1 replays are made, and once this has returned false it and
      the other calls do nothing. `rounds` is how each replay went.
     */
    method RestartTransaction(tx: Transaction) returns (ok: bool, ghost rounds: seq<Replies>)
      requires tx.Alive(maxRestart) && 1 + duration < MAX_TIMESTAMP
      modifies tx, `ticks
      ensures tx.Alive(maxRestart) && tx.replays == old(tx.replays) + |rounds| && tx.isAbort == !ok
      ensures ok ==> Work(tx.pendingOperations) == Work(old(tx.pendingOperations)) && rounds != []
      ensures old(tx.isAbort) ==> !ok && unchanged(tx)
      ensures !ok ==> tx.replays == maxRestart + 1
      ensures if ok then LastCompleted(old(tx.pendingOperations), rounds, old(Known(tx)))
              else AllRefused(old(tx.pendingOperations), rounds, old(Known(tx)))
      ensures SentMeanwhile(old(tx.log), tx.log, AskedInAll(old(tx.pendingOperations), rounds))
      ensures old(tx.pendingOperations) == [] && old(tx.restartNum) <= maxRestart ==> ok
      ensures old(ticks) <= ticks && |ticks| == |old(ticks)| + |rounds|
      ensures ok ==> InLastTick(tx)
    {
      ok, rounds := false, [];
      var operations := tx.pendingOperations;
      while tx.restartNum <= maxRestart && !ok
        invariant tx.replays == tx.restartNum <= maxRestart + 1 && tx.replays == old(tx.replays) + |rounds|
        invariant tx.isAbort == old(tx.isAbort) && (rounds == [] ==> !ok && unchanged(tx))
        invariant ok ==> Work(tx.pendingOperations) == Work(operations)
        invariant if ok then LastCompleted(operations, rounds, old(Known(tx))) else AllRefused(operations, rounds, old(Known(tx)))
        invariant !ok ==> Known(tx) == if rounds == [] then old(Known(tx)) else {}
        invariant SentMeanwhile(old(tx.log), tx.log, AskedInAll(operations, rounds))
        invariant old(ticks) <= ticks && |ticks| == |old(ticks)| + |rounds|
        invariant ok ==> InLastTick(tx)
        decreases maxRestart + 1 - tx.restartNum, !ok
      {
        ok, rounds := ReplayAgain(tx, operations, rounds, old(Known(tx)), old(tx.log));
      }
      if operations == [] && !ok {
        NothingToRefuse(rounds, old(Known(tx)));
      }
      tx.isAbort := !ok;
    }
  }
}
