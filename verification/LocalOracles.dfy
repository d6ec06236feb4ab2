/**
  Timestamps and transaction ids as a client makes them (client/LocalOracle.cpp): a millisecond, the client id and a
  counter packed into one integer.
 */
module LocalOracles {
  import opened Common

  const LOW_BITS := 0x10_0000
  const CLIENT_BITS := 0x400
  const MAX_FACTOR := 8196

  /** (ms << 20) + (client << 10) + crt % 1024. */
  function TimestampOf(ms: nat, client: nat, crt: nat): int {
    ms * LOW_BITS + client * CLIENT_BITS + crt % CLIENT_BITS
  }

  function TransactionIdOf(client: nat, crt: nat): TransactionId {
    client * MAX_FACTOR + crt
  }

  /** The counter after n ids have been drawn. */
  function CounterAfter(n: nat): (crt: nat)
    ensures crt < MAX_FACTOR
  {
    (n + 1) % MAX_FACTOR
  }

  /** The n-th id that a client draws. */
  function NthId(client: nat, n: nat): TransactionId {
    TransactionIdOf(client, CounterAfter(n))
  }

  class LocalOracle {
    const client: nat
    var crt: nat
    /** How many ids have been drawn. */
    ghost var drawn: nat

    ghost predicate Valid()
      reads this
    {
      crt == CounterAfter(drawn)
    }

    constructor (client: nat)
      ensures Valid() && this.client == client && drawn == 0
    {
      this.client := client;
      crt, drawn := 1, 0;
    }

    /** The clock is an input. For client ids below 1024 all three fields can be read back from the timestamp. */
    method GetTimestamp(ms: nat) returns (ts: int)
      requires Valid()
      ensures ts == TimestampOf(ms, client, CounterAfter(drawn))
      ensures client < CLIENT_BITS ==>
        && ts / LOW_BITS == ms && (ts % LOW_BITS) / CLIENT_BITS == client
        && ts % CLIENT_BITS == CounterAfter(drawn) % CLIENT_BITS
    {
      ts := ms * 0x10_0000 + client * 0x400 + crt % 1024;
      if client < CLIENT_BITS {
        FieldsCanBeRead(ms, client, crt);
      }
    }

    /** The ids of an oracle are the sequence NthId of its client, one after the other. */
    method GetTransactionId() returns (tid: TransactionId)
      requires Valid()
      modifies this
      ensures Valid() && tid == NthId(client, old(drawn)) && drawn == old(drawn) + 1
      ensures tid / 8196 == client && tid % 8196 == (old(drawn) + 1) % 8196
    {
      tid := client * MAX_FACTOR + crt;
      crt := (crt + 1) % MAX_FACTOR;
      drawn := drawn + 1;
      NextCounter(old(drawn));
    }
  }

  /** Drawing an id advances the counter to the next position. */
  lemma NextCounter(n: nat)
    ensures CounterAfter(n + 1) == (CounterAfter(n) + 1) % MAX_FACTOR
  {
  }

  lemma FieldsCanBeRead(ms: nat, client: nat, crt: nat)
    requires client < CLIENT_BITS
    ensures var ts := TimestampOf(ms, client, crt);
      ts / LOW_BITS == ms && (ts % LOW_BITS) / CLIENT_BITS == client && ts % CLIENT_BITS == crt % CLIENT_BITS
  {
    var low := client * CLIENT_BITS + crt % CLIENT_BITS;
    assert 0 <= low < LOW_BITS;
  }

  /** For client ids below 1024 a timestamp determines the millisecond, the client and the counter mod 1024. */
  lemma TimestampsDetermineIff(ms: nat, client: nat, crt: nat, ms': nat, client': nat, crt': nat)
    requires client < CLIENT_BITS && client' < CLIENT_BITS
    ensures TimestampOf(ms, client, crt) == TimestampOf(ms', client', crt')
       <==> ms == ms' && client == client' && crt % CLIENT_BITS == crt' % CLIENT_BITS
  {
    FieldsCanBeRead(ms, client, crt);
    FieldsCanBeRead(ms', client', crt');
  }

  /** For client ids below 1024 a smaller millisecond gives a smaller timestamp. */
  lemma TimestampsFollowTheClock(ms: nat, client: nat, crt: nat, ms': nat, client': nat, crt': nat)
    requires client < CLIENT_BITS && ms < ms'
    ensures TimestampOf(ms, client, crt) < TimestampOf(ms', client', crt')
  {
    var low := client * CLIENT_BITS + crt % CLIENT_BITS;
    assert low < LOW_BITS <= (ms' - ms) * LOW_BITS;
  }

  /** The bound on client ids is needed: a client shares its timestamps with the one 1024 below it a millisecond later. */
  lemma LargeClientsCollide(ms: nat, client: nat, crt: nat)
    ensures TimestampOf(ms, client + CLIENT_BITS, crt) == TimestampOf(ms + 1, client, crt)
  {
  }

  /** Ids of different clients never collide, and those of one client collide exactly every 8196 draws. */
  lemma IdsCollideIff(client: nat, n: nat, client': nat, n': nat)
    ensures NthId(client, n) == NthId(client', n') <==> client == client' && (n - n') % 8196 == 0
  {
    SameCounterIff(n, n');
    assert client < client' ==> client * MAX_FACTOR + MAX_FACTOR <= client' * MAX_FACTOR;
    assert client' < client ==> client' * MAX_FACTOR + MAX_FACTOR <= client * MAX_FACTOR;
  }

  lemma SameCounterIff(n: nat, n': nat)
    ensures CounterAfter(n) == CounterAfter(n') <==> (n - n') % MAX_FACTOR == 0
  {
    var q, q' := (n + 1) / MAX_FACTOR, (n' + 1) / MAX_FACTOR;
    assert n - n' == (q - q') * MAX_FACTOR + (CounterAfter(n) - CounterAfter(n'));
  }

  /** Any 8196 consecutive ids of a client are distinct. */
  lemma ConsecutiveIdsAreDistinct(client: nat, n: nat, n': nat)
    requires n < n' < n + 8196
    ensures NthId(client, n) != NthId(client, n')
  {
    IdsCollideIff(client, n', client, n);
  }
}
