/** Types and small definitions shared by the models of the three protocols. */
module Common {

  // common.h: MIN_TIMESTAMP is 0 and MAX_TIMESTAMP is INT64_MAX; timestamps are i64.
  const MIN_TIMESTAMP: int := 0
  const MAX_TIMESTAMP: int := 0x7FFF_FFFF_FFFF_FFFF

  type Timestamp = t: int | -0x8000_0000_0000_0000 <= t <= 0x7FFF_FFFF_FFFF_FFFF

  /** A timestamp strictly between the two sentinel keys. */
  type Instant = t: Timestamp | 0 < t < 0x7FFF_FFFF_FFFF_FFFF witness 1

  type TransactionId = int
  type Key = string
  type Value = string
  type ServerId = nat

  /** The value that a client gives to a key that has none. */
  const NULL_VALUE: Value := "_"

  /** What a client records of its operations, to replay them after an abort. */
  datatype OperationKind = ReadOperation | WriteOperation

  datatype Operation = Operation(key: Key, value: Value, kind: OperationKind)

  datatype Option<+T> = None | Some(value: T)

  /** Looks a key up in a plain map. */
  function Lookup<K, V>(m: map<K, V>, k: K): Option<V> {
    if k in m then Some(m[k]) else None
  }

  /** What a lookup returns in terms of the value of a missing key, "". */
  function ValueOr(o: Option<Value>): Value {
    if o.Some? then o.value else ""
  }

  function Min(a: int, b: int): int {
    if a < b then a else b
  }

  /** A sequence with a new element behind position p. */
  function Added<T>(s: seq<T>, p: nat, x: T): (r: seq<T>)
    requires p < |s|
    ensures |r| == |s| + 1
    ensures forall i :: 0 <= i < |r| ==> r[i] == if i <= p then s[i] else if i == p + 1 then x else s[i - 1]
  {
    seq(|s| + 1, i requires 0 <= i < |s| + 1 => if i <= p then s[i] else if i == p + 1 then x else s[i - 1])
  }

  /** A sequence without the element at position p. */
  function RemoveAt<T>(s: seq<T>, p: nat): (r: seq<T>)
    requires p < |s|
    ensures |r| == |s| - 1
    ensures forall i :: 0 <= i < |r| ==> r[i] == if i < p then s[i] else s[i + 1]
  {
    seq(|s| - 1, i requires 0 <= i < |s| - 1 => if i < p then s[i] else s[i + 1])
  }

  /** The first element of a sequence, followed by what begins at position p. */
  function CutTo<T>(s: seq<T>, p: nat): (r: seq<T>)
    requires 0 < p <= |s|
    ensures |r| == |s| - p + 1
    ensures forall i :: 0 <= i < |r| ==> r[i] == if i == 0 then s[0] else s[p + i - 1]
  {
    seq(|s| - p + 1, i requires 0 <= i < |s| - p + 1 => if i == 0 then s[0] else s[p + i - 1])
  }

  ghost predicate Distinct<T>(s: seq<T>) {
    forall i, j :: 0 <= i < j < |s| ==> s[i] != s[j]
  }

  /** The elements of the set in some order, each once. */
  ghost predicate EachOnce<T(!new)>(s: seq<T>, all: set<T>) {
    Distinct(s) && forall x :: x in s <==> x in all
  }

  lemma NoneLeft<T(!new)>(s: seq<T>, all: set<T>)
    requires EachOnce(s, all)
    ensures all - (set x | x in s) == {}
    ensures forall i :: 0 <= i < |s| ==> s[i] in all
  {
  }

  lemma OneLess<T>(all: set<T>, s: seq<T>, rest: seq<T>, last: T)
    requires s == rest + [last]
    ensures all - (set x | x in rest) - {last} == all - (set x | x in s)
  {
  }

  lemma PutTwice<K, T>(m: map<K, T>, k: K, a: T, b: T)
    ensures m[k := a][k := b] == m[k := b]
  {
  }
}
