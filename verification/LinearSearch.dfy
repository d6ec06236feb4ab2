/**
  The search that every linked list of this repository performs. Each node's level pointers all lead to its
  immediate successor, so a multi-level descent is a walk along the list that stops at the first successor
  whose key exceeds the bound.
 */
module LinearSearch {

  /** The position where a walk from `from` stops: the last node before a key above the bound. */
  function Stop(keys: seq<int>, bound: int, from: nat): (p: nat)
    requires from < |keys|
    ensures from <= p < |keys|
    ensures forall i :: from < i <= p ==> keys[i] <= bound
    ensures p + 1 < |keys| ==> bound < keys[p + 1]
    decreases |keys| - from
  {
    if from + 1 < |keys| && keys[from + 1] <= bound then Stop(keys, bound, from + 1) else from
  }

  /** The walk is determined by what it has passed and by what stops it. */
  lemma {:induction false} StopIs(keys: seq<int>, bound: int, from: nat, p: nat)
    requires from <= p < |keys|
    requires forall i :: from < i <= p ==> keys[i] <= bound
    requires p + 1 < |keys| ==> bound < keys[p + 1]
    ensures Stop(keys, bound, from) == p
    decreases |keys| - from
  {
    if from < p {
      StopIs(keys, bound, from + 1, p);
    }
  }

  ghost predicate Ascending(keys: seq<int>) {
    forall i, j :: 0 <= i < j < |keys| ==> keys[i] <= keys[j]
  }

  /** In an ascending list the walk stops at the last key that is not above the bound. */
  lemma StopSplits(keys: seq<int>, bound: int, i: nat)
    requires Ascending(keys) && i < |keys| && keys[0] <= bound
    ensures i <= Stop(keys, bound, 0) <==> keys[i] <= bound
  {
    var p := Stop(keys, bound, 0);
    if p < i {
      assert keys[p + 1] <= keys[i];
    }
  }
}
