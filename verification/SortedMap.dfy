/**
  The abstract value of a version list: a finite map from timestamps to entries that
  contains the two sentinel keys. Version lists are searched for neighbours of a timestamp.
 */
module SortedMap {
  import opened Common

  /** The sentinels are present and every key lies between them. */
  ghost predicate HasBounds<V>(m: map<Timestamp, V>) {
    && MIN_TIMESTAMP in m && MAX_TIMESTAMP in m
    && forall x :: x in m ==> MIN_TIMESTAMP <= x
  }

  /** x is the key of a real entry, not of a sentinel. */
  predicate Inner(x: Timestamp) {
    MIN_TIMESTAMP < x < MAX_TIMESTAMP
  }

  /** w is the greatest key strictly below t. */
  ghost predicate IsBelow<V>(m: map<Timestamp, V>, t: Timestamp, w: Timestamp) {
    w in m && w < t && forall x :: x in m && x < t ==> x <= w
  }

  /** w is the least key at or above t. */
  ghost predicate IsAtOrAbove<V>(m: map<Timestamp, V>, t: Timestamp, w: Timestamp) {
    w in m && t <= w && forall x :: x in m && t <= x ==> w <= x
  }

  /** The greatest key strictly below t; there is exactly one. */
  ghost function Below<V>(m: map<Timestamp, V>, t: Timestamp): (w: Timestamp)
    requires HasBounds(m) && MIN_TIMESTAMP < t
    ensures IsBelow(m, t, w) && forall x :: IsBelow(m, t, x) ==> x == w
  {
    BelowExists(m, t);
    var w :| IsBelow(m, t, w);
    w
  }

  /** The least key at or above t; there is exactly one. */
  ghost function AtOrAbove<V>(m: map<Timestamp, V>, t: Timestamp): (w: Timestamp)
    requires HasBounds(m)
    ensures IsAtOrAbove(m, t, w) && forall x :: IsAtOrAbove(m, t, x) ==> x == w
  {
    AtOrAboveExists(m, t);
    var w :| IsAtOrAbove(m, t, w);
    w
  }

  /** A search with < never stops in front of the head: at or below the least key it finds the first neighbours there are. */
  function Sought(t: Timestamp): Timestamp {
    if t <= MIN_TIMESTAMP then MIN_TIMESTAMP + 1 else t
  }

  /** The map without the entries that a newer one at or below ts supersedes; the least key always stays. */
  function EraseUpTo<V>(m: map<Timestamp, V>, ts: Timestamp): map<Timestamp, V> {
    map x | x in m && (x == MIN_TIMESTAMP || forall y :: y in m && x < y ==> ts < y) :: m[x]
  }

  lemma BelowExists<V>(m: map<Timestamp, V>, t: Timestamp)
    requires HasBounds(m) && MIN_TIMESTAMP < t
    ensures exists w :: IsBelow(m, t, w)
  {
    var s := set x | x in m && x < t;
    GreatestExists(s, MIN_TIMESTAMP);
    var w :| w in s && forall x :: x in s ==> x <= w;
    forall x | x in m && x < t ensures x <= w { assert x in s; }
    assert IsBelow(m, t, w);
  }

  lemma AtOrAboveExists<V>(m: map<Timestamp, V>, t: Timestamp)
    requires HasBounds(m)
    ensures exists w :: IsAtOrAbove(m, t, w)
  {
    var s := set x | x in m && t <= x;
    LeastExists(s, MAX_TIMESTAMP);
    var w :| w in s && forall x :: x in s ==> w <= x;
    forall x | x in m && t <= x ensures w <= x { assert x in s; }
    assert IsAtOrAbove(m, t, w);
  }

  lemma {:induction false} GreatestExists(s: set<Timestamp>, member: Timestamp)
    requires member in s
    ensures exists w :: w in s && forall x :: x in s ==> x <= w
    decreases MAX_TIMESTAMP - member
  {
    if x :| x in s && member < x {
      GreatestExists(s, x);
    }
  }

  lemma {:induction false} LeastExists(s: set<Timestamp>, member: Timestamp)
    requires member in s
    ensures exists w :: w in s && forall x :: x in s ==> w <= x
    decreases MAX_TIMESTAMP + member + 1
  {
    if x :| x in s && x < member {
      LeastExists(s, x);
    }
  }
}
