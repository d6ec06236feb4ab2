/**
  The skip list of common/SkipList.h, in the two variants of the repository: `find` with <= (MVTIL) and with <
  (MVTO+). It refines a sorted map: no answer depends on the levels of the nodes.
 */
module SkipLists {
  import opened Common
  import opened SortedMap
  import opened LinearSearch
  import opened Links

  datatype Pair<V> = Pair(key: Timestamp, value: V)

  ghost predicate Ascends<V>(items: seq<Pair<V>>) {
    forall i, j :: 0 <= i < j < |items| ==> items[i].key < items[j].key
  }

  /** The sentinels stand at both ends of an ascending list. */
  ghost predicate Framed<V>(items: seq<Pair<V>>) {
    && 2 <= |items| && Ascends(items)
    && items[0].key == MIN_TIMESTAMP && items[|items| - 1].key == MAX_TIMESTAMP
  }

  /** The map that an ascending list represents. */
  ghost function AsMap<V>(items: seq<Pair<V>>): map<Timestamp, V> {
    if items == [] then map[]
    else AsMap(items[..|items| - 1])[items[|items| - 1].key := items[|items| - 1].value]
  }

  function KeyOf<V>(p: Pair<V>): int {
    p.key
  }

  lemma {:induction false} AsMapHas<V>(items: seq<Pair<V>>, i: nat)
    requires Ascends(items) && i < |items|
    ensures items[i].key in AsMap(items) && AsMap(items)[items[i].key] == items[i].value
  {
    if i < |items| - 1 {
      AsMapHas(items[..|items| - 1], i);
    }
  }

  /** Every key of the map stands somewhere in the list. */
  lemma {:induction false} IndexOf<V>(items: seq<Pair<V>>, x: Timestamp) returns (i: nat)
    requires x in AsMap(items)
    ensures i < |items| && items[i].key == x
  {
    i := |items| - 1;
    if items[i].key != x {
      i := IndexOf(items[..i], x);
    }
  }

  /** Lists of which each holds all pairs of the other represent the same map. */
  lemma SameMap<V>(items: seq<Pair<V>>, m: map<Timestamp, V>)
    requires Ascends(items)
    requires forall i :: 0 <= i < |items| ==> items[i].key in m && m[items[i].key] == items[i].value
    requires forall x :: x in m ==> exists i :: 0 <= i < |items| && items[i].key == x
    ensures AsMap(items) == m
  {
    forall x | x in AsMap(items) ensures x in m && m[x] == AsMap(items)[x] {
      var i := IndexOf(items, x);
      AsMapHas(items, i);
    }
    forall x | x in m ensures x in AsMap(items) {
      var i :| 0 <= i < |items| && items[i].key == x;
      AsMapHas(items, i);
    }
  }

  lemma FramedHasBounds<V>(items: seq<Pair<V>>)
    requires Framed(items)
    ensures HasBounds(AsMap(items))
  {
    AsMapHas(items, 0);
    AsMapHas(items, |items| - 1);
    forall x | x in AsMap(items) ensures MIN_TIMESTAMP <= x {
      var i := IndexOf(items, x);
    }
  }

  /** The walk stops in front of the first key above the bound. */
  lemma Locate<V>(items: seq<Pair<V>>, bound: int)
    requires Framed(items)
    ensures var p := Stop(Keys(items, KeyOf), bound, 0);
      && (0 < p || MIN_TIMESTAMP <= bound ==> items[p].key <= bound)
      && (bound < MAX_TIMESTAMP ==> p + 1 < |items| && bound < items[p + 1].key)
  {
    var keys := Keys(items, KeyOf);
    assert keys[Stop(keys, bound, 0)] <= bound || Stop(keys, bound, 0) == 0;
  }

  lemma LastIsMax<V>(items: seq<Pair<V>>, p: nat)
    requires Framed(items) && p < |items| && (p + 1 < |items| ==> MAX_TIMESTAMP < items[p + 1].key)
    ensures p + 1 == |items|
  {
  }

  /** A key that the map has stands right in front of the next greater one. */
  lemma KeyInMap<V>(items: seq<Pair<V>>, p: nat, x: Timestamp)
    requires Framed(items) && p + 1 < |items| && items[p].key <= x < items[p + 1].key
    ensures x in AsMap(items) <==> items[p].key == x
  {
    AsMapHas(items, p);
    if x in AsMap(items) {
      var i := IndexOf(items, x);
    }
  }

  lemma NeighboursInMap<V>(items: seq<Pair<V>>, p: nat, bound: Timestamp)
    requires Framed(items) && p + 1 < |items|
    requires items[p].key < bound <= items[p + 1].key
    ensures HasBounds(AsMap(items)) && MIN_TIMESTAMP < bound
    ensures Below(AsMap(items), bound) == items[p].key && AtOrAbove(AsMap(items), bound) == items[p + 1].key
    ensures AsMap(items)[items[p].key] == items[p].value && AsMap(items)[items[p + 1].key] == items[p + 1].value
  {
    AsMapHas(items, p);
    AsMapHas(items, p + 1);
    FramedHasBounds(items);
    forall x | x in AsMap(items) ensures x <= items[p].key || items[p + 1].key <= x {
      var i := IndexOf(items, x);
    }
    assert IsBelow(AsMap(items), bound, items[p].key) && IsAtOrAbove(AsMap(items), bound, items[p + 1].key);
  }

  lemma InsertInMap<V>(items: seq<Pair<V>>, p: nat, added: Pair<V>)
    requires Framed(items) && p + 1 < |items| && items[p].key < added.key < items[p + 1].key
    ensures var r := Added(items, p, added);
      Framed(r) && added.key !in AsMap(items) && AsMap(r) == AsMap(items)[added.key := added.value]
  {
    InsertAscends(items, p, added);
    if added.key in AsMap(items) {
      var i := IndexOf(items, added.key);
    }
    var m := AsMap(items)[added.key := added.value];
    InsertedKeys(items, p, added);
    SameMap(Added(items, p, added), m);
  }

  /** The keys of the longer list are those of the updated map. */
  lemma InsertedKeys<V>(items: seq<Pair<V>>, p: nat, added: Pair<V>)
    requires Framed(items) && p + 1 < |items| && added.key !in AsMap(items)
    ensures var r := Added(items, p, added);
      var m := AsMap(items)[added.key := added.value];
      && (forall i :: 0 <= i < |r| ==> r[i].key in m && m[r[i].key] == r[i].value)
      && forall x :: x in m ==> exists i :: 0 <= i < |r| && r[i].key == x
  {
    var r := Added(items, p, added);
    forall i | 0 <= i < |r| && i != p + 1 ensures r[i].key in AsMap(items) && AsMap(items)[r[i].key] == r[i].value {
      AsMapHas(items, if i <= p then i else i - 1);
    }
    var m := AsMap(items)[added.key := added.value];
    forall x | x in m ensures exists i :: 0 <= i < |r| && r[i].key == x {
      if x == added.key {
        assert r[p + 1].key == x;
      } else {
        var i := IndexOf(items, x);
        assert r[if i <= p then i else i + 1].key == x;
      }
    }
  }

  lemma InsertAscends<V>(items: seq<Pair<V>>, p: nat, added: Pair<V>)
    requires Framed(items) && p + 1 < |items| && items[p].key < added.key < items[p + 1].key
    ensures Framed(Added(items, p, added))
  {
    forall i | 0 <= i < |items| ensures if i <= p then items[i].key < added.key else added.key < items[i].key {
      assert i == p || i == p + 1 || (i < p ==> items[i].key < items[p].key);
    }
  }

  /** Behind the last key below x stands x, if the map has it. */
  lemma RemoveTarget<V>(items: seq<Pair<V>>, p: nat, x: Timestamp)
    requires Framed(items) && p + 1 < |items| && (p == 0 || items[p].key < x) && x <= items[p + 1].key
    requires x < MAX_TIMESTAMP
    ensures items[p + 1].key == x <==> x in AsMap(items) && MIN_TIMESTAMP < x
    ensures items[p + 1].key == x ==> p + 2 < |items|
  {
    AsMapHas(items, p + 1);
    if x in AsMap(items) {
      var i := IndexOf(items, x);
    }
  }

  lemma RemoveInMap<V>(items: seq<Pair<V>>, p: nat)
    requires Framed(items) && p + 2 < |items|
    ensures var r := RemoveAt(items, p + 1);
      Framed(r) && AsMap(r) == AsMap(items) - {items[p + 1].key}
  {
    var r := RemoveAt(items, p + 1);
    var m := AsMap(items) - {items[p + 1].key};
    assert Framed(r);
    forall i | 0 <= i < |r| ensures r[i].key in m && m[r[i].key] == r[i].value {
      AsMapHas(items, if i <= p then i else i + 1);
    }
    forall x | x in m ensures exists i :: 0 <= i < |r| && r[i].key == x {
      var i := IndexOf(items, x);
      assert r[if i <= p then i else i - 1].key == x;
    }
    SameMap(r, m);
  }

  /** A list has as many entries as its map has keys. */
  lemma {:induction false} MapSize<V>(items: seq<Pair<V>>)
    requires Ascends(items)
    ensures |AsMap(items)| == |items|
  {
    if items != [] {
      var rest := items[..|items| - 1];
      var last := items[|items| - 1];
      MapSize(rest);
      if last.key in AsMap(rest) {
        var i := IndexOf(rest, last.key);
      }
      assert AsMap(items).Keys == AsMap(rest).Keys + {last.key};
    }
  }

  /** Which entries EraseUpTo keeps: the least one, and those in front of a key above ts. */
  lemma KeptByErase<V>(items: seq<Pair<V>>, i: nat, ts: Timestamp)
    requires Framed(items) && i < |items|
    ensures items[i].key in EraseUpTo(AsMap(items), ts) <==> i == 0 || (i + 1 < |items| ==> ts < items[i + 1].key)
  {
    AsMapHas(items, i);
    if i + 1 < |items| {
      AsMapHas(items, i + 1);
      assert items[i].key < items[i + 1].key;
    }
    forall y | y in AsMap(items) && items[i].key < y ensures i + 1 < |items| && items[i + 1].key <= y {
      var j := IndexOf(items, y);
      assert i < j;
    }
  }

  lemma EraseInMap<V>(items: seq<Pair<V>>, p: nat, ts: Timestamp)
    requires Framed(items) && 0 < p < |items| && (p == 1 || items[p].key <= ts)
    requires p + 1 < |items| ==> ts < items[p + 1].key
    ensures var r := CutTo(items, p); Framed(r) && AsMap(r) == EraseUpTo(AsMap(items), ts) && HasBounds(AsMap(r))
  {
    var r := CutTo(items, p);
    var m := EraseUpTo(AsMap(items), ts);
    assert Framed(r);
    forall i | 0 <= i < |items| ensures items[i].key in m <==> i == 0 || p <= i {
      KeptByErase(items, i, ts);
      assert p < i && i + 1 < |items| ==> items[p + 1].key < items[i + 1].key;
      assert i + 1 < p ==> items[i + 1].key < items[p].key;
    }
    forall i | 0 <= i < |r| ensures r[i].key in m && m[r[i].key] == r[i].value {
      AsMapHas(items, if i == 0 then 0 else p + i - 1);
    }
    forall x | x in m ensures exists i :: 0 <= i < |r| && r[i].key == x {
      var i := IndexOf(items, x);
      assert r[if i == 0 then 0 else i - p + 1].key == x;
    }
    SameMap(r, m);
    FramedHasBounds(r);
  }

  lemma AssignInMap<V>(items: seq<Pair<V>>, p: nat, v: V)
    requires Framed(items) && p < |items|
    ensures var r := items[p := Pair(items[p].key, v)];
      Framed(r) && items[p].key in AsMap(items) && AsMap(r) == AsMap(items)[items[p].key := v]
  {
    var r := items[p := Pair(items[p].key, v)];
    var m := AsMap(items)[items[p].key := v];
    forall i | 0 <= i < |items| ensures items[i].key in AsMap(items) && AsMap(items)[items[i].key] == items[i].value {
      AsMapHas(items, i);
    }
    assert Framed(r);
    forall x | x in m ensures exists i :: 0 <= i < |r| && r[i].key == x {
      var i := IndexOf(items, x);
      assert r[i].key == x;
    }
    SameMap(r, m);
  }

  class SkipList<V> {
    const head: Node<Pair<V>>
    var len: int
    ghost var nodes: seq<Node<Pair<V>>>
    ghost var items: seq<Pair<V>>
    /** The sorted map that the list stands for, sentinels included. */
    ghost var view: map<Timestamp, V>
    ghost var Repr: set<object>

    ghost predicate Valid()
      reads this, Repr
    {
      && this in Repr && (forall i :: 0 <= i < |nodes| ==> nodes[i] in Repr)
      && Linked(nodes) && Hold(nodes, items) && Framed(items)
      && head == nodes[0] && head.topLevel == MAX_LEVEL && len == |items| - 2
      && view == AsMap(items) && HasBounds(view)
    }

    /** `blank` is what the value of a sentinel holds after default construction. */
    constructor (blank: V)
      ensures Valid() && fresh(Repr)
      ensures view == map[MIN_TIMESTAMP := blank, MAX_TIMESTAMP := blank]
    {
      var first := new Node<Pair<V>>(Pair(MIN_TIMESTAMP, blank), MAX_LEVEL);
      var last := new Node<Pair<V>>(Pair(MAX_TIMESTAMP, blank), MAX_LEVEL);
      head := first;
      len := 0;
      nodes := [first, last];
      items := [Pair(MIN_TIMESTAMP, blank), Pair(MAX_TIMESTAMP, blank)];
      view := map[MIN_TIMESTAMP := blank, MAX_TIMESTAMP := blank];
      Repr := {this, first, last};
      new;
      Redirect(first, last);
      assert items[0].key == MIN_TIMESTAMP && items[1].key == MAX_TIMESTAMP;
      SameMap(items, map[MIN_TIMESTAMP := blank, MAX_TIMESTAMP := blank]);
    }

    method Size() returns (n: int)
      requires Valid()
      ensures n == |view| - 2
    {
      MapSize(items);
      n := len;
    }

    /** The search loop that find, insert and remove share. */
    method Search(bound: int) returns (node: Node<Pair<V>>, ghost p: nat)
      requires Valid()
      ensures p < |items| && node == nodes[p] && LinkAt(nodes, p) && node.item == items[p]
      ensures (0 < p || MIN_TIMESTAMP <= bound ==> items[p].key <= bound) && (p + 1 < |items| ==> bound < items[p + 1].key)
      ensures bound < MAX_TIMESTAMP ==> p + 1 < |items|
    {
      node, p := Descend(nodes, items, head, KeyOf, bound);
      Locate(items, bound);
    }

    /** `find` of the MVTIL list: the neighbours of a timestamp, its own version counting as below. */
    method FindAtOrBelow(searchKey: Timestamp) returns (prev: Node<Pair<V>>, curr: Node?<Pair<V>>)
      requires Valid()
      ensures prev in nodes
      ensures searchKey == MAX_TIMESTAMP ==> prev.item.key == MAX_TIMESTAMP && curr == null
      ensures searchKey < MAX_TIMESTAMP ==>
                && curr != null && curr in nodes
                && prev.item.key == Below(view, Sought(searchKey + 1)) && prev.item.value == view[prev.item.key]
                && curr.item.key == AtOrAbove(view, Sought(searchKey + 1)) && curr.item.value == view[curr.item.key]
    {
      ghost var p;
      prev, p := Search(searchKey);
      curr := prev.next[0];
      if searchKey < MAX_TIMESTAMP {
        NeighboursInMap(items, p, Sought(searchKey + 1));
      } else {
        LastIsMax(items, p);
      }
    }

    /** `find` of the MVTO+ list: the neighbours of a timestamp, its own version counting as above. */
    method FindBelow(searchKey: Timestamp) returns (prev: Node<Pair<V>>, curr: Node<Pair<V>>)
      requires Valid()
      ensures prev in nodes && curr in nodes
      ensures prev.item.key == Below(view, Sought(searchKey)) && prev.item.value == view[prev.item.key]
      ensures curr.item.key == AtOrAbove(view, Sought(searchKey)) && curr.item.value == view[curr.item.key]
    {
      ghost var p;
      prev, p := Search(searchKey - 1);
      curr := prev.next[0];
      NeighboursInMap(items, p, Sought(searchKey));
    }

    /** Links a new node in behind `node`. */
    method Attach(ghost p: nat, node: Node<Pair<V>>, pair: Pair<V>, level: nat)
      requires Valid() && p + 1 < |nodes| && node == nodes[p] && 1 <= level <= MAX_LEVEL
      requires Framed(Added(items, p, pair))
      modifies Repr
      ensures Valid() && fresh(Repr - old(Repr)) && items == Added(old(items), p, pair)
    {
      var insertNode := new Node(pair, level);
      Splice(nodes, items, p, node, insertNode);
      nodes := Added(nodes, p, insertNode);
      items := Added(items, p, pair);
      view := AsMap(items);
      FramedHasBounds(items);
      Repr := Repr + {insertNode};
      len := len + 1;
    }

    /** Adds only an absent key, at any level. */
    method Insert(searchKey: Timestamp, value: V, level: nat) returns (result: int)
      requires Valid() && MIN_TIMESTAMP <= searchKey && 1 <= level <= MAX_LEVEL
      modifies Repr
      ensures Valid() && fresh(Repr - old(Repr))
      ensures result == if searchKey in old(view) then 0 else 1
      ensures view == if searchKey in old(view) then old(view) else old(view)[searchKey := value]
    {
      ghost var p;
      var node;
      node, p := Search(searchKey);
      result := if node.item.key != searchKey then 1 else 0;
      if result == 1 {
        KeyInMap(items, p, searchKey);
        InsertInMap(items, p, Pair(searchKey, value));
        Attach(p, node, Pair(searchKey, value), level);
      } else {
        AsMapHas(items, p);
      }
    }

    /** Takes the node behind `node` out. */
    method Detach(ghost p: nat, node: Node<Pair<V>>)
      requires Valid() && p + 2 < |nodes| && node == nodes[p]
      requires Framed(RemoveAt(items, p + 1))
      modifies Repr
      ensures Valid() && Repr == old(Repr) && items == RemoveAt(old(items), p + 1)
    {
      Unlink(nodes, items, p, node);
      nodes := RemoveAt(nodes, p + 1);
      items := RemoveAt(items, p + 1);
      view := AsMap(items);
      FramedHasBounds(items);
      len := len - 1;
    }

    /** Removes a key other than a sentinel's. */
    method Remove(searchKey: Timestamp) returns (result: int)
      requires Valid() && searchKey < MAX_TIMESTAMP
      modifies Repr
      ensures Valid() && Repr == old(Repr)
      ensures result == if searchKey in old(view) && MIN_TIMESTAMP < searchKey then 1 else 0
      ensures view == if result == 1 then old(view) - {searchKey} else old(view)
    {
      ghost var p;
      var node;
      node, p := Search(searchKey - 1);
      RemoveTarget(items, p, searchKey);
      assert LinkAt(nodes, p + 1);
      var nextNode := node.next[0];
      result := if nextNode.item.key == searchKey then 1 else 0;
      if result == 1 {
        RemoveInMap(items, p);
        Detach(p, node);
      }
    }

    /** Points the head to `node`, past everything in front of it; `left` is the map of what is left. */
    method Cut(ghost p: nat, node: Node<Pair<V>>, ghost left: map<Timestamp, V>)
      requires this in Repr && (forall i :: 0 <= i < |nodes| ==> nodes[i] in Repr)
      requires Linked(nodes) && Hold(nodes, items) && head.topLevel == MAX_LEVEL
      requires 0 < p < |nodes| && node == nodes[p] && head == nodes[0] && len == |items| - 1 - p
      requires Framed(CutTo(items, p)) && left == AsMap(CutTo(items, p)) && HasBounds(left)
      modifies `nodes, `items, `view, head
      ensures Valid() && view == left
    {
      assert LinkAt(nodes, 0);
      assert LinkedBut(nodes, 0);
      Redirect(head, node);
      assert LinkedBut(nodes, 0);
      CutIsLinked(nodes, items, p);
      nodes := CutTo(nodes, p);
      items := CutTo(items, p);
      view := left;
    }

    /** The loop of erase: passes, and discounts, the nodes in front of a key at or below searchKey. */
    method Pass(searchKey: Timestamp) returns (node: Node<Pair<V>>, ghost p: nat)
      requires Valid()
      modifies `len
      ensures 0 < p < |nodes| && node == nodes[p] && len == |items| - 1 - p
      ensures (p == 1 || items[p].key <= searchKey) && (p + 1 < |items| ==> searchKey < items[p + 1].key)
      ensures Linked(nodes) && Hold(nodes, items)
    {
      assert LinkAt(nodes, 0) && LinkAt(nodes, 1);
      node := head.next[0];
      p := 1;
      while node.next[0] != null && node.next[0].item.key <= searchKey
        invariant 0 < p < |nodes| && |nodes| == |items| && node == nodes[p] && len == |items| - 1 - p
        invariant p == 1 || items[p].key <= searchKey
        invariant Linked(nodes) && Hold(nodes, items) && LinkAt(nodes, p)
        decreases |nodes| - p
      {
        node := node.next[0];
        p := p + 1;
        len := len - 1;
      }
    }

    /** Drops every entry that a newer one at or below searchKey supersedes. */
    method Erase(searchKey: Timestamp)
      requires Valid()
      modifies Repr
      ensures Valid() && unchanged(`Repr)
      ensures view == EraseUpTo(old(view), searchKey)
    {
      var node;
      ghost var p;
      node, p := Pass(searchKey);
      EraseInMap(items, p, searchKey);
      Cut(p, node, EraseUpTo(view, searchKey));
    }

    /** Overwrites the value of an entry in place. */
    method Assign(node: Node<Pair<V>>, value: V)
      requires Valid() && node in nodes
      modifies Repr
      ensures Valid() && Repr == old(Repr) && nodes == old(nodes)
      ensures node.item.key == old(node.item.key) && old(node.item.key) in old(view)
      ensures view == old(view)[old(node.item.key) := value]
    {
      ghost var p :| 0 <= p < |nodes| && nodes[p] == node;
      AssignInMap(items, p, value);
      SetItem(p, node, value);
      view := AsMap(items);
      FramedHasBounds(items);
    }

    method SetItem(ghost p: nat, node: Node<Pair<V>>, value: V)
      requires Valid() && p < |nodes| && nodes[p] == node
      modifies this`items, node`item
      ensures Linked(nodes) && Hold(nodes, items) && items == old(items)[p := Pair(old(items)[p].key, value)]
    {
      node.item := node.item.(value := value);
      items := items[p := Pair(items[p].key, value)];
      forall i | 0 <= i < |nodes| ensures LinkAt(nodes, i) {
        assert old(LinkAt(nodes, i));
      }
    }
  }
}
