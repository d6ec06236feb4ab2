/**
  The linked nodes that the skip lists and the lock lists are made of. A node has `topLevel` level pointers, and
  all of them lead to its immediate successor; this is what insertion and removal keep up.
 */
module Links {
  import opened Common
  import opened LinearSearch

  const MAX_LEVEL := 4

  class Node<T> {
    var item: T
    const topLevel: nat
    var next: seq<Node?<T>>

    constructor (item: T, topLevel: nat)
      ensures this.item == item && this.topLevel == topLevel
      ensures next == seq(MAX_LEVEL, _ => null)
    {
      this.item := item;
      this.topLevel := topLevel;
      this.next := seq(MAX_LEVEL, _ => null);
    }
  }

  /** Every level pointer of the node below its top level leads to `successor`; the others are null. */
  ghost predicate PointsTo<T>(node: Node<T>, successor: Node?<T>)
    reads node
  {
    && 1 <= node.topLevel <= MAX_LEVEL && |node.next| == MAX_LEVEL
    && forall l :: 0 <= l < MAX_LEVEL ==> node.next[l] == if l < node.topLevel then successor else null
  }

  /** The node at i leads to the one behind it, or nowhere from the end. */
  ghost predicate LinkAt<T>(nodes: seq<Node<T>>, i: nat)
    requires i < |nodes|
    reads nodes[i]
  {
    PointsTo(nodes[i], if i + 1 < |nodes| then nodes[i + 1] else null)
  }

  /** The nodes form a chain without repetition: from the head to a tail that points nowhere. */
  ghost predicate Linked<T>(nodes: seq<Node<T>>)
    reads nodes
  {
    && (forall i, j :: 0 <= i < j < |nodes| ==> nodes[i] != nodes[j])
    && forall i :: 0 <= i < |nodes| ==> LinkAt(nodes, i)
  }

  /** The nodes hold these items, in order. */
  ghost predicate Hold<T>(nodes: seq<Node<T>>, items: seq<T>)
    reads nodes
  {
    |nodes| == |items| && forall i :: 0 <= i < |nodes| ==> nodes[i].item == items[i]
  }

  ghost function Keys<T>(items: seq<T>, key: T -> int): (keys: seq<int>)
    ensures |keys| == |items|
    ensures forall i :: 0 <= i < |items| ==> keys[i] == key(items[i])
  {
    seq(|items|, i requires 0 <= i < |items| => key(items[i]))
  }

  /**
    The multi-level search: descend from the head's top level, moving on while the next key does not exceed the
    bound. It stops where a walk along the list would, whatever the levels are and whether or not the keys ascend.
   */
  method Descend<T>(ghost nodes: seq<Node<T>>, ghost items: seq<T>, head: Node<T>, key: T -> int, bound: int)
    returns (node: Node<T>, ghost p: nat)
    requires nodes != [] && head == nodes[0] && Linked(nodes) && Hold(nodes, items)
    ensures p == Stop(Keys(items, key), bound, 0) && node == nodes[p] && LinkAt(nodes, p)
  {
    node, p := head, 0;
    assert LinkAt(nodes, p);
    var level: int := head.topLevel - 1;
    while 0 <= level
      invariant -1 <= level < MAX_LEVEL && p < |nodes| && node == nodes[p] && LinkAt(nodes, p)
      invariant forall i :: 0 < i <= p ==> key(items[i]) <= bound
      invariant level == -1 && p + 1 < |nodes| ==> bound < key(items[p + 1])
    {
      while node.next[level] != null && key(node.next[level].item) <= bound
        invariant p < |nodes| && node == nodes[p] && LinkAt(nodes, p)
        invariant forall i :: 0 < i <= p ==> key(items[i]) <= bound
        decreases |nodes| - p
      {
        node, p := node.next[level], p + 1;
      }
      level := level - 1;
    }
    StopIs(Keys(items, key), bound, 0, p);
  }

  /** Points every level of a node to `target`. */
  method Redirect<T>(node: Node<T>, target: Node?<T>)
    requires 1 <= node.topLevel <= MAX_LEVEL && |node.next| == MAX_LEVEL
    requires forall l :: node.topLevel <= l < MAX_LEVEL ==> node.next[l] == null
    modifies node`next
    ensures PointsTo(node, target)
  {
    var i := 0;
    while i < node.topLevel
      invariant 0 <= i <= node.topLevel && |node.next| == MAX_LEVEL
      invariant forall l :: 0 <= l < i ==> node.next[l] == target
      invariant forall l :: node.topLevel <= l < MAX_LEVEL ==> node.next[l] == null
    {
      node.next := node.next[i := target];
      i := i + 1;
    }
  }

  /** Every node but the one at p points to its successor. */
  ghost predicate LinkedBut<T>(nodes: seq<Node<T>>, p: nat)
    reads nodes
  {
    && (forall i, j :: 0 <= i < j < |nodes| ==> nodes[i] != nodes[j])
    && forall i :: 0 <= i < |nodes| && i != p ==> LinkAt(nodes, i)
  }

  lemma AddedIsLinked<T>(nodes: seq<Node<T>>, items: seq<T>, p: nat, added: Node<T>)
    requires LinkedBut(nodes, p) && Hold(nodes, items) && p + 1 < |nodes| && added !in nodes
    requires PointsTo(nodes[p], added) && PointsTo(added, nodes[p + 1])
    ensures Linked(Added(nodes, p, added)) && Hold(Added(nodes, p, added), Added(items, p, added.item))
  {
    var r := Added(nodes, p, added);
    forall i | 0 <= i < |r| ensures LinkAt(r, i) {
      assert i < p ==> LinkAt(nodes, i);
      assert i > p + 1 ==> LinkAt(nodes, i - 1);
    }
  }

  /** Puts a new node behind `node`. */
  method Splice<T>(ghost nodes: seq<Node<T>>, ghost items: seq<T>, ghost p: nat, node: Node<T>, added: Node<T>)
    requires Linked(nodes) && Hold(nodes, items) && p + 1 < |nodes| && node == nodes[p]
    requires added !in nodes && PointsTo(added, null)
    modifies node`next, added`next
    ensures Linked(Added(nodes, p, added)) && Hold(Added(nodes, p, added), Added(items, p, added.item))
  {
    assert LinkAt(nodes, p);
    var successor := node.next[0];
    assert LinkedBut(nodes, p);
    Redirect(node, added);
    assert LinkedBut(nodes, p);
    Redirect(added, successor);
    assert LinkedBut(nodes, p);
    AddedIsLinked(nodes, items, p, added);
  }

  lemma DroppedIsLinked<T>(nodes: seq<Node<T>>, items: seq<T>, p: nat)
    requires LinkedBut(nodes, p) && Hold(nodes, items) && p + 2 < |nodes| && PointsTo(nodes[p], nodes[p + 2])
    ensures Linked(RemoveAt(nodes, p + 1)) && Hold(RemoveAt(nodes, p + 1), RemoveAt(items, p + 1))
  {
    var r := RemoveAt(nodes, p + 1);
    forall i | 0 <= i < |r| ensures LinkAt(r, i) {
      assert i < p ==> LinkAt(nodes, i);
      assert i > p ==> LinkAt(nodes, i + 1);
    }
  }

  /** Takes the node behind `node` out. */
  method Unlink<T>(ghost nodes: seq<Node<T>>, ghost items: seq<T>, ghost p: nat, node: Node<T>)
    requires Linked(nodes) && Hold(nodes, items) && p + 2 < |nodes| && node == nodes[p]
    modifies node`next
    ensures Linked(RemoveAt(nodes, p + 1)) && Hold(RemoveAt(nodes, p + 1), RemoveAt(items, p + 1))
  {
    assert LinkedBut(nodes, p) && LinkAt(nodes, p) && LinkAt(nodes, p + 1);
    Redirect(node, node.next[0].next[0]);
    assert LinkedBut(nodes, p);
    DroppedIsLinked(nodes, items, p);
  }

  /** What is left when the head points past the nodes in front of position p. */
  lemma CutIsLinked<T>(nodes: seq<Node<T>>, items: seq<T>, p: nat)
    requires LinkedBut(nodes, 0) && Hold(nodes, items) && 0 < p < |nodes| && PointsTo(nodes[0], nodes[p])
    ensures Linked(CutTo(nodes, p)) && Hold(CutTo(nodes, p), CutTo(items, p))
  {
    var r := CutTo(nodes, p);
    forall i | 0 <= i < |r| ensures LinkAt(r, i) {
      assert i > 0 ==> LinkAt(nodes, p + i - 1);
    }
  }
}
