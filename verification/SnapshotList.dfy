/** The circular list of snapshots (db/snapshot.h): oldest first, behind a dummy head. */
module SnapshotLists {

  class SnapshotImpl {
    const number: nat
    var prev: SnapshotImpl
    var next: SnapshotImpl

    constructor (number: nat)
      ensures this.number == number && prev == next == this
    {
      this.number, prev, next := number, this, this;
    }
  }

  /** The neighbours of position i on a circle of n. */
  function After(i: nat, n: nat): nat
    requires i < n
  {
    if i + 1 < n then i + 1 else 0
  }

  function Behind(i: nat, n: nat): nat
    requires i < n
  {
    if i > 0 then i - 1 else n - 1
  }

  predicate Distinct<T(==)>(s: seq<T>) {
    forall i, j | 0 <= i < |s| && 0 <= j < |s| && i != j :: s[i] != s[j]
  }

  predicate Ascending(s: seq<nat>) {
    forall i, j | 0 <= i < j < |s| :: s[i] <= s[j]
  }

  /** Node i points to its neighbours. */
  predicate Linked<T(==)>(nodes: seq<T>, nexts: seq<T>, prevs: seq<T>, i: nat)
    requires i < |nodes| == |nexts| == |prevs|
  {
    nexts[i] == nodes[After(i, |nodes|)] && prevs[i] == nodes[Behind(i, |nodes|)]
  }

  predicate IsCircle<T(==)>(nodes: seq<T>, nexts: seq<T>, prevs: seq<T>) {
    && |nodes| == |nexts| == |prevs| > 0
    && forall i | 0 <= i < |nodes| :: Linked(nodes, nexts, prevs, i)
  }

  /** A new node between the last one and the head. */
  lemma CircleGrows<T>(nodes: seq<T>, nexts: seq<T>, prevs: seq<T>, node: T)
    requires IsCircle(nodes, nexts, prevs)
    ensures var n := |nodes|; IsCircle(nodes + [node], nexts[n - 1 := node] + [nodes[0]], prevs[0 := node] + [nodes[n - 1]])
  {
    var n := |nodes|;
    var c, a, b := nodes + [node], nexts[n - 1 := node] + [nodes[0]], prevs[0 := node] + [nodes[n - 1]];
    forall i | 0 <= i < n + 1 ensures Linked(c, a, b, i) {
      if i < n { assert Linked(nodes, nexts, prevs, i); }
    }
  }

  /** Without node i its neighbours point to each other. */
  lemma CircleShrinks<T>(nodes: seq<T>, nexts: seq<T>, prevs: seq<T>, i: nat)
    requires IsCircle(nodes, nexts, prevs) && 1 <= i < |nodes|
    ensures var n := |nodes|;
      var a, b := nexts[i - 1 := nodes[After(i, n)]], prevs[After(i, n) := nodes[i - 1]];
      IsCircle(nodes[..i] + nodes[i + 1..], a[..i] + a[i + 1..], b[..i] + b[i + 1..])
  {
    var n := |nodes|;
    var a, b := nexts[i - 1 := nodes[After(i, n)]], prevs[After(i, n) := nodes[i - 1]];
    var c, a', b' := nodes[..i] + nodes[i + 1..], a[..i] + a[i + 1..], b[..i] + b[i + 1..];
    forall k | 0 <= k < n - 1 ensures Linked(c, a', b', k) {
      assert Linked(nodes, nexts, prevs, if k < i then k else k + 1);
    }
  }

  lemma AscendingGrows(s: seq<nat>, x: nat)
    requires Ascending(s) && (s != [] ==> s[|s| - 1] <= x)
    ensures Ascending(s + [x])
  {
  }

  lemma AscendingShrinks(s: seq<nat>, i: nat)
    requires Ascending(s) && i < |s|
    ensures Ascending(s[..i] + s[i + 1..])
  {
  }

  class SnapshotList {
    const head: SnapshotImpl
    /** The nodes of the circle, from the head on, and where their pointers lead. */
    ghost var nodes: seq<SnapshotImpl>
    ghost var nexts: seq<SnapshotImpl>
    ghost var prevs: seq<SnapshotImpl>
    /** The numbers of the live snapshots. */
    ghost var contents: seq<nat>

    ghost predicate Tracked()
      reads this, nodes
    {
      && |nodes| == |nexts| == |prevs| == |contents| + 1 && nodes[0] == head && Distinct(nodes)
      && (forall i | 0 <= i < |nodes| :: nodes[i].next == nexts[i])
      && (forall i | 0 <= i < |nodes| :: nodes[i].prev == prevs[i])
      && (forall i | 1 <= i < |nodes| :: nodes[i].number == contents[i - 1])
    }

    ghost predicate Valid()
      reads this, nodes
    {
      Tracked() && IsCircle(nodes, nexts, prevs) && Ascending(contents)
    }

    constructor ()
      ensures Valid() && fresh(nodes) && contents == []
    {
      var node := new SnapshotImpl(0);
      head, nodes, nexts, prevs, contents := node, [node], [node], [node], [];
    }

    method Empty() returns (empty: bool)
      requires Valid()
      ensures empty == (contents == [])
    {
      assert Linked(nodes, nexts, prevs, 0) && nodes[0].next == nexts[0];
      empty := head.next == head;
    }

    /** The smallest live number: what a compaction takes as its smallest snapshot. */
    method Oldest() returns (node: SnapshotImpl)
      requires Valid() && contents != []
      ensures node == nodes[1] && node.number == contents[0] && forall s | s in contents :: node.number <= s
    {
      assert Linked(nodes, nexts, prevs, 0) && nodes[0].next == nexts[0];
      node := head.next;
    }

    method Newest() returns (node: SnapshotImpl)
      requires Valid() && contents != []
      ensures node == nodes[|nodes| - 1] && node.number == contents[|contents| - 1] && forall s | s in contents :: s <= node.number
    {
      assert Linked(nodes, nexts, prevs, 0) && nodes[0].prev == prevs[0];
      node := head.prev;
    }

    /** One pointer store, into node i. */
    method SetNext(node: SnapshotImpl, target: SnapshotImpl, ghost i: nat)
      requires Tracked() && i < |nodes| && nodes[i] == node
      modifies node`next, `nexts
      ensures Tracked() && nexts == old(nexts)[i := target]
    {
      node.next := target;
      nexts := nexts[i := target];
    }

    method SetPrev(node: SnapshotImpl, target: SnapshotImpl, ghost i: nat)
      requires Tracked() && i < |nodes| && nodes[i] == node
      modifies node`prev, `prevs
      ensures Tracked() && prevs == old(prevs)[i := target]
    {
      node.prev := target;
      prevs := prevs[i := target];
    }

    /** Append a snapshot; its number is not below the newest one. */
    method New(number: nat) returns (node: SnapshotImpl)
      requires Valid() && (contents != [] ==> contents[|contents| - 1] <= number)
      modifies this, nodes
      ensures Valid() && nodes == old(nodes) + [node] && fresh(node) && node.number == number
      ensures contents == old(contents) + [number]
    {
      assert Linked(nodes, nexts, prevs, 0) && nodes[0].prev == prevs[0];
      node := new SnapshotImpl(number);
      node.next := head;
      node.prev := head.prev;
      LinkLast(node);
    }

    /** The last two stores of New: the neighbours of the new node point to it. */
    method LinkLast(node: SnapshotImpl)
      requires Valid() && node !in nodes && node.next == head && node.prev == nodes[|nodes| - 1]
      requires contents != [] ==> contents[|contents| - 1] <= node.number
      modifies this, nodes
      ensures Valid() && nodes == old(nodes) + [node] && contents == old(contents) + [node.number]
    {
      ghost var n := |nodes|;
      CircleGrows(nodes, nexts, prevs, node);
      AscendingGrows(contents, node.number);
      SetNext(node.prev, node, n - 1);
      SetPrev(node.next, node, 0);
      Remember(node);
    }

    /** A node whose pointers are in place joins the circle. */
    ghost method Remember(node: SnapshotImpl)
      requires Tracked() && node !in nodes
      modifies this
      ensures Tracked()
      ensures nodes == old(nodes) + [node] && contents == old(contents) + [node.number]
      ensures nexts == old(nexts) + [node.next] && prevs == old(prevs) + [node.prev]
    {
      nodes, nexts, prevs, contents := nodes + [node], nexts + [node.next], prevs + [node.prev], contents + [node.number];
    }

    /** Take a snapshot out; it is node i of the circle. */
    method Delete(node: SnapshotImpl, ghost i: nat)
      requires Valid() && 1 <= i < |nodes| && nodes[i] == node
      modifies this, nodes
      ensures Valid() && nodes == old(nodes[..i] + nodes[i + 1..])
      ensures contents == old(contents[..i - 1] + contents[i..])
    {
      ghost var n := |nodes|;
      assert Linked(nodes, nexts, prevs, i) && node.prev == prevs[i] && node.next == nexts[i];
      CircleShrinks(nodes, nexts, prevs, i);
      AscendingShrinks(contents, i - 1);
      SetNext(node.prev, node.next, i - 1);
      assert node.prev == prevs[i] && node.next == nexts[i];
      SetPrev(node.next, node.prev, After(i, n));
      Forget(i);
    }

    /** Nothing points to node i any more. */
    ghost method Forget(i: nat)
      requires Tracked() && 1 <= i < |nodes|
      modifies this
      ensures Tracked()
      ensures nodes == old(nodes[..i] + nodes[i + 1..]) && contents == old(contents[..i - 1] + contents[i..])
      ensures nexts == old(nexts[..i] + nexts[i + 1..]) && prevs == old(prevs[..i] + prevs[i + 1..])
    {
      nodes, nexts, prevs, contents :=
        nodes[..i] + nodes[i + 1..], nexts[..i] + nexts[i + 1..], prevs[..i] + prevs[i + 1..], contents[..i - 1] + contents[i..];
    }
  }
}
