/**
 The memtable's skip list and a reader that runs while a node is being linked in (db/skiplist.h).
 Nodes live in an arena and are never freed; a pointer is an index into it, and node 0 is the head.
 */
module SkipLists {
  import opened Options
  import opened Entries
  import opened Memtables

  const MAX_HEIGHT: nat := 12

  type Id = nat

  /** A node; its height is the number of its links. */
  datatype Node = Node(key: Entry, next: seq<Option<Id>>)

  /** The memory a reader can look at, and the list each level stands for. */
  datatype Memory = Memory(nodes: seq<Node>, maxHeight: nat, chains: seq<seq<Id>>)

  // ---- One level ----

  /** The node at position i of a level, where the head is at position 0. */
  function At(c: seq<Id>, i: nat): Id
    requires i <= |c|
  {
    if i == 0 then 0 else c[i - 1]
  }

  function After(c: seq<Id>, i: nat): Option<Id>
    requires i <= |c|
  {
    if i < |c| then Some(c[i]) else None
  }

  ghost predicate InArena(nodes: seq<Node>, c: seq<Id>) {
    forall i | 0 <= i < |c| :: 0 < c[i] < |nodes|
  }

  /** The nodes linked at level l, from the head on, are those of c, with strictly ascending keys. */
  ghost predicate Chain(nodes: seq<Node>, l: nat, c: seq<Id>) {
    && InArena(nodes, c) && nodes != []
    && (forall i | 0 <= i <= |c| :: l < |nodes[At(c, i)].next| && nodes[At(c, i)].next[l] == After(c, i))
    && (forall i, j | 0 <= i < j < |c| :: Lt(nodes[c[i]].key, nodes[c[j]].key))
  }

  ghost predicate Sublevel(chains: seq<seq<Id>>, l: nat)
    requires 0 < l < |chains|
  {
    forall id | id in chains[l] :: id in chains[l - 1]
  }

  /** Each level is a strictly sorted sublist of the level below; levels not in use are empty. */
  ghost predicate Ok(m: Memory) {
    && |m.chains| == MAX_HEIGHT && 1 <= m.maxHeight <= MAX_HEIGHT
    && (forall l | 0 <= l < MAX_HEIGHT :: Chain(m.nodes, l, m.chains[l]))
    && (forall l | 0 < l < MAX_HEIGHT :: Sublevel(m.chains, l))
    && (forall l | m.maxHeight <= l < MAX_HEIGHT :: m.chains[l] == [])
  }

  /** A later memory: nodes keep their keys, levels only gain nodes. */
  ghost predicate Grows(m: Memory, m': Memory) {
    && |m.nodes| <= |m'.nodes|
    && (forall id | 0 <= id < |m.nodes| :: m'.nodes[id].key == m.nodes[id].key && |m'.nodes[id].next| == |m.nodes[id].next|)
    && |m.chains| == |m'.chains| && forall l, id | 0 <= l < |m.chains| && id in m.chains[l] :: id in m'.chains[l]
  }

  /** The keys of level 0, in order. */
  ghost function Keys(nodes: seq<Node>, c: seq<Id>): (r: seq<Entry>)
    requires InArena(nodes, c)
    ensures |r| == |c|
  {
    if c == [] then [] else Keys(nodes, c[..|c| - 1]) + [nodes[c[|c| - 1]].key]
  }

  lemma {:induction false} KeyAt(nodes: seq<Node>, c: seq<Id>, i: nat)
    requires InArena(nodes, c) && i < |c|
    ensures Keys(nodes, c)[i] == nodes[c[i]].key
  {
    if i < |c| - 1 { KeyAt(nodes, c[..|c| - 1], i); }
  }

  ghost function Contents(m: Memory): seq<Entry>
    requires Ok(m)
  {
    Keys(m.nodes, m.chains[0])
  }

  /** Position p of the level is the last one before the key: what a linear scan finds. */
  ghost predicate LastBefore(nodes: seq<Node>, c: seq<Id>, p: nat, key: Entry)
    requires InArena(nodes, c)
  {
    && p <= |c| && (forall i | 0 <= i < p :: Lt(nodes[c[i]].key, key))
    && (forall i | p <= i < |c| :: !Lt(nodes[c[i]].key, key))
  }

  /** Where in the level a node of it stands. */
  lemma PositionOf(nodes: seq<Node>, l: nat, c: seq<Id>, x: Id) returns (p: nat)
    requires Chain(nodes, l, c) && (x == 0 || x in c)
    ensures p <= |c| && At(c, p) == x && (p == 0 <==> x == 0)
  {
    if x == 0 {
      p := 0;
    } else {
      var i :| 0 <= i < |c| && c[i] == x;
      p := i + 1;
    }
  }

  /** Standing before the key with no earlier-key node next, a level has been searched. */
  lemma SearchedLevel(nodes: seq<Node>, l: nat, c: seq<Id>, p: nat, key: Entry)
    requires Chain(nodes, l, c) && InArena(nodes, c) && p <= |c|
    requires p > 0 ==> Lt(nodes[c[p - 1]].key, key)
    requires p < |c| ==> !Lt(nodes[c[p]].key, key)
    ensures LastBefore(nodes, c, p, key)
  {
  }

  // ---- One store ----

  function SetNext(nodes: seq<Node>, x: Id, l: nat, v: Option<Id>): seq<Node>
    requires x < |nodes| && l < |nodes[x].next|
  {
    nodes[x := nodes[x].(next := nodes[x].next[l := v])]
  }

  /** A link of another level, or of a node that is not in the chain, makes no difference. */
  lemma OtherLink(nodes: seq<Node>, l: nat, c: seq<Id>, x: Id, m: nat, v: Option<Id>)
    requires Chain(nodes, l, c) && x < |nodes| && m < |nodes[x].next| && (m != l || (x > 0 && x !in c))
    ensures Chain(SetNext(nodes, x, m, v), l, c)
  {
    var nodes' := SetNext(nodes, x, m, v);
    forall i | 0 <= i <= |c| ensures l < |nodes'[At(c, i)].next| && nodes'[At(c, i)].next[l] == After(c, i) {
      assert nodes[At(c, i)].next[l] == After(c, i);
      assert i > 0 ==> At(c, i) in c;
    }
    assert forall i | 0 <= i < |c| :: At(c, i + 1) == c[i];
  }

  function InsertAt(c: seq<Id>, p: nat, x: Id): seq<Id>
    requires p <= |c|
  {
    c[..p] + [x] + c[p..]
  }

  /** The second store of a level: the node is linked in behind its predecessor. */
  lemma LinkIn(nodes: seq<Node>, l: nat, c: seq<Id>, p: nat, x: Id)
    requires Chain(nodes, l, c) && 0 < x < |nodes| && x !in c && l < |nodes[x].next|
    requires InArena(nodes, c) && LastBefore(nodes, c, p, nodes[x].key)
    requires p < |c| ==> nodes[c[p]].key.user != nodes[x].key.user || nodes[c[p]].key.sn != nodes[x].key.sn
    requires nodes[x].next[l] == After(c, p)
    ensures At(c, p) < |nodes| && l < |nodes[At(c, p)].next|
    ensures Chain(SetNext(nodes, At(c, p), l, Some(x)), l, InsertAt(c, p, x))
  {
    assert At(c, p) < |nodes| && l < |nodes[At(c, p)].next|;
    var (nodes', c') := (SetNext(nodes, At(c, p), l, Some(x)), InsertAt(c, p, x));
    forall i | 0 <= i <= |c'| ensures At(c', i) < |nodes'| && l < |nodes'[At(c', i)].next| && nodes'[At(c', i)].next[l] == After(c', i) {
      LinkAt(nodes, l, c, p, x, i);
    }
    forall i, j | 0 <= i < j < |c'| ensures Lt(nodes'[c'[i]].key, nodes'[c'[j]].key) {
      KeyOrder(nodes, l, c, p, x, i, j);
    }
    assert forall i | 0 <= i < |c'| :: c'[i] == x || c'[i] in c;
  }

  lemma LinkAt(nodes: seq<Node>, l: nat, c: seq<Id>, p: nat, x: Id, i: nat)
    requires Chain(nodes, l, c) && 0 < x < |nodes| && x !in c && l < |nodes[x].next| && p <= |c| && i <= |c| + 1
    requires nodes[x].next[l] == After(c, p)
    requires At(c, p) < |nodes| && l < |nodes[At(c, p)].next|
    ensures var (nodes', c') := (SetNext(nodes, At(c, p), l, Some(x)), InsertAt(c, p, x));
      At(c', i) < |nodes'| && l < |nodes'[At(c', i)].next| && nodes'[At(c', i)].next[l] == After(c', i)
  {
    var c' := InsertAt(c, p, x);
    if i < p {
      assert At(c', i) == At(c, i) && After(c', i) == After(c, i);
      DistinctPlaces(nodes, l, c, i, p);
    } else if i == p {
      assert At(c', i) == At(c, i) && After(c', i) == Some(x);
    } else if i == p + 1 {
      assert At(c', i) == x && After(c', i) == After(c, p);
      assert At(c, p) != x by { assert p > 0 ==> At(c, p) in c; }
    } else {
      assert At(c', i) == At(c, i - 1) && After(c', i) == After(c, i - 1);
      DistinctPlaces(nodes, l, c, p, i - 1);
    }
  }

  lemma DistinctPlaces(nodes: seq<Node>, l: nat, c: seq<Id>, i: nat, j: nat)
    requires Chain(nodes, l, c) && i < j <= |c|
    ensures At(c, i) != At(c, j)
  {
    if i > 0 { assert Lt(nodes[c[i - 1]].key, nodes[c[j - 1]].key); }
  }

  lemma KeyOrder(nodes: seq<Node>, l: nat, c: seq<Id>, p: nat, x: Id, i: nat, j: nat)
    requires Chain(nodes, l, c) && x < |nodes| && InArena(nodes, c) && LastBefore(nodes, c, p, nodes[x].key)
    requires p < |c| ==> nodes[c[p]].key.user != nodes[x].key.user || nodes[c[p]].key.sn != nodes[x].key.sn
    requires i < j <= |c|
    ensures var c' := InsertAt(c, p, x); c'[i] < |nodes| && c'[j] < |nodes| && Lt(nodes[c'[i]].key, nodes[c'[j]].key)
  {
    var c' := InsertAt(c, p, x);
    assert forall k | 0 <= k < |c| :: c[k] in c;
    if i == p {
      assert c'[j] == c[j - 1] && (j - 1 > p ==> Lt(nodes[c[p]].key, nodes[c[j - 1]].key));
    }
  }

  // ---- The stores of an insertion ----

  lemma NewHeight(m: Memory, height: nat)
    requires Ok(m) && m.maxHeight <= height <= MAX_HEIGHT
    ensures Ok(m.(maxHeight := height)) && Grows(m, m.(maxHeight := height))
  {
  }

  lemma NewNode(m: Memory, node: Node)
    requires Ok(m)
    ensures Ok(m.(nodes := m.nodes + [node])) && Grows(m, m.(nodes := m.nodes + [node]))
  {
    var nodes := m.nodes + [node];
    forall l | 0 <= l < MAX_HEIGHT ensures Chain(nodes, l, m.chains[l]) {
      ChainKept(m.nodes, nodes, l, m.chains[l]);
    }
  }

  lemma ChainKept(nodes: seq<Node>, nodes': seq<Node>, l: nat, c: seq<Id>)
    requires Chain(nodes, l, c) && nodes <= nodes'
    ensures Chain(nodes', l, c)
  {
    assert forall i | 0 <= i <= |c| :: nodes'[At(c, i)] == nodes[At(c, i)];
  }

  /** A node not yet in level l may change its own link there. */
  lemma OwnLink(m: Memory, x: Id, l: nat, v: Option<Id>)
    requires Ok(m) && 0 < x < |m.nodes| && l < |m.nodes[x].next| && l < MAX_HEIGHT && x !in m.chains[l]
    ensures var m' := m.(nodes := SetNext(m.nodes, x, l, v)); Ok(m') && Grows(m, m')
  {
    forall k | 0 <= k < MAX_HEIGHT ensures Chain(SetNext(m.nodes, x, l, v), k, m.chains[k]) {
      OtherLink(m.nodes, k, m.chains[k], x, l, v);
    }
  }

  /** Node x may be linked in at position p of level l. */
  ghost predicate CanLink(m: Memory, x: Id, l: nat, p: nat)
    requires Ok(m)
  {
    && 0 < x < |m.nodes| && l < m.maxHeight && l < |m.nodes[x].next| && x !in m.chains[l] && (l > 0 ==> x in m.chains[l - 1])
    && LastBefore(m.nodes, m.chains[l], p, m.nodes[x].key) && m.nodes[x].next[l] == After(m.chains[l], p)
    && (p < |m.chains[l]| ==> !SameKey(m.nodes[m.chains[l][p]].key, m.nodes[x].key))
  }

  predicate SameKey(a: Entry, b: Entry) {
    a.user == b.user && a.sn == b.sn
  }

  function Linked(m: Memory, x: Id, l: nat, p: nat): Memory
    requires l < |m.chains| && p <= |m.chains[l]| && At(m.chains[l], p) < |m.nodes| && l < |m.nodes[At(m.chains[l], p)].next|
  {
    m.(nodes := SetNext(m.nodes, At(m.chains[l], p), l, Some(x)), chains := m.chains[l := InsertAt(m.chains[l], p, x)])
  }

  lemma Predecessor(m: Memory, l: nat, p: nat)
    requires Ok(m) && l < MAX_HEIGHT && p <= |m.chains[l]|
    ensures At(m.chains[l], p) < |m.nodes| && l < |m.nodes[At(m.chains[l], p)].next|
    ensures m.nodes[At(m.chains[l], p)].next[l] == After(m.chains[l], p)
  {
    assert Chain(m.nodes, l, m.chains[l]);
  }

  lemma LinkStore(m: Memory, x: Id, l: nat, p: nat)
    requires Ok(m) && CanLink(m, x, l, p) && p <= |m.chains[l]|
    requires At(m.chains[l], p) < |m.nodes| && l < |m.nodes[At(m.chains[l], p)].next|
    ensures Ok(Linked(m, x, l, p)) && Grows(m, Linked(m, x, l, p))
  {
    var (c, m') := (m.chains[l], Linked(m, x, l, p));
    LinkIn(m.nodes, l, c, p, x);
    forall k | 0 <= k < MAX_HEIGHT ensures Chain(m'.nodes, k, m'.chains[k]) {
      if k != l { OtherLink(m.nodes, k, m.chains[k], At(c, p), l, Some(x)); }
    }
    InsertAtMembers(c, p, x);
    forall k | 0 < k < MAX_HEIGHT ensures Sublevel(m'.chains, k) {
      assert Sublevel(m.chains, k);
    }
  }

  lemma InsertAtMembers(c: seq<Id>, p: nat, x: Id)
    requires p <= |c|
    ensures forall id :: id in InsertAt(c, p, x) <==> id == x || id in c
  {
    assert c == c[..p] + c[p..];
  }

  /** What the sorted contents become. */
  lemma {:induction false} InsertedContents(es: seq<Entry>, p: nat, e: Entry)
    requires p <= |es| && (forall i | 0 <= i < p :: Lt(es[i], e)) && (p < |es| ==> Lt(e, es[p]))
    ensures InsertEntry(es, e) == es[..p] + [e] + es[p..]
  {
    if p > 0 {
      assert Lt(es[0], e);
      InsertedContents(es[1..], p - 1, e);
      assert es[1..][..p - 1] == es[1..p] && es[1..][p - 1..] == es[p..];
    }
  }

  lemma KeysInserted(nodes: seq<Node>, nodes': seq<Node>, c: seq<Id>, p: nat, x: Id)
    requires InArena(nodes, c) && p <= |c| && 0 < x < |nodes'| && |nodes| <= |nodes'|
    requires forall id | 0 <= id < |nodes| :: nodes'[id].key == nodes[id].key
    ensures InArena(nodes', InsertAt(c, p, x))
    ensures Keys(nodes', InsertAt(c, p, x)) == Keys(nodes, c)[..p] + [nodes'[x].key] + Keys(nodes, c)[p..]
  {
    var (c', a, b) := (InsertAt(c, p, x), Keys(nodes', InsertAt(c, p, x)), Keys(nodes, c)[..p] + [nodes'[x].key] + Keys(nodes, c)[p..]);
    forall i | 0 <= i < |a| ensures a[i] == b[i] {
      KeyAt(nodes', c', i);
      if i < p {
        KeyAt(nodes, c, i);
      } else if i > p {
        KeyAt(nodes, c, i - 1);
      }
    }
  }

  /** A node of a level is also on the level below. */
  lemma DownLevel(m: Memory, level: nat, x: Id, p: nat) returns (p': nat)
    requires Ok(m) && 0 < level < MAX_HEIGHT && p <= |m.chains[level]| && x == At(m.chains[level], p)
    ensures p' <= |m.chains[level - 1]| && x == At(m.chains[level - 1], p') && (p' > 0 <==> p > 0)
  {
    assert Sublevel(m.chains, level);
    assert p > 0 ==> x in m.chains[level];
    assert Chain(m.nodes, level, m.chains[level]);
    p' := PositionOf(m.nodes, level - 1, m.chains[level - 1], x);
  }

  lemma {:induction false} OnGround(m: Memory, l: nat, id: Id)
    requires Ok(m) && l < MAX_HEIGHT && id in m.chains[l]
    ensures id in m.chains[0]
  {
    if l > 0 {
      assert Sublevel(m.chains, l);
      OnGround(m, l - 1, id);
    }
  }

  ghost predicate Fresh(m: Memory, key: Entry)
    requires Ok(m)
  {
    forall i | 0 <= i < |m.chains[0]| :: !SameKey(m.nodes[m.chains[0][i]].key, key)
  }

  lemma FreshContents(m: Memory, key: Entry)
    requires Ok(m) && forall e | e in Contents(m) :: !SameKey(e, key)
    ensures Fresh(m, key)
  {
    forall i | 0 <= i < |m.chains[0]| ensures !SameKey(m.nodes[m.chains[0][i]].key, key) {
      KeyAt(m.nodes, m.chains[0], i);
    }
  }

  lemma FreshOnLevel(m: Memory, key: Entry, l: nat, p: nat)
    requires Ok(m) && Fresh(m, key) && l < MAX_HEIGHT && p < |m.chains[l]|
    ensures !SameKey(m.nodes[m.chains[l][p]].key, key)
  {
    OnGround(m, l, m.chains[l][p]);
    var i :| 0 <= i < |m.chains[0]| && m.chains[0][i] == m.chains[l][p];
  }

  /** Node x, new in the arena since m0, is linked into the first i levels, each time at the place found. */
  ghost predicate Linking(m0: Memory, m: Memory, x: Id, height: nat, i: nat, ps: seq<nat>)
    requires Ok(m0)
  {
    && Grows(m0, m) && 0 < x == |m0.nodes| < |m.nodes| && |m.nodes[x].next| == height <= m.maxHeight
    && i <= height <= MAX_HEIGHT == |m.chains| == |ps|
    && Fresh(m0, m.nodes[x].key)
    && (forall l | 0 <= l < height :: LastBefore(m0.nodes, m0.chains[l], ps[l], m.nodes[x].key))
    && (forall l | 0 <= l < i :: m.chains[l] == InsertAt(m0.chains[l], ps[l], x))
    && (forall l | i <= l < MAX_HEIGHT :: m.chains[l] == m0.chains[l])
  }

  /** The two stores of level i are in order. */
  lemma NextLevel(m0: Memory, m: Memory, x: Id, height: nat, i: nat, ps: seq<nat>, next: Option<Id>)
    requires Ok(m0) && Ok(m) && Linking(m0, m, x, height, i, ps) && i < height && next == After(m.chains[i], ps[i])
    ensures var m' := m.(nodes := SetNext(m.nodes, x, i, next));
      Ok(m') && Grows(m, m') && Linking(m0, m', x, height, i, ps) && CanLink(m', x, i, ps[i])
  {
    NewIsApart(m0, x, i);
    OwnLink(m, x, i, next);
    if i > 0 { InsertAtMembers(m0.chains[i - 1], ps[i - 1], x); }
    if ps[i] < |m0.chains[i]| { FreshOnLevel(m0, m.nodes[x].key, i, ps[i]); }
  }

  lemma LevelLinked(m0: Memory, m: Memory, x: Id, height: nat, i: nat, ps: seq<nat>)
    requires Ok(m0) && Ok(m) && Linking(m0, m, x, height, i, ps) && i < height && CanLink(m, x, i, ps[i])
    ensures ps[i] <= |m.chains[i]| && At(m.chains[i], ps[i]) < |m.nodes| && i < |m.nodes[At(m.chains[i], ps[i])].next|
    ensures var m' := Linked(m, x, i, ps[i]); Ok(m') && Grows(m, m') && Linking(m0, m', x, height, i + 1, ps)
  {
    Predecessor(m, i, ps[i]);
    LinkStore(m, x, i, ps[i]);
  }

  lemma NewIsApart(m0: Memory, x: Id, l: nat)
    requires Ok(m0) && x == |m0.nodes| && l < MAX_HEIGHT
    ensures x !in m0.chains[l]
  {
    assert Chain(m0.nodes, l, m0.chains[l]);
  }

  /** With every level linked, the new key is in its place among the contents. */
  lemma AllLinked(m0: Memory, m: Memory, x: Id, height: nat, ps: seq<nat>)
    requires Ok(m0) && Ok(m) && Linking(m0, m, x, height, height, ps) && height > 0
    ensures Contents(m) == InsertEntry(Contents(m0), m.nodes[x].key)
  {
    var (c, p, key) := (m0.chains[0], ps[0], m.nodes[x].key);
    var es := Contents(m0);
    assert Chain(m0.nodes, 0, c);
    KeysInserted(m0.nodes, m.nodes, c, p, x);
    forall i | 0 <= i < p ensures Lt(es[i], key) {
      KeyAt(m0.nodes, c, i);
    }
    if p < |es| {
      KeyAt(m0.nodes, c, p);
      FreshOnLevel(m0, key, 0, p);
    }
    InsertedContents(es, p, key);
  }

  // ---- The list ----

  /** From level lo up, prev and ps say where the last node before the key is. */
  ghost predicate Places(m: Memory, key: Entry, prev: seq<Id>, ps: seq<nat>, lo: nat)
    requires Ok(m)
  {
    && |prev| == |ps| == MAX_HEIGHT
    && forall l | lo <= l < m.maxHeight :: LastBefore(m.nodes, m.chains[l], ps[l], key) && prev[l] == At(m.chains[l], ps[l])
  }

  lemma PlacesStep(m: Memory, key: Entry, prev: seq<Id>, ps: seq<nat>, level: nat, x: Id, p: nat)
    requires Ok(m) && level < m.maxHeight && Places(m, key, prev, ps, level + 1)
    requires LastBefore(m.nodes, m.chains[level], p, key) && p <= |m.chains[level]| && x == At(m.chains[level], p)
    ensures Places(m, key, prev[level := x], ps[level := p], level)
  {
  }

  /** The memory after each store, from the first to the last. */
  ghost predicate Trace(ms: seq<Memory>) {
    && ms != [] && (forall i | 0 <= i < |ms| :: Ok(ms[i]))
    && forall i | 0 < i < |ms| :: StoreAt(ms, i)
  }

  ghost predicate StoreAt(ms: seq<Memory>, i: nat)
    requires 0 < i < |ms|
  {
    Grows(ms[i - 1], ms[i])
  }

  lemma TraceOn(ms: seq<Memory>, m: Memory)
    requires Trace(ms) && Ok(m) && Grows(ms[|ms| - 1], m)
    ensures Trace(ms + [m])
  {
    forall i | 0 < i < |ms| ensures StoreAt(ms + [m], i) {
      assert StoreAt(ms, i);
    }
  }

  class SkipList {
    var nodes: seq<Node>
    var maxHeight: nat
    ghost var chains: seq<seq<Id>>

    constructor ()
      ensures Ok(Abs()) && Contents(Abs()) == []
    {
      nodes, maxHeight := [Node(Entry(0, 0, None), seq(MAX_HEIGHT, _ => None))], 1;
      chains := seq(MAX_HEIGHT, _ => []);
    }

    ghost function Abs(): Memory
      reads this
    {
      Memory(nodes, maxHeight, chains)
    }

    /** The earliest node at or after the key, and on every level in use the last node before it. */
    method FindGreaterOrEqual(key: Entry) returns (next: Option<Id>, prev: seq<Id>, ghost ps: seq<nat>)
      requires Ok(Abs())
      ensures Places(Abs(), key, prev, ps, 0)
      ensures ps[0] <= |chains[0]| && next == After(chains[0], ps[0])
    {
      var x, level := 0, maxHeight - 1;
      prev := seq(MAX_HEIGHT, _ => 0);
      ps := seq(MAX_HEIGHT, _ => 0);
      ghost var p: nat := 0;
      while true
        invariant 0 <= level < maxHeight && Places(Abs(), key, prev, ps, level + 1)
        invariant p <= |chains[level]| && x == At(chains[level], p) && (p > 0 ==> Lt(nodes[chains[level][p - 1]].key, key))
        decreases level, |chains[level]| - p
      {
        Predecessor(Abs(), level, p);
        next := nodes[x].next[level];
        if next.Some? && Lt(nodes[next.value].key, key) {
          x, p := next.value, p + 1;
        } else {
          SearchedLevel(nodes, level, chains[level], p, key);
          PlacesStep(Abs(), key, prev, ps, level, x, p);
          prev, ps := prev[level := x], ps[level := p];
          if level == 0 {
            return;
          }
          p := DownLevel(Abs(), level, x, p);
          level := level - 1;
        }
      }
    }

    /** The latest node before the key, or the head. */
    method FindLessThan(key: Entry) returns (x: Id, ghost p: nat)
      requires Ok(Abs())
      ensures LastBefore(nodes, chains[0], p, key) && x == At(chains[0], p)
    {
      x, p := 0, 0;
      var level := maxHeight - 1;
      while true
        invariant 0 <= level < maxHeight
        invariant p <= |chains[level]| && x == At(chains[level], p) && (p > 0 ==> Lt(nodes[chains[level][p - 1]].key, key))
        decreases level, |chains[level]| - p
      {
        Predecessor(Abs(), level, p);
        var next := nodes[x].next[level];
        if next.None? || !Lt(nodes[next.value].key, key) {
          SearchedLevel(nodes, level, chains[level], p, key);
          if level == 0 {
            return;
          }
          p := DownLevel(Abs(), level, x, p);
          level := level - 1;
        } else {
          x, p := next.value, p + 1;
        }
      }
    }

    /** The last node of the list, or the head. */
    method FindLast() returns (x: Id)
      requires Ok(Abs())
      ensures x == At(chains[0], |chains[0]|)
    {
      x := 0;
      var level := maxHeight - 1;
      ghost var p: nat := 0;
      while true
        invariant 0 <= level < maxHeight
        invariant p <= |chains[level]| && x == At(chains[level], p)
        decreases level, |chains[level]| - p
      {
        Predecessor(Abs(), level, p);
        var next := nodes[x].next[level];
        if next.None? {
          if level == 0 {
            return;
          }
          p := DownLevel(Abs(), level, x, p);
          level := level - 1;
        } else {
          x, p := next.value, p + 1;
        }
      }
    }

    /** The places on all levels a node of this height needs; new levels start at the head. */
    method FindPlaces(key: Entry, height: nat) returns (prev: seq<Id>, ghost ps: seq<nat>)
      requires Ok(Abs()) && 1 <= height <= MAX_HEIGHT
      modifies this`maxHeight
      ensures Ok(Abs()) && Grows(old(Abs()), Abs()) && height <= maxHeight && |prev| == |ps| == MAX_HEIGHT
      ensures forall l | 0 <= l < height :: LastBefore(nodes, chains[l], ps[l], key) && prev[l] == At(chains[l], ps[l])
    {
      var next;
      next, prev, ps := FindGreaterOrEqual(key);
      if height > maxHeight {
        for i := maxHeight to height
          invariant |prev| == |ps| == MAX_HEIGHT
          invariant forall l | 0 <= l < i :: LastBefore(nodes, chains[l], ps[l], key) && prev[l] == At(chains[l], ps[l])
        {
          prev, ps := prev[i := 0], ps[i := 0];
        }
        NewHeight(Abs(), height);
        maxHeight := height;
      }
    }

    /** The two stores that link the node into level i. */
    method LinkLevel(x: Id, i: nat, before: Id, ghost m0: Memory, ghost height: nat, ghost ps: seq<nat>) returns (ghost half: Memory)
      requires Ok(m0) && Ok(Abs()) && Linking(m0, Abs(), x, height, i, ps) && i < height && before == At(m0.chains[i], ps[i])
      modifies this`nodes, this`chains
      ensures Ok(half) && Grows(old(Abs()), half) && Ok(Abs()) && Grows(half, Abs())
      ensures Linking(m0, Abs(), x, height, i + 1, ps) && nodes[x].key == old(nodes[x].key)
    {
      Predecessor(Abs(), i, ps[i]);
      var next := nodes[before].next[i];
      NextLevel(m0, Abs(), x, height, i, ps, next);
      nodes := SetNext(nodes, x, i, next);
      half := Abs();
      LevelLinked(m0, half, x, height, i, ps);
      nodes, chains := SetNext(nodes, before, i, Some(x)), chains[i := InsertAt(chains[i], ps[i], x)];
    }

    /** A new node in the arena that nothing leads to yet. */
    method Allocate(key: Entry, height: nat) returns (x: Id)
      requires Ok(Abs()) && 1 <= height <= MAX_HEIGHT
      modifies this`nodes
      ensures x == old(|nodes|) && nodes == old(nodes) + [Node(key, seq(height, _ => None))]
      ensures Ok(Abs()) && Grows(old(Abs()), Abs())
    {
      NewNode(Abs(), Node(key, seq(height, _ => None)));
      x := |nodes|;
      nodes := nodes + [Node(key, seq(height, _ => None))];
    }

    /** The stores that link node x into its levels, from the lowest up. */
    method LinkAll(x: Id, height: nat, prev: seq<Id>, ghost m0: Memory, ghost ps: seq<nat>, ghost before: seq<Memory>) returns (ghost trace: seq<Memory>)
      requires Ok(m0) && Ok(Abs()) && Linking(m0, Abs(), x, height, 0, ps) && height <= |prev|
      requires forall l | 0 <= l < height :: prev[l] == At(m0.chains[l], ps[l])
      requires Trace(before) && before[|before| - 1] == Abs()
      modifies this`nodes, this`chains
      ensures Ok(Abs()) && Linking(m0, Abs(), x, height, height, ps) && nodes[x].key == old(nodes[x].key)
      ensures Trace(trace) && trace[0] == before[0] && trace[|trace| - 1] == Abs()
    {
      trace := before;
      for i := 0 to height
        invariant Trace(trace) && trace[0] == before[0] && trace[|trace| - 1] == Abs()
        invariant Ok(Abs()) && Linking(m0, Abs(), x, height, i, ps) && nodes[x].key == old(nodes[x].key)
      {
        ghost var half := LinkLevel(x, i, prev[i], m0, height, ps);
        TraceOn(trace, half);
        TraceOn(trace + [half], Abs());
        trace := trace + [half] + [Abs()];
      }
    }

    /** Insert: one store after the other, and after each of them the levels are in order and have lost nothing. */
    method Insert(key: Entry, height: nat) returns (ghost trace: seq<Memory>)
      requires Ok(Abs()) && 1 <= height <= MAX_HEIGHT
      requires forall e | e in Contents(Abs()) :: !SameKey(e, key)
      modifies this
      ensures Trace(trace) && trace[0] == old(Abs()) && trace[|trace| - 1] == Abs()
      ensures Contents(Abs()) == InsertEntry(old(Contents(Abs())), key)
    {
      ghost var m0 := Abs();
      trace := [m0];
      FreshContents(m0, key);
      var prev, ps := FindPlaces(key, height);
      TraceOn(trace, Abs());
      trace := trace + [Abs()];
      var x := Allocate(key, height);
      TraceOn(trace, Abs());
      trace := trace + [Abs()];
      trace := LinkAll(x, height, prev, m0, ps, trace);
      AllLinked(m0, Abs(), x, height, ps);
    }
  }

  // ---- A reader during insertions ----

  /** Where a search for the first entry at or after the key has got to. */
  datatype Reader = Looking(key: Entry, x: Id, level: nat) | Found(key: Entry, result: Option<Id>)

  /** The reader stands on the head or on a node of its level, before the key. */
  ghost predicate ReaderOk(m: Memory, r: Reader) {
    r.Looking? ==>
      && r.level < |m.chains| && (r.x == 0 || r.x in m.chains[r.level])
      && r.x < |m.nodes| && (r.x != 0 ==> Lt(m.nodes[r.x].key, r.key))
  }

  /** One turn of FindGreaterOrEqual: a single load of a link, then the next place or the result. */
  ghost predicate Step(m: Memory, r: Reader, r': Reader) {
    && r.Looking? && r.x < |m.nodes| && r.level < |m.nodes[r.x].next|
    && var next := m.nodes[r.x].next[r.level];
      r' == if next.Some? && next.value < |m.nodes| && Lt(m.nodes[next.value].key, r.key) then Looking(r.key, next.value, r.level)
            else if r.level > 0 then Looking(r.key, r.x, r.level - 1)
            else Found(r.key, next)
  }

  /** Memory and reader, step by step: either the reader takes one, or an inserting thread stores something. */
  ghost predicate Execution(ms: seq<Memory>, rs: seq<Reader>) {
    && |ms| == |rs| > 0 && (forall i | 0 <= i < |ms| :: Ok(ms[i])) && rs[0].Looking? && ReaderOk(ms[0], rs[0])
    && forall i | 0 < i < |ms| :: TurnAt(ms, rs, i)
  }

  ghost predicate TurnAt(ms: seq<Memory>, rs: seq<Reader>, i: nat)
    requires 0 < i < |ms| == |rs|
  {
    (ms[i] == ms[i - 1] && Step(ms[i - 1], rs[i - 1], rs[i])) || (Grows(ms[i - 1], ms[i]) && rs[i] == rs[i - 1])
  }

  /** The result is the first node of level 0 at or after the key. */
  ghost predicate IsFirst(m: Memory, key: Entry, result: Option<Id>, p: nat)
    requires Ok(m)
  {
    LastBefore(m.nodes, m.chains[0], p, key) && p <= |m.chains[0]| && result == After(m.chains[0], p)
  }

  lemma StepKeepsReader(m: Memory, r: Reader, r': Reader) returns (p: nat)
    requires Ok(m) && ReaderOk(m, r) && Step(m, r, r')
    ensures ReaderOk(m, r') && r'.key == r.key && (r'.Found? ==> IsFirst(m, r.key, r'.result, p))
  {
    var c := m.chains[r.level];
    assert Chain(m.nodes, r.level, c);
    p := PositionOf(m.nodes, r.level, c, r.x);
    Predecessor(m, r.level, p);
    if r'.Found? {
      SearchedLevel(m.nodes, 0, c, p, r.key);
    } else if r'.level < r.level {
      assert Sublevel(m.chains, r.level);
    }
  }

  /** The result is what a linear scan of level 0 gives at the moment of the reader's last load. */
  lemma {:induction false} Linearizes(ms: seq<Memory>, rs: seq<Reader>, n: nat) returns (j: nat, p: nat)
    requires Execution(ms, rs) && n < |ms|
    ensures ReaderOk(ms[n], rs[n]) && rs[n].key == rs[0].key
    ensures rs[n].Found? ==> j <= n && IsFirst(ms[j], rs[0].key, rs[n].result, p)
  {
    j, p := n, 0;
    if n > 0 {
      j, p := Linearizes(ms, rs, n - 1);
      assert TurnAt(ms, rs, n);
      if ms[n] == ms[n - 1] && Step(ms[n - 1], rs[n - 1], rs[n]) {
        p := StepKeepsReader(ms[n - 1], rs[n - 1], rs[n]);
        j := n;
      }
    }
  }

  lemma {:induction false} GrowsAlong(ms: seq<Memory>, rs: seq<Reader>, i: nat, j: nat)
    requires Execution(ms, rs) && i <= j < |ms|
    ensures Grows(ms[i], ms[j])
  {
    if i < j {
      GrowsAlong(ms, rs, i, j - 1);
      assert TurnAt(ms, rs, j);
    }
  }

  /** A reader never misses a key that was there when it started: it finds that one, or one before it. */
  lemma NeverMisses(ms: seq<Memory>, rs: seq<Reader>, id: Id)
    requires Execution(ms, rs) && rs[|rs| - 1].Found?
    requires id in ms[0].chains[0] && id < |ms[0].nodes| && !Lt(ms[0].nodes[id].key, rs[0].key)
    ensures var (m, r) := (ms[|ms| - 1], rs[|rs| - 1].result);
      && r.Some? && r.value in m.chains[0] && r.value < |m.nodes| && !Lt(m.nodes[r.value].key, rs[0].key)
      && (r.value == id || Lt(m.nodes[r.value].key, ms[0].nodes[id].key))
  {
    var n := |ms| - 1;
    var j, p := Linearizes(ms, rs, n);
    GrowsAlong(ms, rs, 0, j);
    GrowsAlong(ms, rs, j, n);
    var c := ms[j].chains[0];
    assert Chain(ms[j].nodes, 0, c);
    var q :| 0 <= q < |c| && c[q] == id;
    assert p < q ==> Lt(ms[j].nodes[c[p]].key, ms[j].nodes[c[q]].key);
  }

  /** Every trace of an insertion is a run of stores in an execution of a waiting reader. */
  lemma InsertionIsExecution(trace: seq<Memory>, r: Reader)
    requires Trace(trace) && r.Looking? && ReaderOk(trace[0], r)
    ensures Execution(trace, seq(|trace|, _ => r))
  {
    var rs := seq(|trace|, _ => r);
    forall i | 0 < i < |trace| ensures TurnAt(trace, rs, i) {
      assert StoreAt(trace, i);
    }
  }
}
