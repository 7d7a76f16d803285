/**
 One shard of the cache (util/cache.cc): a hash table of chains that grows, a list of entries in use, a
 list of unused ones in the order of their last use, and reference counts. The table stands for a finite
 map, and a ledger counts who holds which entry and which deleters have been called; each operation is
 described by what it does to these, whatever the hash of a key is.
 */
module LruCache {
  import opened Options

  type Key = string
  /** A handle's address. */
  type Id = nat

  // ---- HandleTable ----

  /** What identifies an entry: its key, and the hash the caller computed from it. */
  datatype Name = Name(key: Key, hash: nat)

  datatype Slot = Slot(name: Name, handle: Id)

  /** The chain of a hash: its remainder, since the number of chains is a power of two and the hash is masked. */
  function Bucket(hash: nat, length: nat): (b: nat)
    requires length > 0
    ensures b < length
    decreases hash
  {
    if hash < length then hash else Bucket(hash - length, length)
  }

  ghost predicate DistinctSlots(chain: seq<Slot>) {
    forall i, j | 0 <= i < j < |chain| :: chain[i].name != chain[j].name
  }

  /** FindPointer: the place of the matching slot in its chain, or the chain's end. */
  function Find(chain: seq<Slot>, name: Name): (i: nat)
    ensures i <= |chain| && (i < |chain| ==> chain[i].name == name)
    ensures forall j | 0 <= j < i :: chain[j].name != name
  {
    if chain == [] || (chain[0].name.hash == name.hash && chain[0].name.key == name.key) then 0 else 1 + Find(chain[1..], name)
  }

  ghost function SlotSet(chain: seq<Slot>): set<Slot> {
    set s | s in chain
  }

  ghost function Slots(list: seq<seq<Slot>>): set<Slot> {
    set b, s | 0 <= b < |list| && s in list[b] :: s
  }

  ghost function SlotsOf(m: map<Name, Id>): set<Slot> {
    set k | k in m :: Slot(k, m[k])
  }

  /** Every slot is in the chain its hash selects. */
  ghost predicate Placed(list: seq<seq<Slot>>) {
    forall b, s | 0 <= b < |list| && s in list[b] :: Bucket(s.name.hash, |list|) == b
  }

  /** The chains hold exactly the map's entries. */
  ghost predicate Represents(list: seq<seq<Slot>>, m: map<Name, Id>) {
    && |list| > 0 && (forall b | 0 <= b < |list| :: DistinctSlots(list[b]))
    && Placed(list) && Slots(list) == SlotsOf(m)
  }

  lemma InItsChain(list: seq<seq<Slot>>, m: map<Name, Id>, name: Name)
    requires Represents(list, m) && name in m
    ensures Slot(name, m[name]) in list[Bucket(name.hash, |list|)]
  {
    assert Slot(name, m[name]) in Slots(list);
  }

  /** Looking in the right chain decides. */
  lemma FindDecides(list: seq<seq<Slot>>, m: map<Name, Id>, name: Name)
    requires Represents(list, m)
    ensures var chain := list[Bucket(name.hash, |list|)]; var i := Find(chain, name);
      if i < |chain| then name in m && m[name] == chain[i].handle else name !in m
  {
    var chain := list[Bucket(name.hash, |list|)];
    var i := Find(chain, name);
    if i < |chain| {
      assert chain[i] in chain && chain[i] in Slots(list);
    }
    if name in m { InItsChain(list, m, name); }
  }

  /** One chain changes: the slots it had go, the ones it gets come. */
  lemma ChainChanged(list: seq<seq<Slot>>, b: nat, chain: seq<Slot>)
    requires b < |list| && Placed(list)
    ensures Slots(list[b := chain]) == Slots(list) - SlotSet(list[b]) + SlotSet(chain)
    ensures (forall s | s in chain :: Bucket(s.name.hash, |list|) == b) ==> Placed(list[b := chain])
  {
    var list' := list[b := chain];
    forall s ensures s in Slots(list') <==> s in Slots(list) - SlotSet(list[b]) + SlotSet(chain) {
      if s in Slots(list') {
        var c :| 0 <= c < |list'| && s in list'[c];
        assert c != b ==> s in list[c] && Bucket(s.name.hash, |list|) == c;
        assert c != b ==> s !in list[b];
      }
      if s in Slots(list) && s !in SlotSet(list[b]) {
        var c :| 0 <= c < |list| && s in list[c];
        assert s in list'[c];
      }
      if s in chain { assert s in list'[b]; }
    }
  }

  lemma SameName(m: map<Name, Id>, s: Slot, t: Slot)
    requires s in SlotsOf(m) && t in SlotsOf(m) && s.name == t.name
    ensures s == t
  {
  }

  lemma ReplacedSlots(chain: seq<Slot>, i: nat, s: Slot)
    requires DistinctSlots(chain) && i < |chain| && chain[i].name == s.name
    ensures DistinctSlots(chain[i := s]) && SlotSet(chain[i := s]) == SlotSet(chain) - {chain[i]} + {s}
  {
    var r := chain[i := s];
    forall x ensures x in r <==> (x in chain && x != chain[i]) || x == s {
      if x in r {
        var j :| 0 <= j < |r| && r[j] == x;
        assert j != i ==> chain[j] == x && chain[j].name != chain[i].name;
      }
      if x in chain && x != chain[i] {
        var j :| 0 <= j < |chain| && chain[j] == x;
        assert r[j] == x;
      }
      if x == s { assert r[i] == x; }
    }
  }

  lemma RemovedSlot(chain: seq<Slot>, i: nat)
    requires DistinctSlots(chain) && i < |chain|
    ensures DistinctSlots(chain[..i] + chain[i + 1..]) && SlotSet(chain[..i] + chain[i + 1..]) == SlotSet(chain) - {chain[i]}
  {
    var r := chain[..i] + chain[i + 1..];
    forall x ensures x in r <==> x in chain && x != chain[i] {
      if x in r {
        var j :| 0 <= j < |r| && r[j] == x;
        var n := if j < i then j else j + 1;
        assert chain[n] == x && chain[n].name != chain[i].name;
      }
      if x in chain && x != chain[i] {
        var j :| 0 <= j < |chain| && chain[j] == x;
        assert r[if j < i then j else j - 1] == x;
      }
    }
  }

  lemma AddedSlot(chain: seq<Slot>, s: Slot)
    requires DistinctSlots(chain) && forall x | x in chain :: x.name != s.name
    ensures DistinctSlots(chain + [s]) && SlotSet(chain + [s]) == SlotSet(chain) + {s}
    ensures DistinctSlots([s] + chain) && SlotSet([s] + chain) == SlotSet(chain) + {s}
  {
    assert forall i | 0 <= i < |chain| :: chain[i] in chain;
  }

  /** A chain whose slots change as the map's entries do keeps the whole table in order. */
  lemma ChangedTable(list: seq<seq<Slot>>, m: map<Name, Id>, b: nat, chain: seq<Slot>, m': map<Name, Id>, gone: set<Slot>, come: set<Slot>)
    requires Represents(list, m) && b < |list| && DistinctSlots(chain)
    requires gone <= SlotSet(list[b]) && SlotSet(chain) == SlotSet(list[b]) - gone + come
    requires forall s | s in come :: Bucket(s.name.hash, |list|) == b
    requires SlotsOf(m') == SlotsOf(m) - gone + come
    ensures Represents(list[b := chain], m')
  {
    ChainChanged(list, b, chain);
    forall s | s in chain ensures Bucket(s.name.hash, |list|) == b {
      assert s in SlotSet(chain);
    }
    assert SlotSet(list[b]) <= Slots(list);
  }

  lemma OfMap(m: map<Name, Id>, s: Slot)
    ensures s in SlotsOf(m) <==> s.name in m && m[s.name] == s.handle
  {
    if s.name in m && m[s.name] == s.handle { assert s == Slot(s.name, m[s.name]); }
  }

  lemma PutEntry(m: map<Name, Id>, k: Name, h: Id)
    ensures SlotsOf(m[k := h]) == SlotsOf(m) - (if k in m then {Slot(k, m[k])} else {}) + {Slot(k, h)}
    ensures |m[k := h]| == |m| + if k in m then 0 else 1
  {
    var m' := m[k := h];
    assert m'.Keys == m.Keys + {k};
    forall s ensures s in SlotsOf(m') <==> s in SlotsOf(m) - (if k in m then {Slot(k, m[k])} else {}) + {Slot(k, h)} {
      assert s in SlotsOf(m) <==> s.name in m && m[s.name] == s.handle by { OfMap(m, s); }
      assert s in SlotsOf(m') <==> s.name in m' && m'[s.name] == s.handle by { OfMap(m', s); }
    }
  }

  lemma DropEntry(m: map<Name, Id>, k: Name)
    requires k in m
    ensures SlotsOf(m - {k}) == SlotsOf(m) - {Slot(k, m[k])} && |m - {k}| == |m| - 1
  {
    assert (m - {k}).Keys == m.Keys - {k};
    forall s ensures s in SlotsOf(m - {k}) <==> s in SlotsOf(m) - {Slot(k, m[k])} {
      OfMap(m, s);
      OfMap(m - {k}, s);
    }
  }

  lemma EntryRemoved(list: seq<seq<Slot>>, m: map<Name, Id>, name: Name, b: nat, i: nat)
    requires Represents(list, m) && b < |list| && i < |list[b]| && name in m && list[b][i] == Slot(name, m[name])
    ensures Represents(list[b := list[b][..i] + list[b][i + 1..]], m - {name}) && |m - {name}| == |m| - 1
  {
    DropEntry(m, name);
    RemovedSlot(list[b], i);
    ChangedTable(list, m, b, list[b][..i] + list[b][i + 1..], m - {name}, {list[b][i]}, {});
  }

  ghost predicate PowerOfTwo(n: nat) {
    n == 1 || (n > 1 && n % 2 == 0 && PowerOfTwo(n / 2))
  }

  /** The number of chains for so many entries: the least power of two from 4 on that is not smaller. */
  ghost predicate LengthFor(length: nat, elems: nat) {
    PowerOfTwo(length) && length >= 4 && elems <= length && (length > 4 ==> length < 2 * elems)
  }

  class HandleTable {
    var elems: nat
    /** The chains; their number is the table's length. */
    var list: seq<seq<Slot>>
    ghost var contents: map<Name, Id>

    constructor ()
      ensures Valid() && contents == map[]
    {
      elems, list, contents := 0, [[], [], [], []], map[];
      assert PowerOfTwo(2);
    }

    ghost predicate Valid()
      reads this
    {
      Represents(list, contents) && elems == |contents| <= |list| && PowerOfTwo(|list|)
    }

    method Lookup(name: Name) returns (h: Option<Id>)
      requires Valid()
      ensures h == if name in contents then Some(contents[name]) else None
    {
      FindDecides(list, contents, name);
      var chain := list[Bucket(name.hash, |list|)];
      var i := Find(chain, name);
      h := if i < |chain| then Some(chain[i].handle) else None;
    }

    /** Replace the handle of the key, or add one and keep the chains short. */
    method Insert(name: Name, handle: Id) returns (was: Option<Id>)
      requires Valid()
      modifies this
      ensures Valid() && contents == old(contents)[name := handle]
      ensures was == if name in old(contents) then Some(old(contents)[name]) else None
      ensures if |contents| <= |old(list)| then |list| == |old(list)| else LengthFor(|list|, |contents|)
    {
      FindDecides(list, contents, name);
      PutEntry(contents, name, handle);
      var b := Bucket(name.hash, |list|);
      var i := Find(list[b], name);
      var slot := Slot(name, handle);
      if i < |list[b]| {
        was := Some(list[b][i].handle);
        ReplacedSlots(list[b], i, slot);
        ChangedTable(list, contents, b, list[b][i := slot], contents[name := handle], {list[b][i]}, {slot});
        list, contents := list[b := list[b][i := slot]], contents[name := handle];
      } else {
        was := None;
        AddedSlot(list[b], slot);
        ChangedTable(list, contents, b, list[b] + [slot], contents[name := handle], {}, {slot});
        list, contents := list[b := list[b] + [slot]], contents[name := handle];
        elems := elems + 1;
        if elems > |list| {
          Resize();
        }
      }
    }

    method Remove(name: Name) returns (was: Option<Id>)
      requires Valid()
      modifies this
      ensures Valid() && contents == old(contents) - {name}
      ensures was == if name in old(contents) then Some(old(contents)[name]) else None
    {
      FindDecides(list, contents, name);
      var b := Bucket(name.hash, |list|);
      var i := Find(list[b], name);
      was := None;
      if i < |list[b]| {
        was := Some(list[b][i].handle);
        EntryRemoved(list, contents, name, b, i);
        list, contents := list[b := list[b][..i] + list[b][i + 1..]], contents - {name};
        elems := elems - 1;
      } else {
        assert contents - {name} == contents;
      }
    }

    /** Move every entry to the front of its chain in a table of enough chains. */
    method Resize()
      requires Represents(list, contents) && elems == |contents|
      modifies this`list
      ensures Valid() && LengthFor(|list|, elems)
    {
      ghost var was := list;
      var newLength := 4;
      while newLength < elems
        invariant newLength >= 4 && list == was && PowerOfTwo(newLength) && (newLength > 4 ==> newLength < 2 * elems)
      {
        newLength := newLength * 2;
      }
      var newList: seq<seq<Slot>> := seq(newLength, _ => []);
      for i := 0 to |list|
        invariant list == was && |newList| == newLength && Moved(newList, was[..i], contents)
      {
        newList := MoveChain(list, i, newList, contents);
      }
      assert list[..|list|] == list;
      list := newList;
    }

    /** So far the new table holds exactly these chains' slots. */
    static ghost predicate Moved(newList: seq<seq<Slot>>, chains: seq<seq<Slot>>, contents: map<Name, Id>) {
      && |newList| > 0 && (forall b | 0 <= b < |newList| :: DistinctSlots(newList[b]))
      && Placed(newList) && Slots(newList) == Slots(chains) <= SlotsOf(contents)
    }

    static method MoveChain(list: seq<seq<Slot>>, i: nat, newList: seq<seq<Slot>>, ghost contents: map<Name, Id>) returns (newList': seq<seq<Slot>>)
      requires Represents(list, contents) && i < |list| && Moved(newList, list[..i], contents)
      ensures |newList'| == |newList| && Moved(newList', list[..i + 1], contents)
    {
      newList' := newList;
      var chain := list[i];
      SlotsStep(list, i);
      for j := 0 to |chain|
        invariant |newList'| == |newList| && (forall b | 0 <= b < |newList| :: DistinctSlots(newList'[b])) && Placed(newList')
        invariant Slots(newList') == Slots(list[..i]) + SlotSet(chain[..j])
      {
        var s := chain[j];
        NotMovedYet(list, i, j, newList', contents);
        var b := Bucket(s.name.hash, |newList'|);
        AddedSlot(newList'[b], s);
        ChainChanged(newList', b, [s] + newList'[b]);
        assert chain[..j + 1] == chain[..j] + [s];
        assert SlotSet(newList'[b]) <= Slots(newList');
        newList' := newList'[b := [s] + newList'[b]];
      }
      assert chain[..|chain|] == chain;
    }

    static lemma SlotsStep(list: seq<seq<Slot>>, i: nat)
      requires i < |list|
      ensures Slots(list[..i + 1]) == Slots(list[..i]) + SlotSet(list[i]) && Slots(list[..i + 1]) <= Slots(list)
    {
      forall s ensures s in Slots(list[..i + 1]) <==> s in Slots(list[..i]) + SlotSet(list[i]) {
        if s in Slots(list[..i]) {
          var b :| 0 <= b < i && s in list[..i][b];
          assert s in list[..i + 1][b];
        }
        if s in list[i] { assert s in list[..i + 1][i]; }
      }
      forall s | s in Slots(list[..i + 1]) ensures s in Slots(list) {
        var b :| 0 <= b < i + 1 && s in list[..i + 1][b];
        assert s in list[b];
      }
    }

    /** The next slot's name is not in the new table. */
    static lemma NotMovedYet(list: seq<seq<Slot>>, i: nat, j: nat, newList: seq<seq<Slot>>, contents: map<Name, Id>)
      requires Represents(list, contents) && i < |list| && j < |list[i]|
      requires Slots(newList) == Slots(list[..i]) + SlotSet(list[i][..j])
      ensures forall b, x | 0 <= b < |newList| && x in newList[b] :: x.name != list[i][j].name
    {
      var s := list[i][j];
      assert s in Slots(list);
      SlotsStep(list, i);
      forall b, x | 0 <= b < |newList| && x in newList[b] ensures x.name != s.name {
        assert x in Slots(newList);
        if x in list[i][..j] {
          var n :| 0 <= n < j && list[i][n] == x;
        } else {
          var c :| 0 <= c < i && x in list[..i][c];
          assert x in list[c] && x in Slots(list);
          if x.name == s.name { SameName(contents, x, s); }
        }
      }
    }
  }

  // ---- LRUCache ----

  /** A cached or still referenced entry; refs counts the clients' references and the cache's own. */
  datatype Handle = Handle(name: Name, charge: nat, inCache: bool, refs: nat)

  /** The shard's own state; both lists run from the oldest to the newest. */
  datatype Shard = Shard(usage: nat, lru: seq<Id>, inUse: seq<Id>, handles: map<Id, Handle>, next: Id)

  /** What clients hold, and whose deleter has run. */
  datatype Ledger = Ledger(held: multiset<Id>, deleted: seq<Id>)

  ghost predicate NoDuplicates(ids: seq<Id>) {
    forall i, j | 0 <= i < j < |ids| :: ids[i] != ids[j]
  }

  /** LRU_Remove. */
  function Without(ids: seq<Id>, id: Id): seq<Id> {
    if ids == [] then [] else if ids[0] == id then ids[1..] else [ids[0]] + Without(ids[1..], id)
  }

  function Charges(handles: map<Id, Handle>, ids: seq<Id>): nat {
    if ids == [] then 0 else (if ids[0] in handles then handles[ids[0]].charge else 0) + Charges(handles, ids[1..])
  }

  lemma {:induction false} WithoutMembers(ids: seq<Id>, id: Id)
    requires NoDuplicates(ids)
    ensures NoDuplicates(Without(ids, id)) && forall x :: x in Without(ids, id) <==> x in ids && x != id
  {
    if ids != [] {
      assert forall x :: x in ids <==> x == ids[0] || x in ids[1..];
      assert ids[0] !in ids[1..];
      WithoutMembers(ids[1..], id);
      var r := Without(ids[1..], id);
      assert forall i | 0 <= i < |r| :: r[i] in r;
    }
  }

  lemma {:induction false} WithoutCharge(handles: map<Id, Handle>, ids: seq<Id>, id: Id)
    requires id in ids && id in handles
    ensures Charges(handles, ids) == Charges(handles, Without(ids, id)) + handles[id].charge
  {
    if ids[0] != id {
      WithoutCharge(handles, ids[1..], id);
      assert ([ids[0]] + Without(ids[1..], id))[1..] == Without(ids[1..], id);
    }
  }

  lemma {:induction false} AbsentUnchanged(ids: seq<Id>, id: Id)
    requires id !in ids
    ensures Without(ids, id) == ids
  {
    if ids != [] { AbsentUnchanged(ids[1..], id); }
  }

  lemma {:induction false} AppendCharge(handles: map<Id, Handle>, ids: seq<Id>, id: Id)
    requires id in handles
    ensures Charges(handles, ids + [id]) == Charges(handles, ids) + handles[id].charge
  {
    if ids == [] {
      assert Charges(handles, []) == 0;
      assert ([] + [id])[1..] == [];
    } else {
      assert (ids + [id])[1..] == ids[1..] + [id];
      AppendCharge(handles, ids[1..], id);
    }
  }

  /** Charges depend only on the charges of the listed handles. */
  lemma {:induction false} SameCharges(h: map<Id, Handle>, h': map<Id, Handle>, ids: seq<Id>)
    requires forall id | id in ids :: id in h && id in h' && h'[id].charge == h[id].charge
    ensures Charges(h', ids) == Charges(h, ids)
  {
    if ids != [] { SameCharges(h, h', ids[1..]); }
  }

  /** Every handle's count is right, and an unreferenced one is gone. */
  ghost predicate CountsOk(s: Shard, l: Ledger) {
    && (forall id | id in s.handles :: id < s.next && s.handles[id].refs > 0 && s.handles[id].refs == l.held[id] + if s.handles[id].inCache then 1 else 0)
    && (forall id | id in l.held :: id in s.handles)
  }

  /** The LRU list has exactly the cached entries only the cache refers to; the others are in use. */
  ghost predicate ListsOk(s: Shard) {
    && NoDuplicates(s.lru) && NoDuplicates(s.inUse)
    && (forall id :: id in s.lru <==> id in s.handles && s.handles[id].inCache && s.handles[id].refs == 1)
    && (forall id :: id in s.inUse <==> id in s.handles && s.handles[id].inCache && s.handles[id].refs > 1)
    && s.usage == Charges(s.handles, s.lru) + Charges(s.handles, s.inUse)
  }

  /** The table holds exactly the cached entries, but for one that is on its way in or out. */
  ghost predicate TableOk(s: Shard, t: map<Name, Id>, loose: Option<Id>) {
    && (forall k | k in t :: t[k] in s.handles && s.handles[t[k]].inCache && s.handles[t[k]].name == k && loose != Some(t[k]))
    && (forall id | id in s.handles && s.handles[id].inCache && loose != Some(id) :: s.handles[id].name in t && t[s.handles[id].name] == id)
    && (loose.Some? ==> loose.value in s.handles && s.handles[loose.value].inCache)
  }

  /** Every entry ever made is still there or its deleter has run, once. */
  ghost predicate DeletedOk(s: Shard, l: Ledger) {
    && NoDuplicates(l.deleted) && (forall id | id in l.deleted :: id < s.next && id !in s.handles)
    && (forall id | 0 <= id < s.next :: id in s.handles || id in l.deleted)
  }

  ghost predicate Ok(s: Shard, l: Ledger, t: map<Name, Id>, loose: Option<Id>) {
    CountsOk(s, l) && ListsOk(s) && TableOk(s, t, loose) && DeletedOk(s, l)
  }

  /** Ref: an entry on the LRU list goes to the in-use list. */
  function Ref(s: Shard, id: Id): Shard
    requires id in s.handles
  {
    var h := s.handles[id];
    var s1 := if h.refs == 1 && h.inCache then s.(lru := Without(s.lru, id), inUse := s.inUse + [id]) else s;
    s1.(handles := s.handles[id := h.(refs := h.refs + 1)])
  }

  /** Unref: the last reference gone, the entry is freed; the last client's gone, it goes to the LRU list's newest end. */
  function Unref(s: Shard, id: Id): Shard
    requires id in s.handles && s.handles[id].refs > 0
  {
    var h := s.handles[id].(refs := s.handles[id].refs - 1);
    if h.refs == 0 then s.(handles := s.handles - {id})
    else if h.inCache && h.refs == 1 then s.(handles := s.handles[id := h], inUse := Without(s.inUse, id), lru := s.lru + [id])
    else s.(handles := s.handles[id := h])
  }

  lemma ChangedCount(s: Shard, id: Id, h: Handle)
    requires ListsOk(s) && id in s.handles && h.charge == s.handles[id].charge
    ensures Charges(s.handles[id := h], s.lru) == Charges(s.handles, s.lru) && Charges(s.handles[id := h], s.inUse) == Charges(s.handles, s.inUse)
  {
    SameCharges(s.handles, s.handles[id := h], s.lru);
    SameCharges(s.handles, s.handles[id := h], s.inUse);
  }

  lemma RefKeepsLists(s: Shard, id: Id)
    requires ListsOk(s) && id in s.handles && s.handles[id].refs > 0
    ensures ListsOk(Ref(s, id))
  {
    var h := s.handles[id];
    var handles := s.handles[id := h.(refs := h.refs + 1)];
    ChangedCount(s, id, h.(refs := h.refs + 1));
    if h.refs == 1 && h.inCache {
      WithoutMembers(s.lru, id);
      WithoutCharge(handles, s.lru, id);
      AppendCharge(handles, s.inUse, id);
    }
  }

  lemma RefKeepsOk(s: Shard, l: Ledger, t: map<Name, Id>, id: Id)
    requires Ok(s, l, t, None) && id in s.handles
    ensures Ok(Ref(s, id), l.(held := l.held + multiset{id}), t, None)
  {
    RefKeepsLists(s, id);
  }

  /** What the deleter does. */
  function Freed(s: Shard, l: Ledger, id: Id): Ledger
    requires id in s.handles
  {
    if s.handles[id].refs == 1 then l.(deleted := l.deleted + [id]) else l
  }

  lemma UnrefKeepsLists(s: Shard, id: Id)
    requires ListsOk(s) && id in s.handles && s.handles[id].refs > 0 && (s.handles[id].inCache ==> s.handles[id].refs > 1)
    ensures ListsOk(Unref(s, id))
  {
    var h := s.handles[id].(refs := s.handles[id].refs - 1);
    if h.refs == 0 {
      SameCharges(s.handles, s.handles - {id}, s.lru);
      SameCharges(s.handles, s.handles - {id}, s.inUse);
    } else {
      ChangedCount(s, id, h);
      if h.inCache && h.refs == 1 {
        WithoutMembers(s.inUse, id);
        WithoutCharge(s.handles[id := h], s.inUse, id);
        AppendCharge(s.handles[id := h], s.lru, id);
      }
    }
  }

  /** An entry may be freed when it is neither cached nor named in the table. */
  lemma UnrefKeepsTable(s: Shard, t: map<Name, Id>, id: Id)
    requires TableOk(s, t, None) && id in s.handles && s.handles[id].refs > 0 && (s.handles[id].inCache ==> s.handles[id].refs > 1)
    ensures TableOk(Unref(s, id), t, None)
  {
  }

  lemma UnrefKeepsDeleted(s: Shard, l: Ledger, id: Id)
    requires DeletedOk(s, l) && CountsOk(s, l) && id in s.handles
    ensures DeletedOk(Unref(s, id), Freed(s, l, id))
  {
    assert id !in l.deleted && id < s.next;
  }

  lemma ReleaseKeepsCounts(s: Shard, l: Ledger, id: Id)
    requires CountsOk(s, l) && id in l.held
    ensures CountsOk(Unref(s, id), l.(held := l.held - multiset{id}))
  {
  }

  /** A client gives a reference back. */
  lemma ReleaseKeepsOk(s: Shard, l: Ledger, t: map<Name, Id>, id: Id)
    requires Ok(s, l, t, None) && id in l.held
    ensures Ok(Unref(s, id), Freed(s, l, id).(held := l.held - multiset{id}), t, None)
  {
    UnrefKeepsLists(s, id);
    UnrefKeepsTable(s, t, id);
    UnrefKeepsDeleted(s, l, id);
    ReleaseKeepsCounts(s, l, id);
  }

  /** FinishErase before its Unref: off its list, and off the books. */
  function Detached(s: Shard, id: Id): Shard
    requires id in s.handles
  {
    var charge := s.handles[id].charge;
    s.(lru := Without(s.lru, id), inUse := Without(s.inUse, id), usage := if s.usage < charge then 0 else s.usage - charge,
       handles := s.handles[id := s.handles[id].(inCache := false)])
  }

  lemma DetachKeepsLists(s: Shard, id: Id)
    requires ListsOk(s) && id in s.handles && s.handles[id].inCache && s.handles[id].refs > 0
    ensures s.usage >= s.handles[id].charge && ListsOk(Detached(s, id))
  {
    ChangedCount(s, id, s.handles[id].(inCache := false));
    WithoutMembers(s.lru, id);
    WithoutMembers(s.inUse, id);
    var handles := s.handles[id := s.handles[id].(inCache := false)];
    if id in s.lru {
      WithoutCharge(handles, s.lru, id);
      AbsentUnchanged(s.inUse, id);
    } else {
      WithoutCharge(handles, s.inUse, id);
      AbsentUnchanged(s.lru, id);
    }
  }

  lemma DetachKeepsTable(s: Shard, t: map<Name, Id>, id: Id)
    requires TableOk(s, t, Some(id))
    ensures TableOk(Detached(s, id), t, None)
  {
  }

  lemma EraseKeepsCounts(s: Shard, l: Ledger, id: Id)
    requires CountsOk(s, l) && id in s.handles && s.handles[id].inCache
    ensures CountsOk(Unref(Detached(s, id), id), l)
  {
  }

  lemma EraseKeepsDeleted(s: Shard, l: Ledger, id: Id)
    requires DeletedOk(s, l) && CountsOk(s, l) && id in s.handles
    ensures DeletedOk(Unref(Detached(s, id), id), Freed(s, l, id))
  {
    assert id !in l.deleted && id < s.next;
  }

  /** Taking the loose entry out of the cache gives up the cache's reference. */
  lemma EraseKeepsOk(s: Shard, l: Ledger, t: map<Name, Id>, id: Id)
    requires Ok(s, l, t, Some(id))
    ensures Ok(Unref(Detached(s, id), id), Freed(s, l, id), t, None)
  {
    var d := Detached(s, id);
    DetachKeepsLists(s, id);
    DetachKeepsTable(s, t, id);
    UnrefKeepsLists(d, id);
    UnrefKeepsTable(d, t, id);
    EraseKeepsCounts(s, l, id);
    EraseKeepsDeleted(s, l, id);
  }

  /** A new entry: cached and in use, or only the client's. */
  function Added(s: Shard, name: Name, charge: nat, cached: bool): Shard {
    var s1 := s.(handles := s.handles[s.next := Handle(name, charge, cached, if cached then 2 else 1)], next := s.next + 1);
    if cached then s1.(inUse := s.inUse + [s.next], usage := s.usage + charge) else s1
  }

  lemma AddKeepsLists(s: Shard, name: Name, charge: nat, cached: bool)
    requires ListsOk(s) && s.next !in s.handles
    ensures ListsOk(Added(s, name, charge, cached))
  {
    var s' := Added(s, name, charge, cached);
    SameCharges(s.handles, s'.handles, s.lru);
    SameCharges(s.handles, s'.handles, s.inUse);
    AppendCharge(s'.handles, s.inUse, s.next);
  }

  lemma AddKeepsCounts(s: Shard, l: Ledger, name: Name, charge: nat, cached: bool)
    requires CountsOk(s, l)
    ensures s.next !in s.handles && CountsOk(Added(s, name, charge, cached), l.(held := l.held + multiset{s.next}))
  {
    assert s.next !in l.held;
  }

  lemma AddKeepsTable(s: Shard, t: map<Name, Id>, name: Name, charge: nat, cached: bool)
    requires TableOk(s, t, None) && s.next !in s.handles
    ensures TableOk(Added(s, name, charge, cached), t, if cached then Some(s.next) else None)
  {
  }

  lemma AddKeepsDeleted(s: Shard, l: Ledger, name: Name, charge: nat, cached: bool)
    requires DeletedOk(s, l)
    ensures DeletedOk(Added(s, name, charge, cached), l)
  {
  }

  lemma AddKeepsOk(s: Shard, l: Ledger, t: map<Name, Id>, name: Name, charge: nat, cached: bool)
    requires Ok(s, l, t, None)
    ensures Ok(Added(s, name, charge, cached), l.(held := l.held + multiset{s.next}), t, if cached then Some(s.next) else None)
  {
    AddKeepsCounts(s, l, name, charge, cached);
    AddKeepsLists(s, name, charge, cached);
    AddKeepsTable(s, t, name, charge, cached);
    AddKeepsDeleted(s, l, name, charge, cached);
  }

  // ---- What an insertion does to the shard ----

  /** The entry of the same name that a new one takes the place of. */
  function Replaced(t: map<Name, Id>, name: Name, cached: bool): Option<Id> {
    if cached && name in t then Some(t[name]) else None
  }

  function WithoutSome(ids: seq<Id>, o: Option<Id>): seq<Id> {
    if o.Some? then Without(ids, o.value) else ids
  }

  function ChargeOf(s: Shard, o: Option<Id>): nat {
    if o.Some? && o.value in s.handles then s.handles[o.value].charge else 0
  }

  /** The deleters that run for the replaced entry: its own, if no client holds it. */
  function Dropped(s: Shard, o: Option<Id>): seq<Id> {
    if o.Some? && o.value in s.lru then [o.value] else []
  }

  /** All handles but these two are the same, and no other one came. */
  ghost predicate OthersSame(s: Shard, s': Shard, e: Id, o: Option<Id>) {
    && (forall id | id in s.handles && id != e && o != Some(id) :: id in s'.handles && s'.handles[id] == s.handles[id])
    && (forall id | id in s'.handles && id != e :: id in s.handles && s'.handles[id].charge == s.handles[id].charge)
  }

  /** Entry e carries the name and the charge given, a reference for the client and, if cached, one for the cache. */
  ghost predicate IsNew(s: Shard, e: Id, name: Name, charge: nat, cached: bool) {
    e in s.handles && s.handles[e] == Handle(name, charge, cached, if cached then 2 else 1)
  }

  /** The new entry is the newest one in use, and the one it replaces, if any, has left the cache. */
  ghost predicate AfterAdding(s: Shard, l: Ledger, s': Shard, l': Ledger, name: Name, charge: nat, cached: bool, e: Id, o: Option<Id>) {
    && IsNew(s', e, name, charge, cached) && e !in s.handles && OthersSame(s, s', e, o)
    && s'.lru == WithoutSome(s.lru, o) && s'.inUse == WithoutSome(s.inUse, o) + (if cached then [e] else [])
    && s'.usage + ChargeOf(s, o) == s.usage + (if cached then charge else 0)
    && l' == Ledger(l.held + multiset{e}, l.deleted + Dropped(s, o))
  }

  /**
   What an insertion leaves: the new entry with its charge; of the unused entries, all but the oldest few, which
   went only because there was still too much with the last of them; and the usage that comes to.
   */
  ghost predicate AfterInserting(s: Shard, l: Ledger, s': Shard, l': Ledger, name: Name, charge: nat, capacity: nat, e: Id, o: Option<Id>) {
    var unused := WithoutSome(s.lru, o);
    && |s'.lru| <= |unused|
    && var gone := unused[..|unused| - |s'.lru|];
      && IsNew(s', e, name, charge, capacity > 0) && e !in s.handles
      && (forall id | id in s.handles && o != Some(id) && id !in gone :: id in s'.handles && s'.handles[id] == s.handles[id])
      && (forall id | id in s'.handles && id != e :: id in s.handles && s'.handles[id].charge == s.handles[id].charge)
      && unused == gone + s'.lru && s'.inUse == WithoutSome(s.inUse, o) + (if capacity > 0 then [e] else [])
      && s'.usage + ChargeOf(s, o) + Charges(s.handles, gone) == s.usage + (if capacity > 0 then charge else 0)
      && l' == Ledger(l.held + multiset{e}, l.deleted + Dropped(s, o) + gone)
      && (s'.usage <= capacity || s'.lru == [])
      && (gone != [] ==> var last := gone[|gone| - 1]; last in s.handles && s'.usage + s.handles[last].charge > capacity)
  }

  lemma {:induction false} WithoutAppended(ids: seq<Id>, x: Id, id: Id)
    requires x != id
    ensures Without(ids + [x], id) == Without(ids, id) + [x]
  {
    if ids == [] {
      assert [x][1..] == [];
    } else if ids[0] != id {
      assert (ids + [x])[1..] == ids[1..] + [x];
      WithoutAppended(ids[1..], x, id);
    } else {
      assert (ids + [x])[1..] == ids[1..] + [x];
    }
  }

  lemma AddedAlone(s: Shard, l: Ledger, name: Name, charge: nat, cached: bool)
    requires s.next !in s.handles
    ensures AfterAdding(s, l, Added(s, name, charge, cached), l.(held := l.held + multiset{s.next}), name, charge, cached, s.next, None)
  {
    assert l.deleted + [] == l.deleted;
  }

  /** Letting go of a cached entry. */
  lemma LetGo(a: Shard, o: Id)
    requires ListsOk(a) && o in a.handles && a.handles[o].inCache && a.handles[o].refs > 0
    ensures var b := Unref(Detached(a, o), o);
      && b.lru == Without(a.lru, o) && b.inUse == Without(a.inUse, o) && b.usage + a.handles[o].charge == a.usage
      && b.handles == (if a.handles[o].refs == 1 then a.handles - {o}
                       else a.handles[o := a.handles[o].(inCache := false, refs := a.handles[o].refs - 1)])
    ensures o in a.lru <==> a.handles[o].refs == 1
  {
    DetachKeepsLists(a, o);
  }

  /** Adding an entry and letting go of the one of the same name. */
  lemma AddedInPlace(s: Shard, l: Ledger, name: Name, charge: nat, o: Id)
    requires ListsOk(s) && s.next !in s.handles && o in s.handles && s.handles[o].inCache && s.handles[o].refs > 0
    ensures var a := Added(s, name, charge, true);
      AfterAdding(s, l, Unref(Detached(a, o), o), Freed(a, l.(held := l.held + multiset{s.next}), o), name, charge, true, s.next, Some(o))
  {
    var a := Added(s, name, charge, true);
    AddKeepsLists(s, name, charge, true);
    LetGo(a, o);
    WithoutAppended(s.inUse, s.next, o);
    assert l.deleted + [] == l.deleted;
  }

  // ---- What an insertion does to the cache's contents ----

  /** The entry is there if anything is cached at all, and no other name lost an entry in use. */
  ghost predicate Entered(t: map<Name, Id>, u: seq<Id>, t': map<Name, Id>, u': seq<Id>, name: Name, e: Id, cached: bool) {
    && t' == (if cached then t[name := e] else t) && (cached ==> e in u')
    && forall k | k in t && k != name && t[k] in u :: t[k] in u'
  }

  /** Nothing new; entries in use stay. */
  ghost predicate Shrunk(t: map<Name, Id>, t': map<Name, Id>, u: seq<Id>) {
    && (forall k | k in t' :: k in t && t'[k] == t[k])
    && (forall k | k in t && t[k] in u :: k in t')
  }

  ghost predicate Inserted(t: map<Name, Id>, u: seq<Id>, t': map<Name, Id>, name: Name, e: Id, cached: bool) {
    && (cached ==> name in t' && t'[name] == e)
    && (forall k | k in t' && k != name :: k in t && t'[k] == t[k])
    && (forall k | k in t && k != name && t[k] in u :: k in t')
  }

  lemma EnterThenShrink(t: map<Name, Id>, u: seq<Id>, t1: map<Name, Id>, u1: seq<Id>, t2: map<Name, Id>, name: Name, e: Id, cached: bool)
    requires Entered(t, u, t1, u1, name, e, cached) && Shrunk(t1, t2, u1)
    ensures Inserted(t, u, t2, name, e, cached)
  {
  }

  class LRUCache {
    const capacity: nat
    const table: HandleTable
    var s: Shard
    ghost var ledger: Ledger

    constructor (capacity: nat)
      ensures Valid() && fresh(table) && this.capacity == capacity && table.contents == map[] && ledger == Ledger(multiset{}, [])
    {
      this.capacity := capacity;
      table := new HandleTable();
      s, ledger := Shard(0, [], [], map[], 0), Ledger(multiset{}, []);
    }

    ghost predicate Valid()
      reads this, table
    {
      table.Valid() && Ok(s, ledger, table.contents, None)
    }

    /** Finish removing an entry that is not in the table any more. */
    method FinishErase(e: Option<Id>)
      requires table.Valid() && Ok(s, ledger, table.contents, e)
      modifies this
      ensures Valid() && s == (if e.Some? then Unref(Detached(old(s), e.value), e.value) else old(s))
      ensures ledger == if e.Some? then Freed(old(s), old(ledger), e.value) else old(ledger)
    {
      if e.Some? {
        EraseKeepsOk(s, ledger, table.contents, e.value);
        ledger := Freed(s, ledger, e.value);
        s := Unref(Detached(s, e.value), e.value);
      }
    }

    /** Evict the entry unused for longest. */
    method EvictOldest()
      requires Valid() && s.lru != []
      modifies this, table
      ensures Valid() && old(s.lru[0] in s.handles && s.handles[s.lru[0]].refs > 0)
      ensures s == Evicted(old(s)) && ledger == old(ledger).(deleted := old(ledger.deleted) + [old(s.lru)[0]])
      ensures table.contents == old(table.contents) - {old(s.handles[s.lru[0]].name)}
    {
      var e := s.lru[0];
      EvictionFacts(s);
      VictimIsUnused(s, table.contents, e);
      var name := s.handles[e].name;
      var removed := table.Remove(name);
      RemovedIsLoose(s, ledger, old(table.contents), name);
      FinishErase(removed);
    }

    /** One more eviction, the n-th since s0. */
    method EvictNext(ghost s0: Shard, ghost l0: Ledger, ghost t0: map<Name, Id>, ghost n: nat)
      requires Valid() && s.lru != [] && Evicting(s0, l0, s, ledger, n) && Shrunk(t0, table.contents, s.inUse)
      modifies this, table
      ensures Valid() && Evicting(s0, l0, s, ledger, n + 1) && Shrunk(t0, table.contents, s.inUse)
      ensures |s.lru| < |old(s.lru)| && (old(s.usage) > capacity ==> WasNeeded(s0, s, n + 1, capacity))
    {
      VictimIsUnused(s, table.contents, s.lru[0]);
      EvictOne(s0, l0, s, ledger, n);
      EvictOldest();
    }

    /** A new handle, for the client and perhaps for the cache. */
    method NewHandle(name: Name, charge: nat, cached: bool) returns (e: Id)
      requires Valid()
      modifies this
      ensures table.Valid() && Ok(s, ledger, table.contents, if cached then Some(e) else None)
      ensures e == old(s.next) && s == Added(old(s), name, charge, cached) && ledger == old(ledger).(held := old(ledger.held) + multiset{e})
    {
      e := s.next;
      AddKeepsOk(s, ledger, table.contents, name, charge, cached);
      s, ledger := Added(s, name, charge, cached), ledger.(held := ledger.held + multiset{e});
    }

    /** The new entry, and the end of the one it replaces. */
    method AddEntry(name: Name, charge: nat) returns (e: Id)
      requires Valid()
      modifies this, table
      ensures Valid() && e == old(s.next)
      ensures AfterAdding(old(s), old(ledger), s, ledger, name, charge, capacity > 0, e, Replaced(old(table.contents), name, capacity > 0))
      ensures Entered(old(table.contents), old(s.inUse), table.contents, s.inUse, name, e, capacity > 0)
    {
      AddedFacts(s, ledger, table.contents, name, charge, capacity > 0);
      e := NewHandle(name, charge, capacity > 0);
      if capacity > 0 {
        EnterTable(name, e);
      }
    }

    /** The new entry's name leads to it, and the entry it led to before is let go. */
    method EnterTable(name: Name, e: Id)
      requires table.Valid() && Ok(s, ledger, table.contents, Some(e)) && s.handles[e].name == name && e in s.inUse
      modifies this, table
      ensures Valid()
      ensures var t := old(table.contents);
        && s == (if name in t then Unref(Detached(old(s), t[name]), t[name]) else old(s))
        && ledger == if name in t then Freed(old(s), old(ledger), t[name]) else old(ledger)
      ensures Entered(old(table.contents), old(s.inUse), table.contents, s.inUse, name, e, true)
    {
      ghost var t := table.contents;
      InsertedIsTight(s, ledger, t, name, e);
      OthersStayInUse(s, ledger, t, name, e);
      var was := table.Insert(name, e);
      FinishErase(was);
    }

    /** Entries nobody uses go, the n oldest, while there is too much and no longer. */
    method MakeRoom() returns (ghost n: nat)
      requires Valid()
      modifies this, table
      ensures Valid() && Evicting(old(s), old(ledger), s, ledger, n)
      ensures s.usage <= capacity || s.lru == []
      ensures WasNeeded(old(s), s, n, capacity)
      ensures Shrunk(old(table.contents), table.contents, s.inUse)
    {
      n := 0;
      NoneEvicted(s, ledger);
      while s.usage > capacity && s.lru != []
        invariant Valid() && Evicting(old(s), old(ledger), s, ledger, n)
        invariant WasNeeded(old(s), s, n, capacity)
        invariant Shrunk(old(table.contents), table.contents, s.inUse)
        decreases |s.lru|
      {
        EvictNext(old(s), old(ledger), old(table.contents), n);
        n := n + 1;
      }
    }

    /** The entry comes into the cache for its client; entries nobody uses make room for it. */
    method Insert(name: Name, charge: nat) returns (e: Id)
      requires Valid()
      modifies this, table
      ensures Valid() && e == old(s.next)
      ensures AfterInserting(old(s), old(ledger), s, ledger, name, charge, capacity, e, Replaced(old(table.contents), name, capacity > 0))
      ensures Inserted(old(table.contents), old(s.inUse), table.contents, name, e, capacity > 0)
    {
      e := AddEntry(name, charge);
      ghost var (t, s1, l1) := (table.contents, s, ledger);
      ghost var n := MakeRoom();
      InsertedThenEvicted(old(s), old(ledger), s1, l1, s, ledger, name, charge, capacity, e, Replaced(old(table.contents), name, capacity > 0), n);
      EnterThenShrink(old(table.contents), old(s.inUse), t, s1.inUse, table.contents, name, e, capacity > 0);
    }

    method Lookup(name: Name) returns (e: Option<Id>)
      requires Valid()
      modifies this
      ensures Valid() && table.contents == old(table.contents)
      ensures e == if name in table.contents then Some(table.contents[name]) else None
      ensures if e.Some? then AfterLookup(old(s), old(ledger), s, ledger, e.value) else s == old(s) && ledger == old(ledger)
    {
      e := table.Lookup(name);
      if e.Some? {
        RefKeepsOk(s, ledger, table.contents, e.value);
        LookupFacts(s, ledger, e.value);
        s, ledger := Ref(s, e.value), ledger.(held := ledger.held + multiset{e.value});
      }
    }

    /** A client is done with a handle it holds. */
    method Release(e: Id)
      requires Valid() && e in ledger.held
      modifies this
      ensures Valid() && table.contents == old(table.contents)
      ensures AfterRelease(old(s), old(ledger), s, ledger, e, e in old(table.contents).Values)
    {
      ReleaseFacts(s, ledger, table.contents, e);
      ReleaseKeepsOk(s, ledger, table.contents, e);
      s, ledger := Unref(s, e), Freed(s, ledger, e).(held := ledger.held - multiset{e});
    }

    /** The entry leaves the cache; clients that hold it keep it. */
    method Erase(name: Name)
      requires Valid()
      modifies this, table
      ensures Valid() && table.contents == old(table.contents) - {name}
      ensures AfterErase(old(s), old(ledger), s, ledger, Replaced(old(table.contents), name, true))
    {
      EraseFacts(s, ledger, table.contents, name);
      RemovedIsLoose(s, ledger, table.contents, name);
      var removed := table.Remove(name);
      FinishErase(removed);
    }

    /** Every entry no client holds leaves the cache. */
    method Prune()
      requires Valid()
      modifies this, table
      ensures Valid() && s.lru == [] && s.inUse == old(s.inUse) && ledger.held == old(ledger.held)
      ensures ledger.deleted == old(ledger.deleted) + old(s.lru)
    {
      ghost var n := 0;
      NoneEvicted(s, ledger);
      while s.lru != []
        invariant Valid() && Evicting(old(s), old(ledger), s, ledger, n) && Shrunk(old(table.contents), table.contents, s.inUse)
        decreases |s.lru|
      {
        EvictNext(old(s), old(ledger), old(table.contents), n);
        n := n + 1;
      }
      AllEvicted(old(s), old(ledger), s, ledger, n);
    }
  }

  /** The shard without the entry unused for longest. */
  function Evicted(s: Shard): Shard
    requires s.lru != [] && s.lru[0] in s.handles && s.handles[s.lru[0]].refs > 0
  {
    Unref(Detached(s, s.lru[0]), s.lru[0])
  }

  lemma EvictionFacts(s: Shard)
    requires ListsOk(s) && s.lru != []
    ensures s.lru[0] in s.handles && s.handles[s.lru[0]].refs == 1
    ensures var (e, t) := (s.lru[0], Evicted(s));
      t.lru == s.lru[1..] && t.inUse == s.inUse && t.handles == s.handles - {e} && t.usage + s.handles[e].charge == s.usage
  {
    var e := s.lru[0];
    assert e in s.lru && e !in s.inUse;
    AbsentUnchanged(s.inUse, e);
    DetachKeepsLists(s, e);
  }

  /** From s0 on, the n entries unused for longest have been evicted, and their deleters have run in that order. */
  ghost predicate Evicting(s0: Shard, l0: Ledger, s: Shard, l: Ledger, n: nat) {
    && n <= |s0.lru| && s.lru == s0.lru[n..] && s.inUse == s0.inUse && l == l0.(deleted := l0.deleted + s0.lru[..n])
    && (forall id | id in s.handles :: id in s0.handles && s.handles[id] == s0.handles[id])
    && (forall id | id in s0.handles && id !in s0.lru[..n] :: id in s.handles)
    && (forall i | 0 <= i < n :: s0.lru[i] in s0.handles)
    && s.usage + Charges(s0.handles, s0.lru[..n]) == s0.usage
  }

  /** With the last of the n evicted entries back, there would be too much. */
  ghost predicate WasNeeded(s0: Shard, s: Shard, n: nat, capacity: nat) {
    0 < n <= |s0.lru| ==> s0.lru[n - 1] in s0.handles && s.usage + s0.handles[s0.lru[n - 1]].charge > capacity
  }

  lemma NoneEvicted(s: Shard, l: Ledger)
    ensures Evicting(s, l, s, l, 0)
  {
    assert s.lru[..0] == [] && l.deleted + [] == l.deleted;
  }

  lemma AllEvicted(s0: Shard, l0: Ledger, s: Shard, l: Ledger, n: nat)
    requires Evicting(s0, l0, s, l, n) && s.lru == []
    ensures s.inUse == s0.inUse && l.held == l0.held && l.deleted == l0.deleted + s0.lru
  {
    assert s0.lru[..n] == s0.lru;
  }

  lemma EvictOne(s0: Shard, l0: Ledger, s: Shard, l: Ledger, n: nat)
    requires Evicting(s0, l0, s, l, n) && ListsOk(s) && s.lru != []
    ensures s.lru[0] in s.handles && s.handles[s.lru[0]].refs > 0 && s.lru[0] == s0.lru[n]
    ensures Evicting(s0, l0, Evicted(s), l.(deleted := l.deleted + [s.lru[0]]), n + 1)
    ensures Evicted(s).usage + s0.handles[s0.lru[n]].charge == s.usage && Evicted(s).inUse == s.inUse
  {
    EvictionFacts(s);
    assert s0.lru[..n + 1] == s0.lru[..n] + [s0.lru[n]];
    AppendCharge(s0.handles, s0.lru[..n], s0.lru[n]);
    assert l0.deleted + s0.lru[..n] + [s0.lru[n]] == l0.deleted + s0.lru[..n + 1];
  }

  /** What adding an entry does, from the state before. */
  lemma AddedFacts(s: Shard, l: Ledger, t: map<Name, Id>, name: Name, charge: nat, cached: bool)
    requires Ok(s, l, t, None)
    ensures var (a, l1, o) := (Added(s, name, charge, cached), l.(held := l.held + multiset{s.next}), Replaced(t, name, cached));
      && (o.None? ==> AfterAdding(s, l, a, l1, name, charge, cached, s.next, None))
      && (o.Some? ==> o.value in a.handles && a.handles[o.value].refs > 0)
      && (o.Some? ==> AfterAdding(s, l, Unref(Detached(a, o.value), o.value), Freed(a, l1, o.value), name, charge, cached, s.next, o))
  {
    AddKeepsCounts(s, l, name, charge, cached);
    if cached && name in t {
      AddedInPlace(s, l, name, charge, t[name]);
    } else {
      AddedAlone(s, l, name, charge, cached);
    }
  }

  lemma InsertedThenEvicted(s: Shard, l: Ledger, s1: Shard, l1: Ledger, s2: Shard, l2: Ledger, name: Name, charge: nat, capacity: nat, e: Id, o: Option<Id>, n: nat)
    requires AfterAdding(s, l, s1, l1, name, charge, capacity > 0, e, o) && e in s2.handles
    requires Evicting(s1, l1, s2, l2, n) && WasNeeded(s1, s2, n, capacity) && (s2.usage <= capacity || s2.lru == []) && e !in s1.lru
    ensures AfterInserting(s, l, s2, l2, name, charge, capacity, e, o)
  {
    var unused := WithoutSome(s.lru, o);
    assert unused == unused[..n] + unused[n..] && |unused| - |s2.lru| == n;
    KeptCharges(s, s1, s2, l1, l2, e, o, n);
    LastWasNeeded(s, s1, s2, e, o, n, capacity);
    assert l.deleted + Dropped(s, o) + unused[..n] == l2.deleted;
  }

  lemma KeptCharges(s: Shard, s1: Shard, s2: Shard, l1: Ledger, l2: Ledger, e: Id, o: Option<Id>, n: nat)
    requires OthersSame(s, s1, e, o) && Evicting(s1, l1, s2, l2, n) && e !in s1.lru
    ensures Charges(s1.handles, s1.lru[..n]) == Charges(s.handles, s1.lru[..n])
  {
    forall id | id in s1.lru[..n] ensures id in s1.handles && id in s.handles && s1.handles[id].charge == s.handles[id].charge {
      var i :| 0 <= i < n && s1.lru[..n][i] == id;
      assert s1.lru[i] == id && id in s1.lru;
    }
    SameCharges(s1.handles, s.handles, s1.lru[..n]);
  }

  lemma LastWasNeeded(s: Shard, s1: Shard, s2: Shard, e: Id, o: Option<Id>, n: nat, capacity: nat)
    requires OthersSame(s, s1, e, o) && WasNeeded(s1, s2, n, capacity) && e !in s1.lru && n <= |s1.lru|
    ensures n > 0 ==> s1.lru[n - 1] in s.handles && s2.usage + s.handles[s1.lru[n - 1]].charge > capacity
  {
    if n > 0 { assert s1.lru[n - 1] in s1.lru; }
  }

  /** No handle is new, and none has another name or charge. */
  ghost predicate SameEntries(s: Shard, s': Shard) {
    forall id | id in s'.handles :: id in s.handles && s'.handles[id].name == s.handles[id].name && s'.handles[id].charge == s.handles[id].charge
  }

  /** A client has got a reference; an unused entry is now the newest one in use. */
  ghost predicate AfterLookup(s: Shard, l: Ledger, s': Shard, l': Ledger, id: Id) {
    && SameEntries(s, s') && s'.usage == s.usage && s'.lru == Without(s.lru, id) && s'.inUse == s.inUse + Dropped(s, Some(id))
    && l' == Ledger(l.held + multiset{id}, l.deleted)
  }

  lemma LookupFacts(s: Shard, l: Ledger, id: Id)
    requires ListsOk(s) && id in s.handles
    ensures AfterLookup(s, l, Ref(s, id), l.(held := l.held + multiset{id}), id)
  {
    if id !in s.lru { AbsentUnchanged(s.lru, id); }
    assert s.inUse + [] == s.inUse;
  }

  /**
   A client has given back its reference. The last client's makes a cached entry the newest unused one,
   and runs the deleter of an entry that is not cached.
   */
  ghost predicate AfterRelease(s: Shard, l: Ledger, s': Shard, l': Ledger, id: Id, cached: bool) {
    var last := l.held[id] == 1;
    && SameEntries(s, s') && s'.usage == s.usage && s'.lru == s.lru + (if last && cached then [id] else [])
    && s'.inUse == (if last && cached then Without(s.inUse, id) else s.inUse)
    && l' == Ledger(l.held - multiset{id}, l.deleted + if last && !cached then [id] else [])
  }

  lemma ReleaseFacts(s: Shard, l: Ledger, t: map<Name, Id>, id: Id)
    requires Ok(s, l, t, None) && id in l.held
    ensures id in s.handles && s.handles[id].refs > 0
    ensures AfterRelease(s, l, Unref(s, id), Freed(s, l, id).(held := l.held - multiset{id}), id, id in t.Values)
  {
    CachedIsNamed(s, l, t, id);
    assert s.lru + [] == s.lru && l.deleted + [] == l.deleted;
  }

  /** The entry has left the cache; its deleter has run unless a client holds it. */
  ghost predicate AfterErase(s: Shard, l: Ledger, s': Shard, l': Ledger, o: Option<Id>) {
    && SameEntries(s, s') && s'.usage + ChargeOf(s, o) == s.usage && s'.lru == WithoutSome(s.lru, o) && s'.inUse == WithoutSome(s.inUse, o)
    && l' == Ledger(l.held, l.deleted + if o.Some? && o.value !in l.held then [o.value] else [])
  }

  lemma EraseFacts(s: Shard, l: Ledger, t: map<Name, Id>, name: Name)
    requires Ok(s, l, t, None)
    ensures name in t ==> t[name] in s.handles && s.handles[t[name]].refs > 0
    ensures if name in t then AfterErase(s, l, Unref(Detached(s, t[name]), t[name]), Freed(s, l, t[name]), Some(t[name]))
      else AfterErase(s, l, s, l, None)
  {
    if name in t { LetGo(s, t[name]); }
    assert l.deleted + [] == l.deleted;
  }

  lemma VictimIsUnused(s: Shard, t: map<Name, Id>, e: Id)
    requires ListsOk(s) && TableOk(s, t, None) && e in s.lru
    ensures e in s.handles && e !in s.inUse && s.handles[e].name in t && t[s.handles[e].name] == e
  {
  }

  lemma OthersStayInUse(s: Shard, l: Ledger, t: map<Name, Id>, name: Name, e: Id)
    requires Ok(s, l, t, Some(e)) && e in s.inUse
    ensures name in t ==> t[name] in s.handles && s.handles[t[name]].refs > 0 && Unref(Detached(s, t[name]), t[name]).inUse == Without(s.inUse, t[name])
    ensures name in t ==> e in Without(s.inUse, t[name])
    ensures name in t ==> forall k | k in t && k != name && t[k] in s.inUse :: t[k] in Without(s.inUse, t[name])
  {
    if name in t { WithoutMembers(s.inUse, t[name]); }
  }

  lemma RemovedIsLoose(s: Shard, l: Ledger, t: map<Name, Id>, name: Name)
    requires Ok(s, l, t, None)
    ensures Ok(s, l, t - {name}, if name in t then Some(t[name]) else None)
  {
  }

  lemma InsertedIsTight(s: Shard, l: Ledger, t: map<Name, Id>, name: Name, e: Id)
    requires Ok(s, l, t, Some(e)) && s.handles[e].name == name
    ensures Ok(s, l, t[name := e], if name in t then Some(t[name]) else None)
  {
  }

  lemma CachedIsNamed(s: Shard, l: Ledger, t: map<Name, Id>, id: Id)
    requires Ok(s, l, t, None) && id in s.handles
    ensures s.handles[id].inCache <==> id in t.Values
  {
  }
}
