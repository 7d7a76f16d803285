/**
 Table files: data blocks, an index of shortened separators, a filter, and the lookup that goes
 through all three (table/table_builder.cc, table/table.cc). A block is read back as it was written.
 */
module Tables {
  import opened Options
  import opened Coding
  import opened Comparators
  import opened Bloom
  import opened FilterBlocks

  datatype TableEntry = TableEntry(key: InternalKey, value: Bytes)

  /** An entry of the index block: a key at or after the block's last one, and where the block is. */
  datatype IndexEntry = IndexEntry(key: InternalKey, handle: nat)

  ghost predicate SortedEntries(es: seq<TableEntry>) {
    forall i, j | 0 <= i < j < |es| :: InternalLess(es[i].key, es[j].key)
  }

  /** The first entry at or after the key, in a linear scan. */
  function First(es: seq<TableEntry>, k: InternalKey): (i: nat)
    ensures i <= |es| && (forall j | 0 <= j < i :: InternalLess(es[j].key, k)) && (i < |es| ==> !InternalLess(es[i].key, k))
  {
    if es == [] || !InternalLess(es[0].key, k) then 0 else 1 + First(es[1..], k)
  }

  function FirstIndex(index: seq<IndexEntry>, k: InternalKey): (i: nat)
    ensures i <= |index| && (forall j | 0 <= j < i :: InternalLess(index[j].key, k)) && (i < |index| ==> !InternalLess(index[i].key, k))
  {
    if index == [] || !InternalLess(index[0].key, k) then 0 else 1 + FirstIndex(index[1..], k)
  }

  /** The separator is the block's last key, or has a user key strictly between that one's and the next key's. */
  ghost predicate Separates(sep: InternalKey, last: InternalKey, next: Option<InternalKey>) {
    sep == last || (Less(last.user, sep.user) && (next.Some? ==> Less(sep.user, next.value.user)))
  }

  /** Block i holds the entries from cuts[i] up to cuts[i + 1]. */
  ghost predicate CutsOk(es: seq<TableEntry>, cuts: seq<nat>) {
    && cuts != [] && cuts[0] == 0 && (forall i | 0 <= i < |cuts| :: cuts[i] <= |es|)
    && forall i, j | 0 <= i < j < |cuts| :: cuts[i] < cuts[j]
  }

  function KeyAt(es: seq<TableEntry>, i: nat): Option<InternalKey> {
    if i < |es| then Some(es[i].key) else None
  }

  ghost predicate BlockOk(index: seq<IndexEntry>, blocks: map<nat, seq<TableEntry>>, es: seq<TableEntry>, cuts: seq<nat>, i: nat)
    requires CutsOk(es, cuts) && |cuts| > |index| > i
  {
    && index[i].handle in blocks && blocks[index[i].handle] == es[cuts[i]..cuts[i + 1]]
    && Separates(index[i].key, es[cuts[i + 1] - 1].key, KeyAt(es, cuts[i + 1]))
  }

  /** The first entries of the index are in order. */
  ghost predicate IndexOk(index: seq<IndexEntry>, blocks: map<nat, seq<TableEntry>>, es: seq<TableEntry>, cuts: seq<nat>) {
    && CutsOk(es, cuts) && |cuts| > |index|
    && forall i | 0 <= i < |index| :: BlockOk(index, blocks, es, cuts, i)
  }

  lemma LessOrEqual(a: Bytes, b: Bytes, c: Bytes)
    requires Less(a, b) && !Less(c, b)
    ensures Less(a, c)
  {
    Total(b, c);
    if Less(b, c) { Transitive(a, b, c); }
  }

  /** Keys ascend with their places, user keys weakly. */
  lemma UserOrder(es: seq<TableEntry>, i: nat, j: nat)
    requires SortedEntries(es) && i <= j < |es|
    ensures !Less(es[j].key.user, es[i].key.user)
  {
    Irreflexive(es[i].key.user);
    if i < j && Less(es[i].key.user, es[j].key.user) { NotBoth(es[i].key.user, es[j].key.user); }
  }

  /** The index leads to the block of the first entry with k's user key at or after k. */
  lemma IndexFinds(index: seq<IndexEntry>, blocks: map<nat, seq<TableEntry>>, es: seq<TableEntry>, cuts: seq<nat>, k: InternalKey, p: nat, b: nat)
    requires SortedEntries(es) && IndexOk(index, blocks, es, cuts) && p == First(es, k) && p < |es| && es[p].key.user == k.user
    requires b < |index| && cuts[b] <= p < cuts[b + 1]
    ensures FirstIndex(index, k) == b
  {
    var i := FirstIndex(index, k);
    if i < b {
      IndexNotEarlier(index, blocks, es, cuts, k, p, b, i);
    } else if b < i {
      assert BlockOk(index, blocks, es, cuts, b);
      var last := cuts[b + 1] - 1;
      SeparatorBeyond(index[b].key, es[last].key, es[p].key, k, p < last);
    }
  }

  /** The index key of an earlier block is before k. */
  lemma IndexNotEarlier(index: seq<IndexEntry>, blocks: map<nat, seq<TableEntry>>, es: seq<TableEntry>, cuts: seq<nat>, k: InternalKey, p: nat, b: nat, i: nat)
    requires SortedEntries(es) && IndexOk(index, blocks, es, cuts) && p == First(es, k) && p < |es| && es[p].key.user == k.user
    requires i < b < |index| && cuts[b] <= p < cuts[b + 1]
    ensures InternalLess(index[i].key, k)
  {
    assert BlockOk(index, blocks, es, cuts, i);
    var (last, next) := (cuts[i + 1] - 1, cuts[i + 1]);
    assert i + 1 < b ==> cuts[i + 1] < cuts[b];
    assert InternalLess(es[last].key, k);
    if index[i].key != es[last].key {
      UserOrder(es, next, p);
      LessOrEqual(index[i].key.user, es[next].key.user, k.user);
    }
  }

  /** A separator is not before k when an entry of its block is not. */
  lemma SeparatorBeyond(sep: InternalKey, last: InternalKey, e: InternalKey, k: InternalKey, before: bool)
    requires !InternalLess(e, k) && e.user == k.user && if before then InternalLess(e, last) else e == last
    requires sep == last || Less(last.user, sep.user)
    ensures !InternalLess(sep, k)
  {
    Irreflexive(k.user);
    if Less(e.user, last.user) { NotBoth(e.user, last.user); }
    if sep != last {
      if Less(e.user, last.user) { Transitive(e.user, last.user, sep.user); }
      NotBoth(k.user, sep.user);
    }
  }

  /** Every entry of an indexed table is in a block. */
  lemma {:induction false} BlockOf(cuts: seq<nat>, n: nat, p: nat) returns (b: nat)
    requires n < |cuts| && cuts[0] <= p < cuts[n]
    ensures b < n && cuts[b] <= p < cuts[b + 1]
  {
    if p < cuts[n - 1] {
      b := BlockOf(cuts, n - 1, p);
    } else {
      b := n - 1;
    }
  }

  /** The scan of a block finds what the scan of all entries finds, if that is in the block. */
  lemma FirstInBlock(es: seq<TableEntry>, a: nat, c: nat, k: InternalKey, p: nat)
    requires SortedEntries(es) && a <= p < c <= |es| && p == First(es, k)
    ensures First(es[a..c], k) == p - a
  {
    var block := es[a..c];
    assert forall j | 0 <= j < |block| :: block[j] == es[a + j];
  }

  // ---- Building ----

  /** One more entry; the index entry of the block before it may come with it. */
  lemma EntryAdded(index: seq<IndexEntry>, file: map<nat, seq<TableEntry>>, es: seq<TableEntry>, cuts: seq<nat>, e: TableEntry)
    requires IndexOk(index, file, es, cuts)
    requires index != [] && cuts[|index|] == |es| ==> Separates(index[|index| - 1].key, es[|es| - 1].key, Some(e.key))
    ensures IndexOk(index, file, es + [e], cuts)
  {
    var es' := es + [e];
    forall i | 0 <= i < |index| ensures BlockOk(index, file, es', cuts, i) {
      assert BlockOk(index, file, es, cuts, i);
      assert es'[cuts[i]..cuts[i + 1]] == es[cuts[i]..cuts[i + 1]];
      assert cuts[i + 1] == |es| ==> i + 1 == |index| by {
        assert i + 1 < |index| ==> cuts[i + 1] < cuts[|index|];
      }
    }
  }

  lemma SortedOn(es: seq<TableEntry>, e: TableEntry)
    requires SortedEntries(es) && (es != [] ==> InternalLess(es[|es| - 1].key, e.key))
    ensures SortedEntries(es + [e])
  {
    var es' := es + [e];
    forall i, j | 0 <= i < j < |es'| ensures InternalLess(es'[i].key, es'[j].key) {
      if j == |es| && i < |es| - 1 { InternalTransitive(es[i].key, es[|es| - 1].key, e.key); }
    }
  }

  /** The index entry of the block that comes next. */
  lemma IndexAdded(index: seq<IndexEntry>, file: map<nat, seq<TableEntry>>, es: seq<TableEntry>, cuts: seq<nat>, x: IndexEntry)
    requires IndexOk(index, file, es, cuts) && |cuts| == |index| + 2
    requires x.handle in file && file[x.handle] == es[cuts[|index|]..cuts[|index| + 1]]
    requires Separates(x.key, es[cuts[|index| + 1] - 1].key, KeyAt(es, cuts[|index| + 1]))
    ensures IndexOk(index + [x], file, es, cuts)
  {
    forall i | 0 <= i < |index| + 1 ensures BlockOk(index + [x], file, es, cuts, i) {
      assert i < |index| ==> BlockOk(index, file, es, cuts, i);
    }
  }

  /** A block is written where no other one is. */
  lemma BlockWritten(index: seq<IndexEntry>, file: map<nat, seq<TableEntry>>, es: seq<TableEntry>, cuts: seq<nat>, at: nat, block: seq<TableEntry>)
    requires IndexOk(index, file, es, cuts) && at !in file && cuts[|cuts| - 1] < |es|
    ensures IndexOk(index, file[at := block], es, cuts + [|es|])
  {
    var (file', cuts') := (file[at := block], cuts + [|es|]);
    forall i | 0 <= i < |index| ensures BlockOk(index, file', es, cuts', i) {
      assert BlockOk(index, file, es, cuts, i);
    }
  }

  /** A finished table. */
  datatype Table = Table(index: seq<IndexEntry>, file: map<nat, seq<TableEntry>>, filter: Option<Bytes>)

  /** Entry j is one of block i. */
  ghost predicate InBlock(cuts: seq<nat>, i: nat, j: nat) {
    i + 1 < |cuts| && cuts[i] <= j < cuts[i + 1]
  }

  /** The offset of each entry of block i is where the block is. */
  ghost predicate OffsetOfBlock(cuts: seq<nat>, offs: seq<nat>, i: nat, at: nat) {
    forall j | 0 <= j < |offs| && InBlock(cuts, i, j) :: offs[j] == at
  }

  ghost predicate OffsetsFit(index: seq<IndexEntry>, cuts: seq<nat>, offs: seq<nat>) {
    forall i | 0 <= i < |index| :: OffsetOfBlock(cuts, offs, i, index[i].handle)
  }

  /** The user keys, in order, of the entries whose blocks start in the i-th 2KB. */
  ghost function GroupOf(es: seq<TableEntry>, offs: seq<nat>, i: nat): seq<Bytes>
    requires |offs| == |es|
  {
    if es == [] then [] else
      var n := |es| - 1;
      GroupOf(es[..n], offs[..n], i) + if offs[n] / BASE == i then [es[n].key.user] else []
  }

  ghost function Groups(es: seq<TableEntry>, offs: seq<nat>, n: nat): seq<seq<Bytes>>
    requires |offs| == |es|
  {
    seq(n, i requires 0 <= i < n => GroupOf(es, offs, i))
  }

  lemma {:induction false} GroupMembers(es: seq<TableEntry>, offs: seq<nat>, i: nat, j: nat)
    requires |offs| == |es| && j < |es| && offs[j] / BASE == i
    ensures es[j].key.user in GroupOf(es, offs, i)
  {
    var n := |es| - 1;
    if j < n { GroupMembers(es[..n], offs[..n], i, j); }
  }

  lemma {:induction false} GroupEmpty(es: seq<TableEntry>, offs: seq<nat>, i: nat)
    requires |offs| == |es| && forall j | 0 <= j < |offs| :: offs[j] / BASE != i
    ensures GroupOf(es, offs, i) == []
  {
    if es != [] { GroupEmpty(es[..|es| - 1], offs[..|es| - 1], i); }
  }

  lemma GroupGrows(es: seq<TableEntry>, offs: seq<nat>, e: TableEntry, at: nat, i: nat)
    requires |offs| == |es|
    ensures GroupOf(es + [e], offs + [at], i) == GroupOf(es, offs, i) + if at / BASE == i then [e.key.user] else []
  {
    assert (es + [e])[..|es|] == es && (offs + [at])[..|es|] == offs;
  }

  lemma GroupsGrow(es: seq<TableEntry>, offs: seq<nat>, e: TableEntry, at: nat)
    requires |offs| == |es|
    ensures Groups(es + [e], offs + [at], at / BASE) == Groups(es, offs, at / BASE)
  {
    forall i | 0 <= i < at / BASE ensures GroupOf(es + [e], offs + [at], i) == GroupOf(es, offs, i) {
      GroupGrows(es, offs, e, at, i);
    }
  }

  /** Moving on to a later offset closes the last group and leaves empty ones behind. */
  lemma GroupsMoveOn(es: seq<TableEntry>, offs: seq<nat>, m: nat, n: nat)
    requires |offs| == |es| && m <= n && forall j | 0 <= j < |offs| :: offs[j] / BASE <= m
    ensures Groups(es, offs, n) == GroupsUpTo(Groups(es, offs, m), GroupOf(es, offs, m), n)
    ensures m < n ==> GroupOf(es, offs, n) == []
  {
    forall i | m < i <= n ensures GroupOf(es, offs, i) == [] {
      GroupEmpty(es, offs, i);
    }
  }

  /** The filter block has a filter for the user keys of every 2KB of data. */
  ghost predicate FilterFits(block: Bytes, policy: Policy, es: seq<TableEntry>, offs: seq<nat>)
    requires |offs| == |es|
  {
    exists n: nat :: IsFilterBlock(block, policy, Groups(es, offs, n)) && forall j | 0 <= j < |offs| :: offs[j] / BASE < n
  }

  /** All entries are in indexed blocks, at these offsets. */
  ghost predicate IndexedTable(t: Table, es: seq<TableEntry>, cuts: seq<nat>, offs: seq<nat>) {
    && SortedEntries(es) && IndexOk(t.index, t.file, es, cuts) && |cuts| == |t.index| + 1 && cuts[|t.index|] == |es|
    && |offs| == |es| && OffsetsFit(t.index, cuts, offs)
  }

  /** Besides, the filter, if there is one, is that of the entries' keys. */
  ghost predicate TableOk(t: Table, es: seq<TableEntry>, cuts: seq<nat>, offs: seq<nat>, policy: Policy) {
    IndexedTable(t, es, cuts, offs) && (t.filter.Some? ==> FilterFits(t.filter.value, policy, es, offs))
  }

  class TableBuilder {
    const filter: FilterBlockBuilder?
    var lastKey: InternalKey
    var pendingIndexEntry: bool
    var pendingHandle: nat
    var offset: nat
    var dataBlock: seq<TableEntry>
    var indexBlock: seq<IndexEntry>
    /** What was written to the file, by offset. */
    var file: map<nat, seq<TableEntry>>
    /** Every entry added, the offset of its block, and where the blocks begin. */
    ghost var entries: seq<TableEntry>
    ghost var offsets: seq<nat>
    ghost var cuts: seq<nat>

    constructor (filter: FilterBlockBuilder?)
      requires filter != null ==> filter.Valid() && filter.groups == [] && filter.pending == []
      ensures Valid() && entries == [] && this.filter == filter
    {
      this.filter := filter;
      lastKey, pendingIndexEntry, pendingHandle, offset := InternalKey([], 0), false, 0, 0;
      dataBlock, indexBlock, file, entries, offsets, cuts := [], [], map[], [], [], [0];
    }

    ghost predicate LayoutOk()
      reads this
    {
      && IndexOk(indexBlock, file, entries, cuts)
      && |cuts| == |indexBlock| + (if pendingIndexEntry then 2 else 1)
      && dataBlock == entries[cuts[|cuts| - 1]..]
      && (entries != [] ==> lastKey == entries[|entries| - 1].key)
      && (forall h | h in file :: h < offset)
      && (pendingIndexEntry ==> dataBlock == [] && pendingHandle in file && file[pendingHandle] == entries[cuts[|indexBlock|]..cuts[|indexBlock| + 1]])
    }

    /** Entries know the offset of their block: the written one's, or the one the next block gets. */
    ghost predicate OffsetsOk()
      requires LayoutOk()
      reads this
    {
      && |offsets| == |entries| && OffsetsFit(indexBlock, cuts, offsets)
      && (pendingIndexEntry ==> OffsetOfBlock(cuts, offsets, |indexBlock|, pendingHandle))
      && (forall j | cuts[|cuts| - 1] <= j < |offsets| :: offsets[j] == offset)
    }

    /** The filter has the entries' user keys grouped by offset; the last group is not closed yet. */
    ghost predicate GroupsThem(es: seq<TableEntry>, offs: seq<nat>)
      reads this, filter
    {
      filter != null ==>
        && filter.Valid() && |offs| == |es| && (forall j | 0 <= j < |offs| :: offs[j] <= offset)
        && filter.groups == Groups(es, offs, offset / BASE) && filter.pending == GroupOf(es, offs, offset / BASE)
    }

    ghost predicate FilterOk()
      reads this, filter
    {
      GroupsThem(entries, offsets)
    }

    method AddToFilter(key: InternalKey, ghost e: TableEntry)
      requires FilterOk() && e.key == key
      modifies filter
      ensures GroupsThem(entries + [e], offsets + [offset])
    {
      if filter != null {
        GroupsGrow(entries, offsets, e, offset);
        GroupGrows(entries, offsets, e, offset, offset / BASE);
        filter.AddKey(key.user);
      }
    }

    ghost predicate Valid()
      reads this, filter
    {
      SortedEntries(entries) && LayoutOk() && OffsetsOk() && FilterOk() && (dataBlock == [] ==> pendingIndexEntry || entries == [])
    }

    /** If the next entry starts a block, the index entry before it separates them. */
    ghost predicate NextIsSeparate(key: InternalKey)
      reads this
    {
      indexBlock != [] && entries != [] && cuts != [] && cuts[|cuts| - 1] == |entries| ==>
        Separates(indexBlock[|indexBlock| - 1].key, entries[|entries| - 1].key, Some(key))
    }

    /** The index entry of the block written last, now that the key after it is known. */
    method AddPendingIndex(key: InternalKey)
      requires LayoutOk() && OffsetsOk() && pendingIndexEntry && entries != [] && InternalLess(lastKey, key)
      modifies this`indexBlock, this`pendingIndexEntry
      ensures LayoutOk() && OffsetsOk() && !pendingIndexEntry && NextIsSeparate(key)
    {
      var separator := InternalSeparator(lastKey, key);
      IndexAdded(indexBlock, file, entries, cuts, IndexEntry(separator, pendingHandle));
      indexBlock := indexBlock + [IndexEntry(separator, pendingHandle)];
      pendingIndexEntry := false;
    }

    method AppendEntry(key: InternalKey, value: Bytes)
      requires LayoutOk() && OffsetsOk() && !pendingIndexEntry && NextIsSeparate(key)
      modifies this`lastKey, this`dataBlock, this`entries, this`offsets
      ensures LayoutOk() && OffsetsOk() && dataBlock != []
      ensures entries == old(entries) + [TableEntry(key, value)] && offsets == old(offsets) + [offset]
    {
      ghost var e := TableEntry(key, value);
      EntryAdded(indexBlock, file, entries, cuts, e);
      assert (entries + [e])[cuts[|cuts| - 1]..] == dataBlock + [e];
      lastKey, dataBlock := key, dataBlock + [TableEntry(key, value)];
      entries, offsets := entries + [e], offsets + [offset];
    }

    /** Before a key goes to the data block, the block written before it gets its index entry. */
    method BeforeKey(key: InternalKey)
      requires Valid() && (entries != [] ==> InternalLess(lastKey, key))
      modifies this`indexBlock, this`pendingIndexEntry
      ensures LayoutOk() && OffsetsOk() && FilterOk() && !pendingIndexEntry && NextIsSeparate(key)
    {
      if pendingIndexEntry {
        PendingHasEntries();
        AddPendingIndex(key);
      }
    }

    /** The key goes to the filter, and the entry to the data block. */
    method AddEntry(key: InternalKey, value: Bytes)
      requires LayoutOk() && OffsetsOk() && FilterOk() && !pendingIndexEntry && NextIsSeparate(key)
      requires SortedEntries(entries + [TableEntry(key, value)])
      modifies this, filter
      ensures Valid() && entries == old(entries) + [TableEntry(key, value)] && dataBlock != []
    {
      AddToFilter(key, TableEntry(key, value));
      AppendEntry(key, value);
    }

    /** Keys come in ascending order. Whether the block is then full is the caller's guess at its size. */
    method Add(key: InternalKey, value: Bytes, full: bool)
      requires Valid() && (entries != [] ==> InternalLess(lastKey, key))
      modifies this, filter
      ensures Valid() && entries == old(entries) + [TableEntry(key, value)]
      ensures full <==> dataBlock == []
    {
      SortedOn(entries, TableEntry(key, value));
      BeforeKey(key);
      AddEntry(key, value);
      if full {
        Flush();
      }
    }

    lemma PendingHasEntries()
      requires LayoutOk() && pendingIndexEntry
      ensures entries != []
    {
      assert cuts[|indexBlock|] < cuts[|indexBlock| + 1];
    }

    /** Write the data block, if it holds anything; its index entry waits for the next key. */
    method Flush()
      requires Valid()
      modifies this, filter
      ensures Valid() && entries == old(entries) && dataBlock == [] && offset >= old(offset)
    {
      if dataBlock == [] {
        return;
      }
      WriteDataBlock();
      if filter != null {
        BaseGrows(offsets, old(offset), offset);
        GroupsMoveOn(entries, offsets, old(offset) / BASE, offset / BASE);
        filter.StartBlock(offset);
      }
    }

    lemma BaseGrows(offs: seq<nat>, a: nat, b: nat)
      requires a <= b && forall j | 0 <= j < |offs| :: offs[j] <= a
      ensures a / BASE <= b / BASE && forall j | 0 <= j < |offs| :: offs[j] / BASE <= a / BASE
    {
    }

    method WriteDataBlock()
      requires LayoutOk() && OffsetsOk() && dataBlock != [] && !pendingIndexEntry
      modifies this`pendingHandle, this`pendingIndexEntry, this`file, this`offset, this`dataBlock, this`cuts
      ensures LayoutOk() && OffsetsOk() && dataBlock == [] && pendingIndexEntry && offset > old(offset)
    {
      var size: nat :| size > 0;
      BlockWritten(indexBlock, file, entries, cuts, offset, dataBlock);
      assert entries[cuts[|indexBlock|]..|entries|] == dataBlock && entries[|entries|..] == [];
      pendingHandle, file := offset, file[offset := dataBlock];
      pendingIndexEntry, offset, dataBlock := true, offset + size, [];
      cuts := cuts + [|entries|];
    }

    /** The last index entry, under a short successor of the last key. */
    method FinishIndex()
      requires SortedEntries(entries) && LayoutOk() && OffsetsOk() && dataBlock == []
      modifies this`indexBlock, this`pendingIndexEntry
      ensures !pendingIndexEntry && forall block :: IndexedTable(Table(indexBlock, file, block), entries, cuts, offsets)
    {
      if pendingIndexEntry {
        PendingHasEntries();
        var successor := InternalSuccessor(lastKey);
        IndexAdded(indexBlock, file, entries, cuts, IndexEntry(successor, pendingHandle));
        indexBlock := indexBlock + [IndexEntry(successor, pendingHandle)];
        pendingIndexEntry := false;
      }
    }

    method FinishFilter() returns (block: Option<Bytes>)
      requires FilterOk() && |offsets| == |entries|
      modifies filter
      ensures block.Some? <==> filter != null
      ensures block.Some? && |filter.result| < TWO_32 ==> FilterFits(block.value, filter.policy, entries, offsets)
    {
      block := None;
      if filter != null {
        BaseGrows(offsets, offset, offset);
        GroupsMoveOn(entries, offsets, offset / BASE, offset / BASE + 1);
        ghost var closed := filter.pending == [];
        var b := filter.Finish();
        block := Some(b);
        if |filter.result| < TWO_32 {
          LastGroup(b, filter.policy, entries, offsets, offset / BASE, filter.groups, closed);
        }
      }
    }

    /** The last group has a filter unless it is empty. */
    static lemma LastGroup(block: Bytes, policy: Policy, es: seq<TableEntry>, offs: seq<nat>, m: nat, groups: seq<seq<Bytes>>, closed: bool)
      requires |offs| == |es| && (forall j | 0 <= j < |offs| :: offs[j] / BASE <= m) && IsFilterBlock(block, policy, groups)
      requires closed <==> GroupOf(es, offs, m) == []
      requires groups == Groups(es, offs, m) + if closed then [] else [GroupOf(es, offs, m)]
      ensures FilterFits(block, policy, es, offs)
    {
      if closed {
        forall j | 0 <= j < |offs| ensures offs[j] / BASE < m {
          if offs[j] / BASE == m { GroupMembers(es, offs, m, j); }
        }
        assert groups == Groups(es, offs, m);
      } else {
        assert groups == Groups(es, offs, m + 1);
      }
    }

    /** A table of all entries; a filter block's offsets have 32 bits. */
    ghost predicate IsFinished(t: Table)
      reads this, filter
    {
      && (t.filter.Some? <==> filter != null) && IndexedTable(t, entries, cuts, offsets)
      && (filter != null && |filter.result| < TWO_32 ==> TableOk(t, entries, cuts, offsets, filter.policy))
    }

    /** The last block, the filter block, the rest of the index. */
    method Finish() returns (t: Table)
      requires Valid()
      modifies this, filter
      ensures IsFinished(t) && entries == old(entries)
    {
      Flush();
      t := FinishBlocks();
    }

    method FinishBlocks() returns (t: Table)
      requires Valid() && dataBlock == []
      modifies this`indexBlock, this`pendingIndexEntry, filter
      ensures IsFinished(t)
    {
      var block := FinishFilter();
      FinishIndex();
      t := Table(indexBlock, file, block);
    }
  }

  // ---- Reading ----

  /**
   InternalGet: index, filter, block; what is found there is handed on, whatever its user key. The block
   is read exactly if there is one and its filter, if there is one, has all the probes of the user key.
   */
  method InternalGet(t: Table, k: InternalKey, policy: Policy, ghost es: seq<TableEntry>, ghost cuts: seq<nat>, ghost offs: seq<nat>)
      returns (r: Option<TableEntry>, blockRead: bool)
    requires TableOk(t, es, cuts, offs, policy)
    ensures var p := First(es, k);
      if p < |es| && es[p].key.user == k.user then r == Some(es[p]) else r.None? || r.value.key.user != k.user
    ensures var i := FirstIndex(t.index, k);
      blockRead <==> i < |t.index| && (t.filter.Some? ==> ProbesMet(policy, GroupOf(es, offs, t.index[i].handle / BASE), k.user))
    ensures !blockRead ==> r.None?
  {
    var i := FirstIndex(t.index, k);
    r, blockRead := None, false;
    GetFinds(t, k, es, cuts, offs);
    if i < |t.index| {
      var handle := t.index[i].handle;
      BlockYields(t.index, t.file, es, cuts, k, i);
      blockRead := true;
      if t.filter.Some? {
        blockRead := AskFilter(t, k, policy, es, cuts, offs, i);
      }
      if blockRead {
        var block := t.file[handle];
        var j := First(block, k);
        if j < |block| {
          r := Some(block[j]);
        }
      }
    }
  }

  /** What the filter says of the key for block i. */
  method AskFilter(t: Table, k: InternalKey, policy: Policy, ghost es: seq<TableEntry>, ghost cuts: seq<nat>, ghost offs: seq<nat>, i: nat)
      returns (may: bool)
    requires TableOk(t, es, cuts, offs, policy) && t.filter.Some? && i < |t.index|
    ensures may <==> ProbesMet(policy, GroupOf(es, offs, t.index[i].handle / BASE), k.user)
    ensures k.user in GroupOf(es, offs, t.index[i].handle / BASE) ==> may
  {
    ghost var n: nat :| IsFilterBlock(t.filter.value, policy, Groups(es, offs, n)) && forall j | 0 <= j < |offs| :: offs[j] / BASE < n;
    assert InBlock(cuts, i, cuts[i]) && offs[cuts[i]] == t.index[i].handle by {
      assert OffsetOfBlock(cuts, offs, i, t.index[i].handle);
    }
    may := FilterBlocks.KeyMayMatch(policy, t.filter.value, t.index[i].handle, k.user, Groups(es, offs, n));
    OwnKeysMeet(policy, GroupOf(es, offs, t.index[i].handle / BASE), k.user);
  }

  /** If the first entry at or after k has k's user key, the index, the filter and the block lead to it. */
  lemma GetFinds(t: Table, k: InternalKey, es: seq<TableEntry>, cuts: seq<nat>, offs: seq<nat>)
    requires IndexedTable(t, es, cuts, offs)
    ensures var (p, i) := (First(es, k), FirstIndex(t.index, k));
      p < |es| && es[p].key.user == k.user ==>
        && i < |t.index| && t.index[i].handle in t.file && k.user in GroupOf(es, offs, t.index[i].handle / BASE)
        && var block := t.file[t.index[i].handle]; First(block, k) < |block| && block[First(block, k)] == es[p]
  {
    var p := First(es, k);
    if p < |es| && es[p].key.user == k.user {
      var b := BlockOf(cuts, |t.index|, p);
      IndexFinds(t.index, t.file, es, cuts, k, p, b);
      BlockFinds(t.index, t.file, es, cuts, k, p, b);
      assert OffsetOfBlock(cuts, offs, b, t.index[b].handle) && InBlock(cuts, b, p);
      GroupMembers(es, offs, t.index[b].handle / BASE, p);
    }
  }

  lemma BlockFinds(index: seq<IndexEntry>, file: map<nat, seq<TableEntry>>, es: seq<TableEntry>, cuts: seq<nat>, k: InternalKey, p: nat, b: nat)
    requires SortedEntries(es) && IndexOk(index, file, es, cuts) && p == First(es, k) && b < |index| && cuts[b] <= p < cuts[b + 1]
    ensures index[b].handle in file
    ensures var block := file[index[b].handle]; First(block, k) < |block| && block[First(block, k)] == es[p]
  {
    assert BlockOk(index, file, es, cuts, b);
    FirstInBlock(es, cuts[b], cuts[b + 1], k, p);
  }

  /** What a block yields has k's user key only if the first entry at or after k has it. */
  lemma BlockYields(index: seq<IndexEntry>, file: map<nat, seq<TableEntry>>, es: seq<TableEntry>, cuts: seq<nat>, k: InternalKey, i: nat)
    requires SortedEntries(es) && IndexOk(index, file, es, cuts) && i < |index|
    ensures index[i].handle in file
    ensures var (block, p) := (file[index[i].handle], First(es, k)); var j := First(block, k);
      j < |block| && block[j].key.user == k.user ==> p < |es| && es[p].key.user == k.user
  {
    assert BlockOk(index, file, es, cuts, i);
    var block := file[index[i].handle];
    var j := First(block, k);
    if j < |block| { FoundIsNotBefore(es, k, cuts[i] + j); }
  }

  /** If an entry found at or after k has k's user key, so has the first one. */
  lemma FoundIsNotBefore(es: seq<TableEntry>, k: InternalKey, q: nat)
    requires SortedEntries(es) && q < |es| && !InternalLess(es[q].key, k)
    ensures es[q].key.user == k.user ==> First(es, k) < |es| && es[First(es, k)].key.user == k.user
  {
    var p := First(es, k);
    UserOrder(es, p, q);
    Total(es[p].key.user, k.user);
  }
}
