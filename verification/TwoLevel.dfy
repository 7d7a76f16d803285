/**
 One iterator over many blocks: an index names the blocks, and only the current one is open
 (table/two_level_iterator.cc). The files of a sorted level are walked the same way.
 */
module TwoLevel {
  import opened Options
  import opened Entries
  import opened Cursors

  function Concat(blocks: seq<seq<Entry>>): seq<Entry> {
    if blocks == [] then [] else Concat(blocks[..|blocks| - 1]) + blocks[|blocks| - 1]
  }

  /** Where block b starts. */
  function Offset(blocks: seq<seq<Entry>>, b: nat): nat
    requires b <= |blocks|
  {
    |Concat(blocks[..b])|
  }

  lemma OffsetStep(blocks: seq<seq<Entry>>, b: nat)
    requires b < |blocks|
    ensures Offset(blocks, b + 1) == Offset(blocks, b) + |blocks[b]|
  {
    assert blocks[..b + 1][..b] == blocks[..b];
  }

  lemma {:induction false} ConcatPrefix(blocks: seq<seq<Entry>>, a: nat, b: nat)
    requires a <= b <= |blocks|
    ensures Concat(blocks[..a]) <= Concat(blocks[..b])
  {
    if a < b {
      ConcatPrefix(blocks, a, b - 1);
      assert blocks[..b][..b - 1] == blocks[..b - 1];
    }
  }

  lemma ConcatAt(blocks: seq<seq<Entry>>, b: nat, j: nat)
    requires b < |blocks| && j < |blocks[b]|
    ensures Offset(blocks, b) + j < Offset(blocks, b + 1) <= |Concat(blocks)|
    ensures Concat(blocks)[Offset(blocks, b) + j] == blocks[b][j]
  {
    ConcatPrefix(blocks, b + 1, |blocks|);
    assert blocks[..b + 1][..b] == blocks[..b] && blocks[..|blocks|] == blocks;
  }

  lemma {:induction false} Locate(blocks: seq<seq<Entry>>, n: nat, p: nat) returns (b: nat, j: nat)
    requires n <= |blocks| && p < Offset(blocks, n)
    ensures b < n && j < |blocks[b]| && p == Offset(blocks, b) + j && Concat(blocks)[..|Concat(blocks)|] == Concat(blocks)
  {
    OffsetStep(blocks, n - 1);
    if p < Offset(blocks, n - 1) {
      b, j := Locate(blocks, n - 1, p);
    } else {
      b, j := n - 1, p - Offset(blocks, n - 1);
    }
  }

  /** Key i of the index is at or after every entry of block i and before every entry of later blocks. */
  ghost predicate Indexed(index: seq<Entry>, blocks: seq<seq<Entry>>) {
    && |index| == |blocks|
    && (forall i, e | 0 <= i < |index| && e in blocks[i] :: !Lt(index[i], e))
    && (forall i, j, e | 0 <= i < j < |index| && e in blocks[j] :: Lt(index[i], e))
  }

  lemma {:induction false} FirstIsUnique(es: seq<Entry>, k: UserKey, s: nat, q: nat)
    requires q <= |es| && (forall j | 0 <= j < q :: Before(es[j], k, s)) && (q < |es| ==> !Before(es[q], k, s))
    ensures FirstAtOrAfter(es, k, s) == q
  {
    var i := FirstAtOrAfter(es, k, s);
  }

  /** Seek in the index, then in the block it names. */
  lemma SeekByIndex(index: seq<Entry>, blocks: seq<seq<Entry>>, k: UserKey, s: nat)
    requires Indexed(index, blocks) && forall b | b in blocks :: Sorted(b)
    ensures var i := FirstAtOrAfter(index, k, s);
      FirstAtOrAfter(Concat(blocks), k, s) ==
        if i < |index| then Offset(blocks, i) + FirstAtOrAfter(blocks[i], k, s) else |Concat(blocks)|
  {
    var (i, all) := (FirstAtOrAfter(index, k, s), Concat(blocks));
    assert blocks[..|blocks|] == blocks;
    if i < |index| {
      OffsetStep(blocks, i);
      ConcatPrefix(blocks, i + 1, |blocks|);
    }
    var q := if i < |index| then Offset(blocks, i) + FirstAtOrAfter(blocks[i], k, s) else |all|;
    forall p | 0 <= p < |all| ensures Before(all[p], k, s) == (p < q) {
      var b, j := Locate(blocks, |blocks|, p);
      ConcatAt(blocks, b, j);
      BeforeInBlock(index, blocks, k, s, b, j);
      if b < i { ConcatPrefix(blocks, b + 1, i); }
      if b > i { ConcatPrefix(blocks, i + 1, b); }
    }
    FirstIsUnique(all, k, s, q);
  }

  /** The same, when nothing of the named block is at or after the key. */
  lemma SeekPlace(index: seq<Entry>, blocks: seq<seq<Entry>>, k: UserKey, s: nat)
    requires Indexed(index, blocks) && forall b | b in blocks :: Sorted(b)
    ensures var i, q := FirstAtOrAfter(index, k, s), FirstAtOrAfter(Concat(blocks), k, s);
      if i == |index| then q == |Concat(blocks)| else
        var p := FirstAtOrAfter(blocks[i], k, s);
        q == if p < |blocks[i]| then Offset(blocks, i) + p else Offset(blocks, i + 1)
  {
    SeekByIndex(index, blocks, k, s);
    var i := FirstAtOrAfter(index, k, s);
    if i < |index| { OffsetStep(blocks, i); }
  }

  lemma BeforeInBlock(index: seq<Entry>, blocks: seq<seq<Entry>>, k: UserKey, s: nat, b: nat, j: nat)
    requires Indexed(index, blocks) && (forall b | b in blocks :: Sorted(b)) && b < |blocks| && j < |blocks[b]|
    ensures var i := FirstAtOrAfter(index, k, s);
      Before(blocks[b][j], k, s) <==> b < i || (b == i && j < FirstAtOrAfter(blocks[b], k, s))
  {
    var i := FirstAtOrAfter(index, k, s);
    assert blocks[b][j] in blocks[b] && blocks[b] in blocks;
    if b < i {
      assert Before(index[b], k, s);
    } else if b > i {
      assert Lt(index[i], blocks[b][j]);
    } else {
      BlockSplit(blocks[b], k, s, j);
    }
  }

  lemma {:induction false} BlockSplit(es: seq<Entry>, k: UserKey, s: nat, j: nat)
    requires Sorted(es) && j < |es|
    ensures Before(es[j], k, s) == (j < FirstAtOrAfter(es, k, s))
  {
    var i := FirstAtOrAfter(es, k, s);
    assert i < j ==> Lt(es[i], es[j]);
  }

  class TwoLevelIterator {
    const index: seq<Entry>
    const blocks: seq<seq<Entry>>
    var indexIter: Cursor
    var dataIter: Option<Cursor>
    /** The block the data iterator was opened for. */
    var dataBlockHandle: nat

    constructor (index: seq<Entry>, blocks: seq<seq<Entry>>)
      requires Indexed(index, blocks) && forall b | b in blocks :: Sorted(b)
      ensures Ok() && !Valid() && this.index == index && this.blocks == blocks
    {
      this.index, this.blocks := index, blocks;
      indexIter, dataIter, dataBlockHandle := Cursor(index, None), None, 0;
    }

    predicate Valid()
      reads this
    {
      dataIter.Some? && dataIter.value.Valid()
    }

    ghost predicate Linked()
      reads this
    {
      && Indexed(index, blocks) && (forall b | b in blocks :: Sorted(b))
      && indexIter.es == index && indexIter.Ok()
      && (dataIter.Some? ==> dataBlockHandle < |blocks| && dataIter.value.es == blocks[dataBlockHandle] && dataIter.value.Ok())
    }

    ghost predicate Ok()
      reads this
    {
      Linked() && (Valid() ==> indexIter.at == Some(dataBlockHandle))
    }

    /** The same position in the concatenation of the blocks. */
    ghost function Abs(): Cursor
      requires Ok()
      reads this
    {
      Cursor(Concat(blocks), if Valid() then Some(Offset(blocks, dataBlockHandle) + dataIter.value.at.value) else None)
    }

    method Key() returns (e: Entry)
      requires Ok() && Valid()
      ensures Abs().Ok() && e == Abs().Key()
    {
      e := dataIter.value.Key();
      ConcatAt(blocks, dataBlockHandle, dataIter.value.at.value);
    }

    /** Open the block the index stands on, unless it is open already. */
    method InitDataBlock()
      requires Linked()
      modifies this`dataIter, this`dataBlockHandle
      ensures dataIter.Some? <==> indexIter.Valid()
      ensures dataIter.Some? ==> indexIter.at == Some(dataBlockHandle) && dataIter.value.es == blocks[dataBlockHandle] && dataIter.value.Ok()
    {
      if !indexIter.Valid() {
        dataIter := None;
      } else if dataIter.Some? && dataBlockHandle == indexIter.at.value {
      } else {
        dataIter, dataBlockHandle := Some(Cursor(blocks[indexIter.at.value], None)), indexIter.at.value;
      }
    }

    /** What the iterator will show once it has moved forward over empty blocks. */
    ghost predicate Ahead(q: nat)
      requires Ok()
      reads this
    {
      if indexIter.at.None? then dataIter.None? && q == |Concat(blocks)| else
        var b := indexIter.at.value;
        && dataIter.Some? && dataBlockHandle == b
        && q == if Valid() then Offset(blocks, b) + dataIter.value.at.value else Offset(blocks, b + 1)
    }

    method SkipEmptyDataBlocksForward(ghost q: nat)
      requires Ok() && Ahead(q)
      modifies this
      ensures Ok() && Abs() == Cursor(Concat(blocks), None).To(q)
    {
      while dataIter.None? || !dataIter.value.Valid()
        invariant Ok() && Ahead(q)
        decreases if indexIter.at.Some? then |index| - indexIter.at.value else 0
      {
        if !indexIter.Valid() {
          dataIter := None;
          return;
        }
        ghost var b := indexIter.at.value;
        indexIter := indexIter.Next();
        InitDataBlock();
        if dataIter.Some? {
          dataIter := Some(dataIter.value.SeekToFirst());
          OffsetStep(blocks, b + 1);
        } else {
          assert blocks[..|blocks|] == blocks;
        }
      }
      ConcatAt(blocks, dataBlockHandle, dataIter.value.at.value);
    }

    /** What the iterator will show once it has moved backward over empty blocks. */
    ghost predicate Behind(q: int)
      requires Ok()
      reads this
    {
      if indexIter.at.None? then dataIter.None? && q == -1 else
        var b := indexIter.at.value;
        && dataIter.Some? && dataBlockHandle == b
        && q == if Valid() then Offset(blocks, b) + dataIter.value.at.value else Offset(blocks, b) - 1
    }

    method SkipEmptyDataBlocksBackward(ghost q: int)
      requires Ok() && Behind(q)
      modifies this
      ensures Ok() && Abs() == Cursor(Concat(blocks), None).To(q)
    {
      while dataIter.None? || !dataIter.value.Valid()
        invariant Ok() && Behind(q)
        decreases if indexIter.at.Some? then indexIter.at.value + 1 else 0
      {
        if !indexIter.Valid() {
          dataIter := None;
          return;
        }
        ghost var b := indexIter.at.value;
        indexIter := indexIter.Prev();
        InitDataBlock();
        if dataIter.Some? {
          dataIter := Some(dataIter.value.SeekToLast());
          OffsetStep(blocks, b - 1);
        } else {
          assert blocks[..0] == [];
        }
      }
      ConcatAt(blocks, dataBlockHandle, dataIter.value.at.value);
    }

    method Seek(k: UserKey, s: nat)
      requires Ok()
      modifies this
      ensures Ok() && Abs() == old(Abs()).Seek(k, s)
    {
      SeekBlock(k, s);
      SkipEmptyDataBlocksForward(FirstAtOrAfter(Concat(blocks), k, s));
    }

    /** The seeks of Seek, before empty blocks are skipped. */
    method SeekBlock(k: UserKey, s: nat)
      requires Ok()
      modifies this
      ensures Ok() && Ahead(FirstAtOrAfter(Concat(blocks), k, s))
    {
      SeekPlace(index, blocks, k, s);
      indexIter := indexIter.Seek(k, s);
      InitDataBlock();
      if dataIter.Some? {
        dataIter := Some(dataIter.value.Seek(k, s));
      }
    }

    method SeekToFirst()
      requires Ok()
      modifies this
      ensures Ok() && Abs() == old(Abs()).SeekToFirst()
    {
      indexIter := indexIter.SeekToFirst();
      InitDataBlock();
      if dataIter.Some? {
        OffsetStep(blocks, 0);
        dataIter := Some(dataIter.value.SeekToFirst());
      }
      SkipEmptyDataBlocksForward(0);
    }

    method SeekToLast()
      requires Ok()
      modifies this
      ensures Ok() && Abs() == old(Abs()).SeekToLast()
    {
      indexIter := indexIter.SeekToLast();
      InitDataBlock();
      if dataIter.Some? {
        OffsetStep(blocks, |blocks| - 1);
        dataIter := Some(dataIter.value.SeekToLast());
      }
      assert blocks[..|blocks|] == blocks;
      SkipEmptyDataBlocksBackward(|Concat(blocks)| - 1);
    }

    method Next()
      requires Ok() && Valid()
      modifies this
      ensures Ok() && Abs() == old(Abs()).Next()
    {
      ghost var q := Offset(blocks, dataBlockHandle) + dataIter.value.at.value + 1;
      OffsetStep(blocks, dataBlockHandle);
      dataIter := Some(dataIter.value.Next());
      SkipEmptyDataBlocksForward(q);
    }

    method Prev()
      requires Ok() && Valid()
      modifies this
      ensures Ok() && Abs() == old(Abs()).Prev()
    {
      ghost var q := Offset(blocks, dataBlockHandle) + dataIter.value.at.value - 1;
      dataIter := Some(dataIter.value.Prev());
      SkipEmptyDataBlocksBackward(q);
    }
  }
}
