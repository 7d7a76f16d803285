/** A table's filter block: one filter for every 2KB of data (table/filter_block.cc). */
module FilterBlocks {
  import opened Coding
  import opened Bloom

  const BASE_LG: Byte := 11
  const BASE: nat := 2048

  // ---- The builder's bookkeeping ----

  /** The filters' places: filter i starts at starts[i], and ends where the next one starts. */
  function EndOf(starts: seq<nat>, size: nat, i: nat): nat
    requires i < |starts|
  {
    if i + 1 < |starts| then starts[i + 1] else size
  }

  /** The filter of a group of keys; a group without keys has none. */
  ghost predicate FilterOf(policy: Policy, filter: Bytes, keys: seq<Bytes>) {
    if keys == [] then filter == [] else IsFilter(policy, filter, keys)
  }

  /** The part of the data at the place of filter i is the filter of group i. */
  ghost predicate FilterAt(policy: Policy, data: Bytes, starts: seq<nat>, i: nat, keys: seq<Bytes>)
    requires i < |starts|
  {
    starts[i] <= EndOf(starts, |data|, i) <= |data| && FilterOf(policy, data[starts[i]..EndOf(starts, |data|, i)], keys)
  }

  /** Every group of keys has its filter. */
  ghost predicate FiltersOk(policy: Policy, data: Bytes, starts: seq<nat>, groups: seq<seq<Bytes>>) {
    |starts| == |groups| && forall i | 0 <= i < |starts| :: FilterAt(policy, data, starts, i, groups[i])
  }

  lemma OneMoreFilter(policy: Policy, data: Bytes, starts: seq<nat>, groups: seq<seq<Bytes>>, data': Bytes, keys: seq<Bytes>)
    requires FiltersOk(policy, data, starts, groups) && data <= data' && FilterOf(policy, data'[|data|..], keys)
    ensures FiltersOk(policy, data', starts + [|data|], groups + [keys])
  {
    var (starts', groups') := (starts + [|data|], groups + [keys]);
    forall i | 0 <= i < |starts'| ensures FilterAt(policy, data', starts', i, groups'[i]) {
      if i < |starts| {
        assert FilterAt(policy, data, starts, i, groups[i]);
        var (a, b) := (starts[i], EndOf(starts, |data|, i));
        assert EndOf(starts', |data'|, i) == b && data'[a..b] == data[a..b];
      } else {
        assert data'[|data|..|data'|] == data'[|data|..];
      }
    }
  }

  ghost predicate PieceAt(flat: Bytes, start: seq<nat>, i: nat, key: Bytes)
    requires i < |start|
  {
    start[i] <= EndOf(start, |flat|, i) <= |flat| && flat[start[i]..EndOf(start, |flat|, i)] == key
  }

  /** The keys waiting for a filter, packed into one string. */
  ghost predicate Packed(flat: Bytes, start: seq<nat>, pending: seq<Bytes>) {
    |start| == |pending| && forall i | 0 <= i < |start| :: PieceAt(flat, start, i, pending[i])
  }

  lemma PackOneMore(flat: Bytes, start: seq<nat>, pending: seq<Bytes>, key: Bytes)
    requires Packed(flat, start, pending)
    ensures Packed(flat + key, start + [|flat|], pending + [key])
  {
    var (flat', start', pending') := (flat + key, start + [|flat|], pending + [key]);
    forall i | 0 <= i < |start'| ensures PieceAt(flat', start', i, pending'[i]) {
      if i < |start| {
        assert PieceAt(flat, start, i, pending[i]);
        var e := EndOf(start, |flat|, i);
        assert EndOf(start', |flat'|, i) == e;
        assert flat'[start[i]..e] == flat[start[i]..e];
      }
    }
  }

  /** Where the data is, and which filter a key was added to. */
  ghost predicate AddedTo(groups: seq<seq<Bytes>>, pending: seq<Bytes>, index: nat, key: Bytes) {
    (index < |groups| && key in groups[index]) || (index == |groups| && key in pending)
  }

  /** The groups once there are n: the pending keys make the next one, and those after it are empty. */
  function GroupsUpTo(groups: seq<seq<Bytes>>, pending: seq<Bytes>, n: nat): seq<seq<Bytes>> {
    if n <= |groups| then groups else groups + [pending] + seq(n - |groups| - 1, _ => [])
  }

  class FilterBlockBuilder {
    const policy: Policy
    var keys: Bytes
    var start: seq<nat>
    var result: Bytes
    var filterOffsets: seq<U32>
    /** The keys not in a filter yet, those of each filter, and where the filters start. */
    ghost var pending: seq<Bytes>
    ghost var groups: seq<seq<Bytes>>
    ghost var starts: seq<nat>

    constructor (policy: Policy)
      requires policy.Valid()
      ensures Valid() && groups == [] && pending == [] && this.policy == policy
    {
      this.policy := policy;
      keys, start, result, filterOffsets := [], [], [], [];
      pending, groups, starts := [], [], [];
    }

    ghost predicate Valid()
      reads this
    {
      && policy.Valid() && Packed(keys, start, pending)
      && FiltersOk(policy, result, starts, groups) && |filterOffsets| == |starts|
      && forall i | 0 <= i < |starts| :: filterOffsets[i] == starts[i] % TWO_32
    }

    /** Keys added from now on are looked up under this block offset. Offsets do not descend. */
    method StartBlock(blockOffset: nat)
      requires Valid() && blockOffset / BASE >= |filterOffsets|
      modifies this
      ensures Valid() && |groups| == blockOffset / BASE
      ensures groups == GroupsUpTo(old(groups), old(pending), blockOffset / BASE)
      ensures pending == if blockOffset / BASE == |old(groups)| then old(pending) else []
      ensures forall i, key | AddedTo(old(groups), old(pending), i, key) :: AddedTo(groups, pending, i, key)
    {
      var filterIndex := blockOffset / BASE;
      while filterIndex > |filterOffsets|
        invariant Valid() && |old(groups)| <= |groups| <= filterIndex
        invariant groups == GroupsUpTo(old(groups), old(pending), |groups|)
        invariant pending == if |groups| == |old(groups)| then old(pending) else []
        decreases filterIndex - |filterOffsets|
      {
        GenerateFilter();
      }
    }

    method AddKey(key: Bytes)
      requires Valid()
      modifies this`keys, this`start, this`pending
      ensures Valid() && pending == old(pending) + [key]
    {
      PackOneMore(keys, start, pending, key);
      start := start + [|keys|];
      keys := keys + key;
      pending := pending + [key];
    }

    /** A filter for the pending keys; without keys it is empty. */
    method GenerateFilter()
      requires Valid()
      modifies this
      ensures Valid() && groups == old(groups) + [old(pending)] && pending == []
    {
      var was := result;
      if |start| > 0 {
        var tmpKeys := UnpackKeys(keys, start, pending);
        result := CreateFilter(policy, tmpKeys, result);
      }
      OneMoreFilter(policy, was, starts, groups, result, pending);
      filterOffsets := filterOffsets + [|was| % TWO_32];
      keys, start := [], [];
      pending, groups, starts := [], groups + [pending], starts + [|was|];
    }

    static method UnpackKeys(flat: Bytes, start: seq<nat>, ghost pending: seq<Bytes>) returns (ks: seq<Bytes>)
      requires Packed(flat, start, pending)
      ensures ks == pending
    {
      ks := [];
      for i := 0 to |start|
        invariant |ks| == i && forall j | 0 <= j < i :: ks[j] == pending[j]
      {
        assert PieceAt(flat, start, i, pending[i]);
        ks := ks + [flat[start[i]..EndOf(start, |flat|, i)]];
      }
    }

    /** The filters, the array of their offsets, where that array is, and the base's logarithm. */
    method Finish() returns (block: Bytes)
      requires Valid()
      modifies this
      ensures |result| < TWO_32 ==> IsFilterBlock(block, policy, groups)
      ensures groups == old(groups) + if old(pending) == [] then [] else [old(pending)]
    {
      if |start| > 0 {
        GenerateFilter();
      }
      block := Assemble(result, filterOffsets, policy, starts, groups);
    }

    static method Assemble(result: Bytes, offsets: seq<U32>, ghost policy: Policy, ghost starts: seq<nat>, ghost groups: seq<seq<Bytes>>)
        returns (block: Bytes)
      requires policy.Valid() && FiltersOk(policy, result, starts, groups) && |offsets| == |starts|
      requires forall i | 0 <= i < |starts| :: offsets[i] == starts[i] % TWO_32
      ensures |result| < TWO_32 ==> IsFilterBlock(block, policy, groups)
    {
      block := result + Fixed32Array(offsets) + EncodeFixed32(|result| % TWO_32) + [BASE_LG];
      if |result| < TWO_32 {
        BlockReads(block, result, offsets);
        FinishedBlock(block, policy, result, offsets, starts, groups);
      }
    }
  }

  // ---- The reader ----

  /** The block's offset array starts at `last` and has an entry for each group, and one for `last` itself. */
  ghost predicate IsFilterBlock(block: Bytes, policy: Policy, groups: seq<seq<Bytes>>) {
    && policy.Valid() && |block| >= 5 && block[|block| - 1] == BASE_LG
    && var last := DecodeFixed32(block[|block| - 5..]);
      last + 4 * |groups| + 5 == |block| && forall i | 0 <= i < |groups| :: EntryFinds(block, policy, last, i, groups[i])
  }

  lemma BlockTail(result: Bytes, points: Bytes, last: Bytes)
    requires |last| == 4
    ensures var block := result + points + last + [BASE_LG];
      && block == result + points + (last + [BASE_LG]) && |block| == |result| + |points| + 5 && block[..|result|] == result
      && block[|block| - 5..] == last + [BASE_LG]
  {
  }

  /** Entry i of the offset array of a finished block; the entry after the last is where the array starts. */
  lemma OffsetAt(result: Bytes, offsets: seq<U32>, i: nat)
    requires |result| < TWO_32 && i <= |offsets|
    ensures var block := result + Fixed32Array(offsets) + EncodeFixed32(|result|) + [BASE_LG];
      && |block| == |result| + 4 * |offsets| + 5 && block[..|result|] == result
      && DecodeFixed32(block[|result| + 4 * i..]) == if i < |offsets| then offsets[i] else |result|
  {
    var (points, last) := (Fixed32Array(offsets), EncodeFixed32(|result|));
    Fixed32ArrayAt(offsets, i);
    BlockTail(result, points, last);
    if i < |offsets| {
      TailAt(result, points, last + [BASE_LG], 4 * i);
      Fixed32RoundTrip(offsets[i], points[4 * i + 4..] + (last + [BASE_LG]));
    } else {
      Fixed32RoundTrip(|result|, [BASE_LG]);
    }
  }

  /** The block's entry i and the next one enclose the filter of group i. */
  ghost predicate EntryFinds(block: Bytes, policy: Policy, last: nat, i: nat, keys: seq<Bytes>) {
    && last + 4 * i + 8 <= |block|
    && var (a, b) := (DecodeFixed32(block[last + 4 * i..]), DecodeFixed32(block[last + 4 * i + 4..]));
      a <= b <= last && FilterOf(policy, block[a..b], keys)
  }

  lemma FinishedEntry(block: Bytes, policy: Policy, result: Bytes, last: nat, i: nat, a: nat, b: nat, keys: seq<Bytes>)
    requires last + 4 * i + 8 <= |block| && last == |result| <= |block| && block[..|result|] == result && a <= b <= |result|
    requires DecodeFixed32(block[last + 4 * i..]) == a && DecodeFixed32(block[last + 4 * i + 4..]) == b
    requires FilterOf(policy, result[a..b], keys)
    ensures EntryFinds(block, policy, last, i, keys)
  {
    SamePart(block, result, a, b);
  }

  lemma SamePart(block: Bytes, result: Bytes, a: nat, b: nat)
    requires |result| <= |block| && block[..|result|] == result && a <= b <= |result|
    ensures block[a..b] == result[a..b]
  {
    assert forall k | a <= k < b :: block[k] == block[..|result|][k];
  }

  /** What a reader finds in a finished block. */
  ghost predicate ReadsBack(block: Bytes, result: Bytes, offsets: seq<U32>) {
    && |block| == |result| + 4 * |offsets| + 5 && block[..|result|] == result && block[|block| - 1] == BASE_LG
    && forall i | 0 <= i <= |offsets| :: OffsetIs(block, result, offsets, i)
  }

  ghost predicate OffsetIs(block: Bytes, result: Bytes, offsets: seq<U32>, i: nat) {
    && |result| + 4 * i + 4 <= |block|
    && DecodeFixed32(block[|result| + 4 * i..]) == if i < |offsets| then offsets[i] else |result|
  }

  lemma BlockReads(block: Bytes, result: Bytes, offsets: seq<U32>)
    requires |result| < TWO_32 && block == result + Fixed32Array(offsets) + EncodeFixed32(|result|) + [BASE_LG]
    ensures ReadsBack(block, result, offsets)
  {
    OffsetAt(result, offsets, |offsets|);
    forall i | 0 <= i <= |offsets| ensures OffsetIs(block, result, offsets, i) {
      OffsetAt(result, offsets, i);
    }
  }

  lemma EntryReadsBack(block: Bytes, policy: Policy, result: Bytes, offsets: seq<U32>, i: nat, a: nat, b: nat, keys: seq<Bytes>)
    requires i < |offsets| && offsets[i] == a && b == (if i + 1 < |offsets| then offsets[i + 1] else |result|) && a <= b <= |result|
    requires FilterOf(policy, result[a..b], keys)
    requires ReadsBack(block, result, offsets)
    ensures EntryFinds(block, policy, |result|, i, keys)
  {
    assert OffsetIs(block, result, offsets, i) && OffsetIs(block, result, offsets, i + 1);
    assert |result| + 4 * i + 4 == |result| + 4 * (i + 1);
    FinishedEntry(block, policy, result, |result|, i, a, b, keys);
  }

  /** Within 32 bits the offsets are the places themselves. */
  lemma PlainOffset(starts: seq<nat>, offsets: seq<U32>, size: nat, i: nat)
    requires size < TWO_32 && |offsets| == |starts| && i < |starts| && starts[i] <= EndOf(starts, size, i) <= size
    requires forall i | 0 <= i < |starts| :: offsets[i] == starts[i] % TWO_32
    ensures offsets[i] == starts[i] && EndOf(starts, size, i) == if i + 1 < |offsets| then offsets[i + 1] else size
  {
  }

  lemma FinishedBlock(block: Bytes, policy: Policy, result: Bytes, offsets: seq<U32>, starts: seq<nat>, groups: seq<seq<Bytes>>)
    requires policy.Valid() && |result| < TWO_32 && FiltersOk(policy, result, starts, groups) && |offsets| == |starts|
    requires forall i | 0 <= i < |starts| :: offsets[i] == starts[i] % TWO_32
    requires ReadsBack(block, result, offsets)
    ensures IsFilterBlock(block, policy, groups)
  {
    forall i | 0 <= i < |groups| ensures EntryFinds(block, policy, |result|, i, groups[i]) {
      assert FilterAt(policy, result, starts, i, groups[i]);
      PlainOffset(starts, offsets, |result|, i);
      EntryReadsBack(block, policy, result, offsets, i, starts[i], EndOf(starts, |result|, i), groups[i]);
    }
    assert OffsetIs(block, result, offsets, |offsets|) && |result| + 4 * |offsets| == |block| - 5;
  }

  function ShiftRight(v: nat, n: nat): nat
    decreases n
  {
    if n == 0 then v else ShiftRight(v / 2, n - 1)
  }

  lemma ShiftByBase(v: nat)
    ensures ShiftRight(v, BASE_LG) == v / BASE
  {
    assert ShiftRight(v, 11) == ShiftRight(v / 2 / 2 / 2 / 2 / 2 / 2 / 2 / 2 / 2 / 2, 1);
  }

  /** The answer that entry `index` of the array leads to. */
  predicate EntrySays(policy: Policy, block: Bytes, last: nat, index: nat, key: Bytes)
    requires last + 4 * index + 8 <= |block|
  {
    var (a, b) := (DecodeFixed32(block[last + 4 * index..]), DecodeFixed32(block[last + 4 * index + 4..]));
    if a <= b <= last then MayMatch(policy.hash, key, block[a..b]) else a != b
  }

  method EntryMatches(policy: Policy, contents: Bytes, lastWord: nat, index: nat, key: Bytes) returns (r: bool)
    requires lastWord + 4 * index + 8 <= |contents|
    ensures r == EntrySays(policy, contents, lastWord, index, key)
  {
    var start := DecodeFixed32(contents[lastWord + 4 * index..]);
    var limit := DecodeFixed32(contents[lastWord + 4 * index + 4..]);
    if start <= limit && limit <= lastWord {
      r := Bloom.KeyMayMatch(policy.hash, key, contents[start..limit]);
    } else if start == limit {
      r := false;
    } else {
      r := true;
    }
  }

  /** Any bytes at all turn a key away only through an entry of their offset array, which is where their last bytes say. */
  predicate TurnsAway(policy: Policy, block: Bytes, blockOffset: nat, key: Bytes) {
    var n := |block|;
    && n >= 5 && DecodeFixed32(block[n - 5..]) <= n - 5
    && var (last, index) := (DecodeFixed32(block[n - 5..]), ShiftRight(blockOffset, block[n - 1]));
      index < (n - 5 - last) / 4 && !EntrySays(policy, block, last, index, key)
  }

  /**
   FilterBlockReader: anything strange about the block counts as a match. On a finished block a key is
   turned away exactly if one of its probes misses the group of its index; an offset past the groups
   turns nobody away, and an empty group everybody.
   */
  method KeyMayMatch(policy: Policy, contents: Bytes, blockOffset: nat, key: Bytes, ghost groups: seq<seq<Bytes>>) returns (r: bool)
    ensures IsFilterBlock(contents, policy, groups) ==>
      var index := blockOffset / BASE; r <==> (index < |groups| ==> ProbesMet(policy, groups[index], key))
    ensures IsFilterBlock(contents, policy, groups) && AddedTo(groups, [], blockOffset / BASE, key) ==> r
    ensures r <==> !TurnsAway(policy, contents, blockOffset, key)
  {
    var n := |contents|;
    if n < 5 {
      return true;
    }
    var baseLg := contents[n - 1];
    var lastWord := DecodeFixed32(contents[n - 5..]);
    if lastWord > n - 5 {
      return true;
    }
    var num := (n - 5 - lastWord) / 4;
    var index := ShiftRight(blockOffset, baseLg);
    ShiftByBase(blockOffset);
    if index < num {
      r := EntryMatches(policy, contents, lastWord, index, key);
      if IsFilterBlock(contents, policy, groups) {
        assert EntryFinds(contents, policy, lastWord, index, groups[index]);
        EntryAnswers(contents, policy, lastWord, index, groups[index], key);
      }
      return;
    }
    r := true;
  }

  /** What the filter between a block's entries says of a key. */
  lemma EntryAnswers(block: Bytes, policy: Policy, last: nat, i: nat, keys: seq<Bytes>, key: Bytes)
    requires policy.Valid() && EntryFinds(block, policy, last, i, keys)
    ensures EntrySays(policy, block, last, i, key) <==> ProbesMet(policy, keys, key)
    ensures key in keys ==> ProbesMet(policy, keys, key)
  {
    OwnKeysMeet(policy, keys, key);
    if keys != [] {
      FilterAnswers(policy, block[DecodeFixed32(block[last + 4 * i..])..DecodeFixed32(block[last + 4 * i + 4..])], keys, key);
    }
  }
}
