/**
 Prefix-compressed blocks (table/block_builder.cc, table/block.cc): entries share a prefix with the
 one before, except at restart points, which a search can jump to. A block is described by its layout:
 its entries, where each of them starts, and which are restart points. The iterator is shown to follow
 the layout on such a block, and to stay within bounds on any other bytes.
 */
module Blocks {
  import opened Options
  import opened Coding

  datatype KV = KV(key: Bytes, value: Bytes)

  /** The user's order of keys. */
  type Less = (Bytes, Bytes) -> bool

  ghost predicate TotalOrder(less: Less) {
    && (forall a :: !less(a, a))
    && (forall a, b | a != b :: less(a, b) || less(b, a))
    && (forall a, b, c | less(a, b) && less(b, c) :: less(a, c))
  }

  ghost predicate SortedKeys(less: Less, es: seq<KV>) {
    forall i, j | 0 <= i < j < |es| :: less(es[i].key, es[j].key)
  }

  // ---- One entry ----

  function EntryHead(shared: nat, e: KV): Bytes
    requires shared <= |e.key|
  {
    Varint(shared) + (Varint(|e.key| - shared) + Varint(|e.value|))
  }

  /** An entry whose key shares so many bytes with the key before. */
  function EntryBytes(shared: nat, e: KV): Bytes
    requires shared <= |e.key|
  {
    EntryHead(shared, e) + (e.key[shared..] + e.value)
  }

  /** The three lengths, and what follows them. */
  datatype Head = Head(shared: nat, nonShared: nat, valueLength: nat, body: Bytes)

  function ReadLengths(input: Bytes): (r: Option<Head>)
    ensures r.Some? ==> |r.value.body| < |input|
  {
    UnvarintLength(input, 5);
    match ReadVarint32(input)
    case None => None
    case Some((shared, a)) => match ReadVarint32(a)
      case None => None
      case Some((nonShared, b)) => match ReadVarint32(b)
        case None => None
        case Some((valueLength, body)) => Some(Head(shared, nonShared, valueLength, body))
  }

  /** When each length is a single byte they are read directly. */
  function ReadHead(input: Bytes): (r: Option<Head>)
    ensures r.Some? ==> |r.value.body| < |input|
  {
    if |input| < 3 then None
    else if input[0] < 128 && input[1] < 128 && input[2] < 128 then Some(Head(input[0], input[1], input[2], input[3..]))
    else ReadLengths(input)
  }

  /** DecodeEntry: the lengths must not reach beyond the input. */
  function DecodeEntry(input: Bytes): (r: Option<Head>)
    ensures r.Some? ==> |r.value.body| < |input| && r.value.nonShared + r.value.valueLength <= |r.value.body|
  {
    match ReadHead(input)
    case None => None
    case Some(h) => if |h.body| < h.nonShared + h.valueLength then None else Some(h)
  }

  /** The fast path gives what the slow one would. */
  lemma FastPath(input: Bytes)
    requires |input| >= 3 && input[0] < 128 && input[1] < 128 && input[2] < 128
    ensures ReadLengths(input) == ReadHead(input)
  {
    assert input[1..][1..] == input[2..] && input[2..][1..] == input[3..];
    OneByte(input);
    OneByte(input[1..]);
    OneByte(input[2..]);
  }

  lemma OneByte(input: Bytes)
    requires input != [] && input[0] < 128
    ensures ReadVarint32(input) == Some((input[0], input[1..]))
  {
  }

  lemma LengthsRead(a: nat, b: nat, c: nat, body: Bytes)
    requires a < TWO_32 && b < TWO_32 && c < TWO_32
    ensures ReadLengths(Varint(a) + (Varint(b) + (Varint(c) + body))) == Some(Head(a, b, c, body))
  {
    Varint32Reads(a, Varint(b) + (Varint(c) + body));
    Varint32Reads(b, Varint(c) + body);
    Varint32Reads(c, body);
  }

  lemma HeadIsLengths(input: Bytes)
    requires |input| >= 3
    ensures ReadHead(input) == ReadLengths(input)
  {
    if input[0] < 128 && input[1] < 128 && input[2] < 128 { FastPath(input); }
  }

  lemma HeadReads(a: nat, b: nat, c: nat, body: Bytes)
    requires a < TWO_32 && b < TWO_32 && c < TWO_32
    ensures ReadHead(Varint(a) + (Varint(b) + (Varint(c) + body))) == Some(Head(a, b, c, body))
  {
    LengthsRead(a, b, c, body);
    HeadIsLengths(Varint(a) + (Varint(b) + (Varint(c) + body)));
  }

  lemma EntryReads(shared: nat, e: KV, rest: Bytes)
    requires shared <= |e.key| && |e.key| + |e.value| < TWO_32
    ensures DecodeEntry(EntryBytes(shared, e) + rest) == Some(Head(shared, |e.key| - shared, |e.value|, e.key[shared..] + e.value + rest))
  {
    HeadReads(shared, |e.key| - shared, |e.value|, e.key[shared..] + e.value + rest);
    Nested(Varint(shared), Varint(|e.key| - shared), Varint(|e.value|), e.key[shared..] + e.value, rest);
  }

  lemma Nested(p: Bytes, q: Bytes, r: Bytes, body: Bytes, rest: Bytes)
    ensures p + (q + r) + body + rest == p + (q + (r + (body + rest)))
  {
  }

  // ---- Layout ----

  /** What a block's bytes mean: each entry, how much it shares, where it starts, and which entries are restart points. */
  datatype Layout = Layout(es: seq<KV>, shared: seq<nat>, offs: seq<nat>, marks: seq<nat>)

  ghost predicate Sized(l: Layout) {
    |l.shared| == |l.es| && |l.offs| == |l.es| + 1 && l.offs[0] == 0
  }

  /** Entry i: its bytes, and a key that can be rebuilt from the one before. */
  ghost predicate EntryOk(buffer: Bytes, l: Layout, i: nat)
    requires Sized(l) && i < |l.es|
  {
    && l.shared[i] <= |l.es[i].key| && (i == 0 ==> l.shared[i] == 0) && |l.es[i].key| + |l.es[i].value| < TWO_32
    && (i > 0 ==> l.shared[i] <= |l.es[i - 1].key| && l.es[i - 1].key[..l.shared[i]] == l.es[i].key[..l.shared[i]])
    && l.offs[i] < l.offs[i + 1] <= |buffer| && buffer[l.offs[i]..l.offs[i + 1]] == EntryBytes(l.shared[i], l.es[i])
  }

  /** Restart points share nothing; the first is at the start. */
  ghost predicate MarksOk(l: Layout)
    requires Sized(l)
  {
    && l.marks != [] && l.marks[0] == 0
    && (forall r | 0 < r < |l.marks| :: l.marks[r] < |l.es|)
    && (forall r | 0 <= r < |l.marks| && l.marks[r] < |l.es| :: l.shared[l.marks[r]] == 0)
    && (forall q, r | 0 <= q < r < |l.marks| :: l.marks[q] < l.marks[r])
  }

  ghost predicate LayoutOk(buffer: Bytes, l: Layout) {
    && Sized(l) && l.offs[|l.es|] == |buffer| < TWO_32
    && (forall i | 0 <= i < |l.es| :: EntryOk(buffer, l, i))
    && MarksOk(l)
  }

  lemma {:induction false} OffsetsGrow(buffer: Bytes, l: Layout, i: nat, j: nat)
    requires LayoutOk(buffer, l) && i < j <= |l.es|
    ensures l.offs[i] < l.offs[j]
  {
    assert EntryOk(buffer, l, j - 1);
    if i < j - 1 { OffsetsGrow(buffer, l, i, j - 1); }
  }

  function Extended(l: Layout, e: KV, shared: nat, end: nat, restart: bool): Layout {
    Layout(l.es + [e], l.shared + [shared], l.offs + [end], if restart then l.marks + [|l.es|] else l.marks)
  }

  lemma ExtendLayout(buffer: Bytes, l: Layout, e: KV, shared: nat, restart: bool)
    requires LayoutOk(buffer, l) && shared <= |e.key| && (restart ==> shared == 0 && l.es != [])
    requires l.es == [] ==> shared == 0
    requires l.es != [] ==> var last := l.es[|l.es| - 1].key; shared <= |last| && last[..shared] == e.key[..shared]
    requires |buffer| + |EntryBytes(shared, e)| < TWO_32 && |e.key| + |e.value| < TWO_32
    ensures LayoutOk(buffer + EntryBytes(shared, e), Extended(l, e, shared, |buffer| + |EntryBytes(shared, e)|, restart))
  {
    var more := EntryBytes(shared, e);
    var (buffer', l') := (buffer + more, Extended(l, e, shared, |buffer| + |more|, restart));
    forall i | 0 <= i < |l'.es| ensures EntryOk(buffer', l', i) {
      if i < |l.es| {
        assert EntryOk(buffer, l, i);
        assert buffer'[l.offs[i]..l.offs[i + 1]] == buffer[l.offs[i]..l.offs[i + 1]];
      } else {
        assert buffer'[|buffer|..] == more;
      }
    }
  }

  // ---- BlockBuilder ----

  /** The bytes of a whole block. */
  function BlockBytes(buffer: Bytes, restarts: seq<U32>): Bytes
    requires |restarts| < TWO_32
  {
    buffer + Fixed32Array(restarts) + EncodeFixed32(|restarts|)
  }

  ghost predicate RestartsAt(l: Layout, restarts: seq<U32>)
    requires Sized(l) && MarksOk(l)
  {
    |restarts| == |l.marks| < TWO_32 && forall r | 0 <= r < |l.marks| :: RestartIs(l, r, restarts[r])
  }

  /** Restart point r is at the offset. */
  ghost predicate RestartIs(l: Layout, r: nat, offset: nat)
    requires r < |l.marks|
  {
    l.marks[r] < |l.offs| && offset == l.offs[l.marks[r]]
  }

  /** The layout is that of the buffer, and the restart points are where the array says. */
  ghost predicate BlockOk(buffer: Bytes, l: Layout, restarts: seq<U32>) {
    LayoutOk(buffer, l) && RestartsAt(l, restarts)
  }

  lemma ExtendRestarts(l: Layout, e: KV, shared: nat, end: nat, restart: bool, was: seq<U32>, restarts: seq<U32>)
    requires Sized(l) && MarksOk(l) && RestartsAt(l, was) && |restarts| < TWO_32
    requires restarts == if restart then was + [l.offs[|l.es|]] else was
    requires var l' := Extended(l, e, shared, end, restart); Sized(l') && MarksOk(l')
    ensures RestartsAt(Extended(l, e, shared, end, restart), restarts)
  {
    var l' := Extended(l, e, shared, end, restart);
    forall r | 0 <= r < |l'.marks| ensures RestartIs(l', r, restarts[r]) {
      if r < |l.marks| {
        assert RestartIs(l, r, was[r]);
        assert l'.marks[r] == l.marks[r] && l'.offs[l.marks[r]] == l.offs[l.marks[r]];
      }
    }
  }

  lemma ExtendBlock(buffer: Bytes, l: Layout, e: KV, shared: nat, restart: bool, was: seq<U32>, restarts: seq<U32>)
    requires BlockOk(buffer, l, was) && shared <= |e.key| && (restart ==> shared == 0 && l.es != [])
    requires var last := if l.es == [] then [] else l.es[|l.es| - 1].key; shared <= |last| && last[..shared] == e.key[..shared]
    requires |buffer| + 15 + |e.key| + |e.value| < TWO_32 && |restarts| < TWO_32
    requires restarts == if restart then was + [|buffer|] else was
    ensures BlockOk(buffer + EntryBytes(shared, e), Extended(l, e, shared, |buffer| + |EntryBytes(shared, e)|, restart), restarts)
  {
    EntrySize(shared, e);
    ExtendLayout(buffer, l, e, shared, restart);
    ExtendRestarts(l, e, shared, |buffer| + |EntryBytes(shared, e)|, restart, was, restarts);
  }

  lemma ExtendSorted(less: Less, es: seq<KV>, e: KV)
    requires SortedKeys(less, es) && TotalOrder(less) && (es != [] ==> less(es[|es| - 1].key, e.key))
    ensures SortedKeys(less, es + [e])
  {
  }

  // ---- Compression ----

  /** n is the length of the longest common prefix. */
  ghost predicate SharesAll(a: Bytes, b: Bytes, n: nat) {
    n <= |a| && n <= |b| && a[..n] == b[..n] && (n < |a| && n < |b| ==> a[n] != b[n])
  }

  /** Every interval-th entry is a restart point and shares nothing; every other shares all it can with the key before it. */
  ghost predicate EntryCompressed(l: Layout, interval: nat, i: nat)
    requires Sized(l) && i < |l.es| && interval > 0
  {
    && (i in l.marks <==> i % interval == 0)
    && if i % interval == 0 then l.shared[i] == 0 else SharesAll(l.es[i - 1].key, l.es[i].key, l.shared[i])
  }

  /** So many entries since the last restart point, and the same number between any two. */
  ghost predicate Compressed(l: Layout, interval: nat, counter: nat)
    requires Sized(l) && interval > 0
  {
    && (forall i | 0 <= i < |l.es| :: EntryCompressed(l, interval, i))
    && l.marks != [] && |l.es| == (|l.marks| - 1) * interval + counter && (forall m | m in l.marks :: m <= |l.es|)
    && (|l.es| in l.marks <==> l.es == []) && (counter > 0 <==> l.es != []) && counter <= interval
  }

  lemma Remainder(q: nat, d: nat, c: nat)
    requires c < d
    ensures (q * d + c) % d == c
  {
    var x := q * d + c;
    var k := x / d - q;
    assert d * (x / d) + x % d == x;
    assert d * k == d * (x / d) - q * d;
    assert k == 0;
  }

  lemma ExtendCompressed(l: Layout, e: KV, shared: nat, end: nat, restart: bool, interval: nat, counter: nat)
    requires Sized(l) && interval > 0 && Compressed(l, interval, counter)
    requires restart <==> counter == interval
    requires if restart then shared == 0 else SharesAll(if l.es == [] then [] else l.es[|l.es| - 1].key, e.key, shared)
    ensures Compressed(Extended(l, e, shared, end, restart), interval, if restart then 1 else counter + 1)
  {
    var l' := Extended(l, e, shared, end, restart);
    var (q, n) := (|l.marks| - 1, |l.es|);
    if restart {
      Remainder(q + 1, interval, 0);
      assert n == (q + 1) * interval == (|l'.marks| - 1) * interval;
      assert l'.marks[|l.marks|] == n;
    } else {
      Remainder(q, interval, counter);
    }
    forall i | 0 <= i < |l'.es| ensures EntryCompressed(l', interval, i) {
      if i < n { assert EntryCompressed(l, interval, i); }
    }
  }

  class BlockBuilder {
    const restartInterval: nat
    ghost const less: Less
    var buffer: Bytes
    var restarts: seq<U32>
    var counter: nat
    var lastKey: Bytes
    ghost var layout: Layout

    constructor (restartInterval: nat, ghost less: Less)
      requires restartInterval >= 1
      ensures Valid() && layout.es == [] && this.less == less
    {
      this.restartInterval, this.less := restartInterval, less;
      buffer, restarts, counter, lastKey := [], [0], 0, [];
      layout := Layout([], [], [0], [0]);
    }

    ghost predicate Valid()
      reads this
    {
      Stored() && SortedKeys(less, layout.es)
    }

    /** The fields fit the layout. */
    ghost predicate Stored()
      reads this
    {
      && restartInterval >= 1 && BlockOk(buffer, layout, restarts)
      && lastKey == (if layout.es == [] then [] else layout.es[|layout.es| - 1].key)
      && Compressed(layout, restartInterval, counter)
    }

    /** The length of the common prefix. */
    static method SharedPrefix(a: Bytes, b: Bytes) returns (shared: nat)
      ensures SharesAll(a, b, shared)
    {
      shared := 0;
      var minLength := if |a| < |b| then |a| else |b|;
      while shared < minLength && a[shared] == b[shared]
        invariant shared <= minLength && a[..shared] == b[..shared]
      {
        assert a[..shared + 1] == a[..shared] + [a[shared]] && b[..shared + 1] == b[..shared] + [b[shared]];
        shared := shared + 1;
      }
    }

    /** Keys come in ascending order; a block's offsets must stay below 2^32. */
    method Add(key: Bytes, value: Bytes)
      requires Valid() && TotalOrder(less) && (layout.es != [] ==> less(layout.es[|layout.es| - 1].key, key))
      requires |buffer| + 15 + |key| + |value| < TWO_32 && |restarts| + 1 < TWO_32
      modifies this
      ensures Valid() && layout.es == old(layout.es) + [KV(key, value)]
    {
      Store(key, value);
      ExtendSorted(less, old(layout.es), KV(key, value));
    }

    method Store(key: Bytes, value: Bytes)
      requires Stored() && |buffer| + 15 + |key| + |value| < TWO_32 && |restarts| + 1 < TWO_32
      modifies this
      ensures Stored() && layout.es == old(layout.es) + [KV(key, value)]
    {
      ghost var (l, was, restart) := (layout, restarts, counter == restartInterval);
      var shared := ShareOrRestart(key);
      Append(key, value, shared, restart, was);
      ExtendCompressed(l, KV(key, value), shared, |buffer|, restart, restartInterval, old(counter));
    }

    /** How much of the key is shared; after an interval nothing is, and the entry is a restart point. */
    method ShareOrRestart(key: Bytes) returns (shared: nat)
      requires counter <= restartInterval && |buffer| < TWO_32
      modifies this`restarts, this`counter
      ensures counter == (if old(counter) == restartInterval then 0 else old(counter))
      ensures restarts == old(restarts) + if old(counter) == restartInterval then [|buffer|] else []
      ensures if old(counter) == restartInterval then shared == 0 else SharesAll(lastKey, key, shared)
    {
      shared := 0;
      if counter < restartInterval {
        shared := SharedPrefix(lastKey, key);
      } else {
        restarts := restarts + [|buffer|];
        counter := 0;
      }
    }

    method Append(key: Bytes, value: Bytes, shared: nat, ghost restart: bool, ghost was: seq<U32>)
      requires BlockOk(buffer, layout, was) && shared <= |key| && shared <= |lastKey| && key[..shared] == lastKey[..shared]
      requires lastKey == (if layout.es == [] then [] else layout.es[|layout.es| - 1].key)
      requires |buffer| + 15 + |key| + |value| < TWO_32 && |restarts| < TWO_32
      requires restart ==> shared == 0 && layout.es != []
      requires restarts == if restart then was + [|buffer|] else was
      modifies this`buffer, this`layout, this`lastKey, this`counter
      ensures BlockOk(buffer, layout, restarts)
      ensures layout == Extended(old(layout), KV(key, value), shared, |buffer|, restart)
      ensures lastKey == key && counter == old(counter) + 1
    {
      ghost var e := KV(key, value);
      ExtendBlock(buffer, layout, e, shared, restart, was, restarts);
      assert key == lastKey[..shared] + key[shared..];
      var entry := EncodeEntry(shared, key, value);
      layout := Extended(layout, e, shared, |buffer| + |entry|, restart);
      buffer := buffer + entry;
      lastKey := lastKey[..shared] + key[shared..];
      counter := counter + 1;
    }

    static method EncodeEntry(shared: nat, key: Bytes, value: Bytes) returns (entry: Bytes)
      requires shared <= |key|
      ensures entry == EntryBytes(shared, KV(key, value))
    {
      entry := Varint(shared) + (Varint(|key| - shared) + Varint(|value|));
      entry := entry + (key[shared..] + value);
    }

    method Finish() returns (block: Bytes)
      requires Valid()
      ensures block == BlockBytes(buffer, restarts)
    {
      block := buffer;
      for i := 0 to |restarts|
        invariant block == buffer + Fixed32Array(restarts[..i])
      {
        assert restarts[..i + 1][..i] == restarts[..i];
        block := block + EncodeFixed32(restarts[i]);
      }
      assert restarts[..|restarts|] == restarts;
      block := block + EncodeFixed32(|restarts|);
    }
  }

  lemma {:induction false} VarintSize(v: nat, n: nat)
    requires n > 0 && v < Pow128(n)
    ensures |Varint(v)| <= n
  {
    if v >= 128 { VarintSize(v / 128, n - 1); }
  }

  lemma EntrySize(shared: nat, e: KV)
    requires shared <= |e.key| && |e.key| < TWO_32 && |e.value| < TWO_32
    ensures |EntryBytes(shared, e)| <= 15 + |e.key| + |e.value|
  {
    Pow128Values();
    VarintSize(shared, 5);
    VarintSize(|e.key| - shared, 5);
    VarintSize(|e.value|, 5);
  }

  // ---- Block::Iter ----

  /** The contents are a finished block. */
  ghost predicate IsBlock(contents: Bytes, restarts: nat, numRestarts: nat, l: Layout) {
    && restarts + 4 * numRestarts + 4 == |contents| && LayoutOk(contents[..restarts], l) && |l.marks| == numRestarts
    && forall r | 0 <= r < numRestarts :: l.marks[r] < |l.offs| && DecodeFixed32(contents[restarts + 4 * r..]) == l.offs[l.marks[r]]
  }

  lemma RestartDecodes(buffer: Bytes, restarts: seq<U32>, r: nat)
    requires r < |restarts| < TWO_32
    ensures |BlockBytes(buffer, restarts)| == |buffer| + 4 * |restarts| + 4
    ensures DecodeFixed32(BlockBytes(buffer, restarts)[|buffer| + 4 * r..]) == restarts[r]
    ensures DecodeFixed32(BlockBytes(buffer, restarts)[|buffer| + 4 * |restarts|..]) == |restarts|
    ensures BlockBytes(buffer, restarts)[..|buffer|] == buffer
  {
    var (points, count) := (Fixed32Array(restarts), EncodeFixed32(|restarts|));
    Fixed32ArrayAt(restarts, r);
    TailAt(buffer, points, count, 4 * r);
    Fixed32RoundTrip(restarts[r], points[4 * r + 4..] + count);
    Fixed32RoundTrip(|restarts|, []);
    assert count + [] == count;
  }

  lemma FinishedIsBlock(buffer: Bytes, restarts: seq<U32>, l: Layout)
    requires LayoutOk(buffer, l) && RestartsAt(l, restarts)
    ensures var b := BlockBytes(buffer, restarts);
      IsBlock(b, |buffer|, |restarts|, l) && DecodeFixed32(b[|b| - 4..]) == |restarts|
  {
    RestartDecodes(buffer, restarts, 0);
    forall r | 0 <= r < |restarts|
      ensures l.marks[r] < |l.offs| && DecodeFixed32(BlockBytes(buffer, restarts)[|buffer| + 4 * r..]) == l.offs[l.marks[r]]
    {
      assert RestartIs(l, r, restarts[r]);
      RestartDecodes(buffer, restarts, r);
    }
  }

  /** What decoding the region from entry i's offset gives. */
  lemma EntryDecodes(region: Bytes, l: Layout, i: nat)
    requires LayoutOk(region, l) && i < |l.es|
    ensures l.offs[i] <= |region|
    ensures var (e, h) := (l.es[i], DecodeEntry(region[l.offs[i]..]));
      && h.Some? && h.value.shared == l.shared[i] <= |e.key| && h.value.nonShared == |e.key| - l.shared[i] && h.value.valueLength == |e.value|
      && h.value.body[..h.value.nonShared] == e.key[l.shared[i]..]
      && h.value.body[h.value.nonShared..h.value.nonShared + h.value.valueLength] == e.value
      && |region| - |h.value.body| + h.value.nonShared + h.value.valueLength == l.offs[i + 1]
  {
    assert EntryOk(region, l, i);
    var (e, shared, rest) := (l.es[i], l.shared[i], region[l.offs[i + 1]..]);
    assert region[l.offs[i]..] == EntryBytes(shared, e) + rest;
    EntryReads(shared, e, rest);
  }

  class BlockIter {
    const contents: Bytes
    const restarts: nat
    const numRestarts: nat
    const less: Less
    /** The meaning of the contents, if they have one. */
    ghost const layout: Layout
    ghost const good: bool
    var current: nat
    var restartIndex: nat
    var key: Bytes
    var value: Bytes
    /** Just past the end of the value. */
    var nextOffset: nat
    var corrupt: bool
    ghost var at: Option<nat>

    constructor (contents: Bytes, restarts: nat, numRestarts: nat, less: Less, ghost layout: Layout, ghost good: bool)
      requires numRestarts > 0 && restarts + 4 * numRestarts + 4 <= |contents|
      requires good ==> IsBlock(contents, restarts, numRestarts, layout)
      ensures Ok() && at == None && this.contents == contents && this.layout == layout && this.good == good && this.less == less
    {
      this.contents, this.restarts, this.numRestarts, this.less, this.layout, this.good := contents, restarts, numRestarts, less, layout, good;
      current, restartIndex, key, value, nextOffset, corrupt, at := restarts, numRestarts, [], [], 0, false, None;
    }

    predicate Valid()
      reads this
    {
      current < restarts
    }

    ghost predicate Shape() {
      && numRestarts > 0 && restarts + 4 * numRestarts + 4 <= |contents|
      && (good ==> IsBlock(contents, restarts, numRestarts, layout))
    }

    /** The iterator stands on entry i. */
    ghost predicate On(i: nat)
      requires Shape() && good
      reads this
    {
      && i < |layout.es| && current == layout.offs[i] && key == layout.es[i].key && value == layout.es[i].value
      && nextOffset == layout.offs[i + 1] && restartIndex < numRestarts && layout.marks[restartIndex] <= i
    }

    /** Entry i is the next to be parsed, and its key can be put together. */
    ghost predicate Ready(i: nat)
      requires Shape() && good
      reads this
    {
      && i <= |layout.es| && nextOffset == layout.offs[i] && restartIndex < numRestarts && layout.marks[restartIndex] <= i
      && (i < |layout.es| ==> layout.shared[i] <= |key| && layout.shared[i] <= |layout.es[i].key|
                              && key[..layout.shared[i]] == layout.es[i].key[..layout.shared[i]])
    }

    ghost predicate Ok()
      reads this
    {
      && Shape() && current <= restarts && (Valid() ==> restartIndex < numRestarts && nextOffset <= restarts)
      && (good ==> !corrupt && if at.Some? then On(at.value) && Valid() else !Valid())
    }

    function GetRestartPoint(index: nat): U32
      requires index < numRestarts && restarts + 4 * numRestarts + 4 <= |contents|
    {
      DecodeFixed32(contents[restarts + 4 * index..])
    }

    lemma Offset(i: nat, j: nat)
      requires Shape() && good && i < j <= |layout.es|
      ensures layout.offs[i] < layout.offs[j] <= restarts
    {
      OffsetsGrow(contents[..restarts], layout, i, j);
      if j < |layout.es| { OffsetsGrow(contents[..restarts], layout, j, |layout.es|); }
    }

    /** The next entry can be put together from this one. */
    lemma ReadyForNext(i: nat)
      requires Shape() && good && On(i)
      ensures Ready(i + 1)
    {
      if i + 1 < |layout.es| { assert EntryOk(contents[..restarts], layout, i + 1); }
    }

    method SeekToRestartPoint(index: nat)
      requires Shape() && index < numRestarts
      modifies this`key, this`value, this`restartIndex, this`nextOffset
      ensures restartIndex == index && (good ==> Ready(layout.marks[index])) && key == [] && value == []
    {
      key := [];
      restartIndex := index;
      nextOffset := GetRestartPoint(index);
      value := [];
    }

    method MarkInvalid(isCorrupt: bool)
      requires Shape() && (good ==> !isCorrupt && !corrupt)
      modifies this
      ensures Ok() && !Valid() && at == None && restartIndex == numRestarts
      ensures if isCorrupt then corrupt && key == [] && value == [] else corrupt == old(corrupt) && key == old(key) && value == old(value)
    {
      current, restartIndex, at := restarts, numRestarts, None;
      if isCorrupt {
        key, value, corrupt := [], [], true;
      }
    }

    /** Go to the entry at the next offset, or off the end; a malformed entry ends the iteration too. */
    method ParseNextKey(ghost i: nat) returns (found: bool)
      requires Shape() && restartIndex < numRestarts && (good ==> Ready(i) && !corrupt)
      modifies this
      ensures Ok() && found == Valid() && (found ==> old(nextOffset) == current < nextOffset <= restarts)
      ensures good ==> at == if i < |layout.es| then Some(i) else None
    {
      if good && i < |layout.es| { Offset(i, |layout.es|); }
      if nextOffset >= restarts {
        MarkInvalid(false);
        return false;
      }
      found := ParseEntry(i);
    }

    /** There is an entry at the offset, whose key can be put together with one of that length. */
    ghost predicate Parses(offset: nat, length: nat)
      requires offset < restarts <= |contents|
    {
      var h := DecodeEntry(contents[offset..restarts]);
      h.Some? && h.value.shared <= length
    }

    /** The next restart point is not before the current entry. */
    ghost predicate KeptUp()
      requires Shape()
      reads this
    {
      restartIndex + 1 < numRestarts ==> GetRestartPoint(restartIndex + 1) >= current
    }

    method ParseEntry(ghost i: nat) returns (found: bool)
      requires Shape() && restartIndex < numRestarts && nextOffset < restarts && (good ==> Ready(i) && !corrupt)
      modifies this
      ensures Ok() && found == Valid() && (found ==> old(nextOffset) == current < nextOffset <= restarts)
      ensures good ==> i < |layout.es| && at == Some(i)
      ensures found == Parses(old(nextOffset), |old(key)|) && (found ==> KeptUp()) && (corrupt <==> old(corrupt) || !found)
    {
      var h := DecodeEntry(contents[nextOffset..restarts]);
      if good { Decodes(i); }
      if h.None? || |key| < h.value.shared {
        MarkInvalid(true);
        return false;
      }
      Enter(h.value, i);
      AdvanceRestart(i);
      return true;
    }

    lemma Decodes(i: nat)
      requires Shape() && good && Ready(i) && nextOffset < restarts
      ensures i < |layout.es|
      ensures var (e, h) := (layout.es[i], DecodeEntry(contents[nextOffset..restarts]));
        && h.Some? && h.value.shared <= |key| && key[..h.value.shared] + h.value.body[..h.value.nonShared] == e.key
        && h.value.body[h.value.nonShared..h.value.nonShared + h.value.valueLength] == e.value
        && restarts - |h.value.body| + h.value.nonShared + h.value.valueLength == layout.offs[i + 1]
    {
      var region := contents[..restarts];
      assert contents[nextOffset..restarts] == region[nextOffset..];
      EntryDecodes(region, layout, i);
      var (e, shared) := (layout.es[i], layout.shared[i]);
      assert e.key == e.key[..shared] + e.key[shared..];
    }

    /** Take over the key and the value of the entry just decoded. */
    method Enter(h: Head, ghost i: nat)
      requires Shape() && restartIndex < numRestarts && nextOffset < restarts && h.shared <= |key|
      requires DecodeEntry(contents[nextOffset..restarts]) == Some(h)
      requires good ==> Ready(i) && !corrupt
      modifies this`current, this`key, this`value, this`nextOffset, this`at
      ensures current == old(nextOffset) < nextOffset <= restarts && at == Some(i) && (good ==> On(i))
    {
      if good { Decodes(i); }
      current, at := nextOffset, Some(i);
      key := key[..h.shared] + h.body[..h.nonShared];
      value := h.body[h.nonShared..h.nonShared + h.valueLength];
      nextOffset := restarts - |h.body| + h.nonShared + h.valueLength;
    }

    /** Keep up with the restart points before the current entry. */
    method AdvanceRestart(ghost i: nat)
      requires Shape() && restartIndex < numRestarts && (good ==> On(i))
      modifies this`restartIndex
      ensures restartIndex < numRestarts && (good ==> On(i)) && KeptUp()
    {
      while restartIndex + 1 < numRestarts && GetRestartPoint(restartIndex + 1) < current
        invariant restartIndex < numRestarts && (good ==> On(i))
      {
        if good { MarkBefore(restartIndex + 1, i); }
        restartIndex := restartIndex + 1;
      }
    }

    /** Restart points and entries are in the same order as their offsets. */
    lemma MarkBefore(r: nat, i: nat)
      requires Shape() && good && r < numRestarts && i < |layout.es|
      ensures GetRestartPoint(r) < layout.offs[i] <==> layout.marks[r] < i
    {
      if layout.marks[r] < i { Offset(layout.marks[r], i); }
      if i < layout.marks[r] { Offset(i, layout.marks[r]); }
    }

    method Next()
      requires Ok() && Valid()
      modifies this
      ensures Ok()
      ensures good ==> old(at).Some? && at == if old(at).value + 1 < |layout.es| then Some(old(at).value + 1) else None
    {
      if good { ReadyForNext(at.value); }
      var _ := ParseNextKey(if at.Some? then at.value + 1 else 0);
    }

    /** Back to a restart point before the entry, then forward to the entry just before it. */
    method Prev()
      requires Ok() && Valid()
      modifies this
      ensures Ok()
      ensures good ==> old(at).Some? && at == if old(at).value > 0 then Some(old(at).value - 1) else None
    {
      var original := current;
      ghost var i: nat := if at.Some? then at.value else 0;
      while GetRestartPoint(restartIndex) >= original
        invariant Shape() && restartIndex < numRestarts && current == original && (good ==> !corrupt && On(i))
        decreases restartIndex
      {
        if good { MarkBefore(restartIndex, i); }
        if restartIndex == 0 {
          MarkInvalid(false);
          return;
        }
        restartIndex := restartIndex - 1;
      }
      if good { MarkBefore(restartIndex, i); }
      SeekToRestartPoint(restartIndex);
      ghost var j: nat := if good then layout.marks[restartIndex] else 0;
      ScanTo(original, j, i);
    }

    /** Parse on until the end of the current entry reaches the limit. */
    method ScanTo(limit: nat, ghost j0: nat, ghost i: nat)
      requires Shape() && restartIndex < numRestarts && (good ==> !corrupt && Ready(j0) && i <= |layout.es| && limit == layout.offs[i])
      requires good ==> j0 < i || layout.es == []
      modifies this
      ensures Ok() && (good ==> at == if layout.es == [] then None else Some(i - 1))
    {
      ghost var j: nat := j0;
      var more := true;
      while more
        invariant Shape() && (more ==> restartIndex < numRestarts) && (!more ==> Ok())
        invariant good ==> !corrupt && if more then Ready(j) && (j < i || layout.es == []) else at == if layout.es == [] then None else Some(i - 1)
        decreases more, if nextOffset < restarts then restarts - nextOffset else 0
      {
        if good && j < i { EntryEnds(j, i); }
        var found := ParseNextKey(j);
        more := found && nextOffset < limit;
        if good && more { ReadyForNext(j); }
        j := j + 1;
      }
    }

    lemma EntryEnds(j: nat, i: nat)
      requires Shape() && good && j < i <= |layout.es|
      ensures layout.offs[j + 1] < layout.offs[i] <==> j + 1 < i
    {
      if j + 1 < i { Offset(j + 1, i); }
    }

    method SeekToFirst()
      requires Ok()
      modifies this
      ensures Ok() && (good ==> at == if layout.es == [] then None else Some(0))
    {
      SeekToRestartPoint(0);
      var _ := ParseNextKey(0);
    }

    /** Where a seek must end: on the first key at or after the target, or off the end. */
    ghost predicate Sought(target: Bytes)
      requires Shape() && good
      reads this
    {
      match at
      case Some(i) => i < |layout.es| && !less(layout.es[i].key, target) && forall j | 0 <= j < i :: less(layout.es[j].key, target)
      case None => forall j | 0 <= j < |layout.es| :: less(layout.es[j].key, target)
    }

    /** Binary search among the restart points, then a linear one from there. */
    method Seek(target: Bytes)
      requires Ok() && (good ==> TotalOrder(less) && SortedKeys(less, layout.es))
      modifies this
      ensures Ok() && (good ==> Sought(target))
    {
      var left, right := 0, numRestarts - 1;
      while left < right
        invariant Ok() && 0 <= left <= right < numRestarts
        invariant good && left > 0 ==> layout.marks[left] < |layout.es| && less(layout.es[layout.marks[left]].key, target)
      {
        var mid := (left + right + 1) / 2;
        var regionOffset := GetRestartPoint(mid);
        var h := if regionOffset > restarts then None else DecodeEntry(contents[regionOffset..restarts]);
        if good { RestartKey(mid); }
        if h.None? || h.value.shared != 0 {
          MarkInvalid(true);
          return;
        }
        var midKey := h.value.body[..h.value.nonShared];
        if less(midKey, target) {
          left := mid;
        } else {
          right := mid - 1;
        }
      }
      SeekToRestartPoint(left);
      if good { EarlierArePassed(target, layout.marks[left]); }
      ScanFor(target, if good then layout.marks[left] else 0);
    }

    lemma RestartKey(r: nat)
      requires Shape() && good && 0 < r < numRestarts
      ensures GetRestartPoint(r) <= restarts && layout.marks[r] < |layout.es|
      ensures var h := DecodeEntry(contents[GetRestartPoint(r)..restarts]);
        h.Some? && h.value.shared == 0 && h.value.body[..h.value.nonShared] == layout.es[layout.marks[r]].key
    {
      var (region, i) := (contents[..restarts], layout.marks[r]);
      Offset(i, |layout.es|);
      assert contents[GetRestartPoint(r)..restarts] == region[layout.offs[i]..];
      EntryDecodes(region, layout, i);
    }

    /** All keys before that of entry j are before the target. */
    ghost predicate PassedBefore(target: Bytes, j: nat)
      requires Shape() && good && j <= |layout.es|
    {
      forall k | 0 <= k < j :: less(layout.es[k].key, target)
    }

    lemma EarlierArePassed(target: Bytes, j: nat)
      requires Shape() && good && j <= |layout.es| && TotalOrder(less) && SortedKeys(less, layout.es)
      requires j > 0 ==> j < |layout.es| && less(layout.es[j].key, target)
      ensures PassedBefore(target, j)
    {
    }

    /** Parse on until the key is at or after the target. */
    method ScanFor(target: Bytes, ghost j0: nat)
      requires Shape() && restartIndex < numRestarts && (good ==> !corrupt && Ready(j0) && PassedBefore(target, j0))
      modifies this
      ensures Ok() && (good ==> Sought(target))
    {
      ghost var j: nat := j0;
      var found := true;
      while true
        invariant Shape() && restartIndex < numRestarts && (good ==> !corrupt && Ready(j) && PassedBefore(target, j))
        decreases if nextOffset < restarts then restarts - nextOffset else 0
      {
        found := ParseNextKey(j);
        if !found {
          return;
        }
        if !less(key, target) {
          return;
        }
        if good { ReadyForNext(j); }
        j := j + 1;
      }
    }

    method SeekToLast()
      requires Ok()
      modifies this
      ensures Ok() && (good ==> at == if layout.es == [] then None else Some(|layout.es| - 1))
    {
      SeekToRestartPoint(numRestarts - 1);
      ghost var j: nat := if good then layout.marks[numRestarts - 1] else 0;
      if good { LastMark(j); }
      ScanTo(restarts, j, if good then |layout.es| else 0);
    }

    lemma LastMark(j: nat)
      requires Shape() && good && j == layout.marks[numRestarts - 1]
      ensures j < |layout.es| || layout.es == []
      ensures layout.offs[|layout.es|] == restarts
    {
      assert numRestarts - 1 > 0 ==> layout.marks[numRestarts - 1] < |layout.es|;
    }
  }

  /** Every entry in order, from the first on. */
  method ReadEntries(iter: BlockIter) returns (read: seq<KV>)
    requires iter.Ok() && iter.good
    modifies iter
    ensures iter.Ok() && read == iter.layout.es
  {
    read := [];
    iter.SeekToFirst();
    while iter.Valid()
      invariant iter.Ok() && |read| <= |iter.layout.es| && read == iter.layout.es[..|read|]
      invariant iter.at == if |read| < |iter.layout.es| then Some(|read|) else None
      decreases |iter.layout.es| - |read|
    {
      read := read + [KV(iter.key, iter.value)];
      iter.Next();
    }
    assert iter.layout.es[..|iter.layout.es|] == iter.layout.es;
  }

  /** What was added to a block is what its iterator yields. */
  method RoundTrip(builder: BlockBuilder, less: Less) returns (read: seq<KV>)
    requires builder.Valid()
    ensures read == builder.layout.es
  {
    var block := builder.Finish();
    FinishedIsBlock(builder.buffer, builder.restarts, builder.layout);
    var numRestarts: nat := DecodeFixed32(block[|block| - 4..]);
    var restarts: nat := |block| - 4 * numRestarts - 4;
    var iter := new BlockIter(block, restarts, numRestarts, less, builder.layout, true);
    read := ReadEntries(iter);
  }
}
