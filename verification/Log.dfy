/**
 The write-ahead log: records cut into checksummed fragments that never cross a block
 (db/log_format.h, db/log_writer.cc, db/log_reader.cc). A fragment has a header of seven bytes, and when
 a block has less room than that left it is filled up with zeros. The file is described by the fragments
 it is made of, so that what a reader finds in a beginning of it can be told from where it was cut.
 */
module Logs {
  import opened Coding

  const BLOCK_SIZE: nat := 32768
  const HEADER_SIZE: nat := 7

  const ZERO_TYPE: Byte := 0
  const FULL_TYPE: Byte := 1
  const FIRST_TYPE: Byte := 2
  const MIDDLE_TYPE: Byte := 3
  const LAST_TYPE: Byte := 4

  /** The checksum of a string of bytes; the proofs hold for any function. */
  type Crc = Bytes -> U32

  datatype Fragment = Fragment(kind: Byte, data: Bytes)

  // ---- The layout of a file ----

  function Zeros(n: nat): (r: Bytes)
    ensures |r| == n
  {
    if n == 0 then [] else [0] + Zeros(n - 1)
  }

  /** The offset of byte n in its block. */
  function InBlock(n: nat): nat {
    if n < BLOCK_SIZE then n else InBlock(n - BLOCK_SIZE)
  }

  lemma {:induction false} InBlockIsRemainder(n: nat)
    ensures InBlock(n) == n % BLOCK_SIZE
  {
    if n >= BLOCK_SIZE { InBlockIsRemainder(n - BLOCK_SIZE); }
  }

  /** How many bytes are left in the block after n bytes, if they are too few for a header. */
  function Trailer(n: nat): nat {
    InBlockIsRemainder(n);
    var leftover := BLOCK_SIZE - InBlock(n);
    if leftover < HEADER_SIZE then leftover else 0
  }

  function Header(crc: Crc, f: Fragment): (r: Bytes)
    requires |f.data| < 65536
    ensures |r| == HEADER_SIZE
  {
    EncodeFixed32(Mask(crc([f.kind] + f.data))) + [|f.data| % 256, |f.data| / 256, f.kind]
  }

  /** How fragments are given headers. */
  type Format = h: Fragment -> Bytes | forall f :: |h(f)| == HEADER_SIZE witness f => Zeros(HEADER_SIZE)

  /** ... namely by Header, for every fragment that can occur. */
  ghost predicate Formats(h: Format, crc: Crc) {
    forall f: Fragment {:trigger Header(crc, f)} | |f.data| < 65536 :: h(f) == Header(crc, f)
  }

  function FormatOf(crc: Crc): Format {
    (f: Fragment) => if |f.data| < 65536 then Header(crc, f) else Zeros(HEADER_SIZE)
  }

  /** The bytes a fragment adds to a file of the given size. */
  function Piece(h: Format, at: nat, f: Fragment): (r: Bytes)
    ensures |r| == PieceSize(at, f)
  {
    Zeros(Trailer(at)) + h(f) + f.data
  }

  function PieceSize(at: nat, f: Fragment): nat {
    Trailer(at) + HEADER_SIZE + |f.data|
  }

  /** The fragment does not cross the end of its block. */
  predicate FitsAt(at: nat, f: Fragment) {
    FULL_TYPE <= f.kind <= LAST_TYPE && InBlock(at + Trailer(at)) + HEADER_SIZE + |f.data| <= BLOCK_SIZE
  }

  predicate Fits(at: nat, fs: seq<Fragment>)
    decreases |fs|
  {
    fs == [] || (FitsAt(at, fs[0]) && Fits(at + PieceSize(at, fs[0]), fs[1..]))
  }

  function Size(at: nat, fs: seq<Fragment>): nat
    decreases |fs|
  {
    if fs == [] then 0 else PieceSize(at, fs[0]) + Size(at + PieceSize(at, fs[0]), fs[1..])
  }

  /** The bytes the fragments add to a file of the given size. */
  function Image(h: Format, at: nat, fs: seq<Fragment>): (r: Bytes)
    requires Fits(at, fs)
    ensures |r| == Size(at, fs)
    decreases |fs|
  {
    if fs == [] then [] else Piece(h, at, fs[0]) + Image(h, at + PieceSize(at, fs[0]), fs[1..])
  }

  lemma {:induction false} FitsAppend(at: nat, fs: seq<Fragment>, f: Fragment)
    requires Fits(at, fs) && FitsAt(at + Size(at, fs), f)
    ensures Fits(at, fs + [f])
    decreases |fs|
  {
    if fs == [] {
      assert fs + [f] == [f] && [f][1..] == [];
    } else {
      assert (fs + [f])[0] == fs[0] && (fs + [f])[1..] == fs[1..] + [f];
      FitsAppend(at + PieceSize(at, fs[0]), fs[1..], f);
    }
  }

  lemma {:induction false} ImageAppend(h: Format, at: nat, fs: seq<Fragment>, f: Fragment)
    requires Fits(at, fs) && FitsAt(at + Size(at, fs), f)
    ensures Fits(at, fs + [f]) && Image(h, at, fs + [f]) == Image(h, at, fs) + Piece(h, at + Size(at, fs), f)
    decreases |fs|
  {
    FitsAppend(at, fs, f);
    if fs == [] {
      ImageOne(h, at, f);
      assert fs + [f] == [f] && Image(h, at, fs) + Piece(h, at, f) == Piece(h, at, f);
    } else {
      var next := at + PieceSize(at, fs[0]);
      ImageAppend(h, next, fs[1..], f);
      ImageOfMore(h, at, fs, f, next);
    }
  }

  /** The last fragment's piece comes after those of all the others. */
  lemma ImageOfMore(h: Format, at: nat, fs: seq<Fragment>, f: Fragment, next: nat)
    requires fs != [] && Fits(at, fs) && Fits(at, fs + [f]) && next == at + PieceSize(at, fs[0])
    requires Fits(next, fs[1..] + [f]) && Image(h, next, fs[1..] + [f]) == Image(h, next, fs[1..]) + Piece(h, next + Size(next, fs[1..]), f)
    ensures Image(h, at, fs + [f]) == Image(h, at, fs) + Piece(h, at + Size(at, fs), f)
  {
    LastPiece(h, at, fs, f, next);
    ImageStep(h, at, fs);
    ImageFront(h, at, fs[0], fs[1..] + [f], fs + [f]);
    Associates(Piece(h, at, fs[0]), Image(h, next, fs[1..]), Piece(h, at + Size(at, fs), f));
  }

  lemma LastPiece(h: Format, at: nat, fs: seq<Fragment>, f: Fragment, next: nat)
    requires fs != [] && next == at + PieceSize(at, fs[0])
    ensures Piece(h, next + Size(next, fs[1..]), f) == Piece(h, at + Size(at, fs), f)
  {
    SizeStep(at, fs);
  }

  lemma SizeStep(at: nat, fs: seq<Fragment>)
    requires fs != []
    ensures Size(at, fs) == PieceSize(at, fs[0]) + Size(at + PieceSize(at, fs[0]), fs[1..])
  {
  }

  lemma ImageFront(h: Format, at: nat, first: Fragment, rest: seq<Fragment>, all: seq<Fragment>)
    requires all == [first] + rest && Fits(at, all)
    ensures Fits(at + PieceSize(at, first), rest) && Image(h, at, all) == Piece(h, at, first) + Image(h, at + PieceSize(at, first), rest)
  {
    assert all[0] == first && all[1..] == rest;
  }

  lemma ImageOne(h: Format, at: nat, f: Fragment)
    requires FitsAt(at, f)
    ensures Fits(at, [f]) && Image(h, at, [f]) == Piece(h, at, f)
  {
    assert [f][1..] == [];
  }

  lemma ImageStep(h: Format, at: nat, fs: seq<Fragment>)
    requires Fits(at, fs) && fs != []
    ensures Image(h, at, fs) == Piece(h, at, fs[0]) + Image(h, at + PieceSize(at, fs[0]), fs[1..])
  {
  }

  lemma Associates(a: Bytes, b: Bytes, c: Bytes)
    ensures a + (b + c) == (a + b) + c
  {
  }

  lemma {:induction false} SizeAppend(at: nat, fs: seq<Fragment>, gs: seq<Fragment>)
    ensures Size(at, fs + gs) == Size(at, fs) + Size(at + Size(at, fs), gs)
    decreases |fs|
  {
    if fs == [] {
      assert fs + gs == gs;
    } else {
      assert (fs + gs)[1..] == fs[1..] + gs;
      SizeAppend(at + PieceSize(at, fs[0]), fs[1..], gs);
    }
  }

  /** From offset `at` on, a log cut off somewhere holds these fragments: whole ones, and the beginning of another. */
  ghost predicate Laid(h: Format, at: nat, rest: Bytes, fs: seq<Fragment>)
    decreases |fs|
  {
    if fs == [] then rest == [] else
      var n := PieceSize(at, fs[0]);
      && FitsAt(at, fs[0])
      && if |rest| < n then rest <= Piece(h, at, fs[0]) else rest[..n] == Piece(h, at, fs[0]) && Laid(h, at + n, rest[n..], fs[1..])
  }

  lemma {:induction false} PrefixIsLaid(h: Format, at: nat, rest: Bytes, fs: seq<Fragment>)
    requires Fits(at, fs) && rest <= Image(h, at, fs)
    ensures Laid(h, at, rest, fs)
    decreases |fs|
  {
    if fs != [] {
      var (n, image) := (PieceSize(at, fs[0]), Image(h, at, fs));
      var more := Image(h, at + n, fs[1..]);
      assert image == Piece(h, at, fs[0]) + more;
      if |rest| >= n {
        assert rest[..n] == image[..n];
        assert rest[n..] == image[n..|rest|] == more[..|rest| - n];
        PrefixIsLaid(h, at + n, rest[n..], fs[1..]);
      } else {
        assert rest == image[..|rest|] == Piece(h, at, fs[0])[..|rest|];
      }
    }
  }

  function Length16(lo: Byte, hi: Byte): nat {
    var length: nat := lo;
    length + 256 * hi
  }

  /** Length, type and checksum are recovered from a header. */
  lemma HeaderReads(h: Format, crc: Crc, f: Fragment, b: Bytes)
    requires Formats(h, crc) && |f.data| < 65536 && |b| >= HEADER_SIZE && b[..HEADER_SIZE] == h(f)
    ensures Length16(b[4], b[5]) == |f.data| && b[6] == f.kind && Unmask(DecodeFixed32(b)) == crc([f.kind] + f.data)
  {
    var header := Header(crc, f);
    assert b[4] == header[4] && b[5] == header[5] && b[6] == header[6];
    var sum := crc([f.kind] + f.data);
    UnmaskUndoesMask(sum);
    Fixed32RoundTrip(Mask(sum), b[4..]);
    assert b == EncodeFixed32(Mask(sum)) + b[4..] by {
      assert b[..4] == header[..4];
    }
  }

  /** Four bytes of masked checksum of type and data, lowest byte first, two of length, one of type. */
  lemma HeaderInNumbers(crc: Crc, f: Fragment)
    requires |f.data| < 65536
    ensures var r := Header(crc, f);
      IsFixed32(r[..4], Mask(crc([f.kind] + f.data))) && Length16(r[4], r[5]) == |f.data| && r[6] == f.kind
  {
    var sum := EncodeFixed32(Mask(crc([f.kind] + f.data)));
    Fixed32InNumbers(Mask(crc([f.kind] + f.data)));
    assert Header(crc, f)[..4] == sum;
  }

  /**
   A fragment's bytes in a file of size n: zeros up to the next block if this one has fewer than 7 bytes
   left, the header, the data; and none of it crosses the end of a block of 32768 bytes.
   */
  lemma FragmentInNumbers(h: Format, crc: Crc, n: nat, f: Fragment)
    requires Formats(h, crc) && FitsAt(n, f)
    ensures var (p, z) := (Piece(h, n, f), if 32768 - n % 32768 < 7 then 32768 - n % 32768 else 0);
      && |p| == z + 7 + |f.data| && (n + z) % 32768 + 7 + |f.data| <= 32768 && 1 <= f.kind <= 4
      && (forall i | 0 <= i < z :: p[i] == 0) && p[z..z + 7] == Header(crc, f) && p[z + 7..] == f.data
  {
    InBlockIsRemainder(n);
    InBlockIsRemainder(n + Trailer(n));
    ZerosAre(Trailer(n));
    ThreeParts(Zeros(Trailer(n)), Header(crc, f), f.data);
  }

  lemma ThreeParts(a: Bytes, b: Bytes, c: Bytes)
    ensures var p := a + b + c; p[..|a|] == a && p[|a|..|a| + |b|] == b && p[|a| + |b|..] == c
    ensures forall i | 0 <= i < |a| :: (a + b + c)[i] == a[i]
  {
  }

  lemma {:induction false} ZerosAre(n: nat)
    ensures forall i | 0 <= i < n :: Zeros(n)[i] == 0
  {
    if n > 0 { ZerosAre(n - 1); }
  }

  // ---- Records ----

  /** A record that fits is one fragment of type 1; another one starts with type 2 and ends with type 4, and has type 3 in between. */
  lemma KindsInNumbers(g: seq<Fragment>, s: Bytes)
    requires IsRecord(g, s)
    ensures |g| == 1 ==> g[0].kind == 1 && g[0].data == s
    ensures |g| > 1 ==> g[0].kind == 2 && g[|g| - 1].kind == 4 && forall i | 0 < i < |g| - 1 :: g[i].kind == 3
  {
    if |g| == 1 {
      assert g[..0] == [] && Data(g) == [] + g[0].data;
    } else {
      assert forall i | 0 <= i < |g| - 1 :: g[..|g| - 1][i] == g[i];
    }
  }

  function Data(g: seq<Fragment>): Bytes {
    if g == [] then [] else Data(g[..|g| - 1]) + g[|g| - 1].data
  }

  /** The fragments of a record that is not complete yet. */
  predicate Partial(g: seq<Fragment>) {
    g != [] && g[0].kind == FIRST_TYPE && forall i | 0 < i < |g| :: g[i].kind == MIDDLE_TYPE
  }

  /** The fragments are one record: whole, or a first one, any number of middle ones and a last one. */
  predicate IsRecord(g: seq<Fragment>, s: Bytes) {
    && g != [] && Data(g) == s
    && if |g| == 1 then g[0].kind == FULL_TYPE else Partial(g[..|g| - 1]) && g[|g| - 1].kind == LAST_TYPE
  }

  /** The fragments of all the records. */
  function Flat(gs: seq<seq<Fragment>>): seq<Fragment> {
    if gs == [] then [] else gs[0] + Flat(gs[1..])
  }

  lemma {:induction false} FlatAppend(gs: seq<seq<Fragment>>, g: seq<Fragment>)
    ensures Flat(gs + [g]) == Flat(gs) + g
  {
    if gs == [] {
      assert (gs + [g])[1..] == [];
    } else {
      assert (gs + [g])[1..] == gs[1..] + [g];
      FlatAppend(gs[1..], g);
    }
  }

  ghost predicate Recorded(gs: seq<seq<Fragment>>, records: seq<Bytes>) {
    |gs| == |records| && forall i | 0 <= i < |gs| :: IsRecord(gs[i], records[i])
  }

  /** The size of a log that holds the first r records. */
  ghost function EndOf(gs: seq<seq<Fragment>>, r: nat): nat
    requires r <= |gs|
  {
    Size(0, Flat(gs[..r]))
  }

  lemma EndOfStep(gs: seq<seq<Fragment>>, r: nat)
    requires r < |gs|
    ensures EndOf(gs, r + 1) == EndOf(gs, r) + Size(EndOf(gs, r), gs[r])
  {
    assert gs[..r + 1] == gs[..r] + [gs[r]];
    FlatAppend(gs[..r], gs[r]);
    SizeAppend(0, Flat(gs[..r]), gs[r]);
  }

  // ---- The writer ----

  class Writer {
    const crc: Crc
    var dest: Bytes
    var blockOffset: nat
    /** The records written so far and the fragments they became. */
    ghost var records: seq<Bytes>
    ghost var groups: seq<seq<Fragment>>
    ghost const format: Format

    constructor (crc: Crc)
      ensures Valid() && records == [] && dest == [] && this.crc == crc
    {
      this.crc, dest, blockOffset, records, groups, format := crc, [], 0, [], [], FormatOf(crc);
    }

    ghost predicate Offset()
      reads this
    {
      blockOffset <= BLOCK_SIZE && blockOffset <= |dest| && InBlock(|dest| - blockOffset) == 0
    }

    /** The file holds the fragments. */
    ghost predicate Holds(fs: seq<Fragment>)
      reads this
    {
      Formats(format, crc) && Offset() && Fits(0, fs) && dest == Image(format, 0, fs)
    }

    /** ... and the zeros that fill up a block with no room for a header. */
    ghost predicate Positioned(fs: seq<Fragment>)
      reads this
    {
      Formats(format, crc) && Offset() && Fits(0, fs) && dest == Image(format, 0, fs) + Zeros(Trailer(Size(0, fs)))
    }

    ghost predicate Valid()
      reads this
    {
      Recorded(groups, records) && Holds(Flat(groups))
    }

    /** Cut the record into fragments; an empty one still makes one fragment. */
    method AddRecord(slice: Bytes)
      requires Valid()
      modifies this
      ensures Valid() && records == old(records) + [slice] && old(groups) <= groups
    {
      var left := slice;
      var begin := true;
      ghost var g: seq<Fragment> := [];
      ghost var fs := Flat(groups);
      assert fs + g == fs;
      while begin || left != []
        invariant Holds(fs + g) && groups == old(groups) && records == old(records)
        invariant if begin then g == [] && left == slice
                  else if left == [] then IsRecord(g, slice)
                  else Partial(g) && Data(g) + left == slice && blockOffset == BLOCK_SIZE
        decreases |left|, begin
      {
        ghost var f;
        var fragmentLength;
        fragmentLength, f := EmitFragment(left, begin, fs + g);
        assert fs + g + [f] == fs + (g + [f]);
        OneMoreFragment(g, f, left, slice, begin, fragmentLength);
        g := g + [f];
        left := left[fragmentLength..];
        begin := false;
      }
      Commit(g, slice);
    }

    ghost method Commit(g: seq<Fragment>, slice: Bytes)
      requires Recorded(groups, records) && Holds(Flat(groups) + g) && IsRecord(g, slice)
      modifies this`groups, this`records
      ensures Valid() && records == old(records) + [slice] && groups == old(groups) + [g]
    {
      FlatAppend(groups, g);
      groups, records := groups + [g], records + [slice];
    }

    static function KindOf(begin: bool, end: bool): Byte {
      if begin && end then FULL_TYPE else if begin then FIRST_TYPE else if end then LAST_TYPE else MIDDLE_TYPE
    }

    /** One turn of the loop: as much of what is left as the block can take. Only in its last 7 bytes is that nothing. */
    method EmitFragment(left: Bytes, begin: bool, ghost fs: seq<Fragment>) returns (n: nat, ghost f: Fragment)
      requires Holds(fs) && (!begin ==> left != [] && blockOffset == BLOCK_SIZE)
      modifies this`dest, this`blockOffset
      ensures Holds(fs + [f]) && n <= |left| && f == Fragment(KindOf(begin, n == |left|), left[..n])
      ensures n < |left| ==> blockOffset == BLOCK_SIZE
      ensures !begin ==> n > 0
    {
      SwitchBlock(fs);
      var avail := BLOCK_SIZE - blockOffset - HEADER_SIZE;
      n := if |left| < avail then |left| else avail;
      var end := |left| == n;
      f := Fragment(KindOf(begin, end), left[..n]);
      EmitPhysicalRecord(KindOf(begin, end), left[..n], fs);
    }

    /** Leave no block with less room than a header needs. */
    method SwitchBlock(ghost fs: seq<Fragment>)
      requires Holds(fs)
      modifies this`dest, this`blockOffset
      ensures Positioned(fs) && blockOffset + HEADER_SIZE <= BLOCK_SIZE
      ensures old(blockOffset) == BLOCK_SIZE ==> blockOffset == 0
    {
      var leftover := BLOCK_SIZE - blockOffset;
      TrailerOf(|dest|, blockOffset);
      if leftover < HEADER_SIZE {
        if leftover > 0 {
          dest := dest + Zeros(leftover);
        }
        blockOffset := 0;
      }
    }

    /** The trailer after n bytes is what the block offset says. */
    static lemma TrailerOf(n: nat, blockOffset: nat)
      requires blockOffset <= BLOCK_SIZE && blockOffset <= n && InBlock(n - blockOffset) == 0
      ensures Trailer(n) == (if 0 < BLOCK_SIZE - blockOffset < HEADER_SIZE then BLOCK_SIZE - blockOffset else 0)
      ensures InBlock(n + (BLOCK_SIZE - blockOffset)) == 0
    {
      InBlockIsRemainder(n);
      InBlockIsRemainder(n - blockOffset);
      InBlockIsRemainder(n + (BLOCK_SIZE - blockOffset));
    }

    static lemma OneMoreFragment(g: seq<Fragment>, f: Fragment, left: Bytes, slice: Bytes, begin: bool, n: nat)
      requires n <= |left| && f.data == left[..n]
      requires if begin then g == [] && left == slice else Partial(g) && Data(g) + left == slice
      requires f.kind == KindOf(begin, n == |left|)
      ensures if n == |left| then IsRecord(g + [f], slice) else Partial(g + [f]) && Data(g + [f]) + left[n..] == slice
    {
      assert (g + [f])[..|g|] == g;
      assert left == left[..n] + left[n..];
      assert Data(g + [f]) == Data(g) + f.data;
      if n == |left| { assert left[..n] == left; }
    }

    /** Header, then payload. */
    method EmitPhysicalRecord(t: Byte, data: Bytes, ghost fs: seq<Fragment>)
      requires Positioned(fs)
      requires FULL_TYPE <= t <= LAST_TYPE && blockOffset + HEADER_SIZE + |data| <= BLOCK_SIZE
      modifies this`dest, this`blockOffset
      ensures Holds(fs + [Fragment(t, data)]) && blockOffset == old(blockOffset) + HEADER_SIZE + |data|
    {
      BlockOffsetIs(|dest|, blockOffset, HEADER_SIZE + |data|);
      Emitted(format, fs, Fragment(t, data), dest);
      var header := MakeHeader(t, data);
      AppendAt(header, data);
    }

    method AppendAt(header: Bytes, data: Bytes)
      requires |header| == HEADER_SIZE
      modifies this`dest, this`blockOffset
      ensures dest == old(dest) + header + data && blockOffset == old(blockOffset) + HEADER_SIZE + |data|
    {
      dest := dest + header;
      dest := dest + data;
      blockOffset := blockOffset + HEADER_SIZE + |data|;
    }

    /** Behind the zeros, header and data make up the fragment's piece of the file. */
    static lemma Emitted(format: Format, fs: seq<Fragment>, f: Fragment, dest: Bytes)
      requires Fits(0, fs) && FitsAt(Size(0, fs), f) && dest == Image(format, 0, fs) + Zeros(Trailer(Size(0, fs)))
      ensures Fits(0, fs + [f]) && dest + format(f) + f.data == Image(format, 0, fs + [f])
    {
      ImageAppend(format, 0, fs, f);
      HeaderThenData(Image(format, 0, fs), Zeros(Trailer(Size(0, fs))), format(f), f.data);
    }

    static lemma HeaderThenData(image: Bytes, zeros: Bytes, header: Bytes, data: Bytes)
      ensures image + zeros + header + data == image + (zeros + header + data)
    {
    }

    /** Checksum, length and type. */
    method MakeHeader(t: Byte, data: Bytes) returns (header: Bytes)
      requires Formats(format, crc) && |data| < 65536
      ensures header == format(Fragment(t, data))
    {
      header := Header(crc, Fragment(t, data));
    }

    static lemma BlockOffsetIs(n: nat, blockOffset: nat, more: nat)
      requires blockOffset <= n && InBlock(n - blockOffset) == 0 && blockOffset + more <= BLOCK_SIZE && more > 0
      ensures InBlock(n) == blockOffset && InBlock(n + more - (blockOffset + more)) == 0
    {
      InBlockIsRemainder(n);
      InBlockIsRemainder(n - blockOffset);
    }
  }

  // ---- The reader ----

  datatype Physical = Eof | BadRecord | Read(fragment: Fragment)

  /** What a header leads to: the result, how much of the buffer is used up, and whether it is reported as corrupt. */
  datatype Parsed = Parsed(result: Physical, taken: nat, corrupt: bool)

  /** The second half of ReadPhysicalRecord. */
  function Parse(crc: Crc, buffer: Bytes, eof: bool): (p: Parsed)
    requires |buffer| >= HEADER_SIZE
    ensures 0 < p.taken <= |buffer|
  {
    var (kind, length) := (buffer[6], Length16(buffer[4], buffer[5]));
    if HEADER_SIZE + length > |buffer| then
      Parsed(if eof then Eof else BadRecord, |buffer|, !eof)
    else if kind == ZERO_TYPE && length == 0 then
      Parsed(BadRecord, |buffer|, false)
    else if crc(buffer[6..HEADER_SIZE + length]) != Unmask(DecodeFixed32(buffer)) then
      Parsed(BadRecord, |buffer|, true)
    else
      Parsed(Read(Fragment(kind, buffer[HEADER_SIZE..HEADER_SIZE + length])), HEADER_SIZE + length, false)
  }

  /** A fragment as the writer left it is read back, if all of it is there; otherwise the file must end here. */
  lemma ParseFragment(crc: Crc, buffer: Bytes, eof: bool, f: Fragment)
    requires |buffer| >= HEADER_SIZE && f.kind >= FULL_TYPE && Length16(buffer[4], buffer[5]) == |f.data| && buffer[6] == f.kind
    requires Unmask(DecodeFixed32(buffer)) == crc([f.kind] + f.data)
    requires var size := HEADER_SIZE + |f.data|;
      size <= |buffer| ==> buffer[HEADER_SIZE..size] == f.data && buffer[6..size] == [f.kind] + f.data
    ensures var (p, size) := (Parse(crc, buffer, eof), HEADER_SIZE + |f.data|);
      if size <= |buffer| then p == Parsed(Read(f), size, false) else eof ==> p.result == Eof && !p.corrupt
  {
  }

  /** The record being put together: whether it is complete, and whether what was read does not belong there. */
  datatype Assembly = Assembly(complete: bool, corrupt: bool, fragmented: bool, scratch: Bytes)

  /** One turn of ReadRecord's loop. */
  function Assemble(r: Physical, fragmented: bool, scratch: Bytes): Assembly
    requires !r.Eof?
  {
    if r.BadRecord? then Assembly(false, fragmented, false, if fragmented then [] else scratch)
    else if r.fragment.kind == FULL_TYPE then Assembly(true, fragmented && scratch != [], fragmented, r.fragment.data)
    else if r.fragment.kind == FIRST_TYPE then Assembly(false, fragmented && scratch != [], true, r.fragment.data)
    else if r.fragment.kind == MIDDLE_TYPE then
      if fragmented then Assembly(false, false, true, scratch + r.fragment.data) else Assembly(false, true, false, scratch)
    else if r.fragment.kind == LAST_TYPE then
      if fragmented then Assembly(true, false, true, scratch + r.fragment.data) else Assembly(false, true, false, scratch)
    else Assembly(false, true, false, [])
  }

  class Reader {
    const crc: Crc
    const file: Bytes
    var pos: nat
    var buffer: Bytes
    var eof: bool
    /** How many times a corruption was reported. */
    var reports: nat

    ghost const format: Format

    constructor (crc: Crc, file: Bytes, ghost format: Format)
      ensures Valid() && At() == 0 && reports == 0 && Aligned() && this.crc == crc && this.file == file && this.format == format
    {
      this.format := format;
      this.crc, this.file, pos, buffer, eof, reports := crc, file, 0, [], false, 0;
    }

    /** The buffer is what was read last, up to the position in the file. */
    ghost predicate Valid()
      reads this
    {
      |buffer| <= pos <= |file| && (buffer == [] || buffer == file[pos - |buffer|..pos]) && (eof ==> pos == |file|)
    }

    /** The place in the file the next byte of the buffer comes from. */
    ghost function At(): nat
      requires Valid()
      reads this
    {
      pos - |buffer|
    }

    /** The buffer ends with its block, or with the file. */
    ghost predicate Aligned()
      requires Valid()
      reads this
    {
      InBlock(At()) + |buffer| <= BLOCK_SIZE && (!eof ==> InBlock(pos) == 0)
    }

    /** What is still to be read is a log cut off somewhere, and these are its fragments. */
    ghost predicate Synced(fs: seq<Fragment>)
      requires Valid()
      reads this
    {
      Aligned() && Laid(format, At(), file[At()..], fs)
    }

    /** Read the next block into the empty buffer, or find the end of the file. */
    method Refill()
      requires Valid() && !eof && |buffer| < HEADER_SIZE
      modifies this
      ensures Valid() && At() == old(pos) && reports == old(reports) && (eof || |buffer| == BLOCK_SIZE)
      ensures old(Aligned()) ==> Aligned()
    {
      var n := if |file| - pos < BLOCK_SIZE then |file| - pos else BLOCK_SIZE;
      buffer := file[pos..pos + n];
      pos := pos + n;
      if n < BLOCK_SIZE {
        eof := true;
      }
    }

    /** The next whole fragment, or the end of the file if there is none. */
    method ReadPhysicalRecord(ghost fs: seq<Fragment>) returns (r: Physical)
      requires Valid() && Formats(format, crc)
      modifies this
      ensures Valid() && At() >= old(At()) && (!r.Eof? ==> At() > old(At()))
      ensures old(Synced(fs)) ==>
        && reports == old(reports)
        && if NextIsWhole(fs, old(At()), |file|) then
             r == Read(fs[0]) && Synced(fs[1..]) && At() == old(At()) + PieceSize(old(At()), fs[0])
           else r == Eof
    {
      ghost var synced, at := Synced(fs), At();
      if |buffer| < HEADER_SIZE {
        if !eof {
          if synced { TrailerToBlockEnd(At(), |buffer|); }
          Refill();
        }
        if |buffer| < HEADER_SIZE {
          buffer := [];
          return Eof;
        }
      } else if synced {
        NoTrailer(At(), |buffer|);
      }
      r := ParseHeader(fs, at, synced);
    }

    /** A full buffer's next bytes are a header. */
    method ParseHeader(ghost fs: seq<Fragment>, ghost at: nat, ghost synced: bool) returns (r: Physical)
      requires Valid() && Formats(format, crc) && |buffer| >= HEADER_SIZE && at <= At()
      requires synced ==> Aligned() && At() == at + Trailer(at) && Laid(format, at, file[at..], fs)
      modifies this
      ensures Valid() && At() > old(At())
      ensures synced ==>
        && reports == old(reports)
        && if NextIsWhole(fs, at, |file|) then r == Read(fs[0]) && Synced(fs[1..]) && At() == at + PieceSize(at, fs[0]) else r == Eof
    {
      var p := ParseBuffer(fs, at, synced);
      Take(p.taken, p.corrupt);
      r := p.result;
      if synced && r.Read? { RestOf(file, at, PieceSize(at, fs[0])); }
    }

    method ParseBuffer(ghost fs: seq<Fragment>, ghost at: nat, ghost synced: bool) returns (p: Parsed)
      requires Valid() && Formats(format, crc) && |buffer| >= HEADER_SIZE
      requires synced ==> Aligned() && At() == at + Trailer(at) && Laid(format, at, file[at..], fs)
      ensures 0 < p.taken <= |buffer|
      ensures synced ==>
        && fs != [] && !p.corrupt
        && if NextIsWhole(fs, at, |file|) then p.result == Read(fs[0]) && p.taken == HEADER_SIZE + |fs[0].data| else p.result == Eof
    {
      if synced {
        SliceOfRest(file, at, Trailer(at), |buffer|);
        HeaderInBuffer(format, crc, fs, at, file[at..], buffer);
        ParseFragment(crc, buffer, eof, fs[0]);
        WholeInBuffer(at, fs[0]);
      }
      p := Parse(crc, buffer, eof);
    }

    method Take(taken: nat, corrupt: bool)
      requires Valid() && taken <= |buffer|
      modifies this`buffer, this`reports
      ensures Valid() && At() == old(At()) + taken && reports == old(reports) + if corrupt then 1 else 0
      ensures old(Aligned()) ==> Aligned()
    {
      if Aligned() { StillAligned(At(), taken, |buffer|); }
      if corrupt {
        reports := reports + 1;
      }
      buffer := buffer[taken..];
    }

    /** The next fragment is all in the buffer exactly if it is all in the file. */
    lemma WholeInBuffer(at: nat, f: Fragment)
      requires Valid() && Aligned() && |buffer| >= HEADER_SIZE && At() == at + Trailer(at) && FitsAt(at, f)
      ensures HEADER_SIZE + |f.data| <= |buffer| <==> at + PieceSize(at, f) <= |file|
      ensures HEADER_SIZE + |f.data| > |buffer| ==> eof
    {
      if !eof { RestOfBlock(At(), |buffer|, HEADER_SIZE + |f.data|); }
    }

    /**
     Put the next record together. In a log cut off anywhere, with the record's fragments g next, it is
     found exactly if all of it is there; nothing is reported. In other files, anything goes, but the method ends.
     */
    method ReadRecord(ghost g: seq<Fragment>, ghost more: seq<Fragment>, ghost s: Bytes) returns (found: bool, record: Bytes)
      requires Valid() && Formats(format, crc)
      modifies this
      ensures Valid() && (found ==> At() > old(At()))
      ensures old(Synced(g + more)) && (if g == [] then more == [] else IsRecord(g, s)) ==>
        && reports == old(reports) && found == (g != [] && old(At()) + Size(old(At()), g) <= |file|)
        && (found ==> record == s && Synced(more) && At() == old(At()) + Size(old(At()), g))
    {
      var scratch: Bytes := [];
      var inFragmentedRecord := false;
      ghost var good := Synced(g + more) && if g == [] then more == [] else IsRecord(g, s);
      ghost var end := At() + Size(At(), g);
      ghost var m: nat := 0;
      assert g[0..] == g;
      while true
        invariant Valid() && At() >= old(At())
        invariant good ==> reports == old(reports) && Assembling(g, more, m, end, inFragmentedRecord, scratch)
        decreases |file| - At()
      {
        var eof, a := ReadFragment(g, more, s, m, end, inFragmentedRecord, scratch, good);
        if eof {
          return false, [];
        }
        if a.complete {
          return true, a.scratch;
        }
        inFragmentedRecord, scratch := a.fragmented, a.scratch;
        m := m + 1;
      }
    }

    /** One turn of the loop. */
    method ReadFragment(ghost g: seq<Fragment>, ghost more: seq<Fragment>, ghost s: Bytes, ghost m: nat, ghost end: nat,
                        inFragmentedRecord: bool, scratch: Bytes, ghost good: bool) returns (eof: bool, a: Assembly)
      requires Valid() && Formats(format, crc)
      requires good ==> Assembling(g, more, m, end, inFragmentedRecord, scratch) && if g == [] then more == [] else IsRecord(g, s)
      modifies this
      ensures Valid() && At() >= old(At()) && (!eof ==> At() > old(At()))
      ensures good ==>
        && reports == old(reports)
        && if eof then g == [] || end > |file| else
            && g != [] && (a.complete ==> a.scratch == s && Synced(more) && At() == end)
            && (!a.complete ==> Assembling(g, more, m + 1, end, a.fragmented, a.scratch))
    {
      ghost var rest := [];
      if good { rest := NextToRead(g, more, m, At(), end, |file|); }
      var physical := ReadPhysicalRecord(rest);
      if good && g != [] { assert rest[1..] == g[m + 1..] + more; }
      eof, a := physical.Eof?, Assembly(false, false, inFragmentedRecord, scratch);
      if !eof {
        a := AddFragment(physical, g, more, s, m, end, inFragmentedRecord, scratch, good);
      }
    }

    /** Fragment m, just read, joins the record. */
    method AddFragment(physical: Physical, ghost g: seq<Fragment>, ghost more: seq<Fragment>, ghost s: Bytes, ghost m: nat, ghost end: nat,
                       inFragmentedRecord: bool, scratch: Bytes, ghost good: bool) returns (a: Assembly)
      requires Valid() && !physical.Eof?
      requires good ==>
        && IsRecord(g, s) && m < |g| && physical == Read(g[m]) && Synced(g[m + 1..] + more) && At() + Size(At(), g[m + 1..]) == end
        && inFragmentedRecord == (m > 0) && (m > 0 ==> scratch == Data(g[..m]))
      modifies this`reports
      ensures Valid() && At() == old(At())
      ensures good ==>
        && reports == old(reports) && (a.complete ==> a.scratch == s && Synced(more) && At() == end)
        && (!a.complete ==> Assembling(g, more, m + 1, end, a.fragmented, a.scratch))
    {
      if good {
        AssembleStep(g, s, m, inFragmentedRecord, scratch);
        assert m + 1 == |g| ==> g[m + 1..] + more == more;
      }
      a := Assemble(physical, inFragmentedRecord, scratch);
      if a.corrupt {
        reports := reports + 1;
      }
    }

    /** The first m fragments of the record have been read, and it is not complete. */
    ghost predicate Assembling(g: seq<Fragment>, more: seq<Fragment>, m: nat, end: nat, inFragmentedRecord: bool, scratch: Bytes)
      requires Valid()
      reads this
    {
      && (if g == [] then m == 0 else m < |g|) && Synced(g[m..] + more) && At() + Size(At(), g[m..]) == end
      && inFragmentedRecord == (m > 0) && (m > 0 ==> scratch == Data(g[..m]))
    }
  }

  /** Fragment m of a record. */
  lemma RecordStep(g: seq<Fragment>, s: Bytes, m: nat)
    requires IsRecord(g, s) && m < |g|
    ensures Data(g[..m + 1]) == Data(g[..m]) + g[m].data && (m + 1 == |g| ==> Data(g[..m + 1]) == s)
    ensures g[m].kind == if |g| == 1 then FULL_TYPE else if m == 0 then FIRST_TYPE else if m + 1 < |g| then MIDDLE_TYPE else LAST_TYPE
  {
    assert g[..m + 1][..m] == g[..m] && g[..|g|] == g;
    assert m < |g| - 1 ==> g[..|g| - 1][m] == g[m];
  }

  lemma AssembleStep(g: seq<Fragment>, s: Bytes, m: nat, fragmented: bool, scratch: Bytes)
    requires IsRecord(g, s) && m < |g| && fragmented == (m > 0) && (m > 0 ==> scratch == Data(g[..m]))
    ensures var a := Assemble(Read(g[m]), fragmented, scratch);
      !a.corrupt && a.complete == (m + 1 == |g|) && if a.complete then a.scratch == s else a.fragmented && a.scratch == Data(g[..m + 1])
  {
    RecordStep(g, s, m);
    assert g[..0] == [];
  }

  /** The fragments after the first m of the record. */
  lemma NextOfRecord(g: seq<Fragment>, more: seq<Fragment>, m: nat, at: nat)
    requires if g == [] then m == 0 && more == [] else m < |g|
    ensures var rest := g[m..] + more;
      if g == [] then rest == [] else
        && rest != [] && rest[0] == g[m] && rest[1..] == g[m + 1..] + more
        && Size(at, g[m..]) == PieceSize(at, g[m]) + Size(at + PieceSize(at, g[m]), g[m + 1..])
        && (m + 1 == |g| ==> g[m + 1..] == [] && g[m + 1..] + more == more)
  {
    if g != [] { assert g[m..][1..] == g[m + 1..]; }
  }

  /** What is to be read next: if it is not all there, the record is not. */
  lemma NextToRead(g: seq<Fragment>, more: seq<Fragment>, m: nat, at: nat, end: nat, size: nat) returns (rest: seq<Fragment>)
    requires (if g == [] then m == 0 && more == [] else m < |g|) && at + Size(at, g[m..]) == end
    ensures rest == g[m..] + more && (NextIsWhole(rest, at, size) ==> g != [])
    ensures g != [] ==>
      && rest != [] && rest[0] == g[m] && rest[1..] == g[m + 1..] + more
      && at + PieceSize(at, g[m]) + Size(at + PieceSize(at, g[m]), g[m + 1..]) == end
      && (!NextIsWhole(rest, at, size) ==> end > size)
  {
    rest := g[m..] + more;
    NextOfRecord(g, more, m, at);
  }

  ghost predicate NextIsWhole(fs: seq<Fragment>, at: nat, size: nat) {
    fs != [] && at + PieceSize(at, fs[0]) <= size
  }

  lemma RestOf(file: Bytes, at: nat, n: nat)
    requires at + n <= |file|
    ensures file[at..][n..] == file[at + n..]
  {
  }

  lemma SliceOfRest(file: Bytes, at: nat, t: nat, n: nat)
    requires at + t + n <= |file|
    ensures |file[at..]| >= t + n && file[at..][t..t + n] == file[at + t..at + t + n]
  {
  }

  lemma StillAligned(at: nat, taken: nat, left: nat)
    requires InBlock(at) + left <= BLOCK_SIZE && taken <= left
    ensures InBlock(at + taken) + (left - taken) <= BLOCK_SIZE
  {
    InBlockIsRemainder(at);
    InBlockIsRemainder(at + taken);
  }

  lemma NoTrailer(at: nat, left: nat)
    requires left >= HEADER_SIZE && InBlock(at) + left <= BLOCK_SIZE
    ensures Trailer(at) == 0
  {
  }

  lemma TrailerToBlockEnd(at: nat, left: nat)
    requires left < HEADER_SIZE && InBlock(at) + left <= BLOCK_SIZE && InBlock(at + left) == 0
    ensures Trailer(at) == left
  {
    InBlockIsRemainder(at);
    InBlockIsRemainder(at + left);
  }

  /** The rest of the block holds whatever fits in it. */
  lemma RestOfBlock(at: nat, left: nat, size: nat)
    requires left > 0 && InBlock(at) + left <= BLOCK_SIZE && InBlock(at + left) == 0 && InBlock(at) + size <= BLOCK_SIZE
    ensures size <= left
  {
    InBlockIsRemainder(at);
    InBlockIsRemainder(at + left);
  }

  /** Bytes that follow the trailer start with the first fragment's header, and with its data if they are there. */
  lemma HeaderInBuffer(h: Format, crc: Crc, fs: seq<Fragment>, at: nat, rest: Bytes, buffer: Bytes)
    requires Formats(h, crc) && Laid(h, at, rest, fs) && |buffer| >= HEADER_SIZE
    requires Trailer(at) + |buffer| <= |rest| && buffer == rest[Trailer(at)..Trailer(at) + |buffer|]
    ensures fs != [] && FitsAt(at, fs[0])
    ensures Length16(buffer[4], buffer[5]) == |fs[0].data| && buffer[6] == fs[0].kind
    ensures Unmask(DecodeFixed32(buffer)) == crc([fs[0].kind] + fs[0].data)
    ensures var size := HEADER_SIZE + |fs[0].data|;
      size <= |buffer| ==> buffer[HEADER_SIZE..size] == fs[0].data && buffer[6..size] == [fs[0].kind] + fs[0].data
  {
    PieceParts(h, at, fs[0], rest);
    HeaderThere(h, crc, fs[0], rest, Trailer(at), buffer);
  }

  lemma HeaderThere(h: Format, crc: Crc, f: Fragment, rest: Bytes, t: nat, buffer: Bytes)
    requires Formats(h, crc) && |f.data| < 65536 && HEADER_SIZE <= |buffer| && t + |buffer| <= |rest| && buffer == rest[t..t + |buffer|]
    requires rest[t..t + HEADER_SIZE] == h(f)
    requires var d := t + HEADER_SIZE; d + |f.data| <= |rest| ==> rest[d..d + |f.data|] == f.data
    ensures Length16(buffer[4], buffer[5]) == |f.data| && buffer[6] == f.kind
    ensures Unmask(DecodeFixed32(buffer)) == crc([f.kind] + f.data)
    ensures var size := HEADER_SIZE + |f.data|;
      size <= |buffer| ==> buffer[HEADER_SIZE..size] == f.data && buffer[6..size] == [f.kind] + f.data
  {
    SubSlice(rest, t, |buffer|, 0, HEADER_SIZE);
    HeaderReads(h, crc, f, buffer);
    var size := HEADER_SIZE + |f.data|;
    if size <= |buffer| {
      SubSlice(rest, t, |buffer|, HEADER_SIZE, size);
      FromKind(buffer, size);
    }
  }

  /** The type byte ends the header. */
  lemma FromKind(buffer: Bytes, size: nat)
    requires HEADER_SIZE <= size <= |buffer|
    ensures buffer[6..size] == [buffer[6]] + buffer[HEADER_SIZE..size]
  {
  }

  lemma PieceParts(h: Format, at: nat, f: Fragment, rest: Bytes)
    requires rest[..if |rest| < PieceSize(at, f) then |rest| else PieceSize(at, f)] <= Piece(h, at, f)
    ensures var t := Trailer(at); t + HEADER_SIZE <= |rest| ==> rest[t..t + HEADER_SIZE] == h(f)
    ensures var t := Trailer(at) + HEADER_SIZE; t + |f.data| <= |rest| ==> rest[t..t + |f.data|] == f.data
  {
    var (n, piece) := (if |rest| < PieceSize(at, f) then |rest| else PieceSize(at, f), Piece(h, at, f));
    var (t, d) := (Trailer(at), Trailer(at) + HEADER_SIZE);
    PartsOf(Zeros(t), h(f), f.data);
    assert |Zeros(t)| == t && piece == Zeros(t) + h(f) + f.data;
    assert n <= |piece| && rest[..n] == piece[..n];
    if d <= |rest| { SamePart(rest, piece, n, t, d); }
    if d + |f.data| <= |rest| { SamePart(rest, piece, n, d, n); }
  }

  lemma PartsOf(a: Bytes, b: Bytes, c: Bytes)
    ensures (a + b + c)[|a|..|a| + |b|] == b && (a + b + c)[|a| + |b|..] == c
    ensures (a + b + c)[|a| + |b|..|a| + |b| + |c|] == c
  {
  }

  /** Sequences that begin alike have the same slices there. */
  lemma SamePart(s: Bytes, t: Bytes, n: nat, i: nat, j: nat)
    requires i <= j <= n <= |s| && n <= |t| && s[..n] == t[..n]
    ensures s[i..j] == t[i..j]
  {
    assert s[i..j] == s[..n][i..j] && t[i..j] == t[..n][i..j];
  }

  lemma SubSlice(file: Bytes, a: nat, n: nat, i: nat, j: nat)
    requires i <= j <= n && a + n <= |file|
    ensures file[a..a + n][i..j] == file[a + i..a + j]
  {
    var (s, t) := (file[a..a + n][i..j], file[a + i..a + j]);
    assert |s| == |t| && forall k | 0 <= k < |s| :: s[k] == t[k];
  }

  // ---- Reading back ----

  /** These are the records that are whole in a log cut to the given size. */
  ghost predicate WholeRecords(read: seq<Bytes>, gs: seq<seq<Fragment>>, records: seq<Bytes>, size: nat)
    requires |gs| == |records|
  {
    && read <= records && EndOf(gs, |read|) <= size
    && (|read| < |records| ==> size < EndOf(gs, |read| + 1))
  }

  function NextGroup(gs: seq<seq<Fragment>>, r: nat): seq<Fragment> {
    if r < |gs| then gs[r] else []
  }

  function LaterGroups(gs: seq<seq<Fragment>>, r: nat): seq<Fragment> {
    if r < |gs| then Flat(gs[r + 1..]) else []
  }

  lemma GroupsFrom(gs: seq<seq<Fragment>>, r: nat)
    requires r <= |gs|
    ensures NextGroup(gs, r) + LaterGroups(gs, r) == Flat(gs[r..])
    ensures r < |gs| ==> LaterGroups(gs, r) == Flat(gs[r + 1..])
  {
    if r < |gs| { assert gs[r..][1..] == gs[r + 1..]; }
  }

  /** Read record r of a log, if all of it is there. */
  method ReadNext(reader: Reader, ghost gs: seq<seq<Fragment>>, ghost records: seq<Bytes>, ghost r: nat) returns (found: bool, record: Bytes)
    requires Recorded(gs, records) && AtRecord(reader, gs, r)
    modifies reader
    ensures reader.Valid() && reader.reports == old(reader.reports)
    ensures found == (r < |gs| && EndOf(gs, r + 1) <= |reader.file|)
    ensures found ==> record == records[r] && AtRecord(reader, gs, r + 1)
  {
    GroupsFrom(gs, r);
    if r < |gs| { EndOfStep(gs, r); }
    found, record := reader.ReadRecord(NextGroup(gs, r), LaterGroups(gs, r), if r < |gs| then records[r] else []);
  }

  lemma SameFormats(h: Format, crc: Crc, h': Format, crc': Crc)
    requires Formats(h, crc) && h == h' && crc == crc'
    ensures Formats(h', crc')
  {
  }

  /** The reader has come to record r. */
  ghost predicate AtRecord(reader: Reader, gs: seq<seq<Fragment>>, r: nat)
    reads reader
  {
    && reader.Valid() && Formats(reader.format, reader.crc) && r <= |gs|
    && reader.At() == EndOf(gs, r) && reader.Synced(Flat(gs[r..]))
  }

  method OpenLog(crc: Crc, file: Bytes, ghost format: Format, ghost gs: seq<seq<Fragment>>) returns (reader: Reader)
    requires Formats(format, crc) && Fits(0, Flat(gs)) && file <= Image(format, 0, Flat(gs))
    ensures fresh(reader) && reader.file == file && reader.reports == 0 && AtRecord(reader, gs, 0)
  {
    reader := new Reader(crc, file, format);
    SameFormats(format, crc, reader.format, reader.crc);
    PrefixIsLaid(format, 0, file, Flat(gs));
    assert file[reader.At()..] == file && gs[0..] == gs && gs[..0] == [];
  }

  lemma OneMoreRead(read: seq<Bytes>, records: seq<Bytes>, record: Bytes)
    requires read <= records && |read| < |records| && record == records[|read|]
    ensures read + [record] <= records
  {
  }

  /** Any beginning of a log reads back as its whole records, without a report of corruption. */
  method ReadAll(crc: Crc, file: Bytes, ghost format: Format, ghost gs: seq<seq<Fragment>>, ghost records: seq<Bytes>)
      returns (read: seq<Bytes>, reports: nat)
    requires Formats(format, crc) && Recorded(gs, records) && Fits(0, Flat(gs)) && file <= Image(format, 0, Flat(gs))
    ensures WholeRecords(read, gs, records, |file|) && reports == 0
  {
    var reader := OpenLog(crc, file, format, gs);
    read := [];
    var found := true;
    while found
      invariant Reading(reader, file, gs, records, read, found)
      decreases found, |gs| - |read|
    {
      found, read := ReadOneMore(reader, file, gs, records, read);
    }
    reports := reader.reports;
  }

  /** So many records have been read; if the last attempt found none, the next one is not wholly there. */
  ghost predicate Reading(reader: Reader, file: Bytes, gs: seq<seq<Fragment>>, records: seq<Bytes>, read: seq<Bytes>, found: bool)
    requires |gs| == |records|
    reads reader
  {
    && reader.reports == 0 && reader.file == file && read <= records && EndOf(gs, |read|) <= |file|
    && if found then AtRecord(reader, gs, |read|) else |read| < |records| ==> |file| < EndOf(gs, |read| + 1)
  }

  method ReadOneMore(reader: Reader, file: Bytes, ghost gs: seq<seq<Fragment>>, ghost records: seq<Bytes>, read: seq<Bytes>)
      returns (found: bool, read': seq<Bytes>)
    requires Recorded(gs, records) && Reading(reader, file, gs, records, read, true)
    modifies reader
    ensures Reading(reader, file, gs, records, read', found) && (found ==> |read'| == |read| + 1 <= |gs|)
  {
    var record;
    read' := read;
    found, record := ReadNext(reader, gs, records, |read|);
    if found {
      OneMoreRead(read, records, record);
      read' := read + [record];
    }
  }

  /** What was written is read back; of a file cut off at n bytes, exactly the records that lie before the cut. */
  method RoundTrip(w: Writer, n: nat) returns (read: seq<Bytes>, reports: nat)
    requires w.Valid() && n <= |w.dest|
    ensures WholeRecords(read, w.groups, w.records, n) && reports == 0
    ensures n == |w.dest| ==> read == w.records
  {
    read, reports := ReadAll(w.crc, w.dest[..n], w.format, w.groups, w.records);
    if n == |w.dest| {
      WholeFile(read, w.groups, w.records);
    }
  }

  lemma WholeFile(read: seq<Bytes>, gs: seq<seq<Fragment>>, records: seq<Bytes>)
    requires |gs| == |records| && WholeRecords(read, gs, records, Size(0, Flat(gs)))
    ensures read == records
  {
    assert gs[..|gs|] == gs;
    if |read| < |records| {
      EndOfGrows(gs, |read| + 1, |gs|);
    }
  }

  lemma {:induction false} EndOfGrows(gs: seq<seq<Fragment>>, a: nat, b: nat)
    requires a <= b <= |gs|
    ensures EndOf(gs, a) <= EndOf(gs, b)
  {
    if a < b {
      EndOfGrows(gs, a, b - 1);
      EndOfStep(gs, b - 1);
    }
  }
}
