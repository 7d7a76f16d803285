/**
 Fixed-width and variable-length integers and length-prefixed strings as bytes (util/coding.h,
 util/coding.cc), and the mask put over checksums (util/crc32c.h). Values are numbers below a power of
 two, and the bit operations of the source are the arithmetic they amount to; each reader is shown to
 undo its writer whatever follows in the input, and no beginning of a varint to be one.
 */
module Coding {
  import opened Options

  type Byte = b: int | 0 <= b < 256
  type Bytes = seq<Byte>

  const TWO_32: nat := 0x1_0000_0000
  const TWO_64: nat := 0x1_0000_0000_0000_0000

  type U32 = v: int | 0 <= v < TWO_32
  type U64 = v: int | 0 <= v < TWO_64

  // ---- Fixed width ----

  /** The n low bytes of v, least significant first. */
  function Fixed(v: nat, n: nat): (r: Bytes)
    ensures |r| == n
  {
    if n == 0 then [] else [v % 256] + Fixed(v / 256, n - 1)
  }

  function Unfixed(b: Bytes): nat {
    if b == [] then 0 else b[0] + 256 * Unfixed(b[1..])
  }

  function Pow256(n: nat): nat {
    if n == 0 then 1 else 256 * Pow256(n - 1)
  }

  lemma {:induction false} FixedRoundTrip(v: nat, n: nat)
    requires v < Pow256(n)
    ensures Unfixed(Fixed(v, n)) == v
  {
    if n > 0 {
      FixedRoundTrip(v / 256, n - 1);
      assert Fixed(v, n)[1..] == Fixed(v / 256, n - 1);
    }
  }

  function EncodeFixed32(v: U32): Bytes {
    Fixed(v, 4)
  }

  function EncodeFixed64(v: U64): Bytes {
    Fixed(v, 8)
  }

  lemma {:induction false} UnfixedBound(b: Bytes)
    ensures Unfixed(b) < Pow256(|b|)
  {
    if b != [] { UnfixedBound(b[1..]); }
  }

  lemma Pow256Values()
    ensures Pow256(4) == TWO_32 && Pow256(8) == TWO_64
  {
    assert Pow256(2) == 65536;
    assert Pow256(6) == 256 * (256 * Pow256(4));
  }

  function DecodeFixed32(b: Bytes): U32
    requires |b| >= 4
  {
    UnfixedBound(b[..4]);
    Pow256Values();
    Unfixed(b[..4])
  }

  function DecodeFixed64(b: Bytes): U64
    requires |b| >= 8
  {
    UnfixedBound(b[..8]);
    Pow256Values();
    Unfixed(b[..8])
  }

  lemma Fixed32RoundTrip(v: U32, rest: Bytes)
    ensures DecodeFixed32(EncodeFixed32(v) + rest) == v
  {
    Pow256Values();
    FixedRoundTrip(v, 4);
    assert (EncodeFixed32(v) + rest)[..4] == EncodeFixed32(v);
  }

  lemma Fixed64RoundTrip(v: U64, rest: Bytes)
    ensures DecodeFixed64(EncodeFixed64(v) + rest) == v
  {
    Pow256Values();
    FixedRoundTrip(v, 8);
    assert (EncodeFixed64(v) + rest)[..8] == EncodeFixed64(v);
  }

  function Base256(a: nat, b: nat, c: nat, d: nat): nat {
    a + 0x100 * b + 0x1_0000 * c + 0x100_0000 * d
  }

  /** The bytes of a fixed-width integer are its digits in base 256, the lowest first. */
  ghost predicate IsFixed32(b: Bytes, v: int) {
    |b| == 4 && v == Base256(b[0], b[1], b[2], b[3])
  }

  ghost predicate IsFixed64(b: Bytes, v: int) {
    |b| == 8 && v == Base256(b[0], b[1], b[2], b[3]) + 0x1_0000_0000 * Base256(b[4], b[5], b[6], b[7])
  }

  lemma FourDigits(b: Bytes)
    requires |b| == 4
    ensures IsFixed32(b, Unfixed(b))
  {
    assert Unfixed(b[1..]) == b[1] + 256 * Unfixed(b[1..][1..]) && b[1..][1..] == b[2..];
    assert Unfixed(b[2..]) == b[2] + 256 * Unfixed(b[2..][1..]) && b[2..][1..] == b[3..];
    assert Unfixed(b[3..]) == b[3] + 256 * Unfixed(b[3..][1..]) && b[3..][1..] == [];
  }

  lemma {:induction false} UnfixedSplits(b: Bytes, k: nat)
    requires k <= |b|
    ensures Unfixed(b) == Unfixed(b[..k]) + Pow256(k) * Unfixed(b[k..])
  {
    if k > 0 {
      UnfixedSplits(b[1..], k - 1);
      assert b[1..][..k - 1] == b[..k][1..] && b[1..][k - 1..] == b[k..];
      MulAssociates(256, Pow256(k - 1), Unfixed(b[k..]));
    } else {
      assert b[0..] == b && b[..0] == [];
    }
  }

  lemma MulAssociates(a: nat, b: nat, c: nat)
    ensures a * (b * c) == a * b * c
  {
  }

  lemma Fixed32InNumbers(v: U32)
    ensures IsFixed32(EncodeFixed32(v), v)
  {
    Pow256Values();
    FixedRoundTrip(v, 4);
    FourDigits(EncodeFixed32(v));
  }

  lemma EightDigits(b: Bytes)
    requires |b| == 8
    ensures IsFixed64(b, Unfixed(b))
  {
    Pow256Values();
    UnfixedSplits(b, 4);
    FourDigits(b[..4]);
    FourDigits(b[4..]);
    assert forall i | 0 <= i < 4 :: b[4..][i] == b[i + 4] && b[..4][i] == b[i];
  }

  lemma Fixed64InNumbers(v: U64)
    ensures IsFixed64(EncodeFixed64(v), v)
  {
    Pow256Values();
    FixedRoundTrip(v, 8);
    EightDigits(EncodeFixed64(v));
  }

  // ---- Arrays of fixed-width integers ----

  function Fixed32Array(vs: seq<U32>): Bytes {
    if vs == [] then [] else Fixed32Array(vs[..|vs| - 1]) + EncodeFixed32(vs[|vs| - 1])
  }

  lemma {:induction false} Fixed32ArrayAt(vs: seq<U32>, i: nat)
    ensures |Fixed32Array(vs)| == 4 * |vs|
    ensures i < |vs| ==> Fixed32Array(vs)[4 * i..4 * i + 4] == EncodeFixed32(vs[i])
    decreases |vs|
  {
    if vs != [] {
      Fixed32ArrayAt(vs[..|vs| - 1], i);
    }
  }

  /** The four bytes at offset n of an array in the middle. */
  lemma TailAt(buffer: Bytes, points: Bytes, count: Bytes, n: nat)
    requires n + 4 <= |points|
    ensures (buffer + points + count)[|buffer| + n..] == points[n..n + 4] + (points[n + 4..] + count)
    ensures (buffer + points + count)[|buffer| + |points|..] == count && (buffer + points + count)[..|buffer|] == buffer
  {
  }

  // ---- The CRC mask ----

  const MASK_DELTA: U32 := 0xa282ead8

  /** Rotate right by 15 bits and add a constant, in 32 bits. */
  function Mask(crc: U32): U32 {
    (crc / 0x8000 + crc % 0x8000 * 0x2_0000 + MASK_DELTA) % TWO_32
  }

  function Unmask(masked: U32): U32 {
    var rot := (masked - MASK_DELTA) % TWO_32;
    rot / 0x2_0000 + rot % 0x2_0000 * 0x8000
  }

  lemma UnmaskUndoesMask(crc: U32)
    ensures Unmask(Mask(crc)) == crc
    ensures Mask(crc) == (crc / 32768 + crc % 32768 * 131072 + 2726488792) % 4294967296
  {
    var rot := crc / 0x8000 + crc % 0x8000 * 0x2_0000;
    assert 0 <= rot < TWO_32;
    assert (Mask(crc) - MASK_DELTA) % TWO_32 == rot;
    assert rot % 0x2_0000 == crc / 0x8000 && rot / 0x2_0000 == crc % 0x8000;
  }

  // ---- Varints ----

  /** Seven bits a byte, least significant first; the high bit says that more follow. */
  function Varint(v: nat): (r: Bytes)
    ensures r != []
  {
    if v < 128 then [v] else [v % 128 + 128] + Varint(v / 128)
  }

  /** The number that groups of seven bits make, least significant first. */
  function GroupsValue(b: Bytes): nat {
    if b == [] then 0 else b[0] % 128 + 128 * GroupsValue(b[1..])
  }

  /** Bytes with a continuation bit, but for the last one, which is zero only if it is alone; and the number they make. */
  ghost predicate IsVarint(b: Bytes, n: int) {
    && b != [] && (forall i | 0 <= i < |b| - 1 :: b[i] >= 128) && b[|b| - 1] < 128
    && (|b| > 1 ==> b[|b| - 1] > 0) && GroupsValue(b) == n
  }

  lemma {:induction false} VarintIsVarint(v: nat)
    ensures IsVarint(Varint(v), v)
  {
    if v >= 128 {
      VarintIsVarint(v / 128);
      var (b, rest) := (Varint(v), Varint(v / 128));
      assert b == [v % 128 + 128] + rest && b[1..] == rest;
      assert b[|b| - 1] == rest[|rest| - 1];
    } else {
      assert GroupsValue([v][1..]) == 0;
    }
  }

  /** A number has one varint. */
  lemma {:induction false} VarintIsUnique(b: Bytes, n: nat)
    requires IsVarint(b, n)
    ensures b == Varint(n)
  {
    var rest := b[1..];
    if rest == [] {
      assert GroupsValue(rest) == 0 && b == [b[0]];
    } else {
      VarintTail(b, n);
      VarintIsUnique(rest, n / 128);
      assert b == [n % 128 + 128] + rest;
    }
  }

  lemma VarintTail(b: Bytes, n: nat)
    requires IsVarint(b, n) && |b| > 1
    ensures IsVarint(b[1..], n / 128) && n >= 128 && b[0] == n % 128 + 128
  {
    var rest := b[1..];
    assert forall i | 0 <= i < |rest| :: rest[i] == b[i + 1];
    PositiveGroups(rest);
    assert n == b[0] % 128 + 128 * GroupsValue(rest);
  }

  lemma {:induction false} PositiveGroups(b: Bytes)
    requires b != [] && 0 < b[|b| - 1] < 128
    ensures GroupsValue(b) > 0
  {
    if |b| > 1 { PositiveGroups(b[1..]); }
  }

  /** EncodeVarint32, one case for each length. */
  function EncodeVarint32(v: U32): Bytes {
    if v < 0x80 then [v]
    else if v < 0x4000 then [v % 128 + 128, v / 0x80]
    else if v < 0x20_0000 then [v % 128 + 128, v / 0x80 % 128 + 128, v / 0x4000]
    else if v < 0x1000_0000 then [v % 128 + 128, v / 0x80 % 128 + 128, v / 0x4000 % 128 + 128, v / 0x20_0000]
    else [v % 128 + 128, v / 0x80 % 128 + 128, v / 0x4000 % 128 + 128, v / 0x20_0000 % 128 + 128, v / 0x1000_0000]
  }

  lemma DivideBySteps(v: nat)
    ensures v / 0x80 / 128 == v / 0x4000 && v / 0x4000 / 128 == v / 0x20_0000 && v / 0x20_0000 / 128 == v / 0x1000_0000
  {
  }

  lemma VarintBySteps(v: nat, a: nat, b: nat, c: nat, d: nat)
    requires a == v / 128 && b == a / 128 && c == b / 128 && d == c / 128 && d < 128
    ensures Varint(v) ==
      if v < 128 then [v]
      else if a < 128 then [v % 128 + 128, a]
      else if b < 128 then [v % 128 + 128, a % 128 + 128, b]
      else if c < 128 then [v % 128 + 128, a % 128 + 128, b % 128 + 128, c]
      else [v % 128 + 128, a % 128 + 128, b % 128 + 128, c % 128 + 128, d]
  {
    assert Varint(d) == [d];
    assert c >= 128 ==> Varint(c) == [c % 128 + 128, d];
    assert b >= 128 ==> Varint(b) == [b % 128 + 128] + Varint(c);
    assert a >= 128 ==> Varint(a) == [a % 128 + 128] + Varint(b);
  }

  lemma EncodeVarint32IsVarint(v: U32)
    ensures EncodeVarint32(v) == Varint(v)
  {
    DivideBySteps(v);
    VarintBySteps(v, v / 0x80, v / 0x4000, v / 0x20_0000, v / 0x1000_0000);
  }

  /** EncodeVarint64: the loop writes the same bytes. */
  method EncodeVarint64(value: U64) returns (dst: Bytes)
    ensures dst == Varint(value)
  {
    var v: nat := value;
    dst := [];
    while v >= 128
      invariant dst + Varint(v) == Varint(value)
    {
      assert dst + ([v % 128 + 128] + Varint(v / 128)) == dst + [v % 128 + 128] + Varint(v / 128);
      dst, v := dst + [v % 128 + 128], v / 128;
    }
    dst := dst + [v];
  }

  method VarintLength(value: U64) returns (len: nat)
    ensures len == |Varint(value)|
  {
    var v: nat := value;
    len := 1;
    while v >= 128
      invariant len - 1 + |Varint(v)| == |Varint(value)|
    {
      v, len := v / 128, len + 1;
    }
  }

  /** The value of the varint at the front and its length; at most n bytes are looked at. */
  function Unvarint(input: Bytes, n: nat): Option<(nat, nat)> {
    if n == 0 || input == [] then None
    else if input[0] < 128 then Some((input[0], 1))
    else match Unvarint(input[1..], n - 1)
      case Some((v, len)) => Some((input[0] - 128 + 128 * v, len + 1))
      case None => None
  }

  function Pow128(n: nat): nat {
    if n == 0 then 1 else 128 * Pow128(n - 1)
  }

  lemma {:induction false} UnvarintLength(input: Bytes, n: nat)
    ensures Unvarint(input, n).Some? ==> 0 < Unvarint(input, n).value.1 <= |input|
  {
    if n > 0 && input != [] && input[0] >= 128 {
      UnvarintLength(input[1..], n - 1);
    }
  }

  /** A varint of at most n bytes reads back, whatever follows it. */
  lemma {:induction false} VarintRoundTrip(v: nat, n: nat, rest: Bytes)
    requires n > 0 && v < Pow128(n)
    ensures Unvarint(Varint(v) + rest, n) == Some((v, |Varint(v)|))
  {
    if v >= 128 {
      assert n > 1;
      VarintRoundTrip(v / 128, n - 1, rest);
      assert (Varint(v) + rest)[1..] == Varint(v / 128) + rest;
    }
  }

  /** No value reads back from a varint that was cut short. */
  lemma {:induction false} VarintCut(v: nat, n: nat, m: nat)
    requires m < |Varint(v)|
    ensures Unvarint(Varint(v)[..m], n).None?
  {
    if m > 0 && n > 0 {
      VarintCut(v / 128, n - 1, m - 1);
      assert Varint(v)[..m][1..] == Varint(v / 128)[..m - 1];
    }
  }

  /** v shifted left by p groups of seven bits. */
  function Shifted(v: nat, p: nat): nat
    decreases p
  {
    if p == 0 then v else Shifted(v * 128, p - 1)
  }

  lemma {:induction false} ShiftedSum(a: nat, b: nat, p: nat)
    ensures Shifted(a + b, p) == Shifted(a, p) + Shifted(b, p)
    decreases p
  {
    if p > 0 { ShiftedSum(a * 128, b * 128, p - 1); }
  }

  /** What the loop still has to add to what it has read. */
  function Add(result: nat, p: nat, d: Option<(nat, nat)>): Option<(nat, nat)> {
    match d
    case Some((v, len)) => Some((result + Shifted(v, p), p + len))
    case None => None
  }

  lemma AddStep(result: nat, p: nat, b: Byte, d: Option<(nat, nat)>)
    requires b >= 128
    ensures Add(result, p, match d case Some((v, len)) => Some((b - 128 + 128 * v, len + 1)) case None => None) ==
            Add(result + Shifted(b - 128, p), p + 1, d)
  {
    if d.Some? {
      ShiftedSum(b - 128, 128 * d.value.0, p);
    }
  }

  /** The loop of GetVarint32PtrFallback (n = 5) and GetVarint64Ptr (n = 10); the caller cuts the value to its width. */
  method VarintLoop(input: Bytes, n: nat) returns (r: Option<(nat, nat)>)
    ensures r == Unvarint(input, n)
  {
    var result: nat, p: nat := 0, 0;
    assert input[0..] == input;
    while p < n && p < |input|
      invariant p <= |input| && p <= n
      invariant Unvarint(input, n) == Add(result, p, Unvarint(input[p..], n - p))
    {
      var byte := input[p];
      assert input[p..][1..] == input[p + 1..];
      if byte >= 128 {
        AddStep(result, p, byte, Unvarint(input[p + 1..], n - p - 1));
        result, p := result + Shifted(byte - 128, p), p + 1;
      } else {
        return Some((result + Shifted(byte, p), p + 1));
      }
    }
    r := None;
  }

  /** GetVarint32: a single byte takes the fast path. */
  method GetVarint32(input: Bytes) returns (ok: bool, value: U32, rest: Bytes)
    ensures match Unvarint(input, 5)
      case Some(r) => ok && value == r.0 % TWO_32 && r.1 <= |input| && rest == input[r.1..]
      case None => !ok && rest == input
  {
    ok, value, rest := false, 0, input;
    UnvarintLength(input, 5);
    if input != [] && input[0] < 128 {
      return true, input[0], input[1..];
    }
    var r := VarintLoop(input, 5);
    if r.Some? {
      ok, value, rest := true, r.value.0 % TWO_32, input[r.value.1..];
    }
  }

  method GetVarint64(input: Bytes) returns (ok: bool, value: U64, rest: Bytes)
    ensures match Unvarint(input, 10)
      case Some(r) => ok && value == r.0 % TWO_64 && r.1 <= |input| && rest == input[r.1..]
      case None => !ok && rest == input
  {
    ok, value, rest := false, 0, input;
    UnvarintLength(input, 10);
    var r := VarintLoop(input, 10);
    if r.Some? {
      ok, value, rest := true, r.value.0 % TWO_64, input[r.value.1..];
    }
  }

  lemma Pow128Values()
    ensures TWO_32 <= Pow128(5) && TWO_64 <= Pow128(10)
  {
    assert Pow128(3) == 0x20_0000;
    assert Pow128(5) == 128 * (128 * Pow128(3));
    assert Pow128(7) == 128 * (128 * Pow128(5));
    assert Pow128(9) == 128 * (128 * Pow128(7));
  }

  // ---- Varints at the front of an input ----

  /** The value, cut to 32 bits, and what follows it. */
  function ReadVarint32(input: Bytes): (r: Option<(U32, Bytes)>)
    ensures r.Some? ==> |r.value.1| <= |input|
  {
    match Unvarint(input, 5)
    case Some((v, len)) => if len <= |input| then Some((v % TWO_32, input[len..])) else None
    case None => None
  }

  function ReadVarint64(input: Bytes): (r: Option<(U64, Bytes)>)
    ensures r.Some? ==> |r.value.1| <= |input|
  {
    match Unvarint(input, 10)
    case Some((v, len)) => if len <= |input| then Some((v % TWO_64, input[len..])) else None
    case None => None
  }

  lemma Varint32Reads(v: U32, rest: Bytes)
    ensures ReadVarint32(Varint(v) + rest) == Some((v, rest))
  {
    Pow128Values();
    VarintRoundTrip(v, 5, rest);
  }

  lemma Varint64Reads(v: U64, rest: Bytes)
    ensures ReadVarint64(Varint(v) + rest) == Some((v, rest))
  {
    Pow128Values();
    VarintRoundTrip(v, 10, rest);
  }

  // ---- Length-prefixed strings ----

  function LengthPrefixed(s: Bytes): Bytes {
    Varint(|s|) + s
  }

  /** The prefixed string at the front, and what follows it. */
  function Unprefix(input: Bytes): (r: Option<(Bytes, Bytes)>)
    ensures r.Some? ==> |r.value.1| <= |input|
  {
    match Unvarint(input, 5)
    case Some((v, len)) =>
      if len <= |input| && v % TWO_32 <= |input| - len then Some((input[len..len + v % TWO_32], input[len + v % TWO_32..])) else None
    case None => None
  }

  lemma PrefixRoundTrip(s: Bytes, rest: Bytes)
    requires |s| < TWO_32
    ensures Unprefix(LengthPrefixed(s) + rest) == Some((s, rest))
  {
    Pow128Values();
    VarintRoundTrip(|s|, 5, s + rest);
    assert LengthPrefixed(s) + rest == Varint(|s|) + (s + rest);
  }

  method GetLengthPrefixedSlice(input: Bytes) returns (r: Option<(Bytes, Bytes)>)
    ensures r == Unprefix(input)
  {
    var ok, len, rest := GetVarint32(input);
    UnvarintLength(input, 5);
    if ok && len <= |rest| {
      ghost var n := Unvarint(input, 5).value.1;
      assert rest[..len] == input[n..n + len] && rest[len..] == input[n + len..];
      r := Some((rest[..len], rest[len..]));
    } else {
      r := None;
    }
  }
}
