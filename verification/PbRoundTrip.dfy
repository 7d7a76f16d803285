/** What nanopb's encoder writes, its decoder reads back (pb_encode.c, pb_decode.c). */
module PbRoundTrip {
  import opened Options
  import opened Coding
  import opened PbCommon
  import opened PbEncode
  import opened PbDecode

  // ---- Varints of 32 bits ----

  lemma {:induction false} OrShl(a: nat, b: nat, p: nat)
    requires a < Shl(1, p)
    ensures Or(a, Shl(b, p)) == a + Shl(b, p)
  {
    if p > 0 {
      OrShl(a / 2, b, p - 1);
    } else {
      OrZero(b);
    }
  }

  lemma {:induction false} OrZero(b: nat)
    ensures Or(0, b) == b
  {
    if b > 0 { OrZero(b / 2); }
  }

  lemma {:induction false} ShlSum(a: nat, b: nat, p: nat)
    ensures Shl(a + b, p) == Shl(a, p) + Shl(b, p)
  {
    if p > 0 { ShlSum(a, b, p - 1); }
  }

  lemma {:induction false} ShlTwice(a: nat, p: nat, q: nat)
    ensures Shl(Shl(a, p), q) == Shl(a, p + q)
  {
    if q > 0 { ShlTwice(a, p, q - 1); }
  }

  lemma ShlSeven(x: nat)
    ensures Shl(x, 7) == 128 * x
  {
    assert Shl(x, 1) == 2 * x && Shl(x, 2) == 4 * x;
    assert Shl(x, 3) == 8 * x && Shl(x, 4) == 16 * x;
    assert Shl(x, 5) == 32 * x && Shl(x, 6) == 64 * x;
  }

  lemma ShlGroup(lo: nat, hi: nat, p: nat)
    requires lo < 128
    ensures Shl(lo + 128 * hi, p) == Shl(lo, p) + Shl(hi, p + 7)
    ensures lo + 128 * hi >= 16 ==> Shl(lo + 128 * hi, p) >= Shl(16, p)
    ensures Shl(lo, p) + Shl(1, p) <= Shl(1, p + 7)
  {
    var v := lo + 128 * hi;
    ShlSeven(hi);
    ShlSeven(1);
    ShlTwice(hi, 7, p);
    ShlTwice(1, 7, p);
    ShlSum(lo, 128 * hi, p);
    if v >= 16 { ShlSum(16, v - 16, p); }
    ShlSum(lo, 1, p);
    ShlSum(lo + 1, 127 - lo, p);
  }

  lemma ShlLimits()
    ensures Shl(16, 28) == TWO_32 && Shl(1, 7) == 128
  {
    assert Shl(1, 4) == 16 && Shl(16, 4) == 0x100 && Shl(16, 8) == 0x1000;
    assert Shl(16, 12) == 0x1_0000 && Shl(16, 16) == 0x10_0000;
    assert Shl(16, 20) == 0x100_0000 && Shl(16, 24) == 0x1000_0000;
  }

  /** Below 2^32, a group adds to what was read before it. */
  lemma GroupAdds(byte: Byte, lo: nat, result: U32, p: nat)
    requires p <= 28 && result < Shl(1, p) && result + Shl(lo, p) < TWO_32
    requires lo < 128 && (byte == lo || byte == lo + 128) && (p == 28 ==> lo < 16)
    ensures Group(byte, result, p) == Some(result + Shl(lo, p))
  {
    OrShl(result, lo, p);
    OrFits(result, Shl(lo, p));
    LowBits(byte, lo);
  }

  lemma LowBits(byte: Byte, lo: nat)
    requires lo < 128 && (byte == lo || byte == lo + 128)
    ensures byte % 128 == lo
  {
  }

  lemma OrFits(a: nat, b: nat)
    requires Or(a, b) == a + b < TWO_32
    ensures Or(a, b % TWO_32) % TWO_32 == a + b
  {
    Small(b);
    Small(a + b);
  }

  lemma Small(x: nat)
    requires x < TWO_32
    ensures x % TWO_32 == x
  {
  }

  /** The next byte of a varint, its seven bits, and what is left of the number. */
  lemma Head(v: nat, rest: Bytes) returns (byte: Byte, lo: nat, hi: nat)
    ensures lo < 128 && v == lo + 128 * hi && byte == if v < 128 then lo else lo + 128
    ensures v < 128 ==> Varint(v) + rest == [byte] + rest
    ensures v >= 128 ==> hi < v && Varint(v) + rest == [byte] + (Varint(hi) + rest)
  {
    lo, hi := v % 128, v / 128;
    byte := if v < 128 then v else v % 128 + 128;
  }

  lemma MoreByte(byte: Byte, tail: Bytes, result: U32, p: nat)
    requires p <= 28 && Group(byte, result, p).Some?
    ensures var value := Group(byte, result, p).value;
      Varint32More([byte] + tail, result, p) == if byte < 128 then Some((value, tail)) else Varint32More(tail, value, p + 7)
  {
    assert ([byte] + tail)[1..] == tail;
  }

  /** The rest of a canonical varint, after k groups. */
  lemma {:induction false} MoreReads(v: nat, result: U32, k: nat, p: nat, rest: Bytes)
    requires k <= 4 && p == 7 * k
    requires result < Shl(1, p) && result + Shl(v, p) < TWO_32
    ensures Varint32More(Varint(v) + rest, result, p) == Some((result + Shl(v, p), rest))
    decreases v
  {
    var byte, lo, hi := Head(v, rest);
    var value := Adds(v, byte, lo, hi, result, k, p);
    if v < 128 {
      MoreByte(byte, rest, result, p);
    } else {
      MoreByte(byte, Varint(hi) + rest, result, p);
      MoreReads(hi, value, k + 1, p + 7, rest);
    }
  }

  lemma Adds(v: nat, byte: Byte, lo: nat, hi: nat, result: U32, k: nat, p: nat) returns (value: U32)
    requires k <= 4 && p == 7 * k && lo < 128 && v == lo + 128 * hi && (byte == lo || byte == lo + 128)
    requires result < Shl(1, p) && result + Shl(v, p) < TWO_32
    ensures Group(byte, result, p) == Some(value) && value < Shl(1, p + 7)
    ensures value + Shl(hi, p + 7) == result + Shl(v, p)
    ensures hi == 0 ==> value == result + Shl(v, p)
    ensures k == 4 ==> v < 16
  {
    ShlLimits();
    ShlGroup(lo, hi, p);
    GroupAdds(byte, lo, result, p);
    value := result + Shl(lo, p);
  }

  lemma FirstByte(byte: Byte, tail: Bytes)
    ensures Varint32([byte] + tail) == if byte < 128 then Some((byte, tail)) else Varint32More(tail, byte - 128, 7)
  {
    assert ([byte] + tail)[1..] == tail;
  }

  /** A canonical varint of 32 bits reads back, whatever follows it. */
  lemma Varint32Reads(v: U32, rest: Bytes)
    ensures Varint32(Varint(v) + rest) == Some((v, rest))
  {
    var byte, lo, hi := Head(v, rest);
    if v < 128 {
      FirstByte(byte, rest);
    } else {
      FirstByte(byte, Varint(hi) + rest);
      ShlSeven(1);
      ShlSeven(hi);
      MoreReads(hi, lo, 1, 7, rest);
    }
  }

  // ---- What arrives ----

  /** The value that arrives when v is sent. */
  function ReceivedValue(l: LType, v: Value): Value
    decreases l, 0
  {
    match (l, v)
    case (Submessage(g), Sub(m)) => Sub(Received(g, m, |g.fields|))
    case _ => v
  }

  function ReceivedValues(l: LType, vs: seq<Value>): (r: seq<Value>)
    ensures |r| == |vs|
    decreases l, |vs| + 1
  {
    if vs == [] then [] else [ReceivedValue(l, vs[0])] + ReceivedValues(l, vs[1..])
  }

  /** The encoder writes the field. */
  predicate IsWritten(f: Field, s: Slot) {
    match s
    case Plain(v) => f.htype.Required? || !IsZero(f.ltype, v)
    case Has(has, _) => has
    case Items(vs) => vs != []
    case Which(Some(c)) => c.tag == f.tag
    case Which(None) => false
  }

  function ReceivedSlot(f: Field, s: Slot): Slot
    decreases f, |if s.Items? then s.items else []| + 1
  {
    match s
    case Plain(v) => Plain(ReceivedValue(f.ltype, v))
    case Has(_, v) => Has(true, ReceivedValue(f.ltype, v))
    case Items(vs) => Items(ReceivedValues(f.ltype, vs))
    case Which(Some(c)) => Which(Some(Chosen(c.tag, ReceivedValue(f.ltype, c.v))))
    case Which(None) => s
  }

  /** The structure after the first n fields of m have arrived. */
  function Received(d: Desc, m: Msg, n: nat): (r: Msg)
    requires n <= |d.fields|
    ensures |r| == SlotCount(d)
    decreases d, n
  {
    if n == 0 then Defaults(d)
    else
      var r := Received(d, m, n - 1);
      var k := SlotOf(d, n - 1);
      if k < |m| && k < |r| && IsWritten(d.fields[n - 1], m[k]) then r[k := ReceivedSlot(d.fields[n - 1], m[k])] else r
  }

  // ---- Strings that end ----

  /** Every string in the value has its NUL. */
  predicate Ends(l: LType, v: Value)
    decreases l, 0
  {
    match (l, v)
    case (CString(c), Blob(b)) => |b| < c
    case (Submessage(g), Sub(m)) => EndsFrom(g, m, 0)
    case _ => true
  }

  predicate AllEnd(l: LType, vs: seq<Value>)
    decreases l, |vs| + 1
  {
    vs == [] || (Ends(l, vs[0]) && AllEnd(l, vs[1..]))
  }

  predicate SlotEnds(f: Field, s: Slot)
    decreases f
  {
    IsWritten(f, s) ==>
      match s
      case Plain(v) => Ends(f.ltype, v)
      case Has(_, v) => Ends(f.ltype, v)
      case Items(vs) => AllEnd(f.ltype, vs)
      case Which(Some(c)) => Ends(f.ltype, c.v)
      case Which(None) => true
  }

  /** Every string that the encoder writes, from field i on, has its NUL. */
  predicate EndsFrom(d: Desc, m: Msg, i: nat)
    decreases d, |d.fields| - i
  {
    i < |d.fields| ==> SlotOf(d, i) < |m| && SlotEnds(d.fields[i], m[SlotOf(d, i)]) && EndsFrom(d, m, i + 1)
  }

  // ---- Items ----

  lemma {:induction false} NoNul(b: Bytes)
    requires 0 !in b
    ensures UpToNul(b) == b
  {
    if b != [] { NoNul(b[1..]); }
  }

  /** A length-prefixed run of bytes. */
  lemma PrefixReads(b: Bytes, rest: Bytes)
    requires |b| < TWO_32
    ensures Varint32(LengthPrefixed(b) + rest) == Some((|b|, b + rest))
    ensures Substream(LengthPrefixed(b) + rest) == Some((b, rest))
    ensures (b + rest)[..|b|] == b && (b + rest)[|b|..] == rest
  {
    Varint32Reads(|b|, b + rest);
    assert LengthPrefixed(b) + rest == Varint(|b|) + (b + rest);
    assert (b + rest)[..|b|] == b && (b + rest)[|b|..] == rest;
  }

  lemma BlobRoundTrip(f: Field, v: Value, rest: Bytes, there: Value)
    requires f.ltype.BytesArray? || f.ltype.CString? || f.ltype.FixedBytes?
    requires Fits(f.ltype, v) && EncodeItem(f.ltype, v).Some? && |v.b| < TWO_32
    ensures DecodeItem(f, EncodeItem(f.ltype, v).value + rest, there) == if Ends(f.ltype, v) then Some((v, rest)) else None
  {
    PrefixReads(v.b, rest);
    if f.ltype.CString? {
      NoNul(v.b);
    } else if f.ltype.FixedBytes? && v.b == [] {
      assert Zeros(f.ltype.length) == v.b && v.b + rest == rest;
    }
  }

  /** The bytes of the varint that an integer of 64 bits is sent as. */
  function IntOf(l: LType, n: int): nat {
    if l.SVarInt? then ZigZag(n) else n % TWO_64
  }

  lemma IntReads(l: LType, n: int, rest: Bytes)
    requires l.VarInt? || l.UVarInt? || l.SVarInt?
    requires Fits(l, Num(n))
    ensures IntOf(l, n) < TWO_64 && DecodeInt(l, IntOf(l, n), rest) == Some((Num(n), rest))
  {
    if l.SVarInt? {
      ZigZagRoundTrip(n);
    } else if l.VarInt? {
      Wrapped(n, l.width);
    }
  }

  /** Two's complement in 64 bits keeps the low 32. */
  lemma Wrapped(n: int, w: nat)
    requires IsWidth(w) && 0 - Half(w) <= n < Half(w)
    ensures Signed64(n % TWO_64) == n && (w < 8 ==> Signed32(n % TWO_64 % TWO_32) == n)
  {
    assert n < 0 ==> n % TWO_64 == n + TWO_64;
    assert w < 8 && n < 0 ==> (n + TWO_64) % TWO_32 == n + TWO_32;
  }

  lemma NumberItem(f: Field, n: int, u: U64, b: Bytes, rest: Bytes, there: Value)
    requires f.ltype.VarInt? || f.ltype.UVarInt? || f.ltype.SVarInt?
    requires b != [] && Unvarint(b + rest, 10) == Some((u, |b|)) && DecodeInt(f.ltype, u, rest) == Some((Num(n), rest))
    ensures DecodeItem(f, b + rest, there) == Some((Num(n), rest))
  {
    Mod64(u);
    assert (b + rest)[|b|..] == rest;
  }

  lemma NumberRoundTrip(f: Field, n: int, rest: Bytes, there: Value)
    requires f.ltype.VarInt? || f.ltype.UVarInt? || f.ltype.SVarInt?
    requires Fits(f.ltype, Num(n))
    ensures EncodeItem(f.ltype, Num(n)) == Some(Varint(IntOf(f.ltype, n)))
    ensures DecodeItem(f, Varint(IntOf(f.ltype, n)) + rest, there) == Some((Num(n), rest))
  {
    var u := IntOf(f.ltype, n);
    IntReads(f.ltype, n, rest);
    Pow128Values();
    VarintRoundTrip(u, 10, rest);
    NumberItem(f, n, u, Varint(u), rest, there);
  }

  lemma BoolRoundTrip(f: Field, n: int, rest: Bytes, there: Value)
    requires f.ltype.Bool? && Fits(f.ltype, Num(n))
    ensures DecodeItem(f, EncodeItem(f.ltype, Num(n)).value + rest, there) == Some((Num(n), rest))
  {
    Varint32Reads(n, rest);
  }

  lemma FixedReads(b: Bytes, k: nat, rest: Bytes)
    requires |b| == k
    ensures (b + rest)[k..] == rest && |b + rest| >= k
  {
  }

  lemma FixedItem(f: Field, b: Bytes, n: nat, rest: Bytes, there: Value)
    requires f.ltype.Fixed32? ==> |b| == 4 && DecodeFixed32(b + rest) == n
    requires f.ltype.Fixed64? ==> |b| == 8 && DecodeFixed64(b + rest) == n
    requires f.ltype.Fixed32? || f.ltype.Fixed64?
    ensures DecodeItem(f, b + rest, there) == Some((Num(n), rest))
  {
    FixedReads(b, |b|, rest);
  }

  lemma Fixed32Bytes(n: U32, rest: Bytes) returns (b: Bytes)
    ensures b == EncodeFixed32(n) && |b| == 4 && DecodeFixed32(b + rest) == n
  {
    b := EncodeFixed32(n);
    Fixed32RoundTrip(n, rest);
  }

  lemma Fixed64Bytes(n: U64, rest: Bytes) returns (b: Bytes)
    ensures b == EncodeFixed64(n) && |b| == 8 && DecodeFixed64(b + rest) == n
  {
    b := EncodeFixed64(n);
    Fixed64RoundTrip(n, rest);
  }

  /** A number of fixed width is sent as it is. */
  lemma Fixed32IsSent(n: U32)
    ensures EncodeItem(Fixed32, Num(n)) == Some(EncodeFixed32(n))
  {
    Small(n);
  }

  lemma Fixed64IsSent(n: U64)
    ensures EncodeItem(Fixed64, Num(n)) == Some(EncodeFixed64(n))
  {
    Mod64(n);
  }

  lemma Mod64(n: int)
    requires 0 <= n < TWO_64
    ensures n % TWO_64 == n
  {
  }

  lemma FixedItemRoundTrip(f: Field, n: int, rest: Bytes, there: Value)
    requires f.ltype.Fixed32? || f.ltype.Fixed64?
    requires Fits(f.ltype, Num(n))
    ensures DecodeItem(f, EncodeItem(f.ltype, Num(n)).value + rest, there) == Some((Num(n), rest))
  {
    var b;
    if f.ltype.Fixed32? {
      Fixed32IsSent(n);
      b := Fixed32Bytes(n, rest);
    } else {
      Fixed64IsSent(n);
      b := Fixed64Bytes(n, rest);
    }
    FixedItem(f, b, n, rest, there);
  }

  /** Every item but a submessage. */
  lemma ScalarRoundTrip(f: Field, v: Value, rest: Bytes, there: Value)
    requires !f.ltype.Submessage? && Fits(f.ltype, v) && EncodeItem(f.ltype, v).Some? && |EncodeItem(f.ltype, v).value| < TWO_32
    ensures DecodeItem(f, EncodeItem(f.ltype, v).value + rest, there) == if Ends(f.ltype, v) then Some((v, rest)) else None
  {
    match f.ltype
    case Bool => BoolRoundTrip(f, v.n, rest, there);
    case Fixed32 => FixedItemRoundTrip(f, v.n, rest, there);
    case Fixed64 => FixedItemRoundTrip(f, v.n, rest, there);
    case VarInt(_) => NumberRoundTrip(f, v.n, rest, there);
    case UVarInt(_) => NumberRoundTrip(f, v.n, rest, there);
    case SVarInt(_) => NumberRoundTrip(f, v.n, rest, there);
    case _ => BlobRoundTrip(f, v, rest, there);
  }

  lemma {:induction false} PackedRoundTrip(f: Field, n: nat, vs: seq<Value>, items: seq<Value>)
    requires Packable(f.ltype) && (forall k | 0 <= k < |vs| :: Fits(f.ltype, vs[k])) && |items| + |vs| <= n
    requires EncodeItems(f.ltype, vs).Some? && |EncodeItems(f.ltype, vs).value| < TWO_32
    ensures DecodePacked(f, n, EncodeItems(f.ltype, vs).value, items) == Some(items + vs)
    decreases |vs|
  {
    if vs == [] {
      assert items + vs == items;
    } else {
      var rest := EncodeItems(f.ltype, vs[1..]).value;
      ScalarRoundTrip(f, vs[0], rest, Num(0));
      PackedRoundTrip(f, n, vs[1..], items + [vs[0]]);
      assert items + [vs[0]] + vs[1..] == items + vs;
    }
  }

  // ---- One pass of the decoding loop ----

  lemma TagReads(wireType: nat, tag: U32, rest: Bytes)
    requires 0 < tag < 0x2000_0000 && wireType < 8
    ensures Varint32(TagBytes(wireType, tag) + rest) == Some((tag * 8 + wireType, rest))
    ensures (tag * 8 + wireType) / 8 == tag && (tag * 8 + wireType) % 8 == wireType
  {
    Varint32Reads(tag * 8 + wireType, rest);
  }

  /** A tag of the message, and what the field's decoder makes of what follows it. */
  lemma OnePass(d: Desc, i: nat, wireType: nat, piece: Bytes, rest: Bytes, r: Msg, seen: set<nat>, read: Option<(Slot, Bytes)>)
    requires UniqueTags(d) && i < |d.fields| && 0 < d.fields[i].tag < 0x2000_0000 && wireType < 8
    requires SlotOf(d, i) < |r| && DecodeSlot(d.fields[i], wireType, piece + rest, r[SlotOf(d, i)]) == read
    ensures DecodeFields(d, TagBytes(wireType, d.fields[i].tag) + piece + rest, r, seen) ==
      match read
      case Some((s, after)) => DecodeFields(d, after, r[SlotOf(d, i) := s], seen + SeenBit(d, i))
      case None => None
  {
    var tag := TagBytes(wireType, d.fields[i].tag);
    assert tag + piece + rest == tag + (piece + rest);
    TagReads(wireType, d.fields[i].tag, piece + rest);
    IndexIsUnique(d, i, 0);
  }

  // ---- Items, fields and messages ----

  /** The required fields among the first i ones have been seen. */
  function SeenBefore(d: Desc, i: nat): set<nat>
    requires i <= |d.fields|
  {
    if i == 0 then {} else SeenBefore(d, i - 1) + SeenBit(d, i - 1)
  }

  lemma {:induction false} SeenUpTo(d: Desc, i: nat, k: nat)
    requires i <= |d.fields| && k < RequiredBefore(d, i) && k < MAX_REQUIRED_FIELDS
    ensures k in SeenBefore(d, i)
  {
    if k < RequiredBefore(d, i - 1) { SeenUpTo(d, i - 1, k); }
  }

  lemma EverythingSeen(d: Desc)
    ensures AllSeen(d, SeenBefore(d, |d.fields|))
  {
    forall k | 0 <= k < MAX_REQUIRED_FIELDS && k < RequiredBefore(d, |d.fields|) ensures k in SeenBefore(d, |d.fields|) {
      SeenUpTo(d, |d.fields|, k);
    }
  }

  /** What the decoder reads a submessage onto: its defaults. */
  predicate OnDefaults(f: Field, there: Value) {
    f.ltype.Submessage? ==> f.htype.Repeated? || f.htype.OneOf? || there == Sub(Defaults(f.ltype.desc))
  }

  lemma ItemRoundTrip(f: Field, v: Value, rest: Bytes, there: Value)
    requires LTypeOk(f.ltype) && Fits(f.ltype, v) && OnDefaults(f, there)
    requires EncodeItem(f.ltype, v).Some? && |EncodeItem(f.ltype, v).value| < TWO_32
    ensures DecodeItem(f, EncodeItem(f.ltype, v).value + rest, there) ==
      if Ends(f.ltype, v) then Some((ReceivedValue(f.ltype, v), rest)) else None
    decreases f, 0
  {
    if f.ltype.Submessage? {
      var g := f.ltype.desc;
      var body := Encode(g, v.m).value;
      PrefixReads(body, rest);
      MessageFrom(g, v.m, 0);
      assert Received(g, v.m, 0) == Defaults(g) && SeenBefore(g, 0) == {};
      assert EncodeItem(f.ltype, v) == Some(LengthPrefixed(body)) && Ends(f.ltype, v) == EndsFrom(g, v.m, 0);
      SubmessageReads(f, v.m, body, rest, there);
    } else {
      ScalarRoundTrip(f, v, rest, there);
    }
  }

  lemma SubmessageReads(f: Field, m: Msg, body: Bytes, rest: Bytes, there: Value)
    requires f.ltype.Submessage? && OnDefaults(f, there)
    requires Substream(LengthPrefixed(body) + rest) == Some((body, rest))
    ensures DecodeItem(f, LengthPrefixed(body) + rest, there) ==
      match Decode(f.ltype.desc, body) case Some(r) => Some((Sub(r), rest)) case None => None
  {
  }

  lemma {:induction false} NumbersArrive(l: LType, vs: seq<Value>)
    requires Packable(l)
    ensures ReceivedValues(l, vs) == vs && AllEnd(l, vs)
    decreases |vs|
  {
    if vs != [] { NumbersArrive(l, vs[1..]); }
  }

  /** A field that is sent in one piece: its wire type and its bytes after the tag. */
  function PieceType(f: Field): nat {
    if f.htype.Repeated? then WT_STRING else WireType(f.ltype)
  }

  function Piece(f: Field, s: Slot): Option<Bytes> {
    match s
    case Plain(v) => EncodeItem(f.ltype, v)
    case Has(_, v) => EncodeItem(f.ltype, v)
    case Items(vs) => Prefixed(EncodeItems(f.ltype, vs))
    case Which(Some(c)) => EncodeItem(f.ltype, c.v)
    case Which(None) => None
  }

  predicate InOnePiece(f: Field) {
    f.htype.Repeated? ==> Packable(f.ltype)
  }

  ghost predicate PieceFits(f: Field, s: Slot) {
    match (f.htype, s)
    case (Required, Plain(v)) => Fits(f.ltype, v)
    case (Singular, Plain(v)) => Fits(f.ltype, v)
    case (Optional, Has(_, v)) => Fits(f.ltype, v)
    case (Repeated(_), Items(vs)) => forall k | 0 <= k < |vs| :: Fits(f.ltype, vs[k])
    case (OneOf(_), Which(Some(c))) => c.tag == f.tag && Fits(f.ltype, c.v)
    case _ => false
  }

  /** What a field is read onto: its default, or anything in a union. */
  predicate Before(f: Field, s: Slot) {
    if f.htype.OneOf? then s.Which? else s == DefaultSlot(f)
  }

  lemma PackedSlotRoundTrip(f: Field, vs: seq<Value>, rest: Bytes)
    requires f.htype.Repeated? && Packable(f.ltype) && PieceFits(f, Items(vs)) && |vs| <= f.htype.arraySize
    requires EncodeItems(f.ltype, vs).Some? && |EncodeItems(f.ltype, vs).value| < TWO_32
    ensures DecodeSlot(f, WT_STRING, LengthPrefixed(EncodeItems(f.ltype, vs).value) + rest, Items([])) == Some((Items(vs), rest))
  {
    var body := EncodeItems(f.ltype, vs).value;
    PrefixReads(body, rest);
    PackedRoundTrip(f, f.htype.arraySize, vs, []);
    assert [] + vs == vs;
  }

  lemma PieceRoundTrip(f: Field, s: Slot, rest: Bytes, s0: Slot)
    requires LTypeOk(f.ltype) && InOnePiece(f) && PieceFits(f, s) && Before(f, s0) && IsWritten(f, s)
    requires Piece(f, s).Some? && |Piece(f, s).value| < TWO_32
    requires s.Items? ==> |s.items| <= f.htype.arraySize
    ensures DecodeSlot(f, PieceType(f), Piece(f, s).value + rest, s0) ==
      if SlotEnds(f, s) then Some((ReceivedSlot(f, s), rest)) else None
    decreases f, 1
  {
    assert f.ltype.Submessage? ==> DefaultValue(f) == Sub(Defaults(f.ltype.desc));
    match s
    case Plain(v) => ItemRoundTrip(f, v, rest, s0.v);
    case Has(_, v) => ItemRoundTrip(f, v, rest, s0.v);
    case Items(vs) =>
      PackedSlotRoundTrip(f, vs, rest);
      NumbersArrive(f.ltype, vs);
    case Which(Some(c)) => ItemRoundTrip(f, c.v, rest, Num(0));
    case Which(None) =>
  }

  /** A field that is not written leaves no bytes, one that is sent in one piece leaves a tag and the piece. */
  lemma FieldBytes(f: Field, s: Slot)
    requires EncodeSlot(f, s).Some?
    ensures !IsWritten(f, s) ==> EncodeSlot(f, s) == Some([]) && !f.htype.Required?
    ensures IsWritten(f, s) && InOnePiece(f) ==>
      Piece(f, s).Some? && EncodeSlot(f, s) == Some(TagBytes(PieceType(f), f.tag) + Piece(f, s).value)
    ensures IsWritten(f, s) && !InOnePiece(f) ==> s.Items? && EncodeSlot(f, s) == EncodeEach(f, s.items)
    ensures IsWritten(f, s) && s.Items? ==> f.htype.Repeated? && |s.items| <= f.htype.arraySize
  {
  }

  lemma PieceOfShape(d: Desc, i: nat, s: Slot)
    requires i < |d.fields| && SlotShaped(d, i, s) && IsWritten(d.fields[i], s)
    ensures PieceFits(d.fields[i], s)
  {
  }

  /** A field sent in one piece, in the decoding loop. */
  lemma PieceStep(d: Desc, i: nat, s: Slot, rest: Bytes, r: Msg, seen: set<nat>)
    requires WellFormed(d) && i < |d.fields| && SlotShaped(d, i, s) && InOnePiece(d.fields[i]) && IsWritten(d.fields[i], s)
    requires EncodeSlot(d.fields[i], s).Some? && |EncodeSlot(d.fields[i], s).value| < TWO_32
    requires SlotOf(d, i) < |r| && Before(d.fields[i], r[SlotOf(d, i)])
    ensures DecodeFields(d, EncodeSlot(d.fields[i], s).value + rest, r, seen) ==
      if SlotEnds(d.fields[i], s)
      then DecodeFields(d, rest, r[SlotOf(d, i) := ReceivedSlot(d.fields[i], s)], seen + SeenBit(d, i))
      else None
    decreases d, 0
  {
    var f := d.fields[i];
    assert FieldOk(d, i);
    FieldBytes(f, s);
    PieceOfShape(d, i, s);
    var piece := Piece(f, s).value;
    PieceRoundTrip(f, s, rest, r[SlotOf(d, i)]);
    var read := if SlotEnds(f, s) then Some((ReceivedSlot(f, s), rest)) else None;
    OnePass(d, i, PieceType(f), piece, rest, r, seen, read);
  }

  lemma ElementReads(f: Field, v: Value, items: seq<Value>, rest: Bytes) returns (item: Bytes)
    requires LTypeOk(f.ltype) && f.htype.Repeated? && !Packable(f.ltype) && Fits(f.ltype, v) && |items| < f.htype.arraySize
    requires EncodeTagged(f, v).Some? && |EncodeTagged(f, v).value| < TWO_32
    ensures EncodeTagged(f, v) == Some(TagBytes(WireType(f.ltype), f.tag) + item)
    ensures DecodeSlot(f, WireType(f.ltype), item + rest, Items(items)) ==
      if Ends(f.ltype, v) then Some((Items(items + [ReceivedValue(f.ltype, v)]), rest)) else None
    decreases f, 1
  {
    item := EncodeItem(f.ltype, v).value;
    ItemRoundTrip(f, v, rest, Num(0));
  }

  /** One element of an array that is not packed. */
  lemma ElementStep(d: Desc, i: nat, v: Value, items: seq<Value>, rest: Bytes, r: Msg, seen: set<nat>)
    requires WellFormed(d) && i < |d.fields| && d.fields[i].htype.Repeated? && !Packable(d.fields[i].ltype)
    requires Fits(d.fields[i].ltype, v) && |items| < d.fields[i].htype.arraySize
    requires EncodeTagged(d.fields[i], v).Some? && |EncodeTagged(d.fields[i], v).value| < TWO_32
    requires SlotOf(d, i) < |r| && r[SlotOf(d, i)] == Items(items)
    ensures DecodeFields(d, EncodeTagged(d.fields[i], v).value + rest, r, seen) ==
      if Ends(d.fields[i].ltype, v)
      then DecodeFields(d, rest, r[SlotOf(d, i) := Items(items + [ReceivedValue(d.fields[i].ltype, v)])], seen)
      else None
    decreases d, 0
  {
    var f := d.fields[i];
    assert FieldOk(d, i);
    var item := ElementReads(f, v, items, rest);
    var read := if Ends(f.ltype, v) then Some((Items(items + [ReceivedValue(f.ltype, v)]), rest)) else None;
    OnePass(d, i, WireType(f.ltype), item, rest, r, seen, read);
    assert seen + SeenBit(d, i) == seen;
  }

  /** The elements of an array that is not packed, after those in items. */
  lemma ElementsStep(d: Desc, i: nat, vs: seq<Value>, items: seq<Value>, rest: Bytes, r: Msg, seen: set<nat>)
    requires WellFormed(d) && i < |d.fields| && d.fields[i].htype.Repeated? && !Packable(d.fields[i].ltype)
    requires |items| + |vs| <= d.fields[i].htype.arraySize && forall k | 0 <= k < |vs| :: Fits(d.fields[i].ltype, vs[k])
    requires EncodeEach(d.fields[i], vs).Some? && |EncodeEach(d.fields[i], vs).value| < TWO_32
    requires SlotOf(d, i) < |r| && r[SlotOf(d, i)] == Items(items)
    ensures DecodeFields(d, EncodeEach(d.fields[i], vs).value + rest, r, seen) ==
      if AllEnd(d.fields[i].ltype, vs)
      then DecodeFields(d, rest, r[SlotOf(d, i) := Items(items + ReceivedValues(d.fields[i].ltype, vs))], seen)
      else None
    decreases d, 1, |vs|
  {
    var f, k := d.fields[i], SlotOf(d, i);
    if vs == [] {
      assert items + [] == items && r[k := r[k]] == r && [] + rest == rest;
    } else {
      var head, tail := EncodeTagged(f, vs[0]).value, EncodeEach(f, vs[1..]).value;
      assert head + tail + rest == head + (tail + rest);
      var item := ReceivedValue(f.ltype, vs[0]);
      var items' := items + [item];
      ElementStep(d, i, vs[0], items, tail + rest, r, seen);
      ElementsStep(d, i, vs[1..], items', rest, r[k := Items(items')], seen);
      OneMore(r, k, items, item, ReceivedValues(f.ltype, vs[1..]));
    }
  }

  lemma OneMore(r: Msg, k: nat, items: seq<Value>, item: Value, more: seq<Value>)
    requires k < |r|
    ensures r[k := Items(items + [item])][k := Items(items + [item] + more)] == r[k := Items(items + ([item] + more))]
  {
    assert items + [item] + more == items + ([item] + more);
  }

  /** What reading field n does to member k. */
  lemma MemberStep(d: Desc, m: Msg, n: nat, k: nat)
    requires n < |d.fields| && |m| == SlotCount(d) && k < |m|
    ensures SlotOf(d, n) < |m|
    ensures Received(d, m, n + 1)[k] ==
      if k == SlotOf(d, n) && IsWritten(d.fields[n], m[k]) then ReceivedSlot(d.fields[n], m[k]) else Received(d, m, n)[k]
  {
    SlotBound(d, n, n);
  }

  /** The last of the first n fields that writes member k. */
  function Writer(d: Desc, m: Msg, n: nat, k: nat): (r: Option<nat>)
    requires n <= |d.fields| && k < |m|
    ensures r.Some? ==> r.value < n && SlotOf(d, r.value) == k && IsWritten(d.fields[r.value], m[k])
  {
    if n == 0 then None
    else if SlotOf(d, n - 1) == k && IsWritten(d.fields[n - 1], m[k]) then Some(n - 1)
    else Writer(d, m, n - 1, k)
  }

  lemma {:induction false} WriterDecides(d: Desc, m: Msg, n: nat, k: nat)
    requires n <= |d.fields| && |m| == SlotCount(d) && k < |m|
    ensures Received(d, m, n)[k] ==
      match Writer(d, m, n, k) case Some(j) => ReceivedSlot(d.fields[j], m[k]) case None => Defaults(d)[k]
    decreases n
  {
    if n > 0 {
      WriterDecides(d, m, n - 1, k);
      MemberStep(d, m, n - 1, k);
    }
  }

  /** Outside unions a member has no writer but its own field. */
  lemma {:induction false} OnlyWriter(d: Desc, m: Msg, i: nat, n: nat)
    requires n <= |d.fields| && i < |d.fields| && SlotOf(d, i) < |m| && !d.fields[i].htype.OneOf?
    ensures Writer(d, m, n, SlotOf(d, i)) ==
      if i < n && IsWritten(d.fields[i], m[SlotOf(d, i)]) then Some(i) else None
    decreases n
  {
    if n > 0 {
      OnlyWriter(d, m, i, n - 1);
      if n - 1 < i { SlotBound(d, n - 1, i); } else { SlotBound(d, i, n - 1); }
    }
  }

  /** Until field i has been read its member keeps its default; a union stays one. */
  lemma NotYetRead(d: Desc, m: Msg, i: nat)
    requires Shaped(d, m) && i < |d.fields|
    ensures SlotOf(d, i) < SlotCount(d) && Before(d.fields[i], Received(d, m, i)[SlotOf(d, i)])
  {
    var k := SlotOf(d, i);
    SlotBound(d, i, i);
    WriterDecides(d, m, i, k);
    DefaultAt(d, i, |d.fields|);
    if d.fields[i].htype.OneOf? {
      var w := Writer(d, m, i, k);
      if w.Some? {
        SlotBound(d, w.value, i);
        UnionStays(d, w.value, m[k]);
      }
    } else {
      OnlyWriter(d, m, i, i);
    }
  }

  lemma UnionStays(d: Desc, i: nat, s: Slot)
    requires i < |d.fields| && d.fields[i].htype.OneOf? && SlotShaped(d, i, s)
    ensures ReceivedSlot(d.fields[i], s).Which?
  {
  }

  /** A field of the message, in the decoding loop. */
  lemma FieldStep(d: Desc, i: nat, s: Slot, rest: Bytes, r: Msg, seen: set<nat>)
    requires WellFormed(d) && i < |d.fields| && SlotShaped(d, i, s)
    requires EncodeSlot(d.fields[i], s).Some? && |EncodeSlot(d.fields[i], s).value| < TWO_32
    requires SlotOf(d, i) < |r| && Before(d.fields[i], r[SlotOf(d, i)])
    ensures DecodeFields(d, EncodeSlot(d.fields[i], s).value + rest, r, seen) ==
      if SlotEnds(d.fields[i], s)
      then DecodeFields(d, rest, if IsWritten(d.fields[i], s) then r[SlotOf(d, i) := ReceivedSlot(d.fields[i], s)] else r, seen + SeenBit(d, i))
      else None
    decreases d, 1
  {
    var f := d.fields[i];
    FieldBytes(f, s);
    if !IsWritten(f, s) {
      assert [] + rest == rest && seen + SeenBit(d, i) == seen;
    } else if InOnePiece(f) {
      PieceStep(d, i, s, rest, r, seen);
    } else {
      var vs := s.items;
      assert seen + SeenBit(d, i) == seen && [] + ReceivedValues(f.ltype, vs) == ReceivedValues(f.ltype, vs);
      ElementsStep(d, i, vs, [], rest, r, seen);
    }
  }

  lemma FromSplits(d: Desc, m: Msg, i: nat) returns (head: Bytes, tail: Bytes)
    requires i < |d.fields| && EncodeFrom(d, m, i).Some?
    ensures SlotOf(d, i) < |m|
    ensures EncodeSlot(d.fields[i], m[SlotOf(d, i)]) == Some(head) && EncodeFrom(d, m, i + 1) == Some(tail)
    ensures EncodeFrom(d, m, i) == Some(head + tail)
  {
    head, tail := EncodeSlot(d.fields[i], m[SlotOf(d, i)]).value, EncodeFrom(d, m, i + 1).value;
  }

  lemma ReceivedNext(d: Desc, m: Msg, i: nat)
    requires i < |d.fields| && |m| == SlotCount(d)
    ensures SlotOf(d, i) < |m|
    ensures Received(d, m, i + 1) ==
      if IsWritten(d.fields[i], m[SlotOf(d, i)])
      then Received(d, m, i)[SlotOf(d, i) := ReceivedSlot(d.fields[i], m[SlotOf(d, i)])]
      else Received(d, m, i)
  {
    SlotBound(d, i, i);
  }

  lemma NothingLeft(d: Desc, r: Msg)
    ensures DecodeFields(d, [], r, SeenBefore(d, |d.fields|)) == Some(r)
  {
    EverythingSeen(d);
  }

  lemma StepFrom(d: Desc, m: Msg, i: nat)
    requires WellFormed(d) && Shaped(d, m) && i < |d.fields|
    requires EncodeFrom(d, m, i).Some? && |EncodeFrom(d, m, i).value| < TWO_32
    ensures SlotOf(d, i) < |m| && EncodeFrom(d, m, i + 1).Some? && |EncodeFrom(d, m, i + 1).value| < TWO_32
    ensures DecodeFields(d, EncodeFrom(d, m, i).value, Received(d, m, i), SeenBefore(d, i)) ==
      if SlotEnds(d.fields[i], m[SlotOf(d, i)])
      then DecodeFields(d, EncodeFrom(d, m, i + 1).value, Received(d, m, i + 1), SeenBefore(d, i + 1))
      else None
    decreases d, 2
  {
    var head, tail := FromSplits(d, m, i);
    NotYetRead(d, m, i);
    ReceivedNext(d, m, i);
    FieldStep(d, i, m[SlotOf(d, i)], tail, Received(d, m, i), SeenBefore(d, i));
  }

  /** The fields from i on, after those before it have been read. */
  lemma MessageFrom(d: Desc, m: Msg, i: nat)
    requires WellFormed(d) && Shaped(d, m) && i <= |d.fields|
    requires EncodeFrom(d, m, i).Some? && |EncodeFrom(d, m, i).value| < TWO_32
    ensures DecodeFields(d, EncodeFrom(d, m, i).value, Received(d, m, i), SeenBefore(d, i)) ==
      if EndsFrom(d, m, i) then Some(Received(d, m, |d.fields|)) else None
    decreases d, 3, |d.fields| - i
  {
    if i == |d.fields| {
      NothingLeft(d, Received(d, m, i));
    } else {
      StepFrom(d, m, i);
      MessageFrom(d, m, i + 1);
    }
  }

  // ---- The same message ----

  /** Equal values, but for what lies in unset optional fields of submessages. */
  ghost predicate SameValue(l: LType, v: Value, w: Value)
    decreases l
  {
    match (l, v, w)
    case (Submessage(g), Sub(m), Sub(r)) => Same(g, m, r)
    case _ => v == w
  }

  ghost predicate Same(d: Desc, m: Msg, r: Msg)
    decreases d
  {
    && |m| == |r| == SlotCount(d)
    && forall i | 0 <= i < |d.fields| :: SlotOf(d, i) < |m| && SameSlot(d.fields[i], m[SlotOf(d, i)], r[SlotOf(d, i)])
  }

  ghost predicate SameSlot(f: Field, s: Slot, t: Slot)
    decreases f
  {
    match (s, t)
    case (Plain(v), Plain(w)) => SameValue(f.ltype, v, w)
    case (Has(a, v), Has(b, w)) => a == b && (a ==> SameValue(f.ltype, v, w))
    case (Items(vs), Items(ws)) => |vs| == |ws| && forall k | 0 <= k < |vs| :: SameValue(f.ltype, vs[k], ws[k])
    case (Which(Some(a)), Which(Some(b))) => a.tag == b.tag && (a.tag == f.tag ==> SameValue(f.ltype, a.v, b.v))
    case (Which(None), Which(None)) => true
    case _ => false
  }

  lemma {:induction false} ReceivedValuesAt(l: LType, vs: seq<Value>, k: nat)
    requires k < |vs|
    ensures ReceivedValues(l, vs)[k] == ReceivedValue(l, vs[k])
    decreases |vs|
  {
    if k > 0 { ReceivedValuesAt(l, vs[1..], k - 1); }
  }

  lemma ValueArrives(l: LType, v: Value)
    requires LTypeOk(l) && Fits(l, v)
    ensures SameValue(l, v, ReceivedValue(l, v))
    decreases l, 0
  {
    if l.Submessage? { MessageArrives(l.desc, v.m); }
  }

  lemma WrittenSlotArrives(d: Desc, i: nat, s: Slot)
    requires WellFormed(d) && i < |d.fields| && SlotShaped(d, i, s) && IsWritten(d.fields[i], s)
    ensures SameSlot(d.fields[i], s, ReceivedSlot(d.fields[i], s))
    decreases d, 0
  {
    var f := d.fields[i];
    assert FieldOk(d, i);
    match s
    case Plain(v) => ValueArrives(f.ltype, v);
    case Has(_, v) => ValueArrives(f.ltype, v);
    case Items(vs) =>
      forall k | 0 <= k < |vs| ensures SameValue(f.ltype, vs[k], ReceivedValues(f.ltype, vs)[k]) {
        ReceivedValuesAt(f.ltype, vs, k);
        ValueArrives(f.ltype, vs[k]);
      }
    case Which(Some(c)) => ValueArrives(f.ltype, c.v);
    case Which(None) =>
  }

  lemma {:induction false} DefaultFrom(d: Desc, m: Msg, i: nat, j: nat)
    requires AllDefault(d, m, i) && i <= j < |d.fields|
    ensures SlotOf(d, j) < |m| && IsDefault(d.fields[j], m[SlotOf(d, j)])
    decreases j - i
  {
    if i < j { DefaultFrom(d, m, i + 1, j); }
  }

  /** A member that proto3 takes for the default is the default. */
  lemma DefaultArrives(d: Desc, i: nat, s: Slot)
    requires WellFormed(d) && i < |d.fields| && SlotShaped(d, i, s) && IsDefault(d.fields[i], s)
    ensures SameSlot(d.fields[i], s, DefaultSlot(d.fields[i]))
    decreases d, 0
  {
    var f := d.fields[i];
    assert FieldOk(d, i);
    if s.Plain? {
      if f.ltype.Submessage? {
        DefaultsArrive(f.ltype.desc, s.v.m);
      }
    }
  }

  lemma DefaultsArrive(d: Desc, m: Msg)
    requires WellFormed(d) && Shaped(d, m) && AllDefault(d, m, 0)
    ensures Same(d, m, Defaults(d))
    decreases d, 1
  {
    forall i | 0 <= i < |d.fields|
      ensures SlotOf(d, i) < |m| && SameSlot(d.fields[i], m[SlotOf(d, i)], Defaults(d)[SlotOf(d, i)])
    {
      DefaultFrom(d, m, 0, i);
      DefaultAt(d, i, |d.fields|);
      DefaultArrives(d, i, m[SlotOf(d, i)]);
    }
  }

  lemma UnwrittenArrives(d: Desc, i: nat, s: Slot)
    requires WellFormed(d) && i < |d.fields| && SlotShaped(d, i, s) && !IsWritten(d.fields[i], s) && !d.fields[i].htype.OneOf?
    ensures SameSlot(d.fields[i], s, DefaultSlot(d.fields[i]))
  {
    DefaultArrives(d, i, s);
  }

  /** A member of its own: only its field writes it. */
  lemma MemberArrives(d: Desc, m: Msg, i: nat)
    requires Shaped(d, m) && i < |d.fields| && !d.fields[i].htype.OneOf?
    ensures SlotOf(d, i) < |m|
    ensures Received(d, m, |d.fields|)[SlotOf(d, i)] ==
      if IsWritten(d.fields[i], m[SlotOf(d, i)]) then ReceivedSlot(d.fields[i], m[SlotOf(d, i)]) else DefaultSlot(d.fields[i])
  {
    OnlyWriter(d, m, i, |d.fields|);
    WriterDecides(d, m, |d.fields|, SlotOf(d, i));
    DefaultAt(d, i, |d.fields|);
  }

  /** A union: only the chosen member, field j, writes it. */
  lemma {:induction false} UnionWriter(d: Desc, m: Msg, j: nat, k: nat, n: nat)
    requires UniqueTags(d) && n <= |d.fields| && k < |m| && m[k].Which?
    requires m[k].choice.Some? ==> j < |d.fields| && d.fields[j].tag == m[k].choice.value.tag && SlotOf(d, j) == k
    ensures Writer(d, m, n, k) == if m[k].choice.Some? && j < n then Some(j) else None
    decreases n
  {
    if n > 0 { UnionWriter(d, m, j, k, n - 1); }
  }

  lemma UnionArrives(d: Desc, m: Msg, i: nat, j: nat)
    requires WellFormed(d) && Shaped(d, m) && i < |d.fields| && d.fields[i].htype.OneOf?
    requires SlotOf(d, i) < |m| && m[SlotOf(d, i)].Which?
    requires m[SlotOf(d, i)].choice.Some? ==>
      j < |d.fields| && d.fields[j].tag == m[SlotOf(d, i)].choice.value.tag && SlotOf(d, j) == SlotOf(d, i)
    ensures Received(d, m, |d.fields|)[SlotOf(d, i)] ==
      if m[SlotOf(d, i)].choice.Some? then ReceivedSlot(d.fields[j], m[SlotOf(d, i)]) else Which(None)
  {
    UnionWriter(d, m, j, SlotOf(d, i), |d.fields|);
    WriterDecides(d, m, |d.fields|, SlotOf(d, i));
    DefaultAt(d, i, |d.fields|);
  }

  lemma OwnSlotArrives(d: Desc, i: nat, s: Slot, r: Slot)
    requires WellFormed(d) && i < |d.fields| && SlotShaped(d, i, s) && !d.fields[i].htype.OneOf?
    requires r == if IsWritten(d.fields[i], s) then ReceivedSlot(d.fields[i], s) else DefaultSlot(d.fields[i])
    ensures SameSlot(d.fields[i], s, r)
    decreases d, 1
  {
    if IsWritten(d.fields[i], s) {
      WrittenSlotArrives(d, i, s);
    } else {
      UnwrittenArrives(d, i, s);
    }
  }

  lemma UnionSlotArrives(d: Desc, i: nat, j: nat, s: Slot, r: Slot)
    requires WellFormed(d) && i < |d.fields| && SlotShaped(d, i, s) && d.fields[i].htype.OneOf?
    requires s.choice.Some? ==> j < |d.fields| && d.fields[j].tag == s.choice.value.tag
    requires r == if s.choice.Some? then ReceivedSlot(d.fields[j], s) else Which(None)
    ensures SameSlot(d.fields[i], s, r)
    decreases d, 1
  {
    if s.choice.Some? && j == i { WrittenSlotArrives(d, i, s); }
  }

  lemma ChosenMember(d: Desc, i: nat, s: Slot) returns (j: nat)
    requires i < |d.fields| && SlotShaped(d, i, s) && d.fields[i].htype.OneOf?
    ensures s.Which?
    ensures s.choice.Some? ==> j < |d.fields| && d.fields[j].tag == s.choice.value.tag && SlotOf(d, j) == SlotOf(d, i)
  {
    j := 0;
    if s.choice.Some? {
      j :| 0 <= j < |d.fields| && d.fields[j].tag == s.choice.value.tag && SlotOf(d, j) == SlotOf(d, i);
    }
  }

  lemma FieldArrives(d: Desc, m: Msg, i: nat)
    requires WellFormed(d) && Shaped(d, m) && i < |d.fields|
    ensures SlotOf(d, i) < |m| && SameSlot(d.fields[i], m[SlotOf(d, i)], Received(d, m, |d.fields|)[SlotOf(d, i)])
    decreases d, 2
  {
    var s, r := m[SlotOf(d, i)], Received(d, m, |d.fields|)[SlotOf(d, i)];
    if d.fields[i].htype.OneOf? {
      var j := ChosenMember(d, i, s);
      UnionArrives(d, m, i, j);
      UnionSlotArrives(d, i, j, s, r);
    } else {
      MemberArrives(d, m, i);
      OwnSlotArrives(d, i, s, r);
    }
  }

  /** Up to the contents of unset optional fields, what arrives is what was sent. */
  lemma MessageArrives(d: Desc, m: Msg)
    requires WellFormed(d) && Shaped(d, m)
    ensures Same(d, m, Received(d, m, |d.fields|))
    decreases d, 3
  {
    forall i | 0 <= i < |d.fields|
      ensures SlotOf(d, i) < |m| && SameSlot(d.fields[i], m[SlotOf(d, i)], Received(d, m, |d.fields|)[SlotOf(d, i)])
    {
      FieldArrives(d, m, i);
    }
  }

  /**
   Decoding an encoded message succeeds exactly when every string that was sent has its NUL, and then
   gives the same message. Lengths are read as 32-bit numbers, so the encoding must be below 4 GB.
   */
  lemma RoundTrip(d: Desc, m: Msg)
    requires WellFormed(d) && Shaped(d, m)
    requires Encode(d, m).Some? && |Encode(d, m).value| < TWO_32
    ensures Decode(d, Encode(d, m).value).Some? <==> EndsFrom(d, m, 0)
    ensures EndsFrom(d, m, 0) ==> Same(d, m, Decode(d, Encode(d, m).value).value)
  {
    MessageFrom(d, m, 0);
    MessageArrives(d, m);
  }

  /** A char[1] field that holds "A" and no NUL is encoded, but what was encoded does not decode. */
  lemma UnterminatedStringIsLost()
    ensures var d := Desc([Field(1, CString(1), Required, Blob([]))]);
      var m := [Plain(Blob([65]))];
      WellFormed(d) && Shaped(d, m) && Encode(d, m).Some? && Decode(d, Encode(d, m).value).None?
  {
    var f := Field(1, CString(1), Required, Blob([]));
    var d, m := Desc([f]), [Plain(Blob([65]))];
    assert d.fields[0] == f && SlotOf(d, 0) == 0 && SlotCount(d) == 1;
    assert FieldOk(d, 0) && SlotShaped(d, 0, m[0]);
    var item := LengthPrefixed([65]);
    assert item == [1, 65] && EncodeItem(CString(1), Blob([65])) == Some(item);
    assert TagBytes(WireType(f.ltype), f.tag) == [10];
    var tag: Bytes := [10];
    assert tag + item == [10, 1, 65];
    assert EncodeTagged(f, Blob([65])) == Then(Some(tag), Some(item));
    assert EncodeSlot(f, m[0]) == Some([10, 1, 65]);
    assert EncodeFrom(d, m, 1) == Some([]) && Encode(d, m) == Some([10, 1, 65] + []);
    assert !SlotEnds(f, m[0]);
    RoundTrip(d, m);
  }
}
