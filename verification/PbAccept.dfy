/**
 What the decoder makes of a field wherever it comes in a message and whatever came before it (pb_decode.c):
 a later value replaces an earlier one, array items are appended, packed or not, up to the array's size, and
 numbers and bytes that a field cannot hold are refused.
 */
module PbAccept {
  import opened Options
  import opened Coding
  import opened PbCommon
  import opened PbEncode
  import opened PbDecode
  import opened PbRoundTrip

  // ---- Single fields ----

  /** The member can hold what the field sends. */
  predicate Holds(f: Field, s: Slot) {
    match f.htype
    case Required => s.Plain?
    case Singular => s.Plain?
    case Optional => s.Has?
    case Repeated(_) => s.Items?
    case OneOf(_) => s.Which?
  }

  /** The member after the value has arrived. */
  function Arrived(f: Field, v: Value): Slot
    requires !f.htype.Repeated?
  {
    match f.htype
    case Optional => Has(true, v)
    case OneOf(_) => Which(Some(Chosen(f.tag, v)))
    case _ => Plain(v)
  }

  lemma ScalarArrives(f: Field, v: Value, rest: Bytes, s: Slot)
    requires !f.htype.Repeated? && !f.ltype.Submessage? && Fits(f.ltype, v) && Holds(f, s)
    requires EncodeItem(f.ltype, v).Some? && |EncodeItem(f.ltype, v).value| < TWO_32
    ensures DecodeSlot(f, WireType(f.ltype), EncodeItem(f.ltype, v).value + rest, s) ==
      if Ends(f.ltype, v) then Some((Arrived(f, v), rest)) else None
  {
    match s
    case Plain(w) => ScalarRoundTrip(f, v, rest, w);
    case Has(_, w) => ScalarRoundTrip(f, v, rest, w);
    case Which(_) => ScalarRoundTrip(f, v, rest, Num(0));
  }

  /** A value replaces whatever the member held; in a union, whichever member it was. */
  lemma LaterReplaces(d: Desc, i: nat, v: Value, rest: Bytes, r: Msg, seen: set<nat>)
    requires WellFormed(d) && i < |d.fields| && !d.fields[i].htype.Repeated? && !d.fields[i].ltype.Submessage?
    requires Fits(d.fields[i].ltype, v) && SlotOf(d, i) < |r| && Holds(d.fields[i], r[SlotOf(d, i)])
    requires EncodeTagged(d.fields[i], v).Some? && |EncodeTagged(d.fields[i], v).value| < TWO_32
    ensures DecodeFields(d, EncodeTagged(d.fields[i], v).value + rest, r, seen) ==
      if Ends(d.fields[i].ltype, v)
      then DecodeFields(d, rest, r[SlotOf(d, i) := Arrived(d.fields[i], v)], seen + SeenBit(d, i))
      else None
  {
    var f := d.fields[i];
    assert FieldOk(d, i);
    var item := EncodeItem(f.ltype, v).value;
    ScalarArrives(f, v, rest, r[SlotOf(d, i)]);
    OnePass(d, i, WireType(f.ltype), item, rest, r, seen, if Ends(f.ltype, v) then Some((Arrived(f, v), rest)) else None);
  }

  /** Of two values of one field the last one counts. */
  lemma LastOneWins(d: Desc, i: nat, v: Value, w: Value, rest: Bytes, r: Msg, seen: set<nat>)
    requires WellFormed(d) && i < |d.fields| && !d.fields[i].htype.Repeated? && !d.fields[i].ltype.Submessage?
    requires Fits(d.fields[i].ltype, v) && Fits(d.fields[i].ltype, w) && Ends(d.fields[i].ltype, v)
    requires SlotOf(d, i) < |r| && Holds(d.fields[i], r[SlotOf(d, i)])
    requires EncodeTagged(d.fields[i], v).Some? && |EncodeTagged(d.fields[i], v).value| < TWO_32
    requires EncodeTagged(d.fields[i], w).Some? && |EncodeTagged(d.fields[i], w).value| < TWO_32
    ensures DecodeFields(d, EncodeTagged(d.fields[i], v).value + (EncodeTagged(d.fields[i], w).value + rest), r, seen) ==
      DecodeFields(d, EncodeTagged(d.fields[i], w).value + rest, r, seen)
  {
    var (f, k) := (d.fields[i], SlotOf(d, i));
    var (first, second) := (Arrived(f, v), Arrived(f, w));
    LaterReplaces(d, i, v, EncodeTagged(f, w).value + rest, r, seen);
    LaterReplaces(d, i, w, rest, r[k := first], seen + SeenBit(d, i));
    LaterReplaces(d, i, w, rest, r, seen);
    assert r[k := first][k := second] == r[k := second];
    assert seen + SeenBit(d, i) + SeenBit(d, i) == seen + SeenBit(d, i);
  }

  /** Fields may come in any order. */
  lemma OrderDoesNotMatter(d: Desc, i: nat, v: Value, j: nat, w: Value, rest: Bytes, r: Msg, seen: set<nat>)
    requires WellFormed(d) && i < |d.fields| && !d.fields[i].htype.Repeated? && !d.fields[i].ltype.Submessage?
    requires j < |d.fields| && !d.fields[j].htype.Repeated? && !d.fields[j].ltype.Submessage?
    requires Fits(d.fields[i].ltype, v) && Fits(d.fields[j].ltype, w) && SlotOf(d, i) != SlotOf(d, j)
    requires SlotOf(d, i) < |r| && Holds(d.fields[i], r[SlotOf(d, i)]) && SlotOf(d, j) < |r| && Holds(d.fields[j], r[SlotOf(d, j)])
    requires EncodeTagged(d.fields[i], v).Some? && |EncodeTagged(d.fields[i], v).value| < TWO_32
    requires EncodeTagged(d.fields[j], w).Some? && |EncodeTagged(d.fields[j], w).value| < TWO_32
    ensures DecodeFields(d, EncodeTagged(d.fields[i], v).value + (EncodeTagged(d.fields[j], w).value + rest), r, seen) ==
      DecodeFields(d, EncodeTagged(d.fields[j], w).value + (EncodeTagged(d.fields[i], v).value + rest), r, seen)
  {
    var (a, b) := (SlotOf(d, i), SlotOf(d, j));
    var (first, second) := (Arrived(d.fields[i], v), Arrived(d.fields[j], w));
    LaterReplaces(d, i, v, EncodeTagged(d.fields[j], w).value + rest, r, seen);
    LaterReplaces(d, j, w, EncodeTagged(d.fields[i], v).value + rest, r, seen);
    LaterReplaces(d, j, w, rest, r[a := first], seen + SeenBit(d, i));
    LaterReplaces(d, i, v, rest, r[b := second], seen + SeenBit(d, j));
    assert r[a := first][b := second] == r[b := second][a := first];
    assert seen + SeenBit(d, i) + SeenBit(d, j) == seen + SeenBit(d, j) + SeenBit(d, i);
  }

  /** A submessage is read on top of what is there, in an array or a union on top of the defaults. */
  lemma SubmessageContinues(f: Field, body: Bytes, rest: Bytes, m: Msg)
    requires f.ltype.Submessage? && |body| < TWO_32
    ensures DecodeItem(f, LengthPrefixed(body) + rest, Sub(m)) ==
      match DecodeFields(f.ltype.desc, body, if f.htype.Repeated? || f.htype.OneOf? then Defaults(f.ltype.desc) else m, {})
      case Some(r) => Some((Sub(r), rest))
      case None => None
  {
    PrefixReads(body, rest);
  }

  // ---- Arrays ----

  /** An item with its own key is appended, of whatever type, unless the array is full. */
  lemma ItemIsAppended(d: Desc, i: nat, v: Value, items: seq<Value>, rest: Bytes, r: Msg, seen: set<nat>)
    requires WellFormed(d) && i < |d.fields| && d.fields[i].htype.Repeated? && !d.fields[i].ltype.Submessage?
    requires Fits(d.fields[i].ltype, v) && SlotOf(d, i) < |r| && r[SlotOf(d, i)] == Items(items)
    requires EncodeTagged(d.fields[i], v).Some? && |EncodeTagged(d.fields[i], v).value| < TWO_32
    ensures DecodeFields(d, EncodeTagged(d.fields[i], v).value + rest, r, seen) ==
      if |items| < d.fields[i].htype.arraySize && Ends(d.fields[i].ltype, v)
      then DecodeFields(d, rest, r[SlotOf(d, i) := Items(items + [v])], seen)
      else None
  {
    var f := d.fields[i];
    assert FieldOk(d, i);
    var item := EncodeItem(f.ltype, v).value;
    ScalarRoundTrip(f, v, rest, Num(0));
    var read := if |items| < f.htype.arraySize && Ends(f.ltype, v) then Some((Items(items + [v]), rest)) else None;
    assert DecodeSlot(f, WireType(f.ltype), item + rest, Items(items)) == read;
    OnePass(d, i, WireType(f.ltype), item, rest, r, seen, read);
    assert seen + SeenBit(d, i) == seen;
  }

  lemma {:induction false} PackedOverflows(f: Field, n: nat, vs: seq<Value>, items: seq<Value>)
    requires Packable(f.ltype) && (forall k | 0 <= k < |vs| :: Fits(f.ltype, vs[k])) && |items| <= n < |items| + |vs|
    requires EncodeItems(f.ltype, vs).Some? && |EncodeItems(f.ltype, vs).value| < TWO_32
    ensures DecodePacked(f, n, EncodeItems(f.ltype, vs).value, items) == None
    decreases |vs|
  {
    var rest := EncodeItems(f.ltype, vs[1..]).value;
    ScalarRoundTrip(f, vs[0], rest, Num(0));
    if |items| < n { PackedOverflows(f, n, vs[1..], items + [vs[0]]); }
  }

  /** A packed run is appended to what is there, or refused if the array cannot take all of it. */
  lemma RunIsAppended(d: Desc, i: nat, vs: seq<Value>, items: seq<Value>, rest: Bytes, r: Msg, seen: set<nat>)
    requires WellFormed(d) && i < |d.fields| && d.fields[i].htype.Repeated? && Packable(d.fields[i].ltype)
    requires (forall k | 0 <= k < |vs| :: Fits(d.fields[i].ltype, vs[k])) && SlotOf(d, i) < |r| && r[SlotOf(d, i)] == Items(items)
    requires |items| <= d.fields[i].htype.arraySize
    requires EncodeItems(d.fields[i].ltype, vs).Some? && |EncodeItems(d.fields[i].ltype, vs).value| < TWO_32
    ensures DecodeFields(d, TagBytes(WT_STRING, d.fields[i].tag) + LengthPrefixed(EncodeItems(d.fields[i].ltype, vs).value) + rest, r, seen) ==
      if |items| + |vs| <= d.fields[i].htype.arraySize then DecodeFields(d, rest, r[SlotOf(d, i) := Items(items + vs)], seen) else None
  {
    var f := d.fields[i];
    assert FieldOk(d, i);
    var (body, n) := (EncodeItems(f.ltype, vs).value, f.htype.arraySize);
    PrefixReads(body, rest);
    if |items| + |vs| <= n { PackedRoundTrip(f, n, vs, items); } else { PackedOverflows(f, n, vs, items); }
    var read := if |items| + |vs| <= n then Some((Items(items + vs), rest)) else None;
    assert DecodeSlot(f, WT_STRING, LengthPrefixed(body) + rest, Items(items)) == read;
    OnePass(d, i, WT_STRING, LengthPrefixed(body), rest, r, seen, read);
    assert seen + SeenBit(d, i) == seen;
  }

  // ---- What does not fit ----

  /** A byte array takes what its capacity allows, a string one byte less, an array of fixed length that length or nothing. */
  lemma BytesFit(f: Field, b: Bytes, rest: Bytes, there: Value)
    requires (f.ltype.BytesArray? || f.ltype.CString? || f.ltype.FixedBytes?) && |b| < TWO_32
    ensures DecodeItem(f, LengthPrefixed(b) + rest, there).Some? <==>
      match f.ltype
      case BytesArray(capacity) => |b| <= capacity
      case CString(capacity) => |b| < capacity
      case FixedBytes(length) => |b| == length || b == []
      case _ => false
    ensures DecodeItem(f, LengthPrefixed(b) + rest, there).Some? && !f.ltype.CString? && b != [] ==>
      DecodeItem(f, LengthPrefixed(b) + rest, there) == Some((Blob(b), rest))
  {
    PrefixReads(b, rest);
  }

  /** An integer of w bytes: half its range to either side if signed, the whole range if not. */
  predicate InRange(l: LType, n: int)
    requires l.VarInt? || l.UVarInt? || l.SVarInt?
  {
    if l.UVarInt? then 0 <= n < 2 * Half(l.width) else 0 - Half(l.width) <= n < Half(l.width)
  }

  /** A number of 64 bits arrives if it is within the range of the field, and is refused otherwise. */
  lemma NumbersInRangeFit(f: Field, n: int, rest: Bytes, there: Value)
    requires (f.ltype.UVarInt? || f.ltype.SVarInt?) && IsWidth(f.ltype.width)
    requires if f.ltype.UVarInt? then 0 <= n < TWO_64 else -0x8000_0000_0000_0000 <= n < 0x8000_0000_0000_0000
    ensures DecodeItem(f, Varint(IntOf(f.ltype, n)) + rest, there) == if InRange(f.ltype, n) then Some((Num(n), rest)) else None
  {
    var u := IntOf(f.ltype, n);
    if f.ltype.SVarInt? { ZigZagRoundTrip(n); } else { Mod64(n); }
    VarintItem(f, u, rest, there);
  }

  lemma VarintItem(f: Field, u: U64, rest: Bytes, there: Value)
    requires f.ltype.VarInt? || f.ltype.UVarInt? || f.ltype.SVarInt?
    ensures DecodeItem(f, Varint(u) + rest, there) == DecodeInt(f.ltype, u, rest)
  {
    Pow128Values();
    VarintRoundTrip(u, 10, rest);
    Mod64(u);
    assert (Varint(u) + rest)[|Varint(u)|..] == rest;
  }

  /** Narrow signed numbers may come in 64 bits or, as some senders write negative ones, in 32; wider ones are cut to 32 bits first. */
  lemma SignedNumbersFit(f: Field, n: int, u: U64, rest: Bytes, there: Value)
    requires f.ltype.VarInt? && IsWidth(f.ltype.width) && f.ltype.width < 8
    requires -0x8000_0000 <= n < 0x8000_0000 && u % TWO_32 == n % TWO_32
    ensures DecodeItem(f, Varint(u) + rest, there) == if InRange(f.ltype, n) then Some((Num(n), rest)) else None
  {
    VarintItem(f, u, rest, there);
    assert n < 0 ==> n % TWO_32 == n + TWO_32;
  }

  // ---- 32-bit varints of 64-bit numbers ----

  lemma Shl28(x: nat)
    ensures Shl(x, 28) == 0x1000_0000 * x
  {
    ShlSeven(x);
    ShlSeven(128 * x);
    ShlSeven(128 * (128 * x));
    ShlSeven(128 * (128 * (128 * x)));
    ShlTwice(x, 7, 7);
    ShlTwice(x, 14, 7);
    ShlTwice(x, 21, 7);
  }

  /** The fifth byte, if another follows, gives its low four bits, whatever its other three are. */
  lemma FifthByte(byte: Byte, lo: nat, result: U32)
    requires lo < 128 && byte == lo + 128 && result < 0x1000_0000
    ensures Group(byte, result, 28) == Some(result + 0x1000_0000 * (lo % 16))
  {
    Shl28(lo);
    Shl28(lo % 16);
    Shl28(1);
    LowBits(byte, lo);
    assert 0x1000_0000 * lo % TWO_32 == 0x1000_0000 * (lo % 16);
    OrShl(result, lo % 16, 28);
    Small(result + 0x1000_0000 * (lo % 16));
  }

  /** From the sixth byte on, a number whose bit 31 is set may be followed by ones up to bit 63. */
  lemma OnesAreSkipped(result: U32, rest: Bytes)
    requires result >= 0x8000_0000
    ensures Varint32More(Varint(0x1FFF_FFFF) + rest, result, 35) == Some((result, rest))
  {
    OnesStep(0x1FFF_FFFF, result, 35, rest);
    OnesStep(0x3F_FFFF, result, 42, rest);
    OnesStep(0x7FFF, result, 49, rest);
    OnesStep(0xFF, result, 56, rest);
    LastOne(result, rest);
  }

  lemma OnesStep(v: nat, result: U32, p: nat, rest: Bytes)
    requires 32 <= p < 63 && result >= 0x8000_0000 && v >= 128 && v % 128 == 127
    ensures Varint32More(Varint(v) + rest, result, p) == Varint32More(Varint(v / 128) + rest, result, p + 7)
  {
    var byte: Byte := 255;
    var tail := Varint(v / 128) + rest;
    assert Varint(v) + rest == [byte] + tail && ([byte] + tail)[1..] == tail;
    assert Group(byte, result, p) == Some(result);
  }

  lemma LastOne(result: U32, rest: Bytes)
    requires result >= 0x8000_0000
    ensures Varint32More(Varint(1) + rest, result, 63) == Some((result, rest))
  {
    var byte: Byte := 1;
    assert Varint(1) + rest == [byte] + rest && ([byte] + rest)[1..] == rest;
  }

  /** A negative 32-bit number, extended to 64 bits, is read as its low 32 bits. */
  lemma SignExtendedReads(n: int, rest: Bytes)
    requires -0x8000_0000 <= n < 0
    ensures Varint32(Varint(n + TWO_64) + rest) == Some((n + TWO_32, rest))
  {
    var l0, l1, l2, l3, l4 := Groups(n);
    var h3: nat := l4 + 128 * 0x1FFF_FFFF;
    var h2: nat := l3 + 128 * h3;
    var h1: nat := l2 + 128 * h2;
    var h0: nat := l1 + 128 * h1;
    FourGroups(l0, l1, l2, l3, h0, h1, h2, h3, rest);
    FifthGroup(l4, 0x1FFF_FFFF, l0 + 0x80 * l1 + 0x4000 * l2 + 0x20_0000 * l3, rest);
    OnesAreSkipped(n + TWO_32, rest);
  }

  /** The groups of seven bits: the low 32 bits are in the first five, and the rest is ones. */
  lemma Groups(n: int) returns (l0: nat, l1: nat, l2: nat, l3: nat, l4: nat)
    requires -0x8000_0000 <= n < 0
    ensures l0 < 128 && l1 < 128 && l2 < 128 && l3 < 128 && l4 < 128 && l4 / 16 == 7 && l4 % 16 >= 8
    ensures n + TWO_64 == l0 + 128 * (l1 + 128 * (l2 + 128 * (l3 + 128 * (l4 + 128 * 0x1FFF_FFFF))))
    ensures l0 + 0x80 * l1 + 0x4000 * l2 + 0x20_0000 * l3 + 0x1000_0000 * (l4 % 16) == n + TWO_32
  {
    var low: nat := n + TWO_32;
    l0, l1, l2, l3 := low % 128, low / 128 % 128, low / 0x4000 % 128, low / 0x20_0000 % 128;
    l4 := low / 0x1000_0000 + 112;
    assert low / 128 / 128 == low / 0x4000 && low / 0x4000 / 128 == low / 0x20_0000 && low / 0x20_0000 / 128 == low / 0x1000_0000;
  }

  lemma FirstGroup(lo: nat, hi: nat, rest: Bytes)
    requires lo < 128 && hi > 0
    ensures Varint32(Varint(lo + 128 * hi) + rest) == Varint32More(Varint(hi) + rest, lo, 7)
  {
    Parts(lo, hi, rest);
    FirstByte(lo + 128, Varint(hi) + rest);
  }

  lemma Parts(lo: nat, hi: nat, rest: Bytes)
    requires lo < 128 && hi > 0
    ensures Varint(lo + 128 * hi) + rest == [lo + 128] + (Varint(hi) + rest)
  {
    var byte, l, h := Head(lo + 128 * hi, rest);
  }

  lemma MoreGroup(lo: nat, hi: nat, result: nat, p: nat, rest: Bytes)
    requires lo < 128 && hi > 0 && (p == 7 || p == 14 || p == 21) && result < Shl(1, p)
    ensures var value := result + (if p == 7 then 0x80 else if p == 14 then 0x4000 else 0x20_0000) * lo;
      && value < Shl(1, p + 7) <= 0x1000_0000
      && Varint32More(Varint(lo + 128 * hi) + rest, result, p) == Varint32More(Varint(hi) + rest, value, p + 7)
  {
    Parts(lo, hi, rest);
    var value := NextGroupIs(lo + 128, lo, result, p, Varint(hi) + rest);
  }

  /** The first four groups of a number that has more. */
  lemma FourGroups(l0: nat, l1: nat, l2: nat, l3: nat, h0: nat, h1: nat, h2: nat, h3: nat, rest: Bytes)
    requires l0 < 128 && l1 < 128 && l2 < 128 && l3 < 128 && h3 > 0
    requires h2 == l3 + 128 * h3 && h1 == l2 + 128 * h2 && h0 == l1 + 128 * h1
    ensures l0 + 0x80 * l1 + 0x4000 * l2 + 0x20_0000 * l3 < 0x1000_0000
    ensures Varint32(Varint(l0 + 128 * h0) + rest) ==
      Varint32More(Varint(h3) + rest, l0 + 0x80 * l1 + 0x4000 * l2 + 0x20_0000 * l3, 28)
  {
    FirstGroup(l0, h0, rest);
    ShlSeven(1);
    MoreGroup(l1, h1, l0, 7, rest);
    TwoGroups(l2, l3, h1, h2, h3, l0 + 0x80 * l1, rest);
  }

  lemma TwoGroups(l2: nat, l3: nat, h1: nat, h2: nat, h3: nat, result: nat, rest: Bytes)
    requires l2 < 128 && l3 < 128 && h3 > 0 && h2 == l3 + 128 * h3 && h1 == l2 + 128 * h2 && result < Shl(1, 14)
    ensures result + 0x4000 * l2 + 0x20_0000 * l3 < 0x1000_0000
    ensures Varint32More(Varint(h1) + rest, result, 14) == Varint32More(Varint(h3) + rest, result + 0x4000 * l2 + 0x20_0000 * l3, 28)
  {
    MoreGroup(l2, h2, result, 14, rest);
    MoreGroup(l3, h3, result + 0x4000 * l2, 21, rest);
  }

  lemma FifthGroup(lo: nat, hi: nat, result: U32, rest: Bytes)
    requires lo < 128 && hi > 0 && result < 0x1000_0000
    ensures result + 0x1000_0000 * (lo % 16) < TWO_32
    ensures Varint32More(Varint(lo + 128 * hi) + rest, result, 28) == Varint32More(Varint(hi) + rest, result + 0x1000_0000 * (lo % 16), 35)
  {
    Parts(lo, hi, rest);
    FifthByte(lo + 128, lo, result);
    MoreByte(lo + 128, Varint(hi) + rest, result, 28);
  }

  lemma NextGroupIs(byte: Byte, lo: nat, result: nat, p: nat, tail: Bytes) returns (value: U32)
    requires lo < 128 && byte == lo + 128 && (p == 7 || p == 14 || p == 21) && result < Shl(1, p)
    ensures value == result + (if p == 7 then 0x80 else if p == 14 then 0x4000 else 0x20_0000) * lo && value < Shl(1, p + 7)
    ensures Varint32More([byte] + tail, result, p) == Varint32More(tail, value, p + 7)
    ensures Shl(1, p + 7) <= 0x1000_0000
  {
    ShlSeven(lo);
    ShlSeven(128 * lo);
    ShlSeven(128 * (128 * lo));
    ShlTwice(lo, 7, 7);
    ShlTwice(lo, 14, 7);
    Shl28(1);
    ShlSeven(1);
    ShlSeven(128);
    ShlSeven(16384);
    ShlTwice(1, 7, 7);
    ShlTwice(1, 14, 7);
    value := result + Shl(lo, p);
    GroupAdds(byte, lo, result, p);
    MoreByte(byte, tail, result, p);
  }

  /** A number that needs between 33 and 35 bits is refused. */
  lemma TooLargeIsRefused(v: nat, rest: Bytes)
    requires 0x1_0000_0000 <= v < 0x8_0000_0000
    ensures Varint32(Varint(v) + rest) == None
  {
    var (h0, h1, h2, h3) := (v / 128, v / 0x4000, v / 0x20_0000, v / 0x1000_0000);
    DivideBySteps(v);
    FourGroups(v % 128, h0 % 128, h1 % 128, h2 % 128, h0, h1, h2, h3, rest);
    assert v == v % 128 + 128 * h0;
    LastGroupTooLarge(h3, v % 128 + 0x80 * (h0 % 128) + 0x4000 * (h1 % 128) + 0x20_0000 * (h2 % 128), rest);
  }

  lemma LastGroupTooLarge(v: nat, result: U32, rest: Bytes)
    requires 16 <= v < 128
    ensures Varint32More(Varint(v) + rest, result, 28) == None
  {
    var byte: Byte := v;
    assert Varint(v) + rest == [byte] + rest;
  }

  // ---- The end of a message ----

  /** A zero byte in place of a key ends the message. */
  lemma ZeroEnds(d: Desc, rest: Bytes, m: Msg, seen: set<nat>)
    ensures DecodeFields(d, [0] + rest, m, seen) == DecodeFields(d, [], m, seen)
  {
    assert ([0] + rest)[0] == 0;
    assert Varint32([0] + rest) == Some((0, ([0] + rest)[1..]));
    assert Pass(d, [0] + rest, m, seen) == Stopped;
  }

  /** Nothing at all decodes, to the defaults, exactly if no field is required. */
  lemma {:induction false} EmptyMessage(d: Desc)
    ensures Decode(d, []) == if exists i | 0 <= i < |d.fields| :: d.fields[i].htype.Required? then None else Some(Defaults(d))
  {
    RequiredCounted(d, |d.fields|);
    if exists i | 0 <= i < |d.fields| :: d.fields[i].htype.Required? {
      var none: set<nat> := {};
      assert 0 < MAX_REQUIRED_FIELDS && 0 !in none && !AllSeen(d, none);
    }
  }

  lemma {:induction false} RequiredCounted(d: Desc, n: nat)
    requires n <= |d.fields|
    ensures RequiredBefore(d, n) > 0 <==> exists i | 0 <= i < n :: d.fields[i].htype.Required?
  {
    if n > 0 { RequiredCounted(d, n - 1); }
  }
}
