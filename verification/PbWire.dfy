/** The bytes of an encoded message in plain numbers, as protocol buffers lay them out, and that these are what nanopb writes. */
module PbWire {
  import opened Options
  import opened Coding
  import opened PbCommon
  import opened PbEncode
  import opened PbRoundTrip

  // ---- The wire format ----

  /** The low three bits of a field's key. */
  function KeyBits(l: LType): nat {
    match l
    case Fixed64 => 1
    case Fixed32 => 5
    case Bool => 0
    case VarInt(_) => 0
    case UVarInt(_) => 0
    case SVarInt(_) => 0
    case BytesArray(_) => 2
    case CString(_) => 2
    case FixedBytes(_) => 2
    case Submessage(_) => 2
  }

  /** A length as a varint, and that many bytes. */
  ghost predicate LengthThen(b: Bytes, body: Bytes) {
    exists k | 0 <= k <= |b| :: IsVarint(b[..k], |body|) && b[k..] == body
  }

  /** One item: a bool is 0 or 1, a signed varint is doubled and made odd if negative, other negative numbers are two's complement of 64 bits. */
  ghost predicate ItemOnWire(l: LType, v: Value, b: Bytes)
    decreases l, 0
  {
    match (l, v)
    case (Bool, Num(n)) => b == [if n != 0 then 1 else 0]
    case (VarInt(_), Num(n)) => IsVarint(b, if n < 0 then n + 0x1_0000_0000_0000_0000 else n)
    case (UVarInt(_), Num(n)) => n >= 0 && IsVarint(b, n)
    case (SVarInt(_), Num(n)) => IsVarint(b, if n < 0 then -2 * n - 1 else 2 * n)
    case (Fixed32, Num(n)) => n >= 0 && IsFixed32(b, n)
    case (Fixed64, Num(n)) => n >= 0 && IsFixed64(b, n)
    case (Submessage(g), Sub(m)) => exists body :: LengthThen(b, body) && MessageOnWire(g, m, body)
    case (BytesArray(_), Blob(p)) => LengthThen(b, p)
    case (CString(_), Blob(p)) => LengthThen(b, p)
    case (FixedBytes(_), Blob(p)) => LengthThen(b, p)
    case _ => false
  }

  /** The key, 8 times the tag and the bits of the type, and the item. */
  ghost predicate TaggedOnWire(f: Field, v: Value, b: Bytes)
    decreases f, 0
  {
    exists k | 0 <= k <= |b| :: IsVarint(b[..k], 8 * f.tag + KeyBits(f.ltype)) && ItemOnWire(f.ltype, v, b[k..])
  }

  /** Items one after another, without keys. */
  ghost predicate RunOnWire(l: LType, vs: seq<Value>, b: Bytes)
    decreases l, |vs| + 1
  {
    if vs == [] then b == [] else exists k | 0 <= k <= |b| :: ItemOnWire(l, vs[0], b[..k]) && RunOnWire(l, vs[1..], b[k..])
  }

  ghost predicate RunWithLength(l: LType, vs: seq<Value>, b: Bytes)
    decreases l, |vs| + 2
  {
    exists body :: LengthThen(b, body) && RunOnWire(l, vs, body)
  }

  /** Items one after another, each with its key. */
  ghost predicate EachOnWire(f: Field, vs: seq<Value>, b: Bytes)
    decreases f, |vs| + 1
  {
    if vs == [] then b == [] else exists k | 0 <= k <= |b| :: TaggedOnWire(f, vs[0], b[..k]) && EachOnWire(f, vs[1..], b[k..])
  }

  /** A packed array: the key of a length-prefixed field, the length, the items. */
  ghost predicate PackedOnWire(f: Field, vs: seq<Value>, b: Bytes)
    decreases f, 0
  {
    exists k | 0 <= k <= |b| :: IsVarint(b[..k], 8 * f.tag + 2) && RunWithLength(f.ltype, vs, b[k..])
  }

  /** A proto3 singular field has nothing to send: a zero, no bytes, or a submessage of which nothing is sent. */
  ghost predicate NothingToSend(l: LType, v: Value)
    decreases l, 0
  {
    match (l, v)
    case (Submessage(g), Sub(m)) => MessageOnWire(g, m, [])
    case (_, Num(n)) => n == 0
    case (_, Blob(p)) => p == []
    case _ => false
  }

  /** A field: nothing for an unset optional, another union member, an empty array or a proto3 zero. */
  ghost predicate FieldOnWire(f: Field, s: Slot, b: Bytes)
    decreases f, |if s.Items? then s.items else []| + 2
  {
    match (f.htype, s)
    case (Required, Plain(v)) => TaggedOnWire(f, v, b)
    case (Singular, Plain(v)) => if NothingToSend(f.ltype, v) then b == [] else TaggedOnWire(f, v, b)
    case (Optional, Has(has, v)) => if has then TaggedOnWire(f, v, b) else b == []
    case (OneOf(_), Which(Some(c))) => if c.tag == f.tag then TaggedOnWire(f, c.v, b) else b == []
    case (OneOf(_), Which(None)) => b == []
    case (Repeated(_), Items(vs)) =>
      if vs == [] then b == []
      else if KeyBits(f.ltype) == 2 then EachOnWire(f, vs, b)
      else PackedOnWire(f, vs, b)
    case _ => false
  }

  /** The fields from i on, in the descriptor's order. */
  ghost predicate FieldsOnWire(d: Desc, m: Msg, i: nat, b: Bytes)
    decreases d, |d.fields| - i
  {
    if i >= |d.fields| then b == []
    else SlotOf(d, i) < |m| && exists k | 0 <= k <= |b| :: FieldOnWire(d.fields[i], m[SlotOf(d, i)], b[..k]) && FieldsOnWire(d, m, i + 1, b[k..])
  }

  ghost predicate MessageOnWire(d: Desc, m: Msg, b: Bytes)
    decreases d, |d.fields| + 1
  {
    FieldsOnWire(d, m, 0, b)
  }

  // ---- What the encoder writes ----

  lemma Cut(p: Bytes, q: Bytes)
    ensures (p + q)[..|p|] == p && (p + q)[|p|..] == q
  {
  }

  lemma FieldsJoin(d: Desc, m: Msg, i: nat, p: Bytes, q: Bytes)
    requires i < |d.fields| && SlotOf(d, i) < |m| && FieldOnWire(d.fields[i], m[SlotOf(d, i)], p) && FieldsOnWire(d, m, i + 1, q)
    ensures FieldsOnWire(d, m, i, p + q)
  {
    Cut(p, q);
  }

  lemma PackedJoins(f: Field, vs: seq<Value>, key: Bytes, b: Bytes)
    requires IsVarint(key, 8 * f.tag + 2) && RunWithLength(f.ltype, vs, b)
    ensures PackedOnWire(f, vs, key + b)
  {
    Cut(key, b);
  }

  lemma RunWithItsLength(l: LType, vs: seq<Value>, body: Bytes)
    requires RunOnWire(l, vs, body)
    ensures RunWithLength(l, vs, LengthPrefixed(body))
  {
    PrefixedIs(body);
  }

  lemma PrefixedIs(body: Bytes)
    ensures LengthThen(LengthPrefixed(body), body)
  {
    VarintIsVarint(|body|);
    Cut(Varint(|body|), body);
    assert LengthPrefixed(body) == Varint(|body|) + body;
  }

  lemma ZigZagInNumbers(n: int)
    requires -0x8000_0000_0000_0000 <= n < 0x8000_0000_0000_0000
    ensures ZigZag(n) == if n < 0 then -2 * n - 1 else 2 * n
  {
  }

  lemma WrappedInNumbers(n: int)
    requires -0x8000_0000_0000_0000 <= n < 0x1_0000_0000_0000_0000
    ensures n % TWO_64 == if n < 0 then n + 0x1_0000_0000_0000_0000 else n
  {
  }

  lemma IntIsWire(l: LType, n: int)
    requires l.VarInt? || l.UVarInt? || l.SVarInt?
    requires Fits(l, Num(n))
    ensures EncodeItem(l, Num(n)).Some? && ItemOnWire(l, Num(n), EncodeItem(l, Num(n)).value)
  {
    if l.SVarInt? {
      ZigZagInNumbers(n);
      VarintIsVarint(ZigZag(n));
    } else {
      WrappedInNumbers(n);
      VarintIsVarint(n % TWO_64);
    }
  }

  lemma FixedIsWire(l: LType, n: int)
    requires l.Fixed32? || l.Fixed64?
    requires Fits(l, Num(n))
    ensures EncodeItem(l, Num(n)).Some? && ItemOnWire(l, Num(n), EncodeItem(l, Num(n)).value)
  {
    if l.Fixed32? {
      Fixed32IsSent(n);
      Fixed32InNumbers(n);
    } else {
      Fixed64IsSent(n);
      Fixed64InNumbers(n);
    }
  }

  lemma NumberIsWire(l: LType, n: int)
    requires Packable(l) && Fits(l, Num(n)) && EncodeItem(l, Num(n)).Some?
    ensures ItemOnWire(l, Num(n), EncodeItem(l, Num(n)).value)
  {
    match l
    case Bool =>
    case Fixed32 => FixedIsWire(l, n);
    case Fixed64 => FixedIsWire(l, n);
    case _ => IntIsWire(l, n);
  }

  lemma ItemIsWire(l: LType, v: Value)
    requires Fits(l, v) && EncodeItem(l, v).Some?
    ensures ItemOnWire(l, v, EncodeItem(l, v).value)
    decreases l, 0
  {
    if Packable(l) {
      NumberIsWire(l, v.n);
    } else if l.Submessage? {
      var body := Encode(l.desc, v.m).value;
      MessageIsWire(l.desc, v.m);
      PrefixedIs(body);
    } else {
      PrefixedIs(v.b);
    }
  }

  lemma KeyIsVarint(wireType: nat, tag: nat)
    ensures IsVarint(TagBytes(wireType, tag), 8 * tag + wireType)
  {
    VarintIsVarint(tag * 8 + wireType);
  }

  lemma TaggedIsWire(f: Field, v: Value)
    requires Fits(f.ltype, v) && EncodeTagged(f, v).Some?
    ensures TaggedOnWire(f, v, EncodeTagged(f, v).value)
    decreases f, 0
  {
    var (key, item) := (TagBytes(WireType(f.ltype), f.tag), EncodeItem(f.ltype, v).value);
    KeyIsVarint(WireType(f.ltype), f.tag);
    assert WireType(f.ltype) == KeyBits(f.ltype);
    ItemIsWire(f.ltype, v);
    Cut(key, item);
  }

  lemma {:induction false} RunIsWire(l: LType, vs: seq<Value>)
    requires Packable(l) && (forall k | 0 <= k < |vs| :: Fits(l, vs[k])) && EncodeItems(l, vs).Some?
    ensures RunOnWire(l, vs, EncodeItems(l, vs).value)
    decreases |vs|
  {
    if vs != [] {
      NumberIsWire(l, vs[0].n);
      RunIsWire(l, vs[1..]);
      Cut(EncodeItem(l, vs[0]).value, EncodeItems(l, vs[1..]).value);
    }
  }

  lemma {:induction false} EachIsWire(f: Field, vs: seq<Value>)
    requires (forall k | 0 <= k < |vs| :: Fits(f.ltype, vs[k])) && EncodeEach(f, vs).Some?
    ensures EachOnWire(f, vs, EncodeEach(f, vs).value)
    decreases f, 1, |vs|
  {
    if vs != [] {
      TaggedIsWire(f, vs[0]);
      EachIsWire(f, vs[1..]);
      Cut(EncodeTagged(f, vs[0]).value, EncodeEach(f, vs[1..]).value);
    }
  }

  lemma PackedIsWire(f: Field, vs: seq<Value>)
    requires Packable(f.ltype) && (forall k | 0 <= k < |vs| :: Fits(f.ltype, vs[k])) && EncodeItems(f.ltype, vs).Some?
    ensures PackedOnWire(f, vs, TagBytes(WT_STRING, f.tag) + LengthPrefixed(EncodeItems(f.ltype, vs).value))
  {
    var body := EncodeItems(f.ltype, vs).value;
    RunIsWire(f.ltype, vs);
    RunWithItsLength(f.ltype, vs, body);
    KeyIsVarint(WT_STRING, f.tag);
    PackedJoins(f, vs, TagBytes(WT_STRING, f.tag), LengthPrefixed(body));
  }

  /** What the encoder takes for a default has nothing to send. */
  lemma ZeroIsNothing(l: LType, v: Value)
    requires Fits(l, v)
    ensures IsZero(l, v) <==> NothingToSend(l, v)
    decreases l, 0
  {
    if l.Submessage? {
      var (g, m) := (l.desc, v.m);
      if AllDefault(g, m, 0) {
        forall j | 0 <= j < |g.fields| ensures HasDefault(g, m, j) {
          DefaultFrom(g, m, 0, j);
        }
        DefaultsAreNothing(g, m, 0);
      }
      if FieldsOnWire(g, m, 0, []) { NothingIsDefaults(g, m, 0); }
    }
  }

  /** A key is at least a byte. */
  lemma SentIsNotEmpty(f: Field, s: Slot)
    ensures forall v :: !TaggedOnWire(f, v, [])
    ensures s.Items? && s.items != [] ==> !EachOnWire(f, s.items, []) && !PackedOnWire(f, s.items, [])
  {
    var none: Bytes := [];
    assert none[..0] == none && forall n :: !IsVarint(none, n);
    assert forall v :: !TaggedOnWire(f, v, none);
  }

  ghost predicate HasDefault(d: Desc, m: Msg, i: nat)
    requires i < |d.fields|
  {
    SlotOf(d, i) < |m| && IsDefault(d.fields[i], m[SlotOf(d, i)])
  }

  lemma {:induction false} DefaultsAreNothing(d: Desc, m: Msg, i: nat)
    requires Shaped(d, m) && i <= |d.fields| && forall j | i <= j < |d.fields| :: HasDefault(d, m, j)
    ensures FieldsOnWire(d, m, i, [])
    decreases d, 2, |d.fields| - i
  {
    if i < |d.fields| {
      DefaultsAreNothing(d, m, i + 1);
      NothingMore(d, m, i);
    }
  }

  lemma NothingMore(d: Desc, m: Msg, i: nat)
    requires Shaped(d, m) && i < |d.fields| && HasDefault(d, m, i) && FieldsOnWire(d, m, i + 1, [])
    ensures FieldsOnWire(d, m, i, [])
    decreases d, 1
  {
    DefaultIsNothing(d, i, m[SlotOf(d, i)]);
    FieldsJoin(d, m, i, [], []);
  }

  lemma DefaultIsNothing(d: Desc, i: nat, s: Slot)
    requires i < |d.fields| && SlotShaped(d, i, s) && IsDefault(d.fields[i], s)
    ensures FieldOnWire(d.fields[i], s, [])
    decreases d, 0
  {
    if s.Plain? { ZeroIsNothing(d.fields[i].ltype, s.v); }
  }

  lemma {:induction false} NothingAt(d: Desc, m: Msg, i: nat, j: nat)
    requires i <= j < |d.fields| && FieldsOnWire(d, m, i, [])
    ensures SlotOf(d, j) < |m| && FieldOnWire(d.fields[j], m[SlotOf(d, j)], [])
    decreases j - i
  {
    Cut([], []);
    if i < j { NothingAt(d, m, i + 1, j); }
  }

  lemma {:induction false} NothingIsDefaults(d: Desc, m: Msg, i: nat)
    requires Shaped(d, m) && i <= |d.fields| && FieldsOnWire(d, m, 0, [])
    ensures AllDefault(d, m, i)
    decreases d, 2, |d.fields| - i
  {
    if i < |d.fields| {
      NothingIsDefault(d, m, i);
      NothingIsDefaults(d, m, i + 1);
    }
  }

  /** If a member of the field's union were chosen, that member would be sent. */
  lemma NothingIsDefault(d: Desc, m: Msg, i: nat)
    requires Shaped(d, m) && i < |d.fields| && FieldsOnWire(d, m, 0, [])
    ensures SlotOf(d, i) < |m| && IsDefault(d.fields[i], m[SlotOf(d, i)])
    decreases d, 1
  {
    NothingAt(d, m, 0, i);
    var (f, s) := (d.fields[i], m[SlotOf(d, i)]);
    SentIsNotEmpty(f, s);
    if s.Plain? {
      ZeroIsNothing(f.ltype, s.v);
    } else if s.Which? && s.choice.Some? {
      var j :| 0 <= j < |d.fields| && d.fields[j].tag == s.choice.value.tag && SlotOf(d, j) == SlotOf(d, i);
      NothingAt(d, m, 0, j);
      SentIsNotEmpty(d.fields[j], s);
    }
  }

  lemma SlotIsWire(d: Desc, i: nat, s: Slot)
    requires i < |d.fields| && SlotShaped(d, i, s) && EncodeSlot(d.fields[i], s).Some?
    ensures FieldOnWire(d.fields[i], s, EncodeSlot(d.fields[i], s).value)
    decreases d, 0
  {
    var f := d.fields[i];
    match s
    case Plain(v) =>
      ZeroIsNothing(f.ltype, v);
      if f.htype.Required? || !IsZero(f.ltype, v) { TaggedIsWire(f, v); }
    case Has(has, v) => if has { TaggedIsWire(f, v); }
    case Which(Some(c)) => if c.tag == f.tag { TaggedIsWire(f, c.v); }
    case Which(None) =>
    case Items(vs) =>
      if vs != [] {
        if Packable(f.ltype) { PackedIsWire(f, vs); } else { EachIsWire(f, vs); }
      }
  }

  lemma {:induction false} FieldsAreWire(d: Desc, m: Msg, i: nat)
    requires Shaped(d, m) && i <= |d.fields| && EncodeFrom(d, m, i).Some?
    ensures FieldsOnWire(d, m, i, EncodeFrom(d, m, i).value)
    decreases d, 1, |d.fields| - i
  {
    if i < |d.fields| {
      SlotIsWire(d, i, m[SlotOf(d, i)]);
      FieldsAreWire(d, m, i + 1);
      FieldsJoin(d, m, i, EncodeSlot(d.fields[i], m[SlotOf(d, i)]).value, EncodeFrom(d, m, i + 1).value);
    }
  }

  /** What the encoder writes for a message is that message on the wire. */
  lemma MessageIsWire(d: Desc, m: Msg)
    requires Shaped(d, m) && Encode(d, m).Some?
    ensures MessageOnWire(d, m, Encode(d, m).value)
    decreases d, 2
  {
    FieldsAreWire(d, m, 0);
  }
}
