/** Fields the receiver does not know are skipped, whatever they hold, so that it understands newer senders (pb_decode.c). */
module PbForward {
  import opened Options
  import opened Coding
  import opened PbCommon
  import opened PbEncode
  import opened PbDecode
  import opened PbRoundTrip
  import opened PbWire

  // ---- One unknown field ----

  ghost predicate Unknown(d: Desc, tag: nat) {
    forall f | f in d.fields :: f.tag != tag
  }

  /** Any bytes with continuation bits up to one without. */
  ghost predicate EndsOnce(b: Bytes) {
    b != [] && (forall i | 0 <= i < |b| - 1 :: b[i] >= 128) && b[|b| - 1] < 128
  }

  /** What can follow a key with these low bits: a varint, eight bytes, a length and that many bytes, or four bytes. */
  ghost predicate PayloadOf(bits: nat, b: Bytes) {
    || (bits == 0 && EndsOnce(b))
    || (bits == 1 && |b| == 8)
    || (bits == 2 && exists body: Bytes :: |body| < 0x1_0000_0000 && LengthThen(b, body))
    || (bits == 5 && |b| == 4)
  }

  lemma {:induction false} NotFound(d: Desc, tag: nat, i: nat)
    requires Unknown(d, tag)
    ensures IndexOf(d, tag, i) == None
    decreases |d.fields| - i
  {
    if i < |d.fields| { NotFound(d, tag, i + 1); }
  }

  lemma {:induction false} VarintIsSkipped(b: Bytes, rest: Bytes)
    requires EndsOnce(b)
    ensures SkipVarint(b + rest) == Some(rest)
  {
    if |b| == 1 {
      assert (b + rest)[1..] == rest;
    } else {
      assert (b + rest)[1..] == b[1..] + rest;
      VarintIsSkipped(b[1..], rest);
    }
  }

  lemma {:induction false} LengthThenIs(b: Bytes, body: Bytes)
    requires LengthThen(b, body)
    ensures b == LengthPrefixed(body)
  {
    var k :| 0 <= k <= |b| && IsVarint(b[..k], |body|) && b[k..] == body;
    VarintIsUnique(b[..k], |body|);
    assert b == b[..k] + b[k..];
  }

  lemma PayloadIsSkipped(bits: nat, b: Bytes, rest: Bytes)
    requires PayloadOf(bits, b)
    ensures SkipField(bits, b + rest) == Some(rest)
  {
    assert (b + rest)[|b|..] == rest;
    if bits == 0 {
      VarintIsSkipped(b, rest);
    } else if bits == 2 {
      var body: Bytes :| |body| < 0x1_0000_0000 && LengthThen(b, body);
      LengthThenIs(b, body);
      PrefixReads(body, rest);
    }
  }

  lemma KeyReads(key: Bytes, n: U32, rest: Bytes)
    requires IsVarint(key, n)
    ensures Varint32(key + rest) == Some((n, rest))
  {
    VarintIsUnique(key, n);
    PbRoundTrip.Varint32Reads(n, rest);
  }

  /** One round of the decoding loop that skips a field. */
  lemma RoundSkips(d: Desc, input: Bytes, temp: U32, rest: Bytes, after: Bytes, m: Msg, seen: set<nat>)
    requires Varint32(input) == Some((temp, rest)) && temp > 0 && IndexOf(d, temp / 8, 0) == None
    requires SkipField(temp % 8, rest) == Some(after)
    ensures DecodeFields(d, input, m, seen) == DecodeFields(d, after, m, seen)
  {
    assert input != [];
    assert Pass(d, input, m, seen) == More(after, m, seen);
  }

  lemma KeySplits(tag: nat, bits: nat)
    requires bits < 8
    ensures (8 * tag + bits) / 8 == tag && (8 * tag + bits) % 8 == bits
  {
  }

  /** A field with a tag the message does not have changes nothing, whatever comes after it. */
  lemma UnknownFieldIsSkipped(d: Desc, tag: nat, bits: nat, key: Bytes, payload: Bytes, rest: Bytes, m: Msg, seen: set<nat>)
    requires Unknown(d, tag) && 0 < tag < 0x2000_0000 && IsVarint(key, 8 * tag + bits) && PayloadOf(bits, payload)
    ensures DecodeFields(d, key + payload + rest, m, seen) == DecodeFields(d, rest, m, seen)
  {
    var temp := 8 * tag + bits;
    assert key + payload + rest == key + (payload + rest);
    KeyReads(key, temp, payload + rest);
    KeySplits(tag, bits);
    NotFound(d, tag, 0);
    PayloadIsSkipped(bits, payload, rest);
    RoundSkips(d, key + payload + rest, temp, payload + rest, rest, m, seen);
  }

  /** The other kinds of field cannot be skipped, and the message is refused. */
  lemma OtherKindsAreRefused(d: Desc, tag: nat, bits: nat, key: Bytes, rest: Bytes, m: Msg, seen: set<nat>)
    requires Unknown(d, tag) && 0 < tag < 0x2000_0000 && IsVarint(key, 8 * tag + bits)
    requires bits == 3 || bits == 4 || bits == 6 || bits == 7
    ensures DecodeFields(d, key + rest, m, seen) == None
  {
    KeyReads(key, 8 * tag + bits, rest);
    NotFound(d, tag, 0);
  }

  // ---- Fields the encoder writes ----

  lemma ItemIsPayload(l: LType, v: Value, b: Bytes)
    requires ItemOnWire(l, v, b) && |b| < 0x1_0000_0000
    ensures PayloadOf(KeyBits(l), b)
  {
    if KeyBits(l) == 2 {
      var body := BodyOf(l, v, b);
      IsPayload(b, body);
    }
  }

  lemma BodyOf(l: LType, v: Value, b: Bytes) returns (body: Bytes)
    requires ItemOnWire(l, v, b) && KeyBits(l) == 2
    ensures LengthThen(b, body)
  {
    if l.Submessage? {
      body :| LengthThen(b, body) && MessageOnWire(l.desc, v.m, body);
    } else {
      body := v.b;
    }
  }

  lemma TaggedParts(f: Field, v: Value, b: Bytes) returns (key: Bytes, payload: Bytes)
    requires TaggedOnWire(f, v, b) && |b| < 0x1_0000_0000
    ensures b == key + payload && IsVarint(key, 8 * f.tag + KeyBits(f.ltype)) && PayloadOf(KeyBits(f.ltype), payload)
  {
    var k :| 0 <= k <= |b| && IsVarint(b[..k], 8 * f.tag + KeyBits(f.ltype)) && ItemOnWire(f.ltype, v, b[k..]);
    key, payload := b[..k], b[k..];
    ItemIsPayload(f.ltype, v, payload);
  }

  lemma TaggedIsSkipped(d: Desc, f: Field, v: Value, b: Bytes, rest: Bytes, m: Msg, seen: set<nat>)
    requires Unknown(d, f.tag) && 0 < f.tag < 0x2000_0000 && TaggedOnWire(f, v, b) && |b| < 0x1_0000_0000
    ensures DecodeFields(d, b + rest, m, seen) == DecodeFields(d, rest, m, seen)
  {
    var key, payload := TaggedParts(f, v, b);
    UnknownFieldIsSkipped(d, f.tag, KeyBits(f.ltype), key, payload, rest, m, seen);
  }

  lemma {:induction false} EachIsSkipped(d: Desc, f: Field, vs: seq<Value>, b: Bytes, rest: Bytes, m: Msg, seen: set<nat>)
    requires Unknown(d, f.tag) && 0 < f.tag < 0x2000_0000 && EachOnWire(f, vs, b) && |b| < 0x1_0000_0000
    ensures DecodeFields(d, b + rest, m, seen) == DecodeFields(d, rest, m, seen)
    decreases |vs|
  {
    if vs == [] {
      assert b + rest == rest;
    } else {
      var k :| 0 <= k <= |b| && TaggedOnWire(f, vs[0], b[..k]) && EachOnWire(f, vs[1..], b[k..]);
      assert b + rest == b[..k] + (b[k..] + rest);
      TaggedIsSkipped(d, f, vs[0], b[..k], b[k..] + rest, m, seen);
      EachIsSkipped(d, f, vs[1..], b[k..], rest, m, seen);
    }
  }

  lemma PackedParts(f: Field, vs: seq<Value>, b: Bytes) returns (key: Bytes, payload: Bytes)
    requires PackedOnWire(f, vs, b) && |b| < 0x1_0000_0000
    ensures b == key + payload && IsVarint(key, 8 * f.tag + 2) && PayloadOf(2, payload)
  {
    var k :| 0 <= k <= |b| && IsVarint(b[..k], 8 * f.tag + 2) && RunWithLength(f.ltype, vs, b[k..]);
    key, payload := b[..k], b[k..];
    RunIsPayload(f.ltype, vs, payload);
  }

  lemma RunIsPayload(l: LType, vs: seq<Value>, b: Bytes)
    requires RunWithLength(l, vs, b) && |b| < 0x1_0000_0000
    ensures PayloadOf(2, b)
  {
    var body :| LengthThen(b, body) && RunOnWire(l, vs, body);
    IsPayload(b, body);
  }

  lemma IsPayload(b: Bytes, body: Bytes)
    requires LengthThen(b, body) && |b| < 0x1_0000_0000
    ensures PayloadOf(2, b)
  {
    LengthThenIs(b, body);
  }

  lemma PackedIsSkipped(d: Desc, f: Field, vs: seq<Value>, b: Bytes, rest: Bytes, m: Msg, seen: set<nat>)
    requires Unknown(d, f.tag) && 0 < f.tag < 0x2000_0000 && PackedOnWire(f, vs, b) && |b| < 0x1_0000_0000
    ensures DecodeFields(d, b + rest, m, seen) == DecodeFields(d, rest, m, seen)
  {
    var key, payload := PackedParts(f, vs, b);
    UnknownFieldIsSkipped(d, f.tag, 2, key, payload, rest, m, seen);
  }

  /** Whatever a sender writes for a field the receiver does not have is skipped. */
  lemma FieldIsSkipped(d: Desc, f: Field, s: Slot, b: Bytes, rest: Bytes, m: Msg, seen: set<nat>)
    requires Unknown(d, f.tag) && 0 < f.tag < 0x2000_0000 && FieldOnWire(f, s, b) && |b| < 0x1_0000_0000
    ensures DecodeFields(d, b + rest, m, seen) == DecodeFields(d, rest, m, seen)
  {
    if b == [] {
      assert b + rest == rest;
    } else {
      match s
      case Plain(v) => TaggedIsSkipped(d, f, v, b, rest, m, seen);
      case Has(_, v) => TaggedIsSkipped(d, f, v, b, rest, m, seen);
      case Which(Some(c)) => TaggedIsSkipped(d, f, c.v, b, rest, m, seen);
      case Items(vs) =>
        if KeyBits(f.ltype) == 2 {
          EachIsSkipped(d, f, vs, b, rest, m, seen);
        } else {
          PackedIsSkipped(d, f, vs, b, rest, m, seen);
        }
    }
  }

  // ---- A newer sender ----

  /**
   The sender's fields from j on are the receiver's from i on, in the same order and sent as the same
   bytes, and besides some that the receiver does not have.
   */
  ghost predicate Extends(e: Desc, n: Msg, j: nat, d: Desc, m: Msg, i: nat)
    decreases |e.fields| - j
  {
    if j >= |e.fields| then i == |d.fields|
    else if Unknown(d, e.fields[j].tag) then Extends(e, n, j + 1, d, m, i)
    else
      && i < |d.fields| && SlotOf(d, i) < |m| && SlotOf(e, j) < |n|
      && EncodeSlot(e.fields[j], n[SlotOf(e, j)]) == EncodeSlot(d.fields[i], m[SlotOf(d, i)])
      && Extends(e, n, j + 1, d, m, i + 1)
  }

  lemma {:induction false} ExtendsEncodes(e: Desc, n: Msg, j: nat, d: Desc, m: Msg, i: nat)
    requires Extends(e, n, j, d, m, i) && j <= |e.fields| && i <= |d.fields| && EncodeFrom(e, n, j).Some?
    ensures EncodeFrom(d, m, i).Some? && |EncodeFrom(d, m, i).value| <= |EncodeFrom(e, n, j).value|
    decreases |e.fields| - j
  {
    if j < |e.fields| {
      if Unknown(d, e.fields[j].tag) {
        ExtendsEncodes(e, n, j + 1, d, m, i);
      } else {
        ExtendsEncodes(e, n, j + 1, d, m, i + 1);
      }
    }
  }

  lemma UnknownStep(e: Desc, n: Msg, j: nat, d: Desc, r: Msg, seen: set<nat>)
    requires WellFormed(e) && Shaped(e, n) && j < |e.fields| && Unknown(d, e.fields[j].tag)
    requires EncodeFrom(e, n, j).Some? && |EncodeFrom(e, n, j).value| < TWO_32
    ensures EncodeFrom(e, n, j + 1).Some? && |EncodeFrom(e, n, j + 1).value| < TWO_32
    ensures DecodeFields(d, EncodeFrom(e, n, j).value, r, seen) == DecodeFields(d, EncodeFrom(e, n, j + 1).value, r, seen)
  {
    var head, tail := FromSplits(e, n, j);
    assert FieldOk(e, j);
    SlotIsWire(e, j, n[SlotOf(e, j)]);
    FieldIsSkipped(d, e.fields[j], n[SlotOf(e, j)], head, tail, r, seen);
  }

  /** A field both know: the receiver reads the same piece of the sender's bytes as of its own. */
  lemma KnownStep(e: Desc, n: Msg, j: nat, d: Desc, m: Msg, i: nat)
    requires WellFormed(d) && Shaped(d, m) && i < |d.fields| && j < |e.fields| && SlotOf(d, i) < |m| && SlotOf(e, j) < |n|
    requires EncodeSlot(e.fields[j], n[SlotOf(e, j)]) == EncodeSlot(d.fields[i], m[SlotOf(d, i)])
    requires EncodeFrom(e, n, j).Some? && |EncodeFrom(e, n, j).value| < TWO_32
    ensures EncodeFrom(e, n, j + 1).Some? && |EncodeFrom(e, n, j + 1).value| < TWO_32
    ensures DecodeFields(d, EncodeFrom(e, n, j).value, Received(d, m, i), SeenBefore(d, i)) ==
      if SlotEnds(d.fields[i], m[SlotOf(d, i)])
      then DecodeFields(d, EncodeFrom(e, n, j + 1).value, Received(d, m, i + 1), SeenBefore(d, i + 1))
      else None
  {
    var head, tail := FromSplits(e, n, j);
    NotYetRead(d, m, i);
    ReceivedNext(d, m, i);
    FieldStep(d, i, m[SlotOf(d, i)], tail, Received(d, m, i), SeenBefore(d, i));
  }

  lemma ExtendsStep(e: Desc, n: Msg, j: nat, d: Desc, m: Msg, i: nat)
    requires Extends(e, n, j, d, m, i) && j < |e.fields| && !Unknown(d, e.fields[j].tag)
    ensures i < |d.fields| && SlotOf(d, i) < |m| && SlotOf(e, j) < |n|
    ensures EncodeSlot(e.fields[j], n[SlotOf(e, j)]) == EncodeSlot(d.fields[i], m[SlotOf(d, i)]) && Extends(e, n, j + 1, d, m, i + 1)
    ensures EndsFrom(d, m, i) <==> SlotEnds(d.fields[i], m[SlotOf(d, i)]) && EndsFrom(d, m, i + 1)
  {
  }

  lemma ForwardEnd(e: Desc, n: Msg, d: Desc, m: Msg, i: nat)
    requires Extends(e, n, |e.fields|, d, m, i)
    ensures i == |d.fields| && EndsFrom(d, m, i)
    ensures EncodeFrom(e, n, |e.fields|) == Some([]) && DecodeFields(d, [], Received(d, m, i), SeenBefore(d, i)) == Some(Received(d, m, i))
  {
    NothingLeft(d, Received(d, m, i));
  }

  lemma {:induction false} ForwardFrom(e: Desc, n: Msg, j: nat, d: Desc, m: Msg, i: nat)
    requires WellFormed(e) && Shaped(e, n) && WellFormed(d) && Shaped(d, m) && j <= |e.fields| && i <= |d.fields|
    requires Extends(e, n, j, d, m, i) && EncodeFrom(e, n, j).Some? && |EncodeFrom(e, n, j).value| < TWO_32
    ensures DecodeFields(d, EncodeFrom(e, n, j).value, Received(d, m, i), SeenBefore(d, i)) ==
      if EndsFrom(d, m, i) then Some(Received(d, m, |d.fields|)) else None
    decreases |e.fields| - j
  {
    if j == |e.fields| {
      ForwardEnd(e, n, d, m, i);
    } else if Unknown(d, e.fields[j].tag) {
      UnknownStep(e, n, j, d, Received(d, m, i), SeenBefore(d, i));
      ForwardFrom(e, n, j + 1, d, m, i);
    } else {
      ExtendsStep(e, n, j, d, m, i);
      KnownStep(e, n, j, d, m, i);
      if SlotEnds(d.fields[i], m[SlotOf(d, i)]) { ForwardFrom(e, n, j + 1, d, m, i + 1); }
    }
  }

  /**
   Decoding what a newer sender wrote, with fields the receiver does not have, gives what decoding the
   receiver's own fields gives: the message, unless a string of these lacks its NUL.
   */
  lemma ForwardCompatible(e: Desc, n: Msg, d: Desc, m: Msg)
    requires WellFormed(e) && Shaped(e, n) && WellFormed(d) && Shaped(d, m) && Extends(e, n, 0, d, m, 0)
    requires Encode(e, n).Some? && |Encode(e, n).value| < TWO_32
    ensures Encode(d, m).Some? && Decode(d, Encode(e, n).value) == Decode(d, Encode(d, m).value)
    ensures if EndsFrom(d, m, 0) then Decode(d, Encode(e, n).value).Some? && Same(d, m, Decode(d, Encode(e, n).value).value)
      else Decode(d, Encode(e, n).value).None?
  {
    ExtendsEncodes(e, n, 0, d, m, 0);
    ForwardFrom(e, n, 0, d, m, 0);
    PbRoundTrip.MessageFrom(d, m, 0);
    MessageArrives(d, m);
  }
}
