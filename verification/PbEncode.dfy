/** nanopb's encoder (pb_encode.c): what a message becomes on the wire, and the streams that count and write it. */
module PbEncode {
  import opened Options
  import opened Coding
  import opened PbCommon

  // ---- Scalars on the wire ----

  /** pb_wire_type_t. */
  const WT_VARINT: nat := 0
  const WT_64BIT: nat := 1
  const WT_STRING: nat := 2
  const WT_32BIT: nat := 5

  /** pb_encode_tag_for_field. */
  function WireType(l: LType): nat {
    match l
    case Fixed32 => WT_32BIT
    case Fixed64 => WT_64BIT
    case BytesArray(_) => WT_STRING
    case CString(_) => WT_STRING
    case FixedBytes(_) => WT_STRING
    case Submessage(_) => WT_STRING
    case _ => WT_VARINT
  }

  function TagBytes(wireType: nat, tag: nat): Bytes {
    Varint(tag * 8 + wireType)
  }

  /** pb_encode_svarint: doubled in 64 bits, and inverted when negative. */
  function ZigZag(n: int): nat {
    if n < 0 then TWO_64 - 1 - 2 * n % TWO_64 else 2 * n % TWO_64
  }

  function Signed64(u: nat): int {
    if u >= TWO_64 / 2 then u - TWO_64 else u
  }

  /** pb_decode_svarint. */
  function UnZigZag(u: U64): int {
    if u % 2 == 1 then Signed64(TWO_64 - 1 - u / 2) else Signed64(u / 2)
  }

  lemma ZigZagRoundTrip(n: int)
    requires -0x8000_0000_0000_0000 <= n < 0x8000_0000_0000_0000
    ensures ZigZag(n) < TWO_64 && UnZigZag(ZigZag(n)) == n
  {
    assert n < 0 ==> 2 * n % TWO_64 == 2 * n + TWO_64;
  }

  // ---- Messages on the wire ----

  function Then(a: Option<Bytes>, b: Option<Bytes>): Option<Bytes> {
    if a.Some? && b.Some? then Some(a.value + b.value) else None
  }

  function Prefixed(a: Option<Bytes>): Option<Bytes> {
    if a.Some? then Some(LengthPrefixed(a.value)) else None
  }

  /** The bits of a fixed-width number, copied as they are. */
  function Bits(v: Value): int {
    if v.Num? then v.n else 0
  }

  /** One item without its tag; None when the encoder reports an error. */
  function EncodeItem(l: LType, v: Value): Option<Bytes>
    decreases l, 0
  {
    match (l, v)
    case (Bool, Num(n)) => Some(Varint(if n != 0 then 1 else 0))
    case (VarInt(w), Num(n)) => if IsWidth(w) then Some(Varint(n % TWO_64)) else None
    case (UVarInt(w), Num(n)) => if IsWidth(w) then Some(Varint(n % TWO_64)) else None
    case (SVarInt(w), Num(n)) => if IsWidth(w) then Some(Varint(ZigZag(n))) else None
    case (Fixed32, _) => Some(Fixed(Bits(v) % TWO_32, 4))
    case (Fixed64, _) => Some(Fixed(Bits(v) % TWO_64, 8))
    case (BytesArray(c), Blob(b)) => if |b| <= c then Some(LengthPrefixed(b)) else None
    case (CString(_), Blob(b)) => Some(LengthPrefixed(b))
    case (FixedBytes(_), Blob(b)) => Some(LengthPrefixed(b))
    case (Submessage(g), Sub(m)) => Prefixed(EncodeFrom(g, m, 0))
    case _ => None
  }

  /** A packed array without its tag and length. */
  function EncodeItems(l: LType, vs: seq<Value>): Option<Bytes>
    decreases l, |vs| + 1
  {
    if vs == [] then Some([]) else Then(EncodeItem(l, vs[0]), EncodeItems(l, vs[1..]))
  }

  function EncodeTagged(f: Field, v: Value): Option<Bytes>
    decreases f, 0
  {
    Then(Some(TagBytes(WireType(f.ltype), f.tag)), EncodeItem(f.ltype, v))
  }

  function EncodeEach(f: Field, vs: seq<Value>): Option<Bytes>
    decreases f, |vs| + 1
  {
    if vs == [] then Some([]) else Then(EncodeTagged(f, vs[0]), EncodeEach(f, vs[1..]))
  }

  /** encode_array: arrays of numbers are always packed. */
  function EncodeArray(f: Field, arraySize: nat, vs: seq<Value>): Option<Bytes>
    decreases f, |vs| + 2
  {
    if vs == [] then Some([])
    else if |vs| > arraySize then None
    else if Packable(f.ltype) then Then(Some(TagBytes(WT_STRING, f.tag)), Prefixed(EncodeItems(f.ltype, vs)))
    else EncodeEach(f, vs)
  }

  /** pb_check_proto3_default_value, the part for singular fields. */
  predicate IsZero(l: LType, v: Value)
    decreases l
  {
    match (l, v)
    case (FixedBytes(k), _) => k == 0
    case (Submessage(g), Sub(m)) => AllDefault(g, m, 0)
    case (_, Blob(b)) => b == []
    case (_, Num(n)) => n == 0
    case _ => false
  }

  predicate IsDefault(f: Field, s: Slot)
    decreases f
  {
    match s
    case Plain(v) => f.htype.Singular? && IsZero(f.ltype, v)
    case Has(has, _) => !has
    case Items(vs) => vs == []
    case Which(choice) => choice.None?
  }

  predicate AllDefault(d: Desc, m: Msg, i: nat)
    decreases d, |d.fields| - i
  {
    i >= |d.fields| || (SlotOf(d, i) < |m| && IsDefault(d.fields[i], m[SlotOf(d, i)]) && AllDefault(d, m, i + 1))
  }

  /** encode_basic_field. */
  function EncodeSlot(f: Field, s: Slot): Option<Bytes>
    decreases f, |if s.Items? then s.items else []| + 3
  {
    match (f.htype, s)
    case (Required, Plain(v)) => EncodeTagged(f, v)
    case (Singular, Plain(v)) => if IsZero(f.ltype, v) then Some([]) else EncodeTagged(f, v)
    case (Optional, Has(has, v)) => if has then EncodeTagged(f, v) else Some([])
    case (Repeated(n), Items(vs)) => EncodeArray(f, n, vs)
    case (OneOf(_), Which(Some(c))) => if c.tag == f.tag then EncodeTagged(f, c.v) else Some([])
    case (OneOf(_), Which(None)) => Some([])
    case _ => None
  }

  /** pb_encode from field i on. */
  function EncodeFrom(d: Desc, m: Msg, i: nat): Option<Bytes>
    decreases d, |d.fields| - i
  {
    if i >= |d.fields| then Some([])
    else if SlotOf(d, i) >= |m| then None
    else Then(EncodeSlot(d.fields[i], m[SlotOf(d, i)]), EncodeFrom(d, m, i + 1))
  }

  function Encode(d: Desc, m: Msg): Option<Bytes> {
    EncodeFrom(d, m, 0)
  }

  // ---- Output streams ----

  datatype Error = StreamFull | ArrayTooLong | BytesTooLong | InvalidSize | InvalidType | SizeChanged

  /** A stream's state: sizing streams have no callback and only count. */
  datatype Sink = Sink(sizing: bool, maxSize: nat, out: Bytes, written: nat)

  ghost predicate SinkOk(s: Sink) {
    s.sizing || s.written <= s.maxSize
  }

  /** From s to t, asked to write e: it succeeds exactly when e exists and fits, and then e was written or counted. */
  ghost predicate Wrote(s: Sink, ok: bool, t: Sink, e: Option<Bytes>) {
    && t.sizing == s.sizing && t.maxSize == s.maxSize && SinkOk(t)
    && ok == (e.Some? && (s.sizing || s.written + |e.value| <= s.maxSize))
    && (ok ==> t.written == s.written + |e.value| && t.out == if s.sizing then s.out else s.out + e.value)
  }

  lemma WroteThen(s: Sink, t: Sink, ok: bool, u: Sink, a: Option<Bytes>, b: Option<Bytes>)
    requires Wrote(s, true, t, a) && Wrote(t, ok, u, b)
    ensures Wrote(s, ok, u, Then(a, b))
  {
    if b.Some? {
      assert s.out + a.value + b.value == s.out + (a.value + b.value);
    }
  }

  lemma FailedThen(s: Sink, t: Sink, a: Option<Bytes>, b: Option<Bytes>)
    requires Wrote(s, false, t, a)
    ensures Wrote(s, false, t, Then(a, b))
  {
  }

  lemma ClearLast(b: Bytes, lo: nat)
    requires lo < 128
    ensures ClearTop(b + [lo + 128]) == b + [lo]
  {
  }

  lemma NextGroup(b: Bytes, byte: Byte, rest: Bytes)
    ensures b + [byte] + rest == b + ([byte] + rest)
  {
  }

  /** The loop of pb_encode_varint: every byte gets a continuation bit, and the last one loses it. */
  method VarintBuffer(value: nat) returns (buffer: Bytes)
    requires value > 0
    ensures buffer == Varint(value)
  {
    var v: nat := value;
    buffer := [];
    while v > 0
      invariant v > 0 ==> buffer + Varint(v) == Varint(value)
      invariant v == 0 ==> buffer != [] && ClearTop(buffer) == Varint(value)
    {
      var byte := v % 128 + 128;
      if v >= 128 {
        NextGroup(buffer, byte, Varint(v / 128));
      } else {
        ClearLast(buffer, v);
      }
      buffer, v := buffer + [byte], v / 128;
    }
    buffer := ClearTop(buffer);
  }

  class OStream {
    const sizing: bool
    const maxSize: nat
    var out: Bytes
    var written: nat
    var error: Option<Error>

    ghost function State(): Sink
      reads this
    {
      Sink(sizing, maxSize, out, written)
    }

    constructor (sizing: bool, maxSize: nat, out: Bytes)
      ensures State() == Sink(sizing, maxSize, out, 0) && error == None
    {
      this.sizing, this.maxSize, this.out, written, error := sizing, maxSize, out, 0, None;
    }

    method SetError(e: Error)
      modifies this`error
      ensures error == if old(error).Some? then old(error) else Some(e)
    {
      if error.None? { error := Some(e); }
    }

    /** pb_write: count bytes, from b unless this is a sizing stream. */
    method Write(b: Bytes, count: nat) returns (ok: bool)
      requires SinkOk(State()) && (sizing || count == |b|)
      modifies this
      ensures count == |b| ==> Wrote(old(State()), ok, State(), Some(b))
      ensures sizing ==> ok && written == old(written) + count && out == old(out)
      ensures error == Some(SizeChanged) ==> old(error) == Some(SizeChanged)
      ensures !ok ==> error.Some?
    {
      if count > 0 && !sizing {
        if written + count > maxSize {
          SetError(StreamFull);
          return false;
        }
        out := out + b;
      }
      written := written + count;
      ok := true;
    }

    /** pb_encode_varint. */
    method EncodeVarint(value: nat) returns (ok: bool)
      requires SinkOk(State())
      modifies this
      ensures Wrote(old(State()), ok, State(), Some(Varint(value)))
      ensures error == Some(SizeChanged) ==> old(error) == Some(SizeChanged)
      ensures !ok ==> error.Some?
    {
      if value <= 0x7F {
        ok := Write([value], 1);
        return;
      }
      var buffer := VarintBuffer(value);
      ok := Write(buffer, |buffer|);
    }

    method EncodeTag(wireType: nat, tag: U32) returns (ok: bool)
      requires SinkOk(State())
      modifies this
      ensures Wrote(old(State()), ok, State(), Some(TagBytes(wireType, tag)))
      ensures error == Some(SizeChanged) ==> old(error) == Some(SizeChanged)
      ensures !ok ==> error.Some?
    {
      ok := EncodeVarint(tag * 8 + wireType);
    }

    /** pb_encode_string. */
    method EncodeString(b: Bytes) returns (ok: bool)
      requires SinkOk(State())
      modifies this
      ensures Wrote(old(State()), ok, State(), Some(LengthPrefixed(b)))
      ensures error == Some(SizeChanged) ==> old(error) == Some(SizeChanged)
      ensures !ok ==> error.Some?
    {
      ghost var s := State();
      ok := EncodeVarint(|b|);
      ghost var t := State();
      if ok {
        ok := Write(b, |b|);
        WroteThen(s, t, ok, State(), Some(Varint(|b|)), Some(b));
      } else {
        FailedThen(s, t, Some(Varint(|b|)), Some(b));
      }
    }

    /** One of the PB_ENCODERS. */
    method EncodeOne(l: LType, v: Value) returns (ok: bool)
      requires SinkOk(State())
      modifies this
      ensures Wrote(old(State()), ok, State(), EncodeItem(l, v))
      ensures error == Some(SizeChanged) ==> old(error) == Some(SizeChanged)
      ensures !ok && !l.Submessage? ==> error.Some?
      decreases l, 0
    {
      match (l, v)
      case (Bool, Num(n)) =>
        ok := EncodeVarint(if n != 0 then 1 else 0);
      case (VarInt(w), Num(n)) =>
        ok := EncodeInt(w, n % TWO_64);
      case (UVarInt(w), Num(n)) =>
        ok := EncodeInt(w, n % TWO_64);
      case (SVarInt(w), Num(n)) =>
        ok := EncodeInt(w, ZigZag(n));
      case (Fixed32, _) =>
        ok := Write(Fixed(Bits(v) % TWO_32, 4), 4);
      case (Fixed64, _) =>
        ok := Write(Fixed(Bits(v) % TWO_64, 8), 8);
      case (BytesArray(c), Blob(b)) =>
        if |b| > c {
          SetError(BytesTooLong);
          return false;
        }
        ok := EncodeString(b);
      case (CString(_), Blob(b)) =>
        ok := EncodeString(b);
      case (FixedBytes(_), Blob(b)) =>
        ok := EncodeString(b);
      case (Submessage(g), Sub(m)) =>
        ok := EncodeSubmessage(g, m);
      case _ =>
        SetError(InvalidType);
        ok := false;
    }

    /** pb_enc_varint, pb_enc_uvarint, pb_enc_svarint: only four integer sizes are known. */
    method EncodeInt(width: nat, u: nat) returns (ok: bool)
      requires SinkOk(State())
      modifies this
      ensures Wrote(old(State()), ok, State(), if IsWidth(width) then Some(Varint(u)) else None)
      ensures error == Some(SizeChanged) ==> old(error) == Some(SizeChanged)
      ensures !ok ==> error.Some?
    {
      if !IsWidth(width) {
        SetError(InvalidSize);
        return false;
      }
      ok := EncodeVarint(u);
    }

    /** pb_encode_submessage: a sizing pass, the length, and a second pass limited to that size. */
    method EncodeSubmessage(g: Desc, m: Msg) returns (ok: bool)
      requires SinkOk(State())
      modifies this
      ensures Wrote(old(State()), ok, State(), Prefixed(Encode(g, m)))
      ensures error == Some(SizeChanged) ==> old(error) == Some(SizeChanged)
      decreases g, 2
    {
      var counter := new OStream(true, 0, []);
      ok := counter.EncodeMessage(g, m);
      if !ok {
        error := counter.error;
        return;
      }
      var size := counter.written;
      ghost var body := Encode(g, m).value;
      ghost var s := State();
      ok := EncodeVarint(size);
      ghost var t := State();
      if !ok {
        FailedThen(s, t, Some(Varint(size)), Some(body));
        return;
      }
      if sizing {
        ok := Write([], size);
      } else if written + size > maxSize {
        SetError(StreamFull);
        ok := false;
      } else {
        var substream := new OStream(false, size, out);
        var status := substream.EncodeMessage(g, m);
        written, out, error := written + substream.written, substream.out, substream.error;
        var changed := substream.written != size;
        error := if changed && error.None? then Some(SizeChanged) else error;
        ok := status && !changed;
      }
      WroteThen(s, t, ok, State(), Some(Varint(size)), Some(body));
    }

    method EncodeMessage(d: Desc, m: Msg) returns (ok: bool)
      requires SinkOk(State())
      modifies this
      ensures Wrote(old(State()), ok, State(), Encode(d, m))
      ensures error == Some(SizeChanged) ==> old(error) == Some(SizeChanged)
      decreases d, 1
    {
      ghost var s := State();
      ghost var before := Some([]);
      ok := true;
      if d.fields == [] { return; }
      NothingThen(Encode(d, m));
      var iter := new FieldIter(d);
      var more := true;
      while more
        invariant iter.Valid() && iter.d == d && fresh(iter)
        invariant Wrote(s, true, State(), before)
        invariant Then(before, EncodeFrom(d, m, if more then iter.pos else |d.fields|)) == Encode(d, m)
        invariant error == Some(SizeChanged) ==> old(error) == Some(SizeChanged)
        decreases more, |d.fields| - iter.pos
      {
        var i := iter.pos;
        ghost var t := State();
        ghost var rest := EncodeFrom(d, m, i + 1);
        if iter.slot >= |m| {
          SetError(InvalidType);
          return false;
        }
        ghost var e := EncodeSlot(d.fields[i], m[iter.slot]);
        ThenAssociates(before, e, rest);
        ok := EncodeField(d.fields[i], m[iter.slot]);
        if !ok {
          FailedAfter(s, t, State(), before, e, rest);
          return;
        }
        WroteThen(s, t, true, State(), before, e);
        before := Then(before, e);
        more := iter.Next();
      }
    }

    /** pb_encode_tag_for_field and the item. */
    method EncodeTaggedOne(f: Field, v: Value) returns (ok: bool)
      requires SinkOk(State())
      modifies this
      ensures Wrote(old(State()), ok, State(), EncodeTagged(f, v))
      ensures error == Some(SizeChanged) ==> old(error) == Some(SizeChanged)
      decreases f, 0
    {
      ghost var s := State();
      ghost var tag := Some(TagBytes(WireType(f.ltype), f.tag));
      ok := EncodeTag(WireType(f.ltype), f.tag);
      ghost var t := State();
      if !ok {
        FailedThen(s, t, tag, EncodeItem(f.ltype, v));
        return;
      }
      ok := EncodeOne(f.ltype, v);
      WroteThen(s, t, ok, State(), tag, EncodeItem(f.ltype, v));
    }

    /** encode_basic_field. */
    method EncodeField(f: Field, s: Slot) returns (ok: bool)
      requires SinkOk(State())
      modifies this
      ensures Wrote(old(State()), ok, State(), EncodeSlot(f, s))
      ensures error == Some(SizeChanged) ==> old(error) == Some(SizeChanged)
      decreases f, 3
    {
      ok := true;
      match (f.htype, s)
      case (Required, Plain(v)) =>
        ok := EncodeTaggedOne(f, v);
      case (Singular, Plain(v)) =>
        if !IsZero(f.ltype, v) {
          ok := EncodeTaggedOne(f, v);
        }
      case (Optional, Has(has, v)) =>
        if has {
          ok := EncodeTaggedOne(f, v);
        }
      case (Repeated(n), Items(vs)) =>
        ok := EncodeItemsOf(f, n, vs);
      case (OneOf(_), Which(Some(c))) =>
        if c.tag == f.tag {
          ok := EncodeTaggedOne(f, c.v);
        }
      case (OneOf(_), Which(None)) =>
      case _ =>
        SetError(InvalidType);
        ok := false;
    }

    /** encode_array. */
    method EncodeItemsOf(f: Field, arraySize: nat, vs: seq<Value>) returns (ok: bool)
      requires SinkOk(State())
      modifies this
      ensures Wrote(old(State()), ok, State(), EncodeArray(f, arraySize, vs))
      ensures error == Some(SizeChanged) ==> old(error) == Some(SizeChanged)
      decreases f, 2
    {
      if vs == [] { return true; }
      if |vs| > arraySize {
        SetError(ArrayTooLong);
        return false;
      }
      if !Packable(f.ltype) {
        ok := EncodeUnpacked(f, vs);
        return;
      }
      ghost var s := State();
      ghost var tag := Some(TagBytes(WT_STRING, f.tag));
      ghost var rest := Prefixed(EncodeItems(f.ltype, vs));
      ok := EncodeTag(WT_STRING, f.tag);
      ghost var t := State();
      if !ok {
        FailedThen(s, t, tag, rest);
        return;
      }
      ok := EncodePacked(f.ltype, vs);
      WroteThen(s, t, ok, State(), tag, rest);
    }

    /** The length and the items of a packed array; fixed-width items are not counted one by one. */
    method EncodePacked(l: LType, vs: seq<Value>) returns (ok: bool)
      requires SinkOk(State()) && Packable(l)
      modifies this
      ensures Wrote(old(State()), ok, State(), Prefixed(EncodeItems(l, vs)))
      ensures error == Some(SizeChanged) ==> old(error) == Some(SizeChanged)
      decreases l, 2
    {
      var size;
      FixedSize(l, vs);
      if l.Fixed32? {
        size := 4 * |vs|;
      } else if l.Fixed64? {
        size := 8 * |vs|;
      } else {
        var counter := new OStream(true, 0, []);
        ok := counter.EncodeRun(l, vs);
        if !ok { return; }
        size := counter.written;
      }
      ghost var s := State();
      ok := EncodeVarint(size);
      ghost var t := State();
      if !ok {
        FailedThen(s, t, Some(Varint(size)), EncodeItems(l, vs));
        return;
      }
      if sizing {
        ok := Write([], size);
      } else {
        ok := EncodeRun(l, vs);
      }
      WroteThen(s, t, ok, State(), Some(Varint(size)), EncodeItems(l, vs));
    }

    method EncodeUnpacked(f: Field, vs: seq<Value>) returns (ok: bool)
      requires SinkOk(State())
      modifies this
      ensures Wrote(old(State()), ok, State(), EncodeEach(f, vs))
      ensures error == Some(SizeChanged) ==> old(error) == Some(SizeChanged)
      decreases f, 1
    {
      ghost var s := State();
      ghost var before := Some([]);
      assert vs[0..] == vs;
      NothingThen(EncodeEach(f, vs));
      for i := 0 to |vs|
        invariant Wrote(s, true, State(), before) && Then(before, EncodeEach(f, vs[i..])) == EncodeEach(f, vs)
        invariant error == Some(SizeChanged) ==> old(error) == Some(SizeChanged)
      {
        ghost var t := State();
        ghost var rest := EncodeEach(f, vs[i + 1..]);
        assert vs[i..][1..] == vs[i + 1..];
        ThenAssociates(before, EncodeTagged(f, vs[i]), rest);
        ok := EncodeTaggedOne(f, vs[i]);
        if !ok {
          FailedAfter(s, t, State(), before, EncodeTagged(f, vs[i]), rest);
          return;
        }
        WroteThen(s, t, true, State(), before, EncodeTagged(f, vs[i]));
        before := Then(before, EncodeTagged(f, vs[i]));
      }
      ok := true;
    }

    /** The items of a packed array, one after another. */
    method EncodeRun(l: LType, vs: seq<Value>) returns (ok: bool)
      requires SinkOk(State())
      modifies this
      ensures Wrote(old(State()), ok, State(), EncodeItems(l, vs))
      ensures error == Some(SizeChanged) ==> old(error) == Some(SizeChanged)
      decreases l, 1
    {
      ghost var s := State();
      ghost var before := Some([]);
      assert vs[0..] == vs;
      NothingThen(EncodeItems(l, vs));
      for i := 0 to |vs|
        invariant Wrote(s, true, State(), before) && Then(before, EncodeItems(l, vs[i..])) == EncodeItems(l, vs)
        invariant error == Some(SizeChanged) ==> old(error) == Some(SizeChanged)
      {
        ghost var t := State();
        ghost var rest := EncodeItems(l, vs[i + 1..]);
        assert vs[i..][1..] == vs[i + 1..];
        ThenAssociates(before, EncodeItem(l, vs[i]), rest);
        ok := EncodeOne(l, vs[i]);
        if !ok {
          FailedAfter(s, t, State(), before, EncodeItem(l, vs[i]), rest);
          return;
        }
        WroteThen(s, t, true, State(), before, EncodeItem(l, vs[i]));
        before := Then(before, EncodeItem(l, vs[i]));
      }
      ok := true;
    }
  }

  lemma NothingThen(a: Option<Bytes>)
    ensures Then(Some([]), a) == a && Then(a, Some([])) == a
  {
    if a.Some? {
      assert [] + a.value == a.value && a.value + [] == a.value;
    }
  }

  lemma ThenAssociates(a: Option<Bytes>, b: Option<Bytes>, c: Option<Bytes>)
    ensures Then(Then(a, b), c) == Then(a, Then(b, c))
  {
    if a.Some? && b.Some? && c.Some? {
      assert a.value + b.value + c.value == a.value + (b.value + c.value);
    }
  }

  lemma FailedAfter(s: Sink, t: Sink, u: Sink, a: Option<Bytes>, b: Option<Bytes>, c: Option<Bytes>)
    requires Wrote(s, true, t, a) && Wrote(t, false, u, b)
    ensures Wrote(s, false, u, Then(a, Then(b, c)))
  {
  }

  /** Items of fixed width need no counting pass. */
  lemma {:induction false} FixedSize(l: LType, vs: seq<Value>)
    ensures l.Fixed32? || l.Fixed64? ==> EncodeItems(l, vs).Some?
    ensures l.Fixed32? ==> |EncodeItems(l, vs).value| == 4 * |vs|
    ensures l.Fixed64? ==> |EncodeItems(l, vs).value| == 8 * |vs|
  {
    if vs != [] { FixedSize(l, vs[1..]); }
  }

  /** The last byte without its continuation bit. */
  function ClearTop(b: Bytes): Bytes
    requires b != []
  {
    b[..|b| - 1] + [b[|b| - 1] % 128]
  }

  // ---- Sizing and writing ----

  /** pb_get_encoded_size. */
  method GetEncodedSize(d: Desc, m: Msg) returns (ok: bool, size: nat)
    ensures ok <==> Encode(d, m).Some?
    ensures ok ==> size == |Encode(d, m).value|
  {
    var stream := new OStream(true, 0, []);
    ok := stream.EncodeMessage(d, m);
    size := stream.written;
  }

  /** pb_encode into a buffer: it succeeds exactly when the counted size fits, and no submessage changes its size. */
  method EncodeToBuffer(d: Desc, m: Msg, bufsize: nat) returns (ok: bool, out: Bytes, error: Option<Error>)
    ensures ok <==> Encode(d, m).Some? && |Encode(d, m).value| <= bufsize
    ensures ok ==> out == Encode(d, m).value
    ensures error != Some(SizeChanged)
  {
    var stream := new OStream(false, bufsize, []);
    ok := stream.EncodeMessage(d, m);
    out, error := stream.out, stream.error;
    assert ok ==> [] + Encode(d, m).value == out;
  }

  /** pb_encode_delimited. */
  method EncodeDelimited(d: Desc, m: Msg, bufsize: nat) returns (ok: bool, out: Bytes)
    ensures ok <==> Encode(d, m).Some? && |LengthPrefixed(Encode(d, m).value)| <= bufsize
    ensures ok ==> out == LengthPrefixed(Encode(d, m).value)
  {
    var stream := new OStream(false, bufsize, []);
    ok := stream.EncodeSubmessage(d, m);
    out := stream.out;
    assert ok ==> [] + LengthPrefixed(Encode(d, m).value) == out;
  }

  // ---- When encoding succeeds ----

  /** Byte arrays and arrays that are sent are not over their capacity. */
  predicate HasRoom(l: LType, v: Value)
    decreases l
  {
    match (l, v)
    case (BytesArray(c), Blob(b)) => |b| <= c
    case (Submessage(g), Sub(m)) => RoomFrom(g, m, 0)
    case _ => true
  }

  predicate SlotHasRoom(f: Field, s: Slot)
    decreases f
  {
    match s
    case Plain(v) => (f.htype.Singular? && IsZero(f.ltype, v)) || HasRoom(f.ltype, v)
    case Has(has, v) => !has || HasRoom(f.ltype, v)
    case Items(vs) => (f.htype.Repeated? ==> |vs| <= f.htype.arraySize) && forall k | 0 <= k < |vs| :: HasRoom(f.ltype, vs[k])
    case Which(Some(c)) => c.tag != f.tag || HasRoom(f.ltype, c.v)
    case Which(None) => true
  }

  predicate RoomFrom(d: Desc, m: Msg, i: nat)
    decreases d, |d.fields| - i
  {
    i < |d.fields| ==> SlotOf(d, i) < |m| && SlotHasRoom(d.fields[i], m[SlotOf(d, i)]) && RoomFrom(d, m, i + 1)
  }

  lemma ItemEncodes(l: LType, v: Value)
    requires Fits(l, v)
    ensures EncodeItem(l, v).Some? <==> HasRoom(l, v)
    decreases l, 0
  {
    if l.Submessage? { EncodesFrom(l.desc, v.m, 0); }
  }

  lemma {:induction false} RunEncodes(l: LType, vs: seq<Value>)
    requires Packable(l) && forall k | 0 <= k < |vs| :: Fits(l, vs[k])
    ensures EncodeItems(l, vs).Some?
    decreases l, 1, |vs|
  {
    if vs != [] {
      ItemEncodes(l, vs[0]);
      RunEncodes(l, vs[1..]);
    }
  }

  lemma {:induction false} EachEncodes(f: Field, vs: seq<Value>)
    requires forall k | 0 <= k < |vs| :: Fits(f.ltype, vs[k])
    ensures EncodeEach(f, vs).Some? <==> forall k | 0 <= k < |vs| :: HasRoom(f.ltype, vs[k])
    decreases f, |vs|
  {
    if vs != [] {
      ItemEncodes(f.ltype, vs[0]);
      EachEncodes(f, vs[1..]);
      assert forall k | 1 <= k < |vs| :: vs[k] == vs[1..][k - 1];
    }
  }

  lemma SlotEncodes(d: Desc, i: nat, s: Slot)
    requires i < |d.fields| && SlotShaped(d, i, s)
    ensures EncodeSlot(d.fields[i], s).Some? <==> SlotHasRoom(d.fields[i], s)
    decreases d, 0
  {
    var f := d.fields[i];
    match s
    case Plain(v) => ItemEncodes(f.ltype, v);
    case Has(_, v) => ItemEncodes(f.ltype, v);
    case Items(vs) =>
      EachEncodes(f, vs);
      if Packable(f.ltype) { RunEncodes(f.ltype, vs); }
    case Which(Some(c)) => if c.tag == f.tag { ItemEncodes(f.ltype, c.v); }
    case Which(None) =>
  }

  /** Encoding fails exactly when an array or a byte array that is sent is over its capacity. */
  lemma {:induction false} EncodesFrom(d: Desc, m: Msg, i: nat)
    requires Shaped(d, m) && i <= |d.fields|
    ensures EncodeFrom(d, m, i).Some? <==> RoomFrom(d, m, i)
    decreases d, 1, |d.fields| - i
  {
    if i < |d.fields| {
      SlotEncodes(d, i, m[SlotOf(d, i)]);
      EncodesFrom(d, m, i + 1);
    }
  }
}
