/**
 nanopb's decoder (pb_decode.c), specified on values: what a message becomes when bytes are read into a
 structure that holds defaults. Fields come in any order and any number of times, unknown ones are
 skipped, integers are cut to the width of their field or refused, packed and unpacked arrays are both
 accepted, and every required field must have been seen at the end.
 */
module PbDecode {
  import opened Options
  import opened Coding
  import opened PbCommon
  import opened PbEncode

  // ---- Varints of 32 bits ----

  /** Bitwise or. */
  function Or(a: nat, b: nat): nat {
    if a == 0 && b == 0 then 0 else (if a % 2 + b % 2 > 0 then 1 else 0) + 2 * Or(a / 2, b / 2)
  }

  function Shl(v: nat, p: nat): nat {
    if p == 0 then v else 2 * Shl(v, p - 1)
  }

  /**
   pb_decode_varint32: five groups of bits; more bytes may only extend the sign of a negative number or add nothing.
   The bit position is a uint_fast8_t of 8 bits.
   */
  function Varint32(input: Bytes): (r: Option<(U32, Bytes)>)
    ensures r.Some? ==> |r.value.1| < |input|
  {
    if input == [] then None
    else if input[0] < 128 then Some((input[0], input[1..]))
    else Varint32More(input[1..], input[0] - 128, 7)
  }

  function Varint32More(input: Bytes, result: U32, bitpos: nat): (r: Option<(U32, Bytes)>)
    ensures r.Some? ==> |r.value.1| < |input|
  {
    if input == [] then None
    else
      match Group(input[0], result, bitpos)
      case Some(value) => if input[0] >= 128 then Varint32More(input[1..], value, (bitpos + 7) % 256) else Some((value, input[1..]))
      case None => None
  }

  /** One more byte of a varint: the value with its bits in place, unless they do not fit. */
  function Group(byte: Byte, result: U32, bitpos: nat): Option<U32> {
    if bitpos >= 32 then
      var sign := if bitpos < 63 then 0xFF else 0x01;
      if byte % 128 != 0 && (result < 0x8000_0000 || byte != sign) then None else Some(result)
    else if bitpos == 28 && 16 <= byte < 128 then None
    else Some(Or(result, Shl(byte % 128, bitpos) % TWO_32) % TWO_32)
  }

  // ---- Streams ----

  /** pb_make_string_substream: the substream, and what follows it. */
  function Substream(input: Bytes): (r: Option<(Bytes, Bytes)>)
    ensures r.Some? ==> |r.value.0| + |r.value.1| < |input|
  {
    match Varint32(input)
    case Some((size, rest)) => if size <= |rest| then Some((rest[..size], rest[size..])) else None
    case None => None
  }

  function Skip(input: Bytes, n: nat): Option<Bytes> {
    if n <= |input| then Some(input[n..]) else None
  }

  function SkipVarint(input: Bytes): (r: Option<Bytes>)
    ensures r.Some? ==> |r.value| <= |input|
  {
    if input == [] then None else if input[0] < 128 then Some(input[1..]) else SkipVarint(input[1..])
  }

  /** pb_skip_field. */
  function SkipField(wireType: nat, input: Bytes): (r: Option<Bytes>)
    ensures r.Some? ==> |r.value| <= |input|
  {
    if wireType == WT_VARINT then SkipVarint(input)
    else if wireType == WT_64BIT then Skip(input, 8)
    else if wireType == WT_STRING then (match Varint32(input) case Some((size, rest)) => Skip(rest, size) case None => None)
    else if wireType == WT_32BIT then Skip(input, 4)
    else None
  }

  // ---- Items ----

  function Signed32(u: nat): int {
    if u >= TWO_32 / 2 then u - TWO_32 else u
  }

  /** The number, unless a field of this width cannot hold it. */
  function Narrow(n: int, lo: int, hi: int, rest: Bytes): (r: Option<(Value, Bytes)>)
    ensures r.Some? ==> r.value.1 == rest
  {
    if lo <= n < hi then Some((Num(n), rest)) else None
  }

  /** pb_dec_varint, pb_dec_uvarint, pb_dec_svarint: negative numbers of at most 32 bits are accepted without sign extension. */
  function DecodeInt(l: LType, u: U64, rest: Bytes): (r: Option<(Value, Bytes)>)
    ensures r.Some? ==> r.value.1 == rest
  {
    match l
    case VarInt(w) =>
      if IsWidth(w) then Narrow(if w == 8 then Signed64(u) else Signed32(u % TWO_32), 0 - Half(w), Half(w), rest) else None
    case UVarInt(w) => if IsWidth(w) then Narrow(u, 0, 2 * Half(w), rest) else None
    case SVarInt(w) => if IsWidth(w) then Narrow(UnZigZag(u), 0 - Half(w), Half(w), rest) else None
    case _ => None
  }

  /** The characters before the first NUL. */
  function UpToNul(b: Bytes): Bytes {
    if b == [] || b[0] == 0 then [] else [b[0]] + UpToNul(b[1..])
  }

  /** pb_dec_bytes, pb_dec_string, pb_dec_fixed_length_bytes, after the length. */
  function DecodeBlob(l: LType, size: U32, rest: Bytes): (r: Option<(Value, Bytes)>)
    ensures r.Some? ==> |r.value.1| <= |rest|
  {
    match l
    case BytesArray(c) => if size <= c && size <= |rest| then Some((Blob(rest[..size]), rest[size..])) else None
    case CString(c) => if size + 1 <= c && size <= |rest| then Some((Blob(UpToNul(rest[..size])), rest[size..])) else None
    case FixedBytes(k) =>
      if size == 0 then Some((Blob(Zeros(k)), rest))
      else if size == k && size <= |rest| then Some((Blob(rest[..size]), rest[size..]))
      else None
    case _ => None
  }

  function DecodeNumber(l: LType, input: Bytes): (r: Option<(Value, Bytes)>)
    ensures r.Some? ==> |r.value.1| < |input|
  {
    match Unvarint(input, 10)
    case Some((v, len)) => if 0 < len <= |input| then DecodeInt(l, v % TWO_64, input[len..]) else None
    case None => None
  }

  function DecodeString(l: LType, input: Bytes): (r: Option<(Value, Bytes)>)
    ensures r.Some? ==> |r.value.1| < |input|
  {
    match Varint32(input)
    case Some((size, rest)) => DecodeBlob(l, size, rest)
    case None => None
  }

  /** One of the PB_DECODERS; a submessage is read on top of what is there, which in an array or a union is its defaults. */
  function DecodeItem(f: Field, input: Bytes, there: Value): (r: Option<(Value, Bytes)>)
    ensures r.Some? ==> |r.value.1| < |input|
    decreases f, |input|, 0
  {
    match f.ltype
    case Bool => (match Varint32(input) case Some((u, rest)) => Some((Num(if u != 0 then 1 else 0), rest)) case None => None)
    case Fixed32 => if |input| >= 4 then Some((Num(DecodeFixed32(input)), input[4..])) else None
    case Fixed64 => if |input| >= 8 then Some((Num(DecodeFixed64(input)), input[8..])) else None
    case Submessage(g) =>
      (match Substream(input)
       case Some((body, rest)) =>
         var base := if f.htype.Repeated? || f.htype.OneOf? || !there.Sub? then Defaults(g) else there.m;
         (match DecodeFields(g, body, base, {}) case Some(m) => Some((Sub(m), rest)) case None => None)
       case None => None)
    case BytesArray(_) => DecodeString(f.ltype, input)
    case CString(_) => DecodeString(f.ltype, input)
    case FixedBytes(_) => DecodeString(f.ltype, input)
    case _ => DecodeNumber(f.ltype, input)
  }

  // ---- Fields ----

  /** The packed array of decode_static_field: items until the substream ends, or the array is full. */
  function DecodePacked(f: Field, arraySize: nat, body: Bytes, items: seq<Value>): Option<seq<Value>>
    decreases f, |body|, 1
  {
    if body == [] then Some(items)
    else if |items| >= arraySize then None
    else
      match DecodeItem(f, body, Num(0))
      case Some((v, rest)) => DecodePacked(f, arraySize, rest, items + [v])
      case None => None
  }

  /** decode_static_field. */
  function DecodeSlot(f: Field, wireType: nat, input: Bytes, s: Slot): (r: Option<(Slot, Bytes)>)
    ensures r.Some? ==> |r.value.1| < |input|
    decreases f, |input|, 2
  {
    match (f.htype, s)
    case (Repeated(n), Items(items)) =>
      if wireType == WT_STRING && Packable(f.ltype) then
        (match Substream(input)
         case Some((body, rest)) =>
           (match DecodePacked(f, n, body, items) case Some(vs) => Some((Items(vs), rest)) case None => None)
         case None => None)
      else if |items| >= n then None
      else
        (match DecodeItem(f, input, Num(0)) case Some((v, rest)) => Some((Items(items + [v]), rest)) case None => None)
    case (Required, Plain(v)) => (match DecodeItem(f, input, v) case Some((w, rest)) => Some((Plain(w), rest)) case None => None)
    case (Singular, Plain(v)) => (match DecodeItem(f, input, v) case Some((w, rest)) => Some((Plain(w), rest)) case None => None)
    case (Optional, Has(_, v)) => (match DecodeItem(f, input, v) case Some((w, rest)) => Some((Has(true, w), rest)) case None => None)
    case (OneOf(_), Which(_)) =>
      (match DecodeItem(f, input, Num(0)) case Some((w, rest)) => Some((Which(Some(Chosen(f.tag, w))), rest)) case None => None)
    case _ => None
  }

  // ---- Messages ----

  /** The first field with the tag at or after i, if any. */
  function IndexOf(d: Desc, tag: nat, i: nat): (r: Option<nat>)
    ensures r.Some? ==> i <= r.value < |d.fields| && d.fields[r.value].tag == tag
    decreases |d.fields| - i
  {
    if i >= |d.fields| then None else if d.fields[i].tag == tag then Some(i) else IndexOf(d, tag, i + 1)
  }

  lemma {:induction false} IndexIsUnique(d: Desc, i: nat, j: nat)
    requires UniqueTags(d) && j <= i < |d.fields|
    ensures IndexOf(d, d.fields[i].tag, j) == Some(i)
    decreases i - j
  {
    if j < i { IndexIsUnique(d, i, j + 1); }
  }

  const MAX_REQUIRED_FIELDS: nat := 64

  /** The bit that is set when field i is seen. */
  function SeenBit(d: Desc, i: nat): set<nat>
    requires i < |d.fields|
  {
    if d.fields[i].htype.Required? && RequiredBefore(d, i) < MAX_REQUIRED_FIELDS then {RequiredBefore(d, i)} else {}
  }

  /** The first 64 required fields are all there. */
  predicate AllSeen(d: Desc, seen: set<nat>) {
    forall k | 0 <= k < MAX_REQUIRED_FIELDS && k < RequiredBefore(d, |d.fields|) :: k in seen
  }

  /** What one round of pb_decode_noinit comes to. */
  datatype Progress = Failed | Stopped | More(left: Bytes, m: Msg, seen: set<nat>)

  function Pass(d: Desc, input: Bytes, m: Msg, seen: set<nat>): (r: Progress)
    ensures r.More? ==> |r.left| < |input|
    decreases d, |input|, 3
  {
    match Varint32(input)
    case None => Failed
    case Some((temp, rest)) =>
      if temp == 0 then Stopped
      else
        match IndexOf(d, temp / 8, 0)
        case None => (match SkipField(temp % 8, rest) case Some(after) => More(after, m, seen) case None => Failed)
        case Some(i) =>
          if SlotOf(d, i) >= |m| then Failed
          else
            match DecodeSlot(d.fields[i], temp % 8, rest, m[SlotOf(d, i)])
            case Some((s, after)) => More(after, m[SlotOf(d, i) := s], seen + SeenBit(d, i))
            case None => Failed
  }

  /** pb_decode_noinit. */
  function DecodeFields(d: Desc, input: Bytes, m: Msg, seen: set<nat>): Option<Msg>
    decreases d, |input|, 4
  {
    if input == [] then Finished(d, m, seen)
    else
      match Pass(d, input, m, seen)
      case Failed => None
      case Stopped => Finished(d, m, seen)
      case More(after, r, s) => DecodeFields(d, after, r, s)
  }

  function Finished(d: Desc, m: Msg, seen: set<nat>): Option<Msg> {
    if AllSeen(d, seen) then Some(m) else None
  }

  /** pb_decode. */
  function Decode(d: Desc, input: Bytes): Option<Msg> {
    DecodeFields(d, input, Defaults(d), {})
  }
}
