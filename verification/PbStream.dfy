/** nanopb's decoder as it runs (pb_decode.c): streams, loops, and the record of required fields. */
module PbStream {
  import opened Options
  import opened Coding
  import opened PbCommon
  import opened PbEncode
  import opened PbDecode

  // ---- The required-field record ----

  /** fields_seen: the words of the record as one run of bits. */
  type Bits64 = s: seq<bool> | |s| == 64 witness seq(64, i => false)

  /** The bits that are set are those of the fields seen, all of which the message has. */
  ghost predicate Records(bits: Bits64, seen: set<nat>, count: nat) {
    forall k | 0 <= k < 64 :: bits[k] == (k in seen) && (bits[k] ==> k < count)
  }

  /** allbits >> (32 - n): the lowest n bits of a word. */
  function LowOnes(n: nat): seq<bool> {
    seq(32, i => i < n)
  }

  /** The check for missing required fields: whole words, then the bits that are left. */
  method CheckRequired(bits: Bits64, required: nat) returns (ok: bool)
    requires forall k | 0 <= k < 64 :: bits[k] ==> k < required
    ensures ok <==> forall k | 0 <= k < 64 && k < required :: bits[k]
  {
    var count := if required > MAX_REQUIRED_FIELDS then MAX_REQUIRED_FIELDS else required;
    ok := true;
    var i := 0;
    while i < count / 32
      invariant 0 <= i <= count / 32 && (ok <==> forall k | 0 <= k < 32 * i :: bits[k])
    {
      var word := bits[32 * i..32 * i + 32];
      ghost var before := ok;
      WordIsFull(bits, i);
      ok := ok && word == LowOnes(32);
      i := i + 1;
    }
    if count % 32 != 0 {
      WordIsLow(bits, i, count);
      ok := ok && bits[32 * i..32 * i + 32] == LowOnes(count % 32);
    }
  }

  lemma WordIsFull(bits: Bits64, i: nat)
    requires i < 2
    ensures bits[32 * i..32 * i + 32] == LowOnes(32) <==> forall k | 32 * i <= k < 32 * (i + 1) :: bits[k]
  {
    var word := bits[32 * i..32 * i + 32];
    forall k | 32 * i <= k < 32 * (i + 1) ensures bits[k] == word[k - 32 * i] {}
    assert forall k | 0 <= k < 32 :: LowOnes(32)[k] && word[k] == bits[32 * i + k];
  }

  lemma WordIsLow(bits: Bits64, i: nat, count: nat)
    requires i < 2 && 32 * i < count < 32 * (i + 1)
    requires forall k | 0 <= k < 64 :: bits[k] ==> k < count
    ensures bits[32 * i..32 * i + 32] == LowOnes(count - 32 * i) <==> forall k | 32 * i <= k < count :: bits[k]
  {
    var word := bits[32 * i..32 * i + 32];
    var ones := LowOnes(count - 32 * i);
    forall k | 0 <= k < 32 ensures ones[k] == (k < count - 32 * i) && word[k] == bits[32 * i + k] {}
    forall k | 32 * i <= k < count ensures bits[k] == word[k - 32 * i] && ones[k - 32 * i] {}
  }

  /** The number of required fields, found by running the iterator to the end of the descriptor. */
  method CountRequired(iter: FieldIter) returns (count: nat)
    requires iter.Valid()
    modifies iter
    ensures iter.Valid() && count == RequiredBefore(iter.d, |iter.d.fields|)
  {
    if iter.d.fields == [] { return 0; }
    ghost var pos := iter.pos;
    var lastRequired := iter.d.fields[iter.pos].htype.Required?;
    count := iter.requiredIndex;
    var more := iter.Next();
    while more
      invariant iter.Valid() && pos < |iter.d.fields| && more == (pos + 1 < |iter.d.fields|) && iter.pos == if more then pos + 1 else 0
      invariant lastRequired == iter.d.fields[pos].htype.Required? && count == RequiredBefore(iter.d, pos)
      decreases |iter.d.fields| - pos
    {
      pos := iter.pos;
      lastRequired, count := iter.d.fields[iter.pos].htype.Required?, iter.requiredIndex;
      more := iter.Next();
    }
    if lastRequired { count := count + 1; }
  }

  lemma {:induction false} RequiredGrows(d: Desc, i: nat, j: nat)
    requires i < j <= |d.fields|
    ensures RequiredBefore(d, i) + (if d.fields[i].htype.Required? then 1 else 0) <= RequiredBefore(d, j)
    decreases j
  {
    if i < j - 1 { RequiredGrows(d, i, j - 1); }
  }

  /** Set the bit of a required field that is being read, when there is one. */
  method MarkSeen(d: Desc, i: nat, requiredIndex: nat, bits: Bits64, ghost seen: set<nat>) returns (r: Bits64)
    requires i < |d.fields| && requiredIndex == RequiredBefore(d, i)
    requires Records(bits, seen, RequiredBefore(d, |d.fields|))
    ensures Records(r, seen + SeenBit(d, i), RequiredBefore(d, |d.fields|))
  {
    r := bits;
    if d.fields[i].htype.Required? && requiredIndex < MAX_REQUIRED_FIELDS {
      RequiredGrows(d, i, |d.fields|);
      r := r[requiredIndex := true];
    }
  }

  // ---- Input streams ----

  /** What a read reports agrees with the specification of the read. */
  ghost predicate Reads<T(!new)>(spec: Option<(T, Bytes)>, ok: bool, v: T, left: Bytes) {
    ok == spec.Some? && (ok ==> spec.value == (v, left))
  }

  /** One byte of the loop of pb_decode_varint. */
  lemma GroupRead(input: Bytes, result: nat, p: nat, byte: Byte)
    requires p < 10 && p < |input| && byte == input[p]
    requires Unvarint(input, 10) == Add(result, p, Unvarint(input[p..], 10 - p))
    ensures byte >= 128 ==>
      Unvarint(input, 10) == Add(result + Shifted(byte % 128, p), p + 1, Unvarint(input[p + 1..], 10 - p - 1))
    ensures byte < 128 ==> Unvarint(input, 10) == Some((result + Shifted(byte % 128, p), p + 1))
  {
    var tail := input[p + 1..];
    assert input[p..] == [byte] + tail && ([byte] + tail)[1..] == tail;
    if byte >= 128 { AddStep(result, p, byte, Unvarint(tail, 10 - p - 1)); }
  }

  class IStream {
    var left: Bytes

    constructor (left: Bytes)
      ensures this.left == left
    {
      this.left := left;
    }

    /** pb_readbyte. */
    method ReadByte() returns (ok: bool, byte: Byte)
      modifies this
      ensures ok == (old(left) != [])
      ensures ok ==> byte == old(left)[0] && left == old(left)[1..]
      ensures !ok ==> left == []
    {
      if left == [] { return false, 0; }
      ok, byte, left := true, left[0], left[1..];
    }

    /** pb_read. */
    method Read(count: nat) returns (ok: bool, bytes: Bytes)
      modifies this
      ensures ok == (count <= |old(left)|)
      ensures ok ==> bytes == old(left)[..count] && left == old(left)[count..]
      ensures !ok ==> left == old(left)
    {
      if |left| < count { return false, []; }
      ok, bytes, left := true, left[..count], left[count..];
    }

    /** pb_decode_varint32. */
    method DecodeVarint32() returns (ok: bool, value: U32)
      modifies this
      ensures Reads(Varint32(old(left)), ok, value, left)
    {
      value := 0;
      var byte;
      ok, byte := ReadByte();
      if !ok { return; }
      if byte < 128 { return true, byte; }
      ghost var spec := Varint32(old(left));
      var bitpos: nat := 7;
      value := byte - 128;
      while byte >= 128
        invariant spec == if byte >= 128 then Varint32More(left, value, bitpos) else Some((value, left))
        decreases byte >= 128, |left|
      {
        ok, byte := ReadByte();
        if !ok { return; }
        var next := Group(byte, value, bitpos);
        if next.None? { return false, 0; }
        value, bitpos := next.value, (bitpos + 7) % 256;
      }
    }

    /** pb_decode_varint; the value is cut to 64 bits. */
    method DecodeVarint() returns (ok: bool, value: U64)
      modifies this
      ensures match Unvarint(old(left), 10)
        case Some(r) => ok && r.1 <= |old(left)| && value == r.0 % TWO_64 && left == old(left)[r.1..]
        case None => !ok
    {
      ghost var input := left;
      var result: nat, p: nat := 0, 0;
      UnvarintLength(input, 10);
      value, ok := 0, true;
      assert input[0..] == input;
      var byte := 128;
      while byte >= 128
        invariant p <= 10 && p <= |input|
        invariant byte >= 128 ==> left == input[p..] && Unvarint(input, 10) == Add(result, p, Unvarint(input[p..], 10 - p))
        invariant byte < 128 ==> left == input[p..] && Unvarint(input, 10) == Some((result, p))
        decreases byte >= 128, |input| - p
      {
        if p >= 10 { return false, 0; }
        ok, byte := ReadByte();
        if !ok { return; }
        GroupRead(input, result, p, byte);
        result, p := result + Shifted(byte % 128, p), p + 1;
      }
      value := result % TWO_64;
    }

    /** pb_make_string_substream. */
    method MakeSubstream() returns (ok: bool, body: Bytes)
      modifies this
      ensures Reads(Substream(old(left)), ok, body, left)
    {
      var size;
      body := [];
      ok, size := DecodeVarint32();
      if !ok { return; }
      ok, body := Read(size);
    }

    /** pb_skip_varint. */
    method SkipVarintBytes() returns (ok: bool)
      modifies this
      ensures ok == SkipVarint(old(left)).Some? && (ok ==> left == SkipVarint(old(left)).value)
    {
      ghost var spec := SkipVarint(left);
      var byte := 128;
      ok := true;
      while byte >= 128
        invariant spec == if byte >= 128 then SkipVarint(left) else Some(left)
        decreases byte >= 128, |left|
      {
        ok, byte := ReadByte();
        if !ok { return; }
      }
    }

    /** pb_skip_field. */
    method SkipUnknown(wireType: nat) returns (ok: bool)
      modifies this
      ensures ok == SkipField(wireType, old(left)).Some? && (ok ==> left == SkipField(wireType, old(left)).value)
    {
      var n := 0;
      if wireType == WT_VARINT {
        ok := SkipVarintBytes();
        return;
      } else if wireType == WT_64BIT {
        n := 8;
      } else if wireType == WT_STRING {
        ok, n := DecodeVarint32();
        if !ok { return; }
      } else if wireType == WT_32BIT {
        n := 4;
      } else {
        return false;
      }
      var skipped;
      ok, skipped := Read(n);
    }

    /** pb_dec_varint, pb_dec_uvarint, pb_dec_svarint. */
    method DecodeInteger(l: LType) returns (ok: bool, v: Value)
      modifies this
      ensures Reads(DecodeNumber(l, old(left)), ok, v, left)
    {
      var u;
      v := Num(0);
      UnvarintLength(left, 10);
      ok, u := DecodeVarint();
      if !ok { return; }
      match DecodeInt(l, u, left)
      case Some((n, _)) => v := n;
      case None => ok := false;
    }

    /** pb_dec_bytes, pb_dec_string, pb_dec_fixed_length_bytes. */
    method DecodeBytes(l: LType) returns (ok: bool, v: Value)
      requires l.BytesArray? || l.CString? || l.FixedBytes?
      modifies this
      ensures Reads(DecodeString(l, old(left)), ok, v, left)
    {
      var size, b;
      v := Num(0);
      ok, size := DecodeVarint32();
      if !ok { return; }
      if l.FixedBytes? && size == 0 {
        return true, Blob(Zeros(l.length));
      }
      ok := if l.BytesArray? then size <= l.capacity else if l.CString? then size + 1 <= l.capacity else size == l.length;
      if !ok { return; }
      ok, b := Read(size);
      v := Blob(if l.CString? then UpToNul(b) else b);
    }

    /** One of the PB_DECODERS. */
    method DecodeOne(f: Field, there: Value) returns (ok: bool, v: Value)
      requires LTypeOk(f.ltype)
      modifies this
      ensures Reads(DecodeItem(f, old(left), there), ok, v, left)
      decreases f, |left|, 1
    {
      v := Num(0);
      match f.ltype
      case Bool =>
        var u;
        ok, u := DecodeVarint32();
        v := Num(if u != 0 then 1 else 0);
      case Fixed32 =>
        var b;
        ok, b := Read(4);
        if ok {
          assert b[..4] == old(left)[..4];
          v := Num(DecodeFixed32(b));
        }
      case Fixed64 =>
        var b;
        ok, b := Read(8);
        if ok {
          assert b[..8] == old(left)[..8];
          v := Num(DecodeFixed64(b));
        }
      case Submessage(g) =>
        ok, v := DecodeSubmessage(f, there);
      case BytesArray(_) =>
        ok, v := DecodeBytes(f.ltype);
      case CString(_) =>
        ok, v := DecodeBytes(f.ltype);
      case FixedBytes(_) =>
        ok, v := DecodeBytes(f.ltype);
      case _ =>
        ok, v := DecodeInteger(f.ltype);
    }

    /** pb_dec_submessage, with the defaults that decode_static_field sets in a union. */
    method DecodeSubmessage(f: Field, there: Value) returns (ok: bool, v: Value)
      requires f.ltype.Submessage? && LTypeOk(f.ltype)
      modifies this
      ensures Reads(DecodeItem(f, old(left), there), ok, v, left)
      decreases f, |left|, 0
    {
      var g, body, m := f.ltype.desc, [], [];
      v := there;
      ok, body := MakeSubstream();
      if !ok { return; }
      var substream := new IStream(body);
      var base := if f.htype.Repeated? || f.htype.OneOf? || !there.Sub? then Defaults(g) else there.m;
      ok, m := substream.DecodeMessage(g, base);
      v := Sub(m);
    }

    /** The items of a packed array, from a substream. */
    method DecodeRun(f: Field, arraySize: nat, items: seq<Value>) returns (ok: bool, vs: seq<Value>)
      requires LTypeOk(f.ltype)
      modifies this
      ensures ok == DecodePacked(f, arraySize, old(left), items).Some?
      ensures ok ==> vs == DecodePacked(f, arraySize, old(left), items).value
      decreases f, |left|, 2
    {
      ghost var spec := DecodePacked(f, arraySize, left, items);
      vs, ok := items, true;
      while left != [] && |vs| < arraySize
        invariant spec == DecodePacked(f, arraySize, left, vs) && |left| <= |old(left)|
        decreases |left|
      {
        var v;
        ok, v := DecodeOne(f, Num(0));
        if !ok { return; }
        vs := vs + [v];
      }
      ok := left == [];
    }

    /** decode_static_field. */
    method DecodeStatic(f: Field, wireType: nat, s: Slot) returns (ok: bool, r: Slot)
      requires LTypeOk(f.ltype)
      modifies this
      ensures Reads(DecodeSlot(f, wireType, old(left), s), ok, r, left)
      decreases f, |left|, 3
    {
      var v;
      r := s;
      match (f.htype, s)
      case (Repeated(n), Items(items)) =>
        if wireType == WT_STRING && Packable(f.ltype) {
          var body, vs := [], items;
          ok, body := MakeSubstream();
          if !ok { return; }
          var substream := new IStream(body);
          ok, vs := substream.DecodeRun(f, n, items);
          r := Items(vs);
        } else if |items| >= n {
          ok := false;
        } else {
          ok, v := DecodeOne(f, Num(0));
          r := Items(items + [v]);
        }
      case (Required, Plain(w)) =>
        ok, v := DecodeOne(f, w);
        r := Plain(v);
      case (Singular, Plain(w)) =>
        ok, v := DecodeOne(f, w);
        r := Plain(v);
      case (Optional, Has(_, w)) =>
        ok, v := DecodeOne(f, w);
        r := Has(true, v);
      case (OneOf(_), Which(_)) =>
        ok, v := DecodeOne(f, Num(0));
        r := Which(Some(Chosen(f.tag, v)));
      case _ =>
        ok := false;
    }

    /** One round of the loop of pb_decode_noinit. */
    method DecodeNext(iter: FieldIter, m: Msg, bits: Bits64, ghost seen: set<nat>)
        returns (ok: bool, stop: bool, r: Msg, recorded: Bits64)
      requires iter.Valid() && WellFormed(iter.d) && left != []
      requires Records(bits, seen, RequiredBefore(iter.d, |iter.d.fields|))
      modifies this, iter
      ensures iter.Valid()
      ensures match Pass(iter.d, old(left), m, seen)
        case Failed => !ok
        case Stopped => ok && stop && r == m && recorded == bits
        case More(after, t, s) =>
          ok && !stop && left == after && r == t && Records(recorded, s, RequiredBefore(iter.d, |iter.d.fields|))
      decreases iter.d, |left|, 4
    {
      stop, r, recorded := false, m, bits;
      var temp;
      ok, temp := DecodeVarint32();
      if !ok { return; }
      if temp == 0 {
        stop := true;
        return;
      }
      var found := iter.Find(temp / 8);
      FindsIndex(iter.d, temp / 8, found, iter.pos);
      if !found {
        ok := SkipUnknown(temp % 8);
        return;
      }
      ok, r, recorded := DecodeFound(iter, temp % 8, m, bits, seen);
    }

    /** The field at the iterator: mark it as seen, and decode it into its slot. */
    method DecodeFound(iter: FieldIter, wireType: nat, m: Msg, bits: Bits64, ghost seen: set<nat>)
        returns (ok: bool, r: Msg, recorded: Bits64)
      requires iter.Valid() && WellFormed(iter.d) && iter.pos < |iter.d.fields|
      requires Records(bits, seen, RequiredBefore(iter.d, |iter.d.fields|))
      modifies this
      ensures SlotOf(iter.d, iter.pos) >= |m| ==> !ok
      ensures SlotOf(iter.d, iter.pos) < |m| ==>
        match DecodeSlot(iter.d.fields[iter.pos], wireType, old(left), m[SlotOf(iter.d, iter.pos)])
        case Some(read) =>
          && ok && left == read.1 && r == m[SlotOf(iter.d, iter.pos) := read.0]
          && Records(recorded, seen + SeenBit(iter.d, iter.pos), RequiredBefore(iter.d, |iter.d.fields|))
        case None => !ok
      decreases iter.d, |left|, 4
    {
      var s;
      r := m;
      assert FieldOk(iter.d, iter.pos);
      recorded := MarkSeen(iter.d, iter.pos, iter.requiredIndex, bits, seen);
      if iter.slot >= |m| { return false, m, bits; }
      ok, s := DecodeStatic(iter.d.fields[iter.pos], wireType, m[iter.slot]);
      r := m[iter.slot := s];
    }

    /** pb_decode_noinit. */
    method DecodeMessage(d: Desc, dest: Msg) returns (ok: bool, m: Msg)
      requires WellFormed(d)
      modifies this
      ensures ok == DecodeFields(d, old(left), dest, {}).Some?
      ensures ok ==> m == DecodeFields(d, old(left), dest, {}).value
      decreases d, |left|, 5
    {
      ghost var spec := DecodeFields(d, left, dest, {});
      ghost var seen: set<nat> := {};
      m := dest;
      var bits: Bits64 := seq(64, i => false);
      var iter := new FieldIter(d);
      var stop := false;
      while !stop && left != []
        invariant iter.Valid() && iter.d == d && fresh(iter) && (!stop ==> |left| <= |old(left)|)
        invariant Records(bits, seen, RequiredBefore(d, |d.fields|))
        invariant spec == if stop then Finished(d, m, seen) else DecodeFields(d, left, m, seen)
        decreases !stop, |left|
      {
        ghost var progress := Pass(d, left, m, seen);
        ok, stop, m, bits := DecodeNext(iter, m, bits, seen);
        if !ok { return; }
        seen := if progress.More? then progress.seen else seen;
      }
      var required := CountRequired(iter);
      ok := CheckRequired(bits, required);
    }
  }

  lemma FindsIndex(d: Desc, tag: nat, found: bool, i: nat)
    requires UniqueTags(d) && found == exists k | 0 <= k < |d.fields| :: d.fields[k].tag == tag
    requires found ==> i < |d.fields| && d.fields[i].tag == tag
    ensures IndexOf(d, tag, 0) == if found then Some(i) else None
  {
    if found { IndexIsUnique(d, i, 0); }
  }

  /** pb_decode from a buffer. */
  method DecodeBuffer(d: Desc, input: Bytes) returns (ok: bool, m: Msg)
    requires WellFormed(d)
    ensures ok == Decode(d, input).Some?
    ensures ok ==> m == Decode(d, input).value
  {
    var stream := new IStream(input);
    ok, m := stream.DecodeMessage(d, Defaults(d));
  }
}
