/**
 Message descriptors, the structures they describe, and the cyclic field iterator
 (nanopb: pb.h, pb_common.c). Sizes are those of a build with 32-bit pb_size_t.
 */
module PbCommon {
  import opened Options
  import opened Coding

  // ---- Descriptors ----

  /** PB_LTYPE: how one item is stored and written. Widths and capacities come from data_size. */
  datatype LType =
    | Bool
    | VarInt(width: nat)
    | UVarInt(width: nat)
    | SVarInt(width: nat)
    | Fixed32
    | Fixed64
    | BytesArray(capacity: U32)
    | CString(capacity: U32)
    | FixedBytes(length: U32)
    | Submessage(desc: Desc)

  /** PB_HTYPE; an optional field without a has_ flag is a proto3 singular one; `joined` members share the union before them. */
  datatype HType = Required | Optional | Singular | Repeated(arraySize: U32) | OneOf(joined: bool)

  datatype Field = Field(tag: U32, ltype: LType, htype: HType, default: Value)

  datatype Desc = Desc(fields: seq<Field>)

  /** PB_LTYPE_LAST_PACKABLE and below. */
  predicate Packable(l: LType) {
    !l.BytesArray? && !l.CString? && !l.FixedBytes? && !l.Submessage?
  }

  // ---- Structures ----

  /** One item: a number, the contents of a byte array or the characters of a string before its NUL, or a submessage. */
  datatype Value = Num(n: int) | Blob(b: Bytes) | Sub(m: Msg)

  datatype Chosen = Chosen(tag: nat, v: Value)

  /** A struct member with its has_, _count or which_ companion. An unset union has no contents; an unset optional field has. */
  datatype Slot = Plain(v: Value) | Has(has: bool, v: Value) | Items(items: seq<Value>) | Which(choice: Option<Chosen>)

  type Msg = seq<Slot>

  /** The struct member that field i lives in: members of one union share theirs (pb_field_iter_next). */
  function SlotOf(d: Desc, i: nat): nat
    requires i < |d.fields|
  {
    if i == 0 then 0
    else if d.fields[i - 1].htype.OneOf? && d.fields[i].htype.OneOf? && d.fields[i].htype.joined then SlotOf(d, i - 1)
    else SlotOf(d, i - 1) + 1
  }

  function SlotCount(d: Desc): nat {
    if d.fields == [] then 0 else SlotOf(d, |d.fields| - 1) + 1
  }

  lemma {:induction false} SlotBound(d: Desc, i: nat, j: nat)
    requires i <= j < |d.fields|
    ensures SlotOf(d, i) <= SlotOf(d, j) < SlotCount(d)
    ensures SlotOf(d, i) == SlotOf(d, j) && i < j ==> d.fields[i].htype.OneOf? && d.fields[j].htype.OneOf?
    decreases |d.fields| - i, j - i
  {
    if i < j {
      SlotBound(d, i + 1, j);
    } else if j + 1 < |d.fields| {
      SlotBound(d, j + 1, |d.fields| - 1);
    }
  }

  // ---- Well-formed descriptors ----

  predicate IsWidth(w: nat) {
    w == 1 || w == 2 || w == 4 || w == 8
  }

  predicate UniqueTags(d: Desc) {
    forall i, j | 0 <= i < j < |d.fields| :: d.fields[i].tag != d.fields[j].tag
  }

  /** What the generator emits: distinct tags of 29 bits, whole integer widths, proto3 fields that default to zero. */
  ghost predicate WellFormed(d: Desc) {
    && UniqueTags(d)
    && forall i | 0 <= i < |d.fields| :: FieldOk(d, i)
  }

  ghost predicate FieldOk(d: Desc, i: nat)
    requires i < |d.fields|
    decreases d, 0
  {
    var f := d.fields[i];
    && 0 < f.tag < 0x2000_0000
    && (match f.ltype
        case Submessage(g) => WellFormed(g)
        case _ => Fits(f.ltype, f.default))
    && (f.htype.Singular? && !f.ltype.Submessage? ==> f.default == Zero(f.ltype))
  }

  ghost predicate LTypeOk(l: LType) {
    l.Submessage? ==> WellFormed(l.desc)
  }

  /** The value is one that a C object of this type can hold; a string may lack its NUL. */
  ghost predicate Fits(l: LType, v: Value)
    decreases l
  {
    match (l, v)
    case (Bool, Num(n)) => n == 0 || n == 1
    case (VarInt(w), Num(n)) => IsWidth(w) && 0 - Half(w) <= n < Half(w)
    case (UVarInt(w), Num(n)) => IsWidth(w) && 0 <= n < 2 * Half(w)
    case (SVarInt(w), Num(n)) => IsWidth(w) && 0 - Half(w) <= n < Half(w)
    case (Fixed32, Num(n)) => 0 <= n < TWO_32
    case (Fixed64, Num(n)) => 0 <= n < TWO_64
    case (BytesArray(_), Blob(_)) => true
    case (CString(c), Blob(b)) => |b| <= c && 0 !in b
    case (FixedBytes(k), Blob(b)) => |b| == k
    case (Submessage(g), Sub(m)) => Shaped(g, m)
    case _ => false
  }

  /** Half the range of an integer of w bytes. */
  function Half(w: nat): nat {
    if w == 1 then 0x80 else if w == 2 then 0x8000 else if w == 4 then 0x8000_0000 else 0x8000_0000_0000_0000
  }

  /** The zero bytes of a scalar or of an array. */
  function Zero(l: LType): Value {
    match l
    case BytesArray(_) => Blob([])
    case CString(_) => Blob([])
    case FixedBytes(k) => Blob(Zeros(k))
    case _ => Num(0)
  }

  function Zeros(k: nat): (r: Bytes)
    ensures |r| == k
  {
    if k == 0 then [] else [0] + Zeros(k - 1)
  }

  /** The structure has the layout that the descriptor gives. */
  ghost predicate Shaped(d: Desc, m: Msg)
    decreases d
  {
    && |m| == SlotCount(d)
    && forall i | 0 <= i < |d.fields| :: SlotOf(d, i) < |m| && SlotShaped(d, i, m[SlotOf(d, i)])
  }

  /** A which_ value names a member of its own union, or is zero. */
  ghost predicate SlotShaped(d: Desc, i: nat, s: Slot)
    requires i < |d.fields|
    decreases d, 0
  {
    var f := d.fields[i];
    match (f.htype, s)
    case (Required, Plain(v)) => Fits(f.ltype, v)
    case (Singular, Plain(v)) => Fits(f.ltype, v)
    case (Optional, Has(_, v)) => Fits(f.ltype, v)
    case (Repeated(_), Items(vs)) => forall k | 0 <= k < |vs| :: Fits(f.ltype, vs[k])
    case (OneOf(_), Which(None)) => true
    case (OneOf(_), Which(Some(c))) =>
      && (c.tag == f.tag ==> Fits(f.ltype, c.v))
      && exists j | 0 <= j < |d.fields| :: d.fields[j].tag == c.tag && SlotOf(d, j) == SlotOf(d, i)
    case _ => false
  }

  // ---- Defaults (pb_message_set_to_defaults) ----

  function DefaultValue(f: Field): Value
    decreases f, 0
  {
    match f.ltype
    case Submessage(g) => Sub(Defaults(g))
    case _ => f.default
  }

  function DefaultSlot(f: Field): Slot
    decreases f, 1
  {
    match f.htype
    case Required => Plain(DefaultValue(f))
    case Singular => Plain(DefaultValue(f))
    case Optional => Has(false, DefaultValue(f))
    case Repeated(_) => Items([])
    case OneOf(_) => Which(None)
  }

  /** The members of the first n fields, each set to its default. */
  function DefaultsTo(d: Desc, n: nat): (m: Msg)
    requires n <= |d.fields|
    ensures |m| == if n == 0 then 0 else SlotOf(d, n - 1) + 1
    decreases d, n
  {
    if n == 0 then []
    else
      var before := DefaultsTo(d, n - 1);
      if n > 1 && SlotOf(d, n - 1) == SlotOf(d, n - 2) then before else before + [DefaultSlot(d.fields[n - 1])]
  }

  function Defaults(d: Desc): (m: Msg)
    ensures |m| == SlotCount(d)
  {
    DefaultsTo(d, |d.fields|)
  }

  lemma {:induction false} DefaultAt(d: Desc, i: nat, n: nat)
    requires i < n <= |d.fields|
    ensures SlotOf(d, i) < |DefaultsTo(d, n)| && DefaultsTo(d, n)[SlotOf(d, i)] == DefaultSlot(d.fields[i])
    decreases n
  {
    if i < n - 1 {
      DefaultAt(d, i, n - 1);
    } else if n > 1 {
      DefaultAt(d, n - 2, n - 1);
    }
  }

  // ---- The iterator ----

  /** How many of the first i fields are required. */
  function RequiredBefore(d: Desc, i: nat): nat
    requires i <= |d.fields|
  {
    if i == 0 then 0 else RequiredBefore(d, i - 1) + if d.fields[i - 1].htype.Required? then 1 else 0
  }

  /** pb_field_iter_t: the field, its struct member, and its number among the required fields. */
  class FieldIter {
    const d: Desc
    var pos: nat
    var slot: nat
    var requiredIndex: nat

    ghost predicate Valid()
      reads this
    {
      && (pos < |d.fields| || pos == 0)
      && slot == (if d.fields == [] then 0 else SlotOf(d, pos))
      && requiredIndex == RequiredBefore(d, pos)
    }

    /** pb_field_iter_begin. */
    constructor (d: Desc)
      ensures Valid() && this.d == d && pos == 0
    {
      this.d, pos, slot, requiredIndex := d, 0, 0, 0;
    }

    /** pb_field_iter_next: the following field, or back to the first one. */
    method Next() returns (more: bool)
      requires Valid()
      modifies this
      ensures Valid() && more == (old(pos) + 1 < |d.fields|) && pos == if more then old(pos) + 1 else 0
    {
      if d.fields == [] { return false; }
      var prev := d.fields[pos];
      if pos + 1 == |d.fields| {
        pos, slot, requiredIndex := 0, 0, 0;
        return false;
      }
      pos := pos + 1;
      if prev.htype.OneOf? && d.fields[pos].htype.OneOf? && d.fields[pos].htype.joined {
        return true;
      }
      slot := slot + 1;
      if prev.htype.Required? { requiredIndex := requiredIndex + 1; }
      more := true;
    }

    /** pb_field_iter_find: from the present field round to it again. */
    method Find(tag: nat) returns (found: bool)
      requires Valid()
      modifies this
      ensures Valid() && found == exists i | 0 <= i < |d.fields| :: d.fields[i].tag == tag
      ensures found ==> pos < |d.fields| && d.fields[pos].tag == tag
    {
      if d.fields == [] { return false; }
      var start := pos;
      ghost var steps := 0;
      var first := true;
      while first || pos != start
        invariant Valid() && (first ==> pos == start && steps == 0)
        invariant 0 <= steps <= |d.fields| && (!first ==> 0 < steps)
        invariant pos == if start + steps < |d.fields| then start + steps else start + steps - |d.fields|
        invariant forall i | start <= i < start + steps && i < |d.fields| :: d.fields[i].tag != tag
        invariant forall i | 0 <= i < start + steps - |d.fields| :: d.fields[i].tag != tag
        decreases |d.fields| - steps
      {
        if d.fields[pos].tag == tag { return true; }
        var _ := Next();
        first, steps := false, steps + 1;
      }
      found := false;
    }
  }
}
