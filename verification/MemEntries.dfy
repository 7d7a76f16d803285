/** Internal keys and memtable entries as bytes (db/dbformat.h, db/dbformat.cc, db/memtable.cc). */
module MemEntries {
  import opened Options
  import opened Coding
  import opened Comparators

  const TYPE_DELETION: nat := 0
  const TYPE_VALUE: nat := 1

  // ---- Internal keys ----

  /** AppendInternalKey: the user key, then sequence and type in eight bytes. */
  function KeyBytes(k: InternalKey): Bytes {
    k.user + EncodeFixed64(k.tag)
  }

  function ExtractUserKey(b: Bytes): Bytes
    requires |b| >= 8
  {
    b[..|b| - 8]
  }

  function ExtractTag(b: Bytes): U64
    requires |b| >= 8
  {
    DecodeFixed64(b[|b| - 8..])
  }

  /** InternalKeyComparator::Compare on encoded keys: negative, zero or positive. */
  function Compare(a: Bytes, b: Bytes): int
    requires |a| >= 8 && |b| >= 8
  {
    if Less(ExtractUserKey(a), ExtractUserKey(b)) then -1
    else if ExtractUserKey(a) != ExtractUserKey(b) then 1
    else if ExtractTag(a) > ExtractTag(b) then -1
    else if ExtractTag(a) < ExtractTag(b) then 1
    else 0
  }

  lemma KeyRoundTrip(k: InternalKey)
    ensures |KeyBytes(k)| == |k.user| + 8
    ensures ExtractUserKey(KeyBytes(k)) == k.user && ExtractTag(KeyBytes(k)) == k.tag
  {
    var tag := EncodeFixed64(k.tag);
    Fixed64RoundTrip(k.tag, []);
    assert KeyBytes(k)[|k.user|..] == tag + [] && KeyBytes(k)[..|k.user|] == k.user;
  }

  /** Comparing encoded keys compares the keys: user keys ascending, then sequence numbers descending. */
  lemma CompareIsOrder(a: InternalKey, b: InternalKey)
    ensures |KeyBytes(a)| >= 8 && |KeyBytes(b)| >= 8
    ensures Compare(KeyBytes(a), KeyBytes(b)) < 0 <==> InternalLess(a, b)
    ensures Compare(KeyBytes(a), KeyBytes(b)) == 0 <==> a == b
  {
    KeyRoundTrip(a);
    KeyRoundTrip(b);
    Irreflexive(a.user);
  }

  /** ParseInternalKey: None when too short or of an unknown type. */
  function ParseInternalKey(b: Bytes): Option<(Bytes, nat, nat)> {
    if |b| < 8 || ExtractTag(b) % 256 > TYPE_VALUE then None
    else Some((ExtractUserKey(b), ExtractTag(b) / 256, ExtractTag(b) % 256))
  }

  lemma ParseRoundTrip(user: Bytes, sequence: nat, t: nat)
    requires sequence <= MAX_SEQUENCE && t <= 255
    ensures ParseInternalKey(KeyBytes(InternalKey(user, PackSequenceAndType(sequence, t)))) ==
      if t <= TYPE_VALUE then Some((user, sequence, t)) else None
  {
    KeyRoundTrip(InternalKey(user, PackSequenceAndType(sequence, t)));
  }

  // ---- Memtable entries ----

  /** One write as the memtable keeps it; None is a deletion. */
  datatype Record = Record(user: Bytes, sequence: nat, value: Option<Bytes>)

  predicate Storable(r: Record) {
    && r.sequence <= MAX_SEQUENCE && |r.user| + 8 < TWO_32
    && (r.value.Some? ==> |r.value.value| < TWO_32)
  }

  function KeyOf(r: Record): InternalKey
    requires r.sequence <= MAX_SEQUENCE
  {
    InternalKey(r.user, PackSequenceAndType(r.sequence, if r.value.Some? then TYPE_VALUE else TYPE_DELETION))
  }

  /** LookupKey: the largest type sorts first among the entries of one sequence number. */
  function LookupKey(user: Bytes, s: nat): InternalKey
    requires s <= MAX_SEQUENCE
  {
    InternalKey(user, PackSequenceAndType(s, TYPE_FOR_SEEK))
  }

  /** The entry MemTable::Add builds; a deletion comes with an empty value. */
  function EntryBytes(r: Record): Bytes
    requires r.sequence <= MAX_SEQUENCE
  {
    LengthPrefixed(KeyBytes(KeyOf(r))) + LengthPrefixed(if r.value.Some? then r.value.value else [])
  }

  /** MemTable::Add, up to the insertion into the skip list: the buffer is filled to its last byte. */
  method BuildEntry(sequence: nat, t: nat, key: Bytes, value: Bytes) returns (buf: Bytes, encodedLength: nat)
    requires sequence <= MAX_SEQUENCE && t <= TYPE_VALUE && |key| + 8 < TWO_32 && |value| < TWO_32
    requires t == TYPE_DELETION ==> value == []
    ensures buf == EntryBytes(Record(key, sequence, if t == TYPE_VALUE then Some(value) else None))
    ensures |buf| == encodedLength
  {
    var internalKeySize := |key| + 8;
    var keyLength := VarintLength(internalKeySize);
    var valueLength := VarintLength(|value|);
    encodedLength := keyLength + internalKeySize + valueLength + |value|;
    EncodeVarint32IsVarint(internalKeySize);
    EncodeVarint32IsVarint(|value|);
    buf := EncodeVarint32(internalKeySize);
    buf := buf + key;
    buf := buf + EncodeFixed64(sequence * 256 + t);
    buf := buf + EncodeVarint32(|value|);
    buf := buf + value;
    ghost var tag := EncodeFixed64(sequence * 256 + t);
    Regroup(Varint(internalKeySize), key, tag, Varint(|value|), value);
  }

  lemma Regroup(a: Bytes, b: Bytes, c: Bytes, d: Bytes, e: Bytes)
    ensures a + b + c + d + e == a + (b + c) + (d + e)
  {
  }

  /** The internal key and the value of an entry. */
  lemma EntryReads(r: Record)
    requires Storable(r)
    ensures Unprefix(EntryBytes(r)) ==
      Some((KeyBytes(KeyOf(r)), LengthPrefixed(if r.value.Some? then r.value.value else [])))
    ensures r.value.Some? ==> Unprefix(LengthPrefixed(r.value.value)) == Some((r.value.value, []))
  {
    KeyRoundTrip(KeyOf(r));
    var v := LengthPrefixed(if r.value.Some? then r.value.value else []);
    PrefixRoundTrip(KeyBytes(KeyOf(r)), v);
    if r.value.Some? {
      PrefixRoundTrip(r.value.value, []);
      assert LengthPrefixed(r.value.value) + [] == LengthPrefixed(r.value.value);
    }
  }

  // ---- Lookup ----

  predicate AllStorable(rs: seq<Record>) {
    forall i | 0 <= i < |rs| :: Storable(rs[i])
  }

  function Entries(rs: seq<Record>): (es: seq<Bytes>)
    requires AllStorable(rs)
    ensures |es| == |rs| && forall i | 0 <= i < |rs| :: es[i] == EntryBytes(rs[i])
  {
    seq(|rs|, i requires 0 <= i < |rs| => EntryBytes(rs[i]))
  }

  ghost predicate SortedRecords(rs: seq<Record>) {
    && AllStorable(rs)
    && forall i, j | 0 <= i < j < |rs| :: InternalLess(KeyOf(rs[i]), KeyOf(rs[j]))
  }

  /** The list's order: the keys in front of the entries. */
  predicate EntryBefore(entry: Bytes, key: Bytes)
    requires |key| >= 8
  {
    match Unprefix(entry)
    case Some((k, _)) => |k| >= 8 && Compare(k, key) < 0
    case None => false
  }

  /** Where the list's Seek stops: the first entry that is not before the key. */
  function SeekEntry(es: seq<Bytes>, key: Bytes): (i: nat)
    requires |key| >= 8
    ensures i <= |es| && (i < |es| ==> !EntryBefore(es[i], key))
    ensures forall j | 0 <= j < i :: EntryBefore(es[j], key)
  {
    if es == [] || !EntryBefore(es[0], key) then 0 else 1 + SeekEntry(es[1..], key)
  }

  datatype Lookup = Found(value: Bytes) | Deleted | Absent

  /** MemTable::Get. */
  method Get(es: seq<Bytes>, user: Bytes, s: nat) returns (r: Lookup)
    requires s <= MAX_SEQUENCE
    ensures r == Reading(es, user, s)
  {
    KeyRoundTrip(LookupKey(user, s));
    var at := SeekEntry(es, KeyBytes(LookupKey(user, s)));
    r := Absent;
    if at < |es| {
      var front := GetLengthPrefixedSlice(es[at]);
      if front.Some? && |front.value.0| >= 8 && ExtractUserKey(front.value.0) == user {
        var t := ExtractTag(front.value.0) % 256;
        if t == TYPE_VALUE {
          var v := GetLengthPrefixedSlice(front.value.1);
          if v.Some? { r := Found(v.value.0); }
        } else if t == TYPE_DELETION {
          r := Deleted;
        }
      }
    }
  }

  function Reading(es: seq<Bytes>, user: Bytes, s: nat): Lookup
    requires s <= MAX_SEQUENCE
  {
    KeyRoundTrip(LookupKey(user, s));
    var at := SeekEntry(es, KeyBytes(LookupKey(user, s)));
    if at >= |es| then Absent else ReadEntry(es[at], user)
  }

  /** What a lookup of the user key makes of the entry it stops at. */
  function ReadEntry(entry: Bytes, user: Bytes): Lookup {
    match Unprefix(entry)
    case None => Absent
    case Some((k, rest)) =>
      if |k| < 8 || ExtractUserKey(k) != user then Absent
      else if ExtractTag(k) % 256 == TYPE_VALUE then (match Unprefix(rest) case Some((v, _)) => Found(v) case None => Absent)
      else if ExtractTag(k) % 256 == TYPE_DELETION then Deleted
      else Absent
  }

  lemma EntryIsRead(r: Record, user: Bytes)
    requires Storable(r)
    ensures ReadEntry(EntryBytes(r), user) ==
      if r.user != user then Absent else if r.value.Some? then Found(r.value.value) else Deleted
  {
    EntryReads(r);
    KeyRoundTrip(KeyOf(r));
    assert KeyOf(r).tag % 256 == if r.value.Some? then TYPE_VALUE else TYPE_DELETION;
  }

  predicate Visible(r: Record, user: Bytes, s: nat) {
    r.user == user && r.sequence <= s
  }

  /** Record i is the newest of the user key's at or below s. */
  ghost predicate Newest(rs: seq<Record>, i: nat, user: Bytes, s: nat)
    requires i < |rs|
  {
    Visible(rs[i], user, s) && forall j | 0 <= j < |rs| && Visible(rs[j], user, s) :: rs[j].sequence <= rs[i].sequence
  }

  lemma BeforeIsOrder(r: Record, user: Bytes, s: nat)
    requires Storable(r) && s <= MAX_SEQUENCE
    ensures |KeyBytes(LookupKey(user, s))| >= 8
    ensures EntryBefore(EntryBytes(r), KeyBytes(LookupKey(user, s))) <==> InternalLess(KeyOf(r), LookupKey(user, s))
  {
    EntryReads(r);
    CompareIsOrder(KeyOf(r), LookupKey(user, s));
  }

  /** A visible record is never before the lookup key, and at the place of the key a record of that user key is visible. */
  lemma LookupOrder(r: Record, user: Bytes, s: nat)
    requires Storable(r) && s <= MAX_SEQUENCE
    ensures Visible(r, user, s) ==> !InternalLess(KeyOf(r), LookupKey(user, s))
    ensures r.user == user && !InternalLess(KeyOf(r), LookupKey(user, s)) ==> r.sequence <= s
  {
    Irreflexive(user);
  }

  lemma OneUserKey(rs: seq<Record>, i: nat, j: nat, user: Bytes, s: nat)
    requires SortedRecords(rs) && i <= j < |rs| && Storable(rs[i]) && rs[j].user == user && s <= MAX_SEQUENCE
    requires !InternalLess(KeyOf(rs[i]), LookupKey(user, s))
    ensures rs[i].user == user && rs[j].sequence <= rs[i].sequence
  {
    Irreflexive(user);
    if i < j {
      assert InternalLess(KeyOf(rs[i]), KeyOf(rs[j]));
      Total(rs[i].user, user);
    }
  }

  /** Where Seek stops: no visible record lies before it, and none after it is newer. */
  lemma SeekStops(rs: seq<Record>, user: Bytes, s: nat, at: nat, j: nat)
    requires SortedRecords(rs) && s <= MAX_SEQUENCE && j < |rs| && Visible(rs[j], user, s)
    requires |KeyBytes(LookupKey(user, s))| >= 8 && at == SeekEntry(Entries(rs), KeyBytes(LookupKey(user, s)))
    ensures at <= j && rs[at].user == user && rs[j].sequence <= rs[at].sequence
  {
    var es, key := Entries(rs), KeyBytes(LookupKey(user, s));
    assert Storable(rs[j]);
    BeforeIsOrder(rs[j], user, s);
    LookupOrder(rs[j], user, s);
    assert !EntryBefore(es[j], key);
    assert Storable(rs[at]);
    BeforeIsOrder(rs[at], user, s);
    OneUserKey(rs, at, j, user, s);
  }

  lemma StopIsVisible(rs: seq<Record>, user: Bytes, s: nat, at: nat)
    requires AllStorable(rs) && s <= MAX_SEQUENCE && at < |rs| && rs[at].user == user
    requires |KeyBytes(LookupKey(user, s))| >= 8 && at == SeekEntry(Entries(rs), KeyBytes(LookupKey(user, s)))
    ensures Visible(rs[at], user, s)
  {
    assert Storable(rs[at]);
    BeforeIsOrder(rs[at], user, s);
    LookupOrder(rs[at], user, s);
  }

  /** What the entry that Seek stops at is read as. */
  lemma StopReads(rs: seq<Record>, user: Bytes, s: nat, at: nat)
    requires AllStorable(rs) && s <= MAX_SEQUENCE && at < |rs|
    requires |KeyBytes(LookupKey(user, s))| >= 8 && at == SeekEntry(Entries(rs), KeyBytes(LookupKey(user, s)))
    ensures Reading(Entries(rs), user, s) ==
      if rs[at].user != user then Absent else if rs[at].value.Some? then Found(rs[at].value.value) else Deleted
  {
    assert Storable(rs[at]);
    EntryIsRead(rs[at], user);
  }

  /** Get returns the newest visible write of the user key, and nothing exactly when there is none. */
  lemma GetIsNewest(rs: seq<Record>, user: Bytes, s: nat)
    requires SortedRecords(rs) && s <= MAX_SEQUENCE
    ensures match Reading(Entries(rs), user, s)
      case Found(v) => exists i | 0 <= i < |rs| :: Newest(rs, i, user, s) && rs[i].value == Some(v)
      case Deleted => exists i | 0 <= i < |rs| :: Newest(rs, i, user, s) && rs[i].value == None
      case Absent => forall i | 0 <= i < |rs| :: !Visible(rs[i], user, s)
  {
    KeyRoundTrip(LookupKey(user, s));
    var at := SeekEntry(Entries(rs), KeyBytes(LookupKey(user, s)));
    forall j | 0 <= j < |rs| && Visible(rs[j], user, s) ensures at <= j && rs[at].user == user && rs[j].sequence <= rs[at].sequence {
      SeekStops(rs, user, s, at, j);
    }
    if at < |rs| {
      StopReads(rs, user, s, at);
      if rs[at].user == user {
        StopIsVisible(rs, user, s, at);
        assert Newest(rs, at, user, s);
      }
    }
  }
}
