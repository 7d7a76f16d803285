/**
 Version edits as manifest records (db/version_edit.h, db/version_edit.cc): tagged fields, one after the
 other, in an order that the encoder fixes and the decoder does not rely on. An edit is encoded as the
 list of its fields; decoding reads fields as long as there are any and applies them one by one, so that
 what came before an error has already taken effect.
 */
module VersionEdits {
  import opened Options
  import opened Coding
  import opened Versions

  const COMPARATOR: U32 := 1
  const LOG_NUMBER: U32 := 2
  const NEXT_FILE_NUMBER: U32 := 3
  const LAST_SEQUENCE: U32 := 4
  const COMPACT_POINTER: U32 := 5
  const DELETED_FILE: U32 := 6
  const NEW_FILE: U32 := 7
  const PREV_LOG_NUMBER: U32 := 9

  datatype FileMetaData = FileMetaData(number: U64, size: U64, smallest: Bytes, largest: Bytes)

  datatype Field =
    | Comparator(name: Bytes)
    | Number(tag: U32, number: U64)
    | CompactPointer(level: nat, key: Bytes)
    | DeletedFile(level: nat, file: U64)
    | NewFile(level: nat, meta: FileMetaData)
  {
    /** What the record format can hold. */
    predicate Valid() {
      match this
      case Comparator(name) => |name| < TWO_32
      case Number(tag, _) => tag == LOG_NUMBER || tag == PREV_LOG_NUMBER || tag == NEXT_FILE_NUMBER || tag == LAST_SEQUENCE
      case CompactPointer(level, key) => level < NUM_LEVELS && |key| < TWO_32
      case DeletedFile(level, _) => level < NUM_LEVELS
      case NewFile(level, meta) => level < NUM_LEVELS && |meta.smallest| < TWO_32 && |meta.largest| < TWO_32
    }

    function Encode(): Bytes {
      match this
      case Comparator(name) => Varint(COMPARATOR) + LengthPrefixed(name)
      case Number(tag, number) => Varint(tag) + Varint(number)
      case CompactPointer(level, key) => Varint(COMPACT_POINTER) + (Varint(level) + LengthPrefixed(key))
      case DeletedFile(level, file) => Varint(DELETED_FILE) + (Varint(level) + Varint(file))
      case NewFile(level, meta) => Varint(NEW_FILE) + NewFileBody(level, meta)
    }
  }

  function NewFileBody(level: nat, m: FileMetaData): Bytes {
    Varint(level) + (Varint(m.number) + (Varint(m.size) + (LengthPrefixed(m.smallest) + LengthPrefixed(m.largest))))
  }

  // ---- Reading one field ----

  /** GetLevel. */
  function ReadLevel(input: Bytes): (r: Option<(nat, Bytes)>)
    ensures r.Some? ==> |r.value.1| <= |input|
  {
    match ReadVarint32(input)
    case Some((v, rest)) => if v < NUM_LEVELS then Some((v, rest)) else None
    case None => None
  }

  function ReadNewFile(input: Bytes): (r: Option<(Field, Bytes)>)
    ensures r.Some? ==> |r.value.1| <= |input|
  {
    match ReadLevel(input)
    case None => None
    case Some((level, a)) => match ReadVarint64(a)
      case None => None
      case Some((number, b)) => match ReadVarint64(b)
        case None => None
        case Some((size, c)) => match Unprefix(c)
          case None => None
          case Some((smallest, d)) => match Unprefix(d)
            case None => None
            case Some((largest, e)) => Some((NewFile(level, FileMetaData(number, size, smallest, largest)), e))
  }

  function ReadCompactPointer(input: Bytes): (r: Option<(Field, Bytes)>)
    ensures r.Some? ==> |r.value.1| <= |input|
  {
    match ReadLevel(input)
    case None => None
    case Some((level, a)) => match Unprefix(a)
      case None => None
      case Some((key, b)) => Some((CompactPointer(level, key), b))
  }

  function ReadDeletedFile(input: Bytes): (r: Option<(Field, Bytes)>)
    ensures r.Some? ==> |r.value.1| <= |input|
  {
    match ReadLevel(input)
    case None => None
    case Some((level, a)) => match ReadVarint64(a)
      case None => None
      case Some((file, b)) => Some((DeletedFile(level, file), b))
  }

  /** What follows a tag. */
  function ReadBody(tag: U32, input: Bytes): (r: Option<(Field, Bytes)>)
    ensures r.Some? ==> |r.value.1| <= |input|
  {
    if tag == COMPARATOR then
      match Unprefix(input) case Some((name, rest)) => Some((Comparator(name), rest)) case None => None
    else if tag == LOG_NUMBER || tag == PREV_LOG_NUMBER || tag == NEXT_FILE_NUMBER || tag == LAST_SEQUENCE then
      match ReadVarint64(input) case Some((n, rest)) => Some((Number(tag, n), rest)) case None => None
    else if tag == COMPACT_POINTER then ReadCompactPointer(input)
    else if tag == DELETED_FILE then ReadDeletedFile(input)
    else if tag == NEW_FILE then ReadNewFile(input)
    else None
  }

  /** The fields at the front, and whether they are all there is. */
  function ReadFields(input: Bytes): (seq<Field>, bool)
    decreases |input|
  {
    match ReadVarint32(input)
    case None => ([], input == [])
    case Some((tag, body)) =>
      match ReadBody(tag, body)
      case None => ([], false)
      case Some((f, rest)) =>
        UnvarintLength(input, 5);
        var (fs, ok) := ReadFields(rest);
        ([f] + fs, ok)
  }

  function EncodeFields(fs: seq<Field>): Bytes {
    if fs == [] then [] else fs[0].Encode() + EncodeFields(fs[1..])
  }

  // ---- Round trip of the fields ----

  lemma LevelReads(level: nat, rest: Bytes)
    requires level < NUM_LEVELS
    ensures ReadLevel(Varint(level) + rest) == Some((level, rest))
  {
    Varint32Reads(level, rest);
  }

  lemma Assoc(a: Bytes, b: Bytes, c: Bytes)
    ensures a + b + c == a + (b + c)
  {
  }

  lemma NewFileReads(level: nat, m: FileMetaData, rest: Bytes)
    requires NewFile(level, m).Valid()
    ensures ReadNewFile(NewFileBody(level, m) + rest) == Some((NewFile(level, m), rest))
  {
    var d := LengthPrefixed(m.largest);
    var c := LengthPrefixed(m.smallest) + d;
    var b := Varint(m.size) + c;
    Assoc(Varint(level), Varint(m.number) + b, rest);
    Assoc(Varint(m.number), b, rest);
    Assoc(Varint(m.size), c, rest);
    Assoc(LengthPrefixed(m.smallest), d, rest);
    LevelReads(level, Varint(m.number) + b + rest);
    Varint64Reads(m.number, b + rest);
    Varint64Reads(m.size, c + rest);
    PrefixRoundTrip(m.smallest, d + rest);
    PrefixRoundTrip(m.largest, rest);
  }

  lemma TaggedReads(tag: U32, body: Bytes, f: Field, rest: Bytes)
    requires ReadBody(tag, body) == Some((f, rest))
    ensures ReadFields(Varint(tag) + body) == (var (fs, ok) := ReadFields(rest); ([f] + fs, ok))
  {
    Varint32Reads(tag, body);
  }

  lemma FieldReads(f: Field, rest: Bytes)
    requires f.Valid()
    ensures ReadFields(f.Encode() + rest) == (var (fs, ok) := ReadFields(rest); ([f] + fs, ok))
  {
    match f {
      case Comparator(name) =>
        PrefixRoundTrip(name, rest);
        Assoc(Varint(COMPARATOR), LengthPrefixed(name), rest);
        TaggedReads(COMPARATOR, LengthPrefixed(name) + rest, f, rest);
      case Number(tag, number) =>
        Varint64Reads(number, rest);
        Assoc(Varint(tag), Varint(number), rest);
        TaggedReads(tag, Varint(number) + rest, f, rest);
      case CompactPointer(level, key) =>
        PointerFieldReads(level, key, rest);
      case DeletedFile(level, file) =>
        LevelReads(level, Varint(file) + rest);
        Varint64Reads(file, rest);
        Assoc(Varint(DELETED_FILE), Varint(level) + Varint(file), rest);
        Assoc(Varint(level), Varint(file), rest);
        TaggedReads(DELETED_FILE, Varint(level) + (Varint(file) + rest), f, rest);
      case NewFile(level, m) =>
        NewFileFieldReads(level, m, rest);
    }
  }

  lemma PointerFieldReads(level: nat, key: Bytes, rest: Bytes)
    requires CompactPointer(level, key).Valid()
    ensures ReadFields(CompactPointer(level, key).Encode() + rest) == (var (fs, ok) := ReadFields(rest); ([CompactPointer(level, key)] + fs, ok))
  {
    LevelReads(level, LengthPrefixed(key) + rest);
    PrefixRoundTrip(key, rest);
    Assoc(Varint(COMPACT_POINTER), Varint(level) + LengthPrefixed(key), rest);
    Assoc(Varint(level), LengthPrefixed(key), rest);
    TaggedReads(COMPACT_POINTER, Varint(level) + (LengthPrefixed(key) + rest), CompactPointer(level, key), rest);
  }

  lemma NewFileFieldReads(level: nat, m: FileMetaData, rest: Bytes)
    requires NewFile(level, m).Valid()
    ensures ReadFields(NewFile(level, m).Encode() + rest) == (var (fs, ok) := ReadFields(rest); ([NewFile(level, m)] + fs, ok))
  {
    NewFileReads(level, m, rest);
    NewFileTagged(NewFileBody(level, m), NewFile(level, m), rest);
  }

  lemma NewFileTagged(body: Bytes, f: Field, rest: Bytes)
    requires ReadNewFile(body + rest) == Some((f, rest))
    ensures ReadFields(Varint(NEW_FILE) + body + rest) == (var (fs, ok) := ReadFields(rest); ([f] + fs, ok))
  {
    Assoc(Varint(NEW_FILE), body, rest);
    TaggedReads(NEW_FILE, body + rest, f, rest);
  }

  lemma {:induction false} FieldsRoundTrip(fs: seq<Field>)
    requires forall f | f in fs :: f.Valid()
    ensures ReadFields(EncodeFields(fs)) == (fs, true)
  {
    if fs != [] {
      FieldsRoundTrip(fs[1..]);
      FieldReads(fs[0], EncodeFields(fs[1..]));
      assert [fs[0]] + fs[1..] == fs;
    }
  }

  // ---- Edits ----

  /** The deleted files are an ordered set of (level, number). */
  datatype EditData = EditData(
    comparator: Option<Bytes>, logNumber: Option<U64>, prevLogNumber: Option<U64>, nextFileNumber: Option<U64>, lastSequence: Option<U64>,
    compactPointers: seq<(nat, Bytes)>, deletedFiles: seq<(nat, U64)>, newFiles: seq<(nat, FileMetaData)>)

  predicate PairLt(a: (nat, U64), b: (nat, U64)) {
    a.0 < b.0 || (a.0 == b.0 && a.1 < b.1)
  }

  predicate AscendingPairs(s: seq<(nat, U64)>) {
    forall i, j | 0 <= i < j < |s| :: PairLt(s[i], s[j])
  }

  function InsertPair(s: seq<(nat, U64)>, p: (nat, U64)): seq<(nat, U64)> {
    if s == [] || PairLt(p, s[0]) then [p] + s
    else if p == s[0] then s
    else [s[0]] + InsertPair(s[1..], p)
  }

  lemma {:induction false} InsertPairIsSet(s: seq<(nat, U64)>, p: (nat, U64))
    requires AscendingPairs(s)
    ensures AscendingPairs(InsertPair(s, p)) && forall q :: q in InsertPair(s, p) <==> q == p || q in s
  {
    if s != [] && !PairLt(p, s[0]) && p != s[0] {
      var r := InsertPair(s[1..], p);
      InsertPairIsSet(s[1..], p);
      assert forall i | 0 <= i < |r| :: r[i] in r;
      assert forall q :: q in s <==> q == s[0] || q in s[1..];
    }
  }

  lemma {:induction false} InsertLast(s: seq<(nat, U64)>, p: (nat, U64))
    requires forall q | q in s :: PairLt(q, p)
    ensures InsertPair(s, p) == s + [p]
  {
    if s != [] {
      assert s[0] in s;
      InsertLast(s[1..], p);
    }
  }

  function Apply(e: EditData, f: Field): EditData {
    match f
    case Comparator(name) => e.(comparator := Some(name))
    case Number(tag, n) =>
      if tag == LOG_NUMBER then e.(logNumber := Some(n))
      else if tag == PREV_LOG_NUMBER then e.(prevLogNumber := Some(n))
      else if tag == NEXT_FILE_NUMBER then e.(nextFileNumber := Some(n))
      else e.(lastSequence := Some(n))
    case CompactPointer(level, key) => e.(compactPointers := e.compactPointers + [(level, key)])
    case DeletedFile(level, file) => e.(deletedFiles := InsertPair(e.deletedFiles, (level, file)))
    case NewFile(level, meta) => e.(newFiles := e.newFiles + [(level, meta)])
  }

  function ApplyAll(e: EditData, fs: seq<Field>): EditData {
    if fs == [] then e else Apply(ApplyAll(e, fs[..|fs| - 1]), fs[|fs| - 1])
  }

  lemma {:induction false} ApplyAllAppend(e: EditData, a: seq<Field>, b: seq<Field>)
    ensures ApplyAll(e, a + b) == ApplyAll(ApplyAll(e, a), b)
  {
    if b == [] {
      assert a + b == a;
    } else {
      assert (a + b)[..|a + b| - 1] == a + b[..|b| - 1];
      ApplyAllAppend(e, a, b[..|b| - 1]);
    }
  }

  /** Clear resets everything but the compaction pointers. */
  function Cleared(e: EditData): EditData {
    EditData(None, None, None, None, None, e.compactPointers, [], [])
  }

  function NumberField(tag: U32, n: Option<U64>): seq<Field> {
    if n.Some? then [Number(tag, n.value)] else []
  }

  function HeadFields(e: EditData): seq<Field> {
    (if e.comparator.Some? then [Comparator(e.comparator.value)] else [])
    + NumberField(LOG_NUMBER, e.logNumber) + NumberField(PREV_LOG_NUMBER, e.prevLogNumber)
    + NumberField(NEXT_FILE_NUMBER, e.nextFileNumber) + NumberField(LAST_SEQUENCE, e.lastSequence)
  }

  function PointerFields(ps: seq<(nat, Bytes)>): seq<Field> {
    if ps == [] then [] else PointerFields(ps[..|ps| - 1]) + [CompactPointer(ps[|ps| - 1].0, ps[|ps| - 1].1)]
  }

  function DeletedFields(ds: seq<(nat, U64)>): seq<Field> {
    if ds == [] then [] else DeletedFields(ds[..|ds| - 1]) + [DeletedFile(ds[|ds| - 1].0, ds[|ds| - 1].1)]
  }

  function NewFields(ns: seq<(nat, FileMetaData)>): seq<Field> {
    if ns == [] then [] else NewFields(ns[..|ns| - 1]) + [NewFile(ns[|ns| - 1].0, ns[|ns| - 1].1)]
  }

  /** The order in which an edit's fields are written. */
  function Fields(e: EditData): seq<Field> {
    HeadFields(e) + PointerFields(e.compactPointers) + DeletedFields(e.deletedFiles) + NewFields(e.newFiles)
  }

  /** Every field starts with its tag in one byte. */
  lemma FieldInNumbers(f: Field)
    requires f.Valid()
    ensures f.Encode() != []
    ensures f.Encode()[0] == match f
      case Comparator(_) => 1
      case Number(tag, _) => tag
      case CompactPointer(_, _) => 5
      case DeletedFile(_, _) => 6
      case NewFile(_, _) => 7
  {
  }

  /** The log number has tag 2, the next file number 3, the last sequence 4, the previous log number 9. */
  lemma NumbersAreTagged(e: EditData)
    ensures forall n: U64 :: Number(2, n) in HeadFields(e) <==> e.logNumber == Some(n)
    ensures forall n: U64 :: Number(3, n) in HeadFields(e) <==> e.nextFileNumber == Some(n)
    ensures forall n: U64 :: Number(4, n) in HeadFields(e) <==> e.lastSequence == Some(n)
    ensures forall n: U64 :: Number(9, n) in HeadFields(e) <==> e.prevLogNumber == Some(n)
    ensures forall tag: U32, n: U64 | Number(tag, n) in HeadFields(e) :: tag == 2 || tag == 3 || tag == 4 || tag == 9
  {
  }

  lemma NumberApplies(e: EditData, fs: seq<Field>, x: EditData, tag: U32, n: Option<U64>)
    requires ApplyAll(e, fs) == x
    ensures ApplyAll(e, fs + NumberField(tag, n)) == if n.Some? then Apply(x, Number(tag, n.value)) else x
  {
    ApplyAllAppend(e, fs, NumberField(tag, n));
    OneField(x, NumberField(tag, n));
  }

  lemma HeadApplies(e: EditData, c: seq<(nat, Bytes)>)
    ensures ApplyAll(EditData(None, None, None, None, None, c, [], []), HeadFields(e)) ==
            EditData(e.comparator, e.logNumber, e.prevLogNumber, e.nextFileNumber, e.lastSequence, c, [], [])
  {
    var e0 := EditData(None, None, None, None, None, c, [], []);
    var f1 := if e.comparator.Some? then [Comparator(e.comparator.value)] else [];
    var (e1, e2) := (e0.(comparator := e.comparator), e0.(comparator := e.comparator, logNumber := e.logNumber));
    var e3 := e2.(prevLogNumber := e.prevLogNumber);
    var e4 := e3.(nextFileNumber := e.nextFileNumber);
    var f2 := f1 + NumberField(LOG_NUMBER, e.logNumber);
    var f3 := f2 + NumberField(PREV_LOG_NUMBER, e.prevLogNumber);
    var f4 := f3 + NumberField(NEXT_FILE_NUMBER, e.nextFileNumber);
    OneField(e0, f1);
    assert ApplyAll(e0, f1) == e1;
    NumberApplies(e0, f1, e1, LOG_NUMBER, e.logNumber);
    assert ApplyAll(e0, f2) == e2;
    NumberApplies(e0, f2, e2, PREV_LOG_NUMBER, e.prevLogNumber);
    assert ApplyAll(e0, f3) == e3;
    NumberApplies(e0, f3, e3, NEXT_FILE_NUMBER, e.nextFileNumber);
    assert ApplyAll(e0, f4) == e4;
    NumberApplies(e0, f4, e4, LAST_SEQUENCE, e.lastSequence);
  }

  lemma OneField(e: EditData, fs: seq<Field>)
    requires |fs| <= 1
    ensures ApplyAll(e, fs) == if fs == [] then e else Apply(e, fs[0])
  {
    if fs != [] { assert fs[..0] == []; }
  }

  lemma {:induction false} PointersApply(e: EditData, ps: seq<(nat, Bytes)>)
    ensures ApplyAll(e, PointerFields(ps)) == e.(compactPointers := e.compactPointers + ps)
  {
    if ps == [] {
      assert e.compactPointers + [] == e.compactPointers;
    } else {
      var (rest, p) := (ps[..|ps| - 1], ps[|ps| - 1]);
      PointersApply(e, rest);
      ApplyAllAppend(e, PointerFields(rest), [CompactPointer(p.0, p.1)]);
      OneField(ApplyAll(e, PointerFields(rest)), [CompactPointer(p.0, p.1)]);
      assert ps == rest + [p] && e.compactPointers + rest + [p] == e.compactPointers + ps;
    }
  }

  lemma {:induction false} DeletedApply(e: EditData, ds: seq<(nat, U64)>)
    requires e.deletedFiles == [] && AscendingPairs(ds)
    ensures ApplyAll(e, DeletedFields(ds)) == e.(deletedFiles := ds)
  {
    if ds != [] {
      var (rest, d) := (ds[..|ds| - 1], ds[|ds| - 1]);
      DeletedApply(e, rest);
      ApplyAllAppend(e, DeletedFields(rest), [DeletedFile(d.0, d.1)]);
      OneField(ApplyAll(e, DeletedFields(rest)), [DeletedFile(d.0, d.1)]);
      InsertLast(rest, d);
      assert ds == rest + [d];
    }
  }

  lemma {:induction false} NewFilesApply(e: EditData, ns: seq<(nat, FileMetaData)>)
    ensures ApplyAll(e, NewFields(ns)) == e.(newFiles := e.newFiles + ns)
  {
    if ns == [] {
      assert e.newFiles + [] == e.newFiles;
    } else {
      var (rest, n) := (ns[..|ns| - 1], ns[|ns| - 1]);
      NewFilesApply(e, rest);
      ApplyAllAppend(e, NewFields(rest), [NewFile(n.0, n.1)]);
      OneField(ApplyAll(e, NewFields(rest)), [NewFile(n.0, n.1)]);
      assert ns == rest + [n] && e.newFiles + rest + [n] == e.newFiles + ns;
    }
  }

  /** An edit's fields, applied to a cleared edit, give it back, behind whatever pointers were there. */
  lemma FieldsApply(e: EditData, was: EditData)
    requires AscendingPairs(e.deletedFiles)
    ensures ApplyAll(Cleared(was), Fields(e)) == e.(compactPointers := was.compactPointers + e.compactPointers)
  {
    var e0 := Cleared(was);
    var (a, b, c, d) := (HeadFields(e), PointerFields(e.compactPointers), DeletedFields(e.deletedFiles), NewFields(e.newFiles));
    ApplyAllAppend(e0, a, b);
    ApplyAllAppend(e0, a + b, c);
    ApplyAllAppend(e0, a + b + c, d);
    HeadApplies(e, was.compactPointers);
    PointersApply(ApplyAll(e0, a), e.compactPointers);
    DeletedApply(ApplyAll(e0, a + b), e.deletedFiles);
    NewFilesApply(ApplyAll(e0, a + b + c), e.newFiles);
    assert [] + e.newFiles == e.newFiles;
  }

  ghost predicate Encodable(e: EditData) {
    AscendingPairs(e.deletedFiles) && forall f | f in Fields(e) :: f.Valid()
  }

  class VersionEdit {
    var data: EditData

    constructor ()
      ensures data == EditData(None, None, None, None, None, [], [], [])
    {
      data := EditData(None, None, None, None, None, [], [], []);
    }

    method Clear()
      modifies this
      ensures data == Cleared(old(data))
    {
      data := EditData(None, None, None, None, None, data.compactPointers, [], []);
    }

    method EncodeTo(dst: Bytes) returns (r: Bytes)
      ensures r == dst + EncodeFields(Fields(data))
    {
      r := AppendFields(dst, Fields(data));
    }

    static method AppendFields(dst: Bytes, fs: seq<Field>) returns (r: Bytes)
      ensures r == dst + EncodeFields(fs)
    {
      r := dst;
      for i := 0 to |fs|
        invariant r == dst + EncodeFields(fs[..i])
      {
        EncodeOneMore(fs, i);
        Assoc(dst, EncodeFields(fs[..i]), fs[i].Encode());
        r := r + fs[i].Encode();
      }
      assert fs[..|fs|] == fs;
    }

    /** Reads fields up to the end or to the first one that is malformed. */
    method DecodeFrom(src: Bytes) returns (ok: bool)
      modifies this
      ensures ok == ReadFields(src).1
      ensures data == ApplyAll(Cleared(old(data)), ReadFields(src).0)
    {
      Clear();
      var input, more := src, true;
      ghost var done: seq<Field> := [];
      NothingRead(src);
      ok := false;
      while more
        invariant data == ApplyAll(Cleared(old(data)), done) && ReadSoFar(src, done, if more then Some(input) else None, ok)
        decreases more, |input|
      {
        var field, rest;
        ok, field, rest := ReadField(input);
        ReadOn(src, done, input, ok, field, rest);
        if field.None? {
          more := false;
        } else {
          OneMoreField(Cleared(old(data)), done, field.value);
          data, input, done := Apply(data, field.value), rest, done + [field.value];
        }
      }
    }

    /** The fields read from the source, and what is left of it, if it is not finished. */
    static ghost predicate ReadSoFar(src: Bytes, done: seq<Field>, input: Option<Bytes>, ok: bool) {
      ReadFields(src) == if input.Some? then (done + ReadFields(input.value).0, ReadFields(input.value).1) else (done, ok)
    }

    static lemma NothingRead(src: Bytes)
      ensures ReadSoFar(src, [], Some(src), false)
    {
      assert [] + ReadFields(src).0 == ReadFields(src).0;
    }

    static lemma ReadOn(src: Bytes, done: seq<Field>, input: Bytes, ok: bool, field: Option<Field>, rest: Bytes)
      requires ReadSoFar(src, done, Some(input), false)
      requires field.None? ==> ReadFields(input) == ([], ok)
      requires field.Some? ==> ReadFields(input) == ([field.value] + ReadFields(rest).0, ReadFields(rest).1)
      ensures field.None? ==> ReadSoFar(src, done, None, ok)
      ensures field.Some? ==> ReadSoFar(src, done + [field.value], Some(rest), ok)
    {
      assert done + [] == done;
      if field.Some? { assert done + ([field.value] + ReadFields(rest).0) == done + [field.value] + ReadFields(rest).0; }
    }

    static lemma OneMoreField(e: EditData, done: seq<Field>, f: Field)
      ensures ApplyAll(e, done + [f]) == Apply(ApplyAll(e, done), f)
    {
      assert (done + [f])[..|done|] == done;
    }

    /** A tag and what it announces; without a field, ok says whether the input simply ended. */
    static method ReadField(input: Bytes) returns (ok: bool, field: Option<Field>, rest: Bytes)
      ensures field.None? ==> ReadFields(input) == ([], ok)
      ensures field.Some? ==> |rest| < |input| && ReadFields(input) == ([field.value] + ReadFields(rest).0, ReadFields(rest).1)
    {
      var more, tag, body := GetVarint32(input);
      UnvarintLength(input, 5);
      assert ReadVarint32(input) == if more then Some((tag, body)) else None;
      ok, field, rest := !more && input == [], None, input;
      if more {
        var r := ReadBody(tag, body);
        if r.Some? {
          field, rest := Some(r.value.0), r.value.1;
        }
      }
    }
  }

  lemma {:induction false} EncodeAppend(fs: seq<Field>, f: Field)
    ensures EncodeFields(fs + [f]) == EncodeFields(fs) + f.Encode()
  {
    if fs == [] {
      assert ([] + [f])[1..] == [];
    } else {
      assert (fs + [f])[1..] == fs[1..] + [f] && (fs + [f])[0] == fs[0];
      EncodeAppend(fs[1..], f);
      Assoc(fs[0].Encode(), EncodeFields(fs[1..]), f.Encode());
    }
  }

  lemma EncodeOneMore(fs: seq<Field>, i: nat)
    requires i < |fs|
    ensures EncodeFields(fs[..i + 1]) == EncodeFields(fs[..i]) + fs[i].Encode()
  {
    assert fs[..i + 1] == fs[..i] + [fs[i]];
    EncodeAppend(fs[..i], fs[i]);
  }

  /** What EncodeTo writes, DecodeFrom reads into any edit, except that the edit keeps its own pointers. */
  method RoundTrip(e: VersionEdit, into: VersionEdit) returns (ok: bool)
    requires Encodable(e.data) && into != e
    modifies into
    ensures ok && into.data == e.data.(compactPointers := old(into.data).compactPointers + e.data.compactPointers)
    ensures old(into.data).compactPointers == [] ==> into.data == e.data
  {
    var record := e.EncodeTo([]);
    assert record == EncodeFields(Fields(e.data));
    FieldsRoundTrip(Fields(e.data));
    FieldsApply(e.data, into.data);
    ok := into.DecodeFrom(record);
    assert [] + e.data.compactPointers == e.data.compactPointers;
  }
}
