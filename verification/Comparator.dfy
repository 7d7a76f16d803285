/**
 Bytewise order and shortened separators, for user keys and for internal keys (util/comparator.cc,
 db/dbformat.cc). Index blocks hold such separators in place of whole keys. For internal keys the
 shortened user key comes with the highest sequence number, so that the separator sorts before every
 entry that has that user key.
 */
module Comparators {
  import opened Coding

  /** Lexicographic order of byte strings. */
  predicate Less(a: Bytes, b: Bytes) {
    b != [] && (a == [] || a[0] < b[0] || (a[0] == b[0] && Less(a[1..], b[1..])))
  }

  lemma {:induction false} Irreflexive(a: Bytes)
    ensures !Less(a, a)
  {
    if a != [] { Irreflexive(a[1..]); }
  }

  lemma {:induction false} Total(a: Bytes, b: Bytes)
    ensures a == b || Less(a, b) || Less(b, a)
  {
    if a != [] && b != [] && a[0] == b[0] {
      Total(a[1..], b[1..]);
      assert a == [a[0]] + a[1..] && b == [b[0]] + b[1..];
    }
  }

  lemma {:induction false} Transitive(a: Bytes, b: Bytes, c: Bytes)
    requires Less(a, b) && Less(b, c)
    ensures Less(a, c)
  {
    if a != [] && a[0] == b[0] && b[0] == c[0] {
      Transitive(a[1..], b[1..], c[1..]);
    }
  }

  /** The first difference decides. */
  lemma {:induction false} FirstDifference(a: Bytes, b: Bytes, d: nat)
    requires d < |a| && d < |b| && a[..d] == b[..d]
    ensures Less(a, b) <==> a[d] < b[d] || (a[d] == b[d] && Less(a[d + 1..], b[d + 1..]))
  {
    if d > 0 {
      assert a[0] == a[..d][0] == b[..d][0] == b[0];
      assert a[1..][..d - 1] == a[..d][1..] && b[1..][..d - 1] == b[..d][1..];
      FirstDifference(a[1..], b[1..], d - 1);
    }
  }

  // ---- User keys ----

  /** How far the strings agree. */
  function Common(a: Bytes, b: Bytes): (n: nat)
    ensures n <= |a| && n <= |b|
  {
    if a != [] && b != [] && a[0] == b[0] then 1 + Common(a[1..], b[1..]) else 0
  }

  /** A short string from start on, but before limit; it is cut after the first different byte if that can be raised. */
  method FindShortestSeparator(start: Bytes, limit: Bytes) returns (r: Bytes)
    ensures |r| <= |start| && (r == start || (Less(start, r) && Less(r, limit)))
    ensures var d := Common(start, limit);
      r == if d < |start| && d < |limit| && start[d] < 0xff && start[d] + 1 < limit[d] then start[..d] + [start[d] + 1] else start
  {
    var minLength := if |start| < |limit| then |start| else |limit|;
    var diffIndex := 0;
    assert start[0..] == start && limit[0..] == limit;
    while diffIndex < minLength && start[diffIndex] == limit[diffIndex]
      invariant diffIndex <= minLength && start[..diffIndex] == limit[..diffIndex]
      invariant Common(start, limit) == diffIndex + Common(start[diffIndex..], limit[diffIndex..])
    {
      assert start[..diffIndex + 1] == start[..diffIndex] + [start[diffIndex]];
      assert limit[..diffIndex + 1] == limit[..diffIndex] + [limit[diffIndex]];
      assert start[diffIndex..][1..] == start[diffIndex + 1..] && limit[diffIndex..][1..] == limit[diffIndex + 1..];
      diffIndex := diffIndex + 1;
    }
    r := start;
    if diffIndex < minLength {
      var diffByte := start[diffIndex];
      if diffByte < 0xff && diffByte + 1 < limit[diffIndex] {
        r := start[..diffIndex] + [diffByte + 1];
        assert r[..diffIndex] == start[..diffIndex];
        FirstDifference(start, r, diffIndex);
        FirstDifference(r, limit, diffIndex);
      }
    }
  }

  /** How many of the largest byte the key begins with. */
  function LeadingMax(key: Bytes): (n: nat)
    ensures n <= |key| && (n < |key| ==> key[n] != 0xff)
  {
    if key != [] && key[0] == 0xff then 1 + LeadingMax(key[1..]) else 0
  }

  /** A short string from key on; key itself only when no byte can be raised. */
  method FindShortSuccessor(key: Bytes) returns (r: Bytes)
    ensures |r| <= |key| && (r == key || Less(key, r))
    ensures var d := LeadingMax(key); r == if d < |key| then key[..d] + [key[d] + 1] else key
  {
    assert key[0..] == key;
    for i := 0 to |key|
      invariant LeadingMax(key) == i + LeadingMax(key[i..])
    {
      var byte := key[i];
      assert key[i..][1..] == key[i + 1..];
      if byte != 0xff {
        r := key[..i] + [byte + 1];
        assert r[..i] == key[..i];
        FirstDifference(key, r, i);
        return;
      }
    }
    r := key;
  }

  // ---- Internal keys ----

  const MAX_SEQUENCE: nat := 0xFF_FFFF_FFFF_FFFF
  const TYPE_FOR_SEEK: nat := 1

  /** A user key and the packed sequence number and type behind it. */
  datatype InternalKey = InternalKey(user: Bytes, tag: U64)

  function PackSequenceAndType(sequence: nat, t: nat): U64
    requires sequence <= MAX_SEQUENCE && t <= 255
  {
    sequence * 256 + t
  }

  /** User keys ascending, then tags descending. */
  predicate InternalLess(a: InternalKey, b: InternalKey) {
    Less(a.user, b.user) || (a.user == b.user && a.tag > b.tag)
  }

  lemma InternalTotal(a: InternalKey, b: InternalKey)
    ensures !InternalLess(a, a) && (a == b || InternalLess(a, b) || InternalLess(b, a))
  {
    Irreflexive(a.user);
    Total(a.user, b.user);
  }

  lemma InternalTransitive(a: InternalKey, b: InternalKey, c: InternalKey)
    requires InternalLess(a, b) && InternalLess(b, c)
    ensures InternalLess(a, c)
  {
    if Less(a.user, b.user) && Less(b.user, c.user) { Transitive(a.user, b.user, c.user); }
  }

  /** The separator lies between the two keys; a shortened one has a user key strictly between theirs. */
  method InternalSeparator(start: InternalKey, limit: InternalKey) returns (r: InternalKey)
    requires InternalLess(start, limit)
    ensures !InternalLess(r, start) && InternalLess(r, limit)
    ensures r == start || (Less(start.user, r.user) && Less(r.user, limit.user))
    ensures var (s, l, d) := (start.user, limit.user, Common(start.user, limit.user));
      r == if d + 1 < |s| && d < |l| && s[d] < 0xff && s[d] + 1 < l[d]
           then InternalKey(s[..d] + [s[d] + 1], 0xFF_FFFF_FFFF_FFFF * 256 + 1) else start
  {
    var tmp := FindShortestSeparator(start.user, limit.user);
    r := start;
    Irreflexive(start.user);
    if |tmp| < |start.user| && Less(start.user, tmp) {
      r := InternalKey(tmp, PackSequenceAndType(MAX_SEQUENCE, TYPE_FOR_SEEK));
      NotBoth(start.user, tmp);
    }
  }

  lemma NotBoth(a: Bytes, b: Bytes)
    requires Less(a, b)
    ensures !Less(b, a)
  {
    if Less(b, a) {
      Transitive(a, b, a);
      Irreflexive(a);
    }
  }

  method InternalSuccessor(key: InternalKey) returns (r: InternalKey)
    ensures !InternalLess(r, key) && (r == key || Less(key.user, r.user))
    ensures var d := LeadingMax(key.user);
      r == if d + 1 < |key.user| then InternalKey(key.user[..d] + [key.user[d] + 1], 0xFF_FFFF_FFFF_FFFF * 256 + 1) else key
  {
    var tmp := FindShortSuccessor(key.user);
    r := key;
    Irreflexive(key.user);
    if |tmp| < |key.user| && Less(key.user, tmp) {
      NotBoth(key.user, tmp);
      r := InternalKey(tmp, PackSequenceAndType(MAX_SEQUENCE, TYPE_FOR_SEEK));
    }
  }
}
