/** Bloom filters with double hashing in 32 bits (util/bloom.cc). The proofs hold for any hash function. */
module Bloom {
  import opened Coding

  type HashFunction = Bytes -> U32

  // ---- Bits of a byte ----

  predicate HasBit(b: nat, k: nat) {
    if k == 0 then b % 2 == 1 else HasBit(b / 2, k - 1)
  }

  /** b | (1 << k) */
  function SetBit(b: nat, k: nat): nat {
    if k == 0 then b / 2 * 2 + 1 else 2 * SetBit(b / 2, k - 1) + b % 2
  }

  lemma {:induction false} SetBitIsOr(b: nat, k: nat, j: nat)
    ensures HasBit(SetBit(b, k), j) <==> j == k || HasBit(b, j)
  {
    if k > 0 && j > 0 { SetBitIsOr(b / 2, k - 1, j - 1); }
  }

  function Pow2(n: nat): nat {
    if n == 0 then 1 else 2 * Pow2(n - 1)
  }

  lemma {:induction false} SetBitRange(b: nat, k: nat, n: nat)
    requires b < Pow2(n) && k < n
    ensures SetBit(b, k) < Pow2(n)
  {
    if k > 0 { SetBitRange(b / 2, k - 1, n - 1); }
  }

  function Or(b: Byte, k: nat): Byte
    requires k < 8
  {
    assert Pow2(8) == 256;
    SetBitRange(b, k, 8);
    SetBit(b, k)
  }

  // ---- Bits of an array ----

  predicate BitAt(a: Bytes, pos: nat) {
    pos / 8 < |a| && HasBit(a[pos / 8], pos % 8)
  }

  lemma SetBitAt(a: Bytes, pos: nat, q: nat)
    requires pos / 8 < |a|
    ensures BitAt(a[pos / 8 := Or(a[pos / 8], pos % 8)], q) <==> q == pos || BitAt(a, q)
  {
    SetBitIsOr(a[pos / 8], pos % 8, q % 8);
  }

  // ---- Probes ----

  /** Rotated right by 17 bits. */
  function Delta(h: U32): U32 {
    h / 0x2_0000 + h % 0x2_0000 * 0x8000
  }

  /** The j-th hash: delta is added j times, in 32 bits. */
  function Probe(h: U32, delta: U32, j: nat): U32 {
    if j == 0 then h else (Probe(h, delta, j - 1) + delta) % TWO_32
  }

  function Position(h: U32, bits: nat): (pos: nat)
    requires bits > 0
    ensures pos < bits
  {
    h % bits
  }

  /** The bit that the j-th probe hits. */
  function Hit(h: U32, bits: nat, j: nat): (pos: nat)
    requires bits > 0
  {
    Position(Probe(h, Delta(h), j), bits)
  }

  predicate HitIsSet(a: Bytes, h: U32, j: nat)
    requires a != []
  {
    BitAt(a, Hit(h, 8 * |a|, j))
  }

  /** The first k probes of the key all hit set bits. */
  predicate AllSet(a: Bytes, h: U32, k: nat)
    requires a != []
  {
    forall j | 0 <= j < k :: HitIsSet(a, h, j)
  }

  /** One of the first k probes hits this bit. */
  ghost predicate Probed(h: U32, k: nat, bits: nat, pos: nat)
    requires bits > 0
  {
    exists j | 0 <= j < k :: Hit(h, bits, j) == pos
  }

  /** The bits that are set in b are those set in a and those that the first k probes hit. */
  ghost predicate Adds(a: Bytes, b: Bytes, h: U32, k: nat) {
    a != [] && |a| == |b| && forall pos: nat :: BitAt(b, pos) <==> BitAt(a, pos) || Probed(h, k, 8 * |a|, pos)
  }

  lemma AddsNothing(a: Bytes, h: U32)
    requires a != []
    ensures Adds(a, a, h, 0)
  {
  }

  lemma AddsOneMore(a: Bytes, b: Bytes, h: U32, j: nat)
    requires Adds(a, b, h, j)
    ensures var pos := Hit(h, 8 * |a|, j); Adds(a, b[pos / 8 := Or(b[pos / 8], pos % 8)], h, j + 1)
  {
    var bits := 8 * |a|;
    var at := Hit(h, bits, j);
    var c := b[at / 8 := Or(b[at / 8], at % 8)];
    forall pos: nat ensures BitAt(c, pos) <==> BitAt(a, pos) || Probed(h, j + 1, bits, pos) {
      SetBitAt(b, at, pos);
      ProbedOneMore(h, j, bits, pos);
    }
  }

  lemma ProbedOneMore(h: U32, j: nat, bits: nat, pos: nat)
    requires bits > 0
    ensures Probed(h, j + 1, bits, pos) <==> Probed(h, j, bits, pos) || Hit(h, bits, j) == pos
  {
    if Probed(h, j + 1, bits, pos) {
      var i :| 0 <= i < j + 1 && Hit(h, bits, i) == pos;
      assert i < j ==> Probed(h, j, bits, pos);
    }
  }

  /** The bits that are set are exactly the ones that some key's probes hit. */
  ghost predicate Holds(a: Bytes, hash: HashFunction, keys: seq<Bytes>, k: nat) {
    a != [] && forall pos: nat :: BitAt(a, pos) <==> SomeProbed(hash, keys, k, 8 * |a|, pos)
  }

  ghost predicate SomeProbed(hash: HashFunction, keys: seq<Bytes>, k: nat, bits: nat, pos: nat)
    requires bits > 0
  {
    exists i | 0 <= i < |keys| :: Probed(hash(keys[i]), k, bits, pos)
  }

  lemma SomeProbedOneMore(hash: HashFunction, keys: seq<Bytes>, key: Bytes, k: nat, bits: nat, pos: nat)
    requires bits > 0
    ensures SomeProbed(hash, keys + [key], k, bits, pos) <==> SomeProbed(hash, keys, k, bits, pos) || Probed(hash(key), k, bits, pos)
  {
    var more := keys + [key];
    assert forall i | 0 <= i < |keys| :: more[i] == keys[i];
    assert more[|keys|] == key;
  }

  lemma HoldsOneMore(a: Bytes, b: Bytes, hash: HashFunction, keys: seq<Bytes>, n: nat, k: nat)
    requires n < |keys| && Holds(a, hash, keys[..n], k) && Adds(a, b, hash(keys[n]), k)
    ensures Holds(b, hash, keys[..n + 1], k)
  {
    assert keys[..n + 1] == keys[..n] + [keys[n]];
    forall pos: nat ensures BitAt(b, pos) <==> SomeProbed(hash, keys[..n + 1], k, 8 * |b|, pos) {
      SomeProbedOneMore(hash, keys[..n], keys[n], k, 8 * |b|, pos);
    }
  }

  lemma HeldKeyMatches(a: Bytes, hash: HashFunction, keys: seq<Bytes>, k: nat, key: Bytes)
    requires Holds(a, hash, keys, k) && key in keys
    ensures AllSet(a, hash(key), k)
  {
    var i :| 0 <= i < |keys| && keys[i] == key;
    forall j | 0 <= j < k ensures HitIsSet(a, hash(key), j) {
      assert Probed(hash(keys[i]), k, 8 * |a|, Hit(hash(key), 8 * |a|, j));
    }
  }

  // ---- The policy ----

  /** The hash, how many bits a filter spends on a key, and how many probes it makes for one. */
  datatype Policy = Policy(hash: HashFunction, bitsPerKey: nat, probes: nat) {
    predicate Valid() {
      1 <= probes <= 30
    }
  }

  /** The bytes of bits in a filter for n keys: at least eight, then as many as the bits fill. */
  function FilterSize(policy: Policy, n: nat): nat {
    if n * policy.bitsPerKey < 64 then 8 else (n * policy.bitsPerKey + 7) / 8
  }

  /** The filter of these keys: the bits that their probes hit and no others, then the number of probes. */
  ghost predicate IsFilter(policy: Policy, filter: Bytes, keys: seq<Bytes>) {
    && |filter| == FilterSize(policy, |keys|) + 1 && filter[|filter| - 1] == policy.probes
    && Holds(filter[..|filter| - 1], policy.hash, keys, policy.probes)
  }

  /** The j-th probe of the key is also a probe of one of the keys, among the bits of their filter. */
  ghost predicate ProbeMet(policy: Policy, keys: seq<Bytes>, key: Bytes, j: nat) {
    var (h, bits) := (policy.hash(key), 8 * FilterSize(policy, |keys|));
    SomeProbed(policy.hash, keys, policy.probes, bits, Hit(h, bits, j))
  }

  ghost predicate ProbesMet(policy: Policy, keys: seq<Bytes>, key: Bytes) {
    forall j | 0 <= j < policy.probes :: ProbeMet(policy, keys, key, j)
  }

  /** A filter says yes to exactly the keys whose probes all meet probes of its own keys. */
  lemma FilterAnswers(policy: Policy, filter: Bytes, keys: seq<Bytes>, key: Bytes)
    requires policy.Valid() && IsFilter(policy, filter, keys)
    ensures MayMatch(policy.hash, key, filter) <==> ProbesMet(policy, keys, key)
  {
    var (a, h) := (filter[..|filter| - 1], policy.hash(key));
    forall j | 0 <= j < policy.probes
      ensures ProbeMet(policy, keys, key, j) <==> HitIsSet(a, h, j)
    {
    }
    assert MayMatch(policy.hash, key, filter) <==> AllSet(a, h, policy.probes);
  }

  /** Its own keys are among them; without keys there are none. */
  lemma OwnKeysMeet(policy: Policy, keys: seq<Bytes>, key: Bytes)
    requires policy.Valid()
    ensures key in keys ==> ProbesMet(policy, keys, key)
    ensures keys == [] ==> !ProbesMet(policy, keys, key)
  {
    var (h, bits) := (policy.hash(key), 8 * FilterSize(policy, |keys|));
    if key in keys {
      var i :| 0 <= i < |keys| && keys[i] == key;
      forall j | 0 <= j < policy.probes ensures ProbeMet(policy, keys, key, j) {
        assert Probed(policy.hash(keys[i]), policy.probes, bits, Hit(h, bits, j));
      }
    }
    if keys == [] {
      assert !ProbeMet(policy, keys, key, 0);
    }
  }

  /** What a filter says of a key; its last byte is the number of probes. */
  predicate MayMatch(hash: HashFunction, key: Bytes, filter: Bytes) {
    |filter| >= 2 && (filter[|filter| - 1] > 30 || AllSet(filter[..|filter| - 1], hash(key), filter[|filter| - 1]))
  }

  method KeyMayMatch(hash: HashFunction, key: Bytes, filter: Bytes) returns (r: bool)
    ensures r == MayMatch(hash, key, filter)
  {
    var len := |filter|;
    if len < 2 {
      return false;
    }
    var k := filter[len - 1];
    if k > 30 {
      return true;
    }
    r := ProbeAll(filter[..len - 1], hash(key), k);
  }

  method ProbeAll(a: Bytes, h0: U32, k: nat) returns (r: bool)
    requires a != []
    ensures r == AllSet(a, h0, k)
  {
    var h := h0;
    var delta := Delta(h0);
    for j := 0 to k
      invariant h == Probe(h0, delta, j) && forall n | 0 <= n < j :: HitIsSet(a, h0, n)
    {
      var isSet := TestBit(a, h);
      if !isSet {
        assert !HitIsSet(a, h0, j);
        return false;
      }
      assert HitIsSet(a, h0, j);
      h := (h + delta) % TWO_32;
    }
    r := true;
  }

  method TestBit(a: Bytes, h: U32) returns (isSet: bool)
    requires a != []
    ensures isSet == BitAt(a, Position(h, 8 * |a|))
  {
    var bitpos := Position(h, 8 * |a|);
    isSet := HasBit(a[bitpos / 8], bitpos % 8);
  }

  method SetBitIn(a: array<Byte>, pos: nat)
    requires pos / 8 < a.Length
    modifies a
    ensures a[..] == old(a[..])[pos / 8 := Or(old(a[..])[pos / 8], pos % 8)]
  {
    a[pos / 8] := Or(a[pos / 8], pos % 8);
  }

  /** Set the bits of one key. */
  method AddKey(a: array<Byte>, h0: U32, k: nat)
    requires a.Length > 0
    modifies a
    ensures Adds(old(a[..]), a[..], h0, k)
  {
    var h := h0;
    var delta := Delta(h0);
    AddsNothing(a[..], h0);
    for j := 0 to k
      invariant h == Probe(h0, delta, j) && Adds(old(a[..]), a[..], h0, j)
    {
      var bitpos := Position(h, 8 * a.Length);
      AddsOneMore(old(a[..]), a[..], h0, j);
      SetBitIn(a, bitpos);
      h := (h + delta) % TWO_32;
    }
  }

  /**
   Append a filter for the keys, of bitsPerKey bits a key and at least 64: its bits are those the keys'
   probes hit and no others, so that it answers true for every one of the keys.
   */
  method CreateFilter(policy: Policy, keys: seq<Bytes>, dst: Bytes) returns (r: Bytes)
    requires policy.Valid()
    ensures dst <= r && IsFilter(policy, r[|dst|..], keys)
    ensures var bits := 8 * (|r| - |dst| - 1); bits >= |keys| * policy.bitsPerKey && (bits < |keys| * policy.bitsPerKey + 8 || bits == 64)
    ensures forall key | key in keys :: MayMatch(policy.hash, key, r[|dst|..])
  {
    var bits := |keys| * policy.bitsPerKey;
    if bits < 64 {
      bits := 64;
    }
    var bytes := (bits + 7) / 8;
    var filter := FilterBits(policy.hash, bytes, policy.probes, keys);
    r := dst + filter + [policy.probes];
    assert r[|dst|..] == filter + [policy.probes] && (filter + [policy.probes])[..bytes] == filter;
    forall key | key in keys ensures MayMatch(policy.hash, key, r[|dst|..]) {
      HeldKeyMatches(filter, policy.hash, keys, policy.probes, key);
    }
  }

  method FilterBits(hash: HashFunction, bytes: nat, k: nat, keys: seq<Bytes>) returns (r: Bytes)
    requires bytes > 0
    ensures |r| == bytes && Holds(r, hash, keys, k)
  {
    var filter := new Byte[bytes](_ => 0);
    NoBits(filter[..], hash, k);
    for i := 0 to |keys|
      invariant Holds(filter[..], hash, keys[..i], k)
    {
      ghost var was := filter[..];
      AddKey(filter, hash(keys[i]), k);
      HoldsOneMore(was, filter[..], hash, keys, i, k);
    }
    assert keys[..|keys|] == keys;
    r := filter[..];
  }

  lemma NoBits(a: Bytes, hash: HashFunction, k: nat)
    requires a != [] && forall i | 0 <= i < |a| :: a[i] == 0
    ensures Holds(a, hash, [], k)
  {
    forall pos: nat ensures !BitAt(a, pos) {
      if pos / 8 < |a| { ZeroHasNoBit(pos % 8); }
    }
  }

  lemma {:induction false} ZeroHasNoBit(k: nat)
    ensures !HasBit(0, k)
  {
    if k > 0 { ZeroHasNoBit(k - 1); }
  }
}
