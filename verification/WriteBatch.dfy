/**
 Write batches as bytes (db/write_batch.cc): a sequence number, a count, and a record for each operation.
 A batch is what the log holds as one record, and what group commit appends to the leader's batch before
 it is logged; reading it back hands the operations on one by one, until the first that is malformed, and
 compares their number with the count in the header.
 */
module WriteBatches {
  import opened Options
  import opened Coding

  const HEADER: nat := 12
  const TYPE_DELETION: Byte := 0
  const TYPE_VALUE: Byte := 1
  const MAX_INT: nat := 0x7FFF_FFFF

  datatype Op = Put(key: Bytes, value: Bytes) | Delete(key: Bytes) {
    /** Lengths are stored in 32 bits. */
    predicate Valid() {
      |key| < TWO_32 && (Put? ==> |value| < TWO_32)
    }

    function Encode(): Bytes {
      match this
      case Put(key, value) => [TYPE_VALUE] + (LengthPrefixed(key) + LengthPrefixed(value))
      case Delete(key) => [TYPE_DELETION] + LengthPrefixed(key)
    }
  }

  datatype Status = Ok | TooSmall | BadPut | BadDelete | UnknownTag | WrongCount

  function EncodeOps(ops: seq<Op>): Bytes {
    if ops == [] then [] else EncodeOps(ops[..|ops| - 1]) + ops[|ops| - 1].Encode()
  }

  lemma {:induction false} EncodeConcat(a: seq<Op>, b: seq<Op>)
    ensures EncodeOps(a + b) == EncodeOps(a) + EncodeOps(b)
  {
    if b == [] {
      assert a + b == a;
    } else {
      var rest := b[..|b| - 1];
      assert (a + b)[..|a + b| - 1] == a + rest;
      EncodeConcat(a, rest);
      Assoc(EncodeOps(a), EncodeOps(rest), b[|b| - 1].Encode());
    }
  }

  lemma Assoc(a: Bytes, b: Bytes, c: Bytes)
    ensures a + b + c == a + (b + c)
  {
  }

  /** One record, or why there is none. */
  function ReadOp(input: Bytes): (r: (Status, Option<(Op, Bytes)>))
    requires input != []
    ensures r.0 == Ok <==> r.1.Some?
    ensures r.1.Some? ==> |r.1.value.1| < |input|
  {
    var body := input[1..];
    if input[0] == TYPE_VALUE then
      match Unprefix(body)
      case None => (BadPut, None)
      case Some((key, rest)) =>
        match Unprefix(rest)
        case None => (BadPut, None)
        case Some((value, rest')) => (Ok, Some((Put(key, value), rest')))
    else if input[0] == TYPE_DELETION then
      match Unprefix(body)
      case None => (BadDelete, None)
      case Some((key, rest)) => (Ok, Some((Delete(key), rest)))
    else
      (UnknownTag, None)
  }

  /** The records up to the end or to the first malformed one. */
  function ReadOps(input: Bytes): (seq<Op>, Status)
    decreases |input|
  {
    if input == [] then ([], Ok) else
      match ReadOp(input)
      case (status, None) => ([], status)
      case (_, Some((op, rest))) => ([op] + ReadOps(rest).0, ReadOps(rest).1)
  }

  lemma PutReads(key: Bytes, value: Bytes, rest: Bytes)
    requires |key| < TWO_32 && |value| < TWO_32
    ensures Unprefix(LengthPrefixed(key) + LengthPrefixed(value) + rest) == Some((key, LengthPrefixed(value) + rest))
    ensures Unprefix(LengthPrefixed(value) + rest) == Some((value, rest))
  {
    Assoc(LengthPrefixed(key), LengthPrefixed(value), rest);
    PrefixRoundTrip(key, LengthPrefixed(value) + rest);
    PrefixRoundTrip(value, rest);
  }

  /** A record by its tag and what is behind it. */
  lemma TaggedReads(tag: Byte, body: Bytes, key: Bytes, value: Bytes, mid: Bytes, rest: Bytes)
    requires Unprefix(body) == Some((key, mid))
    ensures tag == TYPE_VALUE && Unprefix(mid) == Some((value, rest)) ==> ReadOp([tag] + body) == (Ok, Some((Put(key, value), rest)))
    ensures tag == TYPE_DELETION ==> ReadOp([tag] + body) == (Ok, Some((Delete(key), mid)))
  {
    assert ([tag] + body)[1..] == body;
  }

  lemma OpReads(op: Op, rest: Bytes)
    requires op.Valid()
    ensures ReadOp(op.Encode() + rest) == (Ok, Some((op, rest)))
  {
    match op {
      case Put(key, value) =>
        var body := LengthPrefixed(key) + LengthPrefixed(value) + rest;
        assert op.Encode() + rest == [TYPE_VALUE] + body;
        PutReads(key, value, rest);
        TaggedReads(TYPE_VALUE, body, key, value, LengthPrefixed(value) + rest, rest);
      case Delete(key) =>
        var body := LengthPrefixed(key) + rest;
        assert op.Encode() + rest == [TYPE_DELETION] + body;
        PrefixRoundTrip(key, rest);
        TaggedReads(TYPE_DELETION, body, key, [], rest, rest);
    }
  }

  lemma FirstOpReads(op: Op, rest: Bytes)
    requires op.Valid()
    ensures ReadOps(op.Encode() + rest) == ([op] + ReadOps(rest).0, ReadOps(rest).1)
  {
    OpReads(op, rest);
  }

  lemma OneOp(op: Op)
    ensures EncodeOps([op]) == op.Encode()
  {
    assert [op][..0] == [] && EncodeOps([]) == [];
  }

  lemma {:induction false} OpsRoundTrip(ops: seq<Op>)
    requires forall op | op in ops :: op.Valid()
    ensures ReadOps(EncodeOps(ops)) == (ops, Ok)
  {
    if ops != [] {
      var (op, rest) := (ops[0], ops[1..]);
      assert ops == [op] + rest;
      EncodeConcat([op], rest);
      OneOp(op);
      OpsRoundTrip(rest);
      FirstOpReads(op, EncodeOps(rest));
    }
  }

  /** What the bytes of a batch hold. */
  ghost predicate IsBatch(rep: Bytes, sequence: U64, count: U32, body: Bytes) {
    |rep| >= HEADER && DecodeFixed64(rep) == sequence && DecodeFixed32(rep[8..]) == count && rep[HEADER..] == body
  }

  /** Eight bytes of sequence number and four of count, lowest byte first, and the records; a record starts with 1 for a value and with 0 for a deletion. */
  lemma BatchInNumbers(rep: Bytes, sequence: U64, count: U32, body: Bytes)
    requires IsBatch(rep, sequence, count, body)
    ensures |rep| >= 12 && IsFixed64(rep[..8], sequence) && IsFixed32(rep[8..12], count) && rep[12..] == body
  {
    EightDigits(rep[..8]);
    FourDigits(rep[8..12]);
    assert rep[8..][..4] == rep[8..12];
  }

  lemma OpInNumbers(op: Op)
    ensures op.Encode()[0] == if op.Put? then 1 else 0
    ensures op.Encode()[1..] == LengthPrefixed(op.key) + if op.Put? then LengthPrefixed(op.value) else []
  {
    assert op.Encode()[1..] == LengthPrefixed(op.key) + if op.Put? then LengthPrefixed(op.value) else [];
  }

  class WriteBatch {
    var rep: Bytes
    ghost var sequence: U64
    ghost var ops: seq<Op>

    constructor ()
      ensures Valid() && ops == [] && sequence == 0
    {
      rep := seq(HEADER, _ => 0);
      sequence, ops := 0, [];
      new;
      assert Unfixed(rep[..8]) == 0 by { ZerosRead(rep[..8]); }
      assert Unfixed(rep[8..][..4]) == 0 by { ZerosRead(rep[8..][..4]); }
    }

    static lemma {:induction false} ZerosRead(b: Bytes)
      requires forall i | 0 <= i < |b| :: b[i] == 0
      ensures Unfixed(b) == 0
    {
      if b != [] { ZerosRead(b[1..]); }
    }

    ghost predicate Valid()
      reads this
    {
      |ops| <= MAX_INT && (forall op | op in ops :: op.Valid()) && IsBatch(rep, sequence, |ops|, EncodeOps(ops))
    }

    method Count() returns (n: nat)
      requires Valid()
      ensures n == |ops|
    {
      n := DecodeFixed32(rep[8..]);
    }

    method Sequence() returns (s: U64)
      requires Valid()
      ensures s == sequence
    {
      s := DecodeFixed64(rep);
    }

    method SetSequence(s: U64)
      requires Valid()
      modifies this
      ensures Valid() && sequence == s && ops == old(ops)
    {
      rep := WithSequence(rep, s);
      sequence := s;
    }

    static method WithSequence(rep: Bytes, s: U64) returns (r: Bytes)
      requires |rep| >= HEADER
      ensures |r| == |rep| && DecodeFixed64(r) == s && r[8..] == rep[8..] && r[HEADER..] == rep[HEADER..]
    {
      Fixed64RoundTrip(s, rep[8..]);
      r := EncodeFixed64(s) + rep[8..];
      assert r[HEADER..] == r[8..][4..] && rep[HEADER..] == rep[8..][4..];
    }

    /** Set the count and append records; the bytes of the records come with the operations they stand for. */
    method AppendRecords(more: Bytes, n: nat, ghost added: seq<Op>)
      requires Valid() && more == EncodeOps(added) && n == |added| && |ops| + n <= MAX_INT
      requires forall op | op in added :: op.Valid()
      modifies this
      ensures Valid() && sequence == old(sequence) && ops == old(ops) + added
    {
      var count := Count();
      EncodeConcat(ops, added);
      rep := WithRecords(rep, count + n, more);
      ops := ops + added;
    }

    static method WithRecords(rep: Bytes, n: U32, more: Bytes) returns (r: Bytes)
      requires |rep| >= HEADER
      ensures |r| >= HEADER && DecodeFixed64(r) == DecodeFixed64(rep) && DecodeFixed32(r[8..]) == n && r[HEADER..] == rep[HEADER..] + more
    {
      r := rep[..8] + EncodeFixed32(n) + rep[HEADER..] + more;
      Fixed32RoundTrip(n, rep[HEADER..] + more);
      assert r[..8] == rep[..8] && r[8..] == EncodeFixed32(n) + (rep[HEADER..] + more);
    }

    method Put(key: Bytes, value: Bytes)
      requires Valid() && |ops| < MAX_INT && |key| < TWO_32 && |value| < TWO_32
      modifies this
      ensures Valid() && sequence == old(sequence) && ops == old(ops) + [Op.Put(key, value)]
    {
      ghost var op := Op.Put(key, value);
      OneOp(op);
      AppendRecords([TYPE_VALUE] + (LengthPrefixed(key) + LengthPrefixed(value)), 1, [op]);
    }

    method Delete(key: Bytes)
      requires Valid() && |ops| < MAX_INT && |key| < TWO_32
      modifies this
      ensures Valid() && sequence == old(sequence) && ops == old(ops) + [Op.Delete(key)]
    {
      ghost var op := Op.Delete(key);
      OneOp(op);
      AppendRecords([TYPE_DELETION] + LengthPrefixed(key), 1, [op]);
    }

    /** Append: the other batch's records, without its header. */
    method Append(source: WriteBatch)
      requires Valid() && source.Valid() && |ops| + |source.ops| <= MAX_INT
      modifies this
      ensures Valid() && sequence == old(sequence) && ops == old(ops) + old(source.ops)
      ensures source != this ==> source.Valid()
    {
      var n := source.Count();
      AppendRecords(source.rep[HEADER..], n, source.ops);
    }

    /** InsertInto: the operations and the numbers they are inserted under. */
    method InsertInto() returns (calls: seq<Op>, first: U64, status: Status)
      requires Valid()
      ensures status == Ok && calls == ops && first == sequence
    {
      first := Sequence();
      OpsRoundTrip(ops);
      calls, status := Iterate(rep);
    }
  }

  /** The calls a handler gets, for any bytes at all. */
  method Iterate(rep: Bytes) returns (calls: seq<Op>, status: Status)
    ensures |rep| < HEADER ==> status == TooSmall && calls == []
    ensures |rep| >= HEADER ==>
      && calls == ReadOps(rep[HEADER..]).0
      && status == if ReadOps(rep[HEADER..]).1 != Ok then ReadOps(rep[HEADER..]).1
                   else if |calls| != DecodeFixed32(rep[8..]) then WrongCount else Ok
  {
    calls := [];
    if |rep| < HEADER {
      return [], TooSmall;
    }
    var input := rep[HEADER..];
    var found := 0;
    assert [] + ReadOps(input).0 == ReadOps(input).0;
    while input != []
      invariant found == |calls|
      invariant ReadOps(rep[HEADER..]) == (calls + ReadOps(input).0, ReadOps(input).1)
      decreases |input|
    {
      found := found + 1;
      match ReadOp(input) {
        case (s, None) =>
          assert calls + [] == calls;
          return calls, s;
        case (_, Some((op, rest))) =>
          assert calls + ([op] + ReadOps(rest).0) == calls + [op] + ReadOps(rest).0;
          calls, input := calls + [op], rest;
      }
    }
    assert calls + [] == calls;
    status := if found != DecodeFixed32(rep[8..]) then WrongCount else Ok;
  }
}
