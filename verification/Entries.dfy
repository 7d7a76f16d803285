/** Option values, shared by every module. */
module Options {
  datatype Option<+T> = None | Some(value: T)
}

/**
 Internal keys and the entries of memtables and tables (db/dbformat.h, db/dbformat.cc).

 The engine looks at user keys only through a comparator, and a finite run names finitely
 many of them; they are integers here, in the comparator's order.
 */
module Entries {
  import opened Options

  type UserKey = int
  type Value = string

  /** The largest sequence number: 56 bits, the low 8 bits of a tag hold the type. */
  const MAX_SEQUENCE_NUMBER: nat := 0xFF_FFFF_FFFF_FFFF

  /** One stored version of a user key; a deletion marker has value None. */
  datatype Entry = Entry(user: UserKey, sn: nat, value: Option<Value>)

  /** Internal key order: user keys ascending, then sequence numbers descending. */
  predicate Lt(a: Entry, b: Entry) {
    a.user < b.user || (a.user == b.user && a.sn > b.sn)
  }

  /**
   The entry's internal key sorts strictly before the lookup key (k, s, kValueTypeForSeek);
   the seek type is the highest one, so an entry numbered s is not before the lookup key.
   */
  predicate Before(e: Entry, k: UserKey, s: nat) {
    e.user < k || (e.user == k && e.sn > s)
  }

  predicate Sorted(es: seq<Entry>) {
    forall i, j | 0 <= i < j < |es| :: Lt(es[i], es[j])
  }

  /** For every user key the two runs share, `a` holds the newer entries. */
  ghost predicate Newer(a: seq<Entry>, b: seq<Entry>) {
    forall x, y | x in a && y in b && x.user == y.user :: x.sn > y.sn
  }

  /** r is what a read of k at sequence s must find in S: the newest entry at or below s. */
  ghost predicate Answers(r: Option<Entry>, S: set<Entry>, k: UserKey, s: nat) {
    match r
    case Some(e) => e in S && e.user == k && e.sn <= s && forall x | x in S && x.user == k && x.sn <= s :: x.sn <= e.sn
    case None => forall x | x in S && x.user == k :: s < x.sn
  }

  function ValueOf(r: Option<Entry>): Option<Value> {
    match r
    case Some(e) => e.value
    case None => None
  }

  ghost function SetOf(es: seq<Entry>): set<Entry> {
    set e | e in es
  }

  /** Index of the first entry at or after the lookup key. */
  function FirstAtOrAfter(es: seq<Entry>, k: UserKey, s: nat): (i: nat)
    ensures i <= |es|
    ensures forall j | 0 <= j < i :: Before(es[j], k, s)
    ensures i < |es| ==> !Before(es[i], k, s)
  {
    if es == [] || !Before(es[0], k, s) then 0 else 1 + FirstAtOrAfter(es[1..], k, s)
  }

  /** A memtable or table lookup: seek, then compare the user key of the entry found. */
  function Seek(es: seq<Entry>, k: UserKey, s: nat): Option<Entry> {
    var i := FirstAtOrAfter(es, k, s);
    if i < |es| && es[i].user == k then Some(es[i]) else None
  }

  lemma SeekAnswers(es: seq<Entry>, k: UserKey, s: nat)
    requires Sorted(es)
    ensures Answers(Seek(es, k, s), SetOf(es), k, s)
  {
    var i := FirstAtOrAfter(es, k, s);
    forall x | x in es && x.user == k && x.sn <= s
      ensures i < |es| && es[i].user == k && x.sn <= es[i].sn
    {
      var j :| 0 <= j < |es| && es[j] == x;
      assert i <= j;
    }
  }

  /** Every read has an answer. */
  lemma AnswerExists(S: set<Entry>, k: UserKey, s: nat) returns (r: Option<Entry>)
    ensures Answers(r, S, k, s)
  {
    if S == {} {
      r := None;
    } else {
      var e :| e in S;
      var T := S - {e};
      var t := AnswerExists(T, k, s);
      assert S == T + {e};
      if e.user == k && e.sn <= s && (t.None? || t.value.sn <= e.sn) {
        r := Some(e);
      } else {
        r := t;
      }
    }
  }
}
