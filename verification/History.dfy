/** The abstract database: the history of all writes, read backwards from a sequence number. */
module Histories {
  import opened Options
  import opened Entries

  /** A write: a value, or None for a deletion. The i-th write of a history has sequence number i + 1. */
  datatype Op = Op(key: UserKey, value: Option<Value>)

  /** What a read of k at sequence s must return: the latest write of k numbered s or less. */
  function HistoryGet(h: seq<Op>, k: UserKey, s: nat): Option<Value> {
    if h == [] then None
    else if |h| <= s && h[|h| - 1].key == k then h[|h| - 1].value
    else HistoryGet(h[..|h| - 1], k, s)
  }

  /** The entry the i-th write becomes in a memtable. */
  function EntryOf(h: seq<Op>, i: nat): Entry
    requires i < |h|
  {
    Entry(h[i].key, i + 1, h[i].value)
  }

  /** S holds entries of the first n writes only. */
  ghost predicate FromHistory(S: set<Entry>, h: seq<Op>, n: nat) {
    n <= |h| && forall e | e in S :: 1 <= e.sn <= n && e == EntryOf(h, e.sn - 1)
  }

  /** S holds exactly the entries of writes a up to b. */
  ghost predicate Holds(S: set<Entry>, h: seq<Op>, a: nat, b: nat) {
    && a <= b <= |h|
    && (forall e | e in S :: a < e.sn <= b && e == EntryOf(h, e.sn - 1))
    && (forall i | a <= i < b :: EntryOf(h, i) in S)
  }

  /** Every read of S at or above the floor returns what the history of the first n writes says. */
  ghost predicate Faithful(S: set<Entry>, h: seq<Op>, n: nat, floor: nat)
    requires n <= |h|
  {
    forall k, s, r | floor <= s && Answers(r, S, k, s) :: ValueOf(r) == HistoryGet(h[..n], k, s)
  }

  /** Adding the next write's entry keeps the reads faithful to the longer history. */
  lemma FaithfulInsert(S: set<Entry>, h: seq<Op>, n: nat, floor: nat)
    requires n < |h| && FromHistory(S, h, n) && Faithful(S, h, n, floor)
    ensures FromHistory(S + {EntryOf(h, n)}, h, n + 1)
    ensures Faithful(S + {EntryOf(h, n)}, h, n + 1, floor)
  {
    var e := EntryOf(h, n);
    forall k, s, r | floor <= s && Answers(r, S + {e}, k, s)
      ensures ValueOf(r) == HistoryGet(h[..n + 1], k, s)
    {
      assert h[..n + 1][..n] == h[..n];
      if e.user == k && e.sn <= s {
        assert r.Some? && r.value.sn >= e.sn;
      } else {
        assert Answers(r, S, k, s);
      }
    }
  }

  /** Several writes at once. */
  lemma {:induction false} FaithfulExtend(S: set<Entry>, T: set<Entry>, h: seq<Op>, n: nat, m: nat, floor: nat)
    requires n <= m <= |h| && FromHistory(S, h, n) && Faithful(S, h, n, floor) && Holds(T, h, n, m)
    ensures FromHistory(S + T, h, m) && Faithful(S + T, h, m, floor)
    decreases m - n
  {
    if n == m {
      assert S + T == S;
    } else {
      var e := EntryOf(h, n);
      FaithfulInsert(S, h, n, floor);
      assert forall x | x in T - {e} :: x.sn != n + 1;
      FaithfulExtend(S + {e}, T - {e}, h, n + 1, m, floor);
      assert S + {e} + (T - {e}) == S + T;
    }
  }

  /** Later writes do not change what an earlier sequence number sees. */
  lemma {:induction false} LaterWritesInvisible(h: seq<Op>, n: nat, k: UserKey, s: nat)
    requires s <= n <= |h|
    ensures HistoryGet(h[..n], k, s) == HistoryGet(h, k, s)
    decreases |h|
  {
    if n == |h| {
      assert h[..n] == h;
    } else {
      var rest := h[..|h| - 1];
      assert rest[..n] == h[..n];
      LaterWritesInvisible(rest, n, k, s);
    }
  }
}
