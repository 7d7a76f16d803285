/** The iterator users see: one row per live user key, in both directions (db/db_iter.cc). */
module DbIter {
  import opened Options
  import opened Entries
  import opened Cursors

  // ---- The visible rows ----

  /** Entry i is the newest version of its key at or below s, and not a deletion marker. */
  ghost predicate Shown(es: seq<Entry>, s: nat, i: nat)
    requires i < |es|
  {
    es[i].sn <= s && es[i].value.Some? && forall j | 0 <= j < i && es[j].user == es[i].user :: es[j].sn > s
  }

  ghost predicate NoneShown(es: seq<Entry>, s: nat, a: nat, b: nat)
    requires b <= |es|
  {
    forall i | a <= i < b :: !Shown(es, s, i)
  }

  /** The rows among the first n entries. */
  ghost function RowsTo(es: seq<Entry>, s: nat, n: nat): seq<(UserKey, Value)>
    requires n <= |es|
  {
    if n == 0 then [] else RowsTo(es, s, n - 1) + if Shown(es, s, n - 1) then [(es[n - 1].user, es[n - 1].value.value)] else []
  }

  ghost function Rows(es: seq<Entry>, s: nat): seq<(UserKey, Value)> {
    RowsTo(es, s, |es|)
  }

  lemma {:induction false} RowsGrow(es: seq<Entry>, s: nat, a: nat, b: nat)
    requires a <= b <= |es|
    ensures RowsTo(es, s, a) <= RowsTo(es, s, b)
    ensures NoneShown(es, s, a, b) ==> RowsTo(es, s, a) == RowsTo(es, s, b)
  {
    if a < b { RowsGrow(es, s, a, b - 1); }
  }

  /** A shown entry is the row whose number is the count of rows before it. */
  lemma RowAt(es: seq<Entry>, s: nat, i: nat)
    requires i < |es| && Shown(es, s, i)
    ensures |RowsTo(es, s, i)| < |Rows(es, s)|
    ensures Rows(es, s)[|RowsTo(es, s, i)|] == (es[i].user, es[i].value.value)
  {
    RowsGrow(es, s, i + 1, |es|);
  }

  /** Every row comes from a shown entry. */
  lemma {:induction false} RowSource(es: seq<Entry>, s: nat, n: nat, r: nat) returns (i: nat)
    requires n <= |es| && r < |RowsTo(es, s, n)|
    ensures i < n && Shown(es, s, i) && |RowsTo(es, s, i)| == r && RowsTo(es, s, n)[r] == (es[i].user, es[i].value.value)
  {
    if r < |RowsTo(es, s, n - 1)| {
      i := RowSource(es, s, n - 1, r);
    } else {
      i := n - 1;
    }
  }

  /** The rows ascend strictly by user key, and hold exactly what a read of each key at s returns. */
  lemma RowsAreTheReads(es: seq<Entry>, s: nat)
    requires Sorted(es)
    ensures forall a, b | 0 <= a < b < |Rows(es, s)| :: Rows(es, s)[a].0 < Rows(es, s)[b].0
    ensures forall k, v, r | Answers(r, SetOf(es), k, s) :: (k, v) in Rows(es, s) <==> ValueOf(r) == Some(v)
  {
    var rows := Rows(es, s);
    forall a, b | 0 <= a < b < |rows| ensures rows[a].0 < rows[b].0 {
      RowsAscend(es, s, a, b);
    }
    forall k, v, r | Answers(r, SetOf(es), k, s) ensures (k, v) in rows <==> ValueOf(r) == Some(v) {
      if (k, v) in rows { RowIsRead(es, s, k, v, r); }
      if ValueOf(r) == Some(v) { ReadIsRow(es, s, k, v, r); }
    }
  }

  lemma RowsAscend(es: seq<Entry>, s: nat, a: nat, b: nat)
    requires Sorted(es) && a < b < |Rows(es, s)|
    ensures Rows(es, s)[a].0 < Rows(es, s)[b].0
  {
    var i := RowSource(es, s, |es|, a);
    var j := RowSource(es, s, |es|, b);
    if j < i { RowsGrow(es, s, j, i); }
    assert Lt(es[i], es[j]);
  }

  lemma RowIsRead(es: seq<Entry>, s: nat, k: UserKey, v: Value, r: Option<Entry>)
    requires Sorted(es) && Answers(r, SetOf(es), k, s) && (k, v) in Rows(es, s)
    ensures ValueOf(r) == Some(v)
  {
    var n: nat :| n < |Rows(es, s)| && Rows(es, s)[n] == (k, v);
    var i := RowSource(es, s, |es|, n);
    assert es[i] in SetOf(es);
    var j :| 0 <= j < |es| && es[j] == r.value;
    assert i <= j;
  }

  lemma ReadIsRow(es: seq<Entry>, s: nat, k: UserKey, v: Value, r: Option<Entry>)
    requires Sorted(es) && Answers(r, SetOf(es), k, s) && ValueOf(r) == Some(v)
    ensures (k, v) in Rows(es, s)
  {
    var i: nat :| i < |es| && es[i] == r.value;
    forall j | 0 <= j < i && es[j].user == k ensures es[j].sn > s {
      assert Lt(es[j], es[i]) && es[j] in SetOf(es);
    }
    RowAt(es, s, i);
  }

  // ---- The iterator ----

  /** Only invisible entries lie between the internal position and entry c, which starts a later key. */
  ghost predicate JustBefore(es: seq<Entry>, s: nat, at: Option<nat>, c: nat)
    requires c < |es|
  {
    && (at.Some? ==> at.value < c && es[at.value].user < es[c].user)
    && forall j | (if at.Some? then at.value + 1 else 0) <= j < c :: es[j].sn > s
  }

  /** What the forward scan knows at entry i when it looks for the first row at or after `from`. */
  ghost predicate Scanning(es: seq<Entry>, s: nat, from: nat, i: nat, skipping: bool, skip: UserKey) {
    && from <= |es| && i <= |es| && NoneShown(es, s, from, i)
    && (forall j, m | 0 <= j < i <= m < |es| && es[j].sn <= s && es[j].user == es[m].user :: skipping && es[m].user <= skip)
    && (forall m | i <= m < |es| && skipping && es[m].user <= skip :: m < from || !Shown(es, s, m))
    && (forall m | i <= m < from && es[m].sn <= s :: skipping && es[m].user <= skip)
    && (forall m | i <= m < |es| && skipping && es[m].sn <= s :: es[m].user >= skip)
  }

  lemma ScanOn(es: seq<Entry>, s: nat, from: nat, i: nat, skipping: bool, skip: UserKey)
    requires Sorted(es) && Scanning(es, s, from, i, skipping, skip) && i < |es|
    ensures es[i].sn > s || (es[i].value.Some? && skipping && es[i].user <= skip) ==> Scanning(es, s, from, i + 1, skipping, skip)
    ensures es[i].sn <= s && es[i].value.None? ==> Scanning(es, s, from, i + 1, true, es[i].user)
    ensures es[i].sn <= s && es[i].value.Some? && !(skipping && es[i].user <= skip) ==> Shown(es, s, i) && from <= i
  {
    forall m | i < m < |es| ensures es[i].user <= es[m].user {
      assert Lt(es[i], es[m]);
    }
  }

  /** What the backward scan knows once the entries from i on, up to hi, have been read. */
  ghost predicate Backing(es: seq<Entry>, s: nat, i: nat, hi: nat, found: bool, c: nat) {
    && i <= hi <= |es|
    && (forall j, m | 0 <= j < hi <= m < |es| && es[j].user == es[m].user :: es[m].sn > s)
    && if found then
        && i <= c < hi && es[c].sn <= s && es[c].value.Some? && (forall j | i <= j < c :: es[j].sn > s)
        && NoneShown(es, s, c + 1, hi)
      else NoneShown(es, s, i, hi)
  }

  lemma BackOn(es: seq<Entry>, s: nat, i: nat, hi: nat, found: bool, c: nat)
    requires Sorted(es) && Backing(es, s, i + 1, hi, found, c)
    ensures es[i].sn > s ==> Backing(es, s, i, hi, found, c)
    ensures es[i].sn <= s && (found ==> es[i].user >= es[c].user) ==> Backing(es, s, i, hi, es[i].value.Some?, i)
    ensures es[i].sn <= s && found && es[i].user < es[c].user ==> Shown(es, s, c) && JustBefore(es, s, Some(i), c)
  {
    forall m | i < m < |es| ensures es[i].user <= es[m].user {
      assert Lt(es[i], es[m]);
    }
    forall j | 0 <= j < i ensures es[j].user <= es[i].user {
      assert Lt(es[j], es[i]);
    }
  }

  class DBIter {
    /** Every entry of the database, in order. */
    const es: seq<Entry>
    const sequence: nat
    var iter: Cursor
    var forward: bool
    var valid: bool
    var savedKey: UserKey
    var savedValue: Value
    /** The shown entry the iterator stands on. */
    ghost var current: nat

    constructor (iter: Cursor, sequence: nat)
      requires iter.Ok() && Sorted(iter.es)
      ensures Ok() && !valid && this.es == iter.es && this.sequence == sequence
    {
      this.es, this.iter, this.sequence, forward, valid, savedKey, savedValue := iter.es, iter, sequence, true, false, 0, "";
    }

    ghost predicate Ok()
      reads this
    {
      && iter.es == es && iter.Ok() && Sorted(es)
      && (valid ==>
          && current < |es| && Shown(es, sequence, current)
          && if forward then iter.at == Some(current) else
              && savedKey == es[current].user && Some(savedValue) == es[current].value
              && JustBefore(es, sequence, iter.at, current))
    }

    /** Which row of the view the iterator shows. */
    ghost function Row(): nat
      requires Ok() && valid
      reads this
    {
      |RowsTo(es, sequence, current)|
    }

    method Key() returns (k: UserKey)
      requires Ok() && valid
      ensures Row() < |Rows(es, sequence)| && k == Rows(es, sequence)[Row()].0
    {
      RowAt(es, sequence, current);
      k := if forward then es[iter.at.value].user else savedKey;
    }

    method Value() returns (v: Value)
      requires Ok() && valid
      ensures Row() < |Rows(es, sequence)| && v == Rows(es, sequence)[Row()].1
    {
      RowAt(es, sequence, current);
      v := if forward then es[iter.at.value].value.value else savedValue;
    }

    /** Scan forward to the first row at or after entry `from`. */
    method FindNextUserEntry(skipping0: bool, skip0: UserKey, ghost from: nat)
      requires iter.es == es && iter.Ok() && Sorted(es) && forward && iter.at.Some?
      requires Scanning(es, sequence, from, iter.at.value, skipping0, skip0)
      modifies this
      ensures Ok()
      ensures if valid then from <= current && NoneShown(es, sequence, from, current) else NoneShown(es, sequence, from, |es|)
    {
      var skipping, skip := skipping0, skip0;
      ghost var i := iter.at.value;
      while iter.at.Some?
        invariant iter.es == es && iter.Ok() && forward && i <= |es| && iter.at == if i < |es| then Some(i) else None
        invariant Scanning(es, sequence, from, i, skipping, skip)
        decreases |es| - i
      {
        ScanOn(es, sequence, from, i, skipping, skip);
        var ikey := es[iter.at.value];
        if ikey.sn <= sequence {
          if ikey.value.None? {
            skip, skipping := ikey.user, true;
          } else if skipping && ikey.user <= skip {
          } else {
            valid, current := true, i;
            return;
          }
        }
        iter := iter.Next();
        i := i + 1;
      }
      valid := false;
    }

    /** The next row, if there is one. */
    method Next()
      requires Ok() && valid
      modifies this
      ensures Ok() && valid == (old(Row()) + 1 < |Rows(es, sequence)|)
      ensures valid ==> Row() == old(Row()) + 1
    {
      ghost var was := current;
      if !forward {
        forward := true;
        if iter.at.None? {
          iter := iter.SeekToFirst();
        } else {
          iter := iter.Next();
        }
        assert iter.at.Some?;
      } else {
        savedKey := es[iter.at.value].user;
      }
      ScanPast(es, sequence, was, iter.at.value);
      FindNextUserEntry(true, savedKey, was + 1);
      NextRow(es, sequence, was, valid, current);
    }

    /** Scan backward to the last row before entry hi. */
    method FindPrevUserEntry(ghost hi: nat)
      requires iter.es == es && iter.Ok() && Sorted(es) && !forward
      requires hi == if iter.at.Some? then iter.at.value + 1 else 0
      requires Backing(es, sequence, hi, hi, false, 0)
      modifies this
      ensures Ok()
      ensures if valid then current < hi && NoneShown(es, sequence, current + 1, hi) else NoneShown(es, sequence, 0, hi)
    {
      var isValue := false;
      while iter.at.Some?
        invariant iter.es == es && iter.Ok() && !forward
        invariant Backing(es, sequence, if iter.at.Some? then iter.at.value + 1 else 0, hi, isValue, current)
        invariant isValue ==> savedKey == es[current].user && Some(savedValue) == es[current].value
        decreases if iter.at.Some? then iter.at.value + 1 else 0
      {
        ghost var i := iter.at.value;
        BackOn(es, sequence, i, hi, isValue, current);
        var ikey := es[iter.at.value];
        if ikey.sn <= sequence {
          if isValue && ikey.user < savedKey {
            break;
          }
          isValue, current := ikey.value.Some?, i;
          if isValue {
            savedKey, savedValue := ikey.user, ikey.value.value;
          }
        }
        iter := iter.Prev();
      }
      valid := isValue;
      if !isValue {
        forward := true;
      }
    }

    /** The previous row, if there is one. */
    method Prev()
      requires Ok() && valid
      modifies this
      ensures Ok() && valid == (old(Row()) > 0)
      ensures valid ==> Row() + 1 == old(Row())
    {
      ghost var was := current;
      if forward {
        savedKey := es[iter.at.value].user;
        iter := iter.Prev();
        while iter.at.Some? && !(es[iter.at.value].user < savedKey)
          invariant iter.es == es && iter.Ok() && savedKey == es[was].user
          invariant iter.at.Some? ==> iter.at.value < was
          invariant forall j | (if iter.at.Some? then iter.at.value + 1 else 0) <= j < was :: es[j].user == savedKey
          decreases if iter.at.Some? then iter.at.value + 1 else 0
        {
          assert Lt(es[iter.at.value], es[was]);
          iter := iter.Prev();
        }
        if iter.at.None? {
          valid := false;
          PrevRow(es, sequence, was, 0, false, 0);
          return;
        }
        forward := false;
        GroupEnds(es, sequence, iter.at.value, was);
      } else {
        InvisibleBetween(es, sequence, iter.at, was);
      }
      ghost var hi := if iter.at.Some? then iter.at.value + 1 else 0;
      FindPrevUserEntry(hi);
      PrevRow(es, sequence, was, hi, valid, current);
    }

    /** The first row whose key is at or after the target. */
    method Seek(target: UserKey)
      requires Ok()
      modifies this
      ensures Ok() && (valid ==> forall r | 0 <= r < |Rows(es, sequence)| :: Rows(es, sequence)[r].0 >= target <==> Row() <= r)
      ensures !valid ==> forall r | 0 <= r < |Rows(es, sequence)| :: Rows(es, sequence)[r].0 < target
    {
      forward := true;
      iter := iter.Seek(target, sequence);
      ghost var from := FirstAtOrAfter(es, target, sequence);
      if iter.at.Some? {
        ScanFrom(es, target, sequence);
        FindNextUserEntry(false, 0, from);
      } else {
        valid := false;
      }
      SeekRow(es, sequence, target, valid, current);
    }

    method SeekToFirst()
      requires Ok()
      modifies this
      ensures Ok() && valid == (Rows(es, sequence) != []) && (valid ==> Row() == 0)
    {
      forward := true;
      iter := iter.SeekToFirst();
      if iter.at.Some? {
        FindNextUserEntry(false, 0, 0);
      } else {
        valid := false;
      }
      RowsGrow(es, sequence, 0, if valid then current else |es|);
      if valid { RowAt(es, sequence, current); }
    }

    method SeekToLast()
      requires Ok()
      modifies this
      ensures Ok() && valid == (Rows(es, sequence) != []) && (valid ==> Row() == |Rows(es, sequence)| - 1)
    {
      forward := false;
      iter := iter.SeekToLast();
      FindPrevUserEntry(|es|);
      LastRow(es, sequence, |es|, valid, current);
    }
  }

  // ---- Between entries and rows ----

  /** The next scan starts at the current entry, or just past the position before it. */
  lemma ScanPast(es: seq<Entry>, s: nat, was: nat, i: nat)
    requires Sorted(es) && was < |es| && Shown(es, s, was) && i <= was
    requires i < was ==> JustBefore(es, s, if i == 0 then None else Some(i - 1), was)
    ensures Scanning(es, s, was + 1, i, true, es[was].user)
  {
    forall m | was < m < |es| ensures es[was].user <= es[m].user {
      assert Lt(es[was], es[m]);
    }
    forall j | 0 <= j < was ensures es[j].user <= es[was].user {
      assert Lt(es[j], es[was]);
    }
  }

  lemma NextRow(es: seq<Entry>, s: nat, was: nat, valid: bool, now: nat)
    requires was < |es| && Shown(es, s, was)
    requires if valid then was < now < |es| && Shown(es, s, now) && NoneShown(es, s, was + 1, now) else NoneShown(es, s, was + 1, |es|)
    ensures valid == (|RowsTo(es, s, was)| + 1 < |Rows(es, s)|)
    ensures valid ==> |RowsTo(es, s, now)| == |RowsTo(es, s, was)| + 1
  {
    RowsGrow(es, s, was + 1, if valid then now else |es|);
    if valid { RowAt(es, s, now); }
  }

  lemma LastRow(es: seq<Entry>, s: nat, hi: nat, valid: bool, now: nat)
    requires hi <= |es|
    requires if valid then now < hi && Shown(es, s, now) && NoneShown(es, s, now + 1, hi) else NoneShown(es, s, 0, hi)
    ensures valid == (RowsTo(es, s, hi) != [])
    ensures valid ==> |RowsTo(es, s, now)| + 1 == |RowsTo(es, s, hi)|
  {
    RowsGrow(es, s, if valid then now + 1 else 0, hi);
  }

  lemma PrevRow(es: seq<Entry>, s: nat, was: nat, hi: nat, valid: bool, now: nat)
    requires was < |es| && hi <= was && NoneShown(es, s, hi, was)
    requires if valid then now < hi && Shown(es, s, now) && NoneShown(es, s, now + 1, hi) else NoneShown(es, s, 0, hi)
    ensures valid == (|RowsTo(es, s, was)| > 0)
    ensures valid ==> |RowsTo(es, s, now)| + 1 == |RowsTo(es, s, was)|
  {
    LastRow(es, s, hi, valid, now);
    RowsGrow(es, s, hi, was);
  }

  /** The last entry of a smaller key ends all the keys before entry `was`. */
  lemma GroupEnds(es: seq<Entry>, s: nat, q: nat, was: nat)
    requires Sorted(es) && q < was < |es| && es[q].user < es[was].user && Shown(es, s, was)
    requires forall j | q < j < was :: es[j].user == es[was].user
    ensures Backing(es, s, q + 1, q + 1, false, 0) && NoneShown(es, s, q + 1, was)
  {
    forall m | q < m < |es| ensures es[was].user <= es[m].user {
      assert m > was ==> Lt(es[was], es[m]);
    }
    forall j | 0 <= j <= q ensures es[j].user <= es[q].user {
      assert j < q ==> Lt(es[j], es[q]);
    }
  }

  lemma InvisibleBetween(es: seq<Entry>, s: nat, at: Option<nat>, was: nat)
    requires Sorted(es) && was < |es| && JustBefore(es, s, at, was)
    ensures var hi := if at.Some? then at.value + 1 else 0; Backing(es, s, hi, hi, false, 0) && NoneShown(es, s, hi, was)
  {
    forall m | was < m < |es| ensures es[was].user <= es[m].user {
      assert Lt(es[was], es[m]);
    }
    if at.Some? {
      forall j | 0 <= j <= at.value ensures es[j].user <= es[at.value].user {
        assert j < at.value ==> Lt(es[j], es[at.value]);
      }
    }
  }

  lemma ScanFrom(es: seq<Entry>, k: UserKey, s: nat)
    requires Sorted(es)
    ensures Scanning(es, s, FirstAtOrAfter(es, k, s), FirstAtOrAfter(es, k, s), false, 0)
  {
    var i := FirstAtOrAfter(es, k, s);
    forall j, m | 0 <= j < i <= m < |es| && es[j].sn <= s ensures es[j].user != es[m].user {
      assert Before(es[j], k, s);
      assert m > i ==> Lt(es[i], es[m]);
    }
  }

  /** Rows before the place a seek lands on have smaller keys, the others do not. */
  lemma SeekRow(es: seq<Entry>, s: nat, k: UserKey, valid: bool, now: nat)
    requires Sorted(es)
    requires var from := FirstAtOrAfter(es, k, s);
      if valid then from <= now < |es| && Shown(es, s, now) && NoneShown(es, s, from, now) else NoneShown(es, s, from, |es|)
    ensures forall r | 0 <= r < |Rows(es, s)| :: Rows(es, s)[r].0 >= k <==> valid && |RowsTo(es, s, now)| <= r
  {
    var from := FirstAtOrAfter(es, k, s);
    forall r | 0 <= r < |Rows(es, s)| ensures Rows(es, s)[r].0 >= k <==> valid && |RowsTo(es, s, now)| <= r {
      var i := RowSource(es, s, |es|, r);
      if i < from {
        assert Before(es[i], k, s);
        if valid { RowsGrow(es, s, i + 1, now); }
      } else {
        assert i > from ==> Lt(es[from], es[i]);
        RowsGrow(es, s, now, i);
      }
    }
  }
}
