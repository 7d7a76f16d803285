/** Merging sorted children into one sorted run, in both directions (table/merger.cc). */
module Merger {
  import opened Options
  import opened Entries
  import opened Cursors

  /** x, one of the union's entries, comes before position q of it. */
  predicate BeforeAt(x: Entry, union: seq<Entry>, q: nat)
    requires q <= |union|
  {
    q < |union| ==> Lt(x, union[q])
  }

  /** The child stands at its first entry from position q of the union on. */
  ghost predicate FirstFrom(c: Cursor, union: seq<Entry>, q: nat)
    requires q <= |union|
  {
    && c.Ok() && (c.at.Some? ==> !BeforeAt(c.es[c.at.value], union, q))
    && forall j | 0 <= j < (if c.at.Some? then c.at.value else |c.es|) :: BeforeAt(c.es[j], union, q)
  }

  /** The child stands at its last entry before position q of the union. */
  ghost predicate LastBefore(c: Cursor, union: seq<Entry>, q: nat)
    requires q <= |union|
  {
    && c.Ok() && (c.at.Some? ==> BeforeAt(c.es[c.at.value], union, q))
    && forall j | (if c.at.Some? then c.at.value + 1 else 0) <= j < |c.es| :: !BeforeAt(c.es[j], union, q)
  }

  ghost predicate InSome(runs: seq<seq<Entry>>, e: Entry) {
    exists i | 0 <= i < |runs| :: e in runs[i]
  }

  /** The runs are sorted, no two share a key, and together they make up the union. */
  ghost predicate Merges(runs: seq<seq<Entry>>, union: seq<Entry>) {
    && Sorted(union) && (forall r | r in runs :: Sorted(r))
    && (forall e :: e in union <==> InSome(runs, e))
    && (forall i, j, x, y | 0 <= i < j < |runs| && x in runs[i] && y in runs[j] :: x.user != y.user || x.sn != y.sn)
  }

  lemma RunInUnion(runs: seq<seq<Entry>>, union: seq<Entry>, i: nat, e: Entry) returns (p: nat)
    requires Merges(runs, union) && i < |runs| && e in runs[i]
    ensures p < |union| && union[p] == e
  {
    assert InSome(runs, e) && e in union;
    p :| p < |union| && union[p] == e;
  }

  /** A run's entries are apart from an entry of another run. */
  lemma NotShared(runs: seq<seq<Entry>>, union: seq<Entry>, i: nat, n: nat, p: nat)
    requires Merges(runs, union) && i < |runs| && n < |runs| && i != n && p < |union| && union[p] in runs[n]
    ensures forall e | e in runs[i] :: Lt(e, union[p]) || Lt(union[p], e)
    ensures forall e | e in runs[i] :: BeforeAt(e, union, p) == BeforeAt(e, union, p + 1)
  {
    forall e | e in runs[i] ensures (Lt(e, union[p]) || Lt(union[p], e)) && BeforeAt(e, union, p) == BeforeAt(e, union, p + 1) {
      var j := RunInUnion(runs, union, i, e);
    }
  }

  /** The run that holds the union's entry p moves past it. */
  lemma OwnerSteps(runs: seq<seq<Entry>>, union: seq<Entry>, n: nat, p: nat, c: Cursor)
    requires Merges(runs, union) && n < |runs| && p < |union| && c.es == runs[n] && c.Ok() && c.Valid() && c.Key() == union[p]
    ensures FirstFrom(c, union, p) && FirstFrom(c.Next(), union, p + 1)
    ensures LastBefore(c, union, p + 1) && LastBefore(c.Prev(), union, p)
  {
    assert c.es in runs;
    forall j | 0 <= j < |c.es| ensures BeforeAt(c.es[j], union, p) == (j < c.at.value) && BeforeAt(c.es[j], union, p + 1) == (j <= c.at.value) {
      var i := RunInUnion(runs, union, n, c.es[j]);
      assert j < c.at.value ==> Lt(c.es[j], c.es[c.at.value]);
      assert j > c.at.value ==> Lt(c.es[c.at.value], c.es[j]);
    }
  }

  /** A seek takes a child to where the union's position for the same key is. */
  lemma ChildSeeks(runs: seq<seq<Entry>>, union: seq<Entry>, i: nat, c: Cursor, k: UserKey, s: nat)
    requires Merges(runs, union) && i < |runs| && c.es == runs[i]
    ensures FirstFrom(c.Seek(k, s), union, FirstAtOrAfter(union, k, s))
  {
    var q := FirstAtOrAfter(union, k, s);
    assert c.es in runs;
    forall j | 0 <= j < |c.es| ensures BeforeAt(c.es[j], union, q) == Before(c.es[j], k, s) {
      var p := RunInUnion(runs, union, i, c.es[j]);
      assert p < q ==> Before(union[p], k, s);
      assert q < |union| && q < p ==> Lt(union[q], union[p]);
    }
  }

  lemma SeekToOwnKey(union: seq<Entry>, p: nat)
    requires Sorted(union) && p < |union|
    ensures FirstAtOrAfter(union, union[p].user, union[p].sn) == p
  {
    var q := FirstAtOrAfter(union, union[p].user, union[p].sn);
    assert q < p ==> Lt(union[q], union[p]);
  }

  /** Stepping back from, or to the end of, what a seek found leaves the last entry before it. */
  lemma StepBack(c: Cursor, union: seq<Entry>, q: nat)
    requires q <= |union| && FirstFrom(c, union, q) && Sorted(c.es)
    ensures LastBefore(if c.Valid() then c.Prev() else c.SeekToLast(), union, q)
  {
    if c.Valid() {
      forall j | c.at.value <= j < |c.es| ensures !BeforeAt(c.es[j], union, q) {
        assert j > c.at.value ==> Lt(c.es[c.at.value], c.es[j]);
      }
    }
  }

  // ---- All children ----

  ghost predicate AreChildren(cs: seq<Cursor>, runs: seq<seq<Entry>>) {
    |cs| == |runs| && forall i | 0 <= i < |cs| :: cs[i].Ok() && cs[i].es == runs[i]
  }

  ghost predicate AllFirst(cs: seq<Cursor>, union: seq<Entry>, q: nat)
    requires q <= |union|
  {
    forall i | 0 <= i < |cs| :: FirstFrom(cs[i], union, q)
  }

  ghost predicate AllLast(cs: seq<Cursor>, union: seq<Entry>, q: nat)
    requires q <= |union|
  {
    forall i | 0 <= i < |cs| :: LastBefore(cs[i], union, q)
  }

  /** Child n stands on the union's entry p. */
  ghost predicate Shows(cs: seq<Cursor>, n: nat, union: seq<Entry>, p: nat)
    requires p < |union|
  {
    n < |cs| && cs[n].Ok() && cs[n].Valid() && cs[n].Key() == union[p]
  }

  lemma FirstIsFirst(runs: seq<seq<Entry>>, union: seq<Entry>, i: nat, c: Cursor)
    requires Merges(runs, union) && i < |runs| && c.es == runs[i]
    ensures FirstFrom(c.SeekToFirst(), union, 0) && LastBefore(c.SeekToLast(), union, |union|)
  {
    if runs[i] != [] {
      assert runs[i][0] in runs[i];
      var p := RunInUnion(runs, union, i, runs[i][0]);
      assert p > 0 ==> Lt(union[0], union[p]);
    }
  }

  lemma OwnerOf(runs: seq<seq<Entry>>, union: seq<Entry>, p: nat) returns (i: nat, j: nat)
    requires Merges(runs, union) && p < |union|
    ensures i < |runs| && j < |runs[i]| && runs[i][j] == union[p] && Sorted(runs[i])
  {
    assert union[p] in union && InSome(runs, union[p]);
    i :| i < |runs| && union[p] in runs[i];
    j :| j < |runs[i]| && runs[i][j] == union[p];
    assert runs[i] in runs;
  }

  lemma ChildKey(cs: seq<Cursor>, runs: seq<seq<Entry>>, union: seq<Entry>, m: nat) returns (p: nat)
    requires Merges(runs, union) && AreChildren(cs, runs) && m < |cs| && cs[m].Valid()
    ensures p < |union| && union[p] == cs[m].Key() && Sorted(union)
  {
    assert cs[m].Key() in runs[m];
    p := RunInUnion(runs, union, m, cs[m].Key());
  }

  /** m is a child with the smallest key, if any child has one. */
  ghost predicate IsSmallest(cs: seq<Cursor>, m: Option<nat>) {
    && (m.Some? ==> m.value < |cs| && cs[m.value].Ok() && cs[m.value].Valid())
    && forall j | 0 <= j < |cs| && cs[j].Ok() && cs[j].Valid() :: m.Some? && !Lt(cs[j].Key(), cs[m.value].Key())
  }

  ghost predicate IsLargest(cs: seq<Cursor>, m: Option<nat>) {
    && (m.Some? ==> m.value < |cs| && cs[m.value].Ok() && cs[m.value].Valid())
    && forall j | 0 <= j < |cs| && cs[j].Ok() && cs[j].Valid() :: m.Some? && !Lt(cs[m.value].Key(), cs[j].Key())
  }

  /** With every child at its first entry from q on, the smallest key is the union's entry q. */
  lemma SmallestIsNext(cs: seq<Cursor>, runs: seq<seq<Entry>>, union: seq<Entry>, q: nat, m: Option<nat>)
    requires Merges(runs, union) && AreChildren(cs, runs) && q <= |union| && AllFirst(cs, union, q) && IsSmallest(cs, m)
    ensures m.Some? <==> q < |union|
    ensures q < |union| ==> Shows(cs, m.value, union, q)
  {
    if m.Some? {
      var p := ChildKey(cs, runs, union, m.value);
      assert FirstFrom(cs[m.value], union, q);
    }
    if q < |union| {
      var i, j := OwnerOf(runs, union, q);
      FirstReaches(cs[i], union, q, j);
    }
  }

  /** A child that holds the union's entry q stands on it. */
  lemma FirstReaches(c: Cursor, union: seq<Entry>, q: nat, j: nat)
    requires q < |union| && FirstFrom(c, union, q) && Sorted(c.es) && j < |c.es| && c.es[j] == union[q]
    ensures c.Valid() && c.Key() == union[q]
  {
    assert !BeforeAt(c.es[j], union, q);
    assert c.Valid() && c.at.value <= j;
  }

  lemma LargestIsPrevious(cs: seq<Cursor>, runs: seq<seq<Entry>>, union: seq<Entry>, q: nat, m: Option<nat>)
    requires Merges(runs, union) && AreChildren(cs, runs) && q <= |union| && AllLast(cs, union, q) && IsLargest(cs, m)
    ensures m.Some? <==> q > 0
    ensures q > 0 ==> Shows(cs, m.value, union, q - 1)
  {
    if m.Some? {
      var p := ChildKey(cs, runs, union, m.value);
      assert LastBefore(cs[m.value], union, q);
      assert q < |union| && q < p ==> Lt(union[q], union[p]);
      assert p < q - 1 ==> Lt(union[p], union[q - 1]);
    }
    if q > 0 {
      var i, j := OwnerOf(runs, union, q - 1);
      LastReaches(cs[i], union, q, j);
    }
  }

  lemma LastReaches(c: Cursor, union: seq<Entry>, q: nat, j: nat)
    requires 0 < q <= |union| && LastBefore(c, union, q) && Sorted(c.es) && Sorted(union) && j < |c.es| && c.es[j] == union[q - 1]
    ensures c.Valid() && !Lt(c.Key(), union[q - 1])
  {
    assert BeforeAt(c.es[j], union, q);
    assert j < c.at.value ==> Lt(c.es[j], c.es[c.at.value]);
  }

  /** The current child steps on; no other child holds the current entry. */
  lemma CurrentNext(cs: seq<Cursor>, runs: seq<seq<Entry>>, union: seq<Entry>, n: nat, p: nat)
    requires Merges(runs, union) && AreChildren(cs, runs) && p < |union| && Shows(cs, n, union, p) && AllFirst(cs, union, p)
    ensures AreChildren(cs[n := cs[n].Next()], runs) && AllFirst(cs[n := cs[n].Next()], union, p + 1)
  {
    OwnerSteps(runs, union, n, p, cs[n]);
    forall i | 0 <= i < |cs| && i != n ensures FirstFrom(cs[i], union, p + 1) {
      NotShared(runs, union, i, n, p);
      OtherSteps(cs[i], union, p);
    }
  }

  lemma CurrentPrev(cs: seq<Cursor>, runs: seq<seq<Entry>>, union: seq<Entry>, n: nat, p: nat)
    requires Merges(runs, union) && AreChildren(cs, runs) && p < |union| && Shows(cs, n, union, p) && AllLast(cs, union, p + 1)
    ensures AreChildren(cs[n := cs[n].Prev()], runs) && AllLast(cs[n := cs[n].Prev()], union, p)
  {
    OwnerSteps(runs, union, n, p, cs[n]);
    forall i | 0 <= i < |cs| && i != n ensures LastBefore(cs[i], union, p) {
      NotShared(runs, union, i, n, p);
      OtherSteps(cs[i], union, p);
    }
  }

  lemma OtherSteps(c: Cursor, union: seq<Entry>, p: nat)
    requires p < |union| && forall e | e in c.es :: BeforeAt(e, union, p) == BeforeAt(e, union, p + 1)
    ensures FirstFrom(c, union, p) <==> FirstFrom(c, union, p + 1)
    ensures LastBefore(c, union, p) <==> LastBefore(c, union, p + 1)
  {
    assert forall j | 0 <= j < |c.es| :: c.es[j] in c.es;
  }

  /** Seek to the current key, and past an equal one. */
  function SeekAfter(c: Cursor, key: Entry): Cursor
    requires c.Ok()
  {
    var d := c.Seek(key.user, key.sn);
    if d.Valid() && d.Key().user == key.user && d.Key().sn == key.sn then d.Next() else d
  }

  /** Seek to the current key, then back to the entry before it. */
  function SeekBefore(c: Cursor, key: Entry): Cursor
    requires c.Ok()
  {
    var d := c.Seek(key.user, key.sn);
    if d.Valid() then d.Prev() else d.SeekToLast()
  }

  /** Turning round: what the other children do, in either direction. */
  lemma OtherTurns(runs: seq<seq<Entry>>, union: seq<Entry>, i: nat, n: nat, p: nat, c: Cursor)
    requires Merges(runs, union) && i < |runs| && n < |runs| && i != n && p < |union| && union[p] in runs[n]
    requires c.Ok() && c.es == runs[i]
    ensures FirstFrom(SeekAfter(c, union[p]), union, p) && LastBefore(SeekBefore(c, union[p]), union, p + 1)
  {
    SeekToOwnKey(union, p);
    ChildSeeks(runs, union, i, c, union[p].user, union[p].sn);
    NotShared(runs, union, i, n, p);
    var d := c.Seek(union[p].user, union[p].sn);
    assert d.Valid() ==> d.Key() in runs[i];
    assert c.es in runs;
    StepBack(d, union, p);
    OtherSteps(SeekBefore(c, union[p]), union, p);
  }

  class MergingIterator {
    const children: array<Cursor>
    ghost const runs: seq<seq<Entry>>
    ghost const union: seq<Entry>
    var current: Option<nat>
    var forward: bool
    ghost var position: Option<nat>

    constructor (children: array<Cursor>, ghost union: seq<Entry>)
      requires Merges(RunsOf(children[..]), union) && forall i | 0 <= i < children.Length :: children[i].Ok()
      ensures Ok() && !Abs().Valid() && this.children == children && this.union == union
    {
      this.children, this.union, this.runs := children, union, RunsOf(children[..]);
      current, forward, position := None, true, None;
    }

    /** The iterator over the union that this one stands for. */
    ghost function Abs(): Cursor
      reads this
    {
      Cursor(union, position)
    }

    ghost predicate Ok()
      reads this, children
    {
      && Merges(runs, union) && AreChildren(children[..], runs) && Abs().Ok() && (current.Some? <==> position.Some?)
      && (position.Some? ==> Shows(children[..], current.value, union, position.value)
                             && if forward then AllFirst(children[..], union, position.value) else AllLast(children[..], union, position.value + 1))
    }

    method Key() returns (e: Entry)
      requires Ok() && Abs().Valid()
      ensures e == Abs().Key()
    {
      e := children[current.value].Key();
    }

    /** The child with the smallest key. */
    method FindSmallest()
      requires forall i | 0 <= i < children.Length :: children[i].Ok()
      modifies this`current
      ensures IsSmallest(children[..], current)
    {
      var smallest: Option<nat> := None;
      for i := 0 to children.Length
        invariant IsSmallest(children[..i], smallest)
      {
        var child := children[i];
        assert children[..i + 1] == children[..i] + [child];
        if child.Valid() {
          if smallest.None? || Lt(child.Key(), children[smallest.value].Key()) {
            smallest := Some(i);
          }
        }
      }
      assert children[..children.Length] == children[..];
      current := smallest;
    }

    /** The child with the largest key; the last child is asked first. */
    method FindLargest()
      requires forall i | 0 <= i < children.Length :: children[i].Ok()
      modifies this`current
      ensures IsLargest(children[..], current)
    {
      var largest: Option<nat> := None;
      for i := children.Length downto 0
        invariant largest.Some? ==> i <= largest.value < children.Length && children[largest.value].Valid()
        invariant forall j | i <= j < children.Length && children[j].Valid() :: largest.Some? && !Lt(children[largest.value].Key(), children[j].Key())
      {
        var child := children[i];
        if child.Valid() {
          if largest.None? || Lt(children[largest.value].Key(), child.Key()) {
            largest := Some(i);
          }
        }
      }
      current := largest;
    }

    method SettleForward(ghost q: nat)
      requires Merges(runs, union) && AreChildren(children[..], runs) && q <= |union| && AllFirst(children[..], union, q)
      modifies this
      ensures Ok() && Abs() == Cursor(union, None).To(q)
    {
      FindSmallest();
      SmallestIsNext(children[..], runs, union, q, current);
      forward := true;
      position := if q < |union| then Some(q) else None;
    }

    method SettleBack(ghost q: nat)
      requires Merges(runs, union) && AreChildren(children[..], runs) && q <= |union| && AllLast(children[..], union, q)
      modifies this
      ensures Ok() && Abs() == Cursor(union, None).To(q - 1)
    {
      FindLargest();
      LargestIsPrevious(children[..], runs, union, q, current);
      forward := false;
      position := if q > 0 then Some(q - 1) else None;
    }

    method SeekToFirst()
      requires Ok()
      modifies this, children
      ensures Ok() && Abs() == old(Abs()).SeekToFirst()
    {
      for i := 0 to children.Length
        invariant AreChildren(children[..], runs) && forall j | 0 <= j < i :: FirstFrom(children[j], union, 0)
      {
        FirstIsFirst(runs, union, i, children[i]);
        children[i] := children[i].SeekToFirst();
      }
      SettleForward(0);
    }

    method SeekToLast()
      requires Ok()
      modifies this, children
      ensures Ok() && Abs() == old(Abs()).SeekToLast()
    {
      for i := 0 to children.Length
        invariant AreChildren(children[..], runs) && forall j | 0 <= j < i :: LastBefore(children[j], union, |union|)
      {
        FirstIsFirst(runs, union, i, children[i]);
        children[i] := children[i].SeekToLast();
      }
      SettleBack(|union|);
    }

    method Seek(k: UserKey, s: nat)
      requires Ok()
      modifies this, children
      ensures Ok() && Abs() == old(Abs()).Seek(k, s)
    {
      ghost var q := FirstAtOrAfter(union, k, s);
      for i := 0 to children.Length
        invariant AreChildren(children[..], runs) && forall j | 0 <= j < i :: FirstFrom(children[j], union, q)
      {
        ChildSeeks(runs, union, i, children[i], k, s);
        children[i] := children[i].Seek(k, s);
      }
      SettleForward(q);
    }

    /** Every child but the current one goes to its first entry after the current key. */
    method TurnForward()
      requires Ok() && Abs().Valid() && !forward
      modifies children
      ensures AreChildren(children[..], runs) && Shows(children[..], current.value, union, position.value)
      ensures AllFirst(children[..], union, position.value)
    {
      ghost var p := position.value;
      var (n, key) := (current.value, children[current.value].Key());
      OwnerSteps(runs, union, n, p, children[n]);
      for i := 0 to children.Length
        invariant AreChildren(children[..], runs) && children[n] == old(children[n])
        invariant forall j | 0 <= j < i :: FirstFrom(children[j], union, p)
      {
        if i != n {
          OtherTurns(runs, union, i, n, p, children[i]);
          children[i] := SeekAfter(children[i], key);
        }
      }
    }

    /** Every child but the current one goes to its last entry before the current key. */
    method TurnBack()
      requires Ok() && Abs().Valid() && forward
      modifies children
      ensures AreChildren(children[..], runs) && Shows(children[..], current.value, union, position.value)
      ensures AllLast(children[..], union, position.value + 1)
    {
      ghost var p := position.value;
      var (n, key) := (current.value, children[current.value].Key());
      OwnerSteps(runs, union, n, p, children[n]);
      for i := 0 to children.Length
        invariant AreChildren(children[..], runs) && children[n] == old(children[n])
        invariant forall j | 0 <= j < i :: LastBefore(children[j], union, p + 1)
      {
        if i != n {
          OtherTurns(runs, union, i, n, p, children[i]);
          children[i] := SeekBefore(children[i], key);
        }
      }
    }

    method Next()
      requires Ok() && Abs().Valid()
      modifies this, children
      ensures Ok() && Abs() == old(Abs()).Next()
    {
      if !forward {
        TurnForward();
      }
      StepForward();
    }

    /** Move the current child, which makes the children cs. */
    method SetCurrent(c: Cursor, ghost cs: seq<Cursor>)
      requires current.Some? && current.value < children.Length && cs == children[..][current.value := c]
      modifies children
      ensures children[..] == cs
    {
      children[current.value] := c;
    }

    /** The current child steps on, and the smallest key is current. */
    method StepForward()
      requires Merges(runs, union) && AreChildren(children[..], runs) && Abs().Ok() && Abs().Valid() && current.Some?
      requires Shows(children[..], current.value, union, position.value) && AllFirst(children[..], union, position.value)
      modifies this, children
      ensures Ok() && Abs() == old(Abs()).Next()
    {
      ghost var cs := children[..];
      var c := children[current.value].Next();
      CurrentNext(cs, runs, union, current.value, position.value);
      SetCurrent(c, cs[current.value := c]);
      SettleForward(position.value + 1);
    }

    method Prev()
      requires Ok() && Abs().Valid()
      modifies this, children
      ensures Ok() && Abs() == old(Abs()).Prev()
    {
      if forward {
        TurnBack();
      }
      StepBackward();
    }

    method StepBackward()
      requires Merges(runs, union) && AreChildren(children[..], runs) && Abs().Ok() && Abs().Valid() && current.Some?
      requires Shows(children[..], current.value, union, position.value) && AllLast(children[..], union, position.value + 1)
      modifies this, children
      ensures Ok() && Abs() == old(Abs()).Prev()
    {
      ghost var cs := children[..];
      var c := children[current.value].Prev();
      CurrentPrev(cs, runs, union, current.value, position.value);
      SetCurrent(c, cs[current.value := c]);
      SettleBack(position.value);
    }
  }

  ghost function RunsOf(children: seq<Cursor>): seq<seq<Entry>> {
    seq(|children|, i requires 0 <= i < |children| => children[i].es)
  }
}
