/**
 When a compaction preserves every read: for every user key and every sequence at or above the
 oldest snapshot, exactly when no dropped deletion marker lets an older version resurface.
 */
module CompactionReads {
  import opened Options
  import opened Entries
  import opened Versions
  import opened Compactions

  /** The memtables hold newer entries than any table. */
  ghost predicate UpperNewer(upper: set<Entry>, levels: Levels) {
    forall x, l, f, y | x in upper && 0 <= l < |levels| && f in levels[l] && y in f.entries && x.user == y.user :: x.sn > y.sn
  }

  /** The files of level L + 1 the compaction leaves in place. */
  ghost function LeftEntries(levels: Levels, L: nat, in1: seq<File>): set<Entry>
    requires L + 1 < |levels|
  {
    set f, e | f in levels[L + 1] && f !in in1 && e in f.entries :: e
  }

  /**
   The newest version of k the oldest snapshot sees is a deletion marker among the inputs, no
   deeper level may hold k, and a level L + 1 file outside the inputs has an older value of k.
   */
  ghost predicate Resurrects(S: set<Entry>, levels: Levels, L: nat, in0: seq<File>, in1: seq<File>, snap: nat, k: UserKey)
    requires L + 1 < |levels|
  {
    exists e, x :: ResurrectsBy(S, levels, L, in0, in1, snap, k, e, x)
  }

  ghost predicate ResurrectsBy(S: set<Entry>, levels: Levels, L: nat, in0: seq<File>, in1: seq<File>, snap: nat, k: UserKey, e: Entry, x: Entry)
    requires L + 1 < |levels|
  {
    && Answers(Some(e), S, k, snap) && e in Inputs(in0, in1) && e.value.None? && BaseLevel(levels, L, k)
    && Answers(Some(x), LeftEntries(levels, L, in1), k, e.sn) && x.value.Some?
  }

  ghost predicate NoResurrection(S: set<Entry>, levels: Levels, L: nat, in0: seq<File>, in1: seq<File>, snap: nat)
    requires L + 1 < |levels|
  {
    forall k :: !Resurrects(S, levels, L, in0, in1, snap, k)
  }

  /** Every read at or above snap returns the same value from S and from T. */
  ghost predicate SameReads(S: set<Entry>, T: set<Entry>, snap: nat) {
    forall k, s, r, r' | snap <= s && Answers(r, S, k, s) && Answers(r', T, k, s) :: ValueOf(r) == ValueOf(r')
  }

  /** What the inputs become. */
  ghost function Kept(levels: Levels, L: nat, in0: seq<File>, in1: seq<File>, snap: nat): set<Entry> {
    set e | e in Inputs(in0, in1) && Survives(e, Inputs(in0, in1), snap, levels, L)
  }

  /** Everything the compaction does not read. */
  ghost predicate Untouched(x: Entry, levels: Levels, L: nat, in0: seq<File>, in1: seq<File>) {
    exists l, f :: 0 <= l < |levels| && f in levels[l] && !(l == L && f in in0) && !(l == L + 1 && f in in1) && x in f.entries
  }

  ghost predicate InputsInPlace(levels: Levels, L: nat, in0: seq<File>, in1: seq<File>) {
    L + 1 < |levels| && (forall f | f in in0 :: f in levels[L]) && (forall f | f in in1 :: f in levels[L + 1])
  }

  /** Whatever stays in level L or above it is newer than the inputs. */
  ghost predicate AboveNewer(levels: Levels, L: nat, in0: seq<File>, in1: seq<File>) {
    forall l, f, g | 0 <= l <= L < |levels| && f in levels[l] && !(l == L && f in in0) && (g in in0 || g in in1) ::
      Newer(f.entries, g.entries)
  }

  ghost predicate UniqueVersions(S: set<Entry>) {
    forall a, b | a in S && b in S && a.user == b.user && a.sn == b.sn :: a == b
  }

  lemma LegalInputsInPlace(levels: Levels, L: nat, in0: seq<File>, in1: seq<File>)
    requires LegalInputs(levels, L, in0, in1)
    ensures InputsInPlace(levels, L, in0, in1)
    ensures AboveNewer(levels, L, in0, in1)
  {
    forall l, f, g | 0 <= l <= L < |levels| && f in levels[l] && !(l == L && f in in0) && (g in in0 || g in in1)
      ensures Newer(f.entries, g.entries)
    {
      if g in in1 { assert g in levels[L + 1]; } else { assert g in levels[L]; }
    }
  }

  lemma EntriesBefore(levels: Levels, L: nat, in0: seq<File>, in1: seq<File>, x: Entry)
    requires InputsInPlace(levels, L, in0, in1)
    ensures x in LevelsEntries(levels) <==> x in Inputs(in0, in1) || Untouched(x, levels, L, in0, in1)
  {
    if x in LevelsEntries(levels) {
      var l, f :| 0 <= l < |levels| && f in levels[l] && x in f.entries;
      assert (l == L && f in in0) || (l == L + 1 && f in in1) || Untouched(x, levels, L, in0, in1);
    }
    if f :| f in in0 && x in f.entries { assert f in levels[L]; }
    if f :| f in in1 && x in f.entries { assert f in levels[L + 1]; }
  }

  lemma EntriesAfter(levels: Levels, now: Levels, L: nat, in0: seq<File>, in1: seq<File>, outs: seq<File>, snap: nat, x: Entry)
    requires L + 1 < NUM_LEVELS == |levels|
    requires LegalOutputs(outs, levels, L, in0, in1, snap) && Installed(levels, now, L, in0, in1, outs)
    ensures x in LevelsEntries(now) <==> x in Kept(levels, L, in0, in1, snap) || Untouched(x, levels, L, in0, in1)
  {
    assert x in FilesEntries(outs) <==> x in Kept(levels, L, in0, in1, snap);
    if x in LevelsEntries(now) {
      var l, f :| 0 <= l < |now| && f in now[l] && x in f.entries;
      if !(l == L + 1 && f in outs) {
        assert f in levels[l] && !(l == L && f in in0) && !(l == L + 1 && f in in1);
        assert Untouched(x, levels, L, in0, in1);
      } else {
        assert x in FilesEntries(outs);
      }
    }
    if f :| f in outs && x in f.entries { assert f in now[L + 1]; }
    if Untouched(x, levels, L, in0, in1) {
      var l, f :| 0 <= l < |levels| && f in levels[l] && !(l == L && f in in0) && !(l == L + 1 && f in in1) && x in f.entries;
      assert f in now[l];
    }
  }

  /** An untouched version of an input's user key that is not newer sits in level L + 1 or deeper. */
  lemma UntouchedOlder(levels: Levels, L: nat, in0: seq<File>, in1: seq<File>, e: Entry, x: Entry)
    requires L + 1 < |levels| && AboveNewer(levels, L, in0, in1)
    requires e in Inputs(in0, in1) && Untouched(x, levels, L, in0, in1) && x.user == e.user && x.sn <= e.sn
    ensures x in LeftEntries(levels, L, in1) || !BaseLevel(levels, L, e.user)
  {
    var l, f :| 0 <= l < |levels| && f in levels[l] && !(l == L && f in in0) && !(l == L + 1 && f in in1) && x in f.entries;
    FileBounds(f, x);
    var g :| (g in in0 || g in in1) && e in g.entries;
  }

  /** No input at or below a visible input survives rule (A). */
  lemma KeptOlder(levels: Levels, L: nat, in0: seq<File>, in1: seq<File>, snap: nat, e: Entry, x: Entry)
    requires e in Inputs(in0, in1) && e.sn <= snap && x.user == e.user && x.sn < e.sn
    ensures x !in Kept(levels, L, in0, in1, snap)
  {
    if x in Inputs(in0, in1) { assert Hidden(x, Inputs(in0, in1), snap); }
  }

  /** A visible entry that was dropped is an obsolete deletion marker, visible to the oldest snapshot too. */
  lemma DroppedVisible(S: set<Entry>, levels: Levels, L: nat, in0: seq<File>, in1: seq<File>, snap: nat, e: Entry, k: UserKey, s: nat)
    requires Inputs(in0, in1) <= S && Answers(Some(e), S, k, s) && snap <= s
    requires e in Inputs(in0, in1) && e !in Kept(levels, L, in0, in1, snap)
    ensures e.value.None? && BaseLevel(levels, L, k) && Answers(Some(e), S, k, snap)
  {
    assert !Hidden(e, Inputs(in0, in1), snap);
  }

  /** S and T are the entries before and after a compaction that drops what Survives rejects. */
  ghost predicate CompactedTo(S: set<Entry>, T: set<Entry>, upper: set<Entry>, levels: Levels, L: nat, in0: seq<File>, in1: seq<File>, snap: nat)
    requires L + 1 < |levels|
  {
    && (forall x :: x in S <==> x in upper || x in Inputs(in0, in1) || Untouched(x, levels, L, in0, in1))
    && (forall x :: x in T <==> x in upper || x in Kept(levels, L, in0, in1, snap) || Untouched(x, levels, L, in0, in1))
    && (forall x, e | x in upper && e in Inputs(in0, in1) && x.user == e.user :: x.sn > e.sn)
    && AboveNewer(levels, L, in0, in1)
    && UniqueVersions(Inputs(in0, in1))
  }

  /** After dropping the visible marker e, the newest left-behind version of the key is what a read finds. */
  lemma AnswerAfterDrop(S: set<Entry>, T: set<Entry>, upper: set<Entry>, levels: Levels, L: nat, in0: seq<File>, in1: seq<File>, snap: nat,
                        e: Entry, x: Option<Entry>, k: UserKey, s: nat)
    requires L + 1 < |levels| && CompactedTo(S, T, upper, levels, L, in0, in1, snap)
    requires Answers(Some(e), S, k, s) && snap <= s
    requires e in Inputs(in0, in1) && e !in Kept(levels, L, in0, in1, snap)
    requires Answers(x, LeftEntries(levels, L, in1), k, e.sn)
    ensures Answers(x, T, k, s)
  {
    DroppedVisible(S, levels, L, in0, in1, snap, e, k, s);
    forall y | y in T && y.user == k && y.sn <= s
      ensures y in LeftEntries(levels, L, in1) && y.sn <= e.sn
    {
      assert y in S;
      if y in Kept(levels, L, in0, in1, snap) {
        KeptOlder(levels, L, in0, in1, snap, e, y);
      } else if y !in upper {
        UntouchedOlder(levels, L, in0, in1, e, y);
      }
    }
  }

  lemma PreservedIfNoResurrection(S: set<Entry>, T: set<Entry>, upper: set<Entry>, levels: Levels, L: nat, in0: seq<File>, in1: seq<File>, snap: nat,
                                  k: UserKey, s: nat, r: Option<Entry>, r': Option<Entry>)
    requires L + 1 < |levels| && CompactedTo(S, T, upper, levels, L, in0, in1, snap)
    requires !Resurrects(S, levels, L, in0, in1, snap, k)
    requires snap <= s && Answers(r, S, k, s) && Answers(r', T, k, s) && UniqueVersions(S)
    ensures ValueOf(r) == ValueOf(r')
  {
    assert forall x | x in T :: x in S;
    if r.None? {
    } else if r.value in T {
      SameAnswer(T, r, r', k, s);
    } else {
      var e := r.value;
      var x := AnswerExists(LeftEntries(levels, L, in1), k, e.sn);
      AnswerAfterDrop(S, T, upper, levels, L, in0, in1, snap, e, x, k, s);
      DroppedVisible(S, levels, L, in0, in1, snap, e, k, s);
      SameAnswer(T, r', x, k, s);
      if x.Some? { assert !ResurrectsBy(S, levels, L, in0, in1, snap, k, e, x.value); }
    }
  }

  lemma SameAnswer(T: set<Entry>, r: Option<Entry>, x: Option<Entry>, k: UserKey, s: nat)
    requires Answers(r, T, k, s) && Answers(x, T, k, s) && UniqueVersions(T)
    ensures r == x
  {
    if r.Some? && x.Some? { assert r.value.sn == x.value.sn; }
  }

  /** A resurrection changes the read of its key at the oldest snapshot from deleted to found. */
  lemma ResurrectionShows(S: set<Entry>, T: set<Entry>, upper: set<Entry>, levels: Levels, L: nat, in0: seq<File>, in1: seq<File>, snap: nat, k: UserKey)
    requires L + 1 < |levels| && CompactedTo(S, T, upper, levels, L, in0, in1, snap)
    requires Resurrects(S, levels, L, in0, in1, snap, k)
    ensures !SameReads(S, T, snap)
  {
    var e, x :| ResurrectsBy(S, levels, L, in0, in1, snap, k, e, x);
    AnswerAfterDrop(S, T, upper, levels, L, in0, in1, snap, e, Some(x), k, snap);
    assert ValueOf(Some(e)) != ValueOf(Some(x));
  }

  /**
   The read theorem: a compaction with legal inputs and outputs keeps the answer of every read
   at or above the oldest snapshot if and only if no deletion marker it drops covers an older
   value outside its inputs.
   */
  lemma CompactionPreservesReads(upper: set<Entry>, levels: Levels, now: Levels, L: nat, in0: seq<File>, in1: seq<File>, outs: seq<File>, snap: nat)
    requires LegalInputs(levels, L, in0, in1) && LegalOutputs(outs, levels, L, in0, in1, snap)
    requires Installed(levels, now, L, in0, in1, outs)
    requires UpperNewer(upper, levels) && UniqueVersions(upper + LevelsEntries(levels))
    ensures SameReads(upper + LevelsEntries(levels), upper + LevelsEntries(now), snap)
       <==> NoResurrection(upper + LevelsEntries(levels), levels, L, in0, in1, snap)
  {
    var S, T := upper + LevelsEntries(levels), upper + LevelsEntries(now);
    InstalledEntries(upper, levels, now, L, in0, in1, outs, snap);
    if NoResurrection(S, levels, L, in0, in1, snap) {
      forall k, s, r, r' | snap <= s && Answers(r, S, k, s) && Answers(r', T, k, s) ensures ValueOf(r) == ValueOf(r') {
        PreservedIfNoResurrection(S, T, upper, levels, L, in0, in1, snap, k, s, r, r');
      }
    } else {
      var k :| Resurrects(S, levels, L, in0, in1, snap, k);
      ResurrectionShows(S, T, upper, levels, L, in0, in1, snap, k);
    }
  }

  lemma InstalledEntries(upper: set<Entry>, levels: Levels, now: Levels, L: nat, in0: seq<File>, in1: seq<File>, outs: seq<File>, snap: nat)
    requires LegalInputs(levels, L, in0, in1) && LegalOutputs(outs, levels, L, in0, in1, snap)
    requires Installed(levels, now, L, in0, in1, outs)
    requires UpperNewer(upper, levels) && UniqueVersions(upper + LevelsEntries(levels))
    ensures CompactedTo(upper + LevelsEntries(levels), upper + LevelsEntries(now), upper, levels, L, in0, in1, snap)
  {
    LegalInputsInPlace(levels, L, in0, in1);
    UpperNewerThanInputs(upper, levels, L, in0, in1);
    forall x
      ensures x in LevelsEntries(levels) <==> x in Inputs(in0, in1) || Untouched(x, levels, L, in0, in1)
      ensures x in LevelsEntries(now) <==> x in Kept(levels, L, in0, in1, snap) || Untouched(x, levels, L, in0, in1)
    {
      EntriesBefore(levels, L, in0, in1, x);
      EntriesAfter(levels, now, L, in0, in1, outs, snap, x);
    }
  }

  lemma UpperNewerThanInputs(upper: set<Entry>, levels: Levels, L: nat, in0: seq<File>, in1: seq<File>)
    requires InputsInPlace(levels, L, in0, in1) && UpperNewer(upper, levels)
    ensures forall x, e | x in upper && e in Inputs(in0, in1) && x.user == e.user :: x.sn > e.sn
  {
    forall x, e | x in upper && e in Inputs(in0, in1) && x.user == e.user ensures x.sn > e.sn {
      if f :| f in in0 && e in f.entries {
        assert f in levels[L];
      } else {
        var f :| f in in1 && e in f.entries;
        assert f in levels[L + 1];
      }
    }
  }

  // ---- When no key straddles the edge of the level L + 1 inputs ----

  /** No user key has entries both in a level L + 1 input and in a level L + 1 file left behind. */
  ghost predicate EdgesClosed(levels: Levels, L: nat, in1: seq<File>)
    requires L + 1 < |levels|
  {
    forall f, g | f in in1 && g in levels[L + 1] && g !in in1 ::
      f.Largest().user != g.Smallest().user && g.Largest().user != f.Smallest().user
  }

  /** Closed edges are enough: then no key can resurface, whatever the entries are. */
  lemma ClosedEdgesPreventResurrection(S: set<Entry>, levels: Levels, L: nat, in0: seq<File>, in1: seq<File>, snap: nat)
    requires LegalInputs(levels, L, in0, in1) && EdgesClosed(levels, L, in1)
    ensures NoResurrection(S, levels, L, in0, in1, snap)
  {
    forall k, e, x | ResurrectsBy(S, levels, L, in0, in1, snap, k, e, x) ensures false {
      var g :| g in levels[L + 1] && g !in in1 && x in g.entries;
      var f :| (f in in0 || f in in1) && e in f.entries;
      NoSharedKey(levels, L, in0, in1, f, g, e, x);
    }
  }

  lemma NoSharedKey(levels: Levels, L: nat, in0: seq<File>, in1: seq<File>, f: File, g: File, e: Entry, x: Entry)
    requires LegalInputs(levels, L, in0, in1) && EdgesClosed(levels, L, in1)
    requires g in levels[L + 1] && g !in in1 && x in g.entries
    requires (f in in0 || f in in1) && e in f.entries
    ensures e.user != x.user
  {
    LeftBehindApart(levels, L, in0, in1, g, f);
    FileBounds(f, e);
    FileBounds(g, x);
    if f in in0 {
      assert !OverlapsFiles(g, in0);
    }
  }

  // ---- The failing input ----

  lemma OneFileLevel(l: nat, f: File)
    ensures LevelOk(l, [f])
  {
  }

  lemma TwoFileLevel(l: nat, f: File, g: File)
    requires l > 0 && FileLt(f, g) && f.number != g.number
    ensures LevelOk(l, [f, g])
  {
    FileBounds(f, f.Largest());
    forall i, j | 0 <= i < j < 2 ensures FileLt([f, g][i], [f, g][j]) && SmallestLt([f, g][i], [f, g][j]) {
    }
  }

  const OLD: Entry := Entry(1, 1, Some("old"))
  const STALE: Entry := Entry(5, 2, Some("stale"))
  const MARKER: Entry := Entry(5, 3, None)
  const NEW: Entry := Entry(1, 4, Some("new"))

  ghost predicate OnlyLevels2And3(levels: Levels) {
    |levels| == NUM_LEVELS && forall l | 0 <= l < NUM_LEVELS && l != 2 && l != 3 :: levels[l] == []
  }

  /** The deletion of key 5 ends one level 3 file and its older value starts the next; level 2 holds key 1 alone. */
  ghost predicate Straddling(levels: Levels, a: File, f: File, g: File) {
    && OnlyLevels2And3(levels) && levels[2] == [a] && levels[3] == [f, g]
    && a.entries == [NEW] && f.entries == [OLD, MARKER] && g.entries == [STALE] && f.number != g.number
  }

  lemma OneFile(f: File)
    ensures forall x :: x in [f] <==> x == f
    ensures FilesEntries([f]) == SetOf(f.entries)
    ensures UserLo([f]) == f.Smallest().user && UserHi([f]) == f.Largest().user
  {
    assert f in [f];
  }

  lemma TwoFiles(f: File, g: File)
    ensures forall x :: x in [f, g] <==> x == f || x == g
    ensures FilesEntries([f, g]) == SetOf(f.entries) + SetOf(g.entries)
  {
    assert f in [f, g] && g in [f, g];
  }

  lemma EntriesOfLevels2And3(levels: Levels)
    requires OnlyLevels2And3(levels)
    ensures LevelsEntries(levels) == FilesEntries(levels[2]) + FilesEntries(levels[3])
  {
    forall l, f | 0 <= l < NUM_LEVELS && f in levels[l] ensures l == 2 || l == 3 {
    }
  }

  lemma StraddlingFiles(levels: Levels, a: File, f: File, g: File)
    requires Straddling(levels, a, f, g)
    ensures FilesEntries([a]) == {NEW} && FilesEntries([f]) == {OLD, MARKER} && FilesEntries([f, g]) == {OLD, MARKER, STALE}
  {
    OneFile(a);
    OneFile(f);
    TwoFiles(f, g);
  }

  lemma StraddlingLevelsOk(levels: Levels, a: File, f: File, g: File)
    requires Straddling(levels, a, f, g)
    ensures LevelsOk(levels)
  {
    OneFileLevel(2, a);
    TwoFileLevel(3, f, g);
    forall l, m, x, y | 0 <= l < m < NUM_LEVELS && x in levels[l] && y in levels[m] ensures Newer(x.entries, y.entries) {
      assert x == a && (y == f || y == g);
    }
  }

  lemma OnlyTheFirstMeets(a: File, f: File, g: File, in0: seq<File>)
    requires a.entries == [NEW] && f.entries == [OLD, MARKER] && g.entries == [STALE]
    requires in0 != [] && forall x | x in in0 :: x == a
    ensures OverlapsFiles(f, in0) && !OverlapsFiles(g, in0)
  {
    assert IsUserLo(in0, UserLo(in0)) && IsUserHi(in0, UserHi(in0));
    assert in0[0] in in0;
  }

  lemma StraddlingLegalInputs(levels: Levels, a: File, f: File, g: File)
    requires Straddling(levels, a, f, g)
    ensures LegalInputs(levels, 2, [a], [f])
  {
    StraddlingLevelsOk(levels, a, f, g);
    OneFile(a);
    OneFile(f);
    TwoFiles(f, g);
    OnlyTheFirstMeets(a, f, g, [a]);
  }

  /** A compaction of that level 2 has no other choice of inputs. */
  lemma StraddlingForcesInputs(levels: Levels, a: File, f: File, g: File, in0: seq<File>, in1: seq<File>)
    requires Straddling(levels, a, f, g)
    requires in0 != [] && (forall x | x in in0 :: x in levels[2]) && forall x :: x in in1 <==> x in levels[3] && OverlapsFiles(x, in0)
    ensures forall x :: x in in0 <==> x == a
    ensures forall x :: x in in1 <==> x == f
  {
    assert in0[0] in in0;
    OneFile(a);
    TwoFiles(f, g);
    OnlyTheFirstMeets(a, f, g, in0);
  }

  /** Only the new value of key 1 survives: the old one is hidden, the deletion marker obsolete. */
  lemma StraddlingSurvivors(levels: Levels, input: set<Entry>)
    requires OnlyLevels2And3(levels) && input == {NEW, OLD, MARKER}
    ensures (set e | e in input && Survives(e, input, 4, levels, 2)) == {NEW}
  {
    assert Hidden(OLD, input, 4);
    assert BaseLevel(levels, 2, 5);
  }

  lemma StraddlingLegalOutputs(levels: Levels, a: File, f: File, g: File, out: File)
    requires Straddling(levels, a, f, g) && out.entries == [NEW] && out.number != f.number && out.number != g.number
    ensures LegalOutputs([out], levels, 2, [a], [f], 4)
  {
    StraddlingFiles(levels, a, f, g);
    assert Inputs([a], [f]) == {NEW, OLD, MARKER};
    StraddlingSurvivors(levels, Inputs([a], [f]));
    OneFile(out);
    TwoFiles(f, g);
  }

  lemma StraddlingInstalled(levels: Levels, now: Levels, a: File, f: File, g: File, out: File)
    requires Straddling(levels, a, f, g) && out.entries == [NEW] && now == levels[2 := []][3 := [out, g]]
    ensures Installed(levels, now, 2, [a], [f], [out])
  {
    OneFile(a);
    OneFile(f);
    OneFile(out);
    TwoFiles(f, g);
    TwoFiles(out, g);
  }

  lemma StraddlingContents(levels: Levels, now: Levels, a: File, f: File, g: File, out: File)
    requires Straddling(levels, a, f, g) && out.entries == [NEW] && now == levels[2 := []][3 := [out, g]]
    ensures LevelsEntries(levels) == {NEW, OLD, MARKER, STALE} && LevelsEntries(now) == {NEW, STALE}
  {
    StraddlingFiles(levels, a, f, g);
    EntriesOfLevels2And3(levels);
    OneFile(out);
    OneFile(g);
    TwoFiles(out, g);
    EntriesOfLevels2And3(now);
  }

  /** Two different answers to one read tell of a resurrection. */
  lemma ChangedReadResurrects(levels: Levels, now: Levels, L: nat, in0: seq<File>, in1: seq<File>, outs: seq<File>, snap: nat,
                              e: Entry, x: Entry, k: UserKey)
    requires LegalInputs(levels, L, in0, in1) && LegalOutputs(outs, levels, L, in0, in1, snap)
    requires Installed(levels, now, L, in0, in1, outs) && UniqueVersions(LevelsEntries(levels))
    requires Answers(Some(e), LevelsEntries(levels), k, snap) && Answers(Some(x), LevelsEntries(now), k, snap) && e.value != x.value
    ensures !SameReads(LevelsEntries(levels), LevelsEntries(now), snap) && !NoResurrection(LevelsEntries(levels), levels, L, in0, in1, snap)
  {
    var none: set<Entry> := {};
    assert none + LevelsEntries(levels) == LevelsEntries(levels) && none + LevelsEntries(now) == LevelsEntries(now);
    assert ValueOf(Some(e)) != ValueOf(Some(x));
    CompactionPreservesReads(none, levels, now, L, in0, in1, outs, snap);
  }

  ghost predicate AfterStraddling(levels: Levels, now: Levels, f: File, g: File, out: File)
    requires |levels| == NUM_LEVELS
  {
    out.entries == [NEW] && out.number != f.number && out.number != g.number && now == levels[2 := []][3 := [out, g]]
  }

  lemma StraddlingCompaction(levels: Levels, now: Levels, a: File, f: File, g: File, out: File)
    requires Straddling(levels, a, f, g) && AfterStraddling(levels, now, f, g, out)
    ensures LegalInputs(levels, 2, [a], [f]) && LegalOutputs([out], levels, 2, [a], [f], 4) && Installed(levels, now, 2, [a], [f], [out])
  {
    StraddlingLegalInputs(levels, a, f, g);
    StraddlingLegalOutputs(levels, a, f, g, out);
    StraddlingInstalled(levels, now, a, f, g, out);
  }

  lemma StraddlingReads(levels: Levels, now: Levels, a: File, f: File, g: File, out: File)
    requires Straddling(levels, a, f, g) && AfterStraddling(levels, now, f, g, out)
    ensures Answers(Some(MARKER), LevelsEntries(levels), 5, 4) && Answers(Some(STALE), LevelsEntries(now), 5, 4)
    ensures UniqueVersions(LevelsEntries(levels))
  {
    StraddlingContents(levels, now, a, f, g, out);
  }

  /**
   Input selection does not close the level L + 1 inputs on shared boundary user keys, so the
   deletion marker is an input and is dropped while the value it deletes is not an input and stays:
   before the compaction a read finds key 5 deleted, after it a read finds the stale value.
   */
  lemma StraddlingKeyResurrects(levels: Levels, now: Levels, a: File, f: File, g: File, out: File)
    requires Straddling(levels, a, f, g) && AfterStraddling(levels, now, f, g, out)
    ensures LegalInputs(levels, 2, [a], [f]) && LegalOutputs([out], levels, 2, [a], [f], 4) && Installed(levels, now, 2, [a], [f], [out])
    ensures Answers(Some(MARKER), LevelsEntries(levels), 5, 4) && Answers(Some(STALE), LevelsEntries(now), 5, 4)
    ensures !SameReads(LevelsEntries(levels), LevelsEntries(now), 4) && !NoResurrection(LevelsEntries(levels), levels, 2, [a], [f], 4)
  {
    StraddlingCompaction(levels, now, a, f, g, out);
    StraddlingReads(levels, now, a, f, g, out);
    ChangedReadResurrects(levels, now, 2, [a], [f], [out], 4, MARKER, STALE, 5);
  }
}
