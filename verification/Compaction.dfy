/**
 What a compaction of level L into level L + 1 keeps (db/db_impl.cc DoCompactionWork,
 db/version_set.cc Compaction::IsBaseLevelForKey).
 */
module Compactions {
  import opened Options
  import opened Entries
  import opened Versions

  ghost predicate IsUserLo(files: seq<File>, lo: UserKey) {
    (forall f | f in files :: lo <= f.Smallest().user) && exists f :: f in files && f.Smallest().user == lo
  }

  ghost predicate IsUserHi(files: seq<File>, hi: UserKey) {
    (forall f | f in files :: f.Largest().user <= hi) && exists f :: f in files && f.Largest().user == hi
  }

  lemma UserRangeExists(files: seq<File>)
    requires files != []
    ensures exists lo :: IsUserLo(files, lo)
    ensures exists hi :: IsUserHi(files, hi)
  {
    var f := files[0];
    assert f in files;
    if |files| == 1 {
      assert IsUserLo(files, f.Smallest().user) && IsUserHi(files, f.Largest().user);
    } else {
      UserRangeExists(files[1..]);
      var lo :| IsUserLo(files[1..], lo);
      var hi :| IsUserHi(files[1..], hi);
      assert forall g :: g in files <==> g == f || g in files[1..];
      assert IsUserLo(files, if lo < f.Smallest().user then lo else f.Smallest().user);
      assert IsUserHi(files, if hi > f.Largest().user then hi else f.Largest().user);
    }
  }

  /** Least user key of the files. */
  ghost function UserLo(files: seq<File>): (lo: UserKey)
    requires files != []
    ensures IsUserLo(files, lo)
  {
    UserRangeExists(files);
    var lo :| IsUserLo(files, lo);
    lo
  }

  /** Greatest user key of the files. */
  ghost function UserHi(files: seq<File>): (hi: UserKey)
    requires files != []
    ensures IsUserHi(files, hi)
  {
    UserRangeExists(files);
    var hi :| IsUserHi(files, hi);
    hi
  }

  ghost predicate OverlapsFiles(f: File, files: seq<File>)
    requires files != []
  {
    Overlaps(f, Some(UserLo(files)), Some(UserHi(files)))
  }

  /**
   The inputs a compaction may have: in1 is every file of level L + 1 that overlaps the user
   range of in0, and a file left behind in level L is newer than every input of that level.
   */
  ghost predicate LegalInputs(levels: Levels, L: nat, in0: seq<File>, in1: seq<File>) {
    && LevelsOk(levels) && L + 1 < NUM_LEVELS && in0 != []
    && (forall f | f in in0 :: f in levels[L])
    && (forall f :: f in in1 <==> f in levels[L + 1] && OverlapsFiles(f, in0))
    && (forall f, g | f in in0 && g in levels[L] && g !in in0 :: Newer(g.entries, f.entries))
  }

  ghost function Inputs(in0: seq<File>, in1: seq<File>): set<Entry> {
    FilesEntries(in0) + FilesEntries(in1)
  }

  /** No level deeper than L + 1 has a file whose user range holds k. */
  ghost predicate BaseLevel(levels: Levels, L: nat, k: UserKey) {
    forall m, f | L + 2 <= m < |levels| && f in levels[m] :: !(f.Smallest().user <= k <= f.Largest().user)
  }

  /** Rule (A): a newer input for the same user key is already visible to the oldest snapshot. */
  ghost predicate Hidden(e: Entry, input: set<Entry>, snap: nat) {
    exists x :: x in input && x.user == e.user && e.sn < x.sn <= snap
  }

  /** The second rule: a deletion marker every snapshot sees, with no older data below. */
  ghost predicate Obsolete(e: Entry, snap: nat, levels: Levels, L: nat) {
    e.value.None? && e.sn <= snap && BaseLevel(levels, L, e.user)
  }

  ghost predicate Survives(e: Entry, input: set<Entry>, snap: nat, levels: Levels, L: nat) {
    !Hidden(e, input, snap) && !Obsolete(e, snap, levels, L)
  }

  /** `now` is the level `was` with the files of `gone` replaced by `added`, in builder order. */
  ghost predicate Edited(was: seq<File>, now: seq<File>, gone: seq<File>, added: seq<File>) {
    && SortedBySmallest(now)
    && forall f :: f in now <==> (f in was && f !in gone) || f in added
  }

  /** The version after the compaction's edit. */
  ghost predicate Installed(levels: Levels, now: Levels, L: nat, in0: seq<File>, in1: seq<File>, outs: seq<File>)
    requires L + 1 < NUM_LEVELS && |levels| == NUM_LEVELS
  {
    && |now| == NUM_LEVELS
    && Edited(levels[L], now[L], in0, [])
    && Edited(levels[L + 1], now[L + 1], in1, outs)
    && forall m | 0 <= m < NUM_LEVELS && m != L && m != L + 1 :: now[m] == levels[m]
  }

  /** The output files hold only inputs, in order, under numbers fresh at their level. */
  ghost predicate OutputsWithin(outs: seq<File>, levels: Levels, L: nat, in0: seq<File>, in1: seq<File>)
    requires L + 1 < |levels|
  {
    && Disjoint(outs) && DistinctNumbers(outs)
    && (forall f, g | f in outs && g in levels[L + 1] :: f.number != g.number)
    && FilesEntries(outs) <= Inputs(in0, in1)
  }

  /** The outputs of the drop loop: exactly the surviving inputs. */
  ghost predicate LegalOutputs(outs: seq<File>, levels: Levels, L: nat, in0: seq<File>, in1: seq<File>, snap: nat)
    requires L + 1 < |levels|
  {
    && OutputsWithin(outs, levels, L, in0, in1)
    && FilesEntries(outs) == set e | e in Inputs(in0, in1) && Survives(e, Inputs(in0, in1), snap, levels, L)
  }

  // ---- Keeping the level invariant ----

  /** LevelOk as a statement about pairs of distinct files. */
  ghost predicate PairsOk(l: nat, files: seq<File>) {
    forall f, g | f in files && g in files && f != g ::
      && f.number != g.number
      && (l > 0 ==> FileLt(f, g) || FileLt(g, f))
      && (l == 0 && f.number > g.number ==> Newer(f.entries, g.entries))
  }

  lemma PairsFromLevel(l: nat, files: seq<File>)
    requires LevelOk(l, files)
    ensures PairsOk(l, files)
  {
    forall f, g | f in files && g in files && f != g
      ensures f.number != g.number && (l > 0 ==> FileLt(f, g) || FileLt(g, f))
    {
      var i :| 0 <= i < |files| && files[i] == f;
      var j :| 0 <= j < |files| && files[j] == g;
      assert i < j || j < i;
    }
  }

  lemma LevelFromPairs(l: nat, files: seq<File>)
    requires SortedBySmallest(files) && PairsOk(l, files)
    ensures LevelOk(l, files)
  {
    forall i, j | 0 <= i < j < |files|
      ensures files[i].number != files[j].number && (l > 0 ==> FileLt(files[i], files[j]))
    {
      assert SmallestLt(files[i], files[j]);
      assert files[i] != files[j];
      FileBounds(files[j], files[j].Largest());
    }
  }

  lemma LeftBehindApart(levels: Levels, L: nat, in0: seq<File>, in1: seq<File>, g: File, f: File)
    requires LegalInputs(levels, L, in0, in1)
    requires g in levels[L + 1] && g !in in1 && (f in in0 || f in in1)
    ensures if g.Largest().user < UserLo(in0) then FileLt(g, f) else FileLt(f, g)
  {
    assert !OverlapsFiles(g, in0);
    FileBounds(g, g.Largest());
    FileBounds(f, f.Largest());
    if f !in in0 {
      assert OverlapsFiles(f, in0);
      PairsFromLevel(L + 1, levels[L + 1]);
    }
  }

  /** A level L + 1 file left behind lies entirely before or entirely after all the inputs. */
  lemma LeftBehindIsOutside(levels: Levels, L: nat, in0: seq<File>, in1: seq<File>, g: File, e: Entry)
    requires LegalInputs(levels, L, in0, in1)
    requires g in levels[L + 1] && g !in in1 && e in Inputs(in0, in1)
    ensures if g.Largest().user < UserLo(in0) then Lt(g.Largest(), e) else Lt(e, g.Smallest())
  {
    var f :| (f in in0 || f in in1) && e in f.entries;
    FileBounds(f, e);
    LeftBehindApart(levels, L, in0, in1, g, f);
  }

  lemma OutputsAreInputs(levels: Levels, L: nat, in0: seq<File>, in1: seq<File>, outs: seq<File>, f: File, e: Entry)
    requires L + 1 < |levels| && OutputsWithin(outs, levels, L, in0, in1)
    requires f in outs && e in f.entries
    ensures e in Inputs(in0, in1)
  {
    assert e in FilesEntries(outs);
  }

  lemma OutputsApart(levels: Levels, L: nat, in0: seq<File>, in1: seq<File>, outs: seq<File>, g: File, f: File)
    requires LegalInputs(levels, L, in0, in1) && OutputsWithin(outs, levels, L, in0, in1)
    requires g in levels[L + 1] && g !in in1 && f in outs
    ensures FileLt(f, g) || FileLt(g, f)
  {
    OutputsAreInputs(levels, L, in0, in1, outs, f, f.Smallest());
    OutputsAreInputs(levels, L, in0, in1, outs, f, f.Largest());
    LeftBehindIsOutside(levels, L, in0, in1, g, f.Smallest());
    LeftBehindIsOutside(levels, L, in0, in1, g, f.Largest());
  }

  /** The level a compaction writes to stays sorted and disjoint. */
  lemma OutputLevelOk(levels: Levels, now: Levels, L: nat, in0: seq<File>, in1: seq<File>, outs: seq<File>)
    requires LegalInputs(levels, L, in0, in1) && OutputsWithin(outs, levels, L, in0, in1)
    requires Installed(levels, now, L, in0, in1, outs)
    ensures LevelOk(L + 1, now[L + 1])
  {
    PairsFromLevel(L + 1, levels[L + 1]);
    forall f, g | f in now[L + 1] && g in now[L + 1] && f != g
      ensures f.number != g.number && (FileLt(f, g) || FileLt(g, f))
    {
      if f in outs && g in outs {
        var i :| 0 <= i < |outs| && outs[i] == f;
        var j :| 0 <= j < |outs| && outs[j] == g;
        assert i < j || j < i;
      } else if f in outs {
        OutputsApart(levels, L, in0, in1, outs, g, f);
      } else if g in outs {
        OutputsApart(levels, L, in0, in1, outs, f, g);
      }
    }
    LevelFromPairs(L + 1, now[L + 1]);
  }

  lemma InputLevelOk(levels: Levels, now: Levels, L: nat, in0: seq<File>, in1: seq<File>, outs: seq<File>)
    requires LevelsOk(levels) && L + 1 < NUM_LEVELS && Installed(levels, now, L, in0, in1, outs)
    ensures LevelOk(L, now[L])
  {
    PairsFromLevel(L, levels[L]);
    LevelFromPairs(L, now[L]);
  }

  /** Entries newer than every input of the compaction are newer than every output. */
  lemma NewerThanOutputs(levels: Levels, L: nat, in0: seq<File>, in1: seq<File>, outs: seq<File>, a: seq<Entry>, f: File)
    requires L + 1 < |levels| && OutputsWithin(outs, levels, L, in0, in1) && f in outs
    requires forall g | g in in0 || g in in1 :: Newer(a, g.entries)
    ensures Newer(a, f.entries)
  {
    forall x, y | x in a && y in f.entries && x.user == y.user ensures x.sn > y.sn {
      assert y in FilesEntries(outs);
      var g :| (g in in0 || g in in1) && y in g.entries;
      assert Newer(a, g.entries);
    }
  }

  lemma OutputsNewer(levels: Levels, L: nat, in0: seq<File>, in1: seq<File>, outs: seq<File>, b: seq<Entry>, f: File)
    requires L + 1 < |levels| && OutputsWithin(outs, levels, L, in0, in1) && f in outs
    requires forall g | g in in0 || g in in1 :: Newer(g.entries, b)
    ensures Newer(f.entries, b)
  {
    forall x, y | x in f.entries && y in b && x.user == y.user ensures x.sn > y.sn {
      assert x in FilesEntries(outs);
      var g :| (g in in0 || g in in1) && x in g.entries;
      assert Newer(g.entries, b);
    }
  }

  lemma CompactionKeepsOrder(levels: Levels, now: Levels, L: nat, in0: seq<File>, in1: seq<File>, outs: seq<File>,
                             l: nat, m: nat, f: File, g: File)
    requires LegalInputs(levels, L, in0, in1) && OutputsWithin(outs, levels, L, in0, in1)
    requires Installed(levels, now, L, in0, in1, outs)
    requires l < m < NUM_LEVELS && f in now[l] && g in now[m]
    ensures Newer(f.entries, g.entries)
  {
    if m == L + 1 && g in outs {
      forall x | x in in0 || x in in1 ensures Newer(f.entries, x.entries) {
        assert f in levels[l];
      }
      NewerThanOutputs(levels, L, in0, in1, outs, f.entries, g);
    } else if l == L + 1 && f in outs {
      forall x | x in in0 || x in in1 ensures Newer(x.entries, g.entries) {
        assert g in levels[m];
      }
      OutputsNewer(levels, L, in0, in1, outs, g.entries, f);
    } else {
      assert f in levels[l] && g in levels[m];
    }
  }

  /** A compaction keeps the whole level invariant. */
  lemma CompactionKeepsLevels(levels: Levels, now: Levels, L: nat, in0: seq<File>, in1: seq<File>, outs: seq<File>)
    requires LegalInputs(levels, L, in0, in1) && OutputsWithin(outs, levels, L, in0, in1)
    requires Installed(levels, now, L, in0, in1, outs)
    ensures LevelsOk(now)
  {
    InputLevelOk(levels, now, L, in0, in1, outs);
    OutputLevelOk(levels, now, L, in0, in1, outs);
    forall l, m, f, g | 0 <= l < m < NUM_LEVELS && f in now[l] && g in now[m]
      ensures Newer(f.entries, g.entries)
    {
      CompactionKeepsOrder(levels, now, L, in0, in1, outs, l, m, f, g);
    }
  }
}
