/** Version edits of flushes and compactions, applied through the builder (db/version_set.cc LogAndApply). */
module Installs {
  import opened Versions
  import opened Compactions
  import opened Lsm
  import Builders
  import Manifests

  // ---- What one edit does to a level ----

  lemma EditYields(was: seq<File>, now: seq<File>, edit: Builders.Edit, l: nat, gone: seq<File>, added: seq<File>)
    requires LevelOk(l, was) && now == Manifests.LiveLevel(was, [edit], l)
    requires forall f | f in gone :: f in was
    requires Builders.DeletedAt(edit, l) == set f | f in gone :: f.number
    requires Manifests.AddedAt(edit.added, l) == set f | f in added
    requires Manifests.FreshAdds(was, [], edit.added, l)
    ensures Edited(was, now, gone, added)
  {
    assert [edit][..0] == [];
    var ls := Builders.ApplyLevel(Manifests.EMPTY, edit, l);
    Manifests.ApplyLevelYields(Manifests.EMPTY, edit, l);
    Builders.MergedMembers(was, ls.added, ls.deleted);
    Builders.MergedSorted(was, ls.added, ls.deleted);
    PairsFromLevel(l, was);
    forall f ensures f in now <==> (f in was && f !in gone) || f in added {
      if f in added {
        assert f in Manifests.AddedAt(edit.added, l) && f.number in Manifests.Numbers(Manifests.AddedAt(edit.added, l));
      } else if f in was {
        assert f.number !in Manifests.Numbers(Manifests.AddedAt(edit.added, l));
        assert f.number in Builders.DeletedAt(edit, l) <==> f in gone;
      }
    }
  }

  /** Tag every file with its level. */
  function At(l: nat, files: seq<File>): seq<(nat, File)> {
    if files == [] then [] else At(l, files[..|files| - 1]) + [(l, files[|files| - 1])]
  }

  lemma {:induction false} AtYields(l: nat, files: seq<File>)
    ensures |At(l, files)| == |files| && forall i | 0 <= i < |files| :: At(l, files)[i] == (l, files[i])
  {
    if files != [] {
      AtYields(l, files[..|files| - 1]);
    }
  }

  lemma AtAddedAt(l: nat, files: seq<File>, m: nat)
    ensures Manifests.AddedAt(At(l, files), m) == if m == l then set f | f in files else {}
  {
    AtYields(l, files);
    if m == l {
      forall f | f in files ensures f in Manifests.AddedAt(At(l, files), l) {
        var i :| 0 <= i < |files| && files[i] == f;
        assert At(l, files)[i] == (l, f);
      }
    }
  }

  lemma AtFresh(l: nat, files: seq<File>, was: seq<File>, m: nat)
    requires m == l ==> DistinctNumbers(files) && forall f, g | f in files && g in was :: f.number != g.number
    ensures Manifests.FreshAdds(was, [], At(l, files), m)
  {
    AtYields(l, files);
    assert forall i | 0 <= i < |files| :: files[i] in files;
  }

  function AddEdit(l: nat, added: seq<File>): Builders.Edit {
    Builders.Edit({}, At(l, added))
  }

  /** LogAndApply of an edit that only adds files at one level. */
  method AddFiles(levels: Levels, l: nat, added: seq<File>) returns (now: Levels)
    requires LevelsOk(levels) && l < NUM_LEVELS && DistinctNumbers(added)
    requires forall f, g | f in added && g in levels[l] :: f.number != g.number
    ensures Lsm.AddedAt(levels, now, l, added)
    ensures forall m | 0 <= m < NUM_LEVELS :: now[m] == Manifests.LiveLevel(levels[m], [AddEdit(l, added)], m)
  {
    var edit := AddEdit(l, added);
    AtYields(l, added);
    now := Manifests.LogAndApply(levels, edit);
    forall m | 0 <= m < NUM_LEVELS ensures Edited(levels[m], now[m], [], if m == l then added else []) {
      AtAddedAt(l, added, m);
      EditYields(levels[m], now[m], edit, m, [], if m == l then added else []);
    }
    forall m | 0 <= m < NUM_LEVELS && m != l ensures now[m] == levels[m] {
      Builders.SortedUnique(now[m], levels[m]);
    }
  }

  function NumbersOf(l: nat, files: seq<File>): set<(nat, nat)> {
    set f | f in files :: (l, f.number)
  }

  /** The files that leave level m, and the files that enter it. */
  function GoneAt(L: nat, in0: seq<File>, in1: seq<File>, m: nat): seq<File> {
    if m == L then in0 else if m == L + 1 then in1 else []
  }

  function EnterAt(L: nat, outs: seq<File>, m: nat): seq<File> {
    if m == L + 1 then outs else []
  }

  function CompactionEdit(L: nat, in0: seq<File>, in1: seq<File>, outs: seq<File>): Builders.Edit {
    Builders.Edit(NumbersOf(L, in0) + NumbersOf(L + 1, in1), At(L + 1, outs))
  }

  lemma CompactionEditAt(was: seq<File>, now: seq<File>, L: nat, in0: seq<File>, in1: seq<File>, outs: seq<File>, m: nat)
    requires LevelOk(m, was) && DistinctNumbers(outs)
    requires forall f | f in GoneAt(L, in0, in1, m) :: f in was
    requires forall f, g | f in EnterAt(L, outs, m) && g in was :: f.number != g.number
    requires now == Manifests.LiveLevel(was, [CompactionEdit(L, in0, in1, outs)], m)
    ensures Edited(was, now, GoneAt(L, in0, in1, m), EnterAt(L, outs, m))
    ensures m != L && m != L + 1 ==> now == was
  {
    var edit := CompactionEdit(L, in0, in1, outs);
    AtFresh(L + 1, outs, was, m);
    AtAddedAt(L + 1, outs, m);
    DeletedPerLevel(L, in0, in1, outs, m);
    EditYields(was, now, edit, m, GoneAt(L, in0, in1, m), EnterAt(L, outs, m));
    if m != L && m != L + 1 { Builders.SortedUnique(now, was); }
  }

  /** LogAndApply of a compaction's edit: both inputs deleted, the outputs added. */
  method InstallCompactionResults(levels: Levels, L: nat, in0: seq<File>, in1: seq<File>, outs: seq<File>) returns (now: Levels)
    requires LevelsOk(levels) && L + 1 < NUM_LEVELS && DistinctNumbers(outs)
    requires (forall f | f in in0 :: f in levels[L]) && (forall f | f in in1 :: f in levels[L + 1])
    requires forall f, g | f in outs && g in levels[L + 1] :: f.number != g.number
    ensures Installed(levels, now, L, in0, in1, outs)
    ensures forall m | 0 <= m < NUM_LEVELS :: now[m] == Manifests.LiveLevel(levels[m], [CompactionEdit(L, in0, in1, outs)], m)
  {
    AtYields(L + 1, outs);
    now := Manifests.LogAndApply(levels, CompactionEdit(L, in0, in1, outs));
    forall m | 0 <= m < NUM_LEVELS
      ensures Edited(levels[m], now[m], GoneAt(L, in0, in1, m), EnterAt(L, outs, m))
      ensures m != L && m != L + 1 ==> now[m] == levels[m]
    {
      CompactionEditAt(levels[m], now[m], L, in0, in1, outs, m);
    }
  }

  lemma DeletedPerLevel(L: nat, in0: seq<File>, in1: seq<File>, outs: seq<File>, m: nat)
    ensures Builders.DeletedAt(CompactionEdit(L, in0, in1, outs), m) ==
      set f | f in GoneAt(L, in0, in1, m) :: f.number
  {
    var edit := CompactionEdit(L, in0, in1, outs);
    forall f | f in in0 ensures (L, f.number) in edit.deleted {
    }
    forall f | f in in1 ensures (L + 1, f.number) in edit.deleted {
    }
    var gone := GoneAt(L, in0, in1, m);
    forall n ensures n in Builders.DeletedAt(edit, m) <==> n in (set f | f in gone :: f.number) {
      if n in Builders.DeletedAt(edit, m) {
        assert (m, n) in edit.deleted;
      }
      if f :| f in gone && f.number == n {
        assert (m, n) in edit.deleted;
        assert (m, n).1 in Builders.DeletedAt(edit, m);
      }
    }
  }
}
