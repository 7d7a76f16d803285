/** Version edits and the builder that applies them (db/version_set.cc VersionSet::Builder). */
module Builders {
  import opened Versions

  /** The file changes of an edit: (level, number) pairs removed, (level, file) pairs added. */
  datatype Edit = Edit(deleted: set<(nat, nat)>, added: seq<(nat, File)>) {
    predicate Valid() {
      forall i | 0 <= i < |added| :: added[i].0 < NUM_LEVELS
    }
  }

  /** What a builder has gathered for one level. */
  datatype LevelState = LevelState(deleted: set<nat>, added: seq<File>)

  /** std::set insertion: a file equivalent to one already present is ignored. */
  function InsertBySmallest(files: seq<File>, f: File): seq<File> {
    if files == [] || SmallestLt(f, files[0]) then [f] + files
    else if SmallestLt(files[0], f) then [files[0]] + InsertBySmallest(files[1..], f)
    else files
  }

  function DeletedAt(edit: Edit, l: nat): set<nat> {
    set p | p in edit.deleted && p.0 == l :: p.1
  }

  /** The additions of the edit at level l, one after the other. */
  function AddAll(ls: LevelState, added: seq<(nat, File)>, l: nat): LevelState {
    if added == [] then ls else
      var prev := AddAll(ls, added[..|added| - 1], l);
      var (m, f) := added[|added| - 1];
      if m != l then prev else LevelState(prev.deleted - {f.number}, InsertBySmallest(prev.added, f))
  }

  /** Builder::Apply seen from level l: deletions first, then additions. */
  function ApplyLevel(ls: LevelState, edit: Edit, l: nat): LevelState {
    AddAll(LevelState(ls.deleted + DeletedAt(edit, l), ls.added), edit.added, l)
  }

  /** MaybeAddFile */
  function Kept(files: seq<File>, deleted: set<nat>): seq<File> {
    if files == [] then [] else Kept(files[..|files| - 1], deleted) + if files[|files| - 1].number in deleted then [] else [files[|files| - 1]]
  }

  /** SaveTo for one level: base and added files merged by smallest key, deleted ones dropped. */
  function Merged(base: seq<File>, added: seq<File>, deleted: set<nat>): seq<File> {
    if added == [] then Kept(base, deleted)
    else if base != [] && !SmallestLt(added[0], base[0]) then Kept([base[0]], deleted) + Merged(base[1..], added, deleted)
    else Kept([added[0]], deleted) + Merged(base, added[1..], deleted)
  }

  class Builder {
    const base: Levels
    var levels: seq<LevelState>

    constructor (base: Levels)
      requires |base| == NUM_LEVELS
      ensures Valid() && this.base == base && levels == seq(NUM_LEVELS, _ => LevelState({}, []))
    {
      this.base := base;
      levels := seq(NUM_LEVELS, _ => LevelState({}, []));
    }

    ghost predicate Valid()
      reads this
    {
      |base| == NUM_LEVELS && |levels| == NUM_LEVELS
    }

    method Apply(edit: Edit)
      requires Valid() && edit.Valid()
      modifies this
      ensures Valid()
      ensures forall l | 0 <= l < NUM_LEVELS :: levels[l] == ApplyLevel(old(levels[l]), edit, l)
    {
      for l := 0 to NUM_LEVELS
        invariant Valid()
        invariant forall m | 0 <= m < l :: levels[m] == LevelState(old(levels[m]).deleted + DeletedAt(edit, m), old(levels[m]).added)
        invariant forall m | l <= m < NUM_LEVELS :: levels[m] == old(levels[m])
      {
        levels := levels[l := levels[l].(deleted := levels[l].deleted + DeletedAt(edit, l))];
      }
      ghost var start := levels;
      for i := 0 to |edit.added|
        invariant Valid()
        invariant forall l | 0 <= l < NUM_LEVELS :: levels[l] == AddAll(start[l], edit.added[..i], l)
      {
        var (l, f) := edit.added[i];
        assert edit.added[..i + 1][..i] == edit.added[..i];
        levels := levels[l := LevelState(levels[l].deleted - {f.number}, InsertBySmallest(levels[l].added, f))];
      }
      assert edit.added[..|edit.added|] == edit.added;
    }

    method SaveTo() returns (v: Levels)
      requires Valid()
      ensures |v| == NUM_LEVELS
      ensures forall l | 0 <= l < NUM_LEVELS :: v[l] == Merged(base[l], levels[l].added, levels[l].deleted)
    {
      v := [];
      for l := 0 to NUM_LEVELS
        invariant |v| == l && forall m | 0 <= m < l :: v[m] == Merged(base[m], levels[m].added, levels[m].deleted)
      {
        var files := SaveLevel(base[l], levels[l].added, levels[l].deleted);
        v := v + [files];
      }
    }

    /** For each added file: the base files up to its upper bound, then the file; then the rest of base. */
    static method SaveLevel(base: seq<File>, added: seq<File>, deleted: set<nat>) returns (files: seq<File>)
      ensures files == Merged(base, added, deleted)
    {
      files := [];
      var b := 0;
      ghost var goal := Merged(base, added, deleted);
      for a := 0 to |added|
        invariant 0 <= b <= |base|
        invariant goal == files + Merged(base[b..], added[a..], deleted)
      {
        while b < |base| && !SmallestLt(added[a], base[b])
          invariant 0 <= b <= |base|
          invariant goal == files + Merged(base[b..], added[a..], deleted)
        {
          MergedTakesBase(base, b, added[a..], deleted);
          files := MaybeAddFile(files, base[b], deleted);
          b := b + 1;
        }
        MergedTakesAdded(base[b..], added, a, deleted);
        files := MaybeAddFile(files, added[a], deleted);
      }
      while b < |base|
        invariant 0 <= b <= |base|
        invariant goal == files + Kept(base[b..], deleted)
      {
        KeptFront(base[b..], deleted);
        assert base[b..][1..] == base[b + 1..];
        files := MaybeAddFile(files, base[b], deleted);
        b := b + 1;
      }
    }

    static lemma MergedTakesBase(base: seq<File>, b: nat, added: seq<File>, deleted: set<nat>)
      requires b < |base| && added != [] && !SmallestLt(added[0], base[b])
      ensures Merged(base[b..], added, deleted) == Kept([base[b]], deleted) + Merged(base[b + 1..], added, deleted)
    {
      assert base[b..][1..] == base[b + 1..];
    }

    static lemma MergedTakesAdded(base: seq<File>, added: seq<File>, a: nat, deleted: set<nat>)
      requires a < |added| && (base == [] || SmallestLt(added[a], base[0]))
      ensures Merged(base, added[a..], deleted) == Kept([added[a]], deleted) + Merged(base, added[a + 1..], deleted)
    {
      assert added[a..][1..] == added[a + 1..];
    }

    static method MaybeAddFile(files: seq<File>, f: File, deleted: set<nat>) returns (r: seq<File>)
      ensures forall rest :: files + (Kept([f], deleted) + rest) == r + rest
      ensures r == files + Kept([f], deleted)
    {
      r := files;
      if f.number !in deleted {
        r := r + [f];
      }
    }

    static lemma {:induction false} KeptFront(files: seq<File>, deleted: set<nat>)
      requires files != []
      ensures Kept(files, deleted) == Kept([files[0]], deleted) + Kept(files[1..], deleted)
    {
      if |files| > 1 {
        var n := |files| - 1;
        KeptFront(files[..n], deleted);
        assert files[..n][1..] == files[1..][..n - 1];
      }
    }
  }

  // ---- What the merge yields ----

  lemma {:induction false} KeptMembers(files: seq<File>, deleted: set<nat>)
    ensures forall f :: f in Kept(files, deleted) <==> f in files && f.number !in deleted
  {
    if files != [] {
      KeptMembers(files[..|files| - 1], deleted);
      assert files == files[..|files| - 1] + [files[|files| - 1]];
    }
  }

  lemma {:induction false} MergedMembers(base: seq<File>, added: seq<File>, deleted: set<nat>)
    ensures forall f :: f in Merged(base, added, deleted) <==> (f in base || f in added) && f.number !in deleted
    decreases |base| + |added|
  {
    if added == [] {
      KeptMembers(base, deleted);
    } else if base != [] && !SmallestLt(added[0], base[0]) {
      KeptMembers([base[0]], deleted);
      MergedMembers(base[1..], added, deleted);
      assert base == [base[0]] + base[1..];
    } else {
      KeptMembers([added[0]], deleted);
      MergedMembers(base, added[1..], deleted);
      assert added == [added[0]] + added[1..];
    }
  }

  ghost predicate NumbersApart(a: seq<File>, b: seq<File>) {
    forall f, g | f in a && g in b :: f.number != g.number
  }

  lemma {:induction false} KeptSorted(files: seq<File>, deleted: set<nat>)
    requires SortedBySmallest(files)
    ensures SortedBySmallest(Kept(files, deleted))
  {
    if files != [] {
      var n := |files| - 1;
      KeptSorted(files[..n], deleted);
      KeptMembers(files[..n], deleted);
      var r := Kept(files[..n], deleted);
      forall i | 0 <= i < |r| ensures SmallestLt(r[i], files[n]) {
        assert r[i] in files[..n];
      }
    }
  }

  lemma PrependedSorted(f: File, rest: seq<File>)
    requires SortedBySmallest(rest) && forall g | g in rest :: SmallestLt(f, g)
    ensures SortedBySmallest([f] + rest)
  {
    var all := [f] + rest;
    forall i, j | 0 <= i < j < |all| ensures SmallestLt(all[i], all[j]) {
      assert all[j] == rest[j - 1] && all[j] in rest;
    }
  }

  lemma FirstThenSorted(f: File, rest: seq<File>, deleted: set<nat>)
    requires SortedBySmallest(rest) && forall g | g in rest :: SmallestLt(f, g)
    ensures SortedBySmallest(Kept([f], deleted) + rest)
  {
    var k := Kept([f], deleted);
    assert Kept([], deleted) == [] && [f][..0] == [];
    assert k == [] || k == [f];
    if k == [] {
      assert k + rest == rest;
    } else {
      PrependedSorted(f, rest);
    }
  }

  lemma {:induction false} MergedSorted(base: seq<File>, added: seq<File>, deleted: set<nat>)
    requires SortedBySmallest(base) && SortedBySmallest(added) && NumbersApart(base, added)
    ensures SortedBySmallest(Merged(base, added, deleted))
    decreases |base| + |added|
  {
    if added == [] {
      KeptSorted(base, deleted);
    } else if base != [] && !SmallestLt(added[0], base[0]) {
      MergedSorted(base[1..], added, deleted);
      MergedMembers(base[1..], added, deleted);
      assert base[0] in base && added[0] in added;
      forall g | g in base[1..] || g in added ensures SmallestLt(base[0], g) {
      }
      FirstThenSorted(base[0], Merged(base[1..], added, deleted), deleted);
    } else {
      MergedSorted(base, added[1..], deleted);
      MergedMembers(base, added[1..], deleted);
      forall g | g in base || g in added[1..] ensures SmallestLt(added[0], g) {
      }
      FirstThenSorted(added[0], Merged(base, added[1..], deleted), deleted);
    }
  }

  lemma {:induction false} InsertMembers(files: seq<File>, f: File)
    requires SortedBySmallest(files) && forall g | g in files :: g.number != f.number
    ensures SortedBySmallest(InsertBySmallest(files, f))
    ensures forall g :: g in InsertBySmallest(files, f) <==> g in files || g == f
  {
    if files != [] {
      assert files == [files[0]] + files[1..];
      assert files[0] in files;
      if SmallestLt(f, files[0]) {
      } else {
        InsertMembers(files[1..], f);
        FirstThenSorted(files[0], InsertBySmallest(files[1..], f), {});
        assert Kept([files[0]], {}) == [files[0]];
      }
    }
  }

  lemma FirstIsOnce(a: seq<File>)
    requires a != [] && SortedBySmallest(a)
    ensures forall f :: f in a[1..] <==> f in a && f != a[0]
  {
    assert a == [a[0]] + a[1..];
    forall i | 1 <= i < |a| ensures a[i] != a[0] {
      assert SmallestLt(a[0], a[i]);
    }
  }

  lemma NothingIn(a: seq<File>)
    requires forall f :: f !in a
    ensures a == []
  {
    if a != [] { FirstIsIn(a); }
  }

  lemma FirstIsIn(a: seq<File>)
    requires a != []
    ensures exists f :: f in a
  {
    assert a[0] in a;
  }

  /** Builder order leaves no choice: a sorted level is determined by its files. */
  lemma {:induction false} SortedUnique(a: seq<File>, b: seq<File>)
    requires SortedBySmallest(a) && SortedBySmallest(b) && forall f :: f in a <==> f in b
    ensures a == b
  {
    if a == [] {
      NothingIn(b);
    } else {
      assert a[0] in a && a[0] in b;
      assert b[0] in b && b[0] in a;
      assert a[0] == b[0];
      FirstIsOnce(a);
      FirstIsOnce(b);
      SortedUnique(a[1..], b[1..]);
      assert a == [a[0]] + a[1..] && b == [b[0]] + b[1..];
    }
  }
}
