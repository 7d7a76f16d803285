/**
 The manifest: a log of version edits that starts with a snapshot of the version and is replayed
 through one builder when the database is opened (db/version_set.cc).
 */
module Manifests {
  import opened Options
  import opened Versions
  import opened Builders

  /** A manifest record: the file changes and the counters it sets. */
  datatype Record = Record(edit: Edit, logNumber: Option<nat>, prevLogNumber: Option<nat>, nextFile: Option<nat>, lastSequence: Option<nat>) {
    function Get(c: Counter): Option<nat> {
      match c
      case LogNumber => logNumber
      case PrevLogNumber => prevLogNumber
      case NextFile => nextFile
      case LastSequence => lastSequence
    }
  }

  datatype Counter = LogNumber | PrevLogNumber | NextFile | LastSequence

  datatype Recovered =
    | Recovered(levels: Levels, logNumber: nat, prevLogNumber: nat, manifestFileNumber: nat, nextFileNumber: nat, lastSequence: nat)
    | Corruption(message: string)

  function Latest(a: Option<nat>, b: Option<nat>): Option<nat> {
    if b.Some? then b else a
  }

  /** The last record that sets a counter wins. */
  function LastSet(records: seq<Record>, c: Counter): Option<nat> {
    if records == [] then None else Latest(LastSet(records[..|records| - 1], c), records[|records| - 1].Get(c))
  }

  function ApplyAll(ls: LevelState, edits: seq<Edit>, l: nat): LevelState {
    if edits == [] then ls else ApplyLevel(ApplyAll(ls, edits[..|edits| - 1], l), edits[|edits| - 1], l)
  }

  function Edits(records: seq<Record>): seq<Edit> {
    seq(|records|, i requires 0 <= i < |records| => records[i].edit)
  }

  const EMPTY: LevelState := LevelState({}, [])

  /** One builder over all edits, saved once. */
  function ReplayLevel(base: seq<File>, edits: seq<Edit>, l: nat): seq<File> {
    var ls := ApplyAll(EMPTY, edits, l);
    Merged(base, ls.added, ls.deleted)
  }

  /** LogAndApply: a fresh builder for each edit. */
  function LiveLevel(base: seq<File>, edits: seq<Edit>, l: nat): seq<File> {
    if edits == [] then base else
      var ls := ApplyLevel(EMPTY, edits[|edits| - 1], l);
      Merged(LiveLevel(base, edits[..|edits| - 1], l), ls.added, ls.deleted)
  }

  method LogAndApply(levels: Levels, edit: Edit) returns (now: Levels)
    requires |levels| == NUM_LEVELS && edit.Valid()
    ensures |now| == NUM_LEVELS
    ensures forall l | 0 <= l < NUM_LEVELS :: now[l] == LiveLevel(levels[l], [edit], l)
  {
    var builder := new Builder(levels);
    builder.Apply(edit);
    now := builder.SaveTo();
    assert [edit][..0] == [];
  }

  /** Recovery fails only for a counter never set; else it yields the replayed levels and the latest counters. */
  ghost predicate RecoveredFrom(records: seq<Record>, r: Recovered) {
    && (r.Recovered? <==> LastSet(records, NextFile).Some? && LastSet(records, LogNumber).Some? && LastSet(records, LastSequence).Some?)
    && (r.Recovered? ==>
         && |r.levels| == NUM_LEVELS
         && (forall l | 0 <= l < NUM_LEVELS :: r.levels[l] == ReplayLevel([], Edits(records), l))
         && Some(r.logNumber) == LastSet(records, LogNumber)
         && Some(r.manifestFileNumber) == LastSet(records, NextFile)
         && Some(r.lastSequence) == LastSet(records, LastSequence)
         && r.prevLogNumber == (match LastSet(records, PrevLogNumber) case Some(n) => n case None => 0)
         && r.nextFileNumber == r.manifestFileNumber + 1)
  }

  /** VersionSet::Recover: replay the records, then check that the counters were all set. */
  method Recover(records: seq<Record>) returns (r: Recovered)
    requires forall i | 0 <= i < |records| :: records[i].edit.Valid()
    ensures RecoveredFrom(records, r)
  {
    var empty: Levels := seq(NUM_LEVELS, _ => []);
    var builder := new Builder(empty);
    var logNumber: Option<nat>, prevLogNumber: Option<nat>, nextFile: Option<nat>, lastSequence: Option<nat> := None, None, None, None;
    for i := 0 to |records|
      invariant builder.Valid() && builder.base == empty
      invariant forall l | 0 <= l < NUM_LEVELS :: builder.levels[l] == ApplyAll(EMPTY, Edits(records[..i]), l)
      invariant logNumber == LastSet(records[..i], LogNumber)
      invariant prevLogNumber == LastSet(records[..i], PrevLogNumber)
      invariant nextFile == LastSet(records[..i], NextFile)
      invariant lastSequence == LastSet(records[..i], LastSequence)
    {
      var record := records[i];
      assert records[..i + 1][..i] == records[..i];
      assert Edits(records[..i + 1])[..i] == Edits(records[..i]);
      builder.Apply(record.edit);
      if record.logNumber.Some? { logNumber := record.logNumber; }
      if record.prevLogNumber.Some? { prevLogNumber := record.prevLogNumber; }
      if record.nextFile.Some? { nextFile := record.nextFile; }
      if record.lastSequence.Some? { lastSequence := record.lastSequence; }
    }
    assert records[..|records|] == records;
    if nextFile.None? {
      return Corruption("no meta-nextfile entry in descriptor");
    }
    if logNumber.None? {
      return Corruption("no meta-lognumber entry in descriptor");
    }
    if lastSequence.None? {
      return Corruption("no last-sequence-number entry in descriptor");
    }
    var prev := if prevLogNumber.Some? then prevLogNumber.value else 0;
    var v := builder.SaveTo();
    r := Recovered(v, logNumber.value, prev, nextFile.value, nextFile.value + 1, lastSequence.value);
  }

  // ---- Replay agrees with the live versions ----

  /** Every file an edit adds has a number that no earlier file of the level had. */
  ghost predicate Fresh(base: seq<File>, edits: seq<Edit>, l: nat)
    decreases |edits|
  {
    edits == [] ||
    var ls := ApplyAll(EMPTY, edits[..|edits| - 1], l);
    Fresh(base, edits[..|edits| - 1], l) && FreshAdds(base, ls.added, edits[|edits| - 1].added, l)
  }

  /** The additions at level l bring distinct numbers, none of them used by `base` or `seen`. */
  ghost predicate FreshAdds(base: seq<File>, seen: seq<File>, added: seq<(nat, File)>, l: nat) {
    && (forall i, f | 0 <= i < |added| && added[i].0 == l && (f in base || f in seen) :: added[i].1.number != f.number)
    && (forall i, j | 0 <= i < j < |added| && added[i].0 == l && added[j].0 == l :: added[i].1.number != added[j].1.number)
  }

  ghost function AddedAt(added: seq<(nat, File)>, l: nat): set<File> {
    set i | 0 <= i < |added| && added[i].0 == l :: added[i].1
  }

  ghost function Numbers(files: set<File>): set<nat> {
    set f | f in files :: f.number
  }

  /** What the additions do to a level's builder state. */
  lemma {:induction false} AddAllYields(ls: LevelState, added: seq<(nat, File)>, l: nat)
    requires SortedBySmallest(ls.added) && FreshAdds([], ls.added, added, l)
    ensures SortedBySmallest(AddAll(ls, added, l).added)
    ensures forall f :: f in AddAll(ls, added, l).added <==> f in ls.added || f in AddedAt(added, l)
    ensures AddAll(ls, added, l).deleted == ls.deleted - Numbers(AddedAt(added, l))
  {
    if added != [] {
      var n := |added| - 1;
      var rest := added[..n];
      AddAllYields(ls, rest, l);
      assert AddedAt(added, l) == AddedAt(rest, l) + if added[n].0 == l then {added[n].1} else {} by {
        assert forall i | 0 <= i < n :: added[i] == rest[i];
      }
      if added[n].0 == l {
        InsertMembers(AddAll(ls, rest, l).added, added[n].1);
      }
    }
  }

  lemma ApplyLevelYields(ls: LevelState, edit: Edit, l: nat)
    requires SortedBySmallest(ls.added) && FreshAdds([], ls.added, edit.added, l)
    ensures SortedBySmallest(ApplyLevel(ls, edit, l).added)
    ensures forall f :: f in ApplyLevel(ls, edit, l).added <==> f in ls.added || f in AddedAt(edit.added, l)
    ensures ApplyLevel(ls, edit, l).deleted == ls.deleted + DeletedAt(edit, l) - Numbers(AddedAt(edit.added, l))
  {
    AddAllYields(LevelState(ls.deleted + DeletedAt(edit, l), ls.added), edit.added, l);
  }

  lemma {:induction false} ReplayState(base: seq<File>, edits: seq<Edit>, l: nat)
    requires Fresh(base, edits, l)
    ensures SortedBySmallest(ApplyAll(EMPTY, edits, l).added) && NumbersApart(base, ApplyAll(EMPTY, edits, l).added)
    decreases |edits|
  {
    if edits != [] {
      var (rest, e) := (edits[..|edits| - 1], edits[|edits| - 1]);
      ReplayState(base, rest, l);
      ApplyLevelYields(ApplyAll(EMPTY, rest, l), e, l);
    }
  }

  /**
   Replaying edits through one builder and saving once gives the same ordered file list as
   building a version after each of them.
   */
  lemma {:induction false} ReplayEqualsLive(base: seq<File>, edits: seq<Edit>, l: nat)
    requires SortedBySmallest(base) && Fresh(base, edits, l)
    ensures ReplayLevel(base, edits, l) == LiveLevel(base, edits, l)
    ensures SortedBySmallest(LiveLevel(base, edits, l))
    decreases |edits|
  {
    if edits == [] {
      assert forall n :: n in base ==> n in base;
      NothingToMerge(base);
    } else {
      var (rest, e) := (edits[..|edits| - 1], edits[|edits| - 1]);
      ReplayEqualsLive(base, rest, l);
      ReplayState(base, rest, l);
      ReplayState(base, edits, l);
      var (was, now, one) := (ApplyAll(EMPTY, rest, l), ApplyAll(EMPTY, edits, l), ApplyLevel(EMPTY, e, l));
      var live := LiveLevel(base, rest, l);
      MergedMembers(base, was.added, was.deleted);
      MergedMembers(base, now.added, now.deleted);
      ApplyLevelYields(was, e, l);
      ApplyLevelYields(EMPTY, e, l);
      MergedMembers(live, one.added, one.deleted);
      MergedSorted(base, now.added, now.deleted);
      assert NumbersApart(live, one.added) by {
        forall f, g | f in live && g in one.added ensures f.number != g.number {
          assert g in AddedAt(e.added, l);
        }
      }
      MergedSorted(live, one.added, one.deleted);
      SameMembers(base, live, was, now, one, e, l);
      SortedUnique(Merged(base, now.added, now.deleted), Merged(live, one.added, one.deleted));
    }
  }

  lemma {:induction false} NothingToMerge(base: seq<File>)
    ensures Merged(base, [], {}) == base
  {
    if base != [] {
      var n := |base| - 1;
      NothingToMerge(base[..n]);
    }
  }

  /** One more edit on the replay's state, or on the version built so far: the same files remain. */
  lemma SameMembers(base: seq<File>, live: seq<File>, was: LevelState, now: LevelState, one: LevelState, e: Edit, l: nat)
    requires forall f :: f in live <==> (f in base || f in was.added) && f.number !in was.deleted
    requires FreshAdds(base, was.added, e.added, l)
    requires forall f :: f in now.added <==> f in was.added || f in AddedAt(e.added, l)
    requires now.deleted == was.deleted + DeletedAt(e, l) - Numbers(AddedAt(e.added, l))
    requires forall f :: f in one.added <==> f in AddedAt(e.added, l)
    requires one.deleted == DeletedAt(e, l) - Numbers(AddedAt(e.added, l))
    ensures forall f :: (f in base || f in now.added) && f.number !in now.deleted <==> (f in live || f in one.added) && f.number !in one.deleted
  {
    forall f: File
      ensures (f in base || f in now.added) && f.number !in now.deleted <==> (f in live || f in one.added) && f.number !in one.deleted
    {
      if f in AddedAt(e.added, l) {
        assert f.number in Numbers(AddedAt(e.added, l));
      } else if f in base || f in was.added {
        assert f.number !in Numbers(AddedAt(e.added, l));
      }
    }
  }

  /** WriteSnapshot: an edit that adds every file of every level. */
  function SnapshotEdit(levels: Levels): Edit {
    Edit({}, SnapshotFiles(levels))
  }

  function SnapshotFiles(levels: Levels): seq<(nat, File)> {
    if levels == [] then [] else
      var l := |levels| - 1;
      SnapshotFiles(levels[..l]) + seq(|levels[l]|, i requires 0 <= i < |levels[l]| => (l, levels[l][i]))
  }

  lemma {:induction false} SnapshotAdds(levels: Levels, l: nat)
    requires l < |levels| && DistinctNumbers(levels[l])
    ensures AddedAt(SnapshotFiles(levels), l) == set f | f in levels[l]
    ensures FreshAdds([], [], SnapshotFiles(levels), l)
    decreases |levels|
  {
    var m := |levels| - 1;
    var rest := SnapshotFiles(levels[..m]);
    var all := SnapshotFiles(levels);
    assert forall i | |rest| <= i < |all| :: all[i] == (m, levels[m][i - |rest|]);
    assert forall i | 0 <= i < |rest| :: all[i] == rest[i];
    if l < m {
      SnapshotAdds(levels[..m], l);
      assert AddedAt(all, l) == AddedAt(rest, l);
    } else {
      NoneAtOrAbove(levels[..m]);
      forall f | f in levels[m] ensures f in AddedAt(all, m) {
        var i :| 0 <= i < |levels[m]| && levels[m][i] == f;
        assert all[|rest| + i] == (m, f);
      }
    }
  }

  lemma {:induction false} NoneAtOrAbove(levels: Levels)
    ensures forall i | 0 <= i < |SnapshotFiles(levels)| :: SnapshotFiles(levels)[i].0 < |levels|
  {
    if levels != [] {
      NoneAtOrAbove(levels[..|levels| - 1]);
    }
  }

  /** Applying the snapshot record to an empty version restores the level. */
  lemma SnapshotRestores(levels: Levels, l: nat)
    requires l < |levels| && SortedBySmallest(levels[l]) && DistinctNumbers(levels[l])
    ensures LiveLevel([], [SnapshotEdit(levels)], l) == levels[l]
  {
    var e := SnapshotEdit(levels);
    assert [e][..0] == [];
    SnapshotAdds(levels, l);
    ApplyLevelYields(EMPTY, e, l);
    var ls := ApplyLevel(EMPTY, e, l);
    MergedMembers([], ls.added, ls.deleted);
    MergedSorted([], ls.added, ls.deleted);
    SortedUnique(Merged([], ls.added, ls.deleted), levels[l]);
  }

  lemma {:induction false} LiveAfterSnapshot(levels: Levels, edits: seq<Edit>, l: nat)
    requires l < |levels| && SortedBySmallest(levels[l]) && DistinctNumbers(levels[l])
    ensures LiveLevel([], [SnapshotEdit(levels)] + edits, l) == LiveLevel(levels[l], edits, l)
    decreases |edits|
  {
    var all := [SnapshotEdit(levels)] + edits;
    if edits == [] {
      assert all == [SnapshotEdit(levels)];
      SnapshotRestores(levels, l);
    } else {
      assert all[..|all| - 1] == [SnapshotEdit(levels)] + edits[..|edits| - 1];
      LiveAfterSnapshot(levels, edits[..|edits| - 1], l);
    }
  }

  lemma {:induction false} FreshAfterSnapshot(levels: Levels, edits: seq<Edit>, l: nat)
    requires l < |levels| && DistinctNumbers(levels[l]) && Fresh(levels[l], edits, l)
    ensures Fresh([], [SnapshotEdit(levels)] + edits, l)
    ensures forall f | f in ApplyAll(EMPTY, [SnapshotEdit(levels)] + edits, l).added :: f in levels[l] || f in ApplyAll(EMPTY, edits, l).added
    decreases |edits|
  {
    var snapshot := SnapshotEdit(levels);
    var all := [snapshot] + edits;
    SnapshotAdds(levels, l);
    if edits == [] {
      assert all == [snapshot] && [snapshot][..0] == [];
      ApplyLevelYields(EMPTY, snapshot, l);
    } else {
      var (rest, e) := (edits[..|edits| - 1], edits[|edits| - 1]);
      assert all[..|all| - 1] == [snapshot] + rest;
      FreshAfterSnapshot(levels, rest, l);
      ReplayState(levels[l], rest, l);
      ReplayState([], [snapshot] + rest, l);
      ApplyLevelYields(ApplyAll(EMPTY, rest, l), e, l);
      ApplyLevelYields(ApplyAll(EMPTY, [snapshot] + rest, l), e, l);
    }
  }

  /**
   A manifest made of a snapshot record and the edits logged since replays, in one builder on an
   empty version, to exactly the version the running database had.
   */
  lemma ManifestReplays(levels: Levels, edits: seq<Edit>, l: nat)
    requires LevelsOk(levels) && l < NUM_LEVELS && Fresh(levels[l], edits, l)
    ensures ReplayLevel([], [SnapshotEdit(levels)] + edits, l) == LiveLevel(levels[l], edits, l)
  {
    FreshAfterSnapshot(levels, edits, l);
    ReplayEqualsLive([], [SnapshotEdit(levels)] + edits, l);
    LiveAfterSnapshot(levels, edits, l);
  }
}
