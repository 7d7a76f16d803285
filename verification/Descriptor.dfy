/**
 The manifest a running database keeps: a first record for the version it was opened with, then a
 record for each LogAndApply. It describes the current version at every moment, so that the replay
 that opens the database again finds exactly that version (db/version_set.cc, db/db_impl.cc).
 */
module Descriptors {
  import opened Options
  import opened Versions
  import opened Compactions
  import opened Lsm
  import opened Installs
  import opened Manifests
  import opened Builders

  /** The numbers of all the files ever added at level l. */
  ghost function Spent(edits: seq<Edit>, l: nat): set<nat> {
    if edits == [] then {} else Spent(edits[..|edits| - 1], l) + Numbers(Manifests.AddedAt(edits[|edits| - 1].added, l))
  }

  /** Every spent number is allocated, not pending, and borne by no file in a smaller level. */
  ghost predicate NumbersSpent(edits: seq<Edit>, levels: Levels, pending: set<nat>, next: nat) {
    forall l, n | 0 <= l < NUM_LEVELS && n in Spent(edits, l) :: SpentAt(levels, pending, next, l, n)
  }

  ghost predicate SpentAt(levels: Levels, pending: set<nat>, next: nat, l: nat, n: nat) {
    n < next && n !in pending && forall m, g | 0 <= m < l && m < |levels| && g in levels[m] :: g.number != n
  }

  /** The edits are replayable at level l, and give its files. */
  ghost predicate Gives(edits: seq<Edit>, l: nat, files: seq<File>) {
    Fresh([], edits, l) && LiveLevel([], edits, l) == files
  }

  ghost predicate Describes(edits: seq<Edit>, levels: Levels, pending: set<nat>, next: nat) {
    && |levels| == NUM_LEVELS && (forall l | 0 <= l < NUM_LEVELS :: Gives(edits, l, levels[l]))
    && NumbersSpent(edits, levels, pending, next)
  }

  // ---- One more edit ----

  lemma {:induction false} SpentCoversAdded(edits: seq<Edit>, l: nat)
    requires Fresh([], edits, l)
    ensures forall f | f in ApplyAll(Manifests.EMPTY, edits, l).added :: f.number in Spent(edits, l)
    decreases |edits|
  {
    if edits != [] {
      var (rest, e) := (edits[..|edits| - 1], edits[|edits| - 1]);
      SpentCoversAdded(rest, l);
      ReplayState([], rest, l);
      ApplyLevelYields(ApplyAll(Manifests.EMPTY, rest, l), e, l);
    }
  }

  lemma EditGives(edits: seq<Edit>, e: Edit, l: nat, was: seq<File>, now: seq<File>)
    requires Gives(edits, l, was) && now == LiveLevel(was, [e], l)
    requires FreshAdds([], [], e.added, l) && Numbers(Manifests.AddedAt(e.added, l)) !! Spent(edits, l)
    ensures Gives(edits + [e], l, now) && Spent(edits + [e], l) == Spent(edits, l) + Numbers(Manifests.AddedAt(e.added, l))
  {
    var longer := edits + [e];
    assert longer[..|longer| - 1] == edits && [e][..0] == [];
    SpentCoversAdded(edits, l);
    forall i, f | 0 <= i < |e.added| && e.added[i].0 == l && f in ApplyAll(Manifests.EMPTY, edits, l).added
      ensures e.added[i].1.number != f.number
    {
      assert e.added[i].1 in Manifests.AddedAt(e.added, l);
      assert e.added[i].1.number in Numbers(Manifests.AddedAt(e.added, l));
    }
  }

  /** What an edit must bring for its record to keep the manifest true. */
  ghost predicate NextEdit(edits: seq<Edit>, e: Edit, levels: Levels, now: Levels, pending: set<nat>, next: nat, l: nat)
    requires l < NUM_LEVELS == |levels| == |now|
  {
    && now[l] == LiveLevel(levels[l], [e], l) && FreshAdds([], [], e.added, l)
    && Numbers(Manifests.AddedAt(e.added, l)) !! Spent(edits, l)
    && forall n | n in Spent(edits, l) || n in Numbers(Manifests.AddedAt(e.added, l)) :: SpentAt(now, pending, next, l, n)
  }

  lemma EditDescribes(edits: seq<Edit>, e: Edit, levels: Levels, now: Levels, was: set<nat>, pending: set<nat>, next: nat, next': nat)
    requires Describes(edits, levels, was, next) && |now| == NUM_LEVELS
    requires forall l | 0 <= l < NUM_LEVELS :: NextEdit(edits, e, levels, now, pending, next', l)
    ensures Describes(edits + [e], now, pending, next')
  {
    forall l | 0 <= l < NUM_LEVELS
      ensures Gives(edits + [e], l, now[l])
      ensures Spent(edits + [e], l) == Spent(edits, l) + Numbers(Manifests.AddedAt(e.added, l))
    {
      assert NextEdit(edits, e, levels, now, pending, next', l) && Gives(edits, l, levels[l]);
      EditGives(edits, e, l, levels[l], now[l]);
    }
    forall l, n | 0 <= l < NUM_LEVELS && n in Spent(edits + [e], l) ensures SpentAt(now, pending, next', l, n) {
      assert NextEdit(edits, e, levels, now, pending, next', l);
    }
  }

  // ---- Added files: flush and recovery ----

  lemma AddedNumbers(l: nat, added: seq<File>, m: nat)
    ensures Numbers(Manifests.AddedAt(AddEdit(l, added).added, m)) == if m == l then FileNumbers(added) else {}
  {
    AtAddedAt(l, added, m);
    if m == l {
      forall n ensures n in Numbers(Manifests.AddedAt(AddEdit(l, added).added, l)) <==> n in FileNumbers(added) {
        if f :| f in added && f.number == n {
          assert f in Manifests.AddedAt(AddEdit(l, added).added, l);
        }
      }
    }
  }

  /** Added files bear numbers that were not allocated when the last record was written. */
  ghost predicate NewNumbers(added: seq<File>, pending: set<nat>, next: nat, next': nat) {
    DistinctNumbers(added) && next <= next' && forall f | f in added :: next <= f.number < next' && f.number !in pending
  }

  lemma AddDescribes(edits: seq<Edit>, levels: Levels, now: Levels, l: nat, added: seq<File>, was: set<nat>, pending: set<nat>, next: nat, next': nat)
    requires Describes(edits, levels, was, next) && NumbersBelow(levels, next)
    requires Lsm.AddedAt(levels, now, l, added) && NewNumbers(added, pending, next, next') && pending <= was
    requires forall m | 0 <= m < NUM_LEVELS :: now[m] == LiveLevel(levels[m], [AddEdit(l, added)], m)
    ensures Describes(edits + [AddEdit(l, added)], now, pending, next')
  {
    forall m | 0 <= m < NUM_LEVELS ensures NextEdit(edits, AddEdit(l, added), levels, now, pending, next', m) {
      AddIsNext(edits, levels, now, l, added, was, pending, next, next', m);
    }
    EditDescribes(edits, AddEdit(l, added), levels, now, was, pending, next, next');
  }

  lemma AddIsNext(edits: seq<Edit>, levels: Levels, now: Levels, l: nat, added: seq<File>, was: set<nat>, pending: set<nat>, next: nat, next': nat, m: nat)
    requires Describes(edits, levels, was, next) && NumbersBelow(levels, next) && m < NUM_LEVELS
    requires Lsm.AddedAt(levels, now, l, added) && NewNumbers(added, pending, next, next') && pending <= was
    requires now[m] == LiveLevel(levels[m], [AddEdit(l, added)], m)
    ensures NextEdit(edits, AddEdit(l, added), levels, now, pending, next', m)
  {
    AtFresh(l, added, [], m);
    AddedNumbers(l, added, m);
    forall n | n in Spent(edits, m) ensures SpentAt(now, pending, next', m, n) && n < next {
      assert SpentAt(levels, was, next, m, n);
      forall j, g | 0 <= j < m && g in now[j] ensures g.number != n {
        assert g in levels[j] || g in added;
      }
    }
    if m == l {
      forall n | n in FileNumbers(added) ensures SpentAt(now, pending, next', m, n) {
        forall j, g | 0 <= j < m && g in now[j] ensures g.number != n {
          assert g in levels[j];
        }
      }
    }
  }

  // ---- Compactions and moves ----

  /** Outputs bear pending numbers that stop being pending; a moved file keeps its own. */
  ghost predicate OutputNumbers(levels: Levels, L: nat, in0: seq<File>, outs: seq<File>, was: set<nat>, pending: set<nat>, next: nat)
    requires L < |levels|
  {
    && DistinctNumbers(outs)
    && forall f | f in outs ::
      && f.number !in pending && f.number < next
      && (f.number in was || (f in in0 && f in levels[L]))
  }

  lemma CompactionDescribes(edits: seq<Edit>, levels: Levels, now: Levels, L: nat, in0: seq<File>, in1: seq<File>, outs: seq<File>,
                            was: set<nat>, pending: set<nat>, next: nat, next': nat)
    requires Describes(edits, levels, was, next) && LevelsOk(levels) && NumbersUnique(levels) && NonePending(levels, was)
    requires L + 1 < NUM_LEVELS && Installed(levels, now, L, in0, in1, outs)
    requires OutputNumbers(levels, L, in0, outs, was, pending, next') && pending <= was && next <= next'
    requires forall m | 0 <= m < NUM_LEVELS :: now[m] == LiveLevel(levels[m], [CompactionEdit(L, in0, in1, outs)], m)
    ensures Describes(edits + [CompactionEdit(L, in0, in1, outs)], now, pending, next')
  {
    AllOutputsSpent(levels, now, L, in0, in1, outs, was, pending, next');
    forall m | 0 <= m < NUM_LEVELS ensures NextEdit(edits, CompactionEdit(L, in0, in1, outs), levels, now, pending, next', m) {
      SpentStays(Spent(edits, m), levels, now, L, in0, in1, outs, was, pending, next, next', m);
      CompactionIsNext(edits, levels, now, L, in0, in1, outs, pending, next', m);
    }
    EditDescribes(edits, CompactionEdit(L, in0, in1, outs), levels, now, was, pending, next, next');
  }

  /** Where a file of the new version was before. */
  lemma WhereFrom(levels: Levels, now: Levels, L: nat, in0: seq<File>, in1: seq<File>, outs: seq<File>, j: nat, g: File)
    requires |levels| == NUM_LEVELS && L + 1 < NUM_LEVELS && Installed(levels, now, L, in0, in1, outs)
    requires j < NUM_LEVELS && g in now[j]
    ensures (g in levels[j] && !(j == L && g in in0)) || (j == L + 1 && g in outs)
  {
  }

  /** An old number is not given to a file of a smaller level. */
  lemma OldNumbersStaySpent(levels: Levels, now: Levels, L: nat, in0: seq<File>, in1: seq<File>, outs: seq<File>,
                            was: set<nat>, pending: set<nat>, next: nat, next': nat, m: nat, n: nat)
    requires |levels| == NUM_LEVELS && L + 1 < NUM_LEVELS && Installed(levels, now, L, in0, in1, outs) && m < NUM_LEVELS
    requires OutputNumbers(levels, L, in0, outs, was, pending, next') && pending <= was && next <= next'
    requires SpentAt(levels, was, next, m, n)
    ensures SpentAt(now, pending, next', m, n)
    ensures m == L + 1 ==> n !in FileNumbers(outs)
  {
    forall j, g | 0 <= j < m && g in now[j] ensures g.number != n {
      WhereFrom(levels, now, L, in0, in1, outs, j, g);
    }
  }

  /** An output's number is not borne by a file above it. */
  lemma OutputsSpent(levels: Levels, now: Levels, L: nat, in0: seq<File>, in1: seq<File>, outs: seq<File>,
                     was: set<nat>, pending: set<nat>, next': nat, f: File)
    requires LevelsOk(levels) && NumbersUnique(levels) && NonePending(levels, was)
    requires L + 1 < NUM_LEVELS && Installed(levels, now, L, in0, in1, outs)
    requires OutputNumbers(levels, L, in0, outs, was, pending, next') && f in outs
    ensures SpentAt(now, pending, next', L + 1, f.number)
  {
    assert LevelOk(L, levels[L]);
    PairsFromLevel(L, levels[L]);
    forall j, g | 0 <= j < L + 1 && g in now[j] ensures g.number != f.number {
      WhereFrom(levels, now, L, in0, in1, outs, j, g);
    }
  }

  lemma CompactionIsNext(edits: seq<Edit>, levels: Levels, now: Levels, L: nat, in0: seq<File>, in1: seq<File>, outs: seq<File>,
                         pending: set<nat>, next: nat, m: nat)
    requires m < NUM_LEVELS == |levels| == |now| && DistinctNumbers(outs)
    requires now[m] == LiveLevel(levels[m], [CompactionEdit(L, in0, in1, outs)], m)
    requires forall n | n in Spent(edits, m) :: SpentAt(now, pending, next, m, n)
    requires m == L + 1 ==> Spent(edits, m) !! FileNumbers(outs) && forall n | n in FileNumbers(outs) :: SpentAt(now, pending, next, L + 1, n)
    ensures NextEdit(edits, CompactionEdit(L, in0, in1, outs), levels, now, pending, next, m)
  {
    AtFresh(L + 1, outs, [], m);
    AddedNumbers(L + 1, outs, m);
  }

  lemma SpentStays(spent: set<nat>, levels: Levels, now: Levels, L: nat, in0: seq<File>, in1: seq<File>, outs: seq<File>,
                   was: set<nat>, pending: set<nat>, next: nat, next': nat, m: nat)
    requires |levels| == NUM_LEVELS && L + 1 < NUM_LEVELS && Installed(levels, now, L, in0, in1, outs) && m < NUM_LEVELS
    requires OutputNumbers(levels, L, in0, outs, was, pending, next') && pending <= was && next <= next'
    requires forall n | n in spent :: SpentAt(levels, was, next, m, n)
    ensures forall n | n in spent :: SpentAt(now, pending, next', m, n)
    ensures m == L + 1 ==> spent !! FileNumbers(outs)
  {
    forall n | n in spent ensures SpentAt(now, pending, next', m, n) && (m == L + 1 ==> n !in FileNumbers(outs)) {
      OldNumbersStaySpent(levels, now, L, in0, in1, outs, was, pending, next, next', m, n);
    }
  }

  lemma AllOutputsSpent(levels: Levels, now: Levels, L: nat, in0: seq<File>, in1: seq<File>, outs: seq<File>,
                        was: set<nat>, pending: set<nat>, next': nat)
    requires LevelsOk(levels) && NumbersUnique(levels) && NonePending(levels, was)
    requires L + 1 < NUM_LEVELS && Installed(levels, now, L, in0, in1, outs)
    requires OutputNumbers(levels, L, in0, outs, was, pending, next')
    ensures forall n | n in FileNumbers(outs) :: SpentAt(now, pending, next', L + 1, n)
  {
    forall n | n in FileNumbers(outs) ensures SpentAt(now, pending, next', L + 1, n) {
      var f :| f in outs && f.number == n;
      OutputsSpent(levels, now, L, in0, in1, outs, was, pending, next', f);
    }
  }

  // ---- The first record ----

  /** WriteSnapshot: a new manifest starts with a record of the whole version. */
  lemma SnapshotDescribes(levels: Levels, next: nat)
    requires LevelsOk(levels) && NumbersUnique(levels) && NumbersBelow(levels, next)
    ensures Describes([SnapshotEdit(levels)], levels, {}, next)
  {
    forall l | 0 <= l < NUM_LEVELS ensures Gives([SnapshotEdit(levels)], l, levels[l]) {
      SnapshotGives(levels, l);
    }
    forall l, n | 0 <= l < NUM_LEVELS && n in Spent([SnapshotEdit(levels)], l) ensures SpentAt(levels, {}, next, l, n) {
      SnapshotSpends(levels, l);
    }
  }

  lemma SnapshotGives(levels: Levels, l: nat)
    requires LevelsOk(levels) && l < NUM_LEVELS
    ensures Gives([SnapshotEdit(levels)], l, levels[l])
  {
    assert LevelOk(l, levels[l]);
    SnapshotRestores(levels, l);
    FreshAfterSnapshot(levels, [], l);
    assert [SnapshotEdit(levels)] + [] == [SnapshotEdit(levels)];
  }

  lemma SnapshotSpends(levels: Levels, l: nat)
    requires LevelsOk(levels) && l < NUM_LEVELS
    ensures Spent([SnapshotEdit(levels)], l) == Numbers(set f | f in levels[l])
  {
    assert LevelOk(l, levels[l]);
    SnapshotAdds(levels, l);
    assert [SnapshotEdit(levels)][..0] == [];
  }

  lemma EmptyDescribes(levels: Levels, e: Edit, next: nat)
    requires levels == seq(NUM_LEVELS, _ => []) && e == Edit({}, [])
    ensures Describes([e], levels, {}, next)
  {
    assert [e][..0] == [];
    forall l | 0 <= l < NUM_LEVELS ensures Gives([e], l, levels[l]) && Spent([e], l) == {} {
    }
  }

  // ---- Records ----

  /** The manifest gives the version and the counters that recovery needs. */
  ghost predicate Says(records: seq<Manifests.Record>, levels: Levels, logNumber: nat, next: nat, sequence: nat, pending: set<nat>) {
    && (forall i | 0 <= i < |records| :: records[i].edit.Valid())
    && Describes(Edits(records), levels, pending, next)
    && LastSet(records, LogNumber) == Some(logNumber) && LastSet(records, NextFile) == Some(next) && LastSet(records, LastSequence) == Some(sequence)
  }

  /** What LogAndApply writes: the edit, and all the counters. */
  function RecordOf(e: Edit, logNumber: nat, next: nat, sequence: nat): Manifests.Record {
    Manifests.Record(e, Some(logNumber), Some(0), Some(next), Some(sequence))
  }

  lemma RecordSays(records: seq<Manifests.Record>, e: Edit, levels: Levels, logNumber: nat, next: nat, sequence: nat, pending: set<nat>)
    requires e.Valid() && forall i | 0 <= i < |records| :: records[i].edit.Valid()
    requires Describes(Edits(records) + [e], levels, pending, next)
    ensures Says(records + [RecordOf(e, logNumber, next, sequence)], levels, logNumber, next, sequence, pending)
  {
    var longer := records + [RecordOf(e, logNumber, next, sequence)];
    assert longer[..|longer| - 1] == records;
    assert Edits(longer) == Edits(records) + [e];
  }

  /** Replaying a true manifest gives the current version. */
  lemma SaysReplays(records: seq<Manifests.Record>, levels: Levels, logNumber: nat, next: nat, sequence: nat, pending: set<nat>, r: Levels)
    requires Says(records, levels, logNumber, next, sequence, pending)
    requires |r| == NUM_LEVELS && forall l | 0 <= l < NUM_LEVELS :: r[l] == ReplayLevel([], Edits(records), l)
    ensures r == levels
  {
    forall l | 0 <= l < NUM_LEVELS ensures r[l] == levels[l] {
      assert Gives(Edits(records), l, levels[l]);
      ReplayEqualsLive([], Edits(records), l);
    }
  }
}
