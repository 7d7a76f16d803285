/** Each step of the engine that changes the version or the pending outputs keeps its manifest true. */
module DescriptorSteps {
  import opened Options
  import opened Entries
  import opened Versions
  import opened Compactions
  import opened Lsm
  import opened LsmRuns
  import opened Installs
  import opened Descriptors
  import Builders
  import Manifests

  /** The manifest on disk describes the state. */
  ghost predicate ManifestOk(records: seq<Manifests.Record>, st: State) {
    Says(records, st.levels, st.logNumber, st.manifestNext, st.manifestSequence, st.pendingOutputs)
  }

  lemma IsOk(records: seq<Manifests.Record>, st: State, levels: Levels, logNumber: nat, next: nat, sequence: nat, pending: set<nat>)
    requires Says(records, levels, logNumber, next, sequence, pending)
    requires st.levels == levels && st.logNumber == logNumber && st.manifestNext == next && st.manifestSequence == sequence
    requires st.pendingOutputs == pending
    ensures ManifestOk(records, st)
  {
  }

  /** What is on record once LogAndApply has written the edit. */
  function Logged(records: seq<Manifests.Record>, e: Builders.Edit, logNumber: nat, next: nat, sequence: nat): seq<Manifests.Record> {
    records + [RecordOf(e, logNumber, next, sequence)]
  }

  lemma FileFacts(st: State)
    requires Reachable(st)
    ensures FilesOk(st) && LevelsOk(st.levels)
  {
    ReachableHasInv(st);
  }

  lemma OpenKeepsManifest(records: seq<Manifests.Record>, st: State, st': State)
    requires ManifestOk(records, st) && Reachable(st) && OpenOutput(st, st')
    ensures ManifestOk(records, st')
  {
    FileFacts(st);
    var edits := Manifests.Edits(records);
    forall l, n | 0 <= l < NUM_LEVELS && n in Spent(edits, l) ensures SpentAt(st.levels, st'.pendingOutputs, st.manifestNext, l, n) {
      assert SpentAt(st.levels, st.pendingOutputs, st.manifestNext, l, n);
    }
  }

  /** The table that WriteLevel0Table makes, if there are entries to write. */
  ghost predicate Wrote(levels: Levels, entries: seq<Entry>, number: nat, size: nat, level: nat, files: seq<File>) {
    if entries == [] then files == [] && level == 0 else
      var f := Table(number, size, entries);
      f.Valid() && LegalFlushLevel(levels, f, level) && files == [f]
  }

  /** LogAndApply gave the version with the written table. */
  ghost predicate AppliedFlush(levels: Levels, now: Levels, entries: seq<Entry>, number: nat, level: nat, files: seq<File>) {
    && level < NUM_LEVELS && |files| <= 1 && (forall f | f in files :: f.number == number)
    && AddedAt(levels, now, level, files) && (entries == [] ==> now == levels)
    && forall m | 0 <= m < NUM_LEVELS :: now[m] == Manifests.LiveLevel(levels[m], [AddEdit(level, files)], m)
  }

  ghost predicate Flushed(st: State, st': State, level: nat, size: nat) {
    Flush(st, st', level, size, st'.levels)
  }

  function AfterFlush(st: State, now: Levels): State
    requires st.imm.Some?
  {
    st.(imm := None, levels := now, nextFileNumber := st.nextFileNumber + 1,
        tables := if st.imm.value == [] then st.tables else st.tables + {st.nextFileNumber},
        logNumber := st.logFileNumber, manifestNext := st.nextFileNumber + 1, manifestSequence := st.lastSequence,
        flushed := st.rotated)
  }

  lemma FlushKeepsManifest(records: seq<Manifests.Record>, st: State, now: Levels, l: nat, files: seq<File>,
                           logNumber: nat, next: nat, sequence: nat)
    requires ManifestOk(records, st) && Reachable(st) && st.imm.Some?
    requires AppliedFlush(st.levels, now, st.imm.value, st.nextFileNumber, l, files)
    requires st.nextFileNumber + 1 == next && st.logFileNumber == logNumber && st.lastSequence == sequence
    ensures ManifestOk(Logged(records, AddEdit(l, files), logNumber, next, sequence), AfterFlush(st, now))
  {
    FileFacts(st);
    FlushedSays(records, st, now, l, files, logNumber, next, sequence);
    IsOk(Logged(records, AddEdit(l, files), logNumber, next, sequence), AfterFlush(st, now), now, logNumber, next, sequence, st.pendingOutputs);
  }

  lemma FlushedSays(records: seq<Manifests.Record>, st: State, now: Levels, l: nat, files: seq<File>, logNumber: nat, next: nat, sequence: nat)
    requires ManifestOk(records, st) && FilesOk(st) && st.imm.Some?
    requires AppliedFlush(st.levels, now, st.imm.value, st.nextFileNumber, l, files) && st.nextFileNumber + 1 == next
    ensures Says(Logged(records, AddEdit(l, files), logNumber, next, sequence), now, logNumber, next, sequence, st.pendingOutputs)
  {
    AtYields(l, files);
    AddDescribes(Manifests.Edits(records), st.levels, now, l, files, st.pendingOutputs, st.pendingOutputs, st.manifestNext, next);
    RecordSays(records, AddEdit(l, files), now, logNumber, next, sequence, st.pendingOutputs);
  }

  lemma CompactionKeepsManifest(records: seq<Manifests.Record>, st: State, st': State, L: nat, in0: seq<File>, in1: seq<File>, outs: seq<File>)
    requires ManifestOk(records, st) && Reachable(st) && L + 1 < NUM_LEVELS == |st.levels|
    requires Installed(st.levels, st'.levels, L, in0, in1, outs)
    requires OutputNumbers(st.levels, L, in0, outs, st.pendingOutputs, st'.pendingOutputs, st'.manifestNext)
    requires forall m | 0 <= m < NUM_LEVELS :: st'.levels[m] == Manifests.LiveLevel(st.levels[m], [CompactionEdit(L, in0, in1, outs)], m)
    requires st'.manifestNext == st.nextFileNumber && st'.pendingOutputs <= st.pendingOutputs
    ensures ManifestOk(Logged(records, CompactionEdit(L, in0, in1, outs), st'.logNumber, st'.manifestNext, st'.manifestSequence), st')
  {
    FileFacts(st);
    var e := CompactionEdit(L, in0, in1, outs);
    AtYields(L + 1, outs);
    CompactionDescribes(Manifests.Edits(records), st.levels, st'.levels, L, in0, in1, outs, st.pendingOutputs, st'.pendingOutputs,
                        st.manifestNext, st'.manifestNext);
    RecordSays(records, e, st'.levels, st'.logNumber, st'.manifestNext, st'.manifestSequence, st'.pendingOutputs);
  }

  lemma OutputsWerePending(st: State, L: nat, in0: seq<File>, outs: seq<File>)
    requires Reachable(st) && L < |st.levels| && DistinctNumbers(outs) && forall f | f in outs :: f.number in st.pendingOutputs
    ensures OutputNumbers(st.levels, L, in0, outs, st.pendingOutputs, st.pendingOutputs - FileNumbers(outs), st.nextFileNumber)
  {
    FileFacts(st);
    forall f | f in outs ensures f.number in FileNumbers(outs) && f.number < st.nextFileNumber {
    }
  }

  lemma MovedKeepsNumber(st: State, L: nat, f: File)
    requires Reachable(st) && L < |st.levels| && f in st.levels[L]
    ensures OutputNumbers(st.levels, L, [f], [f], st.pendingOutputs, st.pendingOutputs, st.nextFileNumber)
  {
    FileFacts(st);
    assert f in [f];
  }

  /** WriteSnapshot's record. */
  function Snapshot(levels: Levels): Manifests.Record {
    Manifests.Record(Manifests.SnapshotEdit(levels), None, None, None, None)
  }

  /** The manifest that opening the database starts: the recovered version, then the replayed tables. */
  function NewManifest(levels: Levels, files: seq<File>, logNumber: nat, sequence: nat): seq<Manifests.Record> {
    Logged([Snapshot(levels)], AddEdit(0, files), logNumber, logNumber + 1, sequence)
  }

  lemma SnapshotRecord(levels: Levels)
    requires |levels| <= NUM_LEVELS
    ensures Snapshot(levels).edit.Valid() && Manifests.Edits([Snapshot(levels)]) == [Manifests.SnapshotEdit(levels)]
  {
    Manifests.NoneAtOrAbove(levels);
  }

  lemma NewManifestSays(levels: Levels, files: seq<File>, now: Levels, next: nat, logNumber: nat, sequence: nat)
    requires LevelsOk(levels) && NumbersUnique(levels) && NumbersBelow(levels, next)
    requires Lsm.AddedAt(levels, now, 0, files) && NewNumbers(files, {}, next, logNumber + 1)
    requires forall m | 0 <= m < NUM_LEVELS :: now[m] == Manifests.LiveLevel(levels[m], [AddEdit(0, files)], m)
    ensures Says(NewManifest(levels, files, logNumber, sequence), now, logNumber, logNumber + 1, sequence, {})
  {
    SnapshotDescribes(levels, next);
    AddDescribes([Manifests.SnapshotEdit(levels)], levels, now, 0, files, {}, {}, next, logNumber + 1);
    SnapshotRecord(levels);
    AtYields(0, files);
    RecordSays([Snapshot(levels)], AddEdit(0, files), now, logNumber, logNumber + 1, sequence, {});
  }

  function AfterRecovery(st: State, files: seq<File>, now: Levels, next: nat, sequence: nat): State {
    State([], None, now, sequence, [], next + 1, {}, [], next,
          st.logs[next := []], st.tables + FileNumbers(files), next, next + 1, sequence,
          st.logged, |st.logged|, |st.logged|, |st.logged|, st.floor)
  }

  ghost predicate Reopened(st: State, st': State, files: seq<File>, next: nat) {
    Lsm.Recover(st, st', files, st'.levels, next)
  }

  /** LogAndApply gave the recovered version with the replayed tables. */
  ghost predicate AppliedRecovery(st: State, now: Levels, files: seq<File>, next: nat) {
    && Lsm.AddedAt(st.levels, now, 0, files) && RecoveredFiles(st, files, next) && st.manifestNext < next
    && (forall n | n in st.logs :: n < next)
    && forall m | 0 <= m < NUM_LEVELS :: now[m] == Manifests.LiveLevel(st.levels[m], [AddEdit(0, files)], m)
  }

  lemma RecoveryKeepsManifest(st: State, levels: Levels, files: seq<File>, now: Levels, next: nat, sequence: nat)
    requires Reachable(st) && levels == st.levels && AppliedRecovery(st, now, files, next)
    ensures ManifestOk(NewManifest(levels, files, next, sequence), AfterRecovery(st, files, now, next, sequence))
  {
    RecoveredSays(st, levels, files, now, next, sequence);
    RecoveredIsOk(NewManifest(levels, files, next, sequence), st, files, now, next, sequence);
  }

  lemma RecoveredIsOk(records: seq<Manifests.Record>, st: State, files: seq<File>, now: Levels, next: nat, sequence: nat)
    requires Says(records, now, next, next + 1, sequence, {})
    ensures ManifestOk(records, AfterRecovery(st, files, now, next, sequence))
  {
    IsOk(records, AfterRecovery(st, files, now, next, sequence), now, next, next + 1, sequence, {});
  }

  lemma RecoveredSays(st: State, levels: Levels, files: seq<File>, now: Levels, next: nat, sequence: nat)
    requires Reachable(st) && levels == st.levels && AppliedRecovery(st, now, files, next)
    ensures Says(NewManifest(levels, files, next, sequence), now, next, next + 1, sequence, {})
  {
    FileFacts(st);
    RecoveredAreNew(st, files, next);
    NewManifestSays(levels, files, now, st.manifestNext, next, sequence);
  }

  lemma RecoveryIsStep(st: State, files: seq<File>, now: Levels, next: nat, sequence: nat)
    requires Reachable(st) && AppliedRecovery(st, now, files, next) && RecoveredSequence(st, sequence)
    ensures Reopened(st, AfterRecovery(st, files, now, next, sequence), files, next)
    ensures Reachable(AfterRecovery(st, files, now, next, sequence))
  {
    RecoverReachable(st, AfterRecovery(st, files, now, next, sequence), files, now, next);
  }

  lemma RecoveredAreNew(st: State, files: seq<File>, next: nat)
    requires RecoveredFiles(st, files, next) && st.manifestNext < next
    ensures NewNumbers(files, {}, st.manifestNext, next + 1)
  {
  }

  /** NewDB's only record: no files, no log yet, and file 1 taken by this manifest. */
  const NEW_DB: Manifests.Record := Manifests.Record(Builders.Edit({}, []), Some(0), None, Some(2), Some(0))

  lemma NewDbSays(levels: Levels)
    requires levels == seq(NUM_LEVELS, _ => [])
    ensures Says([NEW_DB], levels, 0, 2, 0, {})
  {
    assert [NEW_DB][..0] == [];
    assert Manifests.Edits([NEW_DB]) == [NEW_DB.edit];
    EmptyDescribes(levels, NEW_DB.edit, 2);
  }

  /** Opening an empty database starts a manifest of no files. */
  lemma EmptyManifest(levels: Levels, logNumber: nat, sequence: nat)
    requires levels == seq(NUM_LEVELS, _ => [])
    ensures Says(NewManifest(levels, [], logNumber, sequence), levels, logNumber, logNumber + 1, sequence, {})
  {
    NothingAdded(levels);
    NewManifestSays(levels, [], levels, logNumber, logNumber, sequence);
  }

  lemma NothingAdded(levels: Levels)
    requires LevelsOk(levels)
    ensures Lsm.AddedAt(levels, levels, 0, [])
    ensures forall m | 0 <= m < NUM_LEVELS :: levels[m] == Manifests.LiveLevel(levels[m], [AddEdit(0, [])], m)
  {
    assert LevelOk(0, levels[0]);
    forall m | 0 <= m < NUM_LEVELS ensures levels[m] == Manifests.LiveLevel(levels[m], [AddEdit(0, [])], m) {
      EmptyEditAt(levels[m], m);
    }
  }

  lemma EmptyEditAt(files: seq<File>, m: nat)
    ensures Manifests.LiveLevel(files, [AddEdit(0, [])], m) == files
  {
    var e := AddEdit(0, []);
    assert [e][..0] == [];
    assert Builders.DeletedAt(e, m) == {};
    assert Builders.ApplyLevel(Manifests.EMPTY, e, m) == Manifests.EMPTY;
    Manifests.NothingToMerge(files);
  }
}
