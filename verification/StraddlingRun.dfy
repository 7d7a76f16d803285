/**
 A run of the engine that ends where the next compaction must bring a deleted value back: key 5 is
 written, read by a snapshot and deleted; a compaction under the snapshot writes both versions,
 in two files; the snapshot is released and another value of key 1 is flushed over the first file.
 Nothing in the run is unusual but the compaction, which is a manual one.
 */
module StraddlingRuns {
  import opened Options
  import opened Entries
  import opened Versions
  import opened Compactions
  import opened CompactionReads
  import opened Histories
  import opened Memtables
  import opened Lsm
  import opened LsmRuns
  import opened InputSelection
  import DbImpl

  /** Between two writes, with no flush waiting. */
  ghost predicate Quiet(st: State) {
    Reachable(st) && st.imm.None? && st.lastSequence == st.inserted == |st.logged|
  }

  lemma WriteOne(st: State, op: Op) returns (st': State)
    requires Quiet(st) && |st.logged| + 1 < MAX_SEQUENCE_NUMBER
    ensures Quiet(st') && st'.logged == st.logged + [op] && st'.mem == InsertEntry(st.mem, Entry(op.key, |st.logged| + 1, op.value))
    ensures st'.levels == st.levels && st'.snapshots == st.snapshots
    ensures st'.pendingOutputs == st.pendingOutputs && st'.nextFileNumber == st.nextFileNumber
  {
    DbImpl.WriterFacts(st);
    var log := st.logs[st.logFileNumber] + [Record(st.lastSequence + 1, [op])];
    var logged := st.(logs := st.logs[st.logFileNumber := log], logged := st.logged + [op]);
    LogBatchReachable(st, logged, [op]);
    var e := EntryOf(logged.logged, logged.inserted);
    InsertEntrySorted(st.mem, e);
    var inserted := logged.(mem := InsertEntry(st.mem, e), inserted := logged.inserted + 1);
    InsertReachable(logged, inserted, inserted.mem);
    st' := inserted.(lastSequence := |inserted.logged|);
    PublishOrRotateReachable(inserted, st');
  }

  /** Rotate the memtable and flush it to level 2, under the number after the new log's. */
  lemma FlushTo2(st: State, f: File) returns (st': State)
    requires Quiet(st) && f.entries == st.mem && f.number == st.nextFileNumber + 1 && |st.levels| == NUM_LEVELS
    requires st.levels[0] == st.levels[1] == st.levels[2] == []
    ensures Quiet(st') && st'.logged == st.logged && st'.mem == []
    ensures st'.levels == st.levels[2 := [f]] && st'.snapshots == st.snapshots
    ensures st'.pendingOutputs == st.pendingOutputs && st'.nextFileNumber == st.nextFileNumber + 2
  {
    var log := st.nextFileNumber;
    var rotated := st.(imm := Some(st.mem), mem := [], logFileNumber := log, nextFileNumber := log + 1,
                       logs := st.logs[log := []], rotated := |st.logged|);
    PublishOrRotateReachable(st, rotated);
    var now := st.levels[2 := [f]];
    st' := rotated.(imm := None, levels := now, nextFileNumber := log + 2, tables := st.tables + {log + 1},
                    logNumber := log, manifestNext := log + 2, manifestSequence := st.lastSequence, flushed := rotated.rotated);
    FlushReachable(rotated, st', 2, f.size, now);
  }

  lemma Open(st: State) returns (st': State)
    requires Quiet(st)
    ensures Quiet(st') && st'.pendingOutputs == st.pendingOutputs + {st.nextFileNumber} && st'.nextFileNumber == st.nextFileNumber + 1
    ensures st'.levels == st.levels && st'.mem == st.mem && st'.logged == st.logged && st'.snapshots == st.snapshots
  {
    st' := st.(nextFileNumber := st.nextFileNumber + 1, tables := st.tables + {st.nextFileNumber},
               pendingOutputs := st.pendingOutputs + {st.nextFileNumber});
    HouseStepReachable(st, st');
  }

  lemma Snapshot(st: State) returns (st': State)
    requires Quiet(st)
    ensures Quiet(st') && st'.snapshots == st.snapshots + [st.lastSequence]
    ensures st' == st.(snapshots := st'.snapshots)
  {
    st' := st.(snapshots := st.snapshots + [st.lastSequence]);
    HouseStepReachable(st, st');
  }

  lemma Release(st: State) returns (st': State)
    requires Quiet(st) && |st.snapshots| == 1
    ensures Quiet(st') && st' == st.(snapshots := [])
  {
    st' := st.(snapshots := st.snapshots[..0] + st.snapshots[1..]);
    ReleaseReachable(st, st', 0);
  }

  /** The only file of the tree, in level 2, and the two files that a manual compaction makes of it under a snapshot at 2. */
  ghost predicate Cut(levels: Levels, w: File, f: File, g: File) {
    && OnlyLevels2And3(levels) && levels[2] == [w] && levels[3] == []
    && w.entries == [OLD, MARKER, STALE] && f.entries == [OLD, MARKER] && g.entries == [STALE] && f.number != g.number
  }

  lemma CutLegalInputs(levels: Levels, w: File, f: File, g: File)
    requires Cut(levels, w, f, g)
    ensures LegalInputs(levels, 2, [w], []) && NoResurrection(LevelsEntries(levels), levels, 2, [w], [], 2)
  {
    OneFileLevel(2, w);
    OneFile(w);
    ClosedEdgesPreventResurrection(LevelsEntries(levels), levels, 2, [w], [], 2);
  }

  /** The snapshot at 2 keeps every version: none is hidden, and it does not see the deletion. */
  lemma CutLegalOutputs(levels: Levels, w: File, f: File, g: File)
    requires Cut(levels, w, f, g)
    ensures LegalOutputs([f, g], levels, 2, [w], [], 2)
  {
    OneFile(w);
    TwoFiles(f, g);
    assert Inputs([w], []) == {OLD, MARKER, STALE};
    CutSurvivors(levels, Inputs([w], []));
  }

  lemma CutSurvivors(levels: Levels, input: set<Entry>)
    requires input == {OLD, MARKER, STALE}
    ensures (set e | e in input && Survives(e, input, 2, levels, 2)) == input
  {
  }

  lemma CutInstalled(levels: Levels, w: File, f: File, g: File)
    requires Cut(levels, w, f, g)
    ensures Installed(levels, levels[2 := []][3 := [f, g]], 2, [w], [], [f, g])
  {
    OneFile(w);
    TwoFiles(f, g);
  }

  lemma CompactTo3(st: State, w: File, f: File, g: File) returns (st': State)
    requires Quiet(st) && Cut(st.levels, w, f, g) && st.mem == [] && st.snapshots == [2]
    requires f.number in st.pendingOutputs && g.number in st.pendingOutputs
    ensures Quiet(st') && st'.levels == st.levels[2 := []][3 := [f, g]] && st'.mem == [] && st'.snapshots == [2]
    ensures st'.logged == st.logged && st'.nextFileNumber == st.nextFileNumber
  {
    CutLegalInputs(st.levels, w, f, g);
    CutLegalOutputs(st.levels, w, f, g);
    CutInstalled(st.levels, w, f, g);
    assert All(st) == LevelsEntries(st.levels);
    var now := st.levels[2 := []][3 := [f, g]];
    st' := st.(levels := now, pendingOutputs := st.pendingOutputs - FileNumbers([f, g]),
               manifestNext := st.nextFileNumber, manifestSequence := st.lastSequence,
               floor := if st.floor < 2 then 2 else st.floor);
    CompactReachable(st, st', 2, [w], [], [f, g], 2, now);
  }

  const HISTORY: seq<Op> := [Op(1, Some("old")), Op(5, Some("stale")), Op(5, None), Op(1, Some("new"))]

  /** A database opened empty: log 3, next file 4. */
  const EMPTY: State := State([], None, seq(NUM_LEVELS, _ => []), 0, [], 4, {}, [], 3, map[3 := []], {}, 3, 4, 0, [], 0, 0, 0, 0)

  lemma WriteAndDelete() returns (st: State)
    ensures Quiet(st) && st.logged == HISTORY[..3] && st.mem == [OLD, MARKER, STALE] && st.snapshots == [2]
    ensures st.levels == EMPTY.levels && st.pendingOutputs == {} && st.nextFileNumber == 4
  {
    ReachableInit(EMPTY);
    st := WriteOne(EMPTY, HISTORY[0]);
    st := WriteOne(st, HISTORY[1]);
    st := Snapshot(st);
    st := WriteOne(st, HISTORY[2]);
  }

  lemma CutUnderSnapshot() returns (st: State, f: File, g: File)
    ensures Quiet(st) && st.logged == HISTORY[..3] && st.mem == [] && st.snapshots == [2] && st.nextFileNumber == 8
    ensures st.levels == EMPTY.levels[3 := [f, g]]
    ensures f == Table(6, 1, [OLD, MARKER]) && g == Table(7, 1, [STALE])
  {
    st := WriteAndDelete();
    var w: File := Table(5, 1, [OLD, MARKER, STALE]);
    f, g := Table(6, 1, [OLD, MARKER]), Table(7, 1, [STALE]);
    st := FlushTo2(st, w);
    st := Open(st);
    st := Open(st);
    st := CompactTo3(st, w, f, g);
  }

  lemma RunReachesStraddling() returns (st: State, a: File, f: File, g: File)
    ensures Quiet(st) && Straddling(st.levels, a, f, g) && st.logged == HISTORY && st.mem == [] && st.snapshots == []
    ensures f.number == 6 && g.number == 7 && st.nextFileNumber == 10
  {
    st, f, g := CutUnderSnapshot();
    st := Release(st);
    st := WriteOne(st, HISTORY[3]);
    a := Table(9, 1, [NEW]);
    st := FlushTo2(st, a);
  }

  lemma ExactRun(a: File, in0: seq<File>, i: nat, j: nat)
    requires ClosedRun([a], in0, i, j)
    ensures in0 == [a]
  {
  }

  lemma OverlappingFirst(f: File, g: File, lo: UserKey, hi: UserKey)
    requires Overlaps(f, Some(lo), Some(hi)) && !Overlaps(g, Some(lo), Some(hi))
    ensures Overlapping([f, g], Some(lo), Some(hi)) == [f]
  {
    NextFile([f, g], 0, Some(lo), Some(hi));
    NextFile([f, g], 1, Some(lo), Some(hi));
    assert [f, g][..2] == [f, g] && [f, g][..0] == [];
  }

  lemma ExactLower(a: File, f: File, g: File)
    requires a.entries == [NEW] && f.entries == [OLD, MARKER] && g.entries == [STALE]
    ensures Overlapping([f, g], Some(UserLo([a])), Some(UserHi([a]))) == [f]
  {
    OneFile(a);
    OverlappingFirst(f, g, 1, 1);
  }

  /** On the straddling version, the code's own selection takes the file with the deletion and leaves the one with the value. */
  method PickStraddling(levels: Levels, a: File, f: File, g: File, due: nat, expandedLimit: nat, maxGrandParentBytes: nat)
      returns (in0: seq<File>, in1: seq<File>, trivial: bool)
    requires Straddling(levels, a, f, g) && due < |levels[2]|
    ensures in0 == [a] && in1 == [f] && !trivial
  {
    StraddlingLevelsOk(levels, a, f, g);
    in0, in1, trivial := DbImpl.Pick(levels, 2, due, expandedLimit, maxGrandParentBytes);
    ghost var i: nat, j: nat :| ClosedRun(levels[2], in0, i, j);
    ExactRun(a, in0, i, j);
    ExactLower(a, f, g);
  }

  lemma DeletedInHistory()
    ensures HistoryGet(HISTORY, 5, 4) == None
  {
    assert HISTORY[..3] == [Op(1, Some("old")), Op(5, Some("stale")), Op(5, None)];
  }

  lemma TablesOnly(st: State)
    requires st.mem == [] && st.imm.None?
    ensures Upper(st) == {} && All(st) == LevelsEntries(st.levels)
  {
  }

  lemma ReadsBeforeAndAfter(st: State, now: Levels, a: File, f: File, g: File, out: File)
    requires Straddling(st.levels, a, f, g) && AfterStraddling(st.levels, now, f, g, out)
    requires st.mem == [] && st.imm.None?
    ensures Answers(Some(MARKER), All(st), 5, 4) && Answers(Some(STALE), Upper(st) + LevelsEntries(now), 5, 4)
  {
    StraddlingReads(st.levels, now, a, f, g, out);
    TablesOnly(st);
    assert Upper(st) + LevelsEntries(now) == LevelsEntries(now);
  }

  /** The compaction of that version and the two answers to a read of key 5. */
  ghost predicate Resurrected(st: State, in0: seq<File>, in1: seq<File>, outs: seq<File>, now: Levels) {
    && LegalInputs(st.levels, 2, in0, in1) && LegalOutputs(outs, st.levels, 2, in0, in1, SmallestSnapshot(st))
    && Installed(st.levels, now, 2, in0, in1, outs)
    && Answers(Some(MARKER), All(st), 5, st.lastSequence) && Answers(Some(STALE), Upper(st) + LevelsEntries(now), 5, st.lastSequence)
  }

  lemma StraddlingResurrected(st: State, now: Levels, a: File, f: File, g: File, out: File)
    requires Straddling(st.levels, a, f, g) && AfterStraddling(st.levels, now, f, g, out)
    requires st.mem == [] && st.imm.None? && st.snapshots == [] && st.lastSequence == 4
    ensures Resurrected(st, [a], [f], [out], now)
  {
    StraddlingCompaction(st.levels, now, a, f, g, out);
    ReadsBeforeAndAfter(st, now, a, f, g, out);
  }

  /** The writes say key 5 is deleted; so does the version the run reaches, until its level 2 is compacted. */
  lemma RunResurrects() returns (st: State, a: File, f: File, g: File, out: File, now: Levels)
    ensures Reachable(st) && st.lastSequence == |st.logged| && HistoryGet(st.logged, 5, st.lastSequence) == None
    ensures Straddling(st.levels, a, f, g) && out.number == st.nextFileNumber
    ensures Resurrected(st, [a], [f], [out], now)
  {
    st, a, f, g := RunReachesStraddling();
    out := Table(10, 1, [NEW]);
    now := st.levels[2 := []][3 := [out, g]];
    StraddlingResurrected(st, now, a, f, g, out);
    DeletedInHistory();
  }
}
