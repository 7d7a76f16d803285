/**
 The database object (db/db_impl.cc). Its fields are what the engine holds in memory and on disk, and
 its methods take the steps of the state machine: reads and writes, the switch to a new memtable, the
 flush, the compaction, file deletion, opening an empty database and opening one that a crash left
 behind. The object is valid when some run leads to its state and the manifest on disk describes it.
 */
module DbImpl {
  import opened Options
  import opened Entries
  import opened Versions
  import opened Compactions
  import opened CompactionReads
  import opened CompactionWork
  import opened InputSelection
  import opened Histories
  import opened Lsm
  import opened LsmSteps
  import opened LsmRuns
  import opened Installs
  import opened Memtables
  import opened Replays
  import opened DescriptorSteps
  import Builders
  import Descriptors
  import Manifests

  /** A component that knows the key answers for itself and everything older. */
  lemma LayeredAnswer(S: set<Entry>, T: set<Entry>, r: Option<Entry>, r': Option<Entry>, k: UserKey, s: nat)
    requires Answers(r, S, k, s) && (r.None? ==> Answers(r', T, k, s))
    requires forall x, y | x in S && y in T && x.user == y.user :: x.sn > y.sn
    ensures Answers(if r.Some? then r else r', S + T, k, s)
  {
  }

  // ---- The facts the methods use of the invariant ----

  lemma WriterFacts(st: State)
    requires Reachable(st)
    ensures st.logFileNumber in st.logs && st.lastSequence <= st.inserted <= |st.logged|
    ensures Sorted(st.mem) && forall e | e in st.mem :: e.sn <= st.inserted
  {
    ReachableHasInv(st);
    forall e | e in st.mem ensures e.sn <= st.inserted {
      assert e in SetOf(st.mem);
    }
  }

  lemma FlushFacts(st: State, size: nat)
    requires Reachable(st)
    ensures LevelsOk(st.levels) && NumbersBelow(st.levels, st.nextFileNumber)
    ensures st.imm.Some? && st.imm.value != [] ==> Table(st.nextFileNumber, size, st.imm.value).Valid()
  {
    ReachableHasInv(st);
    if st.imm.Some? {
      forall e | e in st.imm.value ensures e.sn <= MAX_SEQUENCE_NUMBER {
        assert e in ImmSet(st);
      }
    }
  }

  lemma ReaderFacts(st: State)
    requires Reachable(st)
    ensures LevelsOk(st.levels) && Sorted(st.mem) && (st.imm.Some? ==> Sorted(st.imm.value))
  {
    ReachableHasInv(st);
  }

  /** Stopping at the first component that knows the key gives what the history says. */
  lemma GetIsRight(st: State, key: UserKey, s: nat, r0: Option<Entry>, r1: Option<Entry>, r2: Option<Entry>)
    requires Reachable(st) && Live(st, s)
    requires Answers(r0, SetOf(st.mem), key, s)
    requires r0.None? ==> Answers(r1, ImmSet(st), key, s)
    requires r0.None? && r1.None? ==> Answers(r2, LevelsEntries(st.levels), key, s)
    ensures ValueOf(if r0.Some? then r0 else if r1.Some? then r1 else r2) == HistoryGet(st.logged, key, s)
  {
    ReachableHasInv(st);
    UpperAnswers(st, key, s, r0, r1);
    var r := if r0.Some? then r0 else r1;
    AllAnswers(st, key, s, r, r2);
    LiveReadsAreRight(st, key, s, if r.Some? then r else r2);
  }

  lemma UpperAnswers(st: State, key: UserKey, s: nat, r0: Option<Entry>, r1: Option<Entry>)
    requires SequencesOk(st) && EntriesOk(st)
    requires Answers(r0, SetOf(st.mem), key, s)
    requires r0.None? ==> Answers(r1, ImmSet(st), key, s)
    ensures Answers(if r0.Some? then r0 else r1, Upper(st), key, s)
  {
    LayeredAnswer(SetOf(st.mem), ImmSet(st), r0, r1, key, s);
  }

  lemma AllAnswers(st: State, key: UserKey, s: nat, r: Option<Entry>, r2: Option<Entry>)
    requires SequencesOk(st) && EntriesOk(st)
    requires Answers(r, Upper(st), key, s)
    requires r.None? ==> Answers(r2, LevelsEntries(st.levels), key, s)
    ensures Answers(if r.Some? then r else r2, All(st), key, s)
  {
    LayeredAnswer(Upper(st), LevelsEntries(st.levels), r, r2, key, s);
  }

  // ---- Compactions ----

  lemma CompactionFacts(st: State)
    requires Reachable(st)
    ensures LevelsOk(st.levels) && SmallestSnapshot(st) < MAX_SEQUENCE_NUMBER
    ensures NonePending(st.levels, st.pendingOutputs)
  {
    ReachableHasInv(st);
  }

  lemma CompactionEntries(st: State)
    requires Reachable(st)
    ensures UniqueVersions(LevelsEntries(st.levels)) && forall e | e in LevelsEntries(st.levels) :: e.sn <= MAX_SEQUENCE_NUMBER
  {
    ReachableHasInv(st);
    EntriesFromHistory(LevelsEntries(st.levels), st.logged, st.flushed);
  }

  lemma EntriesFromHistory(S: set<Entry>, h: seq<Op>, n: nat)
    requires FromHistory(S, h, n) && n < MAX_SEQUENCE_NUMBER
    ensures UniqueVersions(S) && forall e | e in S :: e.sn <= MAX_SEQUENCE_NUMBER
  {
    forall a, b | a in S && b in S && a.user == b.user && a.sn == b.sn ensures a == b {
      assert a == EntryOf(h, a.sn - 1) && b == EntryOf(h, b.sn - 1);
    }
  }

  /** The merged input of a compaction: every entry of the input files, in key order. */
  method MakeInputIterator(files: seq<File>) returns (es: seq<Entry>)
    requires UniqueVersions(FilesEntries(files))
    ensures Sorted(es) && SetOf(es) == FilesEntries(files)
  {
    es := [];
    for i := 0 to |files|
      invariant Sorted(es) && SetOf(es) == FilesEntries(files[..i])
    {
      assert files[..i + 1] == files[..i] + [files[i]];
      es := MergeIn(es, files[i].entries, FilesEntries(files));
      assert FilesEntries(files[..i + 1]) == FilesEntries(files[..i]) + SetOf(files[i].entries);
    }
    assert files[..|files|] == files;
  }

  method MergeIn(es: seq<Entry>, more: seq<Entry>, ghost S: set<Entry>) returns (r: seq<Entry>)
    requires Sorted(es) && UniqueVersions(S) && SetOf(es) <= S && SetOf(more) <= S
    ensures Sorted(r) && SetOf(r) == SetOf(es) + SetOf(more)
  {
    r := es;
    for i := 0 to |more|
      invariant Sorted(r) && SetOf(r) == SetOf(es) + SetOf(more[..i])
    {
      var e := more[i];
      assert more[..i + 1] == more[..i] + [e] && e in SetOf(more);
      if e !in r {
        forall x | x in r ensures x.user != e.user || x.sn != e.sn {
          assert x in SetOf(r);
          assert x in S by {
            if x !in SetOf(es) { assert x in more; assert x in SetOf(more); }
          }
        }
        InsertEntrySorted(r, e);
        r := InsertEntry(r, e);
      } else {
        assert e in SetOf(r);
      }
    }
    assert more[..|more|] == more;
  }

  /** The version set: the current version, the counters, and what the last manifest record says. */
  datatype VersionSet = VersionSet(levels: Levels, lastSequence: nat, nextFileNumber: nat, pinned: seq<Levels>,
                                   logNumber: nat, manifestNext: nat, manifestSequence: nat)

  /** The files on disk. */
  datatype Disk = Disk(logs: map<nat, seq<Lsm.Record>>, tables: set<nat>, manifest: seq<Manifests.Record>)

  /** The history of writes and how far it has travelled. */
  datatype Progress = Progress(logged: seq<Op>, inserted: nat, rotated: nat, flushed: nat, floor: nat)

  lemma FlushIsStep(st: State, now: Levels, l: nat, size: nat, files: seq<File>)
    requires Reachable(st) && st.imm.Some?
    requires Wrote(st.levels, st.imm.value, st.nextFileNumber, size, l, files)
    requires AppliedFlush(st.levels, now, st.imm.value, st.nextFileNumber, l, files)
    ensures Flushed(st, AfterFlush(st, now), l, size) && Reachable(AfterFlush(st, now))
  {
    FlushReachable(st, AfterFlush(st, now), l, size, now);
  }

  function AfterCompaction(st: State, now: Levels, outs: seq<File>, snap: nat): State {
    st.(levels := now, pendingOutputs := st.pendingOutputs - FileNumbers(outs),
        manifestNext := st.nextFileNumber, manifestSequence := st.lastSequence,
        floor := if st.floor < snap then snap else st.floor)
  }

  ghost predicate Compacted(st: State, st': State, L: nat, in0: seq<File>, in1: seq<File>, outs: seq<File>, snap: nat) {
    Compact(st, st', L, in0, in1, outs, snap, st'.levels)
  }

  /** LogAndApply gave the version with the outputs in place of the inputs. */
  ghost predicate AppliedCompaction(levels: Levels, now: Levels, L: nat, in0: seq<File>, in1: seq<File>, outs: seq<File>) {
    && L + 1 < NUM_LEVELS == |levels| && Installed(levels, now, L, in0, in1, outs)
    && forall m | 0 <= m < NUM_LEVELS :: now[m] == Manifests.LiveLevel(levels[m], [CompactionEdit(L, in0, in1, outs)], m)
  }

  /** What an installed compaction makes of reads, and when it is a step of the engine. */
  lemma CompactionDone(st: State, now: Levels, L: nat, in0: seq<File>, in1: seq<File>, outs: seq<File>, snap: nat)
    requires Reachable(st) && snap <= SmallestSnapshot(st)
    requires LegalInputs(st.levels, L, in0, in1) && LegalOutputs(outs, st.levels, L, in0, in1, snap)
    requires (forall f | f in outs :: f.number in st.pendingOutputs) && AppliedCompaction(st.levels, now, L, in0, in1, outs)
    ensures SameReads(All(st), All(AfterCompaction(st, now, outs, snap)), snap) <==> NoResurrection(All(st), st.levels, L, in0, in1, snap)
    ensures NoResurrection(All(st), st.levels, L, in0, in1, snap) ==>
      Reachable(AfterCompaction(st, now, outs, snap)) && Compacted(st, AfterCompaction(st, now, outs, snap), L, in0, in1, outs, snap)
  {
    var st' := AfterCompaction(st, now, outs, snap);
    CompactionReadsIff(st, st', L, in0, in1, outs, snap);
    if NoResurrection(All(st), st.levels, L, in0, in1, snap) {
      CompactReachable(st, st', L, in0, in1, outs, snap, now);
    }
  }

  lemma CompactionRecorded(records: seq<Manifests.Record>, st: State, now: Levels, L: nat, in0: seq<File>, in1: seq<File>, outs: seq<File>, snap: nat,
                           logNumber: nat, next: nat, sequence: nat)
    requires Reachable(st) && ManifestOk(records, st)
    requires DistinctNumbers(outs) && (forall f | f in outs :: f.number in st.pendingOutputs) && AppliedCompaction(st.levels, now, L, in0, in1, outs)
    requires st.logNumber == logNumber && st.nextFileNumber == next && st.lastSequence == sequence
    ensures ManifestOk(Logged(records, CompactionEdit(L, in0, in1, outs), logNumber, next, sequence), AfterCompaction(st, now, outs, snap))
  {
    OutputsWerePending(st, L, in0, outs);
    CompactionKeepsManifest(records, st, AfterCompaction(st, now, outs, snap), L, in0, in1, outs);
  }

  class DBImpl {
    var mem: seq<Entry>
    var imm: Option<seq<Entry>>
    var snapshots: seq<nat>
    var pendingOutputs: set<nat>
    var logFileNumber: nat
    var versions: VersionSet
    var disk: Disk
    ghost var progress: Progress

    ghost function Abs(): State
      reads this
    {
      State(mem, imm, versions.levels, versions.lastSequence, snapshots, versions.nextFileNumber, pendingOutputs, versions.pinned, logFileNumber,
            disk.logs, disk.tables, versions.logNumber, versions.manifestNext, versions.manifestSequence,
            progress.logged, progress.inserted, progress.rotated, progress.flushed, progress.floor)
    }

    /** The engine's state is one that a run reaches, and the manifest on disk describes it. */
    ghost predicate Valid()
      reads this
    {
      Reachable(Abs()) && ManifestOk(disk.manifest, Abs())
    }

    /**
     DB::Open where there is no database yet: NewDB writes the first manifest; recovery reads it
     back, finds no log, starts the first one and a manifest of its own.
     */
    constructor ()
      ensures Valid() && progress.logged == [] && snapshots == [] && versions.lastSequence == 0
      ensures versions.levels == seq(NUM_LEVELS, _ => [])
    {
      var r := Manifests.Recover([NEW_DB]);
      NewDbRecovered(r);
      var logNumber := r.nextFileNumber;
      mem, imm, snapshots, pendingOutputs, logFileNumber := [], None, [], {}, logNumber;
      versions := VersionSet(r.levels, r.lastSequence, logNumber + 1, [], logNumber, logNumber + 1, r.lastSequence);
      disk := Disk(map[logNumber := []], {}, NewManifest(r.levels, [], logNumber, r.lastSequence));
      progress := Progress([], 0, 0, 0, 0);
      new;
      ReachableInit(Abs());
      EmptyManifest(versions.levels, logNumber, 0);
    }

    /** Read at a snapshot, or at the last sequence: memtable, immutable memtable, then the version. */
    method Get(key: UserKey, snapshot: Option<nat>) returns (value: Option<Value>)
      requires Valid()
      requires snapshot.Some? ==> snapshot.value in snapshots
      ensures value == HistoryGet(progress.logged, key, if snapshot.Some? then snapshot.value else versions.lastSequence)
    {
      var s := if snapshot.Some? then snapshot.value else versions.lastSequence;
      ReaderFacts(Abs());
      var r := Seek(mem, key, s);
      SeekAnswers(mem, key, s);
      ghost var r0, r1, r2 := r, None, None;
      if r.None? {
        if imm.Some? {
          r := Seek(imm.value, key, s);
          SeekAnswers(imm.value, key, s);
        }
        r1 := r;
        if r.None? {
          r := Versions.Get(versions.levels, key, s);
          r2 := r;
        }
      }
      GetIsRight(Abs(), key, s, r0, r1, r2);
      value := ValueOf(r);
    }

    method GetSnapshot() returns (s: nat)
      requires Valid()
      modifies this
      ensures Valid() && TakeSnapshot(old(Abs()), Abs()) && s == versions.lastSequence
    {
      snapshots := snapshots + [versions.lastSequence];
      s := versions.lastSequence;
      HouseStepReachable(old(Abs()), Abs());
    }

    method ReleaseSnapshot(i: nat)
      requires Valid() && i < |snapshots|
      modifies this
      ensures Valid() && Lsm.ReleaseSnapshot(old(Abs()), Abs(), i)
    {
      snapshots := snapshots[..i] + snapshots[i + 1..];
      ReleaseReachable(old(Abs()), Abs(), i);
    }

    /** Append the batch to the log. */
    method AddRecord(ops: seq<Op>)
      requires Valid() && versions.lastSequence == |progress.logged| && |progress.logged| + |ops| < MAX_SEQUENCE_NUMBER
      modifies this`disk, this`progress
      ensures Valid() && LogBatch(old(Abs()), Abs(), ops)
    {
      WriterFacts(Abs());
      var record := Lsm.Record(versions.lastSequence + 1, ops);
      disk := disk.(logs := disk.logs[logFileNumber := disk.logs[logFileNumber] + [record]]);
      progress := progress.(logged := progress.logged + ops);
      LogBatchReachable(old(Abs()), Abs(), ops);
    }

    /** MemTable::Add of the next write. */
    method Add(e: Entry)
      requires Valid() && progress.inserted < |progress.logged| && e == EntryOf(progress.logged, progress.inserted)
      modifies this`mem, this`progress
      ensures Valid() && InsertNext(old(Abs()), Abs(), mem)
    {
      WriterFacts(Abs());
      InsertEntrySorted(mem, e);
      mem := InsertEntry(mem, e);
      progress := progress.(inserted := progress.inserted + 1);
      InsertReachable(old(Abs()), Abs(), mem);
    }

    /** SetLastSequence, once every entry is in the memtable. */
    method SetLastSequence(s: nat)
      requires Valid() && progress.inserted == |progress.logged| == s
      modifies this`versions
      ensures Valid() && Publish(old(Abs()), Abs())
    {
      versions := versions.(lastSequence := s);
      PublishOrRotateReachable(old(Abs()), Abs());
    }

    /** Write: log the batch, insert its entries, then publish the new last sequence. */
    method Write(ops: seq<Op>)
      requires Valid() && versions.lastSequence == |progress.logged| && |progress.logged| + |ops| < MAX_SEQUENCE_NUMBER
      modifies this`mem, this`disk, this`progress, this`versions
      ensures Valid() && progress.logged == old(progress.logged) + ops && versions.lastSequence == |progress.logged|
    {
      WriterFacts(Abs());
      AddRecord(ops);
      for i := 0 to |ops|
        invariant Valid() && versions == old(versions)
        invariant progress.logged == old(progress.logged) + ops && progress.inserted == |old(progress.logged)| + i
      {
        Add(Entry(ops[i].key, versions.lastSequence + 1 + i, ops[i].value));
      }
      SetLastSequence(versions.lastSequence + |ops|);
    }

    /** MakeRoomForWrite: when the memtable is full and no other one waits, start a new log and memtable. */
    method MakeRoomForWrite(full: bool) returns (switched: bool)
      requires Valid() && versions.lastSequence == |progress.logged|
      modifies this
      ensures Valid() && switched == (full && old(imm).None?)
      ensures if switched then Rotate(old(Abs()), Abs()) else Abs() == old(Abs())
    {
      switched := full && imm.None?;
      if switched {
        var newLogNumber := versions.nextFileNumber;
        versions := versions.(nextFileNumber := newLogNumber + 1);
        disk := disk.(logs := disk.logs[newLogNumber := []]);
        logFileNumber, imm, mem := newLogNumber, Some(mem), [];
        progress := progress.(rotated := |progress.logged|);
        PublishOrRotateReachable(old(Abs()), Abs());
      }
    }

    /** The level that a table of the entries goes to. */
    static ghost predicate GoesTo(levels: Levels, entries: seq<Entry>, maxGrandParentBytes: nat, level: nat)
      requires |levels| == NUM_LEVELS
    {
      if entries == [] then level == 0
      else IsFlushLevel(levels, entries[0].user, entries[|entries| - 1].user, maxGrandParentBytes, level)
    }

    /** WriteLevel0Table: a table of the entries, if there are any, for the deepest level it may go to. */
    static method WriteLevel0Table(levels: Levels, entries: seq<Entry>, number: nat, size: nat, maxGrandParentBytes: nat)
        returns (level: nat, files: seq<File>)
      requires LevelsOk(levels)
      requires entries != [] ==> Table(number, size, entries).Valid()
      ensures Wrote(levels, entries, number, size, level, files) && GoesTo(levels, entries, maxGrandParentBytes, level)
    {
      level, files := 0, [];
      if entries != [] {
        var f: File := Table(number, size, entries);
        LevelsAreSorted(levels);
        level := PickLevelForMemTableOutput(levels, f.Smallest().user, f.Largest().user, maxGrandParentBytes);
        PickedLevelIsLegal(levels, f, level);
        files := [f];
      }
    }

    /** The version with the written table, and what Flush says of it. */
    static method ApplyFlush(levels: Levels, ghost entries: seq<Entry>, ghost number: nat, ghost size: nat, level: nat, files: seq<File>)
        returns (now: Levels)
      requires LevelsOk(levels) && NumbersBelow(levels, number) && Wrote(levels, entries, number, size, level, files)
      ensures AppliedFlush(levels, now, entries, number, level, files)
    {
      now := AddFiles(levels, level, files);
      if files == [] { AddedNothing(levels, now, level); }
    }

    static lemma AddedNothing(levels: Levels, now: Levels, l: nat)
      requires LevelsOk(levels) && AddedAt(levels, now, l, [])
      ensures now == levels
    {
      assert LevelOk(l, levels[l]);
      Builders.SortedUnique(now[l], levels[l]);
    }

    static lemma PickedLevelIsLegal(levels: Levels, f: File, level: nat)
      requires |levels| == NUM_LEVELS && level <= MAX_MEM_COMPACT_LEVEL
      requires level > 0 ==> ClearDown(levels, level, f.Smallest().user, f.Largest().user)
      ensures LegalFlushLevel(levels, f, level)
    {
      forall m, g | level > 0 && 0 <= m <= level && g in levels[m] ensures !Overlaps(g, Some(f.Smallest().user), Some(f.Largest().user)) {
        ClearAbove(levels, level, f.Smallest().user, f.Largest().user, m);
      }
    }

    static method FlushToLevel(ghost st: State, levels: Levels, entries: seq<Entry>, number: nat, size: nat, maxGrandParentBytes: nat)
        returns (level: nat, files: seq<File>, now: Levels)
      requires Reachable(st) && st.levels == levels && st.imm == Some(entries) && st.nextFileNumber == number
      ensures AppliedFlush(levels, now, entries, number, level, files) && GoesTo(levels, entries, maxGrandParentBytes, level)
      ensures Reachable(AfterFlush(st, now)) && Flushed(st, AfterFlush(st, now), level, size)
    {
      FlushFacts(st, size);
      level, files := WriteLevel0Table(levels, entries, number, size, maxGrandParentBytes);
      now := ApplyFlush(levels, entries, number, size, level, files);
      FlushIsStep(st, now, level, size, files);
    }

    static method RecordFlush(ghost st: State, records: seq<Manifests.Record>, ghost now: Levels, level: nat, files: seq<File>,
                              number: nat, logNumber: nat, lastSequence: nat) returns (manifest: seq<Manifests.Record>)
      requires Reachable(st) && ManifestOk(records, st) && st.imm.Some?
      requires AppliedFlush(st.levels, now, st.imm.value, st.nextFileNumber, level, files)
      requires st.nextFileNumber == number && st.logFileNumber == logNumber && st.lastSequence == lastSequence
      ensures ManifestOk(manifest, AfterFlush(st, now))
    {
      manifest := Logged(records, AddEdit(level, files), logNumber, number + 1, lastSequence);
      FlushKeepsManifest(records, st, now, level, files, logNumber, number + 1, lastSequence);
    }

    /** The version with the table, and the manifest that says so. */
    static method FlushAndRecord(ghost st: State, levels: Levels, entries: seq<Entry>, records: seq<Manifests.Record>,
                                 number: nat, logNumber: nat, lastSequence: nat, size: nat, maxGrandParentBytes: nat)
        returns (level: nat, now: Levels, manifest: seq<Manifests.Record>)
      requires Reachable(st) && ManifestOk(records, st) && st.levels == levels && st.imm == Some(entries)
      requires st.nextFileNumber == number && st.logFileNumber == logNumber && st.lastSequence == lastSequence
      ensures Reachable(AfterFlush(st, now)) && ManifestOk(manifest, AfterFlush(st, now)) && Flushed(st, AfterFlush(st, now), level, size)
      ensures |levels| == NUM_LEVELS && GoesTo(levels, entries, maxGrandParentBytes, level)
    {
      var files;
      level, files, now := FlushToLevel(st, levels, entries, number, size, maxGrandParentBytes);
      manifest := RecordFlush(st, records, now, level, files, number, logNumber, lastSequence);
    }

    /** CompactMemTable: replace the immutable memtable by its table and drop the logs before the current one. */
    method CompactMemTable(size: nat, maxGrandParentBytes: nat) returns (level: nat)
      requires Valid() && imm.Some?
      modifies this
      ensures Valid() && Flushed(old(Abs()), Abs(), level, size)
      ensures |old(versions.levels)| == NUM_LEVELS && GoesTo(old(versions.levels), old(imm).value, maxGrandParentBytes, level)
    {
      var now, manifest;
      level, now, manifest := FlushAndRecord(Abs(), versions.levels, imm.value, disk.manifest, versions.nextFileNumber, logFileNumber,
                                             versions.lastSequence, size, maxGrandParentBytes);
      AdoptFlush(now, manifest);
    }

    /** The version set after a flush; the logs before the current one are no longer needed. */
    method AdoptFlush(now: Levels, manifest: seq<Manifests.Record>)
      requires imm.Some?
      modifies this`imm, this`disk, this`versions, this`progress
      ensures Abs() == AfterFlush(old(Abs()), now) && disk.manifest == manifest
    {
      var number := versions.nextFileNumber;
      disk := disk.(tables := if imm.value == [] then disk.tables else disk.tables + {number}, manifest := manifest);
      imm := None;
      versions := versions.(levels := now, nextFileNumber := number + 1, logNumber := logFileNumber,
                            manifestNext := number + 1, manifestSequence := versions.lastSequence);
      progress := progress.(flushed := progress.rotated);
    }

    method DeleteObsoleteFiles()
      requires Valid()
      modifies this`disk
      ensures Valid() && CollectGarbage(old(Abs()), Abs())
    {
      var live := pendingOutputs + (set l, f | 0 <= l < |versions.levels| && f in versions.levels[l] :: f.number)
        + (set v: Levels, l, f | v in versions.pinned && 0 <= l < |v| && f in v[l] :: f.number);
      disk := disk.(logs := map n | n in disk.logs && n >= versions.logNumber :: disk.logs[n], tables := disk.tables * live);
      HouseStepReachable(old(Abs()), Abs());
    }
 
    // ---- Compaction ----

    method OpenCompactionOutputFile() returns (number: nat)
      requires Valid()
      modifies this`versions, this`disk, this`pendingOutputs
      ensures Valid() && OpenOutput(old(Abs()), Abs()) && number == old(versions.nextFileNumber)
    {
      number := versions.nextFileNumber;
      versions := versions.(nextFileNumber := number + 1);
      disk := disk.(tables := disk.tables + {number});
      pendingOutputs := pendingOutputs + {number};
      HouseStepReachable(old(Abs()), Abs());
      OpenKeepsManifest(disk.manifest, old(Abs()), Abs());
    }

    /** One protected number for each output. */
    method OpenOutputs(n: nat) returns (numbers: seq<nat>)
      requires Valid()
      modifies this`versions, this`disk, this`pendingOutputs
      ensures Valid() && |numbers| == n
      ensures forall i | 0 <= i < n :: numbers[i] in pendingOutputs && old(versions.nextFileNumber) <= numbers[i]
      ensures forall i, j | 0 <= i < j < n :: numbers[i] < numbers[j]
      ensures versions == old(versions).(nextFileNumber := versions.nextFileNumber)
    {
      numbers := [];
      for i := 0 to n
        invariant Valid() && |numbers| == i && versions == old(versions).(nextFileNumber := versions.nextFileNumber)
        invariant old(versions.nextFileNumber) <= versions.nextFileNumber
        invariant forall j | 0 <= j < i :: numbers[j] in pendingOutputs && old(versions.nextFileNumber) <= numbers[j] < versions.nextFileNumber
        invariant forall j, m | 0 <= j < m < i :: numbers[j] < numbers[m]
      {
        var number := OpenCompactionOutputFile();
        numbers := numbers + [number];
      }
    }

    static method MakeFiles(outs: seq<seq<Entry>>, numbers: seq<nat>) returns (files: seq<File>)
      requires |numbers| == |outs| && forall i, j | 0 <= i < j < |numbers| :: numbers[i] < numbers[j]
      requires forall o | o in outs :: o != [] && Sorted(o) && forall e | e in o :: e.sn <= MAX_SEQUENCE_NUMBER
      ensures |files| == |outs| && forall i | 0 <= i < |files| :: files[i].entries == outs[i] && files[i].number == numbers[i]
    {
      files := [];
      for i := 0 to |outs|
        invariant |files| == i && forall j | 0 <= j < i :: files[j].entries == outs[j] && files[j].number == numbers[j]
      {
        var size: nat :| true;
        assert outs[i] in outs;
        var f: File := Table(numbers[i], size, outs[i]);
        files := files + [f];
      }
    }

    /**
     InstallCompactionResults: the inputs leave, the outputs enter, their numbers need no protection
     any more. Reads keep their answers exactly when no dropped deletion marker lets a key resurface.
     */
    method Install(L: nat, in0: seq<File>, in1: seq<File>, outs: seq<File>, ghost snap: nat)
      requires Valid() && snap <= SmallestSnapshot(Abs())
      requires LegalInputs(versions.levels, L, in0, in1) && LegalOutputs(outs, versions.levels, L, in0, in1, snap)
      requires forall f | f in outs :: f.number in pendingOutputs
      modifies this`versions, this`pendingOutputs, this`progress, this`disk
      ensures Installed(old(versions.levels), versions.levels, L, in0, in1, outs) && ManifestOk(disk.manifest, Abs())
      ensures SameReads(old(All(Abs())), All(Abs()), snap) <==> old(NoResurrection(All(Abs()), versions.levels, L, in0, in1, snap))
      ensures old(NoResurrection(All(Abs()), versions.levels, L, in0, in1, snap)) ==>
        Valid() && Compacted(old(Abs()), Abs(), L, in0, in1, outs, snap)
      ensures progress.logged == old(progress.logged)
    {
      var now, manifest := InstallAndRecord(Abs(), disk.manifest, versions, L, in0, in1, outs, snap);
      Adopt(now, outs, manifest, snap);
    }

    static method InstallAndRecord(ghost st: State, records: seq<Manifests.Record>, versions: VersionSet,
                                   L: nat, in0: seq<File>, in1: seq<File>, outs: seq<File>, ghost snap: nat)
        returns (now: Levels, manifest: seq<Manifests.Record>)
      requires Reachable(st) && ManifestOk(records, st) && snap <= SmallestSnapshot(st)
      requires st.levels == versions.levels && st.logNumber == versions.logNumber
      requires st.nextFileNumber == versions.nextFileNumber && st.lastSequence == versions.lastSequence
      requires LegalInputs(st.levels, L, in0, in1) && LegalOutputs(outs, st.levels, L, in0, in1, snap)
      requires forall f | f in outs :: f.number in st.pendingOutputs
      ensures Installed(st.levels, now, L, in0, in1, outs) && ManifestOk(manifest, AfterCompaction(st, now, outs, snap))
      ensures SameReads(All(st), All(AfterCompaction(st, now, outs, snap)), snap) <==> NoResurrection(All(st), st.levels, L, in0, in1, snap)
      ensures NoResurrection(All(st), st.levels, L, in0, in1, snap) ==>
        Reachable(AfterCompaction(st, now, outs, snap)) && Compacted(st, AfterCompaction(st, now, outs, snap), L, in0, in1, outs, snap)
    {
      now := InstallCompactionResults(versions.levels, L, in0, in1, outs);
      manifest := Logged(records, CompactionEdit(L, in0, in1, outs), versions.logNumber, versions.nextFileNumber, versions.lastSequence);
      CompactionDone(st, now, L, in0, in1, outs, snap);
      CompactionRecorded(records, st, now, L, in0, in1, outs, snap, versions.logNumber, versions.nextFileNumber, versions.lastSequence);
    }

    /** The version set and the pending outputs after a compaction. */
    method Adopt(now: Levels, outs: seq<File>, manifest: seq<Manifests.Record>, ghost snap: nat)
      modifies this`versions, this`pendingOutputs, this`progress, this`disk
      ensures Abs() == AfterCompaction(old(Abs()), now, outs, snap) && disk.manifest == manifest
    {
      pendingOutputs := pendingOutputs - FileNumbers(outs);
      disk := disk.(manifest := manifest);
      versions := versions.(levels := now, manifestNext := versions.nextFileNumber, manifestSequence := versions.lastSequence);
      progress := progress.(floor := if progress.floor < snap then snap else progress.floor);
    }

    /** A move of one file to the next level, where nothing overlaps it. */
    method MoveFile(L: nat, f: File)
      requires Valid() && LegalInputs(versions.levels, L, [f], [])
      modifies this`versions, this`disk
      ensures Valid() && TrivialMove(old(Abs()), Abs(), L, f, versions.levels)
      ensures Installed(old(versions.levels), versions.levels, L, [f], [], [f]) && All(Abs()) == old(All(Abs()))
    {
      ghost var st := Abs();
      MoveFacts(st, L, f);
      var now := InstallCompactionResults(versions.levels, L, [f], [], [f]);
      disk := disk.(manifest := Logged(disk.manifest, CompactionEdit(L, [f], [], [f]),
                                       versions.logNumber, versions.nextFileNumber, versions.lastSequence));
      versions := versions.(levels := now, manifestNext := versions.nextFileNumber, manifestSequence := versions.lastSequence);
      MoveReachable(st, Abs(), L, f, now);
      MovedKeepsNumber(st, L, f);
      CompactionKeepsManifest(old(disk.manifest), st, Abs(), L, [f], [], [f]);
      MoveKeepsAll(st, Abs(), L, f, now);
    }

    /** One output file for each piece, under a protected number. */
    method WriteOutputs(L: nat, pieces: seq<seq<Entry>>) returns (outs: seq<File>)
      requires Valid() && L + 1 < |versions.levels|
      requires forall o | o in pieces :: o != [] && Sorted(o) && forall e | e in o :: e.sn <= MAX_SEQUENCE_NUMBER
      modifies this`versions, this`disk, this`pendingOutputs
      ensures Valid() && versions == old(versions).(nextFileNumber := versions.nextFileNumber)
      ensures |outs| == |pieces| && forall i | 0 <= i < |outs| :: outs[i].entries == pieces[i]
      ensures DistinctNumbers(outs) && forall f | f in outs :: f.number in pendingOutputs
      ensures forall f, g | f in outs && g in versions.levels[L + 1] :: f.number != g.number
    {
      var numbers := OpenOutputs(|pieces|);
      PendingFacts(Abs());
      outs := MakeFiles(pieces, numbers);
      OutputNumbers(outs, numbers, pendingOutputs, versions.levels, L);
    }

    /**
     DoCompactionWork: merge the inputs, drop what no reader needs, install the outputs. All reads
     at or above the oldest snapshot keep their answers exactly when the inputs are safe.
     */
    method DoCompaction(L: nat, in0: seq<File>, in1: seq<File>) returns (outs: seq<File>)
      requires Valid() && LegalInputs(versions.levels, L, in0, in1)
      modifies this`versions, this`disk, this`pendingOutputs, this`progress
      ensures progress.logged == old(progress.logged)
      ensures LegalOutputs(outs, old(versions.levels), L, in0, in1, old(SmallestSnapshot(Abs())))
      ensures Installed(old(versions.levels), versions.levels, L, in0, in1, outs) && ManifestOk(disk.manifest, Abs())
      ensures SameReads(old(All(Abs())), All(Abs()), old(SmallestSnapshot(Abs()))) <==> SafeInputs(old(Abs()), L, in0, in1)
      ensures SafeInputs(old(Abs()), L, in0, in1) ==> Valid()
    {
      outs := WriteSurvivors(L, in0, in1);
      Install(L, in0, in1, outs, SmallestSnapshot(Abs()));
    }

    /** The drop loop's outputs, on disk but not yet in the version. */
    method WriteSurvivors(L: nat, in0: seq<File>, in1: seq<File>) returns (outs: seq<File>)
      requires Valid() && LegalInputs(versions.levels, L, in0, in1)
      modifies this`versions, this`disk, this`pendingOutputs
      ensures Valid() && versions == old(versions).(nextFileNumber := versions.nextFileNumber)
      ensures LegalOutputs(outs, versions.levels, L, in0, in1, SmallestSnapshot(Abs()))
      ensures forall f | f in outs :: f.number in pendingOutputs
    {
      var snap := if snapshots == [] then versions.lastSequence else snapshots[0];
      var levels := versions.levels;
      var pieces, es := CompactionPieces(Abs(), levels, L, in0, in1, snap);
      outs := WriteOutputs(L, pieces);
      OutputsAreLegal(outs, pieces, es, levels, L, in0, in1, snap);
    }

    /**
     BackgroundCompaction, from the file due next: one file that nothing in the next level overlaps
     only moves there, unless it would lie over too much of the level below.
     */
    method BackgroundCompaction(L: nat, due: nat, expandedLimit: nat, maxGrandParentBytes: nat)
        returns (in0: seq<File>, in1: seq<File>, outs: seq<File>, moved: bool)
      requires Valid() && IsDue(versions.levels, L, due)
      modifies this`versions, this`disk, this`pendingOutputs, this`progress
      ensures progress.logged == old(progress.logged)
      ensures LegalInputs(old(versions.levels), L, in0, in1) && old(versions.levels)[L][due] in in0
      ensures InputsForDue(old(versions.levels), L, due, expandedLimit, in0, in1)
      ensures moved <==> IsMove(old(versions.levels), L, in0, in1, maxGrandParentBytes)
      ensures moved ==> outs == in0
      ensures !moved ==> LegalOutputs(outs, old(versions.levels), L, in0, in1, old(SmallestSnapshot(Abs())))
      ensures Installed(old(versions.levels), versions.levels, L, in0, in1, outs)
      ensures SameReads(old(All(Abs())), All(Abs()), old(SmallestSnapshot(Abs()))) <==> moved || SafeInputs(old(Abs()), L, in0, in1)
      ensures moved || SafeInputs(old(Abs()), L, in0, in1) ==> Valid()
    {
      CompactionFacts(Abs());
      in0, in1, moved := Pick(versions.levels, L, due, expandedLimit, maxGrandParentBytes);
      if moved {
        outs := in0;
        MoveFile(L, in0[0]);
        SameReadsOfItself(old(Abs()));
      } else {
        outs := DoCompaction(L, in0, in1);
      }
    }

    // ---- Recovery ----

    /**
     Open the database that a crash left behind. Only the files are read, the manifest first: the
     memtables, the version set, snapshots, iterators and pending outputs of the crashed process are gone.
     */
    method Recover() returns (files: seq<File>, next: nat)
      requires Valid()
      modifies this
      ensures Valid() && Reopened(old(Abs()), Abs(), files, next)
      ensures progress.logged == old(progress.logged) && versions.lastSequence == |progress.logged|
    {
      var s, now, manifest;
      files, next, s, now, manifest := RecoverAndRecord(Abs(), disk.logs, disk.manifest);
      Restart(files, now, next, s, manifest);
    }

    /** A new process: empty memtables, a new log, and the version set that recovery read. */
    method Restart(files: seq<File>, now: Levels, next: nat, s: nat, manifest: seq<Manifests.Record>)
      modifies this
      ensures Abs() == AfterRecovery(old(Abs()), files, now, next, s) && disk.manifest == manifest
    {
      mem, imm, snapshots, pendingOutputs, logFileNumber := [], None, [], {}, next;
      disk := Disk(disk.logs[next := []], disk.tables + FileNumbers(files), manifest);
      versions := VersionSet(now, s, next + 1, [], next, next + 1, s);
      progress := progress.(inserted := |progress.logged|, rotated := |progress.logged|, flushed := |progress.logged|);
    }
  }

  /** The recovered version and the manifest that says so, from the logs and the old manifest alone. */
  method RecoverAndRecord(ghost st: State, logs: map<nat, seq<Lsm.Record>>, records: seq<Manifests.Record>)
      returns (files: seq<File>, next: nat, s: nat, now: Levels, manifest: seq<Manifests.Record>)
    requires Reachable(st) && ManifestOk(records, st) && st.logs == logs
    ensures Reopened(st, AfterRecovery(st, files, now, next, s), files, next) && s == |st.logged|
    ensures Reachable(AfterRecovery(st, files, now, next, s)) && ManifestOk(manifest, AfterRecovery(st, files, now, next, s))
  {
    var r := RecoverManifest(st, records);
    files, next, s, now := RecoverVersion(st, logs, r.levels, r.logNumber, r.manifestFileNumber, r.lastSequence);
    manifest := NewManifest(r.levels, files, next, s);
    RecoveryIsStep(st, files, now, next, s);
    RecoveryKeepsManifest(st, r.levels, files, now, next, s);
    RecoveredAll(st, s);
  }

  lemma NewDbRecovered(r: Manifests.Recovered)
    requires Manifests.RecoveredFrom([NEW_DB], r)
    ensures r.Recovered? && r.levels == seq(NUM_LEVELS, _ => []) && r.nextFileNumber == 3 && r.lastSequence == 0
  {
    NewDbSays(seq(NUM_LEVELS, _ => []));
    Descriptors.SaysReplays([NEW_DB], seq(NUM_LEVELS, _ => []), 0, 2, 0, {}, r.levels);
  }

  /** VersionSet::Recover on a manifest that describes the state gives back what it describes. */
  method RecoverManifest(ghost st: State, records: seq<Manifests.Record>) returns (r: Manifests.Recovered)
    requires ManifestOk(records, st)
    ensures r.Recovered? && r.levels == st.levels && r.logNumber == st.logNumber
    ensures r.manifestFileNumber == st.manifestNext && r.lastSequence == st.manifestSequence
  {
    r := Manifests.Recover(records);
    Descriptors.SaysReplays(records, st.levels, st.logNumber, st.manifestNext, st.manifestSequence, st.pendingOutputs, r.levels);
  }

  lemma RecoveredAll(st: State, s: nat)
    requires Reachable(st) && RecoveredSequence(st, s)
    ensures s == |st.logged|
  {
    ReachableHasInv(st);
    RecoveredSequenceIsLast(st, s);
  }

  lemma SameReadsOfItself(st: State)
    requires Reachable(st)
    ensures SameReads(All(st), All(st), SmallestSnapshot(st))
  {
    ReachableHasInv(st);
    AllUnique(st);
    forall k, s, r, r' | SmallestSnapshot(st) <= s && Answers(r, All(st), k, s) && Answers(r', All(st), k, s) ensures ValueOf(r) == ValueOf(r') {
      SameAnswer(All(st), r, r', k, s);
    }
  }

  /** The read theorem for the state of a run. */
  lemma CompactionReadsIff(st: State, st': State, L: nat, in0: seq<File>, in1: seq<File>, outs: seq<File>, snap: nat)
    requires Reachable(st) && st'.mem == st.mem && st'.imm == st.imm
    requires LegalInputs(st.levels, L, in0, in1) && LegalOutputs(outs, st.levels, L, in0, in1, snap)
    requires Installed(st.levels, st'.levels, L, in0, in1, outs)
    ensures SameReads(All(st), All(st'), snap) <==> NoResurrection(All(st), st.levels, L, in0, in1, snap)
  {
    ReachableHasInv(st);
    UpperIsNewer(st);
    AllUnique(st);
    assert Upper(st') == Upper(st);
    CompactionPreservesReads(Upper(st), st.levels, st'.levels, L, in0, in1, outs, snap);
  }

  lemma MoveKeepsAll(st: State, st': State, L: nat, f: File, now: Levels)
    requires Reachable(st) && TrivialMove(st, st', L, f, now)
    ensures All(st') == All(st)
  {
    ReachableHasInv(st);
    MoveKeepsEntries(st, st', L, f, now);
    assert ImmSet(st') == ImmSet(st);
  }

  lemma RecoveryFacts(st: State)
    requires Reachable(st)
    ensures SequencesOk(st) && LogsOk(st)
  {
    ReachableHasInv(st);
  }

  lemma ManifestFacts(st: State)
    requires Reachable(st)
    ensures LevelsOk(st.levels) && NumbersBelow(st.levels, st.manifestNext)
  {
    ReachableHasInv(st);
  }

  /** Replay the live logs into level-0 tables. */
  method ReplayLogs(ghost st: State, logs: map<nat, seq<Lsm.Record>>, logNumber: nat, manifestNext: nat, manifestSequence: nat)
      returns (files: seq<File>, next: nat, lastSequence: nat)
    requires SequencesOk(st) && LogsOk(st) && st.logs == logs && st.logNumber == logNumber
    requires st.manifestNext == manifestNext && st.manifestSequence == manifestSequence
    ensures RecoveredFiles(st, files, next) && manifestNext < next && forall n | n in logs :: n < next
    ensures RecoveredSequence(st, lastSequence)
  {
    var ns := SortedNumbers(LiveLogs(logs, logNumber));
    ghost var cuts := RecoveryOrder(st, ns);
    files, next, lastSequence := RecoverLogs(logs, ns, manifestNext, st.logged, cuts);
    ReplayIsRecovery(st, files, next);
    OldLogsBelow(st, ns, next);
    SequenceIsRecovered(st, lastSequence);
    if lastSequence < manifestSequence { lastSequence := manifestSequence; }
  }

  /** Add the replayed tables to the version the manifest gives. */
  method RecoverVersion(ghost st: State, logs: map<nat, seq<Lsm.Record>>, levels: Levels, logNumber: nat, manifestNext: nat, manifestSequence: nat)
      returns (files: seq<File>, next: nat, lastSequence: nat, now: Levels)
    requires Reachable(st) && st.logs == logs && st.levels == levels && st.logNumber == logNumber
    requires st.manifestNext == manifestNext && st.manifestSequence == manifestSequence
    ensures RecoveredSequence(st, lastSequence) && AppliedRecovery(st, now, files, next)
  {
    RecoveryFacts(st);
    files, next, lastSequence := ReplayLogs(st, logs, logNumber, manifestNext, manifestSequence);
    ManifestFacts(st);
    RecoveredNumbers(st, files, next);
    now := AddFiles(levels, 0, files);
  }

  lemma RecoveredNumbers(st: State, files: seq<File>, next: nat)
    requires RecoveredFiles(st, files, next) && NumbersBelow(st.levels, st.manifestNext) && |st.levels| > 0
    ensures DistinctNumbers(files) && forall f, g | f in files && g in st.levels[0] :: f.number != g.number
  {
  }

  lemma ReplayIsRecovery(st: State, files: seq<File>, next: nat)
    requires SequencesOk(st) && LogsOk(st)
    requires ReplayedTo(files, [], st.logged, st.flushed, |st.logged|, st.manifestNext, next)
    ensures RecoveredFiles(st, files, next)
  {
    ReplayIsExact(st);
    assert FilesEntries(files) + SetOf([]) == FilesEntries(files);
    forall e ensures e in FilesEntries(files) <==> e in Replayed(st) {
    }
  }

  /** Logs too old to be replayed have smaller numbers than those that were. */
  lemma OldLogsBelow(st: State, ns: seq<nat>, next: nat)
    requires LogsOk(st) && (forall n :: n in ns <==> n in LiveLogs(st.logs, st.logNumber)) && forall n | n in ns :: n < next
    ensures forall n | n in st.logs :: n < next
  {
    assert st.logNumber in ns;
    forall n | n in st.logs ensures n < next {
      assert n >= st.logNumber ==> n in ns;
    }
  }

  lemma SequenceIsRecovered(st: State, maxSequence: nat)
    requires SequencesOk(st) && LogsOk(st)
    requires maxSequence <= |st.logged| && (st.flushed < |st.logged| ==> maxSequence == |st.logged|)
    ensures RecoveredSequence(st, if maxSequence < st.manifestSequence then st.manifestSequence else maxSequence)
  {
    ReplayIsExact(st);
    if st.flushed < |st.logged| {
      assert EntryOf(st.logged, |st.logged| - 1) in Replayed(st);
    }
  }

  /** The compaction of these inputs, at the oldest snapshot, lets no dropped key resurface. */
  ghost predicate SafeInputs(st: State, L: nat, in0: seq<File>, in1: seq<File>)
    requires L + 1 < |st.levels|
  {
    NoResurrection(All(st), st.levels, L, in0, in1, SmallestSnapshot(st))
  }

  ghost predicate SafePicks(st: State, L: nat)
    requires L + 1 < |st.levels|
  {
    forall in0, in1 | LegalInputs(st.levels, L, in0, in1) :: SafeInputs(st, L, in0, in1)
  }

  predicate IsDue(levels: Levels, L: nat, due: nat) {
    L + 1 < NUM_LEVELS == |levels| && due < |levels[L]|
  }

  /** If no user key is shared by two files of the next level, every pick is safe. */
  lemma ApartKeysMakeSafePicks(st: State, L: nat)
    requires L + 1 < |st.levels|
    requires forall f, g | f in st.levels[L + 1] && g in st.levels[L + 1] && f != g :: f.Largest().user != g.Smallest().user
    ensures SafePicks(st, L)
  {
    forall in0, in1 | LegalInputs(st.levels, L, in0, in1) ensures SafeInputs(st, L, in0, in1) {
      ClosedEdgesPreventResurrection(All(st), st.levels, L, in0, in1, SmallestSnapshot(st));
    }
  }

  lemma PendingFacts(st: State)
    requires Reachable(st)
    ensures NonePending(st.levels, st.pendingOutputs)
  {
    ReachableHasInv(st);
  }

  /** The merged inputs, and the pieces the drop loop makes of them. */
  method CompactionPieces(ghost st: State, levels: Levels, L: nat, in0: seq<File>, in1: seq<File>, snap: nat)
      returns (pieces: seq<seq<Entry>>, es: seq<Entry>)
    requires Reachable(st) && levels == st.levels && LegalInputs(levels, L, in0, in1) && snap == SmallestSnapshot(st)
    ensures Sorted(es) && SetOf(es) == Inputs(in0, in1) && Flatten(pieces) == Survivors(es, SetOf(es), snap, levels, L)
    ensures forall o | o in pieces :: o != [] && Sorted(o) && forall e | e in o :: e.sn <= MAX_SEQUENCE_NUMBER
  {
    CompactionFacts(st);
    es := MergedInputs(st, levels, L, in0, in1);
    var c := new CompactionWork.Compaction(levels, L);
    pieces := DoCompactionWork(c, es, snap);
    PiecesAreTables(pieces, es, snap, levels, L);
  }

  /**
   A compaction is a move exactly if it has one file above and none below, and the files two levels
   down that meet this file are no larger together than the limit.
   */
  predicate IsMove(levels: Levels, L: nat, in0: seq<File>, in1: seq<File>, maxGrandParentBytes: nat) {
    && |in0| == 1 && |in1| == 0
    && (L + 2 < |levels| ==>
        TotalFileSize(Overlapping(levels[L + 2], Some(in0[0].Smallest().user), Some(in0[0].Largest().user))) <= maxGrandParentBytes)
  }

  /** The inputs, and whether they amount to a trivial move. */
  method Pick(levels: Levels, L: nat, due: nat, expandedLimit: nat, maxGrandParentBytes: nat)
      returns (in0: seq<File>, in1: seq<File>, trivial: bool)
    requires LevelsOk(levels) && IsDue(levels, L, due)
    ensures LegalInputs(levels, L, in0, in1) && levels[L][due] in in0
    ensures ClosedPick(L, levels[L], in0) && in1 == Below(levels, L, in0)
    ensures InputsForDue(levels, L, due, expandedLimit, in0, in1)
    ensures trivial <==> IsMove(levels, L, in0, in1, maxGrandParentBytes)
    ensures trivial ==> in0 == [in0[0]] && in1 == []
  {
    in0, in1 := PickCompaction(levels, L, due, expandedLimit);
    var grandparents := Grandparents(levels, L, in0, in1);
    trivial := |in0| == 1 && |in1| == 0 && TotalFileSize(grandparents) <= maxGrandParentBytes;
    if |in0| == 1 && |in1| == 0 { RangeOfOne(in0, in1); }
  }

  lemma RangeOfOne(in0: seq<File>, in1: seq<File>)
    requires |in0| == 1 && |in1| == 0
    ensures in0 == [in0[0]] && in1 == []
    ensures UserLo(in0 + in1) == in0[0].Smallest().user && UserHi(in0 + in1) == in0[0].Largest().user
  {
    assert in0 + in1 == in0 && in0[0] in in0;
  }

  /** The files two levels down that the inputs' range overlaps. */
  method Grandparents(levels: Levels, L: nat, in0: seq<File>, in1: seq<File>) returns (files: seq<File>)
    requires in0 != []
    ensures L + 2 < |levels| ==> files == Overlapping(levels[L + 2], Some(UserLo(in0 + in1)), Some(UserHi(in0 + in1)))
    ensures L + 2 >= |levels| ==> files == []
  {
    files := [];
    if L + 2 < |levels| {
      var smallest, largest := GetRange(in0 + in1);
      KeyRangeUsers(in0 + in1, smallest, largest);
      ghost var lo, hi;
      files, lo, hi := GetOverlappingInputs(L + 2, levels[L + 2], Some(smallest.user), Some(largest.user));
    }
  }

  method MergedInputs(ghost st: State, levels: Levels, L: nat, in0: seq<File>, in1: seq<File>) returns (es: seq<Entry>)
    requires Reachable(st) && levels == st.levels && LegalInputs(levels, L, in0, in1)
    ensures Sorted(es) && SetOf(es) == Inputs(in0, in1)
    ensures forall e | e in es :: e.sn <= MAX_SEQUENCE_NUMBER
  {
    CompactionEntries(st);
    InputsAreEntries(levels, L, in0, in1);
    es := MakeInputIterator(in0 + in1);
    forall e | e in es ensures e.sn <= MAX_SEQUENCE_NUMBER {
      assert e in SetOf(es);
    }
  }

  lemma InputsAreEntries(levels: Levels, L: nat, in0: seq<File>, in1: seq<File>)
    requires LegalInputs(levels, L, in0, in1)
    ensures FilesEntries(in0 + in1) == Inputs(in0, in1) <= LevelsEntries(levels)
  {
    LegalInputsInPlace(levels, L, in0, in1);
    forall e | e in FilesEntries(in0 + in1) ensures e in Inputs(in0, in1) && e in LevelsEntries(levels) {
      var f :| f in in0 + in1 && e in f.entries;
      assert f in in0 || f in in1;
    }
  }

  /** Every piece the drop loop cut off can be a table. */
  lemma PiecesAreTables(pieces: seq<seq<Entry>>, es: seq<Entry>, snap: nat, levels: Levels, L: nat)
    requires Sorted(es) && forall e | e in es :: e.sn <= MAX_SEQUENCE_NUMBER
    requires Flatten(pieces) == Survivors(es, SetOf(es), snap, levels, L)
    ensures forall o | o in pieces :: Sorted(o) && forall e | e in o :: e.sn <= MAX_SEQUENCE_NUMBER
  {
    SurvivorsSorted(es, SetOf(es), snap, levels, L);
    PiecesInOrder(pieces);
    forall o, e | o in pieces && e in o ensures e.sn <= MAX_SEQUENCE_NUMBER {
      var i :| 0 <= i < |pieces| && pieces[i] == o;
      assert e in Flatten(pieces);
    }
  }

  lemma OutputNumbers(outs: seq<File>, numbers: seq<nat>, pending: set<nat>, levels: Levels, L: nat)
    requires |outs| == |numbers| && forall i | 0 <= i < |outs| :: outs[i].number == numbers[i]
    requires (forall i | 0 <= i < |numbers| :: numbers[i] in pending) && forall i, j | 0 <= i < j < |numbers| :: numbers[i] < numbers[j]
    requires NonePending(levels, pending) && L + 1 < |levels|
    ensures DistinctNumbers(outs) && forall f | f in outs :: f.number in pending
    ensures forall f, g | f in outs && g in levels[L + 1] :: f.number != g.number
  {
  }

  lemma MoveFacts(st: State, L: nat, f: File)
    requires Reachable(st) && LegalInputs(st.levels, L, [f], [])
    ensures f in st.levels[L] && forall g | g in st.levels[L + 1] :: g.number != f.number
  {
    ReachableHasInv(st);
    assert f in [f];
  }
}
