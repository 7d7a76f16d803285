/**
 The engine as a state machine over its atomic steps (db/db_impl.cc, db/version_set.cc): log a
 batch, insert its entries, publish the sequence, rotate the memtable, flush, move, compact,
 take and release snapshots and iterators, collect garbage, crash and recover.
 */
module Lsm {
  import opened Options
  import opened Entries
  import opened Versions
  import opened Compactions
  import opened CompactionReads
  import opened Histories

  /** One log record: a write batch and the sequence number of its first write. */
  datatype Record = Record(sequence: nat, ops: seq<Op>)

  datatype State = State(
    mem: seq<Entry>,
    imm: Option<seq<Entry>>,
    levels: Levels,
    lastSequence: nat,
    snapshots: seq<nat>,
    nextFileNumber: nat,
    pendingOutputs: set<nat>,
    pinned: seq<Levels>,        // versions held by live iterators
    logFileNumber: nat,
    // on disk
    logs: map<nat, seq<Record>>,
    tables: set<nat>,
    logNumber: nat,             // the three fields of the last manifest record
    manifestNext: nat,
    manifestSequence: nat,
    // bookkeeping: no step's choice depends on these
    logged: seq<Op>,            // every write in the logs, in order
    inserted: nat,              // how many of them are in memtables or tables
    rotated: nat,               // ... and in imm or tables
    flushed: nat,               // ... and in tables
    floor: nat)                 // no live read is below this sequence

  ghost function ImmSet(st: State): set<Entry> {
    match st.imm
    case Some(es) => SetOf(es)
    case None => {}
  }

  ghost function Upper(st: State): set<Entry> {
    SetOf(st.mem) + ImmSet(st)
  }

  /** Every entry a read may meet. */
  ghost function All(st: State): set<Entry> {
    Upper(st) + LevelsEntries(st.levels)
  }

  function SmallestSnapshot(st: State): nat {
    if st.snapshots == [] then st.lastSequence else st.snapshots[0]
  }

  // ---- Invariant ----

  ghost predicate SequencesOk(st: State) {
    && st.flushed <= st.rotated <= st.lastSequence <= st.inserted <= |st.logged| < MAX_SEQUENCE_NUMBER
    && (st.imm.None? ==> st.flushed == st.rotated) && st.floor <= st.lastSequence
    && (forall i | 0 <= i < |st.snapshots| :: st.floor <= st.snapshots[i] <= st.lastSequence)
    && (forall i, j | 0 <= i < j < |st.snapshots| :: st.snapshots[i] <= st.snapshots[j])
    && st.flushed <= st.manifestSequence <= st.lastSequence
  }

  /** Each memtable holds one interval of the history; tables hold older entries. */
  ghost predicate EntriesOk(st: State) {
    && Sorted(st.mem) && Holds(SetOf(st.mem), st.logged, st.rotated, st.inserted)
    && (st.imm.Some? ==> Sorted(st.imm.value))
    && Holds(ImmSet(st), st.logged, st.flushed, st.rotated)
    && LevelsOk(st.levels) && FromHistory(LevelsEntries(st.levels), st.logged, st.flushed)
  }

  /** The records' batches, numbered on from a, are the writes a up to b. */
  ghost predicate LogHolds(log: seq<Record>, h: seq<Op>, a: nat, b: nat)
    decreases |log|
  {
    && a <= b <= |h|
    && if log == [] then a == b else
        var r := log[|log| - 1];
        |r.ops| <= b - a && r.ops == h[b - |r.ops|..b] && r.sequence == b - |r.ops| + 1 && LogHolds(log[..|log| - 1], h, a, b - |r.ops|)
  }

  /** The logs recovery would read: the memtable's, and before it the immutable memtable's. */
  ghost predicate LogsOk(st: State) {
    && st.logFileNumber in st.logs && LogHolds(st.logs[st.logFileNumber], st.logged, st.rotated, |st.logged|)
    && (forall n | n in st.logs && n >= st.logNumber :: n == st.logNumber || n == st.logFileNumber)
    && if st.imm.None? then st.logNumber == st.logFileNumber else
        && st.logNumber < st.logFileNumber && st.logNumber in st.logs
        && LogHolds(st.logs[st.logNumber], st.logged, st.flushed, st.rotated)
  }

  ghost predicate NumbersBelow(levels: Levels, n: nat) {
    forall l, f | 0 <= l < |levels| && f in levels[l] :: f.number < n
  }

  ghost predicate OnDisk(levels: Levels, tables: set<nat>) {
    forall l, f | 0 <= l < |levels| && f in levels[l] :: f.number in tables
  }

  ghost predicate NonePending(levels: Levels, pending: set<nat>) {
    forall l, f | 0 <= l < |levels| && f in levels[l] :: f.number !in pending
  }

  /** No number is used in two levels (LevelOk sees to each level). */
  ghost predicate NumbersUnique(levels: Levels) {
    forall l, m, f, g | 0 <= l < m < |levels| && f in levels[l] && g in levels[m] :: f.number != g.number
  }

  /** Files are named by number: within a version, allocated before, present on disk. */
  ghost predicate FilesOk(st: State) {
    && NumbersUnique(st.levels)
    && NumbersBelow(st.levels, st.manifestNext) && st.manifestNext <= st.nextFileNumber
    && OnDisk(st.levels, st.tables) && (forall v | v in st.pinned :: OnDisk(v, st.tables))
    && st.pendingOutputs <= st.tables
    && NonePending(st.levels, st.pendingOutputs)
    && (forall n | n in st.pendingOutputs :: n < st.nextFileNumber)
    && (forall n | n in st.logs :: n < st.nextFileNumber)
  }

  ghost predicate Inv(st: State) {
    && SequencesOk(st) && EntriesOk(st) && LogsOk(st) && FilesOk(st)
    && Faithful(All(st), st.logged, st.inserted, st.floor)
  }

  // ---- Steps ----

  ghost predicate Init(st: State) {
    && st.mem == [] && st.imm.None? && st.levels == seq(NUM_LEVELS, _ => []) && st.snapshots == [] && st.pinned == []
    && st.lastSequence == st.manifestSequence == st.inserted == st.rotated == st.flushed == st.floor == 0 && st.logged == []
    && st.pendingOutputs == {} && st.tables == {}
    && st.logNumber == st.logFileNumber < st.nextFileNumber && st.manifestNext <= st.nextFileNumber
    && st.logs == map[st.logFileNumber := []]
  }

  /** Write: the batch goes to the log first. One write is in progress at a time. */
  ghost predicate LogBatch(st: State, st': State, ops: seq<Op>) {
    && st.lastSequence == |st.logged| && |st.logged| + |ops| < MAX_SEQUENCE_NUMBER && st.logFileNumber in st.logs
    && st' == st.(logs := st.logs[st.logFileNumber := st.logs[st.logFileNumber] + [Record(st.lastSequence + 1, ops)]],
                  logged := st.logged + ops)
  }

  /** Then its entries are inserted one by one, not yet visible to new readers. */
  ghost predicate InsertNext(st: State, st': State, mem: seq<Entry>) {
    && st.inserted < |st.logged|
    && Sorted(mem) && SetOf(mem) == SetOf(st.mem) + {EntryOf(st.logged, st.inserted)}
    && st' == st.(mem := mem, inserted := st.inserted + 1)
  }

  ghost predicate Publish(st: State, st': State) {
    && st.inserted == |st.logged|
    && st' == st.(lastSequence := |st.logged|)
  }

  /** MakeRoomForWrite: a new log and memtable, between two writes. */
  ghost predicate Rotate(st: State, st': State) {
    && st.lastSequence == |st.logged| && st.imm.None?
    && st' == st.(imm := Some(st.mem), mem := [], logFileNumber := st.nextFileNumber, nextFileNumber := st.nextFileNumber + 1,
                  logs := st.logs[st.nextFileNumber := []], rotated := |st.logged|)
  }

  /** A new file may skip to level l when nothing in the levels up to l overlaps it. */
  ghost predicate LegalFlushLevel(levels: Levels, f: File, l: nat) {
    && l <= MAX_MEM_COMPACT_LEVEL
    && (l > 0 ==> forall m, g | 0 <= m <= l < |levels| && g in levels[m] :: !Overlaps(g, Some(f.Smallest().user), Some(f.Largest().user)))
  }

  ghost predicate AddedAt(levels: Levels, now: Levels, l: nat, added: seq<File>) {
    && |levels| == |now| == NUM_LEVELS && l < NUM_LEVELS
    && Edited(levels[l], now[l], [], added)
    && forall m | 0 <= m < NUM_LEVELS && m != l :: now[m] == levels[m]
  }

  /** CompactMemTable: an empty memtable makes no file. */
  ghost predicate Flush(st: State, st': State, l: nat, size: nat, now: Levels) {
    && st.imm.Some?
    && (if st.imm.value == [] then now == st.levels else
         var f := Table(st.nextFileNumber, size, st.imm.value);
         f.Valid() && LegalFlushLevel(st.levels, f, l) && AddedAt(st.levels, now, l, [f]))
    && st' == st.(imm := None, levels := now, nextFileNumber := st.nextFileNumber + 1,
                  tables := if st.imm.value == [] then st.tables else st.tables + {st.nextFileNumber},
                  logNumber := st.logFileNumber, manifestNext := st.nextFileNumber + 1, manifestSequence := st.lastSequence,
                  flushed := st.rotated)
  }

  ghost predicate TrivialMove(st: State, st': State, L: nat, f: File, now: Levels) {
    && LegalInputs(st.levels, L, [f], []) && Installed(st.levels, now, L, [f], [], [f])
    && st' == st.(levels := now, manifestNext := st.nextFileNumber, manifestSequence := st.lastSequence)
  }

  /** OpenCompactionOutputFile: the number is protected until the outputs are installed. */
  ghost predicate OpenOutput(st: State, st': State) {
    st' == st.(nextFileNumber := st.nextFileNumber + 1, tables := st.tables + {st.nextFileNumber},
               pendingOutputs := st.pendingOutputs + {st.nextFileNumber})
  }

  function FileNumbers(files: seq<File>): set<nat> {
    set f | f in files :: f.number
  }

  /** snap was read when the compaction started; snapshots and the sequence only grew since. */
  ghost predicate Compact(st: State, st': State, L: nat, in0: seq<File>, in1: seq<File>, outs: seq<File>, snap: nat, now: Levels) {
    && snap <= SmallestSnapshot(st)
    && LegalInputs(st.levels, L, in0, in1) && LegalOutputs(outs, st.levels, L, in0, in1, snap)
    && NoResurrection(All(st), st.levels, L, in0, in1, snap)
    && (forall f | f in outs :: f.number in st.pendingOutputs)
    && Installed(st.levels, now, L, in0, in1, outs)
    && st' == st.(levels := now, pendingOutputs := st.pendingOutputs - FileNumbers(outs),
                  manifestNext := st.nextFileNumber, manifestSequence := st.lastSequence,
                  floor := if st.floor < snap then snap else st.floor)
  }

  ghost predicate TakeSnapshot(st: State, st': State) {
    st' == st.(snapshots := st.snapshots + [st.lastSequence])
  }

  ghost predicate ReleaseSnapshot(st: State, st': State, i: nat) {
    && i < |st.snapshots|
    && st' == st.(snapshots := st.snapshots[..i] + st.snapshots[i + 1..])
  }

  ghost predicate PinVersion(st: State, st': State) {
    st' == st.(pinned := st.pinned + [st.levels])
  }

  ghost predicate UnpinVersion(st: State, st': State, i: nat) {
    && i < |st.pinned|
    && st' == st.(pinned := st.pinned[..i] + st.pinned[i + 1..])
  }

  ghost function LiveTables(st: State): set<nat> {
    st.pendingOutputs
    + (set l, f | 0 <= l < |st.levels| && f in st.levels[l] :: f.number)
    + (set v: Levels, l, f | v in st.pinned && 0 <= l < |v| && f in v[l] :: f.number)
  }

  /** DeleteObsoleteFiles: every other table goes, and every log older than the manifest's log number. */
  ghost predicate CollectGarbage(st: State, st': State) {
    st' == st.(tables := st.tables * LiveTables(st), logs := map n | n in st.logs && n >= st.logNumber :: st.logs[n])
  }

  /** The entries of a log's records, numbered as the records say. */
  ghost function LogEntries(log: seq<Record>): set<Entry> {
    set r, i | r in log && 0 <= i < |r.ops| :: Entry(r.ops[i].key, r.sequence + i, r.ops[i].value)
  }

  /** Everything in the logs that the manifest does not declare obsolete. */
  ghost function Replayed(st: State): set<Entry> {
    set n, e | n in st.logs && n >= st.logNumber && e in LogEntries(st.logs[n]) :: e
  }

  /** The level-0 files that recovery writes: consecutive intervals of the replay, under ascending numbers. */
  ghost predicate RecoveredFiles(st: State, files: seq<File>, next: nat) {
    && FilesEntries(files) == Replayed(st)
    && (forall i | 0 <= i < |files| :: st.manifestNext < files[i].number < next)
    && (forall i, j | 0 <= i < j < |files| :: files[i].number < files[j].number)
    && (forall i, j, x, y | 0 <= i < j < |files| && x in files[i].entries && y in files[j].entries :: x.sn < y.sn)
  }

  /** s is the larger of the manifest's last sequence and the highest number in the logs. */
  ghost predicate RecoveredSequence(st: State, s: nat) {
    && st.manifestSequence <= s && (forall e | e in Replayed(st) :: e.sn <= s)
    && (s == st.manifestSequence || exists e :: e in Replayed(st) && e.sn == s)
  }

  /** A process crash at any point, then opening the database again from what is on disk. */
  ghost predicate Recover(st: State, st': State, files: seq<File>, now: Levels, next: nat) {
    && RecoveredFiles(st, files, next) && AddedAt(st.levels, now, 0, files)
    && st.manifestNext < next && (forall n | n in st.logs :: n < next)
    && RecoveredSequence(st, st'.lastSequence)
    && st' == State([], None, now, st'.lastSequence, [], next + 1, {}, [], next,
                    st.logs[next := []], st.tables + FileNumbers(files), next, next + 1, st'.lastSequence,
                    st.logged, |st.logged|, |st.logged|, |st.logged|, st.floor)
  }

  ghost predicate Next(st: State, st': State) {
    || (exists ops :: LogBatch(st, st', ops))
    || (exists mem :: InsertNext(st, st', mem))
    || Publish(st, st')
    || Rotate(st, st')
    || (exists l, size, now :: Flush(st, st', l, size, now))
    || (exists L, f, now :: TrivialMove(st, st', L, f, now))
    || OpenOutput(st, st')
    || (exists L, in0, in1, outs, snap, now :: Compact(st, st', L, in0, in1, outs, snap, now))
    || TakeSnapshot(st, st')
    || (exists i :: ReleaseSnapshot(st, st', i))
    || PinVersion(st, st')
    || (exists i :: UnpinVersion(st, st', i))
    || CollectGarbage(st, st')
    || (exists files, now, next :: Recover(st, st', files, now, next))
  }
}
