/**
 Every step of the engine keeps its invariant. The invariant has four parts: the order of the counters,
 which interval of the history each memtable and the tables hold, which interval the logs hold, and that
 files are named by numbers used once. Together they say that reads above the floor see the history;
 compactions raise the floor to the oldest snapshot they were made for.
 */
module LsmSteps {
  import opened Options
  import opened Entries
  import opened Versions
  import opened Compactions
  import opened CompactionReads
  import opened Histories
  import opened Lsm

  // ---- Histories that grow ----

  lemma HoldsLonger(S: set<Entry>, h: seq<Op>, more: seq<Op>, a: nat, b: nat)
    requires Holds(S, h, a, b)
    ensures Holds(S, h + more, a, b)
  {
    assert forall i | a <= i < b :: EntryOf(h + more, i) == EntryOf(h, i);
    forall e | e in S ensures e == EntryOf(h + more, e.sn - 1) {
    }
  }

  lemma {:induction false} LogHoldsLonger(log: seq<Record>, h: seq<Op>, more: seq<Op>, a: nat, b: nat)
    requires LogHolds(log, h, a, b)
    ensures LogHolds(log, h + more, a, b)
    decreases |log|
  {
    if log != [] {
      var r := log[|log| - 1];
      assert (h + more)[b - |r.ops|..b] == h[b - |r.ops|..b];
      LogHoldsLonger(log[..|log| - 1], h, more, a, b - |r.ops|);
    }
  }

  lemma FaithfulLonger(S: set<Entry>, h: seq<Op>, more: seq<Op>, n: nat, floor: nat)
    requires n <= |h| && Faithful(S, h, n, floor)
    ensures Faithful(S, h + more, n, floor)
  {
    assert (h + more)[..n] == h[..n];
  }

  lemma LogBatchKeepsInv(st: State, st': State, ops: seq<Op>)
    requires Inv(st) && LogBatch(st, st', ops)
    ensures Inv(st')
  {
    var h := st.logged;
    HoldsLonger(SetOf(st.mem), h, ops, st.rotated, st.inserted);
    HoldsLonger(ImmSet(st), h, ops, st.flushed, st.rotated);
    FaithfulLonger(All(st), h, ops, st.inserted, st.floor);
    assert FromHistory(LevelsEntries(st.levels), h + ops, st.flushed);
    LogHoldsLonger(st.logs[st.logFileNumber], h, ops, st.rotated, |h|);
    if st.imm.Some? { LogHoldsLonger(st.logs[st.logNumber], h, ops, st.flushed, st.rotated); }
    assert (h + ops)[|h|..] == ops;
    var log := st'.logs[st.logFileNumber];
    assert log[..|log| - 1] == st.logs[st.logFileNumber];
    assert All(st') == All(st);
  }

  // ---- Steps that leave the tables alone ----

  ghost predicate SameData(st: State, st': State) {
    && st'.mem == st.mem && st'.imm == st.imm && st'.levels == st.levels && st'.logged == st.logged && st'.inserted == st.inserted
    && st'.rotated == st.rotated && st'.flushed == st.flushed && st'.floor == st.floor
    && st'.logNumber == st.logNumber && st'.logFileNumber == st.logFileNumber
  }

  lemma SameDataKeepsEntries(st: State, st': State)
    requires Inv(st) && SameData(st, st')
    ensures EntriesOk(st') && Faithful(All(st'), st'.logged, st'.inserted, st'.floor)
    ensures st'.logs == st.logs ==> LogsOk(st')
  {
    assert All(st') == All(st);
  }

  lemma AllFromHistory(st: State)
    requires EntriesOk(st)
    ensures FromHistory(All(st), st.logged, st.inserted)
  {
  }

  lemma InsertKeepsEntries(st: State, st': State, mem: seq<Entry>)
    requires EntriesOk(st) && InsertNext(st, st', mem)
    ensures EntriesOk(st')
  {
    var e := EntryOf(st.logged, st.inserted);
    assert SetOf(st'.mem) == SetOf(st.mem) + {e};
    assert Holds(SetOf(st'.mem), st'.logged, st'.rotated, st'.inserted);
    assert ImmSet(st') == ImmSet(st);
  }

  lemma InsertKeepsInv(st: State, st': State, mem: seq<Entry>)
    requires Inv(st) && InsertNext(st, st', mem)
    ensures Inv(st')
  {
    InsertKeepsEntries(st, st', mem);
    AllFromHistory(st);
    FaithfulInsert(All(st), st.logged, st.inserted, st.floor);
    assert All(st') == All(st) + {EntryOf(st.logged, st.inserted)};
    InsertKeepsLogs(st, st', mem);
  }

  lemma InsertKeepsLogs(st: State, st': State, mem: seq<Entry>)
    requires SequencesOk(st) && LogsOk(st) && FilesOk(st) && InsertNext(st, st', mem)
    ensures SequencesOk(st') && LogsOk(st') && FilesOk(st')
  {
  }

  lemma PublishKeepsInv(st: State, st': State)
    requires Inv(st) && Publish(st, st')
    ensures Inv(st')
  {
    SameDataKeepsEntries(st, st');
  }

  lemma RotateKeepsEntries(st: State, st': State)
    requires SequencesOk(st) && EntriesOk(st) && Rotate(st, st')
    ensures EntriesOk(st') && All(st') == All(st)
  {
    assert SetOf(st'.mem) == {};
    assert ImmSet(st') == SetOf(st.mem) && ImmSet(st) == {};
  }

  lemma RotateKeepsInv(st: State, st': State)
    requires Inv(st) && Rotate(st, st')
    ensures Inv(st')
  {
    RotateKeepsEntries(st, st');
    assert st.nextFileNumber !in st.logs;
    assert st'.logs[st'.logNumber] == st.logs[st.logFileNumber];
    assert LogsOk(st');
    assert FilesOk(st');
  }

  lemma OpenOutputKeepsFiles(st: State, st': State)
    requires FilesOk(st) && OpenOutput(st, st')
    ensures FilesOk(st')
  {
  }

  lemma OpenOutputKeepsInv(st: State, st': State)
    requires Inv(st) && OpenOutput(st, st')
    ensures Inv(st')
  {
    SameDataKeepsEntries(st, st');
    OpenOutputKeepsFiles(st, st');
  }

  lemma TakeSnapshotKeepsInv(st: State, st': State)
    requires Inv(st) && TakeSnapshot(st, st')
    ensures Inv(st')
  {
    SameDataKeepsEntries(st, st');
  }

  lemma ReleaseSnapshotKeepsInv(st: State, st': State, i: nat)
    requires Inv(st) && ReleaseSnapshot(st, st', i)
    ensures Inv(st')
  {
    SameDataKeepsEntries(st, st');
  }

  lemma PinsKeepInv(st: State, st': State)
    requires Inv(st) && (PinVersion(st, st') || exists i :: UnpinVersion(st, st', i))
    ensures Inv(st')
  {
    SameDataKeepsEntries(st, st');
    forall v | v in st'.pinned ensures OnDisk(v, st'.tables) {
      assert v in st.pinned || v == st.levels;
    }
  }

  /** Garbage collection removes no table of a live version or pending output, and no log recovery reads. */
  lemma CollectGarbageKeepsInv(st: State, st': State)
    requires Inv(st) && CollectGarbage(st, st')
    ensures Inv(st')
  {
    SameDataKeepsEntries(st, st');
    forall v | v in st.pinned ensures OnDisk(v, st'.tables) {
    }
  }

  // ---- New files: flush and recovery ----

  /** The new files hold newer entries than all tables, and fit between the levels. */
  ghost predicate NewFiles(levels: Levels, l: nat, added: seq<File>) {
    && LevelsOk(levels) && l < NUM_LEVELS && DistinctNumbers(added)
    && (forall m, f, g | 0 <= m < NUM_LEVELS && f in added && g in levels[m] :: Newer(f.entries, g.entries) && f.number > g.number)
    && (forall f, g | f in added && g in added && f.number > g.number :: Newer(f.entries, g.entries))
    && (l > 0 ==> |added| <= 1)
    && (forall m, f, g | 0 <= m <= l && l > 0 && f in added && g in levels[m] :: !Overlaps(g, Some(f.Smallest().user), Some(f.Largest().user)))
  }

  lemma ApartIfNoOverlap(f: File, g: File)
    requires !Overlaps(g, Some(f.Smallest().user), Some(f.Largest().user))
    ensures FileLt(f, g) || FileLt(g, f)
    ensures Newer(f.entries, g.entries) && Newer(g.entries, f.entries)
  {
    FileBounds(f, f.Largest());
    FileBounds(g, g.Largest());
    forall x, y | x in f.entries && y in g.entries ensures x.user != y.user {
      FileBounds(f, x);
      FileBounds(g, y);
    }
  }

  lemma AddedLevelOk(levels: Levels, now: Levels, l: nat, added: seq<File>)
    requires NewFiles(levels, l, added) && AddedAt(levels, now, l, added)
    ensures LevelOk(l, now[l])
  {
    PairsFromLevel(l, levels[l]);
    forall f, g | f in now[l] && g in now[l] && f != g
      ensures f.number != g.number && (l > 0 ==> FileLt(f, g) || FileLt(g, f))
      ensures l == 0 && f.number > g.number ==> Newer(f.entries, g.entries)
    {
      if f in added && g in added {
        var i :| 0 <= i < |added| && added[i] == f;
        var j :| 0 <= j < |added| && added[j] == g;
        assert i < j || j < i;
      } else if f in added {
        assert f.number > g.number;
        if l > 0 { ApartIfNoOverlap(f, g); }
      } else if g in added {
        assert g.number > f.number;
        if l > 0 { ApartIfNoOverlap(g, f); }
      }
    }
    LevelFromPairs(l, now[l]);
  }

  lemma AddedKeepsOrder(levels: Levels, now: Levels, l: nat, added: seq<File>, a: nat, b: nat, f: File, g: File)
    requires NewFiles(levels, l, added) && AddedAt(levels, now, l, added)
    requires a < b < NUM_LEVELS && f in now[a] && g in now[b]
    ensures Newer(f.entries, g.entries)
  {
    if b == l && g in added {
      assert f in levels[a];
      ApartIfNoOverlap(g, f);
    } else if a == l && f in added {
      assert g in levels[b];
    } else {
      assert f in levels[a] && g in levels[b];
    }
  }

  lemma AddedKeepsLevels(levels: Levels, now: Levels, l: nat, added: seq<File>)
    requires NewFiles(levels, l, added) && AddedAt(levels, now, l, added)
    ensures LevelsOk(now)
  {
    AddedLevelOk(levels, now, l, added);
    forall a, b, f, g | 0 <= a < b < NUM_LEVELS && f in now[a] && g in now[b]
      ensures Newer(f.entries, g.entries)
    {
      AddedKeepsOrder(levels, now, l, added, a, b, f, g);
    }
  }

  lemma AddedEntries(levels: Levels, now: Levels, l: nat, added: seq<File>)
    requires AddedAt(levels, now, l, added)
    ensures LevelsEntries(now) == LevelsEntries(levels) + FilesEntries(added)
  {
    forall m, f | 0 <= m < NUM_LEVELS && f in levels[m] ensures f in now[m] {
    }
    forall f | f in added ensures f in now[l] {
    }
    forall m, f | 0 <= m < NUM_LEVELS && f in now[m] ensures f in levels[m] || f in added {
    }
  }

  /** The table numbers of a version that gained files. */
  lemma AddedKeepsFiles(levels: Levels, now: Levels, l: nat, added: seq<File>, tables: set<nat>, next: nat)
    requires AddedAt(levels, now, l, added) && NumbersUnique(levels) && NumbersBelow(levels, next) && OnDisk(levels, tables)
    requires forall m, f, g | 0 <= m < NUM_LEVELS && f in added && g in levels[m] :: f.number > g.number
    requires forall f | f in added :: f.number < next && f.number in tables
    ensures NumbersUnique(now) && NumbersBelow(now, next) && OnDisk(now, tables)
  {
    forall m, f | 0 <= m < NUM_LEVELS && f in now[m] ensures f.number < next && f.number in tables {
      assert f in levels[m] || (m == l && f in added);
    }
    AddedKeepsUnique(levels, now, l, added);
  }

  lemma AddedKeepsUnique(levels: Levels, now: Levels, l: nat, added: seq<File>)
    requires AddedAt(levels, now, l, added) && NumbersUnique(levels)
    requires forall m, f, g | 0 <= m < NUM_LEVELS && f in added && g in levels[m] :: f.number > g.number
    ensures NumbersUnique(now)
  {
    forall a, b, f, g | 0 <= a < b < |now| && f in now[a] && g in now[b] ensures f.number != g.number {
      assert f in levels[a] || (a == l && f in added);
      assert g in levels[b] || (b == l && g in added);
    }
  }

  lemma FlushedFileIsNew(st: State, l: nat, f: File)
    requires SequencesOk(st) && EntriesOk(st) && FilesOk(st)
    requires st.imm == Some(f.entries) && f.number == st.nextFileNumber && LegalFlushLevel(st.levels, f, l)
    ensures NewFiles(st.levels, l, [f])
  {
    forall m, g | 0 <= m < NUM_LEVELS && g in st.levels[m] ensures Newer(f.entries, g.entries) && f.number > g.number {
      forall x, y | x in f.entries && y in g.entries ensures x.sn > y.sn {
        assert x in ImmSet(st) && y in LevelsEntries(st.levels);
      }
    }
  }

  lemma FlushedLevels(st: State, l: nat, f: File, now: Levels)
    requires SequencesOk(st) && EntriesOk(st) && FilesOk(st)
    requires st.imm == Some(f.entries) && f.number == st.nextFileNumber && LegalFlushLevel(st.levels, f, l)
    requires AddedAt(st.levels, now, l, [f])
    ensures LevelsOk(now) && LevelsEntries(now) == LevelsEntries(st.levels) + ImmSet(st)
    ensures NumbersUnique(now) && NumbersBelow(now, st.nextFileNumber + 1) && OnDisk(now, st.tables + {st.nextFileNumber})
  {
    FlushedFileIsNew(st, l, f);
    AddedKeepsLevels(st.levels, now, l, [f]);
    AddedEntries(st.levels, now, l, [f]);
    assert f in [f] && FilesEntries([f]) == ImmSet(st);
    AddedKeepsFiles(st.levels, now, l, [f], st.tables + {st.nextFileNumber}, st.nextFileNumber + 1);
  }

  lemma FlushKeepsEntries(st: State, st': State, l: nat, size: nat, now: Levels)
    requires SequencesOk(st) && EntriesOk(st) && FilesOk(st) && Flush(st, st', l, size, now)
    ensures LevelsOk(now) && LevelsEntries(now) == LevelsEntries(st.levels) + ImmSet(st)
    ensures NumbersUnique(now) && NumbersBelow(now, st'.manifestNext) && OnDisk(now, st'.tables)
  {
    if st.imm.value != [] {
      FlushedLevels(st, l, Table(st.nextFileNumber, size, st.imm.value), now);
    }
  }

  lemma FlushKeepsInv(st: State, st': State, l: nat, size: nat, now: Levels)
    requires Inv(st) && Flush(st, st', l, size, now)
    ensures Inv(st')
  {
    FlushKeepsEntries(st, st', l, size, now);
    assert All(st') == All(st) && ImmSet(st') == {};
    FlushKeepsFiles(st, st', l, size, now);
    assert EntriesOk(st');
    assert SequencesOk(st') && LogsOk(st');
  }

  lemma FlushKeepsFiles(st: State, st': State, l: nat, size: nat, now: Levels)
    requires SequencesOk(st) && FilesOk(st) && Flush(st, st', l, size, now)
    requires NumbersUnique(now) && NumbersBelow(now, st'.manifestNext) && OnDisk(now, st'.tables)
    ensures FilesOk(st')
  {
    forall m, g | 0 <= m < |now| && g in now[m] ensures g.number !in st.pendingOutputs {
      if st.imm.value != [] {
        assert g in st.levels[m] || g.number == st.nextFileNumber;
      }
    }
    forall v | v in st.pinned ensures OnDisk(v, st'.tables) {
    }
  }

  // ---- Compactions ----

  lemma InstalledFiles(levels: Levels, now: Levels, L: nat, in0: seq<File>, in1: seq<File>, outs: seq<File>, m: nat, f: File)
    requires L + 1 < NUM_LEVELS == |levels| && Installed(levels, now, L, in0, in1, outs)
    requires m < NUM_LEVELS && f in now[m]
    ensures (f in levels[m] && !(m == L && f in in0) && !(m == L + 1 && f in in1)) || (m == L + 1 && f in outs)
  {
  }

  /** A trivial move changes where a file is, not what reads meet. */
  lemma MoveKeepsEntries(st: State, st': State, L: nat, f: File, now: Levels)
    requires Inv(st) && TrivialMove(st, st', L, f, now)
    ensures LevelsOk(now) && LevelsEntries(now) == LevelsEntries(st.levels)
  {
    assert f in [f] && f in st.levels[L];
    assert OutputsWithin([f], st.levels, L, [f], []);
    CompactionKeepsLevels(st.levels, now, L, [f], [], [f]);
    forall m, g | 0 <= m < NUM_LEVELS && g in now[m] ensures g in st.levels[m] || g == f {
      InstalledFiles(st.levels, now, L, [f], [], [f], m, g);
    }
    assert f in now[L + 1];
    forall m, g | 0 <= m < NUM_LEVELS && g in st.levels[m] ensures g in now[m] || g == f {
    }
  }

  /** A moved file's number is in no other file's place. */
  ghost predicate OldOrMoved(levels: Levels, L: nat, f: File, m: nat, g: File) {
    m < |levels| && ((g in levels[m] && g.number != f.number) || (m == L + 1 && g == f))
  }

  lemma MovedFiles(levels: Levels, now: Levels, L: nat, f: File)
    requires LevelsOk(levels) && NumbersUnique(levels) && L + 1 < NUM_LEVELS && f in levels[L]
    requires Installed(levels, now, L, [f], [], [f])
    ensures forall m, g | 0 <= m < NUM_LEVELS && g in now[m] :: OldOrMoved(levels, L, f, m, g)
    ensures NumbersUnique(now)
  {
    assert f in [f] && LevelOk(L, levels[L]);
    PairsFromLevel(L, levels[L]);
    forall m, g | 0 <= m < NUM_LEVELS && g in now[m] ensures OldOrMoved(levels, L, f, m, g) {
      InstalledFiles(levels, now, L, [f], [], [f], m, g);
    }
    forall a, b, g, h | 0 <= a < b < NUM_LEVELS && g in now[a] && h in now[b] ensures g.number != h.number {
      assert OldOrMoved(levels, L, f, a, g) && OldOrMoved(levels, L, f, b, h);
    }
  }

  lemma MoveKeepsFiles(st: State, st': State, L: nat, f: File, now: Levels)
    requires FilesOk(st) && LevelsOk(st.levels) && TrivialMove(st, st', L, f, now)
    ensures FilesOk(st')
  {
    assert f in [f] && f in st.levels[L];
    MovedFiles(st.levels, now, L, f);
    forall m, g | 0 <= m < NUM_LEVELS && g in now[m]
      ensures g.number < st.nextFileNumber && g.number in st.tables && g.number !in st.pendingOutputs
    {
      assert OldOrMoved(st.levels, L, f, m, g);
    }
  }

  lemma TrivialMoveKeepsInv(st: State, st': State, L: nat, f: File, now: Levels)
    requires Inv(st) && TrivialMove(st, st', L, f, now)
    ensures Inv(st')
  {
    MoveKeepsEntries(st, st', L, f, now);
    MoveKeepsFiles(st, st', L, f, now);
    assert All(st') == All(st) && ImmSet(st') == ImmSet(st);
  }

  /** A file of the new version is an old one or an output, whose number was pending. */
  ghost predicate OldOrOutput(levels: Levels, L: nat, outs: seq<File>, m: nat, f: File) {
    m < |levels| && (f in levels[m] || (m == L + 1 && f in outs))
  }

  lemma CompactKeepsNumbers(levels: Levels, now: Levels, L: nat, outs: seq<File>, pending: set<nat>)
    requires |levels| == |now| && NumbersUnique(levels) && NonePending(levels, pending)
    requires forall m, f | 0 <= m < |now| && f in now[m] :: OldOrOutput(levels, L, outs, m, f)
    requires forall f | f in outs :: f.number in pending
    ensures NumbersUnique(now)
    ensures NonePending(now, pending - FileNumbers(outs))
  {
    forall l, m, f, g | 0 <= l < m < |now| && f in now[l] && g in now[m] ensures f.number != g.number {
      assert OldOrOutput(levels, L, outs, l, f) && OldOrOutput(levels, L, outs, m, g);
    }
    forall m, f | 0 <= m < |now| && f in now[m] ensures f.number !in pending - FileNumbers(outs) {
      assert OldOrOutput(levels, L, outs, m, f);
    }
  }

  lemma CompactKeepsFiles(st: State, L: nat, in0: seq<File>, in1: seq<File>, outs: seq<File>, now: Levels)
    requires FilesOk(st) && |st.levels| == NUM_LEVELS && L + 1 < NUM_LEVELS && Installed(st.levels, now, L, in0, in1, outs)
    requires forall f | f in outs :: f.number in st.pendingOutputs
    ensures NumbersUnique(now) && NumbersBelow(now, st.nextFileNumber) && OnDisk(now, st.tables)
    ensures NonePending(now, st.pendingOutputs - FileNumbers(outs))
  {
    forall m, f | 0 <= m < NUM_LEVELS && f in now[m]
      ensures OldOrOutput(st.levels, L, outs, m, f) && f.number < st.nextFileNumber && f.number in st.tables
    {
      InstalledFiles(st.levels, now, L, in0, in1, outs, m, f);
    }
    CompactKeepsNumbers(st.levels, now, L, outs, st.pendingOutputs);
  }

  /** The memtables hold newer entries than the tables. */
  lemma UpperIsNewer(st: State)
    requires SequencesOk(st) && EntriesOk(st)
    ensures UpperNewer(Upper(st), st.levels)
  {
    forall x, l, f, y | x in Upper(st) && 0 <= l < |st.levels| && f in st.levels[l] && y in f.entries
      ensures x.sn > y.sn
    {
      assert y in LevelsEntries(st.levels);
    }
  }

  lemma AllUnique(st: State)
    requires EntriesOk(st)
    ensures UniqueVersions(All(st))
  {
    AllFromHistory(st);
  }

  /** Reads the compaction preserves stay faithful, at and above the snapshot it honoured. */
  lemma FaithfulThroughSameReads(S: set<Entry>, T: set<Entry>, h: seq<Op>, n: nat, floor: nat, snap: nat)
    requires n <= |h| && Faithful(S, h, n, floor) && SameReads(S, T, snap)
    ensures Faithful(T, h, n, if floor < snap then snap else floor)
  {
    forall k, s, r' | floor <= s && snap <= s && Answers(r', T, k, s)
      ensures ValueOf(r') == HistoryGet(h[..n], k, s)
    {
      var r := AnswerExists(S, k, s);
    }
  }

  lemma CompactKeepsReads(st: State, st': State, L: nat, in0: seq<File>, in1: seq<File>, outs: seq<File>, snap: nat, now: Levels)
    requires SequencesOk(st) && EntriesOk(st) && Compact(st, st', L, in0, in1, outs, snap, now)
    requires Faithful(All(st), st.logged, st.inserted, st.floor)
    ensures LevelsOk(now) && FromHistory(LevelsEntries(now), st.logged, st.flushed)
    ensures Faithful(Upper(st) + LevelsEntries(now), st.logged, st.inserted, st'.floor)
  {
    CompactionKeepsLevels(st.levels, now, L, in0, in1, outs);
    UpperIsNewer(st);
    AllUnique(st);
    CompactionPreservesReads(Upper(st), st.levels, now, L, in0, in1, outs, snap);
    FaithfulThroughSameReads(All(st), Upper(st) + LevelsEntries(now), st.logged, st.inserted, st.floor, snap);
    CompactedFromInputs(st.levels, now, L, in0, in1, outs, snap);
  }

  lemma CompactedFromInputs(levels: Levels, now: Levels, L: nat, in0: seq<File>, in1: seq<File>, outs: seq<File>, snap: nat)
    requires LegalInputs(levels, L, in0, in1) && LegalOutputs(outs, levels, L, in0, in1, snap)
    requires Installed(levels, now, L, in0, in1, outs)
    ensures LevelsEntries(now) <= LevelsEntries(levels)
  {
    LegalInputsInPlace(levels, L, in0, in1);
    forall x | x in LevelsEntries(now) ensures x in LevelsEntries(levels) {
      EntriesAfter(levels, now, L, in0, in1, outs, snap, x);
      EntriesBefore(levels, L, in0, in1, x);
    }
  }

  lemma CompactKeepsInv(st: State, st': State, L: nat, in0: seq<File>, in1: seq<File>, outs: seq<File>, snap: nat, now: Levels)
    requires Inv(st) && Compact(st, st', L, in0, in1, outs, snap, now)
    ensures Inv(st')
  {
    CompactKeepsReads(st, st', L, in0, in1, outs, snap, now);
    CompactKeepsFiles(st, L, in0, in1, outs, now);
    assert Upper(st') == Upper(st) && ImmSet(st') == ImmSet(st);
    assert SequencesOk(st');
  }

  // ---- Crash and recovery ----

  /** A log's entries are those of its last record and those before it. */
  lemma LogEntriesSplit(log: seq<Record>)
    requires log != []
    ensures LogEntries(log) == LogEntries(log[..|log| - 1]) + RecordEntries(log[|log| - 1])
  {
    var (rest, r) := (log[..|log| - 1], log[|log| - 1]);
    assert log == rest + [r];
    forall e | e in LogEntries(log) ensures e in LogEntries(rest) + RecordEntries(r) {
      var q, i :| q in log && 0 <= i < |q.ops| && e == Entry(q.ops[i].key, q.sequence + i, q.ops[i].value);
      assert q in rest || q == r;
    }
  }

  ghost function RecordEntries(r: Record): set<Entry> {
    set i | 0 <= i < |r.ops| :: Entry(r.ops[i].key, r.sequence + i, r.ops[i].value)
  }

  lemma RecordEntriesAre(r: Record, h: seq<Op>, c: nat)
    requires c + |r.ops| <= |h| && r.sequence == c + 1 && r.ops == h[c..c + |r.ops|]
    ensures Holds(RecordEntries(r), h, c, c + |r.ops|)
  {
    forall i | c <= i < c + |r.ops| ensures EntryOf(h, i) in RecordEntries(r) {
      assert EntryOf(h, i) == Entry(r.ops[i - c].key, r.sequence + (i - c), r.ops[i - c].value);
    }
  }

  lemma HoldsConcat(S: set<Entry>, T: set<Entry>, h: seq<Op>, a: nat, b: nat, c: nat)
    requires Holds(S, h, a, b) && Holds(T, h, b, c)
    ensures Holds(S + T, h, a, c)
  {
  }

  lemma {:induction false} LogEntriesAre(log: seq<Record>, h: seq<Op>, a: nat, b: nat)
    requires LogHolds(log, h, a, b)
    ensures Holds(LogEntries(log), h, a, b)
    decreases |log|
  {
    if log == [] {
      assert LogEntries(log) == {};
    } else {
      var (rest, r) := (log[..|log| - 1], log[|log| - 1]);
      var c := b - |r.ops|;
      LogEntriesAre(rest, h, a, c);
      RecordEntriesAre(r, h, c);
      HoldsConcat(LogEntries(rest), RecordEntries(r), h, a, c, b);
      LogEntriesSplit(log);
    }
  }

  /** What is replayed comes from the current log, and from the one of the immutable memtable. */
  lemma ReplayedLogs(st: State)
    requires LogsOk(st)
    ensures Replayed(st) ==
      (if st.imm.Some? then LogEntries(st.logs[st.logNumber]) else {}) + LogEntries(st.logs[st.logFileNumber])
  {
  }

  /** Replaying every log the manifest does not declare obsolete gives exactly the writes not yet in tables. */
  lemma ReplayIsExact(st: State)
    requires LogsOk(st) && SequencesOk(st)
    ensures Holds(Replayed(st), st.logged, st.flushed, |st.logged|)
  {
    ReplayedLogs(st);
    var current := LogEntries(st.logs[st.logFileNumber]);
    LogEntriesAre(st.logs[st.logFileNumber], st.logged, st.rotated, |st.logged|);
    if st.imm.Some? {
      var older := LogEntries(st.logs[st.logNumber]);
      LogEntriesAre(st.logs[st.logNumber], st.logged, st.flushed, st.rotated);
      HoldsConcat(older, current, st.logged, st.flushed, st.rotated, |st.logged|);
    } else {
      assert {} + current == current;
    }
  }

  /** Recovery restores the sequence number of the last logged write. */
  lemma RecoveredSequenceIsLast(st: State, s: nat)
    requires LogsOk(st) && SequencesOk(st) && RecoveredSequence(st, s)
    ensures s == |st.logged|
  {
    ReplayIsExact(st);
    if st.flushed < |st.logged| {
      assert EntryOf(st.logged, |st.logged| - 1) in Replayed(st);
    }
  }

  lemma RecoveredFileIsNewer(st: State, files: seq<File>, next: nat, m: nat, f: File, g: File)
    requires EntriesOk(st) && FilesEntries(files) == Replayed(st) && Holds(Replayed(st), st.logged, st.flushed, |st.logged|)
    requires m < NUM_LEVELS && f in files && g in st.levels[m]
    ensures Newer(f.entries, g.entries)
  {
    forall x, y | x in f.entries && y in g.entries ensures x.sn > y.sn {
      assert x in FilesEntries(files) && y in LevelsEntries(st.levels);
    }
  }

  lemma RecoveredFilesInOrder(st: State, files: seq<File>, next: nat, f: File, g: File)
    requires RecoveredFiles(st, files, next) && f in files && g in files && f.number > g.number
    ensures Newer(f.entries, g.entries)
  {
    var i :| 0 <= i < |files| && files[i] == f;
    var j :| 0 <= j < |files| && files[j] == g;
    assert j < i;
  }

  lemma RecoveredFilesAreNew(st: State, files: seq<File>, next: nat)
    requires LogsOk(st) && SequencesOk(st) && EntriesOk(st) && FilesOk(st) && RecoveredFiles(st, files, next)
    ensures NewFiles(st.levels, 0, files)
  {
    ReplayIsExact(st);
    forall m, f, g | 0 <= m < NUM_LEVELS && f in files && g in st.levels[m]
      ensures Newer(f.entries, g.entries) && f.number > g.number
    {
      RecoveredFileIsNewer(st, files, next, m, f, g);
      var i :| 0 <= i < |files| && files[i] == f;
    }
    forall f, g | f in files && g in files && f.number > g.number ensures Newer(f.entries, g.entries) {
      RecoveredFilesInOrder(st, files, next, f, g);
    }
  }

  lemma RecoverKeepsEntries(st: State, st': State, files: seq<File>, now: Levels, next: nat)
    requires Inv(st) && Recover(st, st', files, now, next)
    ensures LevelsOk(now) && FromHistory(LevelsEntries(now), st.logged, |st.logged|)
    ensures Faithful(LevelsEntries(now), st.logged, |st.logged|, st.floor)
  {
    RecoveredFilesAreNew(st, files, next);
    AddedKeepsLevels(st.levels, now, 0, files);
    AddedEntries(st.levels, now, 0, files);
    ReplayIsExact(st);
    RecoveredReads(st);
    assert LevelsEntries(now) == LevelsEntries(st.levels) + Replayed(st);
  }

  /** The tables and the replay together hold what the memtables held, and the rest of a half-inserted batch. */
  lemma RecoveredReads(st: State)
    requires SequencesOk(st) && EntriesOk(st) && Faithful(All(st), st.logged, st.inserted, st.floor)
    requires Holds(Replayed(st), st.logged, st.flushed, |st.logged|)
    ensures FromHistory(LevelsEntries(st.levels) + Replayed(st), st.logged, |st.logged|)
    ensures Faithful(LevelsEntries(st.levels) + Replayed(st), st.logged, |st.logged|, st.floor)
  {
    var h, n := st.logged, st.inserted;
    var rest := set e | e in Replayed(st) && e.sn > n;
    assert Holds(rest, h, n, |h|);
    AllFromHistory(st);
    FaithfulExtend(All(st), rest, h, n, |h|, st.floor);
    forall e ensures e in All(st) + rest <==> e in LevelsEntries(st.levels) + Replayed(st) {
      if e in Upper(st) {
        assert e == EntryOf(h, e.sn - 1);
      }
      if e in Replayed(st) && e !in rest {
        assert e == EntryOf(h, e.sn - 1);
        assert e in SetOf(st.mem) || e in ImmSet(st);
      }
    }
    assert All(st) + rest == LevelsEntries(st.levels) + Replayed(st);
  }

  lemma RecoverKeepsFiles(st: State, st': State, files: seq<File>, now: Levels, next: nat)
    requires LogsOk(st) && SequencesOk(st) && EntriesOk(st) && FilesOk(st) && Recover(st, st', files, now, next)
    ensures FilesOk(st')
  {
    RecoveredFilesAreNew(st, files, next);
    assert NumbersBelow(st.levels, next);
    forall f | f in files ensures f.number < next && f.number in st'.tables {
    }
    AddedKeepsFiles(st.levels, now, 0, files, st'.tables, next);
  }

  lemma RecoverKeepsInv(st: State, st': State, files: seq<File>, now: Levels, next: nat)
    requires Inv(st) && Recover(st, st', files, now, next)
    ensures Inv(st')
  {
    RecoveredSequenceIsLast(st, st'.lastSequence);
    RecoverKeepsEntries(st, st', files, now, next);
    RecoverKeepsFiles(st, st', files, now, next);
    assert SetOf(st'.mem) == {} && ImmSet(st') == {};
    assert All(st') == LevelsEntries(now);
    assert st'.logged[..|st.logged|] == st.logged;
  }

  // ---- All steps ----

  lemma InitHasInv(st: State)
    requires Init(st)
    ensures Inv(st)
  {
    assert All(st) == {};
    forall k, s, r | Answers(r, All(st), k, s) ensures r.None? {
    }
  }

  lemma StepKeepsInv(st: State, st': State)
    requires Inv(st) && Next(st, st')
    ensures Inv(st')
  {
    if ops :| LogBatch(st, st', ops) {
      LogBatchKeepsInv(st, st', ops);
    } else if mem :| InsertNext(st, st', mem) {
      InsertKeepsInv(st, st', mem);
    } else if Publish(st, st') {
      PublishKeepsInv(st, st');
    } else if Rotate(st, st') {
      RotateKeepsInv(st, st');
    } else if l, size, now :| Flush(st, st', l, size, now) {
      FlushKeepsInv(st, st', l, size, now);
    } else if L, f, now :| TrivialMove(st, st', L, f, now) {
      TrivialMoveKeepsInv(st, st', L, f, now);
    } else if OpenOutput(st, st') {
      OpenOutputKeepsInv(st, st');
    } else if L, in0, in1, outs, snap, now :| Compact(st, st', L, in0, in1, outs, snap, now) {
      CompactKeepsInv(st, st', L, in0, in1, outs, snap, now);
    } else if TakeSnapshot(st, st') {
      TakeSnapshotKeepsInv(st, st');
    } else if i :| ReleaseSnapshot(st, st', i) {
      ReleaseSnapshotKeepsInv(st, st', i);
    } else if PinVersion(st, st') || exists i :: UnpinVersion(st, st', i) {
      PinsKeepInv(st, st');
    } else if CollectGarbage(st, st') {
      CollectGarbageKeepsInv(st, st');
    } else {
      var files, now, next :| Recover(st, st', files, now, next);
      RecoverKeepsInv(st, st', files, now, next);
    }
  }
}
