/** What holds in every run of the engine, crashes included. */
module LsmRuns {
  import opened Options
  import opened Entries
  import opened Versions
  import opened Histories
  import opened Lsm
  import opened LsmSteps

  /** Zero or more steps lead through the states of the run. */
  ghost predicate IsPath(run: seq<State>) {
    run != [] && forall i | 0 < i < |run| :: StepAt(run, i)
  }

  ghost predicate StepAt(run: seq<State>, i: nat)
    requires 0 < i < |run|
  {
    Next(run[i - 1], run[i])
  }

  ghost predicate IsRun(run: seq<State>) {
    IsPath(run) && Init(run[0])
  }

  ghost predicate EndsIn(run: seq<State>, st: State) {
    IsRun(run) && run[|run| - 1] == st
  }

  ghost predicate Reachable(st: State) {
    exists run :: EndsIn(run, st)
  }

  lemma ReachableStep(st: State, st': State)
    requires Reachable(st) && Next(st, st')
    ensures Reachable(st')
  {
    var run :| EndsIn(run, st);
    var longer := run + [st'];
    assert StepAt(longer, |run|);
    forall i | 0 < i < |run| ensures StepAt(longer, i) {
      assert StepAt(run, i);
    }
    assert EndsIn(longer, st');
  }

  lemma LogBatchReachable(st: State, st': State, ops: seq<Op>)
    requires Reachable(st) && LogBatch(st, st', ops)
    ensures Reachable(st')
  {
    ReachableStep(st, st');
  }

  lemma InsertReachable(st: State, st': State, mem: seq<Entry>)
    requires Reachable(st) && InsertNext(st, st', mem)
    ensures Reachable(st')
  {
    ReachableStep(st, st');
  }

  lemma PublishOrRotateReachable(st: State, st': State)
    requires Reachable(st) && (Publish(st, st') || Rotate(st, st'))
    ensures Reachable(st')
  {
    ReachableStep(st, st');
  }

  lemma FlushReachable(st: State, st': State, l: nat, size: nat, now: Levels)
    requires Reachable(st) && Flush(st, st', l, size, now)
    ensures Reachable(st')
  {
    ReachableStep(st, st');
  }

  lemma CompactReachable(st: State, st': State, L: nat, in0: seq<File>, in1: seq<File>, outs: seq<File>, snap: nat, now: Levels)
    requires Reachable(st) && Compact(st, st', L, in0, in1, outs, snap, now)
    ensures Reachable(st')
  {
    ReachableStep(st, st');
  }

  lemma MoveReachable(st: State, st': State, L: nat, f: File, now: Levels)
    requires Reachable(st) && TrivialMove(st, st', L, f, now)
    ensures Reachable(st')
  {
    ReachableStep(st, st');
  }

  lemma RecoverReachable(st: State, st': State, files: seq<File>, now: Levels, next: nat)
    requires Reachable(st) && Recover(st, st', files, now, next)
    ensures Reachable(st')
  {
    ReachableStep(st, st');
  }

  lemma ReleaseReachable(st: State, st': State, i: nat)
    requires Reachable(st) && ReleaseSnapshot(st, st', i)
    ensures Reachable(st')
  {
    ReachableStep(st, st');
  }

  lemma HouseStepReachable(st: State, st': State)
    requires Reachable(st) && (TakeSnapshot(st, st') || CollectGarbage(st, st') || OpenOutput(st, st'))
    ensures Reachable(st')
  {
    ReachableStep(st, st');
  }

  lemma ReachableInit(st: State)
    requires Init(st)
    ensures Reachable(st)
  {
    assert EndsIn([st], st);
  }

  lemma {:induction false} PathKeepsInv(run: seq<State>, i: nat)
    requires IsPath(run) && Inv(run[0]) && i < |run|
    ensures Inv(run[i])
  {
    if i > 0 {
      PathKeepsInv(run, i - 1);
      assert StepAt(run, i);
      StepKeepsInv(run[i - 1], run[i]);
    }
  }

  lemma RunKeepsInv(run: seq<State>, i: nat)
    requires IsRun(run) && i < |run|
    ensures Inv(run[i])
  {
    InitHasInv(run[0]);
    PathKeepsInv(run, i);
  }

  lemma EndHasInv(run: seq<State>, st: State)
    requires EndsIn(run, st)
    ensures Inv(st)
  {
    RunKeepsInv(run, |run| - 1);
    SameInv(run[|run| - 1], st);
  }

  lemma SameInv(st: State, st': State)
    requires Inv(st) && st == st'
    ensures Inv(st')
  {
  }

  lemma ReachableHasInv(st: State)
    requires Reachable(st)
    ensures Inv(st)
  {
    var run :| EndsIn(run, st);
    EndHasInv(run, st);
  }

  /** A sequence number a reader may be using. */
  ghost predicate Live(st: State, s: nat) {
    s == st.lastSequence || s in st.snapshots
  }

  /** Whatever the memtables and tables have become, a live read returns what the history says. */
  lemma LiveReadsAreRight(st: State, k: UserKey, s: nat, r: Option<Entry>)
    requires Inv(st) && Live(st, s) && Answers(r, All(st), k, s)
    ensures ValueOf(r) == HistoryGet(st.logged, k, s)
  {
    assert st.floor <= s <= st.inserted;
    LaterWritesInvisible(st.logged, st.inserted, k, s);
  }

  lemma RunReadsAreRight(run: seq<State>, i: nat, k: UserKey, s: nat, r: Option<Entry>)
    requires IsRun(run) && i < |run| && Live(run[i], s) && Answers(r, All(run[i]), k, s)
    ensures ValueOf(r) == HistoryGet(run[i].logged, k, s)
  {
    RunKeepsInv(run, i);
    LiveReadsAreRight(run[i], k, s, r);
  }

  /** No step, not even a crash, forgets or rewrites a logged write. */
  lemma StepExtendsLog(st: State, st': State)
    requires Next(st, st')
    ensures st.logged <= st'.logged
  {
  }

  lemma {:induction false} LogOnlyGrows(run: seq<State>, i: nat, j: nat)
    requires IsPath(run) && i <= j < |run|
    ensures run[i].logged <= run[j].logged
  {
    if i < j {
      LogOnlyGrows(run, i, j - 1);
      assert StepAt(run, j);
      StepExtendsLog(run[j - 1], run[j]);
    }
  }

  /** A snapshot that is still held sees the same database at any later point of the run. */
  lemma SnapshotsAreStable(run: seq<State>, i: nat, j: nat, k: UserKey, s: nat, r: Option<Entry>, r': Option<Entry>)
    requires IsRun(run) && i <= j < |run| && Live(run[i], s) && Live(run[j], s)
    requires Answers(r, All(run[i]), k, s) && Answers(r', All(run[j]), k, s)
    ensures ValueOf(r) == ValueOf(r')
  {
    RunReadsAreRight(run, i, k, s, r);
    RunReadsAreRight(run, j, k, s, r');
    RunKeepsInv(run, i);
    LogOnlyGrows(run, i, j);
    var (h, h') := (run[i].logged, run[j].logged);
    assert h'[..|h|] == h;
    LaterWritesInvisible(h', |h|, k, s);
  }

  /** After a crash the database reads as if exactly the logged writes had been made. */
  lemma RecoveryIsExact(st: State, st': State, files: seq<File>, now: Levels, next: nat, k: UserKey, r: Option<Entry>)
    requires Inv(st) && Recover(st, st', files, now, next)
    requires Answers(r, All(st'), k, st'.lastSequence)
    ensures st'.lastSequence == |st.logged| >= st.lastSequence && st'.logged == st.logged
    ensures ValueOf(r) == HistoryGet(st.logged, k, |st.logged|)
  {
    RecoveredSequenceIsLast(st, st'.lastSequence);
    RecoverKeepsInv(st, st', files, now, next);
    LiveReadsAreRight(st', k, st'.lastSequence, r);
  }

  /** What a recovery that crashed before its manifest was installed leaves: tables, and its new log, still empty. */
  ghost function Interrupted(st: State, strayLogs: set<nat>, strayTables: set<nat>): State {
    st.(logs := st.logs + (map n | n in strayLogs :: []), tables := st.tables + strayTables)
  }

  lemma StrayLogsHoldNothing(st: State, strayLogs: set<nat>, strayTables: set<nat>)
    requires strayLogs !! st.logs.Keys
    ensures Replayed(Interrupted(st, strayLogs, strayTables)) == Replayed(st)
  {
    var st' := Interrupted(st, strayLogs, strayTables);
    assert LogEntries([]) == {};
    forall n | n in st'.logs ensures LogEntries(st'.logs[n]) == if n in st.logs then LogEntries(st.logs[n]) else {} {
    }
  }

  /** The state reached without the strays: other files on disk, the same data. */
  ghost function Undisturbed(st: State, st': State, files: seq<File>, next: nat): (u: State)
    ensures All(u) == All(st')
  {
    st'.(logs := st.logs[next := []], tables := st.tables + FileNumbers(files))
  }

  lemma StraysDoNotMatter(st: State, strayed: State, st': State, files: seq<File>, now: Levels, next: nat)
    requires strayed == st.(logs := strayed.logs, tables := strayed.tables) && st.logs.Keys <= strayed.logs.Keys
    requires Replayed(strayed) == Replayed(st) && Recover(strayed, st', files, now, next)
    ensures Recover(st, Undisturbed(st, st', files, next), files, now, next)
  {
  }

  /** A crash during recovery, as often as it happens, changes nothing about what the next recovery yields. */
  lemma CrashDuringRecovery(st: State, strayLogs: set<nat>, strayTables: set<nat>, st': State, files: seq<File>, now: Levels, next: nat,
                            k: UserKey, r: Option<Entry>)
    requires Inv(st) && strayLogs !! st.logs.Keys
    requires Recover(Interrupted(st, strayLogs, strayTables), st', files, now, next)
    requires Answers(r, All(st'), k, st'.lastSequence)
    ensures st'.lastSequence == |st.logged| && st'.logged == st.logged
    ensures ValueOf(r) == HistoryGet(st.logged, k, |st.logged|)
  {
    StrayLogsHoldNothing(st, strayLogs, strayTables);
    StraysDoNotMatter(st, Interrupted(st, strayLogs, strayTables), st', files, now, next);
    RecoveryIsExact(st, Undisturbed(st, st', files, next), files, now, next, k, r);
  }

  /**
   The writes not yet published are exactly the last record of the current log: a reader at the
   last sequence sees every earlier batch whole, and nothing of this one.
   */
  ghost predicate BatchBoundary(st: State) {
    && st.lastSequence <= |st.logged| && st.logFileNumber in st.logs
    && (st.lastSequence == |st.logged| ||
        var log := st.logs[st.logFileNumber];
        log != [] && log[|log| - 1] == Record(st.lastSequence + 1, st.logged[st.lastSequence..]))
  }

  lemma StepKeepsBatchBoundary(st: State, st': State)
    requires SequencesOk(st) && LogsOk(st) && BatchBoundary(st) && Next(st, st')
    ensures BatchBoundary(st')
  {
    if ops :| LogBatch(st, st', ops) {
      assert st'.logged[st.lastSequence..] == ops;
    } else if files, now, next :| Recover(st, st', files, now, next) {
      RecoveredSequenceIsLast(st, st'.lastSequence);
    } else if CollectGarbage(st, st') {
      assert st.logFileNumber >= st.logNumber;
    } else if Publish(st, st') || Rotate(st, st') {
    } else {
      OtherStepsKeepLog(st, st');
    }
  }

  lemma OtherStepsKeepLog(st: State, st': State)
    requires Next(st, st') && !Publish(st, st') && !Rotate(st, st') && !CollectGarbage(st, st')
    requires !exists ops :: LogBatch(st, st', ops)
    requires !exists files, now, next :: Recover(st, st', files, now, next)
    ensures st'.logs == st.logs && st'.lastSequence == st.lastSequence && st'.logged == st.logged && st'.logFileNumber == st.logFileNumber
  {
  }

  lemma BoundaryFacts(run: seq<State>, i: nat)
    requires IsRun(run) && i < |run|
    ensures SequencesOk(run[i]) && LogsOk(run[i])
  {
    RunKeepsInv(run, i);
  }

  lemma BoundaryStep(run: seq<State>, i: nat)
    requires IsRun(run) && 0 < i < |run| && BatchBoundary(run[i - 1])
    ensures BatchBoundary(run[i])
  {
    BoundaryFacts(run, i - 1);
    var st, st' := run[i - 1], run[i];
    assert StepAt(run, i);
    StepKeepsBatchBoundary(st, st');
  }

  lemma BoundaryAtStart(run: seq<State>)
    requires IsRun(run)
    ensures BatchBoundary(run[0])
  {
  }

  lemma {:induction false} ReadersSeeWholeBatches(run: seq<State>, i: nat)
    requires IsRun(run) && i < |run|
    ensures BatchBoundary(run[i])
  {
    if i == 0 {
      BoundaryAtStart(run);
    } else {
      ReadersSeeWholeBatches(run, i - 1);
      BoundaryStep(run, i);
    }
  }

  /**
   After garbage collection every table of the current version, of a version an iterator holds
   and of a pending output is still there, and so is every log that recovery would replay.
   */
  lemma GarbageIsUnneeded(st: State, st': State, l: nat, f: File)
    requires Inv(st) && CollectGarbage(st, st')
    ensures l < NUM_LEVELS && f in st.levels[l] ==> f.number in st'.tables
    ensures forall v: Levels, m, g | v in st.pinned && 0 <= m < |v| && g in v[m] :: g.number in st'.tables
    ensures st.pendingOutputs <= st'.tables
    ensures Replayed(st') == Replayed(st)
  {
    CollectGarbageKeepsInv(st, st');
    assert forall n | n in st.logs && n >= st.logNumber :: n in st'.logs && st'.logs[n] == st.logs[n];
  }
}
