/**
 The iterator over the whole database (db/db_impl.cc NewInternalIterator, db/version_set.cc
 AddIterators): what it merges, and that its rows are the history's.
 */
module DbView {
  import opened Options
  import opened Entries
  import opened Versions
  import opened Histories
  import opened Lsm
  import opened LsmRuns
  import opened Merger
  import opened TwoLevel
  import DbIter

  function LevelBlocks(files: seq<File>): (r: seq<seq<Entry>>)
    ensures |r| == |files|
  {
    if files == [] then [] else LevelBlocks(files[..|files| - 1]) + [files[|files| - 1].entries]
  }

  /** LevelFileNumIterator: a file's key is its largest key. */
  function LevelIndex(files: seq<File>): (r: seq<Entry>)
    ensures |r| == |files|
  {
    if files == [] then [] else LevelIndex(files[..|files| - 1]) + [files[|files| - 1].Largest()]
  }

  lemma {:induction false} LevelBlockAt(files: seq<File>, i: nat)
    requires i < |files|
    ensures LevelBlocks(files)[i] == files[i].entries && LevelIndex(files)[i] == files[i].Largest()
  {
    if i < |files| - 1 {
      LevelBlockAt(files[..|files| - 1], i);
    }
  }

  /** A sorted level is a run that the two-level iterator walks. */
  lemma LevelIsIndexed(files: seq<File>)
    requires Disjoint(files)
    ensures Indexed(LevelIndex(files), LevelBlocks(files))
  {
    var (index, blocks) := (LevelIndex(files), LevelBlocks(files));
    forall i, e | 0 <= i < |index| && e in blocks[i] ensures !Lt(index[i], e) {
      LevelBlockAt(files, i);
      FileBounds(files[i], e);
    }
    forall i, j, e | 0 <= i < j < |index| && e in blocks[j] ensures Lt(index[i], e) {
      LevelBlockAt(files, i);
      LevelBlockAt(files, j);
      FileBounds(files[j], e);
      assert FileLt(files[i], files[j]);
    }
  }

  lemma {:induction false} BlocksHold(files: seq<File>)
    ensures SetOf(Concat(LevelBlocks(files))) == FilesEntries(files)
  {
    if files != [] {
      var (rest, f) := (files[..|files| - 1], files[|files| - 1]);
      BlocksHold(rest);
      assert LevelBlocks(files)[..|files| - 1] == LevelBlocks(rest);
      assert forall g :: g in files <==> g in rest || g == f;
      assert SetOf(Concat(LevelBlocks(files))) == SetOf(Concat(LevelBlocks(rest))) + SetOf(f.entries);
      assert FilesEntries(files) == FilesEntries(rest) + SetOf(f.entries);
    }
  }

  lemma {:induction false} LevelIsRun(files: seq<File>)
    requires Disjoint(files)
    ensures Sorted(Concat(LevelBlocks(files)))
  {
    if files != [] {
      var (rest, f) := (files[..|files| - 1], files[|files| - 1]);
      LevelIsRun(rest);
      BlocksHold(rest);
      assert LevelBlocks(files)[..|files| - 1] == LevelBlocks(rest);
      var (a, b) := (Concat(LevelBlocks(rest)), f.entries);
      forall x, y | x in a && y in b ensures Lt(x, y) {
        assert x in SetOf(a);
        var g :| g in rest && x in g.entries;
        var i :| 0 <= i < |rest| && rest[i] == g;
        assert FileLt(files[i], files[|files| - 1]);
        FileBounds(g, x);
        FileBounds(f, y);
      }
      SortedAppend(a, b);
    }
  }

  lemma SortedAppend(a: seq<Entry>, b: seq<Entry>)
    requires Sorted(a) && Sorted(b) && forall x, y | x in a && y in b :: Lt(x, y)
    ensures Sorted(a + b)
  {
  }

  /** No entry of one set has both user key and sequence number of an entry of the other. */
  ghost predicate Apart(S: set<Entry>, T: set<Entry>) {
    forall x, y | x in S && y in T :: x.user != y.user || x.sn != y.sn
  }

  /** Sorted runs with no key in common that make up S. */
  ghost predicate RunsOf(runs: seq<seq<Entry>>, S: set<Entry>) {
    && (forall r | r in runs :: Sorted(r))
    && (forall i, j | 0 <= i < j < |runs| :: Apart(SetOf(runs[i]), SetOf(runs[j])))
    && (forall e :: e in S <==> exists i :: 0 <= i < |runs| && e in runs[i])
  }

  lemma AddRun(runs: seq<seq<Entry>>, S: set<Entry>, r: seq<Entry>)
    requires RunsOf(runs, S) && Sorted(r) && Apart(S, SetOf(r))
    ensures RunsOf(runs + [r], S + SetOf(r))
  {
    var more := runs + [r];
    forall i, j | 0 <= i < j < |more| ensures Apart(SetOf(more[i]), SetOf(more[j])) {
      assert forall e | e in more[i] :: e in S;
    }
    forall e ensures e in S + SetOf(r) <==> exists i :: 0 <= i < |more| && e in more[i] {
      if i :| 0 <= i < |runs| && e in runs[i] { assert e in more[i]; }
      if e in r { assert e in more[|runs|]; }
    }
  }

  /** Every level-0 file is a run of its own. */
  ghost function LevelZeroRuns(files: seq<File>): seq<seq<Entry>> {
    LevelBlocks(files)
  }

  ghost function DeepRuns(levels: Levels, n: nat): seq<seq<Entry>>
    requires n <= |levels|
  {
    if n <= 1 then [] else DeepRuns(levels, n - 1) + if levels[n - 1] == [] then [] else [Concat(LevelBlocks(levels[n - 1]))]
  }

  /** The children of the database iterator. */
  ghost function InternalRuns(st: State): seq<seq<Entry>>
    requires |st.levels| == NUM_LEVELS
  {
    [st.mem] + (match st.imm case Some(es) => [es] case None => []) + LevelZeroRuns(st.levels[0]) + DeepRuns(st.levels, NUM_LEVELS)
  }

  ghost function EntriesTo(levels: Levels, n: nat): set<Entry>
    requires n <= |levels|
  {
    LevelsEntries(levels[..n])
  }

  lemma EntriesToStep(levels: Levels, n: nat)
    requires n < |levels|
    ensures EntriesTo(levels, n + 1) == EntriesTo(levels, n) + FilesEntries(levels[n])
  {
    assert levels[..n + 1] == levels[..n] + [levels[n]];
  }

  lemma {:induction false} LevelZeroApart(runs: seq<seq<Entry>>, S: set<Entry>, files: seq<File>)
    requires RunsOf(runs, S) && LevelOk(0, files) && Apart(S, FilesEntries(files))
    ensures RunsOf(runs + LevelZeroRuns(files), S + FilesEntries(files))
  {
    if files == [] {
      assert runs + LevelZeroRuns(files) == runs && S + FilesEntries(files) == S;
    } else {
      var (rest, f) := (files[..|files| - 1], files[|files| - 1]);
      assert forall g :: g in files <==> g in rest || g == f;
      LevelZeroApart(runs, S, rest);
      forall x, y | x in FilesEntries(rest) && y in f.entries && x.user == y.user ensures x.sn != y.sn {
        var g :| g in rest && x in g.entries;
        var i :| 0 <= i < |rest| && rest[i] == g;
        assert files[i].number != files[|files| - 1].number;
        assert Newer(g.entries, f.entries) || Newer(f.entries, g.entries);
      }
      assert forall y | y in f.entries :: y in FilesEntries(files);
      AddRun(runs + LevelZeroRuns(rest), S + FilesEntries(rest), f.entries);
      assert runs + LevelZeroRuns(rest) + [f.entries] == runs + LevelZeroRuns(files);
      assert S + FilesEntries(rest) + SetOf(f.entries) == S + FilesEntries(files);
    }
  }

  lemma LevelsApart(levels: Levels, n: nat)
    requires LevelsOk(levels) && n < NUM_LEVELS
    ensures Apart(EntriesTo(levels, n), FilesEntries(levels[n]))
  {
    forall x, y | x in EntriesTo(levels, n) && y in FilesEntries(levels[n]) && x.user == y.user ensures x.sn != y.sn {
      var l, f :| 0 <= l < n && f in levels[..n][l] && x in f.entries;
      var g :| g in levels[n] && y in g.entries;
      assert Newer(f.entries, g.entries);
    }
  }

  lemma DeepStep(before: seq<seq<Entry>>, S: set<Entry>, files: seq<File>)
    requires RunsOf(before, S) && Disjoint(files) && Apart(S, FilesEntries(files))
    ensures RunsOf(before + if files == [] then [] else [Concat(LevelBlocks(files))], S + FilesEntries(files))
  {
    if files == [] {
      assert before + [] == before && S + FilesEntries(files) == S;
    } else {
      LevelIsRun(files);
      BlocksHold(files);
      AddRun(before, S, Concat(LevelBlocks(files)));
    }
  }

  lemma ApartFromLevel(S: set<Entry>, levels: Levels, n: nat)
    requires LevelsOk(levels) && n < NUM_LEVELS && Apart(S, LevelsEntries(levels))
    ensures Apart(S + EntriesTo(levels, n), FilesEntries(levels[n]))
  {
    LevelsApart(levels, n);
    assert FilesEntries(levels[n]) <= LevelsEntries(levels);
  }

  lemma {:induction false} DeepRunsApart(runs: seq<seq<Entry>>, S: set<Entry>, levels: Levels, n: nat)
    requires LevelsOk(levels) && 1 <= n <= NUM_LEVELS
    requires RunsOf(runs, S + FilesEntries(levels[0])) && Apart(S, LevelsEntries(levels))
    ensures RunsOf(runs + DeepRuns(levels, n), S + EntriesTo(levels, n))
  {
    if n == 1 {
      NoDeepRuns(runs, S, levels);
    } else {
      DeepRunsApart(runs, S, levels, n - 1);
      ApartFromLevel(S, levels, n - 1);
      DeepRunsStep(runs, S, levels, n);
    }
  }

  lemma NoDeepRuns(runs: seq<seq<Entry>>, S: set<Entry>, levels: Levels)
    requires levels != []
    ensures runs + DeepRuns(levels, 1) == runs && S + EntriesTo(levels, 1) == S + FilesEntries(levels[0])
  {
    EntriesToStep(levels, 0);
    assert EntriesTo(levels, 0) == {};
  }

  lemma DeepRunsStep(runs: seq<seq<Entry>>, S: set<Entry>, levels: Levels, n: nat)
    requires 1 < n <= |levels| && LevelOk(n - 1, levels[n - 1])
    requires RunsOf(runs + DeepRuns(levels, n - 1), S + EntriesTo(levels, n - 1))
    requires Apart(S + EntriesTo(levels, n - 1), FilesEntries(levels[n - 1]))
    ensures RunsOf(runs + DeepRuns(levels, n), S + EntriesTo(levels, n))
  {
    var (files, before) := (levels[n - 1], runs + DeepRuns(levels, n - 1));
    DeepStep(before, S + EntriesTo(levels, n - 1), files);
    EntriesToStep(levels, n - 1);
    assert before + (if files == [] then [] else [Concat(LevelBlocks(files))]) == runs + DeepRuns(levels, n);
    assert S + EntriesTo(levels, n - 1) + FilesEntries(files) == S + EntriesTo(levels, n);
  }

  // ---- The whole database ----

  /** Memtables hold distinct intervals of the history, tables older entries than both. */
  lemma UpperRuns(st: State) returns (runs: seq<seq<Entry>>)
    requires SequencesOk(st) && EntriesOk(st)
    ensures runs == [st.mem] + match st.imm case Some(es) => [es] case None => []
    ensures RunsOf(runs, Upper(st)) && Apart(Upper(st), LevelsEntries(st.levels))
  {
    assert RunsOf([], {});
    AddRun([], {}, st.mem);
    assert [] + [st.mem] == [st.mem] && {} + SetOf(st.mem) == SetOf(st.mem);
    runs := [st.mem];
    match st.imm {
      case Some(es) =>
        assert Apart(SetOf(st.mem), ImmSet(st));
        AddRun(runs, SetOf(st.mem), es);
        runs := runs + [es];
      case None =>
        assert Upper(st) == SetOf(st.mem);
    }
  }

  /** The children of the database iterator are runs without a common key, holding what a read may meet. */
  lemma InternalRunsOf(st: State)
    requires SequencesOk(st) && EntriesOk(st)
    ensures RunsOf(InternalRuns(st), All(st))
  {
    var upper := UpperRuns(st);
    var (S, levels) := (Upper(st), st.levels);
    assert FilesEntries(levels[0]) <= LevelsEntries(levels);
    LevelZeroApart(upper, S, levels[0]);
    DeepRunsApart(upper + LevelZeroRuns(levels[0]), S, levels, NUM_LEVELS);
    assert levels[..NUM_LEVELS] == levels;
  }

  lemma RunsMerge(runs: seq<seq<Entry>>, S: set<Entry>, es: seq<Entry>)
    requires RunsOf(runs, S) && Sorted(es) && SetOf(es) == S
    ensures Merges(runs, es)
  {
    forall i, j, x, y | 0 <= i < j < |runs| && x in runs[i] && y in runs[j] ensures x.user != y.user || x.sn != y.sn {
      assert x in SetOf(runs[i]) && y in SetOf(runs[j]);
    }
    forall e ensures e in es <==> e in S {
      assert e in SetOf(es) <==> e in es;
    }
  }

  /** The merging iterator over the database's children walks everything a read may meet, in order. */
  lemma DatabaseMerges(st: State, es: seq<Entry>)
    requires Reachable(st) && Sorted(es) && SetOf(es) == All(st)
    ensures |st.levels| == NUM_LEVELS && Merges(InternalRuns(st), es)
  {
    ReachableHasInv(st);
    InternalRunsOf(st);
    RunsMerge(InternalRuns(st), All(st), es);
  }

  /** What a user iterates over at a live sequence is the history's map, in key order. */
  lemma IterationShowsHistory(st: State, es: seq<Entry>, s: nat, k: UserKey, v: Value)
    requires Reachable(st) && Live(st, s) && Sorted(es) && SetOf(es) == All(st)
    ensures (k, v) in DbIter.Rows(es, s) <==> HistoryGet(st.logged, k, s) == Some(v)
  {
    ReachableHasInv(st);
    var r := AnswerExists(SetOf(es), k, s);
    LiveReadsAreRight(st, k, s, r);
    DbIter.RowsAreTheReads(es, s);
  }
}
