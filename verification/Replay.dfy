/**
 Reading the logs back into level-0 tables when the database is opened (db/db_impl.cc RecoverLogFile and
 Recover): the logs in the order of their numbers, each record's writes into a memtable under the numbers
 that the record gives them, and the memtable into a table whenever it has grown too large and at the end
 of each log. The tables come out in the order of the writes, under ascending numbers.
 */
module Replays {
  import opened Entries
  import opened Versions
  import opened Histories
  import opened Lsm
  import opened Memtables

  /** Tables written one after the other: ascending numbers, and later ones hold later writes. */
  ghost predicate InSequence(files: seq<File>, lo: nat, next: nat) {
    && (forall i | 0 <= i < |files| :: lo < files[i].number < next)
    && (forall i, j | 0 <= i < j < |files| :: files[i].number < files[j].number)
    && (forall i, j, x, y | 0 <= i < j < |files| && x in files[i].entries && y in files[j].entries :: x.sn < y.sn)
  }

  /** What has been replayed so far: tables, then the memtable being filled. */
  ghost predicate ReplayedTo(files: seq<File>, mem: seq<Entry>, h: seq<Op>, from: nat, c: nat, lo: nat, next: nat) {
    && InSequence(files, lo, next) && Sorted(mem) && lo < next
    && Holds(FilesEntries(files) + SetOf(mem), h, from, c)
    && (forall x, y | x in FilesEntries(files) && y in mem :: x.sn < y.sn)
  }

  /** The part of a log before record i, and what record i adds. */
  lemma {:induction false} LogPrefix(log: seq<Record>, h: seq<Op>, a: nat, b: nat, i: nat) returns (c: nat)
    requires LogHolds(log, h, a, b) && i <= |log|
    ensures LogHolds(log[..i], h, a, c) && c <= b && (i == |log| ==> c == b)
    ensures i < |log| ==> c + |log[i].ops| <= b && log[i].ops == h[c..c + |log[i].ops|] && log[i].sequence == c + 1
    decreases |log|
  {
    if i == |log| {
      c := b;
      assert log[..i] == log;
    } else {
      var m := |log| - 1;
      var r := log[m];
      if i == m {
        c := b - |r.ops|;
      } else {
        c := LogPrefix(log[..m], h, a, b - |r.ops|, i);
        assert log[..m][..i] == log[..i];
      }
    }
  }

  lemma LogPrefixUnique(log: seq<Record>, h: seq<Op>, a: nat, b: nat, c: nat)
    requires LogHolds(log, h, a, b) && LogHolds(log, h, a, c)
    ensures b == c
    decreases |log|
  {
    if log != [] {
      LogPrefixUnique(log[..|log| - 1], h, a, b - |log[|log| - 1].ops|, c - |log[|log| - 1].ops|);
    }
  }

  /** Reading on from a prefix that covers the writes up to c. */
  lemma NextRecord(log: seq<Record>, h: seq<Op>, a: nat, b: nat, i: nat, c: nat)
    requires LogHolds(log, h, a, b) && i <= |log| && LogHolds(log[..i], h, a, c)
    ensures c <= b && (i == |log| ==> c == b)
    ensures i < |log| ==> c + |log[i].ops| <= b && log[i].ops == h[c..c + |log[i].ops|] && log[i].sequence == c + 1
    ensures i < |log| ==> LogHolds(log[..i + 1], h, a, c + |log[i].ops|)
  {
    var c' := LogPrefix(log, h, a, b, i);
    LogPrefixUnique(log[..i], h, a, c, c');
    if i < |log| { assert log[..i + 1][..i] == log[..i]; }
  }

  lemma MemIsTable(files: seq<File>, mem: seq<Entry>, h: seq<Op>, from: nat, c: nat, lo: nat, next: nat, size: nat)
    requires ReplayedTo(files, mem, h, from, c, lo, next) && |h| <= MAX_SEQUENCE_NUMBER && mem != []
    ensures Table(next, size, mem).Valid()
  {
    forall e | e in mem ensures e.sn <= MAX_SEQUENCE_NUMBER {
      assert e in FilesEntries(files) + SetOf(mem);
    }
  }

  lemma OneMoreTable(files: seq<File>, f: File, lo: nat, next: nat)
    requires InSequence(files, lo, next) && lo < next == f.number
    requires forall x, y | x in FilesEntries(files) && y in f.entries :: x.sn < y.sn
    ensures InSequence(files + [f], lo, next + 1)
  {
    forall i, x | 0 <= i < |files| && x in files[i].entries ensures x in FilesEntries(files) {
      assert files[i] in files;
    }
  }

  lemma TableWritten(files: seq<File>, f: File, h: seq<Op>, from: nat, c: nat, lo: nat, next: nat)
    requires ReplayedTo(files, f.entries, h, from, c, lo, next) && f.number == next
    ensures ReplayedTo(files + [f], [], h, from, c, lo, next + 1)
  {
    OneMoreTable(files, f, lo, next);
    assert f in files + [f] && forall g | g in files :: g in files + [f];
    assert FilesEntries(files + [f]) + SetOf([]) == FilesEntries(files) + SetOf(f.entries);
  }

  /** Flush the memtable, if it holds anything, to the next table. */
  method WriteTable(files: seq<File>, mem: seq<Entry>, next: nat, ghost h: seq<Op>, ghost from: nat, ghost c: nat, ghost lo: nat)
      returns (files': seq<File>, next': nat)
    requires ReplayedTo(files, mem, h, from, c, lo, next) && |h| <= MAX_SEQUENCE_NUMBER
    ensures ReplayedTo(files', [], h, from, c, lo, next') && next' == next + 1
    ensures if mem == [] then files' == files else |files'| == |files| + 1 && files <= files' && files'[|files|].number == next && files'[|files|].entries == mem
  {
    var size: nat :| true;
    files', next' := files, next + 1;
    if mem != [] {
      MemIsTable(files, mem, h, from, c, lo, next, size);
      var t := Table(next, size, mem);
      assert t.Valid();
      var f: File := t;
      TableWritten(files, f, h, from, c, lo, next);
      files' := files + [f];
    }
  }

  lemma WriteReplayed(files: seq<File>, mem: seq<Entry>, h: seq<Op>, from: nat, c: nat, lo: nat, next: nat)
    requires ReplayedTo(files, mem, h, from, c, lo, next) && c < |h|
    ensures ReplayedTo(files, InsertEntry(mem, EntryOf(h, c)), h, from, c + 1, lo, next)
  {
    var e := EntryOf(h, c);
    var mem' := InsertEntry(mem, e);
    forall x | x in mem ensures x.sn <= c {
      assert x in FilesEntries(files) + SetOf(mem);
    }
    InsertEntrySorted(mem, e);
    assert FilesEntries(files) + SetOf(mem') == FilesEntries(files) + SetOf(mem) + {e};
    forall x, y | x in FilesEntries(files) && y in mem' ensures x.sn < y.sn {
      assert y in SetOf(mem');
      assert x in FilesEntries(files) + SetOf(mem);
    }
  }

  lemma RecordWriteReplayed(r: Record, i: nat, files: seq<File>, mem: seq<Entry>, h: seq<Op>, from: nat, c: nat, lo: nat, next: nat)
    requires ReplayedTo(files, mem, h, from, c + i, lo, next)
    requires i < |r.ops| && c + |r.ops| <= |h| && r.ops == h[c..c + |r.ops|] && r.sequence == c + 1
    ensures ReplayedTo(files, InsertEntry(mem, Entry(r.ops[i].key, r.sequence + i, r.ops[i].value)), h, from, c + (i + 1), lo, next)
  {
    assert r.ops[i] == h[c + i];
    WriteReplayed(files, mem, h, from, c + i, lo, next);
  }

  /** InsertInto: the batch's writes go to the memtable, numbered from the record's sequence. */
  method InsertInto(r: Record, mem: seq<Entry>, ghost files: seq<File>, ghost next: nat, ghost h: seq<Op>, ghost from: nat, ghost c: nat, ghost lo: nat)
      returns (mem': seq<Entry>)
    requires ReplayedTo(files, mem, h, from, c, lo, next)
    requires c + |r.ops| <= |h| && r.ops == h[c..c + |r.ops|] && r.sequence == c + 1
    ensures ReplayedTo(files, mem', h, from, c + |r.ops|, lo, next)
  {
    mem' := mem;
    for i := 0 to |r.ops|
      invariant ReplayedTo(files, mem', h, from, c + i, lo, next)
    {
      var e := Entry(r.ops[i].key, r.sequence + i, r.ops[i].value);
      RecordWriteReplayed(r, i, files, mem', h, from, c, lo, next);
      mem' := InsertEntry(mem', e);
    }
  }

  /** One record: its writes go to the memtable, which may go to a table; the highest number is kept. */
  method ReplayRecord(r: Record, files: seq<File>, mem: seq<Entry>, next: nat, maxSequence: nat,
                      ghost h: seq<Op>, ghost from: nat, ghost c: nat, ghost lo: nat)
      returns (files': seq<File>, mem': seq<Entry>, next': nat, maxSequence': nat)
    requires ReplayedTo(files, mem, h, from, c, lo, next) && |h| <= MAX_SEQUENCE_NUMBER
    requires c + |r.ops| <= |h| && r.ops == h[c..c + |r.ops|] && r.sequence == c + 1
    requires maxSequence <= c && (from < c ==> maxSequence == c)
    ensures ReplayedTo(files', mem', h, from, c + |r.ops|, lo, next') && next <= next'
    ensures maxSequence' <= c + |r.ops| && (from < c + |r.ops| ==> maxSequence' == c + |r.ops|)
  {
    var inserted := InsertInto(r, mem, files, next, h, from, c, lo);
    maxSequence' := if r.sequence + |r.ops| - 1 > maxSequence then r.sequence + |r.ops| - 1 else maxSequence;
    files', next', mem' := MaybeWriteTable(files, inserted, next, h, from, c + |r.ops|, lo);
  }

  /**
   RecoverLogFile: replay the records into a memtable that goes to a table whenever it is full,
   and at the end of the log.
   */
  method RecoverLogFile(log: seq<Record>, files: seq<File>, next: nat, maxSequence: nat,
                        ghost h: seq<Op>, ghost from: nat, ghost a: nat, ghost b: nat, ghost lo: nat)
      returns (files': seq<File>, next': nat, maxSequence': nat)
    requires ReplayedTo(files, [], h, from, a, lo, next) && LogHolds(log, h, a, b) && |h| <= MAX_SEQUENCE_NUMBER
    requires maxSequence <= a && (from < a ==> maxSequence == a)
    ensures ReplayedTo(files', [], h, from, b, lo, next') && next <= next'
    ensures maxSequence' <= b && (from < b ==> maxSequence' == b)
  {
    files', next', maxSequence' := files, next, maxSequence;
    var mem: seq<Entry> := [];
    ghost var c: nat := a;
    for i := 0 to |log|
      invariant LogHolds(log[..i], h, a, c)
      invariant ReplayedTo(files', mem, h, from, c, lo, next') && next <= next'
      invariant maxSequence' <= c && (from < c ==> maxSequence' == c)
    {
      var r := log[i];
      NextRecord(log, h, a, b, i, c);
      files', mem, next', maxSequence' := ReplayRecord(r, files', mem, next', maxSequence', h, from, c, lo);
      c := c + |r.ops|;
    }
    assert log[..|log|] == log;
    NextRecord(log, h, a, b, |log|, c);
    if mem != [] {
      files', next' := WriteTable(files', mem, next', h, from, c, lo);
    }
  }

  /** The memtable is flushed early when it has grown too large; when that is, is left open. */
  method MaybeWriteTable(files: seq<File>, mem: seq<Entry>, next: nat, ghost h: seq<Op>, ghost from: nat, ghost c: nat, ghost lo: nat)
      returns (files': seq<File>, next': nat, mem': seq<Entry>)
    requires ReplayedTo(files, mem, h, from, c, lo, next) && |h| <= MAX_SEQUENCE_NUMBER
    ensures ReplayedTo(files', mem', h, from, c, lo, next') && next <= next'
  {
    files', next', mem' := files, next, mem;
    if * {
      files', next' := WriteTable(files, mem, next, h, from, c, lo);
      mem' := [];
    }
  }

  // ---- All logs ----

  ghost predicate Ascending(ns: seq<nat>) {
    forall i, j | 0 <= i < j < |ns| :: ns[i] < ns[j]
  }

  /** The log numbers in the order in which the logs were written. */
  method SortedNumbers(s: set<nat>) returns (ns: seq<nat>)
    ensures Ascending(ns) && forall n :: n in ns <==> n in s
  {
    ns := [];
    var rest := s;
    while rest != {}
      invariant rest <= s && Ascending(ns) && forall n :: n in ns <==> n in s - rest
      invariant forall m, n | m in ns && n in rest :: n < m
      decreases |rest|
    {
      ghost var _ := LargestExists(rest);
      var m: nat :| m in rest && forall n | n in rest :: n <= m;
      forall n ensures n in [m] + ns <==> n in s - (rest - {m}) {
        assert n in [m] + ns <==> n == m || n in ns;
      }
      assert forall i | 0 <= i < |ns| :: ns[i] in ns;
      ns, rest := [m] + ns, rest - {m};
    }
  }

  lemma {:induction false} LargestExists(s: set<nat>) returns (m: nat)
    requires s != {}
    ensures m in s && forall n | n in s :: n <= m
  {
    m :| m in s;
    var t := s - {m};
    assert s == t + {m};
    if t != {} {
      var n := LargestExists(t);
      m := if m < n then n else m;
    }
  }

  function LiveLogs(logs: map<nat, seq<Record>>, logNumber: nat): set<nat> {
    set n | n in logs && n >= logNumber
  }

  /** Where in the history each of the logs that recovery reads begins. */
  ghost predicate Cuts(logs: map<nat, seq<Record>>, ns: seq<nat>, h: seq<Op>, cuts: seq<nat>) {
    && |cuts| == |ns| + 1 && cuts[|ns|] == |h| < MAX_SEQUENCE_NUMBER
    && forall i | 0 <= i < |ns| :: ns[i] in logs && LogHolds(logs[ns[i]], h, cuts[i], cuts[i + 1])
  }

  lemma RecoveryOrder(st: State, ns: seq<nat>) returns (cuts: seq<nat>)
    requires LogsOk(st) && SequencesOk(st)
    requires Ascending(ns) && forall n :: n in ns <==> n in LiveLogs(st.logs, st.logNumber)
    ensures Cuts(st.logs, ns, st.logged, cuts) && cuts[0] == st.flushed
  {
    var (a, b) := (st.logNumber, st.logFileNumber);
    assert a in ns && b in ns && forall i | 0 <= i < |ns| :: ns[i] in ns;
    OneOrTwo(ns, a, b);
    cuts := if st.imm.None? then [st.flushed, |st.logged|] else [st.flushed, st.rotated, |st.logged|];
  }

  lemma OneOrTwo(ns: seq<nat>, a: nat, b: nat)
    requires Ascending(ns) && a <= b && forall n :: n in ns <==> n == a || n == b
    ensures ns == if a == b then [a] else [a, b]
  {
    assert a in ns && b in ns && forall i | 0 <= i < |ns| :: ns[i] in ns;
    if |ns| > 1 {
      var last := ns[|ns| - 1];
      assert ns[0] < ns[1] <= last;
    }
  }

  /** Recover all the logs, and count their numbers as used. */
  method RecoverLogs(logs: map<nat, seq<Record>>, ns: seq<nat>, manifestNext: nat, ghost h: seq<Op>, ghost cuts: seq<nat>)
      returns (files: seq<File>, next: nat, maxSequence: nat)
    requires Cuts(logs, ns, h, cuts) && cuts[0] <= |h|
    ensures ReplayedTo(files, [], h, cuts[0], |h|, manifestNext, next) && forall n | n in ns :: n < next
    ensures maxSequence <= |h| && (cuts[0] < |h| ==> maxSequence == |h|)
  {
    files, next, maxSequence := [], manifestNext + 1, 0;
    assert FilesEntries(files) + SetOf([]) == {};
    for i := 0 to |ns|
      invariant ReplayedTo(files, [], h, cuts[0], cuts[i], manifestNext, next)
      invariant forall j | 0 <= j < i :: ns[j] < next
      invariant maxSequence <= cuts[i] && (cuts[0] < cuts[i] ==> maxSequence == cuts[i])
    {
      files, next, maxSequence := RecoverLogFile(logs[ns[i]], files, next, maxSequence, h, cuts[0], cuts[i], cuts[i + 1], manifestNext);
      if next <= ns[i] {
        LaterNext(files, h, cuts[0], cuts[i + 1], manifestNext, next, ns[i] + 1);
        next := ns[i] + 1;
      }
    }
  }

  lemma LaterNext(files: seq<File>, h: seq<Op>, from: nat, c: nat, lo: nat, next: nat, next': nat)
    requires ReplayedTo(files, [], h, from, c, lo, next) && next <= next'
    ensures ReplayedTo(files, [], h, from, c, lo, next')
  {
  }
}
