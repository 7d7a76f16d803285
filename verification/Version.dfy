/**
 Table files, the levels of a version, and the read path over them (db/version_set.cc). Level 0 may hold
 overlapping files, of which the one with the higher number is newer; every deeper level is sorted and
 disjoint, so that a binary search finds the one file that may hold a key. A smaller level holds the newer
 entries of a user key, which is why a read may stop at the first level that knows it.
 */
module Versions {
  import opened Options
  import opened Entries

  const NUM_LEVELS: nat := 7
  const MAX_MEM_COMPACT_LEVEL: nat := 2

  /** A table file's metadata together with the entries written to it. */
  datatype Table = Table(number: nat, size: nat, entries: seq<Entry>) {
    predicate Valid() {
      entries != [] && Sorted(entries) && forall e | e in entries :: e.sn <= MAX_SEQUENCE_NUMBER
    }

    function Smallest(): Entry
      requires entries != []
    {
      entries[0]
    }

    function Largest(): Entry
      requires entries != []
    {
      entries[|entries| - 1]
    }
  }

  type File = f: Table | f.Valid() witness Table(0, 0, [Entry(0, 0, None)])

  type Levels = seq<seq<File>>

  /** Order of the builder's file sets: by smallest key, ties by file number. */
  predicate SmallestLt(f: File, g: File)
  {
    Lt(f.Smallest(), g.Smallest()) ||
    (f.Smallest().user == g.Smallest().user && f.Smallest().sn == g.Smallest().sn && f.number < g.number)
  }

  /** Every key of f sorts before every key of g. */
  predicate FileLt(f: File, g: File)
  {
    Lt(f.Largest(), g.Smallest())
  }

  ghost predicate SortedBySmallest(files: seq<File>)
  {
    forall i, j | 0 <= i < j < |files| :: SmallestLt(files[i], files[j])
  }

  ghost predicate Disjoint(files: seq<File>)
  {
    forall i, j | 0 <= i < j < |files| :: FileLt(files[i], files[j])
  }

  ghost predicate DistinctNumbers(files: seq<File>) {
    forall i, j | 0 <= i < j < |files| :: files[i].number != files[j].number
  }

  /** A level is sorted; below level 0 its files do not overlap; in level 0 newer files have higher numbers. */
  ghost predicate LevelOk(l: nat, files: seq<File>) {
    && SortedBySmallest(files)
    && DistinctNumbers(files)
    && (l > 0 ==> Disjoint(files))
    && (l == 0 ==> forall f, g | f in files && g in files && f.number > g.number :: Newer(f.entries, g.entries))
  }

  /** Entries never hop across levels: a smaller level holds the newer entries of a user key. */
  ghost predicate LevelsOk(levels: Levels) {
    && |levels| == NUM_LEVELS
    && (forall l | 0 <= l < NUM_LEVELS :: LevelOk(l, levels[l]))
    && (forall l, m, f, g | 0 <= l < m < NUM_LEVELS && f in levels[l] && g in levels[m] :: Newer(f.entries, g.entries))
  }

  ghost function FilesEntries(files: seq<File>): set<Entry> {
    set f, e | f in files && e in f.entries :: e
  }

  ghost function LevelsEntries(levels: Levels): set<Entry> {
    set l, f, e | 0 <= l < |levels| && f in levels[l] && e in f.entries :: e
  }

  lemma FileBounds(f: File, e: Entry)
    requires e in f.entries
    ensures e == f.Smallest() || Lt(f.Smallest(), e)
    ensures e == f.Largest() || Lt(e, f.Largest())
    ensures f.Smallest().user <= e.user <= f.Largest().user
  {
    var i :| 0 <= i < |f.entries| && f.entries[i] == e;
  }

  /** Binary search for the first file whose largest key is at or after the lookup key. */
  method FindFile(files: seq<File>, k: UserKey, s: nat) returns (index: nat)
    requires Disjoint(files)
    ensures index <= |files|
    ensures forall i | 0 <= i < index :: Before(files[i].Largest(), k, s)
    ensures forall i | index <= i < |files| :: !Before(files[i].Largest(), k, s)
  {
    var left, right := 0, |files|;
    while left < right
      invariant 0 <= left <= right <= |files|
      invariant forall i | 0 <= i < left :: Before(files[i].Largest(), k, s)
      invariant forall i | right <= i < |files| :: !Before(files[i].Largest(), k, s)
    {
      var mid := (left + right) / 2;
      if Before(files[mid].Largest(), k, s) {
        forall i | 0 <= i < mid ensures Before(files[i].Largest(), k, s) {
          FileBounds(files[mid], files[mid].Smallest());
          assert FileLt(files[i], files[mid]);
        }
        left := mid + 1;
      } else {
        forall i | mid < i < |files| ensures !Before(files[i].Largest(), k, s) {
          FileBounds(files[i], files[i].Smallest());
          assert FileLt(files[mid], files[i]);
        }
        right := mid;
      }
    }
    index := right;
  }

  /** The user range of the file meets [lo, hi]; a missing bound is unlimited. */
  predicate Overlaps(f: File, lo: Option<UserKey>, hi: Option<UserKey>)
  {
    (lo.Some? ==> lo.value <= f.Largest().user) && (hi.Some? ==> f.Smallest().user <= hi.value)
  }

  predicate AfterFile(k: Option<UserKey>, f: File)
  {
    k.Some? && k.value > f.Largest().user
  }

  predicate BeforeFile(k: Option<UserKey>, f: File)
  {
    k.Some? && k.value < f.Smallest().user
  }

  /** Linear search over overlapping files, binary search over sorted disjoint ones. */
  method SomeFileOverlapsRange(disjointSorted: bool, files: seq<File>, lo: Option<UserKey>, hi: Option<UserKey>)
      returns (found: bool)
    requires (disjointSorted ==> Disjoint(files))
    ensures found <==> exists f :: f in files && Overlaps(f, lo, hi)
  {
    if !disjointSorted {
      for i := 0 to |files|
        invariant forall j | 0 <= j < i :: !Overlaps(files[j], lo, hi)
      {
        if AfterFile(lo, files[i]) || BeforeFile(hi, files[i]) {
        } else {
          assert Overlaps(files[i], lo, hi);
          return true;
        }
      }
      return false;
    }
    var index := 0;
    if lo.Some? {
      index := FindFile(files, lo.value, MAX_SEQUENCE_NUMBER);
      forall i | 0 <= i < index ensures !Overlaps(files[i], lo, hi) {
        assert files[i].Largest().sn <= MAX_SEQUENCE_NUMBER;
      }
    }
    if index >= |files| {
      return false;
    }
    found := !BeforeFile(hi, files[index]);
    if found {
      assert Overlaps(files[index], lo, hi);
    } else {
      forall i | index <= i < |files| ensures !Overlaps(files[i], lo, hi) {
        FileBounds(files[index], files[index].Largest());
        if index < i { assert FileLt(files[index], files[i]); }
      }
    }
  }

  /** No file of the list holds a version of k at or below s. */
  ghost predicate Absent(files: seq<File>, k: UserKey, s: nat) {
    forall f, e | f in files && e in f.entries && e.user == k :: s < e.sn
  }

  ghost predicate DescendingNumbers(files: seq<File>) {
    forall i, j | 0 <= i < j < |files| :: files[i].number > files[j].number
  }

  /** The NewestFirst sort of the overlapping level-0 files. */
  function NewestFirst(files: seq<File>): (r: seq<File>)
    requires DistinctNumbers(files)
    ensures DescendingNumbers(r)
    ensures forall f :: f in r <==> f in files
  {
    if files == [] then [] else
      var rest := NewestFirst(files[1..]);
      assert forall f :: f in files <==> f == files[0] || f in files[1..];
      InsertNewest(files[0], rest)
  }

  function InsertNewest(f: File, r: seq<File>): (r': seq<File>)
    requires DescendingNumbers(r) && forall g | g in r :: g.number != f.number
    ensures DescendingNumbers(r')
    ensures forall g :: g in r' <==> g == f || g in r
  {
    if r == [] || f.number > r[0].number then
      [f] + r
    else
      assert forall g :: g in r <==> g == r[0] || g in r[1..];
      var t := InsertNewest(f, r[1..]);
      assert r[0] in r && forall g | g in r[1..] :: g.number < r[0].number;
      assert forall j | 0 <= j < |t| :: t[j] in t;
      [r[0]] + t
  }

  /** Search the files in turn until one knows the key. */
  method SearchInOrder(files: seq<File>, k: UserKey, s: nat) returns (r: Option<Entry>, ghost at: nat)
    requires forall i | 0 <= i < |files| :: Sorted(files[i].entries)
    ensures r.None? ==> Absent(files, k, s)
    ensures r.Some? ==> at < |files| && Absent(files[..at], k, s) && Answers(r, SetOf(files[at].entries), k, s)
  {
    for i := 0 to |files|
      invariant Absent(files[..i], k, s)
    {
      var f := files[i];
      r, at := Seek(f.entries, k, s), i;
      SeekAnswers(f.entries, k, s);
      if r.Some? { return; }
      AbsentFromOneMore(files, i, k, s);
    }
    assert files[..|files|] == files;
    r, at := None, 0;
  }

  lemma AbsentFromOneMore(files: seq<File>, i: nat, k: UserKey, s: nat)
    requires i < |files| && Absent(files[..i], k, s) && Answers(None, SetOf(files[i].entries), k, s)
    ensures Absent(files[..i + 1], k, s)
  {
    assert files[..i + 1] == files[..i] + [files[i]];
  }

  /** Level 0: search every file whose user range holds k, newest first. */
  method GetLevelZero(files: seq<File>, k: UserKey, s: nat) returns (r: Option<Entry>)
    requires LevelOk(0, files)
    ensures Answers(r, FilesEntries(files), k, s)
  {
    var tmp := OverlappingKey(files, k);
    tmp := NewestFirst(tmp);
    AllSorted(files, tmp);
    ghost var at;
    r, at := SearchInOrder(tmp, k, s);
    if r.Some? {
      FoundInLevelZero(files, tmp, at, r.value, k, s);
    } else {
      AbsentOutsideRange(files, tmp, k, s);
      AbsentAnswers(files, k, s);
    }
  }

  lemma AllSorted(files: seq<File>, tmp: seq<File>)
    requires LevelOk(0, files) && forall f | f in tmp :: f in files
    ensures forall i | 0 <= i < |tmp| :: Sorted(tmp[i].entries)
  {
    forall i | 0 <= i < |tmp| ensures Sorted(tmp[i].entries) {
      assert tmp[i] in files;
    }
  }

  lemma AbsentAnswers(files: seq<File>, k: UserKey, s: nat)
    requires Absent(files, k, s)
    ensures Answers(None, FilesEntries(files), k, s)
  {
  }

  method OverlappingKey(files: seq<File>, k: UserKey) returns (tmp: seq<File>)
    requires DistinctNumbers(files)
    ensures DistinctNumbers(tmp)
    ensures forall f :: f in tmp <==> f in files && f.Smallest().user <= k <= f.Largest().user
  {
    tmp := [];
    for i := 0 to |files|
      invariant DistinctNumbers(tmp)
      invariant forall f :: f in tmp <==> f in files[..i] && f.Smallest().user <= k <= f.Largest().user
    {
      var f := files[i];
      assert files[..i + 1] == files[..i] + [f];
      if k >= f.Smallest().user && k <= f.Largest().user {
        forall j | 0 <= j < |tmp| ensures tmp[j].number != f.number {
          assert tmp[j] in files[..i];
        }
        tmp := tmp + [f];
      }
    }
    assert files[..|files|] == files;
  }

  lemma AbsentOutsideRange(files: seq<File>, tmp: seq<File>, k: UserKey, s: nat)
    requires forall f :: f in tmp <==> f in files && f.Smallest().user <= k <= f.Largest().user
    requires Absent(tmp, k, s)
    ensures Absent(files, k, s)
  {
    forall g, x | g in files && x in g.entries && x.user == k ensures s < x.sn { FileBounds(g, x); }
  }

  /** The first of the newest-first files that knows the key gives the level's answer. */
  lemma FoundInLevelZero(files: seq<File>, tmp: seq<File>, i: nat, e: Entry, k: UserKey, s: nat)
    requires LevelOk(0, files) && i < |tmp| && DescendingNumbers(tmp)
    requires forall f :: f in tmp <==> f in files && f.Smallest().user <= k <= f.Largest().user
    requires Absent(tmp[..i], k, s) && Answers(Some(e), SetOf(tmp[i].entries), k, s)
    ensures Answers(Some(e), FilesEntries(files), k, s)
  {
    forall g, x | g in files && x in g.entries && x.user == k && x.sn <= s ensures x.sn <= e.sn {
      FileBounds(g, x);
      var j :| 0 <= j < |tmp| && tmp[j] == g;
      if i < j { assert Newer(tmp[i].entries, g.entries); }
    }
    assert tmp[i] in files;
  }

  /** Other levels: one binary search, then at most one table. */
  method GetSortedLevel(files: seq<File>, k: UserKey, s: nat) returns (r: Option<Entry>)
    requires Disjoint(files)
    ensures Answers(r, FilesEntries(files), k, s)
  {
    var index := FindFile(files, k, s);
    if index >= |files| || k < files[index].Smallest().user {
      r := None;
    } else {
      r := Seek(files[index].entries, k, s);
      SeekAnswers(files[index].entries, k, s);
    }
    forall g, x | g in files && x in g.entries && x.user == k && x.sn <= s
      ensures r.Some? && x.sn <= r.value.sn
    {
      FileBounds(g, x);
      var j :| 0 <= j < |files| && files[j] == g;
      assert index <= j;
      if index < j {
        LaterFileHidden(files[index], g, x, k, s);
      }
    }
  }

  /** With (k, s) at or before f's largest key, an entry of a later file is older than what f answers. */
  lemma LaterFileHidden(f: File, g: File, x: Entry, k: UserKey, s: nat)
    requires FileLt(f, g) && !Before(f.Largest(), k, s)
    requires x in g.entries && x.user == k && x.sn <= s
    ensures f.Smallest().user <= k
    ensures Seek(f.entries, k, s).Some? && x.sn <= Seek(f.entries, k, s).value.sn
  {
    FileBounds(g, x);
    FileBounds(f, f.Largest());
    SeekAnswers(f.entries, k, s);
    assert f.Largest() in SetOf(f.entries);
  }

  /** An answer found in level l stands when the smaller levels do not know the key. */
  lemma FoundAtLevel(levels: Levels, l: nat, e: Entry, k: UserKey, s: nat)
    requires LevelsOk(levels) && l < NUM_LEVELS
    requires forall m | 0 <= m < l :: Absent(levels[m], k, s)
    requires Answers(Some(e), FilesEntries(levels[l]), k, s)
    ensures Answers(Some(e), LevelsEntries(levels), k, s)
  {
    var f :| f in levels[l] && e in f.entries;
    forall m, g, x | 0 <= m < NUM_LEVELS && g in levels[m] && x in g.entries && x.user == k && x.sn <= s
      ensures x.sn <= e.sn
    {
      if l < m {
        assert Newer(f.entries, g.entries);
      } else if l == m {
        assert x in FilesEntries(levels[l]);
      }
    }
  }

  /** Version::Get: level by level, stopping at the first level that knows the key. */
  method Get(levels: Levels, k: UserKey, s: nat) returns (r: Option<Entry>)
    requires LevelsOk(levels)
    ensures Answers(r, LevelsEntries(levels), k, s)
  {
    for l := 0 to NUM_LEVELS
      invariant forall m | 0 <= m < l :: Absent(levels[m], k, s)
    {
      if levels[l] != [] {
        assert LevelOk(l, levels[l]);
        if l == 0 {
          r := GetLevelZero(levels[0], k, s);
        } else {
          r := GetSortedLevel(levels[l], k, s);
        }
        if r.Some? {
          FoundAtLevel(levels, l, r.value, k, s);
          return;
        }
        forall f, e | f in levels[l] && e in f.entries && e.user == k ensures s < e.sn {
          assert e in FilesEntries(levels[l]);
        }
      }
    }
    r := None;
  }
}
