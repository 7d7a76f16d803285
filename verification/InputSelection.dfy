/**
 Choosing the input files of a compaction (db/version_set.cc): the overlapping files of a range, which
 in level 0 may widen the range and start the search again; boundary files, which share a user key with
 the end of the inputs; the files of the next level; and growing the inputs when that costs nothing
 below. Last, the level that a flushed memtable goes to.
 */
module InputSelection {
  import opened Options
  import opened Entries
  import opened Versions
  import opened Compactions

  // ---- GetOverlappingInputs ----

  /** The files that meet the user range, in level order. */
  function Overlapping(files: seq<File>, lo: Option<UserKey>, hi: Option<UserKey>): seq<File> {
    if files == [] then [] else
      var (rest, f) := (files[..|files| - 1], files[|files| - 1]);
      Overlapping(rest, lo, hi) + if Overlaps(f, lo, hi) then [f] else []
  }

  lemma {:induction false} OverlappingMembers(files: seq<File>, lo: Option<UserKey>, hi: Option<UserKey>)
    ensures forall f :: f in Overlapping(files, lo, hi) <==> f in files && Overlaps(f, lo, hi)
    ensures |Overlapping(files, lo, hi)| <= |files|
  {
    if files != [] {
      OverlappingMembers(files[..|files| - 1], lo, hi);
      assert files == files[..|files| - 1] + [files[|files| - 1]];
    }
  }

  /** The range includes [begin, end]. */
  predicate Covers(lo: Option<UserKey>, hi: Option<UserKey>, begin: Option<UserKey>, end: Option<UserKey>) {
    && (lo.Some? ==> begin.Some? && lo.value <= begin.value)
    && (hi.Some? ==> end.Some? && end.value <= hi.value)
  }

  /** No file sticks out of the range it meets. */
  ghost predicate ClosedRange(files: seq<File>, lo: Option<UserKey>, hi: Option<UserKey>) {
    forall f | f in files && Overlaps(f, lo, hi) :: Inside(f, lo, hi)
  }

  /** Every closed range that includes [begin, end] includes [lo, hi]. */
  ghost predicate LeastRange(files: seq<File>, begin: Option<UserKey>, end: Option<UserKey>, lo: Option<UserKey>, hi: Option<UserKey>) {
    forall lo', hi' | ClosedRange(files, lo', hi') && Covers(lo', hi', begin, end) :: Covers(lo', hi', lo, hi)
  }

  /** The files that stick out of the range on either side. */
  ghost function SticksOut(files: seq<File>, lo: Option<UserKey>, hi: Option<UserKey>): (set<nat>, set<nat>) {
    (set i: nat | i < |files| && lo.Some? && files[i].Smallest().user < lo.value,
     set i: nat | i < |files| && hi.Some? && files[i].Largest().user > hi.value)
  }

  ghost function Restarts(files: seq<File>, lo: Option<UserKey>, hi: Option<UserKey>): nat {
    |SticksOut(files, lo, hi).0| + |SticksOut(files, lo, hi).1|
  }

  lemma SubsetSize(s: set<nat>, t: set<nat>)
    requires s <= t
    ensures |s| <= |t|
  {
    if s != {} {
      var x :| x in s;
      SubsetSize(s - {x}, t - {x});
    }
  }

  /** Widening the range to take in a file keeps it least, and leaves fewer files sticking out. */
  lemma WidenBegin(files: seq<File>, begin: Option<UserKey>, end: Option<UserKey>, lo: Option<UserKey>, hi: Option<UserKey>, i: nat)
    requires i < |files| && LeastRange(files, begin, end, lo, hi)
    requires Overlaps(files[i], lo, hi) && lo.Some? && files[i].Smallest().user < lo.value
    ensures LeastRange(files, begin, end, Some(files[i].Smallest().user), hi)
    ensures Restarts(files, Some(files[i].Smallest().user), hi) < Restarts(files, lo, hi)
  {
    var f := files[i];
    assert f in files;
    FileBounds(f, f.Largest());
    var (s, t) := (SticksOut(files, Some(f.Smallest().user), hi).0, SticksOut(files, lo, hi).0);
    assert i in t && i !in s;
    SubsetSize(s, t - {i});
    forall lo', hi' | ClosedRange(files, lo', hi') && Covers(lo', hi', begin, end)
      ensures Covers(lo', hi', Some(f.Smallest().user), hi)
    {
      assert Covers(lo', hi', lo, hi);
    }
  }

  lemma WidenEnd(files: seq<File>, begin: Option<UserKey>, end: Option<UserKey>, lo: Option<UserKey>, hi: Option<UserKey>, i: nat)
    requires i < |files| && LeastRange(files, begin, end, lo, hi)
    requires Overlaps(files[i], lo, hi) && hi.Some? && files[i].Largest().user > hi.value
    ensures LeastRange(files, begin, end, lo, Some(files[i].Largest().user))
    ensures Restarts(files, lo, Some(files[i].Largest().user)) < Restarts(files, lo, hi)
  {
    var f := files[i];
    assert f in files;
    FileBounds(f, f.Largest());
    var (s, t) := (SticksOut(files, lo, Some(f.Largest().user)).1, SticksOut(files, lo, hi).1);
    assert i in t && i !in s;
    SubsetSize(s, t - {i});
    forall lo', hi' | ClosedRange(files, lo', hi') && Covers(lo', hi', begin, end)
      ensures Covers(lo', hi', lo, Some(f.Largest().user))
    {
      assert Covers(lo', hi', lo, hi);
    }
  }

  ghost predicate Inside(f: File, lo: Option<UserKey>, hi: Option<UserKey>) {
    (lo.Some? ==> lo.value <= f.Smallest().user) && (hi.Some? ==> f.Largest().user <= hi.value)
  }

  lemma NextFile(files: seq<File>, i: nat, lo: Option<UserKey>, hi: Option<UserKey>)
    requires i < |files|
    ensures Overlapping(files[..i + 1], lo, hi) == Overlapping(files[..i], lo, hi) + if Overlaps(files[i], lo, hi) then [files[i]] else []
    ensures ClosedRange(files[..i], lo, hi) && (Overlaps(files[i], lo, hi) ==> Inside(files[i], lo, hi)) ==> ClosedRange(files[..i + 1], lo, hi)
  {
    assert files[..i + 1][..i] == files[..i] && files[..i + 1] == files[..i] + [files[i]];
  }

  /** Where the level-0 search has got to: the range is least, and closed over the files seen since the last restart. */
  ghost predicate Searching(files: seq<File>, i: nat, begin: Option<UserKey>, end: Option<UserKey>, lo: Option<UserKey>, hi: Option<UserKey>) {
    && i <= |files| && ClosedRange(files[..i], lo, hi) && LeastRange(files, begin, end, lo, hi)
    && Covers(lo, hi, begin, end) && lo.Some? == begin.Some? && hi.Some? == end.Some?
  }

  lemma SearchOn(files: seq<File>, i: nat, begin: Option<UserKey>, end: Option<UserKey>, lo: Option<UserKey>, hi: Option<UserKey>)
    requires i < |files| && Searching(files, i, begin, end, lo, hi)
    requires Overlaps(files[i], lo, hi) ==> Inside(files[i], lo, hi)
    ensures Searching(files, i + 1, begin, end, lo, hi)
  {
    NextFile(files, i, lo, hi);
  }

  /**
   All files of the level that overlap [begin, end]. In level 0 an overlapping file may widen the
   range, and then the search restarts; it terminates with the least range that is closed.
   */
  method GetOverlappingInputs(level: nat, files: seq<File>, begin: Option<UserKey>, end: Option<UserKey>)
      returns (inputs: seq<File>, ghost lo: Option<UserKey>, ghost hi: Option<UserKey>)
    ensures inputs == Overlapping(files, lo, hi)
    ensures level > 0 ==> lo == begin && hi == end
    ensures level == 0 ==> ClosedRange(files, lo, hi) && LeastRange(files, begin, end, lo, hi)
    ensures Covers(lo, hi, begin, end) && lo.Some? == begin.Some? && hi.Some? == end.Some?
  {
    var userBegin, userEnd := begin, end;
    inputs := [];
    var i := 0;
    while i < |files|
      invariant 0 <= i <= |files|
      invariant inputs == Overlapping(files[..i], userBegin, userEnd)
      invariant if level == 0 then Searching(files, i, begin, end, userBegin, userEnd) else userBegin == begin && userEnd == end
      decreases Restarts(files, userBegin, userEnd), |files| - i
    {
      var f := files[i];
      NextFile(files, i, userBegin, userEnd);
      if userBegin.Some? && f.Largest().user < userBegin.value {
        if level == 0 { SearchOn(files, i, begin, end, userBegin, userEnd); }
        i := i + 1;
      } else if userEnd.Some? && f.Smallest().user > userEnd.value {
        if level == 0 { SearchOn(files, i, begin, end, userBegin, userEnd); }
        i := i + 1;
      } else {
        inputs := inputs + [f];
        if level == 0 && userBegin.Some? && f.Smallest().user < userBegin.value {
          WidenBegin(files, begin, end, userBegin, userEnd, i);
          userBegin, inputs, i := Some(f.Smallest().user), [], 0;
        } else if level == 0 && userEnd.Some? && f.Largest().user > userEnd.value {
          WidenEnd(files, begin, end, userBegin, userEnd, i);
          userEnd, inputs, i := Some(f.Largest().user), [], 0;
        } else {
          if level == 0 { SearchOn(files, i, begin, end, userBegin, userEnd); }
          i := i + 1;
        }
      }
    }
    assert files[..|files|] == files;
    lo, hi := userBegin, userEnd;
  }

  // ---- AddBoundaryInputs ----

  /** The least key and the greatest key of the files. */
  ghost predicate IsKeyRange(files: seq<File>, smallest: Entry, largest: Entry) {
    && (forall f | f in files :: !Lt(f.Smallest(), smallest) && !Lt(largest, f.Largest()))
    && (exists f :: f in files && f.Smallest() == smallest)
    && (exists f :: f in files && f.Largest() == largest)
  }

  method GetRange(files: seq<File>) returns (smallest: Entry, largest: Entry)
    requires files != []
    ensures IsKeyRange(files, smallest, largest)
  {
    smallest, largest := files[0].Smallest(), files[0].Largest();
    assert files[..1] == [files[0]];
    for i := 1 to |files|
      invariant IsKeyRange(files[..i], smallest, largest)
    {
      var f := files[i];
      assert files[..i + 1] == files[..i] + [f];
      if Lt(f.Smallest(), smallest) { smallest := f.Smallest(); }
      if Lt(largest, f.Largest()) { largest := f.Largest(); }
    }
    assert files[..|files|] == files;
  }

  lemma KeyRangeUsers(files: seq<File>, smallest: Entry, largest: Entry)
    requires files != [] && IsKeyRange(files, smallest, largest)
    ensures UserLo(files) == smallest.user && UserHi(files) == largest.user
  {
    var f :| f in files && f.Smallest().user == UserLo(files);
    var g :| g in files && g.Largest().user == UserHi(files);
  }

  predicate IsBoundary(f: File, largest: Entry) {
    Lt(largest, f.Smallest()) && f.Smallest().user == largest.user
  }

  /** The file whose smallest key is the least one after `largest` with the same user key. */
  function SmallestBoundaryFile(files: seq<File>, largest: Entry): Option<File> {
    if files == [] then None else
      var (best, f) := (SmallestBoundaryFile(files[..|files| - 1], largest), files[|files| - 1]);
      if IsBoundary(f, largest) && (best.None? || Lt(f.Smallest(), best.value.Smallest())) then Some(f) else best
  }

  method FindSmallestBoundaryFile(files: seq<File>, largest: Entry) returns (r: Option<File>)
    ensures r == SmallestBoundaryFile(files, largest)
  {
    r := None;
    for i := 0 to |files|
      invariant r == SmallestBoundaryFile(files[..i], largest)
    {
      assert files[..i + 1][..i] == files[..i];
      if Lt(largest, files[i].Smallest()) && files[i].Smallest().user == largest.user {
        if r.None? || Lt(files[i].Smallest(), r.value.Smallest()) {
          r := Some(files[i]);
        }
      }
    }
    assert files[..|files|] == files;
  }

  lemma {:induction false} SmallestBoundaryIsLeast(files: seq<File>, largest: Entry)
    ensures match SmallestBoundaryFile(files, largest)
      case Some(b) => b in files && IsBoundary(b, largest) && forall f | f in files && IsBoundary(f, largest) :: !Lt(f.Smallest(), b.Smallest())
      case None => forall f | f in files :: !IsBoundary(f, largest)
  {
    if files != [] {
      SmallestBoundaryIsLeast(files[..|files| - 1], largest);
      assert files == files[..|files| - 1] + [files[|files| - 1]];
    }
  }

  /** The files still ahead of the largest key. */
  ghost function Ahead(files: seq<File>, largest: Entry): set<nat> {
    set i: nat | i < |files| && Lt(largest, files[i].Smallest())
  }

  lemma FewerAhead(files: seq<File>, largest: Entry, f: File)
    requires f in files && Lt(largest, f.Smallest())
    ensures |Ahead(files, f.Largest())| < |Ahead(files, largest)|
  {
    FileBounds(f, f.Largest());
    var i :| 0 <= i < |files| && files[i] == f;
    assert i in Ahead(files, largest) && i !in Ahead(files, f.Largest());
    SubsetSize(Ahead(files, f.Largest()), Ahead(files, largest) - {i});
  }

  /** The inputs extended by boundary files until none is left. */
  ghost function WithBoundary(files: seq<File>, inputs: seq<File>, largest: Entry): seq<File>
    decreases |Ahead(files, largest)|
  {
    var b := SmallestBoundaryFile(files, largest);
    if b.None? then inputs else
      SmallestBoundaryIsLeast(files, largest);
      FewerAhead(files, largest, b.value);
      WithBoundary(files, inputs + [b.value], b.value.Largest())
  }

  ghost predicate IsExtended(files: seq<File>, inputs: seq<File>, r: seq<File>) {
    exists smallest, largest :: IsKeyRange(inputs, smallest, largest) && r == WithBoundary(files, inputs, largest)
  }

  method AddBoundaryInputs(files: seq<File>, inputs: seq<File>) returns (r: seq<File>)
    ensures inputs == [] ==> r == []
    ensures inputs != [] ==> IsExtended(files, inputs, r)
  {
    r := inputs;
    if inputs == [] {
      return;
    }
    var smallest, largestKey := GetRange(inputs);
    ghost var start := largestKey;
    var continueSearching := true;
    while continueSearching
      invariant WithBoundary(files, inputs, start) == if continueSearching then WithBoundary(files, r, largestKey) else r
      decreases continueSearching, |Ahead(files, largestKey)|
    {
      var boundary := FindSmallestBoundaryFile(files, largestKey);
      SmallestBoundaryIsLeast(files, largestKey);
      if boundary.Some? {
        FewerAhead(files, largestKey, boundary.value);
        r, largestKey := r + [boundary.value], boundary.value.Largest();
      } else {
        continueSearching := false;
      }
    }
  }

  /** In a sorted level, a run of adjacent files stays one, and no file after it starts with its last user key. */
  lemma {:induction false} BoundaryKeepsRun(files: seq<File>, i: nat, j: nat) returns (j': nat)
    requires Disjoint(files) && i < j <= |files|
    ensures j <= j' <= |files| && WithBoundary(files, files[i..j], files[j - 1].Largest()) == files[i..j']
    ensures j' < |files| ==> files[j' - 1].Largest().user != files[j'].Smallest().user
    decreases |files| - j
  {
    var largest := files[j - 1].Largest();
    SmallestBoundaryIsLeast(files, largest);
    var b := SmallestBoundaryFile(files, largest);
    if b.None? {
      j' := j;
      if j < |files| {
        assert FileLt(files[j - 1], files[j]);
        assert !IsBoundary(files[j], largest);
      }
    } else {
      NextIsBoundary(files, j, b.value);
      assert files[i..j] + [files[j]] == files[i..j + 1];
      j' := BoundaryKeepsRun(files, i, j + 1);
    }
  }

  lemma InOrder(files: seq<File>, i: nat, j: nat)
    requires Disjoint(files) && i < j < |files|
    ensures Lt(files[i].Smallest(), files[j].Smallest()) && Lt(files[i].Largest(), files[j].Largest())
    ensures FileLt(files[i], files[j])
  {
    FileBounds(files[i], files[i].Smallest());
    FileBounds(files[j], files[j].Largest());
  }

  lemma NotBoundaryBefore(files: seq<File>, j: nat, m: nat)
    requires Disjoint(files) && m < j <= |files|
    ensures !IsBoundary(files[m], files[j - 1].Largest())
  {
    FileBounds(files[j - 1], files[j - 1].Smallest());
    if m < j - 1 { InOrder(files, m, j - 1); }
  }

  lemma BoundaryNotLater(files: seq<File>, j: nat, m: nat)
    requires Disjoint(files) && 0 < j < m < |files| && IsBoundary(files[m], files[j - 1].Largest())
    ensures IsBoundary(files[j], files[j - 1].Largest()) && Lt(files[j].Smallest(), files[m].Smallest())
  {
    InOrder(files, j, m);
    InOrder(files, j - 1, j);
  }

  lemma NextIsBoundary(files: seq<File>, j: nat, b: File)
    requires Disjoint(files) && 0 < j <= |files|
    requires SmallestBoundaryFile(files, files[j - 1].Largest()) == Some(b)
    ensures j < |files| && b == files[j]
  {
    SmallestBoundaryIsLeast(files, files[j - 1].Largest());
    var m: nat :| m < |files| && files[m] == b;
    if m < j {
      NotBoundaryBefore(files, j, m);
    } else if j < m {
      BoundaryNotLater(files, j, m);
    }
  }

  // ---- SetupOtherInputs ----

  /** What a pick for level L hands on: in level 0 every file of a closed range, deeper a run of adjacent files. */
  ghost predicate Picked(L: nat, files: seq<File>, in0: seq<File>) {
    && in0 != []
    && (L == 0 ==> exists lo, hi :: ClosedRange(files, lo, hi) && in0 == Overlapping(files, lo, hi))
    && (L > 0 ==> exists i, j :: 0 <= i < j <= |files| && in0 == files[i..j])
  }

  /** A pick none of whose last user key's entries are left behind. */
  ghost predicate ClosedPick(L: nat, files: seq<File>, in0: seq<File>) {
    && in0 != []
    && (L == 0 ==> exists lo, hi :: ClosedRange(files, lo, hi) && in0 == Overlapping(files, lo, hi))
    && (L > 0 ==> exists i: nat, j: nat :: ClosedRun(files, in0, i, j))
  }

  ghost predicate ClosedRun(files: seq<File>, in0: seq<File>, i: nat, j: nat) {
    i < j <= |files| && in0 == files[i..j] && (j < |files| ==> files[j - 1].Largest().user != files[j].Smallest().user)
  }

  lemma ClosedRangeHasNoBoundary(files: seq<File>, lo: Option<UserKey>, hi: Option<UserKey>, largest: Entry)
    requires ClosedRange(files, lo, hi)
    requires exists smallest :: IsKeyRange(Overlapping(files, lo, hi), smallest, largest)
    ensures SmallestBoundaryFile(files, largest).None?
  {
    OverlappingMembers(files, lo, hi);
    SmallestBoundaryIsLeast(files, largest);
    var b := SmallestBoundaryFile(files, largest);
    if b.Some? {
      var g :| g in Overlapping(files, lo, hi) && g.Largest() == largest;
      FileBounds(g, g.Largest());
      FileBounds(b.value, b.value.Largest());
    }
  }

  lemma RunKeyRange(files: seq<File>, i: nat, j: nat, smallest: Entry, largest: Entry)
    requires Disjoint(files) && i < j <= |files| && IsKeyRange(files[i..j], smallest, largest)
    ensures largest == files[j - 1].Largest()
  {
    var last := files[j - 1];
    assert files[i..j][j - 1 - i] == last;
    assert !Lt(largest, last.Largest());
    forall m | i <= m < j - 1 ensures Lt(files[m].Largest(), last.Largest()) {
      InOrder(files, m, j - 1);
    }
  }

  /** Boundary extension turns every pick into a closed one. */
  lemma BoundaryClosesPick(L: nat, files: seq<File>, in0: seq<File>, smallest: Entry, largest: Entry)
    requires LevelOk(L, files) && Picked(L, files, in0) && IsKeyRange(in0, smallest, largest)
    ensures ClosedPick(L, files, WithBoundary(files, in0, largest))
    ensures in0 <= WithBoundary(files, in0, largest)
  {
    if L == 0 {
      var lo, hi :| ClosedRange(files, lo, hi) && in0 == Overlapping(files, lo, hi);
      ClosedRangeHasNoBoundary(files, lo, hi, largest);
    } else {
      var i: nat, j: nat :| i < j <= |files| && in0 == files[i..j];
      BoundaryClosesRun(files, i, j, smallest, largest);
    }
  }

  lemma BoundaryClosesRun(files: seq<File>, i: nat, j: nat, smallest: Entry, largest: Entry)
    requires Disjoint(files) && i < j <= |files| && IsKeyRange(files[i..j], smallest, largest)
    ensures exists j': nat :: ClosedRun(files, WithBoundary(files, files[i..j], largest), i, j')
    ensures files[i..j] <= WithBoundary(files, files[i..j], largest)
  {
    RunKeyRange(files, i, j, smallest, largest);
    var j' := BoundaryKeepsRun(files, i, j);
    assert ClosedRun(files, files[i..j'], i, j');
    assert files[i..j] <= files[i..j'];
  }

  lemma ClosedRangeLeavesNewer(files: seq<File>, in0: seq<File>, lo: Option<UserKey>, hi: Option<UserKey>, f: File, g: File)
    requires ClosedRange(files, lo, hi) && in0 == Overlapping(files, lo, hi)
    requires f in in0 && g in files && g !in in0
    ensures Newer(g.entries, f.entries)
  {
    OverlappingMembers(files, lo, hi);
    assert Inside(f, lo, hi) && !Overlaps(g, lo, hi);
    forall x, y | x in g.entries && y in f.entries ensures x.user != y.user {
      FileBounds(f, y);
      FileBounds(g, x);
    }
  }

  lemma ClosedRunLeavesNewer(files: seq<File>, in0: seq<File>, i: nat, j: nat, f: File, g: File)
    requires Disjoint(files) && ClosedRun(files, in0, i, j)
    requires f in in0 && g in files && g !in in0
    ensures Newer(g.entries, f.entries)
  {
    assert forall q | i <= q < j :: files[q] == in0[q - i];
    var m: nat :| i <= m < j && files[m] == f;
    var n: nat :| 0 <= n < |files| && files[n] == g;
    if j <= n { RunEnds(files, m, j, n); }
    forall x, y | x in g.entries && y in f.entries && x.user == y.user ensures x.sn > y.sn {
      FileBounds(f, y);
      FileBounds(g, x);
      assert FileLt(g, f);
    }
  }

  /** No user key reaches from inside a run over its closed end. */
  lemma RunEnds(files: seq<File>, m: nat, j: nat, n: nat)
    requires Disjoint(files) && m < j <= n < |files|
    requires files[j - 1].Largest().user != files[j].Smallest().user
    ensures files[m].Largest().user < files[n].Smallest().user
  {
    InOrder(files, j - 1, j);
    if m < j - 1 { InOrder(files, m, j - 1); }
    if j < n { InOrder(files, j, n); }
  }

  /** Files left behind by a closed pick hold only newer versions of its user keys. */
  lemma ClosedPickLeavesNewer(L: nat, files: seq<File>, in0: seq<File>, f: File, g: File)
    requires LevelOk(L, files) && ClosedPick(L, files, in0)
    requires f in in0 && g in files && g !in in0
    ensures Newer(g.entries, f.entries)
  {
    if L == 0 {
      var lo, hi :| ClosedRange(files, lo, hi) && in0 == Overlapping(files, lo, hi);
      ClosedRangeLeavesNewer(files, in0, lo, hi, f, g);
    } else {
      var i: nat, j: nat :| ClosedRun(files, in0, i, j);
      ClosedRunLeavesNewer(files, in0, i, j, f, g);
    }
  }

  /** files[i..j] are the files of a sorted level that meet the range; everything after them is beyond it. */
  ghost predicate MeetingRun(files: seq<File>, lo: Option<UserKey>, hi: Option<UserKey>, i: nat, j: nat) {
    && i <= j <= |files| && Overlapping(files, lo, hi) == files[i..j]
    && (i < j ==> Overlaps(files[j - 1], lo, hi))
    && (i < j < |files| ==> hi.Some? && hi.value < files[j].Smallest().user)
  }

  lemma LastFileOutside(files: seq<File>, lo: Option<UserKey>, hi: Option<UserKey>, i: nat, j: nat)
    requires files != [] && Disjoint(files) && MeetingRun(files[..|files| - 1], lo, hi, i, j)
    requires i < j
    ensures j < |files| - 1 ==> !Overlaps(files[|files| - 1], lo, hi)
    ensures !Overlaps(files[|files| - 1], lo, hi) ==> hi.Some? && hi.value < files[j].Smallest().user
  {
    var n := |files| - 1;
    InOrder(files, j - 1, n);
    FileBounds(files[n], files[n].Largest());
    if j < n {
      InOrder(files, j, n);
      FileBounds(files[j], files[j].Largest());
    }
  }

  /** One more file at the end of the level, outside the range. */
  lemma RunWithout(files: seq<File>, lo: Option<UserKey>, hi: Option<UserKey>, i: nat, j: nat)
    requires files != [] && Disjoint(files) && MeetingRun(files[..|files| - 1], lo, hi, i, j)
    requires !Overlaps(files[|files| - 1], lo, hi)
    ensures MeetingRun(files, lo, hi, i, j)
  {
    SliceOfFront(files, |files| - 1, i, j);
    if i < j { LastFileOutside(files, lo, hi, i, j); }
  }

  lemma SliceOfFront(files: seq<File>, n: nat, i: nat, j: nat)
    requires i <= j <= n <= |files|
    ensures files[..n][i..j] == files[i..j]
  {
  }

  /** One more file at the end of the level, inside the range. */
  lemma RunWith(files: seq<File>, lo: Option<UserKey>, hi: Option<UserKey>, i: nat, j: nat) returns (i': nat)
    requires files != [] && Disjoint(files) && MeetingRun(files[..|files| - 1], lo, hi, i, j)
    requires Overlaps(files[|files| - 1], lo, hi)
    ensures MeetingRun(files, lo, hi, i', |files|)
  {
    var n := |files| - 1;
    if i < j { LastFileOutside(files, lo, hi, i, j); }
    i' := if i == j then n else i;
    assert files[..n][i..j] == files[i'..n];
    assert files[i'..n] + [files[n]] == files[i'..n + 1];
  }

  lemma {:induction false} OverlappingIsRun(files: seq<File>, lo: Option<UserKey>, hi: Option<UserKey>) returns (i: nat, j: nat)
    requires Disjoint(files)
    ensures MeetingRun(files, lo, hi, i, j)
  {
    if files == [] {
      i, j := 0, 0;
    } else {
      i, j := OverlappingIsRun(files[..|files| - 1], lo, hi);
      if Overlaps(files[|files| - 1], lo, hi) {
        i := RunWith(files, lo, hi, i, j);
        j := |files|;
      } else {
        RunWithout(files, lo, hi, i, j);
      }
    }
  }

  function TotalFileSize(files: seq<File>): nat {
    if files == [] then 0 else TotalFileSize(files[1..]) + files[0].size
  }

  /** A wider range that meets as many files meets the same files. */
  lemma {:induction false} WiderOverlapping(files: seq<File>, lo: Option<UserKey>, hi: Option<UserKey>, lo': Option<UserKey>, hi': Option<UserKey>)
    requires Covers(lo', hi', lo, hi)
    ensures |Overlapping(files, lo, hi)| <= |Overlapping(files, lo', hi')|
    ensures |Overlapping(files, lo, hi)| == |Overlapping(files, lo', hi')| ==> Overlapping(files, lo, hi) == Overlapping(files, lo', hi')
  {
    if files != [] {
      WiderOverlapping(files[..|files| - 1], lo, hi, lo', hi');
    }
  }

  lemma LargerHull(small: seq<File>, large: seq<File>)
    requires small != [] && large != [] && forall f | f in small :: f in large
    ensures Covers(Some(UserLo(large)), Some(UserHi(large)), Some(UserLo(small)), Some(UserHi(small)))
  {
    assert IsUserLo(small, UserLo(small)) && IsUserHi(small, UserHi(small));
    assert IsUserLo(large, UserLo(large)) && IsUserHi(large, UserHi(large));
  }

  lemma ClosedPickIsLegal(levels: Levels, L: nat, in0: seq<File>, in1: seq<File>)
    requires LevelsOk(levels) && L + 1 < NUM_LEVELS && ClosedPick(L, levels[L], in0)
    requires in1 == Overlapping(levels[L + 1], Some(UserLo(in0)), Some(UserHi(in0)))
    ensures LegalInputs(levels, L, in0, in1)
  {
    assert LevelOk(L, levels[L]);
    ClosedPickMembers(L, levels[L], in0);
    LowerInputsMeet(levels[L + 1], in0, in1);
    ClosedPickLeavesAllNewer(L, levels[L], in0);
  }

  /** The inputs of the next level are its files that meet one of those above. */
  lemma LowerInputsMeet(files: seq<File>, in0: seq<File>, in1: seq<File>)
    requires in0 != [] && in1 == Overlapping(files, Some(UserLo(in0)), Some(UserHi(in0)))
    ensures forall f :: f in in1 <==> f in files && OverlapsFiles(f, in0)
  {
    OverlappingMembers(files, Some(UserLo(in0)), Some(UserHi(in0)));
  }

  lemma ClosedPickLeavesAllNewer(L: nat, files: seq<File>, in0: seq<File>)
    requires LevelOk(L, files) && ClosedPick(L, files, in0)
    ensures forall f, g | f in in0 && g in files && g !in in0 :: Newer(g.entries, f.entries)
  {
    forall f, g | f in in0 && g in files && g !in in0 ensures Newer(g.entries, f.entries) {
      ClosedPickLeavesNewer(L, files, in0, f, g);
    }
  }

  lemma ClosedPickMembers(L: nat, files: seq<File>, in0: seq<File>)
    requires ClosedPick(L, files, in0)
    ensures forall f | f in in0 :: f in files
  {
    if L == 0 {
      var lo, hi :| ClosedRange(files, lo, hi) && in0 == Overlapping(files, lo, hi);
      OverlappingMembers(files, lo, hi);
    }
  }

  method BoundaryInputs(L: nat, files: seq<File>, picked: seq<File>) returns (in0: seq<File>)
    requires LevelOk(L, files) && Picked(L, files, picked)
    ensures ClosedPick(L, files, in0) && (forall f | f in picked :: f in in0) && IsExtended(files, picked, in0)
  {
    in0 := AddBoundaryInputs(files, picked);
    ghost var smallest, largest :| IsKeyRange(picked, smallest, largest) && in0 == WithBoundary(files, picked, largest);
    BoundaryClosesPick(L, files, picked, smallest, largest);
  }

  /** Accepting the expanded inputs leaves the level L + 1 inputs unchanged. */
  lemma ExpansionKeepsLowerInputs(files: seq<File>, in0: seq<File>, expanded0: seq<File>)
    requires in0 != [] && expanded0 != [] && forall f | f in in0 :: f in expanded0
    requires |Overlapping(files, Some(UserLo(expanded0)), Some(UserHi(expanded0)))| == |Overlapping(files, Some(UserLo(in0)), Some(UserHi(in0)))|
    ensures Overlapping(files, Some(UserLo(expanded0)), Some(UserHi(expanded0))) == Overlapping(files, Some(UserLo(in0)), Some(UserHi(in0)))
  {
    LargerHull(in0, expanded0);
    WiderOverlapping(files, Some(UserLo(in0)), Some(UserHi(in0)), Some(UserLo(expanded0)), Some(UserHi(expanded0)));
  }

  /** Every file of the level inside the range is among those that overlap a range covering it. */
  lemma RangeMembers(files: seq<File>, in0: seq<File>, lo: Option<UserKey>, hi: Option<UserKey>)
    requires in0 != [] && forall f | f in in0 :: f in files
    requires Covers(lo, hi, Some(UserLo(in0)), Some(UserHi(in0)))
    ensures forall f | f in in0 :: f in Overlapping(files, lo, hi)
  {
    OverlappingMembers(files, lo, hi);
    assert IsUserLo(in0, UserLo(in0)) && IsUserHi(in0, UserHi(in0));
    forall f | f in in0 ensures Overlaps(f, lo, hi) {
      FileBounds(f, f.Largest());
    }
  }

  /** The files of level L overlapping [start, limit] are a legal pick once there are any. */
  lemma OverlappingIsPicked(L: nat, files: seq<File>, inputs: seq<File>, lo: Option<UserKey>, hi: Option<UserKey>)
    requires LevelOk(L, files) && inputs == Overlapping(files, lo, hi) && inputs != []
    requires L == 0 ==> ClosedRange(files, lo, hi)
    ensures Picked(L, files, inputs)
  {
    if L > 0 {
      var i, j := OverlappingIsRun(files, lo, hi);
      assert 0 <= i < j <= |files| && inputs == files[i..j];
    }
  }

  /** The files of the next level that the range of in0 meets. */
  ghost function Below(levels: Levels, L: nat, in0: seq<File>): seq<File>
    requires L + 1 < |levels| && in0 != []
  {
    Overlapping(levels[L + 1], Some(UserLo(in0)), Some(UserHi(in0)))
  }

  /** The files a range gathers: in level 0 those of the least closed range around it. */
  ghost predicate Gathered(L: nat, files: seq<File>, begin: Option<UserKey>, end: Option<UserKey>, r: seq<File>) {
    if L > 0 then r == Overlapping(files, begin, end)
    else exists lo, hi :: r == Overlapping(files, lo, hi) && IsLeastClosed(files, begin, end, lo, hi)
  }

  ghost predicate IsLeastClosed(files: seq<File>, begin: Option<UserKey>, end: Option<UserKey>, lo: Option<UserKey>, hi: Option<UserKey>) {
    ClosedRange(files, lo, hi) && LeastRange(files, begin, end, lo, hi) && Covers(lo, hi, begin, end)
  }

  /** The files of level L that meet the whole range of the inputs, with their boundary files. */
  ghost predicate IsWider(levels: Levels, L: nat, base: seq<File>, wide: seq<File>)
    requires L + 1 < |levels| && base != []
  {
    var all := base + Below(levels, L, base);
    exists gathered :: Gathered(L, levels[L], Some(UserLo(all)), Some(UserHi(all)), gathered) && IsExtended(levels[L], gathered, wide)
  }

  /** Growing the upper inputs pays: more files above, no more below, and all together small enough. */
  ghost predicate GrowthPays(levels: Levels, L: nat, base: seq<File>, wide: seq<File>, expandedLimit: nat)
    requires L + 1 < |levels| && base != []
  {
    && |wide| > |base| && TotalFileSize(Below(levels, L, base)) + TotalFileSize(wide) < expandedLimit
    && |Below(levels, L, wide)| == |Below(levels, L, base)|
  }

  /** The upper inputs: the wider ones exactly if the inputs meet files below and growing pays. */
  ghost predicate GrownTo(levels: Levels, L: nat, base: seq<File>, expandedLimit: nat, in0: seq<File>)
    requires L + 1 < |levels| && base != []
  {
    if Below(levels, L, base) == [] then in0 == base
    else exists wide :: IsWider(levels, L, base, wide) && in0 == if GrowthPays(levels, L, base, wide, expandedLimit) then wide else base
  }

  /** The inputs that a pick leads to: the pick with its boundary files, grown if that pays, and the files below that the choice meets. */
  ghost predicate LeadsTo(levels: Levels, L: nat, picked: seq<File>, expandedLimit: nat, in0: seq<File>, in1: seq<File>)
    requires L + 1 < |levels|
  {
    && in0 != [] && in1 == Below(levels, L, in0)
    && exists base :: base != [] && IsExtended(levels[L], picked, base) && GrownTo(levels, L, base, expandedLimit, in0)
  }

  /**
   The other inputs of a compaction whose level L files were picked. Boundary files are added to
   level L; the files of level L + 1 that overlap follow; level L grows if that costs nothing below.
   What comes out is always a legal set of inputs.
   */
  method SetupOtherInputs(levels: Levels, L: nat, picked: seq<File>, expandedLimit: nat) returns (in0: seq<File>, in1: seq<File>)
    requires LevelsOk(levels) && L + 1 < NUM_LEVELS && Picked(L, levels[L], picked)
    ensures LegalInputs(levels, L, in0, in1)
    ensures ClosedPick(L, levels[L], in0) && LeadsTo(levels, L, picked, expandedLimit, in0, in1)
    ensures forall f | f in picked :: f in in0
  {
    var base := BoundaryInputs(L, levels[L], picked);
    in0, in1 := GrowInputs(levels, L, base, expandedLimit);
    ClosedPickIsLegal(levels, L, in0, in1);
  }

  method GrowInputs(levels: Levels, L: nat, base: seq<File>, expandedLimit: nat) returns (in0: seq<File>, in1: seq<File>)
    requires LevelsOk(levels) && L + 1 < NUM_LEVELS && ClosedPick(L, levels[L], base)
    ensures ClosedPick(L, levels[L], in0) && (forall f | f in base :: f in in0)
    ensures in1 == Below(levels, L, in0) && GrownTo(levels, L, base, expandedLimit, in0)
  {
    in0 := base;
    in1 := OverlappingBelow(levels, L, in0);
    if in1 != [] {
      var expanded0 := ExpandInputs(levels, L, in0, in1);
      if |expanded0| > |in0| && TotalFileSize(in1) + TotalFileSize(expanded0) < expandedLimit {
        var expanded1 := OverlappingBelow(levels, L, expanded0);
        if |expanded1| == |in1| {
          ExpansionKeepsLowerInputs(levels[L + 1], in0, expanded0);
          in0, in1 := expanded0, expanded1;
        }
      }
      GrowthDecided(levels, L, base, expanded0, expandedLimit, in0);
    }
  }

  lemma GrowthDecided(levels: Levels, L: nat, base: seq<File>, wide: seq<File>, expandedLimit: nat, in0: seq<File>)
    requires L + 1 < |levels| && base != [] && Below(levels, L, base) != [] && IsWider(levels, L, base, wide)
    requires in0 == if GrowthPays(levels, L, base, wide, expandedLimit) then wide else base
    ensures GrownTo(levels, L, base, expandedLimit, in0)
  {
  }

  /** The files of the next level that overlap the range of in0. */
  method OverlappingBelow(levels: Levels, L: nat, in0: seq<File>) returns (in1: seq<File>)
    requires L + 1 < |levels| && in0 != []
    ensures in1 == Below(levels, L, in0)
  {
    var smallest, largest := GetRange(in0);
    KeyRangeUsers(in0, smallest, largest);
    ghost var lo, hi;
    in1, lo, hi := GetOverlappingInputs(L + 1, levels[L + 1], Some(smallest.user), Some(largest.user));
  }

  /** The level L files that overlap everything picked so far, with their boundary files. */
  method ExpandInputs(levels: Levels, L: nat, in0: seq<File>, in1: seq<File>) returns (expanded0: seq<File>)
    requires LevelsOk(levels) && L + 1 < NUM_LEVELS && ClosedPick(L, levels[L], in0) && in1 == Below(levels, L, in0)
    ensures IsWider(levels, L, in0, expanded0)
    ensures ClosedPick(L, levels[L], expanded0) && forall f | f in in0 :: f in expanded0
  {
    var allStart, allLimit := GetRange(in0 + in1);
    KeyRangeUsers(in0 + in1, allStart, allLimit);
    LargerHull(in0, in0 + in1);
    ghost var lo, hi;
    expanded0, lo, hi := GetOverlappingInputs(L, levels[L], Some(allStart.user), Some(allLimit.user));
    ClosedPickMembers(L, levels[L], in0);
    RangeMembers(levels[L], in0, lo, hi);
    assert in0[0] in in0;
    OverlappingIsPicked(L, levels[L], expanded0, lo, hi);
    assert Gathered(L, levels[L], Some(UserLo(in0 + in1)), Some(UserHi(in0 + in1)), expanded0);
    expanded0 := BoundaryInputs(L, levels[L], expanded0);
  }

  // ---- The two ways to start a compaction ----

  /** The first inputs of the file due next: in level 0 all that its range gathers. */
  ghost predicate PickedForDue(L: nat, files: seq<File>, f: File, picked: seq<File>) {
    if L > 0 then picked == [f] else Gathered(0, files, Some(f.Smallest().user), Some(f.Largest().user), picked)
  }

  /** The inputs of the compaction that the file due next starts. */
  ghost predicate InputsForDue(levels: Levels, L: nat, due: nat, expandedLimit: nat, in0: seq<File>, in1: seq<File>)
    requires L + 1 < |levels| && due < |levels[L]|
  {
    exists picked :: PickedForDue(L, levels[L], levels[L][due], picked) && LeadsTo(levels, L, picked, expandedLimit, in0, in1)
  }

  /** PickCompaction from the file due next; which file is due is left open. */
  method PickCompaction(levels: Levels, L: nat, due: nat, expandedLimit: nat) returns (in0: seq<File>, in1: seq<File>)
    requires LevelsOk(levels) && L + 1 < NUM_LEVELS && due < |levels[L]|
    ensures LegalInputs(levels, L, in0, in1)
    ensures ClosedPick(L, levels[L], in0) && InputsForDue(levels, L, due, expandedLimit, in0, in1)
    ensures levels[L][due] in in0 && in1 == Below(levels, L, in0)
  {
    var f := levels[L][due];
    var picked := [f];
    assert f in picked && f in levels[L] && levels[L][due..due + 1] == picked;
    if L == 0 {
      var smallest, largest := GetRange(picked);
      KeyRangeUsers(picked, smallest, largest);
      LargerHull(picked, picked);
      ghost var lo, hi;
      picked, lo, hi := GetOverlappingInputs(0, levels[0], Some(smallest.user), Some(largest.user));
      RangeMembers(levels[0], [f], lo, hi);
      OverlappingIsPicked(0, levels[0], picked, lo, hi);
      assert smallest == f.Smallest() && largest == f.Largest();
    }
    assert PickedForDue(L, levels[L], f, picked);
    in0, in1 := SetupOtherInputs(levels, L, picked, expandedLimit);
  }

  /** The shortest front of the files that is as large as the limit, or all of them. */
  ghost predicate FrontToLimit(files: seq<File>, limit: nat, r: seq<File>) {
    && [] < r <= files && (r == files || TotalFileSize(r) >= limit)
    && forall n | 0 < n < |r| :: TotalFileSize(files[..n]) < limit
  }

  /** What a manual compaction picks: all that the range gathers in level 0, a front of it deeper. */
  ghost predicate PickedForRange(L: nat, files: seq<File>, begin: Option<UserKey>, end: Option<UserKey>, limit: nat, picked: seq<File>) {
    exists all :: Gathered(L, files, begin, end, all) && if L == 0 then picked == all else FrontToLimit(all, limit, picked)
  }

  /** The inputs of a manual compaction of the range. */
  ghost predicate InputsForRange(levels: Levels, L: nat, begin: Option<UserKey>, end: Option<UserKey>, limit: nat, expandedLimit: nat,
                                 in0: seq<File>, in1: seq<File>)
    requires L + 1 < |levels|
  {
    exists picked :: PickedForRange(L, levels[L], begin, end, limit, picked) && LeadsTo(levels, L, picked, expandedLimit, in0, in1)
  }

  /** A manual compaction of a range; below level 0 it stops once enough bytes are picked. */
  method CompactRange(levels: Levels, L: nat, begin: Option<UserKey>, end: Option<UserKey>, limit: nat, expandedLimit: nat)
      returns (in0: seq<File>, in1: seq<File>)
    requires LevelsOk(levels) && L + 1 < NUM_LEVELS
    ensures in0 != [] ==> LegalInputs(levels, L, in0, in1) && InputsForRange(levels, L, begin, end, limit, expandedLimit, in0, in1)
    ensures in0 == [] <==> forall f | f in levels[L] :: !Overlaps(f, begin, end)
  {
    in0 := PickRange(levels, L, begin, end, limit);
    in1 := [];
    if in0 != [] {
      ghost var picked := in0;
      in0, in1 := SetupOtherInputs(levels, L, in0, expandedLimit);
      RangeLeads(levels, L, begin, end, limit, picked, expandedLimit, in0, in1);
    }
  }

  lemma RangeLeads(levels: Levels, L: nat, begin: Option<UserKey>, end: Option<UserKey>, limit: nat, picked: seq<File>, expandedLimit: nat,
                   in0: seq<File>, in1: seq<File>)
    requires L + 1 < |levels| && PickedForRange(L, levels[L], begin, end, limit, picked)
    requires LeadsTo(levels, L, picked, expandedLimit, in0, in1)
    ensures InputsForRange(levels, L, begin, end, limit, expandedLimit, in0, in1)
  {
  }

  method PickRange(levels: Levels, L: nat, begin: Option<UserKey>, end: Option<UserKey>, limit: nat) returns (picked: seq<File>)
    requires LevelsOk(levels) && L + 1 < NUM_LEVELS
    ensures picked == [] <==> forall f | f in levels[L] :: !Overlaps(f, begin, end)
    ensures picked != [] ==> Picked(L, levels[L], picked) && PickedForRange(L, levels[L], begin, end, limit, picked)
  {
    ghost var lo, hi;
    picked, lo, hi := GetOverlappingInputs(L, levels[L], begin, end);
    EmptyOnlyIfNoOverlap(levels[L], begin, end, lo, hi);
    if picked != [] {
      assert Gathered(L, levels[L], begin, end, picked);
      OverlappingIsPicked(L, levels[L], picked, lo, hi);
      if L > 0 {
        picked := UpToLimit(levels[L], picked, limit);
      }
    }
  }

  /** A range that meets no file is closed already, so the search does not widen it. */
  lemma EmptyOnlyIfNoOverlap(files: seq<File>, begin: Option<UserKey>, end: Option<UserKey>, lo: Option<UserKey>, hi: Option<UserKey>)
    requires (lo == begin && hi == end) || LeastRange(files, begin, end, lo, hi)
    requires Covers(lo, hi, begin, end) && lo.Some? == begin.Some? && hi.Some? == end.Some?
    ensures Overlapping(files, lo, hi) == [] <==> forall f | f in files :: !Overlaps(f, begin, end)
  {
    OverlappingMembers(files, lo, hi);
    var r := Overlapping(files, lo, hi);
    assert r != [] ==> r[0] in r;
    if forall f | f in files :: !Overlaps(f, begin, end) {
      assert ClosedRange(files, begin, end) && Covers(begin, end, begin, end);
      assert lo == begin && hi == end;
    } else {
      var f :| f in files && Overlaps(f, begin, end);
      assert f in r;
    }
  }

  method UpToLimit(files: seq<File>, inputs: seq<File>, limit: nat) returns (r: seq<File>)
    requires exists i, j :: 0 <= i < j <= |files| && inputs == files[i..j]
    ensures FrontToLimit(inputs, limit, r) && exists i, j :: 0 <= i < j <= |files| && r == files[i..j]
  {
    ghost var i, j :| 0 <= i < j <= |files| && inputs == files[i..j];
    var n := CountToLimit(inputs, limit);
    r := inputs[..n];
    assert r == files[i..i + n];
  }

  ghost function FrontSize(inputs: seq<File>, n: nat): nat
    requires n <= |inputs|
  {
    TotalFileSize(inputs[..n])
  }

  method CountToLimit(inputs: seq<File>, limit: nat) returns (count: nat)
    requires inputs != []
    ensures 0 < count <= |inputs| && FrontToLimit(inputs, limit, inputs[..count])
  {
    var total := 0;
    for n := 0 to |inputs|
      invariant total == FrontSize(inputs, n) && forall m | 0 < m <= n :: FrontSize(inputs, m) < limit
    {
      TotalOfFront(inputs, n);
      total := total + inputs[n].size;
      if total >= limit {
        IsFrontToLimit(inputs, limit, n + 1);
        return n + 1;
      }
    }
    count := |inputs|;
    IsFrontToLimit(inputs, limit, count);
  }

  lemma IsFrontToLimit(inputs: seq<File>, limit: nat, count: nat)
    requires 0 < count <= |inputs| && (count == |inputs| || FrontSize(inputs, count) >= limit)
    requires forall m | 0 < m < count :: FrontSize(inputs, m) < limit
    ensures FrontToLimit(inputs, limit, inputs[..count])
  {
    assert inputs[..count] <= inputs && (count == |inputs| ==> inputs[..count] == inputs);
    forall n | 0 < n < count ensures TotalFileSize(inputs[..n]) < limit {
      assert FrontSize(inputs, n) < limit;
    }
  }

  lemma {:induction false} TotalOfFront(files: seq<File>, n: nat)
    requires n < |files|
    ensures TotalFileSize(files[..n + 1]) == TotalFileSize(files[..n]) + files[n].size
  {
    if n > 0 {
      TotalOfFront(files[1..], n - 1);
      assert files[..n][1..] == files[1..][..n - 1] && files[..n + 1][1..] == files[1..][..n];
    }
  }

  // ---- Where a flushed memtable goes ----

  ghost predicate LevelClear(files: seq<File>, lo: UserKey, hi: UserKey) {
    forall g | g in files :: !Overlaps(g, Some(lo), Some(hi))
  }

  /** Nothing overlaps the range in the levels down to this one. */
  ghost predicate ClearDown(levels: Levels, level: nat, lo: UserKey, hi: UserKey)
    requires level < |levels|
  {
    LevelClear(levels[level], lo, hi) && (level > 0 ==> ClearDown(levels, level - 1, lo, hi))
  }

  lemma {:induction false} ClearAbove(levels: Levels, level: nat, lo: UserKey, hi: UserKey, m: nat)
    requires m <= level < |levels| && ClearDown(levels, level, lo, hi)
    ensures LevelClear(levels[m], lo, hi)
  {
    if m < level { ClearAbove(levels, level - 1, lo, hi, m); }
  }

  ghost predicate DeepLevelsSorted(levels: Levels) {
    |levels| == NUM_LEVELS && forall l | 0 < l < NUM_LEVELS :: Disjoint(levels[l])
  }

  lemma LevelsAreSorted(levels: Levels)
    requires LevelsOk(levels)
    ensures DeepLevelsSorted(levels)
  {
    forall l | 0 < l < NUM_LEVELS ensures Disjoint(levels[l]) {
      assert LevelOk(l, levels[l]);
    }
  }

  /** Version::OverlapInLevel. */
  method LevelOverlaps(levels: Levels, level: nat, lo: UserKey, hi: UserKey) returns (overlap: bool)
    requires DeepLevelsSorted(levels) && level < NUM_LEVELS
    ensures overlap == !LevelClear(levels[level], lo, hi)
  {
    overlap := SomeFileOverlapsRange(level > 0, levels[level], Some(lo), Some(hi));
  }

  method OverlappingBytes(levels: Levels, level: nat, lo: UserKey, hi: UserKey) returns (bytes: nat)
    requires DeepLevelsSorted(levels) && 0 < level < NUM_LEVELS
    ensures bytes == TotalFileSize(Overlapping(levels[level], Some(lo), Some(hi)))
  {
    var overlaps, _, _ := GetOverlappingInputs(level, levels[level], Some(lo), Some(hi));
    bytes := TotalFileSize(overlaps);
  }

  /** The level's files in the range are together within the limit. */
  ghost predicate FewBytes(levels: Levels, level: nat, lo: UserKey, hi: UserKey, maxGrandParentBytes: nat)
    requires level < |levels|
  {
    TotalFileSize(Overlapping(levels[level], Some(lo), Some(hi))) <= maxGrandParentBytes
  }

  /**
   The level for a table of the range: nothing down to it overlaps, the levels two below each one passed
   have few enough bytes in the range, and the next level overlaps or has too many bytes two below.
   */
  ghost predicate IsFlushLevel(levels: Levels, lo: UserKey, hi: UserKey, maxGrandParentBytes: nat, level: nat)
    requires |levels| == NUM_LEVELS
  {
    && level <= MAX_MEM_COMPACT_LEVEL && (level > 0 ==> ClearDown(levels, level, lo, hi))
    && (forall m | 2 <= m <= level + 1 :: FewBytes(levels, m, lo, hi, maxGrandParentBytes))
    && (level < MAX_MEM_COMPACT_LEVEL && ClearDown(levels, level + 1, lo, hi) ==> !FewBytes(levels, level + 2, lo, hi, maxGrandParentBytes))
  }

  /**
   PickLevelForMemTableOutput: as deep as MAX_MEM_COMPACT_LEVEL, while nothing on the way
   overlaps the new file and it does not overlap too many bytes two levels down.
   */
  method PickLevelForMemTableOutput(levels: Levels, lo: UserKey, hi: UserKey, maxGrandParentBytes: nat) returns (level: nat)
    requires DeepLevelsSorted(levels)
    ensures IsFlushLevel(levels, lo, hi, maxGrandParentBytes, level)
  {
    level := 0;
    var overlap := LevelOverlaps(levels, 0, lo, hi);
    if overlap {
      assert !ClearDown(levels, 0, lo, hi);
      return;
    }
    while level < MAX_MEM_COMPACT_LEVEL
      invariant level <= MAX_MEM_COMPACT_LEVEL && ClearDown(levels, level, lo, hi)
      invariant forall m | 2 <= m <= level + 1 :: FewBytes(levels, m, lo, hi, maxGrandParentBytes)
    {
      var down := MayDescend(levels, level, lo, hi, maxGrandParentBytes);
      if !down { return; }
      level := level + 1;
    }
  }

  /** Whether a table that may go to this level may go one level further down. */
  method MayDescend(levels: Levels, level: nat, lo: UserKey, hi: UserKey, maxGrandParentBytes: nat) returns (down: bool)
    requires DeepLevelsSorted(levels) && level < MAX_MEM_COMPACT_LEVEL && ClearDown(levels, level, lo, hi)
    ensures down == (ClearDown(levels, level + 1, lo, hi) && FewBytes(levels, level + 2, lo, hi, maxGrandParentBytes))
  {
    var overlap := LevelOverlaps(levels, level + 1, lo, hi);
    if overlap { return false; }
    var bytes := OverlappingBytes(levels, level + 2, lo, hi);
    down := bytes <= maxGrandParentBytes;
  }
}
