/** The compaction loop itself (db/db_impl.cc DoCompactionWork) and its base-level cursor. */
module CompactionWork {
  import opened Options
  import opened Entries
  import opened Versions
  import opened Compactions

  /** The state of one compaction that IsBaseLevelForKey advances from key to key. */
  class Compaction {
    const level: nat
    const levels: Levels
    var levelPtrs: array<nat>
    /** The greatest user key asked about so far. */
    ghost var asked: Option<UserKey>

    constructor (levels: Levels, level: nat)
      requires LevelsOk(levels)
      ensures Valid() && asked == None && this.levels == levels && this.level == level && fresh(levelPtrs)
    {
      this.level, this.levels, asked := level, levels, None;
      levelPtrs := new nat[NUM_LEVELS](_ => 0);
    }

    ghost predicate Valid()
      reads this, levelPtrs
    {
      && |levels| == NUM_LEVELS && (forall l | 0 < l < NUM_LEVELS :: Disjoint(levels[l]))
      && levelPtrs.Length == NUM_LEVELS
      && forall l | level + 2 <= l < NUM_LEVELS ::
        && levelPtrs[l] <= |levels[l]|
        && forall i | 0 <= i < levelPtrs[l] :: asked.Some? && levels[l][i].Largest().user < asked.value
    }

    /**
     Asked in ascending key order, the cursors answer what a full search of the deeper levels
     would: whether none of their files spans the key.
     */
    method IsBaseLevelForKey(k: UserKey) returns (base: bool)
      requires Valid() && (asked.Some? ==> asked.value <= k)
      modifies this`asked, levelPtrs
      ensures Valid() && asked == Some(k)
      ensures base <==> BaseLevel(levels, level, k)
    {
      asked := Some(k);
      var l := level + 2;
      while l < NUM_LEVELS
        invariant level + 2 <= l
        invariant Valid() && asked == Some(k)
        invariant forall m, f | level + 2 <= m < l && m < NUM_LEVELS && f in levels[m] :: !(f.Smallest().user <= k <= f.Largest().user)
      {
        var files := levels[l];
        while levelPtrs[l] < |files| && k > files[levelPtrs[l]].Largest().user
          invariant Valid() && asked == Some(k)
          decreases |files| - levelPtrs[l]
        {
          levelPtrs[l] := levelPtrs[l] + 1;
        }
        var i := levelPtrs[l];
        if i < |files| && k >= files[i].Smallest().user {
          assert files[i] in levels[l];
          return false;
        }
        SpannedByNone(files, i, k);
        l := l + 1;
      }
      return true;
    }

    /** Rule (A), then the rule for obsolete deletion markers. */
    method Drops(key: Entry, lastSequenceForKey: nat, snap: nat) returns (drop: bool)
      requires Valid() && (asked.Some? ==> asked.value <= key.user)
      modifies this`asked, levelPtrs
      ensures Valid() && (asked.Some? ==> asked.value <= key.user)
      ensures drop <==> lastSequenceForKey <= snap || Obsolete(key, snap, levels, level)
    {
      drop := false;
      if lastSequenceForKey <= snap {
        drop := true;
      } else if key.value.None? && key.sn <= snap {
        drop := IsBaseLevelForKey(key.user);
      }
    }

    static lemma SpannedByNone(files: seq<File>, i: nat, k: UserKey)
      requires i <= |files| && Disjoint(files)
      requires forall j | 0 <= j < i :: files[j].Largest().user < k
      requires i < |files| ==> k < files[i].Smallest().user
      ensures forall f | f in files :: !(f.Smallest().user <= k <= f.Largest().user)
    {
      forall f | f in files ensures !(f.Smallest().user <= k <= f.Largest().user) {
        var j :| 0 <= j < |files| && files[j] == f;
        if i < j {
          assert FileLt(files[i], f);
          FileBounds(files[i], files[i].Largest());
        }
      }
    }
  }

  // ---- The drop loop ----

  /** The surviving entries of a merged input, in order. */
  ghost function Survivors(es: seq<Entry>, input: set<Entry>, snap: nat, levels: Levels, L: nat): (r: seq<Entry>)
    ensures forall e :: e in r <==> e in es && Survives(e, input, snap, levels, L)
  {
    if es == [] then [] else
      var (rest, e) := (es[..|es| - 1], es[|es| - 1]);
      assert es == rest + [e];
      Survivors(rest, input, snap, levels, L) + if Survives(e, input, snap, levels, L) then [e] else []
  }

  lemma SurvivorsStep(es: seq<Entry>, i: nat, input: set<Entry>, snap: nat, levels: Levels, L: nat)
    requires i < |es|
    ensures Survivors(es[..i + 1], input, snap, levels, L) ==
            Survivors(es[..i], input, snap, levels, L) + if Survives(es[i], input, snap, levels, L) then [es[i]] else []
  {
    assert es[..i + 1][..i] == es[..i];
  }

  function Flatten(outs: seq<seq<Entry>>): seq<Entry> {
    if outs == [] then [] else Flatten(outs[..|outs| - 1]) + outs[|outs| - 1]
  }

  lemma FlattenAppend(outs: seq<seq<Entry>>, o: seq<Entry>)
    ensures Flatten(outs + [o]) == Flatten(outs) + o
  {
    assert (outs + [o])[..|outs|] == outs;
  }

  /** In the merged order only the previous entry can hide the next one. */
  lemma HiddenByPrevious(es: seq<Entry>, i: nat, snap: nat)
    requires Sorted(es) && i < |es|
    ensures Hidden(es[i], SetOf(es), snap) <==> i > 0 && es[i - 1].user == es[i].user && es[i - 1].sn <= snap
  {
    if Hidden(es[i], SetOf(es), snap) {
      var x :| x in es && x.user == es[i].user && es[i].sn < x.sn <= snap;
      var j :| 0 <= j < |es| && es[j] == x;
      assert j < i;
      assert j == i - 1 || Lt(es[j], es[i - 1]);
      assert Lt(es[i - 1], es[i]);
    }
    if i > 0 && es[i - 1].user == es[i].user && es[i - 1].sn <= snap {
      assert Lt(es[i - 1], es[i]);
      assert es[i - 1] in SetOf(es);
    }
  }

  /** What the loop remembers of the entries it has read. */
  ghost predicate Remembers(es: seq<Entry>, i: nat, hasCurrent: bool, current: UserKey, lastSequence: nat)
    requires i <= |es|
  {
    && (hasCurrent <==> i > 0)
    && (i > 0 ==> current == es[i - 1].user && lastSequence == es[i - 1].sn)
  }

  /**
   The loop over the merged input. Where an output file is cut is left open: before an entry
   (grandparent overlap) and after one (file size). The outputs are exactly the survivors.
   */
  method DoCompactionWork(c: Compaction, es: seq<Entry>, snap: nat) returns (outs: seq<seq<Entry>>)
    requires c.Valid() && c.asked.None?
    requires Sorted(es) && forall e | e in es :: e.sn <= MAX_SEQUENCE_NUMBER
    requires snap < MAX_SEQUENCE_NUMBER
    modifies c`asked, c.levelPtrs
    ensures forall o | o in outs :: o != []
    ensures Flatten(outs) == Survivors(es, SetOf(es), snap, c.levels, c.level)
  {
    outs := [];
    var builder: seq<Entry> := [];
    var currentUserKey, hasCurrentUserKey := 0, false;
    var lastSequenceForKey: nat := MAX_SEQUENCE_NUMBER;
    ghost var input := SetOf(es);
    for i := 0 to |es|
      invariant c.Valid()
      invariant c.asked.Some? ==> i > 0 && c.asked.value <= es[i - 1].user
      invariant Remembers(es, i, hasCurrentUserKey, currentUserKey, lastSequenceForKey)
      invariant forall o | o in outs :: o != []
      invariant Flatten(outs) + builder == Survivors(es[..i], input, snap, c.levels, c.level)
    {
      var key := es[i];
      if i > 0 { assert Lt(es[i - 1], es[i]); }
      SurvivorsStep(es, i, input, snap, c.levels, c.level);
      HiddenByPrevious(es, i, snap);
      outs, builder := MaybeCut(outs, builder);
      if !hasCurrentUserKey || key.user != currentUserKey {
        currentUserKey, hasCurrentUserKey, lastSequenceForKey := key.user, true, MAX_SEQUENCE_NUMBER;
      }
      var drop := c.Drops(key, lastSequenceForKey, snap);
      lastSequenceForKey := key.sn;
      assert drop <==> !Survives(key, input, snap, c.levels, c.level);
      if !drop {
        assert Flatten(outs) + (builder + [key]) == Flatten(outs) + builder + [key];
        outs, builder := MaybeCut(outs, builder + [key]);
      }
    }
    assert es[..|es|] == es;
    outs, builder := Cut(outs, builder);
  }

  /** Finish the open output file, if there is one. */
  method Cut(outs: seq<seq<Entry>>, builder: seq<Entry>) returns (outs': seq<seq<Entry>>, builder': seq<Entry>)
    requires forall o | o in outs :: o != []
    ensures forall o | o in outs' :: o != []
    ensures Flatten(outs') == Flatten(outs) + builder && builder' == []
  {
    outs', builder' := outs, [];
    if builder != [] {
      FlattenAppend(outs, builder);
      outs' := outs + [builder];
    }
  }

  /** Where an output ends is not determined here. */
  method MaybeCut(outs: seq<seq<Entry>>, builder: seq<Entry>) returns (outs': seq<seq<Entry>>, builder': seq<Entry>)
    requires forall o | o in outs :: o != []
    ensures forall o | o in outs' :: o != []
    ensures Flatten(outs') + builder' == Flatten(outs) + builder
  {
    outs', builder' := outs, builder;
    if * {
      outs', builder' := Cut(outs, builder);
    }
  }

  // ---- The outputs are legal ----

  lemma {:induction false} SurvivorsSorted(es: seq<Entry>, input: set<Entry>, snap: nat, levels: Levels, L: nat)
    requires Sorted(es)
    ensures Sorted(Survivors(es, input, snap, levels, L))
  {
    if es != [] {
      var (rest, e) := (es[..|es| - 1], es[|es| - 1]);
      SurvivorsSorted(rest, input, snap, levels, L);
      var r := Survivors(rest, input, snap, levels, L);
      forall i | 0 <= i < |r| ensures Lt(r[i], e) {
        assert r[i] in r;
        var j :| 0 <= j < |rest| && rest[j] == r[i];
        assert es[j] == rest[j];
      }
    }
  }

  /** The pieces of a sorted sequence are sorted, and follow one another. */
  lemma {:induction false} PiecesInOrder(outs: seq<seq<Entry>>)
    requires Sorted(Flatten(outs))
    ensures forall i | 0 <= i < |outs| :: Sorted(outs[i])
    ensures forall i, j, x, y | 0 <= i < j < |outs| && x in outs[i] && y in outs[j] :: Lt(x, y)
    ensures forall e :: e in Flatten(outs) <==> exists i :: 0 <= i < |outs| && e in outs[i]
  {
    if outs != [] {
      var (rest, o) := (outs[..|outs| - 1], outs[|outs| - 1]);
      var (a, s) := (Flatten(rest), Flatten(outs));
      assert forall i | 0 <= i < |a| :: s[i] == a[i];
      assert forall i | 0 <= i < |o| :: s[|a| + i] == o[i];
      PiecesInOrder(rest);
      forall x, y | x in a && y in o ensures Lt(x, y) {
        var i :| 0 <= i < |a| && a[i] == x;
        var j :| 0 <= j < |o| && o[j] == y;
        assert Lt(s[i], s[|a| + j]);
      }
      assert forall i | 0 <= i < |rest| :: outs[i] == rest[i];
      forall e | e in s ensures exists i :: 0 <= i < |outs| && e in outs[i] {
        if e in a {
          var i :| 0 <= i < |rest| && e in rest[i];
          assert e in outs[i];
        } else {
          assert e in outs[|outs| - 1];
        }
      }
    }
  }

  /** Written to files under fresh distinct numbers, the loop's outputs are what a compaction may install. */
  lemma OutputsAreLegal(files: seq<File>, outs: seq<seq<Entry>>, es: seq<Entry>, levels: Levels, L: nat, in0: seq<File>, in1: seq<File>, snap: nat)
    requires L + 1 < |levels|
    requires Sorted(es) && SetOf(es) == Inputs(in0, in1)
    requires Flatten(outs) == Survivors(es, SetOf(es), snap, levels, L)
    requires |files| == |outs| && forall i | 0 <= i < |files| :: files[i].entries == outs[i]
    requires DistinctNumbers(files)
    requires forall f, g | f in files && g in levels[L + 1] :: f.number != g.number
    ensures LegalOutputs(files, levels, L, in0, in1, snap)
  {
    SurvivorsSorted(es, SetOf(es), snap, levels, L);
    PiecesInOrder(outs);
    forall e ensures e in FilesEntries(files) <==> e in Flatten(outs) {
      if e in Flatten(outs) {
        var i :| 0 <= i < |outs| && e in outs[i];
        assert files[i] in files && e in files[i].entries;
      }
    }
    assert FilesEntries(files) == set e | e in Inputs(in0, in1) && Survives(e, Inputs(in0, in1), snap, levels, L);
  }
}
