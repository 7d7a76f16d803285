/** A memtable as the sorted list of its entries; the skip list behind it is modelled in SkipList.dfy. */
module Memtables {
  import opened Entries

  /** Sorted insertion into a memtable. */
  function InsertEntry(es: seq<Entry>, e: Entry): seq<Entry> {
    if es == [] || Lt(e, es[0]) then [e] + es else [es[0]] + InsertEntry(es[1..], e)
  }

  lemma {:induction false} InsertEntrySorted(es: seq<Entry>, e: Entry)
    requires Sorted(es) && forall x | x in es :: x.user != e.user || x.sn != e.sn
    ensures Sorted(InsertEntry(es, e))
    ensures SetOf(InsertEntry(es, e)) == SetOf(es) + {e}
  {
    if es != [] && !Lt(e, es[0]) {
      InsertEntrySorted(es[1..], e);
      assert es == [es[0]] + es[1..];
      var r := InsertEntry(es[1..], e);
      forall j | 0 <= j < |r| ensures Lt(es[0], r[j]) {
        assert r[j] in SetOf(r);
        assert es[0] in es;
      }
    } else {
      assert [e] + es == InsertEntry(es, e);
      forall j | 0 <= j < |es| ensures Lt(e, es[j]) {
      }
    }
  }
}
