/**
 What every iterator promises (include/leveldb/iterator.h): a position in a sorted run of
 entries. Off either end it has no position, and only a seek gives it one again.
 */
module Cursors {
  import opened Options
  import opened Entries

  datatype Cursor = Cursor(es: seq<Entry>, at: Option<nat>) {
    ghost predicate Ok() {
      at.Some? ==> at.value < |es|
    }

    predicate Valid() {
      at.Some?
    }

    function Key(): Entry
      requires Ok() && Valid()
    {
      es[at.value]
    }

    function To(i: int): Cursor {
      this.(at := if 0 <= i < |es| then Some(i) else None)
    }

    function Next(): Cursor
      requires Valid()
    {
      To(at.value + 1)
    }

    function Prev(): Cursor
      requires Valid()
    {
      To(at.value - 1)
    }

    function SeekToFirst(): Cursor {
      To(0)
    }

    function SeekToLast(): Cursor {
      To(|es| - 1)
    }

    function Seek(k: UserKey, s: nat): Cursor {
      To(FirstAtOrAfter(es, k, s))
    }
  }
}
