/** The iterator interface over a sorted table: what an internal iterator promises its user
    (include/leveldb/iterator.h). An iterator that has run off either end is simply not valid;
    position |entries| stands for that. */
module Cursors {
  import opened InternalKeys

  class Cursor {
    const entries: Table
    var pos: nat

    ghost predicate Ok()
      reads this
    {
      Sorted(entries) && pos <= |entries|
    }

    constructor (entries: Table)
      requires Sorted(entries)
      ensures Ok() && this.entries == entries && !Valid()
    {
      this.entries := entries;
      pos := |entries|;
    }

    predicate Valid()
      reads this
    {
      pos < |entries|
    }

    function Key(): InternalKey
      requires Valid()
      reads this
    {
      entries[pos].key
    }

    function Value(): Value
      requires Valid()
      reads this
    {
      entries[pos].value
    }

    method Next()
      requires Ok() && Valid()
      modifies this
      ensures Ok() && pos == old(pos) + 1
    {
      pos := pos + 1;
    }

    method Prev()
      requires Ok() && Valid()
      modifies this
      ensures Ok() && pos == if old(pos) == 0 then |entries| else old(pos) - 1
    {
      pos := if pos == 0 then |entries| else pos - 1;
    }

    method Seek(target: InternalKey)
      requires Ok()
      modifies this
      ensures Ok() && pos == LowerBound(entries, target)
    {
      pos := LowerBound(entries, target);
    }

    method SeekToFirst()
      requires Ok()
      modifies this
      ensures Ok() && pos == 0
    {
      pos := 0;
    }

    method SeekToLast()
      requires Ok()
      modifies this
      ensures Ok() && pos == if |entries| == 0 then 0 else |entries| - 1
    {
      pos := if |entries| == 0 then 0 else |entries| - 1;
    }
  }
}
