/** Block::Iter (table/block.cc): a cursor over a block, by restart points and entry parsing. */
module BlockIterators {
  import opened Coding
  import opened Blocks

  /** i is the first position whose key is not below the target. */
  ghost predicate IsLowerBound(less: Less, items: seq<Item>, target: Bytes, i: nat) {
    && i <= |items|
    && (forall j :: 0 <= j < i ==> less(items[j].key, target))
    && (i < |items| ==> !less(items[i].key, target))
  }

  /** The block is a finished one over sorted items. */
  ghost predicate Finished(less: Less, l: Layout, data: Bytes, restarts: nat, numRestarts: nat) {
    && LayoutOk(l) && TotalOrder(less) && Ascending(less, l.items)
    && data == BlockBytes(l) && restarts == Off(l, |l.items|) && numRestarts == |l.starts|
  }

  /** Offset of entry i of a finished block. */
  ghost function At(l: Layout, i: nat): (p: nat)
    requires LayoutOk(l) && i <= |l.items|
    ensures p <= Off(l, |l.items|)
  {
    OffGrows(l, i, |l.items|);
    Off(l, i)
  }

  lemma AtOrders(l: Layout, i: nat, j: nat)
    requires LayoutOk(l) && i <= |l.items| && j <= |l.items|
    ensures At(l, i) < At(l, j) <==> i < j
  {
    if i < j {
      OffGrows(l, i, j);
    } else {
      OffGrows(l, j, i);
    }
  }

  /** A restart index covers entry i: its restart point is at or before it, the next at or after. */
  ghost predicate Covers(l: Layout, index: nat, i: nat) {
    && index < |l.starts| && l.starts[index] <= i
    && (index + 1 < |l.starts| ==> i <= l.starts[index + 1])
  }

  /** Key bytes with which entry i can be completed. */
  ghost predicate Completes(l: Layout, key: Bytes, i: nat)
    requires LayoutOk(l) && i < |l.items|
  {
    l.shared[i] > 0 ==> i > 0 && key == l.items[i - 1].key
  }

  /** What DecodeEntry finds at entry i, and the key it completes to. */
  ghost predicate Parses(l: Layout, data: Bytes, limit: nat, key: Bytes, i: nat)
    requires LayoutOk(l) && i < |l.items| && limit == At(l, |l.items|) <= |data|
  {
    var p, end := At(l, i), At(l, i + 1);
    var h := DecodeHeader(data[p..limit]);
    && h.Header? && h.shared <= |key|
    && p + h.length + h.nonShared + h.valueLength == end
    && key[..h.shared] + data[p + h.length..p + h.length + h.nonShared] == l.items[i].key
    && data[p + h.length + h.nonShared..end] == l.items[i].value
  }

  lemma EntryParses(l: Layout, data: Bytes, limit: nat, key: Bytes, i: nat)
    requires LayoutOk(l) && i < |l.items| && limit == At(l, |l.items|) <= |data| && data[..limit] == Body(l, |l.items|)
    requires Completes(l, key, i)
    ensures Parses(l, data, limit, key, i)
  {
    hide DecodeHeader, EntryBytes, Body, StartsOk;
    EntryAt(l, i, data, limit);
    EntryRoundTrip(l.shared[i], l.items[i], data[At(l, i)..limit]);
    assert SharesPrefix(l, i);
    HeaderParses(l.shared[i], l.items[i], data, At(l, i), limit, key, DecodeHeader(data[At(l, i)..limit]));
  }

  lemma HeaderParses(shared: nat, item: Item, data: Bytes, p: nat, limit: nat, key: Bytes, h: Header)
    requires p <= limit <= |data| && shared <= |item.key|
    requires h.Header? && h.length + h.nonShared + h.valueLength <= limit - p
    requires data[p..limit][h.length..h.length + h.nonShared] == item.key[shared..]
    requires data[p..limit][h.length + h.nonShared..h.length + h.nonShared + h.valueLength] == item.value
    requires shared <= |key| && key[..shared] == item.key[..shared]
    ensures key[..shared] + data[p + h.length..p + h.length + h.nonShared] == item.key
    ensures data[p + h.length + h.nonShared..p + h.length + h.nonShared + h.valueLength] == item.value
  {
    SliceOfSlice(data, p, limit, h.length, h.length + h.nonShared);
    SliceOfSlice(data, p, limit, h.length + h.nonShared, h.length + h.nonShared + h.valueLength);
    assert item.key[..shared] + item.key[shared..] == item.key;
  }

  /** An entry that parses without any earlier key carries its whole key. */
  lemma ParsesWhole(l: Layout, data: Bytes, limit: nat, i: nat)
    requires LayoutOk(l) && i < |l.items| && limit == At(l, |l.items|) <= |data| && Parses(l, data, limit, [], i)
    ensures var h, p := DecodeHeader(data[At(l, i)..limit]), At(l, i);
            h.Header? && h.shared == 0 && data[p + h.length..p + h.length + h.nonShared] == l.items[i].key
  {
    hide DecodeHeader, LayoutOk;
    var h, p := DecodeHeader(data[At(l, i)..limit]), At(l, i);
    assert [] + data[p + h.length..p + h.length + h.nonShared] == data[p + h.length..p + h.length + h.nonShared];
  }

  /** What the restart array of a finished block holds. */
  lemma RestartPoints(less: Less, l: Layout, data: Bytes, restarts: nat, numRestarts: nat, k: nat)
    requires Finished(less, l, data, restarts, numRestarts) && k < numRestarts
    ensures |data| == restarts + 4 * numRestarts + 4 && l.starts[k] <= |l.items|
    ensures GetFixed32(data[restarts + 4 * k..]) == At(l, l.starts[k])
    ensures data[..restarts] == Body(l, |l.items|)
  {
    BlockParts(l, data);
  }

  class BlockIter {
    const less: Less
    const data: Bytes
    const restarts: nat
    const numRestarts: nat
    /** What the builder put into the block, if a builder made it. */
    ghost const layout: Layout

    var current: nat
    var restartIndex: nat
    var key: Bytes
    var valueStart: nat
    var valueEnd: nat
    var corrupt: bool
    /** Position among the items. */
    ghost var pos: nat

    ghost predicate Sound() {
      Finished(less, layout, data, restarts, numRestarts)
    }

    ghost predicate Shape() {
      numRestarts > 0 && |data| == restarts + 4 * numRestarts + 4
    }

    /** The current entry is item number pos. */
    ghost predicate OnItem()
      requires Shape() && Sound() && pos < |layout.items|
      reads this
    {
      && current == At(layout, pos) && valueEnd == At(layout, pos + 1) && Covers(layout, restartIndex, pos)
      && key == layout.items[pos].key && valueStart <= valueEnd <= restarts && data[valueStart..valueEnd] == layout.items[pos].value
    }

    ghost predicate Placed()
      requires Shape()
      reads this
    {
      Sound() ==>
        && pos <= |layout.items| && (Valid() <==> pos < |layout.items|) && !corrupt
        && (pos < |layout.items| ==> OnItem())
    }

    ghost predicate InBlock()
      reads this
    {
      Valid() ==> restartIndex < numRestarts && current < valueEnd && valueStart <= valueEnd <= restarts
    }

    ghost predicate Ok()
      reads this
    {
      Shape() && InBlock() && Placed()
    }

    constructor (less: Less, data: Bytes, restarts: nat, numRestarts: nat, ghost layout: Layout)
      requires numRestarts > 0 && |data| == restarts + 4 * numRestarts + 4
      ensures Ok() && !Valid() && this.data == data && this.layout == layout && this.less == less
      ensures this.restarts == restarts && this.numRestarts == numRestarts
    {
      this.less, this.data, this.restarts, this.numRestarts, this.layout := less, data, restarts, numRestarts, layout;
      current, restartIndex, key, valueStart, valueEnd, corrupt := restarts, numRestarts, [], 0, 0, false;
      pos := |layout.items|;
    }

    predicate Valid()
      reads this
    {
      current < restarts
    }

    function Key(): Bytes
      requires Ok() && Valid()
      reads this
    {
      key
    }

    function Value(): Bytes
      requires Ok() && Valid()
      reads this
    {
      data[valueStart..valueEnd]
    }

    /** Key and value are those of the item at pos. */
    lemma CurrentIsItem()
      requires Ok() && Sound() && Valid()
      ensures pos < |layout.items| && layout.items[pos] == Item(Key(), Value())
    {
    }

    function GetRestartPoint(index: nat): nat
      requires Shape() && index < numRestarts
    {
      GetFixed32(data[restarts + 4 * index..])
    }

    method SeekToRestartPoint(index: nat)
      requires Shape() && index < numRestarts
      modifies this
      ensures restartIndex == index && key == [] && valueStart == valueEnd == GetRestartPoint(index)
      ensures current == old(current) && corrupt == old(corrupt) && pos == old(pos)
    {
      key := [];
      restartIndex := index;
      var offset := GetRestartPoint(index);
      valueStart, valueEnd := offset, offset;
    }

    method CorruptionError()
      modifies this
      ensures current == restarts && corrupt
    {
      current, restartIndex := restarts, numRestarts;
      corrupt := true;
      key, valueStart, valueEnd := [], 0, 0;
    }

    /** The parser stands before entry i, knowing what it needs of the key before. */
    ghost predicate Ready(i: nat)
      requires Shape()
      reads this
    {
      Sound() ==>
        && i <= |layout.items| && valueEnd == At(layout, i) && !corrupt
        && restartIndex < numRestarts && layout.starts[restartIndex] <= i
        && (i < |layout.items| ==> Completes(layout, key, i))
    }

    /** Moves to the entry at the end of the current value; false at the end of the block. */
    method ParseNextKey(ghost i: nat) returns (more: bool)
      requires Shape() && Ready(i) && restartIndex < numRestarts
      modifies this
      ensures Ok() && (more <==> Valid()) && (Sound() ==> pos == i)
      ensures more ==> current == old(valueEnd)
    {
      hide Finished, LayoutOk, DecodeHeader, Parses, Covers, Completes, At;
      pos := i;
      current := valueEnd;
      if current >= restarts {
        current, restartIndex := restarts, numRestarts;
        if Sound() {
          EndOfEntries(i);
        }
        return false;
      }
      if Sound() {
        EndOfEntries(i);
        NextParses(i);
      }
      var h := DecodeEntry(data[current..restarts]);
      if h.BadEntry? || |key| < h.shared {
        CorruptionError();
        return false;
      }
      var p := current + h.length;
      key := key[..h.shared] + data[p..p + h.nonShared];
      valueStart, valueEnd := p + h.nonShared, p + h.nonShared + h.valueLength;
      AdvanceRestartIndex(i);
      return true;
    }

    /** The restart index follows the entries. */
    method AdvanceRestartIndex(ghost i: nat)
      requires Shape() && restartIndex < numRestarts
      requires Sound() ==> i <= |layout.items| && current == At(layout, i) && restartIndex < |layout.starts| && layout.starts[restartIndex] <= i
      modifies `restartIndex
      ensures restartIndex < numRestarts && (Sound() ==> Covers(layout, restartIndex, i))
    {
      hide Finished, LayoutOk, At;
      if Sound() {
        SoundLayout();
      }
      while restartIndex + 1 < numRestarts && GetRestartPoint(restartIndex + 1) < current
        invariant restartIndex < numRestarts
        invariant Sound() ==> restartIndex < |layout.starts| && layout.starts[restartIndex] <= i
        decreases numRestarts - restartIndex
      {
        if Sound() {
          RestartOrders(restartIndex + 1, i);
        }
        restartIndex := restartIndex + 1;
      }
      if Sound() && restartIndex + 1 < numRestarts {
        RestartOrders(restartIndex + 1, i);
      }
    }

    lemma RestartOrders(k: nat, i: nat)
      requires Shape() && Sound() && k < numRestarts && i <= |layout.items|
      ensures GetRestartPoint(k) < At(layout, i) <==> layout.starts[k] < i
    {
      RestartPoints(less, layout, data, restarts, numRestarts, k);
      AtOrders(layout, layout.starts[k], i);
    }

    /** Entries end where the restart array begins. */
    lemma EndOfEntries(i: nat)
      requires Shape() && Sound() && i <= |layout.items|
      ensures LayoutOk(layout) && numRestarts == |layout.starts|
      ensures At(layout, i) < restarts <==> i < |layout.items|
    {
      AtOrders(layout, i, |layout.items|);
    }

    lemma NextParses(i: nat)
      requires Shape() && Sound() && i < |layout.items| && Completes(layout, key, i)
      ensures Off(layout, |layout.items|) == At(layout, |layout.items|) == restarts <= |data|
      ensures Parses(layout, data, restarts, key, i)
    {
      RestartPoints(less, layout, data, restarts, numRestarts, 0);
      EntryParses(layout, data, restarts, key, i);
    }

    method Next()
      requires Ok() && Valid()
      modifies this
      ensures Ok() && (Sound() ==> pos == old(pos) + 1)
    {
      if Sound() {
        KeyCompletesNext();
      }
      var more := ParseNextKey(pos + 1);
    }

    lemma KeyCompletesNext()
      requires Ok() && Valid() && Sound()
      ensures Ready(pos + 1)
    {
    }

    /** A restart point needs no earlier key. */
    lemma ReadyAtRestart(k: nat)
      requires Shape() && Sound() && k < numRestarts && restartIndex == k && valueEnd == GetRestartPoint(k) && !corrupt
      ensures k < |layout.starts| && Ready(layout.starts[k])
    {
      RestartPoints(less, layout, data, restarts, numRestarts, k);
    }

    /** Prev goes back to a restart point before the current entry and scans forward to the entry
        just before it. */
    method Prev()
      requires Ok() && Valid()
      modifies this
      ensures Ok()
      ensures Sound() ==> pos == if old(pos) == 0 then |layout.items| else old(pos) - 1
    {
      hide Finished, LayoutOk, Covers, Completes, At, OnItem;
      var original := current;
      ghost var target := pos;
      if Sound() {
        FactsOnItem();
      }
      while GetRestartPoint(restartIndex) >= original
        invariant Shape() && restartIndex < numRestarts && current == old(current) && (Sound() ==> !corrupt)
        invariant unchanged(`pos)
        decreases restartIndex
      {
        if restartIndex == 0 {
          if Sound() {
            RestartOrders(0, target);
            FirstRestart();
          }
          current, restartIndex := restarts, numRestarts;
          pos := |layout.items|;
          return;
        }
        restartIndex := restartIndex - 1;
      }
      SeekToRestartPoint(restartIndex);
      ghost var i := 0;
      if Sound() {
        RestartOrders(restartIndex, target);
        ReadyAtRestart(restartIndex);
        i := layout.starts[restartIndex];
      }
      var more := ParseNextKey(i);
      while more && valueEnd < original
        invariant Ok() && (more <==> Valid())
        invariant Sound() ==> pos < target && more
        decreases if more then restarts - valueEnd + 1 else 0
      {
        if Sound() {
          FactsOnItem();
          AtOrders(layout, pos + 1, target) by { SoundLayout(); }
          KeyCompletesNext();
        }
        more := ParseNextKey(pos + 1);
      }
      if Sound() {
        FactsOnItem();
        SoundLayout();
        AtOrders(layout, pos + 1, target);
      }
    }

    lemma SoundLayout()
      requires Sound()
      ensures LayoutOk(layout) && numRestarts == |layout.starts| && TotalOrder(less) && Ascending(less, layout.items)
    {
    }

    lemma FirstRestart()
      requires Sound()
      ensures |layout.starts| > 0 && layout.starts[0] == 0
    {
    }

    lemma FactsOnItem()
      requires Ok() && Valid() && Sound()
      ensures LayoutOk(layout) && pos < |layout.items| && current == At(layout, pos) && valueEnd == At(layout, pos + 1) && !corrupt
    {
    }

    /** Seek: binary search for the last restart point with a key below the target, then a scan. It
        stops at the first item whose key is not below the target. */
    method Seek(target: Bytes)
      requires Ok()
      modifies this
      ensures Ok()
      ensures Sound() ==> IsLowerBound(less, layout.items, target, pos)
    {
      hide Finished, LayoutOk, Covers, Completes, At, OnItem, TotalOrder, Ascending;
      var left, right := 0, numRestarts - 1;
      if Sound() {
        FirstRestart();
      }
      while left < right
        invariant Ok() && 0 <= left <= right < numRestarts
        invariant Sound() ==> StartBelow(left, target)
        decreases right - left
      {
        var mid := (left + right + 1) / 2;
        var regionOffset := GetRestartPoint(mid);
        if Sound() {
          RestartEntry(mid);
        }
        if regionOffset > restarts {
          CorruptionError();
          return;
        }
        var h := DecodeEntry(data[regionOffset..restarts]);
        if h.BadEntry? || h.shared != 0 {
          CorruptionError();
          return;
        }
        var midKey := data[regionOffset + h.length..regionOffset + h.length + h.nonShared];
        if less(midKey, target) {
          if Sound() {
            BelowRestart(mid, target);
          }
          left := mid;
        } else {
          right := mid - 1;
        }
      }
      SeekToRestartPoint(left);
      ghost var i := 0;
      if Sound() {
        ReadyAtRestart(left);
        i := layout.starts[left];
      }
      LinearSearch(target, i);
    }

    /** From a restart point on, to the first item not below the target. */
    method LinearSearch(target: Bytes, ghost i: nat)
      requires Shape() && Ready(i) && restartIndex < numRestarts
      requires Sound() ==> i <= |layout.items| && forall j :: 0 <= j < i ==> less(layout.items[j].key, target)
      modifies this
      ensures Ok()
      ensures Sound() ==> IsLowerBound(less, layout.items, target, pos)
    {
      hide Finished, LayoutOk, Covers, Completes, At, OnItem, TotalOrder, Ascending;
      var more := ParseNextKey(i);
      while more && less(key, target)
        invariant Ok() && (more <==> Valid())
        invariant Sound() ==> forall j :: 0 <= j < pos ==> less(layout.items[j].key, target)
        decreases if more then restarts - valueEnd + 1 else 0
      {
        if Sound() {
          FactsOnItem();
          CurrentIsItem();
          KeyCompletesNext();
        }
        more := ParseNextKey(pos + 1);
      }
      if Sound() && more {
        CurrentIsItem();
      }
    }

    /** The items before restart point k are all below the target. */
    ghost predicate StartBelow(k: nat, target: Bytes) {
      k < |layout.starts| && layout.starts[k] <= |layout.items|
      && forall j :: 0 <= j < layout.starts[k] ==> less(layout.items[j].key, target)
    }

    /** The entry at restart point k carries its whole key. */
    lemma RestartEntry(k: nat)
      requires Shape() && Sound() && 0 < k < numRestarts
      ensures k < |layout.starts| && layout.starts[k] < |layout.items|
      ensures GetRestartPoint(k) <= restarts
      ensures var h, p := DecodeHeader(data[GetRestartPoint(k)..restarts]), GetRestartPoint(k);
              && h.Header? && h.shared == 0 && data[p + h.length..p + h.length + h.nonShared] == layout.items[layout.starts[k]].key
    {
      hide DecodeHeader, Parses, Body;
      RestartPoints(less, layout, data, restarts, numRestarts, k);
      EntryParses(layout, data, restarts, [], layout.starts[k]);
      ParsesWhole(layout, data, restarts, layout.starts[k]);
    }

    lemma BelowRestart(k: nat, target: Bytes)
      requires Sound() && k < |layout.starts| && layout.starts[k] < |layout.items| && less(layout.items[layout.starts[k]].key, target)
      ensures StartBelow(k, target)
    {
      var m := layout.items[layout.starts[k]].key;
      forall j | 0 <= j < layout.starts[k] ensures less(layout.items[j].key, target) {
        assert less(layout.items[j].key, m);
      }
    }

    /** Every restart point is an entry, unless there are none. */
    lemma StartInRange(k: nat)
      requires Sound() && k < |layout.starts|
      ensures layout.starts[k] < |layout.items| || (layout.items == [] && layout.starts[k] == 0)
    {
    }

    method SeekToFirst()
      requires Ok()
      modifies this
      ensures Ok() && (Sound() ==> pos == 0)
    {
      SeekToRestartPoint(0);
      if Sound() {
        ReadyAtRestart(0);
        FirstRestart();
      }
      var more := ParseNextKey(0);
    }

    method SeekToLast()
      requires Ok()
      modifies this
      ensures Ok() && (Sound() ==> pos == if layout.items == [] then 0 else |layout.items| - 1)
    {
      hide Finished, LayoutOk, Covers, Completes, At, OnItem;
      SeekToRestartPoint(numRestarts - 1);
      ghost var i := 0;
      if Sound() {
        ReadyAtRestart(numRestarts - 1);
        StartInRange(numRestarts - 1);
        i := layout.starts[numRestarts - 1];
      }
      var more := ParseNextKey(i);
      while more && valueEnd < restarts
        invariant Ok() && (more <==> Valid())
        invariant Sound() && !more ==> layout.items == []
        decreases if more then restarts - valueEnd + 1 else 0
      {
        if Sound() {
          FactsOnItem();
          EndOfEntries(pos + 1);
          KeyCompletesNext();
        }
        more := ParseNextKey(pos + 1);
      }
      if Sound() && more {
        FactsOnItem();
        EndOfEntries(pos + 1);
      }
    }
  }
}
