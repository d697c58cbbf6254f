/** BlockBuilder (table/block_builder.cc), and opening a finished block (table/block.cc). */
module BlockBuilders {
  import opened Coding
  import opened Blocks
  import opened BlockIterators

  /** Shared prefixes are as long as they can be, except at restart points. */
  ghost predicate Tight(l: Layout)
    requires Shares(l)
  {
    forall i :: 0 < i < |l.items| && i !in l.starts ==> StopsSharing(l.items[i - 1].key, l.items[i].key, l.shared[i])
  }

  ghost predicate StopsSharing(a: Bytes, b: Bytes, n: nat) {
    n <= |a| && n <= |b| && (n < |a| && n < |b| ==> a[n] != b[n])
  }

  /** Restart points come every `interval` entries. */
  ghost predicate Spaced(l: Layout, interval: nat) {
    forall j, k :: 0 <= j < k < |l.starts| && k == j + 1 ==> l.starts[k] == l.starts[j] + interval
  }

  ghost function Extended(l: Layout, item: Item, shared: nat, restart: bool): Layout {
    Layout(l.items + [item], l.shared + [shared], if restart then l.starts + [|l.items|] else l.starts)
  }

  lemma {:induction false} BodyExtended(l: Layout, item: Item, shared: nat, restart: bool, n: nat)
    requires Shares(l) && Shares(Extended(l, item, shared, restart)) && n <= |l.items|
    ensures Body(Extended(l, item, shared, restart), n) == Body(l, n)
  {
    if n > 0 {
      BodyExtended(l, item, shared, restart, n - 1);
      assert SharesPrefix(l, n - 1);
    }
  }

  ghost predicate Lengths(l: Layout) {
    forall i :: 0 <= i < |l.items| ==> |l.items[i].key| < WORD && |l.items[i].value| < WORD
  }

  /** The layout of a block under construction. */
  ghost predicate LayoutSoFar(l: Layout, interval: nat, counter: nat) {
    && Shares(l) && StartsOk(l) && Tight(l) && Spaced(l, interval) && Lengths(l)
    && counter == |l.items| - l.starts[|l.starts| - 1] <= interval
  }

  ghost function LastKey(l: Layout): Bytes {
    if l.items == [] then [] else l.items[|l.items| - 1].key
  }

  lemma SharesExtends(l: Layout, item: Item, shared: nat, restart: bool)
    requires Shares(l) && shared <= |item.key| && shared <= |LastKey(l)| && LastKey(l)[..shared] == item.key[..shared]
    ensures Shares(Extended(l, item, shared, restart))
  {
    var m := Extended(l, item, shared, restart);
    forall i | 0 <= i < |m.items| ensures SharesPrefix(m, i) {
      if i < |l.items| {
        assert SharesPrefix(l, i) && m.items[i] == l.items[i] && m.shared[i] == l.shared[i];
        assert i > 0 ==> m.items[i - 1] == l.items[i - 1];
      } else {
        assert m.items[i] == item && m.shared[i] == shared;
        assert i > 0 ==> m.items[i - 1].key == LastKey(l);
      }
    }
  }

  lemma TightExtends(l: Layout, item: Item, shared: nat, restart: bool)
    requires Shares(l) && Shares(Extended(l, item, shared, restart)) && Tight(l)
    requires !restart ==> StopsSharing(LastKey(l), item.key, shared)
    ensures Tight(Extended(l, item, shared, restart))
  {
    var m := Extended(l, item, shared, restart);
    forall i | 0 < i < |m.items| && i !in m.starts
      ensures StopsSharing(m.items[i - 1].key, m.items[i].key, m.shared[i])
    {
      if i < |l.items| {
        assert i !in l.starts;
        assert StopsSharing(l.items[i - 1].key, l.items[i].key, l.shared[i]);
      }
    }
  }

  lemma StartsExtend(l: Layout, interval: nat, item: Item, shared: nat, restart: bool)
    requires |l.items| == |l.shared| && StartsOk(l) && Spaced(l, interval) && interval > 0
    requires restart ==> shared == 0 && |l.items| == l.starts[|l.starts| - 1] + interval
    requires l.items == [] ==> shared == 0
    ensures StartsOk(Extended(l, item, shared, restart)) && Spaced(Extended(l, item, shared, restart), interval)
  {
    var m := Extended(l, item, shared, restart);
    if restart {
      NewRestart(l, interval, m);
    } else {
      assert m.starts == l.starts;
      assert forall k :: 0 <= k < |l.starts| && l.starts[k] < |l.items| ==> m.shared[l.starts[k]] == l.shared[l.starts[k]];
    }
  }

  lemma NewRestart(l: Layout, interval: nat, m: Layout)
    requires |l.items| == |l.shared| && StartsOk(l) && Spaced(l, interval) && interval > 0
    requires |l.items| == l.starts[|l.starts| - 1] + interval
    requires |m.items| == |m.shared| == |l.items| + 1 && m.starts == l.starts + [|l.items|] && m.shared == l.shared + [0]
    ensures StartsOk(m) && Spaced(m, interval)
  {
    var n := |l.starts|;
    forall k | 0 <= k < n ensures m.starts[k] == l.starts[k] < |l.items| && m.shared[l.starts[k]] == 0 {
      assert k == n - 1 || l.starts[k] < l.starts[n - 1];
    }
  }

  /** Adding an item, compressed against the last key or as a new restart point. */
  lemma LayoutExtends(l: Layout, interval: nat, counter: nat, item: Item, shared: nat, restart: bool)
    requires LayoutSoFar(l, interval, counter) && interval > 0 && |item.key| < WORD && |item.value| < WORD
    requires restart <==> counter == interval
    requires if restart then shared == 0 else StopsSharing(LastKey(l), item.key, shared) && LastKey(l)[..shared] == item.key[..shared]
    ensures LayoutSoFar(Extended(l, item, shared, restart), interval, if restart then 1 else counter + 1)
  {
    SharesExtends(l, item, shared, restart);
    TightExtends(l, item, shared, restart);
    StartsExtend(l, interval, item, shared, restart);
    hide Shares, Tight, Spaced, StartsOk;
  }

  /** Restart points are the entries 0, interval, 2 * interval and so on; any other entry shares all it can
      with the one before. */
  ghost predicate Regular(l: Layout, interval: nat)
    requires |l.items| == |l.shared| && interval > 0
  {
    && (forall k :: 0 <= k < |l.starts| ==> l.starts[k] == k * interval)
    && (|l.starts| - 1) * interval <= |l.items| <= |l.starts| * interval
    && forall i :: 0 < i < |l.items| && i !in l.starts ==> SharesMost(l.items[i - 1].key, l.items[i].key, l.shared[i])
  }

  ghost predicate SharesMost(a: Bytes, b: Bytes, m: nat) {
    Common(a, b, m) && forall n: nat :: Common(a, b, n) ==> n <= m
  }

  /** The strings agree in their first n bytes. */
  ghost predicate Common(a: Bytes, b: Bytes, n: nat) {
    n <= |a| && n <= |b| && a[..n] == b[..n]
  }

  lemma IsRegular(l: Layout, interval: nat, counter: nat)
    requires LayoutSoFar(l, interval, counter) && interval > 0
    ensures Regular(l, interval)
  {
    forall k: nat | k < |l.starts| ensures l.starts[k] == k * interval {
      StartIs(l, interval, k);
    }
    var last := |l.starts| - 1;
    assert |l.starts| * interval == last * interval + interval;
    forall i | 0 < i < |l.items| && i !in l.starts ensures SharesMost(l.items[i - 1].key, l.items[i].key, l.shared[i]) {
      assert SharesPrefix(l, i) && StopsSharing(l.items[i - 1].key, l.items[i].key, l.shared[i]);
      StopsAtMost(l.items[i - 1].key, l.items[i].key, l.shared[i]);
    }
  }

  lemma StopsAtMost(a: Bytes, b: Bytes, m: nat)
    requires StopsSharing(a, b, m) && a[..m] == b[..m]
    ensures SharesMost(a, b, m)
  {
    forall n: nat | Common(a, b, n) ensures n <= m {
      assert forall k :: 0 <= k < n ==> a[..n][k] == a[k] && b[..n][k] == b[k];
    }
  }

  lemma {:induction false} StartIs(l: Layout, interval: nat, k: nat)
    requires |l.items| == |l.shared| && StartsOk(l) && Spaced(l, interval) && k < |l.starts|
    ensures l.starts[k] == k * interval
  {
    if k > 0 {
      StartIs(l, interval, k - 1);
      assert l.starts[k] == l.starts[k - 1] + interval;
      assert k * interval == (k - 1) * interval + interval;
    }
  }

  lemma EmptyLayout(interval: nat)
    ensures LayoutSoFar(Layout([], [], [0]), interval, 0)
    ensures Off(Layout([], [], [0]), 0) == 0 && Body(Layout([], [], [0]), 0) == []
  {
  }

  class BlockBuilder {
    const interval: nat
    var buffer: Bytes
    var restarts: seq<nat>
    var counter: nat
    var finished: bool
    var lastKey: Bytes
    ghost var layout: Layout

    ghost predicate Ok()
      reads this
    {
      && interval > 0 && LayoutSoFar(layout, interval, counter)
      && lastKey == LastKey(layout)
      && Stored(layout, restarts)
      && (!finished ==> buffer == Body(layout, |layout.items|))
    }

    constructor (interval: nat)
      requires interval >= 1
      ensures Ok() && !finished && layout.items == [] && this.interval == interval
    {
      this.interval := interval;
      buffer, restarts, counter, finished, lastKey := [], [0], 0, false, [];
      layout := Layout([], [], [0]);
    }

    /** Start over with an empty block. */
    method Reset()
      requires Ok()
      modifies this
      ensures Ok() && !finished && layout.items == []
    {
      hide LayoutSoFar, Shares;
      buffer, restarts, counter, finished, lastKey := [], [0], 0, false, [];
      layout := Layout([], [], [0]);
      EmptyLayout(interval);
    }

    /** The restart array holds the offsets of the restart points. */
    ghost predicate Stored(l: Layout, rs: seq<nat>)
      requires Shares(l)
    {
      |rs| == |l.starts| && forall k :: 0 <= k < |rs| ==> l.starts[k] <= |l.items| && rs[k] == Off(l, l.starts[k])
    }

    /** Appends one item; everything before it is untouched. */
    method Add(key: Bytes, value: Bytes)
      requires Ok() && !finished && |key| < WORD && |value| < WORD
      modifies this
      ensures Ok() && !finished && layout.items == old(layout.items) + [Item(key, value)]
      ensures |buffer| > |old(buffer)|
    {
      hide LayoutSoFar, Stored, Body, Shares, EntryBytes, StopsSharing;
      ghost var l, item := layout, Item(key, value);
      SoFarFacts();
      var shared := 0;
      var restart := counter >= interval;
      if !restart {
        shared := CommonPrefix(lastKey, key);
        SharedFits(lastKey, key, shared);
      } else {
        restarts := restarts + [|buffer|];
        counter := 0;
      }
      AppendEntry(shared, key, value);
      LayoutExtends(l, interval, old(counter), item, shared, restart);
      layout := Extended(l, item, shared, restart);
      ExtendedShares(interval, if restart then 1 else old(counter) + 1);
      StoredParts(l, item, shared, restart);
      StoredExtends(l, old(restarts), item, shared, restart);
      lastKey := lastKey[..shared] + key[shared..];
      assert lastKey == key by { assert key[..shared] + key[shared..] == key; }
      counter := counter + 1;
    }

    lemma ExtendedShares(interval: nat, counter: nat)
      requires LayoutSoFar(layout, interval, counter)
      ensures Shares(layout)
    {
    }

    lemma SharedFits(a: Bytes, b: Bytes, n: nat)
      requires StopsSharing(a, b, n)
      ensures n <= |a| && n <= |b|
    {
    }

    method AppendEntry(shared: nat, key: Bytes, value: Bytes)
      requires shared <= |key|
      modifies `buffer
      ensures buffer == old(buffer) + EntryBytes(shared, Item(key, value))
    {
      var nonShared := |key| - shared;
      EntryIs(buffer, shared, Item(key, value));
      hide EntryBytes, PutVarint;
      buffer := buffer + PutVarint(shared);
      buffer := buffer + PutVarint(nonShared);
      buffer := buffer + PutVarint(|value|);
      buffer := buffer + key[shared..];
      buffer := buffer + value;
    }

    lemma SoFarFacts()
      requires Ok()
      ensures Shares(layout) && counter <= interval && (!finished ==> |buffer| == Off(layout, |layout.items|))
      ensures |LastKey(layout)| <= |lastKey|
    {
    }

    lemma StoredExtends(l: Layout, rs: seq<nat>, item: Item, shared: nat, restart: bool)
      requires Shares(l) && Shares(Extended(l, item, shared, restart)) && Stored(l, rs)
      requires forall i :: 0 <= i <= |l.items| ==> Off(Extended(l, item, shared, restart), i) == Off(l, i)
      ensures Stored(Extended(l, item, shared, restart), if restart then rs + [Off(l, |l.items|)] else rs)
    {
    }

    lemma EntryIs(before: Bytes, shared: nat, item: Item)
      requires shared <= |item.key|
      ensures before + PutVarint(shared) + PutVarint(|item.key| - shared) + PutVarint(|item.value|) + item.key[shared..] + item.value
              == before + EntryBytes(shared, item)
    {
      hide PutVarint;
    }

    /** Offsets of the old entries stay, and the new entry lies behind them. */
    static lemma StoredParts(l: Layout, item: Item, shared: nat, restart: bool)
      requires Shares(l) && Shares(Extended(l, item, shared, restart))
      ensures var m := Extended(l, item, shared, restart);
              && shared <= |item.key| && Body(m, |m.items|) == Body(l, |l.items|) + EntryBytes(shared, item)
              && forall i :: 0 <= i <= |l.items| ==> Off(m, i) == Off(l, i)
    {
      var m := Extended(l, item, shared, restart);
      forall i | 0 <= i <= |l.items| ensures Off(m, i) == Off(l, i) {
        BodyExtended(l, item, shared, restart, i);
      }
      BodyExtended(l, item, shared, restart, |l.items|);
      assert SharesPrefix(m, |l.items|);
    }

    /** How much of the previous key can be shared. */
    static method CommonPrefix(a: Bytes, b: Bytes) returns (n: nat)
      ensures StopsSharing(a, b, n) && a[..n] == b[..n]
    {
      n := 0;
      var min := if |a| <= |b| then |a| else |b|;
      while n < min && a[n] == b[n]
        invariant n <= min && a[..n] == b[..n]
      {
        n := n + 1;
      }
    }

    /** The finished block. */
    method Finish() returns (block: Bytes)
      requires Ok() && !finished && |buffer| < WORD && |restarts| < WORD
      modifies this
      ensures Ok() && finished && layout == old(layout) && LayoutOk(layout) && block == BlockBytes(layout)
    {
      hide Body, PutFixed32, RestartBytes, Shares, StartsOk, Tight, Spaced, Lengths;
      ghost var l, body := layout, buffer;
      LayoutComplete(l, interval, counter);
      for i := 0 to |restarts|
        invariant unchanged(`layout) && unchanged(`restarts) && unchanged(`counter) && unchanged(`lastKey) && unchanged(`finished)
        invariant buffer == body + RestartBytes(l, i)
      {
        RestartStep(l, i);
        buffer := buffer + PutFixed32(restarts[i]);
      }
      buffer := buffer + PutFixed32(|restarts|);
      finished := true;
      block := buffer;
    }

    /** A block, finished or not, is compressed as far as its restart points allow. */
    lemma LayoutIsRegular()
      requires Ok()
      ensures |layout.items| == |layout.shared| && interval > 0 && Regular(layout, interval)
    {
      IsRegular(layout, interval, counter);
    }

    static lemma RestartStep(l: Layout, i: nat)
      requires LayoutOk(l) && i < |l.starts|
      ensures RestartBytes(l, 0) == [] && l.starts[i] <= |l.items| && Off(l, l.starts[i]) < WORD
      ensures RestartBytes(l, i + 1) == RestartBytes(l, i) + PutFixed32(Off(l, l.starts[i]))
    {
      OffGrows(l, l.starts[i], |l.items|);
    }

    static lemma LayoutComplete(l: Layout, interval: nat, counter: nat)
      requires LayoutSoFar(l, interval, counter) && Off(l, |l.items|) < WORD && |l.starts| < WORD
      ensures LayoutOk(l) && RestartBytes(l, 0) == []
    {
    }
  }

  /** Block::Block and Block::NewIterator: an iterator over the contents, or null when the contents
      cannot be a block, or are an empty one. A finished block over sorted items is always opened,
      and its iterator starts off the end. */
  method NewIterator(less: Less, contents: Bytes, ghost layout: Layout) returns (it: BlockIter?)
    ensures it != null ==> it.Ok() && !it.Valid() && it.less == less && it.data == contents && it.layout == layout && fresh(it)
    ensures LayoutOk(layout) && TotalOrder(less) && Ascending(less, layout.items) && contents == BlockBytes(layout) ==>
              it != null && it.Sound()
  {
    ghost var finished := LayoutOk(layout) && TotalOrder(less) && Ascending(less, layout.items) && contents == BlockBytes(layout);
    if finished {
      BlockParts(layout, contents);
    }
    if |contents| < 4 {
      return null;
    }
    var numRestarts := GetFixed32(contents[|contents| - 4..]);
    var maxRestartsAllowed := (|contents| - 4) / 4;
    if numRestarts > maxRestartsAllowed {
      return null;
    }
    var restartOffset := |contents| - (1 + numRestarts) * 4;
    if numRestarts == 0 {
      return null;
    }
    it := new BlockIter(less, contents, restartOffset, numRestarts, layout);
  }
}
