/** Tables: data blocks, an index of separators and a filter block (table/table_builder.cc,
    table/table.cc). A block is its entries and its offset; how it is laid out is another module's
    business. */
module Tables {
  import opened InternalKeys
  import opened Coding
  import opened Comparators
  import opened Filters
  import opened FilterBlocks

  datatype TableEntry = TableEntry(key: TableKey, value: Bytes)
  datatype DataBlock = DataBlock(offset: nat, entries: seq<TableEntry>)
  datatype IndexEntry = IndexEntry(separator: TableKey, block: nat)

  /** Bytes that follow every block in the file. */
  const TRAILER_SIZE: nat := 5

  ghost predicate EntriesAscend(es: seq<TableEntry>) {
    forall i, j :: 0 <= i < j < |es| ==> KeyBefore(es[i].key, es[j].key)
  }

  function FirstKey(b: DataBlock): TableKey
    requires b.entries != []
  {
    b.entries[0].key
  }

  function LastKey(b: DataBlock): TableKey
    requires b.entries != []
  {
    b.entries[|b.entries| - 1].key
  }

  /** No block is empty, and keys ascend within and across blocks. */
  ghost predicate BlocksAscend(bs: seq<DataBlock>) {
    && (forall i :: 0 <= i < |bs| ==> bs[i].entries != [] && EntriesAscend(bs[i].entries))
    && (forall i, j :: 0 <= i < j < |bs| ==> KeyBefore(LastKey(bs[i]), FirstKey(bs[j])))
  }

  /** Index entry i leads to block i and separates it from the next; the last lies behind its block. */
  ghost predicate IndexEntryOk(bs: seq<DataBlock>, ix: seq<IndexEntry>, i: nat)
    requires i < |ix| <= |bs| && forall i :: 0 <= i < |bs| ==> bs[i].entries != []
  {
    && ix[i].block == i
    && (if i + 1 < |bs| then Separates(LastKey(bs[i]), ix[i].separator, FirstKey(bs[i + 1]))
        else KeyAtOrBefore(LastKey(bs[i]), ix[i].separator))
  }

  ghost predicate IndexComplete(bs: seq<DataBlock>, ix: seq<IndexEntry>)
    requires forall i :: 0 <= i < |bs| ==> bs[i].entries != []
  {
    |ix| == |bs| && forall i :: 0 <= i < |ix| ==> IndexEntryOk(bs, ix, i)
  }

  ghost predicate InTable(bs: seq<DataBlock>, e: TableEntry) {
    exists b :: 0 <= b < |bs| && e in bs[b].entries
  }

  /** e is the first entry at or after k. */
  ghost predicate IsFirstFrom(bs: seq<DataBlock>, k: TableKey, e: TableEntry) {
    && InTable(bs, e) && !KeyBefore(e.key, k)
    && forall x :: InTable(bs, x) && !KeyBefore(x.key, k) ==> KeyAtOrBefore(e.key, x.key)
  }

  /** The keys of block b are in the filter slot of its offset. */
  ghost predicate Filtered(b: DataBlock, slots: seq<seq<Bytes>>) {
    Slot(b.offset) < |slots| && forall e :: e in b.entries ==> e.key.user in slots[Slot(b.offset)]
  }

  // ---------- building ----------

  /** Finished blocks, and the entries of the block being filled, in order. */
  ghost predicate Ordered(bs: seq<DataBlock>, es: seq<TableEntry>) {
    && BlocksAscend(bs) && EntriesAscend(es)
    && (es != [] ==> forall i :: 0 <= i < |bs| ==> KeyBefore(LastKey(bs[i]), es[0].key))
  }

  /** Every finished block has its index entry, except that the last one waits while no key has
      followed it. */
  ghost predicate Indexed(bs: seq<DataBlock>, ix: seq<IndexEntry>, es: seq<TableEntry>, pending: bool)
    requires forall i :: 0 <= i < |bs| ==> bs[i].entries != []
  {
    && (if pending then es == [] && bs != [] else bs != [] ==> es != [])
    && |ix| == (if pending then |bs| - 1 else |bs|)
    && (forall i :: 0 <= i < |ix| ==> ix[i].block == i)
    && (forall i, j :: 0 <= i < |ix| && j == i + 1 < |bs| ==> Separates(LastKey(bs[i]), ix[i].separator, FirstKey(bs[j])))
    && (es != [] && bs != [] ==> Separates(LastKey(bs[|bs| - 1]), ix[|bs| - 1].separator, es[0].key))
  }

  ghost predicate LastIs(bs: seq<DataBlock>, es: seq<TableEntry>, last: TableKey)
    requires forall i :: 0 <= i < |bs| ==> bs[i].entries != []
  {
    && (es != [] ==> last == es[|es| - 1].key)
    && (es == [] && bs != [] ==> last == LastKey(bs[|bs| - 1]))
  }

  /** A key behind the last one is behind everything. */
  lemma BehindAll(bs: seq<DataBlock>, es: seq<TableEntry>, last: TableKey, key: TableKey)
    requires Ordered(bs, es) && LastIs(bs, es, last) && (bs != [] || es != [] ==> KeyBefore(last, key))
    ensures forall i :: 0 <= i < |es| ==> KeyBefore(es[i].key, key)
    ensures forall i :: 0 <= i < |bs| ==> KeyBefore(LastKey(bs[i]), key)
  {
    hide KeyBefore;
    forall i | 0 <= i < |es| ensures KeyBefore(es[i].key, key) {
      KeyOrder(es[i].key, last, key);
      assert i == |es| - 1 || KeyBefore(es[i].key, es[|es| - 1].key);
    }
    forall i | 0 <= i < |bs| ensures KeyBefore(LastKey(bs[i]), key) {
      if es != [] {
        KeyOrder(LastKey(bs[i]), es[0].key, key);
      } else if i < |bs| - 1 {
        var n := |bs| - 1;
        BlockSpan(bs[n], 0);
        KeyOrder(LastKey(bs[i]), FirstKey(bs[n]), last);
        KeyOrder(LastKey(bs[i]), last, key);
      }
    }
  }

  lemma BlockSpan(b: DataBlock, i: nat)
    requires EntriesAscend(b.entries) && i < |b.entries|
    ensures KeyAtOrBefore(FirstKey(b), b.entries[i].key) && KeyAtOrBefore(b.entries[i].key, LastKey(b))
  {
  }

  lemma OrderedAdd(bs: seq<DataBlock>, es: seq<TableEntry>, e: TableEntry)
    requires Ordered(bs, es)
    requires forall i :: 0 <= i < |es| ==> KeyBefore(es[i].key, e.key)
    requires forall i :: 0 <= i < |bs| ==> KeyBefore(LastKey(bs[i]), e.key)
    ensures Ordered(bs, es + [e])
  {
    hide KeyBefore;
  }

  lemma IndexedAdd(bs: seq<DataBlock>, ix: seq<IndexEntry>, es: seq<TableEntry>, pending: bool, e: TableEntry, separator: TableKey)
    requires (forall i :: 0 <= i < |bs| ==> bs[i].entries != []) && Indexed(bs, ix, es, pending)
    requires pending ==> Separates(LastKey(bs[|bs| - 1]), separator, e.key)
    ensures Indexed(bs, if pending then ix + [IndexEntry(separator, |bs| - 1)] else ix, es + [e], false)
  {
    hide Separates;
  }

  lemma OrderedFlush(bs: seq<DataBlock>, es: seq<TableEntry>, offset: nat)
    requires Ordered(bs, es) && es != []
    ensures Ordered(bs + [DataBlock(offset, es)], [])
  {
    hide KeyBefore;
    var b := DataBlock(offset, es);
    assert FirstKey(b) == es[0].key;
  }

  lemma IndexedFlush(bs: seq<DataBlock>, ix: seq<IndexEntry>, es: seq<TableEntry>, offset: nat)
    requires (forall i :: 0 <= i < |bs| ==> bs[i].entries != []) && Indexed(bs, ix, es, false) && es != []
    ensures Indexed(bs + [DataBlock(offset, es)], ix, [], true)
  {
    hide Separates;
    assert FirstKey(DataBlock(offset, es)) == es[0].key;
  }

  /** Finished blocks are filtered; the keys of the current one are waiting for their slot. */
  ghost predicate FiltersCover(bs: seq<DataBlock>, es: seq<TableEntry>, offset: nat, slots: seq<seq<Bytes>>, pending: seq<Bytes>) {
    && |slots| == Slot(offset)
    && (forall i :: 0 <= i < |bs| ==> Filtered(bs[i], slots + [pending]))
    && (forall e :: e in es ==> e.key.user in pending)
  }

  lemma FiltersAdd(bs: seq<DataBlock>, es: seq<TableEntry>, offset: nat, slots: seq<seq<Bytes>>, pending: seq<Bytes>, e: TableEntry)
    requires FiltersCover(bs, es, offset, slots, pending)
    ensures FiltersCover(bs, es + [e], offset, slots, pending + [e.key.user])
  {
    forall i | 0 <= i < |bs| ensures Filtered(bs[i], slots + [pending + [e.key.user]]) {
      assert Filtered(bs[i], slots + [pending]);
    }
  }

  /** The keys waiting when a block is finished end up in the slot of that block's offset, whether
      the next block starts a new slot or not. */
  lemma FiltersFlush(bs: seq<DataBlock>, es: seq<TableEntry>, offset: nat, slots: seq<seq<Bytes>>, pending: seq<Bytes>,
                     offset': nat, slots': seq<seq<Bytes>>, pending': seq<Bytes>)
    requires FiltersCover(bs, es, offset, slots, pending) && |slots'| == Slot(offset') >= |slots|
    requires Slot(offset') == |slots| ==> slots' == slots && pending' == pending
    requires Slot(offset') > |slots| ==> slots'[..|slots|] == slots && slots'[|slots|] == pending && pending' == []
    ensures FiltersCover(bs + [DataBlock(offset, es)], [], offset', slots', pending')
  {
    var all, all' := slots + [pending], slots' + [pending'];
    assert forall s :: 0 <= s < |all| ==> all'[s] == all[s] by {
      assert forall s :: 0 <= s < |slots| ==> slots'[..|slots|][s] == slots'[s] || |slots'| == |slots|;
    }
    forall i | 0 <= i < |bs| ensures Filtered(bs[i], all') {
      assert Filtered(bs[i], all);
    }
    assert Filtered(DataBlock(offset, es), all');
  }

  class TableBuilder {
    const filter: FilterBlockBuilder
    var blocks: seq<DataBlock>
    var index: seq<IndexEntry>
    var dataBlock: seq<TableEntry>
    var offset: nat
    var pendingIndexEntry: bool
    var lastKey: TableKey
    ghost var added: seq<TableEntry>

    ghost predicate Valid()
      reads this, filter
    {
      && filter.Valid()
      && Ordered(blocks, dataBlock) && Indexed(blocks, index, dataBlock, pendingIndexEntry) && LastIs(blocks, dataBlock, lastKey)
      && FiltersCover(blocks, dataBlock, offset, filter.slots, filter.pending)
      && Holds(added)
    }

    /** The table holds exactly these entries. */
    ghost predicate Holds(es: seq<TableEntry>)
      reads this
    {
      && (forall e :: e in es <==> InTable(blocks, e) || e in dataBlock)
      && (es == [] ==> blocks == [] && dataBlock == [])
    }

    constructor (filter: FilterBlockBuilder)
      requires filter.Valid() && filter.slots == [] && filter.pending == []
      ensures Valid() && added == [] && this.filter == filter
    {
      this.filter := filter;
      blocks, index, dataBlock, offset, pendingIndexEntry, added := [], [], [], 0, false, [];
      lastKey := TableKey([], 0);
    }

    /** Adds the next entry. The separator for a finished block is only chosen now, when it can look
        at the key that follows; `full` says that the block has reached its target size, which makes
        it `size` bytes long. */
    method Add(key: TableKey, value: Bytes, full: bool, size: nat)
      requires Valid()
      requires added != [] ==> KeyBefore(lastKey, key)
      modifies this, filter
      ensures Valid() && added == old(added) + [TableEntry(key, value)] && lastKey == key
      ensures var block := old(dataBlock) + [TableEntry(key, value)];
              if full then blocks == old(blocks) + [DataBlock(old(offset), block)] && dataBlock == [] && offset == old(offset) + size + 5
              else blocks == old(blocks) && dataBlock == block && offset == old(offset)
    {
      hide Indexed, FiltersCover, FilterBlockBuilder.Valid, InTable;
      var e := TableEntry(key, value);
      BehindAll(blocks, dataBlock, lastKey, key);
      OrderedAdd(blocks, dataBlock, e);
      FiltersAdd(blocks, dataBlock, offset, filter.slots, filter.pending, e);
      var separator := lastKey;
      if pendingIndexEntry {
        PendingIsLast();
        separator := FindKeySeparator(lastKey, key);
      }
      IndexedAdd(blocks, index, dataBlock, pendingIndexEntry, e, separator);
      if pendingIndexEntry {
        index := index + [IndexEntry(separator, |blocks| - 1)];
        pendingIndexEntry := false;
      }
      filter.AddKey(key.user);
      lastKey := key;
      dataBlock := dataBlock + [e];
      added := added + [e];
      if full {
        Flush(size);
      }
    }

    lemma PendingIsLast()
      requires Valid() && pendingIndexEntry
      ensures blocks != [] && lastKey == LastKey(blocks[|blocks| - 1])
    {
    }

    /** Writes the current block, and moves the filters on to the new offset. */
    method Flush(size: nat)
      requires Valid()
      modifies this, filter
      ensures Valid() && added == old(added) && lastKey == old(lastKey) && dataBlock == []
      ensures if old(dataBlock) == [] then blocks == old(blocks) && offset == old(offset)
              else blocks == old(blocks) + [DataBlock(old(offset), old(dataBlock))] && offset == old(offset) + size + 5
    {
      hide BlocksAscend, EntriesAscend, FiltersCover, FilterBlockBuilder.Valid, Filtered;
      if dataBlock == [] {
        return;
      }
      FlushParts();
      OrderedFlush(blocks, dataBlock, offset);
      IndexedFlush(blocks, index, dataBlock, offset);
      MovesToBlock(blocks, dataBlock, offset);
      blocks := blocks + [DataBlock(offset, dataBlock)];
      dataBlock := [];
      pendingIndexEntry := true;
      ghost var offset0 := offset;
      offset := offset + size + TRAILER_SIZE;
      SlotsAdvance(offset0, offset);
      filter.StartBlock(offset);
      FiltersFlush(old(blocks), old(dataBlock), offset0, old(filter.slots), old(filter.pending), offset, filter.slots, filter.pending);
    }

    lemma FlushParts()
      requires Valid() && dataBlock != []
      ensures !pendingIndexEntry && |filter.slots| == Slot(offset)
      ensures forall i :: 0 <= i < |blocks| ==> blocks[i].entries != []
    {
    }

    static lemma SlotsAdvance(a: nat, b: nat)
      requires a <= b
      ensures Slot(a) <= Slot(b)
    {
    }

    static lemma MovesToBlock(bs: seq<DataBlock>, es: seq<TableEntry>, offset: nat)
      ensures forall e :: InTable(bs + [DataBlock(offset, es)], e) <==> InTable(bs, e) || e in es
    {
      var bs' := bs + [DataBlock(offset, es)];
      forall e ensures InTable(bs', e) <==> InTable(bs, e) || e in es {
        if e in es {
          assert e in bs'[|bs|].entries;
        }
        if InTable(bs, e) {
          var b :| 0 <= b < |bs| && e in bs[b].entries;
          assert e in bs'[b].entries;
        }
      }
    }

    /** Closes the table: the last block's index entry, and the filter block. */
    method Finish(size: nat) returns (table: Table, ghost body: Bytes, ghost offsets: seq<nat>, ghost slots: seq<seq<Bytes>>)
      requires Valid()
      modifies this, filter
      ensures BlocksAscend(table.blocks) && IndexComplete(table.blocks, table.index)
      ensures forall e :: e in old(added) <==> InTable(table.blocks, e)
      ensures FiltersOk(body, offsets, slots, filter.policy.hash) && FiltersExact(filter.policy, body, offsets, slots)
      ensures |body| < WORD ==> IsFilterBlock(table.filter, body, offsets)
      ensures forall i :: 0 <= i < |table.blocks| ==> Filtered(table.blocks[i], slots)
    {
      hide FilterBlockBuilder.Valid, Filtered, BlocksAscend, FilterBlocks.FiltersOk, FilterBlocks.FiltersExact;
      Flush(size);
      AllInBlocks();
      var separator := lastKey;
      if pendingIndexEntry {
        PendingIsLast();
        separator := FindKeySuccessor(lastKey);
      }
      CompletesIndex(blocks, index, pendingIndexEntry, separator);
      if pendingIndexEntry {
        index := index + [IndexEntry(separator, |blocks| - 1)];
        pendingIndexEntry := false;
      }
      ghost var slots0, pending0 := filter.slots, filter.pending;
      assert forall i :: 0 <= i < |blocks| ==> Filtered(blocks[i], slots0 + [pending0]);
      var contents := filter.Finish();
      body, offsets, slots := filter.result, filter.filterOffsets, filter.slots;
      FilterParts();
      forall i | 0 <= i < |blocks| ensures Filtered(blocks[i], slots) {
        AllSlots(blocks[i], slots0, pending0);
      }
      table := Table(blocks, index, contents);
    }

    lemma FilterParts()
      requires filter.Valid()
      ensures FiltersOk(filter.result, filter.filterOffsets, filter.slots, filter.policy.hash)
      ensures FiltersExact(filter.policy, filter.result, filter.filterOffsets, filter.slots)
    {
    }

    lemma AllInBlocks()
      requires Valid() && dataBlock == []
      ensures BlocksAscend(blocks) && (forall e :: e in added <==> InTable(blocks, e))
      ensures forall i :: 0 <= i < |blocks| ==> blocks[i].entries != []
      ensures pendingIndexEntry <==> blocks != []
    {
    }

    /** A block with keys is in a slot that has been made. */
    static lemma AllSlots(b: DataBlock, slots: seq<seq<Bytes>>, pending: seq<Bytes>)
      requires Filtered(b, slots + [pending]) && b.entries != []
      ensures Filtered(b, if pending == [] then slots else slots + [pending])
    {
      assert b.entries[0] in b.entries;
    }

    static lemma CompletesIndex(bs: seq<DataBlock>, ix: seq<IndexEntry>, pending: bool, separator: TableKey)
      requires (forall i :: 0 <= i < |bs| ==> bs[i].entries != []) && Indexed(bs, ix, [], pending)
      requires pending ==> KeyAtOrBefore(LastKey(bs[|bs| - 1]), separator)
      ensures IndexComplete(bs, if pending then ix + [IndexEntry(separator, |bs| - 1)] else ix)
    {
      hide Separates, KeyAtOrBefore;
    }
  }

  datatype Table = Table(blocks: seq<DataBlock>, index: seq<IndexEntry>, filter: Bytes)

  // ---------- lookup ----------

  /** What Block::Iter::Seek lands on. */
  ghost predicate Lands(keys: seq<TableKey>, k: TableKey, i: nat) {
    && i <= |keys| && (forall j :: 0 <= j < i ==> KeyBefore(keys[j], k)) && (i < |keys| ==> !KeyBefore(keys[i], k))
  }

  method Seek(keys: seq<TableKey>, k: TableKey) returns (i: nat)
    ensures Lands(keys, k, i)
  {
    i := 0;
    while i < |keys| && KeyBefore(keys[i], k)
      invariant i <= |keys| && forall j :: 0 <= j < i ==> KeyBefore(keys[j], k)
    {
      i := i + 1;
    }
  }

  function IndexKeys(ix: seq<IndexEntry>): (ks: seq<TableKey>)
    ensures |ks| == |ix| && forall i :: 0 <= i < |ix| ==> ks[i] == ix[i].separator
  {
    seq(|ix|, i requires 0 <= i < |ix| => ix[i].separator)
  }

  function EntryKeys(es: seq<TableEntry>): (ks: seq<TableKey>)
    ensures |ks| == |es| && forall i :: 0 <= i < |es| ==> ks[i] == es[i].key
  {
    seq(|es|, i requires 0 <= i < |es| => es[i].key)
  }

  /** Blocks before the one the index leads to hold only smaller keys. */
  lemma EarlierBlocksBelow(bs: seq<DataBlock>, ix: seq<IndexEntry>, k: TableKey, i: nat, b: nat, x: TableEntry)
    requires BlocksAscend(bs) && IndexComplete(bs, ix) && Lands(IndexKeys(ix), k, i) && b < i && x in bs[b].entries
    ensures KeyBefore(x.key, k)
  {
    hide KeyBefore;
    var j :| 0 <= j < |bs[b].entries| && bs[b].entries[j] == x;
    BlockSpan(bs[b], j);
    assert IndexEntryOk(bs, ix, b) && KeyBefore(IndexKeys(ix)[b], k);
    SeparatorBehind(bs, ix, b);
    KeyOrder(x.key, LastKey(bs[b]), ix[b].separator);
    KeyOrder(x.key, ix[b].separator, k);
  }

  lemma SeparatorBehind(bs: seq<DataBlock>, ix: seq<IndexEntry>, b: nat)
    requires BlocksAscend(bs) && IndexComplete(bs, ix) && b < |bs|
    ensures KeyAtOrBefore(LastKey(bs[b]), ix[b].separator)
  {
    assert IndexEntryOk(bs, ix, b);
  }

  /** Past the block the index leads to, an entry with the sought user key would mean that a
      shortened separator had the same user key: it never has. */
  lemma LaterBlocksDiffer(bs: seq<DataBlock>, ix: seq<IndexEntry>, k: TableKey, i: nat, b: nat, x: TableEntry)
    requires BlocksAscend(bs) && IndexComplete(bs, ix) && Lands(IndexKeys(ix), k, i) && i < b < |bs| && x in bs[b].entries
    requires KeyBefore(LastKey(bs[i]), k)
    ensures x.key.user != k.user
  {
    assert IndexEntryOk(bs, ix, i);
    var sep, next := ix[i].separator, FirstKey(bs[i + 1]);
    assert !KeyBefore(sep, k);
    var j :| 0 <= j < |bs[b].entries| && bs[b].entries[j] == x;
    BlockSpan(bs[b], j);
    KeyOrder(sep, k, k);
    assert sep != LastKey(bs[i]) by { KeyOrder(LastKey(bs[i]), k, k); }
    assert Before(sep.user, next.user);
    FirstBelow(bs, i + 1, b, j);
    BeforeIsTotal(k.user, sep.user);
    BeforeIsTotal(sep.user, next.user);
    BeforeIsTotal(next.user, x.key.user);
    BeforeIsTotal(k.user, next.user);
    if k.user == x.key.user {
      UsersChain(k.user, sep.user, next.user);
    }
  }

  lemma UsersChain(a: Bytes, b: Bytes, c: Bytes)
    requires (a == b || Before(a, b)) && Before(b, c)
    ensures Before(a, c)
  {
    if a != b {
      BeforeIsTransitive(a, b, c);
    }
  }

  lemma FirstBelow(bs: seq<DataBlock>, a: nat, b: nat, j: nat)
    requires BlocksAscend(bs) && a <= b < |bs| && j < |bs[b].entries|
    ensures KeyAtOrBefore(FirstKey(bs[a]), bs[b].entries[j].key)
  {
    hide KeyBefore;
    BlockSpan(bs[b], j);
    if a < b {
      BlockSpan(bs[a], |bs[a].entries| - 1);
      KeyOrder(FirstKey(bs[a]), LastKey(bs[a]), FirstKey(bs[b]));
      KeyOrder(FirstKey(bs[a]), FirstKey(bs[b]), bs[b].entries[j].key);
    }
  }

  /** In the block the index leads to, a seek lands on the first entry from k on in the whole table,
      or on none with k's user key. */
  lemma LookupComplete(bs: seq<DataBlock>, ix: seq<IndexEntry>, k: TableKey, i: nat, j: nat)
    requires BlocksAscend(bs) && IndexComplete(bs, ix) && Lands(IndexKeys(ix), k, i)
    requires i < |bs| && Lands(EntryKeys(bs[i].entries), k, j)
    ensures j < |bs[i].entries| ==> IsFirstFrom(bs, k, bs[i].entries[j])
    ensures j == |bs[i].entries| ==> forall x :: InTable(bs, x) && !KeyBefore(x.key, k) ==> x.key.user != k.user
  {
    hide KeyBefore;
    forall x | InTable(bs, x) && !KeyBefore(x.key, k)
      ensures j < |bs[i].entries| ==> KeyAtOrBefore(bs[i].entries[j].key, x.key)
      ensures j == |bs[i].entries| ==> x.key.user != k.user
    {
      var b :| 0 <= b < |bs| && x in bs[b].entries;
      if b < i {
        EarlierBlocksBelow(bs, ix, k, i, b, x);
      } else if b == i {
        var n :| 0 <= n < |bs[i].entries| && bs[i].entries[n] == x;
        assert !KeyBefore(EntryKeys(bs[i].entries)[n], k);
      } else if j < |bs[i].entries| {
        var n :| 0 <= n < |bs[b].entries| && bs[b].entries[n] == x;
        BlockSpan(bs[i], j);
        BlockSpan(bs[b], n);
        KeyOrder(bs[i].entries[j].key, LastKey(bs[i]), FirstKey(bs[b]));
        KeyOrder(bs[i].entries[j].key, FirstKey(bs[b]), x.key);
      } else {
        assert KeyBefore(EntryKeys(bs[i].entries)[j - 1], k);
        LaterBlocksDiffer(bs, ix, k, i, b, x);
      }
    }
  }

  /** With no separator at or after k, everything is before k. */
  lemma NothingFrom(bs: seq<DataBlock>, ix: seq<IndexEntry>, k: TableKey)
    requires BlocksAscend(bs) && IndexComplete(bs, ix) && Lands(IndexKeys(ix), k, |ix|)
    ensures forall x :: InTable(bs, x) ==> KeyBefore(x.key, k)
  {
    forall x | InTable(bs, x) ensures KeyBefore(x.key, k) {
      var b :| 0 <= b < |bs| && x in bs[b].entries;
      EarlierBlocksBelow(bs, ix, k, |ix|, b, x);
    }
  }

  /** Table::InternalGet: one index seek, one filter test if the table has a filter, one block seek. What it reports is the first
      entry at or after k, and it reports it whenever that entry has k's user key. */
  method InternalGet(table: Table, reader: FilterBlockReader?, k: TableKey,
                     ghost body: Bytes, ghost offsets: seq<nat>, ghost slots: seq<seq<Bytes>>) returns (r: Option<TableEntry>)
    requires BlocksAscend(table.blocks) && IndexComplete(table.blocks, table.index)
    requires reader != null ==>
               && (reader.num > 0 ==> reader.offset + 4 * reader.num + 4 <= |reader.data|)
               && reader.Reads(body, offsets, slots) && forall i :: 0 <= i < |table.blocks| ==> Filtered(table.blocks[i], slots)
    ensures r.Some? ==> IsFirstFrom(table.blocks, k, r.value)
    ensures forall e :: IsFirstFrom(table.blocks, k, e) && e.key.user == k.user ==> r == Some(e)
    ensures forall e :: InTable(table.blocks, e) && e.key.user == k.user && e.key.tag <= k.tag ==>
              r.Some? && r.value.key.user == k.user && e.key.tag <= r.value.key.tag <= k.tag
  {
    hide KeyBefore, FilterBlockReader.Reads;
    var bs, ix := table.blocks, table.index;
    var i := Seek(IndexKeys(ix), k);
    if i == |ix| {
      NothingFrom(bs, ix, k);
      NoneVisible(bs, k);
      return None;
    }
    assert IndexEntryOk(bs, ix, i) && (reader != null ==> Filtered(bs[i], slots));
    var block := bs[ix[i].block];
    var mayMatch := true;
    if reader != null {
      mayMatch := reader.KeyMayMatch(block.offset, k.user, body, offsets, slots);
    }
    ghost var j: nat := SeekSpec(EntryKeys(block.entries), k);
    LookupComplete(bs, ix, k, i, j);
    assert j < |block.entries| && block.entries[j].key.user == k.user ==> mayMatch by {
      assert j < |block.entries| ==> block.entries[j] in block.entries;
    }
    if !mayMatch {
      forall e | IsFirstFrom(bs, k, e) ensures e.key.user != k.user {
        if j < |block.entries| {
          OnlyFirst(bs, k, e, block.entries[j]);
        }
      }
      NewestAnswers(bs, k, if j < |block.entries| then Some(block.entries[j]) else None);
      return None;
    }
    var n := Seek(EntryKeys(block.entries), k);
    LookupComplete(bs, ix, k, i, n);
    r := if n < |block.entries| then Some(block.entries[n]) else None;
    forall e | IsFirstFrom(bs, k, e) && e.key.user == k.user ensures r == Some(e) {
      if n < |block.entries| {
        OnlyFirst(bs, k, e, block.entries[n]);
      }
    }
    NewestAnswers(bs, k, r);
  }

  /** The first entry from k on is, if it has k's user key, the newest version that k's tag may see; there is
      none to see otherwise. */
  lemma NewestAnswers(bs: seq<DataBlock>, k: TableKey, r: Option<TableEntry>)
    requires r.Some? ==> IsFirstFrom(bs, k, r.value)
    requires r.None? ==> forall x :: InTable(bs, x) && !KeyBefore(x.key, k) ==> x.key.user != k.user
    ensures forall e :: InTable(bs, e) && e.key.user == k.user && e.key.tag <= k.tag ==>
              r.Some? && r.value.key.user == k.user && e.key.tag <= r.value.key.tag <= k.tag
  {
    forall e | InTable(bs, e) && e.key.user == k.user && e.key.tag <= k.tag
      ensures r.Some? && r.value.key.user == k.user && e.key.tag <= r.value.key.tag <= k.tag
    {
      NotBefore(e.key, k);
      if r.Some? {
        BetweenVersions(k, r.value.key, e.key);
      }
    }
  }

  lemma NoneVisible(bs: seq<DataBlock>, k: TableKey)
    requires forall x :: InTable(bs, x) ==> KeyBefore(x.key, k)
    ensures forall e :: InTable(bs, e) && e.key.user == k.user ==> e.key.tag > k.tag
  {
    forall e | InTable(bs, e) && e.key.user == k.user ensures e.key.tag > k.tag {
      NotBefore(e.key, k);
    }
  }

  lemma NotBefore(e: TableKey, k: TableKey)
    requires e.user == k.user
    ensures KeyBefore(e, k) <==> e.tag > k.tag
  {
    BeforeIsTotal(e.user, k.user);
  }

  lemma BetweenVersions(k: TableKey, r: TableKey, e: TableKey)
    requires !KeyBefore(r, k) && !KeyBefore(e, r) && e.user == k.user
    ensures r.user == k.user && e.tag <= r.tag <= k.tag
  {
    BeforeIsTotal(k.user, r.user);
    BeforeIsTotal(r.user, e.user);
  }

  /** Keys as stored in a table are in the order of the internal keys they pack. */
  lemma PackedOrder(a: InternalKey, b: InternalKey, x: Bytes, y: Bytes)
    requires (Before(x, y) <==> a.user < b.user) && (x == y <==> a.user == b.user)
    ensures KeyBefore(TableKey(x, Tag(a)), TableKey(y, Tag(b))) <==> Less(a, b)
  {
  }

  ghost function SeekSpec(keys: seq<TableKey>, k: TableKey): (i: nat)
    ensures Lands(keys, k, i)
  {
    if keys == [] || !KeyBefore(keys[0], k) then 0 else SeekSpec(keys[1..], k) + 1
  }

  lemma OnlyFirst(bs: seq<DataBlock>, k: TableKey, a: TableEntry, b: TableEntry)
    requires BlocksAscend(bs) && IsFirstFrom(bs, k, a) && IsFirstFrom(bs, k, b)
    ensures a == b
  {
    KeyOrder(a.key, b.key, a.key);
    assert a.key == b.key;
    SameKeySameEntry(bs, a, b);
  }

  lemma SameKeySameEntry(bs: seq<DataBlock>, a: TableEntry, b: TableEntry)
    requires BlocksAscend(bs) && InTable(bs, a) && InTable(bs, b) && a.key == b.key
    ensures a == b
  {
    hide KeyBefore;
    KeyOrder(a.key, b.key, a.key);
    var p :| 0 <= p < |bs| && a in bs[p].entries;
    var q :| 0 <= q < |bs| && b in bs[q].entries;
    var i :| 0 <= i < |bs[p].entries| && bs[p].entries[i] == a;
    var j :| 0 <= j < |bs[q].entries| && bs[q].entries[j] == b;
    if p < q {
      Across(bs, p, i, q, j);
    } else if q < p {
      Across(bs, q, j, p, i);
    }
  }

  lemma Across(bs: seq<DataBlock>, p: nat, i: nat, q: nat, j: nat)
    requires BlocksAscend(bs) && p < q < |bs| && i < |bs[p].entries| && j < |bs[q].entries|
    ensures KeyBefore(bs[p].entries[i].key, bs[q].entries[j].key)
  {
    hide KeyBefore;
    BlockSpan(bs[p], i);
    BlockSpan(bs[q], j);
    KeyOrder(bs[p].entries[i].key, LastKey(bs[p]), FirstKey(bs[q]));
    KeyOrder(bs[p].entries[i].key, FirstKey(bs[q]), bs[q].entries[j].key);
  }
}
