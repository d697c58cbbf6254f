/** TwoLevelIterator (table/two_level_iterator.cc): a cursor over the concatenation of the blocks
    that an index lists. The index entry of a block holds a key that separates it from the next
    block, and the handle from which the block is opened. */
module TwoLevel {
  import opened InternalKeys
  import opened Cursors

  type Handle = Value

  /** Every block is sorted and lies above all earlier index keys and not above its own. */
  ghost predicate IndexOk(index: Table, blocks: map<Handle, Table>) {
    && Sorted(index)
    && (forall i :: 0 <= i < |index| ==> index[i].value in blocks && Sorted(blocks[index[i].value]))
    && (forall i, e :: 0 <= i < |index| && e in blocks[index[i].value] ==> LessEq(e.key, index[i].key))
    && (forall i, j, e :: 0 <= i < j < |index| && e in blocks[index[j].value] ==> Less(index[i].key, e.key))
  }

  function Block(index: Table, blocks: map<Handle, Table>, i: nat): Table
    requires i < |index| && index[i].value in blocks
  {
    blocks[index[i].value]
  }

  /** The first n blocks, end to end. */
  ghost function Flat(index: Table, blocks: map<Handle, Table>, n: nat): Table
    requires IndexOk(index, blocks) && n <= |index|
  {
    if n == 0 then [] else Flat(index, blocks, n - 1) + Block(index, blocks, n - 1)
  }

  ghost function Start(index: Table, blocks: map<Handle, Table>, n: nat): nat
    requires IndexOk(index, blocks) && n <= |index|
  {
    |Flat(index, blocks, n)|
  }

  /** A later concatenation extends an earlier one. */
  lemma {:induction false} FlatExtends(index: Table, blocks: map<Handle, Table>, m: nat, n: nat)
    requires IndexOk(index, blocks) && m <= n <= |index|
    ensures Flat(index, blocks, m) <= Flat(index, blocks, n)
    ensures m < n ==> Start(index, blocks, m) + |Block(index, blocks, m)| <= Start(index, blocks, n)
    ensures m < n ==> Flat(index, blocks, n)[Start(index, blocks, m)..Start(index, blocks, m) + |Block(index, blocks, m)|] == Block(index, blocks, m)
  {
    if m < n {
      FlatExtends(index, blocks, m, n - 1);
      var f, g, b := Flat(index, blocks, n), Flat(index, blocks, n - 1), Block(index, blocks, n - 1);
      assert f == g + b;
      if m == n - 1 {
        assert f[|g|..|g| + |b|] == b;
      } else {
        var lo, hi := Start(index, blocks, m), Start(index, blocks, m) + |Block(index, blocks, m)|;
        assert f[lo..hi] == g[lo..hi];
      }
    }
  }

  /** Entry k of block i sits at Start(i) + k of the whole. */
  lemma FlatAt(index: Table, blocks: map<Handle, Table>, i: nat, k: nat)
    requires IndexOk(index, blocks) && i < |index| && k < |Block(index, blocks, i)|
    ensures Start(index, blocks, i) + k < Start(index, blocks, |index|)
    ensures Flat(index, blocks, |index|)[Start(index, blocks, i) + k] == Block(index, blocks, i)[k]
  {
    FlatExtends(index, blocks, i, |index|);
    var f, s := Flat(index, blocks, |index|), Start(index, blocks, i);
    assert f[s..s + |Block(index, blocks, i)|][k] == f[s + k];
  }

  lemma {:induction false} FlatBounded(index: Table, blocks: map<Handle, Table>, n: nat)
    requires IndexOk(index, blocks) && n <= |index|
    ensures Sorted(Flat(index, blocks, n))
    ensures n > 0 ==> forall e :: e in Flat(index, blocks, n) ==> LessEq(e.key, index[n - 1].key)
  {
    if n > 0 {
      FlatBounded(index, blocks, n - 1);
      var f, g, b := Flat(index, blocks, n), Flat(index, blocks, n - 1), Block(index, blocks, n - 1);
      forall e | e in f ensures LessEq(e.key, index[n - 1].key) {
        if e in g {
          assert Less(index[n - 2].key, index[n - 1].key);
          LessIsTotalOrder(e.key, index[n - 2].key, index[n - 1].key);
        }
      }
      forall i, j | 0 <= i < j < |f| ensures Less(f[i].key, f[j].key) {
        if i < |g| <= j {
          assert g[i] in g && b[j - |g|] in b;
          LessIsTotalOrder(f[i].key, index[n - 2].key, f[j].key);
        }
      }
    }
  }

  /** Whatever follows block i lies above its index key. */
  lemma {:induction false} BeyondBlock(index: Table, blocks: map<Handle, Table>, i: nat, n: nat, e: Entry)
    requires IndexOk(index, blocks) && i < n <= |index|
    requires e in Flat(index, blocks, n)[LaterStart(index, blocks, i, n)..]
    ensures Less(index[i].key, e.key)
  {
    var k := LaterStart(index, blocks, i, n);
    if i + 1 < n {
      var g, b := Flat(index, blocks, n - 1), Block(index, blocks, n - 1);
      assert k == LaterStart(index, blocks, i, n - 1);
      assert (g + b)[k..] == g[k..] + b;
      if e !in b {
        BeyondBlock(index, blocks, i, n - 1, e);
      }
    }
  }

  /** Where what follows block i begins. */
  ghost function LaterStart(index: Table, blocks: map<Handle, Table>, i: nat, n: nat): (k: nat)
    requires IndexOk(index, blocks) && i < n <= |index|
    ensures k <= Start(index, blocks, n)
  {
    FlatExtends(index, blocks, i + 1, n);
    Start(index, blocks, i + 1)
  }

  /** Position at which a seek of the index, then of its block, comes to rest. */
  ghost function SeekPosition(index: Table, blocks: map<Handle, Table>, target: InternalKey): nat
    requires IndexOk(index, blocks)
  {
    var i := LowerBound(index, target);
    if i == |index| then Start(index, blocks, i) else Start(index, blocks, i) + LowerBound(Block(index, blocks, i), target)
  }

  lemma BelowSeekPosition(index: Table, blocks: map<Handle, Table>, target: InternalKey, j: nat)
    requires IndexOk(index, blocks) && j < SeekPosition(index, blocks, target)
    ensures j < Start(index, blocks, |index|) && Less(Flat(index, blocks, |index|)[j].key, target)
  {
    var i := LowerBound(index, target);
    var g := Flat(index, blocks, i);
    if j < |g| {
      FlatExtends(index, blocks, i, |index|);
      FlatBounded(index, blocks, i);
      assert g[j] in g;
      LessIsTotalOrder(g[j].key, index[i - 1].key, target);
    } else {
      FlatAt(index, blocks, i, j - |g|);
    }
  }

  lemma AtSeekPosition(index: Table, blocks: map<Handle, Table>, target: InternalKey)
    requires IndexOk(index, blocks)
    ensures var p := SeekPosition(index, blocks, target);
            p <= Start(index, blocks, |index|)
            && (p < Start(index, blocks, |index|) ==> !Less(Flat(index, blocks, |index|)[p].key, target))
  {
    hide Sorted;
    var i, p := LowerBound(index, target), SeekPosition(index, blocks, target);
    if i < |index| {
      FlatExtends(index, blocks, i, |index|);
      var k := LowerBound(Block(index, blocks, i), target);
      if k < |Block(index, blocks, i)| {
        FlatAt(index, blocks, i, k);
      } else {
        PastBlock(index, blocks, i, target, p);
      }
    }
  }

  lemma PastBlock(index: Table, blocks: map<Handle, Table>, i: nat, target: InternalKey, p: nat)
    requires IndexOk(index, blocks) && i < |index| && !Less(index[i].key, target)
    requires p == Start(index, blocks, i) + |Block(index, blocks, i)|
    ensures p < Start(index, blocks, |index|) ==> !Less(Flat(index, blocks, |index|)[p].key, target)
  {
    hide Sorted;
    if p < Start(index, blocks, |index|) {
      BeyondBlock(index, blocks, i, |index|, Flat(index, blocks, |index|)[p]);
      LessIsTotalOrder(index[i].key, Flat(index, blocks, |index|)[p].key, target);
    }
  }

  /** Seeking the index and then its block lands on the lower bound of the whole. */
  lemma SeekLands(index: Table, blocks: map<Handle, Table>, target: InternalKey)
    requires IndexOk(index, blocks)
    ensures LowerBound(Flat(index, blocks, |index|), target) == SeekPosition(index, blocks, target)
  {
    FlatBounded(index, blocks, |index|);
    AtSeekPosition(index, blocks, target);
    forall j: nat | j < SeekPosition(index, blocks, target) ensures Less(Flat(index, blocks, |index|)[j].key, target) {
      BelowSeekPosition(index, blocks, target, j);
    }
    LowerBoundIs(Flat(index, blocks, |index|), target, SeekPosition(index, blocks, target));
  }

  class TwoLevelIterator {
    const index: Cursor
    const blocks: map<Handle, Table>
    var data: Cursor?
    var handle: Handle

    ghost function Repr(): set<object>
      reads this
    {
      if data == null then {this, index} else {this, index, data}
    }

    ghost predicate PartsOk()
      reads this, Repr()
    {
      && index.Ok() && IndexOk(index.entries, blocks)
      && (data != null ==>
            && data != index && data.Ok()
            && handle in blocks && data.entries == blocks[handle])
    }

    /** The data cursor is open on the index's block. */
    ghost predicate OnBlock()
      reads this, Repr()
    {
      PartsOk() && index.Valid() && data != null && handle == index.Value()
    }

    ghost predicate Ok()
      reads this, Repr()
    {
      PartsOk() && (data != null ==> OnBlock() && data.Valid())
    }

    ghost function Whole(): Table
      requires PartsOk()
      reads this, Repr()
    {
      Flat(index.entries, blocks, |index.entries|)
    }

    ghost function Base(): nat
      requires PartsOk()
      reads this, Repr()
    {
      Start(index.entries, blocks, index.pos)
    }

    /** Position in the concatenation. */
    ghost function Pos(): nat
      requires Ok()
      reads this, Repr()
    {
      if Valid() then Base() + data.pos else |Whole()|
    }

    constructor (index: Cursor, blocks: map<Handle, Table>)
      requires index.Ok() && IndexOk(index.entries, blocks)
      ensures Ok() && !Valid() && this.index == index && this.blocks == blocks
    {
      this.index, this.blocks := index, blocks;
      data, handle := null, [];
    }

    predicate Valid()
      reads this, Repr()
    {
      data != null && data.Valid()
    }

    function Key(): InternalKey
      requires Ok() && Valid()
      reads this, Repr()
    {
      data.Key()
    }

    function Value(): Value
      requires Ok() && Valid()
      reads this, Repr()
    {
      data.Value()
    }

    /** The current entry is the one at Pos() of the concatenation. */
    lemma CurrentIsAtPos()
      requires Ok() && Valid()
      ensures Pos() < |Whole()| && Whole()[Pos()] == Entry(Key(), Value())
    {
      FlatAt(index.entries, blocks, index.pos, data.pos);
    }

    /** Opens the block of the current index entry, unless it is open already. */
    method InitDataBlock()
      requires PartsOk()
      modifies this
      ensures PartsOk() && (data == old(data) || data == null || fresh(data))
      ensures if index.Valid() then OnBlock() else data == null
    {
      if !index.Valid() {
        data := null;
      } else {
        var h := index.Value();
        if data == null || h != handle {
          data := new Cursor(blocks[h]);
          handle := h;
        }
      }
    }

    /** Where a forward skip must end up, given where the data cursor stands. */
    ghost predicate HeadingTo(p: nat)
      reads this, Repr()
    {
      && PartsOk()
      && (if index.Valid() then OnBlock() && p == Base() + data.pos else data == null && p == |Whole()|)
    }

    method SkipEmptyDataBlocksForward(ghost p: nat)
      requires HeadingTo(p)
      modifies Repr()
      ensures Ok() && Pos() == p
      ensures data == old(data) || data == null || fresh(data)
    {
      while data == null || !data.Valid()
        invariant HeadingTo(p)
        invariant data == old(data) || data == null || fresh(data)
        invariant data == null ==> !index.Valid()
        modifies Repr()
        decreases |index.entries| - index.pos
      {
        if !index.Valid() {
          data := null;
          return;
        }
        index.Next();
        InitDataBlock();
        if data != null {
          data.SeekToFirst();
        }
      }
    }

    /** Where a backward skip must end up: on the data cursor's entry, or just before its block. */
    ghost predicate HeadingBackTo(p: nat)
      reads this, Repr()
    {
      && PartsOk()
      && (if index.Valid() then
            && OnBlock()
            && p == if data.Valid() then Base() + data.pos else if Base() == 0 then |Whole()| else Base() - 1
          else data == null && p == |Whole()|)
    }

    method SkipEmptyDataBlocksBackward(ghost p: nat)
      requires HeadingBackTo(p)
      modifies Repr()
      ensures Ok() && Pos() == p
      ensures data == old(data) || data == null || fresh(data)
    {
      while data == null || !data.Valid()
        invariant HeadingBackTo(p)
        invariant data == old(data) || data == null || fresh(data)
        modifies Repr()
        decreases if index.Valid() then index.pos + 1 else 0
      {
        if !index.Valid() {
          data := null;
          return;
        }
        index.Prev();
        InitDataBlock();
        if data != null {
          data.SeekToLast();
        }
      }
    }

    method Seek(target: InternalKey)
      requires PartsOk()
      modifies Repr()
      ensures Ok() && Pos() == LowerBound(Whole(), target)
      ensures data == old(data) || data == null || fresh(data)
    {
      index.Seek(target);
      InitDataBlock();
      if data != null {
        data.Seek(target);
      }
      SeekLands(index.entries, blocks, target);
      SkipEmptyDataBlocksForward(LowerBound(Whole(), target));
    }

    method SeekToFirst()
      requires PartsOk()
      modifies Repr()
      ensures Ok() && Pos() == 0
      ensures data == old(data) || data == null || fresh(data)
    {
      index.SeekToFirst();
      InitDataBlock();
      if data != null {
        data.SeekToFirst();
      }
      SkipEmptyDataBlocksForward(0);
    }

    method SeekToLast()
      requires PartsOk()
      modifies Repr()
      ensures Ok() && Pos() == if |Whole()| == 0 then 0 else |Whole()| - 1
      ensures data == old(data) || data == null || fresh(data)
    {
      index.SeekToLast();
      InitDataBlock();
      if data != null {
        data.SeekToLast();
      }
      SkipEmptyDataBlocksBackward(if |Whole()| == 0 then 0 else |Whole()| - 1);
    }

    method Next()
      requires Ok() && Valid()
      modifies Repr()
      ensures Ok() && Pos() == old(Pos()) + 1
      ensures data == old(data) || data == null || fresh(data)
    {
      ghost var p := Pos();
      data.Next();
      SkipEmptyDataBlocksForward(p + 1);
    }

    method Prev()
      requires Ok() && Valid()
      modifies Repr()
      ensures Ok() && Pos() == if old(Pos()) == 0 then |Whole()| else old(Pos()) - 1
      ensures data == old(data) || data == null || fresh(data)
    {
      ghost var p := Pos();
      data.Prev();
      SkipEmptyDataBlocksBackward(if p == 0 then |Whole()| else p - 1);
    }
  }
}
