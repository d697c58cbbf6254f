/** MergingIterator (table/merger.cc): a cursor over the sorted merge of its children. */
module Merger {
  import opened InternalKeys
  import opened Cursors

  /** `merged` holds exactly the children's entries, in order, and no key is in two children. */
  ghost predicate IsMergeOf(merged: Table, tables: seq<Table>) {
    && Sorted(merged)
    && (forall i :: 0 <= i < |tables| ==> Sorted(tables[i]) && EntriesOf(tables[i]) <= EntriesOf(merged))
    && (forall e :: e in merged ==> exists i :: 0 <= i < |tables| && e in tables[i])
    && (forall i, j, e :: 0 <= i < |tables| && 0 <= j < |tables| && e in tables[i] && e in tables[j] ==> i == j)
  }

  /** Where the first entry of t at or after merged position p is. */
  ghost function Ahead(t: Table, merged: Table, p: nat): (i: nat)
    ensures i <= |t|
  {
    if p < |merged| then LowerBound(t, merged[p].key) else |t|
  }

  /** Where the last entry of t before merged position p is; |t| when there is none. */
  ghost function Behind(t: Table, merged: Table, p: nat): (i: nat)
    ensures i <= |t|
  {
    var a := Ahead(t, merged, p);
    if a == 0 then |t| else a - 1
  }

  /** In a sorted table, only the entry itself sits at its lower bound. */
  lemma LowerBoundAt(t: Table, i: nat)
    requires Sorted(t) && i < |t|
    ensures LowerBound(t, t[i].key) == i
  {
  }

  /** An entry of the child beyond the merged position is at or after the next one. */
  lemma FurtherAhead(t: Table, merged: Table, p: nat, a: nat, j: nat)
    requires Sorted(merged) && Sorted(t) && EntriesOf(t) <= EntriesOf(merged) && p < |merged|
    requires a <= j < |t| && !Less(t[a].key, merged[p].key) && t[j] != merged[p]
    ensures p + 1 < |merged| && !Less(t[j].key, merged[p + 1].key)
  {
    assert t[j] in EntriesOf(t);
    assert t[j] in EntriesOf(merged);
    var k :| 0 <= k < |merged| && merged[k] == t[j];
    assert a == j || Less(t[a].key, t[j].key);
    LessIsTotalOrder(t[a].key, t[j].key, merged[p].key);
    assert k > p;
  }

  /** One merged step moves exactly the child that holds the entry. */
  lemma AheadAdvances(t: Table, merged: Table, p: nat)
    requires Sorted(merged) && Sorted(t) && EntriesOf(t) <= EntriesOf(merged) && p < |merged|
    ensures merged[p] in t ==> Ahead(t, merged, p) < |t| && t[Ahead(t, merged, p)] == merged[p]
    ensures Ahead(t, merged, p + 1) == Ahead(t, merged, p) + (if merged[p] in t then 1 else 0)
  {
    var a := Ahead(t, merged, p);
    if merged[p] in t {
      var i :| 0 <= i < |t| && t[i] == merged[p];
      LowerBoundAt(t, i);
    }
    var b := if merged[p] in t then a + 1 else a;
    forall j | b <= j < |t| ensures p + 1 < |merged| && !Less(t[j].key, merged[p + 1].key) {
      FurtherAhead(t, merged, p, a, j);
    }
    if p + 1 < |merged| {
      forall j | 0 <= j < b ensures Less(t[j].key, merged[p + 1].key) {
        LessIsTotalOrder(t[j].key, merged[p].key, merged[p + 1].key);
      }
      LowerBoundIs(t, merged[p + 1].key, b);
    }
  }

  /** The lower bound in the merge and in a child agree on what lies ahead. */
  lemma SeekAgrees(t: Table, merged: Table, target: InternalKey)
    requires Sorted(merged) && Sorted(t) && EntriesOf(t) <= EntriesOf(merged)
    ensures LowerBound(t, target) == Ahead(t, merged, LowerBound(merged, target))
  {
    var p, i := LowerBound(merged, target), LowerBound(t, target);
    forall j | 0 <= j < |t| ensures exists k :: 0 <= k < |merged| && merged[k] == t[j] {
      assert t[j] in EntriesOf(t);
    }
    forall j | i <= j < |t| ensures p < |merged| && !Less(t[j].key, merged[p].key) {
      var k :| 0 <= k < |merged| && merged[k] == t[j];
      LessIsTotalOrder(t[i].key, t[j].key, target);
      assert i == j || Less(t[i].key, t[j].key);
      assert p <= k;
      assert p == k || Less(merged[p].key, merged[k].key);
    }
    if p < |merged| {
      forall j | 0 <= j < i ensures Less(t[j].key, merged[p].key) {
        LessIsTotalOrder(t[j].key, target, merged[p].key);
      }
      LowerBoundIs(t, merged[p].key, i);
    }
  }

  lemma StartAgrees(t: Table, merged: Table)
    requires Sorted(merged) && Sorted(t) && EntriesOf(t) <= EntriesOf(merged)
    ensures Ahead(t, merged, 0) == 0
  {
    if t != [] {
      assert t[0] in EntriesOf(t);
      var k :| 0 <= k < |merged| && merged[k] == t[0];
      assert k == 0 || Less(merged[0].key, merged[k].key);
      LowerBoundIs(t, merged[0].key, 0);
    }
  }

  datatype Direction = Forward | Reverse

  class MergingIterator {
    const children: seq<Cursor>
    ghost const merged: Table
    var current: Option<nat>
    var direction: Direction
    ghost var pos: nat

    ghost function Tables(): seq<Table> {
      seq(|children|, i requires 0 <= i < |children| => children[i].entries)
    }

    ghost predicate ChildrenOk()
      reads this, children
    {
      && (forall i :: 0 <= i < |children| ==> children[i].Ok())
      && (forall i, j :: 0 <= i < j < |children| ==> children[i] != children[j])
      && IsMergeOf(merged, Tables())
    }

    /** Moving forward every child is at its first entry from the current one on; moving in reverse
        every child but the current one is at its last entry before it. */
    ghost predicate Ok()
      reads this, children
    {
      && ChildrenOk()
      && (current.None? ==> pos == |merged|)
      && (current.Some? ==>
            && current.value < |children| && pos < |merged|
            && merged[pos] in children[current.value].entries
            && forall i :: 0 <= i < |children| ==>
                 children[i].pos ==
                   if direction == Forward || i == current.value then Ahead(children[i].entries, merged, pos)
                   else Behind(children[i].entries, merged, pos))
    }

    constructor (children: seq<Cursor>, ghost merged: Table)
      requires forall i :: 0 <= i < |children| ==> children[i].Ok()
      requires forall i, j :: 0 <= i < j < |children| ==> children[i] != children[j]
      requires IsMergeOf(merged, seq(|children|, i requires 0 <= i < |children| => children[i].entries))
      ensures Ok() && !Valid() && this.children == children && this.merged == merged
    {
      this.children, this.merged := children, merged;
      current, direction, pos := None, Forward, |merged|;
    }

    predicate Valid()
      reads this
    {
      current.Some?
    }

    function Key(): InternalKey
      requires Ok() && Valid()
      reads this, children
    {
      CurrentIsMerged();
      children[current.value].Key()
    }

    function Value(): Value
      requires Ok() && Valid()
      reads this, children
    {
      CurrentIsMerged();
      children[current.value].Value()
    }

    /** The current entry is the one at `pos` of the merge. */
    lemma CurrentIsMerged()
      requires Ok() && Valid()
      ensures children[current.value].Valid()
      ensures children[current.value].Key() == merged[pos].key
      ensures children[current.value].Value() == merged[pos].value
    {
      ChildFacts(current.value);
      AheadAdvances(children[current.value].entries, merged, pos);
    }

    lemma ChildFacts(i: nat)
      requires ChildrenOk() && i < |children|
      ensures Sorted(merged) && Sorted(children[i].entries) && EntriesOf(children[i].entries) <= EntriesOf(merged)
      ensures forall j, e :: 0 <= j < |children| && e in children[i].entries && e in children[j].entries ==> i == j
    {
      assert Tables()[i] == children[i].entries;
      forall j, e | 0 <= j < |children| && e in children[i].entries && e in children[j].entries ensures i == j {
        assert Tables()[j] == children[j].entries;
      }
    }

    lemma Owner(p: nat) returns (i: nat)
      requires ChildrenOk() && p < |merged|
      ensures i < |children| && merged[p] in children[i].entries
    {
      assert merged[p] in merged;
      i :| 0 <= i < |children| && merged[p] in Tables()[i];
    }

    /** With every child at its first entry from merged position p on, the smallest is merged[p]. */
    method FindSmallest(ghost p: nat)
      requires ChildrenOk() && p <= |merged|
      requires forall i :: 0 <= i < |children| ==> children[i].pos == Ahead(children[i].entries, merged, p)
      modifies this`current, this`pos
      ensures current.Some? <==> p < |merged|
      ensures current.Some? ==> current.value < |children| && merged[p] in children[current.value].entries
      ensures pos == p
    {
      var smallest: Option<nat> := None;
      var i := 0;
      while i < |children|
        invariant i <= |children|
        invariant smallest.None? ==> forall k :: 0 <= k < i ==> !children[k].Valid()
        invariant smallest.Some? ==> smallest.value < |children| && children[smallest.value].Valid()
        invariant smallest.Some? ==> forall k :: 0 <= k < i && children[k].Valid() ==>
                    !Less(children[k].Key(), children[smallest.value].Key())
      {
        if children[i].Valid() {
          if smallest.None? {
            smallest := Some(i);
          } else if Less(children[i].Key(), children[smallest.value].Key()) {
            smallest := Some(i);
          }
        }
        i := i + 1;
      }
      current := smallest;
      pos := p;
      if p < |merged| {
        var o := Owner(p);
        ChildFacts(o);
        AheadAdvances(children[o].entries, merged, p);
        var c := smallest.value;
        ChildFacts(c);
        var e := children[c].entries[children[c].pos];
        assert !Less(merged[p].key, e.key) && !Less(e.key, merged[p].key);
        assert e in EntriesOf(children[c].entries);
        SameKeySameEntry(e, p);
      }
    }

    lemma SameKeySameEntry(e: Entry, p: nat)
      requires Sorted(merged) && e in merged && p < |merged|
      requires !Less(merged[p].key, e.key) && !Less(e.key, merged[p].key)
      ensures e == merged[p]
    {
      var k :| 0 <= k < |merged| && merged[k] == e;
    }

    /** With every child at its last entry before merged position p, the largest is merged[p - 1]. */
    method FindLargest(ghost p: nat)
      requires ChildrenOk() && p <= |merged|
      requires forall i :: 0 <= i < |children| ==> children[i].pos == Behind(children[i].entries, merged, p)
      modifies this`current, this`pos
      ensures current.Some? <==> p > 0
      ensures current.Some? ==> current.value < |children| && merged[p - 1] in children[current.value].entries
      ensures pos == if p == 0 then |merged| else p - 1
    {
      hide IsMergeOf, Sorted, Ahead, Behind;
      var largest: Option<nat> := None;
      var i: int := |children| - 1;
      while i >= 0
        invariant -1 <= i < |children|
        invariant largest.None? ==> forall k :: i < k < |children| ==> !children[k].Valid()
        invariant largest.Some? ==> largest.value < |children| && children[largest.value].Valid()
        invariant largest.Some? ==> forall k :: i < k < |children| && children[k].Valid() ==>
                    !Less(children[largest.value].Key(), children[k].Key())
      {
        if children[i].Valid() {
          if largest.None? {
            largest := Some(i);
          } else if Less(children[largest.value].Key(), children[i].Key()) {
            largest := Some(i);
          }
        }
        i := i - 1;
      }
      current := largest;
      pos := if p == 0 then |merged| else p - 1;
      if p == 0 {
        NoneBehind();
      } else {
        var o := OwnerStandsOn(p - 1);
        LastBeforeIs(largest.value, p - 1);
      }
    }

    lemma NoneBehind()
      requires ChildrenOk()
      requires forall i :: 0 <= i < |children| ==> children[i].pos == Behind(children[i].entries, merged, 0)
      ensures forall i :: 0 <= i < |children| ==> !children[i].Valid()
    {
      forall k | 0 <= k < |children| ensures !children[k].Valid() {
        ChildFacts(k);
        StartAgrees(children[k].entries, merged);
      }
    }

    /** Standing before p + 1, the owner of merged[p] stands on it. */
    lemma OwnerStandsOn(p: nat) returns (o: nat)
      requires ChildrenOk() && p < |merged|
      requires forall i :: 0 <= i < |children| ==> children[i].pos == Behind(children[i].entries, merged, p + 1)
      ensures o < |children| && children[o].Valid() && children[o].Key() == merged[p].key
    {
      o := Owner(p);
      ChildFacts(o);
      AheadAdvances(children[o].entries, merged, p);
    }

    /** Standing before p + 1, a child whose entry is not below merged[p] is the owner. */
    lemma LastBeforeIs(c: nat, p: nat)
      requires ChildrenOk() && p < |merged| && c < |children| && children[c].Valid()
      requires children[c].pos == Behind(children[c].entries, merged, p + 1) && !Less(children[c].Key(), merged[p].key)
      ensures merged[p] in children[c].entries
    {
      ChildFacts(c);
      AheadAdvances(children[c].entries, merged, p);
    }

    /** Leaves reverse mode: the children other than the current one move past its key. */
    method TurnForward(key: InternalKey, c: nat, ghost p: nat)
      requires ChildrenOk() && c < |children| && p < |merged|
      requires merged[p] in children[c].entries && key == merged[p].key
      requires children[c].pos == Ahead(children[c].entries, merged, p)
      modifies children
      ensures ChildrenOk()
      ensures forall k :: 0 <= k < |children| ==> children[k].pos == Ahead(children[k].entries, merged, p)
    {
      var i := 0;
      while i < |children|
        invariant i <= |children| && ChildrenOk()
        invariant children[c].pos == Ahead(children[c].entries, merged, p)
        invariant forall k :: 0 <= k < i ==> children[k].pos == Ahead(children[k].entries, merged, p)
      {
        if i != c {
          children[i].Seek(key);
          // Distinct keys: Next never has to step past an equal key in another child.
          assert children[i].Valid() ==> children[i].Key() != key by {
            NotThere(i, c, p);
          }
        }
        i := i + 1;
      }
    }

    method Next()
      requires Ok() && Valid()
      modifies this, children
      ensures Ok() && pos == old(pos) + 1
    {
      hide IsMergeOf, Sorted, Ahead, Behind;
      ghost var p := pos;
      CurrentIsMerged();
      var c := current.value;
      if direction != Forward {
        TurnForward(Key(), c, p);
        direction := Forward;
      }
      CurrentIsMerged();
      children[c].Next();
      StepAhead(c, p);
      FindSmallest(p + 1);
    }

    /** Children standing ahead of p, with the owner of merged[p] one further, stand ahead of p + 1. */
    lemma StepAhead(c: nat, p: nat)
      requires ChildrenOk() && p < |merged| && c < |children| && merged[p] in children[c].entries
      requires forall i :: 0 <= i < |children| ==>
                 children[i].pos == Ahead(children[i].entries, merged, p) + (if i == c then 1 else 0)
      ensures forall i :: 0 <= i < |children| ==> children[i].pos == Ahead(children[i].entries, merged, p + 1)
    {
      forall i | 0 <= i < |children| ensures children[i].pos == Ahead(children[i].entries, merged, p + 1) {
        ChildFacts(i);
        AheadAdvances(children[i].entries, merged, p);
      }
    }

    lemma NotThere(i: nat, c: nat, p: nat)
      requires ChildrenOk() && i < |children| && c < |children| && i != c && p < |merged| && merged[p] in children[c].entries
      ensures forall e :: e in children[i].entries ==> e.key != merged[p].key
    {
      ChildFacts(i);
      forall e | e in children[i].entries && e.key == merged[p].key ensures false {
        assert e in EntriesOf(children[i].entries);
        SameKeySameEntry(e, p);
      }
    }

    /** Leaves forward mode: the children other than the current one move before its key. */
    method TurnBack(key: InternalKey, c: nat, ghost p: nat)
      requires ChildrenOk() && c < |children| && p < |merged| && key == merged[p].key
      modifies children
      ensures ChildrenOk()
      ensures children[c].pos == old(children[c].pos)
      ensures forall k :: 0 <= k < |children| && k != c ==> children[k].pos == Behind(children[k].entries, merged, p)
    {
      var i := 0;
      while i < |children|
        invariant i <= |children| && ChildrenOk()
        invariant children[c].pos == old(children[c].pos)
        invariant forall k :: 0 <= k < i && k != c ==> children[k].pos == Behind(children[k].entries, merged, p)
      {
        if i != c {
          children[i].Seek(key);
          if children[i].Valid() {
            children[i].Prev();
          } else {
            children[i].SeekToLast();
          }
        }
        i := i + 1;
      }
    }

    method Prev()
      requires Ok() && Valid()
      modifies this, children
      ensures Ok() && pos == if old(pos) == 0 then |merged| else old(pos) - 1
    {
      hide IsMergeOf, Sorted;
      ghost var p := pos;
      CurrentIsMerged();
      var c := current.value;
      if direction != Reverse {
        TurnBack(Key(), c, p);
        direction := Reverse;
      }
      children[c].Prev();
      FindLargest(p);
      if p > 0 {
        StepBack(p - 1);
      }
    }

    /** Children standing before p + 1 stand before p too, save the owner of merged[p]. */
    lemma StepBack(p: nat)
      requires ChildrenOk() && p < |merged|
      requires current.Some? && current.value < |children| && merged[p] in children[current.value].entries
      requires forall i :: 0 <= i < |children| ==> children[i].pos == Behind(children[i].entries, merged, p + 1)
      ensures forall i :: 0 <= i < |children| ==>
                children[i].pos == if i == current.value then Ahead(children[i].entries, merged, p)
                                   else Behind(children[i].entries, merged, p)
    {
      forall i | 0 <= i < |children|
        ensures children[i].pos == if i == current.value then Ahead(children[i].entries, merged, p)
                                   else Behind(children[i].entries, merged, p)
      {
        ChildFacts(i);
        AheadAdvances(children[i].entries, merged, p);
      }
    }

    method Seek(target: InternalKey)
      requires ChildrenOk()
      modifies this, children
      ensures Ok() && pos == LowerBound(merged, target)
    {
      ghost var p := LowerBound(merged, target);
      var i := 0;
      while i < |children|
        invariant i <= |children| && ChildrenOk()
        invariant forall k :: 0 <= k < i ==> children[k].pos == Ahead(children[k].entries, merged, p)
      {
        children[i].Seek(target);
        ChildFacts(i);
        SeekAgrees(children[i].entries, merged, target);
        i := i + 1;
      }
      FindSmallest(p);
      direction := Forward;
    }

    method SeekToFirst()
      requires ChildrenOk()
      modifies this, children
      ensures Ok() && pos == 0
    {
      var i := 0;
      while i < |children|
        invariant i <= |children| && ChildrenOk()
        invariant forall k :: 0 <= k < i ==> children[k].pos == Ahead(children[k].entries, merged, 0)
      {
        children[i].SeekToFirst();
        ChildFacts(i);
        StartAgrees(children[i].entries, merged);
        i := i + 1;
      }
      FindSmallest(0);
      direction := Forward;
    }

    method SeekToLast()
      requires ChildrenOk()
      modifies this, children
      ensures Ok() && pos == if |merged| == 0 then 0 else |merged| - 1
    {
      var i := 0;
      while i < |children|
        invariant i <= |children| && ChildrenOk()
        invariant forall k :: 0 <= k < i ==> children[k].pos == Behind(children[k].entries, merged, |merged|)
      {
        children[i].SeekToLast();
        i := i + 1;
      }
      FindLargest(|merged|);
      direction := Reverse;
      if |merged| > 0 {
        StepBack(|merged| - 1);
      }
    }
  }
}
