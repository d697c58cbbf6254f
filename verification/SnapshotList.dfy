/** The snapshots still open (db/snapshot.h): a circular list through a dummy node, oldest first. */
module Snapshots {

  class Snapshot {
    const number: nat
    var prev: Snapshot?
    var next: Snapshot?

    constructor (number: nat)
      ensures this.number == number
    {
      this.number, prev, next := number, null, null;
    }
  }

  /** Neighbours point at each other, and the ends at the first node. */
  ghost predicate Linked(ring: seq<Snapshot>)
    requires ring != []
    reads ring
  {
    && NoRepeats(ring)
    && (forall i :: 0 <= i < |ring| ==> ring[i].next == After(ring, i) && After(ring, i).prev == ring[i])
  }

  ghost predicate NoRepeats(ring: seq<Snapshot>) {
    forall i, j :: 0 <= i < j < |ring| ==> ring[i] != ring[j]
  }

  ghost function After(ring: seq<Snapshot>, i: nat): Snapshot
    requires i < |ring|
  {
    if i == |ring| - 1 then ring[0] else ring[i + 1]
  }

  ghost predicate Ascending(nodes: seq<Snapshot>) {
    forall i, j :: 0 <= i < j < |nodes| ==> nodes[i].number <= nodes[j].number
  }

  lemma WithoutOne(ring: seq<Snapshot>, k: nat)
    requires NoRepeats(ring) && k < |ring|
    ensures NoRepeats(ring[..k] + ring[k + 1..])
    ensures forall i, j :: 0 <= i < |ring| && 0 <= j < |ring| && i != j ==> ring[i] != ring[j]
  {
  }

  lemma AfterWithout(ring: seq<Snapshot>, k: nat, j: nat)
    requires 0 < k < |ring| && j < |ring| - 1
    ensures var less, r := ring[..k] + ring[k + 1..], if j < k then j else j + 1;
            less[j] == ring[r] && After(less, j) == After(ring, if j == k - 1 then k else r)
  {
  }

  class SnapshotList {
    const list: Snapshot
    ghost var nodes: seq<Snapshot>

    ghost predicate Valid()
      reads this, list, nodes
    {
      Linked([list] + nodes)
    }

    constructor ()
      ensures Valid() && nodes == [] && fresh(list)
    {
      list := new Snapshot(0);
      nodes := [];
      new;
      list.prev, list.next := list, list;
    }

    method Empty() returns (empty: bool)
      requires Valid()
      ensures empty <==> nodes == []
    {
      assert ([list] + nodes)[0].next == After([list] + nodes, 0);
      empty := list.next == list;
    }

    method Oldest() returns (s: Snapshot)
      requires Valid() && nodes != []
      ensures s == nodes[0]
    {
      assert ([list] + nodes)[0].next == After([list] + nodes, 0);
      s := list.next;
    }

    method Newest() returns (s: Snapshot)
      requires Valid() && nodes != []
      ensures s == nodes[|nodes| - 1]
    {
      ghost var ring := [list] + nodes;
      assert After(ring, |nodes|).prev == ring[|nodes|];
      s := list.prev;
    }

    /** A new snapshot is the newest. */
    method New(number: nat) returns (s: Snapshot)
      requires Valid()
      modifies this, list, nodes
      ensures Valid() && fresh(s) && s.number == number && nodes == old(nodes) + [s]
    {
      ghost var ring := [list] + nodes;
      assert After(ring, |nodes|).prev == ring[|nodes|];
      s := new Snapshot(number);
      s.next := list;
      s.prev := list.prev;
      s.prev.next := s;
      s.next.prev := s;
      nodes := nodes + [s];
      Appended(ring, s);
      assert [list] + nodes == ring + [s];
    }

    twostate lemma Appended(ring: seq<Snapshot>, new s: Snapshot)
      requires ring != [] && (forall x :: x in ring ==> allocated(x)) && old(Linked(ring)) && s !in ring
      requires ring[|ring| - 1].next == s && s.prev == ring[|ring| - 1] && s.next == ring[0] && ring[0].prev == s
      requires forall i :: 0 <= i < |ring| - 1 ==> ring[i].next == old(ring[i].next)
      requires forall i :: 0 < i < |ring| ==> ring[i].prev == old(ring[i].prev)
      ensures Linked(ring + [s])
    {
      forall i | 0 <= i < |ring + [s]| ensures (ring + [s])[i].next == After(ring + [s], i) && After(ring + [s], i).prev == (ring + [s])[i] {
        if i < |ring| - 1 {
          assert old(ring[i].next) == After(ring, i) && old(After(ring, i).prev) == ring[i];
        }
      }
    }

    /** Deleting takes out that snapshot and keeps the order of the others. */
    method Delete(s: Snapshot, ghost i: nat)
      requires Valid() && i < |nodes| && nodes[i] == s
      modifies list, nodes, this`nodes
      ensures Valid() && nodes == old(nodes)[..i] + old(nodes)[i + 1..]
    {
      ghost var ring := [list] + nodes;
      hide NoRepeats;
      WithoutOne(ring, i + 1);
      assert s.prev == ring[i] && After(ring, i) == s && s.next == After(ring, i + 1);
      s.prev.next := s.next;
      s.next.prev := s.prev;
      nodes := nodes[..i] + nodes[i + 1..];
      ghost var less := [list] + nodes;
      assert less == ring[..i + 1] + ring[i + 2..];
      forall j | 0 <= j < |less| ensures less[j].next == After(less, j) && After(less, j).prev == less[j] {
        AfterWithout(ring, i + 1, j);
        var r := if j <= i then j else j + 1;
        assert old(ring[r].next) == After(ring, r) && old(After(ring, r).prev) == ring[r];
      }
    }
  }

  /** Snapshots are opened at ascending sequence numbers, whichever are closed in between, so the
      oldest has the smallest. */
  lemma OldestIsSmallest(nodes: seq<Snapshot>, s: Snapshot, i: nat)
    requires Ascending(nodes)
    ensures forall x :: x in nodes ==> nodes[0].number <= x.number
    ensures (forall x :: x in nodes ==> x.number <= s.number) ==> Ascending(nodes + [s])
    ensures i < |nodes| ==> Ascending(nodes[..i] + nodes[i + 1..])
  {
    if forall x :: x in nodes ==> x.number <= s.number {
      var more := nodes + [s];
      forall a, b | 0 <= a < b < |more| ensures more[a].number <= more[b].number {
        assert more[a] in nodes;
      }
    }
  }
}
