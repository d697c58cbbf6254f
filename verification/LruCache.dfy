/** One shard of the block and table caches (LRUCache, util/cache.cc). Handles live in `heap` under
    a number that stands for their address; the two circular lists are sequences, oldest first. */
module LruCaches {
  import opened InternalKeys
  import opened Coding
  import opened HandleTables

  datatype Handle = Handle(key: Bytes, value: nat, charge: nat, inCache: bool, refs: nat)

  type Heap = map<Ref, Handle>

  // ---------- lists ----------

  ghost predicate NoDuplicates(s: seq<Ref>) {
    forall i, j :: 0 <= i < j < |s| ==> s[i] != s[j]
  }

  /** Unlinking an entry. */
  function Without(s: seq<Ref>, r: Ref): seq<Ref> {
    if s == [] then [] else if s[0] == r then s[1..] else [s[0]] + Without(s[1..], r)
  }

  ghost function Charge(heap: Heap, s: seq<Ref>): nat
    requires forall r :: r in s ==> r in heap
  {
    if s == [] then 0 else heap[s[0]].charge + Charge(heap, s[1..])
  }

  lemma {:induction false} WithoutMembers(s: seq<Ref>, r: Ref)
    requires NoDuplicates(s)
    ensures NoDuplicates(Without(s, r))
    ensures forall x :: x in Without(s, r) <==> x in s && x != r
  {
    if s != [] {
      WithoutMembers(s[1..], r);
      if s[0] == r {
        assert r !in s[1..];
      } else {
        var w := Without(s[1..], r);
        assert forall x :: x in [s[0]] + w <==> x == s[0] || x in w;
        assert s[0] !in s[1..];
      }
    }
  }

  lemma {:induction false} WithoutAbsent(s: seq<Ref>, r: Ref)
    requires r !in s
    ensures Without(s, r) == s
  {
    if s != [] {
      WithoutAbsent(s[1..], r);
    }
  }

  lemma {:induction false} WithoutCharge(heap: Heap, s: seq<Ref>, r: Ref)
    requires (forall x :: x in s ==> x in heap) && r in s
    ensures forall x :: x in Without(s, r) ==> x in s
    ensures Charge(heap, Without(s, r)) + heap[r].charge == Charge(heap, s)
  {
    if s[0] != r {
      WithoutCharge(heap, s[1..], r);
      var w := [s[0]] + Without(s[1..], r);
      assert w[1..] == Without(s[1..], r);
    }
  }

  lemma {:induction false} AppendCharge(heap: Heap, s: seq<Ref>, r: Ref)
    requires (forall x :: x in s ==> x in heap) && r in heap
    ensures Charge(heap, s + [r]) == Charge(heap, s) + heap[r].charge
  {
    if s == [] {
      assert [r][1..] == [];
    } else {
      assert (s + [r])[1..] == s[1..] + [r];
      AppendCharge(heap, s[1..], r);
    }
  }

  /** Charges depend only on the listed handles' charges. */
  lemma {:induction false} SameCharge(heap: Heap, heap': Heap, s: seq<Ref>)
    requires forall x :: x in s ==> x in heap && x in heap' && heap'[x].charge == heap[x].charge
    ensures Charge(heap', s) == Charge(heap, s)
  {
    if s != [] {
      SameCharge(heap, heap', s[1..]);
    }
  }

  // ---------- what the cache keeps ----------

  /** Cached handles without clients are on the LRU list, cached handles with clients on the other. */
  ghost predicate ListsOk(heap: Heap, lru: seq<Ref>, inUse: seq<Ref>) {
    && NoDuplicates(lru) && NoDuplicates(inUse)
    && (forall r :: r in lru <==> r in heap && heap[r].inCache && heap[r].refs == 1)
    && (forall r :: r in inUse <==> r in heap && heap[r].inCache && heap[r].refs >= 2)
  }

  /** The table holds exactly the cached handles, each under its own key; `x` may be on its way out. */
  ghost predicate TableOk(heap: Heap, contents: map<Bytes, Ref>, x: Option<Ref>) {
    && (forall k :: k in contents ==> contents[k] in heap && heap[contents[k]].inCache && heap[contents[k]].key == k && Some(contents[k]) != x)
    && (forall r :: r in heap && heap[r].inCache && Some(r) != x ==> heap[r].key in contents && contents[heap[r].key] == r)
  }

  /** References are the clients' handles plus the cache's own. */
  ghost predicate RefsOk(heap: Heap, held: multiset<Ref>) {
    && (forall r :: r in heap ==> heap[r].refs == held[r] + (if heap[r].inCache then 1 else 0) && heap[r].refs > 0)
    && (forall r :: r in held ==> r in heap)
  }

  /** Every handle ever made is either alive or has had its deleter run, once. */
  ghost predicate DeletersOk(heap: Heap, deleted: seq<Ref>, next: Ref) {
    && NoDuplicates(deleted)
    && (forall r: Ref :: r < next <==> r in heap || r in deleted)
    && (forall r :: r in deleted ==> r !in heap)
  }

  /** The lists are right and the usage is the total charge of what is on them. */
  ghost predicate Accounted(heap: Heap, lru: seq<Ref>, inUse: seq<Ref>, usage: nat) {
    ListsOk(heap, lru, inUse) && usage == Charge(heap, lru) + Charge(heap, inUse)
  }

  // ---------- what one change does to each part ----------

  /** Moving an entry between the lists keeps the total charge. */
  lemma Moved(heap: Heap, heap': Heap, from: seq<Ref>, to: seq<Ref>, e: Ref)
    requires NoDuplicates(from) && NoDuplicates(to) && e in from && e !in to
    requires forall r :: r in from || r in to ==> r in heap && r in heap' && heap'[r].charge == heap[r].charge
    ensures NoDuplicates(Without(from, e)) && NoDuplicates(to + [e])
    ensures forall r :: r in Without(from, e) <==> r in from && r != e
    ensures forall r :: r in to + [e] <==> r in to || r == e
    ensures Charge(heap', Without(from, e)) + Charge(heap', to + [e]) == Charge(heap, from) + Charge(heap, to)
  {
    WithoutMembers(from, e);
    WithoutCharge(heap', from, e);
    AppendCharge(heap', to, e);
    SameCharge(heap, heap', from);
    SameCharge(heap, heap', to);
  }

  /** An entry's references go from `refs` to `refs'`; both while alive. */
  lemma RefsChanged(heap: Heap, lru: seq<Ref>, inUse: seq<Ref>, usage: nat, e: Ref, refs: nat)
    requires Accounted(heap, lru, inUse, usage) && e in heap && refs > 0 && heap[e].refs > 0
    ensures var h, heap' := heap[e], heap[e := heap[e].(refs := refs)];
            var up, down := h.inCache && h.refs == 1 && refs >= 2, h.inCache && h.refs >= 2 && refs == 1;
            Accounted(heap', if up then Without(lru, e) else if down then lru + [e] else lru,
                      if up then inUse + [e] else if down then Without(inUse, e) else inUse, usage)
  {
    hide NoDuplicates, Charge, Without;
    var h, heap' := heap[e], heap[e := heap[e].(refs := refs)];
    if h.inCache && h.refs == 1 && refs >= 2 {
      Moved(heap, heap', lru, inUse, e);
    } else if h.inCache && h.refs >= 2 && refs == 1 {
      Moved(heap, heap', inUse, lru, e);
    } else {
      SameCharge(heap, heap', lru);
      SameCharge(heap, heap', inUse);
    }
  }

  /** An entry that is not cached is on no list: what becomes of it does not matter to them. */
  lemma Uncached(heap: Heap, heap': Heap, lru: seq<Ref>, inUse: seq<Ref>, usage: nat, e: Ref)
    requires Accounted(heap, lru, inUse, usage)
    requires e in heap ==> !heap[e].inCache
    requires e in heap' ==> !heap'[e].inCache
    requires forall r :: r != e ==> (r in heap <==> r in heap') && (r in heap ==> heap'[r] == heap[r])
    ensures Accounted(heap', lru, inUse, usage)
  {
    SameCharge(heap, heap', lru);
    SameCharge(heap, heap', inUse);
  }

  lemma Removed(heap: Heap, heap': Heap, s: seq<Ref>, e: Ref)
    requires NoDuplicates(s) && e in s
    requires forall r :: r in s ==> r in heap && r in heap' && heap'[r].charge == heap[r].charge
    ensures NoDuplicates(Without(s, e)) && (forall r :: r in Without(s, e) <==> r in s && r != e)
    ensures Charge(heap', Without(s, e)) + heap[e].charge == Charge(heap, s)
  {
    WithoutMembers(s, e);
    WithoutCharge(heap', s, e);
    SameCharge(heap, heap', s);
  }

  /** Taking a cached entry off its list. */
  lemma Unlinked(heap: Heap, lru: seq<Ref>, inUse: seq<Ref>, usage: nat, e: Ref)
    requires Accounted(heap, lru, inUse, usage) && e in heap && heap[e].inCache && heap[e].refs > 0
    ensures heap[e].charge <= usage
    ensures var heap' := heap[e := heap[e].(inCache := false)];
            var idle := heap[e].refs == 1;
            Accounted(heap', if idle then Without(lru, e) else lru, if idle then inUse else Without(inUse, e), usage - heap[e].charge)
  {
    hide NoDuplicates, Charge, Without;
    var heap' := heap[e := heap[e].(inCache := false)];
    if heap[e].refs == 1 {
      Removed(heap, heap', lru, e);
      SameCharge(heap, heap', inUse);
    } else {
      Removed(heap, heap', inUse, e);
      SameCharge(heap, heap', lru);
    }
  }

  /** Entering a new handle, in use from the start. */
  lemma Linked(heap: Heap, lru: seq<Ref>, inUse: seq<Ref>, usage: nat, e: Ref, h: Handle)
    requires Accounted(heap, lru, inUse, usage) && e !in heap && h.inCache && h.refs >= 2
    ensures Accounted(heap[e := h], lru, inUse + [e], usage + h.charge)
  {
    SameCharge(heap, heap[e := h], lru);
    SameCharge(heap, heap[e := h], inUse);
    AppendCharge(heap[e := h], inUse, e);
  }

  /** The table looks at keys and at who is cached, not at reference counts or uncached handles. */
  lemma TableUnaffected(heap: Heap, heap': Heap, contents: map<Bytes, Ref>, x: Option<Ref>, x': Option<Ref>)
    requires TableOk(heap, contents, x)
    requires forall r :: r in heap && heap[r].inCache && Some(r) != x <==> r in heap' && heap'[r].inCache && Some(r) != x'
    requires forall r :: r in heap && r in heap' ==> heap'[r].key == heap[r].key
    ensures TableOk(heap', contents, x')
  {
    forall k | k in contents
      ensures contents[k] in heap' && heap'[contents[k]].inCache && heap'[contents[k]].key == k && Some(contents[k]) != x'
    {
      var r := contents[k];
      assert r in heap && heap[r].inCache && Some(r) != x;
    }
  }

  lemma RefsAfter(heap: Heap, heap': Heap, held: multiset<Ref>, held': multiset<Ref>, e: Ref)
    requires RefsOk(heap, held)
    requires forall r :: r != e ==> held'[r] == held[r] && (r in heap <==> r in heap') && (r in heap ==> heap'[r] == heap[r])
    requires if e in heap' then heap'[e].refs == held'[e] + (if heap'[e].inCache then 1 else 0) && heap'[e].refs > 0 else held'[e] == 0
    ensures RefsOk(heap', held')
  {
    forall r | r in held' ensures r in heap' {
      if r != e {
        assert r in held;
      }
    }
  }

  /** A client's reference comes; a reference, of a client or of the cache, goes. */
  lemma RefComes(heap: Heap, held: multiset<Ref>, e: Ref)
    requires RefsOk(heap, held) && e in heap
    ensures heap[e].refs > 0 && RefsOk(heap[e := heap[e].(refs := heap[e].refs + 1)], held + multiset{e})
  {
    RefsAfter(heap, heap[e := heap[e].(refs := heap[e].refs + 1)], held, held + multiset{e}, e);
  }

  lemma RefGoes(heap: Heap, held: multiset<Ref>, left: multiset<Ref>, e: Ref)
    requires RefsOk(heap, held) && e in heap && held == left + multiset{e}
    ensures heap[e].refs > 0 && (heap[e].refs == 1 ==> !heap[e].inCache)
    ensures RefsOk(if heap[e].refs == 1 then heap - {e} else heap[e := heap[e].(refs := heap[e].refs - 1)], left)
  {
    assert held[e] == left[e] + 1;
    RefsAfter(heap, if heap[e].refs == 1 then heap - {e} else heap[e := heap[e].(refs := heap[e].refs - 1)], held, left, e);
  }

  /** Leaving the cache turns the cache's own reference into a pending one. */
  lemma CacheLetsGo(heap: Heap, held: multiset<Ref>, e: Ref)
    requires RefsOk(heap, held) && e in heap && heap[e].inCache
    ensures heap[e].refs > 0 && RefsOk(heap[e := heap[e].(inCache := false)], held + multiset{e})
  {
    RefsAfter(heap, heap[e := heap[e].(inCache := false)], held, held + multiset{e}, e);
  }

  /** Changing only the reference count or the cached flag of one handle. */
  lemma KeysKept(heap: Heap, e: Ref, h: Handle, contents: map<Bytes, Ref>, x: Option<Ref>, x': Option<Ref>)
    requires TableOk(heap, contents, x) && e in heap && h.key == heap[e].key
    requires (heap[e].inCache && Some(e) != x) <==> (h.inCache && Some(e) != x')
    requires x == x' || (x == Some(e) && x' == None) || (x == None && x' == Some(e))
    ensures TableOk(heap[e := h], contents, x')
  {
    TableUnaffected(heap, heap[e := h], contents, x, x');
  }

  datatype Shard = Shard(heap: Heap, lru: seq<Ref>, usage: nat, deleted: seq<Ref>, held: multiset<Ref>, contents: map<Bytes, Ref>)

  class LRUCache {
    const capacity: nat
    const table: HandleTable
    var usage: nat
    var lru: seq<Ref>
    var inUse: seq<Ref>
    var heap: Heap
    var next: Ref
    /** Deleter calls so far. */
    var deleted: seq<Ref>
    /** Handles that clients have been given and not released. */
    ghost var held: multiset<Ref>

    /** All invariants, but for a handle x that has just left the table. */
    ghost predicate Sound(x: Option<Ref>)
      reads this, table
    {
      && table.Valid()
      && Accounted(heap, lru, inUse, usage)
      && TableOk(heap, table.contents, x)
      && RefsOk(heap, held) && DeletersOk(heap, deleted, next)
    }

    ghost predicate Valid()
      reads this, table
    {
      Sound(None)
    }

    constructor (capacity: nat, hash: Hash)
      ensures Valid() && fresh(table) && held == multiset{} && table.contents == map[] && usage == 0 && deleted == []
      ensures this.capacity == capacity
    {
      this.capacity := capacity;
      usage, lru, inUse, heap, next, deleted, held := 0, [], [], map[], 0, [], multiset{};
      table := new HandleTable(hash);
    }

    /** A new reference; an entry that was idle moves to the in-use list. */
    method Ref(e: Ref)
      requires Valid() && e in heap
      modifies this
      ensures Valid() && held == old(held) + multiset{e}
      ensures heap == old(heap)[e := old(heap)[e].(refs := old(heap)[e].refs + 1)]
      ensures usage == old(usage) && deleted == old(deleted) && next == old(next)
      ensures lru == if old(heap)[e].refs == 1 && old(heap)[e].inCache then Without(old(lru), e) else old(lru)
    {
      hide Accounted, TableOk, DeletersOk, RefsOk, HandleTable.Valid;
      var h := heap[e];
      RefComes(heap, held, e);
      RefsChanged(heap, lru, inUse, usage, e, h.refs + 1);
      KeysKept(heap, e, h.(refs := h.refs + 1), table.contents, None, None);
      SameHandles(heap, heap[e := h.(refs := h.refs + 1)], deleted, next);
      if h.refs == 1 && h.inCache {
        lru := Without(lru, e);
        inUse := inUse + [e];
      }
      heap := heap[e := h.(refs := h.refs + 1)];
      held := held + multiset{e};
    }

    static lemma SameHandles(heap: Heap, heap': Heap, deleted: seq<Ref>, next: Ref)
      requires DeletersOk(heap, deleted, next) && heap'.Keys == heap.Keys
      ensures DeletersOk(heap', deleted, next)
    {
    }

    /** One reference less: the last one runs the deleter, the last client's makes a cached entry the
        newest idle one. `client` tells a client's reference from the cache's own. */
    method Unref(e: Ref, ghost client: bool)
      requires table.Valid() && Accounted(heap, lru, inUse, usage) && TableOk(heap, table.contents, None)
      requires DeletersOk(heap, deleted, next) && e in heap
      requires if client then e in held && RefsOk(heap, held) else !heap[e].inCache && RefsOk(heap, held + multiset{e})
      modifies this
      ensures Valid() && held == if client then old(held) - multiset{e} else old(held)
      ensures var h := old(heap)[e];
              && (if h.refs == 1 then heap == old(heap) - {e} && deleted == old(deleted) + [e]
                  else heap == old(heap)[e := h.(refs := h.refs - 1)] && deleted == old(deleted))
              && lru == if h.refs == 2 && h.inCache then old(lru) + [e] else old(lru)
      ensures usage == old(usage) && next == old(next)
    {
      hide Accounted, TableOk, DeletersOk, RefsOk, HandleTable.Valid;
      var h := heap[e];
      ghost var left := if client then held - multiset{e} else held;
      RefGoes(heap, if client then held else held + multiset{e}, left, e);
      if h.refs == 1 {
        Uncached(heap, heap - {e}, lru, inUse, usage, e);
        TableUnaffected(heap, heap - {e}, table.contents, None, None);
        HandleDeleted(heap, deleted, next, e);
        heap := heap - {e};
        deleted := deleted + [e];
      } else {
        var heap' := heap[e := h.(refs := h.refs - 1)];
        RefsChanged(heap, lru, inUse, usage, e, h.refs - 1);
        KeysKept(heap, e, h.(refs := h.refs - 1), table.contents, None, None);
        SameHandles(heap, heap', deleted, next);
        if h.inCache && h.refs == 2 {
          inUse := Without(inUse, e);
          lru := lru + [e];
        }
        heap := heap';
      }
      held := left;
    }

    static lemma HandleDeleted(heap: Heap, deleted: seq<Ref>, next: Ref, e: Ref)
      requires DeletersOk(heap, deleted, next) && e in heap
      ensures DeletersOk(heap - {e}, deleted + [e], next)
    {
    }

    /** Finishes the removal of an entry that is already out of the table. */
    method FinishErase(x: Option<Ref>) returns (erased: bool)
      requires Sound(x) && (x.Some? ==> x.value in heap && heap[x.value].inCache)
      modifies this
      ensures Valid() && held == old(held) && next == old(next) && erased == x.Some?
      ensures x.None? ==> heap == old(heap) && deleted == old(deleted) && lru == old(lru) && usage == old(usage)
      ensures x.Some? ==>
                var e, h := x.value, old(heap)[x.value];
                && (if h.refs == 1 then heap == old(heap) - {e} && deleted == old(deleted) + [e]
                    else heap == old(heap)[e := h.(inCache := false, refs := h.refs - 1)] && deleted == old(deleted))
                && lru == (if h.refs == 1 then Without(old(lru), e) else old(lru))
                && h.charge <= old(usage) && usage == old(usage) - h.charge
    {
      hide Accounted, TableOk, DeletersOk, RefsOk, HandleTable.Valid;
      if x.Some? {
        var e, h := x.value, heap[x.value];
        var heap' := heap[e := h.(inCache := false)];
        CacheLetsGo(heap, held, e);
        Unlinked(heap, lru, inUse, usage, e);
        KeysKept(heap, e, h.(inCache := false), table.contents, x, None);
        SameHandles(heap, heap', deleted, next);
        if h.refs == 1 {
          lru := Without(lru, e);
        } else {
          inUse := Without(inUse, e);
        }
        heap := heap';
        usage := usage - h.charge;
        Unref(e, false);
      }
      erased := x.Some?;
    }

    /** A cached entry's handle, which the caller now holds. */
    method Lookup(key: Bytes) returns (e: Option<Ref>)
      requires Valid()
      modifies this
      ensures Valid() && table.contents == old(table.contents) && usage == old(usage) && deleted == old(deleted)
      ensures e == if key in table.contents then Some(table.contents[key]) else None
      ensures held == if e.Some? then old(held) + multiset{e.value} else old(held)
      ensures e.Some? ==> e.value in old(heap) && old(heap)[e.value].key == key
      ensures heap == if e.Some? then old(heap)[e.value := old(heap)[e.value].(refs := old(heap)[e.value].refs + 1)] else old(heap)
      ensures lru == if e.Some? && old(heap)[e.value].refs == 1 then Without(old(lru), e.value) else old(lru)
    {
      hide Accounted, Without, DeletersOk, RefsOk, HandleTable.Valid;
      e := table.Lookup(key);
      if e.Some? {
        Ref(e.value);
      }
    }

    /** Gives back a handle. The deleter runs if it was the last reference of an entry that has
        left the cache; an entry still cached stays. */
    method Release(e: Ref)
      requires Valid() && e in held
      modifies this
      ensures Valid() && held == old(held) - multiset{e} && table.contents == old(table.contents) && usage == old(usage)
      ensures e in old(heap)
      ensures deleted == if !old(heap)[e].inCache && old(held)[e] == 1 then old(deleted) + [e] else old(deleted)
      ensures lru == if old(heap)[e].inCache && old(held)[e] == 1 then old(lru) + [e] else old(lru)
    {
      hide Accounted, TableOk, DeletersOk, RefsOk, HandleTable.Valid, Without;
      HeldIsAlive(heap, held, e);
      Unref(e, true);
    }

    static lemma HeldIsAlive(heap: Heap, held: multiset<Ref>, e: Ref)
      requires RefsOk(heap, held) && e in held
      ensures e in heap && heap[e].refs == held[e] + (if heap[e].inCache then 1 else 0)
    {
    }

    /** Takes a key out of the cache. The deleter runs at once if no client holds the entry. */
    method Erase(key: Bytes)
      requires Valid()
      modifies this, table
      ensures Valid() && table.contents == old(table.contents) - {key} && held == old(held)
      ensures key !in old(table.contents) ==> heap == old(heap) && deleted == old(deleted) && lru == old(lru) && usage == old(usage)
      ensures key in old(table.contents) ==>
                var e := old(table.contents)[key];
                && e in old(heap) && old(heap)[e].charge <= old(usage) && usage == old(usage) - old(heap)[e].charge
                && (if e in held then deleted == old(deleted) && lru == old(lru)
                    else deleted == old(deleted) + [e] && lru == Without(old(lru), e))
    {
      CachedRefs(heap, table.contents, held, key);
      hide Accounted, TableOk, DeletersOk, RefsOk, HandleTable.Valid;
      var x := Detach(key);
      var erased := FinishErase(x);
    }

    /** A cached entry's one reference beyond its clients' is the cache's own. */
    static lemma CachedRefs(heap: Heap, contents: map<Bytes, Ref>, held: multiset<Ref>, key: Bytes)
      requires TableOk(heap, contents, None) && RefsOk(heap, held)
      ensures key in contents ==> contents[key] in heap && (contents[key] in held <==> heap[contents[key]].refs > 1)
    {
    }

    /** Takes a key out of the table; its entry is then only waiting for FinishErase. */
    method Detach(key: Bytes) returns (x: Option<Ref>)
      requires Valid()
      modifies table
      ensures Sound(x) && table.contents == old(table.contents) - {key}
      ensures x == if key in old(table.contents) then Some(old(table.contents)[key]) else None
      ensures x.Some? ==> x.value in heap && heap[x.value].inCache
    {
      hide Accounted, DeletersOk, RefsOk, HandleTable.Valid;
      x := table.Remove(key);
    }

    /** Evicts the idle entry that has been idle longest. */
    method EvictOldest()
      requires Valid() && lru != []
      modifies this, table
      ensures Valid() && held == old(held) && next == old(next)
      ensures lru == old(lru)[1..] && deleted == old(deleted) + [old(lru)[0]]
      ensures old(lru)[0] in old(heap) && heap == old(heap) - {old(lru)[0]}
      ensures table.contents == old(table.contents) - {old(heap)[old(lru)[0]].key}
      ensures usage + old(heap)[old(lru)[0]].charge == old(usage)
    {
      var e := lru[0];
      OldestIsIdle(heap, lru, inUse, usage, table.contents);
      hide Accounted, TableOk, DeletersOk, RefsOk, HandleTable.Valid;
      var x := Detach(heap[e].key);
      var erased := FinishErase(x);
    }

    static lemma OldestIsIdle(heap: Heap, lru: seq<Ref>, inUse: seq<Ref>, usage: nat, contents: map<Bytes, Ref>)
      requires Accounted(heap, lru, inUse, usage) && TableOk(heap, contents, None) && lru != []
      ensures var e := lru[0];
              && e in heap && heap[e].inCache && heap[e].refs == 1 && heap[e].charge <= usage
              && heap[e].key in contents && contents[heap[e].key] == e && Without(lru, e) == lru[1..]
    {
      assert lru[0] in lru;
      Unlinked(heap, lru, inUse, usage, lru[0]);
    }

    /** Drops every idle entry, and nothing else. */
    method Prune()
      requires Valid()
      modifies this, table
      ensures Valid() && held == old(held) && lru == []
      ensures deleted == old(deleted) + old(lru) && OnlyGone(old(table.contents), table.contents, old(lru))
    {
      hide Accounted, TableOk, DeletersOk, RefsOk, HandleTable.Valid, OnlyGone, ChargeUpTo;
      ghost var before, gone, contents := lru, 0, table.contents;
      StartEvicting(heap, before, usage, contents);
      while lru != []
        invariant Valid() && held == old(held) && gone <= |before|
        invariant lru == before[gone..] && deleted == old(deleted) + before[..gone]
        invariant OnlyGone(contents, table.contents, before[..gone])
        decreases |lru|
      {
        assert before[..gone + 1] == before[..gone] + [before[gone]];
        OldestIsIdle(heap, lru, inUse, usage, table.contents);
        KeyEvicted(contents, heap, table.contents, before, gone);
        EvictOldest();
        gone := gone + 1;
      }
      assert before[..gone] == before;
    }

    /** What an insertion changes. */
    ghost function Now(): Shard
      reads this, table
    {
      Shard(heap, lru, usage, deleted, held, table.contents)
    }

    /** The entry that a new one under this key displaces. */
    ghost function Displaced(s: Shard, key: Bytes): Option<Ref> {
      if capacity > 0 && key in s.contents then Some(s.contents[key]) else None
    }

    /** The idle entries without it. */
    static ghost function IdleWithout(s: Shard, x: Option<Ref>): seq<Ref> {
      if x.Some? then Without(s.lru, x.value) else s.lru
    }

    /** Entering a handle counts its charge, takes back the charge of the entry displaced, deletes that
        one unless a client holds it, and touches no other. */
    static ghost predicate Replaces(x: Option<Ref>, charge: nat, s: Shard, t: Shard) {
      && (x.Some? ==> x.value in s.heap)
      && t.usage + (if x.Some? then s.heap[x.value].charge else 0) == s.usage + charge
      && t.deleted == s.deleted + (if x.Some? && x.value !in s.held then [x.value] else [])
      && t.lru == IdleWithout(s, x)
      && forall r :: r in s.heap && Some(r) != x ==> r in t.heap && t.heap[r] == s.heap[r]
    }

    /** A new entry e under the key displaces the one that was there, which is deleted unless a client
        holds it; then the n oldest idle entries leave the table and are deleted, none needlessly. */
    ghost predicate MadeRoom(s: Shard, t: Shard, key: Bytes, e: Ref, charge: nat, n: nat) {
      var x, idle := Displaced(s, key), IdleWithout(s, Displaced(s, key));
      && (x.Some? ==> x.value in s.heap && s.heap[x.value].charge <= s.usage)
      && (var used := s.usage + (if capacity > 0 then charge else 0) - (if x.Some? then s.heap[x.value].charge else 0);
          Evicted(s.heap, idle, n, used, t.usage, t.lru))
      && t.deleted == s.deleted + (if x.Some? && x.value !in s.held then [x.value] else []) + idle[..n]
      && OnlyGone(Entered(s, key, e), t.contents, idle[..n])
    }

    ghost function Entered(s: Shard, key: Bytes, e: Ref): map<Bytes, Ref> {
      if capacity > 0 then s.contents[key := e] else s.contents
    }

    lemma RoomMade(s: Shard, mid: Shard, t: Shard, key: Bytes, e: Ref, charge: nat, n: nat)
      requires var x := Displaced(s, key);
               && (x.Some? ==> x.value in s.heap && s.heap[x.value].charge <= s.usage)
               && (forall r :: r in IdleWithout(s, x) ==> r in s.heap && Some(r) != x)
               && Replaces(x, if capacity > 0 then charge else 0, s, mid)
      requires mid.contents == Entered(s, key, e)
      requires Evicted(mid.heap, mid.lru, n, mid.usage, t.usage, t.lru)
      requires t.deleted == mid.deleted + mid.lru[..n] && OnlyGone(mid.contents, t.contents, mid.lru[..n])
      ensures MadeRoom(s, t, key, e, charge, n)
    {
      hide Without, OnlyGone;
      SameEvicted(mid.heap, s.heap, mid.lru, n, mid.usage, t.usage, t.lru);
    }

    /** The first half of Insert: a new handle, in use, displaces the entry under its key. */
    method Enter(key: Bytes, value: nat, charge: nat) returns (e: Ref)
      requires Valid()
      modifies this, table
      ensures Valid() && held == old(held) + multiset{e} && lru == old(IdleWithout(Now(), Displaced(Now(), key)))
      ensures e !in old(heap) && e !in old(deleted) && e in heap
      ensures heap[e] == Handle(key, value, charge, capacity > 0, if capacity > 0 then 2 else 1)
      ensures table.contents == if capacity > 0 then old(table.contents)[key := e] else old(table.contents)
      ensures forall r :: r in old(held) ==> r in old(heap) && r in heap && heap[r].key == old(heap)[r].key
      ensures Replaces(old(Displaced(Now(), key)), if capacity > 0 then charge else 0, old(Now()), Now())
    {
      hide Accounted, TableOk, DeletersOk, RefsOk, HandleTable.Valid, Without;
      e := next;
      var h := Handle(key, value, charge, capacity > 0, if capacity > 0 then 2 else 1);
      HandleMade(heap, held, deleted, e, h);
      AllHeldAlive(heap, held);
      if capacity > 0 {
        EnterCached(e, h);
      } else {
        Uncached(heap, heap[e := h], lru, inUse, usage, e);
        TableUnaffected(heap, heap[e := h], table.contents, None, None);
        next := next + 1;
        heap := heap[e := h];
        held := held + multiset{e};
      }
    }

    method EnterCached(e: Ref, h: Handle)
      requires Valid() && e == next && h.inCache && h.refs == 2
      requires e !in heap && e !in deleted && e !in held
      requires DeletersOk(heap[e := h], deleted, e + 1) && RefsOk(heap[e := h], held + multiset{e})
      modifies this, table
      ensures Valid() && held == old(held) + multiset{e} && e in heap && heap[e] == h
      ensures lru == if h.key in old(table.contents) then Without(old(lru), old(table.contents)[h.key]) else old(lru)
      ensures table.contents == old(table.contents)[h.key := e]
      ensures forall r :: r in old(held) && r in old(heap) ==> r in heap && heap[r].key == old(heap)[r].key
      ensures Replaces(if h.key in old(table.contents) then Some(old(table.contents)[h.key]) else None, h.charge,
                       old(Now()), Now())
    {
      hide Accounted, TableOk, DeletersOk, RefsOk, HandleTable.Valid, Without, Replaces;
      ghost var before := Now();
      Linked(heap, lru, inUse, usage, e, h);
      TableInserted(heap, table.contents, e, h);
      next := next + 1;
      heap := heap[e := h];
      held := held + multiset{e};
      inUse := inUse + [e];
      usage := usage + h.charge;
      var displaced := table.Insert(h.key, e);
      if displaced.Some? {
        RefGone(heap, held, displaced.value);
        BusyNotIdle(heap, lru, inUse, usage, displaced.value);
      }
      var erased := FinishErase(displaced);
      DisplacedLeaves(before, Now(), e, h, displaced);
    }

    /** The entry displaced leaves as FinishErase says. */
    static lemma DisplacedLeaves(s: Shard, t: Shard, e: Ref, h: Handle, x: Option<Ref>)
      requires e !in s.heap && (x.Some? ==> x.value in s.heap && s.heap[x.value].refs > 0)
      requires x.None? ==> t.heap == s.heap[e := h] && t.deleted == s.deleted && t.lru == s.lru && t.usage == s.usage + h.charge
      requires x.Some? ==>
                 var was := s.heap[x.value];
                 && (was.refs == 1 <==> x.value !in s.held)
                 && (if was.refs == 1 then t.heap == s.heap[e := h] - {x.value} && t.deleted == s.deleted + [x.value]
                     else t.heap == s.heap[e := h][x.value := was.(inCache := false, refs := was.refs - 1)] && t.deleted == s.deleted)
                 && t.lru == Without(s.lru, x.value)
                 && t.usage + was.charge == s.usage + h.charge
      ensures Replaces(x, h.charge, s, t)
    {
      hide Without;
    }

    static lemma HandleMade(heap: Heap, held: multiset<Ref>, deleted: seq<Ref>, e: Ref, h: Handle)
      requires DeletersOk(heap, deleted, e) && RefsOk(heap, held) && h.refs == if h.inCache then 2 else 1
      ensures e !in heap && e !in deleted && e !in held
      ensures DeletersOk(heap[e := h], deleted, e + 1) && RefsOk(heap[e := h], held + multiset{e})
    {
      assert e !in heap && e !in held;
      RefsAfter(heap, heap[e := h], held, held + multiset{e}, e);
    }

    static lemma TableInserted(heap: Heap, contents: map<Bytes, Ref>, e: Ref, h: Handle)
      requires TableOk(heap, contents, None) && e !in heap && h.inCache
      ensures TableOk(heap[e := h], contents[h.key := e], if h.key in contents then Some(contents[h.key]) else None)
      ensures h.key in contents ==> contents[h.key] in heap && heap[contents[h.key]].inCache
    {
    }

    /** A cached handle that is also held outlives its place in the cache. */
    static lemma RefGone(heap: Heap, held: multiset<Ref>, x: Ref)
      requires RefsOk(heap, held) && x in heap && heap[x].inCache
      ensures heap[x].refs > 0 && (heap[x].refs == 1 <==> x !in held)
    {
    }

    static lemma BusyNotIdle(heap: Heap, lru: seq<Ref>, inUse: seq<Ref>, usage: nat, x: Ref)
      requires Accounted(heap, lru, inUse, usage) && x in heap
      ensures heap[x].refs != 1 ==> Without(lru, x) == lru
    {
      if heap[x].refs != 1 {
        WithoutAbsent(lru, x);
      }
    }

    static lemma AllHeldAlive(heap: Heap, held: multiset<Ref>)
      requires RefsOk(heap, held)
      ensures forall r :: r in held ==> r in heap
    {
    }

    /** Enters a value under a key, displacing the entry that was there, and then evicts the n oldest
        idle entries, no more than it takes for the cache to fit. */
    method Insert(key: Bytes, value: nat, charge: nat) returns (e: Ref, ghost n: nat)
      requires Valid()
      modifies this, table
      ensures Valid() && held == old(held) + multiset{e}
      ensures e !in old(heap) && e !in old(deleted) && e in heap
      ensures heap[e] == Handle(key, value, charge, capacity > 0, if capacity > 0 then 2 else 1)
      ensures capacity > 0 ==> key in table.contents && table.contents[key] == e
      ensures forall k :: k in table.contents && k != key ==> k in old(table.contents) && table.contents[k] == old(table.contents)[k]
      ensures forall r :: r in old(held) ==> r in old(heap) && r in heap && heap[r].key == old(heap)[r].key
      ensures usage <= capacity || lru == []
      ensures MadeRoom(old(Now()), Now(), key, e, charge, n)
    {
      hide Accounted, TableOk, DeletersOk, RefsOk, HandleTable.Valid, Evicted, Without, MadeRoom, Replaces, IdleWithout, Displaced;
      ghost var before := Now();
      DisplacedIsCharged(key);
      NotDisplacedIdle(key);
      e := Enter(key, value, charge);
      ghost var entered := Now();
      n := EvictUntilFits();
      RoomMade(before, entered, Now(), key, e, charge, n);
      if capacity > 0 {
        CachedIsInTable(heap, table.contents, e);
      }
    }

    /** The eviction loop: clients' handles are untouched, and the n oldest idle entries go, no more
        than it takes for the cache to fit. */
    method EvictUntilFits() returns (ghost n: nat)
      requires Valid()
      modifies this, table
      ensures Valid() && held == old(held) && (usage <= capacity || lru == [])
      ensures Evicted(old(heap), old(lru), n, old(usage), usage, lru) && deleted == old(deleted) + old(lru)[..n]
      ensures OnlyGone(old(table.contents), table.contents, old(lru)[..n])
      ensures forall r :: r in held && r in old(heap) ==> r in heap && heap[r] == old(heap)[r]
    {
      hide Accounted, TableOk, DeletersOk, RefsOk, HandleTable.Valid, OnlyGone, ChargeUpTo, TooMuch;
      ghost var before, idle, used, contents := heap, lru, usage, table.contents;
      n := 0;
      StartEvicting(before, idle, used, contents);
      while usage > capacity && lru != []
        invariant Valid() && held == old(held) && n <= |idle|
        invariant lru == idle[n..] && deleted == old(deleted) + idle[..n]
        invariant forall r :: r in heap ==> r in before && heap[r] == before[r]
        invariant forall r :: r in before && r !in idle[..n] ==> r in heap
        invariant ChargeUpTo(before, idle, n, used, usage)
        invariant forall m: nat :: m < n ==> TooMuch(before, idle, m, used)
        invariant OnlyGone(contents, table.contents, idle[..n])
        invariant forall r :: r in held && r in before ==> r in heap && heap[r] == before[r]
        decreases |lru|
      {
        IdleNotHeld(heap, held, lru, inUse, usage);
        OldestIsIdle(heap, lru, inUse, usage, table.contents);
        NextEvicted(before, idle, n, used, usage);
        KeyEvicted(contents, heap, table.contents, idle, n);
        EvictOldest();
        n := n + 1;
      }
    }

    /** Without the n oldest idle entries the usage falls to `left`. */
    static ghost predicate ChargeUpTo(heap: Heap, idle: seq<Ref>, n: nat, used: nat, left: nat) {
      && n <= |idle| && (forall r :: r in idle[..n] ==> r in heap)
      && left + Charge(heap, idle[..n]) == used
    }

    /** Without only the m oldest idle entries the cache would still be over its capacity. */
    ghost predicate TooMuch(heap: Heap, idle: seq<Ref>, m: nat, used: nat) {
      exists left: nat :: ChargeUpTo(heap, idle, m, used, left) && left > capacity
    }

    /** Of the idle entries the n oldest went, and none of them needlessly. */
    ghost predicate Evicted(heap: Heap, idle: seq<Ref>, n: nat, used: nat, left: nat, lru: seq<Ref>) {
      && n <= |idle| && lru == idle[n..] && ChargeUpTo(heap, idle, n, used, left)
      && forall m: nat :: m < n ==> TooMuch(heap, idle, m, used)
    }

    /** The keys of the entries gone have left the table, the others are as they were. */
    static ghost predicate OnlyGone(before: map<Bytes, Ref>, after: map<Bytes, Ref>, gone: seq<Ref>) {
      forall k :: k in before || k in after ==>
        k in before && (k in after <==> before[k] !in gone) && (k in after ==> after[k] == before[k])
    }

    lemma StartEvicting(heap: Heap, idle: seq<Ref>, used: nat, contents: map<Bytes, Ref>)
      ensures ChargeUpTo(heap, idle, 0, used, used) && OnlyGone(contents, contents, idle[..0])
    {
    }

    lemma NextEvicted(heap: Heap, idle: seq<Ref>, n: nat, used: nat, left: nat)
      requires ChargeUpTo(heap, idle, n, used, left) && n < |idle| && idle[n] in heap && heap[idle[n]].charge <= left
      ensures ChargeUpTo(heap, idle, n + 1, used, left - heap[idle[n]].charge)
      ensures left > capacity ==> TooMuch(heap, idle, n, used)
      ensures idle[..n + 1] == idle[..n] + [idle[n]]
    {
      assert idle[..n + 1] == idle[..n] + [idle[n]];
      AppendCharge(heap, idle[..n], idle[n]);
    }

    /** Taking the key of entry n out of the table. */
    static lemma KeyEvicted(before: map<Bytes, Ref>, heap: Heap, after: map<Bytes, Ref>, idle: seq<Ref>, n: nat)
      requires TableOk(heap, after, None) && n < |idle| && OnlyGone(before, after, idle[..n])
      requires idle[n] in heap && heap[idle[n]].inCache
      ensures OnlyGone(before, after - {heap[idle[n]].key}, idle[..n + 1])
    {
      assert idle[..n + 1] == idle[..n] + [idle[n]];
    }

    static lemma IdleNotHeld(heap: Heap, held: multiset<Ref>, lru: seq<Ref>, inUse: seq<Ref>, usage: nat)
      requires Accounted(heap, lru, inUse, usage) && RefsOk(heap, held) && lru != []
      ensures lru[0] !in held
    {
      assert lru[0] in lru;
    }

    /** The entry displaced is alive, and its charge part of the usage. */
    lemma DisplacedIsCharged(key: Bytes)
      requires Valid()
      ensures var x := Displaced(Now(), key); x.Some? ==> x.value in heap && heap[x.value].charge <= usage
    {
      if Displaced(Now(), key).Some? {
        Unlinked(heap, lru, inUse, usage, table.contents[key]);
      }
    }

    lemma NotDisplacedIdle(key: Bytes)
      requires Valid()
      ensures forall r :: r in IdleWithout(Now(), Displaced(Now(), key)) ==> r in heap && Some(r) != Displaced(Now(), key)
    {
      if Displaced(Now(), key).Some? {
        WithoutMembers(lru, table.contents[key]);
      }
    }

    static lemma SameChargeUpTo(heap: Heap, heap': Heap, idle: seq<Ref>, n: nat, used: nat, left: nat)
      requires ChargeUpTo(heap, idle, n, used, left) && n <= |idle|
      requires forall r :: r in idle ==> r in heap' && (r in heap ==> heap'[r] == heap[r])
      ensures ChargeUpTo(heap', idle, n, used, left)
    {
      SameCharge(heap, heap', idle[..n]);
    }

    lemma SameEvicted(heap: Heap, heap': Heap, idle: seq<Ref>, n: nat, used: nat, left: nat, lru: seq<Ref>)
      requires Evicted(heap, idle, n, used, left, lru)
      requires forall r :: r in idle ==> r in heap' && (r in heap ==> heap'[r] == heap[r])
      ensures Evicted(heap', idle, n, used, left, lru)
    {
      hide ChargeUpTo;
      SameChargeUpTo(heap, heap', idle, n, used, left);
      forall m: nat | m < n ensures TooMuch(heap', idle, m, used) {
        assert TooMuch(heap, idle, m, used);
        var still: nat :| ChargeUpTo(heap, idle, m, used, still) && still > capacity;
        SameChargeUpTo(heap, heap', idle, m, used, still);
      }
    }

    static lemma CachedIsInTable(heap: Heap, contents: map<Bytes, Ref>, e: Ref)
      requires TableOk(heap, contents, None) && e in heap && heap[e].inCache
      ensures heap[e].key in contents && contents[heap[e].key] == e
    {
    }
  }
}
