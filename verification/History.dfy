/** The reference model: a numbered list of writes. The write at position i (counting from one)
    carries sequence number i; a reader at s sees, per key, the last write numbered at most s. */
module History {
  import opened InternalKeys

  datatype Op = Op(key: UserKey, kind: ValueType, value: Value)

  type Writes = seq<Op>

  function EntryAt(h: Writes, i: nat): (e: Entry)
    requires 1 <= i <= |h|
    ensures e.key.seqno == i
  {
    Entry(InternalKey(h[i - 1].key, i, h[i - 1].kind), h[i - 1].value)
  }

  /** The key of write i. */
  function KeyAt(h: Writes, i: nat): UserKey
    requires 1 <= i <= |h|
  {
    h[i - 1].key
  }

  /** Sequence number of the newest write of `user` among the first n writes; 0 if none. */
  function Latest(h: Writes, user: UserKey, n: nat): (i: nat)
    requires n <= |h|
    ensures i <= n
    ensures i > 0 ==> KeyAt(h, i) == user
    ensures forall j :: i < j <= n ==> KeyAt(h, j) != user
  {
    if n == 0 then 0
    else if h[n - 1].key == user then n
    else Latest(h, user, n - 1)
  }

  /** The value a plain multi-version map gives: None for a key never written or deleted. */
  function Read(h: Writes, user: UserKey, s: nat): Option<Value>
    requires s <= |h|
  {
    var i := Latest(h, user, s);
    if i > 0 && h[i - 1].kind == TypeValue then Some(h[i - 1].value) else None
  }

  /** What a map is: empty at first; after a write of a key it holds the value put, or nothing once it is
      deleted, and under every other key what it held before. */
  lemma ReadIsMap(h: Writes, op: Op, user: UserKey)
    ensures Read(h, user, 0) == None
    ensures Read(h + [op], user, |h| + 1) ==
            if user != op.key then Read(h, user, |h|) else if op.kind == TypeValue then Some(op.value) else None
  {
    ReadIsStable(h, [op], user, |h|);
  }

  /** What Get reports for the entry a lookup found. */
  function ValueOf(r: Option<Entry>): Option<Value> {
    if r.Some? && r.value.key.kind == TypeValue then Some(r.value.value) else None
  }

  /** Later writes do not change what a snapshot reads. */
  lemma {:induction false} ReadIsStable(h: Writes, more: Writes, user: UserKey, s: nat)
    requires s <= |h|
    ensures Latest(h + more, user, s) == Latest(h, user, s)
    ensures Read(h + more, user, s) == Read(h, user, s)
  {
    if s > 0 && h[s - 1].key != user {
      ReadIsStable(h, more, user, s - 1);
    }
  }

  /** The entries of a set are writes of the history, with the right contents. */
  ghost predicate Sound(entries: set<Entry>, h: Writes, top: nat)
    requires top <= |h|
  {
    forall e :: e in entries ==> 1 <= e.key.seqno <= top && e == EntryAt(h, e.key.seqno)
  }

  /** Some snapshot at or above `floor` reads write i. */
  ghost predicate Needed(h: Writes, floor: nat, i: nat)
    requires 1 <= i <= |h|
  {
    forall j :: i < j <= floor && j <= |h| ==> KeyAt(h, j) != KeyAt(h, i)
  }

  /** Every needed write up to `top` is present, or is a deletion with nothing left beneath it. */
  ghost predicate Covers(entries: set<Entry>, h: Writes, floor: nat, top: nat)
    requires top <= |h|
  {
    forall i {:trigger EntryAt(h, i)} :: 1 <= i <= top && Needed(h, floor, i) ==>
      || EntryAt(h, i) in entries
      || (h[i - 1].kind == TypeDeletion && NothingOlder(entries, KeyAt(h, i), i))
  }

  ghost predicate NothingOlder(entries: set<Entry>, user: UserKey, i: nat) {
    forall e :: e in entries && e.key.user == user ==> e.key.seqno > i
  }

  /** A correct lookup over a sound, covering set of entries reads the multi-version map. */
  lemma LookupReadsHistory(entries: set<Entry>, h: Writes, floor: nat, top: nat, user: UserKey, s: nat, r: Option<Entry>)
    requires top <= |h| && floor <= s <= |h|
    requires Sound(entries, h, top) && Covers(entries, h, floor, top)
    requires Latest(h, user, s) <= top
    requires IsLookup(entries, user, s, r)
    ensures ValueOf(r) == Read(h, user, s)
  {
    var i := Latest(h, user, s);
    if r.Some? {
      var n := r.value.key.seqno;
      assert r.value in entries && KeyAt(h, n) == user && n <= i;
    }
    if i > 0 {
      assert Needed(h, floor, i);
      if EntryAt(h, i) in entries {
        assert Visible(EntryAt(h, i), user, s);
        assert r.Some? && r.value.key.seqno == i;
      }
    }
  }
}
