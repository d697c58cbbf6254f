/** Internal keys, entries and sorted tables (db/dbformat, db/memtable).
    A user key stands for its rank in the user comparator's total order, which is all
    the storage engine ever asks of it; the bytes themselves matter only in the modules
    about blocks, tables and comparators. */
module InternalKeys {
  import Coding

  datatype Option<+T> = None | Some(value: T) {
    function GetOr(default: T): T {
      if Some? then value else default
    }
  }

  type UserKey = int
  type Value = Coding.Bytes

  datatype ValueType = TypeDeletion | TypeValue

  datatype InternalKey = InternalKey(user: UserKey, seqno: nat, kind: ValueType)

  datatype Entry = Entry(key: InternalKey, value: Value)

  type Table = seq<Entry>

  /** The largest sequence number: eight bits of the packed tag hold the type. */
  const MAX_SEQUENCE: nat := 0xFF_FFFF_FFFF_FFFF

  /** Sequence number and type packed into one integer, as stored in a key. */
  function Tag(k: InternalKey): nat {
    k.seqno * 256 + (if k.kind == TypeValue then 1 else 0)
  }

  /** User keys ascend; within a user key, packed tags descend. */
  predicate Less(a: InternalKey, b: InternalKey) {
    a.user < b.user || (a.user == b.user && Tag(a) > Tag(b))
  }

  predicate LessEq(a: InternalKey, b: InternalKey) {
    a == b || Less(a, b)
  }

  /** The order is total: this is all that searches and merges rely on. */
  lemma LessIsTotalOrder(a: InternalKey, b: InternalKey, c: InternalKey)
    ensures !Less(a, a)
    ensures Less(a, b) && Less(b, c) ==> Less(a, c)
    ensures a == b || Less(a, b) || Less(b, a)
    ensures !(Less(a, b) && Less(b, a))
  {
  }

  /** The key a lookup of `user` at snapshot `s` seeks to. */
  function LookupKey(user: UserKey, s: nat): InternalKey {
    InternalKey(user, s, TypeValue)
  }

  /** Entries at or after the lookup key with the same user key are exactly those visible at s. */
  lemma LookupKeyBound(k: InternalKey, user: UserKey, s: nat)
    requires k.user == user
    ensures Less(k, LookupKey(user, s)) <==> k.seqno > s
  {
  }

  // ---------- sorted tables ----------

  ghost predicate Sorted(t: Table) {
    forall i, j :: 0 <= i < j < |t| ==> Less(t[i].key, t[j].key)
  }

  ghost predicate Visible(e: Entry, user: UserKey, s: nat) {
    e.key.user == user && e.key.seqno <= s
  }

  /** e is the newest version of `user` that a reader at s may see among `entries`. */
  ghost predicate IsNewest(entries: set<Entry>, user: UserKey, s: nat, e: Entry) {
    && e in entries && Visible(e, user, s)
    && forall x :: x in entries && Visible(x, user, s) ==> x.key.seqno <= e.key.seqno
  }

  ghost predicate NoneVisible(entries: set<Entry>, user: UserKey, s: nat) {
    forall x :: x in entries ==> !Visible(x, user, s)
  }

  /** What a correct lookup over `entries` returns. */
  ghost predicate IsLookup(entries: set<Entry>, user: UserKey, s: nat, r: Option<Entry>) {
    match r
    case None => NoneVisible(entries, user, s)
    case Some(e) => IsNewest(entries, user, s, e)
  }

  ghost function EntriesOf(t: Table): set<Entry> {
    set e | e in t
  }

  /** First position whose key is at or after `key`. */
  function LowerBound(t: Table, key: InternalKey): (i: nat)
    ensures i <= |t|
    ensures forall j :: 0 <= j < i ==> Less(t[j].key, key)
    ensures i < |t| ==> !Less(t[i].key, key)
  {
    if |t| == 0 || !Less(t[0].key, key) then 0 else LowerBound(t[1..], key) + 1
  }

  /** In a sorted table these properties single the position out. */
  lemma LowerBoundIs(t: Table, key: InternalKey, i: nat)
    requires Sorted(t) && i <= |t|
    requires forall j :: 0 <= j < i ==> Less(t[j].key, key)
    requires i < |t| ==> !Less(t[i].key, key)
    ensures LowerBound(t, key) == i
  {
  }

  /** Seek to the lookup key and look at one entry: the shape of MemTable::Get and of a table
      lookup followed by SaveValue. */
  function Find(t: Table, user: UserKey, s: nat): Option<Entry> {
    var i := LowerBound(t, LookupKey(user, s));
    if i < |t| && t[i].key.user == user then Some(t[i]) else None
  }

  /** One seek and one comparison find the newest visible version. */
  lemma FindIsLookup(t: Table, user: UserKey, s: nat)
    requires Sorted(t)
    ensures IsLookup(EntriesOf(t), user, s, Find(t, user, s))
  {
    var i := LowerBound(t, LookupKey(user, s));
    forall x | x in t && Visible(x, user, s)
      ensures i < |t| && t[i].key.user == user && x.key.seqno <= t[i].key.seqno
    {
      var j :| 0 <= j < |t| && t[j] == x;
      LookupKeyBound(x.key, user, s);
      assert i <= j;
      assert i == j || Less(t[i].key, t[j].key);
      assert !Less(t[i].key, LookupKey(user, s));
    }
    if i < |t| && t[i].key.user == user {
      LookupKeyBound(t[i].key, user, s);
    }
  }

  /** Two correct lookups agree when no two entries share a user key and sequence number. */
  lemma LookupUnique(entries: set<Entry>, user: UserKey, s: nat, r: Option<Entry>, q: Option<Entry>)
    requires IsLookup(entries, user, s, r) && IsLookup(entries, user, s, q)
    requires forall a, b :: a in entries && b in entries && a.key.user == b.key.user && a.key.seqno == b.key.seqno ==> a == b
    ensures r == q
  {
    if r.Some? && q.Some? {
      assert Visible(r.value, user, s) && Visible(q.value, user, s);
    }
  }

  /** Position of the entry after which a new key is linked; Insert keeps a table sorted. */
  function Insert(t: Table, e: Entry): (r: Table)
  {
    var i := LowerBound(t, e.key);
    t[..i] + [e] + t[i..]
  }

  lemma InsertMembers(t: Table, e: Entry, x: Entry)
    ensures x in Insert(t, e) <==> x == e || x in t
  {
    var i := LowerBound(t, e.key);
    assert t == t[..i] + t[i..];
    assert x in t <==> x in t[..i] || x in t[i..];
  }

  lemma InsertSorted(t: Table, e: Entry)
    requires Sorted(t)
    requires forall x :: x in t ==> x.key != e.key
    ensures Sorted(Insert(t, e))
  {
    var i := LowerBound(t, e.key);
    var r := Insert(t, e);
    assert forall j :: 0 <= j < i ==> r[j] == t[j];
    assert forall j :: i < j < |r| ==> r[j] == t[j - 1];
    forall a, b | 0 <= a < b < |r|
      ensures Less(r[a].key, r[b].key)
    {
      if a == i {
        assert t[i] in t && Less(e.key, t[i].key);
        assert i == b - 1 || Less(t[i].key, t[b - 1].key);
        LessIsTotalOrder(e.key, t[i].key, t[b - 1].key);
      }
    }
  }
}
