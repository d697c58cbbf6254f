/** Files, levels and versions, and the read path through one version (db/version_set.cc). */
module Versions {
  import opened InternalKeys

  /** A finished table file and its metadata. Table files never change once written, so the
      metadata carries the table. */
  datatype FileMeta = FileMeta(number: nat, size: nat, smallest: InternalKey, largest: InternalKey, table: Table)

  type Level = seq<FileMeta>
  type Version = seq<Level>

  const NUM_LEVELS: nat := 7

  const EMPTY_VERSION: Version := [[], [], [], [], [], [], []]

  ghost predicate FileOk(f: FileMeta) {
    && |f.table| > 0 && Sorted(f.table)
    && f.smallest == f.table[0].key
    && f.largest == f.table[|f.table| - 1].key
  }

  ghost function Entries(files: Level): set<Entry> {
    set f, e | f in files && e in f.table :: e
  }

  ghost function AllEntries(v: Version): set<Entry> {
    set l, f, e | 0 <= l < |v| && f in v[l] && e in f.table :: e
  }

  /** Files of a level >= 1 are sorted and have disjoint internal-key ranges. */
  ghost predicate LevelOrdered(files: Level) {
    forall i, j :: 0 <= i < j < |files| ==> Less(files[i].largest, files[j].smallest)
  }

  ghost predicate VersionOk(v: Version) {
    && |v| == NUM_LEVELS
    && (forall l, f :: 0 <= l < NUM_LEVELS && f in v[l] ==> FileOk(f))
    && (forall l :: 1 <= l < NUM_LEVELS ==> LevelOrdered(v[l]))
  }

  /** Every version of a user key in `a` is newer than every version of it in `b`. */
  ghost predicate Above(a: set<Entry>, b: set<Entry>) {
    forall x, y :: x in a && y in b && x.key.user == y.key.user ==> x.key.seqno > y.key.seqno
  }

  /** Shallower levels are newer than deeper ones, and later level-0 files than earlier ones. */
  ghost predicate Recency(v: Version) {
    && |v| == NUM_LEVELS
    && (forall i, j :: 0 <= i < j < NUM_LEVELS ==> Above(Entries(v[i]), Entries(v[j])))
    && (forall f, g :: f in v[0] && g in v[0] && f.number > g.number ==> Above(EntriesOf(f.table), EntriesOf(g.table)))
  }

  // ---------- ranges ----------

  ghost predicate Between(e: Entry, smallest: InternalKey, largest: InternalKey) {
    LessEq(smallest, e.key) && LessEq(e.key, largest)
  }

  lemma FileRange(f: FileMeta, e: Entry)
    requires FileOk(f) && e in f.table
    ensures Between(e, f.smallest, f.largest)
    ensures f.smallest.user <= e.key.user <= f.largest.user
  {
    var i :| 0 <= i < |f.table| && f.table[i] == e;
    assert i == 0 || Less(f.table[0].key, f.table[i].key);
    assert i == |f.table| - 1 || Less(f.table[i].key, f.table[|f.table| - 1].key);
  }

  lemma FileEnds(f: FileMeta)
    requires FileOk(f)
    ensures exists e :: e in f.table && e.key == f.smallest
    ensures exists e :: e in f.table && e.key == f.largest
  {
    assert f.table[0] in f.table && f.table[|f.table| - 1] in f.table;
  }

  // ---------- searching one level ----------

  function TotalFileSize(files: Level): nat {
    if files == [] then 0 else TotalFileSize(files[..|files| - 1]) + files[|files| - 1].size
  }

  /** Binary search for the first file whose largest key is at or after `key`. */
  method FindFile(files: Level, key: InternalKey) returns (right: nat)
    requires forall f :: f in files ==> FileOk(f)
    requires LevelOrdered(files)
    ensures right <= |files|
    ensures forall i :: 0 <= i < right ==> Less(files[i].largest, key)
    ensures forall i :: right <= i < |files| ==> !Less(files[i].largest, key)
  {
    var left := 0;
    right := |files|;
    while left < right
      invariant left <= right <= |files|
      invariant forall i :: 0 <= i < left ==> Less(files[i].largest, key)
      invariant forall i :: right <= i < |files| ==> !Less(files[i].largest, key)
    {
      var mid := (left + right) / 2;
      LargestAscend(files);
      if Less(files[mid].largest, key) {
        left := mid + 1;
      } else {
        right := mid;
      }
    }
  }

  lemma FileSpan(f: FileMeta)
    requires FileOk(f)
    ensures LessEq(f.smallest, f.largest)
  {
  }

  lemma LargestAscend(files: Level)
    requires forall f :: f in files ==> FileOk(f)
    requires LevelOrdered(files)
    ensures forall i, j :: 0 <= i < j < |files| ==> Less(files[i].largest, files[j].largest)
    ensures forall i, j :: 0 <= i < j < |files| ==> Less(files[i].smallest, files[j].smallest)
  {
    forall i, j | 0 <= i < j < |files|
      ensures Less(files[i].largest, files[j].largest)
      ensures Less(files[i].smallest, files[j].smallest)
    {
      assert files[i] in files && files[j] in files;
      FileSpan(files[i]);
      FileSpan(files[j]);
    }
  }

  /** In an ordered level only one file can hold the newest visible version: the first one
      whose largest key is at or after the lookup key. */
  lemma OtherFilesHoldNothing(files: Level, key: InternalKey, index: nat, i: nat, e: Entry)
    requires forall f :: f in files ==> FileOk(f)
    requires LevelOrdered(files)
    requires index <= |files|
    requires forall i :: 0 <= i < index ==> Less(files[i].largest, key)
    requires forall i :: index <= i < |files| ==> !Less(files[i].largest, key)
    requires i < |files| && i != index && e in files[i].table
    ensures i < index ==> Less(e.key, key)
    ensures index < i ==> Less(files[index].largest, e.key)
  {
    assert files[i] in files;
    FileRange(files[i], e);
    if index < i {
      assert Less(files[index].largest, files[i].smallest);
    }
  }

  /** Looking up `user` at `s` in a level >= 1 by probing at most one file. */
  method GetInLevel(files: Level, user: UserKey, s: nat) returns (r: Option<Entry>)
    requires forall f :: f in files ==> FileOk(f)
    requires LevelOrdered(files)
    ensures IsLookup(Entries(files), user, s, r)
  {
    var key := LookupKey(user, s);
    var index := FindFile(files, key);
    if index >= |files| {
      forall f, e | f in files && e in f.table
        ensures !Visible(e, user, s)
      {
        var i :| 0 <= i < |files| && files[i] == f;
        OtherFilesHoldNothing(files, key, index, i, e);
      }
      return None;
    }
    var f := files[index];
    assert f in files;
    if user < f.smallest.user {
      r := None;
    } else {
      r := Find(f.table, user, s);
      FindIsLookup(f.table, user, s);
    }
    forall g, e | g in files && e in g.table && Visible(e, user, s)
      ensures r.Some? && e.key.seqno <= r.value.key.seqno
    {
      var i :| 0 <= i < |files| && files[i] == g;
      LookupKeyBound(e.key, user, s);
      if i == index {
        FileRange(g, e);
        assert e in EntriesOf(f.table);
      } else {
        OtherFilesHoldNothing(files, key, index, i, e);
        LookupInLargest(f, user, s);
      }
    }
  }

  /** If a file ends at or after the lookup key with a key of the same user, it has a visible
      version, and anything past the file's end is older. */
  lemma LookupInLargest(f: FileMeta, user: UserKey, s: nat)
    requires FileOk(f)
    requires !Less(f.largest, LookupKey(user, s))
    requires f.largest.user == user
    ensures exists e :: e in f.table && Visible(e, user, s) && e.key == f.largest
  {
    var e := f.table[|f.table| - 1];
    LookupKeyBound(e.key, user, s);
    assert e in f.table && Visible(e, user, s);
  }

  // ---------- reading a whole version ----------

  ghost predicate NewestFirst(files: Level) {
    forall i, j :: 0 <= i < j < |files| ==> files[i].number >= files[j].number
  }

  /** Insert a file into a list kept in descending number order. */
  method InsertNewestFirst(files: Level, f: FileMeta) returns (r: Level)
    requires NewestFirst(files)
    ensures NewestFirst(r)
    ensures forall g :: g in r <==> g == f || g in files
  {
    var at := 0;
    while at < |files| && files[at].number >= f.number
      invariant at <= |files|
      invariant forall a :: 0 <= a < at ==> files[a].number >= f.number
    {
      at := at + 1;
    }
    assert files == files[..at] + files[at..];
    r := files[..at] + [f] + files[at..];
  }

  /** Level-0 files whose user-key range contains `user`, latest first. */
  method OverlappingNewestFirst(files: Level, user: UserKey) returns (tmp: Level)
    ensures forall f :: f in tmp <==> f in files && f.smallest.user <= user <= f.largest.user
    ensures NewestFirst(tmp)
  {
    tmp := [];
    for i := 0 to |files|
      invariant forall f :: f in tmp <==> f in files[..i] && f.smallest.user <= user <= f.largest.user
      invariant NewestFirst(tmp)
    {
      var f := files[i];
      assert files[..i + 1] == files[..i] + [f];
      if f.smallest.user <= user <= f.largest.user {
        tmp := InsertNewestFirst(tmp, f);
      }
    }
    assert files[..|files|] == files;
  }

  /** Newest visible version among the level-0 files, searched from newest to oldest. */
  method GetInLevel0(files: Level, user: UserKey, s: nat) returns (r: Option<Entry>)
    requires forall f :: f in files ==> FileOk(f)
    requires forall f, g :: f in files && g in files && f.number > g.number ==> Above(EntriesOf(f.table), EntriesOf(g.table))
    requires NumbersDistinct(files)
    ensures IsLookup(Entries(files), user, s, r)
  {
    var tmp := OverlappingNewestFirst(files, user);
    for i := 0 to |tmp|
      invariant forall a, e :: 0 <= a < i && e in tmp[a].table ==> !Visible(e, user, s)
    {
      var f := tmp[i];
      r := Find(f.table, user, s);
      FindIsLookup(f.table, user, s);
      if r.Some? {
        assert f in files;
        forall g, e | g in files && e in g.table && Visible(e, user, s)
          ensures e.key.seqno <= r.value.key.seqno
        {
          FileRange(g, e);
          var j :| 0 <= j < |tmp| && tmp[j] == g;
          assert i <= j;
          assert e in EntriesOf(g.table) && r.value in EntriesOf(f.table);
          if f != g {
            assert f.number > g.number;
            assert Above(EntriesOf(f.table), EntriesOf(g.table));
          }
        }
        return;
      }
      assert forall e :: e in f.table ==> e in EntriesOf(f.table);
    }
    forall g, e | g in files && e in g.table
      ensures !Visible(e, user, s)
    {
      FileRange(g, e);
      if e.key.user == user {
        assert g in tmp;
      }
    }
    r := None;
  }

  ghost predicate NumbersDistinct(files: Level) {
    forall f, g :: f in files && g in files && f.number == g.number ==> f == g
  }

  /** Version::Get: levels are searched in order and the first hit wins; recency makes that
      hit the newest visible version in the whole version. */
  method Get(v: Version, user: UserKey, s: nat) returns (r: Option<Entry>)
    requires VersionOk(v) && Recency(v) && NumbersDistinct(v[0])
    ensures IsLookup(AllEntries(v), user, s, r)
  {
    r := GetInLevel0(v[0], user, s);
    var level := 0;
    while r.None? && level + 1 < NUM_LEVELS
      invariant level < NUM_LEVELS
      invariant IsLookup(Entries(v[level]), user, s, r)
      invariant forall l :: 0 <= l < level ==> NoneVisible(Entries(v[l]), user, s)
    {
      level := level + 1;
      r := GetInLevel(v[level], user, s);
    }
    FirstHitIsNewest(v, user, s, level, r);
  }

  lemma FirstHitIsNewest(v: Version, user: UserKey, s: nat, level: nat, r: Option<Entry>)
    requires Recency(v) && level < NUM_LEVELS
    requires IsLookup(Entries(v[level]), user, s, r)
    requires forall l :: 0 <= l < level ==> NoneVisible(Entries(v[l]), user, s)
    requires r.None? ==> level == NUM_LEVELS - 1
    ensures IsLookup(AllEntries(v), user, s, r)
  {
    forall l, f, e | 0 <= l < |v| && f in v[l] && e in f.table && Visible(e, user, s)
      ensures r.Some? && e.key.seqno <= r.value.key.seqno
    {
      assert e in Entries(v[l]);
      assert level <= l;
      if level < l {
        assert r.Some?;
        assert Above(Entries(v[level]), Entries(v[l]));
      }
    }
    if r.Some? {
      var f :| f in v[level] && r.value in f.table;
      assert r.value in AllEntries(v);
    }
  }
}
