/** What every version edit keeps: order within levels, recency across levels, and agreement with
    the write history at every snapshot the database may still serve. */
module VersionInvariant {
  import opened InternalKeys
  import opened Versions
  import opened VersionBuilder
  import opened History

  ghost predicate NumbersUnique(v: Version)
    requires |v| == NUM_LEVELS
  {
    forall l, f, m, g :: 0 <= l < NUM_LEVELS && 0 <= m < NUM_LEVELS && f in v[l] && g in v[m] && f.number == g.number ==>
      l == m && f == g
  }

  ghost predicate Shape(v: Version) {
    && VersionOk(v)
    && (forall l :: 0 <= l < NUM_LEVELS ==> FilesSorted(v[l]))
    && NumbersUnique(v)
  }

  /** The invariant of an installed version: `top` is the last write flushed to files, and
      `floor` bounds from below every snapshot that is still readable. */
  ghost predicate VersionInv(v: Version, h: Writes, floor: nat, top: nat) {
    && Shape(v) && Recency(v)
    && top <= |h|
    && Sound(AllEntries(v), h, top)
    && Covers(AllEntries(v), h, floor, top)
  }

  // ---------- disjointness ----------

  ghost predicate Separated(f: FileMeta, g: FileMeta) {
    Less(f.largest, g.smallest) || Less(g.largest, f.smallest)
  }

  ghost predicate PairwiseSeparated(files: Level) {
    forall f, g :: f in files && g in files && f != g ==> Separated(f, g)
  }

  lemma OrderedIffSeparated(files: Level)
    requires forall f :: f in files ==> FileOk(f)
    requires FilesSorted(files)
    ensures LevelOrdered(files) <==> PairwiseSeparated(files)
  {
    if PairwiseSeparated(files) {
      forall i, j | 0 <= i < j < |files| ensures Less(files[i].largest, files[j].smallest) {
        assert files[i] in files && files[j] in files;
        assert FileLess(files[i], files[j]);
        FileSpan(files[i]);
        FileSpan(files[j]);
        assert Separated(files[i], files[j]);
      }
    }
    if LevelOrdered(files) {
      forall f, g | f in files && g in files && f != g ensures Separated(f, g) {
        var i :| 0 <= i < |files| && files[i] == f;
        var j :| 0 <= j < |files| && files[j] == g;
      }
    }
  }

  lemma InAllEntries(v: Version, l: nat, f: FileMeta, e: Entry)
    requires l < |v| && f in v[l] && e in f.table
    ensures e in AllEntries(v) && e in Entries(v[l])
  {
  }

  // ---------- flush: one new file ----------

  /** v' is v with file f added to level p. */
  ghost predicate AddsFile(v: Version, v': Version, p: nat, f: FileMeta) {
    && |v| == |v'| == NUM_LEVELS && p < NUM_LEVELS
    && (forall l, g :: 0 <= l < NUM_LEVELS ==> (g in v'[l] <==> g in v[l] || (l == p && g == f)))
    && (forall l :: 0 <= l < NUM_LEVELS ==> FilesSorted(v'[l]))
  }

  /** User-key ranges of two files do not meet. */
  ghost predicate UserDisjoint(f: FileMeta, g: FileMeta) {
    f.largest.user < g.smallest.user || g.largest.user < f.smallest.user
  }

  /** The promise of PickLevelForMemTableOutput: below level 0, the new file meets nothing at its
      own level or above. */
  ghost predicate PlacementOk(v: Version, p: nat, f: FileMeta)
    requires |v| == NUM_LEVELS
  {
    && p < NUM_LEVELS
    && (p > 0 ==> forall l, g :: 0 <= l <= p && g in v[l] ==> UserDisjoint(f, g))
  }

  /** A flushed file holds exactly the writes numbered above `top` up to `newTop`. */
  ghost predicate HoldsWrites(t: Table, h: Writes, top: nat, newTop: nat)
    requires newTop <= |h|
  {
    && Sorted(t)
    && (forall e :: e in t ==> top < e.key.seqno <= newTop && e == EntryAt(h, e.key.seqno))
    && (forall i {:trigger EntryAt(h, i)} :: top < i <= newTop ==> EntryAt(h, i) in t)
  }

  lemma DisjointUsers(f: FileMeta, g: FileMeta, x: Entry, y: Entry)
    requires FileOk(f) && FileOk(g) && UserDisjoint(f, g)
    requires x in f.table && y in g.table
    ensures x.key.user != y.key.user && Separated(f, g)
  {
    FileRange(f, x);
    FileRange(g, y);
  }

  lemma FlushShape(v: Version, v': Version, p: nat, f: FileMeta)
    requires Shape(v) && FileOk(f) && AddsFile(v, v', p, f) && PlacementOk(v, p, f)
    requires forall l, g :: 0 <= l < NUM_LEVELS && g in v[l] ==> g.number < f.number
    ensures Shape(v')
  {
    forall l | 1 <= l < NUM_LEVELS ensures LevelOrdered(v'[l]) {
      OrderedIffSeparated(v[l]);
      forall g, k | g in v'[l] && k in v'[l] && g != k ensures Separated(g, k) {
        if g == f || k == f {
          assert UserDisjoint(f, if g == f then k else g);
        }
      }
      OrderedIffSeparated(v'[l]);
    }
  }

  lemma FlushRecency(v: Version, v': Version, p: nat, f: FileMeta, h: Writes, floor: nat, top: nat, newTop: nat)
    requires VersionInv(v, h, floor, top) && FileOk(f) && AddsFile(v, v', p, f) && PlacementOk(v, p, f)
    requires forall l, g :: 0 <= l < NUM_LEVELS && g in v[l] ==> g.number < f.number
    requires top <= newTop <= |h| && HoldsWrites(f.table, h, top, newTop)
    ensures Recency(v')
  {
    forall i, j, x, y | 0 <= i < j < NUM_LEVELS && x in Entries(v'[i]) && y in Entries(v'[j]) && x.key.user == y.key.user
      ensures x.key.seqno > y.key.seqno
    {
      var a :| a in v'[i] && x in a.table;
      var b :| b in v'[j] && y in b.table;
      if b == f && j == p {
        assert a in v[i];
        DisjointUsers(f, a, y, x);
      } else {
        InAllEntries(v, j, b, y);
        if a in v[i] {
          InAllEntries(v, i, a, x);
          assert Above(Entries(v[i]), Entries(v[j]));
        }
      }
    }
    forall a, b | a in v'[0] && b in v'[0] && a.number > b.number
      ensures Above(EntriesOf(a.table), EntriesOf(b.table))
    {
      if a == f {
        forall y | y in b.table ensures y.key.seqno <= top { InAllEntries(v, 0, b, y); }
      }
    }
  }

  /** Flushing the next run of writes into a fresh file at a level it may occupy keeps the
      invariant, and the file's writes become part of what the version answers for. */
  lemma FlushKeepsInvariant(v: Version, v': Version, p: nat, f: FileMeta, h: Writes, floor: nat, top: nat, newTop: nat)
    requires VersionInv(v, h, floor, top) && FileOk(f) && AddsFile(v, v', p, f) && PlacementOk(v, p, f)
    requires forall l, g :: 0 <= l < NUM_LEVELS && g in v[l] ==> g.number < f.number
    requires top <= newTop <= |h| && HoldsWrites(f.table, h, top, newTop)
    ensures VersionInv(v', h, floor, newTop)
  {
    FlushShape(v, v', p, f);
    FlushRecency(v, v', p, f, h, floor, top, newTop);
    FlushMembers(v, v', p, f);
    var all, all' := AllEntries(v), AllEntries(v');
    forall i | 1 <= i <= newTop && Needed(h, floor, i)
      ensures EntryAt(h, i) in all' || (h[i - 1].kind == TypeDeletion && NothingOlder(all', KeyAt(h, i), i))
    {
      if i <= top && EntryAt(h, i) !in all {
        assert NothingOlder(all, KeyAt(h, i), i);
      }
    }
  }

  lemma FlushMembers(v: Version, v': Version, p: nat, f: FileMeta)
    requires AddsFile(v, v', p, f)
    ensures forall e :: e in AllEntries(v') <==> e in AllEntries(v) || e in f.table
  {
    forall e ensures e in AllEntries(v') <==> e in AllEntries(v) || e in f.table {
      if e in AllEntries(v) {
        var l, g :| 0 <= l < |v| && g in v[l] && e in g.table;
        InAllEntries(v', l, g, e);
      }
      if e in f.table {
        assert f in v'[p];
        InAllEntries(v', p, f, e);
      }
      if e in AllEntries(v') {
        var l, g :| 0 <= l < |v'| && g in v'[l] && e in g.table;
        if g in v[l] { InAllEntries(v, l, g, e); }
      }
    }
  }

  // ---------- compaction and trivial move ----------

  /** v' is v after files in0 of `level` and in1 of the next level gave way to `outs` there. */
  ghost predicate Installs(v: Version, v': Version, level: nat, in0: Level, in1: Level, outs: Level) {
    && |v| == |v'| == NUM_LEVELS && level + 1 < NUM_LEVELS
    && (forall f :: f in v'[level] <==> f in v[level] && f !in in0)
    && (forall f :: f in v'[level + 1] <==> (f in v[level + 1] && f !in in1) || f in outs)
    && (forall l, f :: 0 <= l < NUM_LEVELS && l != level && l != level + 1 ==> (f in v'[l] <==> f in v[l]))
    && (forall l :: 0 <= l < NUM_LEVELS ==> FilesSorted(v'[l]))
  }

  /** Files of the level that are not picked hold only newer versions of the keys in `picked`. */
  ghost predicate RestAbove(files: Level, picked: Level, entries: set<Entry>) {
    forall g, x, y :: g in files && g !in picked && x in g.table && y in entries && x.key.user == y.key.user ==>
      x.key.seqno > y.key.seqno
  }

  ghost function InputEntries(in0: Level, in1: Level): set<Entry> {
    Entries(in0) + Entries(in1)
  }

  ghost predicate HasNewerBelow(entries: set<Entry>, x: Entry, ss: nat) {
    exists y :: y in entries && y.key.user == x.key.user && y.key.seqno > x.key.seqno && y.key.seqno <= ss
  }

  ghost predicate NoDeeper(v: Version, level: nat, user: UserKey)
    requires |v| == NUM_LEVELS
  {
    forall l, f, e :: level + 2 <= l < NUM_LEVELS && f in v[l] && e in f.table ==> e.key.user != user
  }

  /** Why an input entry may be left out of the output: a newer version hides it from every live
      snapshot, or it is a deletion below which nothing remains. */
  ghost predicate MayDrop(v: Version, level: nat, inputs: set<Entry>, outputs: set<Entry>, x: Entry, ss: nat)
    requires |v| == NUM_LEVELS
  {
    || HasNewerBelow(inputs, x, ss)
    || (&& x.key.kind == TypeDeletion
        && NoDeeper(v, level, x.key.user)
        && forall y :: y in outputs && y.key.user == x.key.user ==> y.key.seqno >= x.key.seqno)
  }

  /** The inputs and outputs of a compaction, as the picking rules and the merge deliver them. */
  ghost predicate RewriteOk(v: Version, level: nat, in0: Level, in1: Level, outs: Level, ss: nat)
    requires |v| == NUM_LEVELS
  {
    && level + 1 < NUM_LEVELS
    && (forall f :: f in in0 ==> f in v[level])
    && (forall f :: f in in1 ==> f in v[level + 1])
    && (forall f :: f in outs ==> FileOk(f))
    && PairwiseSeparated(outs)
    && (forall g, o :: g in v[level + 1] && g !in in1 && o in outs ==> Separated(g, o))
    && Entries(outs) <= InputEntries(in0, in1)
    && (forall x :: x in InputEntries(in0, in1) && x !in Entries(outs) ==>
          MayDrop(v, level, InputEntries(in0, in1), Entries(outs), x, ss))
  }

  /** A compaction that leaves nothing behind that is older than what it takes. */
  ghost predicate CompactionOk(v: Version, level: nat, in0: Level, in1: Level, outs: Level, ss: nat)
    requires |v| == NUM_LEVELS
  {
    && RewriteOk(v, level, in0, in1, outs, ss)
    && RestAbove(v[level], in0, Entries(in0))
    && RestAbove(v[level + 1], in1, InputEntries(in0, in1))
  }

  /** Output numbers are new, or the output is one of the level's own inputs being moved. */
  ghost predicate OutputNumbers(v: Version, in0: Level, outs: Level)
    requires |v| == NUM_LEVELS
  {
    && (forall o, l, g :: o in outs && 0 <= l < NUM_LEVELS && g in v[l] && o.number == g.number ==> o in in0 && g == o)
    && (forall o, p :: o in outs && p in outs && o.number == p.number ==> o == p)
  }

  lemma CompactionShape(v: Version, v': Version, level: nat, in0: Level, in1: Level, outs: Level, ss: nat)
    requires Shape(v) && RewriteOk(v, level, in0, in1, outs, ss) && Installs(v, v', level, in0, in1, outs)
    requires OutputNumbers(v, in0, outs)
    ensures Shape(v')
  {
    forall l | 1 <= l < NUM_LEVELS ensures LevelOrdered(v'[l]) {
      OrderedIffSeparated(v[l]);
      assert PairwiseSeparated(v'[l]) by {
        if l == level + 1 {
          InstalledLevelSeparated(v[l], in1, outs, v'[l]);
        }
      }
      OrderedIffSeparated(v'[l]);
    }
    CompactionNumbers(v, v', level, in0, in1, outs);
  }

  lemma InstalledLevelSeparated(files: Level, picked: Level, outs: Level, files': Level)
    requires PairwiseSeparated(files) && PairwiseSeparated(outs)
    requires forall g, o :: g in files && g !in picked && o in outs ==> Separated(g, o)
    requires forall f :: f in files' <==> (f in files && f !in picked) || f in outs
    ensures PairwiseSeparated(files')
  {
  }

  lemma CompactionNumbers(v: Version, v': Version, level: nat, in0: Level, in1: Level, outs: Level)
    requires |v| == NUM_LEVELS && NumbersUnique(v) && Installs(v, v', level, in0, in1, outs)
    requires OutputNumbers(v, in0, outs)
    requires forall f :: f in in0 ==> f in v[level]
    ensures NumbersUnique(v')
  {
    forall l, f, m, g | 0 <= l < NUM_LEVELS && 0 <= m < NUM_LEVELS && f in v'[l] && g in v'[m] && f.number == g.number
      ensures l == m && f == g
    {
    }
  }

  lemma OutputsBelowRest(v: Version, level: nat, in0: Level, in1: Level, outs: Level)
    requires |v| == NUM_LEVELS && Recency(v) && level + 1 < NUM_LEVELS
    requires forall f :: f in in1 ==> f in v[level + 1]
    requires RestAbove(v[level], in0, Entries(in0)) && Entries(outs) <= InputEntries(in0, in1)
    ensures RestAbove(v[level], in0, Entries(outs))
  {
    forall g, x, y | g in v[level] && g !in in0 && x in g.table && y in Entries(outs) && x.key.user == y.key.user
      ensures x.key.seqno > y.key.seqno
    {
      if y in Entries(in1) {
        assert x in Entries(v[level]) && y in Entries(v[level + 1]);
        assert Above(Entries(v[level]), Entries(v[level + 1]));
      }
    }
  }

  /** Exactly when a rewrite of two levels keeps recency: nothing it writes to the deeper level is
      newer than what stays behind in the shallower one. */
  lemma RecencyIffOutputsBelowRest(v: Version, v': Version, level: nat, in0: Level, in1: Level, outs: Level)
    requires Recency(v) && Installs(v, v', level, in0, in1, outs)
    requires forall f :: f in in0 ==> f in v[level]
    requires forall f :: f in in1 ==> f in v[level + 1]
    requires Entries(outs) <= InputEntries(in0, in1)
    ensures Recency(v') <==> RestAbove(v[level], in0, Entries(outs))
  {
    if RestAbove(v[level], in0, Entries(outs)) {
      forall i, j | 0 <= i < j < NUM_LEVELS ensures Above(Entries(v'[i]), Entries(v'[j])) {
        forall x, y | x in Entries(v'[i]) && y in Entries(v'[j]) && x.key.user == y.key.user
          ensures x.key.seqno > y.key.seqno
        {
          InstalledOrigin(v, v', level, in0, in1, outs, i, x);
          InstalledOrigin(v, v', level, in0, in1, outs, j, y);
          CompactionAbove(v, level, in0, in1, outs, i, j, x, y);
        }
      }
      Level0Shrinks(v, v', level, in0, in1, outs);
    }
    if Recency(v') {
      RecencyGivesRestAbove(v, v', level, in0, in1, outs);
    }
  }

  lemma Level0Shrinks(v: Version, v': Version, level: nat, in0: Level, in1: Level, outs: Level)
    requires Installs(v, v', level, in0, in1, outs)
    ensures forall f :: f in v'[0] ==> f in v[0]
  {
    forall f | f in v'[0] ensures f in v[0] {
      assert level == 0 || f in v[0];
    }
  }

  lemma RecencyGivesRestAbove(v: Version, v': Version, level: nat, in0: Level, in1: Level, outs: Level)
    requires Recency(v') && Installs(v, v', level, in0, in1, outs)
    ensures RestAbove(v[level], in0, Entries(outs))
  {
    forall g, x, y | g in v[level] && g !in in0 && x in g.table && y in Entries(outs) && x.key.user == y.key.user
      ensures x.key.seqno > y.key.seqno
    {
      var o :| o in outs && y in o.table;
      assert g in v'[level] && o in v'[level + 1];
      assert x in Entries(v'[level]) && y in Entries(v'[level + 1]);
      assert Above(Entries(v'[level]), Entries(v'[level + 1]));
    }
  }

  /** Where an entry of level l of the new version was in the old one. */
  ghost predicate Origin(v: Version, level: nat, in0: Level, in1: Level, outs: Level, l: nat, x: Entry)
    requires |v| == NUM_LEVELS && l < NUM_LEVELS && level < NUM_LEVELS
  {
    || (l == level + 1 && x in Entries(outs))
    || (&& x in Entries(v[l])
        && (l == level ==> exists g :: g in v[l] && g !in in0 && x in g.table)
        && (l == level + 1 ==> exists g :: g in v[l] && g !in in1 && x in g.table))
  }

  lemma InstalledOrigin(v: Version, v': Version, level: nat, in0: Level, in1: Level, outs: Level, l: nat, x: Entry)
    requires Installs(v, v', level, in0, in1, outs) && l < NUM_LEVELS && x in Entries(v'[l])
    ensures Origin(v, level, in0, in1, outs, l, x)
  {
    var g :| g in v'[l] && x in g.table;
    if g !in v[l] {
      assert g in outs;
    }
  }

  lemma CompactionAbove(v: Version, level: nat, in0: Level, in1: Level, outs: Level, i: nat, j: nat, x: Entry, y: Entry)
    requires Recency(v) && level + 1 < NUM_LEVELS && i < j < NUM_LEVELS
    requires forall f :: f in in0 ==> f in v[level]
    requires forall f :: f in in1 ==> f in v[level + 1]
    requires RestAbove(v[level], in0, Entries(outs))
    requires Entries(outs) <= InputEntries(in0, in1)
    requires x.key.user == y.key.user
    requires Origin(v, level, in0, in1, outs, i, x) && Origin(v, level, in0, in1, outs, j, y)
    ensures x.key.seqno > y.key.seqno
  {
    assert Above(Entries(v[i]), Entries(v[j]));
    if y !in Entries(v[j]) {
      OutputOrigin(v, level, in0, in1, y);
      if i < level {
        assert Above(Entries(v[i]), Entries(v[level]));
      }
    } else if x !in Entries(v[i]) {
      OutputOrigin(v, level, in0, in1, x);
      assert Above(Entries(v[level]), Entries(v[j]));
    }
  }

  lemma OutputOrigin(v: Version, level: nat, in0: Level, in1: Level, x: Entry)
    requires |v| == NUM_LEVELS && level + 1 < NUM_LEVELS
    requires forall f :: f in in0 ==> f in v[level]
    requires forall f :: f in in1 ==> f in v[level + 1]
    requires x in InputEntries(in0, in1)
    ensures x in Entries(in0) ==> x in Entries(v[level])
    ensures x in Entries(in1) ==> x in Entries(v[level + 1])
    ensures x in AllEntries(v)
  {
  }

  /** A file left behind holds an older version of the entry's key. */
  ghost predicate LeftOlder(files: Level, picked: Level, e: Entry) {
    exists g, x :: g in files && g !in picked && x in g.table && x.key.user == e.key.user && x.key.seqno < e.key.seqno
  }

  /** No deletion that the rewrite drops, and that a snapshot at or above the floor still reads, was
      hiding a version that stays behind. */
  ghost predicate NothingRestored(v: Version, level: nat, in0: Level, in1: Level, outs: Level, h: Writes, floor: nat)
    requires |v| == NUM_LEVELS && level + 1 < NUM_LEVELS
  {
    forall e :: e in InputEntries(in0, in1) && e !in Entries(outs) && e.key.kind == TypeDeletion
                && 1 <= e.key.seqno <= |h| && Needed(h, floor, e.key.seqno) ==>
      !LeftOlder(v[level], in0, e) && !LeftOlder(v[level + 1], in1, e)
  }

  /** The heart of a compaction, whatever files it leaves behind: the two drop rules and the rewrite
      preserve what every snapshot at or above the new floor reads, exactly when what is written is
      not newer than what stays above it and no dropped deletion was hiding what stays behind. */
  lemma RewriteKeepsInvariantIff(v: Version, v': Version, level: nat, in0: Level, in1: Level, outs: Level, ss: nat,
                                 h: Writes, floor: nat, newFloor: nat, top: nat)
    requires VersionInv(v, h, floor, top) && RewriteOk(v, level, in0, in1, outs, ss)
    requires Installs(v, v', level, in0, in1, outs) && OutputNumbers(v, in0, outs)
    requires floor <= newFloor && ss <= newFloor
    ensures VersionInv(v', h, newFloor, top) <==>
            RestAbove(v[level], in0, Entries(outs)) && NothingRestored(v, level, in0, in1, outs, h, newFloor)
  {
    RewriteRecencyIff(v, v', level, in0, in1, outs, ss);
    CompactionShrinks(v, v', level, in0, in1, outs, ss);
    CompactionShape(v, v', level, in0, in1, outs, ss);
    if NothingRestored(v, level, in0, in1, outs, h, newFloor) {
      RewriteCovers(v, v', level, in0, in1, outs, ss, h, floor, newFloor, top);
    }
    if Covers(AllEntries(v'), h, newFloor, top) {
      CoveringRestoresNothing(v, v', level, in0, in1, outs, ss, h, newFloor, top);
    }
    SmallerIsSound(AllEntries(v), AllEntries(v'), h, top);
    hide RewriteOk, Installs, RestAbove, NothingRestored, Covers, Shape, Recency, Sound, OutputNumbers;
  }

  lemma SmallerIsSound(entries: set<Entry>, fewer: set<Entry>, h: Writes, top: nat)
    requires top <= |h| && Sound(entries, h, top) && fewer <= entries
    ensures Sound(fewer, h, top)
  {
  }

  lemma RewriteRecencyIff(v: Version, v': Version, level: nat, in0: Level, in1: Level, outs: Level, ss: nat)
    requires Recency(v) && RewriteOk(v, level, in0, in1, outs, ss) && Installs(v, v', level, in0, in1, outs)
    ensures Recency(v') <==> RestAbove(v[level], in0, Entries(outs))
  {
    hide Installs;
    RecencyIffOutputsBelowRest(v, v', level, in0, in1, outs);
  }

  lemma RewriteCovers(v: Version, v': Version, level: nat, in0: Level, in1: Level, outs: Level, ss: nat,
                      h: Writes, floor: nat, newFloor: nat, top: nat)
    requires VersionInv(v, h, floor, top) && RewriteOk(v, level, in0, in1, outs, ss) && Installs(v, v', level, in0, in1, outs)
    requires AllEntries(v') <= AllEntries(v) && NothingRestored(v, level, in0, in1, outs, h, newFloor)
    requires floor <= newFloor && ss <= newFloor
    ensures Covers(AllEntries(v'), h, newFloor, top)
  {
    hide RewriteOk, Installs, NothingRestored;
    forall i {:trigger EntryAt(h, i)} | 1 <= i <= top && Needed(h, newFloor, i)
      ensures EntryAt(h, i) in AllEntries(v') || (h[i - 1].kind == TypeDeletion && NothingOlder(AllEntries(v'), KeyAt(h, i), i))
    {
      WriteCovered(v, v', level, in0, in1, outs, ss, h, floor, newFloor, top, i);
    }
  }

  lemma WriteCovered(v: Version, v': Version, level: nat, in0: Level, in1: Level, outs: Level, ss: nat,
                     h: Writes, floor: nat, newFloor: nat, top: nat, i: nat)
    requires Recency(v) && RewriteOk(v, level, in0, in1, outs, ss) && Installs(v, v', level, in0, in1, outs)
    requires top <= |h| && Sound(AllEntries(v), h, top) && Covers(AllEntries(v), h, floor, top)
    requires AllEntries(v') <= AllEntries(v) && NothingRestored(v, level, in0, in1, outs, h, newFloor)
    requires floor <= newFloor && ss <= newFloor
    requires 1 <= i <= top && Needed(h, newFloor, i)
    ensures EntryAt(h, i) in AllEntries(v') || (h[i - 1].kind == TypeDeletion && NothingOlder(AllEntries(v'), KeyAt(h, i), i))
  {
    hide Installs, MayDrop, PairwiseSeparated, LeftOlder, Above, FileOk, Separated, HasNewerBelow;
    assert Needed(h, floor, i);
    var e := EntryAt(h, i);
    if e in AllEntries(v) && e !in AllEntries(v') {
      MissingWasDropped(v, v', level, in0, in1, outs, e);
      NeededIsNotHidden(v, level, in0, in1, ss, h, newFloor, top, i);
      DroppedDeletionIsLastIff(v, v', level, in0, in1, outs, ss, e);
      forall x | x in AllEntries(v') && x.key.user == e.key.user ensures x.key.seqno > i {
        assert x == EntryAt(h, x.key.seqno);
      }
    }
  }

  lemma CoveringRestoresNothing(v: Version, v': Version, level: nat, in0: Level, in1: Level, outs: Level, ss: nat, h: Writes, newFloor: nat, top: nat)
    requires Shape(v) && Recency(v) && RewriteOk(v, level, in0, in1, outs, ss) && Installs(v, v', level, in0, in1, outs)
    requires top <= |h| && Sound(AllEntries(v), h, top) && Covers(AllEntries(v'), h, newFloor, top)
    requires ss <= newFloor
    ensures NothingRestored(v, level, in0, in1, outs, h, newFloor)
  {
    LeftStays(v, v', level, in0, in1, outs);
    hide Shape, Recency, Installs;
    forall e | e in InputEntries(in0, in1) && e !in Entries(outs) && e.key.kind == TypeDeletion
               && 1 <= e.key.seqno <= |h| && Needed(h, newFloor, e.key.seqno)
      ensures !LeftOlder(v[level], in0, e) && !LeftOlder(v[level + 1], in1, e)
    {
      OutputOrigin(v, level, in0, in1, e);
      DroppedIsGone(v, v', level, in0, in1, outs, e);
      assert e == EntryAt(h, e.key.seqno);
      assert NothingOlder(AllEntries(v'), e.key.user, e.key.seqno);
    }
  }

  /** What is left behind is still there afterwards. */
  lemma LeftStays(v: Version, v': Version, level: nat, in0: Level, in1: Level, outs: Level)
    requires Installs(v, v', level, in0, in1, outs)
    ensures forall g, x :: g in v[level] && g !in in0 && x in g.table ==> x in AllEntries(v')
    ensures forall g, x :: g in v[level + 1] && g !in in1 && x in g.table ==> x in AllEntries(v')
  {
    forall g, x | g in v[level] && g !in in0 && x in g.table ensures x in AllEntries(v') {
      InAllEntries(v', level, g, x);
    }
    forall g, x | g in v[level + 1] && g !in in1 && x in g.table ensures x in AllEntries(v') {
      InAllEntries(v', level + 1, g, x);
    }
  }

  lemma SeparatedShareNothing(f: FileMeta, g: FileMeta, e: Entry)
    requires FileOk(f) && FileOk(g) && Separated(f, g) && e in f.table
    ensures e !in g.table
  {
    FileRange(f, e);
    forall y | y in g.table ensures y != e {
      FileRange(g, y);
    }
  }

  /** An entry is in one file of a level only. */
  lemma FilesShareNothing(v: Version, l: nat, f: FileMeta, g: FileMeta, e: Entry)
    requires Shape(v) && Recency(v) && l < NUM_LEVELS && f in v[l] && g in v[l] && f != g && e in f.table
    ensures e !in g.table
  {
    assert f.number != g.number;
    if l > 0 {
      OrderedIffSeparated(v[l]);
      SeparatedShareNothing(f, g, e);
    } else {
      assert Above(EntriesOf(f.table), EntriesOf(g.table)) || Above(EntriesOf(g.table), EntriesOf(f.table));
      assert e in EntriesOf(f.table);
      assert e in g.table ==> e in EntriesOf(g.table);
    }
  }

  /** And in one level only. */
  lemma LevelsShareNothing(v: Version, k: nat, l: nat, e: Entry)
    requires Recency(v) && k < NUM_LEVELS && l < NUM_LEVELS && k != l && e in Entries(v[k])
    ensures e !in Entries(v[l])
  {
    assert Above(Entries(v[k]), Entries(v[l])) || Above(Entries(v[l]), Entries(v[k]));
  }

  lemma EntryLeaves(v: Version, v': Version, level: nat, in0: Level, in1: Level, outs: Level, k: nat, f: FileMeta, l: nat, g: FileMeta, e: Entry)
    requires Shape(v) && Recency(v) && Installs(v, v', level, in0, in1, outs)
    requires k < NUM_LEVELS && f in v[k] && e in f.table && ((k == level && f in in0) || (k == level + 1 && f in in1))
    requires e !in Entries(outs) && l < NUM_LEVELS && g in v'[l]
    ensures e !in g.table
  {
    if g !in outs {
      assert g in v[l];
      if l != k {
        assert e in Entries(v[k]);
        LevelsShareNothing(v, k, l, e);
      } else {
        FilesShareNothing(v, l, f, g, e);
      }
    }
  }

  lemma DroppedIsGone(v: Version, v': Version, level: nat, in0: Level, in1: Level, outs: Level, e: Entry)
    requires Shape(v) && Recency(v) && Installs(v, v', level, in0, in1, outs)
    requires forall f :: f in in0 ==> f in v[level]
    requires forall f :: f in in1 ==> f in v[level + 1]
    requires e in InputEntries(in0, in1) && e !in Entries(outs)
    ensures e !in AllEntries(v')
  {
    var k := if e in Entries(in0) then level else level + 1;
    var f :| f in (if e in Entries(in0) then in0 else in1) && e in f.table;
    assert f in v[k];
    hide Shape, Recency, Installs;
    forall l, g | 0 <= l < NUM_LEVELS && l < |v'| && g in v'[l] ensures e !in g.table {
      EntryLeaves(v, v', level, in0, in1, outs, k, f, l, g, e);
    }
  }

  /** Nothing is left behind that is older than what is taken: all is well. */
  lemma CompactionKeepsInvariant(v: Version, v': Version, level: nat, in0: Level, in1: Level, outs: Level, ss: nat,
                                 h: Writes, floor: nat, newFloor: nat, top: nat)
    requires VersionInv(v, h, floor, top) && CompactionOk(v, level, in0, in1, outs, ss)
    requires Installs(v, v', level, in0, in1, outs) && OutputNumbers(v, in0, outs)
    requires floor <= newFloor && ss <= newFloor
    ensures VersionInv(v', h, newFloor, top)
  {
    RestAboveRestoresNothing(v, level, in0, in1, outs, ss, h, newFloor);
    hide RewriteOk, Installs;
    RewriteKeepsInvariantIff(v, v', level, in0, in1, outs, ss, h, floor, newFloor, top);
  }

  lemma RestAboveRestoresNothing(v: Version, level: nat, in0: Level, in1: Level, outs: Level, ss: nat, h: Writes, floor: nat)
    requires |v| == NUM_LEVELS && Recency(v) && CompactionOk(v, level, in0, in1, outs, ss)
    ensures RestAbove(v[level], in0, Entries(outs)) && NothingRestored(v, level, in0, in1, outs, h, floor)
  {
    OutputsBelowRest(v, level, in0, in1, outs);
    forall e | e in InputEntries(in0, in1) ensures !LeftOlder(v[level], in0, e) && !LeftOlder(v[level + 1], in1, e) {
      RestIsNewer(v, level, in0, in1, e);
    }
  }

  lemma RestIsNewer(v: Version, level: nat, in0: Level, in1: Level, e: Entry)
    requires Recency(v) && level + 1 < NUM_LEVELS
    requires forall f :: f in in1 ==> f in v[level + 1]
    requires RestAbove(v[level], in0, Entries(in0)) && RestAbove(v[level + 1], in1, InputEntries(in0, in1))
    requires e in InputEntries(in0, in1)
    ensures !LeftOlder(v[level], in0, e) && !LeftOlder(v[level + 1], in1, e)
  {
    if e in Entries(in1) {
      ParentNotOlder(v, level, in0, in1, e);
    }
  }

  /** Recency alone: what is left in the shallower level is newer than any parent entry. */
  lemma ParentNotOlder(v: Version, level: nat, in0: Level, in1: Level, e: Entry)
    requires Recency(v) && level + 1 < NUM_LEVELS
    requires forall f :: f in in1 ==> f in v[level + 1]
    requires e in Entries(in1)
    ensures !LeftOlder(v[level], in0, e)
  {
    assert e in Entries(v[level + 1]);
    assert Above(Entries(v[level]), Entries(v[level + 1]));
    forall g, x | g in v[level] && x in g.table ensures x in Entries(v[level]) {
    }
  }

  lemma CompactionShrinks(v: Version, v': Version, level: nat, in0: Level, in1: Level, outs: Level, ss: nat)
    requires |v| == NUM_LEVELS && RewriteOk(v, level, in0, in1, outs, ss) && Installs(v, v', level, in0, in1, outs)
    ensures AllEntries(v') <= AllEntries(v)
  {
    forall e | e in AllEntries(v') ensures e in AllEntries(v) {
      var l, g :| 0 <= l < |v'| && g in v'[l] && e in g.table;
      InstalledOrigin(v, v', level, in0, in1, outs, l, e);
      if e !in Entries(v[l]) {
        OutputOrigin(v, level, in0, in1, e);
      }
    }
  }

  /** A deletion that only the second rule drops is the oldest of its key afterwards exactly when no
      file left behind holds an older version. */
  lemma DroppedDeletionIsLastIff(v: Version, v': Version, level: nat, in0: Level, in1: Level, outs: Level, ss: nat, e: Entry)
    requires Recency(v) && RewriteOk(v, level, in0, in1, outs, ss) && Installs(v, v', level, in0, in1, outs)
    requires e in InputEntries(in0, in1) && e !in Entries(outs) && !HasNewerBelow(InputEntries(in0, in1), e, ss)
    ensures e.key.kind == TypeDeletion
    ensures (forall x :: x in AllEntries(v') && x.key.user == e.key.user ==> x.key.seqno >= e.key.seqno) <==>
            !LeftOlder(v[level], in0, e) && !LeftOlder(v[level + 1], in1, e)
  {
    assert MayDrop(v, level, InputEntries(in0, in1), Entries(outs), e, ss);
    LeftStays(v, v', level, in0, in1, outs);
    if !LeftOlder(v[level], in0, e) && !LeftOlder(v[level + 1], in1, e) {
      forall x | x in AllEntries(v') && x.key.user == e.key.user ensures x.key.seqno >= e.key.seqno {
        var l, g :| 0 <= l < |v'| && g in v'[l] && x in g.table;
        InstalledOrigin(v, v', level, in0, in1, outs, l, x);
        DroppedDeletionHidesNothing(v, level, in0, in1, outs, e, l, x);
      }
    }
  }

  /** A write some live snapshot needs is not hidden by a newer version that all of them see. */
  lemma NeededIsNotHidden(v: Version, level: nat, in0: Level, in1: Level, ss: nat, h: Writes, floor: nat, top: nat, i: nat)
    requires |v| == NUM_LEVELS && level + 1 < NUM_LEVELS
    requires forall f :: f in in0 ==> f in v[level]
    requires forall f :: f in in1 ==> f in v[level + 1]
    requires top <= |h| && Sound(AllEntries(v), h, top)
    requires ss <= floor && 1 <= i <= top && Needed(h, floor, i)
    ensures !HasNewerBelow(InputEntries(in0, in1), EntryAt(h, i), ss)
  {
    var inputs := InputEntries(in0, in1);
    forall y | y in inputs && y.key.user == KeyAt(h, i) && y.key.seqno > i ensures y.key.seqno > ss {
      OutputOrigin(v, level, in0, in1, y);
      assert KeyAt(h, y.key.seqno) == y.key.user;
    }
  }

  lemma MissingWasDropped(v: Version, v': Version, level: nat, in0: Level, in1: Level, outs: Level, e: Entry)
    requires Installs(v, v', level, in0, in1, outs)
    requires e in AllEntries(v) && e !in AllEntries(v')
    ensures e in InputEntries(in0, in1) && e !in Entries(outs)
  {
    forall l: nat, g: FileMeta | l < |v'| && e in g.table ensures g !in v'[l] {
      if g in v'[l] { InAllEntries(v', l, g, e); }
    }
    forall o | o in outs ensures e !in o.table {
      assert o in v'[level + 1];
    }
  }

  lemma DroppedDeletionHidesNothing(v: Version, level: nat, in0: Level, in1: Level, outs: Level, e: Entry, l: nat, x: Entry)
    requires Recency(v) && level + 1 < NUM_LEVELS && l < NUM_LEVELS
    requires forall f :: f in in0 ==> f in v[level]
    requires forall f :: f in in1 ==> f in v[level + 1]
    requires !LeftOlder(v[level], in0, e) && !LeftOlder(v[level + 1], in1, e)
    requires e in InputEntries(in0, in1) && NoDeeper(v, level, e.key.user)
    requires forall y :: y in Entries(outs) && y.key.user == e.key.user ==> y.key.seqno >= e.key.seqno
    requires Origin(v, level, in0, in1, outs, l, x) && x.key.user == e.key.user
    ensures x.key.seqno >= e.key.seqno
  {
    OutputOrigin(v, level, in0, in1, e);
    if l < level {
      assert Above(Entries(v[l]), Entries(v[level]));
      assert Above(Entries(v[l]), Entries(v[level + 1]));
    } else if l == level {
      assert Above(Entries(v[level]), Entries(v[level + 1]));
    }
  }

  /** Raising the floor, or learning of later writes, keeps the invariant. */
  lemma InvariantIsMonotone(v: Version, h: Writes, more: Writes, floor: nat, newFloor: nat, top: nat)
    requires VersionInv(v, h, floor, top)
    requires floor <= newFloor && floor <= |h|
    ensures VersionInv(v, h + more, newFloor, top)
  {
    var h' := h + more;
    forall i | 1 <= i <= top && Needed(h', newFloor, i)
      ensures EntryAt(h', i) in AllEntries(v) || (h'[i - 1].kind == TypeDeletion && NothingOlder(AllEntries(v), h'[i - 1].key, i))
    {
      assert EntryAt(h', i) == EntryAt(h, i);
      forall j: nat | i < j <= floor && j <= |h| ensures KeyAt(h, j) != KeyAt(h, i) {
        assert KeyAt(h', j) == KeyAt(h, j);
      }
      assert Needed(h, floor, i);
    }
  }
}
