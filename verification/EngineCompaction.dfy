/** Compactions and trivial moves, from picking the inputs to installing the result. */
module EngineCompaction {
  import opened InternalKeys
  import opened Versions
  import opened VersionBuilder
  import opened VersionInvariant
  import opened History
  import opened LogStream
  import opened Manifest
  import opened Compactions
  import opened Picking
  import opened Engine
  import opened EngineInvariant
  import opened EngineSteps
  import opened EngineFlush

  // ---------- picked inputs ----------

  lemma {:induction false} HullExists(files: Level) returns (lo: UserKey, hi: UserKey)
    requires files != []
    ensures Hull(files, lo, hi)
  {
    var f := files[|files| - 1];
    assert f in files;
    if |files| == 1 {
      lo, hi := f.smallest.user, f.largest.user;
    } else {
      var init := files[..|files| - 1];
      var lo', hi' := HullExists(init);
      assert files == init + [f];
      lo := if f.smallest.user < lo' then f.smallest.user else lo';
      hi := if f.largest.user > hi' then f.largest.user else hi';
    }
  }

  lemma SoundEntriesDistinct(v: Version, h: Writes, top: nat, l: nat)
    requires |v| == NUM_LEVELS && top <= |h| && Sound(AllEntries(v), h, top) && l < NUM_LEVELS
    ensures SeqnosDistinct(Entries(v[l]))
  {
    forall x, y | x in Entries(v[l]) && y in Entries(v[l]) && x.key.seqno == y.key.seqno ensures x == y {
      assert x in AllEntries(v) && y in AllEntries(v);
      assert x == EntryAt(h, x.key.seqno) && y == EntryAt(h, y.key.seqno);
    }
  }

  /** No file left behind shares a key with the hull of the inputs. */
  lemma OutsideHull(files: Level, picked: Level, lo: UserKey, hi: UserKey, in0: Level, g: FileMeta, x: Entry, y: Entry)
    requires Hull(in0, lo, hi) && (forall f :: f in in0 ==> FileOk(f))
    requires FileOk(g) && !Meets(g, Some(lo), Some(hi))
    requires x in g.table && y in Entries(in0)
    ensures x.key.user != y.key.user
  {
    var f :| f in in0 && y in f.table;
    FileRange(f, y);
    FileRange(g, x);
  }

  lemma PickedLevelRest(v: Version, level: nat, in0: Level, in1: Level, h: Writes, top: nat)
    requires Shape(v) && top <= |h| && Sound(AllEntries(v), h, top) && GuardedInputs(v, level, in0, in1)
    ensures RestAbove(v[level], in0, Entries(in0))
  {
    if level > 0 {
      SoundEntriesDistinct(v, h, top, level);
      RestAboveIffBoundaryClosed(v[level], in0);
    } else {
      var lo, hi := HullExists(in0);
      forall g, x, y | g in v[0] && g !in in0 && x in g.table && y in Entries(in0) ensures x.key.user != y.key.user {
        OutsideHull(v[0], in0, lo, hi, in0, g, x, y);
      }
    }
  }

  lemma PickedParentRest(v: Version, level: nat, in0: Level, in1: Level, h: Writes, top: nat)
    requires Shape(v) && top <= |h| && Sound(AllEntries(v), h, top) && GuardedInputs(v, level, in0, in1)
    ensures RestAbove(v[level + 1], in1, InputEntries(in0, in1))
  {
    hide NumbersUnique;
    var lo, hi := HullExists(in0);
    SoundEntriesDistinct(v, h, top, level + 1);
    RestAboveIffBoundaryClosed(v[level + 1], in1);
    forall g, x, y | g in v[level + 1] && g !in in1 && x in g.table && y in Entries(in0) ensures x.key.user != y.key.user {
      OutsideHull(v[level + 1], in1, lo, hi, in0, g, x, y);
    }
  }

  /** A parent file left behind lies wholly to one side of all the inputs. */
  lemma PickedParentApart(files: Level, in0: Level, in1: Level, lo: UserKey, hi: UserKey, g: FileMeta)
    requires (forall f :: f in files ==> FileOk(f)) && PairwiseSeparated(files)
    requires Hull(in0, lo, hi) && (forall f :: f in in0 ==> FileOk(f))
    requires forall f :: f in in1 <==> f in files && Meets(f, Some(lo), Some(hi))
    requires g in files && g !in in1
    ensures Apart(g, InputEntries(in0, in1))
  {
    FileSpan(g);
    if g.largest.user < lo {
      forall x | x in InputEntries(in0, in1) ensures Less(g.largest, x.key) {
        if x in Entries(in0) {
          var f :| f in in0 && x in f.table;
          FileRange(f, x);
        } else {
          var f :| f in in1 && x in f.table;
          FileRange(f, x);
          FileSpan(f);
          assert Separated(f, g);
        }
      }
    } else {
      forall x | x in InputEntries(in0, in1) ensures Less(x.key, g.smallest) {
        if x in Entries(in0) {
          var f :| f in in0 && x in f.table;
          FileRange(f, x);
        } else {
          var f :| f in in1 && x in f.table;
          FileRange(f, x);
          FileSpan(f);
          assert Separated(f, g);
        }
      }
    }
  }

  lemma MergedSeqnosDistinct(input: Table, v: Version, level: nat, in0: Level, in1: Level, h: Writes, top: nat)
    requires |v| == NUM_LEVELS && level + 1 < NUM_LEVELS && top <= |h| && Sound(AllEntries(v), h, top)
    requires forall f :: f in in0 ==> f in v[level]
    requires forall f :: f in in1 ==> f in v[level + 1]
    requires IsMerge(input, in0, in1)
    ensures DistinctSeqnos(input)
  {
    forall i, j | 0 <= i < j < |input| ensures input[i].key.seqno != input[j].key.seqno {
      assert input[i] in EntriesOf(input) && input[j] in EntriesOf(input);
      OutputOrigin(v, level, in0, in1, input[i]);
      OutputOrigin(v, level, in0, in1, input[j]);
      assert input[i] == EntryAt(h, input[i].key.seqno) && input[j] == EntryAt(h, input[j].key.seqno);
      assert Less(input[i].key, input[j].key);
    }
  }

  lemma BaseLevelIsDeepest(v: Version, level: nat, user: UserKey)
    requires VersionOk(v) && IsBaseLevel(v, level, user)
    ensures NoDeeper(v, level, user)
  {
    forall l, f, e | level + 2 <= l < NUM_LEVELS && f in v[l] && e in f.table ensures e.key.user != user {
      FileRange(f, e);
    }
  }

  /** What the picking rules and the boundary guard give a compaction that is about to start. */
  lemma InputsAtStart(v: Version, manual: bool, level: nat, in0: Level, in1: Level, input: Table, ss: nat, h: Writes, top: nat)
    requires Shape(v) && top <= |h| && Sound(AllEntries(v), h, top)
    requires GuardedInputs(v, level, in0, in1) && IsMerge(input, in0, in1) && (!manual ==> NoGap(v, level, in0, in1))
    ensures InputsInv(v, Job(manual, level, in0, in1, input, ss, v, []))
  {
    hide Shape, InputsMatch, RestAbove, BoundaryClosed, NoGap, IsMerge;
    PickedLevelRest(v, level, in0, in1, h, top);
    PickedParentRest(v, level, in0, in1, h, top);
    PickedInputsMatch(v, Job(manual, level, in0, in1, input, ss, v, []), h, top);
  }

  lemma PickedInputsMatch(v: Version, j: Job, h: Writes, top: nat)
    requires Shape(v) && top <= |h| && Sound(AllEntries(v), h, top) && j.base == v
    requires InputsPicked(v, j.level, j.in0, j.in1) && IsMerge(j.input, j.in0, j.in1)
    ensures InputsMatch(v, j)
  {
    hide NumbersUnique, FilesSorted, IsBaseLevel, NoDeeper, DistinctSeqnos, Sorted, Apart, Kept;
    var lo, hi := HullExists(j.in0);
    assert PairwiseSeparated(v[j.level + 1]) by {
      assert FilesSorted(v[j.level + 1]);
      OrderedIffSeparated(v[j.level + 1]);
    }
    OutputFromInputs(j);
    forall g | g in v[j.level + 1] && g !in j.in1 ensures Apart(g, EntriesOf(JobOutput(j))) {
      PickedParentApart(v[j.level + 1], j.in0, j.in1, lo, hi, g);
      ApartFromFewer(g, InputEntries(j.in0, j.in1), EntriesOf(JobOutput(j)));
    }
    MergedSeqnosDistinct(j.input, v, j.level, j.in0, j.in1, h, top);
    forall user | IsBaseLevel(v, j.level, user) ensures NoDeeper(v, j.level, user) {
      BaseLevelIsDeepest(v, j.level, user);
    }
  }

  lemma RaiseFloor(v: Version, h: Writes, floor: nat, floor': nat, top: nat)
    requires VersionInv(v, h, floor, top) && floor <= floor' && floor <= |h|
    ensures VersionInv(v, h, floor', top)
  {
    InvariantIsMonotone(v, h, [], floor, floor', top);
    assert h + [] == h;
  }

  lemma StartCompactionKeeps(d: Disk, m: Memory, sp: Spec, manual: bool, level: nat, in0: Level, in1: Level, input: Table)
    requires UpInv(d, m, sp) && EnabledUp(d, m, StartCompaction(manual, level, in0, in1, input))
    ensures Inv(NextUp(d, m, StartCompaction(manual, level, in0, in1, input)), NextSpec(sp, Up(d, m), StartCompaction(manual, level, in0, in1, input)))
  {
    hide VersionInv, HoldsWrites, Chain, Stream, LogsHold, Unseen, ReadersInv, InputsInv, FileOk, Stored, SeenOk, GuardedInputs, IsMerge, Kept;
    var ss := SmallestSnapshot(m);
    var floor' := if sp.floor < ss then ss else sp.floor;
    RaiseFloor(m.version, sp.h, sp.floor, floor', sp.flushed);
    InvariantParts(m.version, sp.h, sp.floor, sp.flushed);
    InputsAtStart(m.version, manual, level, in0, in1, input, ss, sp.h, sp.flushed);
  }

  lemma InvariantParts(v: Version, h: Writes, floor: nat, top: nat)
    requires VersionInv(v, h, floor, top)
    ensures Shape(v) && Recency(v) && top <= |h| && Sound(AllEntries(v), h, top) && Covers(AllEntries(v), h, floor, top)
  {
  }

  // ---------- outputs ----------

  lemma {:induction false} ConcatMembers(outs: Level, x: Entry)
    ensures x in ConcatTables(outs) <==> x in Entries(outs)
  {
    if outs != [] {
      var n := |outs| - 1;
      ConcatMembers(outs[..n], x);
      assert outs == outs[..n] + [outs[n]];
      assert x in Entries(outs) <==> x in Entries(outs[..n]) || x in outs[n].table;
    }
  }

  lemma {:induction false} ConcatSeparates(outs: Level)
    requires Sorted(ConcatTables(outs)) && forall o :: o in outs ==> FileOk(o)
    ensures PairwiseSeparated(outs)
  {
    if outs != [] {
      var n := |outs| - 1;
      var init, o := outs[..n], outs[n];
      assert outs == init + [o];
      assert FileOk(o) && o.table[0] in o.table;
      var t := ConcatTables(init);
      assert ConcatTables(outs) == t + o.table;
      SortedParts(t, o.table);
      ConcatSeparates(init);
      forall f | f in init ensures Less(f.largest, o.smallest) {
        FileEnds(f);
        var e :| e in f.table && e.key == f.largest;
        assert e in Entries(init);
        ConcatMembers(init, e);
      }
    }
  }

  lemma SortedParts(a: Table, b: Table)
    requires Sorted(a + b)
    ensures Sorted(a) && Sorted(b)
    ensures forall x, y :: x in a && y in b ==> Less(x.key, y.key)
  {
    var t := a + b;
    forall i, j | 0 <= i < j < |a| ensures Less(a[i].key, a[j].key) {
      assert t[i] == a[i] && t[j] == a[j];
    }
    forall i, j | 0 <= i < j < |b| ensures Less(b[i].key, b[j].key) {
      assert t[|a| + i] == b[i] && t[|a| + j] == b[j];
    }
    forall x, y | x in a && y in b ensures Less(x.key, y.key) {
      var i :| 0 <= i < |a| && a[i] == x;
      var j :| 0 <= j < |b| && b[j] == y;
      assert t[i] == x && t[|a| + j] == y;
    }
  }

  lemma PrefixSorted(p: Table, t: Table)
    requires Sorted(t) && p <= t
    ensures Sorted(p)
  {
    assert t == p + t[|p|..];
    SortedParts(p, t[|p|..]);
  }

  lemma JobOutputSorted(j: Job)
    requires |j.base| == NUM_LEVELS && IsMerge(j.input, j.in0, j.in1)
    ensures Sorted(JobOutput(j))
  {
    KeptSorted(j.input, |j.input|, j.smallestSnapshot, j.base, j.level);
  }

  lemma WriteOutputKeeps(d: Disk, m: Memory, sp: Spec, size: nat, t: Table)
    requires UpInv(d, m, sp) && EnabledUp(d, m, WriteOutput(size, t))
    ensures Inv(NextUp(d, m, WriteOutput(size, t)), sp)
  {
    hide VersionInv, HoldsWrites, SeenOk, SnapshotsInv, LogsInv, LogsHold, FileOk, Unseen, ReaderOk, ManifestInv, InputsInv, NewerThanAll, Kept, OutputsInv;
    hide Stored, ReadersInv, MemInv, ConcatTables, MetaOf;
    var n := m.nextFile;
    StoredAfterWrite(d.tables, n, m.version, n, t);
    ManifestAfterWrite(d.manifest, d.tables, sp.h, sp.floor, DurableTop(m, sp), n, t);
    ManifestBounds(d.manifest, d.tables, sp.h, sp.floor, DurableTop(m, sp));
    ReadersAfterWrite(m.readers, d.tables, n, sp.h, n, t);
    NewNumberIsFresh(d.manifest, m.version, n, d.tables);
    JobGrows(m.version, m.job.value, d.manifest, d.tables, n, m.pending, size, t);
  }

  /** Finished outputs are no concern of the inputs. */
  lemma SameInputs(v: Version, j: Job, outs: Level)
    requires |v| == NUM_LEVELS && InputsInv(v, j)
    ensures InputsInv(v, j.(outs := outs))
  {
    hide NoGap, RestAbove, Apart, DistinctSeqnos, IsMerge, Kept, NoDeeper, IsBaseLevel;
  }

  lemma JobMerges(v: Version, j: Job)
    requires |v| == NUM_LEVELS && InputsInv(v, j)
    ensures IsMerge(j.input, j.in0, j.in1)
  {
  }

  lemma JobGrows(v: Version, j: Job, manifest: seq<VersionEdit>, tables: map<nat, Table>, n: nat, pending: set<nat>, size: nat, t: Table)
    requires |v| == NUM_LEVELS && |j.base| == NUM_LEVELS && t != []
    requires InputsInv(v, j) && OutputsInv(j, manifest, tables, n, pending)
    requires Unseen(manifest, n) && ConcatTables(j.outs) + t <= JobOutput(j)
    ensures InputsInv(v, j.(outs := j.outs + [MetaOf(n, size, t)]))
    ensures OutputsInv(j.(outs := j.outs + [MetaOf(n, size, t)]), manifest, tables[n := t], n + 1, pending + {n})
  {
    hide FileOk, Unseen, InputsInv, Kept;
    var f := MetaOf(n, size, t);
    var j' := j.(outs := j.outs + [f]);
    assert IsMerge(j.input, j.in0, j.in1) by { JobMerges(v, j); }
    SameInputs(v, j, j'.outs);
    JobOutputSorted(j);
    PrefixSorted(ConcatTables(j.outs) + t, JobOutput(j));
    SortedParts(ConcatTables(j.outs), t);
    MetaIsOk(n, size, t);
    assert j'.outs[..|j'.outs| - 1] == j.outs;
    assert ConcatTables(j'.outs) == ConcatTables(j.outs) + t;
    assert JobOutput(j') == JobOutput(j);
    OutputsAfterNumber(j, manifest, tables, n, pending);
    forall o | o in j'.outs ensures OutputInv(o, manifest, tables[n := t], n + 1, pending + {n}) {
      if o in j.outs {
        assert OutputInv(o, manifest, tables, n, pending);
      }
    }
  }

  // ---------- the result of a finished compaction ----------

  /** A finished merge delivers what a version edit needs. */
  lemma FinishedJobOk(v: Version, j: Job, manifest: seq<VersionEdit>, tables: map<nat, Table>, n: nat, pending: set<nat>)
    requires |v| == NUM_LEVELS && |j.base| == NUM_LEVELS
    requires InputsInv(v, j) && OutputsInv(j, manifest, tables, n, pending)
    requires ConcatTables(j.outs) == JobOutput(j)
    ensures j.level + 1 < NUM_LEVELS && CompactionOk(v, j.level, j.in0, j.in1, j.outs, j.smallestSnapshot)
  {
    hide FileOk, Unseen, RestAbove, Kept, ConcatTables, RewriteOk, NoGap;
    assert forall o :: o in j.outs ==> OutputInv(o, manifest, tables, n, pending);
    FinishedRewriteOk(v, j);
  }

  lemma FinishedRewriteOk(v: Version, j: Job)
    requires |v| == NUM_LEVELS && |j.base| == NUM_LEVELS
    requires InputsMatch(v, j) && ConcatTables(j.outs) == JobOutput(j) && forall o :: o in j.outs ==> FileOk(o)
    ensures RewriteOk(v, j.level, j.in0, j.in1, j.outs, j.smallestSnapshot)
  {
    hide FileOk, NoDeeper, IsBaseLevel, DistinctSeqnos, MayDrop, Kept, ConcatTables, Sorted;
    var inputs := InputEntries(j.in0, j.in1);
    JobOutputSorted(j);
    ConcatSeparates(j.outs);
    forall x ensures x in Entries(j.outs) <==> x in JobOutput(j) {
      ConcatMembers(j.outs, x);
    }
    assert Entries(j.outs) == EntriesOf(JobOutput(j));
    forall x | x in JobOutput(j) ensures x in inputs {
      KeptMembers(j.input, |j.input|, j.smallestSnapshot, j.base, j.level, x);
      assert x in EntriesOf(j.input);
    }
    forall x | x in inputs && x !in Entries(j.outs) ensures MayDrop(v, j.level, inputs, Entries(j.outs), x, j.smallestSnapshot) {
      assert x in EntriesOf(j.input);
      DropsAreJustified(j.input, j.smallestSnapshot, j.base, v, j.level, x);
    }
    forall g, o | g in v[j.level + 1] && g !in j.in1 && o in j.outs ensures Separated(g, o) {
      assert Apart(g, EntriesOf(JobOutput(j)));
      OutputApart(g, o, EntriesOf(JobOutput(j)), j.outs);
    }
  }

  lemma OutputApart(g: FileMeta, o: FileMeta, inputs: set<Entry>, outs: Level)
    requires Apart(g, inputs) && FileOk(o) && o in outs && Entries(outs) <= inputs
    ensures Separated(g, o)
  {
    assert o.table[0] in o.table && o.table[|o.table| - 1] in o.table;
    assert o.table[0] in Entries(outs) && o.table[|o.table| - 1] in Entries(outs);
  }

  /** A compaction's edit, as a change of the version. */
  lemma CompactionEditInstalls(m: Memory, v: Version, level: nat, in0: Level, in1: Level, outs: Level)
    requires Shape(v) && level + 1 < NUM_LEVELS
    requires forall f :: f in in0 ==> f in v[level]
    requires forall f :: f in in1 ==> f in v[level + 1]
    requires DistinctNumbers(outs)
    requires forall o, g :: o in outs && g in v[level + 1] ==> o.number != g.number
    ensures Installs(v, NextVersion(v, CompactionEdit(m, level, in0, in1, outs)), level, in0, in1, outs)
  {
    hide VersionOk, NumbersUnique, CompactionEdit, NextVersion, FilesSorted;
    assert |v| == NUM_LEVELS by { ShapeLength(v); }
    var v' := NextVersion(v, CompactionEdit(m, level, in0, in1, outs));
    forall l | 0 <= l < NUM_LEVELS ensures FilesSorted(v'[l]) {
      CompactionEditSorts(m, v, level, in0, in1, outs, l);
    }
    forall l, f | 0 <= l < NUM_LEVELS
      ensures f in v'[l] <==> EditedMember(v, level, in0, in1, outs, l, f)
    {
      CompactionEditMembers(m, v, level, in0, in1, outs, l, f);
    }
  }

  ghost predicate EditedMember(v: Version, level: nat, in0: Level, in1: Level, outs: Level, l: nat, f: FileMeta)
    requires |v| == NUM_LEVELS && l < NUM_LEVELS
  {
    if l == level then f in v[l] && f !in in0
    else if l == level + 1 then (f in v[l] && f !in in1) || f in outs
    else f in v[l]
  }

  lemma CompactionEditSorts(m: Memory, v: Version, level: nat, in0: Level, in1: Level, outs: Level, l: nat)
    requires Shape(v) && level + 1 < NUM_LEVELS && l < NUM_LEVELS
    requires DistinctNumbers(outs)
    requires forall o, g :: o in outs && g in v[level + 1] ==> o.number != g.number
    ensures FilesSorted(NextVersion(v, CompactionEdit(m, level, in0, in1, outs))[l])
  {
    hide VersionOk, NumbersUnique, NextVersion;
    assert |v| == NUM_LEVELS by { ShapeLength(v); }
    var edit := CompactionEdit(m, level, in0, in1, outs);
    LevelAddsDistinct(outs, level + 1, l);
    forall f, g | f in v[l] && (l, g) in edit.added ensures f.number != g.number {
      LevelAddsMembers(outs, level + 1, l, g);
    }
    NextVersionSorted(v, edit, l);
  }

  lemma CompactionEditMembers(m: Memory, v: Version, level: nat, in0: Level, in1: Level, outs: Level, l: nat, f: FileMeta)
    requires Shape(v) && level + 1 < NUM_LEVELS && l < NUM_LEVELS
    requires forall f :: f in in0 ==> f in v[level]
    requires forall f :: f in in1 ==> f in v[level + 1]
    requires forall o, g :: o in outs && g in v[level + 1] ==> o.number != g.number
    ensures |v| == NUM_LEVELS
    ensures f in NextVersion(v, CompactionEdit(m, level, in0, in1, outs))[l] <==> EditedMember(v, level, in0, in1, outs, l, f)
  {
    hide VersionOk, NumbersUnique, FilesSorted, NextVersion, Deletions, LevelAdds;
    assert |v| == NUM_LEVELS by { ShapeLength(v); }
    var edit := CompactionEdit(m, level, in0, in1, outs);
    NextVersionMembers(v, edit, l, f);
    forall g ensures (l, g) in edit.added <==> l == level + 1 && g in outs {
      LevelAddsMembers(outs, level + 1, l, g);
    }
    if f in v[l] {
      DeletedNumbers(v, level, in0, in1, l, f);
    }
  }

  lemma ShapeLength(v: Version)
    requires Shape(v)
    ensures |v| == NUM_LEVELS
  {
  }

  lemma LevelAddsMembers(files: Level, k: nat, l: nat, f: FileMeta)
    ensures (l, f) in LevelAdds(files, k) <==> l == k && f in files
  {
    LevelAddsAre(files, k);
    if l == k && f in files {
      var i :| 0 <= i < |files| && files[i] == f;
      assert LevelAdds(files, k)[i] == (l, f);
    }
  }

  lemma DeletedNumbers(v: Version, level: nat, in0: Level, in1: Level, l: nat, f: FileMeta)
    requires Shape(v) && |v| == NUM_LEVELS && level + 1 < NUM_LEVELS && l < NUM_LEVELS
    requires forall f :: f in in0 ==> f in v[level]
    requires forall f :: f in in1 ==> f in v[level + 1]
    requires f in v[l]
    ensures (l, f.number) in Deletions(level, in0) + Deletions(level + 1, in1) <==>
            (l == level && f in in0) || (l == level + 1 && f in in1)
  {
    hide VersionOk, FilesSorted;
  }

  // ---------- logging and installing the edit ----------

  ghost predicate OutputsStored(outs: Level, tables: map<nat, Table>, nextFile: nat) {
    forall o :: o in outs ==> o.number < nextFile && o.number in tables && tables[o.number] == o.table
  }

  ghost predicate OutputsNewOrMoved(outs: Level, in0: Level, manifest: seq<VersionEdit>) {
    forall o :: o in outs ==> Unseen(manifest, o.number) || o in in0
  }

  lemma InstalledStored(v: Version, v': Version, level: nat, in0: Level, in1: Level, outs: Level, tables: map<nat, Table>, n: nat)
    requires Stored(tables, n, v) && Installs(v, v', level, in0, in1, outs) && OutputsStored(outs, tables, n)
    ensures Stored(tables, n, v')
  {
    hide FilesSorted;
    forall l, f | 0 <= l < NUM_LEVELS && f in v'[l] ensures f in v[l] || f in outs {
    }
  }

  lemma CompactionAddsNew(m: Memory, v: Version, level: nat, in0: Level, in1: Level, outs: Level, manifest: seq<VersionEdit>)
    requires |v| == NUM_LEVELS && level + 1 < NUM_LEVELS
    requires forall f :: f in in0 ==> f in v[level]
    requires DistinctNumbers(outs) && OutputsNewOrMoved(outs, in0, manifest)
    ensures AddsNewOrMoved(manifest, v, CompactionEdit(m, level, in0, in1, outs))
    ensures forall l, g :: (l, g) in CompactionEdit(m, level, in0, in1, outs).added <==> l == level + 1 && g in outs
  {
    hide Unseen, Deletions;
    var edit := CompactionEdit(m, level, in0, in1, outs);
    forall l | 0 <= l < NUM_LEVELS ensures DistinctAdds(edit.added, l) {
      LevelAddsDistinct(outs, level + 1, l);
    }
    forall l, g ensures (l, g) in edit.added <==> l == level + 1 && g in outs {
      LevelAddsMembers(outs, level + 1, l, g);
    }
  }

  /** Logging the edit of a sound compaction or move. */
  lemma LogEditKeeps(d: Disk, m: Memory, sp: Spec, level: nat, in0: Level, in1: Level, outs: Level, ss: nat)
    requires UpInv(d, m, sp) && Quiet(m)
    requires CompactionOk(m.version, level, in0, in1, outs, ss) && ss <= sp.floor
    requires OutputNumbers(m.version, in0, outs) && DistinctNumbers(outs)
    requires forall o, g :: o in outs && g in m.version[level + 1] ==> o.number != g.number
    requires OutputsStored(outs, d.tables, m.nextFile) && OutputsNewOrMoved(outs, in0, d.manifest)
    ensures var edit := CompactionEdit(m, level, in0, in1, outs);
            Inv(Up(d.(manifest := d.manifest + [edit]), m.(install := Some(Install(edit, false)))), sp)
  {
    hide VersionInv, HoldsWrites, SnapshotsInv, LogsInv, LogsHold, ReadersInv, ManifestInv, JobInv, Stored, OutputsStored, OutputNumbers;
    hide MemInv, FlushInv, WritingInv, CompactionOk, CompactionEdit, NextVersion, ReplayVersion, OutputsNewOrMoved, DistinctNumbers, JobFloor;
    var edit := CompactionEdit(m, level, in0, in1, outs);
    LogNumberBelow(d.logs, m.logNumber, m.logfile, sp);
    LogEditManifest(d, m, sp, level, in0, in1, outs, ss);
    NoFlushInv(m, d.manifest, d.manifest + [edit], d.tables);
    LoggedJobInv(m, edit, d.manifest, d.tables);
  }

  lemma LoggedJobInv(m: Memory, edit: VersionEdit, manifest: seq<VersionEdit>, tables: map<nat, Table>)
    requires |m.version| == NUM_LEVELS
    requires JobInv(m.job, None, manifest, tables, m.version, m.nextFile, m.pending)
    ensures JobInv(m.job, Some(Install(edit, false)), manifest + [edit], tables, m.version, m.nextFile, m.pending)
  {
    hide InputsInv, OutputsInv;
  }

  lemma LogEditManifest(d: Disk, m: Memory, sp: Spec, level: nat, in0: Level, in1: Level, outs: Level, ss: nat)
    requires VersionInv(m.version, sp.h, sp.floor, sp.flushed) && m.version == ReplayVersion(d.manifest)
    requires ManifestInv(d.manifest, d.tables, sp.h, sp.floor, sp.flushed)
    requires Stored(d.tables, m.nextFile, m.version)
    requires NextFileOf(d.manifest) <= m.nextFile && m.logNumber < m.nextFile && sp.flushed <= m.lastSequence <= |sp.h|
    requires CompactionOk(m.version, level, in0, in1, outs, ss) && ss <= sp.floor
    requires OutputNumbers(m.version, in0, outs) && DistinctNumbers(outs)
    requires forall o, g :: o in outs && g in m.version[level + 1] ==> o.number != g.number
    requires OutputsStored(outs, d.tables, m.nextFile) && OutputsNewOrMoved(outs, in0, d.manifest)
    ensures var edit := CompactionEdit(m, level, in0, in1, outs);
            && ReplayVersion(d.manifest + [edit]) == NextVersion(m.version, edit)
            && ManifestInv(d.manifest + [edit], d.tables, sp.h, sp.floor, sp.flushed)
            && edit.logNumber == Some(m.logNumber)
            && LogNumberOf(d.manifest + [edit]) == m.logNumber && NextFileOf(d.manifest + [edit]) == m.nextFile
  {
    hide VersionInv, ManifestInv, Stored, OutputsStored, OutputNumbers, OutputsNewOrMoved, DistinctNumbers;
    hide NextVersion, ReplayVersion, Installs, RestAbove, MayDrop, PairwiseSeparated, Deletions, LevelAdds, FileOk;
    var edit := CompactionEdit(m, level, in0, in1, outs);
    var v := m.version;
    InvariantParts(v, sp.h, sp.floor, sp.flushed);
    ShapeLength(v);
    CompactionEditInstalls(m, v, level, in0, in1, outs);
    var v' := NextVersion(v, edit);
    CompactionKeepsInvariant(v, v', level, in0, in1, outs, ss, sp.h, sp.floor, sp.floor, sp.flushed);
    InstalledStored(v, v', level, in0, in1, outs, d.tables, m.nextFile);
    CompactionAddsNew(m, v, level, in0, in1, outs, d.manifest);
    InstalledHasOutputs(v, v', level, in0, in1, outs);
    ManifestAfterEdit(d.manifest, edit, d.tables, sp.h, sp.floor, sp.flushed, sp.flushed, m.nextFile);
  }

  lemma InstalledHasOutputs(v: Version, v': Version, level: nat, in0: Level, in1: Level, outs: Level)
    requires Installs(v, v', level, in0, in1, outs)
    ensures forall f :: f in outs ==> f in v'[level + 1]
  {
  }

  lemma LogNumberBelow(logs: Logs, logNumber: nat, logfile: nat, sp: Spec)
    requires LogsInv(logs, logNumber, logfile, sp)
    ensures logNumber <= logfile
  {
  }

  lemma NoFlushInv(m: Memory, manifest: seq<VersionEdit>, manifest': seq<VersionEdit>, tables: map<nat, Table>)
    requires |m.version| == NUM_LEVELS && m.flush.NoFlush?
    ensures FlushInv(m.flush, m.imm, manifest', tables, m.nextFile, m.version, true, m.job)
  {
  }

  lemma LogCompactionKeeps(d: Disk, m: Memory, sp: Spec)
    requires UpInv(d, m, sp) && EnabledUp(d, m, LogCompaction)
    ensures Inv(NextUp(d, m, LogCompaction), sp)
  {
    hide VersionInv, HoldsWrites, SnapshotsInv, LogsInv, LogsHold, ReadersInv, ManifestInv, CompactionOk;
    hide MemInv, FlushInv, WritingInv, Kept, ConcatTables, CompactionEdit, InputsInv;
    var j := m.job.value;
    FinishedJobOk(m.version, j, d.manifest, d.tables, m.nextFile, m.pending);
    OutputsAreNew(m.version, j, d.manifest, d.tables, m.nextFile, m.pending);
    LogEditKeeps(d, m, sp, j.level, j.in0, j.in1, j.outs, j.smallestSnapshot);
  }

  lemma OutputsAreNew(v: Version, j: Job, manifest: seq<VersionEdit>, tables: map<nat, Table>, n: nat, pending: set<nat>)
    requires |j.base| == NUM_LEVELS && OutputsInv(j, manifest, tables, n, pending) && v == ReplayVersion(manifest)
    requires j.level + 1 < NUM_LEVELS
    ensures OutputsStored(j.outs, tables, n) && OutputsNewOrMoved(j.outs, j.in0, manifest)
    ensures OutputNumbers(v, j.in0, j.outs) && DistinctNumbers(j.outs)
    ensures forall o, g :: o in j.outs && g in v[j.level + 1] ==> o.number != g.number
  {
    hide FileOk, Kept, ConcatTables, ReplayVersion;
    forall o | o in j.outs ensures OutputInv(o, manifest, tables, n, pending) {
    }
    forall o, l, g | o in j.outs && 0 <= l < NUM_LEVELS && g in v[l] ensures o.number != g.number {
      ReplayedIsSeen(manifest, l, g);
    }
    forall o, p | o in j.outs && p in j.outs && o.number == p.number ensures o == p {
      var a :| 0 <= a < |j.outs| && j.outs[a] == o;
      var b :| 0 <= b < |j.outs| && j.outs[b] == p;
    }
  }

  /** A move rewrites nothing: its one input is its one output. */
  lemma MoveIsCompaction(v: Version, level: nat, f: FileMeta, h: Writes, top: nat)
    requires Shape(v) && Recency(v) && top <= |h| && Sound(AllEntries(v), h, top)
    requires GuardedInputs(v, level, [f], [])
    ensures CompactionOk(v, level, [f], [], [f], 0)
    ensures OutputNumbers(v, [f], [f]) && DistinctNumbers([f])
    ensures forall g :: g in v[level + 1] ==> f.number != g.number
  {
    hide NumbersUnique, FilesSorted, RestAbove, NoDeeper, Recency, BoundaryClosed;
    PickedLevelRest(v, level, [f], [], h, top);
    PickedParentRest(v, level, [f], [], h, top);
    assert f in [f] && f in v[level];
    assert Entries([f]) == InputEntries([f], []);
    var lo, hi := HullExists([f]);
    assert lo == f.smallest.user && hi == f.largest.user;
    forall g | g in v[level + 1] ensures Separated(g, f) {
      assert g !in [];
      assert !Meets(g, Some(lo), Some(hi));
    }
    MoveNumbers(v, level, f);
  }

  lemma MoveNumbers(v: Version, level: nat, f: FileMeta)
    requires |v| == NUM_LEVELS && NumbersUnique(v) && level + 1 < NUM_LEVELS && f in v[level]
    ensures OutputNumbers(v, [f], [f])
    ensures forall g :: g in v[level + 1] ==> f.number != g.number
  {
  }

  lemma LogMoveKeeps(d: Disk, m: Memory, sp: Spec, level: nat, f: FileMeta)
    requires UpInv(d, m, sp) && EnabledUp(d, m, LogMove(level, f))
    ensures Inv(NextUp(d, m, LogMove(level, f)), sp)
  {
    hide VersionInv, HoldsWrites, SnapshotsInv, LogsInv, LogsHold, ReadersInv, ManifestInv, CompactionOk, OutputNumbers, GuardedInputs;
    hide MemInv, FlushInv, WritingInv, CompactionEdit, JobInv;
    InvariantParts(m.version, sp.h, sp.floor, sp.flushed);
    MoveIsCompaction(m.version, level, f, sp.h, sp.flushed);
    MovedFileStored(m.version, level, f, d.tables, m.nextFile);
    LogEditKeeps(d, m, sp, level, [f], [], [f], 0);
  }

  lemma MovedFileStored(v: Version, level: nat, f: FileMeta, tables: map<nat, Table>, n: nat)
    requires Stored(tables, n, v) && GuardedInputs(v, level, [f], [])
    ensures OutputsStored([f], tables, n)
  {
    assert f in [f];
  }

  lemma ManifestStored(manifest: seq<VersionEdit>, tables: map<nat, Table>, h: Writes, floor: nat, top: nat, n: nat)
    requires ManifestInv(manifest, tables, h, floor, top) && NextFileOf(manifest) <= n
    ensures Stored(tables, n, ReplayVersion(manifest)) && |ReplayVersion(manifest)| == NUM_LEVELS
  {
    hide VersionInv, SeenOk;
  }

  lemma InstallCompactionKeeps(d: Disk, m: Memory, sp: Spec)
    requires |m.version| == NUM_LEVELS && (m.job.Some? ==> |m.job.value.base| == NUM_LEVELS)
    requires EnabledUp(d, m, InstallEdit) && m.install.Some? && !m.install.value.flush && UpInv(d, m, sp)
    ensures Inv(NextUp(d, m, InstallEdit), NextSpec(sp, Up(d, m), InstallEdit))
  {
    hide VersionInv, HoldsWrites, SnapshotsInv, LogsHold, LogsInv, ReadersInv, SeenOk, Stored, ManifestInv, MemInv, NextVersion, ReplayVersion, FlushFileInv;
    ManifestBounds(d.manifest, d.tables, sp.h, sp.floor, sp.flushed);
    ManifestStored(d.manifest, d.tables, sp.h, sp.floor, sp.flushed, m.nextFile);
    assert ReplayVersion(d.manifest) == NextVersion(m.version, m.install.value.edit);
    assert sp.(flushed := DurableTop(m, sp)) == sp;
  }
}
