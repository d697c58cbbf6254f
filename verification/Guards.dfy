/** The two guards the engine's guarantees rest on and this version of the code does not check:
    when each is needed, exactly, and what goes wrong without it. */
module Guards {
  import opened InternalKeys
  import opened Versions
  import opened VersionBuilder
  import opened VersionInvariant
  import opened History
  import opened Picking
  import opened Compactions
  import opened Engine
  import opened EngineInvariant
  import opened EngineFlush
  import opened EngineCompaction

  // ---------- one user key split across two files ----------

  /** Moving a file down keeps "shallower is newer" if and only if no file left behind begins with
      older versions of the user key the moved file ends with. */
  lemma MoveKeepsRecencyIff(v: Version, v': Version, level: nat, f: FileMeta, h: Writes, top: nat)
    requires Shape(v) && Recency(v) && top <= |h| && Sound(AllEntries(v), h, top)
    requires level > 0 && InputsPicked(v, level, [f], []) && Installs(v, v', level, [f], [], [f])
    ensures Recency(v') <==> BoundaryClosed(v[level], [f])
  {
    hide Installs, Recency, NumbersUnique;
    assert f in [f] && f in v[level];
    assert Entries([f]) <= InputEntries([f], []);
    RecencyIffOutputsBelowRest(v, v', level, [f], [], [f]);
    SoundEntriesDistinct(v, h, top, level);
    RestAboveIffBoundaryClosed(v[level], [f]);
  }

  // ---------- compactions, with or without the guard ----------

  /** A finished merge of inputs the picking rules allow, as the merge loop leaves it. */
  ghost predicate Finished(v: Version, j: Job)
    requires |v| == NUM_LEVELS
  {
    && j.base == v && InputsPicked(v, j.level, j.in0, j.in1) && IsMerge(j.input, j.in0, j.in1)
    && ConcatTables(j.outs) == JobOutput(j) && forall o :: o in j.outs ==> FileOk(o)
  }

  /** A deletion that a snapshot at or above the floor reads, and that the merge has dropped. */
  ghost predicate Erased(j: Job, h: Writes, floor: nat, e: Entry) {
    e.key.kind == TypeDeletion && e !in Entries(j.outs) && 1 <= e.key.seqno <= |h| && Needed(h, floor, e.key.seqno)
  }

  /** Wherever a user key is split between an input and a file left behind: what stays above it in the
      shallower level was not written below, and no deletion that hid the older part was dropped. */
  ghost predicate SplitsHarmless(v: Version, j: Job, h: Writes, floor: nat)
    requires |v| == NUM_LEVELS && j.level + 1 < NUM_LEVELS
  {
    forall e :: e in InputEntries(j.in0, j.in1) ==>
      && (SplitBehind(v[j.level], j.in0, e) ==> e !in Entries(j.outs) && !Erased(j, h, floor, e))
      && (SplitBehind(v[j.level + 1], j.in1, e) ==> !Erased(j, h, floor, e))
  }

  /** A compaction preserves what every live snapshot reads, and the order of the levels, if and only if
      the user keys split at the edges of its inputs are harmless. */
  lemma CompactionKeepsMeaningIff(v: Version, v': Version, j: Job, h: Writes, floor: nat, newFloor: nat, top: nat)
    requires VersionInv(v, h, floor, top) && Finished(v, j)
    requires Installs(v, v', j.level, j.in0, j.in1, j.outs) && OutputNumbers(v, j.in0, j.outs)
    requires floor <= newFloor && j.smallestSnapshot <= newFloor
    ensures VersionInv(v', h, newFloor, top) <==> SplitsHarmless(v, j, h, newFloor)
  {
    hide VersionInv, RewriteOk, Installs, Finished, OutputNumbers, SplitsHarmless, NothingRestored, RestAbove, LeftOlder, SplitBehind, Entries;
    FinishedParts(v, j, h, floor, top);
    RewriteKeepsInvariantIff(v, v', j.level, j.in0, j.in1, j.outs, j.smallestSnapshot, h, floor, newFloor, top);
    RestAboveIffNoneOlder(v, j.level, j.in0, j.in1, j.outs, h, floor, top);
    forall e | e in InputEntries(j.in0, j.in1)
      ensures LeftOlder(v[j.level], j.in0, e) <==> SplitBehind(v[j.level], j.in0, e)
      ensures LeftOlder(v[j.level + 1], j.in1, e) <==> SplitBehind(v[j.level + 1], j.in1, e)
    {
      LeftOlderIsSplit(v, j.level, j.in0, j.in1, h, floor, top, e);
    }
    HarmlessIff(v, j, h, newFloor);
  }

  lemma FinishedParts(v: Version, j: Job, h: Writes, floor: nat, top: nat)
    requires VersionInv(v, h, floor, top) && Finished(v, j)
    ensures |v| == NUM_LEVELS && j.level + 1 < NUM_LEVELS
    ensures RewriteOk(v, j.level, j.in0, j.in1, j.outs, j.smallestSnapshot)
    ensures InputsPicked(v, j.level, j.in0, j.in1) && Entries(j.outs) <= InputEntries(j.in0, j.in1)
    ensures forall f :: f in j.in0 ==> f in v[j.level]
    ensures forall f :: f in j.in1 ==> f in v[j.level + 1]
  {
    InvariantParts(v, h, floor, top);
    hide VersionInv, Covers, Recency, Sound, Shape;
    assert |v| == NUM_LEVELS by { ShapeLength(v); }
    PickedInputsMatch(v, j, h, top);
    hide InputsMatch;
    FinishedRewriteOk(v, j);
  }

  lemma HarmlessIff(v: Version, j: Job, h: Writes, floor: nat)
    requires |v| == NUM_LEVELS && j.level + 1 < NUM_LEVELS && Entries(j.outs) <= InputEntries(j.in0, j.in1)
    requires forall e :: e in InputEntries(j.in0, j.in1) ==>
               && (LeftOlder(v[j.level], j.in0, e) <==> SplitBehind(v[j.level], j.in0, e))
               && (LeftOlder(v[j.level + 1], j.in1, e) <==> SplitBehind(v[j.level + 1], j.in1, e))
    ensures SplitsHarmless(v, j, h, floor) <==>
            && (forall y :: y in Entries(j.outs) ==> !LeftOlder(v[j.level], j.in0, y))
            && NothingRestored(v, j.level, j.in0, j.in1, j.outs, h, floor)
  {
    hide LeftOlder, SplitBehind;
  }

  /** With both sets of inputs boundary-closed, no key is split at their edges at all. */
  lemma ClosedInputsAreHarmless(v: Version, j: Job, h: Writes, floor: nat)
    requires |v| == NUM_LEVELS && j.level + 1 < NUM_LEVELS
    requires BoundaryClosed(v[j.level], j.in0) && BoundaryClosed(v[j.level + 1], j.in1)
    ensures SplitsHarmless(v, j, h, floor)
  {
  }

  lemma RestAboveIffNoneOlder(v: Version, level: nat, in0: Level, in1: Level, outs: Level, h: Writes, floor: nat, top: nat)
    requires VersionInv(v, h, floor, top) && level + 1 < NUM_LEVELS
    requires forall f :: f in in0 ==> f in v[level]
    requires forall f :: f in in1 ==> f in v[level + 1]
    requires Entries(outs) <= InputEntries(in0, in1)
    ensures RestAbove(v[level], in0, Entries(outs)) <==> forall y :: y in Entries(outs) ==> !LeftOlder(v[level], in0, y)
  {
    InvariantParts(v, h, floor, top);
    hide VersionInv, Covers, Shape, Recency;
    forall g, x, y | g in v[level] && g !in in0 && x in g.table && y in Entries(outs) ensures x.key.seqno != y.key.seqno {
      LeftIsNotTaken(v, level, in0, in1, g, y);
      OutputOrigin(v, level, in0, in1, y);
      InAllEntries(v, level, g, x);
      assert x == EntryAt(h, x.key.seqno) && y == EntryAt(h, y.key.seqno);
    }
  }

  lemma LeftIsNotTaken(v: Version, level: nat, in0: Level, in1: Level, g: FileMeta, y: Entry)
    requires Shape(v) && Recency(v) && level + 1 < NUM_LEVELS
    requires forall f :: f in in0 ==> f in v[level]
    requires forall f :: f in in1 ==> f in v[level + 1]
    requires g in v[level] && g !in in0 && y in InputEntries(in0, in1)
    ensures y !in g.table
  {
    if y in Entries(in0) {
      var f :| f in in0 && y in f.table;
      FilesShareNothing(v, level, f, g, y);
    } else {
      OutputOrigin(v, level, in0, in1, y);
      LevelsShareNothing(v, level + 1, level, y);
      NotInLevel(v[level], g, y);
    }
  }

  lemma NotInLevel(files: Level, g: FileMeta, y: Entry)
    requires g in files && y !in Entries(files)
    ensures y !in g.table
  {
  }

  /** An older version of an input's key stays behind exactly where the key is split. */
  lemma LeftOlderIsSplit(v: Version, level: nat, in0: Level, in1: Level, h: Writes, floor: nat, top: nat, e: Entry)
    requires VersionInv(v, h, floor, top) && InputsPicked(v, level, in0, in1) && e in InputEntries(in0, in1)
    ensures LeftOlder(v[level], in0, e) <==> SplitBehind(v[level], in0, e)
    ensures LeftOlder(v[level + 1], in1, e) <==> SplitBehind(v[level + 1], in1, e)
  {
    InvariantParts(v, h, floor, top);
    var lo, hi := HullExists(in0);
    assert forall f :: f in in0 ==> f in v[level];
    assert forall f :: f in in1 ==> f in v[level + 1];
    hide VersionInv, Covers, Sound;
    if e in Entries(in0) {
      LevelIsSplit(v, level, in0, in1, h, top, lo, hi, e);
      NotInOtherInputs(v, level, in0, in1, e);
      hide Shape, Recency;
      forall g, x | g in v[level + 1] && g !in in1 && x in g.table ensures x.key.user != e.key.user {
        OutsideHull(v[level + 1], in1, lo, hi, in0, g, x, e);
      }
    } else {
      SoundEntriesDistinct(v, h, top, level + 1);
      LeftOlderIffSplit(v[level + 1], in1, e);
      ParentNotOlder(v, level, in0, in1, e);
    }
  }

  lemma NotInOtherInputs(v: Version, level: nat, in0: Level, in1: Level, e: Entry)
    requires Recency(v) && level + 1 < NUM_LEVELS && e in Entries(in0)
    requires forall f :: f in in0 ==> f in v[level]
    requires forall f :: f in in1 ==> f in v[level + 1]
    ensures e !in Entries(in1)
  {
    assert e in Entries(v[level]);
    LevelsShareNothing(v, level, level + 1, e);
  }

  lemma LevelIsSplit(v: Version, level: nat, in0: Level, in1: Level, h: Writes, top: nat, lo: UserKey, hi: UserKey, e: Entry)
    requires Shape(v) && top <= |h| && Sound(AllEntries(v), h, top)
    requires InputsPicked(v, level, in0, in1) && Hull(in0, lo, hi) && e in Entries(in0)
    ensures LeftOlder(v[level], in0, e) <==> SplitBehind(v[level], in0, e)
  {
    hide NumbersUnique;
    if level > 0 {
      SoundEntriesDistinct(v, h, top, level);
      hide Sound, SeqnosDistinct, LeftOlder, SplitBehind;
      LeftOlderIffSplit(v[level], in0, e);
    } else {
      hide LevelOrdered, Sound;
      forall g, x | g in v[0] && g !in in0 && x in g.table ensures x.key.user != e.key.user {
        OutsideHull(v[0], in0, lo, hi, in0, g, x, e);
      }
      forall g | g in v[0] && g !in in0 ensures g.smallest.user != e.key.user {
        FileEnds(g);
      }
    }
  }

  /** A file with a single put. */
  function OnePut(number: nat, user: UserKey, seqno: nat, value: Value): (f: FileMeta)
    ensures FileOk(f)
    ensures forall e :: e in f.table <==> e == Entry(InternalKey(user, seqno, TypeValue), value)
  {
    var k := InternalKey(user, seqno, TypeValue);
    FileMeta(number, 100, k, k, [Entry(k, value)])
  }

  ghost predicate EmptyElsewhere(v: Version, l: nat) {
    |v| == NUM_LEVELS && l < NUM_LEVELS && forall k :: 0 <= k < NUM_LEVELS && k != l ==> v[k] == []
  }

  /** A version with all its files in one level >= 1. */
  lemma OneLevelInv(v: Version, l: nat, h: Writes)
    requires 1 <= l && EmptyElsewhere(v, l)
    requires forall f :: f in v[l] ==> FileOk(f)
    requires FilesSorted(v[l]) && LevelOrdered(v[l]) && NumbersDistinct(v[l])
    requires Sound(Entries(v[l]), h, |h|)
    requires forall i :: 1 <= i <= |h| ==> EntryAt(h, i) in Entries(v[l])
    ensures VersionInv(v, h, 0, |h|)
  {
    OneLevelShape(v, l);
    OneLevelRecency(v, l);
    OneLevelEntries(v, l);
    hide Shape, Recency;
  }

  lemma OneLevelShape(v: Version, l: nat)
    requires 1 <= l && EmptyElsewhere(v, l)
    requires forall f :: f in v[l] ==> FileOk(f)
    requires FilesSorted(v[l]) && LevelOrdered(v[l]) && NumbersDistinct(v[l])
    ensures Shape(v)
  {
    hide FileOk;
    forall k, f | 0 <= k < NUM_LEVELS && f in v[k] ensures k == l {
    }
  }

  lemma OneLevelRecency(v: Version, l: nat)
    requires 1 <= l && EmptyElsewhere(v, l)
    ensures Recency(v)
  {
    forall i, j | 0 <= i < j < NUM_LEVELS ensures Above(Entries(v[i]), Entries(v[j])) {
      assert v[i] == [] || v[j] == [];
    }
  }

  lemma OneLevelEntries(v: Version, l: nat)
    requires EmptyElsewhere(v, l)
    ensures AllEntries(v) == Entries(v[l])
  {
  }

  const OLD_VALUE: Value := [1]
  const NEW_VALUE: Value := [2]

  /** Two writes of one key, its versions split across two files of level 1. */
  const TWO_WRITES: Writes := [Op(7, TypeValue, OLD_VALUE), Op(7, TypeValue, NEW_VALUE)]
  const NEWER_PART: FileMeta := OnePut(5, 7, 2, NEW_VALUE)
  const OLDER_PART: FileMeta := OnePut(6, 7, 1, OLD_VALUE)
  const SPLIT: Version := [[], [NEWER_PART, OLDER_PART], [], [], [], [], []]
  const SPLIT_MOVED: Version := [[], [OLDER_PART], [NEWER_PART], [], [], [], []]

  lemma SplitIsSound()
    ensures VersionInv(SPLIT, TWO_WRITES, 0, 2)
  {
    var files := [NEWER_PART, OLDER_PART];
    assert NEWER_PART in files && OLDER_PART in files;
    assert EntryAt(TWO_WRITES, 2) in NEWER_PART.table && EntryAt(TWO_WRITES, 1) in OLDER_PART.table;
    OneLevelInv(SPLIT, 1, TWO_WRITES);
  }

  lemma SplitIsPicked()
    ensures InputsPicked(SPLIT, 1, [NEWER_PART], []) && !BoundaryClosed(SPLIT[1], [NEWER_PART])
  {
    assert NEWER_PART in [NEWER_PART] && NEWER_PART in SPLIT[1] && OLDER_PART in SPLIT[1];
    assert OLDER_PART !in [NEWER_PART];
  }

  /** The picking rules alone allow this move, and after it a reader stops at the older version. */
  lemma UnguardedMoveHidesNewestWrite()
    ensures VersionInv(SPLIT, TWO_WRITES, 0, 2)
    ensures InputsPicked(SPLIT, 1, [NEWER_PART], []) && !BoundaryClosed(SPLIT[1], [NEWER_PART])
    ensures Installs(SPLIT, SPLIT_MOVED, 1, [NEWER_PART], [], [NEWER_PART])
    ensures NoneVisible(Entries(SPLIT_MOVED[0]), 7, 2)
    ensures exists stale :: IsNewest(Entries(SPLIT_MOVED[1]), 7, 2, stale) && ValueOf(Some(stale)) != Read(TWO_WRITES, 7, 2)
  {
    SplitIsSound();
    SplitIsPicked();
    MoveIsInstalled();
    hide VersionInv, InputsPicked, BoundaryClosed, Installs;
    var stale := Entry(InternalKey(7, 1, TypeValue), OLD_VALUE);
    assert OLDER_PART in SPLIT_MOVED[1] && stale in OLDER_PART.table;
    assert IsNewest(Entries(SPLIT_MOVED[1]), 7, 2, stale);
  }

  lemma MoveIsInstalled()
    ensures Installs(SPLIT, SPLIT_MOVED, 1, [NEWER_PART], [], [NEWER_PART])
  {
    assert forall f :: f in SPLIT[1] <==> f == NEWER_PART || f == OLDER_PART;
  }

  // ---------- a deletion dropped, and what it hid left behind ----------

  /** A key is written and deleted, and its versions are split across two files of level 1. Merging the
      newer file alone drops the deletion: nothing lies deeper. */
  const DELETED: Writes := [Op(7, TypeValue, OLD_VALUE), Op(7, TypeDeletion, [])]
  const TOMBSTONE: Entry := Entry(InternalKey(7, 2, TypeDeletion), [])
  const TOMB: FileMeta := FileMeta(5, 100, TOMBSTONE.key, TOMBSTONE.key, [TOMBSTONE])
  const BURIED: Version := [[], [TOMB, OLDER_PART], [], [], [], [], []]
  const UNBURIED: Version := [[], [OLDER_PART], [], [], [], [], []]
  const TOMB_JOB: Job := Job(true, 1, [TOMB], [], [TOMBSTONE], 2, BURIED, [])

  lemma BuriedIsSound()
    ensures VersionInv(BURIED, DELETED, 0, 2)
  {
    var files := [TOMB, OLDER_PART];
    assert TOMB in files && OLDER_PART in files;
    assert TOMBSTONE in TOMB.table && EntryAt(DELETED, 1) in OLDER_PART.table;
    assert EntryAt(DELETED, 2) == TOMBSTONE;
    OneLevelInv(BURIED, 1, DELETED);
  }

  lemma TombIsMerged()
    ensures Finished(BURIED, TOMB_JOB) && !BoundaryClosed(BURIED[1], TOMB_JOB.in0)
    ensures Installs(BURIED, UNBURIED, 1, TOMB_JOB.in0, TOMB_JOB.in1, TOMB_JOB.outs)
  {
    assert TOMB in [TOMB] && TOMB in BURIED[1] && OLDER_PART in BURIED[1] && OLDER_PART !in [TOMB];
    assert forall f :: f in BURIED[1] <==> f == TOMB || f == OLDER_PART;
    assert EntriesOf([TOMBSTONE]) == InputEntries([TOMB], []);
    assert Dropped([TOMBSTONE], 0, 2, BURIED, 1);
    assert Kept([TOMBSTONE], 1, 2, BURIED, 1) == Kept([TOMBSTONE], 0, 2, BURIED, 1);
  }

  /** The picking and drop rules alone allow this compaction: levels and recency are in order afterwards,
      and yet the deleted value is back. */
  lemma UnguardedMergeRestoresDeleted()
    ensures VersionInv(BURIED, DELETED, 0, 2) && Finished(BURIED, TOMB_JOB)
    ensures !BoundaryClosed(BURIED[1], TOMB_JOB.in0) && BoundaryClosed(BURIED[2], TOMB_JOB.in1)
    ensures Installs(BURIED, UNBURIED, 1, TOMB_JOB.in0, TOMB_JOB.in1, TOMB_JOB.outs) && Recency(UNBURIED)
    ensures exists stale :: IsNewest(AllEntries(UNBURIED), 7, 2, stale) && ValueOf(Some(stale)) == Some(OLD_VALUE)
    ensures Read(DELETED, 7, 2) == None
  {
    hide *;
    BuriedIsSound();
    TombIsMerged();
    NothingPicked();
    TombReturns();
  }

  lemma TombReturns()
    ensures Recency(UNBURIED) && Read(DELETED, 7, 2) == None
    ensures exists stale :: IsNewest(AllEntries(UNBURIED), 7, 2, stale) && ValueOf(Some(stale)) == Some(OLD_VALUE)
  {
    OneLevelRecency(UNBURIED, 1);
    OneLevelEntries(UNBURIED, 1);
    hide Recency;
    OneFileLookup(UNBURIED, 1, OLDER_PART, 2);
  }

  lemma NothingPicked()
    ensures BoundaryClosed(BURIED[2], TOMB_JOB.in1)
  {
  }

  /** A lookup that only one entry answers. */
  lemma OneFileLookup(v: Version, l: nat, f: FileMeta, s: nat)
    requires l < |v| && f in v[l] && |f.table| == 1 && f.table[0].key.seqno <= s
    requires forall x :: x in AllEntries(v) && x.key.user == f.table[0].key.user ==> x == f.table[0]
    ensures IsNewest(AllEntries(v), f.table[0].key.user, s, f.table[0])
  {
    assert f.table[0] in f.table;
    InAllEntries(v, l, f, f.table[0]);
  }

  /** The same at the parent level, where the key is split across two files of level 2 and the inputs of
      level 1 are closed. */
  const FOUR: Writes := [Op(7, TypeValue, OLD_VALUE), Op(5, TypeValue, OLD_VALUE), Op(7, TypeDeletion, []), Op(5, TypeValue, NEW_VALUE)]
  const FIVE_OLD: Entry := Entry(InternalKey(5, 2, TypeValue), OLD_VALUE)
  const SEVEN_GONE: Entry := Entry(InternalKey(7, 3, TypeDeletion), [])
  const FIVE_NEW: Entry := Entry(InternalKey(5, 4, TypeValue), NEW_VALUE)
  const CHILD: FileMeta := OnePut(9, 5, 4, NEW_VALUE)
  const PARENT: FileMeta := FileMeta(7, 200, FIVE_OLD.key, SEVEN_GONE.key, [FIVE_OLD, SEVEN_GONE])
  const SPLIT_PARENT: Version := [[], [CHILD], [PARENT, OLDER_PART], [], [], [], []]
  const MERGED: FileMeta := OnePut(10, 5, 4, NEW_VALUE)
  const MERGED_PARENT: Version := [[], [], [MERGED, OLDER_PART], [], [], [], []]
  const PARENT_JOB: Job := Job(true, 1, [CHILD], [PARENT], [FIVE_NEW, FIVE_OLD, SEVEN_GONE], 4, SPLIT_PARENT, [MERGED])

  lemma SplitParentIsSound()
    ensures VersionInv(SPLIT_PARENT, FOUR, 0, 4)
  {
    hide VersionInv;
    var below: Version := [[], [], [PARENT, OLDER_PART], [], [], [], []];
    BelowIsSound(below);
    FlushOne(below, SPLIT_PARENT, FOUR, 1, CHILD, 4);
  }

  const THREE: Writes := [Op(7, TypeValue, OLD_VALUE), Op(5, TypeValue, OLD_VALUE), Op(7, TypeDeletion, [])]

  lemma BelowIsSound(below: Version)
    requires below == [[], [], [PARENT, OLDER_PART], [], [], [], []]
    ensures VersionInv(below, FOUR, 0, 3)
  {
    ParentLevelFiles();
    ParentLevelEntries();
    hide VersionInv, FileOk, LevelOrdered, FilesSorted, Sound;
    OneLevelInv(below, 2, THREE);
    assert THREE + [FOUR[3]] == FOUR;
    InvariantIsMonotone(below, THREE, [FOUR[3]], 0, 0, 3);
  }

  lemma ParentLevelFiles()
    ensures var files := [PARENT, OLDER_PART];
            (forall f :: f in files ==> FileOk(f)) && FilesSorted(files) && LevelOrdered(files) && NumbersDistinct(files)
  {
    assert PARENT.table[0] == FIVE_OLD && PARENT.table[1] == SEVEN_GONE;
  }

  lemma ParentLevelEntries()
    ensures Sound(Entries([PARENT, OLDER_PART]), THREE, 3)
    ensures forall i :: 1 <= i <= 3 ==> EntryAt(THREE, i) in Entries([PARENT, OLDER_PART])
  {
    var files := [PARENT, OLDER_PART];
    assert PARENT in files && OLDER_PART in files;
    assert PARENT.table[0] == FIVE_OLD && PARENT.table[1] == SEVEN_GONE;
    assert EntryAt(THREE, 3) == SEVEN_GONE && EntryAt(THREE, 2) == FIVE_OLD && EntryAt(THREE, 1) in OLDER_PART.table;
    assert SEVEN_GONE in PARENT.table && FIVE_OLD in PARENT.table;
  }

  lemma ParentIsPicked()
    ensures InputsPicked(SPLIT_PARENT, 1, [CHILD], [PARENT])
    ensures BoundaryClosed(SPLIT_PARENT[1], PARENT_JOB.in0) && !BoundaryClosed(SPLIT_PARENT[2], PARENT_JOB.in1)
  {
    assert CHILD in [CHILD] && CHILD in SPLIT_PARENT[1] && PARENT in [PARENT] && PARENT in SPLIT_PARENT[2];
    assert OLDER_PART in SPLIT_PARENT[2] && OLDER_PART !in [PARENT];
    assert forall f :: f in SPLIT_PARENT[2] <==> f == PARENT || f == OLDER_PART;
    assert forall f :: f in SPLIT_PARENT[1] <==> f == CHILD;
  }

  lemma ParentKept()
    ensures Kept([FIVE_NEW, FIVE_OLD, SEVEN_GONE], 3, 4, SPLIT_PARENT, 1) == [FIVE_NEW]
  {
    var t := [FIVE_NEW, FIVE_OLD, SEVEN_GONE];
    assert !Dropped(t, 0, 4, SPLIT_PARENT, 1) && Dropped(t, 1, 4, SPLIT_PARENT, 1) && Dropped(t, 2, 4, SPLIT_PARENT, 1);
    assert Kept(t, 0, 4, SPLIT_PARENT, 1) == [];
    assert Kept(t, 1, 4, SPLIT_PARENT, 1) == [FIVE_NEW];
    assert Kept(t, 2, 4, SPLIT_PARENT, 1) == [FIVE_NEW];
  }

  lemma FileEntries(f: FileMeta)
    ensures Entries([f]) == EntriesOf(f.table)
  {
    assert f in [f];
  }

  lemma ParentMerges()
    ensures IsMerge([FIVE_NEW, FIVE_OLD, SEVEN_GONE], [CHILD], [PARENT])
  {
    FileEntries(CHILD);
    FileEntries(PARENT);
    assert EntriesOf([FIVE_NEW, FIVE_OLD, SEVEN_GONE]) == EntriesOf([FIVE_NEW]) + EntriesOf([FIVE_OLD, SEVEN_GONE]);
  }

  /** The only version of key 7 left is the one that had been deleted. */
  lemma SevenIsBack()
    ensures forall x :: x in AllEntries(MERGED_PARENT) && x.key.user == 7 ==> x == OLDER_PART.table[0]
  {
    OneLevelEntries(MERGED_PARENT, 2);
    assert forall f :: f in MERGED_PARENT[2] <==> f == MERGED || f == OLDER_PART;
  }

  lemma ParentIsMerged()
    ensures Finished(SPLIT_PARENT, PARENT_JOB)
    ensures Installs(SPLIT_PARENT, MERGED_PARENT, 1, PARENT_JOB.in0, PARENT_JOB.in1, PARENT_JOB.outs)
  {
    ParentIsPicked();
    ParentKept();
    ParentMerges();
    hide InputsPicked, BoundaryClosed, Kept, IsMerge;
    assert ConcatTables([]) == [] && [MERGED][..0] == [];
    assert ConcatTables([MERGED]) == [FIVE_NEW];
    assert forall f :: f in SPLIT_PARENT[2] <==> f == PARENT || f == OLDER_PART;
    assert forall f :: f in SPLIT_PARENT[1] <==> f == CHILD;
  }

  /** Closing the inputs of the compacted level is not enough. */
  lemma UnguardedParentRestoresDeleted()
    ensures VersionInv(SPLIT_PARENT, FOUR, 0, 4) && Finished(SPLIT_PARENT, PARENT_JOB)
    ensures BoundaryClosed(SPLIT_PARENT[1], PARENT_JOB.in0) && !BoundaryClosed(SPLIT_PARENT[2], PARENT_JOB.in1)
    ensures Installs(SPLIT_PARENT, MERGED_PARENT, 1, PARENT_JOB.in0, PARENT_JOB.in1, PARENT_JOB.outs) && Recency(MERGED_PARENT)
    ensures exists stale :: IsNewest(AllEntries(MERGED_PARENT), 7, 4, stale) && ValueOf(Some(stale)) == Some(OLD_VALUE)
    ensures Read(FOUR, 7, 4) == None
  {
    hide *;
    SplitParentIsSound();
    ParentIsPicked();
    ParentIsMerged();
    SevenIsDeleted();
    SevenReturns();
  }

  lemma SevenIsDeleted()
    ensures Read(FOUR, 7, 4) == None
  {
    assert Latest(FOUR, 7, 3) == 3;
  }

  lemma SevenReturns()
    ensures Recency(MERGED_PARENT)
    ensures exists stale :: IsNewest(AllEntries(MERGED_PARENT), 7, 4, stale) && ValueOf(Some(stale)) == Some(OLD_VALUE)
  {
    OneLevelRecency(MERGED_PARENT, 2);
    SevenIsBack();
    hide Recency, AllEntries;
    OneFileLookup(MERGED_PARENT, 2, OLDER_PART, 4);
  }

  // ---------- a flush in the middle of a compaction ----------

  /** The output files hold the merge result, cut anywhere. */
  ghost predicate IsCut(outs: Level, result: Table) {
    ConcatTables(outs) == result && forall o :: o in outs ==> FileOk(o)
  }

  /** A level after files of it gave way to outputs. */
  ghost predicate LevelAfter(files: Level, picked: Level, outs: Level, files': Level) {
    FilesSorted(files') && forall g :: g in files' <==> (g in files && g !in picked) || g in outs
  }

  /** A file flushed into the output level of a running compaction: the level will be in order however
      the outputs are cut, if and only if the file lies to one side of the whole merge result, which is
      settled by the time of the flush. */
  lemma InstallAfterFlushOrderedIff(v: Version, j: Job, f: FileMeta)
    requires Shape(v) && |j.base| == NUM_LEVELS && j.level + 1 < NUM_LEVELS && IsMerge(j.input, j.in0, j.in1)
    requires f in v[j.level + 1] && f !in j.in1
    requires forall g :: g in v[j.level + 1] && g !in j.in1 && g != f ==> Apart(g, EntriesOf(JobOutput(j)))
    ensures Apart(f, EntriesOf(JobOutput(j))) <==>
            forall outs, files' :: IsCut(outs, JobOutput(j)) && LevelAfter(v[j.level + 1], j.in1, outs, files') ==> LevelOrdered(files')
  {
    hide NumbersUnique, IsMerge, IsCut, LevelAfter, JobOutput, Apart, LevelOrdered, FileOk, FilesSorted;
    var files, result := v[j.level + 1], JobOutput(j);
    JobOutputSorted(j);
    LevelParts(v, j.level + 1);
    if Apart(f, EntriesOf(result)) {
      forall outs, files' | IsCut(outs, result) && LevelAfter(files, j.in1, outs, files') ensures LevelOrdered(files') {
        CutIsOrdered(files, j.in1, outs, files', result);
      }
    }
    if (forall outs, files' :: IsCut(outs, result) && LevelAfter(files, j.in1, outs, files') ==> LevelOrdered(files')) && result != [] {
      var outs, files' := OneOutput(files, j.in1, result);
      OrderedMeansApart(files, j.in1, outs, files', result, f);
    }
    if result == [] {
      NothingApart(f, result);
    }
  }

  lemma NothingApart(f: FileMeta, t: Table)
    requires t == []
    ensures Apart(f, EntriesOf(t))
  {
  }

  lemma LevelParts(v: Version, l: nat)
    requires Shape(v) && 1 <= l < NUM_LEVELS
    ensures FilesSorted(v[l]) && PairwiseSeparated(v[l]) && forall g :: g in v[l] ==> FileOk(g)
  {
    OrderedIffSeparated(v[l]);
  }

  lemma CutIsOrdered(files: Level, picked: Level, outs: Level, files': Level, result: Table)
    requires PairwiseSeparated(files) && Sorted(result) && forall g :: g in files ==> FileOk(g)
    requires IsCut(outs, result) && LevelAfter(files, picked, outs, files')
    requires forall g :: g in files && g !in picked ==> Apart(g, EntriesOf(result))
    ensures LevelOrdered(files')
  {
    ConcatSeparates(outs);
    forall x ensures x in Entries(outs) <==> x in result {
      ConcatMembers(outs, x);
    }
    forall g, o | g in files && g !in picked && o in outs ensures Separated(g, o) {
      OutputApart(g, o, EntriesOf(result), outs);
    }
    InstalledLevelSeparated(files, picked, outs, files');
    hide PairwiseSeparated;
    OrderedIffSeparated(files');
  }

  /** All in one output file. */
  lemma OneOutput(files: Level, picked: Level, result: Table) returns (outs: Level, files': Level)
    requires FilesSorted(files) && Sorted(result) && result != []
    ensures IsCut(outs, result) && LevelAfter(files, picked, outs, files')
    ensures |outs| == 1 && outs[0].table == result && outs[0] !in files
  {
    var n := UnusedNumber(files);
    var o := MetaOf(n, 0, result);
    outs := [o];
    assert outs[..0] == [] && ConcatTables([]) == [] && ConcatTables(outs) == [] + result;
    var rest := Rest(files, picked);
    RestMembers(files, picked);
    InsertFileSorted(rest, o);
    files' := InsertFile(rest, o);
    forall g ensures g in files' <==> (g in files && g !in picked) || g in outs {
      InsertFileMembers(rest, o, g);
    }
  }

  lemma {:induction false} UnusedNumber(files: Level) returns (n: nat)
    ensures forall g :: g in files ==> g.number < n
  {
    n := 0;
    if files != [] {
      var m := UnusedNumber(files[1..]);
      n := if files[0].number < m then m else files[0].number + 1;
      assert files == [files[0]] + files[1..];
    }
  }

  function Rest(files: Level, picked: Level): Level {
    if files == [] then []
    else if files[0] in picked then Rest(files[1..], picked) else [files[0]] + Rest(files[1..], picked)
  }

  lemma {:induction false} RestMembers(files: Level, picked: Level)
    requires FilesSorted(files)
    ensures forall g :: g in Rest(files, picked) <==> g in files && g !in picked
    ensures FilesSorted(Rest(files, picked))
  {
    if files != [] {
      RestMembers(files[1..], picked);
      var r := Rest(files[1..], picked);
      forall i | 0 <= i < |r| ensures FileLess(files[0], r[i]) {
        assert r[i] in r;
        var k :| 0 <= k < |files[1..]| && files[1..][k] == r[i];
        assert FileLess(files[0], files[k + 1]);
      }
    }
  }

  lemma OrderedMeansApart(files: Level, picked: Level, outs: Level, files': Level, result: Table, f: FileMeta)
    requires (forall g :: g in files ==> FileOk(g)) && Sorted(result) && result != []
    requires IsCut(outs, result) && LevelAfter(files, picked, outs, files') && LevelOrdered(files')
    requires |outs| == 1 && outs[0].table == result && f in files && f !in picked && f !in outs
    ensures Apart(f, EntriesOf(result))
  {
    var o := outs[0];
    assert o in outs && o in files' && f in files';
    OrderedIffSeparated(files');
    assert Separated(f, o);
    forall x | x in EntriesOf(result) ensures Between(x, o.smallest, o.largest) {
      FileRange(o, x);
    }
  }

  /** Two level-0 files with a gap between them are being compacted into level 1; a flush whose only
      key lies in the gap is kept out of level 2 by an older file there, and lands in level 1. */
  const FOUR_WRITES: Writes := [
    Op(2, TypeValue, OLD_VALUE), Op(1, TypeValue, OLD_VALUE), Op(3, TypeValue, OLD_VALUE), Op(2, TypeValue, NEW_VALUE)]
  const DEEP: FileMeta := OnePut(4, 2, 1, OLD_VALUE)
  const LEFT: FileMeta := OnePut(5, 1, 2, OLD_VALUE)
  const RIGHT: FileMeta := OnePut(6, 3, 3, OLD_VALUE)
  const FLUSHED: FileMeta := OnePut(7, 2, 4, NEW_VALUE)
  const OUTPUT: FileMeta := FileMeta(8, 200, LEFT.smallest, RIGHT.largest, [LEFT.table[0], RIGHT.table[0]])

  const RUNNING: Version := [[LEFT, RIGHT], [], [DEEP], [], [], [], []]
  const FLUSHED_INTO_GAP: Version := [[LEFT, RIGHT], [FLUSHED], [DEEP], [], [], [], []]
  const INSTALLED: Version := [[], [OUTPUT, FLUSHED], [DEEP], [], [], [], []]

  ghost predicate Appended(v: Version, v': Version, p: nat, f: FileMeta) {
    && |v| == |v'| == NUM_LEVELS && p < NUM_LEVELS
    && v'[p] == v[p] + [f]
    && forall k :: 0 <= k < NUM_LEVELS && k != p ==> v'[k] == v[k]
  }

  /** Appending the largest file to a level is adding it. */
  lemma AppendAdds(v: Version, v': Version, p: nat, f: FileMeta)
    requires Appended(v, v', p, f) && forall l :: 0 <= l < NUM_LEVELS ==> FilesSorted(v[l])
    requires forall g :: g in v[p] ==> FileLess(g, f)
    ensures AddsFile(v, v', p, f)
  {
    hide FileLess;
    assert FilesSorted(v'[p]);
  }

  /** Every state of the scenario but the last is one the engine's own rules produce. */
  lemma ScenarioIsSound()
    ensures VersionInv(RUNNING, FOUR_WRITES, 0, 3)
    ensures VersionInv(FLUSHED_INTO_GAP, FOUR_WRITES, 0, 4)
    ensures PlacementOk(RUNNING, 1, FLUSHED) && AddsFile(RUNNING, FLUSHED_INTO_GAP, 1, FLUSHED)
  {
    hide VersionInv, AddsFile, FileOk;
    var v0: Version := [[], [], [DEEP], [], [], [], []];
    var v1: Version := [[LEFT], [], [DEEP], [], [], [], []];
    DeepIsSound(v0);
    FlushOne(v0, v1, FOUR_WRITES, 0, LEFT, 2);
    FlushOne(v1, RUNNING, FOUR_WRITES, 0, RIGHT, 3);
    FlushOne(RUNNING, FLUSHED_INTO_GAP, FOUR_WRITES, 1, FLUSHED, 4);
  }

  lemma DeepIsSound(v: Version)
    requires v == [[], [], [DEEP], [], [], [], []]
    ensures VersionInv(v, FOUR_WRITES, 0, 1)
  {
    hide VersionInv;
    var h: Writes := [FOUR_WRITES[0]];
    assert DEEP in v[2] && EntryAt(h, 1) in DEEP.table;
    OneLevelInv(v, 2, h);
    assert h + FOUR_WRITES[1..] == FOUR_WRITES;
    InvariantIsMonotone(v, h, FOUR_WRITES[1..], 0, 0, 1);
  }

  /** Flushing a file that holds just the next write. */
  lemma FlushOne(v: Version, v': Version, h: Writes, p: nat, f: FileMeta, newTop: nat)
    requires 1 <= newTop <= |h| && VersionInv(v, h, 0, newTop - 1)
    requires Appended(v, v', p, f)
    requires FileOk(f) && forall e :: e in f.table <==> e == EntryAt(h, newTop)
    requires PlacementOk(v, p, f) && NewerThanAll(f.number, v)
    requires forall g :: g in v[p] ==> FileLess(g, f)
    ensures VersionInv(v', h, 0, newTop)
    ensures AddsFile(v, v', p, f)
  {
    hide VersionInv, PlacementOk, AddsFile, FileLess, Recency, Sound, Covers;
    InvariantParts(v, h, 0, newTop - 1);
    AppendAdds(v, v', p, f);
    FlushKeepsInvariant(v, v', p, f, h, 0, newTop - 1, newTop);
  }

  /** The flush obeys the placement rule, the compaction obeys the picking rules, and yet the
      output level is out of order and the one file a reader probes there misses the newest write. */
  lemma UnguardedFlushIsLost()
    ensures VersionInv(RUNNING, FOUR_WRITES, 0, 3) && InputsPicked(RUNNING, 0, [LEFT, RIGHT], [])
    ensures PlacementOk(RUNNING, 1, FLUSHED) && !PlacementOk(RUNNING, 2, FLUSHED)
    ensures AddsFile(RUNNING, FLUSHED_INTO_GAP, 1, FLUSHED) && VersionInv(FLUSHED_INTO_GAP, FOUR_WRITES, 0, 4)
    ensures !Apart(FLUSHED, InputEntries([LEFT, RIGHT], [])) && !NoGap(RUNNING, 0, [LEFT, RIGHT], [])
    ensures Installs(FLUSHED_INTO_GAP, INSTALLED, 0, [LEFT, RIGHT], [], [OUTPUT])
    ensures !LevelOrdered(INSTALLED[1])
    ensures !Less(INSTALLED[1][0].largest, LookupKey(2, 4)) && Find(INSTALLED[1][0].table, 2, 4) == None
    ensures Read(FOUR_WRITES, 2, 4) == Some(NEW_VALUE)
  {
    ScenarioIsSound();
    GapInputs();
    GapInstalls();
    hide VersionInv, Installs, AddsFile, InputsPicked, NoGap, Apart;
    assert DEEP in RUNNING[2] && !UserDisjoint(FLUSHED, DEEP);
    assert OUTPUT.table[1..] == [RIGHT.table[0]];
    assert !Less(INSTALLED[1][0].largest, INSTALLED[1][1].smallest);
  }

  lemma GapInputs()
    ensures InputsPicked(RUNNING, 0, [LEFT, RIGHT], [])
    ensures !Apart(FLUSHED, InputEntries([LEFT, RIGHT], [])) && !NoGap(RUNNING, 0, [LEFT, RIGHT], [])
  {
    assert LEFT in [LEFT, RIGHT] && RIGHT in [LEFT, RIGHT];
    assert LEFT in [LEFT, RIGHT] + [] && RIGHT in [LEFT, RIGHT] + [];
    assert ClearOf(RUNNING[0], FLUSHED) && ClearOf(RUNNING[1], FLUSHED);
    assert LEFT.table[0] in LEFT.table && RIGHT.table[0] in RIGHT.table;
    assert LEFT.table[0] in InputEntries([LEFT, RIGHT], []) && RIGHT.table[0] in InputEntries([LEFT, RIGHT], []);
  }

  lemma GapInstalls()
    ensures Installs(FLUSHED_INTO_GAP, INSTALLED, 0, [LEFT, RIGHT], [], [OUTPUT])
  {
    assert forall f :: f in FLUSHED_INTO_GAP[0] <==> f == LEFT || f == RIGHT;
  }
}
