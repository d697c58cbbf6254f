/** The manifest as a list of edits: what recovery reads from it, the snapshot that starts a new
    one, and why folding it once gives the version installed step by step (db/version_set.cc). */
module Manifest {
  import opened InternalKeys
  import opened Versions
  import opened VersionBuilder
  import opened VersionInvariant

  function LogNumberOf(m: seq<VersionEdit>): nat {
    if m == [] then 0
    else if m[|m| - 1].logNumber.Some? then m[|m| - 1].logNumber.value
    else LogNumberOf(m[..|m| - 1])
  }

  function NextFileOf(m: seq<VersionEdit>): nat {
    if m == [] then 0
    else if m[|m| - 1].nextFile.Some? then m[|m| - 1].nextFile.value
    else NextFileOf(m[..|m| - 1])
  }

  function LastSequenceOf(m: seq<VersionEdit>): nat {
    if m == [] then 0
    else if m[|m| - 1].lastSequence.Some? then m[|m| - 1].lastSequence.value
    else LastSequenceOf(m[..|m| - 1])
  }

  lemma AppendReads(m: seq<VersionEdit>, edit: VersionEdit)
    requires edit.logNumber.Some? && edit.nextFile.Some? && edit.lastSequence.Some?
    ensures LogNumberOf(m + [edit]) == edit.logNumber.value
    ensures NextFileOf(m + [edit]) == edit.nextFile.value
    ensures LastSequenceOf(m + [edit]) == edit.lastSequence.value
  {
  }

  /** Bookkeeping that makes replay safe: numbers handed to a level stay below the next file
      number, and a file is never found above a level it has been at. */
  ghost predicate SeenOk(m: seq<VersionEdit>, v: Version, nextFile: nat)
    requires |v| == NUM_LEVELS
  {
    && (forall l :: 0 <= l < NUM_LEVELS ==> FilesSorted(ReplayState(m)[l].added))
    && (forall l, f :: 0 <= l < NUM_LEVELS && f in ReplayState(m)[l].added ==> f.number < nextFile)
    && (forall l, f, k, g :: 0 <= l < NUM_LEVELS && 0 <= k < NUM_LEVELS && f in ReplayState(m)[l].added && g in v[k] && g.number == f.number ==> l <= k)
  }

  /** No edit of the manifest has ever added this file number. */
  ghost predicate Unseen(m: seq<VersionEdit>, number: nat) {
    forall l, f :: 0 <= l < NUM_LEVELS && f in ReplayState(m)[l].added ==> f.number != number
  }

  /** The edit adds files with new numbers, or moves a file down one level. */
  ghost predicate AddsNewOrMoved(m: seq<VersionEdit>, v: Version, edit: VersionEdit)
    requires |v| == NUM_LEVELS
  {
    && (forall l :: 0 <= l < NUM_LEVELS ==> DistinctAdds(edit.added, l))
    && (forall l, g :: (l, g) in edit.added ==> l < NUM_LEVELS && (Unseen(m, g.number) || (l > 0 && g in v[l - 1])))
  }

  lemma AddsAreFresh(m: seq<VersionEdit>, v: Version, edit: VersionEdit, nextFile: nat, l: nat)
    requires |v| == NUM_LEVELS && SeenOk(m, v, nextFile) && AddsNewOrMoved(m, v, edit) && l < NUM_LEVELS
    ensures FreshAdds(ReplayState(m)[l].added, edit, l)
  {
  }

  /** Appending an edit to the manifest and installing it stay in step. */
  lemma AppendInStep(m: seq<VersionEdit>, v: Version, edit: VersionEdit, nextFile: nat, nextFile': nat)
    requires ReplayVersion(m) == v
    requires SeenOk(m, v, nextFile) && AddsNewOrMoved(m, v, edit)
    requires NumbersUnique(NextVersion(v, edit))
    requires nextFile <= nextFile' && forall l, g :: (l, g) in edit.added ==> g.number < nextFile'
    requires forall l, g :: (l, g) in edit.added ==> g in NextVersion(v, edit)[l]
    ensures ReplayVersion(m + [edit]) == NextVersion(v, edit)
    ensures SeenOk(m + [edit], NextVersion(v, edit), nextFile')
    ensures forall n :: Unseen(m, n) && (forall l, g :: (l, g) in edit.added ==> g.number != n) ==> Unseen(m + [edit], n)
  {
    forall l | 0 <= l < NUM_LEVELS ensures FreshAdds(ReplayState(m)[l].added, edit, l) {
      AddsAreFresh(m, v, edit, nextFile, l);
    }
    ReplayStep(m, edit);
    var v' := NextVersion(v, edit);
    forall l, f: FileMeta, k, g: FileMeta | 0 <= l < NUM_LEVELS && 0 <= k < NUM_LEVELS && f in ReplayState(m + [edit])[l].added && g in v'[k] && g.number == f.number
      ensures l <= k
    {
      NextVersionMembers(v, edit, k, g);
      if (l, f) in edit.added {
        assert f in v'[l];
      }
    }
  }

  /** A replayed version holds only files the manifest has added. */
  lemma ReplayedIsSeen(m: seq<VersionEdit>, l: nat, f: FileMeta)
    requires l < NUM_LEVELS && f in ReplayVersion(m)[l]
    ensures f in ReplayState(m)[l].added
  {
    SaveLevelMembers([], ReplayState(m)[l], f);
  }

  // ---------- the snapshot that starts a manifest ----------

  function LevelAdds(files: Level, l: nat): seq<(nat, FileMeta)> {
    if files == [] then [] else LevelAdds(files[..|files| - 1], l) + [(l, files[|files| - 1])]
  }

  function SnapshotAdds(v: Version, n: nat): seq<(nat, FileMeta)>
    requires n <= |v|
  {
    if n == 0 then [] else SnapshotAdds(v, n - 1) + LevelAdds(v[n - 1], n - 1)
  }

  /** WriteSnapshot: all files of the version, and nothing else that recovery reads. */
  function SnapshotEdit(v: Version): VersionEdit
    requires |v| == NUM_LEVELS
  {
    VersionEdit(None, None, None, {}, SnapshotAdds(v, NUM_LEVELS))
  }

  lemma {:induction false} LevelAddsAre(files: Level, l: nat)
    ensures |LevelAdds(files, l)| == |files|
    ensures forall i :: 0 <= i < |files| ==> LevelAdds(files, l)[i] == (l, files[i])
  {
    if files != [] {
      LevelAddsAre(files[..|files| - 1], l);
    }
  }

  lemma {:induction false} SnapshotAddsMembers(v: Version, n: nat, l: nat, f: FileMeta)
    requires n <= |v|
    ensures (l, f) in SnapshotAdds(v, n) <==> l < n && f in v[l]
  {
    if n > 0 {
      SnapshotAddsMembers(v, n - 1, l, f);
      LevelAddsAre(v[n - 1], n - 1);
      var adds := LevelAdds(v[n - 1], n - 1);
      if l == n - 1 && f in v[l] {
        var i :| 0 <= i < |v[l]| && v[l][i] == f;
        assert adds[i] == (l, f);
      }
      assert SnapshotAdds(v, n) == SnapshotAdds(v, n - 1) + adds;
    }
  }

  ghost predicate DistinctNumbers(files: Level) {
    forall i, j :: 0 <= i < j < |files| ==> files[i].number != files[j].number
  }

  lemma LevelNumbersDistinct(v: Version, l: nat)
    requires |v| == NUM_LEVELS && NumbersUnique(v) && l < NUM_LEVELS && FilesSorted(v[l])
    ensures DistinctNumbers(v[l])
  {
    forall i, j | 0 <= i < j < |v[l]| ensures v[l][i].number != v[l][j].number {
      assert v[l][i] in v[l] && v[l][j] in v[l];
      assert FileLess(v[l][i], v[l][j]);
    }
  }

  lemma LevelAddsDistinct(files: Level, k: nat, l: nat)
    requires DistinctNumbers(files)
    ensures DistinctAdds(LevelAdds(files, k), l)
  {
    LevelAddsAre(files, k);
  }

  lemma JoinDistinct(a: seq<(nat, FileMeta)>, b: seq<(nat, FileMeta)>, l: nat)
    requires DistinctAdds(a, l) && DistinctAdds(b, l)
    requires (forall x :: x in a ==> x.0 != l) || (forall x :: x in b ==> x.0 != l)
    ensures DistinctAdds(a + b, l)
  {
  }

  lemma LevelsOfAdds(v: Version, n: nat)
    requires 0 < n <= |v|
    ensures forall x :: x in SnapshotAdds(v, n - 1) ==> x.0 != n - 1
    ensures forall x :: x in LevelAdds(v[n - 1], n - 1) ==> x.0 == n - 1
  {
    hide SnapshotAdds, LevelAdds;
    LevelAddsAre(v[n - 1], n - 1);
    var before := SnapshotAdds(v, n - 1);
    forall x | x in before ensures x.0 != n - 1 {
      SnapshotAddsMembers(v, n - 1, x.0, x.1);
    }
  }

  lemma {:induction false} SnapshotAddsDistinct(v: Version, n: nat, l: nat)
    requires |v| == NUM_LEVELS && n <= NUM_LEVELS && NumbersUnique(v)
    requires forall k :: 0 <= k < NUM_LEVELS ==> FilesSorted(v[k])
    ensures DistinctAdds(SnapshotAdds(v, n), l)
  {
    if n > 0 {
      var before := SnapshotAdds(v, n - 1);
      assert SnapshotAdds(v, n) == before + LevelAdds(v[n - 1], n - 1);
      hide SnapshotAdds, LevelAdds, DistinctAdds, DistinctNumbers, NumbersUnique, FilesSorted;
      SnapshotAddsDistinct(v, n - 1, l);
      LevelNumbersDistinct(v, n - 1);
      LevelAddsDistinct(v[n - 1], n - 1, l);
      LevelsOfAdds(v, n);
      JoinDistinct(before, LevelAdds(v[n - 1], n - 1), l);
    }
  }

  /** A manifest holding just the snapshot replays to the version it describes. */
  lemma SnapshotReplays(v: Version, nextFile: nat)
    requires Shape(v)
    requires forall l, f :: 0 <= l < NUM_LEVELS && f in v[l] ==> f.number < nextFile
    ensures ReplayVersion([SnapshotEdit(v)]) == v
    ensures SeenOk([SnapshotEdit(v)], v, nextFile)
  {
    var edit := SnapshotEdit(v);
    assert [] + [edit] == [edit];
    forall l | 0 <= l < NUM_LEVELS ensures DistinctAdds(edit.added, l) {
      SnapshotAddsDistinct(v, NUM_LEVELS, l);
    }
    forall l | 0 <= l < NUM_LEVELS
      ensures ReplayState([])[l].added == []
    {
    }
    ReplayStep([], edit);
    forall l | 0 <= l < NUM_LEVELS
      ensures NextVersion(ReplayVersion([]), edit)[l] == v[l]
      ensures forall f :: f in ReplayState([edit])[l].added ==> f in v[l]
    {
      SnapshotLevelReplays(v, l);
      forall f ensures (l, f) in edit.added <==> f in v[l] {
        SnapshotAddsMembers(v, NUM_LEVELS, l, f);
      }
    }
  }

  lemma SnapshotLevelReplays(v: Version, l: nat)
    requires Shape(v) && l < NUM_LEVELS
    ensures NextVersion(ReplayVersion([]), SnapshotEdit(v))[l] == v[l]
  {
    hide FileOk, LevelOrdered;
    var edit := SnapshotEdit(v);
    var empty := ReplayVersion([]);
    assert empty[l] == [];
    var w := NextVersion(empty, edit);
    SnapshotAddsDistinct(v, NUM_LEVELS, l);
    NextVersionSorted(empty, edit, l);
    forall f ensures f in w[l] <==> f in v[l] {
      NextVersionMembers(empty, edit, l, f);
      SnapshotAddsMembers(v, NUM_LEVELS, l, f);
    }
    SortedFilesUnique(w[l], v[l]);
  }
}
