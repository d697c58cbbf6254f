/** The builder object of VersionSet and the manifest loop of VersionSet::Recover, proved against
    the functions of VersionBuilder and Manifest. */
module VersionSetBuilder {
  import opened InternalKeys
  import opened Versions
  import opened VersionBuilder
  import opened Manifest

  class Builder {
    const base: Version
    var levels: seq<LevelState>

    ghost predicate Valid()
      reads this
    {
      |base| == NUM_LEVELS && |levels| == NUM_LEVELS
    }

    constructor (base: Version)
      requires |base| == NUM_LEVELS
      ensures Valid() && this.base == base && levels == NO_CHANGES
    {
      this.base := base;
      levels := NO_CHANGES;
    }

    /** Record one edit: deletions first, then additions, which cancel a pending deletion. */
    method Apply(edit: VersionEdit)
      requires Valid()
      modifies this
      ensures Valid() && levels == ApplyEdit(old(levels), edit)
    {
      for level := 0 to NUM_LEVELS
        invariant Valid()
        invariant forall l :: 0 <= l < level ==> levels[l] == LevelState(old(levels)[l].deleted + DeletedAt(edit, l), old(levels)[l].added)
        invariant forall l :: level <= l < NUM_LEVELS ==> levels[l] == old(levels)[l]
      {
        levels := levels[level := levels[level].(deleted := levels[level].deleted + DeletedAt(edit, level))];
      }
      for i := 0 to |edit.added|
        invariant Valid()
        invariant forall l :: 0 <= l < NUM_LEVELS ==>
                    AddFiles(levels[l], edit.added[i..], l) == ApplyLevel(old(levels)[l], edit, l)
      {
        var level, f := edit.added[i].0, edit.added[i].1;
        assert edit.added[i..] == [edit.added[i]] + edit.added[i + 1..];
        if level < NUM_LEVELS {
          levels := levels[level := LevelState(levels[level].deleted - {f.number}, InsertFile(levels[level].added, f))];
        }
      }
      assert edit.added[|edit.added|..] == [];
    }

    lemma TakeBase(files: Level, st: LevelState)
      requires files != [] && (st.added == [] || !FileLess(st.added[0], files[0]))
      ensures SaveLevel(files, st) == Keep(files[0], st.deleted) + SaveLevel(files[1..], st)
    {
    }

    lemma TakeAdded(files: Level, st: LevelState)
      requires st.added != [] && (files == [] || FileLess(st.added[0], files[0]))
      ensures SaveLevel(files, st) == Keep(st.added[0], st.deleted) + SaveLevel(files, st.(added := st.added[1..]))
    {
    }

    lemma TakeNothing(st: LevelState)
      requires st.added == []
      ensures SaveLevel([], st) == []
    {
    }

    /** Merge the base files of one level with the added ones, leaving deleted numbers out. */
    method SaveLevelTo(level: nat) returns (files: Level)
      requires Valid() && level < NUM_LEVELS
      ensures files == SaveLevel(base[level], levels[level])
    {
      hide SaveLevel;
      files := [];
      var baseFiles, st := base[level], levels[level];
      var b := 0;
      for a := 0 to |st.added|
        invariant b <= |baseFiles|
        invariant files + SaveLevel(baseFiles[b..], st.(added := st.added[a..])) == SaveLevel(baseFiles, st)
      {
        // Add all smaller files of the base first.
        while b < |baseFiles| && !FileLess(st.added[a], baseFiles[b])
          invariant b <= |baseFiles|
          invariant files + SaveLevel(baseFiles[b..], st.(added := st.added[a..])) == SaveLevel(baseFiles, st)
        {
          assert baseFiles[b..][1..] == baseFiles[b + 1..];
          TakeBase(baseFiles[b..], st.(added := st.added[a..]));
          files := MaybeAddFile(files, baseFiles[b], st.deleted);
          b := b + 1;
        }
        assert st.added[a..][1..] == st.added[a + 1..];
        TakeAdded(baseFiles[b..], st.(added := st.added[a..]));
        files := MaybeAddFile(files, st.added[a], st.deleted);
      }
      while b < |baseFiles|
        invariant b <= |baseFiles|
        invariant files + SaveLevel(baseFiles[b..], st.(added := [])) == SaveLevel(baseFiles, st)
      {
        assert baseFiles[b..][1..] == baseFiles[b + 1..];
        TakeBase(baseFiles[b..], st.(added := []));
        files := MaybeAddFile(files, baseFiles[b], st.deleted);
        b := b + 1;
      }
      TakeNothing(st.(added := []));
      assert baseFiles[b..] == [];
      assert files + [] == files;
    }

    method MaybeAddFile(files: Level, f: FileMeta, deleted: set<nat>) returns (r: Level)
      ensures r == files + Keep(f, deleted)
    {
      r := if f.number in deleted then files else files + [f];
    }

    method SaveTo() returns (v: Version)
      requires Valid()
      ensures v == SaveVersion(base, levels)
    {
      v := [];
      for level := 0 to NUM_LEVELS
        invariant |v| == level
        invariant forall l :: 0 <= l < level ==> v[l] == SaveLevel(base[l], levels[l])
      {
        var files := SaveLevelTo(level);
        v := v + [files];
      }
    }
  }

  datatype RecoverResult =
    | Recovered(version: Version, logNumber: nat, nextFile: nat, lastSequence: nat)
    | MissingNextFile | MissingLogNumber | MissingLastSequence

  /** VersionSet::Recover: one pass over the manifest through one builder. The result is the
      replayed version with the last recorded numbers, or the first number that was never recorded. */
  method Recover(manifest: seq<VersionEdit>) returns (r: RecoverResult)
    ensures r.Recovered? <==>
              && (exists i :: 0 <= i < |manifest| && manifest[i].nextFile.Some?)
              && (exists i :: 0 <= i < |manifest| && manifest[i].logNumber.Some?)
              && (exists i :: 0 <= i < |manifest| && manifest[i].lastSequence.Some?)
    ensures r.Recovered? ==> r.version == ReplayVersion(manifest)
    ensures r.Recovered? ==> r.logNumber == LogNumberOf(manifest) && r.lastSequence == LastSequenceOf(manifest)
    ensures r.Recovered? ==> r.nextFile == NextFileOf(manifest) + 1
    ensures r.MissingNextFile? ==> forall i :: 0 <= i < |manifest| ==> manifest[i].nextFile.None?
    ensures r.MissingLogNumber? ==> forall i :: 0 <= i < |manifest| ==> manifest[i].logNumber.None?
    ensures r.MissingLastSequence? ==> forall i :: 0 <= i < |manifest| ==> manifest[i].lastSequence.None?
  {
    var haveLogNumber, haveNextFile, haveLastSequence := false, false, false;
    var logNumber, nextFile, lastSequence := 0, 0, 0;
    var builder := new Builder(EMPTY_VERSION);
    for n := 0 to |manifest|
      invariant builder.Valid() && builder.base == EMPTY_VERSION
      invariant builder.levels == ReplayState(manifest[..n])
      invariant logNumber == LogNumberOf(manifest[..n]) && nextFile == NextFileOf(manifest[..n]) && lastSequence == LastSequenceOf(manifest[..n])
      invariant haveNextFile <==> exists i :: 0 <= i < n && manifest[i].nextFile.Some?
      invariant haveLogNumber <==> exists i :: 0 <= i < n && manifest[i].logNumber.Some?
      invariant haveLastSequence <==> exists i :: 0 <= i < n && manifest[i].lastSequence.Some?
    {
      var edit := manifest[n];
      assert manifest[..n + 1][..n] == manifest[..n];
      builder.Apply(edit);
      if edit.logNumber.Some? {
        logNumber, haveLogNumber := edit.logNumber.value, true;
      }
      if edit.nextFile.Some? {
        nextFile, haveNextFile := edit.nextFile.value, true;
      }
      if edit.lastSequence.Some? {
        lastSequence, haveLastSequence := edit.lastSequence.value, true;
      }
    }
    assert manifest[..|manifest|] == manifest;
    if !haveNextFile {
      return MissingNextFile;
    } else if !haveLogNumber {
      return MissingLogNumber;
    } else if !haveLastSequence {
      return MissingLastSequence;
    }
    var v := builder.SaveTo();
    r := Recovered(v, logNumber, nextFile + 1, lastSequence);
  }
}
