/** Version edits and the builder that folds them into a version (db/version_edit.h,
    VersionSet::Builder in db/version_set.cc). */
module VersionBuilder {
  import opened InternalKeys
  import opened Versions

  /** One manifest record. Levels and file numbers are pairs (level, number). */
  datatype VersionEdit = VersionEdit(
    logNumber: Option<nat>, nextFile: Option<nat>, lastSequence: Option<nat>,
    deleted: set<(nat, nat)>, added: seq<(nat, FileMeta)>)

  // ---------- the order of files in a level ----------

  /** BySmallestKey: smallest key, ties broken by file number. */
  predicate FileLess(f: FileMeta, g: FileMeta) {
    if f.smallest == g.smallest then f.number < g.number else Less(f.smallest, g.smallest)
  }

  ghost predicate FilesSorted(files: Level) {
    forall i, j :: 0 <= i < j < |files| ==> FileLess(files[i], files[j])
  }

  lemma FileLessTransitive(f: FileMeta, g: FileMeta, h: FileMeta)
    requires FileLess(f, g) && FileLess(g, h)
    ensures FileLess(f, h)
  {
  }

  /** A strictly sorted list is determined by its members. */
  lemma {:induction false} SortedFilesUnique(a: Level, b: Level)
    requires FilesSorted(a) && FilesSorted(b)
    requires forall f :: f in a <==> f in b
    ensures a == b
  {
    assert b == [] || b[0] in b;
    if a != [] {
      assert a[0] in a;
      var i :| 0 <= i < |b| && b[i] == a[0];
      var j :| 0 <= j < |a| && a[j] == b[0];
      assert a[0] == b[0];
      forall f ensures f in a[1..] <==> f in b[1..] {
        TailMembers(a, f);
        TailMembers(b, f);
      }
      SortedFilesUnique(a[1..], b[1..]);
      assert a == [a[0]] + a[1..] && b == [b[0]] + b[1..];
    }
  }

  lemma TailMembers(a: Level, f: FileMeta)
    requires FilesSorted(a) && a != []
    ensures f in a[1..] <==> f in a && f != a[0]
  {
    if f in a && f != a[0] {
      var i :| 0 <= i < |a| && a[i] == f;
      assert a[1..][i - 1] == f;
    }
    if f in a[1..] {
      var i :| 0 <= i < |a[1..]| && a[1..][i] == f;
      assert FileLess(a[0], a[i + 1]);
    }
  }

  /** Insertion into the ordered set of added files. */
  function InsertFile(files: Level, f: FileMeta): Level {
    if files == [] || FileLess(f, files[0]) then [f] + files
    else if files[0] == f then files
    else [files[0]] + InsertFile(files[1..], f)
  }

  lemma {:induction false} InsertFileMembers(files: Level, f: FileMeta, g: FileMeta)
    ensures g in InsertFile(files, f) <==> g == f || g in files
  {
    if files == [] || FileLess(f, files[0]) {
    } else if files[0] != f {
      InsertFileMembers(files[1..], f, g);
      assert files == [files[0]] + files[1..];
    }
  }

  lemma {:induction false} InsertFileSorted(files: Level, f: FileMeta)
    requires FilesSorted(files)
    requires forall g :: g in files && g.number == f.number ==> g == f
    ensures FilesSorted(InsertFile(files, f))
  {
    if files == [] {
    } else if FileLess(f, files[0]) {
      forall j | 1 <= j < |files| ensures FileLess(f, files[j]) {
        FileLessTransitive(f, files[0], files[j]);
      }
    } else if files[0] != f {
      assert files[0] in files;
      InsertFileSorted(files[1..], f);
      var r := InsertFile(files[1..], f);
      forall j | 0 <= j < |r| ensures FileLess(files[0], r[j]) {
        InsertFileMembers(files[1..], f, r[j]);
        assert r[j] in r;
        if r[j] != f {
          var i :| 0 <= i < |files[1..]| && files[1..][i] == r[j];
          assert FileLess(files[0], files[i + 1]);
        }
      }
    }
  }

  // ---------- per-level builder state ----------

  datatype LevelState = LevelState(deleted: set<nat>, added: Level)

  const NO_CHANGES: seq<LevelState> := [LevelState({}, []), LevelState({}, []), LevelState({}, []), LevelState({}, []), LevelState({}, []), LevelState({}, []), LevelState({}, [])]

  function DeletedAt(edit: VersionEdit, level: nat): set<nat> {
    set p | p in edit.deleted && p.0 == level :: p.1
  }

  function AddFiles(st: LevelState, added: seq<(nat, FileMeta)>, level: nat): LevelState
    decreases |added|
  {
    if added == [] then st
    else if added[0].0 != level then AddFiles(st, added[1..], level)
    else AddFiles(LevelState(st.deleted - {added[0].1.number}, InsertFile(st.added, added[0].1)), added[1..], level)
  }

  function ApplyLevel(st: LevelState, edit: VersionEdit, level: nat): LevelState {
    AddFiles(LevelState(st.deleted + DeletedAt(edit, level), st.added), edit.added, level)
  }

  /** Merge the files of the base with the added ones, in order, leaving deleted numbers out. */
  function SaveLevel(base: Level, st: LevelState): Level
    decreases |base| + |st.added|
  {
    if base == [] && st.added == [] then []
    else if st.added == [] || (base != [] && !FileLess(st.added[0], base[0])) then
      Keep(base[0], st.deleted) + SaveLevel(base[1..], st)
    else
      Keep(st.added[0], st.deleted) + SaveLevel(base, st.(added := st.added[1..]))
  }

  function Keep(f: FileMeta, deleted: set<nat>): Level {
    if f.number in deleted then [] else [f]
  }

  lemma {:induction false} SaveLevelMembers(base: Level, st: LevelState, f: FileMeta)
    ensures f in SaveLevel(base, st) <==> (f in base || f in st.added) && f.number !in st.deleted
    decreases |base| + |st.added|
  {
    if base == [] && st.added == [] {
    } else if st.added == [] || (base != [] && !FileLess(st.added[0], base[0])) {
      SaveLevelMembers(base[1..], st, f);
      assert base == [base[0]] + base[1..];
    } else {
      SaveLevelMembers(base, st.(added := st.added[1..]), f);
      assert st.added == [st.added[0]] + st.added[1..];
    }
  }

  ghost predicate Compatible(base: Level, st: LevelState) {
    && FilesSorted(base) && FilesSorted(st.added)
    && forall f, g :: f in base && g in st.added ==> f.number != g.number
  }

  lemma {:induction false} SaveLevelSorted(base: Level, st: LevelState)
    requires Compatible(base, st)
    ensures FilesSorted(SaveLevel(base, st))
    decreases |base| + |st.added|
  {
    if base == [] && st.added == [] {
    } else if st.added == [] || (base != [] && !FileLess(st.added[0], base[0])) {
      var rest := SaveLevel(base[1..], st);
      SaveLevelSorted(base[1..], st);
      HeadBelowSaved(base[0], base[1..], st);
    } else {
      var st' := st.(added := st.added[1..]);
      var rest := SaveLevel(base, st');
      SaveLevelSorted(base, st');
      HeadBelowSaved(st.added[0], base, st');
    }
  }

  lemma HeadBelowSaved(f: FileMeta, base: Level, st: LevelState)
    requires FilesSorted(base) && FilesSorted(st.added)
    requires base != [] ==> FileLess(f, base[0])
    requires st.added != [] ==> FileLess(f, st.added[0])
    ensures forall g :: g in SaveLevel(base, st) ==> FileLess(f, g)
  {
    forall g | g in SaveLevel(base, st)
      ensures FileLess(f, g)
    {
      SaveLevelMembers(base, st, g);
      if g in base {
        var i :| 0 <= i < |base| && base[i] == g;
        if i > 0 { FileLessTransitive(f, base[0], g); }
      } else {
        var i :| 0 <= i < |st.added| && st.added[i] == g;
        if i > 0 { FileLessTransitive(f, st.added[0], g); }
      }
    }
  }

  // ---------- what one edit adds ----------

  ghost predicate AddsAt(edit: VersionEdit, level: nat, f: FileMeta) {
    (level, f) in edit.added
  }

  lemma {:induction false} AddFilesMembers(st: LevelState, added: seq<(nat, FileMeta)>, level: nat, f: FileMeta)
    ensures f in AddFiles(st, added, level).added <==> f in st.added || (level, f) in added
    decreases |added|
  {
    if added != [] {
      assert added == [added[0]] + added[1..];
      if added[0].0 != level {
        AddFilesMembers(st, added[1..], level, f);
      } else {
        InsertFileMembers(st.added, added[0].1, f);
        AddFilesMembers(LevelState(st.deleted - {added[0].1.number}, InsertFile(st.added, added[0].1)), added[1..], level, f);
      }
    }
  }

  lemma {:induction false} AddFilesDeleted(st: LevelState, added: seq<(nat, FileMeta)>, level: nat, n: nat)
    ensures n in AddFiles(st, added, level).deleted <==> n in st.deleted && forall f :: (level, f) in added ==> f.number != n
    decreases |added|
  {
    if added != [] {
      assert added == [added[0]] + added[1..];
      if added[0].0 != level {
        AddFilesDeleted(st, added[1..], level, n);
      } else {
        AddFilesDeleted(LevelState(st.deleted - {added[0].1.number}, InsertFile(st.added, added[0].1)), added[1..], level, n);
        assert (level, added[0].1) in added;
      }
    }
  }

  lemma {:induction false} AddFilesSorted(st: LevelState, added: seq<(nat, FileMeta)>, level: nat)
    requires FilesSorted(st.added)
    requires forall f, g :: f in st.added && (level, g) in added ==> f.number != g.number
    requires DistinctAdds(added, level)
    ensures FilesSorted(AddFiles(st, added, level).added)
    decreases |added|
  {
    if added != [] {
      assert added == [added[0]] + added[1..];
      if added[0].0 != level {
        AddFilesSorted(st, added[1..], level);
      } else {
        var f := added[0].1;
        assert (level, f) in added;
        InsertFileSorted(st.added, f);
        var st' := LevelState(st.deleted - {f.number}, InsertFile(st.added, f));
        forall g, h | g in st'.added && (level, h) in added[1..]
          ensures g.number != h.number
        {
          InsertFileMembers(st.added, f, g);
          var i :| 0 <= i < |added[1..]| && added[1..][i] == (level, h);
          assert added[i + 1] == (level, h);
        }
        AddFilesSorted(st', added[1..], level);
      }
    }
  }

  ghost predicate DistinctAdds(added: seq<(nat, FileMeta)>, level: nat) {
    forall i, j :: 0 <= i < j < |added| && added[i].0 == level && added[j].0 == level ==> added[i].1.number != added[j].1.number
  }

  // ---------- versions ----------

  function ApplyEdit(sts: seq<LevelState>, edit: VersionEdit): (r: seq<LevelState>)
    requires |sts| == NUM_LEVELS
    ensures |r| == NUM_LEVELS
  {
    seq(NUM_LEVELS, l requires 0 <= l < NUM_LEVELS => ApplyLevel(sts[l], edit, l))
  }

  function SaveVersion(base: Version, sts: seq<LevelState>): (r: Version)
    requires |base| == NUM_LEVELS && |sts| == NUM_LEVELS
    ensures |r| == NUM_LEVELS
  {
    seq(NUM_LEVELS, l requires 0 <= l < NUM_LEVELS => SaveLevel(base[l], sts[l]))
  }

  /** The version LogAndApply installs: one edit on top of the current version. */
  function NextVersion(v: Version, edit: VersionEdit): (r: Version)
    requires |v| == NUM_LEVELS
    ensures |r| == NUM_LEVELS
  {
    SaveVersion(v, ApplyEdit(NO_CHANGES, edit))
  }

  /** Builder state after folding a whole manifest, oldest record first. */
  function ReplayState(manifest: seq<VersionEdit>): (r: seq<LevelState>)
    ensures |r| == NUM_LEVELS
  {
    if manifest == [] then NO_CHANGES
    else ApplyEdit(ReplayState(manifest[..|manifest| - 1]), manifest[|manifest| - 1])
  }

  /** The version Recover builds: every edit into one builder, one SaveTo at the end. */
  function ReplayVersion(manifest: seq<VersionEdit>): (r: Version)
    ensures |r| == NUM_LEVELS
  {
    SaveVersion(EMPTY_VERSION, ReplayState(manifest))
  }

  /** Membership of the version after one edit. */
  lemma NextVersionMembers(v: Version, edit: VersionEdit, level: nat, f: FileMeta)
    requires |v| == NUM_LEVELS && level < NUM_LEVELS
    ensures f in NextVersion(v, edit)[level] <==>
            (f in v[level] || (level, f) in edit.added)
            && ((level, f.number) !in edit.deleted || exists g :: (level, g) in edit.added && g.number == f.number)
  {
    var st0 := LevelState({} + DeletedAt(edit, level), []);
    var st := ApplyLevel(NO_CHANGES[level], edit, level);
    assert NextVersion(v, edit)[level] == SaveLevel(v[level], st);
    SaveLevelMembers(v[level], st, f);
    AddFilesMembers(st0, edit.added, level, f);
    AddFilesDeleted(st0, edit.added, level, f.number);
    assert f.number in DeletedAt(edit, level) <==> (level, f.number) in edit.deleted;
  }

  /** The edit introduces only file numbers its level has not seen. */
  ghost predicate FreshAdds(seen: Level, edit: VersionEdit, level: nat) {
    && DistinctAdds(edit.added, level)
    && forall f, g :: f in seen && (level, g) in edit.added ==> f.number != g.number
  }

  lemma NextVersionSorted(v: Version, edit: VersionEdit, level: nat)
    requires |v| == NUM_LEVELS && level < NUM_LEVELS
    requires FilesSorted(v[level]) && FreshAdds(v[level], edit, level)
    ensures FilesSorted(NextVersion(v, edit)[level])
  {
    var st0 := LevelState({} + DeletedAt(edit, level), []);
    var st := ApplyLevel(NO_CHANGES[level], edit, level);
    AddFilesSorted(st0, edit.added, level);
    forall f, g | f in v[level] && g in st.added
      ensures f.number != g.number
    {
      AddFilesMembers(st0, edit.added, level, g);
    }
    SaveLevelSorted(v[level], st);
  }

  /** One more edit folded into the builder is one more version applied: replaying a history
      through a single builder cannot be told from installing its versions one at a time, as long
      as no level is given a file number it has seen before. */
  lemma ReplayStep(manifest: seq<VersionEdit>, edit: VersionEdit)
    requires forall l :: 0 <= l < NUM_LEVELS ==>
               FilesSorted(ReplayState(manifest)[l].added) && FreshAdds(ReplayState(manifest)[l].added, edit, l)
    ensures ReplayVersion(manifest + [edit]) == NextVersion(ReplayVersion(manifest), edit)
    ensures forall l, f :: 0 <= l < NUM_LEVELS ==>
              (f in ReplayState(manifest + [edit])[l].added <==> f in ReplayState(manifest)[l].added || (l, f) in edit.added)
    ensures forall l :: 0 <= l < NUM_LEVELS ==> FilesSorted(ReplayState(manifest + [edit])[l].added)
  {
    var longer := manifest + [edit];
    assert longer[..|longer| - 1] == manifest;
    var v := ReplayVersion(manifest);
    forall l | 0 <= l < NUM_LEVELS
      ensures ReplayVersion(longer)[l] == NextVersion(v, edit)[l]
      ensures forall f :: f in ReplayState(longer)[l].added <==> f in ReplayState(manifest)[l].added || (l, f) in edit.added
      ensures FilesSorted(ReplayState(longer)[l].added)
    {
      ReplayLevelStep(manifest, edit, l);
    }
  }

  lemma ReplayLevelStep(manifest: seq<VersionEdit>, edit: VersionEdit, l: nat)
    requires l < NUM_LEVELS
    requires FilesSorted(ReplayState(manifest)[l].added) && FreshAdds(ReplayState(manifest)[l].added, edit, l)
    ensures ReplayVersion(manifest + [edit])[l] == NextVersion(ReplayVersion(manifest), edit)[l]
    ensures forall f :: f in ReplayState(manifest + [edit])[l].added <==> f in ReplayState(manifest)[l].added || (l, f) in edit.added
    ensures FilesSorted(ReplayState(manifest + [edit])[l].added)
  {
    var longer := manifest + [edit];
    assert longer[..|longer| - 1] == manifest;
    var v := ReplayVersion(manifest);
    var st := ReplayState(manifest)[l];
    var st0 := LevelState(st.deleted + DeletedAt(edit, l), st.added);
    var st' := ReplayState(longer)[l];
    assert st' == AddFiles(st0, edit.added, l);
    assert v[l] == SaveLevel([], st);
    assert ReplayVersion(longer)[l] == SaveLevel([], st');
    forall f ensures f in st'.added <==> f in st.added || (l, f) in edit.added {
      AddFilesMembers(st0, edit.added, l, f);
    }
    AddFilesSorted(st0, edit.added, l);
    SaveLevelSorted([], st');
    SaveLevelSorted([], st);
    forall f ensures f in v[l] ==> f in st.added {
      SaveLevelMembers([], st, f);
    }
    NextVersionSorted(v, edit, l);
    forall f ensures f in SaveLevel([], st') <==> f in NextVersion(v, edit)[l] {
      SaveLevelMembers([], st', f);
      SaveLevelMembers([], st, f);
      AddFilesDeleted(st0, edit.added, l, f.number);
      NextVersionMembers(v, edit, l, f);
      assert f.number in DeletedAt(edit, l) <==> (l, f.number) in edit.deleted;
    }
    SortedFilesUnique(SaveLevel([], st'), NextVersion(v, edit)[l]);
  }
}
