/** A memtable flush, from its manifest record to its installation, keeps the invariant, also when
    it happens in the middle of a compaction. */
module EngineFlush {
  import opened InternalKeys
  import opened Versions
  import opened VersionBuilder
  import opened VersionInvariant
  import opened History
  import opened LogStream
  import opened Manifest
  import opened Compactions
  import opened Picking
  import opened Engine
  import opened EngineInvariant
  import opened EngineSteps

  /** An edit with neither additions nor deletions changes nothing. */
  lemma EmptyEditKeepsVersion(v: Version, edit: VersionEdit)
    requires Shape(v) && edit.added == [] && edit.deleted == {}
    ensures NextVersion(v, edit) == v
  {
    forall l | 0 <= l < NUM_LEVELS ensures NextVersion(v, edit)[l] == v[l] {
      NextVersionSorted(v, edit, l);
      forall f ensures f in NextVersion(v, edit)[l] <==> f in v[l] {
        NextVersionMembers(v, edit, l, f);
      }
      SortedFilesUnique(NextVersion(v, edit)[l], v[l]);
    }
  }

  /** The edit of a flush adds one file. */
  lemma FlushEditAddsFile(v: Version, edit: VersionEdit, level: nat, f: FileMeta)
    requires Shape(v) && level < NUM_LEVELS && edit.added == [(level, f)] && edit.deleted == {}
    requires NewerThanAll(f.number, v)
    ensures AddsFile(v, NextVersion(v, edit), level, f)
  {
    var v' := NextVersion(v, edit);
    forall l | 0 <= l < NUM_LEVELS ensures FilesSorted(v'[l]) {
      NextVersionSorted(v, edit, l);
    }
    forall l, g | 0 <= l < NUM_LEVELS ensures g in v'[l] <==> g in v[l] || (l == level && g == f) {
      NextVersionMembers(v, edit, l, g);
    }
  }

  lemma EmptyTableHoldsNothing(h: Writes, from: nat, upTo: nat)
    requires from <= upTo <= |h|
    ensures HoldsWrites([], h, from, upTo) ==> from == upTo
  {
    if from < upTo {
      assert EntryAt(h, upTo) !in [];
    }
  }

  /** What the version looks like once the flush is in it. */
  lemma FlushedVersion(m: Memory, sp: Spec, level: nat, manifest: seq<VersionEdit>, tables: map<nat, Table>)
    requires |m.version| == NUM_LEVELS && VersionInv(m.version, sp.h, sp.floor, sp.flushed)
    requires MemInv(m.mem, m.imm, Inserted(m), sp)
    requires m.flush.Built? && FlushInv(m.flush, m.imm, manifest, tables, m.nextFile, m.version, false, m.job)
    requires m.flush.file.Some? ==> PlacementOk(m.version, level, m.flush.file.value)
    ensures VersionInv(NextVersion(m.version, FlushEdit(m, level)), sp.h, sp.floor, sp.switched)
    ensures m.flush.file.Some? ==> AddsFile(m.version, NextVersion(m.version, FlushEdit(m, level)), level, m.flush.file.value)
    ensures m.flush.file.None? ==> NextVersion(m.version, FlushEdit(m, level)) == m.version
  {
    hide Recency, Sound, Covers, Unseen;
    var edit := FlushEdit(m, level);
    if m.flush.file.Some? {
      var f := m.flush.file.value;
      FlushEditAddsFile(m.version, edit, level, f);
      FlushKeepsInvariant(m.version, NextVersion(m.version, edit), level, f, sp.h, sp.floor, sp.flushed, sp.switched);
    } else {
      EmptyEditKeepsVersion(m.version, edit);
      EmptyTableHoldsNothing(sp.h, sp.flushed, sp.switched);
    }
  }

  /** Appending an edit whose version is sound leaves a sound manifest. */
  lemma ManifestAfterEdit(manifest: seq<VersionEdit>, edit: VersionEdit, tables: map<nat, Table>, h: Writes, floor: nat, top: nat, top': nat, nextFile: nat)
    requires ManifestInv(manifest, tables, h, floor, top)
    requires NextFileOf(manifest) <= nextFile
    requires edit.logNumber.Some? && edit.logNumber.value < nextFile && edit.nextFile == Some(nextFile)
    requires edit.lastSequence.Some? && top' <= edit.lastSequence.value <= |h|
    requires VersionInv(NextVersion(ReplayVersion(manifest), edit), h, floor, top')
    requires Stored(tables, nextFile, NextVersion(ReplayVersion(manifest), edit))
    requires AddsNewOrMoved(manifest, ReplayVersion(manifest), edit)
    requires forall l, g :: (l, g) in edit.added ==> g in NextVersion(ReplayVersion(manifest), edit)[l]
    ensures ReplayVersion(manifest + [edit]) == NextVersion(ReplayVersion(manifest), edit)
    ensures ManifestInv(manifest + [edit], tables, h, floor, top')
    ensures LogNumberOf(manifest + [edit]) == edit.logNumber.value && NextFileOf(manifest + [edit]) == nextFile
    ensures forall n :: Unseen(manifest, n) && (forall l, g :: (l, g) in edit.added ==> g.number != n) ==> Unseen(manifest + [edit], n)
  {
    hide Recency, Sound, Covers, VersionOk, SeenOk, Unseen, AddsNewOrMoved, ReplayVersion, LogNumberOf, NextFileOf, LastSequenceOf;
    var v' := NextVersion(ReplayVersion(manifest), edit);
    forall l, g | (l, g) in edit.added ensures g.number < nextFile && l < NUM_LEVELS {
      AddedLevels(manifest, ReplayVersion(manifest), edit, l, g);
      assert g in v'[l];
    }
    AppendInStep(manifest, ReplayVersion(manifest), edit, NextFileOf(manifest), nextFile);
    AppendReads(manifest, edit);
  }

  lemma AddedLevels(m: seq<VersionEdit>, v: Version, edit: VersionEdit, l: nat, g: FileMeta)
    requires |v| == NUM_LEVELS && AddsNewOrMoved(m, v, edit) && (l, g) in edit.added
    ensures l < NUM_LEVELS
  {
  }

  lemma LogFlushKeeps(d: Disk, m: Memory, sp: Spec, level: nat)
    requires UpInv(d, m, sp) && EnabledUp(d, m, LogFlush(level))
    ensures Inv(NextUp(d, m, LogFlush(level)), sp)
  {
    hide VersionInv, HoldsWrites, SnapshotsInv, LogsInv, LogsHold, Unseen, ReadersInv, ManifestInv, OutputsInv, InputsInv, NewerThanAll, Stored, FileOk,
         NextVersion, ReplayVersion, Kept;
    var edit := FlushEdit(m, level);
    ManifestBounds(d.manifest, d.tables, sp.h, sp.floor, sp.flushed);
    FlushedVersion(m, sp, level, d.manifest, d.tables);
    FlushedStored(m, level, d.manifest, d.tables);
    FlushAddsNew(m, level, d.manifest, d.tables);
    ManifestAfterEdit(d.manifest, edit, d.tables, sp.h, sp.floor, sp.flushed, sp.switched, m.nextFile);
    CurrentLogHolds(d.logs, m.logNumber, m.logfile, sp);
    if m.job.Some? {
      FlushDuringCompaction(m, sp, level, d.manifest, d.tables);
      OutputsAfterFlush(m, level, d.manifest, d.tables);
    }
  }

  lemma FlushedStored(m: Memory, level: nat, manifest: seq<VersionEdit>, tables: map<nat, Table>)
    requires |m.version| == NUM_LEVELS && Stored(tables, m.nextFile, m.version)
    requires m.flush.Built? && FlushInv(m.flush, m.imm, manifest, tables, m.nextFile, m.version, false, m.job)
    requires m.flush.file.Some? ==> AddsFile(m.version, NextVersion(m.version, FlushEdit(m, level)), level, m.flush.file.value)
    requires m.flush.file.None? ==> NextVersion(m.version, FlushEdit(m, level)) == m.version
    ensures Stored(tables, m.nextFile, NextVersion(m.version, FlushEdit(m, level)))
  {
    hide FileOk, Unseen, NewerThanAll, NextVersion;
  }

  lemma FlushAddsNew(m: Memory, level: nat, manifest: seq<VersionEdit>, tables: map<nat, Table>)
    requires |m.version| == NUM_LEVELS && m.version == ReplayVersion(manifest)
    requires m.flush.Built? && FlushInv(m.flush, m.imm, manifest, tables, m.nextFile, m.version, false, m.job)
    requires m.flush.file.Some? ==> level < NUM_LEVELS && AddsFile(m.version, NextVersion(m.version, FlushEdit(m, level)), level, m.flush.file.value)
    ensures AddsNewOrMoved(manifest, m.version, FlushEdit(m, level))
    ensures forall l, g :: (l, g) in FlushEdit(m, level).added ==> l == level && m.flush.file == Some(g) && g in NextVersion(m.version, FlushEdit(m, level))[l]
  {
    hide FileOk, Unseen, NewerThanAll, NextVersion, ReplayVersion;
  }

  /** From the flush on, the current log alone holds what the durable version does not. */
  lemma CurrentLogHolds(logs: Logs, logNumber: nat, logfile: nat, sp: Spec)
    requires LogsInv(logs, logNumber, logfile, sp)
    ensures LogsHold(logs, logfile, sp.bound, sp.h, sp.switched)
  {
    StreamOne(logs, logfile);
  }

  lemma OutputsAfterFlush(m: Memory, level: nat, manifest: seq<VersionEdit>, tables: map<nat, Table>)
    requires |m.version| == NUM_LEVELS && m.job.Some? && |m.job.value.base| == NUM_LEVELS
    requires m.flush.Built? && FlushInv(m.flush, m.imm, manifest, tables, m.nextFile, m.version, false, m.job)
    requires OutputsInv(m.job.value, manifest, tables, m.nextFile, m.pending)
    requires forall n :: Unseen(manifest, n) && (forall l, g :: (l, g) in FlushEdit(m, level).added ==> g.number != n) ==> Unseen(manifest + [FlushEdit(m, level)], n)
    ensures OutputsInv(m.job.value, manifest + [FlushEdit(m, level)], tables, m.nextFile, m.pending)
  {
    hide FileOk, Unseen, NewerThanAll, Kept, ConcatTables;
    var j := m.job.value;
    forall o | o in j.outs ensures OutputInv(o, manifest + [FlushEdit(m, level)], tables, m.nextFile, m.pending) {
      assert OutputInv(o, manifest, tables, m.nextFile, m.pending);
    }
  }

  /** A flush into a level that leaves the running compaction's key range alone does not disturb
      what the compaction relies on. */
  lemma FlushDuringCompaction(m: Memory, sp: Spec, level: nat, manifest: seq<VersionEdit>, tables: map<nat, Table>)
    requires |m.version| == NUM_LEVELS && VersionInv(m.version, sp.h, sp.floor, sp.flushed)
    requires MemInv(m.mem, m.imm, Inserted(m), sp)
    requires m.flush.Built? && FlushInv(m.flush, m.imm, manifest, tables, m.nextFile, m.version, false, m.job)
    requires m.job.Some? && InputsInv(m.version, m.job.value)
    requires m.flush.file.Some? ==> PlacementOk(m.version, level, m.flush.file.value)
    requires m.flush.file.Some? && m.job.value.manual && level == m.job.value.level + 1 ==>
               Apart(m.flush.file.value, EntriesOf(JobOutput(m.job.value)))
    requires m.flush.file.Some? ==> AddsFile(m.version, NextVersion(m.version, FlushEdit(m, level)), level, m.flush.file.value)
    requires m.flush.file.None? ==> NextVersion(m.version, FlushEdit(m, level)) == m.version
    ensures InputsInv(NextVersion(m.version, FlushEdit(m, level)), m.job.value)
  {
    hide NextVersion, Recency, Covers, Unseen, NewerThanAll;
    if m.flush.file.Some? {
      InputsSurviveFlush(m.version, NextVersion(m.version, FlushEdit(m, level)), level, m.flush.file.value, m.job.value, sp.h, sp.flushed, sp.switched);
    }
  }

  lemma InputsSurviveFlush(v: Version, v': Version, p: nat, f: FileMeta, j: Job, h: Writes, top: nat, newTop: nat)
    requires VersionOk(v) && top <= newTop <= |h| && Sound(AllEntries(v), h, top)
    requires InputsInv(v, j) && FileOk(f) && HoldsWrites(f.table, h, top, newTop)
    requires AddsFile(v, v', p, f) && PlacementOk(v, p, f)
    requires j.manual && p == j.level + 1 ==> Apart(f, EntriesOf(JobOutput(j)))
    ensures InputsInv(v', j)
  {
    hide InputsMatch, NoGap, Apart, FileOk, PlacementOk, RestAbove;
    assert j.level + 1 < NUM_LEVELS && |j.base| == NUM_LEVELS by { JobLevels(v, j); }
    if p == j.level + 1 && !j.manual {
      FlushMissesTheGap(v, p, f, j);
    }
    if !j.manual {
      NoNewGap(v, v', p, f, j.level, j.in0, j.in1);
    }
    InputsAreOlder(v, j, h, top);
    RestStaysAbove(v[j.level], v'[j.level], j.in0, Entries(j.in0), f, top);
    RestStaysAbove(v[j.level + 1], v'[j.level + 1], j.in1, InputEntries(j.in0, j.in1), f, top);
    MatchSurvivesFlush(v, v', p, f, j);
  }

  lemma JobLevels(v: Version, j: Job)
    requires |v| == NUM_LEVELS && InputsMatch(v, j)
    ensures j.level + 1 < NUM_LEVELS && |j.base| == NUM_LEVELS
  {
  }

  lemma MatchSurvivesFlush(v: Version, v': Version, p: nat, f: FileMeta, j: Job)
    requires VersionOk(v) && InputsMatch(v, j) && FileOk(f)
    requires AddsFile(v, v', p, f) && PlacementOk(v, p, f)
    requires p == j.level + 1 ==> Apart(f, EntriesOf(JobOutput(j)))
    ensures InputsMatch(v', j)
  {
    hide Kept, Apart, FileOk;
    forall x | x in j.input && IsBaseLevel(j.base, j.level, x.key.user) ensures NoDeeper(v', j.level, x.key.user) {
      assert NoDeeper(v, j.level, x.key.user);
      if p >= j.level + 2 {
        FlushMissesInputs(v, p, f, j, x);
      }
    }
  }

  lemma NoNewGap(v: Version, v': Version, p: nat, f: FileMeta, level: nat, in0: Level, in1: Level)
    requires AddsFile(v, v', p, f) && level + 1 < NUM_LEVELS && NoGap(v, level, in0, in1)
    ensures NoGap(v', level, in0, in1)
  {
  }

  /** Inputs grown from one file leave no gap for a flush to fall into: placed in the output level, it
      lies to one side of all of them. */
  lemma FlushMissesTheGap(v: Version, p: nat, f: FileMeta, j: Job)
    requires VersionOk(v) && FileOk(f) && PlacementOk(v, p, f) && p == j.level + 1
    requires InputsInv(v, j) && !j.manual
    ensures Apart(f, EntriesOf(JobOutput(j)))
  {
    hide Kept, RestAbove, IsBaseLevel, NoDeeper, DistinctSeqnos, Apart;
    FileSpan(f);
    assert ClearOf(v[j.level], f) && ClearOf(v[j.level + 1], f);
    OneSideIsApart(j.in0, j.in1, f);
    OutputFromInputs(j);
    ApartFromFewer(f, InputEntries(j.in0, j.in1), EntriesOf(JobOutput(j)));
  }

  lemma OneSideIsApart(in0: Level, in1: Level, f: FileMeta)
    requires OneSide(in0 + in1, f) && FileOk(f) && forall g :: g in in0 + in1 ==> FileOk(g)
    ensures Apart(f, InputEntries(in0, in1))
  {
    forall x | x in InputEntries(in0, in1) ensures exists g :: g in in0 + in1 && x in g.table {
      var g :| (g in in0 || g in in1) && x in g.table;
      assert g in in0 + in1;
    }
    forall x, g | g in in0 + in1 && x in g.table ensures g.smallest.user <= x.key.user <= g.largest.user {
      FileRange(g, x);
    }
  }

  lemma OutputFromInputs(j: Job)
    requires |j.base| == NUM_LEVELS && IsMerge(j.input, j.in0, j.in1)
    ensures EntriesOf(JobOutput(j)) <= InputEntries(j.in0, j.in1)
  {
    forall x | x in JobOutput(j) ensures x in InputEntries(j.in0, j.in1) {
      KeptMembers(j.input, |j.input|, j.smallestSnapshot, j.base, j.level, x);
      assert x in EntriesOf(j.input);
    }
  }

  lemma ApartFromFewer(f: FileMeta, entries: set<Entry>, fewer: set<Entry>)
    requires Apart(f, entries) && fewer <= entries
    ensures Apart(f, fewer)
  {
  }

  lemma InputsAreOlder(v: Version, j: Job, h: Writes, top: nat)
    requires |v| == NUM_LEVELS && top <= |h| && Sound(AllEntries(v), h, top) && InputsMatch(v, j)
    ensures forall x :: x in InputEntries(j.in0, j.in1) ==> x.key.seqno <= top
  {
    forall x | x in InputEntries(j.in0, j.in1) ensures x.key.seqno <= top {
      OutputOrigin(v, j.level, j.in0, j.in1, x);
    }
  }

  lemma RestStaysAbove(files: Level, files': Level, picked: Level, entries: set<Entry>, f: FileMeta, top: nat)
    requires RestAbove(files, picked, entries)
    requires forall g :: g in files' ==> g in files || g == f
    requires forall e :: e in f.table ==> e.key.seqno > top
    requires forall x :: x in entries ==> x.key.seqno <= top
    ensures RestAbove(files', picked, entries)
  {
  }

  lemma FlushMissesInputs(v: Version, p: nat, f: FileMeta, j: Job, x: Entry)
    requires VersionOk(v) && InputsMatch(v, j) && FileOk(f) && PlacementOk(v, p, f)
    requires p >= j.level + 2 && x in j.input
    ensures forall e :: e in f.table ==> e.key.user != x.key.user
  {
    assert x in EntriesOf(j.input);
    assert x in Entries(j.in0) || x in Entries(j.in1);
    var l := if x in Entries(j.in0) then j.level else j.level + 1;
    var g :| g in v[l] && x in g.table;
    forall e | e in f.table ensures e.key.user != x.key.user {
      DisjointUsers(f, g, e, x);
    }
  }

  lemma InstallFlushKeeps(d: Disk, m: Memory, sp: Spec)
    requires |m.version| == NUM_LEVELS && (m.job.Some? ==> |m.job.value.base| == NUM_LEVELS)
    requires EnabledUp(d, m, InstallEdit) && m.install.Some? && m.install.value.flush && UpInv(d, m, sp)
    ensures Inv(NextUp(d, m, InstallEdit), NextSpec(sp, Up(d, m), InstallEdit))
  {
    hide VersionInv, HoldsWrites, SnapshotsInv, LogsHold, Unseen, ReadersInv, OutputsInv, InputsInv, NewerThanAll, FileOk, SeenOk, Chain, Stream,
         NextVersion, ReplayVersion, Kept;
    var i := m.install.value;
    assert ReplayVersion(d.manifest) == NextVersion(m.version, i.edit);
    StreamNone(d.logs, m.logfile, sp.h, sp.switched);
  }

  lemma StreamNone(logs: Logs, n: nat, h: Writes, top: nat)
    ensures Chain(Stream(logs, n, n), h, top, top)
  {
  }
}
