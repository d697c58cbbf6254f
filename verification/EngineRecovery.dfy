/** Snapshots, readers, garbage collection, crashes, and every step of recovery. */
module EngineRecovery {
  import opened InternalKeys
  import opened Versions
  import opened VersionBuilder
  import opened VersionInvariant
  import opened History
  import opened LogStream
  import opened Manifest
  import opened Compactions
  import opened Picking
  import opened Engine
  import opened EngineInvariant
  import opened EngineSteps
  import opened EngineFlush
  import opened EngineCompaction

  // ---------- small steps of an open database ----------

  lemma BeginWriteKeeps(d: Disk, m: Memory, sp: Spec, ops: Writes)
    requires UpInv(d, m, sp) && EnabledUp(d, m, BeginWrite(ops))
    ensures Inv(NextUp(d, m, BeginWrite(ops)), sp)
  {
    hide DiskInv, VersionInv, HoldsWrites, Stored, FlushInv, JobInv, InstallInv, LogsInv, ReadersInv, SnapshotsInv;
  }

  lemma SnapshotKeeps(d: Disk, m: Memory, sp: Spec, a: Action)
    requires a.TakeSnapshot? || a.ReleaseSnapshot?
    requires UpInv(d, m, sp) && EnabledUp(d, m, a)
    ensures Inv(NextUp(d, m, a), sp)
  {
    hide DiskInv, VersionInv, MemInv, WritingInv, Stored, FlushInv, JobInv, InstallInv, LogsInv, ReadersInv;
  }

  lemma BeginReadKeeps(d: Disk, m: Memory, sp: Spec, s: nat)
    requires UpInv(d, m, sp) && EnabledUp(d, m, BeginRead(s))
    ensures Inv(NextUp(d, m, BeginRead(s)), sp)
  {
    hide DiskInv, VersionInv, WritingInv, Stored, FlushInv, JobInv, InstallInv, LogsInv, HoldsWrites, ReaderOk;
    SnapshotInRange(m.snapshots, sp.floor, m.lastSequence, s);
    CapturedReaderOk(m, sp, s);
  }

  lemma SnapshotInRange(snapshots: seq<nat>, floor: nat, lastSequence: nat, s: nat)
    requires SnapshotsInv(snapshots, floor, lastSequence)
    requires s == lastSequence || s in snapshots
    ensures floor <= s <= lastSequence
  {
  }

  /** Everything a Get captures under the mutex answers for its snapshot. */
  lemma CapturedReaderOk(m: Memory, sp: Spec, s: nat)
    requires |m.version| == NUM_LEVELS && VersionInv(m.version, sp.h, sp.floor, sp.flushed)
    requires MemInv(m.mem, m.imm, Inserted(m), sp)
    requires sp.flushed <= sp.switched <= m.lastSequence <= |sp.h| && sp.floor <= s <= m.lastSequence
    ensures ReaderOk(Reader(s, m.mem, m.imm, m.version), sp.h)
  {
    hide VersionInv, HoldsWrites;
    assert sp.floor <= s <= Inserted(m) <= |sp.h| && sp.flushed <= sp.switched <= Inserted(m);
  }

  lemma EndReadKeeps(d: Disk, m: Memory, sp: Spec, i: nat)
    requires UpInv(d, m, sp) && EnabledUp(d, m, EndRead(i))
    ensures Inv(NextUp(d, m, EndRead(i)), sp)
  {
    hide DiskInv, VersionInv, WritingInv, MemInv, Stored, FlushInv, JobInv, InstallInv, LogsInv, ReaderOk, SnapshotsInv;
  }

  // ---------- garbage collection ----------

  /** DeleteObsoleteFiles removes no table that the installed version, a reader's version or the
      running compaction needs, and no log that recovery would replay. */
  lemma DeleteObsoleteKeeps(d: Disk, m: Memory, sp: Spec)
    requires UpInv(d, m, sp) && EnabledUp(d, m, DeleteObsolete)
    ensures Inv(NextUp(d, m, DeleteObsolete), sp)
  {
    hide VersionInv, WritingInv, MemInv, SnapshotsInv, ReaderOk, SeenOk, InputsInv, LogsInv, LogsHold, Purged, Stored, OutputsInv, ReplayVersion;
    PurgedTables(d, m, m.version, m.nextFile);
    PurgedTables(d, m, m.version, NextFileOf(d.manifest));
    forall r | r in m.readers ensures Stored(Purged(d, m).tables, m.nextFile, r.version) {
      PurgedReader(d, m, r);
    }
    if m.job.Some? {
      PurgedOutputs(d, m, m.job.value);
    }
    PurgedLogs(d, m, sp);
  }

  lemma PurgedTables(d: Disk, m: Memory, v: Version, n: nat)
    requires v == m.version && |v| == NUM_LEVELS
    ensures Purged(d, m).manifest == d.manifest
    ensures Stored(d.tables, n, v) ==> Stored(Purged(d, m).tables, n, v)
  {
    forall l, f | 0 <= l < NUM_LEVELS && f in v[l] ensures f.number in LiveTables(m) {
    }
  }

  lemma PurgedReader(d: Disk, m: Memory, r: Reader)
    requires r in m.readers && Stored(d.tables, m.nextFile, r.version)
    ensures Stored(Purged(d, m).tables, m.nextFile, r.version)
  {
    forall l, f | 0 <= l < NUM_LEVELS && f in r.version[l] ensures f.number in LiveTables(m) {
    }
  }

  lemma PurgedOutputs(d: Disk, m: Memory, j: Job)
    requires |j.base| == NUM_LEVELS && OutputsInv(j, d.manifest, d.tables, m.nextFile, m.pending)
    ensures OutputsInv(j, d.manifest, Purged(d, m).tables, m.nextFile, m.pending)
  {
    hide FileOk, Unseen, Kept, ConcatTables;
    forall o | o in j.outs ensures OutputInv(o, d.manifest, Purged(d, m).tables, m.nextFile, m.pending) {
      assert OutputInv(o, d.manifest, d.tables, m.nextFile, m.pending);
      assert o.number in LiveTables(m);
    }
  }

  lemma PurgedLogs(d: Disk, m: Memory, sp: Spec)
    requires LogsInv(d.logs, m.logNumber, m.logfile, sp)
    ensures LogsInv(Purged(d, m).logs, m.logNumber, m.logfile, sp)
    ensures LogsHold(d.logs, m.logNumber, sp.bound, sp.h, sp.flushed) ==> LogsHold(Purged(d, m).logs, m.logNumber, sp.bound, sp.h, sp.flushed)
  {
    hide Chain;
    StreamAgrees(d.logs, Purged(d, m).logs, m.logNumber, m.logfile);
    StreamAgrees(d.logs, Purged(d, m).logs, m.logNumber, sp.bound);
  }

  // ---------- crash ----------

  /** A crash loses memory and nothing else: the disk still accounts for every logged write. */
  lemma CrashKeeps(s: State, sp: Spec)
    requires Inv(s, sp) && Enabled(s, Crash)
    ensures Inv(Down(s.disk), NextSpec(sp, s, Crash))
  {
    hide DiskInv, VersionInv;
  }

  // ---------- recovery ----------

  lemma RecoverManifestKeeps(d: Disk, sp: Spec)
    requires DiskInv(d, sp.h, sp.floor, sp.flushed, sp.bound)
    ensures Inv(Next(Down(d), RecoverManifest), NextSpec(sp, Down(d), RecoverManifest))
  {
    hide VersionInv, SeenOk, Chain, Stream, ReplayVersion;
    var r := Next(Down(d), RecoverManifest).rec;
    var sp' := NextSpec(sp, Down(d), RecoverManifest);
    InvariantParts(r.version, sp.h, sp.floor, sp.flushed);
    EmptyEditKeepsVersion(r.version, RecoveryEdit(r, 0));
    assert [] + Stream(d.logs, r.nextLog, sp.bound) == Stream(d.logs, r.nextLog, sp.bound);
    LogsBelowStart(d.logs, r.nextLog, r.nextFile);
    assert HoldsWrites([], sp.h, sp.flushed, sp.flushed);
  }

  lemma LogsBelowStart(logs: Logs, nextLog: nat, nextFile: nat)
    requires nextLog <= nextFile
    ensures forall n :: n in logs && n < nextLog ==> n < nextFile
  {
  }

  lemma RecoverLogKeeps(d: Disk, r: Recovery, sp: Spec, n: nat)
    requires RecInv(d, r, sp) && EnabledRecovering(d, r, RecoverLog(n))
    ensures Inv(NextRecovering(d, r, RecoverLog(n)), sp)
  {
    hide DiskInv, VersionInv, Stored, HoldsWrites, Chain, Stream, AddedInv;
    assert Below(d.logs, sp.bound) by { DiskBound(d, sp); }
    StreamSplit(d.logs, r.nextLog, n, sp.bound);
    StreamSplit(d.logs, n, n + 1, sp.bound);
    StreamEmpty(d.logs, r.nextLog, n);
    StreamOne(d.logs, n);
    var rest := Stream(d.logs, n + 1, sp.bound);
    assert [] + ([] + (d.logs[n] + rest)) == d.logs[n] + rest;
    assert SameRecovered(r, NextRecovering(d, r, RecoverLog(n)).rec);
  }

  /** Two recovery states about to install the same version. */
  ghost predicate SameRecovered(r: Recovery, r': Recovery) {
    |r.version| == NUM_LEVELS && |r'.version| == NUM_LEVELS && RecoveredVersion(r) == RecoveredVersion(r')
  }

  lemma DiskBound(d: Disk, sp: Spec)
    requires DiskInv(d, sp.h, sp.floor, sp.flushed, sp.bound)
    ensures Below(d.logs, sp.bound) && sp.floor <= |sp.h| < MAX_SEQUENCE
    ensures ManifestInv(d.manifest, d.tables, sp.h, sp.floor, sp.flushed)
    ensures LogsHold(d.logs, LogNumberOf(d.manifest), sp.bound, sp.h, sp.flushed)
  {
  }

  lemma {:induction false} InsertAllHolds(t: Table, h: Writes, from: nat, at: nat, ops: Writes)
    requires from <= at && at + |ops| <= |h| && ops == h[at..at + |ops|]
    requires HoldsWrites(t, h, from, at)
    ensures HoldsWrites(InsertAll(t, at + 1, ops), h, from, at + |ops|)
    decreases |ops|
  {
    hide HoldsWrites, Insert;
    if ops != [] {
      var n := |ops| - 1;
      InsertAllHolds(t, h, from, at, ops[..n]);
      assert ops[n] == h[at + n];
      InsertWrite(InsertAll(t, at + 1, ops[..n]), h, from, at + n);
    }
  }

  lemma RecoverRecordKeeps(d: Disk, r: Recovery, sp: Spec)
    requires RecInv(d, r, sp) && EnabledRecovering(d, r, RecoverRecord)
    ensures Inv(NextRecovering(d, r, RecoverRecord), NextSpec(sp, Recovering(d, r), RecoverRecord))
  {
    hide DiskInv, VersionInv, Stored, HoldsWrites, Chain, Stream, AddedInv, InsertAll;
    var b := r.todo[0];
    var rest := r.todo[1..] + Stream(d.logs, r.nextLog, sp.bound);
    assert r.todo + Stream(d.logs, r.nextLog, sp.bound) == [b] + rest;
    ChainFront(b, rest, sp.h, sp.replayed, |sp.h|);
    InsertAllHolds(r.mem, sp.h, sp.recovered, sp.replayed, b.ops);
    assert SameRecovered(r, NextRecovering(d, r, RecoverRecord).rec);
  }

  /** A version edit is its additions and deletions. */
  lemma SameChangesSameVersion(v: Version, a: VersionEdit, b: VersionEdit)
    requires |v| == NUM_LEVELS && a.added == b.added && a.deleted == b.deleted
    ensures NextVersion(v, a) == NextVersion(v, b)
  {
    forall l | 0 <= l < NUM_LEVELS ensures NextVersion(v, a)[l] == NextVersion(v, b)[l] {
      assert DeletedAt(a, l) == DeletedAt(b, l);
    }
  }

  lemma AddedNumbersDistinct(added: seq<FileMeta>, lo: nat, hi: nat)
    requires AddedInv(added, lo, hi)
    ensures DistinctNumbers(added)
  {
  }

  /** One more recovered table is one more level-0 file. */
  lemma RecoveredAddsFile(r: Recovery, f: FileMeta, lo: nat)
    requires Shape(r.version) && |r.version| == NUM_LEVELS
    requires forall l, g :: 0 <= l < NUM_LEVELS && g in r.version[l] ==> g.number < lo
    requires AddedInv(r.added + [f], lo, f.number + 1)
    ensures AddsFile(RecoveredVersion(r), RecoveredVersion(r.(added := r.added + [f])), 0, f)
  {
    hide VersionOk, NumbersUnique, NextVersion;
    ShapeLength(r.version);
    var added' := r.added + [f];
    var r' := r.(added := added');
    var v, v' := RecoveredVersion(r), RecoveredVersion(r');
    forall l, g | 0 <= l < NUM_LEVELS ensures g in v'[l] <==> g in v[l] || (l == 0 && g == f) {
      RecoveredMembers(r, l, g);
      RecoveredMembers(r', l, g);
    }
    forall l | 0 <= l < NUM_LEVELS ensures FilesSorted(v'[l]) {
      RecoveredSorted(r', l, lo, f.number + 1);
    }
  }

  lemma RecoveredMembers(r: Recovery, l: nat, g: FileMeta)
    requires |r.version| == NUM_LEVELS && l < NUM_LEVELS
    ensures g in RecoveredVersion(r)[l] <==> g in r.version[l] || (l == 0 && g in r.added)
  {
    NextVersionMembers(r.version, RecoveryEdit(r, 0), l, g);
    LevelAddsMembers(r.added, 0, l, g);
  }

  lemma RecoveredSorted(r: Recovery, l: nat, lo: nat, hi: nat)
    requires Shape(r.version) && |r.version| == NUM_LEVELS && l < NUM_LEVELS
    requires forall l, g :: 0 <= l < NUM_LEVELS && g in r.version[l] ==> g.number < lo
    requires AddedInv(r.added, lo, hi)
    ensures FilesSorted(RecoveredVersion(r)[l])
  {
    hide VersionOk, NumbersUnique, NextVersion;
    var edit := RecoveryEdit(r, 0);
    AddedNumbersDistinct(r.added, lo, hi);
    LevelAddsDistinct(r.added, 0, l);
    forall f, g | f in r.version[l] && (l, g) in edit.added ensures f.number != g.number {
      LevelAddsMembers(r.added, 0, l, g);
    }
    NextVersionSorted(r.version, edit, l);
  }

  lemma RecoverFlushKeeps(d: Disk, r: Recovery, sp: Spec, size: nat)
    requires RecInv(d, r, sp) && EnabledRecovering(d, r, RecoverFlush(size))
    ensures Inv(NextRecovering(d, r, RecoverFlush(size)), NextSpec(sp, Recovering(d, r), RecoverFlush(size)))
  {
    hide DiskInv, VersionInv, Chain, Stream, Stored, HoldsWrites, MetaOf, RecoveredVersion, AddedInv;
    if r.mem == [] {
      EmptyTableHoldsNothing(sp.h, sp.recovered, sp.replayed);
      StoredRaised(d.tables, r.nextFile, RecoveredVersion(r));
      AddedRaised(r.added, NextFileOf(d.manifest), r.nextFile);
      assert SameRecovered(r, r.(nextFile := r.nextFile + 1)) by { SameAddedSameVersion(r, r.(nextFile := r.nextFile + 1)); }
    } else {
      var f := MetaOf(r.nextFile, size, r.mem);
      var r' := NextRecovering(d, r, RecoverFlush(size)).rec;
      RecoveredTable(d, r, sp, f, size);
      DiskAfterWrite(d, sp, r.nextFile, r.mem);
      EmptyHolds(sp.h, sp.replayed);
      SameAddedSameVersion(r.(added := r.added + [f]), r');
    }
  }

  lemma SameAddedSameVersion(r: Recovery, r': Recovery)
    requires |r.version| == NUM_LEVELS && r'.version == r.version && r'.added == r.added
    ensures RecoveredVersion(r') == RecoveredVersion(r)
  {
    SameChangesSameVersion(r.version, RecoveryEdit(r, 0), RecoveryEdit(r', 0));
  }

  lemma StoredRaised(tables: map<nat, Table>, n: nat, v: Version)
    requires Stored(tables, n, v)
    ensures Stored(tables, n + 1, v)
  {
  }

  lemma DiskAfterWrite(d: Disk, sp: Spec, n: nat, t: Table)
    requires DiskInv(d, sp.h, sp.floor, sp.flushed, sp.bound) && NextFileOf(d.manifest) <= n
    ensures DiskInv(d.(tables := d.tables[n := t]), sp.h, sp.floor, sp.flushed, sp.bound)
  {
    hide VersionInv, SeenOk, LogsHold;
    ManifestAfterWrite(d.manifest, d.tables, sp.h, sp.floor, sp.flushed, n, t);
  }

  lemma RecoveredTable(d: Disk, r: Recovery, sp: Spec, f: FileMeta, size: nat)
    requires RecInv(d, r, sp) && r.mem != [] && f == MetaOf(r.nextFile, size, r.mem)
    ensures AddedInv(r.added + [f], NextFileOf(d.manifest), r.nextFile + 1)
    ensures VersionInv(RecoveredVersion(r.(added := r.added + [f])), sp.h, sp.floor, sp.replayed)
    ensures Stored(d.tables[r.nextFile := r.mem], r.nextFile + 1, RecoveredVersion(r.(added := r.added + [f])))
  {
    hide DiskInv, VersionInv, Chain, Stream, SeenOk, NextVersion, RecoveredVersion, ManifestInv, RecoveredLogs, AddedInv, HoldsWrites, Sorted, AddsFile, Recency, Sound, Covers, FilesSorted, FileOk, Stored, VersionOk, NumbersUnique;
    var v, v' := RecoveredVersion(r), RecoveredVersion(r.(added := r.added + [f]));
    DiskBound(d, sp);
    ManifestBounds(d.manifest, d.tables, sp.h, sp.floor, sp.flushed);
    ManifestStored(d.manifest, d.tables, sp.h, sp.floor, sp.flushed, NextFileOf(d.manifest));
    StoredNumbers(d.tables, NextFileOf(d.manifest), r.version);
    InvariantParts(r.version, sp.h, sp.floor, sp.flushed);
    AddedAppend(r.added, NextFileOf(d.manifest), r.nextFile, f);
    ShapeLength(r.version);
    RecoveredAddsFile(r, f, NextFileOf(d.manifest));
    HeldTableIsSorted(r.mem, sp.h, sp.recovered, sp.replayed);
    MetaIsOk(r.nextFile, size, r.mem);
    StoredNumbers(d.tables, r.nextFile, v);
    assert PlacementOk(v, 0, f);
    FlushKeepsInvariant(v, v', 0, f, sp.h, sp.floor, sp.recovered, sp.replayed);
    AddedStored(d.tables, r.nextFile, v, v', f);
  }

  lemma AddedAppend(added: seq<FileMeta>, lo: nat, n: nat, f: FileMeta)
    requires AddedInv(added, lo, n) && f.number == n && lo <= n
    ensures AddedInv(added + [f], lo, n + 1)
  {
  }

  lemma AddedStored(tables: map<nat, Table>, n: nat, v: Version, v': Version, f: FileMeta)
    requires Stored(tables, n, v) && AddsFile(v, v', 0, f) && f.number == n
    ensures Stored(tables[n := f.table], n + 1, v')
  {
  }

  lemma RecoverEndLogKeeps(d: Disk, r: Recovery, sp: Spec)
    requires RecInv(d, r, sp) && EnabledRecovering(d, r, RecoverEndLog)
    ensures Inv(NextRecovering(d, r, RecoverEndLog), sp)
  {
    hide DiskInv, VersionInv, Chain, Stream, HoldsWrites, NextVersion, ReplayVersion;
    var r' := NextRecovering(d, r, RecoverEndLog).rec;
    SameAddedSameVersion(r, r');
  }

  /** Any bound above all log numbers serves. */
  lemma LogsHoldRebound(logs: Logs, logNumber: nat, bound: nat, bound': nat, h: Writes, top: nat)
    requires LogsHold(logs, logNumber, bound, h, top) && Below(logs, bound') && logNumber <= bound'
    ensures LogsHold(logs, logNumber, bound', h, top)
  {
    if bound <= bound' {
      GapIsEmpty(logs, logNumber, bound, bound');
    } else {
      GapIsEmpty(logs, logNumber, bound', bound);
    }
  }

  /** The fresh log of the new incarnation never truncates a log that still matters. */
  lemma RecoverNewLogKeeps(d: Disk, r: Recovery, sp: Spec)
    requires RecInv(d, r, sp) && EnabledRecovering(d, r, RecoverNewLog)
    ensures Inv(NextRecovering(d, r, RecoverNewLog), NextSpec(sp, Recovering(d, r), RecoverNewLog))
  {
    hide VersionInv, Chain, Stream, HoldsWrites, ManifestInv, LogsHold, AddedInv, Stored;
    var n := r.nextFile;
    var logs' := d.logs[n := []];
    DiskBound(d, sp);
    ManifestBounds(d.manifest, d.tables, sp.h, sp.floor, sp.flushed);
    assert Below(d.logs, n);
    LogsHoldRebound(d.logs, LogNumberOf(d.manifest), sp.bound, n, sp.h, sp.flushed);
    SwitchHoldsLogs(d.logs, LogNumberOf(d.manifest), n, sp.h, sp.flushed, n);
    AllReplayed(d, r, sp);
    StreamEmpty(logs', r.nextLog, n + 1);
    assert [] + Stream(logs', r.nextLog, n + 1) == [];
    EmptyChain(sp.h);
    StoredRaised(d.tables, n, RecoveredVersion(r));
    AddedRaised(r.added, NextFileOf(d.manifest), n);
    assert SameRecovered(r, NextRecovering(d, r, RecoverNewLog).rec);
  }

  lemma AddedRaised(added: seq<FileMeta>, lo: nat, hi: nat)
    requires AddedInv(added, lo, hi)
    ensures AddedInv(added, lo, hi + 1)
  {
  }

  lemma EmptyChain(h: Writes)
    ensures Chain([], h, |h|, |h|)
  {
  }

  lemma AllReplayed(d: Disk, r: Recovery, sp: Spec)
    requires Chain(r.todo + Stream(d.logs, r.nextLog, sp.bound), sp.h, sp.replayed, |sp.h|)
    requires r.todo == [] && forall n :: n in d.logs ==> n < r.nextLog
    ensures sp.replayed == |sp.h|
  {
    StreamEmpty(d.logs, r.nextLog, sp.bound);
  }

  lemma RecoverCommitKeeps(d: Disk, r: Recovery, sp: Spec)
    requires RecInv(d, r, sp) && EnabledRecovering(d, r, RecoverCommit)
    ensures Inv(NextRecovering(d, r, RecoverCommit), NextSpec(sp, Recovering(d, r), RecoverCommit))
  {
    hide VersionInv, Chain, Stream, ManifestInv, LogsHold, AddedInv, Stored, HoldsWrites, DiskInv;
    hide NextVersion, ReplayVersion, SnapshotEdit, LevelAdds;
    DiskBound(d, sp);
    CommittedManifest(d, r, sp);
    EmptyTableHoldsNothing(sp.h, sp.recovered, sp.replayed);
    EmptyHolds(sp.h, |sp.h|);
    EmptyChain(sp.h);
    CommittedLogs(d.logs, r.newLog.value, sp.(flushed := |sp.h|, switched := |sp.h|));
    assert DiskInv(Disk([SnapshotEdit(r.version), RecoveryEdit(r, r.newLog.value)], d.logs, d.tables), sp.h, sp.floor, |sp.h|, sp.bound) by {
      CommittedDisk(Disk([SnapshotEdit(r.version), RecoveryEdit(r, r.newLog.value)], d.logs, d.tables), r, sp);
    }
    assert Inserted(NextRecovering(d, r, RecoverCommit).vol) == |sp.h|;
  }

  lemma CommittedDisk(d: Disk, r: Recovery, sp: Spec)
    requires r.newLog.Some? && LogNumberOf(d.manifest) == r.newLog.value
    requires sp.floor <= |sp.h| < MAX_SEQUENCE
    requires ManifestInv(d.manifest, d.tables, sp.h, sp.floor, |sp.h|)
    requires LogsHold(d.logs, r.newLog.value, sp.bound, sp.h, |sp.h|)
    ensures DiskInv(d, sp.h, sp.floor, |sp.h|, sp.bound)
  {
  }

  lemma CommittedLogs(logs: Logs, newLog: nat, sp: Spec)
    requires newLog in logs && logs[newLog] == [] && sp.bound == newLog + 1 && Below(logs, sp.bound)
    requires sp.flushed == sp.switched == |sp.h|
    ensures LogsInv(logs, newLog, newLog, sp)
    ensures LogsHold(logs, newLog, sp.bound, sp.h, |sp.h|)
  {
    StreamOne(logs, newLog);
  }

  /** The manifest recovery switches to describes the recovered version. */
  lemma CommittedManifest(d: Disk, r: Recovery, sp: Spec)
    requires RecInv(d, r, sp) && EnabledRecovering(d, r, RecoverCommit)
    ensures var edit := RecoveryEdit(r, r.newLog.value);
            var manifest := [SnapshotEdit(r.version), edit];
            && ManifestInv(manifest, d.tables, sp.h, sp.floor, |sp.h|)
            && ReplayVersion(manifest) == NextVersion(r.version, edit)
            && VersionInv(NextVersion(r.version, edit), sp.h, sp.floor, |sp.h|)
            && Stored(d.tables, r.nextFile, NextVersion(r.version, edit))
            && LogNumberOf(manifest) == r.newLog.value && NextFileOf(manifest) == r.nextFile
  {
    hide VersionInv, Chain, Stream, LogsHold, HoldsWrites, DiskInv, SeenOk, Stored, AddedInv, ManifestInv, NextVersion, ReplayVersion, SnapshotEdit, LevelAdds;
    hide AddsNewOrMoved, LogNumberOf, NextFileOf, LastSequenceOf;
    var edit := RecoveryEdit(r, r.newLog.value);
    DiskBound(d, sp);
    ManifestBounds(d.manifest, d.tables, sp.h, sp.floor, sp.flushed);
    ManifestStored(d.manifest, d.tables, sp.h, sp.floor, sp.flushed, NextFileOf(d.manifest));
    InvariantParts(r.version, sp.h, sp.floor, sp.flushed);
    EmptyTableHoldsNothing(sp.h, sp.recovered, sp.replayed);
    SameChangesSameVersion(r.version, RecoveryEdit(r, 0), edit);
    StoredNumbers(d.tables, NextFileOf(d.manifest), r.version);
    SnapshotReplays(r.version, NextFileOf(d.manifest));
    RecoveryAddsNew(r, edit, NextFileOf(d.manifest));
    RecoveredNumbers(d.tables, r, edit);
    InvariantParts(NextVersion(r.version, edit), sp.h, sp.floor, sp.recovered);
    assert [SnapshotEdit(r.version)] + [edit] == [SnapshotEdit(r.version), edit];
    AppendInStep([SnapshotEdit(r.version)], r.version, edit, NextFileOf(d.manifest), r.nextFile);
    AppendReads([SnapshotEdit(r.version)], edit);
    CommitInv([SnapshotEdit(r.version), edit], d.tables, sp, r);
  }

  lemma CommitInv(manifest: seq<VersionEdit>, tables: map<nat, Table>, sp: Spec, r: Recovery)
    requires VersionInv(ReplayVersion(manifest), sp.h, sp.floor, |sp.h|)
    requires Stored(tables, r.nextFile, ReplayVersion(manifest)) && NextFileOf(manifest) == r.nextFile
    requires SeenOk(manifest, ReplayVersion(manifest), r.nextFile)
    requires r.newLog.Some? && LogNumberOf(manifest) == r.newLog.value < r.nextFile
    requires LastSequenceOf(manifest) == |sp.h|
    ensures ManifestInv(manifest, tables, sp.h, sp.floor, |sp.h|)
  {
    hide VersionInv, SeenOk, Stored, LogNumberOf, NextFileOf, LastSequenceOf, ReplayVersion;
  }

  lemma StoredNumbers(tables: map<nat, Table>, n: nat, v: Version)
    requires Stored(tables, n, v)
    ensures forall l, f :: 0 <= l < NUM_LEVELS && f in v[l] ==> f.number < n
  {
  }

  lemma RecoveryAddsNew(r: Recovery, edit: VersionEdit, lo: nat)
    requires |r.version| == NUM_LEVELS && edit.added == LevelAdds(r.added, 0)
    requires AddedInv(r.added, lo, r.nextFile) && SeenOk([SnapshotEdit(r.version)], r.version, lo)
    ensures AddsNewOrMoved([SnapshotEdit(r.version)], r.version, edit)
    ensures forall l, g :: (l, g) in edit.added ==> g.number < r.nextFile
  {
    hide SnapshotEdit, LevelAdds;
    AddedNumbersDistinct(r.added, lo, r.nextFile);
    forall l | 0 <= l < NUM_LEVELS ensures DistinctAdds(edit.added, l) {
      LevelAddsDistinct(r.added, 0, l);
    }
    forall l, g | (l, g) in edit.added ensures l == 0 && lo <= g.number < r.nextFile {
      LevelAddsMembers(r.added, 0, l, g);
    }
  }

  lemma RecoveredNumbers(tables: map<nat, Table>, r: Recovery, edit: VersionEdit)
    requires |r.version| == NUM_LEVELS && edit.added == LevelAdds(r.added, 0) && edit.deleted == {}
    ensures forall l, g :: (l, g) in edit.added ==> l < NUM_LEVELS && g in NextVersion(r.version, edit)[l]
  {
    hide NextVersion, LevelAdds;
    forall l, g | (l, g) in edit.added ensures l < NUM_LEVELS && g in NextVersion(r.version, edit)[l] {
      LevelAddsMembers(r.added, 0, l, g);
      NextVersionMembers(r.version, edit, l, g);
    }
  }
}
