/** What every reachable state of the engine satisfies: memory and disk, each on its own, account
    for the whole history of logged writes. */
module EngineInvariant {
  import opened InternalKeys
  import opened Versions
  import opened VersionBuilder
  import opened VersionInvariant
  import opened History
  import opened LogStream
  import opened Manifest
  import opened Compactions
  import opened Picking
  import opened Engine

  /** The reference state an engine state is measured against.
      h: every write whose log record is complete; floor: no live snapshot is older;
      flushed: last write in the durable or installed version; switched: last write before the
      current memtable; bound: above every log number;
      while recovering, recovered: last write in recovered tables, replayed: last write replayed. */
  datatype Spec = Spec(h: Writes, floor: nat, flushed: nat, switched: nat, bound: nat, recovered: nat, replayed: nat)

  // ---------- disk ----------

  ghost predicate Stored(tables: map<nat, Table>, nextFile: nat, v: Version) {
    && |v| == NUM_LEVELS
    && forall l, f :: 0 <= l < NUM_LEVELS && f in v[l] ==>
         f.number < nextFile && f.number in tables && tables[f.number] == f.table
  }

  /** The manifest's version answers for the first `top` writes. */
  ghost predicate ManifestInv(manifest: seq<VersionEdit>, tables: map<nat, Table>, h: Writes, floor: nat, top: nat) {
    && VersionInv(ReplayVersion(manifest), h, floor, top)
    && Stored(tables, NextFileOf(manifest), ReplayVersion(manifest))
    && SeenOk(manifest, ReplayVersion(manifest), NextFileOf(manifest))
    && LogNumberOf(manifest) < NextFileOf(manifest)
    && top <= LastSequenceOf(manifest) <= |h|
  }

  /** The logs from `logNumber` on hold the writes after `top`. */
  ghost predicate LogsHold(logs: Logs, logNumber: nat, bound: nat, h: Writes, top: nat) {
    && logNumber <= bound && Below(logs, bound)
    && Chain(Stream(logs, logNumber, bound), h, top, |h|)
  }

  /** The disk alone determines the history. */
  ghost predicate DiskInv(d: Disk, h: Writes, floor: nat, top: nat, bound: nat) {
    && floor <= |h| < MAX_SEQUENCE
    && ManifestInv(d.manifest, d.tables, h, floor, top)
    && LogsHold(d.logs, LogNumberOf(d.manifest), bound, h, top)
  }

  // ---------- memory ----------

  function Inserted(m: Memory): nat {
    m.lastSequence + (if m.writing.Inserting? then m.writing.done else 0)
  }

  ghost predicate WritingInv(w: Writing, lastSequence: nat, h: Writes) {
    match w
    case NoWrite => lastSequence == |h|
    case Logging(ops) => lastSequence == |h| && lastSequence + |ops| < MAX_SEQUENCE
    case Inserting(ops, done) => done <= |ops| && lastSequence + |ops| == |h| && ops == h[lastSequence..]
  }

  ghost predicate MemInv(mem: Table, imm: Option<Table>, inserted: nat, sp: Spec) {
    && sp.flushed <= sp.switched <= inserted <= |sp.h|
    && HoldsWrites(mem, sp.h, sp.switched, inserted)
    && (imm.None? ==> sp.flushed == sp.switched)
    && (imm.Some? ==> HoldsWrites(imm.value, sp.h, sp.flushed, sp.switched))
  }

  ghost predicate SnapshotsInv(snapshots: seq<nat>, floor: nat, lastSequence: nat) {
    && floor <= lastSequence
    && (forall i :: 0 <= i < |snapshots| ==> floor <= snapshots[i] <= lastSequence)
    && (forall i, j :: 0 <= i < j < |snapshots| ==> snapshots[i] <= snapshots[j])
  }

  ghost predicate LogsInv(logs: Logs, logNumber: nat, logfile: nat, sp: Spec) {
    && logNumber <= logfile && sp.bound == logfile + 1 && Below(logs, sp.bound)
    && logfile in logs
    && Chain(logs[logfile], sp.h, sp.switched, |sp.h|)
    && Chain(Stream(logs, logNumber, logfile), sp.h, sp.flushed, sp.switched)
  }

  ghost predicate FlushInv(flush: Flush, imm: Option<Table>, manifest: seq<VersionEdit>, tables: map<nat, Table>,
                           nextFile: nat, version: Version, installing: bool, job: Option<Job>)
    requires |version| == NUM_LEVELS
  {
    flush.Built? ==>
      && imm.Some?
      && (flush.file.None? ==> imm.value == [])
      && (flush.file.Some? ==> FlushFileInv(flush.file.value, imm.value, manifest, tables, nextFile, version, installing, job))
  }

  ghost predicate FlushFileInv(f: FileMeta, imm: Table, manifest: seq<VersionEdit>, tables: map<nat, Table>,
                               nextFile: nat, version: Version, installing: bool, job: Option<Job>)
    requires |version| == NUM_LEVELS
  {
    && FileOk(f) && f.table == imm
    && f.number < nextFile && f.number in tables && tables[f.number] == f.table
    && (!installing ==> Unseen(manifest, f.number) && NewerThanAll(f.number, version))
    && (job.Some? ==> forall o :: o in job.value.outs ==> o.number != f.number)
  }

  ghost predicate NewerThanAll(number: nat, version: Version)
    requires |version| == NUM_LEVELS
  {
    forall l, g :: 0 <= l < NUM_LEVELS && g in version[l] ==> g.number < number
  }

  /** The inputs of a running compaction, against the version as it is now: flushes may have been
      installed since the compaction started. */
  ghost predicate InputsInv(v: Version, j: Job)
    requires |v| == NUM_LEVELS
  {
    && InputsMatch(v, j)
    && RestAbove(v[j.level], j.in0, Entries(j.in0))
    && RestAbove(v[j.level + 1], j.in1, InputEntries(j.in0, j.in1))
    && (!j.manual ==> NoGap(v, j.level, j.in0, j.in1))
  }

  /** The part of it that the picking rules alone provide. */
  ghost predicate InputsMatch(v: Version, j: Job)
    requires |v| == NUM_LEVELS
  {
    && j.level + 1 < NUM_LEVELS && |j.base| == NUM_LEVELS
    && (forall f :: f in j.in0 ==> f in v[j.level])
    && (forall f :: f in j.in1 ==> f in v[j.level + 1])
    && (forall g :: g in v[j.level + 1] && g !in j.in1 ==> Apart(g, EntriesOf(JobOutput(j))))
    && IsMerge(j.input, j.in0, j.in1) && DistinctSeqnos(j.input)
    && (forall x :: x in j.input && IsBaseLevel(j.base, j.level, x.key.user) ==> NoDeeper(v, j.level, x.key.user))
  }

  ghost predicate OutputsInv(j: Job, manifest: seq<VersionEdit>, tables: map<nat, Table>, nextFile: nat, pending: set<nat>)
    requires |j.base| == NUM_LEVELS
  {
    && ConcatTables(j.outs) <= JobOutput(j)
    && (forall o :: o in j.outs ==> OutputInv(o, manifest, tables, nextFile, pending))
    && (forall a, b :: 0 <= a < b < |j.outs| ==> j.outs[a].number < j.outs[b].number)
  }

  ghost predicate OutputInv(o: FileMeta, manifest: seq<VersionEdit>, tables: map<nat, Table>, nextFile: nat, pending: set<nat>) {
    && FileOk(o) && o.number < nextFile && o.number in tables && tables[o.number] == o.table
    && o.number in pending && Unseen(manifest, o.number)
  }

  /** Once its edit is in the manifest a compaction has nothing left to do but be installed. */
  ghost predicate JobInv(job: Option<Job>, install: Option<Install>, manifest: seq<VersionEdit>, tables: map<nat, Table>,
                         version: Version, nextFile: nat, pending: set<nat>)
    requires |version| == NUM_LEVELS
  {
    job.Some? ==>
      && |job.value.base| == NUM_LEVELS
      && ((install.Some? ==> install.value.flush) ==>
            && InputsInv(version, job.value)
            && (install.Some? ==> InputsInv(NextVersion(version, install.value.edit), job.value))
            && OutputsInv(job.value, manifest, tables, nextFile, pending))
  }

  ghost predicate JobFloor(job: Option<Job>, floor: nat) {
    job.Some? ==> job.value.smallestSnapshot <= floor
  }

  /** A reader's sources still answer for its snapshot, whatever has happened since. */
  ghost predicate ReaderOk(r: Reader, h: Writes) {
    exists floor: nat, flushed: nat, switched: nat, upTo: nat ::
      && floor <= r.snapshot <= upTo <= |h| && flushed <= switched <= upTo
      && VersionInv(r.version, h, floor, flushed)
      && HoldsWrites(r.mem, h, switched, upTo)
      && (r.imm.None? ==> flushed == switched)
      && (r.imm.Some? ==> HoldsWrites(r.imm.value, h, flushed, switched))
  }

  ghost predicate ReadersInv(readers: seq<Reader>, tables: map<nat, Table>, nextFile: nat, h: Writes) {
    forall r :: r in readers ==> ReaderOk(r, h) && Stored(tables, nextFile, r.version)
  }

  /** How the installed version relates to the manifest. */
  ghost predicate InstallInv(manifest: seq<VersionEdit>, install: Option<Install>, version: Version, logNumber: nat, logfile: nat, imm: Option<Table>, flush: Flush)
    requires |version| == NUM_LEVELS
  {
    match install
    case None => version == ReplayVersion(manifest) && logNumber == LogNumberOf(manifest)
    case Some(i) =>
      && NextVersion(version, i.edit) == ReplayVersion(manifest)
      && i.edit.logNumber == Some(LogNumberOf(manifest))
      && (if i.flush then imm.Some? && LogNumberOf(manifest) == logfile else LogNumberOf(manifest) == logNumber && flush.NoFlush?)
  }

  /** The last write the durable version answers for. */
  function DurableTop(m: Memory, sp: Spec): nat {
    if m.install.Some? && m.install.value.flush then sp.switched else sp.flushed
  }

  ghost predicate UpInv(d: Disk, m: Memory, sp: Spec) {
    && DiskInv(d, sp.h, sp.floor, DurableTop(m, sp), sp.bound)
    && |m.version| == NUM_LEVELS
    && VersionInv(m.version, sp.h, sp.floor, sp.flushed)
    && Stored(d.tables, m.nextFile, m.version)
    && NextFileOf(d.manifest) <= m.nextFile && m.logfile < m.nextFile
    && InstallInv(d.manifest, m.install, m.version, m.logNumber, m.logfile, m.imm, m.flush)
    && WritingInv(m.writing, m.lastSequence, sp.h)
    && sp.flushed <= sp.switched <= m.lastSequence <= |sp.h|
    && MemInv(m.mem, m.imm, Inserted(m), sp)
    && SnapshotsInv(m.snapshots, sp.floor, m.lastSequence)
    && LogsInv(d.logs, m.logNumber, m.logfile, sp)
    && FlushInv(m.flush, m.imm, d.manifest, d.tables, m.nextFile, m.version, m.install.Some?, m.job)
    && JobInv(m.job, m.install, d.manifest, d.tables, m.version, m.nextFile, m.pending)
    && JobFloor(m.job, sp.floor)
    && ReadersInv(m.readers, d.tables, m.nextFile, sp.h)
  }

  // ---------- recovery ----------

  /** The version recovery is about to install. */
  function RecoveredVersion(r: Recovery): (v: Version)
    requires |r.version| == NUM_LEVELS
    ensures |v| == NUM_LEVELS
  {
    NextVersion(r.version, RecoveryEdit(r, 0))
  }

  ghost predicate RecoveredLogs(d: Disk, r: Recovery, sp: Spec) {
    && Chain(r.todo + Stream(d.logs, r.nextLog, sp.bound), sp.h, sp.replayed, |sp.h|)
    && (forall n :: n in d.logs && n < r.nextLog ==> n < r.nextFile || r.current == Some(n))
    && (r.current.None? ==> r.todo == [] && r.mem == [])
    && (r.newLog.Some? ==>
          && r.current.None?
          && r.newLog.value in d.logs && d.logs[r.newLog.value] == [] && sp.bound == r.newLog.value + 1
          && sp.replayed == |sp.h| && r.newLog.value < r.nextFile)
  }

  ghost predicate AddedInv(added: seq<FileMeta>, lo: nat, hi: nat) {
    && (forall i :: 0 <= i < |added| ==> lo <= added[i].number < hi)
    && (forall i, j :: 0 <= i < j < |added| ==> added[i].number < added[j].number)
  }

  ghost predicate RecInv(d: Disk, r: Recovery, sp: Spec) {
    && DiskInv(d, sp.h, sp.floor, sp.flushed, sp.bound)
    && r.version == ReplayVersion(d.manifest)
    && NextFileOf(d.manifest) < r.nextFile
    && AddedInv(r.added, NextFileOf(d.manifest), r.nextFile)
    && VersionInv(RecoveredVersion(r), sp.h, sp.floor, sp.recovered)
    && Stored(d.tables, r.nextFile, RecoveredVersion(r))
    && sp.recovered <= sp.replayed <= |sp.h|
    && HoldsWrites(r.mem, sp.h, sp.recovered, sp.replayed)
    && LastSequenceOf(d.manifest) <= r.maxSequence <= |sp.h| && sp.replayed <= r.maxSequence
    && RecoveredLogs(d, r, sp)
  }

  ghost predicate Inv(s: State, sp: Spec) {
    match s
    case Down(d) => DiskInv(d, sp.h, sp.floor, sp.flushed, sp.bound)
    case Recovering(d, r) => RecInv(d, r, sp)
    case Up(d, m) => UpInv(d, m, sp)
  }

  // ---------- how the reference state moves ----------

  ghost function NextSpec(sp: Spec, s: State, a: Action): Spec
    requires Enabled(s, a)
  {
    match s
    case Down(d) => sp.(recovered := sp.flushed, replayed := sp.flushed)
    case Recovering(d, r) => (
      match a
      case RecoverRecord => sp.(replayed := sp.replayed + |r.todo[0].ops|)
      case RecoverFlush(_) => sp.(recovered := sp.replayed)
      case RecoverNewLog => sp.(bound := r.nextFile + 1)
      case RecoverCommit => sp.(flushed := |sp.h|, switched := |sp.h|)
      case _ => sp)
    case Up(d, m) => (
      match a
      case AppendLog => sp.(h := sp.h + m.writing.ops)
      case SwitchMemTable => sp.(switched := |sp.h|, bound := m.nextFile + 1)
      case StartCompaction(_, _, _, _, _) => sp.(floor := if sp.floor < SmallestSnapshot(m) then SmallestSnapshot(m) else sp.floor)
      case InstallEdit => sp.(flushed := DurableTop(m, sp))
      case Crash => sp.(flushed := DurableTop(m, sp))
      case _ => sp)
  }

  const NEW_SPEC: Spec := Spec([], 0, 0, 0, 0, 0, 0)
}
