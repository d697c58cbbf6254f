/** The storage engine as a state machine (db/db_impl.cc). A state is what is on disk plus, while
    the database is open, what DBImpl and VersionSet hold in memory. Every action is one stretch
    of code that no other thread or crash can observe half done: a critical section of the mutex,
    an append that a reader of the file sees whole or not at all, or a table file being finished. */
module Engine {
  import opened InternalKeys
  import opened Versions
  import opened VersionBuilder
  import opened VersionInvariant
  import opened History
  import opened LogStream
  import opened Manifest
  import opened Compactions
  import opened Picking

  datatype Disk = Disk(manifest: seq<VersionEdit>, logs: Logs, tables: map<nat, Table>)

  /** The write at the head of the writer queue: its group is being appended to the log, or is
      being inserted into the memtable entry by entry. */
  datatype Writing = NoWrite | Logging(ops: Writes) | Inserting(ops: Writes, done: nat)

  /** Progress of CompactMemTable; an empty memtable builds no file. */
  datatype Flush = NoFlush | Built(file: Option<FileMeta>)

  /** A running compaction, requested by a client or not: its inputs, the merged input stream, and the
      outputs finished so far. */
  datatype Job = Job(manual: bool, level: nat, in0: Level, in1: Level, input: Table, smallestSnapshot: nat, base: Version, outs: Level)

  /** An edit that is in the manifest but not yet installed in memory. */
  datatype Install = Install(edit: VersionEdit, flush: bool)

  /** What a Get holds on to after it releases the mutex. */
  datatype Reader = Reader(snapshot: nat, mem: Table, imm: Option<Table>, version: Version)

  datatype Memory = Memory(
    lastSequence: nat, mem: Table, imm: Option<Table>, logfile: nat, logNumber: nat, nextFile: nat, version: Version,
    snapshots: seq<nat>, writing: Writing, flush: Flush, job: Option<Job>, pending: set<nat>, install: Option<Install>,
    readers: seq<Reader>)

  /** DBImpl::Recover in progress: the log files before nextLog have been read, `todo` is what is
      left of the current one, and `added` are the level-0 files written so far. */
  datatype Recovery = Recovery(
    version: Version, maxSequence: nat, nextFile: nat, nextLog: nat, current: Option<nat>, todo: seq<Batch>,
    mem: Table, added: seq<FileMeta>, newLog: Option<nat>)

  datatype State = Down(disk: Disk) | Recovering(disk: Disk, rec: Recovery) | Up(disk: Disk, vol: Memory)

  datatype Action =
    | BeginWrite(ops: Writes) | AppendLog | InsertNext | Publish
    | SwitchMemTable
    | BuildLevel0(size: nat) | LogFlush(level: nat)
    | StartCompaction(manual: bool, level: nat, in0: Level, in1: Level, input: Table) | WriteOutput(size: nat, table: Table) | LogCompaction
    | LogMove(level: nat, file: FileMeta)
    | InstallEdit | DeleteObsolete
    | TakeSnapshot | ReleaseSnapshot(i: nat) | BeginRead(snapshot: nat) | EndRead(i: nat)
    | Crash | RecoverManifest | RecoverLog(number: nat) | RecoverRecord | RecoverFlush(size: nat) | RecoverEndLog | RecoverNewLog | RecoverCommit

  // ---------- pieces of the actions ----------

  function MetaOf(number: nat, size: nat, t: Table): FileMeta
    requires t != []
  {
    FileMeta(number, size, t[0].key, t[|t| - 1].key, t)
  }

  /** MemTableInserter: consecutive sequence numbers from base. */
  function InsertAll(t: Table, base: nat, ops: Writes): Table
    decreases |ops|
  {
    if ops == [] then t
    else
      var n := |ops| - 1;
      Insert(InsertAll(t, base, ops[..n]), Entry(InternalKey(ops[n].key, base + n, ops[n].kind), ops[n].value))
  }

  function SmallestSnapshot(m: Memory): nat {
    if m.snapshots == [] then m.lastSequence else m.snapshots[0]
  }

  ghost function ConcatTables(outs: Level): Table {
    if outs == [] then [] else ConcatTables(outs[..|outs| - 1]) + outs[|outs| - 1].table
  }

  ghost function JobOutput(j: Job): Table
    requires |j.base| == NUM_LEVELS
  {
    Kept(j.input, |j.input|, j.smallestSnapshot, j.base, j.level)
  }

  function FlushEdit(m: Memory, level: nat): VersionEdit
    requires m.flush.Built?
  {
    VersionEdit(Some(m.logfile), Some(m.nextFile), Some(m.lastSequence), {},
      if m.flush.file.Some? then [(level, m.flush.file.value)] else [])
  }

  function Deletions(level: nat, files: Level): set<(nat, nat)> {
    set f | f in files :: (level, f.number)
  }

  function CompactionEdit(m: Memory, level: nat, in0: Level, in1: Level, outs: Level): VersionEdit {
    VersionEdit(Some(m.logNumber), Some(m.nextFile), Some(m.lastSequence),
      Deletions(level, in0) + Deletions(level + 1, in1), LevelAdds(outs, level + 1))
  }

  /** The edit recovery commits: every recovered table at level 0, earlier logs obsolete. */
  function RecoveryEdit(r: Recovery, newLog: nat): VersionEdit {
    VersionEdit(Some(newLog), Some(r.nextFile), Some(r.maxSequence), {}, LevelAdds(r.added, 0))
  }

  ghost function LiveTables(m: Memory): set<nat> {
    m.pending + (set l, f | 0 <= l < |m.version| && f in m.version[l] :: f.number)
      + (set r, l, f | r in m.readers && 0 <= l < |r.version| && f in r.version[l] :: f.number)
  }

  /** The files left behind by DeleteObsoleteFiles; the previous log number is always 0. */
  ghost function Purged(d: Disk, m: Memory): Disk {
    Disk(d.manifest,
      map n | n in d.logs && (n >= m.logNumber || n == 0) :: d.logs[n],
      map n | n in d.tables && n in LiveTables(m) :: d.tables[n])
  }

  /** A file lies wholly before or wholly after all the entries. */
  ghost predicate Apart(f: FileMeta, entries: set<Entry>) {
    || (forall x :: x in entries ==> Less(f.largest, x.key))
    || (forall x :: x in entries ==> Less(x.key, f.smallest))
  }

  /** The merged stream of the input tables. */
  ghost predicate IsMerge(input: Table, in0: Level, in1: Level) {
    Sorted(input) && EntriesOf(input) == InputEntries(in0, in1)
  }

  /** Inputs as the picking code delivers them, and the boundary guard it lacks. */
  ghost predicate GuardedInputs(v: Version, level: nat, in0: Level, in1: Level)
    requires |v| == NUM_LEVELS
  {
    && InputsPicked(v, level, in0, in1)
    && (level > 0 ==> BoundaryClosed(v[level], in0))
    && BoundaryClosed(v[level + 1], in1)
  }

  // ---------- when an action may happen ----------

  /** The background thread is between jobs: nothing half installed, no flush under way. */
  predicate Quiet(m: Memory) {
    m.flush.NoFlush? && m.install.None?
  }

  ghost predicate EnabledUp(d: Disk, m: Memory, a: Action)
    requires |m.version| == NUM_LEVELS
    requires m.job.Some? ==> |m.job.value.base| == NUM_LEVELS
  {
    match a
    case BeginWrite(ops) => m.writing.NoWrite? && m.lastSequence + |ops| < MAX_SEQUENCE
    case AppendLog => m.writing.Logging? && m.logfile in d.logs
    case InsertNext => m.writing.Inserting? && m.writing.done < |m.writing.ops|
    case Publish => m.writing.Inserting? && m.writing.done == |m.writing.ops|
    case SwitchMemTable => m.writing.NoWrite? && m.imm.None?
    case BuildLevel0(_) => m.imm.Some? && Quiet(m)
    case LogFlush(level) =>
      && m.flush.Built? && m.install.None?
      && (m.flush.file.Some? ==> PlacementOk(m.version, level, m.flush.file.value))
      && (m.flush.file.Some? && m.job.Some? && m.job.value.manual && level == m.job.value.level + 1 ==>
            Apart(m.flush.file.value, EntriesOf(JobOutput(m.job.value))))
    case StartCompaction(manual, level, in0, in1, input) =>
      && m.imm.None? && m.job.None? && Quiet(m)
      && GuardedInputs(m.version, level, in0, in1) && IsMerge(input, in0, in1)
      && (!manual ==> NoGap(m.version, level, in0, in1))
    case WriteOutput(_, table) =>
      && m.job.Some? && Quiet(m) && table != []
      && ConcatTables(m.job.value.outs) + table <= JobOutput(m.job.value)
    case LogCompaction =>
      && m.job.Some? && Quiet(m)
      && ConcatTables(m.job.value.outs) == JobOutput(m.job.value)
    case LogMove(level, file) =>
      && m.imm.None? && m.job.None? && Quiet(m)
      && GuardedInputs(m.version, level, [file], [])
    case InstallEdit => m.install.Some?
    case DeleteObsolete => Quiet(m)
    case TakeSnapshot => true
    case ReleaseSnapshot(i) => i < |m.snapshots|
    case BeginRead(s) => s == m.lastSequence || s in m.snapshots
    case EndRead(i) => i < |m.readers|
    case _ => false
  }

  ghost predicate EnabledRecovering(d: Disk, r: Recovery, a: Action) {
    match a
    case RecoverLog(n) => r.current.None? && r.newLog.None? && n in d.logs && r.nextLog <= n && forall k :: r.nextLog <= k < n ==> k !in d.logs
    case RecoverRecord => r.todo != []
    case RecoverFlush(_) => r.current.Some?
    case RecoverEndLog => r.current.Some? && r.todo == [] && r.mem == []
    case RecoverNewLog => r.current.None? && r.newLog.None? && forall n :: n in d.logs ==> n < r.nextLog
    case RecoverCommit => r.newLog.Some?
    case _ => false
  }

  ghost predicate Enabled(s: State, a: Action) {
    match s
    case Down(d) => a.RecoverManifest?
    case Recovering(d, r) => a.Crash? || EnabledRecovering(d, r, a)
    case Up(d, m) =>
      && |m.version| == NUM_LEVELS
      && (m.job.Some? ==> |m.job.value.base| == NUM_LEVELS)
      && (a.Crash? || EnabledUp(d, m, a))
  }

  // ---------- what an action does ----------

  ghost function NextUp(d: Disk, m: Memory, a: Action): State
    requires |m.version| == NUM_LEVELS
    requires m.job.Some? ==> |m.job.value.base| == NUM_LEVELS
    requires EnabledUp(d, m, a)
  {
    match a
    case BeginWrite(ops) => Up(d, m.(writing := Logging(ops)))
    case AppendLog =>
      Up(d.(logs := d.logs[m.logfile := d.logs[m.logfile] + [Batch(m.lastSequence + 1, m.writing.ops)]]),
         m.(writing := Inserting(m.writing.ops, 0)))
    case InsertNext =>
      var i := m.writing.done;
      var op := m.writing.ops[i];
      Up(d, m.(mem := Insert(m.mem, Entry(InternalKey(op.key, m.lastSequence + 1 + i, op.kind), op.value)),
               writing := Inserting(m.writing.ops, i + 1)))
    case Publish => Up(d, m.(lastSequence := m.lastSequence + |m.writing.ops|, writing := NoWrite))
    case SwitchMemTable =>
      Up(d.(logs := d.logs[m.nextFile := []]),
         m.(imm := Some(m.mem), mem := [], logfile := m.nextFile, nextFile := m.nextFile + 1))
    case BuildLevel0(size) =>
      var t := m.imm.value;
      if t == [] then Up(d, m.(flush := Built(None), nextFile := m.nextFile + 1))
      else Up(d.(tables := d.tables[m.nextFile := t]),
              m.(flush := Built(Some(MetaOf(m.nextFile, size, t))), nextFile := m.nextFile + 1))
    case LogFlush(level) =>
      var edit := FlushEdit(m, level);
      Up(d.(manifest := d.manifest + [edit]), m.(install := Some(Install(edit, true))))
    case StartCompaction(manual, level, in0, in1, input) =>
      Up(d, m.(job := Some(Job(manual, level, in0, in1, input, SmallestSnapshot(m), m.version, []))))
    case WriteOutput(size, t) =>
      var f := MetaOf(m.nextFile, size, t);
      Up(d.(tables := d.tables[m.nextFile := t]),
         m.(job := Some(m.job.value.(outs := m.job.value.outs + [f])), pending := m.pending + {m.nextFile}, nextFile := m.nextFile + 1))
    case LogCompaction =>
      var j := m.job.value;
      var edit := CompactionEdit(m, j.level, j.in0, j.in1, j.outs);
      Up(d.(manifest := d.manifest + [edit]), m.(install := Some(Install(edit, false))))
    case LogMove(level, file) =>
      var edit := CompactionEdit(m, level, [file], [], [file]);
      Up(d.(manifest := d.manifest + [edit]), m.(install := Some(Install(edit, false))))
    case InstallEdit =>
      var i := m.install.value;
      var m1 := m.(version := NextVersion(m.version, i.edit), logNumber := i.edit.logNumber.GetOr(0), install := None);
      Up(d, if i.flush then m1.(imm := None, flush := NoFlush) else m1.(job := None, pending := {}))
    case DeleteObsolete => Up(Purged(d, m), m)
    case TakeSnapshot => Up(d, m.(snapshots := m.snapshots + [m.lastSequence]))
    case ReleaseSnapshot(i) => Up(d, m.(snapshots := m.snapshots[..i] + m.snapshots[i + 1..]))
    case BeginRead(s) => Up(d, m.(readers := m.readers + [Reader(s, m.mem, m.imm, m.version)]))
    case EndRead(i) => Up(d, m.(readers := m.readers[..i] + m.readers[i + 1..]))
  }

  /** Recovery writes its new manifest aside and switches CURRENT to it in one step. */
  ghost function NextRecovering(d: Disk, r: Recovery, a: Action): State
    requires EnabledRecovering(d, r, a)
    requires |r.version| == NUM_LEVELS
  {
    match a
    case RecoverLog(n) => Recovering(d, r.(current := Some(n), todo := d.logs[n], nextLog := n + 1))
    case RecoverRecord =>
      var b := r.todo[0];
      var last := b.base + |b.ops| - 1;
      Recovering(d, r.(todo := r.todo[1..], mem := InsertAll(r.mem, b.base, b.ops),
                       maxSequence := if last > r.maxSequence then last else r.maxSequence))
    case RecoverFlush(size) =>
      if r.mem == [] then Recovering(d, r.(nextFile := r.nextFile + 1))
      else
      Recovering(d.(tables := d.tables[r.nextFile := r.mem]),
                 r.(mem := [], added := r.added + [MetaOf(r.nextFile, size, r.mem)], nextFile := r.nextFile + 1))
    case RecoverEndLog =>
      var n := r.current.value;
      Recovering(d, r.(current := None, nextFile := if r.nextFile <= n then n + 1 else r.nextFile))
    case RecoverNewLog =>
      Recovering(d.(logs := d.logs[r.nextFile := []]), r.(newLog := Some(r.nextFile), nextFile := r.nextFile + 1))
    case RecoverCommit =>
      var log := r.newLog.value;
      var edit := RecoveryEdit(r, log);
      Up(d.(manifest := [SnapshotEdit(r.version), edit]),
         Memory(r.maxSequence, [], None, log, log, r.nextFile, NextVersion(r.version, edit),
                [], NoWrite, NoFlush, None, {}, None, []))
  }

  ghost function Next(s: State, a: Action): State
    requires Enabled(s, a)
    requires s.Recovering? ==> |s.rec.version| == NUM_LEVELS
  {
    if a.Crash? then Down(s.disk)
    else match s
      case Down(d) =>
        Recovering(d, Recovery(ReplayVersion(d.manifest), LastSequenceOf(d.manifest), NextFileOf(d.manifest) + 1,
                               LogNumberOf(d.manifest), None, [], [], [], None))
      case Recovering(d, r) => NextRecovering(d, r, a)
      case Up(d, m) => NextUp(d, m, a)
  }

  /** A database directory just created by NewDB. */
  const NEW_DATABASE: State := Down(Disk([VersionEdit(Some(0), Some(2), Some(0), {}, [])], map[], map[]))
}
