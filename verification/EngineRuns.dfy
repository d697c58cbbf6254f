/** The engine over whole runs: any interleaving of writes, flushes, compactions, moves, snapshots,
    reads, garbage collection, crashes and recoveries refines the multi-version map. */
module EngineRuns {
  import opened InternalKeys
  import opened Versions
  import opened VersionInvariant
  import opened History
  import opened LogStream
  import opened Manifest
  import opened Engine
  import opened EngineInvariant
  import opened EngineSteps
  import opened EngineFlush
  import opened EngineCompaction
  import opened EngineRecovery

  /** An engine state, the reference state beside it, and how many writes have been acknowledged. */
  datatype Config = Config(state: State, spec: Spec, acked: nat)

  const INITIAL: Config := Config(NEW_DATABASE, NEW_SPEC, 0)

  ghost predicate CanStep(c: Config, a: Action) {
    Enabled(c.state, a) && (c.state.Recovering? ==> |c.state.rec.version| == NUM_LEVELS)
  }

  ghost function Step(c: Config, a: Action): Config
    requires CanStep(c, a)
  {
    Config(Next(c.state, a), NextSpec(c.spec, c.state, a),
      if a.Publish? then c.state.vol.lastSequence + |c.state.vol.writing.ops| else c.acked)
  }

  ghost predicate ConfigInv(c: Config) {
    && Inv(c.state, c.spec)
    && c.acked <= |c.spec.h|
    && (c.state.Up? ==> c.acked <= c.state.vol.lastSequence)
  }

  // ---------- one step ----------

  predicate IsRecovery(a: Action) {
    a.Crash? || a.RecoverManifest? || a.RecoverLog? || a.RecoverRecord? || a.RecoverFlush? || a.RecoverEndLog?
    || a.RecoverNewLog? || a.RecoverCommit?
  }

  lemma UpStepKeeps(d: Disk, m: Memory, sp: Spec, a: Action)
    requires UpInv(d, m, sp) && EnabledUp(d, m, a)
    ensures Inv(NextUp(d, m, a), NextSpec(sp, Up(d, m), a))
  {
    hide UpInv, EnabledUp, NextUp, Inv;
    UpBasics(d, m, sp);
    match a
    case BeginWrite(ops) => BeginWriteKeeps(d, m, sp, ops);
    case AppendLog => AppendLogKeeps(d, m, sp);
    case InsertNext => InsertNextKeeps(d, m, sp);
    case Publish => PublishKeeps(d, m, sp);
    case SwitchMemTable => SwitchMemTableKeeps(d, m, sp);
    case BuildLevel0(size) => BuildLevel0Keeps(d, m, sp, size);
    case LogFlush(level) => LogFlushKeeps(d, m, sp, level);
    case StartCompaction(manual, level, in0, in1, input) => StartCompactionKeeps(d, m, sp, manual, level, in0, in1, input);
    case WriteOutput(size, t) => WriteOutputKeeps(d, m, sp, size, t);
    case LogCompaction => LogCompactionKeeps(d, m, sp);
    case LogMove(level, f) => LogMoveKeeps(d, m, sp, level, f);
    case InstallEdit =>
      assert m.install.Some? by { InstallPending(d, m); }
      if m.install.value.flush {
        InstallFlushKeeps(d, m, sp);
      } else {
        InstallCompactionKeeps(d, m, sp);
      }
    case DeleteObsolete => DeleteObsoleteKeeps(d, m, sp);
    case TakeSnapshot => SnapshotKeeps(d, m, sp, a);
    case ReleaseSnapshot(_) => SnapshotKeeps(d, m, sp, a);
    case BeginRead(s) => BeginReadKeeps(d, m, sp, s);
    case EndRead(i) => EndReadKeeps(d, m, sp, i);
    case _ => NotAnUpAction(d, m, a);
  }

  lemma UpBasics(d: Disk, m: Memory, sp: Spec)
    requires UpInv(d, m, sp)
    ensures |m.version| == NUM_LEVELS && (m.job.Some? ==> |m.job.value.base| == NUM_LEVELS)
  {
    hide DiskInv, VersionInv, MemInv, Stored, FlushInv, InstallInv, LogsInv, ReadersInv, SnapshotsInv, InputsInv, OutputsInv;
  }

  lemma InstallPending(d: Disk, m: Memory)
    requires |m.version| == NUM_LEVELS && (m.job.Some? ==> |m.job.value.base| == NUM_LEVELS)
    requires EnabledUp(d, m, InstallEdit)
    ensures m.install.Some?
  {
  }

  lemma NotAnUpAction(d: Disk, m: Memory, a: Action)
    requires |m.version| == NUM_LEVELS && (m.job.Some? ==> |m.job.value.base| == NUM_LEVELS)
    ensures IsRecovery(a) ==> !EnabledUp(d, m, a)
  {
  }

  lemma RecoveryStepKeeps(d: Disk, r: Recovery, sp: Spec, a: Action)
    requires RecInv(d, r, sp) && EnabledRecovering(d, r, a)
    ensures Inv(NextRecovering(d, r, a), NextSpec(sp, Recovering(d, r), a))
  {
    hide RecInv, NextRecovering, Inv;
    match a
    case RecoverLog(n) => RecoverLogKeeps(d, r, sp, n);
    case RecoverRecord => RecoverRecordKeeps(d, r, sp);
    case RecoverFlush(size) => RecoverFlushKeeps(d, r, sp, size);
    case RecoverEndLog => RecoverEndLogKeeps(d, r, sp);
    case RecoverNewLog => RecoverNewLogKeeps(d, r, sp);
    case RecoverCommit => RecoverCommitKeeps(d, r, sp);
  }

  /** Every action of every kind keeps the invariant and moves the history only forward. */
  lemma StepKeeps(c: Config, a: Action)
    requires ConfigInv(c) && CanStep(c, a)
    ensures ConfigInv(Step(c, a))
    ensures c.spec.h <= Step(c, a).spec.h
    ensures c.acked <= Step(c, a).acked
  {
    hide UpInv, RecInv, DiskInv, EnabledUp, EnabledRecovering, NextUp, NextRecovering;
    if a.Crash? {
      CrashKeeps(c.state, c.spec);
    } else {
      match c.state
      case Down(d) => RecoverManifestKeeps(d, c.spec);
      case Recovering(d, r) =>
        RecoveryStepKeeps(d, r, c.spec, a);
        RecoveryAcks(d, r, c.spec, a);
      case Up(d, m) =>
        UpStepKeeps(d, m, c.spec, a);
        UpAcks(d, m, c.spec, a);
    }
  }

  /** While open, the published sequence number never falls and never passes the history. */
  lemma UpAcks(d: Disk, m: Memory, sp: Spec, a: Action)
    requires UpInv(d, m, sp) && EnabledUp(d, m, a)
    ensures NextUp(d, m, a).Up?
    ensures m.lastSequence <= NextUp(d, m, a).vol.lastSequence <= |sp.h|
    ensures a.Publish? ==> m.writing.Inserting? && NextUp(d, m, a).vol.lastSequence == m.lastSequence + |m.writing.ops|
    ensures NextSpec(sp, Up(d, m), a).h == sp.h || NextSpec(sp, Up(d, m), a).h == sp.h + m.writing.ops
  {
    hide DiskInv, VersionInv, MemInv, Stored, FlushInv, JobInv, InstallInv, LogsInv, ReadersInv, SnapshotsInv;
  }

  lemma RecoveryAcks(d: Disk, r: Recovery, sp: Spec, a: Action)
    requires RecInv(d, r, sp) && EnabledRecovering(d, r, a)
    ensures NextSpec(sp, Recovering(d, r), a).h == sp.h
    ensures NextRecovering(d, r, a).Up? ==> NextRecovering(d, r, a).vol.lastSequence == |sp.h|
    ensures !NextRecovering(d, r, a).Down? && !a.Publish?
  {
    hide DiskInv, VersionInv, Chain, Stream, Stored, HoldsWrites;
  }

  // ---------- runs ----------

  ghost predicate ValidRun(c: Config, acts: seq<Action>)
    decreases |acts|
  {
    acts == [] || (CanStep(c, acts[0]) && ValidRun(Step(c, acts[0]), acts[1..]))
  }

  ghost function After(c: Config, acts: seq<Action>): Config
    requires ValidRun(c, acts)
    decreases |acts|
  {
    if acts == [] then c else After(Step(c, acts[0]), acts[1..])
  }

  lemma InitialInv()
    ensures ConfigInv(INITIAL)
  {
    hide VersionInv, SeenOk, VersionBuilder.ReplayVersion;
    var edit := VersionBuilder.VersionEdit(Some(0), Some(2), Some(0), {}, []);
    var manifest := NEW_DATABASE.disk.manifest;
    assert manifest == [edit];
    NewDatabaseVersion(edit);
    EmptyStored();
    assert [edit] == [] + [edit];
    AppendReads([], edit);
    assert Stream(map[], 0, 0) == [];
    assert ManifestInv(manifest, map[], [], 0, 0);
    assert LogsHold(map[], 0, 0, [], 0);
  }

  lemma EmptyStored()
    ensures Stored(map[], 2, EMPTY_VERSION)
  {
    assert forall l :: 0 <= l < NUM_LEVELS ==> EMPTY_VERSION[l] == [];
  }

  lemma NewDatabaseVersion(edit: VersionBuilder.VersionEdit)
    requires edit.added == [] && edit.deleted == {}
    ensures VersionBuilder.ReplayVersion([edit]) == EMPTY_VERSION
    ensures VersionInv(EMPTY_VERSION, [], 0, 0)
    ensures SeenOk([edit], EMPTY_VERSION, 2)
  {
    forall l | 0 <= l < NUM_LEVELS
      ensures VersionBuilder.ReplayState([edit])[l].added == [] && VersionBuilder.ReplayVersion([edit])[l] == []
    {
      NewDatabaseLevel(edit, l);
    }
    EmptyVersionInv();
  }

  lemma NewDatabaseLevel(edit: VersionBuilder.VersionEdit, l: nat)
    requires edit.added == [] && edit.deleted == {} && l < NUM_LEVELS
    ensures VersionBuilder.ReplayState([edit])[l].added == [] && VersionBuilder.ReplayVersion([edit])[l] == []
  {
    assert [edit][..0] == [];
    assert VersionBuilder.ReplayState([])[l].added == [];
  }

  lemma EmptyVersionInv()
    ensures VersionInv(EMPTY_VERSION, [], 0, 0)
  {
    var v := EMPTY_VERSION;
    assert forall l :: 0 <= l < NUM_LEVELS ==> v[l] == [];
    NoFilesShape(v);
    assert AllEntries(v) == {};
    hide Shape, Recency, AllEntries;
  }

  lemma NoFilesShape(v: Version)
    requires |v| == NUM_LEVELS && forall l :: 0 <= l < NUM_LEVELS ==> v[l] == []
    ensures Shape(v) && Recency(v)
  {
    assert forall l :: 0 <= l < NUM_LEVELS ==> Entries(v[l]) == {};
  }

  /** Over every run, from any sound configuration: the invariant holds at the end, the history has
      only grown, and no acknowledgement is forgotten. */
  lemma {:induction false} RunKeeps(c: Config, acts: seq<Action>)
    requires ConfigInv(c) && ValidRun(c, acts)
    ensures ConfigInv(After(c, acts))
    ensures c.spec.h <= After(c, acts).spec.h
    ensures c.acked <= After(c, acts).acked
    decreases |acts|
  {
    hide ConfigInv, CanStep, Step;
    if acts != [] {
      StepKeeps(c, acts[0]);
      RunKeeps(Step(c, acts[0]), acts[1..]);
    }
  }

  /** From a new database on, every reachable state satisfies the invariant. */
  lemma ReachableInv(acts: seq<Action>)
    requires ValidRun(INITIAL, acts)
    ensures ConfigInv(After(INITIAL, acts))
  {
    InitialInv();
    RunKeeps(INITIAL, acts);
  }

  /** Durability: whatever was acknowledged at some point of a run is, unchanged, a prefix of the
      history at every later point, crashes included, and is published whenever the database is open. */
  lemma AcknowledgedWritesSurvive(before: seq<Action>, later: seq<Action>)
    requires ValidRun(INITIAL, before) && ValidRun(After(INITIAL, before), later)
    ensures var c := After(INITIAL, before);
            var c' := After(c, later);
            && c.acked <= |c.spec.h| && c.spec.h[..c.acked] <= c'.spec.h
            && (c'.state.Up? ==> c.acked <= c'.state.vol.lastSequence)
  {
    hide Inv;
    ReachableInv(before);
    RunKeeps(After(INITIAL, before), later);
  }

  lemma {:induction false} RecoveryPreservesHistory(c: Config, acts: seq<Action>)
    requires ConfigInv(c) && ValidRun(c, acts) && !c.state.Up?
    requires forall i :: 0 <= i < |acts| ==> IsRecovery(acts[i])
    ensures After(c, acts).spec.h == c.spec.h
    ensures After(c, acts).state.Up? ==> After(c, acts).state.vol.lastSequence == |c.spec.h|
    decreases |acts|
  {
    if acts != [] {
      var a := acts[0];
      StepKeeps(c, a);
      RecoveryStepHistory(c, a);
      var c' := Step(c, a);
      assert forall i :: 0 <= i < |acts[1..]| ==> acts[1..][i] == acts[i + 1];
      if c'.state.Up? {
        OpenRunRecovers(c', acts[1..]);
      } else {
        RecoveryPreservesHistory(c', acts[1..]);
      }
    }
  }

  lemma RecoveryStepHistory(c: Config, a: Action)
    requires ConfigInv(c) && CanStep(c, a) && !c.state.Up? && IsRecovery(a)
    ensures Step(c, a).spec.h == c.spec.h
    ensures Step(c, a).state.Up? ==> Step(c, a).state.vol.lastSequence == |c.spec.h| && Step(c, a).state.vol.writing.NoWrite?
  {
    hide DiskInv, RecInv, Inv;
    if c.state.Recovering? && !a.Crash? {
      assert RecInv(c.state.disk, c.state.rec, c.spec) by { RecoveringInv(c); }
      RecoveryAcks(c.state.disk, c.state.rec, c.spec, a);
    }
  }

  lemma RecoveringInv(c: Config)
    requires ConfigInv(c) && c.state.Recovering?
    ensures RecInv(c.state.disk, c.state.rec, c.spec)
  {
    hide RecInv;
  }

  /** From an open, idle database: nothing but a crash is possible, and crashing keeps the history. */
  lemma {:induction false} OpenRunRecovers(c: Config, acts: seq<Action>)
    requires ConfigInv(c) && ValidRun(c, acts) && c.state.Up? && c.state.vol.lastSequence == |c.spec.h|
    requires forall i :: 0 <= i < |acts| ==> IsRecovery(acts[i])
    ensures After(c, acts).spec.h == c.spec.h
    ensures After(c, acts).state.Up? ==> After(c, acts).state.vol.lastSequence == |c.spec.h|
    decreases |acts|
  {
    if acts != [] {
      assert acts[0].Crash? by {
        NotAnUpAction(c.state.disk, c.state.vol, acts[0]);
      }
      StepKeeps(c, acts[0]);
      assert forall i :: 0 <= i < |acts[1..]| ==> acts[1..][i] == acts[i + 1];
      RecoveryPreservesHistory(Step(c, acts[0]), acts[1..]);
    }
  }

  /** Crash recovery: crash an open database at any point, crash again during recovery as often as
      you like; once it is open, its history is what had been published plus the group whose log
      record was complete, if there was one. */
  lemma CrashRecovery(c: Config, acts: seq<Action>)
    requires ConfigInv(c) && c.state.Up? && ValidRun(c, [Crash] + acts)
    requires forall i :: 0 <= i < |acts| ==> IsRecovery(acts[i])
    requires After(c, [Crash] + acts).state.Up?
    ensures var m := c.state.vol;
            var c' := After(c, [Crash] + acts);
            && m.lastSequence <= |c.spec.h|
            && c'.spec.h == c.spec.h[..m.lastSequence] + (if m.writing.Inserting? then m.writing.ops else [])
            && c'.state.vol.lastSequence == |c'.spec.h|
  {
    PublishedPlusInFlight(c.state.disk, c.state.vol, c.spec);
    CrashFirst(c, acts);
    StepKeeps(c, Crash);
    hide ConfigInv, CanStep, Step, ValidRun, After;
    RecoveryPreservesHistory(Step(c, Crash), acts);
  }

  lemma CrashFirst(c: Config, acts: seq<Action>)
    requires ConfigInv(c) && c.state.Up? && ValidRun(c, [Crash] + acts)
    ensures CanStep(c, Crash) && Step(c, Crash).state == Down(c.state.disk) && Step(c, Crash).spec.h == c.spec.h
    ensures ValidRun(Step(c, Crash), acts) && After(c, [Crash] + acts) == After(Step(c, Crash), acts)
  {
    assert ([Crash] + acts)[1..] == acts;
    hide UpInv, VersionInv;
  }

  lemma PublishedPlusInFlight(d: Disk, m: Memory, sp: Spec)
    requires UpInv(d, m, sp)
    ensures m.lastSequence <= |sp.h|
    ensures sp.h == sp.h[..m.lastSequence] + (if m.writing.Inserting? then m.writing.ops else [])
  {
    hide DiskInv, VersionInv, MemInv, Stored, FlushInv, JobInv, InstallInv, LogsInv, ReadersInv, SnapshotsInv;
  }

  // ---------- reads ----------

  /** DBImpl::Get after the mutex is released: memtable, immutable memtable, then the version. The
      memtable may have grown since it was captured. */
  method ReadFrom(mem: Table, r: Reader, user: UserKey, ghost h: Writes, ghost flushed: nat, ghost switched: nat, ghost floor: nat, ghost upTo: nat)
      returns (value: Option<Value>)
    requires floor <= r.snapshot <= upTo <= |h| && flushed <= switched <= upTo
    requires VersionInv(r.version, h, floor, flushed)
    requires HoldsWrites(mem, h, switched, upTo)
    requires r.imm.None? ==> flushed == switched
    requires r.imm.Some? ==> HoldsWrites(r.imm.value, h, flushed, switched)
    ensures value == Read(h, user, r.snapshot)
  {
    hide VersionOk, Recency, Sound, Covers, HoldsWrites;
    var e := Find(mem, user, r.snapshot);
    ghost var i := Latest(h, user, r.snapshot);
    MemtableLookup(mem, h, switched, upTo, user, r.snapshot);
    if e.None? && r.imm.Some? {
      e := Find(r.imm.value, user, r.snapshot);
      MemtableLookup(r.imm.value, h, flushed, switched, user, r.snapshot);
    }
    if e.None? {
      NumbersDistinctInLevel0(r.version);
      e := Versions.Get(r.version, user, r.snapshot);
      LookupReadsHistory(AllEntries(r.version), h, floor, flushed, user, r.snapshot, e);
    }
    value := ValueOf(e);
  }

  lemma NumbersDistinctInLevel0(v: Version)
    requires Shape(v)
    ensures |v| == NUM_LEVELS && NumbersDistinct(v[0])
  {
  }

  /** A memtable holding writes (from, upTo] answers for a snapshot exactly when the newest visible
      write of the key is among them. */
  lemma MemtableLookup(t: Table, h: Writes, from: nat, upTo: nat, user: UserKey, s: nat)
    requires from <= upTo <= |h| && s <= |h| && HoldsWrites(t, h, from, upTo)
    ensures Find(t, user, s).None? ==> Latest(h, user, s) <= from || Latest(h, user, s) > upTo
    ensures Find(t, user, s).Some? && Latest(h, user, s) <= upTo ==> ValueOf(Find(t, user, s)) == Read(h, user, s)
  {
    FindIsLookup(t, user, s);
    var i := Latest(h, user, s);
    var r := Find(t, user, s);
    if from < i <= upTo {
      assert EntryAt(h, i) in EntriesOf(t) && Visible(EntryAt(h, i), user, s);
    }
    if r.Some? && i <= upTo {
      assert r.value in EntriesOf(t);
      assert KeyAt(h, r.value.key.seqno) == user;
    }
  }

  /** The refinement theorem for reads: in every reachable open state, a Get at any live snapshot
      returns what the multi-version map holds there. */
  method Get(c: Config, user: UserKey, snapshot: nat) returns (value: Option<Value>)
    requires ConfigInv(c) && c.state.Up?
    requires snapshot == c.state.vol.lastSequence || snapshot in c.state.vol.snapshots
    ensures snapshot <= |c.spec.h| && value == Read(c.spec.h, user, snapshot)
  {
    hide DiskInv, VersionInv, HoldsWrites, Stored, FlushInv, JobInv, InstallInv, LogsInv, ReadersInv;
    var m := c.state.vol;
    SnapshotInRange(m.snapshots, c.spec.floor, m.lastSequence, snapshot);
    value := ReadFrom(m.mem, Reader(snapshot, m.mem, m.imm, m.version), user, c.spec.h, c.spec.flushed, c.spec.switched, c.spec.floor, Inserted(m));
  }

  /** A reader that captured its sources earlier gets the same answer now, whatever ran meanwhile. */
  method LateGet(c: Config, i: nat, user: UserKey) returns (value: Option<Value>)
    requires ConfigInv(c) && c.state.Up? && i < |c.state.vol.readers|
    ensures c.state.vol.readers[i].snapshot <= |c.spec.h|
    ensures Stored(c.state.disk.tables, c.state.vol.nextFile, c.state.vol.readers[i].version)
    ensures value == Read(c.spec.h, user, c.state.vol.readers[i].snapshot)
  {
    hide DiskInv, VersionInv, HoldsWrites, Stored, FlushInv, JobInv, InstallInv, LogsInv, MemInv, SnapshotsInv, WritingInv;
    var r := c.state.vol.readers[i];
    ghost var h := c.spec.h;
    assert ReaderOk(r, h);
    ghost var floor: nat, flushed: nat, switched: nat, upTo: nat :|
      && floor <= r.snapshot <= upTo <= |h| && flushed <= switched <= upTo
      && VersionInv(r.version, h, floor, flushed)
      && HoldsWrites(r.mem, h, switched, upTo)
      && (r.imm.None? ==> flushed == switched)
      && (r.imm.Some? ==> HoldsWrites(r.imm.value, h, flushed, switched));
    value := ReadFrom(r.mem, r, user, h, flushed, switched, floor, upTo);
  }
}
