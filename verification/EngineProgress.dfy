/** What the engine's steps achieve, beside what they keep: writes, flushes and compactions can be carried
    through, a snapshot stays until it is released, a crashed database can be opened again, and what
    is obsolete is deleted. */
module EngineProgress {
  import opened InternalKeys
  import opened Versions
  import opened VersionBuilder
  import opened VersionInvariant
  import opened History
  import opened LogStream
  import opened Manifest
  import opened Compactions
  import opened Picking
  import opened Engine
  import opened EngineInvariant
  import opened EngineSteps
  import opened EngineFlush
  import opened EngineCompaction
  import opened EngineRecovery
  import opened EngineRuns

  // ---------- runs ----------

  lemma OneMore(c: Config, a: Action, acts: seq<Action>)
    requires CanStep(c, a) && ValidRun(Step(c, a), acts)
    ensures ValidRun(c, [a] + acts) && After(c, [a] + acts) == After(Step(c, a), acts)
  {
    assert ([a] + acts)[1..] == acts;
  }

  lemma NoMore(c: Config)
    ensures ValidRun(c, []) && After(c, []) == c
  {
  }

  // ---------- opening a database ----------

  predicate Reopening(a: Action) {
    IsRecovery(a) && !a.Crash?
  }

  ghost function LogsLeft(d: Disk, r: Recovery): set<nat> {
    set n | n in d.logs && n >= r.nextLog
  }

  /** The next thing recovery does. */
  ghost function NextReopening(c: Config): Action
    requires !c.state.Up?
  {
    match c.state
    case Down(_) => RecoverManifest
    case Recovering(d, r) =>
      if r.newLog.Some? then RecoverCommit
      else if r.current.Some? then
        if r.todo != [] then RecoverRecord else if r.mem != [] then RecoverFlush(0) else RecoverEndLog
      else if LogsLeft(d, r) != {} then RecoverLog(Least(LogsLeft(d, r)))
      else RecoverNewLog
  }

  ghost function Least(s: set<nat>): (n: nat)
    requires s != {}
    ensures n in s && forall m :: m in s ==> n <= m
  {
    LeastExists(s);
    var n :| n in s && forall m :: m in s ==> n <= m;
    n
  }

  lemma {:induction false} LeastExists(s: set<nat>)
    requires s != {}
    ensures exists n :: n in s && forall m :: m in s ==> n <= m
  {
    var n :| n in s;
    var below := set m | m in s && m < n;
    if below != {} {
      LeastExists(below);
      var k :| k in below && forall m :: m in below ==> k <= m;
      forall m | m in s ensures k <= m {
        assert m < n ==> m in below;
      }
    } else {
      forall m | m in s ensures n <= m {
        assert m < n ==> m in below;
      }
    }
  }

  lemma ReopeningEnabled(c: Config)
    requires ConfigInv(c) && !c.state.Up?
    ensures CanStep(c, NextReopening(c)) && Reopening(NextReopening(c))
  {
    hide Inv, DiskInv, RecInv;
    if c.state.Recovering? {
      RecoveringVersion(c);
      var d, r := c.state.disk, c.state.rec;
      assert forall k: nat :: k in d.logs && k >= r.nextLog ==> k in LogsLeft(d, r);
    }
  }

  lemma RecoveringVersion(c: Config)
    requires ConfigInv(c) && c.state.Recovering?
    ensures |c.state.rec.version| == NUM_LEVELS
  {
    RecoveringInv(c);
    hide DiskInv, VersionInv, ReplayVersion, Stored, HoldsWrites, RecoveredLogs;
  }

  lemma LessLeft(logs: set<nat>, n: nat, more: set<nat>)
    requires n in logs && more <= logs && n !in more
    ensures |more| < |logs|
  {
    assert more <= logs - {n};
    SubsetSize(more, logs - {n});
  }

  lemma SubsetSize(a: set<nat>, b: set<nat>)
    requires a <= b
    ensures |a| <= |b|
  {
    if a != {} {
      var x :| x in a;
      SubsetSize(a - {x}, b - {x});
    }
  }

  /** However recovery has begun, it can be finished: the logs not yet read get fewer, then the records left of
      the current one, and in the end the database is open. */
  lemma Reopens(c: Config) returns (acts: seq<Action>)
    requires ConfigInv(c)
    ensures ValidRun(c, acts) && After(c, acts).state.Up?
    ensures forall i :: 0 <= i < |acts| ==> Reopening(acts[i])
    decreases if c.state.Up? then 0 else if c.state.Down? then 3 else if c.state.rec.newLog.Some? then 1 else 2,
      if c.state.Recovering? then |LogsLeft(c.state.disk, c.state.rec)| else 0,
      if c.state.Recovering? && c.state.rec.current.Some? then 1 else 0,
      if c.state.Recovering? then |c.state.rec.todo| else 0,
      if c.state.Recovering? && c.state.rec.mem != [] then 1 else 0
  {
    hide ConfigInv, InsertAll, NextVersion, ReplayVersion;
    if c.state.Up? {
      NoMore(c);
      return [];
    }
    var a := NextReopening(c);
    ReopeningEnabled(c);
    StepKeeps(c, a);
    var c' := Step(c, a);
    if a.RecoverLog? {
      LessLeft(LogsLeft(c.state.disk, c.state.rec), a.number, LogsLeft(c'.state.disk, c'.state.rec));
    }
    acts := Reopens(c');
    OneMore(c, a, acts);
    acts := [a] + acts;
  }

  /** Crash recovery always ends well: from any state of an open database a crash can be recovered from, and
      every write acknowledged or published before is there and readable again. */
  lemma CrashedDatabaseReopens(c: Config) returns (acts: seq<Action>)
    requires ConfigInv(c) && c.state.Up?
    ensures ValidRun(c, [Crash] + acts) && After(c, [Crash] + acts).state.Up?
    ensures forall i :: 0 <= i < |acts| ==> Reopening(acts[i])
    ensures var m := c.state.vol;
            var c' := After(c, [Crash] + acts);
            && m.lastSequence <= |c.spec.h|
            && c'.spec.h == c.spec.h[..m.lastSequence] + (if m.writing.Inserting? then m.writing.ops else [])
            && c'.state.vol.lastSequence == |c'.spec.h|
  {
    StepKeeps(c, Crash);
    acts := Reopens(Step(c, Crash));
    hide ConfigInv, Step, ValidRun, After;
    OneMore(c, Crash, acts);
    CrashRecovery(c, acts);
  }

  /** A crash may come at any time, while open or in the middle of recovery; memory is lost, the disk is not. */
  lemma CrashAnytime(c: Config)
    requires ConfigInv(c) && !c.state.Down?
    ensures CanStep(c, Crash) && Step(c, Crash).state == Down(c.state.disk)
  {
    hide DiskInv, VersionInv, MemInv, WritingInv, Stored, FlushInv, InstallInv, LogsInv, ReadersInv, SnapshotsInv, InputsInv, OutputsInv, NextSpec;
  }

  // ---------- snapshots and readers ----------

  /** What each step of an open database does to the lists of snapshots and readers. */
  lemma SnapshotsAfter(c: Config, a: Action)
    requires ConfigInv(c) && c.state.Up? && CanStep(c, a) && !a.Crash?
    ensures Step(c, a).state.Up?
    ensures var m, m' := c.state.vol, Step(c, a).state.vol;
            && (a.TakeSnapshot? ==> m'.snapshots == m.snapshots + [m.lastSequence])
            && (a.ReleaseSnapshot? ==> a.i < |m.snapshots| && m'.snapshots == m.snapshots[..a.i] + m.snapshots[a.i + 1..])
            && (!a.TakeSnapshot? && !a.ReleaseSnapshot? ==> m'.snapshots == m.snapshots)
            && (a.BeginRead? ==> m'.readers == m.readers + [Reader(a.snapshot, m.mem, m.imm, m.version)])
            && (a.EndRead? ==> a.i < |m.readers| && m'.readers == m.readers[..a.i] + m.readers[a.i + 1..])
            && (!a.BeginRead? && !a.EndRead? ==> m'.readers == m.readers)
  {
    hide ConfigInv, InsertAll, NextVersion, Purged;
  }

  /** The entry at position p is neither lost in a crash nor released. */
  predicate Held(p: nat, acts: seq<Action>)
    decreases |acts|
  {
    acts == [] || (!acts[0].Crash? && acts[0] != ReleaseSnapshot(p) && Held(PositionAfter(p, acts[0]), acts[1..]))
  }

  /** Releasing an earlier entry moves this one up. */
  function PositionAfter(p: nat, a: Action): nat {
    if a.ReleaseSnapshot? && a.i < p then p - 1 else p
  }

  function Position(p: nat, acts: seq<Action>): nat
    decreases |acts|
  {
    if acts == [] then p else Position(PositionAfter(p, acts[0]), acts[1..])
  }

  lemma {:induction false} SnapshotHeld(c: Config, p: nat, n: nat, acts: seq<Action>)
    requires ConfigInv(c) && c.state.Up? && ValidRun(c, acts) && Held(p, acts)
    requires p < |c.state.vol.snapshots| && c.state.vol.snapshots[p] == n
    ensures After(c, acts).state.Up?
    ensures Position(p, acts) < |After(c, acts).state.vol.snapshots| && After(c, acts).state.vol.snapshots[Position(p, acts)] == n
    decreases |acts|
  {
    hide ConfigInv, CanStep, Step;
    if acts != [] {
      StepKeeps(c, acts[0]);
      SnapshotsAfter(c, acts[0]);
      SnapshotHeld(Step(c, acts[0]), PositionAfter(p, acts[0]), n, acts[1..]);
    }
  }

  /** A snapshot once taken stays, whatever runs, until it is released: its number is the last one published
      then, it is still live at the end, and the map holds at it what it held then. */
  lemma SnapshotStays(c: Config, acts: seq<Action>)
    requires ConfigInv(c) && c.state.Up?
    requires ValidRun(c, [TakeSnapshot] + acts) && Held(|c.state.vol.snapshots|, acts)
    ensures var c', n := After(c, [TakeSnapshot] + acts), c.state.vol.lastSequence;
            && ConfigInv(c') && c'.state.Up?
            && n in c'.state.vol.snapshots && CanStep(c', BeginRead(n))
            && n <= |c.spec.h| <= |c'.spec.h| && forall user :: Read(c'.spec.h, user, n) == Read(c.spec.h, user, n)
  {
    hide ConfigInv, CanStep, Step, ValidRun, After, Read, Held;
    var p, n := |c.state.vol.snapshots|, c.state.vol.lastSequence;
    var c1 := TakenFirst(c, acts);
    SnapshotHeld(c1, p, n, acts);
    RunKeeps(c1, acts);
    var c' := After(c1, acts);
    assert c'.state.vol.snapshots[Position(p, acts)] == n;
    ReadEnabled(c', n);
    PublishedBound(c);
    forall user ensures n <= |c'.spec.h| && Read(c'.spec.h, user, n) == Read(c.spec.h, user, n) {
      LongerReadsSame(c.spec.h, c'.spec.h, user, n);
    }
  }

  lemma TakenFirst(c: Config, acts: seq<Action>) returns (c1: Config)
    requires ConfigInv(c) && c.state.Up? && ValidRun(c, [TakeSnapshot] + acts)
    ensures ConfigInv(c1) && c1.state.Up? && c.spec.h <= c1.spec.h
    ensures c1.state.vol.snapshots == c.state.vol.snapshots + [c.state.vol.lastSequence]
    ensures ValidRun(c1, acts) && After(c, [TakeSnapshot] + acts) == After(c1, acts)
  {
    hide ConfigInv, CanStep, Step;
    assert ([TakeSnapshot] + acts)[1..] == acts;
    StepKeeps(c, TakeSnapshot);
    SnapshotsAfter(c, TakeSnapshot);
    c1 := Step(c, TakeSnapshot);
  }

  lemma LongerReadsSame(h: Writes, h': Writes, user: UserKey, n: nat)
    requires h <= h' && n <= |h|
    ensures Read(h', user, n) == Read(h, user, n)
  {
    hide Read;
    assert h' == h + h'[|h|..];
    ReadIsStable(h, h'[|h|..], user, n);
  }

  /** A snapshot can be taken at any time and each open one released, a read begun at the last published
      number or at any live snapshot and nowhere else, and each reader may finish. */
  lemma SnapshotEnabled(c: Config)
    requires ConfigInv(c) && c.state.Up?
    ensures CanStep(c, TakeSnapshot)
    ensures forall n: nat :: CanStep(c, BeginRead(n)) <==> n == c.state.vol.lastSequence || n in c.state.vol.snapshots
    ensures forall i: nat :: CanStep(c, ReleaseSnapshot(i)) <==> i < |c.state.vol.snapshots|
    ensures forall i: nat :: CanStep(c, EndRead(i)) <==> i < |c.state.vol.readers|
  {
    hide DiskInv, VersionInv, MemInv, WritingInv, Stored, FlushInv, InstallInv, LogsInv, ReadersInv, SnapshotsInv, InputsInv, OutputsInv;
  }

  lemma ReadEnabled(c: Config, n: nat)
    requires ConfigInv(c) && c.state.Up? && n in c.state.vol.snapshots
    ensures CanStep(c, BeginRead(n))
  {
    hide DiskInv, VersionInv, MemInv, WritingInv, Stored, FlushInv, InstallInv, LogsInv, ReadersInv, SnapshotsInv, InputsInv, OutputsInv;
  }

  /** A get at a snapshot, whatever has run since it was taken, returns what the map held then. */
  method GetAtSnapshot(c: Config, acts: seq<Action>, user: UserKey, now: Config) returns (value: Option<Value>)
    requires ConfigInv(c) && c.state.Up?
    requires ValidRun(c, [TakeSnapshot] + acts) && Held(|c.state.vol.snapshots|, acts)
    requires now == After(c, [TakeSnapshot] + acts)
    ensures c.state.vol.lastSequence <= |c.spec.h| && value == Read(c.spec.h, user, c.state.vol.lastSequence)
  {
    hide ConfigInv, CanStep, Step, ValidRun, After, Read, Held;
    SnapshotStays(c, acts);
    value := EngineRuns.Get(now, user, c.state.vol.lastSequence);
  }

  lemma PublishedBound(c: Config)
    requires ConfigInv(c) && c.state.Up?
    ensures c.state.vol.lastSequence <= |c.spec.h|
  {
    hide DiskInv, VersionInv, MemInv, WritingInv, Stored, FlushInv, InstallInv, LogsInv, ReadersInv, SnapshotsInv, JobInv;
  }

  // ---------- writes ----------

  lemma {:induction false} ChainRuns(c: Config, a: seq<Action>, b: seq<Action>)
    requires ValidRun(c, a) && ValidRun(After(c, a), b)
    ensures ValidRun(c, a + b) && After(c, a + b) == After(After(c, a), b)
    decreases |a|
  {
    hide CanStep, Step;
    if a == [] {
      assert a + b == b;
    } else {
      ChainRuns(Step(c, a[0]), a[1..], b);
      assert (a + b)[1..] == a[1..] + b;
    }
  }

  /** A group whose record is in the log can always be finished. */
  lemma FinishesGroup(c: Config) returns (acts: seq<Action>)
    requires ConfigInv(c) && c.state.Up? && c.state.vol.writing.Inserting?
    ensures ValidRun(c, acts)
    ensures var c' := After(c, acts);
            && ConfigInv(c') && c'.state.Up? && c'.state.vol.writing == NoWrite
            && c'.spec.h == c.spec.h && c'.state.vol.lastSequence == c'.acked == |c.spec.h|
    decreases |c.state.vol.writing.ops| - c.state.vol.writing.done
  {
    var w := c.state.vol.writing;
    InsertingFacts(c);
    var a := if w.done < |w.ops| then InsertNext else Publish;
    StepKeeps(c, a);
    hide ConfigInv;
    if w.done < |w.ops| {
      acts := FinishesGroup(Step(c, a));
    } else {
      acts := [];
      NoMore(Step(c, a));
    }
    OneMore(c, a, acts);
    acts := [a] + acts;
  }

  lemma InsertingFacts(c: Config)
    requires ConfigInv(c) && c.state.Up? && c.state.vol.writing.Inserting?
    ensures var w := c.state.vol.writing;
            && w.done <= |w.ops| && c.state.vol.lastSequence + |w.ops| == |c.spec.h|
            && CanStep(c, if w.done < |w.ops| then InsertNext else Publish)
  {
    hide DiskInv, VersionInv, MemInv, Stored, FlushInv, InstallInv, LogsInv, ReadersInv, SnapshotsInv, InputsInv, OutputsInv;
  }

  /** Any group can be written whenever no other is being written: it then follows all earlier writes in the
      history, is acknowledged, and is published. */
  lemma WriteGoesThrough(c: Config, ops: Writes) returns (acts: seq<Action>)
    requires ConfigInv(c) && c.state.Up? && c.state.vol.writing.NoWrite? && c.state.vol.lastSequence + |ops| < MAX_SEQUENCE
    ensures ValidRun(c, acts)
    ensures var c' := After(c, acts);
            && ConfigInv(c') && c'.state.Up? && c'.state.vol.writing == NoWrite
            && c'.spec.h == c.spec.h + ops && c'.state.vol.lastSequence == c'.acked == |c.spec.h| + |ops|
  {
    BeginWriteEnabled(c, ops);
    var c1 := Step(c, BeginWrite(ops));
    StepKeeps(c, BeginWrite(ops));
    AppendEnabled(c1, ops);
    var c2 := Step(c1, AppendLog);
    StepKeeps(c1, AppendLog);
    assert c1.spec.h == c.spec.h && c2.spec.h == c1.spec.h + ops && c2.state.vol.writing == Inserting(ops, 0);
    hide ConfigInv, CanStep, Step;
    acts := FinishesGroup(c2);
    OneMore(c1, AppendLog, acts);
    OneMore(c, BeginWrite(ops), [AppendLog] + acts);
    acts := [BeginWrite(ops)] + ([AppendLog] + acts);
  }

  lemma BeginWriteEnabled(c: Config, ops: Writes)
    requires ConfigInv(c) && c.state.Up? && c.state.vol.writing.NoWrite? && c.state.vol.lastSequence + |ops| < MAX_SEQUENCE
    ensures CanStep(c, BeginWrite(ops))
    ensures Step(c, BeginWrite(ops)).state.Up? && Step(c, BeginWrite(ops)).state.vol.writing == Logging(ops)
    ensures Step(c, BeginWrite(ops)).spec.h == c.spec.h
  {
    hide DiskInv, VersionInv, MemInv, Stored, FlushInv, InstallInv, LogsInv, ReadersInv, SnapshotsInv, InputsInv, OutputsInv;
  }

  lemma AppendEnabled(c: Config, ops: Writes)
    requires ConfigInv(c) && c.state.Up? && c.state.vol.writing == Logging(ops)
    ensures CanStep(c, AppendLog)
    ensures Step(c, AppendLog).state.Up? && Step(c, AppendLog).state.vol.writing == Inserting(ops, 0)
    ensures Step(c, AppendLog).spec.h == c.spec.h + ops
  {
    hide DiskInv, VersionInv, MemInv, Stored, FlushInv, InstallInv, ReadersInv, SnapshotsInv, InputsInv, OutputsInv, Chain, Stream;
  }

  // ---------- flushes ----------

  /** The memtable can be set aside whenever no other is waiting to be flushed. */
  lemma MemTableSwitches(c: Config)
    requires ConfigInv(c) && c.state.Up? && c.state.vol.writing.NoWrite? && c.state.vol.imm.None?
    ensures CanStep(c, SwitchMemTable)
    ensures var m := Step(c, SwitchMemTable).state.vol;
            m.mem == [] && m.imm == Some(c.state.vol.mem) && m.logfile > c.state.vol.logfile
  {
    hide DiskInv, VersionInv, MemInv, Stored, FlushInv, InstallInv, LogsInv, ReadersInv, SnapshotsInv, InputsInv, OutputsInv;
  }

  /** A memtable set aside can be flushed whenever the background thread is between jobs, also in the middle of
      a compaction: afterwards only the current log is needed. */
  lemma FlushGoesThrough(c: Config) returns (acts: seq<Action>)
    requires ConfigInv(c) && c.state.Up? && c.state.vol.imm.Some? && Quiet(c.state.vol)
    ensures ValidRun(c, acts)
    ensures var c' := After(c, acts);
            && ConfigInv(c') && c'.state.Up? && c'.spec.h == c.spec.h
            && c'.state.vol.imm.None? && Quiet(c'.state.vol) && c'.state.vol.logNumber == c.state.vol.logfile
            && c'.spec.flushed == c.spec.switched
  {
    BuildEnabled(c);
    var c1 := Step(c, BuildLevel0(0));
    StepKeeps(c, BuildLevel0(0));
    LogFlushEnabled(c1);
    var c2 := Step(c1, LogFlush(0));
    StepKeeps(c1, LogFlush(0));
    InstallEnabled(c2);
    var c3 := Step(c2, InstallEdit);
    StepKeeps(c2, InstallEdit);
    hide ConfigInv, CanStep, Step;
    NoMore(c3);
    OneMore(c2, InstallEdit, []);
    OneMore(c1, LogFlush(0), [InstallEdit] + []);
    OneMore(c, BuildLevel0(0), [LogFlush(0)] + ([InstallEdit] + []));
    acts := [BuildLevel0(0)] + ([LogFlush(0)] + ([InstallEdit] + []));
  }

  lemma BuildEnabled(c: Config)
    requires ConfigInv(c) && c.state.Up? && c.state.vol.imm.Some? && Quiet(c.state.vol)
    ensures CanStep(c, BuildLevel0(0))
    ensures var c' := Step(c, BuildLevel0(0));
            && c'.state.Up? && c'.state.vol.flush.Built? && c'.state.vol.install.None? && c'.state.vol.imm == c.state.vol.imm
            && c'.spec == c.spec && c'.state.vol.logfile == c.state.vol.logfile
  {
    hide DiskInv, VersionInv, MemInv, Stored, InstallInv, LogsInv, ReadersInv, SnapshotsInv, InputsInv, OutputsInv;
  }

  lemma LogFlushEnabled(c: Config)
    requires ConfigInv(c) && c.state.Up? && c.state.vol.flush.Built? && c.state.vol.install.None?
    ensures CanStep(c, LogFlush(0))
    ensures var c' := Step(c, LogFlush(0));
            && c'.state.Up? && c'.spec == c.spec && c'.state.vol.logfile == c.state.vol.logfile
            && c'.state.vol.install == Some(Install(FlushEdit(c.state.vol, 0), true))
  {
    hide DiskInv, VersionInv, MemInv, Stored, InstallInv, LogsInv, ReadersInv, SnapshotsInv, InputsInv, OutputsInv;
  }

  lemma InstallEnabled(c: Config)
    requires ConfigInv(c) && c.state.Up? && c.state.vol.install.Some?
    ensures CanStep(c, InstallEdit)
    ensures var i, m, c' := c.state.vol.install.value, c.state.vol, Step(c, InstallEdit);
            && c'.state.Up? && c'.spec.h == c.spec.h && |m.version| == NUM_LEVELS && c'.state.vol.install.None?
            && c'.state.vol.version == NextVersion(m.version, i.edit)
            && (i.edit.logNumber.Some? ==> c'.state.vol.logNumber == i.edit.logNumber.value)
            && (if i.flush then c'.state.vol.imm.None? && c'.state.vol.flush.NoFlush? && c'.spec.flushed == c.spec.switched && c'.state.vol.job == m.job
                else c'.state.vol.job.None? && c'.state.vol.pending == {} && c'.state.vol.imm == m.imm && c'.state.vol.flush == m.flush)
  {
    hide DiskInv, VersionInv, MemInv, Stored, InstallInv, LogsInv, ReadersInv, SnapshotsInv, InputsInv, OutputsInv, NextVersion;
  }

  // ---------- compactions ----------

  /** A running compaction can always be finished: its outputs take the place of its inputs. */
  lemma CompactionGoesThrough(c: Config) returns (acts: seq<Action>)
    requires ConfigInv(c) && c.state.Up? && c.state.vol.job.Some? && Quiet(c.state.vol)
    ensures ValidRun(c, acts)
    ensures var j, c' := c.state.vol.job.value, After(c, acts);
            && ConfigInv(c') && c'.state.Up? && c'.spec.h == c.spec.h
            && c'.state.vol.job.None? && Quiet(c'.state.vol)
            && |c.state.vol.version| == NUM_LEVELS && |j.base| == NUM_LEVELS
            && exists outs :: ConcatTables(outs) == JobOutput(j) && Installs(c.state.vol.version, c'.state.vol.version, j.level, j.in0, j.in1, outs)
  {
    JobFacts(c);
    var j := c.state.vol.job.value;
    hide ConfigInv, CanStep, Step, ValidRun, After, JobOutput, ConcatTables, Installs, InputsInv, OutputsInv, VersionInv, ReplayVersion;
    var written := WritesRest(c);
    var last := InstallsResult(After(c, written));
    ChainRuns(c, written, last);
    acts := written + last;
  }

  lemma WritesRest(c: Config) returns (acts: seq<Action>)
    requires ConfigInv(c) && c.state.Up? && c.state.vol.job.Some? && Quiet(c.state.vol)
    requires |c.state.vol.job.value.base| == NUM_LEVELS && ConcatTables(c.state.vol.job.value.outs) <= JobOutput(c.state.vol.job.value)
    ensures ValidRun(c, acts)
    ensures var c', j := After(c, acts), c.state.vol.job.value;
            && ConfigInv(c') && c'.state.Up? && c'.spec.h == c.spec.h && Quiet(c'.state.vol) && c'.state.vol.version == c.state.vol.version
            && c'.state.vol.job.Some? && c'.state.vol.job.value == j.(outs := c'.state.vol.job.value.outs)
            && ConcatTables(c'.state.vol.job.value.outs) == JobOutput(j) == JobOutput(c'.state.vol.job.value)
  {
    var j := c.state.vol.job.value;
    var rest := JobOutput(j)[|ConcatTables(j.outs)|..];
    if rest == [] {
      assert JobOutput(j) == ConcatTables(j.outs);
      NoMore(c);
      return [];
    }
    WriteEnabled(c, rest);
    StepKeeps(c, WriteOutput(0, rest));
    hide ConfigInv, CanStep, Step, ConcatTables;
    NoMore(Step(c, WriteOutput(0, rest)));
    OneMore(c, WriteOutput(0, rest), []);
    acts := [WriteOutput(0, rest)] + [];
  }

  lemma JobBase(c: Config)
    requires ConfigInv(c) && c.state.Up?
    ensures c.state.vol.job.Some? ==> |c.state.vol.job.value.base| == NUM_LEVELS
  {
    hide DiskInv, VersionInv, MemInv, Stored, LogsInv, ReadersInv, SnapshotsInv, InputsInv, FlushInv, WritingInv, ReplayVersion, NextVersion, JobOutput, ConcatTables;
  }

  lemma JobFacts(c: Config)
    requires ConfigInv(c) && c.state.Up? && c.state.vol.job.Some? && Quiet(c.state.vol)
    ensures var j := c.state.vol.job.value;
            && |c.state.vol.version| == NUM_LEVELS && |j.base| == NUM_LEVELS && ConcatTables(j.outs) <= JobOutput(j)
            && InputsInv(c.state.vol.version, j)
            && OutputsInv(j, c.state.disk.manifest, c.state.disk.tables, c.state.vol.nextFile, c.state.vol.pending)
            && VersionInv(c.state.vol.version, c.spec.h, c.spec.floor, c.spec.flushed)
            && c.state.vol.version == ReplayVersion(c.state.disk.manifest)
  {
    hide DiskInv, VersionInv, MemInv, Stored, LogsInv, ReadersInv, SnapshotsInv, InputsInv, FlushInv, WritingInv, ReplayVersion, NextVersion, JobOutput, ConcatTables;
  }

  lemma WriteEnabled(c: Config, t: Table)
    requires ConfigInv(c) && c.state.Up? && c.state.vol.job.Some? && Quiet(c.state.vol)
    requires |c.state.vol.job.value.base| == NUM_LEVELS && t != []
    requires ConcatTables(c.state.vol.job.value.outs) + t == JobOutput(c.state.vol.job.value)
    ensures CanStep(c, WriteOutput(0, t))
    ensures var c', j := Step(c, WriteOutput(0, t)), c.state.vol.job.value;
            && c'.state.Up? && c'.spec == c.spec && Quiet(c'.state.vol) && c'.state.vol.version == c.state.vol.version
            && exists outs :: c'.state.vol.job == Some(j.(outs := outs)) && ConcatTables(outs) == JobOutput(j)
  {
    hide DiskInv, VersionInv, MemInv, Stored, InstallInv, LogsInv, ReadersInv, SnapshotsInv, InputsInv, OutputsInv, FlushInv, WritingInv, JobOutput;
    var j := c.state.vol.job.value;
    var f := MetaOf(c.state.vol.nextFile, 0, t);
    assert (j.outs + [f])[..|j.outs + [f]| - 1] == j.outs;
    assert ConcatTables(j.outs + [f]) == ConcatTables(j.outs) + t;
  }

  lemma InstallsResult(c: Config) returns (acts: seq<Action>)
    requires ConfigInv(c) && c.state.Up? && c.state.vol.job.Some? && Quiet(c.state.vol)
    requires |c.state.vol.job.value.base| == NUM_LEVELS && ConcatTables(c.state.vol.job.value.outs) == JobOutput(c.state.vol.job.value)
    ensures ValidRun(c, acts)
    ensures var j, c' := c.state.vol.job.value, After(c, acts);
            && ConfigInv(c') && c'.state.Up? && c'.spec.h == c.spec.h
            && c'.state.vol.job.None? && Quiet(c'.state.vol)
            && Installs(c.state.vol.version, c'.state.vol.version, j.level, j.in0, j.in1, j.outs)
  {
    JobFacts(c);
    LogCompactionEnabled(c);
    ResultInstalls(c);
    var c1 := Step(c, LogCompaction);
    StepKeeps(c, LogCompaction);
    InstallEnabled(c1);
    var c2 := Step(c1, InstallEdit);
    StepKeeps(c1, InstallEdit);
    hide ConfigInv, CanStep, Step, JobOutput, ConcatTables, Installs, InputsInv, OutputsInv, VersionInv, NextVersion, CompactionEdit;
    NoMore(c2);
    OneMore(c1, InstallEdit, []);
    OneMore(c, LogCompaction, [InstallEdit] + []);
    acts := [LogCompaction] + ([InstallEdit] + []);
  }

  lemma LogCompactionEnabled(c: Config)
    requires ConfigInv(c) && c.state.Up? && c.state.vol.job.Some? && Quiet(c.state.vol)
    requires |c.state.vol.job.value.base| == NUM_LEVELS && ConcatTables(c.state.vol.job.value.outs) == JobOutput(c.state.vol.job.value)
    ensures CanStep(c, LogCompaction)
    ensures var c', j := Step(c, LogCompaction), c.state.vol.job.value;
            && c'.state.Up? && c'.spec == c.spec && c'.state.vol.version == c.state.vol.version && c'.state.vol.flush.NoFlush?
            && c'.state.vol.install == Some(Install(CompactionEdit(c.state.vol, j.level, j.in0, j.in1, j.outs), false))
  {
    hide DiskInv, VersionInv, MemInv, Stored, InstallInv, LogsInv, ReadersInv, SnapshotsInv, InputsInv, OutputsInv, FlushInv, WritingInv, JobOutput, ConcatTables, CompactionEdit;
  }

  lemma ResultInstalls(c: Config)
    requires ConfigInv(c) && c.state.Up? && c.state.vol.job.Some? && Quiet(c.state.vol)
    requires |c.state.vol.job.value.base| == NUM_LEVELS && ConcatTables(c.state.vol.job.value.outs) == JobOutput(c.state.vol.job.value)
    ensures var m, j := c.state.vol, c.state.vol.job.value;
            && |m.version| == NUM_LEVELS
            && Installs(m.version, NextVersion(m.version, CompactionEdit(m, j.level, j.in0, j.in1, j.outs)), j.level, j.in0, j.in1, j.outs)
  {
    hide ConfigInv, JobOutput, ConcatTables, Installs, InputsInv, OutputsInv, VersionInv, NextVersion, CompactionEdit, ReplayVersion, RestAbove, MayDrop,
      PairwiseSeparated, Separated, FileOk, Sound, Covers, Recency;
    JobFacts(c);
    var d, m, j := c.state.disk, c.state.vol, c.state.vol.job.value;
    FinishedJobOk(m.version, j, d.manifest, d.tables, m.nextFile, m.pending);
    OutputsAreNew(m.version, j, d.manifest, d.tables, m.nextFile, m.pending);
    InvariantParts(m.version, c.spec.h, c.spec.floor, c.spec.flushed);
    CompactionEditInstalls(m, m.version, j.level, j.in0, j.in1, j.outs);
  }

  /** A compaction of guarded inputs can start whenever the background thread is free, and drops for the oldest
      snapshot still held, or for the last published number if there is none. */
  lemma CompactionStarts(c: Config, manual: bool, level: nat, in0: Level, in1: Level, input: Table)
    requires ConfigInv(c) && c.state.Up? && c.state.vol.imm.None? && c.state.vol.job.None? && Quiet(c.state.vol)
    requires |c.state.vol.version| == NUM_LEVELS && GuardedInputs(c.state.vol.version, level, in0, in1) && IsMerge(input, in0, in1)
    requires !manual ==> NoGap(c.state.vol.version, level, in0, in1)
    ensures CanStep(c, StartCompaction(manual, level, in0, in1, input))
    ensures var m, m' := c.state.vol, Step(c, StartCompaction(manual, level, in0, in1, input)).state.vol;
            && m'.job.Some? && Quiet(m') && m'.job.value.in0 == in0 && m'.job.value.in1 == in1
            && var s := m'.job.value.smallestSnapshot;
            && (if m.snapshots == [] then s == m.lastSequence else s in m.snapshots)
            && forall n :: n in m.snapshots ==> s <= n
  {
    hide DiskInv, VersionInv, MemInv, WritingInv, Stored, FlushInv, InstallInv, LogsInv, ReadersInv, InputsInv, OutputsInv, GuardedInputs, IsMerge, NoGap;
  }

  /** A guarded trivial move can be made whenever the background thread is free: the file is one level down. */
  lemma MoveGoesThrough(c: Config, level: nat, f: FileMeta) returns (acts: seq<Action>)
    requires ConfigInv(c) && c.state.Up? && c.state.vol.imm.None? && c.state.vol.job.None? && Quiet(c.state.vol)
    requires |c.state.vol.version| == NUM_LEVELS && GuardedInputs(c.state.vol.version, level, [f], [])
    ensures ValidRun(c, acts)
    ensures var c' := After(c, acts);
            && ConfigInv(c') && c'.state.Up? && c'.spec.h == c.spec.h && Quiet(c'.state.vol)
            && Installs(c.state.vol.version, c'.state.vol.version, level, [f], [], [f])
  {
    MoveEnabled(c, level, f);
    MoveInstalls(c, level, f);
    var c1 := Step(c, LogMove(level, f));
    StepKeeps(c, LogMove(level, f));
    InstallEnabled(c1);
    var c2 := Step(c1, InstallEdit);
    StepKeeps(c1, InstallEdit);
    hide ConfigInv, CanStep, Step, Installs, NextVersion, CompactionEdit, GuardedInputs;
    NoMore(c2);
    OneMore(c1, InstallEdit, []);
    OneMore(c, LogMove(level, f), [InstallEdit] + []);
    acts := [LogMove(level, f)] + ([InstallEdit] + []);
  }

  lemma MoveEnabled(c: Config, level: nat, f: FileMeta)
    requires ConfigInv(c) && c.state.Up? && c.state.vol.imm.None? && c.state.vol.job.None? && Quiet(c.state.vol)
    requires |c.state.vol.version| == NUM_LEVELS && GuardedInputs(c.state.vol.version, level, [f], [])
    ensures CanStep(c, LogMove(level, f))
    ensures var c' := Step(c, LogMove(level, f));
            && c'.state.Up? && c'.spec == c.spec && c'.state.vol.version == c.state.vol.version && c'.state.vol.flush.NoFlush?
            && c'.state.vol.install == Some(Install(CompactionEdit(c.state.vol, level, [f], [], [f]), false))
  {
    hide DiskInv, VersionInv, MemInv, WritingInv, Stored, FlushInv, InstallInv, LogsInv, ReadersInv, SnapshotsInv, InputsInv, OutputsInv, GuardedInputs, CompactionEdit;
  }

  lemma MoveInstalls(c: Config, level: nat, f: FileMeta)
    requires ConfigInv(c) && c.state.Up?
    requires |c.state.vol.version| == NUM_LEVELS && GuardedInputs(c.state.vol.version, level, [f], [])
    ensures Installs(c.state.vol.version, NextVersion(c.state.vol.version, CompactionEdit(c.state.vol, level, [f], [], [f])), level, [f], [], [f])
  {
    var v := c.state.vol.version;
    UpVersion(c);
    hide ConfigInv, NextVersion, CompactionEdit, Installs;
    InvariantParts(v, c.spec.h, c.spec.floor, c.spec.flushed);
    hide VersionInv, Sound, Covers, Recency;
    MoveIsCompaction(v, level, f, c.spec.h, c.spec.flushed);
    CompactionEditInstalls(c.state.vol, v, level, [f], [], [f]);
  }

  lemma UpVersion(c: Config)
    requires ConfigInv(c) && c.state.Up?
    ensures VersionInv(c.state.vol.version, c.spec.h, c.spec.floor, c.spec.flushed)
  {
    hide DiskInv, VersionInv, MemInv, WritingInv, Stored, FlushInv, InstallInv, LogsInv, ReadersInv, SnapshotsInv, JobInv;
  }

  /** The level is the output level of a running compaction that a client requested. */
  predicate IntoRequested(m: Memory, level: nat) {
    m.job.Some? && m.job.value.manual && level == m.job.value.level + 1
  }

  /** A flushed file may go to any level the placement rule allows, other than the output level of a running
      compaction that a client requested. */
  lemma FlushMaySink(c: Config, level: nat)
    requires ConfigInv(c) && c.state.Up? && c.state.vol.flush.Built? && c.state.vol.install.None?
    requires !IntoRequested(c.state.vol, level)
    requires |c.state.vol.version| == NUM_LEVELS
    requires c.state.vol.flush.file.Some? ==> PlacementOk(c.state.vol.version, level, c.state.vol.flush.file.value)
    ensures CanStep(c, LogFlush(level))
    ensures Step(c, LogFlush(level)).state.vol.install == Some(Install(FlushEdit(c.state.vol, level), true))
    ensures c.state.vol.flush.file.Some? ==> FlushEdit(c.state.vol, level).added == [(level, c.state.vol.flush.file.value)]
  {
    JobBase(c);
    hide DiskInv, VersionInv, MemInv, WritingInv, Stored, FlushInv, InstallInv, LogsInv, ReadersInv, SnapshotsInv, JobInv, PlacementOk;
  }

  // ---------- garbage collection ----------

  /** Deleting obsolete files leaves exactly what is needed: the logs from the log number on, and the tables that
      are being written, or belong to the installed version or to a version some reader holds. */
  lemma OnlyNeededFilesStay(c: Config)
    requires ConfigInv(c) && c.state.Up? && Quiet(c.state.vol)
    ensures CanStep(c, DeleteObsolete)
    ensures var d, m, s := c.state.disk, c.state.vol, Step(c, DeleteObsolete).state;
            && |m.version| == NUM_LEVELS && s.Up? && s.vol == m && s.disk.manifest == d.manifest
            && (forall n :: n in s.disk.logs <==> n in d.logs && (n >= m.logNumber || n == 0))
            && (forall n :: n in s.disk.logs ==> s.disk.logs[n] == d.logs[n])
            && (forall n :: n in s.disk.tables <==> n in d.tables && (n in m.pending || InVersion(m.version, n) || exists r :: r in m.readers && InVersion(r.version, n)))
            && (forall n :: n in s.disk.tables ==> s.disk.tables[n] == d.tables[n])
  {
    hide DiskInv, VersionInv, MemInv, Stored, InstallInv, LogsInv, ReadersInv, SnapshotsInv, InputsInv, OutputsInv, FlushInv, WritingInv;
    var m := c.state.vol;
    forall n ensures n in LiveTables(m) <==> n in m.pending || InVersion(m.version, n) || exists r :: r in m.readers && InVersion(r.version, n) {
      if exists r :: r in m.readers && InVersion(r.version, n) {
        var r :| r in m.readers && InVersion(r.version, n);
        var l, f :| 0 <= l < |r.version| && f in r.version[l] && f.number == n;
      }
    }
  }

  ghost predicate InVersion(v: Version, n: nat) {
    exists l, f :: 0 <= l < |v| && f in v[l] && f.number == n
  }
}
