/** Every action of an open database keeps the invariant. */
module EngineSteps {
  import opened InternalKeys
  import opened Versions
  import opened VersionBuilder
  import opened VersionInvariant
  import opened History
  import opened LogStream
  import opened Manifest
  import opened Compactions
  import opened Picking
  import opened Engine
  import opened EngineInvariant

  // ---------- the history grows ----------

  lemma HoldsWritesExtends(t: Table, h: Writes, more: Writes, from: nat, upTo: nat)
    requires upTo <= |h| && HoldsWrites(t, h, from, upTo)
    ensures HoldsWrites(t, h + more, from, upTo)
  {
    forall i | from < i <= upTo ensures EntryAt(h + more, i) in t {
      assert EntryAt(h + more, i) == EntryAt(h, i);
    }
    forall e | e in t ensures e == EntryAt(h + more, e.key.seqno) {
      assert EntryAt(h + more, e.key.seqno) == EntryAt(h, e.key.seqno);
    }
  }

  lemma ReaderExtends(r: Reader, h: Writes, more: Writes)
    requires ReaderOk(r, h)
    ensures ReaderOk(r, h + more)
  {
    var floor: nat, flushed: nat, switched: nat, upTo: nat :|
      && floor <= r.snapshot <= upTo <= |h| && flushed <= switched <= upTo
      && VersionInv(r.version, h, floor, flushed)
      && HoldsWrites(r.mem, h, switched, upTo)
      && (r.imm.None? ==> flushed == switched)
      && (r.imm.Some? ==> HoldsWrites(r.imm.value, h, flushed, switched));
    InvariantIsMonotone(r.version, h, more, floor, floor, flushed);
    HoldsWritesExtends(r.mem, h, more, switched, upTo);
    if r.imm.Some? {
      HoldsWritesExtends(r.imm.value, h, more, flushed, switched);
    }
  }

  /** AddRecord: the group's record is in the log, so the group is part of the history. */
  lemma AppendLogKeeps(d: Disk, m: Memory, sp: Spec)
    requires UpInv(d, m, sp) && EnabledUp(d, m, AppendLog)
    ensures Inv(NextUp(d, m, AppendLog), NextSpec(sp, Up(d, m), AppendLog))
  {
    hide VersionInv, HoldsWrites, Stored, SeenOk, ReaderOk, SnapshotsInv, FlushInv, JobInv, Chain, Stream;
    var ops := m.writing.ops;
    var logs' := d.logs[m.logfile := d.logs[m.logfile] + [Batch(|sp.h| + 1, ops)]];
    AppendLogChains(d.logs, m.logNumber, m.logfile, sp, ops);
    AppendHoldsLogs(d.logs, LogNumberOf(d.manifest), m.logfile, sp, DurableTop(m, sp), ops);
    InvariantIsMonotone(ReplayVersion(d.manifest), sp.h, ops, sp.floor, sp.floor, DurableTop(m, sp));
    InvariantIsMonotone(m.version, sp.h, ops, sp.floor, sp.floor, sp.flushed);
    HoldsWritesExtends(m.mem, sp.h, ops, sp.switched, Inserted(m));
    if m.imm.Some? {
      HoldsWritesExtends(m.imm.value, sp.h, ops, sp.flushed, sp.switched);
    }
    forall r | r in m.readers ensures ReaderOk(r, sp.h + ops) {
      ReaderExtends(r, sp.h, ops);
    }
    assert ops == (sp.h + ops)[m.lastSequence..];
  }

  lemma AppendLogChains(logs: Logs, logNumber: nat, logfile: nat, sp: Spec, ops: Writes)
    requires LogsInv(logs, logNumber, logfile, sp)
    ensures LogsInv(logs[logfile := logs[logfile] + [Batch(|sp.h| + 1, ops)]], logNumber, logfile, sp.(h := sp.h + ops))
  {
    hide Chain, Stream;
    var logs' := logs[logfile := logs[logfile] + [Batch(|sp.h| + 1, ops)]];
    ChainAppend(logs[logfile], sp.h, ops, sp.switched);
    StreamAgrees(logs, logs', logNumber, logfile);
    ChainExtends(Stream(logs', logNumber, logfile), sp.h, ops, sp.flushed, sp.switched);
  }

  lemma AppendHoldsLogs(logs: Logs, logNumber: nat, logfile: nat, sp: Spec, top: nat, ops: Writes)
    requires LogsHold(logs, logNumber, sp.bound, sp.h, top) && sp.bound == logfile + 1 && logNumber <= logfile && logfile in logs
    ensures LogsHold(logs[logfile := logs[logfile] + [Batch(|sp.h| + 1, ops)]], logNumber, sp.bound, sp.h + ops, top)
  {
    hide Chain;
    var b := Batch(|sp.h| + 1, ops);
    var logs' := logs[logfile := logs[logfile] + [b]];
    StreamAgrees(logs, logs', logNumber, logfile);
    ChainAppend(Stream(logs, logNumber, sp.bound), sp.h, ops, top);
    var before := Stream(logs, logNumber, logfile);
    assert Stream(logs', logNumber, sp.bound) == before + (logs[logfile] + [b]);
    assert before + (logs[logfile] + [b]) == (before + logs[logfile]) + [b];
  }

  /** One entry of the group enters the memtable. */
  lemma InsertNextKeeps(d: Disk, m: Memory, sp: Spec)
    requires UpInv(d, m, sp) && EnabledUp(d, m, InsertNext)
    ensures Inv(NextUp(d, m, InsertNext), sp)
  {
    hide DiskInv, VersionInv, HoldsWrites, Stored, SnapshotsInv, FlushInv, JobInv, InstallInv, LogsInv, ReadersInv;
    hide Insert;
    var i := m.writing.done;
    var op := m.writing.ops[i];
    assert op == sp.h[Inserted(m)];
    InsertWrite(m.mem, sp.h, sp.switched, Inserted(m));
  }

  lemma InsertWrite(t: Table, h: Writes, from: nat, n: nat)
    requires from <= n < |h| && HoldsWrites(t, h, from, n)
    ensures HoldsWrites(Insert(t, EntryAt(h, n + 1)), h, from, n + 1)
  {
    hide Insert;
    var e := EntryAt(h, n + 1);
    InsertSorted(t, e);
    forall x ensures x in Insert(t, e) <==> x == e || x in t {
      InsertMembers(t, e, x);
    }
  }

  lemma PublishKeeps(d: Disk, m: Memory, sp: Spec)
    requires UpInv(d, m, sp) && EnabledUp(d, m, Publish)
    ensures Inv(NextUp(d, m, Publish), sp)
  {
    hide DiskInv, VersionInv, HoldsWrites, Stored, FlushInv, JobInv, InstallInv, LogsInv, ReadersInv;
  }

  lemma SwitchMemTableKeeps(d: Disk, m: Memory, sp: Spec)
    requires UpInv(d, m, sp) && EnabledUp(d, m, SwitchMemTable)
    ensures Inv(NextUp(d, m, SwitchMemTable), NextSpec(sp, Up(d, m), SwitchMemTable))
  {
    hide VersionInv, SeenOk, ReaderOk, SnapshotsInv, FlushFileInv, InputsInv, Chain, Stream, Unseen, FileOk, Kept,
         HoldsWrites, LogsInv, LogsHold, ManifestInv, NextVersion, ReplayVersion;
    EmptyHolds(sp.h, |sp.h|);
    assert sp.bound == m.logfile + 1 by { BoundOfLogs(d.logs, m.logNumber, m.logfile, sp); }
    SwitchLogs(d.logs, m.logNumber, m.logfile, sp, m.nextFile);
    SwitchHoldsLogs(d.logs, LogNumberOf(d.manifest), sp.bound, sp.h, DurableTop(m, sp), m.nextFile);
  }

  lemma BoundOfLogs(logs: Logs, logNumber: nat, logfile: nat, sp: Spec)
    requires LogsInv(logs, logNumber, logfile, sp)
    ensures sp.bound == logfile + 1
  {
  }

  lemma EmptyHolds(h: Writes, n: nat)
    requires n <= |h|
    ensures HoldsWrites([], h, n, n)
  {
  }

  lemma SwitchLogs(logs: Logs, logNumber: nat, logfile: nat, sp: Spec, n: nat)
    requires LogsInv(logs, logNumber, logfile, sp) && logfile < n && sp.switched <= |sp.h|
    requires sp.flushed == sp.switched
    ensures LogsInv(logs[n := []], logNumber, n, sp.(switched := |sp.h|, bound := n + 1))
  {
    var logs' := logs[n := []];
    StreamAgrees(logs, logs', logNumber, logfile);
    ChainJoin(Stream(logs, logNumber, logfile), logs[logfile], sp.h, sp.flushed, sp.switched, |sp.h|);
    GapIsEmpty(logs', logNumber, logfile + 1, n);
  }

  lemma SwitchHoldsLogs(logs: Logs, logNumber: nat, bound: nat, h: Writes, top: nat, n: nat)
    requires LogsHold(logs, logNumber, bound, h, top) && bound <= n
    ensures LogsHold(logs[n := []], logNumber, n + 1, h, top)
  {
    var logs' := logs[n := []];
    GapIsEmpty(logs', logNumber, bound, n);
    StreamAgrees(logs, logs', logNumber, bound);
    var before := Stream(logs', logNumber, n);
    assert Stream(logs', logNumber, n + 1) == before + [];
    assert before + [] == before;
  }

  lemma GapIsEmpty(logs: Logs, lo: nat, mid: nat, hi: nat)
    requires lo <= mid <= hi && forall n :: n in logs ==> n < mid || n >= hi
    ensures Stream(logs, lo, hi) == Stream(logs, lo, mid)
  {
    StreamSplit(logs, lo, mid, hi);
    StreamEmpty(logs, mid, hi);
  }

  // ---------- writing a table ----------

  lemma StoredAfterWrite(tables: map<nat, Table>, n: nat, v: Version, number: nat, t: Table)
    requires Stored(tables, n, v) && n <= number
    ensures Stored(tables[number := t], n, v) && Stored(tables[number := t], number + 1, v)
  {
  }

  lemma ManifestAfterWrite(manifest: seq<VersionEdit>, tables: map<nat, Table>, h: Writes, floor: nat, top: nat, number: nat, t: Table)
    requires ManifestInv(manifest, tables, h, floor, top) && NextFileOf(manifest) <= number
    ensures ManifestInv(manifest, tables[number := t], h, floor, top)
  {
    hide VersionInv, SeenOk;
  }

  lemma ReadersAfterWrite(readers: seq<Reader>, tables: map<nat, Table>, n: nat, h: Writes, number: nat, t: Table)
    requires ReadersInv(readers, tables, n, h) && n <= number
    ensures ReadersInv(readers, tables[number := t], number + 1, h)
  {
    hide ReaderOk;
  }

  lemma OutputsAfterWrite(j: Job, manifest: seq<VersionEdit>, tables: map<nat, Table>, n: nat, pending: set<nat>, number: nat, t: Table)
    requires |j.base| == NUM_LEVELS && OutputsInv(j, manifest, tables, n, pending) && n <= number
    ensures OutputsInv(j, manifest, tables[number := t], number + 1, pending)
  {
    hide FileOk, Unseen, Kept, ConcatTables;
  }

  /** A number not yet handed out is unknown to the manifest and above every installed file. */
  lemma NewNumberIsFresh(manifest: seq<VersionEdit>, v: Version, nextFile: nat, tables: map<nat, Table>)
    requires |v| == NUM_LEVELS && Stored(tables, nextFile, v)
    requires SeenOk(manifest, ReplayVersion(manifest), NextFileOf(manifest)) && NextFileOf(manifest) <= nextFile
    ensures Unseen(manifest, nextFile) && NewerThanAll(nextFile, v)
  {
  }

  lemma MetaIsOk(number: nat, size: nat, t: Table)
    requires t != [] && Sorted(t)
    ensures FileOk(MetaOf(number, size, t))
  {
  }

  // ---------- flush ----------

  lemma BuildLevel0Keeps(d: Disk, m: Memory, sp: Spec, size: nat)
    requires UpInv(d, m, sp) && EnabledUp(d, m, BuildLevel0(size))
    ensures Inv(NextUp(d, m, BuildLevel0(size)), sp)
  {
    hide VersionInv, HoldsWrites, SeenOk, SnapshotsInv, InputsInv, LogsInv, LogsHold, FileOk, Unseen, ReaderOk, ManifestInv, OutputInv, NewerThanAll;
    var t := m.imm.value;
    var n := m.nextFile;
    StoredAfterWrite(d.tables, n, m.version, n, t);
    ManifestAfterWrite(d.manifest, d.tables, sp.h, sp.floor, DurableTop(m, sp), n, t);
    ManifestBounds(d.manifest, d.tables, sp.h, sp.floor, DurableTop(m, sp));
    ReadersAfterWrite(m.readers, d.tables, n, sp.h, n, t);
    ReadersAfterNumber(m.readers, d.tables, n, sp.h);
    NewNumberIsFresh(d.manifest, m.version, n, d.tables);
    if m.job.Some? {
      OutputsAfterWrite(m.job.value, d.manifest, d.tables, n, m.pending, n, t);
      OutputsAfterNumber(m.job.value, d.manifest, d.tables, n, m.pending);
    }
    if t != [] {
      HeldTableIsSorted(t, sp.h, sp.flushed, sp.switched);
      MetaIsOk(n, size, t);
    }
  }

  lemma ManifestBounds(manifest: seq<VersionEdit>, tables: map<nat, Table>, h: Writes, floor: nat, top: nat)
    requires ManifestInv(manifest, tables, h, floor, top)
    ensures SeenOk(manifest, ReplayVersion(manifest), NextFileOf(manifest))
    ensures LogNumberOf(manifest) < NextFileOf(manifest) && top <= LastSequenceOf(manifest) <= |h|
    ensures VersionInv(ReplayVersion(manifest), h, floor, top)
  {
  }

  lemma HeldTableIsSorted(t: Table, h: Writes, from: nat, upTo: nat)
    requires upTo <= |h| && HoldsWrites(t, h, from, upTo)
    ensures Sorted(t)
  {
  }

  lemma ReadersAfterNumber(readers: seq<Reader>, tables: map<nat, Table>, n: nat, h: Writes)
    requires ReadersInv(readers, tables, n, h)
    ensures ReadersInv(readers, tables, n + 1, h)
  {
    hide ReaderOk;
  }

  lemma OutputsAfterNumber(j: Job, manifest: seq<VersionEdit>, tables: map<nat, Table>, n: nat, pending: set<nat>)
    requires |j.base| == NUM_LEVELS && OutputsInv(j, manifest, tables, n, pending)
    ensures OutputsInv(j, manifest, tables, n + 1, pending)
    ensures forall o :: o in j.outs ==> o.number < n
  {
    hide FileOk, Unseen, Kept, ConcatTables;
  }
}
