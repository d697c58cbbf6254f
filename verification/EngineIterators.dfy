/** Iterating the whole database: the entries a reader holds, merged, are a snapshot of the
    multi-version map (DBImpl::NewInternalIterator and NewDBIterator). */
module EngineIterators {
  import opened InternalKeys
  import opened Versions
  import opened VersionInvariant
  import opened History
  import opened Engine
  import opened EngineInvariant
  import opened EngineRuns
  import opened DbIters

  /** Everything the internal iterator of a reader merges. */
  ghost function SourceEntries(r: Reader): set<Entry> {
    EntriesOf(r.mem) + (if r.imm.Some? then EntriesOf(r.imm.value) else {}) + AllEntries(r.version)
  }

  lemma SourcesSound(r: Reader, h: Writes, floor: nat, flushed: nat, switched: nat, upTo: nat)
    requires floor <= r.snapshot <= upTo <= |h| && flushed <= switched <= upTo
    requires VersionInv(r.version, h, floor, flushed) && HoldsWrites(r.mem, h, switched, upTo)
    requires r.imm.Some? ==> HoldsWrites(r.imm.value, h, flushed, switched)
    ensures Sound(SourceEntries(r), h, upTo)
  {
    hide Shape, Recency, Covers;
  }

  lemma SourcesCover(r: Reader, h: Writes, floor: nat, flushed: nat, switched: nat, upTo: nat)
    requires floor <= r.snapshot <= upTo <= |h| && flushed <= switched <= upTo
    requires VersionInv(r.version, h, floor, flushed) && HoldsWrites(r.mem, h, switched, upTo)
    requires r.imm.None? ==> flushed == switched
    requires r.imm.Some? ==> HoldsWrites(r.imm.value, h, flushed, switched)
    ensures Covers(SourceEntries(r), h, floor, upTo)
  {
    hide Shape, Recency;
    var all := SourceEntries(r);
    forall i {:trigger EntryAt(h, i)} | 1 <= i <= upTo && Needed(h, floor, i)
      ensures EntryAt(h, i) in all || (h[i - 1].kind == TypeDeletion && NothingOlder(all, KeyAt(h, i), i))
    {
      if i <= flushed {
        if EntryAt(h, i) !in AllEntries(r.version) {
          forall e | e in all && e.key.user == KeyAt(h, i) ensures e.key.seqno > i {
            assert NothingOlder(AllEntries(r.version), KeyAt(h, i), i);
          }
        }
      } else if i > switched {
        assert EntryAt(h, i) in r.mem;
      } else {
        assert EntryAt(h, i) in r.imm.value;
      }
    }
  }

  /** In every reachable state, the live map a DBIter walks for an open reader is the multi-version
      map at that reader's snapshot, whatever ran since the reader was opened. */
  lemma IterationReadsHistory(c: Config, i: nat, t: Table)
    requires ConfigInv(c) && c.state.Up? && i < |c.state.vol.readers|
    requires Sorted(t) && EntriesOf(t) == SourceEntries(c.state.vol.readers[i])
    ensures var s := c.state.vol.readers[i].snapshot;
            s <= |c.spec.h| && forall user :: LiveValue(t, s, user) == Read(c.spec.h, user, s)
  {
    hide DiskInv, VersionInv, HoldsWrites, Stored, FlushInv, JobInv, InstallInv, LogsInv, MemInv, SnapshotsInv, WritingInv;
    var r, h := c.state.vol.readers[i], c.spec.h;
    assert ReaderOk(r, h);
    var floor: nat, flushed: nat, switched: nat, upTo: nat :|
      && floor <= r.snapshot <= upTo <= |h| && flushed <= switched <= upTo
      && VersionInv(r.version, h, floor, flushed)
      && HoldsWrites(r.mem, h, switched, upTo)
      && (r.imm.None? ==> flushed == switched)
      && (r.imm.Some? ==> HoldsWrites(r.imm.value, h, flushed, switched));
    SourcesSound(r, h, floor, flushed, switched, upTo);
    SourcesCover(r, h, floor, flushed, switched, upTo);
    forall user ensures LiveValue(t, r.snapshot, user) == Read(h, user, r.snapshot) {
      FindIsLookup(t, user, r.snapshot);
      LookupReadsHistory(EntriesOf(t), h, floor, upTo, user, r.snapshot, Find(t, user, r.snapshot));
    }
  }
}
