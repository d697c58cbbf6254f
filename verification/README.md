# LevelDB storage engine and nanopb codec: a verified model

The mobile application in this repository vendors two libraries with real algorithms in them: the
LevelDB 1.20 storage engine and the nanopb 0.3.9.1 Protocol Buffers codec. This project models both
and proves what they are for.

**The engine.** The specification is a plain multi-version map: a sequence of writes, the i-th write
having sequence number i (`History.Read` looks up a key at a sequence number). The implementation is
`Engine`: a memtable, an immutable memtable, seven levels of sorted tables, write-ahead logs and a
manifest, changed by one action for each stretch of code that nothing can observe half done. Writes,
flushes, trivial moves, compactions, snapshots, reads that outlive the mutex, deletion of obsolete
files, a crash at any point and every step of recovery are actions. `EngineRuns` proves, for every run
from a new database, that reads agree with the map, that acknowledged writes survive, and that recovery
rebuilds exactly what was published plus at most the group whose log record was complete. `EngineProgress`
proves that nothing stands in the way: writes, flushes, moves and compactions can be carried through, a snapshot
stays until it is released, garbage is what nobody needs, and a crashed database can always be opened again.

The layers under it are modelled in the form the code has, as classes and methods with loops that are
proved against functions: the version builder, input picking, the merge loop, group commit, the skip
list with its lock-free readers, the four iterators, blocks, tables and their filters, the log format,
CRC32C, the edit and batch codecs, and the LRU cache over its hash table.

**The codec.** `Protobuf` defines the wire form of a message (a tree of values under a tree of
descriptors) by recursion. The encoder, with its sizing passes, produces exactly that; the decoder reads
any list of records that fits, in any order and with unknown ones between them, and so gives an encoded
message back.

## How the files fit together

| part | files |
|---|---|
| keys, versions, the map they must agree with | `InternalKeys`, `Versions`, `History`, `VersionInvariant` |
| edits and the manifest | `VersionBuilder`, `VersionSetBuilder`, `Manifest`, `EditCodec` |
| flush placement, compaction inputs, the merge loop | `Picking`, `Scores`, `Compaction`, `Guards` |
| the engine and its runs | `Engine`, `EngineInvariant`, `EngineSteps`, `EngineFlush`, `EngineCompaction`, `EngineRecovery`, `EngineRuns`, `EngineProgress`, `EngineIterators`, `EngineWriters`, `LogStream` |
| the writer queue, snapshots, memtable index | `GroupCommit`, `SnapshotList`, `SkipList`, `WriteBatch` |
| iterators | `Cursors`, `DbIter`, `Merger`, `TwoLevel`, `BlockIter` |
| files | `Coding`, `Crc32c`, `LogFormat`, `Blocks`, `BlockBuilder`, `Comparators`, `Filters`, `FilterBlock`, `Tables` |
| block cache | `HandleTable`, `LruCache` |
| nanopb | `Protobuf`, `ProtobufReplay`, `ProtobufEncode`, `ProtobufStream`, `ProtobufFields`, `ProtobufDecode` |

## Findings

This version of LevelDB does not enforce two guards that its guarantees need. `Guards` gives, for each, the exact
condition under which the guarantee holds, for all inputs, and concrete states in which it fails.

1. *A user key split at the edge of a compaction's inputs.* An output file may end between two versions of one user
   key (`ios/Pods/leveldb-library/db/db_impl.cc:998-1004`), and a later compaction may take one part and leave the
   other. Two things can go wrong. A newer version can sink below an older one that stays behind
   (`Guards.UnguardedMoveHidesNewestWrite`): the newest write is hidden. Or the merge can drop a deletion whose
   older versions stay behind, on the compacted level (`Guards.UnguardedMergeRestoresDeleted`) or on the next one
   (`Guards.UnguardedParentRestoresDeleted`): levels and recency are then in order, and the deleted value is back.
   `Guards.CompactionKeepsMeaningIff` says exactly when neither happens: wherever a key is split between an input
   and a file left behind, the input's version was not written below what stays above it, and no deletion that a
   live snapshot reads was dropped. If both sets of inputs are boundary-closed no key is split at all
   (`Guards.ClosedInputsAreHarmless`). For a move alone the condition is boundary closure itself
   (`Guards.MoveKeepsRecencyIff`).
2. *Flush inside a compaction.* A memtable flushed by the compaction loop (`ios/Pods/leveldb-library/db/db_impl.cc:917-927`)
   may land in the output level, in a gap of the running compaction's key range. However the outputs are cut, the
   level will be in order, if and only if the flushed file lies to one side of the merge result
   (`Guards.InstallAfterFlushOrderedIff`); `Guards.UnguardedFlushIsLost` follows every rule in the code and loses a
   write. Only a compaction requested by a client for a range can have such a gap: inputs grown from one file leave
   none (`Picking.PickInputs`), and a flush then misses them by itself (`EngineFlush.FlushMissesTheGap`).

The engine's actions carry the first guard for every compaction, and the second for requested compactions only;
everything else about them is as in the code. Two smaller divergences from what comments or names suggest are kept as
they are in the code. Clearing a `VersionEdit` leaves its compaction pointers, so decoding gives an edit back if and
only if the object had none (`EditCodec.DecodedIsEncodedIff`). And a null batch, which asks for the memtable to be
switched, may be carried along by a writer ahead of it and return without that switch
(`GroupCommit.CarriedRequestIsNotServed`); it gets its switch if and only if no leader ahead of it built its group
with the request already queued and no sync request or size limit in between (`GroupCommit.NullRequestSwitchesIff`).

## Model

| member | source | states |
|---|---|---|
| `InternalKeys.LessIsTotalOrder` | ios/Pods/leveldb-library/db/dbformat.cc:50-66 | Internal keys (user key ascending, sequence number and type descending) are totally ordered |
| `InternalKeys.FindIsLookup` | ios/Pods/leveldb-library/db/memtable.cc:108-143 | One seek to the lookup key and one user-key comparison give the newest version visible at the sequence number, or show that there is none |
| `InternalKeys.LookupUnique` | ios/Pods/leveldb-library/db/memtable.cc:108-143 | Any two correct lookups agree once sequence numbers tell versions apart: the answer does not depend on where the entries are kept |
| `InternalKeys.InsertSorted` | ios/Pods/leveldb-library/db/memtable.cc:82-106 | Adding an entry with a new key keeps the memtable sorted |
| `Versions.FindFile` | ios/Pods/leveldb-library/db/version_set.cc:86-105 | The binary search splits an ordered level exactly at the first file whose largest key is not below the target |
| `Versions.GetInLevel` | ios/Pods/leveldb-library/db/version_set.cc:376-389 | Probing the one file binary search finds is a correct lookup in the whole level |
| `Versions.InsertNewestFirst` | ios/Pods/leveldb-library/db/version_set.cc:283-285 | Newest-first order is kept and no file is lost or invented |
| `Versions.GetInLevel0` | ios/Pods/leveldb-library/db/version_set.cc:357-375 | Probing overlapping level-0 files newest first is a correct lookup in all of level 0 |
| `Versions.Get` | ios/Pods/leveldb-library/db/version_set.cc:332-429 | Searching the levels in order and stopping at the first hit gives the newest visible version of the whole version, given that shallower means newer |
| `Versions.FirstHitIsNewest` | ios/Pods/leveldb-library/db/version_set.cc:346-428 | Why stopping at the first hit is right: under recency no deeper level can hold a newer visible version |
| `History.LookupReadsHistory` | ios/Pods/leveldb-library/db/db_impl.cc:1109-1154 | A correct lookup over entries that are writes of the history, and that cover every write a live snapshot needs, reads what the multi-version map holds |
| `History.ReadIsStable` | ios/Pods/leveldb-library/db/db_impl.cc:1118-1131 | What a snapshot reads never changes when later writes are added |
| `History.ReadIsMap` | ios/Pods/leveldb-library/db/db_impl.cc:1182-1192 | The reference is a map: a key holds the value last put, or nothing once deleted, and a write leaves every other key alone |
| `VersionInvariant.FlushKeepsInvariant` | ios/Pods/leveldb-library/db/version_set.cc:502-528 | Installing a flushed memtable at a level the placement rule allows keeps order, recency, soundness and coverage, and the version now answers for the flushed writes |
| `VersionInvariant.RewriteKeepsInvariantIff` | ios/Pods/leveldb-library/db/db_impl.cc:916-1008 | Whatever files a rewrite leaves behind: with both drop rules applied, every snapshot at or above the new floor still finds its answer and order and recency survive, if and only if nothing written below is newer than what stays above it and no dropped deletion that is still read was hiding a version left behind |
| `VersionInvariant.CompactionKeepsInvariant` | ios/Pods/leveldb-library/db/db_impl.cc:916-1008 | The sufficient case used by the engine: a compaction that leaves nothing older behind preserves meaning, order and recency |
| `VersionInvariant.RecencyIffOutputsBelowRest` | ios/Pods/leveldb-library/db/version_set.cc:1345-1396 | Rewriting two levels keeps shallower-is-newer if and only if nothing written below is newer than what stays behind above it |
| `VersionInvariant.OrderedIffSeparated` | ios/Pods/leveldb-library/db/version_set.cc:739-754 | A level sorted by smallest key has disjoint ascending ranges if and only if its files are pairwise apart |
| `VersionInvariant.NeededIsNotHidden` | ios/Pods/leveldb-library/db/db_impl.cc:955-957 | The first drop rule never drops a write some live snapshot needs |
| `VersionInvariant.DroppedDeletionHidesNothing` | ios/Pods/leveldb-library/db/db_impl.cc:958-969 | The second drop rule: after a deletion marker is dropped at its base level, nothing older of that key is left for it to hide unless a file left behind at the two levels holds it |
| `VersionInvariant.DroppedDeletionIsLastIff` | ios/Pods/leveldb-library/db/db_impl.cc:958-969 | Every entry dropped only by the second rule is a deletion, and is older than all that remains of its key if and only if neither level has left an older version behind |
| `VersionInvariant.InvariantIsMonotone` | ios/Pods/leveldb-library/db/db_impl.cc:1175-1184 | Releasing snapshots and adding writes never invalidates an installed version |
| `VersionBuilder.SortedFilesUnique` | ios/Pods/leveldb-library/db/version_set.cc:605-619 | A strictly sorted file list is determined by its members, so two ways of building a level can be compared by membership |
| `VersionBuilder.SaveLevelMembers` | ios/Pods/leveldb-library/db/version_set.cc:711-757 | The merge of base and added files holds exactly those files whose number is not deleted |
| `VersionBuilder.SaveLevelSorted` | ios/Pods/leveldb-library/db/version_set.cc:711-757 | The merged level is strictly sorted |
| `VersionBuilder.NextVersionMembers` | ios/Pods/leveldb-library/db/version_set.cc:665-772 | Which files a version holds after an edit, including that an addition cancels a deletion of the same number in the same edit |
| `VersionBuilder.NextVersionSorted` | ios/Pods/leveldb-library/db/version_set.cc:665-772 | Applying an edit keeps each level strictly sorted when its additions are new |
| `VersionBuilder.ReplayStep` | ios/Pods/leveldb-library/db/version_set.cc:939-1025 | Replaying a history of edits through one builder equals installing its versions one at a time, when no level is given a file it has seen |
| `VersionSetBuilder.Builder.Apply` | ios/Pods/leveldb-library/db/version_set.cc:665-709 | The builder's recorded deletions and additions after an edit |
| `VersionSetBuilder.Builder.SaveLevelTo` | ios/Pods/leveldb-library/db/version_set.cc:711-757 | The loop that merges one level produces the merge of base and added files less the deleted ones |
| `VersionSetBuilder.Builder.SaveTo` | ios/Pods/leveldb-library/db/version_set.cc:711-757 | All seven levels are merged into the version the recorded changes describe |
| `VersionSetBuilder.Recover` | ios/Pods/leveldb-library/db/version_set.cc:939-1025 | One pass over the manifest fails exactly when the next-file, log or last-sequence number was never recorded, and otherwise yields the replayed version and the last recorded numbers |
| `Compactions.Compaction.IsBaseLevelForKey` | ios/Pods/leveldb-library/db/version_set.cc:1484-1503 | Asked about ascending keys, the monotone level pointers answer exactly as a full scan of the deeper levels would |
| `Compactions.Compaction.ShouldStopBefore` | ios/Pods/leveldb-library/db/version_set.cc:1505-1526 | The cursor moves past exactly the grandparent files below the key, and the output is cut if and only if the bytes passed since the last cut exceed the limit |
| `Compactions.Compaction.DoCompactionWork` | ios/Pods/leveldb-library/db/db_impl.cc:887-1054 | Wherever outputs are cut, strung together they are exactly the entries neither drop rule removes; each records its own first and last key; none goes on beyond the size limit or past more grandparent bytes than allowed, and each but the last was ended because of one of these |
| `Compactions.DropsAreJustified` | ios/Pods/leveldb-library/db/db_impl.cc:955-971 | Every entry the loop drops is one that a compaction may drop: hidden by a newer version all snapshots see, or a deletion with nothing beneath it |
| `Compactions.OlderIsHidden` | ios/Pods/leveldb-library/db/db_impl.cc:946-957 | Everything older than a version that all live snapshots see is dropped |
| `Compactions.SurvivesIff` | ios/Pods/leveldb-library/db/db_impl.cc:946-971 | An entry of the merged stream is kept if and only if no newer entry of its key in the stream is one that all live snapshots see, and it is not a deletion they all see with nothing of its key deeper down |
| `Compactions.KeptSorted` | ios/Pods/leveldb-library/db/db_impl.cc:936-1008 | What the merge keeps is strictly sorted |
| `Compactions.KeptMembers` | ios/Pods/leveldb-library/db/db_impl.cc:936-1008 | What the merge keeps is exactly the input entries that were not dropped |
| `Picking.SomeFileOverlapsRange` | ios/Pods/leveldb-library/db/version_set.cc:107-156 | The binary search over disjoint files and the linear scan both decide whether some file meets the range, open ends included |
| `Picking.GetOverlappingInputs` | ios/Pods/leveldb-library/db/version_set.cc:531-572 | The files meeting a range; at level 0 the restarts terminate in the least range around the query that is closed under overlap, and all its files |
| `Picking.PickLevelForMemTableOutput` | ios/Pods/leveldb-library/db/version_set.cc:502-528 | A flushed file sinks exactly as far as the next level is clear and the overlap two levels down is small, to level 2 at most, never past a file it meets |
| `Picking.GetRange` | ios/Pods/leveldb-library/db/version_set.cc:1224-1247 | The least internal-key range over the files, both ends attained |
| `Picking.SetupOtherInputs` | ios/Pods/leveldb-library/db/version_set.cc:1345-1383 | Parents are all files meeting the hull; the inputs expand exactly when that brings in more files, no further parent, and stays within the size limit; at level 0 nothing left behind meets the hull; what lay to one side of all inputs still does |
| `Picking.PickFirstFile` | ios/Pods/leveldb-library/db/version_set.cc:1305-1317 | The first file past the compaction pointer, wrapping to the first file only when every file is at or before the pointer |
| `Picking.PickInputs` | ios/Pods/leveldb-library/db/version_set.cc:1326-1342 | A compaction seeded with one file, widened at level 0, has properly picked inputs that include it, without a gap a file clear of both levels could lie in |
| `Picking.Picker.PickCompaction` | ios/Pods/leveldb-library/db/version_set.cc:1291-1396 | A level with too much data goes before a file with too many seeks; the inputs are properly picked and include the first file past the level's pointer, or the file asked for; that pointer alone moves, to the largest key taken; the grandparents are all files two levels down that meet the whole range |
| `Picking.NextStartsPast` | ios/Pods/leveldb-library/db/version_set.cc:1305-1317 | Round robin: the next compaction of the level starts past everything the last one took, for as long as anything is there |
| `Scores.Finalize` | ios/Pods/leveldb-library/db/version_set.cc:1064-1100 | The first of the levels with the highest score; the last level is never chosen |
| `Scores.DueIff` | ios/Pods/leveldb-library/db/version_set.cc:1064-1100 | A level is due exactly when it has four files, at level 0, or ten megabytes times ten to the level less one |
| `Scores.MaxBytesForLevel` | ios/Pods/leveldb-library/db/version_set.cc:40-50 | The loop multiplies by ten once for each level past the first |
| `Scores.FinalizeAndPick` | ios/Pods/leveldb-library/db/version_set.cc:1064-1342 | Whenever some level is due, the most due one is compacted, and it has a file to start from |
| `Picking.CompactRange` | ios/Pods/leveldb-library/db/version_set.cc:1413-1446 | A manual compaction takes the files that meet the range, below level 0 the shortest prefix of them that reaches the size limit, and reports none only if there is none |
| `Picking.RestAboveIffBoundaryClosed` | ios/Pods/leveldb-library/db/version_set.cc:1345-1383 | What a pick leaves behind is newer than what it takes if and only if no file left behind begins with older versions of the user key a picked file ends with |
| `Picking.BoundaryClosedIffUnsplit` | ios/Pods/leveldb-library/db/version_set.cc:1345-1383 | A set of inputs is boundary-closed if and only if no entry's user key is split between its file and one left behind |
| `Picking.LeftOlderIffSplit` | ios/Pods/leveldb-library/db/version_set.cc:1345-1383 | In an ordered level an older version of a picked entry's key stays behind if and only if the key is split where the picked file ends |
| `Picking.HullUnique` | ios/Pods/leveldb-library/db/version_set.cc:1224-1256 | The hull of the inputs is unique, so the choice of parents is determined by the inputs |
| `Manifest.AppendInStep` | ios/Pods/leveldb-library/db/version_set.cc:820-903 | Appending an edit to the manifest and installing it in memory stay in step: replaying the longer manifest gives the new version |
| `Manifest.SnapshotReplays` | ios/Pods/leveldb-library/db/version_set.cc:1102-1130 | A manifest holding just the snapshot record replays to the version it describes |
| `Manifest.AddsAreFresh` | ios/Pods/leveldb-library/db/version_set.cc:820-903 | Edits of flushes, moves and compactions never give a level a file it has seen before, which is what replaying through one builder needs |
| `LogStream.ChainFront` | ios/Pods/leveldb-library/db/db_impl.cc:402-432 | The first batch of a log chain holds the first writes, and the rest is the chain after them |
| `LogStream.ChainAppend` | ios/Pods/leveldb-library/db/db_impl.cc:1214-1224 | Logging one more group with the next sequence numbers continues the chain |
| `LogStream.StreamSplit` | ios/Pods/leveldb-library/db/db_impl.cc:309-349 | Reading log files in ascending order of number can be cut anywhere: the records of an interval are those of its two parts |
| `EngineSteps.AppendLogKeeps` | ios/Pods/leveldb-library/db/db_impl.cc:1214-1224 | Appending a group's record makes the whole group part of the history, and keeps the engine invariant |
| `EngineSteps.InsertNextKeeps` | ios/Pods/leveldb-library/db/write_batch.cc:107-134 | Inserting one entry of the group into the memtable, ahead of publishing it, keeps the invariant: no reader sees it |
| `EngineSteps.PublishKeeps` | ios/Pods/leveldb-library/db/db_impl.cc:1243-1257 | Publishing the last sequence number, after which the group is acknowledged, keeps the invariant |
| `EngineSteps.SwitchMemTableKeeps` | ios/Pods/leveldb-library/db/db_impl.cc:1354-1376 | Switching to a new log and memtable keeps the invariant: every logged write is in a file, the immutable memtable or the memtable |
| `EngineSteps.BuildLevel0Keeps` | ios/Pods/leveldb-library/db/db_impl.cc:488-532 | Writing the immutable memtable to a table file with a fresh number keeps the invariant |
| `EngineFlush.LogFlushKeeps` | ios/Pods/leveldb-library/db/db_impl.cc:534-565 | Recording a flush in the manifest keeps the disk recoverable, although the version in memory has not changed yet |
| `EngineFlush.InstallFlushKeeps` | ios/Pods/leveldb-library/db/db_impl.cc:534-565 | Installing the flushed version and letting go of the immutable memtable keeps the invariant |
| `EngineFlush.InputsSurviveFlush` | ios/Pods/leveldb-library/db/db_impl.cc:917-927 | A flush during a compaction leaves everything the compaction relies on intact; only if a client requested the compaction, and only in the output level, must the file be clear of the merge result |
| `EngineFlush.FlushMissesTheGap` | ios/Pods/leveldb-library/db/db_impl.cc:917-927 | A flush that the placement rule sends to the output level of a compaction grown from one file lies to one side of its whole result |
| `EngineCompaction.StartCompactionKeeps` | ios/Pods/leveldb-library/db/db_impl.cc:887-910 | Starting a merge with the smallest live snapshot keeps the invariant: snapshots taken later can only be newer |
| `EngineCompaction.WriteOutputKeeps` | ios/Pods/leveldb-library/db/db_impl.cc:788-864 | Finishing an output table under a pending number keeps the invariant |
| `EngineCompaction.FinishedJobOk` | ios/Pods/leveldb-library/db/db_impl.cc:866-1054 | The outputs of a finished merge are a sound rewrite of the inputs in whatever version is then current |
| `EngineCompaction.LogEditKeeps` | ios/Pods/leveldb-library/db/db_impl.cc:866-885 | Recording any sound compaction or move in the manifest keeps the disk recoverable |
| `EngineCompaction.LogMoveKeeps` | ios/Pods/leveldb-library/db/db_impl.cc:717-730 | A trivial move, under the boundary guard, keeps the invariant |
| `EngineCompaction.InstallCompactionKeeps` | ios/Pods/leveldb-library/db/db_impl.cc:866-885 | Installing the compacted version keeps the invariant |
| `EngineRecovery.DeleteObsoleteKeeps` | ios/Pods/leveldb-library/db/db_impl.cc:218-272 | Deleting obsolete files removes no table that the installed version, a reader or the running compaction needs, and no log that recovery would replay |
| `EngineRecovery.CrashKeeps` | ios/Pods/leveldb-library/db/db_impl.cc:274-363 | A crash in any state leaves a disk that still accounts for every logged write |
| `EngineRecovery.RecoverManifestKeeps` | ios/Pods/leveldb-library/db/version_set.cc:905-1025 | Recovery starts from the version the manifest replays to |
| `EngineRecovery.RecoverRecordKeeps` | ios/Pods/leveldb-library/db/db_impl.cc:410-436 | Replaying one log record into the recovery memtable keeps recovery on the history |
| `EngineRecovery.RecoverFlushKeeps` | ios/Pods/leveldb-library/db/db_impl.cc:438-449 | Writing a recovered memtable to level 0 in the middle of a log keeps recovery on the history |
| `EngineRecovery.RecoverNewLogKeeps` | ios/Pods/leveldb-library/db/db_impl.cc:1498-1514 | The fresh log of the new incarnation never truncates a log that still matters |
| `EngineRecovery.RecoverCommitKeeps` | ios/Pods/leveldb-library/db/db_impl.cc:1515-1523 | Committing recovery (snapshot plus edit in a new manifest, then switching CURRENT) opens a database holding the whole history |
| `EngineRuns.StepKeeps` | ios/Pods/leveldb-library/db/db_impl.cc:686-769 | Every action of every kind keeps the engine invariant, and history and acknowledgements only grow |
| `EngineRuns.RunKeeps` | ios/Pods/leveldb-library/db/db_impl.cc:686-769 | The same over whole runs, from any sound configuration |
| `EngineRuns.ReachableInv` | ios/Pods/leveldb-library/db/db_impl.cc:177-207 | Every state reachable from a new database satisfies the invariant |
| `EngineRuns.AcknowledgedWritesSurvive` | ios/Pods/leveldb-library/db/db_impl.cc:1194-1265 | What was acknowledged at any point of a run is unchanged at every later point, crashes included, and readable whenever the database is open |
| `EngineRuns.RecoveryPreservesHistory` | ios/Pods/leveldb-library/db/db_impl.cc:274-363 | However often recovery itself crashes, it changes nothing of the history and publishes all of it when it ends |
| `EngineRuns.CrashRecovery` | ios/Pods/leveldb-library/db/db_impl.cc:365-486 | After a crash at any point of an open database the recovered history is what was published plus the group whose log record was complete, and nothing else |
| `EngineRuns.ReadFrom` | ios/Pods/leveldb-library/db/db_impl.cc:1109-1154 | Memtable, then immutable memtable, then version gives what the map holds at the snapshot, even if the memtable has grown since it was captured |
| `EngineRuns.MemtableLookup` | ios/Pods/leveldb-library/db/memtable.cc:108-143 | A memtable holding an interval of the writes answers for a snapshot exactly when the newest visible write of the key is in that interval |
| `EngineRuns.Get` | ios/Pods/leveldb-library/db/db_impl.cc:1109-1154 | Refinement for reads: in every open state of every run, a get at any live snapshot returns what the multi-version map holds there |
| `EngineRuns.LateGet` | ios/Pods/leveldb-library/db/db_impl.cc:1118-1131 | A reader that captured its sources earlier still gets that answer now, and its tables are still on disk, whatever ran meanwhile |
| `EngineProgress.Reopens` | ios/Pods/leveldb-library/db/db_impl.cc:274-363 | From every sound state that is not open, after any number of crashes, recovery has steps that end with the database open, the history unchanged and all of it published |
| `EngineProgress.CrashedDatabaseReopens` | ios/Pods/leveldb-library/db/db_impl.cc:1490-1523 | After a crash at any point of an open database there is such a recovery, and it opens what was published plus the group whose record was complete |
| `EngineProgress.CrashAnytime` | ios/Pods/leveldb-library/db/db_impl.cc:274-363 | A crash may come in any state, in the middle of recovery too; it takes the memory and leaves the disk |
| `EngineProgress.SnapshotsAfter` | ios/Pods/leveldb-library/db/db_impl.cc:1175-1184 | Taking a snapshot appends the last published number, releasing one removes that entry and no other, a read adds a reader of the sources of that moment, and no other step touches either list |
| `EngineProgress.SnapshotEnabled` | ios/Pods/leveldb-library/db/db_impl.cc:1109-1184 | Snapshots may be taken at any time; reads begin exactly at the last published number or at a live snapshot |
| `EngineProgress.SnapshotStays` | ios/Pods/leveldb-library/db/db_impl.cc:1175-1184 | Over every run without a crash and without its release, a snapshot taken stays live at the number it was taken at, and the map holds there what it held then |
| `EngineProgress.GetAtSnapshot` | ios/Pods/leveldb-library/db/db_impl.cc:1109-1154 | A get at a snapshot, whatever writes, flushes and compactions have run since, returns what the map held when it was taken |
| `EngineProgress.WriteGoesThrough` | ios/Pods/leveldb-library/db/db_impl.cc:1194-1265 | Whenever no group is being written, any group can be: it follows all earlier writes in the history, is published and acknowledged |
| `EngineProgress.FinishesGroup` | ios/Pods/leveldb-library/db/db_impl.cc:1214-1257 | A group whose record is in the log can always be inserted and published |
| `EngineProgress.MemTableSwitches` | ios/Pods/leveldb-library/db/db_impl.cc:1354-1376 | The memtable can be set aside whenever no other waits, and a fresh log has a greater number |
| `EngineProgress.FlushGoesThrough` | ios/Pods/leveldb-library/db/db_impl.cc:534-565 | A memtable set aside can be flushed between any two background jobs and during a compaction; only the current log is needed afterwards |
| `EngineProgress.FlushMaySink` | ios/Pods/leveldb-library/db/db_impl.cc:513-532 | A flushed file may go to every level the placement rule allows, other than the output level of a requested compaction under way |
| `EngineProgress.CompactionStarts` | ios/Pods/leveldb-library/db/db_impl.cc:887-910 | A compaction of guarded inputs can start whenever the background thread is free; what it may drop is bounded by the oldest live snapshot, or by the last published number if there is none |
| `EngineProgress.CompactionGoesThrough` | ios/Pods/leveldb-library/db/db_impl.cc:866-1054 | A running compaction can always be finished, and its outputs, which are the whole merge result, then stand in place of its inputs |
| `EngineProgress.MoveGoesThrough` | ios/Pods/leveldb-library/db/db_impl.cc:717-730 | A guarded trivial move can be carried out: the file is one level down and nothing else has changed |
| `EngineProgress.OnlyNeededFilesStay` | ios/Pods/leveldb-library/db/db_impl.cc:218-272 | Deleting obsolete files leaves exactly the logs from the log number on and the tables that are being written, installed or held by a reader |
| `EngineIterators.IterationReadsHistory` | ios/Pods/leveldb-library/db/db_impl.cc:1067-1096 | The live map an iterator walks over the merge of its sources is the multi-version map at its snapshot |
| `Guards.MoveKeepsRecencyIff` | ios/Pods/leveldb-library/db/db_impl.cc:717-730 | A trivial move keeps recency if and only if its file is boundary-closed in its level |
| `Guards.CompactionKeepsMeaningIff` | ios/Pods/leveldb-library/db/db_impl.cc:887-1054 | A finished compaction, of any inputs the picking rules allow, preserves what every live snapshot reads and the order of the levels if and only if the user keys split at the edges of its inputs are harmless |
| `Guards.ClosedInputsAreHarmless` | ios/Pods/leveldb-library/db/version_set.cc:1345-1383 | With both sets of inputs boundary-closed no user key is split at their edges |
| `Guards.UnguardedMoveHidesNewestWrite` | ios/Pods/leveldb-library/db/db_impl.cc:717-730 | A sound state, and a move the picking rules allow, after which a reader finds an overwritten value |
| `Guards.UnguardedMergeRestoresDeleted` | ios/Pods/leveldb-library/db/db_impl.cc:955-969 | A sound state, and a compaction that the picking and drop rules allow, after which levels and recency are in order and a deleted value is read again |
| `Guards.UnguardedParentRestoresDeleted` | ios/Pods/leveldb-library/db/db_impl.cc:955-969 | The same although the inputs of the compacted level are boundary-closed: the key is split among the parents |
| `Guards.InstallAfterFlushOrderedIff` | ios/Pods/leveldb-library/db/db_impl.cc:917-927 | However the outputs are cut, the output level with a flushed file in it will be in order, if and only if the file lies to one side of the whole merge result, which is settled when the flush is placed |
| `Guards.UnguardedFlushIsLost` | ios/Pods/leveldb-library/db/db_impl.cc:917-927 | A flush and a compaction that follow every rule in the code, after which the output level is out of order and the newest write cannot be found |
| `GroupCommit.BuildBatchGroup` | ios/Pods/leveldb-library/db/db_impl.cc:1269-1313 | The group is the longest admissible prefix of the queue (size limit, no sync write behind a non-sync leader), its updates the joined batches in order |
| `GroupCommit.GroupLimits` | ios/Pods/leveldb-library/db/db_impl.cc:1277-1311 | In numbers: a group holds at most 1048576 bytes, or 131072 more than its first batch if that is no larger than 131072; it never mixes a sync write in behind a leader without sync; and it ends only where the next writer would break one of these |
| `GroupCommit.StepKeeps` | ios/Pods/leveldb-library/db/db_impl.cc:1194-1265 | Every step of the queue keeps its invariant, and nothing published or finished is taken back |
| `GroupCommit.RidesInGroup` | ios/Pods/leveldb-library/db/db_impl.cc:1288-1293 | A member of a group finds its writes inside the group's record; a sync write only ever in a synced one |
| `GroupCommit.GroupCommitIsOrderedAndAtomic` | ios/Pods/leveldb-library/db/db_impl.cc:1194-1265 | Over every interleaving writers finish once each in queue order, groups get contiguous disjoint sequence numbers, sync writes are in synced records, and no batch is half visible at the published number |
| `GroupCommit.RecordsAreGroups` | ios/Pods/leveldb-library/db/db_impl.cc:1212-1232 | Over every interleaving each log record is one group: all its members' writes under consecutive numbers, synced if and only if the leader asked for it |
| `GroupCommit.QueueDrains` | ios/Pods/leveldb-library/db/db_impl.cc:1194-1265 | From every state of every run the queue can be emptied without a further arrival: no writer waits for ever |
| `GroupCommit.NullRequestSwitchesIff` | ios/Pods/leveldb-library/db/db_impl.cc:1194-1313 | Over every interleaving, a returned null request had the memtable switched at its turn if and only if no leader ahead of it built its group with the request already queued and neither a sync request nor the size limit between them |
| `GroupCommit.CarriedRequestIsNotServed` | ios/Pods/leveldb-library/db/db_impl.cc:1288-1311 | A run in which a null request returns behind a write, and the memtable holding that write has not been switched |
| `EngineWriters.QueueStepIsEngineStep` | ios/Pods/leveldb-library/db/db_impl.cc:1194-1265 | Each step of the writer queue is an enabled step of the engine or none at all: same record, same entry, same published number |
| `Snapshots.SnapshotList.New` | ios/Pods/leveldb-library/db/snapshot.h:42-51 | A new node is linked in as the newest; neighbours stay mutually linked all the way round |
| `Snapshots.SnapshotList.Delete` | ios/Pods/leveldb-library/db/snapshot.h:53-58 | Exactly that node is unlinked; the order of the others is unchanged |
| `Snapshots.SnapshotList.Oldest` | ios/Pods/leveldb-library/db/snapshot.h:39 | The first of the open snapshots |
| `Snapshots.OldestIsSmallest` | ios/Pods/leveldb-library/db/db_impl.cc:900-904 | Opened at ascending numbers and closed in any order, the snapshots stay ascending, so the oldest is the smallest, which bounds what a compaction may drop |
| `Cursors.Cursor.Seek` | ios/Pods/leveldb-library/db/version_set.cc:174-176 | The inner cursor lands on the first entry at or after the target |
| `Cursors.Cursor.Prev` | ios/Pods/leveldb-library/db/version_set.cc:185-192 | One entry back, off the end from the first |
| `DbIters.DBIter.Next` | ios/Pods/leveldb-library/db/db_iter.cc:146-171 | Lands on the least live key above the current one, from either direction |
| `DbIters.DBIter.Prev` | ios/Pods/leveldb-library/db/db_iter.cc:205-230 | Lands on the greatest live key below the current one, from either direction |
| `DbIters.DBIter.Seek` | ios/Pods/leveldb-library/db/db_iter.cc:274-286 | Lands on the least live key at or after the target |
| `DbIters.DBIter.SeekToFirst` | ios/Pods/leveldb-library/db/db_iter.cc:288-297 | Lands on the least live key |
| `DbIters.DBIter.SeekToLast` | ios/Pods/leveldb-library/db/db_iter.cc:299-304 | Lands on the greatest live key |
| `DbIters.DBIter.FindNextUserEntry` | ios/Pods/leveldb-library/db/db_iter.cc:173-203 | Stops at the first wanted entry: visible, not deleted, not hidden by a newer version |
| `DbIters.DBIter.FindPrevUserEntry` | ios/Pods/leveldb-library/db/db_iter.cc:232-272 | Saves the last live entry behind the cursor, past any number of hidden and deleted ones |
| `DbIters.LiveIndexIsLookup` | ios/Pods/leveldb-library/db/db_iter.cc:173-203 | The entry the iterator stops at is what a point lookup at its snapshot returns |
| `DbIters.LookupIsLiveIndex` | ios/Pods/leveldb-library/db/db_iter.cc:173-203 | Conversely every key a point lookup finds has an entry the iterator stops at |
| `Merger.MergingIterator.Next` | ios/Pods/leveldb-library/table/merger.cc:59-83 | One position forward in the sorted merge of the children, also right after moving backward |
| `Merger.MergingIterator.Prev` | ios/Pods/leveldb-library/table/merger.cc:85-112 | One position back in the sorted merge, also right after moving forward |
| `Merger.MergingIterator.Seek` | ios/Pods/leveldb-library/table/merger.cc:51-57 | The first merged entry at or after the target |
| `Merger.MergingIterator.SeekToLast` | ios/Pods/leveldb-library/table/merger.cc:43-49 | The last merged entry |
| `Merger.MergingIterator.FindSmallest` | ios/Pods/leveldb-library/table/merger.cc:155-168 | With each child at its first entry from a merged position on, the smallest of them is that merged entry |
| `Merger.MergingIterator.FindLargest` | ios/Pods/leveldb-library/table/merger.cc:170-181 | With each child at its last entry before a merged position, the largest of them is the entry just before it |
| `Merger.MergingIterator.CurrentIsMerged` | ios/Pods/leveldb-library/table/merger.cc:114-122 | Key and value shown are those of the current position of the merge |
| `TwoLevel.TwoLevelIterator.Next` | ios/Pods/leveldb-library/table/two_level_iterator.cc:112-116 | One position forward in the concatenation of the blocks, empty blocks skipped |
| `TwoLevel.TwoLevelIterator.Prev` | ios/Pods/leveldb-library/table/two_level_iterator.cc:118-122 | One position back in the concatenation, empty blocks skipped |
| `TwoLevel.TwoLevelIterator.Seek` | ios/Pods/leveldb-library/table/two_level_iterator.cc:91-96 | The first entry at or after the target in the concatenation |
| `TwoLevel.TwoLevelIterator.SkipEmptyDataBlocksForward` | ios/Pods/leveldb-library/table/two_level_iterator.cc:125-136 | Terminates on the next entry of the concatenation, or off its end |
| `TwoLevel.TwoLevelIterator.SkipEmptyDataBlocksBackward` | ios/Pods/leveldb-library/table/two_level_iterator.cc:138-149 | Terminates on the previous entry of the concatenation, or off its end |
| `TwoLevel.TwoLevelIterator.CurrentIsAtPos` | ios/Pods/leveldb-library/table/two_level_iterator.cc:34-44 | Key and value shown are those of the current position of the concatenation |
| `TwoLevel.SeekLands` | ios/Pods/leveldb-library/table/two_level_iterator.cc:91-96 | Seeking the index and then its block agrees with one lower bound over the whole concatenation |
| `SkipLists.PrepareKeeps` | ios/Pods/leveldb-library/db/skiplist.h:362-368 | Pointing the new node at its successor keeps every level's list as it was: nobody can see the node |
| `SkipLists.PublishKeepsList` | ios/Pods/leveldb-library/db/skiplist.h:362-368 | The one store that links a node at a level puts it in its sorted place there |
| `SkipLists.SearchStepOk` | ios/Pods/leveldb-library/db/skiplist.h:262-281 | A search step never follows an unwritten pointer, and a search that ends has the right answer for the keys linked at that moment |
| `SkipLists.AnswerMissesNone` | ios/Pods/leveldb-library/db/skiplist.h:262-281 | No key present when a search began is missed, whatever was inserted meanwhile |
| `SkipLists.StepKeeps` | ios/Pods/leveldb-library/db/skiplist.h:337-370 | Every step of the writer or of any reader keeps the list and all searches sound; keys only get more |
| `SkipLists.GuardsSuffice` | ios/Pods/leveldb-library/db/skiplist.h:337-370 | No thread is stopped by more than its own guard: the facts about the list that a step relies on hold throughout |
| `SkipLists.RunKeeps` | ios/Pods/leveldb-library/db/skiplist.h:337-370 | Over every interleaving and any node heights each level is a sorted sublist of the one below, at every intermediate step |
| `SkipLists.SearchEnds` | ios/Pods/leveldb-library/db/skiplist.h:262-281 | However a search got where it is while nodes were linked around it, its own next steps lead it to an answer |
| `SkipLists.InsertEnds` | ios/Pods/leveldb-library/db/skiplist.h:356-370 | However far an insertion has got, the writer's own next steps link the node on all its levels and change no other |
| `SkipLists.SkipList.Insert` | ios/Pods/leveldb-library/db/skiplist.h:337-370 | Adds exactly the key, and links the node on exactly as many levels as the height drawn |
| `SkipLists.SkipList.FindGreaterOrEqual` | ios/Pods/leveldb-library/db/skiplist.h:262-281 | The node of the least key at or after the one given, null only if all keys are below it, with the right predecessor at every level |
| `SkipLists.SkipList.FindLessThan` | ios/Pods/leveldb-library/db/skiplist.h:283-302 | The node of the greatest key below the one given, or the head if there is none |
| `SkipLists.SkipList.FindLast` | ios/Pods/leveldb-library/db/skiplist.h:304-322 | The node of the greatest key, or the head of an empty list |
| `SkipLists.SkipList.Contains` | ios/Pods/leveldb-library/db/skiplist.h:373-380 | True exactly for the keys that were inserted |
| `Coding.VarintRoundTrip` | ios/Pods/leveldb-library/util/coding.cc:47-129 | A varint reads back as itself, whatever follows it, and a number of up to 7k bits needs at most k bytes |
| `Coding.NumbersInBytes` | ios/Pods/leveldb-library/util/coding.h:63-104 | In numbers: least significant byte, and least significant seven bits, first |
| `Coding.VarintLength` | ios/Pods/leveldb-library/util/coding.cc:102-110 | A number takes at most k bytes if and only if it is below 128 to the k |
| `Coding.EncodeVarint32` | ios/Pods/leveldb-library/util/coding.cc:47-73 | The unrolled branches agree with the general encoding for every 32-bit value |
| `Coding.GetVarint32` | ios/Pods/leveldb-library/util/coding.cc:112-129 | The shift loop agrees with the general decoder cut to 32 bits, and rejects what that rejects |
| `Coding.Fixed32RoundTrip` | ios/Pods/leveldb-library/util/coding.cc:9-18 | A fixed 32-bit number comes back bit for bit |
| `Coding.FixedNatRoundTrip` | ios/Pods/leveldb-library/util/coding.cc:35-39 | The same for numbers, whatever follows |
| `Coding.Fixed64RoundTrip` | ios/Pods/leveldb-library/util/coding.cc:20-45 | A fixed 64-bit number comes back, whatever follows |
| `Coding.Input.TakeVarint` | ios/Pods/leveldb-library/util/coding.cc:131-170 | On all input: consumes exactly the number at the front and returns it, cut to its width; a failed read consumes nothing |
| `Coding.Input.TakeLengthPrefixed` | ios/Pods/leveldb-library/util/coding.cc:182-192 | On all input: consumes exactly the length-prefixed string at the front and returns it, or fails if it is not all there |
| `Coding.ReadPrefixedRoundTrip` | ios/Pods/leveldb-library/util/coding.cc:182-192 | A length-prefixed string reads back as itself, whatever follows it |
| `Crc32c.Extend` | ios/Pods/leveldb-library/util/crc32c.cc:299-347 | Slicing by four, after alignment and before the tail, equals the byte-at-a-time CRC for every buffer, address and initial value (polynomial of section 12.1 of RFC 3720) |
| `Crc32c.CheckValue` | ios/Pods/leveldb-library/util/crc32c.h:22-34 | The polynomial and the inversions at both ends: the nine bytes "123456789" have the check value e3069283 of CRC-32C, and its masked form is c78ab0e5 |
| `Crc32c.TableValues` | ios/Pods/leveldb-library/util/crc32c.cc:16-281 | The second entry of each of the four tables is the literal in the source |
| `Crc32c.CrcConcat` | ios/Pods/leveldb-library/util/crc32c.h:14-22 | Extending by a and then by b is extending by a followed by b |
| `Crc32c.StepsLinear` | ios/Pods/leveldb-library/util/crc32c.cc:299-347 | Shifting through the polynomial is linear over exclusive or |
| `Crc32c.Step4IsWord` | ios/Pods/leveldb-library/util/crc32c.cc:313-320 | Four table lookups on a word are four bytes of steps at once: table i + 1 is table i shifted by one zero byte |
| `Crc32c.Feed4` | ios/Pods/leveldb-library/util/crc32c.cc:309-320 | Feeding four bytes one by one equals one word step: later bytes may be mixed in early at higher places |
| `Crc32c.MaskBijective` | ios/Pods/leveldb-library/util/crc32c.h:31-40 | Masking loses nothing in either direction |
| `LogFormat.Writer.AddRecord` | ios/Pods/leveldb-library/db/log_writer.cc:36-82 | Terminates and appends exactly the record's fragments, for any length, also when a block has only seven bytes left |
| `LogFormat.Writer.EmitPhysicalRecord` | ios/Pods/leveldb-library/db/log_writer.cc:84-110 | Appends one fragment with its checksum, length and type, and moves the block offset by its size |
| `LogFormat.Reader.ReadPhysicalRecord` | ios/Pods/leveldb-library/db/log_reader.cc:199-281 | On any bytes: a fragment is accepted only if all of it is there and its checksum matches its type and payload; on a log cut off anywhere, the awaited fragment if it is all there, otherwise end of file, and never a corruption report |
| `LogFormat.Reader.ReadRecord` | ios/Pods/leveldb-library/db/log_reader.cc:60-182 | The next record if it is all there, otherwise end of file without a report; on any bytes at all it terminates |
| `LogFormat.FragmentRoundTrip` | ios/Pods/leveldb-library/db/log_reader.cc:226-281 | A fragment read from its own bytes has its own length, type and payload and its checksum matches |
| `LogFormat.FragmentInNumbers` | ios/Pods/leveldb-library/db/log_writer.cc:84-110 | In numbers: four bytes of checksum of type and payload, two of length, one of type, least significant byte first |
| `LogFormat.RecordInNumbers` | ios/Pods/leveldb-library/db/log_writer.cc:36-82 | In numbers: a record that fits is one fragment of type 1; otherwise types 2, 3 and 4, each but the last filling its block of 32768 bytes; a block with fewer than seven bytes left is padded |
| `LogFormat.CompleteIsPrefix` | ios/Pods/leveldb-library/db/log_reader.cc:60-182 | The records wholly present in a cut-off log are the first ones, and all of them if nothing is cut |
| `LogFormat.WriteAll` | ios/Pods/leveldb-library/db/log_writer.cc:36-82 | A whole log is its records' fragments laid end to end across 32 KB blocks |
| `LogFormat.ReadAll` | ios/Pods/leveldb-library/db/db_impl.cc:402-420 | Reading any byte prefix of a written log returns exactly the records wholly in it, and no corruption report |
| `Blocks.EntryRoundTrip` | ios/Pods/leveldb-library/table/block.cc:53-74 | A prefix-compressed entry read from its own bytes gives back its shared length, key rest and value |
| `Blocks.EntryInNumbers` | ios/Pods/leveldb-library/table/block_builder.cc:92-101 | In numbers: shared length, rest length and value length, then the rest of the key and the value |
| `Blocks.BlockInNumbers` | ios/Pods/leveldb-library/table/block_builder.cc:63-71 | In numbers: a block of one entry, with its restart offset and the number of restarts |
| `Blocks.BlockParts` | ios/Pods/leveldb-library/table/block.cc:18-38 | Where the restart count and restart offsets of a finished block are, and what they say |
| `Blocks.DecodeEntry` | ios/Pods/leveldb-library/table/block.cc:53-74 | The fast path for three one-byte lengths agrees with the general one on all input |
| `BlockIterators.BlockIter.Next` | ios/Pods/leveldb-library/table/block.cc:139-142 | One item forward in a built block |
| `BlockIterators.BlockIter.Prev` | ios/Pods/leveldb-library/table/block.cc:144-163 | One item back (so Prev undoes Next), through the restart point before it |
| `BlockIterators.BlockIter.Seek` | ios/Pods/leveldb-library/table/block.cc:165-203 | Stops at the first item not below the target, despite prefix compression and restart binary search |
| `BlockIterators.BlockIter.SeekToFirst` | ios/Pods/leveldb-library/table/block.cc:205-208 | The first item |
| `BlockIterators.BlockIter.SeekToLast` | ios/Pods/leveldb-library/table/block.cc:210-215 | The last item |
| `BlockIterators.BlockIter.ParseNextKey` | ios/Pods/leveldb-library/table/block.cc:226-253 | Rebuilds the next key from the shared prefix, or ends the iteration |
| `BlockIterators.BlockIter.CurrentIsItem` | ios/Pods/leveldb-library/table/block.cc:130-137 | Key and value shown are those of the item at the current position |
| `BlockBuilders.BlockBuilder.Add` | ios/Pods/leveldb-library/table/block_builder.cc:73-107 | Appends one item behind the untouched earlier ones, for any restart interval of at least one |
| `BlockBuilders.BlockBuilder.LayoutIsRegular` | ios/Pods/leveldb-library/table/block_builder.cc:73-107 | Restart points stand exactly at the multiples of the interval, and between them every entry shares all that it can with the one before |
| `BlockBuilders.BlockBuilder.Finish` | ios/Pods/leveldb-library/table/block_builder.cc:63-71 | The finished bytes are a well-formed block of exactly the items added |
| `BlockBuilders.NewIterator` | ios/Pods/leveldb-library/table/block.cc:256-268 | A finished block over ascending items is always opened, at a position off the end |
| `EditCodec.VersionEdit.EncodeTo` | ios/Pods/leveldb-library/db/version_edit.cc:41-86 | Every field becomes its records, the deleted files each once in some order |
| `EditCodec.VersionEdit.DecodeFrom` | ios/Pods/leveldb-library/db/version_edit.cc:109-210 | Any bytes at all are read as the reference reader says, record by record, behind the compaction pointers the object already held, with its complaint at the first malformed one |
| `EditCodec.EncodedReads` | ios/Pods/leveldb-library/db/version_edit.cc:41-210 | The bytes of an encoded edit read back as the edit, behind any compaction pointers that were there |
| `EditCodec.DecodedIsEncodedIff` | ios/Pods/leveldb-library/db/version_edit.cc:26-39 | So decoding gives the encoded edit if and only if the object held no compaction pointers |
| `EditCodec.SpeltIsRead` | ios/Pods/leveldb-library/db/version_edit.cc:109-210 | Bytes that spell records are accepted, mean those records applied in turn, and name only real levels and 64-bit numbers |
| `EditCodec.AcceptedIsSpelt` | ios/Pods/leveldb-library/db/version_edit.cc:109-210 | Nothing else is accepted: no unknown tag, no level past the last, no bytes left over |
| `EditCodec.NumbersInNumbers` | ios/Pods/leveldb-library/db/version_edit.cc:12-24 | The tags of numbers and deleted files: 2, 3, 4, 6 and 9 |
| `EditCodec.KeysInNumbers` | ios/Pods/leveldb-library/db/version_edit.cc:41-65 | The tags of the comparator and of compaction pointers, 1 and 5, and the layout of their records |
| `EditCodec.FilesInNumbers` | ios/Pods/leveldb-library/db/version_edit.cc:76-86 | The tag of a new file, 7, and the layout of its record |
| `EditCodec.EncodeThenDecode` | ios/Pods/leveldb-library/db/version_edit.cc:41-210 | Round trip: decoding an encoded edit into a fresh object gives it back |
| `EditCodec.VersionEdit.Clear` | ios/Pods/leveldb-library/db/version_edit.cc:26-39 | Forgets everything but the compaction pointers |
| `EditCodec.RecordsReplay` | ios/Pods/leveldb-library/db/version_edit.cc:109-210 | Reading an edit's records one by one into a cleared object gives the edit |
| `WriteBatches.WriteBatch.Put` | ios/Pods/leveldb-library/db/write_batch.cc:98-103 | The batch's bytes now encode one more update and the new count |
| `WriteBatches.WriteBatch.Delete` | ios/Pods/leveldb-library/db/write_batch.cc:105-109 | The same for a deletion |
| `WriteBatches.WriteBatch.Append` | ios/Pods/leveldb-library/db/write_batch.cc:141-146 | The other batch's updates follow, and the counts add up |
| `WriteBatches.WriteBatch.SetSequence` | ios/Pods/leveldb-library/db/write_batch.cc:94-96 | Only the base sequence number changes |
| `WriteBatches.WriteBatch.Iterate` | ios/Pods/leveldb-library/db/write_batch.cc:42-80 | On any bytes: the updates in front of the first malformed one are handed over in order, with the right verdict on form and count; a sound batch is handed over whole |
| `WriteBatches.WriteBatch.InsertInto` | ios/Pods/leveldb-library/db/write_batch.cc:111-134 | On any bytes with a header: those updates reach the memtable under consecutive numbers beginning with the batch's own |
| `WriteBatches.UpdatesRead` | ios/Pods/leveldb-library/db/write_batch.cc:42-109 | The updates of a batch read back as they are |
| `WriteBatches.UpdatesInNumbers` | ios/Pods/leveldb-library/db/write_batch.cc:98-109 | A put is tagged 1 and a deletion 0; keys and values stand behind their lengths |
| `WriteBatches.WriteBatch.BatchInNumbers` | ios/Pods/leveldb-library/db/write_batch.cc:5-14 | A batch of one put and one deletion, byte for byte: eight bytes of number, four of count, the updates |
| `HandleTables.HandleTable.Lookup` | ios/Pods/leveldb-library/util/cache.cc:76-78 | What the plain map holds under the key |
| `HandleTables.HandleTable.Insert` | ios/Pods/leveldb-library/util/cache.cc:80-94 | The map with the entry under its key, and the entry it displaced; there are never more entries than chains |
| `HandleTables.HandleTable.LengthFor` | ios/Pods/leveldb-library/util/cache.cc:125-129 | The length is the least power of two from 4 on with room for the entries |
| `HandleTables.HandleTable.Remove` | ios/Pods/leveldb-library/util/cache.cc:96-104 | The map without the key, and the entry that was there |
| `HandleTables.HandleTable.Resize` | ios/Pods/leveldb-library/util/cache.cc:125-148 | Rehashing into the next power of two keeps the map |
| `LruCaches.LRUCache.Ref` | ios/Pods/leveldb-library/util/cache.cc:221-227 | One more reference; an idle entry leaves the idle list |
| `LruCaches.LRUCache.Unref` | ios/Pods/leveldb-library/util/cache.cc:229-240 | One reference less; the last one runs the deleter, once, and the last client's makes a cached entry the newest idle one |
| `LruCaches.LRUCache.Lookup` | ios/Pods/leveldb-library/util/cache.cc:255-262 | The cached entry under the key, now held by the caller, whose handle stays alive; one more reference is the only change |
| `LruCaches.LRUCache.Release` | ios/Pods/leveldb-library/util/cache.cc:264-267 | Gives a handle back; the deleter runs exactly when that was the last reference of an entry no longer cached |
| `LruCaches.LRUCache.Insert` | ios/Pods/leveldb-library/util/cache.cc:269-304 | The new entry is cached and held; the one it displaces is deleted unless held; then exactly as many of the oldest idle entries leave, and are deleted, as it takes for the cache to fit |
| `LruCaches.LRUCache.FinishErase` | ios/Pods/leveldb-library/util/cache.cc:307-316 | Ends the removal of an entry taken out of the table: charge returned, cache reference dropped |
| `LruCaches.LRUCache.Erase` | ios/Pods/leveldb-library/util/cache.cc:318-321 | Exactly that key leaves the cache and its charge is returned; the deleter runs at once, and the entry leaves the idle list, exactly if no client holds it |
| `LruCaches.LRUCache.Prune` | ios/Pods/leveldb-library/util/cache.cc:323-333 | Every idle entry is deleted, oldest first, and leaves the table, and nothing else does |
| `LruCaches.LRUCache.EvictUntilFits` | ios/Pods/leveldb-library/util/cache.cc:293-300 | The oldest idle entries go, exactly as many as it takes for the cache to fit, or all; held entries are untouched |
| `Comparators.BeforeIsTotal` | ios/Pods/leveldb-library/util/comparator.cc:25-27 | Bytewise order is total |
| `Comparators.BeforeIff` | ios/Pods/leveldb-library/util/comparator.cc:25-27 | Bytewise order is decided by the first byte in which two strings differ, a prefix coming first |
| `Comparators.FindShortestSeparator` | ios/Pods/leveldb-library/util/comparator.cc:29-51 | Where the two part at bytes with a gap, the start up to there with that byte raised by one, which is no longer, above the start and below the limit; otherwise the start itself |
| `Comparators.FindShortSuccessor` | ios/Pods/leveldb-library/util/comparator.cc:53-65 | The key up to its first byte below 255, raised by one, which is no longer and above the key; a run of the largest byte is left alone |
| `Comparators.FindKeySeparator` | ios/Pods/leveldb-library/db/dbformat.cc:68-85 | A key strictly between the two, its user key shortened at the gap and its tag the largest, exactly when that shortens the user key; otherwise the last key itself |
| `Comparators.FindKeySuccessor` | ios/Pods/leveldb-library/db/dbformat.cc:87-99 | A key at or behind the one given, shortened exactly when the first byte that can be raised is not the last |
| `Comparators.SeparatorIsBetween` | ios/Pods/leveldb-library/db/dbformat.cc:68-85 | Such a separator stays in [last key of the block, first key of the next) |
| `Comparators.KeyOrder` | ios/Pods/leveldb-library/db/dbformat.cc:50-66 | Packed internal keys are totally ordered |
| `Tables.PackedOrder` | ios/Pods/leveldb-library/db/dbformat.cc:50-66 | Packed keys are in the order of the internal keys they stand for: newer versions of a user key first |
| `Filters.BloomFilterPolicy.CreateFilter` | ios/Pods/leveldb-library/util/bloom.cc:35-61 | The filter matches every key, has the bits of their probes and no others, has the size asked for (at least 64 bits) and ends with the probe count |
| `Filters.BloomFilterPolicy.KeyMayMatch` | ios/Pods/leveldb-library/util/bloom.cc:63-86 | True exactly when the filter matches the key's hash under the probe count stored in it |
| `Filters.ProbeIsMultiple` | ios/Pods/leveldb-library/util/bloom.cc:53-59 | Probe j is the hash plus j deltas in 32 bits |
| `Filters.DeltaRotates` | ios/Pods/leveldb-library/util/bloom.cc:53-54 | The delta is the hash rotated right by 17 bits |
| `Filters.BitWeights` | ios/Pods/leveldb-library/util/bloom.cc:56-57 | Bit i of a byte is the one worth two to the i |
| `FilterBlocks.FilterBlockBuilder.StartBlock` | ios/Pods/leveldb-library/table/filter_block.cc:22-28 | Pending keys go into the filter of the range they belong to; ranges without a block get empty filters |
| `FilterBlocks.FilterBlockBuilder.AddKey` | ios/Pods/leveldb-library/table/filter_block.cc:30-34 | One more pending key; closed filters are untouched |
| `FilterBlocks.FilterBlockBuilder.Finish` | ios/Pods/leveldb-library/table/filter_block.cc:36-50 | Filters, offsets, their position and the base: a filter block in which every slot with keys has the filter of just those keys, and one without has none |
| `FilterBlocks.FilterBlockBuilder.GenerateFilter` | ios/Pods/leveldb-library/table/filter_block.cc:52-76 | The pending keys become the next filter |
| `FilterBlocks.FilterBlockReader.KeyMayMatch` | ios/Pods/leveldb-library/table/filter_block.cc:95-109 | The verdict of the filter that covers the block's offset, yes past the last one; so a key in that slot is never denied |
| `FilterBlocks.SlotIsTwoKilobytes` | ios/Pods/leveldb-library/table/filter_block.cc:13-14 | One filter for every 2048 bytes of block offsets |
| `FilterBlocks.TrailerInNumbers` | ios/Pods/leveldb-library/table/filter_block.cc:36-50 | The trailer of a filter block, byte for byte |
| `Tables.TableBuilder.Add` | ios/Pods/leveldb-library/table/table_builder.cc:92-121 | One more entry behind the untouched earlier ones, the index separator of a finished block being chosen only now; a full block is written at once; index and filters stay right |
| `Tables.TableBuilder.Flush` | ios/Pods/leveldb-library/table/table_builder.cc:123-137 | The current block, if it holds anything, is written at the current offset, which moves on by its size and a trailer of five bytes; nothing added is lost |
| `Tables.TableBuilder.Finish` | ios/Pods/leveldb-library/table/table_builder.cc:199-253 | The blocks hold exactly the entries added, the index separates them, and each block's keys are in its filter |
| `Tables.InternalGet` | ios/Pods/leveldb-library/table/table.cc:226-255 | With or without a filter: whenever the table has a version of the user key at or below the tag sought, the newest such version is reported; nothing is ever reported but the first entry at or after the key |
| `Tables.LookupComplete` | ios/Pods/leveldb-library/table/table.cc:226-255 | In the block the index leads to, a seek lands on the first entry of the whole table from the key on, or no such entry has the key's user key |
| `Tables.LaterBlocksDiffer` | ios/Pods/leveldb-library/table/table.cc:226-255 | A shortened separator never hides an entry: past the block the index leads to, no entry has the sought user key |
| `ProtobufReplay.MessageIsItems` | ios/Pods/nanopb/pb_encode.c:494-516 | The encoding of a message is the encodings of its records in turn |
| `ProtobufReplay.ItemsReplay` | ios/Pods/nanopb/pb_decode.c:916-998 | Applying those records one by one, from default contents, rebuilds the message |
| `ProtobufReplay.ConcatenationMerges` | ios/Pods/nanopb/pb_decode.c:1463-1485 | A submessage that comes in two records means the same as one record with the contents of both |
| `ProtobufReplay.LastRecord` | ios/Pods/nanopb/pb_decode.c:401-475 | After any records: one more replaces the value of a singular field that is no message, unsets the other members of a union, appends to an array, and leaves every other field alone |
| `ProtobufReplay.DefaultIsLeftOut` | ios/Pods/nanopb/pb_encode.c:215-303 | Conversely a proto3 number or string is left out only if it is the default, a byte array of fixed length never, and a message if and only if its own encoding is empty |
| `ProtobufReplay.ZeroIsDefault` | ios/Pods/nanopb/pb_encode.c:215-303 | A value that proto3 leaves out is exactly the one the decoder starts from, at any nesting depth |
| `ProtobufEncode.OStream.Write` | ios/Pods/nanopb/pb_encode.c:101-123 | Fails exactly when the buffer is full; counts the same whether it writes or only sizes |
| `ProtobufEncode.OStream.EncodeVarint` | ios/Pods/nanopb/pb_encode.c:574-594 | The varint loop produces the encoding of every number |
| `ProtobufEncode.EncodeMessage` | ios/Pods/nanopb/pb_encode.c:494-516 | Succeeds exactly when the message fits, counts exactly its bytes, and unless sizing writes exactly them |
| `ProtobufEncode.EncodeField` | ios/Pods/nanopb/pb_encode.c:307-392 | The same for one field: required, optional, proto3 implicit, repeated or in a union |
| `ProtobufEncode.EncodeArray` | ios/Pods/nanopb/pb_encode.c:126-211 | The same for an array, failing also when it is longer than its maximum |
| `ProtobufEncode.EncodePacked` | ios/Pods/nanopb/pb_encode.c:139-181 | The sizing pass (a multiplication for fixed widths) counts exactly the bytes the writing pass then emits behind the length |
| `ProtobufEncode.EncodeSubmessage` | ios/Pods/nanopb/pb_encode.c:682-730 | The two passes over a submessage agree at every depth, so the size check at the end cannot fail |
| `ProtobufEncode.EncodeValue` | ios/Pods/nanopb/pb_encode.c:734-868 | The same for a single value of each type |
| `Protobuf.ScalarsInNumbers` | ios/Pods/nanopb/pb_encode.c:595-671 | Every scalar type byte for byte, with its wire type: the examples of the encoding specification |
| `Protobuf.NegativeInNumbers` | ios/Pods/nanopb/pb_encode.c:734-763 | A negative number takes ten bytes whatever its width |
| `Protobuf.StringInNumbers` | ios/Pods/nanopb/pb_encode.c:673-680 | The string example of the encoding specification |
| `Protobuf.MessageInNumbers` | ios/Pods/nanopb/pb_encode.c:682-730 | The submessage example of the encoding specification |
| `Protobuf.ListInNumbers` | ios/Pods/nanopb/pb_encode.c:139-181 | The packed list example of the encoding specification |
| `Protobuf.VarintListsInNumbers` | ios/Pods/nanopb/pb_encode.c:139-181 | Lists of every varint type are packed |
| `Protobuf.FixedListsInNumbers` | ios/Pods/nanopb/pb_encode.c:139-181 | Lists of both fixed types are packed |
| `Protobuf.StringListInNumbers` | ios/Pods/nanopb/pb_encode.c:183-208 | Lists of strings are not packed |
| `ProtobufStream.IStream.DecodeVarint` | ios/Pods/nanopb/pb_decode.c:250-271 | Agrees with the ten-byte varint decoder, cut to 64 bits, on all input |
| `ProtobufStream.IStream.DecodeVarint32` | ios/Pods/nanopb/pb_decode.c:182-248 | An encoded 32-bit number comes back; an exhausted stream is told apart from an error |
| `ProtobufStream.IStream.MakeSubstream` | ios/Pods/nanopb/pb_decode.c:367-391 | Splits off exactly the length-prefixed part |
| `ProtobufStream.IStream.DecodeTag` | ios/Pods/nanopb/pb_decode.c:293-314 | An encoded tag comes back as its wire type and number |
| `ProtobufStream.IStream.SkipField` | ios/Pods/nanopb/pb_decode.c:316-326 | Skips exactly a payload of each wire type and rejects the unassigned ones |
| `ProtobufFields.FieldIter.Next` | ios/Pods/nanopb/pb_common.c:20-76 | Visits the fields in order and wraps, keeping the count of required fields passed |
| `ProtobufFields.FieldIter.Find` | ios/Pods/nanopb/pb_common.c:78-96 | From any position the cyclic walk terminates, on the field with the tag if there is one |
| `ProtobufFields.FieldsSeen.AllPresent` | ios/Pods/nanopb/pb_decode.c:1006-1045 | The word-wise bitmask check passes if and only if each of the first 64 required fields was seen |
| `ProtobufFields.CountRequired` | ios/Pods/nanopb/pb_decode.c:1008-1022 | Walking to the wrap-around counts the required fields exactly |
| `ProtobufDecode.SignedRoundTrip` | ios/Pods/nanopb/pb_decode.c:1289-1324 | A signed number of each width survives its 64-bit two's complement |
| `ProtobufDecode.ZigZagRoundTrip` | ios/Pods/nanopb/pb_decode.c:1240-1252 | ZigZag encoding is undone by its decoding for every width |
| `ProtobufDecode.DecodeScalar` | ios/Pods/nanopb/pb_decode.c:1289-1389 | The bytes of a scalar or blob give the value back and nothing more is consumed |
| `ProtobufDecode.DecodeBlob` | ios/Pods/nanopb/pb_decode.c:1391-1508 | The same for bytes, strings and byte arrays of fixed length |
| `ProtobufDecode.DecodePacked` | ios/Pods/nanopb/pb_decode.c:419-448 | A packed array is appended to the values already there and its part of the stream is used up |
| `ProtobufDecode.DecodeField` | ios/Pods/nanopb/pb_decode.c:401-475 | A record has exactly its meaning on the message: set, append, clear the rest of its union and set, or merge into the submessage already there |
| `ProtobufDecode.DecodeElements` | ios/Pods/nanopb/pb_decode.c:419-459 | An array record appends what it brings, packed or not, within the maximum |
| `ProtobufDecode.DecodeMessage` | ios/Pods/nanopb/pb_decode.c:901-1049 | Any list of records that fits, in any order, repeated, and with unknown fields anywhere between them, is read as what the known ones mean one by one; it succeeds if and only if each of the first 64 required fields has a record |
| `ProtobufDecode.EncodedMessageReads` | ios/Pods/nanopb/pb_decode.c:901-1049 | The records of an encoded message fit, hold every required field, and mean the message |
| `ProtobufDecode.Decode` | ios/Pods/nanopb/pb_decode.c:1051-1063 | Decoding the encoding of any in-bounds message gives that message; and whatever the bytes, a message that is accepted is in bounds |
| `ProtobufDecode.EncodableIsInBounds` | ios/Pods/nanopb/pb_decode.c:1051-1063 | What the encoder takes is in bounds in that sense, arrays, unions and nested messages included |
| `ProtobufDecode.EncodeThenDecode` | ios/Pods/nanopb/pb_decode.c:1051-1063 | Round trip: a message that fits the buffer comes back unchanged, and it fits exactly when its encoding does |

## Left out

- The application itself (`src/`, the app shells) and all Objective-C headers: flag-setting reducers, network calls and declarations.
- `Engine` is a state machine over values, not `DBImpl`'s fields updated in place: an action is one critical section, append or finished file. Aliasing and the identity of memtable and version objects are not captured; reader objects carry the values they hold references to.
- In the engine a user key is its rank in the comparator's order; `Comparators` and `Tables` work on bytes.
- The engine's actions assume boundary-closed inputs, and a flush that stays clear of the result of a running requested compaction in its output level; see Findings for the exact conditions and what goes wrong without them.
- I/O errors other than a crash, machine crashes that lose unsynced data, `reuse_logs`, `paranoid_checks`, `bg_error_` and repair: they change the guarantees or only salvage data.
- The memtable switch a full memtable causes is a step of the front writer's; `bg_error_` and stalls before it are left out.
- Write stalls, slowdown delays and background scheduling: `SwitchMemTable` and the compaction actions may happen whenever their conditions hold, which covers every schedule.
- Compactions.Compaction.DoCompactionWork: keys that do not parse, the exit on shutdown and the flush inside the loop; a flush during a compaction is a step of the engine.
- Seek statistics and read sampling: the file with too many seeks is an argument of `Picking.Picker.PickCompaction`. Scores are real numbers, so rounding is left out. The compaction pointer recorded in an edit is not carried through recovery.
- The limits derived from the target file size are arguments; `IsTrivialMove`'s size test only makes moves rarer.
- Sequence numbers stay below the largest 56-bit one; the code does not check for overflow either.
- File numbering of manifests, the CURRENT file's contents and info logs: the manifest is one sequence of edits, replaced in one step at the end of recovery.
- Versions with the previous-log number of older formats: it is always 0.
- Memory is sequentially consistent in `SkipLists`; acquire and release orderings and the arena are not modelled. The three search loops of the skip list share one body that differs only in when it stops.
- The duplicate-key assertion of the skip list: inserted keys are new, as sequence allocation guarantees.
- Dead branches of `DBIter` and `MergingIterator` are kept in form but never taken under their invariants.
- DbIters: entries are uncorrupted; the status path and the counters for read sampling are left out.
- TwoLevel: block handles that fail to open and their error statuses.
- Log reader: the initial offset is 0 and there is no resynchronisation. On a file that is not a prefix of a written log it is claimed that reading ends and that accepted fragments have right checksums, not which bytes are reported as lost.
- CRC32C: the four tables are defined from the polynomial; of the 1024 literals of `util/crc32c.cc` four are proved, beside the check value. The SSE path is left out.
- Block offsets and lengths are unbounded numbers; 32-bit wrap-around can only arise on corrupt blocks.
- The Bloom hash is an arbitrary function and the probe count is given (the code derives it from the bits per key with floating point).
- Tables: a table without a filter has none to ask; how the filter block is found and opened is left out. Block compression, block trailers, footers and the block cache in `Tables`; a data block is its entries and a byte size, its bytes being the subject of `Blocks` and `BlockBuilders`.
- The two lists of the LRU cache are sequences; how a circular list is linked is shown in `Snapshots`. One shard of the cache; hash masking is written as a remainder by the power of two.
- HandleTables: chains are sequences in bucket order rather than linked nodes.
- The byte layout of a memtable entry (length-prefixed key with its tag, length-prefixed value): the memtable is a table of entries, and the codecs it uses are in `Coding`.
- WriteBatches.WriteBatch.Append: appending a batch to itself is excluded, as no caller does it.
- nanopb: callbacks, extensions, pointer fields, fixed-count arrays, descriptor default values and raw struct offsets. A descriptor is a list of fields, and a message a tree of values.
- nanopb: the empty descriptor, which has only a terminator of tag 0, has no field to find.
- nanopb: on malformed input the claims are termination, progress and that an accepted message is in bounds, not which inputs are rejected. Unknown fields inside a submessage record are not covered by its value's encoding.
- ProtobufEncode: contents out of bounds are rejected only for array counts; other out-of-bounds contents are excluded. The size arithmetic does not overflow.
- Property printing, approximate sizes, C bindings, POSIX files, threads, mutexes and loggers.
