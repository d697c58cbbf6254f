/** The merge loop of a compaction (DBImpl::DoCompactionWork) and the cached scans it relies on
    (Compaction::IsBaseLevelForKey, Compaction::ShouldStopBefore). */
module Compactions {
  import opened InternalKeys
  import opened Versions
  import opened VersionInvariant

  /** No file two or more levels down has `user` in its user-key range. */
  ghost predicate IsBaseLevel(v: Version, level: nat, user: UserKey)
    requires |v| == NUM_LEVELS
  {
    forall l, f :: level + 2 <= l < NUM_LEVELS && f in v[l] ==> !(f.smallest.user <= user <= f.largest.user)
  }

  /** The two drop rules, stated on the merged input: the preceding entry is a newer version of the
      same key that every live snapshot sees, or the entry is a deletion with nothing beneath. */
  ghost predicate Dropped(input: Table, i: nat, ss: nat, v: Version, level: nat)
    requires i < |input| && |v| == NUM_LEVELS
  {
    || (i > 0 && input[i - 1].key.user == input[i].key.user && input[i - 1].key.seqno <= ss)
    || (input[i].key.kind == TypeDeletion && input[i].key.seqno <= ss && IsBaseLevel(v, level, input[i].key.user))
  }

  /** What the merge keeps of the first n input entries. */
  ghost function Kept(input: Table, n: nat, ss: nat, v: Version, level: nat): Table
    requires n <= |input| && |v| == NUM_LEVELS
  {
    if n == 0 then []
    else if Dropped(input, n - 1, ss, v, level) then Kept(input, n - 1, ss, v, level)
    else Kept(input, n - 1, ss, v, level) + [input[n - 1]]
  }

  datatype Output = Output(smallest: InternalKey, largest: InternalKey, table: Table)

  ghost predicate OutputOk(o: Output) {
    |o.table| > 0 && o.smallest == o.table[0].key && o.largest == o.table[|o.table| - 1].key
  }

  ghost function Concat(outs: seq<Output>): Table {
    if outs == [] then [] else Concat(outs[..|outs| - 1]) + outs[|outs| - 1].table
  }

  /** Files before the first one whose largest key is not below this key. */
  function FilesBelow(files: Level, key: InternalKey): (i: nat)
    ensures i <= |files| && (forall j :: 0 <= j < i ==> Less(files[j].largest, key))
    ensures i < |files| ==> !Less(files[i].largest, key)
  {
    if files == [] || !Less(files[0].largest, key) then 0 else 1 + FilesBelow(files[1..], key)
  }

  lemma FilesBelowIs(files: Level, key: InternalKey, i: nat)
    requires i <= |files| && (forall j :: 0 <= j < i ==> Less(files[j].largest, key))
    requires i < |files| ==> !Less(files[i].largest, key)
    ensures FilesBelow(files, key) == i
  {
  }

  /** Bytes of the files from one to another. */
  function BytesBetween(files: Level, from: nat, to: nat): nat
    requires from <= to <= |files|
  {
    TotalFileSize(files[from..to])
  }

  lemma {:induction false} BytesAdd(files: Level, a: nat, b: nat, c: nat)
    requires a <= b <= c <= |files|
    ensures BytesBetween(files, a, c) == BytesBetween(files, a, b) + BytesBetween(files, b, c)
    decreases c
  {
    if b < c {
      BytesAdd(files, a, b, c - 1);
      assert files[a..c][..c - 1 - a] == files[a..c - 1] && files[b..c][..c - 1 - b] == files[b..c - 1];
    }
  }

  class Compaction {
    const level: nat
    const inputVersion: Version
    const grandparents: Level
    const maxGrandParentOverlap: nat
    const maxOutputFileSize: nat
    const fileSize: Table -> nat  // what the table builder reports for the entries so far
    var levelPtrs: array<nat>
    var grandparentIndex: nat
    var seenKey: bool
    var overlappedBytes: nat

    ghost predicate Valid()
      reads this, levelPtrs
    {
      && VersionOk(inputVersion)
      && level + 1 < NUM_LEVELS
      && levelPtrs.Length == NUM_LEVELS
      && (forall l :: level + 2 <= l < NUM_LEVELS ==> levelPtrs[l] <= |inputVersion[l]|)
      && grandparentIndex <= |grandparents|
    }

    /** Every file already skipped lies wholly before `user`. */
    ghost predicate Passed(user: UserKey)
      requires Valid()
      reads this, levelPtrs
    {
      forall l, i :: level + 2 <= l < NUM_LEVELS && 0 <= i < levelPtrs[l] ==> inputVersion[l][i].largest.user < user
    }

    constructor (level: nat, inputVersion: Version, grandparents: Level, maxGrandParentOverlap: nat, maxOutputFileSize: nat, fileSize: Table -> nat)
      requires VersionOk(inputVersion) && level + 1 < NUM_LEVELS
      ensures Valid() && fresh(levelPtrs)
      ensures this.level == level && this.inputVersion == inputVersion && this.grandparents == grandparents
      ensures this.maxGrandParentOverlap == maxGrandParentOverlap && this.maxOutputFileSize == maxOutputFileSize && this.fileSize == fileSize
      ensures forall user :: Passed(user)
      ensures grandparentIndex == 0 && !seenKey && overlappedBytes == 0
    {
      this.level, this.inputVersion, this.grandparents := level, inputVersion, grandparents;
      this.maxGrandParentOverlap, this.maxOutputFileSize, this.fileSize := maxGrandParentOverlap, maxOutputFileSize, fileSize;
      levelPtrs := new nat[NUM_LEVELS](_ => 0);
      grandparentIndex, seenKey, overlappedBytes := 0, false, 0;
    }

    /** Asked about ascending keys, the cached pointers give the answer a full scan would. */
    method IsBaseLevelForKey(user: UserKey) returns (base: bool)
      requires Valid() && Passed(user)
      modifies levelPtrs
      ensures Valid() && Passed(user)
      ensures base <==> IsBaseLevel(inputVersion, level, user)
    {
      var lvl := level + 2;
      while lvl < NUM_LEVELS
        invariant level + 2 <= lvl <= NUM_LEVELS || lvl == level + 2
        invariant Valid() && Passed(user)
        invariant forall l, f :: level + 2 <= l < lvl && l < NUM_LEVELS && f in inputVersion[l] ==> !(f.smallest.user <= user <= f.largest.user)
      {
        var files := inputVersion[lvl];
        var hit := false;
        while levelPtrs[lvl] < |files|
          invariant Valid() && Passed(user) && !hit
          decreases |files| - levelPtrs[lvl]
        {
          var f := files[levelPtrs[lvl]];
          if user <= f.largest.user {
            if user >= f.smallest.user {
              hit := true;
            }
            break;
          }
          levelPtrs[lvl] := levelPtrs[lvl] + 1;
        }
        if hit {
          assert files[levelPtrs[lvl]] in inputVersion[lvl];
          return false;
        }
        ScanSettled(files, levelPtrs[lvl], user);
        lvl := lvl + 1;
      }
      base := true;
    }

    /** Decides whether the current output has met too much of the grandparent level. */
    method ShouldStopBefore(key: InternalKey) returns (stop: bool)
      requires Valid()
      modifies this`grandparentIndex, this`seenKey, this`overlappedBytes
      ensures Valid() && seenKey
      ensures old(grandparentIndex) <= grandparentIndex
      ensures forall i :: old(grandparentIndex) <= i < grandparentIndex ==> Less(grandparents[i].largest, key)
      ensures grandparentIndex < |grandparents| ==> !Less(grandparents[grandparentIndex].largest, key)
      ensures var total := old(overlappedBytes) + (if old(seenKey) then TotalFileSize(grandparents[old(grandparentIndex)..grandparentIndex]) else 0);
              && stop == (total > maxGrandParentOverlap)
              && overlappedBytes == if stop then 0 else total
    {
      while grandparentIndex < |grandparents| && Less(grandparents[grandparentIndex].largest, key)
        invariant Valid()
        invariant old(grandparentIndex) <= grandparentIndex
        invariant forall i :: old(grandparentIndex) <= i < grandparentIndex ==> Less(grandparents[i].largest, key)
        invariant seenKey == old(seenKey)
        invariant overlappedBytes == old(overlappedBytes) + if seenKey then TotalFileSize(grandparents[old(grandparentIndex)..grandparentIndex]) else 0
      {
        assert grandparents[old(grandparentIndex)..grandparentIndex + 1]
            == grandparents[old(grandparentIndex)..grandparentIndex] + [grandparents[grandparentIndex]];
        if seenKey {
          overlappedBytes := overlappedBytes + grandparents[grandparentIndex].size;
        }
        grandparentIndex := grandparentIndex + 1;
      }
      seenKey := true;
      if overlappedBytes > maxGrandParentOverlap {
        overlappedBytes := 0;
        stop := true;
      } else {
        stop := false;
      }
    }

    lemma OneEntryMore(t: Table, e: Entry)
      requires WithinSize(t) && (t != [] ==> fileSize(t) < maxOutputFileSize)
      ensures WithinSize(t + [e])
    {
      assert forall n :: 0 < n <= |t| ==> (t + [e])[..n] == t[..n];
      assert t[..|t|] == t;
    }

    /** No output goes on once it has reached the size limit. */
    ghost predicate WithinSize(t: Table) {
      forall n :: 0 < n < |t| ==> fileSize(t[..n]) < maxOutputFileSize
    }

    ghost predicate AllWithinSize(outputs: seq<Output>) {
      forall o :: o in outputs ==> WithinSize(o.table)
    }

    // ---------- where outputs are cut ----------

    static function OutputOf(t: Table): Output
      requires t != []
    {
      Output(t[0].key, t[|t| - 1].key, t)
    }

    /** The files of the next level but one that the keys of an output pass have no more bytes than allowed. */
    ghost predicate WithinOverlap(t: Table) {
      t != [] ==>
        && FilesBelow(grandparents, t[0].key) <= FilesBelow(grandparents, t[|t| - 1].key)
        && BytesBetween(grandparents, FilesBelow(grandparents, t[0].key), FilesBelow(grandparents, t[|t| - 1].key)) <= maxGrandParentOverlap
    }

    /** Why output j was ended: it had reached the size limit, or more bytes of those files than allowed
        had been passed where the next one starts. */
    ghost predicate EndedFor(outputs: seq<Output>, j: nat, next: nat)
      requires j < |outputs|
    {
      || fileSize(outputs[j].table) >= maxOutputFileSize
      || (var p := if j + 1 < |outputs| then FilesBelow(grandparents, outputs[j + 1].smallest) else next;
          p <= |grandparents| && BytesBetween(grandparents, 0, p) > maxGrandParentOverlap)
    }

    ghost predicate EndedForReason(outputs: seq<Output>, next: nat) {
      forall j: nat :: j < |outputs| ==> EndedFor(outputs, j, next)
    }

    /** The cuts so far, the output under way, and the scan of the grandparents. */
    ghost predicate Cut(outputs: seq<Output>, builder: Table, index: nat, seen: bool, overlapped: nat) {
      && index <= |grandparents| && overlapped <= maxGrandParentOverlap && overlapped <= BytesBetween(grandparents, 0, index)
      && (builder != [] ==>
            && seen && FilesBelow(grandparents, builder[0].key) <= index
            && BytesBetween(grandparents, FilesBelow(grandparents, builder[0].key), index) <= overlapped)
      && WithinOverlap(builder) && (forall o :: o in outputs ==> WithinOverlap(o.table))
      && EndedForReason(outputs, if builder == [] then index else FilesBelow(grandparents, builder[0].key))
    }

    /** A later point of the scan is as good a reason. */
    lemma ReasonStays(outputs: seq<Output>, next: nat, next': nat)
      requires EndedForReason(outputs, next) && next <= next' <= |grandparents|
      ensures EndedForReason(outputs, next')
    {
      hide BytesBetween;
      BytesAdd(grandparents, 0, next, next');
      forall j: nat | j < |outputs| ensures EndedFor(outputs, j, next') {
        assert EndedFor(outputs, j, next);
      }
    }

    /** One more output, ended for a reason. */
    lemma OneOutputMore(outputs: seq<Output>, t: Table, next: nat)
      requires t != [] && EndedForReason(outputs, FilesBelow(grandparents, t[0].key))
      requires next <= |grandparents| && (fileSize(t) >= maxOutputFileSize || BytesBetween(grandparents, 0, next) > maxGrandParentOverlap)
      ensures EndedForReason(outputs + [OutputOf(t)], next)
    {
      hide BytesBetween, FilesBelow;
      var more := outputs + [OutputOf(t)];
      forall j: nat | j < |more| ensures EndedFor(more, j, next) {
        if j < |outputs| {
          assert EndedFor(outputs, j, FilesBelow(grandparents, t[0].key));
        }
      }
    }

    /** The scan moves on for a key; if the limit is not exceeded, or nothing is under way, no output ends. */
    lemma ScanMoves(outputs: seq<Output>, builder: Table, index: nat, seen: bool, overlapped: nat, index': nat, total: nat)
      requires Cut(outputs, builder, index, seen, overlapped) && index <= index' <= |grandparents|
      requires total == overlapped + (if seen then BytesBetween(grandparents, index, index') else 0)
      ensures total <= BytesBetween(grandparents, 0, index')
      ensures total <= maxGrandParentOverlap ==> Cut(outputs, builder, index', true, total)
      ensures total > maxGrandParentOverlap ==> Cut(if builder == [] then outputs else outputs + [OutputOf(builder)], [], index', true, 0)
    {
      hide BytesBetween, FilesBelow, WithinOverlap, EndedForReason;
      BytesAdd(grandparents, 0, index, index');
      EmptyWithin();
      if builder == [] {
        ReasonStays(outputs, index, index');
      } else {
        BytesAdd(grandparents, FilesBelow(grandparents, builder[0].key), index, index');
        if total > maxGrandParentOverlap {
          OneOutputMore(outputs, builder, index');
        }
      }
    }

    lemma EmptyWithin()
      ensures WithinOverlap([]) && BytesBetween(grandparents, 0, 0) == 0
    {
    }

    /** An entry at the point the scan has reached joins the output under way. */
    lemma EntryJoins(outputs: seq<Output>, builder: Table, index: nat, overlapped: nat, e: Entry)
      requires Cut(outputs, builder, index, true, overlapped) && index == FilesBelow(grandparents, e.key)
      ensures Cut(outputs, builder + [e], index, true, overlapped)
    {
      hide FilesBelow, EndedForReason;
      assert grandparents[index..index] == [];
    }

    /** The output under way ends because of its size. */
    lemma EndsFull(outputs: seq<Output>, builder: Table, index: nat, overlapped: nat)
      requires Cut(outputs, builder, index, true, overlapped) && builder != [] && fileSize(builder) >= maxOutputFileSize
      ensures Cut(outputs + [OutputOf(builder)], [], index, true, overlapped)
    {
      hide BytesBetween, FilesBelow, WithinOverlap, EndedForReason;
      EmptyWithin();
      OneOutputMore(outputs, builder, index);
    }

    /** At the end: every output is within the limits, and each but the last was ended for a reason. */
    lemma AllCut(outputs: seq<Output>, builder: Table, index: nat, seen: bool, overlapped: nat)
      requires Cut(outputs, builder, index, seen, overlapped)
      ensures var all := if builder == [] then outputs else outputs + [OutputOf(builder)];
              && (forall o :: o in all ==> WithinOverlap(o.table))
              && forall j: nat :: j + 1 < |all| ==> EndedFor(all, j, 0)
    {
      hide BytesBetween, FilesBelow, WithinOverlap;
      var all := if builder == [] then outputs else outputs + [OutputOf(builder)];
      var next := if builder == [] then index else FilesBelow(grandparents, builder[0].key);
      forall j: nat | j + 1 < |all| ensures EndedFor(all, j, 0) {
        assert EndedFor(outputs, j, next);
      }
    }

    method FinishOutput(outputs: seq<Output>, builder: Table) returns (outputs': seq<Output>, builder': Table)
      requires builder != [] && AllOk(outputs) && WithinSize(builder)
      ensures Concat(outputs') + builder' == Concat(outputs) + builder && builder' == []
      ensures AllOk(outputs') && outputs' == outputs + [OutputOf(builder)]
    {
      outputs' := outputs + [OutputOf(builder)];
      builder' := [];
      assert outputs'[..|outputs|] == outputs;
    }

    ghost predicate AllOk(outputs: seq<Output>) {
      (forall o :: o in outputs ==> OutputOk(o)) && AllWithinSize(outputs)
    }

    /** The two drop rules. */
    method MayDropKey(key: InternalKey, lastSequenceForKey: nat, ss: nat) returns (drop: bool)
      requires Valid() && Passed(key.user)
      modifies levelPtrs
      ensures Valid() && Passed(key.user)
      ensures drop <==> lastSequenceForKey <= ss || (key.kind == TypeDeletion && key.seqno <= ss && IsBaseLevel(inputVersion, level, key.user))
    {
      drop := false;
      if lastSequenceForKey <= ss {
        drop := true;
      } else if key.kind == TypeDeletion && key.seqno <= ss {
        drop := IsBaseLevelForKey(key.user);
      }
    }

    lemma DropIs(input: Table, i: nat, ss: nat)
      requires i < |input| && ss < MAX_SEQUENCE && |inputVersion| == NUM_LEVELS
      ensures Dropped(input, i, ss, inputVersion, level) <==>
              var key := input[i].key;
              var last := if i > 0 && input[i - 1].key.user == key.user then input[i - 1].key.seqno else MAX_SEQUENCE;
              last <= ss || (key.kind == TypeDeletion && key.seqno <= ss && IsBaseLevel(inputVersion, level, key.user))
    {
    }

    /** The cursor, moved on from where it stood for an earlier key, stands at the files below this one. */
    lemma ScanReaches(input: Table, i: nat, from: nat, to: nat)
      requires Sorted(input) && i < |input| && from <= to <= |grandparents|
      requires if i == 0 then from == 0 else from == FilesBelow(grandparents, input[i - 1].key)
      requires forall j :: from <= j < to ==> Less(grandparents[j].largest, input[i].key)
      requires to < |grandparents| ==> !Less(grandparents[to].largest, input[i].key)
      ensures to == FilesBelow(grandparents, input[i].key)
    {
      forall j | 0 <= j < to ensures Less(grandparents[j].largest, input[i].key) {
        if j < from {
          LessIsTotalOrder(grandparents[j].largest, input[i - 1].key, input[i].key);
        }
      }
      FilesBelowIs(grandparents, input[i].key, to);
    }

    /** What holds between two entries of the merged input: the outputs so far, and the one under way. */
    ghost predicate Sofar(outputs: seq<Output>, builder: Table, input: Table, i: nat)
      requires i <= |input|
      reads this
    {
      && AllOk(outputs) && WithinSize(builder) && (builder != [] ==> fileSize(builder) < maxOutputFileSize)
      && Cut(outputs, builder, grandparentIndex, seenKey, overlappedBytes) && seenKey == (i > 0)
      && grandparentIndex == if i == 0 then 0 else FilesBelow(grandparents, input[i - 1].key)
    }

    lemma NothingYet(input: Table)
      requires grandparentIndex == 0 && !seenKey && overlappedBytes == 0
      ensures Sofar([], [], input, 0) && Concat([]) == []
    {
      assert grandparents[0..0] == [];
    }

    /** Ends the output under way if the next key passes too many bytes of the grandparents. */
    method CutBefore(outputs: seq<Output>, builder: Table, input: Table, i: nat) returns (outputs': seq<Output>, builder': Table)
      requires Valid() && Sorted(input) && i < |input| && Sofar(outputs, builder, input, i)
      modifies this`grandparentIndex, this`seenKey, this`overlappedBytes
      ensures Valid() && Sofar(outputs', builder', input, i + 1)
      ensures Concat(outputs') + builder' == Concat(outputs) + builder
    {
      hide WithinSize, Cut, FilesBelow, AllOk, Concat;
      outputs', builder' := outputs, builder;
      ghost var index, overlapped := grandparentIndex, overlappedBytes;
      var stop := ShouldStopBefore(input[i].key);
      ScanReaches(input, i, index, grandparentIndex);
      ScanMoves(outputs, builder, index, i > 0, overlapped, grandparentIndex,
                overlapped + if i > 0 then BytesBetween(grandparents, index, grandparentIndex) else 0);
      if stop && builder != [] {
        outputs', builder' := FinishOutput(outputs, builder);
        NothingWithin();
      }
    }

    lemma NothingWithin()
      ensures WithinSize([])
    {
    }

    /** Adds an entry to the output under way, and ends that if it has become big enough. */
    method Emit(outputs: seq<Output>, builder: Table, input: Table, i: nat) returns (outputs': seq<Output>, builder': Table)
      requires Valid() && i < |input| && Sofar(outputs, builder, input, i + 1)
      ensures Sofar(outputs', builder', input, i + 1)
      ensures Concat(outputs') + builder' == Concat(outputs) + (builder + [input[i]])
    {
      hide WithinSize, Cut, FilesBelow, AllOk, Concat;
      OneEntryMore(builder, input[i]);
      EntryJoins(outputs, builder, grandparentIndex, overlappedBytes, input[i]);
      outputs', builder' := outputs, builder + [input[i]];
      if fileSize(builder') >= maxOutputFileSize {
        EndsFull(outputs, builder', grandparentIndex, overlappedBytes);
        outputs', builder' := FinishOutput(outputs, builder');
        NothingWithin();
      }
    }

    /** The compaction loop: whatever output cuts the size limit and the grandparents force, the outputs
        strung together are exactly the surviving entries; none goes on beyond either limit, and each but the
        last was ended because of one. */
    method DoCompactionWork(input: Table, ss: nat) returns (outputs: seq<Output>)
      requires Valid() && Sorted(input) && ss < MAX_SEQUENCE
      requires (forall user :: Passed(user)) && grandparentIndex == 0 && !seenKey && overlappedBytes == 0
      modifies this`grandparentIndex, this`seenKey, this`overlappedBytes, levelPtrs
      ensures Concat(outputs) == Kept(input, |input|, ss, inputVersion, level)
      ensures (forall o :: o in outputs ==> OutputOk(o)) && AllWithinSize(outputs)
      ensures forall o :: o in outputs ==> WithinOverlap(o.table)
      ensures forall j: nat :: j + 1 < |outputs| ==> EndedFor(outputs, j, 0)
    {
      hide TotalFileSize, OutputOk, Dropped, Kept, IsBaseLevel, Sofar, Concat, WithinOverlap, EndedFor, AllWithinSize;
      NothingYet(input);
      KeptNone(input, ss, inputVersion, level);
      outputs := [];
      var builder: Table := [];
      var currentUserKey: UserKey := 0;
      var hasCurrentUserKey := false;
      var lastSequenceForKey := MAX_SEQUENCE;
      for i := 0 to |input|
        invariant Valid()
        invariant i == 0 ==> forall user :: Passed(user)
        invariant i > 0 ==> Passed(input[i - 1].key.user)
        invariant hasCurrentUserKey == (i > 0)
        invariant i > 0 ==> currentUserKey == input[i - 1].key.user && lastSequenceForKey == input[i - 1].key.seqno
        invariant Concat(outputs) + builder == Kept(input, i, ss, inputVersion, level)
        invariant Sofar(outputs, builder, input, i)
      {
        var key := input[i].key;
        assert i > 0 ==> Less(input[i - 1].key, key);
        assert Passed(key.user);
        outputs, builder := CutBefore(outputs, builder, input, i);
        assert Passed(key.user);
        if !hasCurrentUserKey || key.user != currentUserKey {
          currentUserKey := key.user;
          hasCurrentUserKey := true;
          lastSequenceForKey := MAX_SEQUENCE;
        }
        var drop := MayDropKey(key, lastSequenceForKey, ss);
        assert Sofar(outputs, builder, input, i + 1);
        lastSequenceForKey := key.seqno;
        assert drop <==> Dropped(input, i, ss, inputVersion, level) by { DropIs(input, i, ss); }
        KeptNext(input, i, ss, inputVersion, level);
        if !drop {
          outputs, builder := Emit(outputs, builder, input, i);
        }
      }
      SofarCut(outputs, builder, input);
      if builder != [] {
        outputs, builder := FinishOutput(outputs, builder);
      }
    }

    lemma SofarCut(outputs: seq<Output>, builder: Table, input: Table)
      requires Sofar(outputs, builder, input, |input|)
      ensures AllOk(outputs) && WithinSize(builder)
      ensures var all := if builder == [] then outputs else outputs + [OutputOf(builder)];
              && (forall o :: o in all ==> WithinOverlap(o.table))
              && forall j: nat :: j + 1 < |all| ==> EndedFor(all, j, 0)
    {
      AllCut(outputs, builder, grandparentIndex, seenKey, overlappedBytes);
    }
  }

  lemma KeptNone(input: Table, ss: nat, v: Version, level: nat)
    requires |v| == NUM_LEVELS
    ensures Kept(input, 0, ss, v, level) == []
  {
  }

  lemma KeptNext(input: Table, i: nat, ss: nat, v: Version, level: nat)
    requires i < |input| && |v| == NUM_LEVELS
    ensures Kept(input, i + 1, ss, v, level) == Kept(input, i, ss, v, level) + (if Dropped(input, i, ss, v, level) then [] else [input[i]])
  {
  }

  /** An entry of the merged input survives exactly if every newer version of its key in the input is beyond
      the oldest live snapshot, and it is not a deletion at or below that snapshot with nothing deeper. */
  lemma SurvivesIff(input: Table, i: nat, ss: nat, v: Version, level: nat)
    requires Sorted(input) && DistinctSeqnos(input) && i < |input| && |v| == NUM_LEVELS
    ensures input[i] in Kept(input, |input|, ss, v, level) <==>
            && (forall x :: x in input && x.key.user == input[i].key.user && x.key.seqno > input[i].key.seqno ==> x.key.seqno > ss)
            && !(input[i].key.kind == TypeDeletion && input[i].key.seqno <= ss
                 && forall l, f :: level + 2 <= l < NUM_LEVELS && f in v[l] ==> input[i].key.user < f.smallest.user || f.largest.user < input[i].key.user)
  {
    KeptMembers(input, |input|, ss, v, level, input[i]);
    OnePlace(input, i);
    HiddenIff(input, i, ss);
  }

  lemma OnePlace(input: Table, i: nat)
    requires Sorted(input) && i < |input|
    ensures forall j :: 0 <= j < |input| && input[j] == input[i] ==> j == i
  {
  }

  lemma HiddenIff(input: Table, i: nat, ss: nat)
    requires Sorted(input) && DistinctSeqnos(input) && i < |input|
    ensures (i > 0 && input[i - 1].key.user == input[i].key.user && input[i - 1].key.seqno <= ss) <==>
            exists x :: x in input && x.key.user == input[i].key.user && x.key.seqno > input[i].key.seqno && x.key.seqno <= ss
  {
    if i > 0 && input[i - 1].key.user == input[i].key.user && input[i - 1].key.seqno <= ss {
      SameUserDescends(input, i - 1, i);
      assert input[i - 1] in input;
    }
    if x :| x in input && x.key.user == input[i].key.user && x.key.seqno > input[i].key.seqno && x.key.seqno <= ss {
      var j :| 0 <= j < |input| && input[j] == x;
      if j > i {
        SameUserDescends(input, i, j);
      }
      SameUserDescends(input, j, i);
      if j < i - 1 {
        SameUserDescends(input, j, i - 1);
      }
    }
  }

  lemma ScanSettled(files: Level, ptr: nat, user: UserKey)
    requires forall f :: f in files ==> FileOk(f)
    requires LevelOrdered(files) && ptr <= |files|
    requires forall i :: 0 <= i < ptr ==> files[i].largest.user < user
    requires ptr < |files| ==> user < files[ptr].smallest.user
    ensures forall f :: f in files ==> !(f.smallest.user <= user <= f.largest.user)
  {
    LargestAscend(files);
  }

  // ---------- the loop justifies every drop ----------

  lemma {:induction false} KeptMembers(input: Table, n: nat, ss: nat, v: Version, level: nat, x: Entry)
    requires n <= |input| && |v| == NUM_LEVELS
    ensures x in Kept(input, n, ss, v, level) <==> exists i :: 0 <= i < n && input[i] == x && !Dropped(input, i, ss, v, level)
  {
    if n > 0 {
      KeptMembers(input, n - 1, ss, v, level, x);
    }
  }

  lemma {:induction false} KeptSorted(input: Table, n: nat, ss: nat, v: Version, level: nat)
    requires n <= |input| && |v| == NUM_LEVELS && Sorted(input)
    ensures Sorted(Kept(input, n, ss, v, level))
  {
    if n > 0 {
      KeptSorted(input, n - 1, ss, v, level);
      var k := Kept(input, n - 1, ss, v, level);
      forall j | 0 <= j < |k| ensures Less(k[j].key, input[n - 1].key) {
        KeptMembers(input, n - 1, ss, v, level, k[j]);
      }
    }
  }

  ghost predicate DistinctSeqnos(input: Table) {
    forall i, j :: 0 <= i < j < |input| && input[i].key.user == input[j].key.user ==> input[i].key.seqno != input[j].key.seqno
  }

  lemma SameUserDescends(input: Table, i: nat, j: nat)
    requires Sorted(input) && DistinctSeqnos(input)
    requires i < j < |input| && input[i].key.user == input[j].key.user
    ensures input[i].key.seqno > input[j].key.seqno
    ensures forall k :: i <= k <= j ==> input[k].key.user == input[i].key.user
  {
    forall k | i < k < j ensures input[k].key.user == input[i].key.user {
      assert Less(input[i].key, input[k].key) && Less(input[k].key, input[j].key);
    }
  }

  /** Each entry the loop drops is one a compaction may drop. `v` is the version being rewritten,
      `base` the version whose deeper levels the loop consulted. */
  lemma DropsAreJustified(input: Table, ss: nat, base: Version, v: Version, level: nat, x: Entry)
    requires |v| == NUM_LEVELS && |base| == NUM_LEVELS
    requires Sorted(input) && DistinctSeqnos(input)
    requires forall user :: (exists y :: y in input && y.key.user == user) && IsBaseLevel(base, level, user) ==> NoDeeper(v, level, user)
    requires x in input && x !in Kept(input, |input|, ss, base, level)
    ensures MayDrop(v, level, EntriesOf(input), EntriesOf(Kept(input, |input|, ss, base, level)), x, ss)
  {
    var i :| 0 <= i < |input| && input[i] == x;
    var kept := Kept(input, |input|, ss, base, level);
    KeptMembers(input, |input|, ss, base, level, x);
    assert Dropped(input, i, ss, base, level);
    if i > 0 && input[i - 1].key.user == x.key.user && input[i - 1].key.seqno <= ss {
      SameUserDescends(input, i - 1, i);
      assert input[i - 1] in EntriesOf(input);
    } else {
      forall y | y in kept && y.key.user == x.key.user ensures y.key.seqno >= x.key.seqno {
        KeptMembers(input, |input|, ss, base, level, y);
        var j :| 0 <= j < |input| && input[j] == y && !Dropped(input, j, ss, base, level);
        if j < i {
          SameUserDescends(input, j, i);
        } else if i < j {
          OlderIsHidden(input, i, j, ss, base, level);
        }
      }
    }
  }

  /** Everything older than an entry all live snapshots see is dropped. */
  lemma OlderIsHidden(input: Table, i: nat, j: nat, ss: nat, base: Version, level: nat)
    requires Sorted(input) && DistinctSeqnos(input) && |base| == NUM_LEVELS
    requires i < j < |input| && input[i].key.user == input[j].key.user && input[i].key.seqno <= ss
    ensures Dropped(input, j, ss, base, level)
  {
    SameUserDescends(input, i, j);
    if i < j - 1 {
      SameUserDescends(input, i, j - 1);
    }
  }
}
