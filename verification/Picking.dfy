/** Choosing files: overlap tests, the level a flushed memtable goes to, and the inputs of a
    compaction (db/version_set.cc). */
module Picking {
  import opened InternalKeys
  import opened Versions
  import opened VersionBuilder
  import opened VersionInvariant

  /** A user-key bound; None is no bound at all. */
  type Bound = Option<UserKey>

  predicate AfterFile(user: Bound, f: FileMeta) {
    user.Some? && user.value > f.largest.user
  }

  predicate BeforeFile(user: Bound, f: FileMeta) {
    user.Some? && user.value < f.smallest.user
  }

  predicate Meets(f: FileMeta, begin: Bound, end: Bound) {
    !AfterFile(begin, f) && !BeforeFile(end, f)
  }

  ghost predicate BoundedKeys(files: Level) {
    forall f :: f in files ==> f.smallest.seqno <= MAX_SEQUENCE && f.largest.seqno <= MAX_SEQUENCE
  }

  /** The binary search over disjoint files decides the same question as the full scan. */
  method SomeFileOverlapsRange(disjointSortedFiles: bool, files: Level, smallest: Bound, largest: Bound) returns (b: bool)
    requires forall f :: f in files ==> FileOk(f)
    requires disjointSortedFiles ==> LevelOrdered(files) && BoundedKeys(files)
    ensures b <==> exists f :: f in files && Meets(f, smallest, largest)
  {
    if !disjointSortedFiles {
      for i := 0 to |files|
        invariant forall j :: 0 <= j < i ==> !Meets(files[j], smallest, largest)
      {
        if !AfterFile(smallest, files[i]) && !BeforeFile(largest, files[i]) {
          assert files[i] in files;
          return true;
        }
      }
      return false;
    }
    var index := 0;
    if smallest.Some? {
      index := FindFile(files, InternalKey(smallest.value, MAX_SEQUENCE, TypeValue));
    }
    assert forall i :: 0 <= i < index ==> AfterFile(smallest, files[i]);
    if index >= |files| {
      return false;
    }
    assert files[index] in files;
    assert !AfterFile(smallest, files[index]);
    b := !BeforeFile(largest, files[index]);
    if !b {
      LargestAscend(files);
      assert forall i :: index <= i < |files| ==> BeforeFile(largest, files[i]);
    }
  }

  // ---------- overlapping inputs ----------

  /** The files of the level that meet the range, in order. */
  function Overlapping(files: Level, begin: Bound, end: Bound): (r: Level)
    ensures forall f :: f in r <==> f in files && Meets(f, begin, end)
  {
    if files == [] then []
    else
      var n := |files| - 1;
      assert files == files[..n] + [files[n]];
      Overlapping(files[..n], begin, end) + (if Meets(files[n], begin, end) then [files[n]] else [])
  }

  lemma OverlappingNone(begin: Bound, end: Bound)
    ensures Overlapping([], begin, end) == []
  {
  }

  lemma OverlappingNext(files: Level, i: nat, begin: Bound, end: Bound)
    requires i < |files|
    ensures Overlapping(files[..i + 1], begin, end) == Overlapping(files[..i], begin, end) + (if Meets(files[i], begin, end) then [files[i]] else [])
  {
    assert files[..i + 1][..i] == files[..i];
  }

  predicate Inside(f: FileMeta, begin: Bound, end: Bound) {
    && (begin.Some? ==> begin.value <= f.smallest.user)
    && (end.Some? ==> f.largest.user <= end.value)
  }

  /** Every file that meets the range lies inside it. */
  ghost predicate ClosedRange(files: Level, begin: Bound, end: Bound) {
    forall f :: f in files && Meets(f, begin, end) ==> Inside(f, begin, end)
  }

  predicate Wider(begin: Bound, end: Bound, begin': Bound, end': Bound) {
    && (begin'.Some? ==> begin.Some? && begin'.value <= begin.value)
    && (end'.Some? ==> end.Some? && end.value <= end'.value)
  }

  function FilesBefore(files: Level, begin: Bound): nat {
    if files == [] then 0
    else (if begin.Some? && files[0].smallest.user < begin.value then 1 else 0) + FilesBefore(files[1..], begin)
  }

  function FilesAfter(files: Level, end: Bound): nat {
    if files == [] then 0
    else (if end.Some? && end.value < files[0].largest.user then 1 else 0) + FilesAfter(files[1..], end)
  }

  lemma {:induction false} ExtendingBeginProgresses(files: Level, f: FileMeta, begin: UserKey)
    requires f.smallest.user < begin
    ensures FilesBefore(files, Some(f.smallest.user)) <= FilesBefore(files, Some(begin))
    ensures f in files ==> FilesBefore(files, Some(f.smallest.user)) < FilesBefore(files, Some(begin))
  {
    if files != [] {
      ExtendingBeginProgresses(files[1..], f, begin);
      assert files == [files[0]] + files[1..];
    }
  }

  lemma {:induction false} ExtendingEndProgresses(files: Level, f: FileMeta, end: UserKey)
    requires end < f.largest.user
    ensures FilesAfter(files, Some(f.largest.user)) <= FilesAfter(files, Some(end))
    ensures f in files ==> FilesAfter(files, Some(f.largest.user)) < FilesAfter(files, Some(end))
  {
    if files != [] {
      ExtendingEndProgresses(files[1..], f, end);
      assert files == [files[0]] + files[1..];
    }
  }

  /** Every closed range around the one given covers the range found so far. */
  ghost predicate Least(files: Level, begin: Bound, end: Bound, userBegin: Bound, userEnd: Bound) {
    && Wider(begin, end, userBegin, userEnd)
    && forall b, e :: Wider(begin, end, b, e) && ClosedRange(files, b, e) ==> Wider(userBegin, userEnd, b, e)
  }

  /** All files that meet the least closed range around the one given. */
  ghost predicate InLeastClosedRange(files: Level, begin: Bound, end: Bound, inputs: Level) {
    exists b, e :: Least(files, begin, end, b, e) && ClosedRange(files, b, e) && inputs == Overlapping(files, b, e)
  }

  lemma FoundLeastClosed(files: Level, begin: Bound, end: Bound, b: Bound, e: Bound, inputs: Level)
    requires Least(files, begin, end, b, e) && (forall f :: f in inputs ==> Inside(f, b, e)) && inputs == Overlapping(files, b, e)
    ensures ClosedRange(files, b, e) && InLeastClosedRange(files, begin, end, inputs)
  {
  }

  lemma StartsLeast(files: Level, begin: Bound, end: Bound)
    ensures Least(files, begin, end, begin, end)
  {
  }

  lemma LeastIsWider(files: Level, begin: Bound, end: Bound, userBegin: Bound, userEnd: Bound)
    requires Least(files, begin, end, userBegin, userEnd)
    ensures Wider(begin, end, userBegin, userEnd)
  {
  }

  lemma ExtendingStaysLeast(files: Level, begin: Bound, end: Bound, ub: Bound, ue: Bound, f: FileMeta)
    requires Least(files, begin, end, ub, ue) && f in files && Meets(f, ub, ue)
    ensures ub.Some? && f.smallest.user < ub.value ==> Least(files, begin, end, Some(f.smallest.user), ue)
    ensures ue.Some? && f.largest.user > ue.value ==> Least(files, begin, end, ub, Some(f.largest.user))
  {
    forall b, e | Wider(begin, end, b, e) && ClosedRange(files, b, e)
      ensures Wider(ub, ue, b, e) && Inside(f, b, e)
    {
      WiderMeets(f, ub, ue, b, e);
    }
  }

  lemma WiderMeets(f: FileMeta, begin: Bound, end: Bound, begin': Bound, end': Bound)
    requires Wider(begin, end, begin', end')
    ensures Meets(f, begin, end) ==> Meets(f, begin', end')
  {
  }

  /** All files of a level that meet [begin, end]. At level 0 the range is widened, with restarts,
      until it is closed; it ends as the least closed range around the one given, and the loop
      terminates because each restart leaves fewer files sticking out. */
  method GetOverlappingInputs(level: nat, files: Level, begin: Bound, end: Bound)
      returns (inputs: Level, ghost userBegin: Bound, ghost userEnd: Bound)
    requires forall f :: f in files ==> f.smallest.user <= f.largest.user
    ensures inputs == Overlapping(files, userBegin, userEnd)
    ensures level > 0 ==> userBegin == begin && userEnd == end
    ensures level == 0 ==> ClosedRange(files, userBegin, userEnd)
    ensures Least(files, begin, end, userBegin, userEnd)
    ensures if level > 0 then inputs == Overlapping(files, begin, end) else InLeastClosedRange(files, begin, end, inputs)
  {
    hide Least, InLeastClosedRange, Overlapping, FilesBefore, FilesAfter;
    OverlappingNone(begin, end);
    var ubegin, uend := begin, end;
    StartsLeast(files, begin, end);
    inputs := [];
    var i := 0;
    while i < |files|
      invariant i <= |files|
      invariant inputs == Overlapping(files[..i], ubegin, uend)
      invariant level > 0 ==> ubegin == begin && uend == end
      invariant level == 0 ==> forall f :: f in inputs ==> Inside(f, ubegin, uend)
      invariant Least(files, begin, end, ubegin, uend)
      decreases FilesBefore(files, ubegin) + FilesAfter(files, uend), |files| - i
    {
      var f := files[i];
      OverlappingNext(files, i, ubegin, uend);
      i := i + 1;
      if AfterFile(ubegin, f) || BeforeFile(uend, f) {
      } else {
        inputs := inputs + [f];
        if level == 0 {
          ExtendingStaysLeast(files, begin, end, ubegin, uend, f);
          if ubegin.Some? && f.smallest.user < ubegin.value {
            ExtendingBeginProgresses(files, f, ubegin.value);
            ubegin := Some(f.smallest.user);
            inputs := [];
            i := 0;
            OverlappingNone(ubegin, uend);
          } else if uend.Some? && f.largest.user > uend.value {
            ExtendingEndProgresses(files, f, uend.value);
            uend := Some(f.largest.user);
            inputs := [];
            i := 0;
            OverlappingNone(ubegin, uend);
          }
        }
      }
    }
    assert files[..|files|] == files;
    userBegin, userEnd := ubegin, uend;
    if level == 0 {
      FoundLeastClosed(files, begin, end, userBegin, userEnd, inputs);
    }
  }

  // ---------- where a flushed memtable goes ----------

  const MAX_MEM_COMPACT_LEVEL: nat := 2

  ghost predicate Clear(v: Version, level: nat, smallest: UserKey, largest: UserKey)
    requires |v| == NUM_LEVELS && level < NUM_LEVELS
  {
    forall g :: g in v[level] ==> !Meets(g, Some(smallest), Some(largest))
  }

  /** A file may sink below `level`: the next level is clear, and its overlap with the one after is small. */
  ghost predicate MaySink(v: Version, level: nat, smallest: UserKey, largest: UserKey, maxGrandParentOverlap: nat)
    requires |v| == NUM_LEVELS && level + 2 < NUM_LEVELS
  {
    && Clear(v, level + 1, smallest, largest)
    && TotalFileSize(Overlapping(v[level + 2], Some(smallest), Some(largest))) <= maxGrandParentOverlap
  }

  /** The level for a new file with the given user-key range: it sinks as far as it may, down to level 2,
      and so never past a level holding files it meets. */
  method PickLevelForMemTableOutput(v: Version, smallest: UserKey, largest: UserKey, maxGrandParentOverlap: nat) returns (level: nat)
    requires VersionOk(v) && smallest <= largest
    requires forall l :: 0 <= l < NUM_LEVELS ==> BoundedKeys(v[l])
    ensures level <= 2
    ensures level > 0 ==> forall l, g :: 0 <= l <= level && g in v[l] ==> !Meets(g, Some(smallest), Some(largest))
    ensures forall l :: 0 <= l < level ==> MaySink(v, l, smallest, largest, maxGrandParentOverlap)
    ensures level < 2 && Clear(v, 0, smallest, largest) ==> !MaySink(v, level, smallest, largest, maxGrandParentOverlap)
  {
    hide Overlapping, TotalFileSize, Least, ClosedRange, InLeastClosedRange;
    level := 0;
    var begin, end := Some(smallest), Some(largest);
    var overlap := SomeFileOverlapsRange(false, v[0], begin, end);
    if !overlap {
      while level < MAX_MEM_COMPACT_LEVEL
        invariant level <= MAX_MEM_COMPACT_LEVEL
        invariant forall l, g :: 0 <= l <= level && g in v[l] ==> !Meets(g, begin, end)
        invariant forall l :: 0 <= l < level ==> MaySink(v, l, smallest, largest, maxGrandParentOverlap)
      {
        var next := SomeFileOverlapsRange(true, v[level + 1], begin, end);
        if next {
          break;
        }
        if level + 2 < NUM_LEVELS {
          FilesSpanUsers(v[level + 2]);
          var overlaps, _, _ := GetOverlappingInputs(level + 2, v[level + 2], begin, end);
          if TotalFileSize(overlaps) > maxGrandParentOverlap {
            break;
          }
        }
        level := level + 1;
      }
    }
  }

  lemma FilesSpanUsers(files: Level)
    requires forall f :: f in files ==> FileOk(f)
    ensures forall f :: f in files ==> f.smallest.user <= f.largest.user
  {
    forall f | f in files ensures f.smallest.user <= f.largest.user {
      FileSpan(f);
    }
  }

  // ---------- the inputs of a compaction ----------

  /** Least range covering all the files. */
  method GetRange(inputs: Level) returns (smallest: InternalKey, largest: InternalKey)
    requires inputs != []
    ensures exists f :: f in inputs && f.smallest == smallest
    ensures exists f :: f in inputs && f.largest == largest
    ensures forall f :: f in inputs ==> LessEq(smallest, f.smallest) && LessEq(f.largest, largest)
  {
    smallest, largest := inputs[0].smallest, inputs[0].largest;
    for i := 1 to |inputs|
      invariant exists f :: f in inputs && f.smallest == smallest
      invariant exists f :: f in inputs && f.largest == largest
      invariant forall j :: 0 <= j < i ==> LessEq(smallest, inputs[j].smallest) && LessEq(inputs[j].largest, largest)
    {
      var f := inputs[i];
      assert f in inputs;
      if Less(f.smallest, smallest) {
        smallest := f.smallest;
      }
      if Less(largest, f.largest) {
        largest := f.largest;
      }
    }
  }

  /** User-key hull [lo, hi] of the files. */
  ghost predicate Hull(files: Level, lo: UserKey, hi: UserKey) {
    && (exists f :: f in files && f.smallest.user == lo)
    && (exists f :: f in files && f.largest.user == hi)
    && (forall f :: f in files ==> lo <= f.smallest.user && f.largest.user <= hi)
  }

  /** The promise of the input-picking code: the parent inputs are all files meeting the hull of
      the level's inputs, and at level 0 no file left behind meets that hull. */
  ghost predicate InputsPicked(v: Version, level: nat, in0: Level, in1: Level)
    requires |v| == NUM_LEVELS
  {
    && level + 1 < NUM_LEVELS
    && in0 != []
    && (forall f :: f in in0 ==> f in v[level])
    && forall lo, hi :: Hull(in0, lo, hi) ==>
         && (forall g :: g in in1 <==> g in v[level + 1] && Meets(g, Some(lo), Some(hi)))
         && (level == 0 ==> forall g :: g in v[0] && Meets(g, Some(lo), Some(hi)) ==> g in in0)
  }

  lemma RangeIsHull(files: Level, smallest: InternalKey, largest: InternalKey)
    requires exists f :: f in files && f.smallest == smallest
    requires exists f :: f in files && f.largest == largest
    requires forall f :: f in files ==> LessEq(smallest, f.smallest) && LessEq(f.largest, largest)
    ensures Hull(files, smallest.user, largest.user)
    ensures forall lo, hi :: Hull(files, lo, hi) ==> lo == smallest.user && hi == largest.user
  {
  }

  lemma HullUnique(files: Level, lo: UserKey, hi: UserKey, lo': UserKey, hi': UserKey)
    requires Hull(files, lo, hi) && Hull(files, lo', hi')
    ensures lo == lo' && hi == hi'
  {
  }

  /** Files gathered from a closed range leave behind nothing that meets their hull. */
  lemma ClosedInputsLeaveNothing(files: Level, begin: Bound, end: Bound, inputs: Level, lo: UserKey, hi: UserKey)
    requires ClosedRange(files, begin, end) && inputs == Overlapping(files, begin, end)
    requires Hull(inputs, lo, hi)
    ensures forall g :: g in files && Meets(g, Some(lo), Some(hi)) ==> g in inputs
  {
  }

  /** A wider range meets no fewer files, and the same ones if it meets as many. */
  lemma {:induction false} OverlappingGrows(files: Level, begin: Bound, end: Bound, begin': Bound, end': Bound)
    requires Wider(begin, end, begin', end')
    ensures |Overlapping(files, begin, end)| <= |Overlapping(files, begin', end')|
    ensures |Overlapping(files, begin, end)| == |Overlapping(files, begin', end')| ==> Overlapping(files, begin, end) == Overlapping(files, begin', end')
  {
    if files != [] {
      var n := |files| - 1;
      OverlappingGrows(files[..n], begin, end, begin', end');
      WiderMeets(files[n], begin, end, begin', end');
    }
  }

  /** Widening the range the inputs span keeps the inputs. */
  lemma ExpandedCovers(files: Level, in0: Level, lo: UserKey, hi: UserKey, start: UserKey, limit: UserKey,
                       begin: Bound, end: Bound, expanded: Level, newLo: UserKey, newHi: UserKey)
    requires forall f :: f in files ==> f.smallest.user <= f.largest.user
    requires (forall f :: f in in0 ==> f in files) && Hull(in0, lo, hi)
    requires start <= lo && hi <= limit && Wider(Some(start), Some(limit), begin, end)
    requires expanded == Overlapping(files, begin, end) && Hull(expanded, newLo, newHi)
    ensures forall f :: f in in0 ==> f in expanded
    ensures Wider(Some(lo), Some(hi), Some(newLo), Some(newHi))
  {
    forall f | f in in0 ensures f in expanded {
      WiderMeets(f, Some(start), Some(limit), begin, end);
    }
  }

  /** At level 0, nothing left behind meets the hull of the files picked. */
  ghost predicate NothingLeft(v: Version, level: nat, in0: Level, lo: UserKey, hi: UserKey)
    requires |v| == NUM_LEVELS
  {
    level == 0 ==> forall g :: g in v[0] && Meets(g, Some(lo), Some(hi)) ==> g in in0
  }

  lemma PickedByHull(v: Version, level: nat, in0: Level, in1: Level, lo: UserKey, hi: UserKey)
    requires |v| == NUM_LEVELS && level + 1 < NUM_LEVELS && in0 != [] && forall f :: f in in0 ==> f in v[level]
    requires Hull(in0, lo, hi) && in1 == Overlapping(v[level + 1], Some(lo), Some(hi)) && NothingLeft(v, level, in0, lo, hi)
    ensures InputsPicked(v, level, in0, in1)
    ensures forall lo', hi' :: Hull(in0, lo', hi') ==> lo' == lo && hi' == hi
  {
    forall lo', hi' | Hull(in0, lo', hi') ensures lo' == lo && hi' == hi {
      HullUnique(in0, lo, hi, lo', hi');
    }
  }

  // ---------- taking more for free ----------

  /** The files of the level that overlap what the given files span. */
  ghost predicate Gathered(files: Level, level: nat, from: Level, gathered: Level) {
    exists lo, hi :: Hull(from, lo, hi)
      && if level > 0 then gathered == Overlapping(files, Some(lo), Some(hi)) else InLeastClosedRange(files, Some(lo), Some(hi), gathered)
  }

  /** More of the level overlaps the inputs and their parents, within the size limit, and it needs no
      further parent. */
  ghost predicate MayExpand(v: Version, level: nat, in0: Level, parents: Level, expanded: Level, expandedLimit: nat)
    requires |v| == NUM_LEVELS && level + 1 < NUM_LEVELS
  {
    && Gathered(v[level], level, in0 + parents, expanded)
    && |expanded| > |in0| && TotalFileSize(parents) + TotalFileSize(expanded) < expandedLimit
    && GathersOnly(v[level + 1], level + 1, expanded, |parents|)
  }

  ghost predicate GathersOnly(files: Level, level: nat, from: Level, n: nat) {
    exists more :: Gathered(files, level, from, more) && |more| == n
  }

  /** What is gathered is the only candidate for expanding. */
  lemma OneCandidate(v: Version, level: nat, in0: Level, parents: Level, expanded: Level, expandedLimit: nat)
    requires |v| == NUM_LEVELS && level + 1 < NUM_LEVELS && Gathered(v[level], level, in0 + parents, expanded)
    ensures forall other :: MayExpand(v, level, in0, parents, other, expandedLimit) ==>
              && other == expanded && |expanded| > |in0| && TotalFileSize(parents) + TotalFileSize(expanded) < expandedLimit
              && GathersOnly(v[level + 1], level + 1, expanded, |parents|)
  {
    hide Gathered, TotalFileSize, GathersOnly;
    forall other | MayExpand(v, level, in0, parents, other, expandedLimit) ensures other == expanded {
      GatheredUnique(v[level], level, in0 + parents, other, expanded);
    }
  }

  lemma OnlySoMany(files: Level, level: nat, from: Level, more: Level, n: nat)
    requires Gathered(files, level, from, more)
    ensures GathersOnly(files, level, from, n) ==> |more| == n
  {
    hide Gathered;
    if GathersOnly(files, level, from, n) {
      var other :| Gathered(files, level, from, other) && |other| == n;
      GatheredUnique(files, level, from, more, other);
    }
  }

  lemma GatheredUnique(files: Level, level: nat, from: Level, a: Level, b: Level)
    requires Gathered(files, level, from, a) && Gathered(files, level, from, b)
    ensures a == b
  {
    hide Hull, Least, Overlapping, ClosedRange;
    var lo, hi :| Hull(from, lo, hi)
      && if level > 0 then a == Overlapping(files, Some(lo), Some(hi)) else InLeastClosedRange(files, Some(lo), Some(hi), a);
    var lo', hi' :| Hull(from, lo', hi')
      && if level > 0 then b == Overlapping(files, Some(lo'), Some(hi')) else InLeastClosedRange(files, Some(lo'), Some(hi'), b);
    HullUnique(from, lo, hi, lo', hi');
    if level == 0 {
      LeastClosedUnique(files, Some(lo), Some(hi), a, b);
    }
  }

  lemma LeastClosedUnique(files: Level, begin: Bound, end: Bound, a: Level, b: Level)
    requires InLeastClosedRange(files, begin, end, a) && InLeastClosedRange(files, begin, end, b)
    ensures a == b
  {
    hide Overlapping, ClosedRange;
    var x, y :| Least(files, begin, end, x, y) && ClosedRange(files, x, y) && a == Overlapping(files, x, y);
    var x', y' :| Least(files, begin, end, x', y') && ClosedRange(files, x', y') && b == Overlapping(files, x', y');
    assert Wider(x, y, x', y') && Wider(x', y', x, y);
  }

  lemma GatheredBy(files: Level, level: nat, from: Level, lo: UserKey, hi: UserKey, gathered: Level)
    requires Hull(from, lo, hi)
    requires if level > 0 then gathered == Overlapping(files, Some(lo), Some(hi)) else InLeastClosedRange(files, Some(lo), Some(hi), gathered)
    ensures Gathered(files, level, from, gathered)
  {
  }

  // ---------- inputs without a gap ----------

  ghost predicate LeftOf(files: Level, f: FileMeta) {
    forall g :: g in files ==> g.largest.user < f.smallest.user
  }

  ghost predicate RightOf(files: Level, f: FileMeta) {
    forall g :: g in files ==> f.largest.user < g.smallest.user
  }

  ghost predicate OneSide(files: Level, f: FileMeta) {
    LeftOf(files, f) || RightOf(files, f)
  }

  ghost predicate ClearOf(files: Level, f: FileMeta) {
    f.smallest.user <= f.largest.user && forall g :: g in files ==> UserDisjoint(f, g)
  }

  /** A file clear of both levels that has one set of files to one side has the other there as well. */
  ghost predicate SidesKept(v: Version, level: nat, few: Level, more: Level)
    requires |v| == NUM_LEVELS && level + 1 < NUM_LEVELS
  {
    forall f :: ClearOf(v[level], f) && ClearOf(v[level + 1], f) ==>
      (LeftOf(few, f) ==> LeftOf(more, f)) && (RightOf(few, f) ==> RightOf(more, f))
  }

  /** The inputs leave no gap: a file clear of both levels has all of them to one side. */
  ghost predicate NoGap(v: Version, level: nat, in0: Level, in1: Level)
    requires |v| == NUM_LEVELS && level + 1 < NUM_LEVELS
  {
    forall f :: ClearOf(v[level], f) && ClearOf(v[level + 1], f) ==> OneSide(in0 + in1, f)
  }

  lemma OverlappingSide(files: Level, begin: Bound, end: Bound, f: FileMeta)
    requires (forall g :: g in files ==> g.smallest.user <= g.largest.user) && ClearOf(files, f)
    ensures end.Some? && end.value < f.smallest.user ==> LeftOf(Overlapping(files, begin, end), f)
    ensures begin.Some? && f.largest.user < begin.value ==> RightOf(Overlapping(files, begin, end), f)
  {
  }

  /** Widening stops short of a file that is clear of the level. */
  lemma LeastSide(files: Level, begin: Bound, end: Bound, begin': Bound, end': Bound, f: FileMeta)
    requires (forall g :: g in files ==> g.smallest.user <= g.largest.user) && ClearOf(files, f)
    requires Least(files, begin, end, begin', end')
    ensures end.Some? && end.value < f.smallest.user ==> end'.Some? && end'.value < f.smallest.user
    ensures begin.Some? && f.largest.user < begin.value ==> begin'.Some? && f.largest.user < begin'.value
  {
    var left, right: Bound := Some(f.smallest.user - 1), Some(f.largest.user + 1);
    assert ClosedRange(files, None, left) && ClosedRange(files, right, None);
    if end.Some? && end.value < f.smallest.user {
      assert Wider(begin, end, None, left);
    }
    if begin.Some? && f.largest.user < begin.value {
      assert Wider(begin, end, right, None);
    }
  }

  lemma HullSide(files: Level, lo: UserKey, hi: UserKey, f: FileMeta)
    requires Hull(files, lo, hi)
    ensures LeftOf(files, f) <==> hi < f.smallest.user
    ensures RightOf(files, f) <==> f.largest.user < lo
  {
  }

  /** Gathering the files that meet the span of some keeps the sides, also where that widens the range. */
  lemma GatheredSide(files: Level, from: Level, lo: UserKey, hi: UserKey, begin: Bound, end: Bound, f: FileMeta)
    requires (forall g :: g in files ==> g.smallest.user <= g.largest.user) && ClearOf(files, f)
    requires Hull(from, lo, hi) && Least(files, Some(lo), Some(hi), begin, end)
    ensures LeftOf(from, f) ==> LeftOf(Overlapping(files, begin, end), f)
    ensures RightOf(from, f) ==> RightOf(Overlapping(files, begin, end), f)
  {
    hide Hull, Least, LeftOf, RightOf;
    HullSide(from, lo, hi, f);
    LeastSide(files, Some(lo), Some(hi), begin, end, f);
    OverlappingSide(files, begin, end, f);
  }

  lemma BothSides(few: Level, more: Level, f: FileMeta)
    ensures LeftOf(few + more, f) <==> LeftOf(few, f) && LeftOf(more, f)
    ensures RightOf(few + more, f) <==> RightOf(few, f) && RightOf(more, f)
  {
    assert forall g :: g in few + more <==> g in few || g in more;
  }

  lemma ParentsKeepSides(v: Version, level: nat, in0: Level, parents: Level, lo: UserKey, hi: UserKey)
    requires VersionOk(v) && level + 1 < NUM_LEVELS
    requires Hull(in0, lo, hi) && parents == Overlapping(v[level + 1], Some(lo), Some(hi))
    ensures SidesKept(v, level, in0, in0 + parents)
  {
    hide Least, LeftOf, RightOf, ClearOf, Overlapping, Hull;
    FilesSpanUsers(v[level + 1]);
    StartsLeast(v[level + 1], Some(lo), Some(hi));
    forall f | ClearOf(v[level], f) && ClearOf(v[level + 1], f)
      ensures (LeftOf(in0, f) ==> LeftOf(in0 + parents, f)) && (RightOf(in0, f) ==> RightOf(in0 + parents, f))
    {
      GatheredSide(v[level + 1], in0, lo, hi, Some(lo), Some(hi), f);
      BothSides(in0, parents, f);
    }
  }

  lemma ExpandedKeepsSides(v: Version, level: nat, in0: Level, parents: Level, allLo: UserKey, allHi: UserKey, begin: Bound, end: Bound, expanded: Level)
    requires VersionOk(v) && level + 1 < NUM_LEVELS && SidesKept(v, level, in0, in0 + parents)
    requires Hull(in0 + parents, allLo, allHi) && Least(v[level], Some(allLo), Some(allHi), begin, end)
    requires expanded == Overlapping(v[level], begin, end)
    ensures SidesKept(v, level, in0, expanded + parents)
  {
    hide Least, LeftOf, RightOf, ClearOf, Overlapping, Hull;
    FilesSpanUsers(v[level]);
    forall f | ClearOf(v[level], f) && ClearOf(v[level + 1], f)
      ensures (LeftOf(in0, f) ==> LeftOf(expanded + parents, f)) && (RightOf(in0, f) ==> RightOf(expanded + parents, f))
    {
      GatheredSide(v[level], in0 + parents, allLo, allHi, begin, end, f);
      BothSides(in0, parents, f);
      BothSides(expanded, parents, f);
    }
  }

  lemma SeedHasNoGap(v: Version, level: nat, start: FileMeta, in0: Level, in1: Level)
    requires |v| == NUM_LEVELS && level + 1 < NUM_LEVELS && start in v[level]
    requires SidesKept(v, level, [start], in0 + in1)
    ensures NoGap(v, level, in0, in1)
  {
    forall f | ClearOf(v[level], f) && ClearOf(v[level + 1], f) ensures OneSide(in0 + in1, f) {
      assert UserDisjoint(f, start);
      assert forall g :: g in [start] <==> g == start;
      assert LeftOf([start], f) || RightOf([start], f);
    }
  }

  /** SetupOtherInputs: pick the parent files, then try to take more of this level for free: within
      the size limit, and without any further parent. */
  method SetupOtherInputs(v: Version, level: nat, in0: Level, expandedLimit: nat) returns (inputs0: Level, inputs1: Level)
    requires VersionOk(v) && level + 1 < NUM_LEVELS
    requires in0 != [] && forall f :: f in in0 ==> f in v[level]
    requires level == 0 ==> forall lo, hi, g :: Hull(in0, lo, hi) && g in v[0] && Meets(g, Some(lo), Some(hi)) ==> g in in0
    ensures InputsPicked(v, level, inputs0, inputs1)
    ensures forall f :: f in in0 ==> f in inputs0
    ensures forall lo, hi :: Hull(in0, lo, hi) ==> inputs1 == Overlapping(v[level + 1], Some(lo), Some(hi))
    ensures inputs0 == in0 || (|inputs0| > |in0| && TotalFileSize(inputs1) + TotalFileSize(inputs0) < expandedLimit)
    ensures SidesKept(v, level, in0, inputs0 + inputs1)
    ensures inputs0 != in0 ==> inputs1 != [] && Gathered(v[level], level, in0 + inputs1, inputs0)
    ensures forall expanded :: inputs1 != [] && MayExpand(v, level, in0, inputs1, expanded, expandedLimit) ==> inputs0 == expanded
  {
    hide SidesKept, MayExpand, Gathered;
    FilesSpanUsers(v[level + 1]);
    var smallest, largest := GetRange(in0);
    RangeIsHull(in0, smallest, largest);
    assert NothingLeft(v, level, in0, smallest.user, largest.user);
    var parents, _, _ := GetOverlappingInputs(level + 1, v[level + 1], Some(smallest.user), Some(largest.user));
    PickedByHull(v, level, in0, parents, smallest.user, largest.user);
    ParentsKeepSides(v, level, in0, parents, smallest.user, largest.user);
    inputs0, inputs1 := in0, parents;
    if parents != [] {
      inputs0, inputs1 := Expand(v, level, in0, parents, smallest.user, largest.user, expandedLimit);
    }
  }

  method Expand(v: Version, level: nat, in0: Level, parents: Level, ghost lo: UserKey, ghost hi: UserKey, expandedLimit: nat)
      returns (inputs0: Level, inputs1: Level)
    requires VersionOk(v) && level + 1 < NUM_LEVELS
    requires in0 != [] && forall f :: f in in0 ==> f in v[level]
    requires Hull(in0, lo, hi) && parents == Overlapping(v[level + 1], Some(lo), Some(hi)) && InputsPicked(v, level, in0, parents)
    requires SidesKept(v, level, in0, in0 + parents)
    ensures SidesKept(v, level, in0, inputs0 + inputs1)
    ensures InputsPicked(v, level, inputs0, inputs1)
    ensures forall f :: f in in0 ==> f in inputs0
    ensures inputs1 == parents
    ensures inputs0 != in0 ==> Gathered(v[level], level, in0 + parents, inputs0)
    ensures forall expanded :: MayExpand(v, level, in0, parents, expanded, expandedLimit) ==> inputs0 == expanded
    ensures inputs0 == in0 || (|inputs0| > |in0| && TotalFileSize(inputs1) + TotalFileSize(inputs0) < expandedLimit)
  {
    hide TotalFileSize, InputsPicked, NothingLeft, InLeastClosedRange, SidesKept, Gathered, MayExpand, GathersOnly, Least, ClosedRange, Overlapping, Hull, Wider, Meets, LevelOrdered, FileOk;
    FilesSpanUsers(v[level]);
    FilesSpanUsers(v[level + 1]);
    inputs0, inputs1 := in0, parents;
    var allStart, allLimit := GetRange(in0 + parents);
    HullWithin(in0, parents, lo, hi, allStart, allLimit);
    var expanded0, begin, end := GetOverlappingInputs(level, v[level], Some(allStart.user), Some(allLimit.user));
    RangeIsHull(in0 + parents, allStart, allLimit);
    GatheredBy(v[level], level, in0 + parents, allStart.user, allLimit.user, expanded0);
    LeastIsWider(v[level], Some(allStart.user), Some(allLimit.user), begin, end);
    OneCandidate(v, level, in0, parents, expanded0, expandedLimit);
    if |expanded0| > |in0| && TotalFileSize(parents) + TotalFileSize(expanded0) < expandedLimit {
      var newStart, newLimit := GetRange(expanded0);
      RangeIsHull(expanded0, newStart, newLimit);
      ExpandedCovers(v[level], in0, lo, hi, allStart.user, allLimit.user, begin, end, expanded0, newStart.user, newLimit.user);
      var expanded1, _, _ := GetOverlappingInputs(level + 1, v[level + 1], Some(newStart.user), Some(newLimit.user));
      OverlappingGrows(v[level + 1], Some(lo), Some(hi), Some(newStart.user), Some(newLimit.user));
      GatheredBy(v[level + 1], level + 1, expanded0, newStart.user, newLimit.user, expanded1);
      OnlySoMany(v[level + 1], level + 1, expanded0, expanded1, |parents|);
      if |expanded1| == |parents| {
        LeavesNothing(v, level, begin, end, expanded0, newStart.user, newLimit.user);
        PickedByHull(v, level, expanded0, expanded1, newStart.user, newLimit.user);
        ExpandedKeepsSides(v, level, in0, parents, allStart.user, allLimit.user, begin, end, expanded0);
        inputs0, inputs1 := expanded0, expanded1;
      }
    }
  }

  lemma HullWithin(in0: Level, more: Level, lo: UserKey, hi: UserKey, smallest: InternalKey, largest: InternalKey)
    requires Hull(in0, lo, hi)
    requires forall f :: f in in0 + more ==> LessEq(smallest, f.smallest) && LessEq(f.largest, largest)
    ensures smallest.user <= lo && hi <= largest.user
  {
    var f :| f in in0 && f.smallest.user == lo;
    var g :| g in in0 && g.largest.user == hi;
    assert f in in0 + more && g in in0 + more;
  }

  lemma LeavesNothing(v: Version, level: nat, begin: Bound, end: Bound, inputs: Level, lo: UserKey, hi: UserKey)
    requires |v| == NUM_LEVELS && (level == 0 ==> ClosedRange(v[0], begin, end) && inputs == Overlapping(v[0], begin, end))
    requires Hull(inputs, lo, hi)
    ensures NothingLeft(v, level, inputs, lo, hi)
  {
    if level == 0 {
      ClosedInputsLeaveNothing(v[0], begin, end, inputs, lo, hi);
    }
  }

  /** Manual compaction of a range; below level 0 the inputs are cut once they are large enough. */
  method CompactRange(v: Version, level: nat, begin: Bound, end: Bound, fileLimit: nat, expandedLimit: nat)
      returns (found: bool, inputs0: Level, inputs1: Level, ghost wanted: Level)
    requires VersionOk(v) && level + 1 < NUM_LEVELS
    ensures found ==> InputsPicked(v, level, inputs0, inputs1) && wanted != [] && forall f :: f in wanted ==> f in inputs0
    ensures found && level == 0 ==> forall f :: f in v[0] && Meets(f, begin, end) ==> f in wanted
    ensures found && level > 0 ==>
              && wanted <= Overlapping(v[level], begin, end)
              && (wanted != Overlapping(v[level], begin, end) ==> TotalFileSize(wanted) >= fileLimit)
              && (|wanted| > 1 ==> TotalFileSize(wanted[..|wanted| - 1]) < fileLimit)
    ensures !found ==> forall f :: f in v[level] ==> !Meets(f, begin, end)
  {
    hide InLeastClosedRange, SidesKept, TotalFileSize, MayExpand, Gathered;
    FilesSpanUsers(v[level]);
    var inputs, ub, ue := GetOverlappingInputs(level, v[level], begin, end);
    inputs0, inputs1, wanted := [], [], inputs;
    if level == 0 {
      forall f | f in v[0] && Meets(f, begin, end) ensures f in inputs {
        assert Wider(begin, end, ub, ue);
        WiderMeets(f, begin, end, ub, ue);
      }
    }
    if inputs == [] {
      found := false;
      return;
    }
    if level > 0 {
      inputs := CutToLimit(inputs, fileLimit);
      wanted := inputs;
    } else {
      forall lo, hi, g | Hull(inputs, lo, hi) && g in v[0] && Meets(g, Some(lo), Some(hi)) ensures g in inputs {
        ClosedInputsLeaveNothing(v[0], ub, ue, inputs, lo, hi);
      }
    }
    found := true;
    inputs0, inputs1 := SetupOtherInputs(v, level, inputs, expandedLimit);
  }

  lemma ShorterIsSmaller(files: Level)
    requires files != []
    ensures TotalFileSize(files[..|files| - 1]) <= TotalFileSize(files)
  {
  }

  /** As many files as it takes to reach the limit. */
  method CutToLimit(inputs: Level, fileLimit: nat) returns (r: Level)
    requires inputs != []
    ensures r != [] && r <= inputs && forall f :: f in r ==> f in inputs
    ensures r != inputs ==> TotalFileSize(r) >= fileLimit
    ensures |r| > 1 ==> TotalFileSize(r[..|r| - 1]) < fileLimit
  {
    var total := 0;
    for i := 0 to |inputs|
      invariant total == TotalFileSize(inputs[..i])
      invariant i > 0 ==> total < fileLimit
    {
      assert inputs[..i + 1][..i] == inputs[..i];
      total := total + inputs[i].size;
      if total >= fileLimit {
        assert inputs[..i + 1][..i] == inputs[..i];
        return inputs[..i + 1];
      }
    }
    assert inputs[..|inputs|] == inputs;
    ShorterIsSmaller(inputs);
    return inputs;
  }

  /** The first file past the pointer of the level, or the first of all. */
  method PickFirstFile(files: Level, pointer: Option<InternalKey>) returns (i: nat)
    requires files != []
    ensures i < |files|
    ensures i > 0 ==> pointer.Some? && forall j :: 0 <= j < i ==> !Less(pointer.value, files[j].largest)
    ensures pointer.Some? && !Less(pointer.value, files[i].largest) ==>
              i == 0 && forall j :: 0 <= j < |files| ==> !Less(pointer.value, files[j].largest)
  {
    i := 0;
    while i < |files|
      invariant i <= |files|
      invariant i > 0 ==> pointer.Some? && forall j :: 0 <= j < i ==> !Less(pointer.value, files[j].largest)
    {
      if pointer.None? || Less(pointer.value, files[i].largest) {
        return;
      }
      i := i + 1;
    }
    i := 0;
  }

  /** The inputs grown from one file, and at level 0 from all that overlap it. */
  method PickInputs(v: Version, level: nat, start: FileMeta, expandedLimit: nat) returns (inputs0: Level, inputs1: Level)
    requires VersionOk(v) && level + 1 < NUM_LEVELS && start in v[level]
    ensures InputsPicked(v, level, inputs0, inputs1)
    ensures start in inputs0
    ensures NoGap(v, level, inputs0, inputs1)
  {
    hide NoGap, SidesKept, MayExpand, Gathered;
    FilesSpanUsers(v[level]);
    inputs0 := [start];
    ghost var seeded := inputs0;
    assert SidesKept(v, level, [start], [start]) by { SameSides(v, level, [start]); }
    if level == 0 {
      var smallest, largest := GetRange(inputs0);
      ghost var begin, end;
      inputs0, begin, end := GetOverlappingInputs(0, v[0], Some(smallest.user), Some(largest.user));
      WiderMeets(start, Some(smallest.user), Some(largest.user), begin, end);
      forall lo, hi, g | Hull(inputs0, lo, hi) && g in v[0] && Meets(g, Some(lo), Some(hi)) ensures g in inputs0 {
        ClosedInputsLeaveNothing(v[0], begin, end, inputs0, lo, hi);
      }
      RangeIsHull([start], smallest, largest);
      GatheredKeepSides(v, [start], smallest.user, largest.user, begin, end);
      seeded := inputs0;
    }
    inputs0, inputs1 := SetupOtherInputs(v, level, inputs0, expandedLimit);
    SidesCompose(v, level, [start], seeded, inputs0 + inputs1);
    SeedHasNoGap(v, level, start, inputs0, inputs1);
  }

  /** What a compaction is given. */
  datatype Picked = Picked(level: nat, inputs0: Level, inputs1: Level, grandparents: Level)

  /** The file a compaction of the level starts from: the first past the pointer, or the first of all if
      there is none. */
  ghost predicate StartsAt(files: Level, pointer: Option<InternalKey>, f: FileMeta) {
    if pointer.Some? && exists g :: g in files && Less(pointer.value, g.largest)
    then exists i :: 0 <= i < |files| && f == files[i] && Less(pointer.value, f.largest)
                     && forall j :: 0 <= j < i ==> !Less(pointer.value, files[j].largest)
    else files != [] && f == files[0]
  }

  ghost predicate IsLargest(p: InternalKey, files: Level) {
    (exists f :: f in files && f.largest == p) && forall f :: f in files ==> LessEq(f.largest, p)
  }

  /** The compaction pointers of a VersionSet, one a level. */
  class Picker {
    var compactPointer: seq<Option<InternalKey>>

    ghost predicate Valid()
      reads this
    {
      |compactPointer| == NUM_LEVELS
    }

    constructor ()
      ensures Valid() && forall l :: 0 <= l < NUM_LEVELS ==> compactPointer[l] == None
    {
      compactPointer := [None, None, None, None, None, None, None];
    }

    /** A level with too much data is preferred to a file with too many seeks. The pointer of the level moves
        to the end of the inputs at once, so that the next compaction there tries other keys. */
    method PickCompaction(v: Version, sizeLevel: Option<nat>, seek: Option<(nat, FileMeta)>, expandedLimit: nat) returns (c: Option<Picked>)
      requires Valid() && VersionOk(v)
      requires sizeLevel.Some? ==> sizeLevel.value + 1 < NUM_LEVELS && v[sizeLevel.value] != []
      requires seek.Some? ==> seek.value.0 + 1 < NUM_LEVELS && seek.value.1 in v[seek.value.0]
      modifies this
      ensures Valid() && (c.Some? <==> sizeLevel.Some? || seek.Some?)
      ensures c.None? ==> compactPointer == old(compactPointer)
      ensures c.Some? ==>
                var l := c.value.level;
                && l + 1 < NUM_LEVELS && l == (if sizeLevel.Some? then sizeLevel.value else seek.value.0)
                && InputsPicked(v, l, c.value.inputs0, c.value.inputs1) && NoGap(v, l, c.value.inputs0, c.value.inputs1)
                && (if sizeLevel.Some? then exists f :: f in c.value.inputs0 && StartsAt(v[l], old(compactPointer)[l], f)
                    else seek.value.1 in c.value.inputs0)
                && (exists p :: IsLargest(p, c.value.inputs0) && compactPointer == old(compactPointer)[l := Some(p)])
                && (if l + 2 == NUM_LEVELS then c.value.grandparents == []
                    else exists lo, hi :: Hull(c.value.inputs0 + c.value.inputs1, lo, hi) && c.value.grandparents == Overlapping(v[l + 2], Some(lo), Some(hi)))
    {
      hide NoGap, InputsPicked, StartsAt, Hull;
      if sizeLevel.None? && seek.None? {
        return None;
      }
      var level: nat, start: FileMeta;
      if sizeLevel.Some? {
        level := sizeLevel.value;
        var i := PickFirstFile(v[level], compactPointer[level]);
        start := v[level][i];
        StartIsFirst(v[level], compactPointer[level], i);
      } else {
        level, start := seek.value.0, seek.value.1;
      }
      var inputs0, inputs1 := PickInputs(v, level, start, expandedLimit);
      var smallest, largest := GetRange(inputs0);
      var allStart, allLimit := GetRange(inputs0 + inputs1);
      RangeIsHull(inputs0 + inputs1, allStart, allLimit);
      var grandparents: Level := [];
      if level + 2 < NUM_LEVELS {
        FilesSpanUsers(v[level + 2]);
        var overlapping, _, _ := GetOverlappingInputs(level + 2, v[level + 2], Some(allStart.user), Some(allLimit.user));
        grandparents := overlapping;
      }
      assert IsLargest(largest, inputs0);
      compactPointer := compactPointer[level := Some(largest)];
      c := Some(Picked(level, inputs0, inputs1, grandparents));
    }

    lemma StartIsFirst(files: Level, pointer: Option<InternalKey>, i: nat)
      requires i < |files|
      requires i > 0 ==> pointer.Some? && forall j :: 0 <= j < i ==> !Less(pointer.value, files[j].largest)
      requires pointer.Some? && !Less(pointer.value, files[i].largest) ==>
                 i == 0 && forall j :: 0 <= j < |files| ==> !Less(pointer.value, files[j].largest)
      ensures StartsAt(files, pointer, files[i])
    {
      if pointer.Some? && Less(pointer.value, files[i].largest) {
        assert files[i] in files;
      }
    }
  }

  /** Round robin: with the pointer at the end of what the last compaction took, the next one starts past all
      of that for as long as the level has anything there. */
  lemma NextStartsPast(files: Level, p: InternalKey, taken: Level, f: FileMeta)
    requires IsLargest(p, taken) && StartsAt(files, Some(p), f)
    ensures (exists g :: g in files && Less(p, g.largest)) ==> f !in taken && forall g :: g in taken ==> Less(g.largest, f.largest)
  {
    if exists g :: g in files && Less(p, g.largest) {
      forall g | g in taken ensures Less(g.largest, f.largest) {
        LessIsTotalOrder(g.largest, p, f.largest);
      }
    }
  }

  lemma SameSides(v: Version, level: nat, files: Level)
    requires |v| == NUM_LEVELS && level + 1 < NUM_LEVELS
    ensures SidesKept(v, level, files, files)
  {
  }

  lemma SidesCompose(v: Version, level: nat, a: Level, b: Level, c: Level)
    requires |v| == NUM_LEVELS && level + 1 < NUM_LEVELS && SidesKept(v, level, a, b) && SidesKept(v, level, b, c)
    ensures SidesKept(v, level, a, c)
  {
    hide LeftOf, RightOf, ClearOf;
  }

  lemma GatheredKeepSides(v: Version, from: Level, lo: UserKey, hi: UserKey, begin: Bound, end: Bound)
    requires VersionOk(v) && Hull(from, lo, hi) && Least(v[0], Some(lo), Some(hi), begin, end)
    ensures SidesKept(v, 0, from, Overlapping(v[0], begin, end))
  {
    hide Least, LeftOf, RightOf, ClearOf, Overlapping, Hull;
    FilesSpanUsers(v[0]);
    forall f | ClearOf(v[0], f) && ClearOf(v[1], f)
      ensures (LeftOf(from, f) ==> LeftOf(Overlapping(v[0], begin, end), f)) && (RightOf(from, f) ==> RightOf(Overlapping(v[0], begin, end), f))
    {
      GatheredSide(v[0], from, lo, hi, begin, end, f);
    }
  }

  // ---------- what picking buys ----------

  /** The guard this version of the code does not enforce: no file left behind starts with older
      versions of the user key some picked file ends with. */
  ghost predicate BoundaryClosed(files: Level, picked: Level) {
    forall f, g :: f in picked && g in files && g !in picked ==>
      !(g.smallest.user == f.largest.user && Less(f.largest, g.smallest))
  }

  /** Sequence numbers tell versions of a key apart. */
  ghost predicate SeqnosDistinct(entries: set<Entry>) {
    forall x, y :: x in entries && y in entries && x.key.user == y.key.user && x.key.seqno == y.key.seqno ==> x == y
  }

  /** In an ordered level, what is left behind is newer than what is picked exactly when no picked
      file is cut off from older versions of its last user key. */
  lemma RestAboveIffBoundaryClosed(files: Level, picked: Level)
    requires forall f :: f in files ==> FileOk(f)
    requires FilesSorted(files) && LevelOrdered(files)
    requires forall f :: f in picked ==> f in files
    requires SeqnosDistinct(Entries(files))
    ensures RestAbove(files, picked, Entries(picked)) <==> BoundaryClosed(files, picked)
  {
    if BoundaryClosed(files, picked) {
      forall g, x, y | g in files && g !in picked && x in g.table && y in Entries(picked) && x.key.user == y.key.user
        ensures x.key.seqno > y.key.seqno
      {
        var f :| f in picked && y in f.table;
        NeighbourIsNewer(files, picked, f, g, x, y);
      }
    }
    if RestAbove(files, picked, Entries(picked)) {
      RestAboveClosesBoundary(files, picked);
    }
  }

  /** The entry's file is picked and a file that begins with older versions of its user key is not. */
  ghost predicate SplitBehind(files: Level, picked: Level, e: Entry) {
    exists f, g :: f in picked && e in f.table && g in files && g !in picked
                   && f.largest.user == e.key.user && g.smallest.user == e.key.user && Less(f.largest, g.smallest)
  }

  /** A set of inputs is boundary-closed exactly when none of its entries' keys is split. */
  lemma BoundaryClosedIffUnsplit(files: Level, picked: Level)
    requires forall f :: f in picked ==> FileOk(f)
    ensures BoundaryClosed(files, picked) <==> forall e :: e in Entries(picked) ==> !SplitBehind(files, picked, e)
  {
    if !BoundaryClosed(files, picked) {
      var f, g :| f in picked && g in files && g !in picked && g.smallest.user == f.largest.user && Less(f.largest, g.smallest);
      FileEnds(f);
      var e :| e in f.table && e.key == f.largest;
      SplitIsBehind(files, picked, f, g, e);
      assert e in Entries(picked);
    }
  }

  /** In an ordered level, an older version of a picked entry's key stays behind exactly when the key
      is split where the picked file ends. */
  lemma LeftOlderIffSplit(files: Level, picked: Level, e: Entry)
    requires forall f :: f in files ==> FileOk(f)
    requires FilesSorted(files) && LevelOrdered(files) && SeqnosDistinct(Entries(files))
    requires (forall f :: f in picked ==> f in files) && e in Entries(picked)
    ensures LeftOlder(files, picked, e) <==> SplitBehind(files, picked, e)
  {
    if LeftOlder(files, picked, e) {
      hide SplitBehind, FileOk, SeqnosDistinct;
      var f :| f in picked && e in f.table;
      var g, x :| g in files && g !in picked && x in g.table && x.key.user == e.key.user && x.key.seqno < e.key.seqno;
      OlderIsNextFile(files, f, g, e, x);
      SplitIsBehind(files, picked, f, g, e);
    }
    if SplitBehind(files, picked, e) {
      hide LeftOlder, LevelOrdered, FilesSorted;
      var f, g :| f in picked && e in f.table && g in files && g !in picked
                  && f.largest.user == e.key.user && g.smallest.user == e.key.user && Less(f.largest, g.smallest);
      NextFileIsOlder(files, picked, f, g, e);
    }
  }

  lemma SplitIsBehind(files: Level, picked: Level, f: FileMeta, g: FileMeta, e: Entry)
    requires f in picked && e in f.table && g in files && g !in picked
    requires f.largest.user == e.key.user && g.smallest.user == e.key.user && Less(f.largest, g.smallest)
    ensures SplitBehind(files, picked, e)
  {
  }

  lemma NextFileIsOlder(files: Level, picked: Level, f: FileMeta, g: FileMeta, e: Entry)
    requires FileOk(f) && FileOk(g) && f in files && SeqnosDistinct(Entries(files))
    requires e in f.table && g in files && g !in picked
    requires f.largest.user == e.key.user && g.smallest.user == e.key.user && Less(f.largest, g.smallest)
    ensures LeftOlder(files, picked, e)
  {
    FileRange(f, e);
    var x := g.table[0];
    assert x in g.table && x in Entries(files) && e in Entries(files);
    assert x.key.seqno < e.key.seqno;
  }

  lemma OlderIsNextFile(files: Level, f: FileMeta, g: FileMeta, e: Entry, x: Entry)
    requires (forall f :: f in files ==> FileOk(f)) && FilesSorted(files) && LevelOrdered(files)
    requires f in files && g in files && f != g && e in f.table && x in g.table
    requires x.key.user == e.key.user && x.key.seqno < e.key.seqno
    ensures f.largest.user == g.smallest.user == e.key.user && Less(f.largest, g.smallest)
  {
    OrderedIffSeparated(files);
    FileRange(f, e);
    FileRange(g, x);
    assert Separated(f, g);
  }

  lemma RestAboveClosesBoundary(files: Level, picked: Level)
    requires forall f :: f in files ==> FileOk(f)
    requires forall f :: f in picked ==> f in files
    requires RestAbove(files, picked, Entries(picked))
    ensures BoundaryClosed(files, picked)
  {
    forall f, g | f in picked && g in files && g !in picked && g.smallest.user == f.largest.user
      ensures !Less(f.largest, g.smallest)
    {
      var x, y := g.table[0], f.table[|f.table| - 1];
      assert x in g.table && y in f.table;
      assert y in Entries(picked);
    }
  }

  lemma NeighbourIsNewer(files: Level, picked: Level, f: FileMeta, g: FileMeta, x: Entry, y: Entry)
    requires forall f :: f in files ==> FileOk(f)
    requires FilesSorted(files) && LevelOrdered(files) && SeqnosDistinct(Entries(files)) && BoundaryClosed(files, picked)
    requires f in picked && f in files && g in files && g !in picked
    requires x in g.table && y in f.table && x.key.user == y.key.user
    ensures x.key.seqno > y.key.seqno
  {
    OrderedIffSeparated(files);
    FileRange(g, x);
    FileRange(f, y);
    assert Separated(f, g);
    assert x in Entries(files) && y in Entries(files);
  }
}
