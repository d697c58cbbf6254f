/** Which level most needs a compaction (VersionSet::Finalize, db/version_set.cc). */
module Scores {
  import opened InternalKeys
  import opened Versions
  import opened Picking

  /** Files of level 0 that make it due. */
  const L0_COMPACTION_TRIGGER: nat := 4

  function PowerOfTen(n: nat): (p: real)
    ensures p >= 1.0
  {
    if n == 0 then 1.0 else 10.0 * PowerOfTen(n - 1)
  }

  /** Bytes a level below 0 may hold: ten megabytes at level 1 and ten times as much at each further one. */
  method MaxBytesForLevel(level: nat) returns (result: real)
    ensures result == 10485760.0 * PowerOfTen(if level == 0 then 0 else level - 1)
  {
    result := 10.0 * 1048576.0;
    var l := level;
    while l > 1
      invariant if level <= 1 then l == level else 1 <= l <= level
      invariant result * PowerOfTen(if l == 0 then 0 else l - 1) == 10485760.0 * PowerOfTen(if level == 0 then 0 else level - 1)
    {
      assert result * PowerOfTen(l - 1) == (result * 10.0) * PowerOfTen(l - 2);
      result := result * 10.0;
      l := l - 1;
    }
  }

  /** How far a level is on its way to being due: at 1 it is. */
  function Score(v: Version, level: nat): real
    requires |v| == NUM_LEVELS && level < NUM_LEVELS
  {
    if level == 0 then |v[0]| as real / L0_COMPACTION_TRIGGER as real
    else TotalFileSize(v[level]) as real / (10485760.0 * PowerOfTen(level - 1))
  }

  /** The first of the levels with the highest score; the last level is never compacted. */
  method Finalize(v: Version) returns (bestLevel: nat, bestScore: real)
    requires |v| == NUM_LEVELS
    ensures bestLevel + 1 < NUM_LEVELS && bestScore == Score(v, bestLevel)
    ensures forall l :: 0 <= l < NUM_LEVELS - 1 ==> Score(v, l) <= bestScore && (l < bestLevel ==> Score(v, l) < bestScore)
  {
    hide TotalFileSize, PowerOfTen;
    bestLevel, bestScore := 0, -1.0;
    for level := 0 to NUM_LEVELS - 1
      invariant level > 0 ==> bestLevel < level && bestScore == Score(v, bestLevel)
      invariant level == 0 ==> bestLevel == 0 && bestScore == -1.0
      invariant forall l :: 0 <= l < level ==> Score(v, l) <= bestScore && (l < bestLevel ==> Score(v, l) < bestScore)
    {
      var score;
      if level == 0 {
        score := |v[level]| as real / L0_COMPACTION_TRIGGER as real;
      } else {
        var max := MaxBytesForLevel(level);
        score := TotalFileSize(v[level]) as real / max;
      }
      assert score == Score(v, level) && score >= 0.0;
      if score > bestScore {
        bestLevel, bestScore := level, score;
      }
    }
  }

  /** A level is due exactly when it holds four files, at level 0, or else all the bytes it may. */
  lemma DueIff(v: Version, level: nat)
    requires |v| == NUM_LEVELS && level < NUM_LEVELS
    ensures Score(v, level) >= 1.0 <==>
            if level == 0 then |v[0]| >= 4 else TotalFileSize(v[level]) as real >= 10485760.0 * PowerOfTen(level - 1)
  {
  }

  /** A level that is due has a file to start from, so it may be asked to be compacted. */
  lemma DueHasFiles(v: Version, level: nat)
    requires |v| == NUM_LEVELS && level < NUM_LEVELS && Score(v, level) >= 1.0
    ensures v[level] != []
  {
    DueIff(v, level);
  }

  /** Finalize and then PickCompaction: whenever some level is due, the most due one is compacted. */
  method FinalizeAndPick(v: Version, picker: Picker, seek: Option<(nat, FileMeta)>, expandedLimit: nat) returns (c: Option<Picked>)
    requires picker.Valid() && VersionOk(v)
    requires seek.Some? ==> seek.value.0 + 1 < NUM_LEVELS && seek.value.1 in v[seek.value.0]
    modifies picker
    ensures picker.Valid()
    ensures c.Some? <==> seek.Some? || exists l :: 0 <= l < NUM_LEVELS - 1 && Score(v, l) >= 1.0
    ensures (exists l :: 0 <= l < NUM_LEVELS - 1 && Score(v, l) >= 1.0) ==>
              c.Some? && c.value.level < NUM_LEVELS && forall l :: 0 <= l < NUM_LEVELS - 1 ==> Score(v, l) <= Score(v, c.value.level)
    ensures c.Some? ==> c.value.level + 1 < NUM_LEVELS && InputsPicked(v, c.value.level, c.value.inputs0, c.value.inputs1)
  {
    assert |v| == NUM_LEVELS;
    hide InputsPicked, NoGap, StartsAt, Hull, Score, VersionOk;
    var level, score := Finalize(v);
    if score >= 1.0 {
      DueHasFiles(v, level);
    }
    c := picker.PickCompaction(v, if score >= 1.0 then Some(level) else None, seek, expandedLimit);
  }
}
