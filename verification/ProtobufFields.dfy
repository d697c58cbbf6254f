/** The cyclic walk over a descriptor and the required-field bits (nanopb: pb_common.c and the ends of
    pb_decode_noinit). */
module ProtobufFields {
  import opened Coding
  import opened Protobuf

  const MAX_REQUIRED_FIELDS: nat := 64

  /** Required fields among the first n. */
  function RequiredBefore(d: Descriptor, n: nat): (c: nat)
    requires n <= |d|
    ensures c <= n
  {
    if n == 0 then 0 else RequiredBefore(d, n - 1) + (if d[n - 1].rule.Required? then 1 else 0)
  }

  lemma {:induction false} RequiredGrows(d: Descriptor, m: nat, n: nat)
    requires m <= n <= |d|
    ensures RequiredBefore(d, m) <= RequiredBefore(d, n)
    ensures m < n && d[m].rule.Required? ==> RequiredBefore(d, m) < RequiredBefore(d, n)
  {
    if m < n {
      RequiredGrows(d, m, n - 1);
    }
  }

  /** Which required field has this index. */
  lemma {:induction false} NthRequired(d: Descriptor, n: nat, c: nat) returns (i: nat)
    requires n <= |d| && c < RequiredBefore(d, n)
    ensures i < n && d[i].rule.Required? && RequiredBefore(d, i) == c
  {
    if d[n - 1].rule.Required? && c == RequiredBefore(d, n - 1) {
      i := n - 1;
    } else {
      i := NthRequired(d, n - 1, c);
    }
  }

  class FieldIter {
    const d: Descriptor
    var pos: nat
    var requiredIndex: nat

    ghost predicate Ok()
      reads this
    {
      d != [] && pos < |d| && requiredIndex == RequiredBefore(d, pos)
    }

    constructor (d: Descriptor)
      requires d != []
      ensures Ok() && pos == 0 && this.d == d
    {
      this.d := d;
      pos, requiredIndex := 0, 0;
    }

    /** To the next field; false when that wraps around to the first. */
    method Next() returns (more: bool)
      requires Ok()
      modifies this
      ensures Ok() && more == (old(pos) + 1 < |d|) && pos == if more then old(pos) + 1 else 0
    {
      if pos + 1 == |d| {
        pos, requiredIndex := 0, 0;
        return false;
      }
      if d[pos].rule.Required? {
        requiredIndex := requiredIndex + 1;
      }
      pos := pos + 1;
      return true;
    }

    /** The field with this tag, wherever in the message the walk stands. */
    method Find(tag: nat) returns (found: bool)
      requires Ok()
      modifies this
      ensures Ok()
      ensures found ==> d[pos].tag == tag
      ensures !found ==> forall i :: 0 <= i < |d| ==> d[i].tag != tag
    {
      var start := pos;
      ghost var steps := 0;
      while true
        invariant Ok() && steps < |d|
        invariant pos == if start + steps < |d| then start + steps else start + steps - |d|
        invariant forall i :: 0 <= i < |d| && (if start + steps < |d| then start <= i < pos else i >= start || i < pos) ==> d[i].tag != tag
        decreases |d| - steps
      {
        if d[pos].tag == tag {
          return true;
        }
        var more := Next();
        steps := steps + 1;
        if pos == start {
          return false;
        }
      }
    }
  }

  // ---------- required fields ----------

  /** A 32-bit word, bit by bit. */
  type Word = w: seq<bool> | |w| == 32 witness [false, false, false, false, false, false, false, false,
    false, false, false, false, false, false, false, false, false, false, false, false, false, false, false, false,
    false, false, false, false, false, false, false, false]

  const NO_BITS: Word := [false, false, false, false, false, false, false, false,
    false, false, false, false, false, false, false, false, false, false, false, false, false, false, false, false,
    false, false, false, false, false, false, false, false]

  /** The low n bits: all ones shifted right by 32 - n. */
  function LowBits(n: nat): Word
    requires n <= 32
  {
    seq(32, b => b < n)
  }

  class FieldsSeen {
    var low: Word
    var high: Word

    constructor ()
      ensures forall r: nat :: !Has(r)
    {
      low, high := NO_BITS, NO_BITS;
    }

    ghost predicate Has(r: nat)
      reads this
    {
      if r < 32 then low[r] else r < 64 && high[r - 32]
    }

    method Mark(r: nat)
      modifies this
      ensures forall x: nat :: Has(x) == (old(Has(x)) || (x == r && r < 64))
    {
      if r < MAX_REQUIRED_FIELDS {
        if r / 32 == 0 {
          low := low[r % 32 := true];
        } else {
          high := high[r % 32 := true];
        }
      }
    }

    /** The check at the end of a message: whole words against all ones, the rest against the low
        bits. It passes exactly when the first 64 required fields have all been seen. */
    method AllPresent(iter: FieldIter) returns (ok: bool)
      requires iter.Ok()
      requires forall r: nat :: Has(r) ==> r < RequiredBefore(iter.d, |iter.d|)
      modifies iter
      ensures ok <==> forall r: nat :: r < RequiredBefore(iter.d, |iter.d|) && r < 64 ==> Has(r)
    {
      var count := CountRequired(iter);
      if count > MAX_REQUIRED_FIELDS {
        count := MAX_REQUIRED_FIELDS;
      }
      if count > 0 {
        if count / 32 > 0 && low != LowBits(32) {
          ghost var b := NotAll(low, 32);
          assert Has(b) == low[b];
          return false;
        }
        if count / 32 > 1 && high != LowBits(32) {
          ghost var b := NotAll(high, 32);
          assert Has(b + 32) == high[b];
          return false;
        }
        if count % 32 != 0 {
          if count / 32 == 0 && low != LowBits(count) {
            ghost var b := NotAll(low, count);
            assert Has(b) == low[b];
            return false;
          }
          if count / 32 == 1 && high != LowBits(count - 32) {
            ghost var b := NotAll(high, count - 32);
            assert Has(b + 32) == high[b];
            return false;
          }
        }
      }
      return true;
    }

    /** A word that is not the low n bits differs from them somewhere. */
    static lemma NotAll(w: Word, n: nat) returns (b: nat)
      requires n <= 32 && w != LowBits(n)
      ensures b < 32 && w[b] != (b < n)
    {
      b := Differ(w, LowBits(n));
    }

    static lemma {:induction false} Differ(a: seq<bool>, b: seq<bool>) returns (i: nat)
      requires |a| == |b| && a != b
      ensures i < |a| && a[i] != b[i]
    {
      if a[0] != b[0] {
        i := 0;
      } else {
        assert a == [a[0]] + a[1..] && b == [b[0]] + b[1..];
        var j := Differ(a[1..], b[1..]);
        i := j + 1;
      }
    }
  }

  /** Walks to the end of the descriptor to count the required fields, and wraps. */
  method CountRequired(iter: FieldIter) returns (count: nat)
    requires iter.Ok()
    modifies iter
    ensures count == RequiredBefore(iter.d, |iter.d|)
  {
    count := iter.requiredIndex;
    var lastRequired := iter.d[iter.pos].rule.Required?;
    var more := iter.Next();
    ghost var p := old(iter.pos);
    while more
      invariant p < |iter.d| && iter.Ok() && count == RequiredBefore(iter.d, p) && lastRequired == iter.d[p].rule.Required?
      invariant more == (p + 1 < |iter.d|) && (more ==> iter.pos == p + 1)
      decreases |iter.d| - p
    {
      count := iter.requiredIndex;
      lastRequired := iter.d[iter.pos].rule.Required?;
      p := p + 1;
      more := iter.Next();
    }
    if lastRequired {
      count := count + 1;
    }
  }
}
