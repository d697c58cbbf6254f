/** Write-ahead logs as recovery sees them: batches with a base sequence number, in files whose
    numbers order them (DBImpl::Recover, DBImpl::RecoverLogFile). */
module LogStream {
  import opened InternalKeys
  import opened History

  datatype Batch = Batch(base: nat, ops: Writes)

  type Logs = map<nat, seq<Batch>>

  /** The batches are exactly writes from+1 .. upTo of the history, correctly numbered. */
  ghost predicate Chain(bs: seq<Batch>, h: Writes, from: nat, upTo: nat) {
    if bs == [] then from == upTo
    else
      var b := bs[|bs| - 1];
      && |b.ops| <= upTo <= |h|
      && b.base == upTo - |b.ops| + 1
      && b.ops == h[upTo - |b.ops|..upTo]
      && Chain(bs[..|bs| - 1], h, from, upTo - |b.ops|)
  }

  lemma {:induction false} ChainBounds(bs: seq<Batch>, h: Writes, from: nat, upTo: nat)
    requires Chain(bs, h, from, upTo)
    ensures from <= upTo
    ensures bs != [] ==> upTo <= |h|
  {
    if bs != [] {
      ChainBounds(bs[..|bs| - 1], h, from, upTo - |bs[|bs| - 1].ops|);
    }
  }

  lemma {:induction false} ChainExtends(bs: seq<Batch>, h: Writes, more: Writes, from: nat, upTo: nat)
    requires Chain(bs, h, from, upTo)
    ensures Chain(bs, h + more, from, upTo)
  {
    if bs != [] {
      var n := |bs[|bs| - 1].ops|;
      ChainExtends(bs[..|bs| - 1], h, more, from, upTo - n);
      assert (h + more)[upTo - n..upTo] == h[upTo - n..upTo];
    }
  }

  /** Logging one more group continues the chain. */
  lemma ChainAppend(bs: seq<Batch>, h: Writes, ops: Writes, from: nat)
    requires Chain(bs, h, from, |h|)
    ensures Chain(bs + [Batch(|h| + 1, ops)], h + ops, from, |h| + |ops|)
  {
    ChainExtends(bs, h, ops, from, |h|);
    var longer := bs + [Batch(|h| + 1, ops)];
    assert longer[..|longer| - 1] == bs;
    assert (h + ops)[|h|..|h| + |ops|] == ops;
  }

  lemma {:induction false} ChainJoin(a: seq<Batch>, b: seq<Batch>, h: Writes, from: nat, mid: nat, upTo: nat)
    requires Chain(a, h, from, mid) && Chain(b, h, mid, upTo)
    ensures Chain(a + b, h, from, upTo)
  {
    if b == [] {
      assert a + b == a;
    } else {
      var n := |b| - 1;
      ChainJoin(a, b[..n], h, from, mid, upTo - |b[n].ops|);
      assert (a + b)[..|a + b| - 1] == a + b[..n];
    }
  }

  /** The first batch of a chain holds its first writes; the rest is the chain after them. */
  lemma {:induction false} ChainFront(b: Batch, rest: seq<Batch>, h: Writes, from: nat, upTo: nat)
    requires Chain([b] + rest, h, from, upTo)
    ensures b.base == from + 1 && from + |b.ops| <= |h| && b.ops == h[from..from + |b.ops|]
    ensures Chain(rest, h, from + |b.ops|, upTo)
  {
    var bs := [b] + rest;
    if rest == [] {
      assert bs[..|bs| - 1] == [];
    } else {
      var n := |rest| - 1;
      assert bs[..|bs| - 1] == [b] + rest[..n];
      ChainFront(b, rest[..n], h, from, upTo - |rest[n].ops|);
    }
  }

  // ---------- logs in number order ----------

  /** All batches of the logs numbered lo .. hi - 1, oldest log first. */
  function Stream(logs: Logs, lo: nat, hi: nat): seq<Batch>
    decreases hi
  {
    if hi <= lo then []
    else Stream(logs, lo, hi - 1) + (if hi - 1 in logs then logs[hi - 1] else [])
  }

  ghost predicate Below(logs: Logs, hi: nat) {
    forall n :: n in logs ==> n < hi
  }

  lemma {:induction false} StreamSplit(logs: Logs, lo: nat, mid: nat, hi: nat)
    requires lo <= mid <= hi
    ensures Stream(logs, lo, hi) == Stream(logs, lo, mid) + Stream(logs, mid, hi)
    decreases hi
  {
    if hi > mid {
      StreamSplit(logs, lo, mid, hi - 1);
      var last := if hi - 1 in logs then logs[hi - 1] else [];
      assert Stream(logs, lo, mid) + (Stream(logs, mid, hi - 1) + last) == (Stream(logs, lo, mid) + Stream(logs, mid, hi - 1)) + last;
    } else {
      assert Stream(logs, lo, mid) + [] == Stream(logs, lo, mid);
    }
  }

  lemma {:induction false} StreamAgrees(a: Logs, b: Logs, lo: nat, hi: nat)
    requires forall n :: lo <= n < hi ==> (n in a <==> n in b) && (n in a ==> a[n] == b[n])
    ensures Stream(a, lo, hi) == Stream(b, lo, hi)
    decreases hi
  {
    if hi > lo {
      StreamAgrees(a, b, lo, hi - 1);
    }
  }

  lemma {:induction false} StreamEmpty(logs: Logs, lo: nat, hi: nat)
    requires forall n :: lo <= n < hi && n in logs ==> logs[n] == []
    ensures Stream(logs, lo, hi) == []
    decreases hi
  {
    if hi > lo {
      StreamEmpty(logs, lo, hi - 1);
    }
  }

  lemma StreamOne(logs: Logs, n: nat)
    ensures Stream(logs, n, n + 1) == if n in logs then logs[n] else []
  {
    assert Stream(logs, n, n) == [];
  }
}
