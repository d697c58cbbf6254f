/** Prefix-compressed blocks with restart points (table/block_builder.cc, table/block.cc). */
module Blocks {
  import opened Coding

  type Less = (Bytes, Bytes) -> bool

  /** What the code asks of a comparator. */
  ghost predicate TotalOrder(less: Less) {
    && (forall a :: !less(a, a))
    && (forall a, b, c :: less(a, b) && less(b, c) ==> less(a, c))
    && (forall a, b :: a == b || less(a, b) || less(b, a))
  }

  datatype Item = Item(key: Bytes, value: Bytes)

  ghost predicate Ascending(less: Less, items: seq<Item>) {
    forall i, j :: 0 <= i < j < |items| ==> less(items[i].key, items[j].key)
  }

  // ---------- the format ----------

  /** An entry: how much of the previous key it shares, the rest of the key, the value. */
  function EntryBytes(shared: nat, item: Item): (b: Bytes)
    requires shared <= |item.key|
    ensures |b| >= 3
  {
    PutVarint(shared) + PutVarint(|item.key| - shared) + PutVarint(|item.value|) + item.key[shared..] + item.value
  }

  /** Three lengths (shared, rest of the key, value), then the rest of the key and the value. */
  lemma EntryInNumbers(shared: nat, item: Item)
    requires shared <= |item.key| && |item.key| < 128 && |item.value| < 128
    ensures EntryBytes(shared, item) ==
            [shared as Byte, (|item.key| - shared) as Byte, |item.value| as Byte] + item.key[shared..] + item.value
  {
  }

  /** What a block says: its items, how much each shares with the one before, and which of them are
      restart points. */
  datatype Layout = Layout(items: seq<Item>, shared: seq<nat>, starts: seq<nat>)

  ghost predicate SharesPrefix(l: Layout, i: nat)
    requires i < |l.items| == |l.shared|
  {
    && l.shared[i] <= |l.items[i].key|
    && (l.shared[i] > 0 ==>
          i > 0 && l.shared[i] <= |l.items[i - 1].key| && l.items[i - 1].key[..l.shared[i]] == l.items[i].key[..l.shared[i]])
  }

  ghost predicate Shares(l: Layout) {
    && |l.items| == |l.shared|
    && forall i :: 0 <= i < |l.items| ==> SharesPrefix(l, i)
  }

  ghost predicate StartsOk(l: Layout)
    requires |l.items| == |l.shared|
  {
    && |l.starts| > 0 && l.starts[0] == 0
    && (forall j, k :: 0 <= j < k < |l.starts| ==> l.starts[j] < l.starts[k])
    && (forall k :: 0 <= k < |l.starts| ==> l.starts[k] < |l.items| || (k == 0 && l.items == []))
    && (forall k :: 0 <= k < |l.starts| && l.starts[k] < |l.items| ==> l.shared[l.starts[k]] == 0)
  }

  ghost predicate LayoutOk(l: Layout) {
    && Shares(l) && StartsOk(l) && |l.starts| < WORD
    && (forall i :: 0 <= i < |l.items| ==> |l.items[i].key| < WORD && |l.items[i].value| < WORD)
    && Off(l, |l.items|) < WORD
  }

  ghost function Body(l: Layout, n: nat): Bytes
    requires Shares(l) && n <= |l.items|
  {
    if n == 0 then []
    else
      assert SharesPrefix(l, n - 1);
      Body(l, n - 1) + EntryBytes(l.shared[n - 1], l.items[n - 1])
  }

  /** Offset of entry i in the block. */
  ghost function Off(l: Layout, i: nat): nat
    requires Shares(l) && i <= |l.items|
  {
    |Body(l, i)|
  }

  ghost function RestartBytes(l: Layout, n: nat): (b: Bytes)
    requires LayoutOk(l) && n <= |l.starts|
    ensures |b| == 4 * n
  {
    if n == 0 then []
    else
      OffGrows(l, l.starts[n - 1], |l.items|);
      RestartBytes(l, n - 1) + PutFixed32(Off(l, l.starts[n - 1]))
  }

  /** A finished block. */
  ghost function BlockBytes(l: Layout): Bytes
    requires LayoutOk(l)
  {
    Body(l, |l.items|) + RestartBytes(l, |l.starts|) + PutFixed32(|l.starts|)
  }

  /** The smallest block: one entry, the one restart offset, the number of restarts. */
  lemma BlockInNumbers(l: Layout)
    requires l == Layout([Item([0x6b], [0x76])], [0], [0])
    ensures LayoutOk(l) && BlockBytes(l) == [0, 1, 1, 0x6b, 0x76] + [0, 0, 0, 0] + [1, 0, 0, 0]
  {
    assert SharesPrefix(l, 0);
    EntryInNumbers(0, l.items[0]);
    assert Body(l, 1) == [0, 1, 1, 0x6b, 0x76];
    assert PutFixed32(0) == [0, 0, 0, 0] && PutFixed32(1) == [1, 0, 0, 0];
    hide PutFixed32, EntryBytes;
    assert RestartBytes(l, 1) == RestartBytes(l, 0) + PutFixed32(Off(l, 0)) == [0, 0, 0, 0];
  }

  lemma {:induction false} OffGrows(l: Layout, i: nat, j: nat)
    requires Shares(l) && i <= j <= |l.items|
    ensures Body(l, i) <= Body(l, j)
    ensures i < j ==> Off(l, i) + 3 <= Off(l, j)
  {
    if i < j {
      OffGrows(l, i, j - 1);
    }
  }

  /** The bytes from entry i on begin with that entry. */
  lemma EntryAt(l: Layout, i: nat, data: Bytes, limit: nat)
    requires LayoutOk(l) && i < |l.items| && limit == Off(l, |l.items|) <= |data| && data[..limit] == Body(l, |l.items|)
    ensures l.shared[i] <= |l.items[i].key|
    ensures Off(l, i + 1) == Off(l, i) + |EntryBytes(l.shared[i], l.items[i])| <= limit
    ensures EntryBytes(l.shared[i], l.items[i]) <= data[Off(l, i)..limit]
  {
    assert SharesPrefix(l, i);
    var e := EntryBytes(l.shared[i], l.items[i]);
    OffGrows(l, i + 1, |l.items|);
    var whole := Body(l, |l.items|);
    assert whole[..Off(l, i + 1)] == Body(l, i) + e;
    assert data[Off(l, i)..limit] == whole[Off(l, i)..];
    assert whole[Off(l, i)..][..|e|] == whole[..Off(l, i + 1)][Off(l, i)..] == e;
  }

  lemma {:induction false} RestartInArray(l: Layout, n: nat, k: nat)
    requires LayoutOk(l) && k < n <= |l.starts|
    ensures Off(l, l.starts[k]) < WORD
    ensures RestartBytes(l, n)[4 * k..4 * k + 4] == PutFixed32(Off(l, l.starts[k]))
  {
    OffGrows(l, l.starts[n - 1], |l.items|);
    if k < n - 1 {
      RestartInArray(l, n - 1, k);
      assert RestartBytes(l, n)[4 * k..4 * k + 4] == RestartBytes(l, n - 1)[4 * k..4 * k + 4];
    }
  }

  /** Where the parts of a finished block are. */
  lemma BlockParts(l: Layout, data: Bytes)
    requires LayoutOk(l) && data == BlockBytes(l)
    ensures |data| == Off(l, |l.items|) + 4 * |l.starts| + 4
    ensures data[..Off(l, |l.items|)] == Body(l, |l.items|)
    ensures GetFixed32(data[|data| - 4..]) == |l.starts|
    ensures forall k :: 0 <= k < |l.starts| ==>
              GetFixed32(data[Off(l, |l.items|) + 4 * k..]) == Off(l, l.starts[k])
  {
    hide PutFixed32, GetFixed32, Body, RestartBytes;
    var limit, r := Off(l, |l.items|), RestartBytes(l, |l.starts|);
    assert data[|data| - 4..] == PutFixed32(|l.starts|) + [];
    FixedNatRoundTrip(|l.starts|, []);
    forall k | 0 <= k < |l.starts|
      ensures GetFixed32(data[limit + 4 * k..]) == Off(l, l.starts[k])
    {
      RestartInArray(l, |l.starts|, k);
      var b := data[limit + 4 * k..];
      assert b[..4] == r[4 * k..4 * k + 4];
      assert b == PutFixed32(Off(l, l.starts[k])) + b[4..];
      FixedNatRoundTrip(Off(l, l.starts[k]), b[4..]);
    }
  }

  // ---------- decoding an entry ----------

  datatype Header = BadEntry | Header(shared: nat, nonShared: nat, valueLength: nat, length: nat)

  /** Three varints, followed by as many bytes as they announce. */
  function DecodeHeader(b: Bytes): (h: Header)
    ensures h.Header? ==> 3 <= h.length && h.length + h.nonShared + h.valueLength <= |b|
  {
    if |b| < 3 then BadEntry
    else
      match GetVarint(b, 5)
      case Malformed => BadEntry
      case Varint(s, n0) =>
        match GetVarint(b[n0..], 5)
        case Malformed => BadEntry
        case Varint(u, n1) =>
          match GetVarint(b[n0 + n1..], 5)
          case Malformed => BadEntry
          case Varint(v, n2) =>
            if |b| - (n0 + n1 + n2) < u % WORD + v % WORD then BadEntry
            else Header(s % WORD, u % WORD, v % WORD, n0 + n1 + n2)
  }

  lemma VarintAt(b: Bytes, n: nat, rest: Bytes)
    requires n < WORD && b == PutVarint(n) + rest
    ensures GetVarint(b, 5) == Varint(n, |PutVarint(n)|)
  {
    assert Power128(5) > WORD;
    VarintRoundTrip(n, 5, rest);
  }

  lemma Suffixes(b: Bytes, x: Bytes, y: Bytes, z: Bytes, rest: Bytes)
    requires b == x + (y + (z + rest))
    ensures b[|x|..] == y + (z + rest) && b[|x| + |y|..] == z + rest && b[|x| + |y| + |z|..] == rest
  {
  }

  lemma HeaderFrom(b: Bytes, s: nat, u: nat, v: nat, n0: nat, n1: nat, n2: nat)
    requires s < WORD && u < WORD && v < WORD && |b| >= 3 && n0 + n1 + n2 + u + v <= |b|
    requires GetVarint(b, 5) == Varint(s, n0) && GetVarint(b[n0..], 5) == Varint(u, n1) && GetVarint(b[n0 + n1..], 5) == Varint(v, n2)
    ensures DecodeHeader(b) == Header(s, u, v, n0 + n1 + n2)
  {
    hide GetVarint;
  }

  lemma DecodeThree(b: Bytes, s: nat, u: nat, v: nat, rest: Bytes)
    requires s < WORD && u < WORD && v < WORD && u + v <= |rest|
    requires b == PutVarint(s) + (PutVarint(u) + (PutVarint(v) + rest))
    ensures DecodeHeader(b) == Header(s, u, v, |PutVarint(s)| + |PutVarint(u)| + |PutVarint(v)|)
  {
    hide PutVarint, GetVarint, DecodeHeader;
    var x, y, z := PutVarint(s), PutVarint(u), PutVarint(v);
    Suffixes(b, x, y, z, rest);
    VarintAt(b, s, y + (z + rest));
    VarintAt(b[|x|..], u, z + rest);
    VarintAt(b[|x| + |y|..], v, rest);
    HeaderFrom(b, s, u, v, |x|, |y|, |z|);
  }

  lemma EntrySplits(shared: nat, item: Item, b: Bytes, rest: Bytes)
    requires shared <= |item.key| && b == EntryBytes(shared, item) + rest
    ensures b == PutVarint(shared) + (PutVarint(|item.key| - shared) + (PutVarint(|item.value|) + (item.key[shared..] + item.value + rest)))
  {
    hide PutVarint;
  }

  /** An entry read back from its own bytes. */
  lemma EntryRoundTrip(shared: nat, item: Item, b: Bytes)
    requires shared <= |item.key| && |item.key| < WORD && |item.value| < WORD && EntryBytes(shared, item) <= b
    ensures var h := DecodeHeader(b);
            && h.Header? && h.shared == shared && h.nonShared == |item.key| - shared && h.valueLength == |item.value|
            && b[h.length..h.length + h.nonShared] == item.key[shared..]
            && b[h.length + h.nonShared..h.length + h.nonShared + h.valueLength] == item.value
            && h.length + h.nonShared + h.valueLength == |EntryBytes(shared, item)|
  {
    hide PutVarint, DecodeHeader;
    var rest := b[|EntryBytes(shared, item)|..];
    EntrySplits(shared, item, b, rest);
    var k, v := item.key[shared..], item.value;
    var x, y, z := PutVarint(shared), PutVarint(|k|), PutVarint(|v|);
    DecodeThree(b, shared, |k|, |v|, k + v + rest);
    Suffixes(b, x, y, z, k + v + rest);
    KeyAndValue(b, |x| + |y| + |z|, k, v, rest);
  }

  lemma KeyAndValue(b: Bytes, p: nat, k: Bytes, v: Bytes, rest: Bytes)
    requires p <= |b| && b[p..] == k + v + rest
    ensures b[p..p + |k|] == k && b[p + |k|..p + |k| + |v|] == v
  {
    assert b[p..p + |k|] == b[p..][..|k|];
    assert b[p + |k|..p + |k| + |v|] == b[p..][|k|..|k| + |v|];
  }

  lemma OneByte(b: Bytes)
    requires b != [] && b[0] < 128
    ensures GetVarint(b, 5) == Varint(b[0] as nat, 1)
  {
  }

  /** DecodeEntry: a fast path for three one-byte lengths. */
  method DecodeEntry(b: Bytes) returns (h: Header)
    ensures h == DecodeHeader(b)
  {
    hide GetVarint;
    if |b| < 3 {
      return BadEntry;
    }
    var shared, nonShared, valueLength, p := b[0] as nat, b[1] as nat, b[2] as nat, 3;
    if b[0] < 128 && b[1] < 128 && b[2] < 128 {
      OneByte(b);
      OneByte(b[1..]);
      OneByte(b[2..]);
    } else {
      var v := GetVarint32(b);
      if v.Malformed? {
        return BadEntry;
      }
      shared, p := v.value, v.length;
      v := GetVarint32(b[p..]);
      if v.Malformed? {
        return BadEntry;
      }
      nonShared, p := v.value, p + v.length;
      v := GetVarint32(b[p..]);
      if v.Malformed? {
        return BadEntry;
      }
      valueLength, p := v.value, p + v.length;
    }
    if |b| - p < nonShared + valueLength {
      return BadEntry;
    }
    h := Header(shared, nonShared, valueLength, p);
  }
}
