/** The filter block of a table: one Bloom filter for every 2 KB of data-block offsets
    (table/filter_block.cc). */
module FilterBlocks {
  import opened Coding
  import opened Filters

  const FILTER_BASE: nat := 2048
  const FILTER_BASE_LG: Byte := 11

  /** Which filter answers for the data block at an offset. */
  function Slot(offset: nat): nat {
    offset / FILTER_BASE
  }

  /** One filter for every 2 KB of offsets. */
  lemma SlotIsTwoKilobytes(offset: nat, s: nat)
    ensures Slot(offset) == s <==> 2048 * s <= offset < 2048 * s + 2048
  {
  }

  /** The trailer of a filter block, in bytes: where the offsets begin, least significant byte first, and
      the base-two logarithm of 2048. */
  lemma TrailerInNumbers()
    ensures FilterBlockBytes([], []) == [0, 0, 0, 0, 11]
    ensures FilterBlockBytes([7, 7, 7], [0, 1]) == [7, 7, 7, 0, 0, 0, 0, 1, 0, 0, 0, 3, 0, 0, 0, 11]
  {
    assert [0, 1][..1] == [0];
  }

  function Flatten(keys: seq<Bytes>): Bytes {
    if keys == [] then [] else Flatten(keys[..|keys| - 1]) + keys[|keys| - 1]
  }

  /** End of filter s among `offsets`, when `end` closes the last one. */
  function LimitOf(offsets: seq<nat>, s: nat, end: nat): nat
    requires s < |offsets|
  {
    if s + 1 < |offsets| then offsets[s + 1] else end
  }

  /** The filters stand one after the other, and each matches the keys of its slot. */
  ghost predicate FiltersOk(data: Bytes, offsets: seq<nat>, slots: seq<seq<Bytes>>, h: Hash) {
    && |offsets| == |slots|
    && (forall s :: 0 <= s < |offsets| ==> offsets[s] <= LimitOf(offsets, s, |data|) <= |data|)
    && (forall s, key :: 0 <= s < |slots| && key in slots[s] ==>
          offsets[s] <= LimitOf(offsets, s, |data|) <= |data| && Matches(data[offsets[s]..LimitOf(offsets, s, |data|)], h(key)))
  }

  /** A slot with keys has the filter of just these keys; one without has none. */
  ghost predicate FiltersExact(policy: BloomFilterPolicy, data: Bytes, offsets: seq<nat>, slots: seq<seq<Bytes>>) {
    && FiltersOk(data, offsets, slots, policy.hash)
    && forall s :: 0 <= s < |offsets| ==> FilterFor(policy, data[offsets[s]..LimitOf(offsets, s, |data|)], slots[s])
  }

  ghost predicate FilterFor(policy: BloomFilterPolicy, filter: Bytes, keys: seq<Bytes>) {
    if keys == [] then filter == [] else policy.IsFilterOf(filter, keys)
  }

  /** Fixed-width words; what does not fit into one is cut off. */
  function OffsetBytes(offsets: seq<nat>): (b: Bytes)
    ensures |b| == 4 * |offsets|
  {
    if offsets == [] then [] else OffsetBytes(offsets[..|offsets| - 1]) + PutFixed32(offsets[|offsets| - 1] % WORD)
  }

  lemma {:induction false} OffsetAt(offsets: seq<nat>, s: nat)
    requires s < |offsets|
    ensures OffsetBytes(offsets)[4 * s..4 * s + 4] == PutFixed32(offsets[s] % WORD)
  {
    hide PutFixed32;
    var n := |offsets| - 1;
    if s < n {
      OffsetAt(offsets[..n], s);
      assert OffsetBytes(offsets)[4 * s..4 * s + 4] == OffsetBytes(offsets[..n])[4 * s..4 * s + 4];
    }
  }

  /** A finished filter block: filters, their offsets, where the offsets begin, the slot size. */
  function FilterBlockBytes(data: Bytes, offsets: seq<nat>): Bytes {
    data + OffsetBytes(offsets) + PutFixed32(|data| % WORD) + [FILTER_BASE_LG]
  }

  ghost predicate IsFilterBlock(c: Bytes, data: Bytes, offsets: seq<nat>) {
    && |data| < WORD && (forall s :: 0 <= s < |offsets| ==> offsets[s] < WORD)
    && c == FilterBlockBytes(data, offsets)
  }

  class FilterBlockBuilder {
    const policy: BloomFilterPolicy
    var keys: Bytes
    var start: seq<nat>
    var result: Bytes
    var filterOffsets: seq<nat>
    /** Keys not yet in a filter; keys in each filter made so far. */
    ghost var pending: seq<Bytes>
    ghost var slots: seq<seq<Bytes>>

    ghost predicate Valid()
      reads this
    {
      && policy.Valid()
      && keys == Flatten(pending) && |start| == |pending|
      && (forall i :: 0 <= i < |start| ==> start[i] == |Flatten(pending[..i])|)
      && FiltersExact(policy, result, filterOffsets, slots)
    }

    constructor (policy: BloomFilterPolicy)
      requires policy.Valid()
      ensures Valid() && slots == [] && pending == [] && this.policy == policy
    {
      this.policy := policy;
      keys, start, result, filterOffsets, pending, slots := [], [], [], [], [], [];
    }

    /** Closes filters until the one for this offset is the next to be made. */
    method StartBlock(blockOffset: nat)
      requires Valid() && Slot(blockOffset) >= |slots|
      modifies this
      ensures Valid() && |slots| == Slot(blockOffset)
      ensures Slot(blockOffset) == |old(slots)| ==> slots == old(slots) && pending == old(pending)
      ensures Slot(blockOffset) > |old(slots)| ==>
                slots[..|old(slots)|] == old(slots) && slots[|old(slots)|] == old(pending) && pending == []
      ensures forall i :: |old(slots)| < i < |slots| ==> slots[i] == []
    {
      var filterIndex := blockOffset / FILTER_BASE;
      while filterIndex > |filterOffsets|
        invariant Valid() && |old(slots)| <= |slots| == |filterOffsets| <= filterIndex
        invariant if |slots| == |old(slots)| then slots == old(slots) && pending == old(pending)
                  else slots[..|old(slots)|] == old(slots) && slots[|old(slots)|] == old(pending) && pending == []
        invariant forall i :: |old(slots)| < i < |slots| ==> slots[i] == []
        decreases filterIndex - |filterOffsets|
      {
        GenerateFilter();
      }
    }

    method AddKey(key: Bytes)
      requires Valid()
      modifies this
      ensures Valid() && pending == old(pending) + [key] && slots == old(slots)
    {
      hide FiltersExact;
      start := start + [|keys|];
      keys := keys + key;
      pending := pending + [key];
      assert pending[..|pending| - 1] == old(pending);
      assert forall i :: 0 <= i < |old(start)| ==> pending[..i] == old(pending)[..i];
    }

    method GenerateFilter()
      requires Valid()
      modifies this
      ensures Valid() && slots == old(slots) + [old(pending)] && pending == []
    {
      hide Matches, FiltersOk, FiltersExact, OnlyProbes, Flatten;
      var numKeys := |start|;
      if numKeys == 0 {
        AppendFilter(result, filterOffsets, slots, [], []);
        filterOffsets := filterOffsets + [|result|];
        slots := slots + [[]];
        assert result + [] == result;
        assert pending == [];
        return;
      }
      start := start + [|keys|];
      assert pending[..|pending|] == pending;
      var tmpKeys: seq<Bytes> := [];
      for i := 0 to numKeys
        modifies {}
        invariant tmpKeys == pending[..i]
        invariant forall j :: 0 <= j <= |pending| ==> start[j] == |Flatten(pending[..j])|
      {
        FlattenSlice(pending, i);
        tmpKeys := tmpKeys + [keys[start[i]..start[i + 1]]];
      }
      filterOffsets := filterOffsets + [|result|];
      var r: Bytes;
      ghost var filter: Bytes;
      r, filter := policy.CreateFilter(tmpKeys, result);
      assert tmpKeys == pending;
      AppendFilter(result, old(filterOffsets), slots, pending, filter);
      result := r;
      slots := slots + [pending];
      keys, start, pending := [], [], [];
      NothingFlat();
    }

    static lemma NothingFlat()
      ensures Flatten([]) == []
    {
    }

    /** The i-th key is what lies between two start positions. */
    static lemma {:induction false} FlattenSlice(ks: seq<Bytes>, i: nat)
      requires i < |ks|
      ensures |Flatten(ks[..i])| <= |Flatten(ks[..i + 1])| <= |Flatten(ks)|
      ensures Flatten(ks)[|Flatten(ks[..i])|..|Flatten(ks[..i + 1])|] == ks[i]
    {
      var n := |ks| - 1;
      if i == n {
        assert ks[..i + 1] == ks;
      } else {
        FlattenSlice(ks[..n], i);
        assert ks[..n][..i] == ks[..i] && ks[..n][..i + 1] == ks[..i + 1];
        var a, b := |Flatten(ks[..i])|, |Flatten(ks[..i + 1])|;
        assert Flatten(ks)[a..b] == Flatten(ks[..n])[a..b];
      }
    }

    /** Slot s and its filter, in the order they stand. */
    static ghost predicate Slice(data: Bytes, offsets: seq<nat>, s: nat, filter: Bytes)
      requires s < |offsets|
    {
      offsets[s] <= LimitOf(offsets, s, |data|) <= |data| && data[offsets[s]..LimitOf(offsets, s, |data|)] == filter
    }

    static lemma AppendSlice(data: Bytes, offsets: seq<nat>, filter: Bytes, s: nat)
      requires s < |offsets| ==> offsets[s] <= LimitOf(offsets, s, |data|) <= |data|
      requires s <= |offsets|
      ensures s < |offsets| ==> Slice(data + filter, offsets + [|data|], s, data[offsets[s]..LimitOf(offsets, s, |data|)])
      ensures s == |offsets| ==> Slice(data + filter, offsets + [|data|], s, filter)
    {
      if s < |offsets| {
        assert LimitOf(offsets + [|data|], s, |data + filter|) == LimitOf(offsets, s, |data|);
      }
    }

    /** A filter added at the end leaves the earlier ones as they were. */
    lemma AppendFilter(data: Bytes, offsets: seq<nat>, slots: seq<seq<Bytes>>, ks: seq<Bytes>, filter: Bytes)
      requires FiltersExact(policy, data, offsets, slots) && FilterFor(policy, filter, ks)
      ensures FiltersExact(policy, data + filter, offsets + [|data|], slots + [ks])
    {
      var d, o, t := data + filter, offsets + [|data|], slots + [ks];
      forall s: nat | s < |o|
        ensures o[s] <= LimitOf(o, s, |d|) <= |d| && FilterFor(policy, d[o[s]..LimitOf(o, s, |d|)], t[s])
      {
        hide FilterFor, LimitOf;
        AppendSlice(data, offsets, filter, s);
        if s < |offsets| {
          assert FilterFor(policy, data[offsets[s]..LimitOf(offsets, s, |data|)], slots[s]);
        }
      }
      forall s: nat, key | s < |t| && key in t[s]
        ensures o[s] <= LimitOf(o, s, |d|) <= |d| && Matches(d[o[s]..LimitOf(o, s, |d|)], policy.hash(key))
      {
        hide Matches, LimitOf, OnlyProbes;
        assert FilterFor(policy, d[o[s]..LimitOf(o, s, |d|)], t[s]);
      }
    }

    /** The filter block; every key ever added is in some slot. */
    method Finish() returns (contents: Bytes)
      requires Valid()
      modifies this
      ensures Valid() && pending == []
      ensures slots == if old(pending) == [] then old(slots) else old(slots) + [old(pending)]
      ensures |result| < WORD ==> IsFilterBlock(contents, result, filterOffsets)
    {
      hide Flatten, FilterBlockBytes, PutFixed32, OffsetBytes, FilterFor, Matches;
      if start != [] {
        GenerateFilter();
      }
      OffsetsBounded(result, filterOffsets, slots);
      contents := AppendOffsets();
      contents := contents + PutFixed32(|result| % WORD);
      contents := contents + [FILTER_BASE_LG];
      Assembled(result, filterOffsets);
    }

    static lemma Assembled(body: Bytes, offsets: seq<nat>)
      ensures FilterBlockBytes(body, offsets) == body + OffsetBytes(offsets) + PutFixed32(|body| % WORD) + [FILTER_BASE_LG]
    {
    }

    lemma OffsetsBounded(data: Bytes, offsets: seq<nat>, slots: seq<seq<Bytes>>)
      requires FiltersOk(data, offsets, slots, policy.hash)
      ensures forall s :: 0 <= s < |offsets| ==> offsets[s] <= |data|
    {
      forall s | 0 <= s < |offsets| ensures offsets[s] <= |data| {
        assert offsets[s] <= LimitOf(offsets, s, |data|) <= |data|;
      }
    }

    method AppendOffsets() returns (contents: Bytes)
      ensures contents == result + OffsetBytes(filterOffsets)
    {
      contents := result;
      for i := 0 to |filterOffsets|
        invariant contents == result + OffsetBytes(filterOffsets[..i])
      {
        assert filterOffsets[..i + 1][..i] == filterOffsets[..i];
        contents := contents + PutFixed32(filterOffsets[i] % WORD);
      }
      assert filterOffsets[..|filterOffsets|] == filterOffsets;
    }
  }

  class FilterBlockReader {
    const policy: BloomFilterPolicy
    var data: Bytes
    var offset: nat
    var num: nat
    var baseLg: nat

    /** Contents that cannot be a filter block leave the reader with no filters. */
    constructor (policy: BloomFilterPolicy, contents: Bytes)
      ensures this.policy == policy && data == contents
      ensures num > 0 ==> offset + 4 * num + 4 <= |data|
      ensures forall body, offsets :: IsFilterBlock(contents, body, offsets) ==> offset == |body| && num == |offsets| && baseLg == 11
    {
      this.policy, data, offset, num, baseLg := policy, contents, 0, 0, 0;
      new;
      hide FilterBlockBytes, GetFixed32;
      var n := |contents|;
      forall body, offsets | IsFilterBlock(contents, body, offsets)
        ensures n >= 5 && contents[n - 1] == 11 && GetFixed32(contents[n - 5..]) == |body| && (n - 5 - |body|) / 4 == |offsets|
      {
        ReadsTrailer(contents, body, offsets);
      }
      if n < 5 {
        return;
      }
      baseLg := contents[n - 1] as nat;
      var lastWord := GetFixed32(contents[n - 5..]);
      if lastWord > n - 5 {
        return;
      }
      offset := lastWord;
      num := (n - 5 - lastWord) / 4;
    }

    static lemma ReadsTrailer(c: Bytes, body: Bytes, offsets: seq<nat>)
      requires IsFilterBlock(c, body, offsets)
      ensures |c| == |body| + 4 * |offsets| + 5 && c[|c| - 1] == 11 && GetFixed32(c[|c| - 5..]) == |body|
    {
      hide PutFixed32, GetFixed32, OffsetBytes;
      FixedNatRoundTrip(|body|, [FILTER_BASE_LG]);
      assert c[|c| - 5..] == PutFixed32(|body|) + [FILTER_BASE_LG];
    }

    static function TwoTo(n: nat): (p: nat)
      ensures p > 0
    {
      if n == 0 then 1 else 2 * TwoTo(n - 1)
    }

    /** The reader is open on this filter block. */
    ghost predicate Reads(body: Bytes, offsets: seq<nat>, slots: seq<seq<Bytes>>)
      reads this
    {
      && IsFilterBlock(data, body, offsets) && FiltersOk(body, offsets, slots, policy.hash)
      && offset == |body| && num == |offsets| && baseLg == 11
    }

    /** The verdict of the filter that covers the block's offset, and yes where there is none. So a key
        in the slot of the block's offset is never denied. */
    method KeyMayMatch(blockOffset: nat, key: Bytes, ghost body: Bytes, ghost offsets: seq<nat>, ghost slots: seq<seq<Bytes>>) returns (r: bool)
      requires num > 0 ==> offset + 4 * num + 4 <= |data|
      ensures Reads(body, offsets, slots) && Slot(blockOffset) < |slots| && key in slots[Slot(blockOffset)] ==> r
      ensures Reads(body, offsets, slots) && Slot(blockOffset) < |offsets| ==>
                (r <==> Matches(body[offsets[Slot(blockOffset)]..LimitOf(offsets, Slot(blockOffset), |body|)], policy.hash(key)))
      ensures blockOffset >= FILTER_BASE * num && baseLg == 11 ==> r
    {
      hide Matches, OffsetBytes, GetFixed32, PutFixed32, FilterBlockBytes;
      assert TwoTo(11) == 2048;
      var index := blockOffset / TwoTo(baseLg);
      if index < num {
        var start := GetFixed32(data[offset + 4 * index..]);
        var limit := GetFixed32(data[offset + 4 * index + 4..]);
        if Reads(body, offsets, slots) {
          ReadsOffsets(data, body, offsets, index);
        }
        if start <= limit && limit <= offset {
          r := policy.KeyMayMatch(key, data[start..limit]);
          if Reads(body, offsets, slots) {
            SliceOfSlice(data, 0, |body|, start, limit);
          }
          return;
        } else if start == limit {
          return false;
        }
      }
      return true;
    }

    static lemma ReadsOffsets(c: Bytes, body: Bytes, offsets: seq<nat>, s: nat)
      requires IsFilterBlock(c, body, offsets) && s < |offsets|
      ensures |c| == |body| + 4 * |offsets| + 5
      ensures GetFixed32(c[|body| + 4 * s..]) == offsets[s]
      ensures GetFixed32(c[|body| + 4 * s + 4..]) == LimitOf(offsets, s, |body|)
      ensures c[..|body|] == body
    {
      hide PutFixed32, GetFixed32, OffsetBytes;
      var ob := OffsetBytes(offsets);
      assert c[|body|..|body| + |ob|] == ob;
      OffsetAt(offsets, s);
      assert offsets[s] % WORD == offsets[s];
      WordAt(c, |body|, ob, s, offsets[s]);
      if s + 1 < |offsets| {
        OffsetAt(offsets, s + 1);
        assert offsets[s + 1] % WORD == offsets[s + 1];
        WordAt(c, |body|, ob, s + 1, offsets[s + 1]);
      } else {
        var tail := c[|body| + 4 * s + 4..];
        assert tail == PutFixed32(|body|) + [FILTER_BASE_LG];
        FixedNatRoundTrip(|body|, [FILTER_BASE_LG]);
      }
    }

    /** Word s of the offset array. */
    static lemma WordAt(c: Bytes, base: nat, ob: Bytes, s: nat, n: nat)
      requires 4 * s + 4 <= |ob| && base + |ob| <= |c| && c[base..base + |ob|] == ob
      requires n < WORD && ob[4 * s..4 * s + 4] == PutFixed32(n)
      ensures GetFixed32(c[base + 4 * s..]) == n
    {
      hide PutFixed32, GetFixed32;
      SliceOfSlice(c, base, base + |ob|, 4 * s, 4 * s + 4);
      FirstWord(c, base + 4 * s, n);
    }

    static lemma FirstWord(c: Bytes, p: nat, n: nat)
      requires n < WORD && p + 4 <= |c| && c[p..p + 4] == PutFixed32(n)
      ensures GetFixed32(c[p..]) == n
    {
      hide PutFixed32, GetFixed32;
      var tail := c[p + 4..];
      assert c[p..] == c[p..p + 4] + tail;
      FixedNatRoundTrip(n, tail);
    }
  }
}
