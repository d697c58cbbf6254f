/** Bloom filters and the filter block of a table (util/bloom.cc, table/filter_block.cc). */
module Filters {
  import opened Coding

  type Hash = Bytes -> nat

  // ---------- bits in bytes ----------

  function Mask(i: nat): bv8
    requires i < 8
  {
    if i == 0 then 1 else if i == 1 then 2 else if i == 2 then 4 else if i == 3 then 8
    else if i == 4 then 16 else if i == 5 then 32 else if i == 6 then 64 else 128
  }

  predicate TestBit(b: Byte, i: nat)
    requires i < 8
  {
    Bits(b) & Mask(i) != 0
  }

  function SetBit(b: Byte, i: nat): Byte
    requires i < 8
  {
    OfBits(Bits(b) | Mask(i))
  }

  lemma OrKeeps(b: bv8, m: bv8, n: bv8)
    ensures b & n != 0 ==> (b | m) & n != 0
    ensures m != 0 ==> (b | m) & m != 0
    ensures m & n == 0 && b & n == 0 ==> (b | m) & n == 0
  {
  }

  /** Setting a bit sets it and leaves the others. */
  lemma SetBitSets(b: Byte, i: nat, j: nat)
    requires i < 8 && j < 8
    ensures TestBit(SetBit(b, i), i)
    ensures j != i ==> TestBit(SetBit(b, i), j) == TestBit(b, j)
  {
    BitsOfBits(Bits(b) | Mask(i));
    hide Bits, OfBits;
    OrKeeps(Bits(b), Mask(i), Mask(j));
  }

  /** Bit i is the one worth two to the i. */
  lemma BitWeights(b: Byte)
    ensures TestBit(b, 0) <==> b as nat % 2 == 1
    ensures TestBit(b, 1) <==> b as nat / 2 % 2 == 1
    ensures TestBit(b, 2) <==> b as nat / 4 % 2 == 1
    ensures TestBit(b, 3) <==> b as nat / 8 % 2 == 1
    ensures TestBit(b, 4) <==> b as nat / 16 % 2 == 1
    ensures TestBit(b, 5) <==> b as nat / 32 % 2 == 1
    ensures TestBit(b, 6) <==> b as nat / 64 % 2 == 1
    ensures TestBit(b, 7) <==> b as nat / 128 == 1
  {
  }

  predicate BitOn(bits: Bytes, p: nat)
    requires p < 8 * |bits|
  {
    TestBit(bits[p / 8], p % 8)
  }

  lemma BitIs(bits: Bytes, p: nat)
    requires p < 8 * |bits|
    ensures p / 8 < |bits| && BitOn(bits, p) == TestBit(bits[p / 8], p % 8)
  {
  }

  // ---------- the Bloom filter ----------

  /** Rotate right by 17 bits. */
  function Delta(h: nat): nat {
    h / 131072 + h % 131072 * 32768
  }

  /** The j-th hash of a key, by double hashing. */
  function Probe(h: nat, j: nat): nat {
    if j == 0 then h else (Probe(h, j - 1) + Delta(h)) % WORD
  }

  /** A 32-bit word rotated right by 17: its upper 15 bits become the lower ones, its lower 17 the upper
      ones. */
  lemma DeltaRotates(upper: nat, lower: nat)
    requires upper < 0x8000 && lower < 0x2_0000
    ensures Delta(upper * 0x2_0000 + lower) == lower * 0x8000 + upper
  {
  }

  /** Double hashing: probe j lies j deltas past the hash, in 32 bits. */
  lemma {:induction false} ProbeIsMultiple(h: nat, j: nat)
    requires h < WORD
    ensures Probe(h, j) == (h + j * Delta(h)) % WORD
  {
    if j > 0 {
      ProbeIsMultiple(h, j - 1);
      AddBeforeCut(h + (j - 1) * Delta(h), Delta(h));
      assert h + (j - 1) * Delta(h) + Delta(h) == h + j * Delta(h);
    }
  }

  lemma AddBeforeCut(a: nat, b: nat)
    ensures (a % WORD + b) % WORD == (a + b) % WORD
  {
    assert a + b == a % WORD + b + WORD * (a / WORD);
  }

  /** Where a probe falls in a bitmap. */
  function Position(h: nat, bytes: nat): (p: nat)
    requires bytes > 0
    ensures p < 8 * bytes
  {
    h % (8 * bytes)
  }

  /** All probes of a hash are set. */
  ghost predicate ProbesOn(bits: Bytes, h: nat, k: nat)
    requires |bits| > 0
  {
    forall j :: 0 <= j < k ==> BitOn(bits, Position(Probe(h, j), |bits|))
  }

  /** The verdict on a filter: too short matches nothing, an unknown encoding matches everything. */
  ghost predicate Matches(filter: Bytes, h: nat) {
    |filter| >= 2 && (filter[|filter| - 1] > 30 || ProbesOn(filter[..|filter| - 1], h, filter[|filter| - 1] as nat))
  }

  /** A bit is a probe of one of the keys. */
  ghost predicate Probed(keys: seq<Bytes>, hash: Hash, k: nat, p: nat, bytes: nat)
    requires bytes > 0
  {
    exists a :: 0 <= a < |keys| && ProbeOf(hash(keys[a]), k, p, bytes)
  }

  ghost predicate ProbeOf(h: nat, k: nat, p: nat, bytes: nat)
    requires bytes > 0
  {
    exists j :: 0 <= j < k && p == Position(Probe(h, j), bytes)
  }

  ghost predicate OnlyProbes(bitmap: Bytes, keys: seq<Bytes>, hash: Hash, k: nat) {
    forall p :: 0 <= p < 8 * |bitmap| && BitOn(bitmap, p) ==> Probed(keys, hash, k, p, |bitmap|)
  }

  lemma AllOff(bits: Bytes)
    requires forall i :: 0 <= i < |bits| ==> bits[i] == 0
    ensures forall p :: 0 <= p < 8 * |bits| ==> !BitOn(bits, p)
  {
    forall p | 0 <= p < 8 * |bits| ensures !BitOn(bits, p) {
      NoBitOfZero(p % 8);
    }
  }

  lemma NoBitOfZero(i: nat)
    requires i < 8
    ensures !TestBit(0, i)
  {
  }

  class BloomFilterPolicy {
    const bitsPerKey: nat
    const k: nat
    const hash: Hash

    ghost predicate Valid() {
      1 <= k <= 30
    }

    /** `k` stands for the bits per key times 0.69, rounded down, kept between 1 and 30. */
    constructor (bitsPerKey: nat, probes: nat, hash: Hash)
      ensures Valid() && this.bitsPerKey == bitsPerKey && this.hash == hash
      ensures if probes < 1 then k == 1 else if probes > 30 then k == 30 else k == probes
    {
      this.bitsPerKey, this.hash := bitsPerKey, hash;
      k := if probes < 1 then 1 else if probes > 30 then 30 else probes;
    }

    /** The filter of these keys: it matches every one of them, with the bits of their probes and no
        others: as many bits as the keys are to have, rounded up to bytes, and then k. */
    ghost predicate IsFilterOf(filter: Bytes, keys: seq<Bytes>) {
      && |filter| >= 9 && filter[|filter| - 1] as nat == k
      && (forall key :: key in keys ==> Matches(filter, hash(key)))
      && (var wanted, bits := |keys| * bitsPerKey, 8 * (|filter| - 1);
          if wanted < 64 then bits == 64 else wanted <= bits < wanted + 8)
      && OnlyProbes(filter[..|filter| - 1], keys, hash, k)
    }

    /** Appends a filter that matches every one of the keys, with the bits of their probes and no
        others. */
    method CreateFilter(keys: seq<Bytes>, dst: Bytes) returns (r: Bytes, ghost filter: Bytes)
      requires Valid()
      ensures r == dst + filter && IsFilterOf(filter, keys)
    {
      var bits := |keys| * bitsPerKey;
      if bits < 64 {
        bits := 64;
      }
      var bytes := (bits + 7) / 8;
      bits := bytes * 8;
      var bitmap: Bytes := seq(bytes, _ => 0);
      AllOff(bitmap);
      for i := 0 to |keys|
        invariant |bitmap| == bytes
        invariant forall a :: 0 <= a < i ==> ProbesOn(bitmap, hash(keys[a]), k)
        invariant OnlyProbes(bitmap, keys[..i], hash, k)
      {
        hide BitOn, Probed, ProbesOn, Matches;
        ghost var was := bitmap;
        bitmap := AddKey(bitmap, keys[i], keys[..i]);
        forall p | 0 <= p < 8 * bytes && BitOn(bitmap, p) ensures Probed(keys[..i + 1], hash, k, p, bytes) {
          ProbedNext(keys, i, p, bytes, BitOn(was, p));
        }
      }
      assert keys[..|keys|] == keys;
      filter := bitmap + [k as Byte];
      assert filter[..|filter| - 1] == bitmap;
      forall key | key in keys ensures Matches(filter, hash(key)) {
        var a :| 0 <= a < |keys| && keys[a] == key;
      }
      r := dst + bitmap + [k as Byte];
      assert dst + bitmap + [k as Byte] == dst + filter;
      assert r[|dst|..] == filter;
    }

    lemma ProbedNext(keys: seq<Bytes>, i: nat, p: nat, bytes: nat, before: bool)
      requires i < |keys| && bytes > 0
      requires if before then Probed(keys[..i], hash, k, p, bytes) else ProbeOf(hash(keys[i]), k, p, bytes)
      ensures Probed(keys[..i + 1], hash, k, p, bytes)
    {
      hide ProbeOf;
      if before {
        var a :| 0 <= a < i && ProbeOf(hash(keys[..i][a]), k, p, bytes);
        assert keys[..i + 1][a] == keys[..i][a];
      } else {
        assert keys[..i + 1][i] == keys[i];
      }
    }

    method AddKey(bitmap: Bytes, key: Bytes, ghost before: seq<Bytes>) returns (r: Bytes)
      requires Valid() && |bitmap| > 0
      requires forall a :: 0 <= a < |before| ==> ProbesOn(bitmap, hash(before[a]), k)
      ensures |r| == |bitmap| && ProbesOn(r, hash(key), k)
      ensures forall a :: 0 <= a < |before| ==> ProbesOn(r, hash(before[a]), k)
      ensures forall q :: 0 <= q < 8 * |bitmap| && BitOn(r, q) && !BitOn(bitmap, q) ==> ProbeOf(hash(key), k, q, |bitmap|)
    {
      hide BitOn, Position;
      r := bitmap;
      var h, j := hash(key), 0;
      var delta := Delta(h);
      while j < k
        invariant j <= k && |r| == |bitmap| && h == Probe(hash(key), j)
        invariant ProbesOn(r, hash(key), j)
        invariant forall a :: 0 <= a < |before| ==> ProbesOn(r, hash(before[a]), k)
        invariant forall q :: 0 <= q < 8 * |bitmap| && BitOn(r, q) && !BitOn(bitmap, q) ==> ProbeOf(hash(key), j, q, |bitmap|)
      {
        var p := Position(h, |r|);
        ghost var was := r;
        r := r[p / 8 := SetBit(r[p / 8], p % 8)];
        BitsKept(was, p);
        h := (h + delta) % WORD;
        j := j + 1;
      }
    }

    lemma BitsKept(bits: Bytes, p: nat)
      requires p < 8 * |bits|
      ensures var bits' := bits[p / 8 := SetBit(bits[p / 8], p % 8)];
              BitOn(bits', p) && forall q :: 0 <= q < 8 * |bits| && q != p ==> BitOn(bits', q) == BitOn(bits, q)
    {
      hide TestBit, SetBit;
      var bits' := bits[p / 8 := SetBit(bits[p / 8], p % 8)];
      SetBitSets(bits[p / 8], p % 8, 0);
      forall q | 0 <= q < 8 * |bits| && q != p ensures BitOn(bits', q) == BitOn(bits, q) {
        if q / 8 == p / 8 {
          SetBitSets(bits[p / 8], p % 8, q % 8);
        }
      }
    }

    method KeyMayMatch(key: Bytes, filter: Bytes) returns (r: bool)
      ensures r <==> Matches(filter, hash(key))
    {
      if |filter| < 2 {
        return false;
      }
      var bitmap := filter[..|filter| - 1];
      var probes := filter[|filter| - 1] as nat;
      if probes > 30 {
        return true;
      }
      hide TestBit, Delta, Position, BitOn;
      var h, j := hash(key), 0;
      var delta := Delta(h);
      while j < probes
        invariant j <= probes && h == Probe(hash(key), j)
        invariant ProbesOn(bitmap, hash(key), j)
      {
        var p := Position(h, |bitmap|);
        BitIs(bitmap, p);
        if !TestBit(bitmap[p / 8], p % 8) {
          return false;
        }
        h := (h + delta) % WORD;
        j := j + 1;
      }
      return true;
    }
  }
}
