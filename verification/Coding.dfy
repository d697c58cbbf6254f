/** Fixed-width integers as bytes, little endian (util/coding.h, util/coding.cc). */
module Coding {
  newtype Byte = x: int | 0 <= x < 256
  type Bytes = seq<Byte>

  function Bits(b: Byte): bv8 {
    b as bv8
  }

  function OfBits(v: bv8): Byte {
    v as Byte
  }

  lemma BitsOfBits(v: bv8)
    ensures Bits(OfBits(v)) == v
  {
  }

  function EncodeFixed32(v: bv32): (b: Bytes)
    ensures |b| == 4
  {
    [OfBits((v & 0xff) as bv8), OfBits(((v >> 8) & 0xff) as bv8), OfBits(((v >> 16) & 0xff) as bv8), OfBits((v >> 24) as bv8)]
  }

  function Assemble(b0: bv8, b1: bv8, b2: bv8, b3: bv8): bv32 {
    (b0 as bv32) | ((b1 as bv32) << 8) | ((b2 as bv32) << 16) | ((b3 as bv32) << 24)
  }

  function DecodeFixed32(b: Bytes): bv32
    requires |b| >= 4
  {
    Assemble(Bits(b[0]), Bits(b[1]), Bits(b[2]), Bits(b[3]))
  }

  lemma Fixed32RoundTrip(v: bv32)
    ensures DecodeFixed32(EncodeFixed32(v)) == v
  {
    BitsOfBits((v & 0xff) as bv8);
    BitsOfBits(((v >> 8) & 0xff) as bv8);
    BitsOfBits(((v >> 16) & 0xff) as bv8);
    BitsOfBits((v >> 24) as bv8);
    hide Bits, OfBits;
  }

  lemma SliceOfSlice(c: Bytes, lo: nat, hi: nat, a: nat, b: nat)
    requires lo <= hi <= |c| && a <= b <= hi - lo
    ensures c[lo..hi][a..b] == c[lo + a..lo + b]
  {
    var x, y := c[lo..hi][a..b], c[lo + a..lo + b];
    assert |x| == |y| && forall k :: 0 <= k < |x| ==> x[k] == y[k];
  }

  // ---------- numbers in four bytes ----------

  const WORD: nat := 0x1_0000_0000
  const DWORD: nat := 0x1_0000_0000_0000_0000

  function PutFixed32(n: nat): (b: Bytes)
    requires n < WORD
    ensures |b| == 4
  {
    [(n % 256) as Byte, (n / 256 % 256) as Byte, (n / 65536 % 256) as Byte, (n / 16777216) as Byte]
  }

  function GetFixed32(b: Bytes): (n: nat)
    requires |b| >= 4
    ensures n < WORD
  {
    b[0] as nat + 256 * (b[1] as nat) + 65536 * (b[2] as nat) + 16777216 * (b[3] as nat)
  }

  lemma FixedNatRoundTrip(n: nat, rest: Bytes)
    requires n < WORD
    ensures GetFixed32(PutFixed32(n) + rest) == n
  {
    var b := PutFixed32(n) + rest;
    FourBytes(n);
    assert b[0] == PutFixed32(n)[0] && b[1] == PutFixed32(n)[1] && b[2] == PutFixed32(n)[2] && b[3] == PutFixed32(n)[3];
  }

  lemma FourBytes(n: nat)
    requires n < WORD
    ensures n % 256 + 256 * (n / 256 % 256) + 65536 * (n / 65536 % 256) + 16777216 * (n / 16777216) == n
  {
    var q, r, s := n / 256, n / 65536, n / 16777216;
    assert q / 256 == r && r / 256 == s;
  }

  function PutFixed64(n: nat): (b: Bytes)
    requires n < DWORD
    ensures |b| == 8
  {
    PutFixed32(n % WORD) + PutFixed32(n / WORD)
  }

  function GetFixed64(b: Bytes): (n: nat)
    requires |b| >= 8
    ensures n < DWORD
  {
    GetFixed32(b) + WORD * GetFixed32(b[4..])
  }

  lemma Fixed64RoundTrip(n: nat, rest: Bytes)
    requires n < DWORD
    ensures GetFixed64(PutFixed64(n) + rest) == n
  {
    var b := PutFixed64(n) + rest;
    var low, high := PutFixed32(n % WORD), PutFixed32(n / WORD);
    assert b == low + (high + rest);
    FixedNatRoundTrip(n % WORD, high + rest);
    assert b[4..] == high + rest;
    FixedNatRoundTrip(n / WORD, rest);
  }

  // ---------- varints ----------

  function Power128(k: nat): nat {
    if k == 0 then 1 else 128 * Power128(k - 1)
  }

  /** Seven bits a byte, least significant first; the top bit says that more follow. */
  function PutVarint(n: nat): (b: Bytes)
    ensures |b| > 0
  {
    if n < 128 then [n as Byte] else [(n % 128 + 128) as Byte] + PutVarint(n / 128)
  }

  /** Least significant byte, and least significant seven bits, first. */
  lemma NumbersInBytes()
    ensures PutFixed32(0x04030201) == [1, 2, 3, 4] && EncodeFixed32(0x04030201) == [1, 2, 3, 4]
    ensures PutFixed64(0x0807060504030201) == [1, 2, 3, 4, 5, 6, 7, 8]
    ensures PutVarint(127) == [127] && PutVarint(128) == [0x80, 1] && PutVarint(300) == [0xac, 2]
  {
    assert 0x0807060504030201 % WORD == 0x04030201 && 0x0807060504030201 / WORD == 0x08070605;
    assert PutVarint(300 / 128) == [2];
  }

  /** Seven bits of the number fit into each byte. */
  lemma {:induction false} VarintLength(n: nat, k: nat)
    requires k > 0
    ensures |PutVarint(n)| <= k <==> n < Power128(k)
  {
    assert Power128(1) == 128;
    if k > 1 {
      VarintLength(n / 128, k - 1);
    }
  }

  datatype Varint = Malformed | Varint(value: nat, length: nat)

  /** At most k bytes are looked at. */
  function GetVarint(b: Bytes, k: nat): (v: Varint)
    ensures v.Varint? ==> 0 < v.length <= |b| && v.length <= k
  {
    if k == 0 || b == [] then Malformed
    else if b[0] < 128 then Varint(b[0] as nat, 1)
    else
      match GetVarint(b[1..], k - 1)
      case Malformed => Malformed
      case Varint(n, l) => Varint(b[0] as nat - 128 + 128 * n, l + 1)
  }

  /** What follows a varint does not matter, and a number of up to 7k bits needs at most k bytes. */
  lemma {:induction false} VarintRoundTrip(n: nat, k: nat, rest: Bytes)
    requires 0 < k && n < Power128(k)
    ensures GetVarint(PutVarint(n) + rest, k) == Varint(n, |PutVarint(n)|)
  {
    if n >= 128 {
      var b := PutVarint(n) + rest;
      assert b[1..] == PutVarint(n / 128) + rest && b[0] == (n % 128 + 128) as Byte;
      VarintRoundTrip(n / 128, k - 1, rest);
    }
  }

  /** EncodeVarint32: one branch for each length. */
  method EncodeVarint32(v: nat) returns (b: Bytes)
    requires v < WORD
    ensures b == PutVarint(v)
  {
    hide PutVarint;
    Shifts(v);
    var v1, v2, v3, v4 := v / 128, v / 16384, v / 2097152, v / 268435456;
    if v < 128 {
      b := [v as Byte];
      PutLast(v);
    } else if v < 16384 {
      b := [More(v), v1 as Byte];
      PutMore(v);
      PutLast(v1);
    } else if v < 2097152 {
      b := [More(v), More(v1), v2 as Byte];
      PutMore(v);
      PutMore(v1);
      PutLast(v2);
    } else if v < 268435456 {
      b := [More(v), More(v1), More(v2), v3 as Byte];
      PutMore(v);
      PutMore(v1);
      PutMore(v2);
      PutLast(v3);
    } else {
      b := [More(v), More(v1), More(v2), More(v3), v4 as Byte];
      PutMore(v);
      PutMore(v1);
      PutMore(v2);
      PutMore(v3);
      PutLast(v4);
    }
  }

  /** The low seven bits with the continuation bit set. */
  function More(n: nat): Byte {
    (n % 128 + 128) as Byte
  }

  lemma PutLast(n: nat)
    requires n < 128
    ensures PutVarint(n) == [n as Byte]
  {
  }

  lemma PutMore(n: nat)
    requires n >= 128
    ensures PutVarint(n) == [More(n)] + PutVarint(n / 128)
  {
  }

  lemma Shifts(v: nat)
    ensures v / 128 / 128 == v / 16384
    ensures v / 16384 / 128 == v / 2097152
    ensures v / 2097152 / 128 == v / 268435456
  {
  }

  function Shifted(digit: nat, place: nat): nat {
    digit * place
  }

  /** The decoding loop: `place` is the weight of the next seven bits. */
  function Accumulate(b: Bytes, k: nat, result: nat, place: nat): Varint {
    if k == 0 || b == [] then Malformed
    else if b[0] < 128 then Varint(result + Shifted(b[0] as nat, place), 1)
    else
      match Accumulate(b[1..], k - 1, result + Shifted(b[0] as nat - 128, place), 128 * place)
      case Malformed => Malformed
      case Varint(n, l) => Varint(n, l + 1)
  }

  lemma {:induction false} AccumulateIsGet(b: Bytes, k: nat, result: nat, place: nat)
    ensures Accumulate(b, k, result, place) ==
              match GetVarint(b, k)
              case Malformed => Malformed
              case Varint(n, l) => Varint(result + n * place, l)
    decreases k
  {
    if k > 0 && b != [] && b[0] >= 128 {
      var digit := b[0] as nat - 128;
      AccumulateIsGet(b[1..], k - 1, result + digit * place, 128 * place);
      if GetVarint(b[1..], k - 1).Varint? {
        Distribute(digit, GetVarint(b[1..], k - 1).value, place);
      }
    }
  }

  lemma Distribute(digit: nat, n: nat, place: nat)
    ensures digit * place + n * (128 * place) == (digit + 128 * n) * place
  {
  }

  /** GetVarint32Ptr: bytes are shifted into place until one ends the number; five at most. */
  method GetVarint32(b: Bytes) returns (v: Varint)
    ensures GetVarint(b, 5).Malformed? ==> v.Malformed?
    ensures GetVarint(b, 5).Varint? ==> v == Varint(GetVarint(b, 5).value % WORD, GetVarint(b, 5).length)
  {
    hide Shifted, GetVarint;
    var result: nat, i: nat, place: nat := 0, 0, 1;
    assert b[0..] == b;
    AccumulateIsGet(b, 5, 0, 1);
    while i < 5 && i < |b|
      invariant 0 <= i <= 5 && i <= |b|
      invariant match Accumulate(b[i..], 5 - i, result, place)
                case Malformed => GetVarint(b, 5).Malformed?
                case Varint(n, l) => GetVarint(b, 5) == Varint(n, l + i)
    {
      var byte := b[i] as nat;
      assert b[i..][1..] == b[i + 1..];
      if byte < 128 {
        return Varint((result + Shifted(byte, place)) % WORD, i + 1);
      }
      result := result + Shifted(byte - 128, place);
      place := 128 * place;
      i := i + 1;
    }
    return Malformed;
  }

  // ---------- consuming a slice ----------

  function LengthPrefixed(s: Bytes): Bytes {
    PutVarint(|s|) + s
  }

  datatype Read<T> = Bad | Got(value: T, rest: Bytes)

  /** A number of at most k bytes, cut to the width of its type. */
  function ReadVarint(b: Bytes, k: nat, bound: nat): (r: Read<nat>)
    requires bound > 0
    ensures r.Got? ==> |r.rest| < |b| && r.value < bound
  {
    match GetVarint(b, k)
    case Malformed => Bad
    case Varint(n, l) => Got(n % bound, b[l..])
  }

  function ReadPrefixed(b: Bytes): (r: Read<Bytes>)
    ensures r.Got? ==> |r.rest| < |b| && |r.value| < WORD
  {
    match ReadVarint(b, 5, WORD)
    case Bad => Bad
    case Got(n, t) => if |t| < n then Bad else Got(t[..n], t[n..])
  }

  lemma ReadVarintRoundTrip(m: nat, k: nat, bound: nat, tail: Bytes)
    requires (k == 5 && bound == WORD) || (k == 10 && bound == DWORD)
    requires m < bound
    ensures ReadVarint(PutVarint(m) + tail, k, bound) == Got(m, tail)
  {
    EnoughBytes();
    VarintRoundTrip(m, k, tail);
    assert (PutVarint(m) + tail)[|PutVarint(m)|..] == tail;
  }

  lemma ReadPrefixedRoundTrip(s: Bytes, tail: Bytes)
    requires |s| < WORD
    ensures ReadPrefixed(LengthPrefixed(s) + tail) == Got(s, tail)
  {
    assert LengthPrefixed(s) + tail == PutVarint(|s|) + (s + tail);
    ReadVarintRoundTrip(|s|, 5, WORD, s + tail);
    assert (s + tail)[..|s|] == s && (s + tail)[|s|..] == tail;
  }

  /** A cursor over the rest of the input, as the Get functions take it. */
  class Input {
    var rest: Bytes

    constructor (bytes: Bytes)
      ensures rest == bytes
    {
      rest := bytes;
    }

    method TakeVarint(k: nat, bound: nat) returns (ok: bool, n: nat)
      requires (k == 5 && bound == WORD) || (k == 10 && bound == DWORD)
      modifies this
      ensures match ReadVarint(old(rest), k, bound)
              case Bad => !ok && rest == old(rest)
              case Got(v, t) => ok && n == v && rest == t
    {
      var v := GetVarint(rest, k);
      if v.Malformed? {
        return false, 0;
      }
      rest := rest[v.length..];
      return true, v.value % bound;
    }

    method TakeLengthPrefixed() returns (ok: bool, s: Bytes)
      modifies this
      ensures |rest| <= |old(rest)|
      ensures match ReadPrefixed(old(rest)) case Bad => !ok case Got(v, t) => ok && s == v && rest == t
    {
      var n: nat;
      ok, n := TakeVarint(5, WORD);
      if !ok || |rest| < n {
        return false, [];
      }
      s := rest[..n];
      rest := rest[n..];
    }
  }

  lemma EnoughBytes()
    ensures Power128(5) > WORD && Power128(10) > DWORD
  {
    assert Power128(5) == 34359738368;
    assert Power128(10) == 34359738368 * 34359738368;
  }
}
