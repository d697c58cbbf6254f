/** The CRC-32C of section 12.1 of RFC 3720 and its table-driven form, four bytes at a time
    (util/crc32c.cc, util/crc32c.h). */
module Crc32c {
  import opened Coding

  /** The reflected polynomial. */
  const POLY: bv32 := 0x82f63b78

  // ---------- the definition, bit by bit ----------

  function BitStep(c: bv32): bv32 {
    (c >> 1) ^ (if c & 1 == 1 then POLY else 0)
  }

  function Xor(a: bv32, b: bv32): bv32 {
    a ^ b
  }

  /** The effect of n zero bits. */
  function Steps(c: bv32, n: nat): bv32
    decreases n
  {
    if n == 0 then c else Steps(BitStep(c), n - 1)
  }

  function Feed(l: bv32, b: bv8): bv32 {
    Steps(Xor(l, Up(b, 0)), 8)
  }

  function FeedAll(l: bv32, data: Bytes): bv32
    decreases |data|
  {
    if data == [] then l else FeedAll(Feed(l, Bits(data[0])), data[1..])
  }

  function Invert(crc: bv32): bv32 {
    crc ^ 0xffff_ffff
  }

  /** Extend: the CRC of A + data, given the CRC of A. */
  function Crc(crc: bv32, data: Bytes): bv32 {
    Invert(FeedAll(Invert(crc), data))
  }

  lemma {:induction false} FeedAllConcat(l: bv32, a: Bytes, b: Bytes)
    ensures FeedAll(l, a + b) == FeedAll(FeedAll(l, a), b)
    decreases |a|
  {
    hide Feed;
    if a == [] {
      assert a + b == b;
    } else {
      assert (a + b)[1..] == a[1..] + b;
      FeedAllConcat(Feed(l, Bits(a[0])), a[1..], b);
    }
  }

  /** Feeding a buffer in two pieces gives the CRC of the whole. */
  lemma CrcConcat(crc: bv32, a: Bytes, b: Bytes)
    ensures Crc(Crc(crc, a), b) == Crc(crc, a + b)
  {
    hide FeedAll, Invert;
    FeedAllConcat(Invert(crc), a, b);
    Inverted(FeedAll(Invert(crc), a));
  }

  lemma Inverted(f: bv32)
    ensures Invert(Invert(f)) == f
  {
  }

  // ---------- linearity over GF(2) ----------

  lemma XorExchange(a: bv32, p: bv32, b: bv32, q: bv32)
    ensures (a ^ p) ^ (b ^ q) == (a ^ b) ^ (p ^ q)
  {
  }

  lemma LowBits(a: bv32, b: bv32)
    ensures (a ^ b) >> 1 == (a >> 1) ^ (b >> 1)
    ensures (a ^ b) & 1 == (a & 1) ^ (b & 1)
    ensures a & 1 == 0 || a & 1 == 1
    ensures b & 1 == 0 || b & 1 == 1
  {
  }

  lemma BitStepXor(a: bv32, b: bv32)
    ensures BitStep(a ^ b) == BitStep(a) ^ BitStep(b)
  {
    LowBits(a, b);
    XorExchange(a >> 1, if a & 1 == 1 then POLY else 0, b >> 1, if b & 1 == 1 then POLY else 0);
  }

  lemma BitStepLinear(a: bv32, b: bv32)
    ensures BitStep(Xor(a, b)) == Xor(BitStep(a), BitStep(b))
  {
    hide BitStep;
    BitStepXor(a, b);
  }

  lemma {:induction false} StepsLinear(a: bv32, b: bv32, n: nat)
    ensures Steps(Xor(a, b), n) == Xor(Steps(a, n), Steps(b, n))
    decreases n
  {
    hide BitStep, Xor;
    if n > 0 {
      BitStepLinear(a, b);
      StepsLinear(BitStep(a), BitStep(b), n - 1);
    }
  }

  function Down(c: bv32): bv32 {
    c >> 8
  }

  predicate LowByteClear(c: bv32) {
    c & 0xff == 0
  }

  function Half(c: bv32): bv32 {
    c >> 1
  }

  predicate Even(c: bv32) {
    c & 1 == 0
  }

  /** A step halves an even word. */
  lemma HalfStep(c: bv32)
    requires Even(c)
    ensures BitStep(c) == Half(c)
  {
  }

  lemma EvenHalves(c: bv32)
    requires LowByteClear(c)
    ensures Even(c) && Even(Half(c)) && Even(Half(Half(c))) && Even(Half(Half(Half(c))))
    ensures var d := Half(Half(Half(Half(c))));
            Even(d) && Even(Half(d)) && Even(Half(Half(d))) && Even(Half(Half(Half(d))))
            && Half(Half(Half(Half(d)))) == Down(c)
  {
  }

  /** A word whose low byte is clear just shifts down by a byte. */
  lemma ByteShifts(c: bv32)
    requires LowByteClear(c)
    ensures Steps(c, 8) == Down(c)
  {
    hide BitStep, Half, Even, LowByteClear, Down;
    EvenHalves(c);
    var c1, c2, c3, c4 := Half(c), Half(Half(c)), Half(Half(Half(c))), Half(Half(Half(Half(c))));
    HalfStep(c);
    HalfStep(c1);
    HalfStep(c2);
    HalfStep(c3);
    var c5, c6, c7, c8 := Half(c4), Half(Half(c4)), Half(Half(Half(c4))), Half(Half(Half(Half(c4))));
    HalfStep(c4);
    HalfStep(c5);
    HalfStep(c6);
    HalfStep(c7);
    EightSteps(c, c1, c2, c3, c4, c5, c6, c7, c8);
  }

  lemma EightSteps(c0: bv32, c1: bv32, c2: bv32, c3: bv32, c4: bv32, c5: bv32, c6: bv32, c7: bv32, c8: bv32)
    requires BitStep(c0) == c1 && BitStep(c1) == c2 && BitStep(c2) == c3 && BitStep(c3) == c4
    requires BitStep(c4) == c5 && BitStep(c5) == c6 && BitStep(c6) == c7 && BitStep(c7) == c8
    ensures Steps(c0, 8) == c8
  {
    hide BitStep;
    assert Steps(c4, 4) == Steps(c5, 3) == Steps(c6, 2) == Steps(c7, 1) == Steps(c8, 0) == c8;
    assert Steps(c0, 8) == Steps(c1, 7) == Steps(c2, 6) == Steps(c3, 5) == Steps(c4, 4);
  }

  // ---------- the tables ----------

  /** Entry b of the table for distance k: byte b followed by k zero bytes. */
  function Table(k: nat, b: bv8): bv32 {
    if k == 0 then Steps(Up(b, 0), 8) else Steps(Table(k - 1, b), 8)
  }

  function LowByte(c: bv32): bv8 {
    (c & 0xff) as bv8
  }

  /** Byte b placed so many bytes up in a word. */
  function Up(b: bv8, bytes: nat): bv32 {
    match bytes
    case 0 => b as bv32
    case 1 => (b as bv32) << 8
    case 2 => (b as bv32) << 16
    case _ => (b as bv32) << 24
  }

  function HighBytes(c: bv32): bv32 {
    c & 0xffff_ff00
  }

  lemma SplitLow(c: bv32)
    ensures c == Xor(Up(LowByte(c), 0), HighBytes(c))
    ensures LowByteClear(HighBytes(c)) && Down(HighBytes(c)) == Down(c)
  {
  }

  /** One table look-up advances a byte. */
  lemma LookupIsByte(c: bv32)
    ensures Xor(Table(0, LowByte(c)), Down(c)) == Steps(c, 8)
  {
    hide LowByte, Up, Xor, HighBytes, LowByteClear, Down, Steps;
    SplitLow(c);
    StepsLinear(Up(LowByte(c), 0), HighBytes(c), 8);
    ByteShifts(HighBytes(c));
  }

  /** One byte: the lowest byte is looked up, and the rest comes down. */
  function Step1(l: bv32, b: bv8): bv32 {
    Xor(Table(0, LowByte(l) ^ b), Down(l))
  }

  lemma MixByte(l: bv32, b: bv8)
    ensures LowByte(Xor(l, Up(b, 0))) == LowByte(l) ^ b
    ensures Down(Xor(l, Up(b, 0))) == Down(l)
  {
  }

  lemma Step1IsFeed(l: bv32, b: bv8)
    ensures Step1(l, b) == Feed(l, b)
  {
    hide Table, LowByte, Steps, Xor, Up, Down;
    MixByte(l, b);
    LookupIsByte(Xor(l, Up(b, 0)));
  }

  /** Four bytes at once: each byte of the word is looked up in the table for its distance. */
  function Step4(l: bv32, word: bv32): bv32 {
    var c := Xor(l, word);
    Xor(Xor(Xor(Table(3, LowByte(c)), Table(2, LowByte(c >> 8))), Table(1, LowByte(c >> 16))), Table(0, LowByte(c >> 24)))
  }

  lemma UpShifts(b: bv8, bytes: nat)
    requires 1 <= bytes <= 3
    ensures LowByteClear(Up(b, bytes)) && Down(Up(b, bytes)) == Up(b, bytes - 1)
  {
  }

  /** A byte placed up in a word comes down one place in eight steps. */
  lemma UpComesDown(b: bv8, bytes: nat)
    requires 1 <= bytes <= 3
    ensures Steps(Up(b, bytes), 8) == Up(b, bytes - 1)
  {
    hide Up, Steps, Down, LowByteClear;
    UpShifts(b, bytes);
    ByteShifts(Up(b, bytes));
  }

  /** Four bytes of steps. */
  function Word(c: bv32): bv32 {
    Steps(Steps(Steps(Steps(c, 8), 8), 8), 8)
  }

  lemma WordLinear(a: bv32, b: bv32)
    ensures Word(Xor(a, b)) == Xor(Word(a), Word(b))
  {
    hide Steps, Xor;
    StepsLinear(a, b, 8);
    StepsLinear(Steps(a, 8), Steps(b, 8), 8);
    StepsLinear(Steps(Steps(a, 8), 8), Steps(Steps(b, 8), 8), 8);
    StepsLinear(Steps(Steps(Steps(a, 8), 8), 8), Steps(Steps(Steps(b, 8), 8), 8), 8);
  }

  /** Table 3 - k is what four bytes of steps make of a byte placed k up. */
  lemma TableIsWord(b: bv8)
    ensures Table(3, b) == Word(Up(b, 0)) && Table(2, b) == Word(Up(b, 1))
    ensures Table(1, b) == Word(Up(b, 2)) && Table(0, b) == Word(Up(b, 3))
  {
    hide Steps, Up;
    UpComesDown(b, 1);
    UpComesDown(b, 2);
    UpComesDown(b, 3);
    assert Table(1, b) == Steps(Table(0, b), 8) && Table(2, b) == Steps(Table(1, b), 8) && Table(3, b) == Steps(Table(2, b), 8);
  }

  lemma BytesOfWord(c: bv32)
    ensures c == Xor(Xor(Xor(Up(LowByte(c), 0), Up(LowByte(c >> 8), 1)), Up(LowByte(c >> 16), 2)), Up(LowByte(c >> 24), 3))
  {
  }

  lemma WordOfFour(w0: bv32, w1: bv32, w2: bv32, w3: bv32)
    ensures Word(Xor(Xor(Xor(w0, w1), w2), w3)) == Xor(Xor(Xor(Word(w0), Word(w1)), Word(w2)), Word(w3))
  {
    hide Word, Xor;
    WordLinear(Xor(Xor(w0, w1), w2), w3);
    WordLinear(Xor(w0, w1), w2);
    WordLinear(w0, w1);
  }

  lemma Step4IsWord(l: bv32, word: bv32)
    ensures Step4(l, word) == Word(Xor(l, word))
  {
    var c := Xor(l, word);
    Step4OfBytes(c, LowByte(c), LowByte(c >> 8), LowByte(c >> 16), LowByte(c >> 24)) by {
      BytesOfWord(c);
    }
    hide Word, Table, LowByte, Xor;
  }

  lemma Step4OfBytes(c: bv32, b0: bv8, b1: bv8, b2: bv8, b3: bv8)
    requires c == Xor(Xor(Xor(Up(b0, 0), Up(b1, 1)), Up(b2, 2)), Up(b3, 3))
    ensures Xor(Xor(Xor(Table(3, b0), Table(2, b1)), Table(1, b2)), Table(0, b3)) == Word(c)
  {
    hide Word, Table, Up, Xor;
    TableIsWord(b0);
    TableIsWord(b1);
    TableIsWord(b2);
    TableIsWord(b3);
    WordOfFour(Up(b0, 0), Up(b1, 1), Up(b2, 2), Up(b3, 3));
  }

  /** A word read from the stream, mixed into the register, is its bytes mixed in one by one. */
  lemma MixWord(l: bv32, b0: bv8, b1: bv8, b2: bv8, b3: bv8)
    ensures Xor(l, Assemble(b0, b1, b2, b3)) == Xor(Xor(Xor(Xor(l, Up(b0, 0)), Up(b1, 1)), Up(b2, 2)), Up(b3, 3))
  {
    hide Up, Assemble;
    AssembleIsXor(b0, b1, b2, b3);
    XorAssoc(l, Up(b0, 0), Up(b1, 1), Up(b2, 2), Up(b3, 3));
  }

  lemma AssembleIsXor(b0: bv8, b1: bv8, b2: bv8, b3: bv8)
    ensures Assemble(b0, b1, b2, b3) == Up(b0, 0) ^ Up(b1, 1) ^ Up(b2, 2) ^ Up(b3, 3)
  {
  }

  lemma XorAssoc(l: bv32, a: bv32, b: bv32, c: bv32, d: bv32)
    ensures Xor(l, a ^ b ^ c ^ d) == Xor(Xor(Xor(Xor(l, a), b), c), d)
  {
  }

  /** Feeding four bytes one at a time is four bytes of steps on the word they make: later bytes
      may be mixed in early, if they are placed higher. */
  lemma Feed4(l: bv32, b0: bv8, b1: bv8, b2: bv8, b3: bv8)
    ensures Feed(Feed(Feed(Feed(l, b0), b1), b2), b3) == Word(Xor(l, Assemble(b0, b1, b2, b3)))
  {
    hide Steps, Up, Xor, Assemble;
    MixWord(l, b0, b1, b2, b3);
    UpComesDown(b1, 1);
    UpComesDown(b2, 2);
    UpComesDown(b2, 1);
    UpComesDown(b3, 3);
    UpComesDown(b3, 2);
    UpComesDown(b3, 1);
    var x := Xor(l, Up(b0, 0));
    StepsLinear(Xor(Xor(x, Up(b1, 1)), Up(b2, 2)), Up(b3, 3), 8);
    StepsLinear(Xor(x, Up(b1, 1)), Up(b2, 2), 8);
    StepsLinear(x, Up(b1, 1), 8);
    var y := Xor(Steps(x, 8), Up(b1, 0));
    StepsLinear(Xor(y, Up(b2, 1)), Up(b3, 2), 8);
    StepsLinear(y, Up(b2, 1), 8);
    var z := Xor(Steps(y, 8), Up(b2, 0));
    StepsLinear(z, Up(b3, 1), 8);
  }

  // ---------- the fast form ----------

  lemma FeedAllNext(l: bv32, data: Bytes, i: nat)
    requires i < |data|
    ensures FeedAll(l, data[..i + 1]) == Feed(FeedAll(l, data[..i]), Bits(data[i]))
  {
    hide Feed;
    assert data[..i + 1] == data[..i] + [data[i]];
    FeedAllConcat(l, data[..i], [data[i]]);
    var f := FeedAll(l, data[..i]);
    assert [data[i]][1..] == [];
    assert FeedAll(f, [data[i]]) == FeedAll(Feed(f, Bits(data[i])), []);
  }

  lemma FeedAllNext4(l: bv32, data: Bytes, i: nat)
    requires i + 4 <= |data|
    ensures FeedAll(l, data[..i + 4]) == Step4(FeedAll(l, data[..i]), DecodeFixed32(data[i..]))
  {
    hide Feed, FeedAll, Step4, Word, Assemble, Bits, Xor;
    FeedAllNext(l, data, i);
    FeedAllNext(l, data, i + 1);
    FeedAllNext(l, data, i + 2);
    FeedAllNext(l, data, i + 3);
    Feed4(FeedAll(l, data[..i]), Bits(data[i]), Bits(data[i + 1]), Bits(data[i + 2]), Bits(data[i + 3]));
    assert DecodeFixed32(data[i..]) == Assemble(Bits(data[i]), Bits(data[i + 1]), Bits(data[i + 2]), Bits(data[i + 3]));
    Step4IsWord(FeedAll(l, data[..i]), DecodeFixed32(data[i..]));
  }

  /** Extend, for a buffer at any address: bytes up to alignment, then words, then the rest. */
  method Extend(crc: bv32, data: Bytes, address: nat) returns (r: bv32)
    ensures r == Crc(crc, data)
  {
    hide Feed, FeedAll, Step4, Step1, Invert, DecodeFixed32, Bits;
    var l := Invert(crc);
    ghost var l0 := l;
    assert FeedAll(l0, data[..0]) == l0 by { FeedNothing(l0); }
    var p := 0;
    var x := (address + 3) / 4 * 4 - address;
    if x <= |data| {
      while p != x
        invariant 0 <= p <= x && l == FeedAll(l0, data[..p])
      {
        l := Step1(l, Bits(data[p]));
        Step1IsFeed(FeedAll(l0, data[..p]), Bits(data[p]));
        FeedAllNext(l0, data, p);
        p := p + 1;
      }
    }
    while |data| - p >= 16
      invariant 0 <= p <= |data| && l == FeedAll(l0, data[..p])
      decreases |data| - p
    {
      FeedAllNext4(l0, data, p);
      FeedAllNext4(l0, data, p + 4);
      FeedAllNext4(l0, data, p + 8);
      FeedAllNext4(l0, data, p + 12);
      l := Step4(l, DecodeFixed32(data[p..]));
      l := Step4(l, DecodeFixed32(data[p + 4..]));
      l := Step4(l, DecodeFixed32(data[p + 8..]));
      l := Step4(l, DecodeFixed32(data[p + 12..]));
      p := p + 16;
    }
    while |data| - p >= 4
      invariant 0 <= p <= |data| && l == FeedAll(l0, data[..p])
    {
      FeedAllNext4(l0, data, p);
      l := Step4(l, DecodeFixed32(data[p..]));
      p := p + 4;
    }
    while p != |data|
      invariant 0 <= p <= |data| && l == FeedAll(l0, data[..p])
    {
      l := Step1(l, Bits(data[p]));
      Step1IsFeed(FeedAll(l0, data[..p]), Bits(data[p]));
      FeedAllNext(l0, data, p);
      p := p + 1;
    }
    assert data[..p] == data;
    r := Invert(l);
  }

  lemma FeedNothing(l: bv32)
    ensures forall data: Bytes :: |data| == 0 ==> FeedAll(l, data) == l
  {
  }

  // ---------- masking ----------

  const MASK_DELTA: bv32 := 0xa282_ead8

  function Mask(crc: bv32): bv32 {
    ((crc >> 15) | (crc << 17)) + MASK_DELTA
  }

  function Unmask(masked: bv32): bv32 {
    var rot := masked - MASK_DELTA;
    (rot >> 17) | (rot << 15)
  }

  /** Masking loses nothing, in either direction. */
  lemma MaskBijective(c: bv32)
    ensures Unmask(Mask(c)) == c && Mask(Unmask(c)) == c
  {
  }

  // ---------- known values ----------

  lemma FeedIs(l: bv32, b: bv8, c0: bv32, c1: bv32, c2: bv32, c3: bv32, c4: bv32, c5: bv32, c6: bv32, c7: bv32, c8: bv32)
    requires Xor(l, Up(b, 0)) == c0
    requires BitStep(c0) == c1 && BitStep(c1) == c2 && BitStep(c2) == c3 && BitStep(c3) == c4
    requires BitStep(c4) == c5 && BitStep(c5) == c6 && BitStep(c6) == c7 && BitStep(c7) == c8
    ensures Feed(l, b) == c8
  {
    hide BitStep, Xor, Up;
    EightSteps(c0, c1, c2, c3, c4, c5, c6, c7, c8);
  }

  lemma FeedDigits()
    ensures Feed(0xffffffff, 0x31) == 0x6f0a661c
    ensures Feed(0x6f0a661c, 0x32) == 0x8caa3b9f
    ensures Feed(0x8caa3b9f, 0x33) == 0xef84d04d
    ensures Feed(0xef84d04d, 0x34) == 0x9c50b11
    ensures Feed(0x9c50b11, 0x35) == 0xe72edcca
    ensures Feed(0xe72edcca, 0x36) == 0xbeca8e79
    ensures Feed(0xbeca8e79, 0x37) == 0xedbd6815
    ensures Feed(0xedbd6815, 0x38) == 0x9f787f65
    ensures Feed(0x9f787f65, 0x39) == 0x1cf96d7c
  {
    hide Feed;
    FeedIs(0xffffffff, 0x31, 0xffffffce, 0x7fffffe7, 0xbd09c48b, 0xdc72d93d, 0xeccf57e6, 0x7667abf3, 0xb9c5ee81, 0xde14cc38, 0x6f0a661c);
    FeedIs(0x6f0a661c, 0x32, 0x6f0a662e, 0x37853317, 0x9934a2f3, 0xce6c6a01, 0xe5c00e78, 0x72e0073c, 0x3970039e, 0x1cb801cf, 0x8caa3b9f);
    FeedIs(0x8caa3b9f, 0x33, 0x8caa3bac, 0x46551dd6, 0x232a8eeb, 0x93637c0d, 0xcb47857e, 0x65a3c2bf, 0xb027da27, 0xdae5d66b, 0xef84d04d);
    FeedIs(0xef84d04d, 0x34, 0xef84d079, 0xf5345344, 0x7a9a29a2, 0x3d4d14d1, 0x9c50b110, 0x4e285888, 0x27142c44, 0x138a1622, 0x9c50b11);
    FeedIs(0x9c50b11, 0x35, 0x9c50b24, 0x4e28592, 0x27142c9, 0x83ce9a1c, 0x41e74d0e, 0x20f3a687, 0x928fe83b, 0xcbb1cf65, 0xe72edcca);
    FeedIs(0xe72edcca, 0x36, 0xe72edcfc, 0x73976e7e, 0x39cbb73f, 0x9e13e0e7, 0xcdffcb0b, 0xe409defd, 0xf0f2d406, 0x78796a03, 0xbeca8e79);
    FeedIs(0xbeca8e79, 0x37, 0xbeca8e4e, 0x5f654727, 0xad4498eb, 0xd454770d, 0xe8dc00fe, 0x746e007f, 0xb8c13b47, 0xde96a6db, 0xedbd6815);
    FeedIs(0xedbd6815, 0x38, 0xedbd682d, 0xf4288f6e, 0x7a1447b7, 0xbffc18a3, 0xdd083729, 0xec7220ec, 0x76391076, 0x3b1c883b, 0x9f787f65);
    FeedIs(0x9f787f65, 0x39, 0x9f787f5c, 0x4fbc3fae, 0x27de1fd7, 0x91193493, 0xca7aa131, 0xe7cb6be0, 0x73e5b5f0, 0x39f2daf8, 0x1cf96d7c);
  }

  const DIGITS: Bytes := [0x31, 0x32, 0x33, 0x34, 0x35, 0x36, 0x37, 0x38, 0x39]

  /** The check value: the CRC-32C of the nine digits "123456789", and what a log record stores for it. */
  lemma CheckValue()
    ensures Crc(0, DIGITS) == 0xe3069283
    ensures Mask(0xe3069283) == 0xc78ab0e5
  {
    FeedDigits();
    DigitBits();
    var d := DIGITS;
    hide Feed, Bits;
    assert FeedAll(0xffffffff, d[0..]) == FeedAll(0x6f0a661c, d[1..]);
    assert FeedAll(0x6f0a661c, d[1..]) == FeedAll(0x8caa3b9f, d[2..]);
    assert FeedAll(0x8caa3b9f, d[2..]) == FeedAll(0xef84d04d, d[3..]);
    assert FeedAll(0xef84d04d, d[3..]) == FeedAll(0x9c50b11, d[4..]);
    assert FeedAll(0x9c50b11, d[4..]) == FeedAll(0xe72edcca, d[5..]);
    assert FeedAll(0xe72edcca, d[5..]) == FeedAll(0xbeca8e79, d[6..]);
    assert FeedAll(0xbeca8e79, d[6..]) == FeedAll(0xedbd6815, d[7..]);
    assert FeedAll(0xedbd6815, d[7..]) == FeedAll(0x9f787f65, d[8..]);
    assert FeedAll(0x9f787f65, d[8..]) == FeedAll(0x1cf96d7c, d[9..]);
    assert d[0..] == d && d[9..] == [];
  }

  lemma DigitBits()
    ensures Bits(DIGITS[0]) == 0x31
    ensures Bits(DIGITS[1]) == 0x32
    ensures Bits(DIGITS[2]) == 0x33
    ensures Bits(DIGITS[3]) == 0x34
    ensures Bits(DIGITS[4]) == 0x35
    ensures Bits(DIGITS[5]) == 0x36
    ensures Bits(DIGITS[6]) == 0x37
    ensures Bits(DIGITS[7]) == 0x38
    ensures Bits(DIGITS[8]) == 0x39
  {
  }

  /** The second entries of the four tables. */
  lemma TableValues()
    ensures Table(0, 1) == 0xf26b8303 && Table(1, 1) == 0x13a29877 && Table(2, 1) == 0xa541927e && Table(3, 1) == 0xdd45aab8
  {
    hide Steps;
    assert Up(1, 0) == 1;
    EightSteps(0x1, 0x82f63b78, 0x417b1dbc, 0x20bd8ede, 0x105ec76f, 0x8ad958cf, 0xc79a971f, 0xe13b70f7, 0xf26b8303);
    EightSteps(0xf26b8303, 0xfbc3faf9, 0xff17c604, 0x7f8be302, 0x3fc5f181, 0x9d14c3b8, 0x4e8a61dc, 0x274530ee, 0x13a29877);
    EightSteps(0x13a29877, 0x8b277743, 0xc76580d9, 0xe144fb14, 0x70a27d8a, 0x38513ec5, 0x9edea41a, 0x4f6f520d, 0xa541927e);
    EightSteps(0xa541927e, 0x52a0c93f, 0xaba65fe7, 0xd725148b, 0xe964b13d, 0xf64463e6, 0x7b2231f3, 0xbf672381, 0xdd45aab8);
    assert Table(0, 1) == 0xf26b8303;
    assert Table(1, 1) == 0x13a29877;
    assert Table(2, 1) == 0xa541927e;
    assert Table(3, 1) == 0xdd45aab8;
  }
}
