/** Reading the wire (nanopb: the input-stream half of pb_decode.c). */
module ProtobufStream {
  import opened Coding
  import opened Protobuf

  class IStream {
    var rest: Bytes

    constructor (bytes: Bytes)
      ensures rest == bytes
    {
      rest := bytes;
    }

    method ReadByte() returns (ok: bool, b: Byte)
      modifies this
      ensures ok <==> old(rest) != []
      ensures ok ==> b == old(rest)[0] && rest == old(rest)[1..]
      ensures !ok ==> rest == old(rest)
    {
      if rest == [] {
        return false, 0;
      }
      b := rest[0];
      rest := rest[1..];
      ok := true;
    }

    method Read(n: nat) returns (ok: bool, bytes: Bytes)
      modifies this
      ensures ok <==> n <= |old(rest)|
      ensures ok ==> bytes == old(rest)[..n] && rest == old(rest)[n..]
      ensures !ok ==> rest == old(rest)
    {
      if |rest| < n {
        return false, [];
      }
      bytes := rest[..n];
      rest := rest[n..];
      ok := true;
    }

    /** pb_decode_varint: at most ten bytes, the result cut to 64 bits. */
    method DecodeVarint() returns (ok: bool, value: nat)
      modifies this
      ensures |rest| <= |old(rest)| && (ok ==> |rest| < |old(rest)|)
      ensures match GetVarint(old(rest), 10)
              case Malformed => !ok
              case Varint(n, l) => ok && value == n % DWORD && rest == old(rest)[l..]
    {
      hide GetVarint, Shifted;
      var result: nat, i: nat, place: nat := 0, 0, 1;
      ghost var b := rest;
      AccumulateIsGet(b, 10, 0, 1);
      assert b[0..] == b;
      while true
        invariant i <= 10 && i <= |b| && rest == b[i..]
        invariant match Accumulate(b[i..], 10 - i, result, place)
                  case Malformed => GetVarint(b, 10).Malformed?
                  case Varint(n, l) => GetVarint(b, 10) == Varint(n, l + i)
        decreases 10 - i
      {
        if i >= 10 {
          return false, 0;
        }
        var byte: Byte;
        ok, byte := ReadByte();
        if !ok {
          return false, 0;
        }
        assert b[i..][1..] == b[i + 1..];
        if byte < 128 {
          return true, (result + Shifted(byte as nat, place)) % DWORD;
        }
        result := result + Shifted(byte as nat - 128, place);
        place := 128 * place;
        i := i + 1;
      }
    }

    /** The weight of bit position 7, 14, 21 or 28. */
    static function Weight(bitpos: nat): nat {
      if bitpos == 7 then 0x80 else if bitpos == 14 then 0x4000 else if bitpos == 21 then 0x20_0000 else 0x1000_0000
    }

    /** One more digit of a 32-bit number: the last one completes it and fits. */
    static lemma DigitStep(m: nat, result: nat, bitpos: nat, q: nat)
      requires m < WORD && (bitpos == 7 || bitpos == 14 || bitpos == 21 || bitpos == 28) && q > 0
      requires m == result + Weight(bitpos) * q && result < Weight(bitpos)
      ensures var r := (result + q % 128 * Weight(bitpos)) % WORD;
              if q < 128 then r == m && (bitpos == 28 ==> q / 16 % 8 == 0)
              else bitpos < 28 && q / 128 > 0 && r < Weight(bitpos + 7) && m == r + Weight(bitpos + 7) * (q / 128)
    {
      if bitpos == 7 {
      } else if bitpos == 14 {
      } else if bitpos == 21 {
      } else {
      }
    }

    /** pb_decode_varint32_eof: a 32-bit number; trailing bytes may only extend zeros or a sign. A
        number that was encoded comes back, and an exhausted stream is told apart from an error. */
    method DecodeVarint32(ghost m: nat, ghost tail: Bytes) returns (ok: bool, value: nat, eof: bool)
      modifies this
      ensures |rest| <= |old(rest)| && (ok ==> |rest| < |old(rest)| && value < WORD)
      ensures old(rest) == [] ==> !ok && eof
      ensures eof ==> !ok
      ensures m < WORD && old(rest) == PutVarint(m) + tail ==> ok && value == m && rest == tail
    {
      hide PutVarint, Weight;
      ghost var sound := m < WORD && rest == PutVarint(m) + tail;
      NextDigit(m, tail);
      eof := false;
      var byte: Byte;
      ok, byte := ReadByte();
      if !ok {
        eof := true;
        return false, 0, eof;
      }
      var result: nat := byte as nat % 128;
      if byte < 128 {
        return true, result, eof;
      }
      var bitpos := 7;
      ghost var q: nat := m / 128;
      assert Weight(7) == 128 by { FirstWeight(); }
      while true
        invariant result < WORD && bitpos >= 7 && bitpos % 7 == 0 && !eof && |rest| < |old(rest)|
        invariant sound ==> bitpos <= 28 && q > 0 && rest == PutVarint(q) + tail
        invariant sound ==> m == result + Weight(bitpos) * q && result < Weight(bitpos)
        decreases |rest|
      {
        NextDigit(q, tail);
        if sound {
          DigitStep(m, result, bitpos, q);
        }
        ok, byte := ReadByte();
        if !ok {
          return false, 0, eof;
        }
        var digit := byte as nat % 128;
        if bitpos >= 32 {
          var signExtension := if bitpos < 63 then 0xFF else 0x01;
          if digit != 0 && (result < 0x8000_0000 || byte as nat != signExtension) {
            return false, 0, eof;
          }
        } else {
          result := (result + digit * Weight(bitpos)) % WORD;
        }
        bitpos := bitpos + 7;
        if byte < 128 {
          break;
        }
        q := q / 128;
      }
      if bitpos == 35 && byte as nat / 16 % 8 != 0 {
        return false, 0, eof;
      }
      return true, result, eof;
    }

    static lemma FirstWeight()
      ensures Weight(7) == 128
    {
    }

    static lemma NextDigit(m: nat, tail: Bytes)
      ensures var b := PutVarint(m) + tail;
              && b != [] && b[0] as nat % 128 == m % 128 && (b[0] < 128 <==> m < 128)
              && b[1..] == if m < 128 then tail else PutVarint(m / 128) + tail
    {
      var b := PutVarint(m) + tail;
      if m >= 128 {
        assert b[1..] == PutVarint(m / 128) + tail;
      } else {
        assert b[1..] == tail;
      }
    }

    /** pb_make_string_substream: the next length-prefixed part, and the stream behind it. */
    method MakeSubstream(ghost s: Bytes, ghost tail: Bytes) returns (ok: bool, sub: IStream)
      modifies this
      ensures |rest| <= |old(rest)| && fresh(sub)
      ensures ok ==> |sub.rest| + |rest| < |old(rest)|
      ensures |s| < WORD && old(rest) == LengthPrefixed(s) + tail ==> ok && sub.rest == s && rest == tail
    {
      assert LengthPrefixed(s) + tail == PutVarint(|s|) + (s + tail);
      sub := new IStream([]);
      var size: nat, eof: bool;
      ok, size, eof := DecodeVarint32(|s|, s + tail);
      if !ok || |rest| < size {
        return false, sub;
      }
      sub := new IStream(rest[..size]);
      rest := rest[size..];
    }

    method DecodeTag(ghost tag: nat, ghost wt: nat, ghost tail: Bytes) returns (ok: bool, wireType: nat, number: nat, eof: bool)
      modifies this
      ensures |rest| <= |old(rest)| && (ok ==> |rest| < |old(rest)|)
      ensures old(rest) == [] ==> !ok && eof
      ensures 0 < tag < 0x2000_0000 && wt < 8 && old(rest) == TagBytes(tag, wt) + tail ==> ok && wireType == wt && number == tag && rest == tail
    {
      var temp: nat;
      ok, temp, eof := DecodeVarint32(8 * tag + wt, tail);
      wireType, number := 0, 0;
      if !ok {
        return;
      }
      if temp == 0 {
        return false, 0, 0, true;
      }
      number, wireType := temp / 8, temp % 8;
    }

    method SkipVarint(ghost n: nat, ghost tail: Bytes) returns (ok: bool)
      modifies this
      ensures |rest| <= |old(rest)|
      ensures old(rest) == PutVarint(n) + tail ==> ok && rest == tail
    {
      hide PutVarint;
      ghost var q, sound := n, rest == PutVarint(n) + tail;
      var byte: Byte := 128;
      while byte >= 128
        invariant |rest| <= |old(rest)|
        invariant sound ==> rest == if byte >= 128 then PutVarint(q) + tail else tail
        decreases |rest|, byte
      {
        NextDigit(q, tail);
        ok, byte := ReadByte();
        if !ok {
          return;
        }
        q := q / 128;
      }
      ok := true;
    }

    /** pb_skip_field: past whatever a value of the wire type may be. */
    method SkipField(wireType: nat, ghost payload: Bytes, ghost tail: Bytes) returns (ok: bool)
      modifies this
      ensures |rest| <= |old(rest)|
      ensures IsPayload(wireType, payload) && old(rest) == payload + tail ==> ok && rest == tail
      ensures wireType !in {WT_VARINT, WT_64BIT, WT_STRING, WT_32BIT} ==> !ok && rest == old(rest)
    {
      ghost var sound := IsPayload(wireType, payload) && rest == payload + tail;
      var bytes: Bytes;
      if wireType == WT_VARINT {
        ghost var n := if sound then VarintOf(payload) else 0;
        ok := SkipVarint(n, tail);
      } else if wireType == WT_64BIT {
        ok, bytes := Read(8);
      } else if wireType == WT_STRING {
        var length: nat, eof: bool;
        ghost var s := if sound then PrefixedOf(payload) else [];
        assert sound ==> rest == PutVarint(|s|) + (s + tail);
        ok, length, eof := DecodeVarint32(|s|, s + tail);
        if ok {
          ok, bytes := Read(length);
        }
      } else if wireType == WT_32BIT {
        ok, bytes := Read(4);
      } else {
        ok := false;
      }
    }
  }

  /** What may stand behind a tag of each wire type. */
  ghost predicate IsPayload(wireType: nat, payload: Bytes) {
    || (wireType == WT_VARINT && exists n: nat :: payload == PutVarint(n))
    || (wireType == WT_64BIT && |payload| == 8)
    || (wireType == WT_STRING && exists s :: |s| < WORD && payload == LengthPrefixed(s))
    || (wireType == WT_32BIT && |payload| == 4)
  }

  ghost function VarintOf(payload: Bytes): (n: nat)
    requires exists n: nat :: payload == PutVarint(n)
    ensures payload == PutVarint(n)
  {
    var n: nat :| payload == PutVarint(n);
    n
  }

  ghost function PrefixedOf(payload: Bytes): (s: Bytes)
    requires exists s :: |s| < WORD && payload == LengthPrefixed(s)
    ensures |s| < WORD && payload == LengthPrefixed(s)
  {
    var s :| |s| < WORD && payload == LengthPrefixed(s);
    s
  }
}
