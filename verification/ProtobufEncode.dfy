/** The encoder (nanopb, pb_encode.c): one pass over the fields, with a sizing pass before every
    submessage and packed array whose length must come first. */
module ProtobufEncode {
  import opened Coding
  import opened Protobuf

  /** An output stream; a sizing stream only counts. */
  class OStream {
    const sizing: bool
    const maxSize: nat
    var written: nat
    var out: Bytes

    ghost predicate Ok()
      reads this
    {
      sizing || written <= maxSize
    }

    constructor (sizing: bool, maxSize: nat, out: Bytes)
      ensures Ok() && written == 0 && this.sizing == sizing && this.maxSize == maxSize && this.out == out
    {
      this.sizing, this.maxSize, this.out := sizing, maxSize, out;
      written := 0;
    }

    ghost predicate Fits(n: nat)
      reads this
    {
      sizing || written + n <= maxSize
    }

    method Write(buf: Bytes) returns (ok: bool)
      requires Ok()
      modifies this
      ensures Ok() && ok == old(Fits(|buf|))
      ensures ok ==> written == old(written) + |buf| && out == if sizing then old(out) else old(out) + buf
    {
      if !sizing {
        if written + |buf| > maxSize {
          return false;
        }
        out := out + buf;
      }
      written := written + |buf|;
      return true;
    }

    /** Counts bytes that have been sized already. */
    method Skip(n: nat)
      requires Ok() && sizing
      modifies this
      ensures Ok() && written == old(written) + n && out == old(out)
    {
      written := written + n;
    }

    /** pb_encode_varint: seven bits at a time into a buffer, the last byte without the top bit. */
    method EncodeVarint(value: nat) returns (ok: bool)
      requires Ok()
      modifies this
      ensures Ok() && ok == old(Fits(|PutVarint(value)|))
      ensures ok ==> written == old(written) + |PutVarint(value)| && out == if sizing then old(out) else old(out) + PutVarint(value)
    {
      if value <= 127 {
        ok := Write([value as Byte]);
        return;
      }
      var buffer: Bytes := [];
      var v := value;
      while v > 0
        invariant buffer == [] ==> v == value
        invariant buffer != [] && v > 0 ==> buffer + PutVarint(v) == PutVarint(value)
        invariant v == 0 ==> buffer != [] && buffer[|buffer| - 1] >= 128
                             && buffer[..|buffer| - 1] + [buffer[|buffer| - 1] - 128] == PutVarint(value)
        decreases v
      {
        if v >= 128 {
          assert buffer + PutVarint(v) == (buffer + [(v % 128 + 128) as Byte]) + PutVarint(v / 128);
        }
        buffer := buffer + [(v % 128 + 128) as Byte];
        v := v / 128;
      }
      buffer := buffer[|buffer| - 1 := buffer[|buffer| - 1] - 128];
      assert buffer == PutVarint(value);
      ok := Write(buffer);
    }
  }

  method EncodeTag(s: OStream, wireType: nat, tag: nat) returns (ok: bool)
    requires s.Ok()
    modifies s
    ensures s.Ok() && ok == old(s.Fits(|TagBytes(tag, wireType)|))
    ensures ok ==> s.written == old(s.written) + |TagBytes(tag, wireType)| && s.out == if s.sizing then old(s.out) else old(s.out) + TagBytes(tag, wireType)
  {
    ok := s.EncodeVarint(8 * tag + wireType);
  }

  method EncodeString(s: OStream, bytes: Bytes) returns (ok: bool)
    requires s.Ok()
    modifies s
    ensures s.Ok() && ok == old(s.Fits(|LengthPrefixed(bytes)|))
    ensures ok ==> s.written == old(s.written) + |LengthPrefixed(bytes)| && s.out == if s.sizing then old(s.out) else old(s.out) + LengthPrefixed(bytes)
  {
    ok := s.EncodeVarint(|bytes|);
    if ok {
      assert old(s.out) + PutVarint(|bytes|) + bytes == old(s.out) + LengthPrefixed(bytes);
      ok := s.Write(bytes);
    }
  }

  /** One value, without its tag. */
  method EncodeValue(s: OStream, k: Kind, v: Value) returns (ok: bool)
    requires s.Ok() && ValueOk(k, v)
    modifies s
    ensures s.Ok() && ok == old(s.Fits(|ValueBytes(k, v)|))
    ensures ok ==> s.written == old(s.written) + |ValueBytes(k, v)| && s.out == if s.sizing then old(s.out) else old(s.out) + ValueBytes(k, v)
    decreases k, 3
  {
    match k
    case VarintKind(_) => ok := s.EncodeVarint(Unsigned(v.n));
    case UVarintKind(_) => ok := s.EncodeVarint(v.n);
    case SVarintKind(_) => ok := s.EncodeVarint(ZigZag(v.n));
    case Fixed32Kind => ok := s.Write(PutFixed32(v.n));
    case Fixed64Kind => ok := s.Write(PutFixed64(v.n));
    case BytesKind(_) => ok := EncodeString(s, v.bytes);
    case StringKind(_) => ok := EncodeString(s, v.bytes);
    case FixedBytesKind(_) => ok := EncodeString(s, v.bytes);
    case MessageKind(_) => ok := EncodeSubmessage(s, k, v);
  }

  /** A submessage: a sizing pass for the length, then the same bytes into a stream of that size. */
  method EncodeSubmessage(s: OStream, k: Kind, v: Value) returns (ok: bool)
    requires s.Ok() && k.MessageKind? && ValueOk(k, v)
    modifies s
    ensures s.Ok() && ok == old(s.Fits(|ValueBytes(k, v)|))
    ensures ok ==> s.written == old(s.written) + |ValueBytes(k, v)| && s.out == if s.sizing then old(s.out) else old(s.out) + ValueBytes(k, v)
    decreases k, 2
  {
    ghost var body := FieldsBytes(k, v, 0);
    assert ValueBytes(k, v) == PutVarint(|body|) + body;
    var substream := new OStream(true, 0, []);
    var sized := EncodeMessage(substream, k, v);
    var size := substream.written;
    ok := s.EncodeVarint(size);
    if !ok {
      return;
    }
    if s.sizing {
      s.Skip(size);
      return true;
    }
    if s.written + size > s.maxSize {
      return false;
    }
    substream := new OStream(false, size, s.out);
    var status := EncodeMessage(substream, k, v);
    s.written := s.written + substream.written;
    s.out := substream.out;
    assert old(s.out) + PutVarint(|body|) + body == old(s.out) + ValueBytes(k, v);
    // The second pass cannot differ from the first, so the check that the size has not changed never fails.
    assert substream.written == size;
    return status;
  }

  /** pb_encode: every field in turn. */
  method EncodeMessage(s: OStream, k: Kind, v: Value) returns (ok: bool)
    requires s.Ok() && k.MessageKind? && ValueOk(k, v)
    modifies s
    ensures s.Ok() && ok == old(s.Fits(|FieldsBytes(k, v, 0)|))
    ensures ok ==> s.written == old(s.written) + |FieldsBytes(k, v, 0)| && s.out == if s.sizing then old(s.out) else old(s.out) + FieldsBytes(k, v, 0)
    decreases k, 1
  {
    hide ValueOk, FieldBytes;
    ghost var whole := FieldsBytes(k, v, 0);
    ghost var done: Bytes := [];
    SlotShape(k, v, 0);
    var i := 0;
    while i < |k.fields|
      invariant i <= |k.fields| && s.Ok() && done + FieldsBytes(k, v, i) == whole
      invariant s.written == old(s.written) + |done| && s.out == if s.sizing then old(s.out) else old(s.out) + done
    {
      SlotShape(k, v, i);
      ghost var b := FieldBytes(k.fields[i], v.slots[i]);
      assert (done + b) + FieldsBytes(k, v, i + 1) == whole;
      ok := EncodeField(s, k.fields[i], v.slots[i]);
      if !ok {
        return;
      }
      assert old(s.out) + done + b == old(s.out) + (done + b);
      done := done + b;
      i := i + 1;
    }
    assert done == whole by { NoMoreFields(k, v, i); }
    return true;
  }

  lemma NoMoreFields(k: Kind, v: Value, i: nat)
    requires k.MessageKind? && ValueOk(k, v) && i == |k.fields|
    ensures FieldsBytes(k, v, i) == []
  {
  }

  lemma SlotShape(k: Kind, v: Value, i: nat)
    requires k.MessageKind? && ValueOk(k, v)
    ensures v.Message? && |v.slots| == |k.fields|
    ensures i < |k.fields| ==> CountOk(k.fields[i].rule, |v.slots[i]|) && forall j :: 0 <= j < |v.slots[i]| ==> ValueOk(k.fields[i].kind, v.slots[i][j])
  {
  }

  /** encode_basic_field. */
  method EncodeField(s: OStream, f: Field, vs: seq<Value>) returns (ok: bool)
    requires s.Ok() && CountOk(f.rule, |vs|) && forall j :: 0 <= j < |vs| ==> ValueOk(f.kind, vs[j])
    modifies s
    ensures s.Ok() && ok == old(s.Fits(|FieldBytes(f, vs)|))
    ensures ok ==> s.written == old(s.written) + |FieldBytes(f, vs)| && s.out == if s.sizing then old(s.out) else old(s.out) + FieldBytes(f, vs)
    decreases f, 5
  {
    hide ValueOk, ValueBytes, TagBytes, ValuesBytes;
    if f.rule.Repeated? {
      ok := EncodeArray(s, f, vs);
    } else if f.rule.Required? || (f.rule.Implicit? && !IsZero(f.kind, vs[0])) || (!f.rule.Implicit? && vs != []) {
      assert vs[1..] == [] && TaggedBytes(f, vs) == TagBytes(f.tag, WireType(f.kind)) + ValueBytes(f.kind, vs[0]);
      ok := EncodeTagged(s, f, vs[0]);
    } else {
      ok := true;
    }
  }

  method EncodeTagged(s: OStream, f: Field, v: Value) returns (ok: bool)
    requires s.Ok() && ValueOk(f.kind, v)
    modifies s
    ensures var b := TagBytes(f.tag, WireType(f.kind)) + ValueBytes(f.kind, v);
            && s.Ok() && ok == old(s.Fits(|b|))
            && (ok ==> s.written == old(s.written) + |b| && s.out == if s.sizing then old(s.out) else old(s.out) + b)
    decreases f, 3
  {
    hide ValueOk, ValueBytes, TagBytes;
    ok := EncodeTag(s, WireType(f.kind), f.tag);
    if ok {
      ghost var a, b := TagBytes(f.tag, WireType(f.kind)), ValueBytes(f.kind, v);
      assert old(s.out) + a + b == old(s.out) + (a + b);
      ok := EncodeValue(s, f.kind, v);
    }
  }

  /** encode_array: packed with its total size in front where the type allows, else value by value;
      an array longer than its field allows is an error. */
  method EncodeArray(s: OStream, f: Field, vs: seq<Value>) returns (ok: bool)
    requires s.Ok() && f.rule.Repeated? && forall j :: 0 <= j < |vs| ==> ValueOk(f.kind, vs[j])
    modifies s
    ensures s.Ok() && ok == (CountOk(f.rule, |vs|) && old(s.Fits(|FieldBytes(f, vs)|)))
    ensures ok ==> s.written == old(s.written) + |FieldBytes(f, vs)| && s.out == if s.sizing then old(s.out) else old(s.out) + FieldBytes(f, vs)
    decreases f, 4
  {
    hide ValueOk, ValueBytes, TagBytes;
    if vs == [] {
      return true;
    }
    if |vs| > f.rule.max {
      return false;
    }
    if Packable(f.kind) {
      ok := EncodePacked(s, f, vs);
      return;
    }
    ghost var done: Bytes := [];
    assert vs[0..] == vs;
    var j := 0;
    while j < |vs|
      invariant j <= |vs| && s.Ok() && done + TaggedBytes(f, vs[j..]) == FieldBytes(f, vs)
      invariant s.written == old(s.written) + |done| && s.out == if s.sizing then old(s.out) else old(s.out) + done
    {
      ghost var b := TagBytes(f.tag, WireType(f.kind)) + ValueBytes(f.kind, vs[j]);
      assert vs[j..][1..] == vs[j + 1..];
      assert done + (b + TaggedBytes(f, vs[j + 1..])) == (done + b) + TaggedBytes(f, vs[j + 1..]);
      ok := EncodeTagged(s, f, vs[j]);
      if !ok {
        return;
      }
      assert old(s.out) + done + b == old(s.out) + (done + b);
      done := done + b;
      j := j + 1;
    }
    return true;
  }

  method EncodePacked(s: OStream, f: Field, vs: seq<Value>) returns (ok: bool)
    requires s.Ok() && Packed(f) && vs != [] && CountOk(f.rule, |vs|) && forall j :: 0 <= j < |vs| ==> ValueOk(f.kind, vs[j])
    modifies s
    ensures s.Ok() && ok == old(s.Fits(|FieldBytes(f, vs)|))
    ensures ok ==> s.written == old(s.written) + |FieldBytes(f, vs)| && s.out == if s.sizing then old(s.out) else old(s.out) + FieldBytes(f, vs)
    decreases f, 3
  {
    hide ValueOk, ValueBytes, TagBytes;
    ghost var tag, body := TagBytes(f.tag, WT_STRING), ValuesBytes(f.kind, vs);
    assert FieldBytes(f, vs) == tag + (PutVarint(|body|) + body);
    hide FieldBytes;
    ok := EncodeTag(s, WT_STRING, f.tag);
    if !ok {
      return;
    }
    var size := 0;
    if f.kind.Fixed32Kind? {
      size := 4 * |vs|;
      FixedSize(f.kind, vs);
    } else if f.kind.Fixed64Kind? {
      size := 8 * |vs|;
      FixedSize(f.kind, vs);
    } else {
      var sizestream := new OStream(true, 0, []);
      var sized := EncodeValues(sizestream, f.kind, vs);
      size := sizestream.written;
    }
    ok := s.EncodeVarint(size);
    if !ok {
      return;
    }
    assert old(s.out) + tag + PutVarint(|body|) + body == old(s.out) + (tag + (PutVarint(|body|) + body));
    if s.sizing {
      s.Skip(size);
      return true;
    }
    ok := EncodeValues(s, f.kind, vs);
  }

  /** Fixed-width elements need no sizing pass. */
  lemma {:induction false} FixedSize(k: Kind, vs: seq<Value>)
    requires (k.Fixed32Kind? || k.Fixed64Kind?) && forall j :: 0 <= j < |vs| ==> ValueOk(k, vs[j])
    ensures |ValuesBytes(k, vs)| == (if k.Fixed32Kind? then 4 else 8) * |vs|
  {
    if vs != [] {
      FixedSize(k, vs[1..]);
    }
  }

  method EncodeValues(s: OStream, k: Kind, vs: seq<Value>) returns (ok: bool)
    requires s.Ok() && Packable(k) && forall j :: 0 <= j < |vs| ==> ValueOk(k, vs[j])
    modifies s
    ensures s.Ok() && ok == old(s.Fits(|ValuesBytes(k, vs)|))
    ensures ok ==> s.written == old(s.written) + |ValuesBytes(k, vs)| && s.out == if s.sizing then old(s.out) else old(s.out) + ValuesBytes(k, vs)
    decreases k, 4
  {
    hide ValueOk, ValueBytes;
    ghost var done: Bytes := [];
    assert vs[0..] == vs;
    var j := 0;
    while j < |vs|
      invariant j <= |vs| && s.Ok() && done + ValuesBytes(k, vs[j..]) == ValuesBytes(k, vs)
      invariant s.written == old(s.written) + |done| && s.out == if s.sizing then old(s.out) else old(s.out) + done
    {
      ghost var b := ValueBytes(k, vs[j]);
      assert vs[j..][1..] == vs[j + 1..];
      assert done + (b + ValuesBytes(k, vs[j + 1..])) == (done + b) + ValuesBytes(k, vs[j + 1..]);
      ok := EncodeValue(s, k, vs[j]);
      if !ok {
        return;
      }
      assert old(s.out) + done + b == old(s.out) + (done + b);
      done := done + b;
      j := j + 1;
    }
    return true;
  }
}
