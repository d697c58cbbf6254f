/** What a message means on the wire (nanopb: pb.h, pb_encode.c, pb_decode.c; Protocol Buffers
    encoding specification, "Base 128 Varints" and "Message Structure"). A message is a tree of
    values, one list of values for every field of its descriptor. */
module Protobuf {
  import opened Coding

  // ---------- descriptors and messages ----------

  /** Types of field contents. Integer kinds carry the width of their C type in bytes. */
  datatype Kind =
    | VarintKind(width: nat) | UVarintKind(width: nat) | SVarintKind(width: nat)
    | Fixed32Kind | Fixed64Kind
    | BytesKind(capacity: nat) | StringKind(capacity: nat) | FixedBytesKind(length: nat)
    | MessageKind(fields: seq<Field>)

  /** How often a field occurs. Implicit fields are proto3 singular ones: left out when zero. Fields of
      one union share a group. */
  datatype Rule = Required | Optional | Implicit | Repeated(max: nat) | OneOf(group: nat)

  datatype Field = Field(tag: nat, rule: Rule, kind: Kind)

  type Descriptor = seq<Field>

  datatype Value = Int(n: int) | Blob(bytes: Bytes) | Message(slots: seq<seq<Value>>)

  predicate Packable(k: Kind) {
    k.VarintKind? || k.UVarintKind? || k.SVarintKind? || k.Fixed32Kind? || k.Fixed64Kind?
  }

  predicate Packed(f: Field) {
    f.rule.Repeated? && Packable(f.kind)
  }

  function HalfRange(width: nat): nat {
    if width == 1 then 0x80 else if width == 2 then 0x8000 else if width == 4 then 0x8000_0000 else 0x8000_0000_0000_0000
  }

  predicate WidthOk(width: nat) {
    width == 1 || width == 2 || width == 4 || width == 8
  }

  // ---------- what is in bounds ----------

  predicate InRange(width: nat, n: int) {
    WidthOk(width) && 0 - HalfRange(width) <= n < HalfRange(width)
  }

  /** The value has the C type of the kind; a message has the right contents in every slot. */
  predicate ValueOk(k: Kind, v: Value)
    decreases k
  {
    match k
    case VarintKind(w) => v.Int? && InRange(w, v.n)
    case SVarintKind(w) => v.Int? && InRange(w, v.n)
    case UVarintKind(w) => v.Int? && WidthOk(w) && 0 <= v.n < 2 * HalfRange(w)
    case Fixed32Kind => v.Int? && 0 <= v.n < WORD
    case Fixed64Kind => v.Int? && 0 <= v.n < DWORD
    case BytesKind(c) => v.Blob? && |v.bytes| <= c < WORD
    case StringKind(c) => v.Blob? && |v.bytes| < c < WORD && 0 !in v.bytes
    case FixedBytesKind(n) => v.Blob? && |v.bytes| == n && 0 < n < WORD
    case MessageKind(d) =>
      && v.Message? && DescriptorOk(d) && |v.slots| == |d|
      && (forall i :: 0 <= i < |d| ==> CountOk(d[i].rule, |v.slots[i]|) && OneArm(d, v.slots, i))
      && (forall i, j :: 0 <= i < |d| && 0 <= j < |v.slots[i]| ==> ValueOk(d[i].kind, v.slots[i][j]))
  }

  predicate CountOk(r: Rule, n: nat) {
    match r
    case Required => n == 1
    case Implicit => n == 1
    case Optional => n <= 1
    case OneOf(_) => n <= 1
    case Repeated(max) => n <= max
  }

  /** At most one member of a union is set. */
  predicate OneArm(d: Descriptor, m: seq<seq<Value>>, i: nat)
    requires |m| == |d| && i < |d|
  {
    d[i].rule.OneOf? && m[i] != [] ==> forall j :: 0 <= j < |d| && j != i && d[j].rule == d[i].rule ==> m[j] == []
  }

  /** Tags are distinct, nonzero, and leave room for the wire type. */
  predicate DescriptorOk(d: Descriptor) {
    && (forall i :: 0 <= i < |d| ==> 0 < d[i].tag < 0x2000_0000)
    && (forall i, j :: 0 <= i < j < |d| ==> d[i].tag != d[j].tag)
  }

  /** Contents a decoder starts from: nothing, zero in implicit and required fields. */
  function DefaultValue(k: Kind): Value
    decreases k
  {
    match k
    case BytesKind(_) => Blob([])
    case StringKind(_) => Blob([])
    case FixedBytesKind(n) => Blob(seq(n, _ => 0))
    case MessageKind(d) =>
      Message(seq(|d|, i requires 0 <= i < |d| => if Singular(d[i].rule) then [DefaultValue(d[i].kind)] else []))
    case _ => Int(0)
  }

  predicate Singular(r: Rule) {
    r.Required? || r.Implicit?
  }

  // ---------- the wire ----------

  const WT_VARINT: nat := 0
  const WT_64BIT: nat := 1
  const WT_STRING: nat := 2
  const WT_32BIT: nat := 5

  function WireType(k: Kind): (t: nat)
    ensures t < 8
  {
    match k
    case VarintKind(_) => WT_VARINT
    case UVarintKind(_) => WT_VARINT
    case SVarintKind(_) => WT_VARINT
    case Fixed32Kind => WT_32BIT
    case Fixed64Kind => WT_64BIT
    case _ => WT_STRING
  }

  function TagBytes(tag: nat, wireType: nat): Bytes {
    PutVarint(8 * tag + wireType)
  }

  /** A signed number as its 64-bit two's complement. */
  function Unsigned(n: int): nat
    requires -0x8000_0000_0000_0000 <= n < DWORD
  {
    if n < 0 then n + DWORD else n
  }

  function ZigZag(n: int): nat {
    if n < 0 then -2 * n - 1 else 2 * n
  }

  /** proto3's test for a value that need not be written. A required field always is. */
  predicate IsZero(k: Kind, v: Value)
    requires ValueOk(k, v)
    decreases k
  {
    match k
    case BytesKind(_) => v.bytes == []
    case StringKind(_) => v.bytes == []
    case FixedBytesKind(_) => false
    case MessageKind(d) =>
      forall i :: 0 <= i < |d| ==>
        !d[i].rule.Required? && if d[i].rule.Implicit? then IsZero(d[i].kind, v.slots[i][0]) else v.slots[i] == []
    case _ => v.n == 0
  }

  /** One wire record of a message: a field, and the values it carries: all of them for a packed
      array, one otherwise. */
  datatype Item = Item(field: nat, values: seq<Value>)

  function Singles(i: nat, vs: seq<Value>): (items: seq<Item>)
    ensures |items| == |vs| && forall j :: 0 <= j < |vs| ==> items[j] == Item(i, [vs[j]])
  {
    seq(|vs|, j requires 0 <= j < |vs| => Item(i, [vs[j]]))
  }

  function ItemsOfField(f: Field, i: nat, vs: seq<Value>): (items: seq<Item>)
    requires CountOk(f.rule, |vs|) && forall j :: 0 <= j < |vs| ==> ValueOk(f.kind, vs[j])
    ensures forall t :: 0 <= t < |items| ==> items[t].field == i
  {
    if vs == [] || (f.rule.Implicit? && IsZero(f.kind, vs[0])) then []
    else if Packed(f) then [Item(i, vs)]
    else Singles(i, vs)
  }

  function ItemsFrom(d: Descriptor, v: Value, i: nat): (items: seq<Item>)
    requires ValueOk(MessageKind(d), v) && i <= |d|
    ensures forall t :: 0 <= t < |items| ==> items[t].field < |d|
    decreases |d| - i
  {
    if i == |d| then [] else ItemsOfField(d[i], i, v.slots[i]) + ItemsFrom(d, v, i + 1)
  }

  function ValueBytes(k: Kind, v: Value): Bytes
    requires ValueOk(k, v)
    decreases k, 2
  {
    match k
    case VarintKind(_) => PutVarint(Unsigned(v.n))
    case UVarintKind(_) => PutVarint(v.n)
    case SVarintKind(_) => PutVarint(ZigZag(v.n))
    case Fixed32Kind => PutFixed32(v.n)
    case Fixed64Kind => PutFixed64(v.n)
    case BytesKind(_) => LengthPrefixed(v.bytes)
    case StringKind(_) => LengthPrefixed(v.bytes)
    case FixedBytesKind(_) => LengthPrefixed(v.bytes)
    case MessageKind(d) => LengthPrefixed(FieldsBytes(k, v, 0))
  }

  function ValuesBytes(k: Kind, vs: seq<Value>): Bytes
    requires forall j :: 0 <= j < |vs| ==> ValueOk(k, vs[j])
    decreases k, 3, |vs|
  {
    if vs == [] then [] else ValueBytes(k, vs[0]) + ValuesBytes(k, vs[1..])
  }

  /** A field's part of the message. */
  function FieldBytes(f: Field, vs: seq<Value>): Bytes
    requires CountOk(f.rule, |vs|) && forall j :: 0 <= j < |vs| ==> ValueOk(f.kind, vs[j])
    decreases f, 4, |vs|
  {
    if vs == [] || (f.rule.Implicit? && IsZero(f.kind, vs[0])) then []
    else if Packed(f) then TagBytes(f.tag, WT_STRING) + LengthPrefixed(ValuesBytes(f.kind, vs))
    else TaggedBytes(f, vs)
  }

  function TaggedBytes(f: Field, vs: seq<Value>): Bytes
    requires forall j :: 0 <= j < |vs| ==> ValueOk(f.kind, vs[j])
    decreases f, 3, |vs|
  {
    if vs == [] then [] else TagBytes(f.tag, WireType(f.kind)) + ValueBytes(f.kind, vs[0]) + TaggedBytes(f, vs[1..])
  }

  /** The message from field i on. */
  function FieldsBytes(k: Kind, v: Value, i: nat): Bytes
    requires k.MessageKind? && ValueOk(k, v) && i <= |k.fields|
    decreases k, 1, |k.fields| - i
  {
    if i == |k.fields| then [] else FieldBytes(k.fields[i], v.slots[i]) + FieldsBytes(k, v, i + 1)
  }

  // ---------- examples of the encoding specification ----------

  /** "A Simple Message": 150 in an int32 field of number 1; every scalar type at one and below zero. */
  lemma ScalarsInNumbers()
    ensures TagBytes(1, WireType(VarintKind(4))) + ValueBytes(VarintKind(4), Int(150)) == [0x08, 0x96, 0x01]
    ensures TagBytes(1, WireType(UVarintKind(4))) + ValueBytes(UVarintKind(4), Int(150)) == [0x08, 0x96, 0x01]
    ensures TagBytes(1, WireType(SVarintKind(4))) + ValueBytes(SVarintKind(4), Int(-2)) == [0x08, 0x03]
    ensures ValueBytes(SVarintKind(4), Int(-1)) == [1] && ValueBytes(SVarintKind(4), Int(1)) == [2]
    ensures TagBytes(1, WireType(Fixed32Kind)) + ValueBytes(Fixed32Kind, Int(1)) == [0x0d, 1, 0, 0, 0]
    ensures TagBytes(1, WireType(Fixed64Kind)) + ValueBytes(Fixed64Kind, Int(1)) == [0x09, 1, 0, 0, 0, 0, 0, 0, 0]
  {
    assert PutVarint(150) == [0x96, 0x01];
    assert PutFixed64(1) == PutFixed32(1) + PutFixed32(0);
  }

  /** A negative number takes ten bytes whatever its width. */
  lemma NegativeInNumbers()
    ensures ValueBytes(VarintKind(4), Int(-2)) == [0xfe, 0xff, 0xff, 0xff, 0xff, 0xff, 0xff, 0xff, 0xff, 0x01]
  {
    assert Power128(4) == 0x1000_0000;
    assert Power128(6) == 0x400_0000_0000;
    assert Power128(8) == 0x100_0000_0000_0000;
    Ones(8);
    hide Power128;
    assert PutVarint(0xffff_ffff_ffff_fffe) == [0xfe] + PutVarint(0x1ff_ffff_ffff_ffff);
  }

  lemma {:induction false} Ones(k: nat)
    ensures 2 * Power128(k) >= 1 && PutVarint(2 * Power128(k) - 1) == seq(k, _ => 0xff) + [0x01]
  {
    if k > 0 {
      Ones(k - 1);
      var n := 2 * Power128(k) - 1;
      assert n % 128 == 127 && n / 128 == 2 * Power128(k - 1) - 1;
      assert [0xff] + seq(k - 1, _ => 0xff) == seq(k, _ => 0xff);
    }
  }

  /** "Length-Delimited Records": a string of number 2. */
  lemma StringInNumbers()
    ensures TagBytes(2, WireType(StringKind(20))) + ValueBytes(StringKind(20), Blob([0x74, 0x65, 0x73, 0x74, 0x69, 0x6e, 0x67]))
            == [0x12, 0x07, 0x74, 0x65, 0x73, 0x74, 0x69, 0x6e, 0x67]
  {
  }

  /** "Submessages": the first message inside one of number 3. */
  lemma MessageInNumbers(f: Field)
    requires f.tag == 1 && f.rule == Optional && f.kind == VarintKind(4)
    ensures ValueOk(MessageKind([f]), Message([[Int(150)]]))
    ensures TagBytes(3, WireType(MessageKind([f]))) + ValueBytes(MessageKind([f]), Message([[Int(150)]]))
            == [0x1a, 0x03, 0x08, 0x96, 0x01]
  {
    OneField(f, [f], Message([[Int(150)]]));
    hide FieldsBytes, ValueOk;
  }

  /** "Repeated Elements": a packed list of number 4. */
  lemma ListInNumbers()
    ensures FieldBytes(Field(4, Repeated(9), VarintKind(4)), [Int(3), Int(270), Int(86942)])
            == [0x22, 0x06, 0x03, 0x8e, 0x02, 0x9e, 0xa7, 0x05]
  {
    ThreeNumbers(VarintKind(4));
    hide ValuesBytes;
  }

  /** A list of numbers is packed, whatever their type. */
  lemma VarintListsInNumbers()
    ensures OneIn(VarintKind(4)) == [0x22, 1, 1] && OneIn(UVarintKind(4)) == [0x22, 1, 1] && OneIn(SVarintKind(4)) == [0x22, 1, 2]
  {
    PackedOne(VarintKind(4), [1]);
    PackedOne(UVarintKind(4), [1]);
    PackedOne(SVarintKind(4), [2]);
    hide OneIn;
  }

  lemma FixedListsInNumbers()
    ensures OneIn(Fixed32Kind) == [0x22, 4, 1, 0, 0, 0]
    ensures OneIn(Fixed64Kind) == [0x22, 8, 1, 0, 0, 0, 0, 0, 0, 0]
  {
    PackedOne(Fixed32Kind, PutFixed32(1));
    PackedOne(Fixed64Kind, PutFixed64(1));
    hide OneIn;
    assert PutFixed64(1) == PutFixed32(1) + PutFixed32(0);
  }

  lemma PackedOne(k: Kind, bytes: Bytes)
    requires ValueOk(k, Int(1)) && ValueBytes(k, Int(1)) == bytes && |bytes| < 128
    requires k.VarintKind? || k.UVarintKind? || k.SVarintKind? || k.Fixed32Kind? || k.Fixed64Kind?
    ensures OneIn(k) == [0x22, |bytes| as Byte] + bytes
  {
    assert TagBytes(4, WT_STRING) == [0x22];
    hide ValueBytes, TagBytes;
    assert [Int(1)][1..] == [];
    assert ValuesBytes(k, [Int(1)]) == bytes;
  }

  /** Strings are not packed: each stands behind its own tag. */
  lemma StringListInNumbers(f: Field)
    requires f.tag == 4 && f.rule == Repeated(9) && f.kind == StringKind(9)
    ensures FieldBytes(f, [Blob([0x61]), Blob([0x62])]) == [0x22, 1, 0x61, 0x22, 1, 0x62]
  {
    var vs := [Blob([0x61]), Blob([0x62])];
    assert vs[1..] == [Blob([0x62])] && vs[1..][1..] == [];
    assert TaggedBytes(f, vs[1..]) == [0x22, 1, 0x62];
  }

  function OneIn(k: Kind): Bytes
    requires ValueOk(k, Int(1))
  {
    FieldBytes(Field(4, Repeated(9), k), [Int(1)])
  }

  lemma OneField(f: Field, d: Descriptor, m: Value)
    requires f.tag == 1 && f.rule == Optional && f.kind == VarintKind(4) && d == [f] && m == Message([[Int(150)]])
    ensures ValueOk(MessageKind(d), m) && FieldsBytes(MessageKind(d), m, 0) == [0x08, 0x96, 0x01]
  {
    var vs := m.slots[0];
    assert PutVarint(150) == [0x96, 0x01];
    assert vs[1..] == [];
    assert TaggedBytes(f, vs) == [0x08, 0x96, 0x01];
    assert FieldBytes(f, vs) == TaggedBytes(f, vs);
    assert FieldsBytes(MessageKind(d), m, 1) == [];
  }

  lemma ThreeNumbers(k: Kind)
    requires k == VarintKind(4)
    ensures ValuesBytes(k, [Int(3), Int(270), Int(86942)]) == [0x03, 0x8e, 0x02, 0x9e, 0xa7, 0x05]
  {
    var vs := [Int(3), Int(270), Int(86942)];
    assert PutVarint(270) == [0x8e, 0x02];
    assert PutVarint(86942 / 128) == [0xa7, 0x05];
    assert vs[1..] == [Int(270), Int(86942)] && vs[1..][1..] == [Int(86942)] && vs[1..][1..][1..] == [];
    assert ValuesBytes(k, vs[1..][1..]) == [0x9e, 0xa7, 0x05];
  }
}
