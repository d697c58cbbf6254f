/** The decoder (nanopb, pb_decode.c): records in any order, each into the slot of its field. */
module ProtobufDecode {
  import opened Coding
  import opened Protobuf
  import opened ProtobufReplay
  import opened ProtobufEncode
  import opened ProtobufStream
  import opened ProtobufFields

  // ---------- when a list of records makes a message ----------

  /** There is room for the record: arrays stay within their size, also inside a submessage that is
      merged into the one already there. */
  predicate Room(d: Descriptor, m: Slots, item: Item)
    requires |m| == |d| && item.field < |d|
    decreases MessageKind(d), 0, 0
  {
    var f := d[item.field];
    match f.rule
    case Repeated(max) => |m[item.field]| + |item.values| <= max
    case OneOf(_) => true
    case _ => item.values != [] ==> MergeRoom(f.kind, Present(f, m[item.field]), item.values[0])
  }

  predicate MergeRoom(k: Kind, base: Value, v: Value)
    decreases k, 2, 0
  {
    CanMerge(k, base, v) ==> Feasible(k.fields, base.slots, ItemsFrom(k.fields, v, 0))
  }

  predicate Feasible(d: Descriptor, m: Slots, items: seq<Item>)
    requires |m| == |d| && forall t :: 0 <= t < |items| ==> items[t].field < |d|
    decreases MessageKind(d), 1, |items|
  {
    items == [] || (Room(d, m, items[0]) && Feasible(d, Apply(d, m, items[0]), items[1..]))
  }

  /** Every required field that the decoder can keep track of has a record. */
  ghost predicate RequiredIn(d: Descriptor, items: seq<Item>) {
    forall i :: 0 <= i < |d| && d[i].rule.Required? && RequiredBefore(d, i) < MAX_REQUIRED_FIELDS ==>
      exists t :: 0 <= t < |items| && items[t].field == i
  }

  /** The value fits the C type and the sizes its descriptor gives it, at every depth: numbers are in range,
      bytes and strings within their capacity, arrays within their maximum, and a union has one member. */
  predicate InBounds(k: Kind, v: Value)
    decreases k
  {
    match k
    case VarintKind(w) => v.Int? && 0 - HalfRange(w) <= v.n < HalfRange(w)
    case SVarintKind(w) => v.Int? && 0 - HalfRange(w) <= v.n < HalfRange(w)
    case UVarintKind(w) => v.Int? && 0 <= v.n < 2 * HalfRange(w)
    case Fixed32Kind => v.Int? && 0 <= v.n < WORD
    case Fixed64Kind => v.Int? && 0 <= v.n < DWORD
    case BytesKind(c) => v.Blob? && |v.bytes| <= c
    case StringKind(c) => v.Blob? && (v.bytes == [] || |v.bytes| < c)
    case FixedBytesKind(n) => v.Blob? && |v.bytes| == n
    case MessageKind(d) =>
      && v.Message? && |v.slots| == |d|
      && (forall i :: 0 <= i < |d| ==> CountOk(d[i].rule, |v.slots[i]|) && OneArm(d, v.slots, i))
      && forall i, j :: 0 <= i < |d| && 0 <= j < |v.slots[i]| ==> InBounds(d[i].kind, v.slots[i][j])
  }

  lemma {:induction false} DefaultInBounds(k: Kind)
    ensures InBounds(k, DefaultValue(k))
    decreases k
  {
    if k.MessageKind? {
      forall i, j | 0 <= i < |k.fields| && 0 <= j < |DefaultValue(k).slots[i]|
        ensures InBounds(k.fields[i].kind, DefaultValue(k).slots[i][j])
      {
        DefaultInBounds(k.fields[i].kind);
      }
    }
  }

  /** Every value the encoder accepts is in bounds. */
  lemma {:induction false} EncodableIsInBounds(k: Kind, v: Value)
    requires ValueOk(k, v)
    ensures InBounds(k, v)
    decreases k
  {
    if k.MessageKind? {
      forall i, j | 0 <= i < |k.fields| && 0 <= j < |v.slots[i]| ensures InBounds(k.fields[i].kind, v.slots[i][j]) {
        EncodableIsInBounds(k.fields[i].kind, v.slots[i][j]);
      }
    }
  }

  /** The records of a message in bounds can be read back into a fresh one. */
  lemma {:induction false} FeasibleConcat(d: Descriptor, m: Slots, a: seq<Item>, b: seq<Item>)
    requires |m| == |d| && (forall t :: 0 <= t < |a| ==> a[t].field < |d|) && (forall t :: 0 <= t < |b| ==> b[t].field < |d|)
    requires Feasible(d, m, a) && Feasible(d, ApplyAll(d, m, a), b)
    ensures Feasible(d, m, a + b)
    decreases |a|
  {
    hide Room, Apply;
    if a == [] {
      assert a + b == b;
    } else {
      assert (a + b)[1..] == a[1..] + b;
      FeasibleConcat(d, Apply(d, m, a[0]), a[1..], b);
    }
  }

  lemma {:induction false} RepeatedFeasible(d: Descriptor, m: Slots, i: nat, vs: seq<Value>)
    requires |m| == |d| && i < |d| && d[i].rule.Repeated? && |m[i]| + |vs| <= d[i].rule.max
    ensures Feasible(d, m, Singles(i, vs))
    decreases |vs|
  {
    hide Merged, MergeRoom;
    var items := Singles(i, vs);
    if vs == [] {
      NoneFeasible(d, m);
    } else {
      assert items[0] == Item(i, [vs[0]]) && items[1..] == Singles(i, vs[1..]);
      RepeatedFeasible(d, m[i := m[i] + [vs[0]]], i, vs[1..]);
      assert Apply(d, m, items[0]) == m[i := m[i] + [vs[0]]] && Room(d, m, items[0]);
    }
  }

  lemma FieldFeasible(d: Descriptor, v: Value, i: nat)
    requires ValueOk(MessageKind(d), v) && i < |d|
    ensures forall t :: 0 <= t < |ItemsOfField(d[i], i, v.slots[i])| ==> ItemsOfField(d[i], i, v.slots[i])[t].field == i
    ensures Feasible(d, Partial(d, v, i), ItemsOfField(d[i], i, v.slots[i]))
    decreases MessageKind(d), 0, 0
  {
    hide *;
    CountAndArm(d, v, i);
    var f, vs, m := d[i], v.slots[i], Partial(d, v, i);
    FieldItems(f, i, vs);
    if ItemsOfField(f, i, vs) == [] {
      NoneFeasible(d, m);
    } else if f.rule.Repeated? && !Packed(f) {
      ArrayRoom(d, v, i);
      RepeatedFeasible(d, m, i, vs);
    } else {
      if !f.rule.Repeated? {
        DefaultHasRoom(f.kind, vs[0]);
      }
      RoomForField(d, v, i);
      OneFeasible(d, m, Item(i, vs));
    }
  }

  /** A field is no record, or one for each value, or one for all of them. */
  lemma FieldItems(f: Field, i: nat, vs: seq<Value>)
    requires CountOk(f.rule, |vs|) && forall j :: 0 <= j < |vs| ==> ValueOk(f.kind, vs[j])
    ensures var items := ItemsOfField(f, i, vs);
            items == [] || (vs != [] && items == if f.rule.Repeated? && !Packed(f) then Singles(i, vs) else [Item(i, vs)])
  {
    hide ValueOk, IsZero;
    if vs != [] && !f.rule.Repeated? {
      assert vs == [vs[0]];
    }
  }

  lemma NoneFeasible(d: Descriptor, m: Slots)
    requires |m| == |d|
    ensures Feasible(d, m, [])
  {
  }

  lemma ArrayRoom(d: Descriptor, v: Value, i: nat)
    requires ValueOk(MessageKind(d), v) && i < |d| && d[i].rule.Repeated?
    ensures v.Message? && |v.slots| == |d| && |Partial(d, v, i)[i]| + |v.slots[i]| <= d[i].rule.max
  {
    hide ValueOk;
    CountAndArm(d, v, i);
    assert Partial(d, v, i)[i] == DefaultSlot(d[i]);
  }

  lemma RoomForField(d: Descriptor, v: Value, i: nat)
    requires ValueOk(MessageKind(d), v) && i < |d|
    requires v.Message? && |v.slots| == |d| && v.slots[i] != []
    requires !d[i].rule.Repeated? ==> MergeRoom(d[i].kind, DefaultValue(d[i].kind), v.slots[i][0])
    ensures Room(d, Partial(d, v, i), Item(i, v.slots[i]))
  {
    hide ValueOk, MergeRoom;
    CountAndArm(d, v, i);
    assert Partial(d, v, i)[i] == DefaultSlot(d[i]);
  }

  lemma OneFeasible(d: Descriptor, m: Slots, item: Item)
    requires |m| == |d| && item.field < |d| && Room(d, m, item)
    ensures Feasible(d, m, [item])
  {
    hide Room, Apply;
    assert [item][1..] == [] && Feasible(d, Apply(d, m, item), []);
  }

  /** A fresh submessage has room for any message in bounds. */
  lemma {:induction false} DefaultHasRoom(k: Kind, v: Value)
    requires ValueOk(k, v)
    ensures MergeRoom(k, DefaultValue(k), v)
    decreases k, 2, 0
  {
    if k.MessageKind? {
      assert k == MessageKind(k.fields);
      MessageShape(k.fields, v);
      ItemsFeasible(k.fields, v, 0);
      assert DefaultValue(k).slots == DefaultSlots(k.fields) == Partial(k.fields, v, 0);
    }
  }

  lemma {:induction false} ItemsFeasible(d: Descriptor, v: Value, i: nat)
    requires ValueOk(MessageKind(d), v) && i <= |d|
    ensures forall t :: 0 <= t < |ItemsFrom(d, v, i)| ==> ItemsFrom(d, v, i)[t].field < |d|
    ensures Feasible(d, Partial(d, v, i), ItemsFrom(d, v, i))
    decreases MessageKind(d), 1, |d| - i
  {
    hide ValueOk, Apply, ItemsOfField, Room;
    MessageShape(d, v);
    if i < |d| {
      CountAndArm(d, v, i);
      FieldFeasible(d, v, i);
      FieldReplay(d, v, i);
      ItemsFeasible(d, v, i + 1);
      FeasibleConcat(d, Partial(d, v, i), ItemsOfField(d[i], i, v.slots[i]), ItemsFrom(d, v, i + 1));
    }
  }

  lemma {:induction false} RequiredHasItem(d: Descriptor, v: Value, i: nat, r: nat) returns (t: nat)
    requires ValueOk(MessageKind(d), v) && i <= r < |d| && d[r].rule.Required?
    ensures t < |ItemsFrom(d, v, i)| && ItemsFrom(d, v, i)[t].field == r
    decreases |d| - i
  {
    hide ValueOk, IsZero;
    CountAndArm(d, v, i);
    if i == r {
      assert ItemsOfField(d[i], i, v.slots[i])[0] == Item(i, [v.slots[i][0]]);
      t := 0;
    } else {
      var u := RequiredHasItem(d, v, i + 1, r);
      t := u + |ItemsOfField(d[i], i, v.slots[i])|;
    }
  }

  /** Everything a decoder needs to know about the records of an encoded message. */
  lemma EncodedMessageReads(k: Kind, v: Value)
    requires k.MessageKind? && ValueOk(k, v)
    ensures var d, items := k.fields, ItemsFrom(k.fields, v, 0);
            && v.Message? && DescriptorOk(d) && ItemsOk(d, items) && ItemsBytes(d, items) == FieldsBytes(k, v, 0)
            && (forall t :: 0 <= t < |items| ==> items[t].field < |d|)
            && Feasible(d, DefaultSlots(d), items) && RequiredIn(d, items)
            && ApplyAll(d, DefaultSlots(d), items) == v.slots
  {
    hide ValueOk, Feasible, ApplyAll, ItemsFrom, ItemsBytes, FieldsBytes, ItemOk;
    var d, items := k.fields, ItemsFrom(k.fields, v, 0);
    MessageShape(d, v);
    assert k == MessageKind(d);
    MessageIsItems(k, v, 0);
    ItemsFeasible(d, v, 0);
    ItemsReplay(d, v, 0);
    assert Partial(d, v, 0) == DefaultSlots(d);
    forall i | 0 <= i < |d| && d[i].rule.Required? ensures exists t :: 0 <= t < |items| && items[t].field == i {
      var t := RequiredHasItem(d, v, 0, i);
    }
  }

  // ---------- numbers ----------

  /** pb_dec_varint: narrow fields are read as 32-bit first; what does not fit is an error. */
  function SignedOf(width: nat, value: nat): (n: int)
    requires value < DWORD
  {
    if width == 8 then (if value >= 0x8000_0000_0000_0000 then value - DWORD else value)
    else
      var low := value % WORD;
      if low >= 0x8000_0000 then low - WORD else low
  }

  lemma SignedRoundTrip(width: nat, n: int)
    requires InRange(width, n)
    ensures Unsigned(n) < DWORD && SignedOf(width, Unsigned(n)) == n
  {
    if width != 8 && n < 0 {
      assert Unsigned(n) == (n + WORD) + WORD * (WORD - 1);
      assert (n + WORD + WORD * (WORD - 1)) % WORD == n + WORD;
    }
  }

  function UnZigZag(v: nat): int {
    if v % 2 == 1 then -(v / 2) - 1 else v / 2
  }

  lemma ZigZagRoundTrip(width: nat, n: int)
    requires InRange(width, n)
    ensures ZigZag(n) < DWORD && UnZigZag(ZigZag(n)) == n
  {
  }

  lemma EncodedVarint(m: nat, tail: Bytes)
    requires m < DWORD
    ensures GetVarint(PutVarint(m) + tail, 10) == Varint(m, |PutVarint(m)|)
    ensures (PutVarint(m) + tail)[|PutVarint(m)|..] == tail
  {
    EnoughBytes();
    VarintRoundTrip(m, 10, tail);
  }

  /** Decodes a varint; the three signedness kinds agree on the wire. */
  method DecodeInteger(s: IStream, k: Kind, ghost v: Value, ghost tail: Bytes) returns (ok: bool, value: Value)
    requires k.VarintKind? || k.UVarintKind? || k.SVarintKind?
    modifies s
    ensures |s.rest| <= |old(s.rest)| && (ok ==> |s.rest| < |old(s.rest)| && InBounds(k, value))
    ensures ValueOk(k, v) && old(s.rest) == ValueBytes(k, v) + tail ==> ok && value == v && s.rest == tail
  {
    hide GetVarint, PutVarint, Unsigned, ZigZag, SignedOf, UnZigZag;
    if ValueOk(k, v) && s.rest == ValueBytes(k, v) + tail {
      IntegerBytes(k, v);
      EncodedVarint(WireNumber(k, v), tail);
    }
    var n: nat;
    ok, n := s.DecodeVarint();
    match k
    case VarintKind(w) =>
      value := Int(if ok then SignedOf(w, n) else 0);
      ok := ok && InRange(w, value.n);
    case SVarintKind(w) =>
      value := Int(UnZigZag(n));
      ok := ok && InRange(w, value.n);
    case UVarintKind(w) =>
      value := Int(n);
      ok := ok && WidthOk(w) && n < 2 * HalfRange(w);
  }

  /** The number an integer value is written as. */
  ghost function WireNumber(k: Kind, v: Value): (m: nat)
    requires (k.VarintKind? || k.UVarintKind? || k.SVarintKind?) && ValueOk(k, v)
  {
    if k.VarintKind? then Unsigned(v.n) else if k.UVarintKind? then v.n else ZigZag(v.n)
  }

  lemma IntegerBytes(k: Kind, v: Value)
    requires (k.VarintKind? || k.UVarintKind? || k.SVarintKind?) && ValueOk(k, v)
    ensures WireNumber(k, v) < DWORD && ValueBytes(k, v) == PutVarint(WireNumber(k, v))
    ensures k.VarintKind? ==> v == Int(SignedOf(k.width, WireNumber(k, v))) && InRange(k.width, v.n)
    ensures k.SVarintKind? ==> v == Int(UnZigZag(WireNumber(k, v))) && InRange(k.width, v.n)
    ensures k.UVarintKind? ==> v == Int(WireNumber(k, v)) && WidthOk(k.width) && v.n < 2 * HalfRange(k.width)
  {
    if k.VarintKind? {
      SignedRoundTrip(k.width, v.n);
    } else if k.SVarintKind? {
      ZigZagRoundTrip(k.width, v.n);
    }
  }

  method DecodeFixed(s: IStream, k: Kind, ghost v: Value, ghost tail: Bytes) returns (ok: bool, value: Value)
    requires k.Fixed32Kind? || k.Fixed64Kind?
    modifies s
    ensures |s.rest| <= |old(s.rest)| && (ok ==> |s.rest| < |old(s.rest)| && InBounds(k, value))
    ensures ValueOk(k, v) && old(s.rest) == ValueBytes(k, v) + tail ==> ok && value == v && s.rest == tail
  {
    hide GetFixed32, PutFixed32, GetFixed64, PutFixed64;
    ghost var expected := ValueOk(k, v) && s.rest == ValueBytes(k, v) + tail;
    var bytes: Bytes;
    value := Int(0);
    if k.Fixed32Kind? {
      if expected {
        FixedNatRoundTrip(v.n, []);
        assert s.rest[..4] == PutFixed32(v.n) == PutFixed32(v.n) + [];
      }
      ok, bytes := s.Read(4);
      if ok {
        value := Int(GetFixed32(bytes));
      }
    } else {
      if expected {
        Fixed64RoundTrip(v.n, []);
        assert s.rest[..8] == PutFixed64(v.n) == PutFixed64(v.n) + [];
      }
      ok, bytes := s.Read(8);
      if ok {
        value := Int(GetFixed64(bytes));
      }
    }
  }

  /** Decodes one value that is not a message. */
  method DecodeScalar(s: IStream, k: Kind, ghost v: Value, ghost tail: Bytes) returns (ok: bool, value: Value)
    requires !k.MessageKind?
    modifies s
    ensures |s.rest| <= |old(s.rest)| && (ok && Packable(k) ==> |s.rest| < |old(s.rest)|) && (ok ==> InBounds(k, value))
    ensures ValueOk(k, v) && old(s.rest) == ValueBytes(k, v) + tail ==> ok && value == v && s.rest == tail
  {
    if k.BytesKind? || k.StringKind? || k.FixedBytesKind? {
      ok, value := DecodeBlob(s, k, v, tail);
    } else if k.Fixed32Kind? || k.Fixed64Kind? {
      ok, value := DecodeFixed(s, k, v, tail);
    } else {
      ok, value := DecodeInteger(s, k, v, tail);
    }
  }

  /** Bytes, strings with room for their terminator, and byte fields of fixed length, for which an
      empty string stands for zeros. */
  method DecodeBlob(s: IStream, k: Kind, ghost v: Value, ghost tail: Bytes) returns (ok: bool, value: Value)
    requires k.BytesKind? || k.StringKind? || k.FixedBytesKind?
    modifies s
    ensures |s.rest| <= |old(s.rest)| && (ok ==> InBounds(k, value))
    ensures ValueOk(k, v) && old(s.rest) == ValueBytes(k, v) + tail ==> ok && value == v && s.rest == tail
  {
    ghost var expected := ValueOk(k, v) && s.rest == ValueBytes(k, v) + tail;
    if expected {
      assert LengthPrefixed(v.bytes) + tail == PutVarint(|v.bytes|) + (v.bytes + tail);
    }
    value := Blob([]);
    var size: nat, eof: bool;
    ok, size, eof := s.DecodeVarint32(if expected then |v.bytes| else 0, if expected then v.bytes + tail else []);
    if !ok {
      return;
    }
    if k.BytesKind? {
      if size > k.capacity {
        return false, value;
      }
    } else if k.StringKind? {
      if size + 1 > k.capacity {
        return false, value;
      }
    } else {
      if size == 0 {
        return true, Blob(seq(k.length, _ => 0));
      }
      if size != k.length {
        return false, value;
      }
    }
    if expected {
      assert (v.bytes + tail)[..|v.bytes|] == v.bytes && (v.bytes + tail)[|v.bytes|..] == tail;
    }
    var bytes: Bytes;
    ok, bytes := s.Read(size);
    value := Blob(bytes);
  }

  // ---------- messages ----------

  /** The wire type and the bytes behind the tag of a record. */
  function ItemWireType(f: Field): nat {
    if Packed(f) then WT_STRING else WireType(f.kind)
  }

  function ItemPayload(d: Descriptor, item: Item): Bytes
    requires ItemOk(d, item)
  {
    var f := d[item.field];
    if Packed(f) then LengthPrefixed(ValuesBytes(f.kind, item.values)) else ValueBytes(f.kind, item.values[0])
  }

  /** What may come off the wire: a record of one of the fields, or one of a field unknown here. */
  datatype Record = Known(item: Item) | Unknown(tag: nat, wireType: nat, payload: Bytes)

  ghost predicate RecordOk(d: Descriptor, r: Record) {
    match r
    case Known(item) => ItemOk(d, item)
    case Unknown(tag, wireType, payload) =>
      0 < tag < 0x2000_0000 && IsPayload(wireType, payload) && forall i :: 0 <= i < |d| ==> d[i].tag != tag
  }

  ghost predicate RecordsOk(d: Descriptor, records: seq<Record>) {
    forall t :: 0 <= t < |records| ==> RecordOk(d, records[t])
  }

  ghost function RecordBytes(d: Descriptor, r: Record): Bytes
    requires RecordOk(d, r)
  {
    match r
    case Known(item) => ItemBytes(d, item)
    case Unknown(tag, wireType, payload) => TagBytes(tag, wireType) + payload
  }

  ghost function RecordsBytes(d: Descriptor, records: seq<Record>): Bytes
    requires RecordsOk(d, records)
  {
    if records == [] then [] else RecordBytes(d, records[0]) + RecordsBytes(d, records[1..])
  }

  /** The records that mean something to this descriptor. */
  ghost function KnownOf(records: seq<Record>): seq<Item> {
    if records == [] then [] else (if records[0].Known? then [records[0].item] else []) + KnownOf(records[1..])
  }

  ghost function AllKnown(items: seq<Item>): seq<Record> {
    seq(|items|, t requires 0 <= t < |items| => Known(items[t]))
  }

  lemma {:induction false} AllKnownBytes(d: Descriptor, items: seq<Item>)
    requires ItemsOk(d, items)
    ensures RecordsOk(d, AllKnown(items)) && RecordsBytes(d, AllKnown(items)) == ItemsBytes(d, items) && KnownOf(AllKnown(items)) == items
  {
    hide ItemOk, ItemBytes;
    if items != [] {
      AllKnownBytes(d, items[1..]);
      assert AllKnown(items)[1..] == AllKnown(items[1..]);
    }
  }

  predicate InFields(d: Descriptor, items: seq<Item>) {
    forall t :: 0 <= t < |items| ==> items[t].field < |d|
  }

  /** The records left to read, and the message built from those read. */
  ghost predicate Reading(d: Descriptor, init: Slots, m: Slots, records: seq<Record>, done: seq<Item>, rest: Bytes)
    requires |init| == |m| == |d|
  {
    && RecordsOk(d, records) && DescriptorOk(d) && InFields(d, done) && InFields(d, KnownOf(records))
    && rest == RecordsBytes(d, records) && |rest| < WORD
    && m == ApplyAll(d, init, done) && Feasible(d, m, KnownOf(records))
  }

  lemma StartReading(d: Descriptor, init: Slots, items: seq<Item>, rest: Bytes)
    requires |init| == |d| && ItemsOk(d, items) && DescriptorOk(d) && InFields(d, items)
    requires rest == ItemsBytes(d, items) && |rest| < WORD && Feasible(d, init, items)
    ensures Reading(d, init, init, AllKnown(items), [], rest) && KnownOf(AllKnown(items)) == items
  {
    AllKnownBytes(d, items);
  }

  /** What the tag of a record says, and what stands behind the tag. */
  ghost function RecordTag(d: Descriptor, r: Record): nat
    requires RecordOk(d, r)
  {
    if r.Known? then d[r.item.field].tag else r.tag
  }

  ghost function RecordWireType(d: Descriptor, r: Record): (t: nat)
    requires RecordOk(d, r)
    ensures t < 8
  {
    if r.Known? then ItemWireType(d[r.item.field]) else r.wireType
  }

  ghost function RecordPayload(d: Descriptor, r: Record): Bytes
    requires RecordOk(d, r)
  {
    if r.Known? then ItemPayload(d, r.item) else r.payload
  }

  lemma RecordParts(d: Descriptor, r: Record, tail: Bytes)
    requires RecordOk(d, r) && DescriptorOk(d)
    ensures RecordBytes(d, r) + tail == TagBytes(RecordTag(d, r), RecordWireType(d, r)) + (RecordPayload(d, r) + tail)
    ensures RecordBytes(d, r) != [] && 0 < RecordTag(d, r) < 0x2000_0000
  {
    hide TagBytes, LengthPrefixed, ValuesBytes, ValueBytes, ValueOk;
    var tag, payload := TagBytes(RecordTag(d, r), RecordWireType(d, r)), RecordPayload(d, r);
    assert RecordBytes(d, r) == tag + payload;
    assert (tag + payload) + tail == tag + (payload + tail);
    TagNonempty(RecordTag(d, r), RecordWireType(d, r));
  }

  /** One more record: its bytes, that there is room for it, and what remains. */
  lemma NextRecord(d: Descriptor, init: Slots, m: Slots, records: seq<Record>, done: seq<Item>, rest: Bytes)
    requires |init| == |m| == |d| && Reading(d, init, m, records, done, rest)
    ensures |rest| < WORD && InFields(d, done)
    ensures records == [] ==> rest == [] && m == ApplyAll(d, init, done)
    ensures records != [] ==>
              var r := records[0];
              && rest != [] && RecordOk(d, r) && RecordsOk(d, records[1..]) && DescriptorOk(d)
              && var tail := RecordsBytes(d, records[1..]);
              && rest == TagBytes(RecordTag(d, r), RecordWireType(d, r)) + (RecordPayload(d, r) + tail)
              && 0 < RecordTag(d, r) < 0x2000_0000
              && (r.Known? ==> Room(d, m, r.item))
              && (|tail| < WORD ==>
                    if r.Known? then Reading(d, init, Apply(d, m, r.item), records[1..], done + [r.item], tail)
                    else Reading(d, init, m, records[1..], done, tail))
  {
    hide TagBytes, RecordBytes, RecordPayload, RecordWireType, RecordTag, ItemPayload, ItemWireType, Apply, Room, ValueOk;
    if records != [] {
      var r, tail := records[0], RecordsBytes(d, records[1..]);
      RecordParts(d, r, tail);
      assert rest == RecordBytes(d, r) + tail;
      if r.Known? {
        assert KnownOf(records)[0] == r.item && KnownOf(records)[1..] == KnownOf(records[1..]);
        ApplyConcat(d, init, done, [r.item]);
        assert [r.item][1..] == [];
        assert ApplyAll(d, m, [r.item]) == ApplyAll(d, Apply(d, m, r.item), []);
      } else {
        assert KnownOf(records) == KnownOf(records[1..]);
      }
    }
  }

  /** Tags being distinct, the walk finds the record's own field, or none for an unknown record. */
  lemma FoundIsOwn(d: Descriptor, r: Record, i: nat)
    requires DescriptorOk(d) && RecordOk(d, r) && i < |d| && d[i].tag == RecordTag(d, r)
    ensures r.Known? && r.item.field == i && ItemOk(d, r.item)
    ensures RecordWireType(d, r) == ItemWireType(d[i]) && RecordPayload(d, r) == ItemPayload(d, r.item)
  {
  }

  lemma MovesOver(records: seq<Record>, done: seq<Item>)
    requires records != []
    ensures (if records[0].Known? then done + [records[0].item] else done) + KnownOf(records[1..]) == done + KnownOf(records)
  {
    if records[0].Known? {
      assert KnownOf(records) == [records[0].item] + KnownOf(records[1..]);
    } else {
      assert KnownOf(records) == KnownOf(records[1..]);
    }
  }

  lemma NotFoundIsUnknown(d: Descriptor, r: Record)
    requires RecordOk(d, r) && forall i :: 0 <= i < |d| ==> d[i].tag != RecordTag(d, r)
    ensures r.Unknown? && IsPayload(RecordWireType(d, r), RecordPayload(d, r))
  {
  }

  /** The required fields among those read have been marked. */
  ghost predicate Marked(d: Descriptor, done: seq<Item>, seen: FieldsSeen)
    reads seen
  {
    forall u :: 0 <= u < |done| && done[u].field < |d| && d[done[u].field].rule.Required? && RequiredBefore(d, done[u].field) < MAX_REQUIRED_FIELDS ==>
      seen.Has(RequiredBefore(d, done[u].field))
  }

  /** No other field has been marked. */
  ghost predicate OnlyMarked(d: Descriptor, done: seq<Item>, seen: FieldsSeen)
    reads seen
  {
    forall r: nat :: seen.Has(r) ==> MarkedBy(d, done, r)
  }

  ghost predicate MarkedBy(d: Descriptor, done: seq<Item>, r: nat) {
    exists u :: 0 <= u < |done| && done[u].field < |d| && d[done[u].field].rule.Required? && RequiredBefore(d, done[u].field) == r
  }

  /** pb_decode_noinit: reads records until the stream ends, then checks the required fields. Any list
      of records that fits, in any order and with unknown ones anywhere between them, is read as what
      the known ones mean one by one, and fails exactly when one of the first 64 required fields has
      no record. */
  method DecodeMessage(s: IStream, k: Kind, init: Slots, ghost records: seq<Record>) returns (ok: bool, m: Slots)
    requires k.MessageKind? && InBounds(k, Message(init))
    modifies s
    ensures |s.rest| <= |old(s.rest)| && (ok ==> InBounds(k, Message(m)))
    ensures InFields(k.fields, KnownOf(records)) && Reading(k.fields, init, init, records, [], old(s.rest)) ==>
              && (ok <==> RequiredIn(k.fields, KnownOf(records)))
              && (ok ==> m == ApplyAll(k.fields, init, KnownOf(records)) && s.rest == [])
    decreases k, 2
  {
    hide Reading, InBounds, DescriptorOk, Room, Apply, ApplyAll, RequiredIn, TagBytes, ItemPayload, Marked, OnlyMarked, RecordsBytes, RecordsOk,
      RecordTag, RecordWireType, RecordPayload, ItemWireType, RequiredBefore, FieldsSeen.Has, WireType, ValueOk, RecordOk, InFields;
    var d := k.fields;
    m := init;
    var seen := new FieldsSeen();
    var iter: FieldIter? := null;
    if d != [] {
      iter := new FieldIter(d);
    }
    ghost var left, done: seq<Item> := records, [];
    BoundsShape(k, init);
    ghost var sound := Reading(d, init, init, records, [], s.rest);
    NoneMarked(d, seen);
    while s.rest != []
      invariant fresh(seen) && (d == [] <==> iter == null) && (iter != null ==> fresh(iter) && iter.Ok() && iter.d == d)
      invariant |s.rest| <= |old(s.rest)| && InBounds(k, Message(m)) && |m| == |d|
      invariant sound ==> Reading(d, init, m, left, done, s.rest) && done + KnownOf(left) == KnownOf(records)
      invariant sound ==> Marked(d, done, seen) && OnlyMarked(d, done, seen)
      invariant forall r: nat :: seen.Has(r) ==> r < RequiredBefore(d, |d|)
      decreases |s.rest|
    {
      if sound {
        NextRecord(d, init, m, left, done, s.rest);
      }
      var eof;
      ok, eof, m, done := DecodeRecord(s, k, m, iter, seen, init, left, done, sound);
      if !ok {
        return;
      }
      if eof {
        break;
      }
      if sound {
        left := left[1..];
      }
    }
    if sound {
      NextRecord(d, init, m, left, done, s.rest);
      assert done == KnownOf(records);
    }
    var present := true;
    if iter != null {
      present := seen.AllPresent(iter);
    }
    if sound {
      AllMarkedIff(d, done, seen);
    }
    return present, m;
  }

  /** The body of that loop: a tag, and then a field or bytes to skip. */
  method DecodeRecord(s: IStream, k: Kind, m: Slots, iter: FieldIter?, seen: FieldsSeen,
                      ghost init: Slots, ghost left: seq<Record>, ghost done: seq<Item>, ghost sound: bool)
      returns (ok: bool, eof: bool, r: Slots, ghost nowDone: seq<Item>)
    requires k.MessageKind? && InBounds(k, Message(m)) && |m| == |init| == |k.fields|
    requires (k.fields == [] <==> iter == null) && (iter != null ==> iter.Ok() && iter.d == k.fields)
    requires sound ==> left != [] && Reading(k.fields, init, m, left, done, s.rest)
    requires sound ==> Marked(k.fields, done, seen) && OnlyMarked(k.fields, done, seen)
    requires forall r: nat :: seen.Has(r) ==> r < RequiredBefore(k.fields, |k.fields|)
    modifies s, iter, seen
    ensures |s.rest| <= |old(s.rest)| && (iter != null ==> iter.Ok())
    ensures ok ==> InBounds(k, Message(r)) && |r| == |k.fields| && (!eof ==> |s.rest| < |old(s.rest)|)
    ensures sound ==> ok && !eof && Reading(k.fields, init, r, left[1..], nowDone, s.rest) && nowDone + KnownOf(left[1..]) == done + KnownOf(left)
    ensures sound ==> Marked(k.fields, nowDone, seen) && OnlyMarked(k.fields, nowDone, seen)
    ensures forall r: nat :: seen.Has(r) ==> r < RequiredBefore(k.fields, |k.fields|)
    decreases k, 1
  {
    hide Reading, InBounds, DescriptorOk, Room, Apply, ApplyAll, RequiredIn, TagBytes, ItemPayload, Marked, OnlyMarked, RecordsBytes, RecordsOk,
      RequiredBefore, ValueOk, InFields, KnownOf, RecordOk, RecordTag, RecordWireType, RecordPayload, ItemOk, IsPayload, ItemWireType, FieldsSeen.Has;
    var d := k.fields;
    r, nowDone := m, done;
    if sound {
      NextRecord(d, init, m, left, done, s.rest);
      MovesOver(left, done);
    }
    ghost var record := if sound then left[0] else Known(Item(0, []));
    ghost var tail := if sound then RecordsBytes(d, left[1..]) else [];
    ghost var payload := if sound then RecordPayload(d, record) else [];
    var wireType, number;
    ok, wireType, number, eof := s.DecodeTag(if sound then RecordTag(d, record) else 0, if sound then RecordWireType(d, record) else 0, payload + tail);
    if !ok {
      ok := eof;
      return;
    }
    eof := false;
    var found := false;
    if iter != null {
      found := iter.Find(number);
    }
    if !found {
      if sound {
        NotFoundIsUnknown(d, record);
      }
      ok := s.SkipField(wireType, payload, tail);
      return;
    }
    var i := iter.pos;
    ghost var item := if sound && record.Known? then record.item else Item(0, []);
    if sound {
      FoundIsOwn(d, record, i);
      nowDone := done + [item];
    }
    MarkField(d, iter, seen, done, item, sound);
    ok, r := DecodeField(s, k, m, i, wireType, item, tail, sound);
  }

  lemma NoneMarked(d: Descriptor, seen: FieldsSeen)
    requires forall r: nat :: !seen.Has(r)
    ensures Marked(d, [], seen) && OnlyMarked(d, [], seen)
  {
  }

  /** A record of a required field sets that field's bit. */
  method MarkField(d: Descriptor, iter: FieldIter, seen: FieldsSeen, ghost done: seq<Item>, ghost item: Item, ghost sound: bool)
    requires iter.Ok() && iter.d == d
    requires sound ==> item.field == iter.pos && Marked(d, done, seen) && OnlyMarked(d, done, seen)
    requires forall r: nat :: seen.Has(r) ==> r < RequiredBefore(d, |d|)
    modifies seen
    ensures sound ==> Marked(d, done + [item], seen) && OnlyMarked(d, done + [item], seen)
    ensures forall r: nat :: seen.Has(r) ==> r < RequiredBefore(d, |d|)
  {
    if d[iter.pos].rule.Required? {
      RequiredGrows(d, iter.pos, |d|);
      seen.Mark(iter.requiredIndex);
    }
    if sound {
      ghost var now := done + [item];
      forall r: nat | seen.Has(r) ensures MarkedBy(d, now, r) {
        if old(seen.Has(r)) {
          assert MarkedBy(d, done, r);
          ghost var u :| 0 <= u < |done| && done[u].field < |d| && d[done[u].field].rule.Required? && RequiredBefore(d, done[u].field) == r;
          assert now[u] == done[u];
        } else {
          assert now[|done|] == item;
        }
      }
    }
  }

  lemma MarkedAt(d: Descriptor, items: seq<Item>, seen: FieldsSeen, r: nat)
    requires Marked(d, items, seen) && RequiredIn(d, items)
    requires r < RequiredBefore(d, |d|) && r < MAX_REQUIRED_FIELDS
    ensures seen.Has(r)
  {
    var i := NthRequired(d, |d|, r);
    assert exists t :: 0 <= t < |items| && items[t].field == i;
  }

  lemma SeenIsIn(d: Descriptor, items: seq<Item>, seen: FieldsSeen, i: nat)
    requires OnlyMarked(d, items, seen) && i < |d| && d[i].rule.Required? && seen.Has(RequiredBefore(d, i))
    ensures exists t :: 0 <= t < |items| && items[t].field == i
  {
    assert MarkedBy(d, items, RequiredBefore(d, i));
    var u :| 0 <= u < |items| && items[u].field < |d| && d[items[u].field].rule.Required?
             && RequiredBefore(d, items[u].field) == RequiredBefore(d, i);
    if i < items[u].field {
      RequiredGrows(d, i, items[u].field);
    } else {
      RequiredGrows(d, items[u].field, i);
    }
  }

  lemma AllMarkedIff(d: Descriptor, items: seq<Item>, seen: FieldsSeen)
    requires Marked(d, items, seen) && OnlyMarked(d, items, seen)
    ensures d == [] ==> RequiredIn(d, items)
    ensures RequiredIn(d, items) <==> forall r: nat :: r < RequiredBefore(d, |d|) && r < MAX_REQUIRED_FIELDS ==> seen.Has(r)
  {
    if RequiredIn(d, items) {
      forall r: nat | r < RequiredBefore(d, |d|) && r < MAX_REQUIRED_FIELDS ensures seen.Has(r) {
        MarkedAt(d, items, seen, r);
      }
    } else {
      var i :| 0 <= i < |d| && d[i].rule.Required? && RequiredBefore(d, i) < MAX_REQUIRED_FIELDS
               && !exists t :: 0 <= t < |items| && items[t].field == i;
      RequiredGrows(d, i, |d|);
      if seen.Has(RequiredBefore(d, i)) {
        SeenIsIn(d, items, seen, i);
      }
    }
  }

  lemma BoundsShape(k: Kind, m: Slots)
    requires k.MessageKind? && InBounds(k, Message(m))
    ensures |m| == |k.fields|
    ensures forall i :: 0 <= i < |m| ==> CountOk(k.fields[i].rule, |m[i]|)
    ensures forall i, j :: 0 <= i < |m| && 0 <= j < |m[i]| ==> InBounds(k.fields[i].kind, m[i][j])
  {
  }

  lemma SlotInBounds(k: Kind, m: Slots, i: nat, vs: seq<Value>)
    requires k.MessageKind? && InBounds(k, Message(m)) && i < |m| == |k.fields|
    requires CountOk(k.fields[i].rule, |vs|) && forall j :: 0 <= j < |vs| ==> InBounds(k.fields[i].kind, vs[j])
    requires k.fields[i].rule.OneOf? ==> forall c :: 0 <= c < |m| && c != i && k.fields[c].rule == k.fields[i].rule ==> m[c] == []
    ensures InBounds(k, Message(m[i := vs]))
  {
    var r := m[i := vs];
    forall c | 0 <= c < |r| ensures CountOk(k.fields[c].rule, |r[c]|) && OneArm(k.fields, r, c) {
      assert CountOk(k.fields[c].rule, |m[c]|) && OneArm(k.fields, m, c);
    }
  }

  /** Unsetting the other members of a union. */
  function Cleared(d: Descriptor, m: Slots, i: nat): (r: Slots)
    requires |m| == |d| && i < |d|
    ensures |r| == |d|
    ensures forall c :: 0 <= c < |d| ==> r[c] == if d[c].rule == d[i].rule then [] else m[c]
  {
    seq(|d|, c requires 0 <= c < |d| => if d[c].rule == d[i].rule then [] else m[c])
  }

  lemma ClearedInBounds(k: Kind, m: Slots, i: nat)
    requires k.MessageKind? && InBounds(k, Message(m)) && |m| == |k.fields| && i < |k.fields| && k.fields[i].rule.OneOf?
    ensures InBounds(k, Message(Cleared(k.fields, m, i)))
  {
    var r := Cleared(k.fields, m, i);
    forall c | 0 <= c < |r| ensures CountOk(k.fields[c].rule, |r[c]|) && OneArm(k.fields, r, c) {
      assert CountOk(k.fields[c].rule, |m[c]|) && OneArm(k.fields, m, c);
    }
  }

  /** decode_static_field: one record into its slot. */
  method DecodeField(s: IStream, k: Kind, m: Slots, i: nat, wireType: nat, ghost item: Item, ghost tail: Bytes, ghost sound: bool) returns (ok: bool, r: Slots)
    requires k.MessageKind? && InBounds(k, Message(m)) && |m| == |k.fields| && i < |k.fields|
    requires sound ==>
               && item.field == i && ItemOk(k.fields, item) && Room(k.fields, m, item)
               && wireType == ItemWireType(k.fields[i]) && s.rest == ItemPayload(k.fields, item) + tail && |s.rest| < WORD
    modifies s
    ensures |s.rest| <= |old(s.rest)| && (ok ==> |r| == |k.fields| && InBounds(k, Message(r)))
    ensures sound ==> ok && r == Apply(k.fields, m, item) && s.rest == tail
    decreases k, 0
  {
    hide InBounds, ValueOk, ValueBytes, ValuesBytes, LengthPrefixed, MergeRoom, Merged;
    var f := k.fields[i];
    r := m;
    var value: Value;
    BoundsShape(k, m);
    ghost var v := if sound then item.values[0] else Int(0);
    match f.rule {
      case Repeated(max) =>
        var vs;
        ok, vs := DecodeElements(s, f, m[i], wireType, if sound then item.values else [], tail, sound);
        if !ok {
          return;
        }
        SlotInBounds(k, m, i, vs);
        r := m[i := vs];
      case OneOf(_) =>
        r := Cleared(k.fields, m, i);
        ClearedInBounds(k, m, i);
        DefaultInBounds(f.kind);
        if sound {
          DefaultHasRoom(f.kind, v);
          MergedIntoDefault(f.kind, v);
        }
        ok, value := DecodeOne(s, f.kind, DefaultValue(f.kind), v, tail, sound);
        if !ok {
          return;
        }
        SlotInBounds(k, r, i, [value]);
        r := r[i := [value]];
        if sound {
          assert item.values == [v];
          assert r == Apply(k.fields, m, item);
        }
      case _ =>
        DefaultInBounds(f.kind);
        ok, value := DecodeOne(s, f.kind, if m[i] != [] then m[i][0] else DefaultValue(f.kind), v, tail, sound);
        if !ok {
          return;
        }
        SlotInBounds(k, m, i, [value]);
        r := m[i := [value]];
        if sound {
          assert item.values == [v];
        }
    }
  }

  /** A record of an array: a packed one brings any number of values, another brings one. */
  method DecodeElements(s: IStream, f: Field, before: seq<Value>, wireType: nat, ghost expected: seq<Value>, ghost tail: Bytes, ghost sound: bool)
      returns (ok: bool, vs: seq<Value>)
    requires f.rule.Repeated? && |before| <= f.rule.max && forall j :: 0 <= j < |before| ==> InBounds(f.kind, before[j])
    requires sound ==>
               && (forall j :: 0 <= j < |expected| ==> ValueOk(f.kind, expected[j])) && |before| + |expected| <= f.rule.max
               && wireType == ItemWireType(f) && (!Packed(f) ==> |expected| == 1) && |s.rest| < WORD
               && s.rest == (if Packed(f) then LengthPrefixed(ValuesBytes(f.kind, expected)) else ValueBytes(f.kind, expected[0])) + tail
    modifies s
    ensures |s.rest| <= |old(s.rest)| && (ok ==> |vs| <= f.rule.max && forall j :: 0 <= j < |vs| ==> InBounds(f.kind, vs[j]))
    ensures sound ==> ok && vs == before + expected && s.rest == tail
    decreases f.kind, 4
  {
    hide InBounds, ValueOk, ValueBytes, ValuesBytes, LengthPrefixed, MergeRoom, Merged;
    vs := before;
    if wireType == WT_STRING && Packable(f.kind) {
      ok, vs := DecodePacked(s, f, before, expected, tail, sound);
      return;
    }
    if |vs| >= f.rule.max {
      return false, vs;
    }
    DefaultInBounds(f.kind);
    ghost var v := if sound then expected[0] else Int(0);
    if sound {
      DefaultHasRoom(f.kind, v);
      MergedIntoDefault(f.kind, v);
    }
    var value: Value;
    ok, value := DecodeOne(s, f.kind, DefaultValue(f.kind), v, tail, sound);
    vs := vs + [value];
    if sound {
      assert expected == [v];
    }
  }

  /** A packed array: values until its part of the stream is used up or the array is full. */
  method DecodePacked(s: IStream, f: Field, before: seq<Value>, ghost expected: seq<Value>, ghost tail: Bytes, ghost sound: bool)
      returns (ok: bool, vs: seq<Value>)
    requires Packed(f) && |before| <= f.rule.max && forall j :: 0 <= j < |before| ==> InBounds(f.kind, before[j])
    requires sound ==>
               && (forall j :: 0 <= j < |expected| ==> ValueOk(f.kind, expected[j])) && |before| + |expected| <= f.rule.max
               && s.rest == LengthPrefixed(ValuesBytes(f.kind, expected)) + tail && |s.rest| < WORD
    modifies s
    ensures |s.rest| <= |old(s.rest)| && (ok ==> |vs| <= f.rule.max && forall j :: 0 <= j < |vs| ==> InBounds(f.kind, vs[j]))
    ensures sound ==> ok && vs == before + expected && s.rest == tail
  {
    hide ValueOk, ValueBytes;
    ghost var body := if sound then ValuesBytes(f.kind, expected) else [];
    vs := before;
    var sub: IStream;
    ok, sub := s.MakeSubstream(body, tail);
    if !ok {
      return;
    }
    ghost var j := 0;
    assert expected[0..] == expected && before + expected[..0] == before;
    while sub.rest != [] && |vs| < f.rule.max
      modifies sub
      invariant j <= |expected| && |vs| <= f.rule.max && forall c :: 0 <= c < |vs| ==> InBounds(f.kind, vs[c])
      invariant sound ==> vs == before + expected[..j] && sub.rest == ValuesBytes(f.kind, expected[j..])
      decreases |sub.rest|
    {
      ghost var v := if sound then expected[j] else Int(0);
      ghost var more := if sound then ValuesBytes(f.kind, expected[j + 1..]) else [];
      if sound {
        assert expected[j..][1..] == expected[j + 1..];
      }
      var value;
      ok, value := DecodeScalar(sub, f.kind, v, more);
      if !ok {
        return;
      }
      if sound {
        assert before + expected[..j] + [expected[j]] == before + expected[..j + 1];
        j := j + 1;
      }
      vs := vs + [value];
    }
    if sound {
      NothingLeft(f.kind, expected, j);
      assert sub.rest == [] ==> expected[..j] == expected;
    }
    ok := sub.rest == [];
  }

  /** Packed values take up bytes: none are left when the bytes run out or the array is full. */
  lemma NothingLeft(k: Kind, vs: seq<Value>, j: nat)
    requires Packable(k) && j <= |vs| && forall c :: 0 <= c < |vs| ==> ValueOk(k, vs[c])
    ensures ValuesBytes(k, vs[j..]) == [] <==> j == |vs|
  {
    if j < |vs| {
      assert ValueBytes(k, vs[j..][0]) != [];
    }
  }

  /** One value; a submessage is decoded from its own part of the stream on top of `start`. */
  method DecodeOne(s: IStream, k: Kind, start: Value, ghost v: Value, ghost tail: Bytes, ghost sound: bool) returns (ok: bool, value: Value)
    requires InBounds(k, start)
    requires sound ==> ValueOk(k, v) && s.rest == ValueBytes(k, v) + tail && |s.rest| < WORD && MergeRoom(k, start, v)
    modifies s
    ensures |s.rest| <= |old(s.rest)| && (ok ==> InBounds(k, value))
    ensures sound ==> ok && value == Merged(k, start, v) && s.rest == tail
    decreases k, 3
  {
    hide ValueOk;
    if !k.MessageKind? {
      ok, value := DecodeScalar(s, k, v, tail);
      return;
    }
    value := start;
    ghost var items := [];
    ghost var body := [];
    if sound {
      EncodedMessageReads(k, v);
      items, body := ItemsFrom(k.fields, v, 0), FieldsBytes(k, v, 0);
      assert |body| < WORD;
    }
    var sub: IStream;
    ok, sub := s.MakeSubstream(body, tail);
    if !ok {
      return;
    }
    if sound {
      StartsMerge(k, start, v);
      StartReading(k.fields, start.slots, items, sub.rest);
    }
    BoundsMessage(k, start);
    var slots: Slots;
    ok, slots := DecodeMessage(sub, k, start.slots, AllKnown(items));
    if ok {
      value := Message(slots);
    }
  }

  lemma BoundsMessage(k: Kind, v: Value)
    requires k.MessageKind? && InBounds(k, v)
    ensures v.Message? && |v.slots| == |k.fields| && InBounds(k, Message(v.slots))
  {
  }

  lemma StartsMerge(k: Kind, start: Value, v: Value)
    requires k.MessageKind? && ValueOk(k, v) && InBounds(k, start) && MergeRoom(k, start, v)
    ensures start.Message? && |start.slots| == |k.fields| && Feasible(k.fields, start.slots, ItemsFrom(k.fields, v, 0))
    ensures Merged(k, start, v) == Message(ApplyAll(k.fields, start.slots, ItemsFrom(k.fields, v, 0)))
  {
    assert MessageKind(k.fields) == k;
  }

  lemma DefaultStart(k: Kind)
    requires k.MessageKind?
    ensures DefaultValue(k).Message? && DefaultValue(k).slots == DefaultSlots(k.fields)
  {
  }

  // ---------- the round trip ----------

  /** pb_decode: whatever the bytes, a message it accepts is in bounds, and an encoded message comes back. */
  method Decode(bytes: Bytes, k: Kind, ghost v: Value) returns (ok: bool, value: Value)
    requires k.MessageKind?
    ensures ok ==> InBounds(k, value)
    ensures ValueOk(k, v) && |bytes| < WORD && bytes == FieldsBytes(k, v, 0) ==> ok && value == v
  {
    hide ValueOk;
    ghost var sound := ValueOk(k, v) && |bytes| < WORD && bytes == FieldsBytes(k, v, 0);
    var s := new IStream(bytes);
    DefaultInBounds(k);
    DefaultStart(k);
    ghost var items := [];
    if sound {
      EncodedMessageReads(k, v);
      items := ItemsFrom(k.fields, v, 0);
      StartReading(k.fields, DefaultSlots(k.fields), items, bytes);
    }
    var slots: Slots;
    ok, slots := DecodeMessage(s, k, DefaultValue(k).slots, AllKnown(items));
    value := Message(slots);
  }
  /** Encoding into a buffer and decoding that: a message that fits comes back unchanged. */
  method EncodeThenDecode(k: Kind, v: Value, capacity: nat) returns (fits: bool, ok: bool, value: Value)
    requires k.MessageKind? && ValueOk(k, v) && capacity < WORD
    ensures fits <==> |FieldsBytes(k, v, 0)| <= capacity
    ensures fits ==> ok && value == v
  {
    var s := new OStream(false, capacity, []);
    fits := EncodeMessage(s, k, v);
    assert [] + FieldsBytes(k, v, 0) == FieldsBytes(k, v, 0);
    ok, value := false, DefaultValue(k);
    if fits {
      ok, value := Decode(s.out, k, v);
    }
  }
}
