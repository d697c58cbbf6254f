/** A message as a list of wire records, and what reading them one by one builds. */
module ProtobufReplay {
  import opened Coding
  import opened Protobuf

  // ---------- records ----------

  predicate ItemOk(d: Descriptor, item: Item) {
    && item.field < |d| && item.values != []
    && (forall j :: 0 <= j < |item.values| ==> ValueOk(d[item.field].kind, item.values[j]))
    && (!Packed(d[item.field]) ==> |item.values| == 1)
  }

  function ItemBytes(d: Descriptor, item: Item): Bytes
    requires ItemOk(d, item)
  {
    var f := d[item.field];
    if Packed(f) then TagBytes(f.tag, WT_STRING) + LengthPrefixed(ValuesBytes(f.kind, item.values))
    else TagBytes(f.tag, WireType(f.kind)) + ValueBytes(f.kind, item.values[0])
  }

  predicate ItemsOk(d: Descriptor, items: seq<Item>) {
    forall t :: 0 <= t < |items| ==> ItemOk(d, items[t])
  }

  function ItemsBytes(d: Descriptor, items: seq<Item>): Bytes
    requires ItemsOk(d, items)
  {
    if items == [] then [] else ItemBytes(d, items[0]) + ItemsBytes(d, items[1..])
  }

  lemma {:induction false} ItemsConcat(d: Descriptor, a: seq<Item>, b: seq<Item>)
    requires ItemsOk(d, a) && ItemsOk(d, b)
    ensures ItemsOk(d, a + b) && ItemsBytes(d, a + b) == ItemsBytes(d, a) + ItemsBytes(d, b)
  {
    hide ItemBytes, ItemOk;
    if a == [] {
      assert a + b == b;
    } else {
      assert (a + b)[1..] == a[1..] + b;
      ItemsConcat(d, a[1..], b);
    }
  }

  /** The tagged values of an unpacked field are one record each. */
  lemma {:induction false} TaggedAreItems(d: Descriptor, i: nat, vs: seq<Value>)
    requires i < |d| && !Packed(d[i]) && forall j :: 0 <= j < |vs| ==> ValueOk(d[i].kind, vs[j])
    ensures var items := Singles(i, vs);
            ItemsOk(d, items) && ItemsBytes(d, items) == TaggedBytes(d[i], vs)
  {
    hide ValueOk, ValueBytes, TagBytes;
    var items := Singles(i, vs);
    if vs != [] {
      TaggedAreItems(d, i, vs[1..]);
      assert items[1..] == Singles(i, vs[1..]);
    }
  }

  lemma FieldIsItems(d: Descriptor, i: nat, vs: seq<Value>)
    requires i < |d| && CountOk(d[i].rule, |vs|) && forall j :: 0 <= j < |vs| ==> ValueOk(d[i].kind, vs[j])
    ensures ItemsOk(d, ItemsOfField(d[i], i, vs)) && ItemsBytes(d, ItemsOfField(d[i], i, vs)) == FieldBytes(d[i], vs)
  {
    hide ValueOk, ValueBytes, TagBytes, IsZero, ValuesBytes;
    var f := d[i];
    if vs == [] || (f.rule.Implicit? && IsZero(f.kind, vs[0])) {
    } else if Packed(f) {
      assert [Item(i, vs)][1..] == [];
      assert ItemsBytes(d, [Item(i, vs)]) == ItemBytes(d, Item(i, vs)) + [];
    } else {
      TaggedAreItems(d, i, vs);
    }
  }

  lemma NoItems(d: Descriptor)
    ensures ItemsOk(d, []) && ItemsBytes(d, []) == []
  {
  }

  /** A message from field i on, as a list of records and as bytes. */
  lemma MessageParts(k: Kind, v: Value, i: nat)
    requires k.MessageKind? && ValueOk(k, v) && i <= |k.fields|
    ensures MessageKind(k.fields) == k && v.Message? && |v.slots| == |k.fields|
    ensures i == |k.fields| ==> ItemsFrom(k.fields, v, i) == [] && FieldsBytes(k, v, i) == []
    ensures i < |k.fields| ==>
              var f, vs := k.fields[i], v.slots[i];
              && CountOk(f.rule, |vs|) && (forall j :: 0 <= j < |vs| ==> ValueOk(f.kind, vs[j]))
              && ItemsFrom(k.fields, v, i) == ItemsOfField(f, i, vs) + ItemsFrom(k.fields, v, i + 1)
              && FieldsBytes(k, v, i) == FieldBytes(f, vs) + FieldsBytes(k, v, i + 1)
  {
    hide ItemsOfField, FieldBytes;
  }

  /** The encoding of a message is the encoding of its records. */
  lemma {:induction false} MessageIsItems(k: Kind, v: Value, i: nat)
    requires k.MessageKind? && ValueOk(k, v) && i <= |k.fields|
    ensures ItemsOk(k.fields, ItemsFrom(k.fields, v, i)) && ItemsBytes(k.fields, ItemsFrom(k.fields, v, i)) == FieldsBytes(k, v, i)
    decreases |k.fields| - i
  {
    hide ValueOk, ItemsOfField, FieldBytes, ItemOk, ItemBytes, ItemsBytes;
    var d := k.fields;
    MessageParts(k, v, i);
    if i == |d| {
      NoItems(d);
    } else {
      MessageIsItems(k, v, i + 1);
      FieldIsItems(d, i, v.slots[i]);
      ItemsConcat(d, ItemsOfField(d[i], i, v.slots[i]), ItemsFrom(d, v, i + 1));
    }
  }

  // ---------- reading them ----------

  type Slots = seq<seq<Value>>

  predicate CanMerge(k: Kind, base: Value, v: Value) {
    k.MessageKind? && ValueOk(k, v) && base.Message? && |base.slots| == |k.fields|
  }

  /** A value read on top of another: a message's records are applied to the message there is, and any
      other value replaces it. */
  function Merged(k: Kind, base: Value, v: Value): Value
    decreases k, 2, 0
  {
    if CanMerge(k, base, v) then Message(ApplyAll(k.fields, base.slots, ItemsFrom(k.fields, v, 0))) else v
  }

  /** What is in a singular field before a record of it is read. */
  function Present(f: Field, slot: seq<Value>): Value {
    if slot != [] then slot[0] else DefaultValue(f.kind)
  }

  /** What a record does to the message being decoded: an array grows, a union's record unsets the other
      members, and a singular field's record is merged into what is there. */
  function Apply(d: Descriptor, m: Slots, item: Item): (r: Slots)
    requires |m| == |d| && item.field < |d|
    ensures |r| == |d|
    decreases MessageKind(d), 0, 0
  {
    var f, i := d[item.field], item.field;
    match f.rule
    case Repeated(_) => m[i := m[i] + item.values]
    case OneOf(_) =>
      seq(|d|, c requires 0 <= c < |d| => if c == i then item.values else if d[c].rule == f.rule then [] else m[c])
    case _ => if item.values == [] then m else m[i := [Merged(f.kind, Present(f, m[i]), item.values[0])]]
  }

  function ApplyAll(d: Descriptor, m: Slots, items: seq<Item>): (r: Slots)
    requires |m| == |d| && forall t :: 0 <= t < |items| ==> items[t].field < |d|
    ensures |r| == |d|
    decreases MessageKind(d), 1, |items|
  {
    if items == [] then m else ApplyAll(d, Apply(d, m, items[0]), items[1..])
  }

  lemma {:induction false} ApplyConcat(d: Descriptor, m: Slots, a: seq<Item>, b: seq<Item>)
    requires |m| == |d| && (forall t :: 0 <= t < |a| ==> a[t].field < |d|) && (forall t :: 0 <= t < |b| ==> b[t].field < |d|)
    ensures ApplyAll(d, m, a + b) == ApplyAll(d, ApplyAll(d, m, a), b)
    decreases |a|
  {
    if a == [] {
      assert a + b == b;
    } else {
      assert (a + b)[1..] == a[1..] + b;
      ApplyConcat(d, Apply(d, m, a[0]), a[1..], b);
    }
  }

  function DefaultSlot(f: Field): seq<Value> {
    if Singular(f.rule) then [DefaultValue(f.kind)] else []
  }

  function DefaultSlots(d: Descriptor): (m: Slots)
    ensures |m| == |d| && forall i :: 0 <= i < |d| ==> m[i] == DefaultSlot(d[i])
  {
    seq(|d|, i requires 0 <= i < |d| => DefaultSlot(d[i]))
  }

  /** A value that proto3 leaves out is the one the decoder starts from. */
  lemma {:induction false} ZeroIsDefault(k: Kind, v: Value)
    requires ValueOk(k, v) && IsZero(k, v)
    ensures v == DefaultValue(k)
    decreases k
  {
    if k.MessageKind? {
      var d := k.fields;
      forall i | 0 <= i < |d| ensures v.slots[i] == DefaultValue(k).slots[i] {
        assert CountOk(d[i].rule, |v.slots[i]|);
        if d[i].rule.Implicit? {
          ZeroIsDefault(d[i].kind, v.slots[i][0]);
          assert v.slots[i] == [v.slots[i][0]];
        }
      }
      assert v.slots == DefaultValue(k).slots;
    }
  }

  /** Conversely the default number, string or byte string of a proto3 field is not written, and any other
      value is; a byte array of fixed length always is; a message is not written if and only if its own
      encoding is empty. */
  lemma DefaultIsLeftOut(f: Field, v: Value)
    requires f.rule.Implicit? && ValueOk(f.kind, v)
    ensures !f.kind.MessageKind? && !f.kind.FixedBytesKind? ==> (FieldBytes(f, [v]) == [] <==> v == DefaultValue(f.kind))
    ensures f.kind.FixedBytesKind? ==> FieldBytes(f, [v]) != []
    ensures f.kind.MessageKind? ==> (FieldBytes(f, [v]) == [] <==> FieldsBytes(f.kind, v, 0) == [])
  {
    WrittenIff(f, [v]);
    if f.kind.MessageKind? {
      EmptyFrom(f.kind, v, 0);
      forall i | 0 <= i < |f.kind.fields|
        ensures FieldBytes(f.kind.fields[i], v.slots[i]) == [] <==>
                !f.kind.fields[i].rule.Required?
                && if f.kind.fields[i].rule.Implicit? then IsZero(f.kind.fields[i].kind, v.slots[i][0]) else v.slots[i] == []
      {
        WrittenIff(f.kind.fields[i], v.slots[i]);
      }
    }
  }

  lemma WrittenIff(f: Field, vs: seq<Value>)
    requires CountOk(f.rule, |vs|) && forall j :: 0 <= j < |vs| ==> ValueOk(f.kind, vs[j])
    ensures FieldBytes(f, vs) == [] <==> vs == [] || (f.rule.Implicit? && IsZero(f.kind, vs[0]))
  {
    hide TagBytes, ValueBytes, IsZero;
    TagNonempty(f.tag, WireType(f.kind));
    TagNonempty(f.tag, WT_STRING);
  }

  lemma {:induction false} EmptyFrom(k: Kind, v: Value, i: nat)
    requires k.MessageKind? && ValueOk(k, v) && i <= |k.fields|
    ensures FieldsBytes(k, v, i) == [] <==> forall j :: i <= j < |k.fields| ==> FieldBytes(k.fields[j], v.slots[j]) == []
    decreases |k.fields| - i
  {
    hide FieldBytes;
    if i < |k.fields| {
      EmptyFrom(k, v, i + 1);
    }
  }

  lemma TagNonempty(tag: nat, wireType: nat)
    ensures TagBytes(tag, wireType) != []
  {
  }

  /** The message once fields before i have been read. */
  function Partial(d: Descriptor, v: Value, i: nat): (m: Slots)
    requires v.Message? && |v.slots| == |d| && i <= |d|
    ensures |m| == |d|
  {
    v.slots[..i] + DefaultSlots(d)[i..]
  }

  lemma {:induction false} RepeatedReplay(d: Descriptor, m: Slots, i: nat, vs: seq<Value>)
    requires |m| == |d| && i < |d| && d[i].rule.Repeated?
    ensures ApplyAll(d, m, Singles(i, vs)) == m[i := m[i] + vs]
    decreases |vs|
  {
    var items := Singles(i, vs);
    if vs == [] {
      assert m[i] + vs == m[i];
    } else {
      var m' := m[i := m[i] + [vs[0]]];
      RepeatedReplay(d, m', i, vs[1..]);
      assert items[1..] == Singles(i, vs[1..]);
      assert m[i] + [vs[0]] + vs[1..] == m[i] + vs;
    }
  }

  /** Read into a fresh message, an encoded one is just itself. */
  lemma {:induction false} MergedIntoDefault(k: Kind, v: Value)
    requires ValueOk(k, v)
    ensures Merged(k, DefaultValue(k), v) == v
    decreases k, 2, 0
  {
    if k.MessageKind? {
      assert k == MessageKind(k.fields);
      ItemsReplay(k.fields, v, 0);
      hide ValueOk, ApplyAll, ItemsFrom, DefaultValue;
      MessageShape(k.fields, v);
      FreshMessage(k, v);
    }
  }

  lemma FreshMessage(k: Kind, v: Value)
    requires k.MessageKind? && v.Message? && |v.slots| == |k.fields|
    ensures DefaultValue(k).Message? && DefaultValue(k).slots == DefaultSlots(k.fields) == Partial(k.fields, v, 0)
  {
  }

  lemma FieldReplay(d: Descriptor, v: Value, i: nat)
    requires ValueOk(MessageKind(d), v) && i < |d|
    ensures forall t :: 0 <= t < |ItemsOfField(d[i], i, v.slots[i])| ==> ItemsOfField(d[i], i, v.slots[i])[t].field == i
    ensures ApplyAll(d, Partial(d, v, i), ItemsOfField(d[i], i, v.slots[i])) == Partial(d, v, i + 1)
    decreases MessageKind(d), 0, 0
  {
    hide ValueOk, Merged, IsZero, DefaultValue;
    CountAndArm(d, v, i);
    var f, vs, m, items := d[i], v.slots[i], Partial(d, v, i), ItemsOfField(d[i], i, v.slots[i]);
    assert m[i] == DefaultSlot(f);
    assert Partial(d, v, i + 1) == m[i := vs];
    if items == [] {
      if f.rule.Implicit? {
        ZeroIsDefault(f.kind, vs[0]);
        assert vs == [vs[0]];
      }
      assert m[i := vs] == m;
    } else if f.rule.Repeated? {
      if Packed(f) {
        assert items[1..] == [];
        assert m[i] + vs == vs;
      } else {
        RepeatedReplay(d, m, i, vs);
        assert m[i] + vs == vs;
      }
    } else {
      assert vs == [vs[0]] && items == [Item(i, vs)] && items[1..] == [];
      if f.rule.OneOf? {
        OneOfReplay(d, v, i);
      } else {
        assert Present(f, m[i]) == DefaultValue(f.kind);
        MergedIntoDefault(f.kind, vs[0]);
      }
    }
  }

  lemma MessageShape(d: Descriptor, v: Value)
    requires ValueOk(MessageKind(d), v)
    ensures v.Message? && |v.slots| == |d| && DescriptorOk(d)
  {
  }

  lemma CountAndArm(d: Descriptor, v: Value, i: nat)
    requires ValueOk(MessageKind(d), v) && i < |d|
    ensures v.Message? && |v.slots| == |d| && CountOk(d[i].rule, |v.slots[i]|) && OneArm(d, v.slots, i)
    ensures forall j :: 0 <= j < |v.slots[i]| ==> ValueOk(d[i].kind, v.slots[i][j])
  {
  }

  /** Setting a union member unsets nothing that is set. */
  lemma OneOfReplay(d: Descriptor, v: Value, i: nat)
    requires v.Message? && |v.slots| == |d| && i < |d| && d[i].rule.OneOf? && v.slots[i] != [] && OneArm(d, v.slots, i)
    ensures Apply(d, Partial(d, v, i), Item(i, v.slots[i])) == Partial(d, v, i)[i := v.slots[i]]
  {
    var m := Partial(d, v, i);
    forall c | 0 <= c < |d| && c != i && d[c].rule == d[i].rule ensures m[c] == [] {
    }
  }

  /** Reading all records of a message, from defaults, rebuilds it. */
  lemma {:induction false} ItemsReplay(d: Descriptor, v: Value, i: nat)
    requires ValueOk(MessageKind(d), v) && i <= |d|
    ensures forall t :: 0 <= t < |ItemsFrom(d, v, i)| ==> ItemsFrom(d, v, i)[t].field < |d|
    ensures ApplyAll(d, Partial(d, v, i), ItemsFrom(d, v, i)) == v.slots
    decreases MessageKind(d), 1, |d| - i
  {
    hide ValueOk, Apply, ItemsOfField;
    MessageShape(d, v);
    if i == |d| {
      assert Partial(d, v, i) == v.slots;
    } else {
      CountAndArm(d, v, i);
      FieldReplay(d, v, i);
      ItemsReplay(d, v, i + 1);
      ApplyConcat(d, Partial(d, v, i), ItemsOfField(d[i], i, v.slots[i]), ItemsFrom(d, v, i + 1));
    }
  }

  /** What one more record does, after any others: the last one of a singular field that is no message wins, a
      member of a union unsets the others, an array grows, and a singular message takes the record's own
      records in. No other slot changes. */
  lemma LastRecord(d: Descriptor, m: Slots, items: seq<Item>, item: Item)
    requires |m| == |d| && (forall t :: 0 <= t < |items| ==> items[t].field < |d|) && ItemOk(d, item)
    ensures forall t :: 0 <= t < |items + [item]| ==> (items + [item])[t].field < |d|
    ensures RecordMeans(d, ApplyAll(d, m, items), item, ApplyAll(d, m, items + [item]))
  {
    hide ItemOk, RecordMeans, Apply;
    var was := ApplyAll(d, m, items);
    assert item.field < |d| by { ItemField(d, item); }
    assert forall t :: 0 <= t < |items + [item]| ==> (items + [item])[t] == if t < |items| then items[t] else item;
    ApplyConcat(d, m, items, [item]);
    assert [item][1..] == [] && ApplyAll(d, was, [item]) == ApplyAll(d, Apply(d, was, item), []);
    OneRecord(d, was, item);
  }

  lemma ItemField(d: Descriptor, item: Item)
    requires ItemOk(d, item)
    ensures item.field < |d|
  {
  }

  ghost predicate RecordMeans(d: Descriptor, was: Slots, item: Item, now: Slots)
    requires |was| == |now| == |d| && ItemOk(d, item)
  {
    var f, i := d[item.field], item.field;
    && (match f.rule
        case Repeated(_) => now[i] == was[i] + item.values
        case OneOf(_) => now[i] == [item.values[0]]
        case _ => if f.kind.MessageKind? then ReadsInto(f.kind, was[i], item.values[0], now[i]) else now[i] == [item.values[0]])
    && forall c :: 0 <= c < |d| && c != i ==> now[c] == if f.rule.OneOf? && d[c].rule == f.rule then [] else was[c]
  }

  /** The records of v are read into the message there was, or into a fresh one. */
  ghost predicate ReadsInto(k: Kind, was: seq<Value>, v: Value, now: seq<Value>)
    requires k.MessageKind? && ValueOk(k, v)
  {
    var base := if was == [] then DefaultValue(k) else was[0];
    base.Message? && |base.slots| == |k.fields| ==>
      ValueOk(MessageKind(k.fields), v) && now == [Message(ApplyAll(k.fields, base.slots, ItemsFrom(k.fields, v, 0)))]
  }

  lemma OneRecord(d: Descriptor, was: Slots, item: Item)
    requires |was| == |d| && ItemOk(d, item)
    ensures RecordMeans(d, was, item, Apply(d, was, item))
  {
    hide ValueOk;
    var f, v := d[item.field], item.values[0];
    assert !Packed(f) ==> item.values == [v];
    if f.kind.MessageKind? {
      assert MessageKind(f.kind.fields) == f.kind;
      assert ValueOk(f.kind, v);
    }
  }

  /** Reading the records of two messages one after the other gives what reading the second into the
      first gives: a submessage that comes in two records means the same as one record of both contents. */
  lemma ConcatenationMerges(k: Kind, v: Value, w: Value)
    requires k.MessageKind? && ValueOk(k, v) && ValueOk(k, w)
    ensures var d := k.fields;
            v.Message? && Message(ApplyAll(d, DefaultSlots(d), ItemsFrom(d, v, 0) + ItemsFrom(d, w, 0))) == Merged(k, v, w)
  {
    var d := k.fields;
    assert k == MessageKind(d);
    MessageShape(d, v);
    ItemsReplay(d, v, 0);
    assert Partial(d, v, 0) == DefaultSlots(d);
    ApplyConcat(d, DefaultSlots(d), ItemsFrom(d, v, 0), ItemsFrom(d, w, 0));
  }
}
