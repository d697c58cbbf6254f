/** Write batches (db/write_batch.cc): a header with sequence number and count, then the updates in
    order, all in one string that is also the log record. */
module WriteBatches {
  import opened InternalKeys
  import opened Coding

  datatype Update = Update(kind: ValueType, key: Bytes, value: Bytes)

  /** One call of the memtable's Add. */
  datatype Added = Added(seqno: nat, update: Update)

  datatype Status = Ok | Corruption(msg: string)

  const HEADER: nat := 12

  function UpdateBytes(u: Update): Bytes {
    if u.kind == TypeValue then [1] + (LengthPrefixed(u.key) + LengthPrefixed(u.value))
    else [0] + LengthPrefixed(u.key)
  }

  function UpdatesBytes(us: seq<Update>): Bytes {
    if us == [] then [] else UpdateBytes(us[0]) + UpdatesBytes(us[1..])
  }

  /** A put is tagged 1 and a deletion 0; keys and values stand behind their lengths. */
  lemma UpdatesInNumbers(key: Bytes, value: Bytes)
    requires |key| < 128 && |value| < 128
    ensures UpdateBytes(Update(TypeValue, key, value)) == [1, |key| as Byte] + key + [|value| as Byte] + value
    ensures UpdateBytes(Update(TypeDeletion, key, [])) == [0, |key| as Byte] + key
  {
    var a, b := [|key| as Byte] + key, [|value| as Byte] + value;
    assert LengthPrefixed(key) == a && LengthPrefixed(value) == b;
    hide LengthPrefixed;
    assert [1] + (a + b) == [1, |key| as Byte] + key + [|value| as Byte] + value;
  }

  lemma {:induction false} UpdatesConcat(a: seq<Update>, b: seq<Update>)
    ensures UpdatesBytes(a + b) == UpdatesBytes(a) + UpdatesBytes(b)
  {
    hide UpdateBytes;
    if a == [] {
      assert a + b == b;
    } else {
      assert (a + b)[1..] == a[1..] + b;
      UpdatesConcat(a[1..], b);
    }
  }

  /** Keys and values that a 32-bit length can describe; deletions carry no value. */
  predicate Fits(u: Update) {
    |u.key| < WORD && |u.value| < WORD && (u.kind == TypeDeletion ==> u.value == [])
  }

  // ---------- reading any bytes ----------

  function ReadUpdate(b: Bytes): (r: Read<Update>)
    requires b != []
    ensures r.Got? ==> |r.rest| < |b| && Fits(r.value)
  {
    if b[0] == 1 then
      match ReadPrefixed(b[1..])
      case Bad => Bad
      case Got(k, t) => (match ReadPrefixed(t) case Bad => Bad case Got(v, t2) => Got(Update(TypeValue, k, v), t2))
    else if b[0] == 0 then
      match ReadPrefixed(b[1..])
      case Bad => Bad
      case Got(k, t) => Got(Update(TypeDeletion, k, []), t)
    else Bad
  }

  function Complaint(tag: Byte): (msg: string)
    ensures msg != ""
  {
    if tag == 1 then "bad WriteBatch Put" else if tag == 0 then "bad WriteBatch Delete" else "unknown WriteBatch tag"
  }

  /** The complaint, empty if there is none, and the updates in front of it. */
  function ReadUpdates(b: Bytes): (r: (string, seq<Update>))
    ensures forall u :: u in r.1 ==> Fits(u)
    decreases |b|
  {
    if b == [] then ("", [])
    else
      match ReadUpdate(b)
      case Bad => (Complaint(b[0]), [])
      case Got(u, t) => (ReadUpdates(t).0, [u] + ReadUpdates(t).1)
  }

  /** How reading ends: what is well formed must also be as many updates as were counted. */
  function Verdict(msg: string, counted: bool): Status {
    if msg != "" then Corruption(msg) else if counted then Ok else Corruption("WriteBatch has wrong count")
  }

  lemma UpdateRoundTrip(u: Update, tail: Bytes)
    requires Fits(u)
    ensures ReadUpdate(UpdateBytes(u) + tail) == Got(u, tail)
  {
    hide LengthPrefixed, ReadPrefixed;
    var b := UpdateBytes(u) + tail;
    if u.kind == TypeValue {
      var rest := LengthPrefixed(u.value) + tail;
      assert b[1..] == LengthPrefixed(u.key) + rest;
      ReadPrefixedRoundTrip(u.key, rest);
      ReadPrefixedRoundTrip(u.value, tail);
    } else {
      assert b[1..] == LengthPrefixed(u.key) + tail;
      ReadPrefixedRoundTrip(u.key, tail);
    }
  }

  /** The updates of a batch read back as they are. */
  lemma {:induction false} UpdatesRead(us: seq<Update>)
    requires forall u :: u in us ==> Fits(u)
    ensures ReadUpdates(UpdatesBytes(us)) == ("", us)
  {
    hide UpdateBytes, ReadUpdate, Fits;
    if us != [] {
      UpdateRoundTrip(us[0], UpdatesBytes(us[1..]));
      UpdatesRead(us[1..]);
      NotEmpty(us[0]);
      assert us == [us[0]] + us[1..];
    }
  }

  lemma NotEmpty(u: Update)
    ensures UpdateBytes(u) != []
  {
  }

  /** Sequence numbers are handed out in order. */
  function Numbered(us: seq<Update>, base: nat): seq<Added> {
    seq(|us|, i requires 0 <= i < |us| => Added(base + i, us[i]))
  }

  class WriteBatch {
    var rep: Bytes
    ghost var sequence: nat
    ghost var updates: seq<Update>

    /** The string is the sequence number, the count and the updates. */
    ghost predicate Valid()
      reads this
    {
      && sequence < DWORD && |updates| < WORD
      && (forall u :: u in updates ==> Fits(u))
      && rep == PutFixed64(sequence) + PutFixed32(|updates|) + UpdatesBytes(updates)
    }

    constructor ()
      ensures Valid() && updates == [] && sequence == 0
    {
      rep := [0, 0, 0, 0, 0, 0, 0, 0, 0, 0, 0, 0];
      sequence, updates := 0, [];
    }

    lemma Parts()
      requires Valid()
      ensures |rep| >= HEADER && GetFixed64(rep) == sequence && GetFixed32(rep[8..]) == |updates|
      ensures rep[..8] == PutFixed64(sequence) && rep[HEADER..] == UpdatesBytes(updates)
    {
      hide PutFixed64, PutFixed32, GetFixed64, GetFixed32, UpdatesBytes;
      var s, c, u := PutFixed64(sequence), PutFixed32(|updates|), UpdatesBytes(updates);
      Sections(rep, s, c, u);
      Fixed64RoundTrip(sequence, c + u);
      FixedNatRoundTrip(|updates|, u);
    }

    static lemma Sections(b: Bytes, s: Bytes, c: Bytes, u: Bytes)
      requires |s| == 8 && |c| == 4 && b == s + c + u
      ensures b == s + (c + u) && b[..8] == s && b[8..] == c + u && b[HEADER..] == u
    {
    }

    /** Eight bytes of sequence number, four of count, least significant first; then the updates. */
    lemma BatchInNumbers()
      requires Valid() && sequence == 5 && updates == [Update(TypeValue, [8], [9]), Update(TypeDeletion, [8], [])]
      ensures rep == [5, 0, 0, 0, 0, 0, 0, 0] + [2, 0, 0, 0] + [1, 1, 8, 1, 9] + [0, 1, 8]
    {
      assert PutFixed64(5) == [5, 0, 0, 0, 0, 0, 0, 0] && PutFixed32(2) == [2, 0, 0, 0];
      var put, del := Update(TypeValue, [8], [9]), Update(TypeDeletion, [8], []);
      UpdatesInNumbers([8], [9]);
      assert UpdateBytes(put) == [1, 1, 8, 1, 9] && UpdateBytes(del) == [0, 1, 8];
      hide PutFixed64, PutFixed32, UpdateBytes;
      TwoUpdates(put, del);
      hide UpdatesBytes;
      var s, c, x, y := PutFixed64(sequence), PutFixed32(|updates|), UpdateBytes(put), UpdateBytes(del);
      assert s + c + (x + y) == s + c + x + y;
    }

    static lemma TwoUpdates(u: Update, w: Update)
      ensures UpdatesBytes([u, w]) == UpdateBytes(u) + UpdateBytes(w)
    {
      hide UpdateBytes;
      UpdatesConcat([u], [w]);
      assert [u, w] == [u] + [w] && [u][1..] == [] && [w][1..] == [];
      assert UpdatesBytes([u]) == UpdateBytes(u) && UpdatesBytes([w]) == UpdateBytes(w);
    }

    method SetCount(n: nat)
      requires |rep| >= HEADER && n < WORD
      modifies `rep
      ensures rep == old(rep)[..8] + PutFixed32(n) + old(rep)[HEADER..]
    {
      rep := rep[..8] + PutFixed32(n) + rep[HEADER..];
    }

    function Count(): nat
      requires |rep| >= HEADER
      reads this
    {
      GetFixed32(rep[8..])
    }

    method SetSequence(s: nat)
      requires Valid() && s < DWORD
      modifies this
      ensures Valid() && sequence == s && updates == old(updates)
    {
      hide PutFixed64, PutFixed32, UpdatesBytes;
      Parts();
      Sections(rep, PutFixed64(sequence), PutFixed32(|updates|), UpdatesBytes(updates));
      rep := PutFixed64(s) + rep[8..];
      sequence := s;
      assert rep == PutFixed64(s) + PutFixed32(|updates|) + UpdatesBytes(updates);
    }

    method Put(key: Bytes, value: Bytes)
      requires Valid() && |updates| + 1 < WORD && |key| < WORD && |value| < WORD
      modifies this
      ensures Valid() && updates == old(updates) + [Update(TypeValue, key, value)] && sequence == old(sequence)
    {
      AddUpdate(Update(TypeValue, key, value));
    }

    method Delete(key: Bytes)
      requires Valid() && |updates| + 1 < WORD && |key| < WORD
      modifies this
      ensures Valid() && updates == old(updates) + [Update(TypeDeletion, key, [])] && sequence == old(sequence)
    {
      AddUpdate(Update(TypeDeletion, key, []));
    }

    /** Count up, then append the tagged update. */
    method AddUpdate(u: Update)
      requires Valid() && |updates| + 1 < WORD && Fits(u)
      modifies this
      ensures Valid() && updates == old(updates) + [u] && sequence == old(sequence)
    {
      hide PutFixed64, PutFixed32, UpdateBytes;
      Parts();
      SetCount(Count() + 1);
      rep := rep + UpdateBytes(u);
      UpdatesConcat(updates, [u]);
      OneUpdate(u);
      updates := updates + [u];
      assert rep == PutFixed64(sequence) + PutFixed32(|updates|) + UpdatesBytes(updates);
    }

    lemma OneUpdate(u: Update)
      ensures UpdatesBytes([u]) == UpdateBytes(u)
    {
      assert [u][1..] == [];
    }

    /** Append: the other batch's updates follow this one's. */
    method Append(src: WriteBatch)
      requires Valid() && src.Valid() && src != this && |updates| + |src.updates| < WORD
      modifies this
      ensures Valid() && updates == old(updates) + src.updates && sequence == old(sequence)
    {
      hide PutFixed64, PutFixed32, UpdatesBytes;
      Parts();
      src.Parts();
      SetCount(Count() + src.Count());
      rep := rep + src.rep[HEADER..];
      UpdatesConcat(updates, src.updates);
      updates := updates + src.updates;
      assert rep == PutFixed64(sequence) + PutFixed32(|updates|) + UpdatesBytes(updates);
    }

    /** Iterate: hands the updates to the handler in order, whatever the bytes are, up to the first
        malformed one; a sound batch is read back whole. */
    method Iterate() returns (status: Status, handled: seq<Update>)
      ensures |rep| < HEADER ==> status == Corruption("malformed WriteBatch (too small)") && handled == []
      ensures |rep| >= HEADER ==>
                && handled == ReadUpdates(rep[HEADER..]).1
                && status == Verdict(ReadUpdates(rep[HEADER..]).0, |handled| == Count())
      ensures Valid() ==> status == Ok && handled == updates
    {
      hide UpdateBytes, PutFixed64, PutFixed32, GetFixed32, LengthPrefixed, UpdatesBytes, ReadUpdate, Complaint;
      handled := [];
      if Valid() {
        Parts();
        UpdatesRead(updates);
      }
      if |rep| < HEADER {
        return Corruption("malformed WriteBatch (too small)"), handled;
      }
      var input := new Input(rep[HEADER..]);
      var found := 0;
      assert [] + ReadUpdates(input.rest).1 == ReadUpdates(input.rest).1;
      while input.rest != []
        invariant fresh(input) && found == |handled|
        invariant ReadUpdates(rep[HEADER..]) == (ReadUpdates(input.rest).0, handled + ReadUpdates(input.rest).1)
        decreases |input.rest|
      {
        var msg, u := NextUpdate(input);
        if msg != "" {
          assert handled + [] == handled;
          return Corruption(msg), handled;
        }
        assert handled + ([u] + ReadUpdates(input.rest).1) == handled + [u] + ReadUpdates(input.rest).1;
        handled := handled + [u];
        found := found + 1;
      }
      assert handled + [] == handled;
      if found != Count() {
        return Corruption("WriteBatch has wrong count"), handled;
      }
      return Ok, handled;
    }

    /** One tagged update. */
    method NextUpdate(input: Input) returns (msg: string, r: Update)
      requires input.rest != []
      modifies input
      ensures match ReadUpdate(old(input.rest))
              case Bad => msg == Complaint(old(input.rest)[0])
              case Got(u, t) => msg == "" && r == u && input.rest == t
    {
      hide ReadPrefixed;
      r := Update(TypeDeletion, [], []);
      var tag := input.rest[0];
      input.rest := input.rest[1..];
      var ok, key, value := true, [], [];
      if tag == 1 {
        ok, key := input.TakeLengthPrefixed();
        if ok {
          ok, value := input.TakeLengthPrefixed();
        }
        if !ok {
          return "bad WriteBatch Put", r;
        }
        return "", Update(TypeValue, key, value);
      } else if tag == 0 {
        ok, key := input.TakeLengthPrefixed();
        if !ok {
          return "bad WriteBatch Delete", r;
        }
        return "", Update(TypeDeletion, key, []);
      } else {
        return "unknown WriteBatch tag", r;
      }
    }

    /** InsertInto: the memtable gets every update under consecutive sequence numbers, beginning with
        the batch's own. */
    method InsertInto() returns (status: Status, added: seq<Added>)
      requires |rep| >= HEADER
      ensures added == Numbered(ReadUpdates(rep[HEADER..]).1, GetFixed64(rep))
      ensures status == Verdict(ReadUpdates(rep[HEADER..]).0, |added| == Count())
      ensures Valid() ==> status == Ok && added == Numbered(updates, sequence)
    {
      hide ReadUpdates, GetFixed64;
      if Valid() {
        Parts();
      }
      var next := GetFixed64(rep);
      var handled: seq<Update>;
      status, handled := Iterate();
      added := [];
      for i := 0 to |handled|
        invariant next == GetFixed64(rep) + i && added == Numbered(handled[..i], GetFixed64(rep))
      {
        added := added + [Added(next, handled[i])];
        next := next + 1;
      }
      assert handled[..|handled|] == handled;
    }
  }
}
