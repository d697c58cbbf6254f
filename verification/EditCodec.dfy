/** Version edits as bytes in the manifest (db/version_edit.cc). */
module EditCodec {
  import opened InternalKeys
  import opened Coding
  import Versions

  const NUM_LEVELS: nat := Versions.NUM_LEVELS

  datatype NewFile = NewFile(level: nat, number: nat, size: nat, smallest: Bytes, largest: Bytes)

  /** The fields of a VersionEdit object. */
  datatype Fields = Fields(
    comparator: Option<Bytes>, logNumber: Option<nat>, prevLogNumber: Option<nat>, nextFile: Option<nat>,
    lastSequence: Option<nat>, compactPointers: seq<(nat, Bytes)>, deletedFiles: set<(nat, nat)>, newFiles: seq<NewFile>)

  const EMPTY_FIELDS: Fields := Fields(None, None, None, None, None, [], {}, [])

  // ---------- the format: a list of tagged records ----------

  datatype Record =
    | Comparator(name: Bytes)
    | LogNumber(n: nat) | PrevLogNumber(n: nat) | NextFileNumber(n: nat) | LastSequence(n: nat)
    | CompactPointer(level: nat, key: Bytes)
    | DeletedFile(level: nat, n: nat)
    | AddedFile(f: NewFile)

  predicate Fits(r: Record) {
    match r
    case Comparator(name) => |name| < WORD
    case LogNumber(n) => n < DWORD
    case PrevLogNumber(n) => n < DWORD
    case NextFileNumber(n) => n < DWORD
    case LastSequence(n) => n < DWORD
    case CompactPointer(level, key) => level < NUM_LEVELS && |key| < WORD
    case DeletedFile(level, n) => level < NUM_LEVELS && n < DWORD
    case AddedFile(f) =>
      f.level < NUM_LEVELS && f.number < DWORD && f.size < DWORD && |f.smallest| < WORD && |f.largest| < WORD
  }

  function TagOf(r: Record): nat {
    match r
    case Comparator(_) => 1
    case LogNumber(_) => 2
    case NextFileNumber(_) => 3
    case LastSequence(_) => 4
    case CompactPointer(_, _) => 5
    case DeletedFile(_, _) => 6
    case AddedFile(_) => 7
    case PrevLogNumber(_) => 9
  }

  function Payload(r: Record): Bytes {
    match r
    case Comparator(name) => LengthPrefixed(name)
    case LogNumber(n) => PutVarint(n)
    case PrevLogNumber(n) => PutVarint(n)
    case NextFileNumber(n) => PutVarint(n)
    case LastSequence(n) => PutVarint(n)
    case CompactPointer(level, key) => PutVarint(level) + LengthPrefixed(key)
    case DeletedFile(level, n) => PutVarint(level) + PutVarint(n)
    case AddedFile(f) =>
      PutVarint(f.level) + (PutVarint(f.number) + (PutVarint(f.size) + (LengthPrefixed(f.smallest) + LengthPrefixed(f.largest))))
  }

  function RecordBytes(r: Record): Bytes {
    PutVarint(TagOf(r)) + Payload(r)
  }

  /** The records of numbers in the manifest, tag first. */
  lemma NumbersInNumbers(n: nat, level: nat)
    requires n < 128 && level < NUM_LEVELS
    ensures RecordBytes(LogNumber(n)) == [2, n as Byte]
    ensures RecordBytes(NextFileNumber(n)) == [3, n as Byte]
    ensures RecordBytes(LastSequence(n)) == [4, n as Byte]
    ensures RecordBytes(DeletedFile(level, n)) == [6, level as Byte, n as Byte]
    ensures RecordBytes(PrevLogNumber(n)) == [9, n as Byte]
  {
    hide LengthPrefixed;
  }

  /** The records of names and keys, which stand behind their lengths. */
  lemma KeysInNumbers(level: nat, key: Bytes)
    requires level < NUM_LEVELS && |key| < 128
    ensures RecordBytes(Comparator(key)) == [1, |key| as Byte] + key
    ensures RecordBytes(CompactPointer(level, key)) == [5, level as Byte, |key| as Byte] + key
  {
    assert LengthPrefixed(key) == [|key| as Byte] + key;
    hide LengthPrefixed;
  }

  /** The record of a new file: level, number, size, smallest and largest key. */
  lemma FilesInNumbers(f: NewFile)
    requires f.level < NUM_LEVELS && f.number < 128 && f.size < 128 && |f.smallest| < 128 && |f.largest| < 128
    ensures RecordBytes(AddedFile(f)) ==
            [7, f.level as Byte, f.number as Byte, f.size as Byte]
            + ([|f.smallest| as Byte] + f.smallest) + ([|f.largest| as Byte] + f.largest)
  {
    var a, b := [|f.smallest| as Byte] + f.smallest, [|f.largest| as Byte] + f.largest;
    assert LengthPrefixed(f.smallest) == a && LengthPrefixed(f.largest) == b;
    assert PutVarint(7) == [7] && PutVarint(f.level) == [f.level as Byte] && PutVarint(f.number) == [f.number as Byte]
           && PutVarint(f.size) == [f.size as Byte];
    hide LengthPrefixed, PutVarint;
    assert Payload(AddedFile(f)) == [f.level as Byte] + ([f.number as Byte] + ([f.size as Byte] + (a + b)));
  }

  function AllBytes(rs: seq<Record>): Bytes {
    if rs == [] then [] else RecordBytes(rs[0]) + AllBytes(rs[1..])
  }

  lemma {:induction false} AllBytesAppend(rs: seq<Record>, r: Record)
    ensures AllBytes(rs + [r]) == AllBytes(rs) + RecordBytes(r)
  {
    hide RecordBytes;
    if rs == [] {
      assert [r][1..] == [];
    } else {
      assert (rs + [r])[1..] == rs[1..] + [r];
      AllBytesAppend(rs[1..], r);
    }
  }

  /** What reading a record does to the edit. */
  function Apply(e: Fields, r: Record): Fields {
    match r
    case Comparator(name) => e.(comparator := Some(name))
    case LogNumber(n) => e.(logNumber := Some(n))
    case PrevLogNumber(n) => e.(prevLogNumber := Some(n))
    case NextFileNumber(n) => e.(nextFile := Some(n))
    case LastSequence(n) => e.(lastSequence := Some(n))
    case CompactPointer(level, key) => e.(compactPointers := e.compactPointers + [(level, key)])
    case DeletedFile(level, n) => e.(deletedFiles := e.deletedFiles + {(level, n)})
    case AddedFile(f) => e.(newFiles := e.newFiles + [f])
  }

  function ApplyAll(e: Fields, rs: seq<Record>): Fields {
    if rs == [] then e else Apply(ApplyAll(e, rs[..|rs| - 1]), rs[|rs| - 1])
  }

  // ---------- reading it ----------

  /** A level number, which must be a real level. */
  function ReadLevel(b: Bytes): (r: Read<nat>)
    ensures r.Got? ==> |r.rest| < |b| && r.value < NUM_LEVELS
  {
    match ReadVarint(b, 5, WORD)
    case Bad => Bad
    case Got(v, t) => if v < NUM_LEVELS then Got(v, t) else Bad
  }

  function ReadNumber(b: Bytes): (r: Read<nat>)
    ensures r.Got? ==> |r.rest| < |b| && r.value < DWORD
  {
    ReadVarint(b, 10, DWORD)
  }

  function ReadAddedFile(b: Bytes): (r: Read<NewFile>)
    ensures r.Got? ==> |r.rest| < |b| && Fits(AddedFile(r.value))
  {
    match ReadLevel(b)
    case Bad => Bad
    case Got(level, t1) =>
      match ReadNumber(t1)
      case Bad => Bad
      case Got(number, t2) =>
        match ReadNumber(t2)
        case Bad => Bad
        case Got(size, t3) =>
          match ReadPrefixed(t3)
          case Bad => Bad
          case Got(smallest, t4) =>
            match ReadPrefixed(t4)
            case Bad => Bad
            case Got(largest, t5) => Got(NewFile(level, number, size, smallest, largest), t5)
  }

  /** A record of a known tag. */
  function ReadPayload(tag: nat, b: Bytes): (r: Read<Record>)
    ensures r.Got? ==> |r.rest| < |b| && Fits(r.value) && TagOf(r.value) == tag
  {
    if tag == 1 then match ReadPrefixed(b) case Bad => Bad case Got(s, t) => Got(Comparator(s), t)
    else if tag == 2 then match ReadNumber(b) case Bad => Bad case Got(n, t) => Got(LogNumber(n), t)
    else if tag == 3 then match ReadNumber(b) case Bad => Bad case Got(n, t) => Got(NextFileNumber(n), t)
    else if tag == 4 then match ReadNumber(b) case Bad => Bad case Got(n, t) => Got(LastSequence(n), t)
    else if tag == 5 then
      match ReadLevel(b)
      case Bad => Bad
      case Got(l, t) => (match ReadPrefixed(t) case Bad => Bad case Got(s, t2) => Got(CompactPointer(l, s), t2))
    else if tag == 6 then
      match ReadLevel(b)
      case Bad => Bad
      case Got(l, t) => (match ReadNumber(t) case Bad => Bad case Got(n, t2) => Got(DeletedFile(l, n), t2))
    else if tag == 7 then match ReadAddedFile(b) case Bad => Bad case Got(f, t) => Got(AddedFile(f), t)
    else if tag == 9 then match ReadNumber(b) case Bad => Bad case Got(n, t) => Got(PrevLogNumber(n), t)
    else Bad
  }

  /** What the reader complains of when a record of this tag is malformed. */
  function Complaint(tag: nat): (msg: string)
    ensures msg != ""
  {
    if tag == 1 then "comparator name"
    else if tag == 2 then "log number"
    else if tag == 3 then "next file number"
    else if tag == 4 then "last sequence number"
    else if tag == 5 then "compaction pointer"
    else if tag == 6 then "deleted file"
    else if tag == 7 then "new-file entry"
    else if tag == 9 then "previous log number"
    else "unknown tag"
  }

  /** Any bytes at all, read as an edit on top of e: the complaint, empty if there is none, and the
      fields read so far. */
  function ReadAll(e: Fields, b: Bytes): (string, Fields)
    decreases |b|
  {
    match ReadVarint(b, 5, WORD)
    case Bad => (if b == [] then "" else "invalid tag", e)
    case Got(tag, t) =>
      match ReadPayload(tag, t)
      case Bad => (Complaint(tag), e)
      case Got(r, t2) => ReadAll(Apply(e, r), t2)
  }

  /** The bytes are these records, each behind its tag and none left over; numbers may be written in
      more bytes than they need. */
  predicate Spell(b: Bytes, rs: seq<Record>)
    decreases |b|
  {
    if rs == [] then b == []
    else
      match ReadVarint(b, 5, WORD)
      case Bad => false
      case Got(tag, t) =>
        match ReadPayload(tag, t)
        case Bad => false
        case Got(r, t2) => r == rs[0] && Spell(t2, rs[1..])
  }

  /** Bytes that spell records, all of real levels and machine-word numbers, are accepted, and what is
      read is what the records say. */
  lemma {:induction false} SpeltIsRead(e: Fields, b: Bytes, rs: seq<Record>)
    requires Spell(b, rs)
    ensures ReadAll(e, b) == ("", ApplyAll(e, rs))
    ensures forall r :: r in rs ==> Fits(r)
    decreases |b|
  {
    hide ReadPayload, ReadVarint, Fits, Apply, Complaint;
    if rs != [] {
      var tag, t := ReadVarint(b, 5, WORD).value, ReadVarint(b, 5, WORD).rest;
      var r, t2 := ReadPayload(tag, t).value, ReadPayload(tag, t).rest;
      SpeltIsRead(Apply(e, r), t2, rs[1..]);
      assert rs == [r] + rs[1..];
      ApplyConcat(e, [r], rs[1..]);
      assert [r][..0] == [] && ApplyAll(e, [r]) == Apply(e, r);
    }
  }

  /** Nothing else is accepted. */
  lemma {:induction false} AcceptedIsSpelt(e: Fields, b: Bytes) returns (rs: seq<Record>)
    requires ReadAll(e, b).0 == ""
    ensures Spell(b, rs)
    decreases |b|
  {
    hide ReadPayload, ReadVarint, Fits, Apply, Complaint;
    match ReadVarint(b, 5, WORD)
    case Bad => rs := [];
    case Got(tag, t) =>
      match ReadPayload(tag, t)
      case Got(r, t2) =>
        var rest := AcceptedIsSpelt(Apply(e, r), t2);
        rs := [r] + rest;
        assert rs[1..] == rest;
  }

  /** An encoded record reads back as itself. */
  lemma RecordRoundTrip(r: Record, tail: Bytes)
    requires Fits(r)
    ensures ReadVarint(RecordBytes(r) + tail, 5, WORD) == Got(TagOf(r), Payload(r) + tail)
    ensures ReadPayload(TagOf(r), Payload(r) + tail) == Got(r, tail)
  {
    hide PutVarint, LengthPrefixed, ReadVarint, ReadPrefixed;
    assert RecordBytes(r) + tail == PutVarint(TagOf(r)) + (Payload(r) + tail);
    ReadVarintRoundTrip(TagOf(r), 5, WORD, Payload(r) + tail);
    match r
    case Comparator(name) => ReadPrefixedRoundTrip(name, tail);
    case LogNumber(n) => ReadVarintRoundTrip(n, 10, DWORD, tail);
    case PrevLogNumber(n) => ReadVarintRoundTrip(n, 10, DWORD, tail);
    case NextFileNumber(n) => ReadVarintRoundTrip(n, 10, DWORD, tail);
    case LastSequence(n) => ReadVarintRoundTrip(n, 10, DWORD, tail);
    case CompactPointer(level, key) =>
      assert PutVarint(level) + LengthPrefixed(key) + tail == PutVarint(level) + (LengthPrefixed(key) + tail);
      ReadVarintRoundTrip(level, 5, WORD, LengthPrefixed(key) + tail);
      ReadPrefixedRoundTrip(key, tail);
    case DeletedFile(level, n) =>
      assert PutVarint(level) + PutVarint(n) + tail == PutVarint(level) + (PutVarint(n) + tail);
      ReadVarintRoundTrip(level, 5, WORD, PutVarint(n) + tail);
      ReadVarintRoundTrip(n, 10, DWORD, tail);
    case AddedFile(f) =>
      AddedFileRoundTrip(f, tail);
  }

  lemma AddedFileRoundTrip(f: NewFile, tail: Bytes)
    requires Fits(AddedFile(f))
    ensures ReadAddedFile(Payload(AddedFile(f)) + tail) == Got(f, tail)
  {
    hide PutVarint, LengthPrefixed, ReadVarint, ReadPrefixed;
    var t4 := LengthPrefixed(f.largest) + tail;
    var t3 := LengthPrefixed(f.smallest) + t4;
    var t2 := PutVarint(f.size) + t3;
    var t1 := PutVarint(f.number) + t2;
    assert Payload(AddedFile(f)) + tail == PutVarint(f.level) + t1;
    ReadVarintRoundTrip(f.level, 5, WORD, t1);
    ReadVarintRoundTrip(f.number, 10, DWORD, t2);
    ReadVarintRoundTrip(f.size, 10, DWORD, t3);
    ReadPrefixedRoundTrip(f.smallest, t4);
    ReadPrefixedRoundTrip(f.largest, tail);
  }

  /** Encoded records read back one after the other. */
  lemma {:induction false} RecordsRead(e: Fields, rs: seq<Record>, tail: Bytes)
    requires forall r :: r in rs ==> Fits(r)
    ensures ReadAll(e, AllBytes(rs) + tail) == ReadAll(ApplyAll(e, rs), tail)
    decreases |rs|
  {
    hide RecordBytes, ReadPayload, ReadVarint, Fits, Apply, Payload;
    if rs == [] {
      assert AllBytes(rs) + tail == tail;
    } else {
      var last := |rs| - 1;
      AllBytesAppend(rs[..last], rs[last]);
      assert rs[..last] + [rs[last]] == rs;
      assert AllBytes(rs) + tail == AllBytes(rs[..last]) + (RecordBytes(rs[last]) + tail);
      RecordsRead(e, rs[..last], RecordBytes(rs[last]) + tail);
      RecordRoundTrip(rs[last], tail);
    }
  }

  // ---------- encoding ----------

  /** The records an edit is written as, with the deleted files listed in some order. */
  function Records(e: Fields, deleted: seq<(nat, nat)>): seq<Record> {
    Scalars(e) + Pointers(e.compactPointers) + Deletions(deleted) + Additions(e.newFiles)
  }

  function Pointers(ps: seq<(nat, Bytes)>): seq<Record> {
    seq(|ps|, i requires 0 <= i < |ps| => CompactPointer(ps[i].0, ps[i].1))
  }

  function Deletions(ds: seq<(nat, nat)>): seq<Record> {
    seq(|ds|, i requires 0 <= i < |ds| => DeletedFile(ds[i].0, ds[i].1))
  }

  function Additions(fs: seq<NewFile>): seq<Record> {
    seq(|fs|, i requires 0 <= i < |fs| => AddedFile(fs[i]))
  }

  /** Some way of listing a set. */
  ghost predicate Lists<T(!new)>(order: seq<T>, s: set<T>) {
    forall x :: x in order <==> x in s
  }

  /** The bytes of an edit, its deleted files listed in some order, each once. */
  ghost predicate IsEncoding(bytes: Bytes, e: Fields) {
    exists order :: Lists(order, e.deletedFiles) && |order| == |e.deletedFiles| && bytes == AllBytes(Records(e, order))
  }

  // ---------- replaying the records ----------

  lemma {:induction false} ApplyPointers(e: Fields, ps: seq<(nat, Bytes)>)
    ensures ApplyAll(e, Pointers(ps)) == e.(compactPointers := e.compactPointers + ps)
  {
    if ps == [] {
      assert e.compactPointers + ps == e.compactPointers;
    } else {
      var n := |ps| - 1;
      ApplyPointers(e, ps[..n]);
      assert Pointers(ps)[..n] == Pointers(ps[..n]);
      assert e.compactPointers + ps[..n] + [ps[n]] == e.compactPointers + ps;
    }
  }

  function Elements(ds: seq<(nat, nat)>): set<(nat, nat)> {
    set d | d in ds
  }

  lemma ElementsLast(ds: seq<(nat, nat)>)
    requires ds != []
    ensures Elements(ds) == Elements(ds[..|ds| - 1]) + {ds[|ds| - 1]}
  {
    assert ds == ds[..|ds| - 1] + [ds[|ds| - 1]];
  }

  lemma {:induction false} ApplyDeletions(e: Fields, ds: seq<(nat, nat)>)
    ensures ApplyAll(e, Deletions(ds)) == e.(deletedFiles := e.deletedFiles + Elements(ds))
  {
    hide Elements;
    if ds == [] {
      assert Elements([]) == {} by { NoElements(); }
      assert e.deletedFiles + {} == e.deletedFiles;
    } else {
      var n := |ds| - 1;
      ApplyDeletions(e, ds[..n]);
      assert Deletions(ds)[..n] == Deletions(ds[..n]);
      ElementsLast(ds);
      assert e.deletedFiles + Elements(ds[..n]) + {ds[n]} == e.deletedFiles + Elements(ds);
    }
  }

  lemma NoElements()
    ensures Elements([]) == {}
  {
  }

  lemma {:induction false} ApplyAdditions(e: Fields, fs: seq<NewFile>)
    ensures ApplyAll(e, Additions(fs)) == e.(newFiles := e.newFiles + fs)
  {
    if fs == [] {
      assert e.newFiles + fs == e.newFiles;
    } else {
      var n := |fs| - 1;
      ApplyAdditions(e, fs[..n]);
      assert Additions(fs)[..n] == Additions(fs[..n]);
      assert e.newFiles + fs[..n] + [fs[n]] == e.newFiles + fs;
    }
  }

  lemma {:induction false} ApplyConcat(e: Fields, a: seq<Record>, b: seq<Record>)
    ensures ApplyAll(e, a + b) == ApplyAll(ApplyAll(e, a), b)
  {
    if b == [] {
      assert a + b == a;
    } else {
      var n := |b| - 1;
      assert (a + b)[..|a + b| - 1] == a + b[..n] && (a + b)[|a + b| - 1] == b[n];
      ApplyConcat(e, a, b[..n]);
    }
  }

  function AsRecord<T>(field: Option<T>, make: T -> Record): seq<Record> {
    if field.Some? then [make(field.value)] else []
  }

  /** The records of the optional fields. */
  function Scalars(e: Fields): seq<Record> {
    AsRecord(e.comparator, (name: Bytes) => Comparator(name))
    + AsRecord(e.logNumber, (n: nat) => LogNumber(n))
    + AsRecord(e.prevLogNumber, (n: nat) => PrevLogNumber(n))
    + AsRecord(e.nextFile, (n: nat) => NextFileNumber(n))
    + AsRecord(e.lastSequence, (n: nat) => LastSequence(n))
  }

  lemma ApplyOne<T>(e: Fields, field: Option<T>, make: T -> Record)
    ensures ApplyAll(e, AsRecord(field, make)) == if field.Some? then Apply(e, make(field.value)) else e
  {
    if field.Some? {
      assert [make(field.value)][..0] == [];
    }
  }

  lemma ApplyScalars(e: Fields, pointers: seq<(nat, Bytes)>)
    ensures ApplyAll(EMPTY_FIELDS.(compactPointers := pointers), Scalars(e))
            == Fields(e.comparator, e.logNumber, e.prevLogNumber, e.nextFile, e.lastSequence, pointers, {}, [])
  {
    hide ApplyAll, AsRecord;
    var s0 := EMPTY_FIELDS.(compactPointers := pointers);
    var a := AsRecord(e.comparator, (name: Bytes) => Comparator(name));
    var b := AsRecord(e.logNumber, (n: nat) => LogNumber(n));
    var c := AsRecord(e.prevLogNumber, (n: nat) => PrevLogNumber(n));
    var d := AsRecord(e.nextFile, (n: nat) => NextFileNumber(n));
    var f := AsRecord(e.lastSequence, (n: nat) => LastSequence(n));
    ApplyConcat(s0, a + b + c + d, f);
    ApplyConcat(s0, a + b + c, d);
    ApplyConcat(s0, a + b, c);
    ApplyConcat(s0, a, b);
    ApplyOne(s0, e.comparator, (name: Bytes) => Comparator(name));
    var s1 := s0.(comparator := e.comparator);
    ApplyOne(s1, e.logNumber, (n: nat) => LogNumber(n));
    var s2 := s1.(logNumber := e.logNumber);
    ApplyOne(s2, e.prevLogNumber, (n: nat) => PrevLogNumber(n));
    var s3 := s2.(prevLogNumber := e.prevLogNumber);
    ApplyOne(s3, e.nextFile, (n: nat) => NextFileNumber(n));
    var s4 := s3.(nextFile := e.nextFile);
    ApplyOne(s4, e.lastSequence, (n: nat) => LastSequence(n));
  }

  /** Reading an edit's records into a cleared object gives the edit, behind whatever compaction
      pointers clearing has left in it. */
  lemma RecordsReplay(e: Fields, deleted: seq<(nat, nat)>, pointers: seq<(nat, Bytes)>)
    requires Lists(deleted, e.deletedFiles)
    ensures ApplyAll(EMPTY_FIELDS.(compactPointers := pointers), Records(e, deleted))
            == e.(compactPointers := pointers + e.compactPointers)
  {
    hide ApplyAll;
    var start := EMPTY_FIELDS.(compactPointers := pointers);
    ApplyScalars(e, pointers);
    ApplyConcat(start, Scalars(e) + Pointers(e.compactPointers) + Deletions(deleted), Additions(e.newFiles));
    ApplyConcat(start, Scalars(e) + Pointers(e.compactPointers), Deletions(deleted));
    ApplyConcat(start, Scalars(e), Pointers(e.compactPointers));
    var s1 := Fields(e.comparator, e.logNumber, e.prevLogNumber, e.nextFile, e.lastSequence, pointers, {}, []);
    ApplyPointers(s1, e.compactPointers);
    var s2 := s1.(compactPointers := pointers + e.compactPointers);
    ApplyDeletions(s2, deleted);
    assert Elements(deleted) == e.deletedFiles;
    ApplyAdditions(s2.(deletedFiles := {} + e.deletedFiles), e.newFiles);
    assert Records(e, deleted) == Scalars(e) + Pointers(e.compactPointers) + Deletions(deleted) + Additions(e.newFiles);
  }

  // ---------- the edit object ----------

  /** What the encoder's callers guarantee: machine-word numbers and real levels. */
  predicate Encodable(e: Fields) {
    && (e.comparator.Some? ==> |e.comparator.value| < WORD)
    && (e.logNumber.Some? ==> e.logNumber.value < DWORD) && (e.prevLogNumber.Some? ==> e.prevLogNumber.value < DWORD)
    && (e.nextFile.Some? ==> e.nextFile.value < DWORD) && (e.lastSequence.Some? ==> e.lastSequence.value < DWORD)
    && (forall i :: 0 <= i < |e.compactPointers| ==> Fits(CompactPointer(e.compactPointers[i].0, e.compactPointers[i].1)))
    && (forall d :: d in e.deletedFiles ==> Fits(DeletedFile(d.0, d.1)))
    && (forall i :: 0 <= i < |e.newFiles| ==> Fits(AddedFile(e.newFiles[i])))
  }

  lemma RecordsFit(e: Fields, deleted: seq<(nat, nat)>)
    requires Encodable(e) && Lists(deleted, e.deletedFiles)
    ensures forall r :: r in Records(e, deleted) ==> Fits(r)
  {
    forall r | r in Records(e, deleted) ensures Fits(r) {
      hide Fits, Encodable, Lists;
      assert r in Scalars(e) || r in Pointers(e.compactPointers) || r in Deletions(deleted) || r in Additions(e.newFiles);
      ScalarsFit(e, r);
      ListsFit(e, deleted, r);
    }
  }

  lemma ScalarsFit(e: Fields, r: Record)
    requires Encodable(e)
    ensures r in Scalars(e) ==> Fits(r)
  {
    var a := AsRecord(e.comparator, (name: Bytes) => Comparator(name));
    var b := AsRecord(e.logNumber, (n: nat) => LogNumber(n));
    var c := AsRecord(e.prevLogNumber, (n: nat) => PrevLogNumber(n));
    var d := AsRecord(e.nextFile, (n: nat) => NextFileNumber(n));
    var f := AsRecord(e.lastSequence, (n: nat) => LastSequence(n));
    assert r in a ==> Fits(r);
    assert r in b ==> Fits(r);
    assert r in c ==> Fits(r);
    assert r in d ==> Fits(r);
    assert r in f ==> Fits(r);
    hide Fits, AsRecord, Encodable;
    assert r in Scalars(e) ==> r in a || r in b || r in c || r in d || r in f;
  }

  lemma ListsFit(e: Fields, deleted: seq<(nat, nat)>, r: Record)
    requires Encodable(e) && Lists(deleted, e.deletedFiles)
    ensures r in Pointers(e.compactPointers) || r in Deletions(deleted) || r in Additions(e.newFiles) ==> Fits(r)
  {
    if r in Deletions(deleted) {
      var i :| 0 <= i < |deleted| && r == DeletedFile(deleted[i].0, deleted[i].1);
      assert deleted[i] in deleted;
    }
  }

  class VersionEdit {
    var fields: Fields

    constructor ()
      ensures fields == EMPTY_FIELDS
    {
      fields := EMPTY_FIELDS;
    }

    /** Clearing forgets everything except the compaction pointers. */
    method Clear()
      modifies this
      ensures fields == EMPTY_FIELDS.(compactPointers := old(fields.compactPointers))
    {
      fields := EMPTY_FIELDS.(compactPointers := fields.compactPointers);
    }

    method Put(dst: Bytes, ghost done: seq<Record>, r: Record) returns (bytes: Bytes)
      requires dst == AllBytes(done)
      ensures bytes == AllBytes(done + [r])
    {
      AllBytesAppend(done, r);
      bytes := dst + RecordBytes(r);
    }

    method EncodeTo() returns (dst: Bytes, ghost order: seq<(nat, nat)>)
      ensures Lists(order, fields.deletedFiles) && |order| == |fields.deletedFiles| && dst == AllBytes(Records(fields, order))
      ensures IsEncoding(dst, fields)
    {
      hide RecordBytes, AllBytes;
      assert AllBytes([]) == [] by { NoBytes(); }
      dst := [];
      ghost var done := [];
      if fields.comparator.Some? {
        dst := Put(dst, done, Comparator(fields.comparator.value));
        done := done + [Comparator(fields.comparator.value)];
      }
      if fields.logNumber.Some? {
        dst := Put(dst, done, LogNumber(fields.logNumber.value));
        done := done + [LogNumber(fields.logNumber.value)];
      }
      if fields.prevLogNumber.Some? {
        dst := Put(dst, done, PrevLogNumber(fields.prevLogNumber.value));
        done := done + [PrevLogNumber(fields.prevLogNumber.value)];
      }
      if fields.nextFile.Some? {
        dst := Put(dst, done, NextFileNumber(fields.nextFile.value));
        done := done + [NextFileNumber(fields.nextFile.value)];
      }
      if fields.lastSequence.Some? {
        dst := Put(dst, done, LastSequence(fields.lastSequence.value));
        done := done + [LastSequence(fields.lastSequence.value)];
      }
      assert done == Scalars(fields);
      dst, order := EncodeLists(dst, done);
    }

    method EncodeLists(start: Bytes, ghost scalars: seq<Record>) returns (dst: Bytes, ghost order: seq<(nat, nat)>)
      requires start == AllBytes(scalars) && scalars == Scalars(fields)
      ensures Lists(order, fields.deletedFiles) && |order| == |fields.deletedFiles| && dst == AllBytes(Records(fields, order))
      ensures IsEncoding(dst, fields)
    {
      hide RecordBytes, AllBytes, Scalars;
      dst := start;
      ghost var done := scalars;
      for i := 0 to |fields.compactPointers|
        invariant done == scalars + Pointers(fields.compactPointers[..i]) && dst == AllBytes(done)
      {
        dst := Put(dst, done, CompactPointer(fields.compactPointers[i].0, fields.compactPointers[i].1));
        done := done + [CompactPointer(fields.compactPointers[i].0, fields.compactPointers[i].1)];
      }
      ghost var pointers := done;
      assert fields.compactPointers[..|fields.compactPointers|] == fields.compactPointers;
      order := [];
      var left := fields.deletedFiles;
      while left != {}
        invariant done == pointers + Deletions(order) && dst == AllBytes(done)
        invariant left <= fields.deletedFiles && |order| + |left| == |fields.deletedFiles| && forall d :: d in order <==> d in fields.deletedFiles - left
        decreases left
      {
        var d :| d in left;
        dst := Put(dst, done, DeletedFile(d.0, d.1));
        done, order := done + [DeletedFile(d.0, d.1)], order + [d];
        left := left - {d};
      }
      ghost var deletions := done;
      for i := 0 to |fields.newFiles|
        invariant done == deletions + Additions(fields.newFiles[..i]) && dst == AllBytes(done)
      {
        dst := Put(dst, done, AddedFile(fields.newFiles[i]));
        done := done + [AddedFile(fields.newFiles[i])];
      }
      assert fields.newFiles[..|fields.newFiles|] == fields.newFiles;
    }

    lemma NoBytes()
      ensures AllBytes([]) == []
    {
    }

    method GetLevel(input: Input) returns (ok: bool, level: nat)
      modifies input
      ensures match ReadLevel(old(input.rest)) case Bad => !ok case Got(v, t) => ok && level == v && input.rest == t
    {
      ok, level := input.TakeVarint(5, WORD);
      ok := ok && level < NUM_LEVELS;
    }

    method GetAddedFile(input: Input) returns (ok: bool, f: NewFile)
      modifies input
      ensures match ReadAddedFile(old(input.rest)) case Bad => !ok case Got(v, t) => ok && f == v && input.rest == t
    {
      hide ReadVarint, ReadPrefixed, ReadLevel;
      f := NewFile(0, 0, 0, [], []);
      var level, number, size := 0, 0, 0;
      var smallest, largest: Bytes := [], [];
      ok, level := GetLevel(input);
      if ok {
        ok, number := input.TakeVarint(10, DWORD);
      }
      if ok {
        ok, size := input.TakeVarint(10, DWORD);
      }
      if ok {
        ok, smallest := input.TakeLengthPrefixed();
      }
      if ok {
        ok, largest := input.TakeLengthPrefixed();
      }
      f := NewFile(level, number, size, smallest, largest);
    }

    /** The case analysis of DecodeFrom. */
    method DecodePayload(input: Input, tag: nat) returns (msg: string)
      modifies this, input
      ensures match ReadPayload(tag, old(input.rest))
              case Bad => msg == Complaint(tag) && fields == old(fields)
              case Got(r, t) => msg == "" && fields == Apply(old(fields), r) && input.rest == t
    {
      hide ReadVarint, ReadPrefixed, ReadLevel, ReadAddedFile;
      msg := "";
      var ok, level, number := true, 0, 0;
      var str: Bytes := [];
      if tag == 1 {
        ok, str := input.TakeLengthPrefixed();
        if ok {
          fields := fields.(comparator := Some(str));
        } else {
          msg := "comparator name";
        }
      } else if tag == 2 {
        ok, number := input.TakeVarint(10, DWORD);
        if ok {
          fields := fields.(logNumber := Some(number));
        } else {
          msg := "log number";
        }
      } else if tag == 9 {
        ok, number := input.TakeVarint(10, DWORD);
        if ok {
          fields := fields.(prevLogNumber := Some(number));
        } else {
          msg := "previous log number";
        }
      } else if tag == 3 {
        ok, number := input.TakeVarint(10, DWORD);
        if ok {
          fields := fields.(nextFile := Some(number));
        } else {
          msg := "next file number";
        }
      } else if tag == 4 {
        ok, number := input.TakeVarint(10, DWORD);
        if ok {
          fields := fields.(lastSequence := Some(number));
        } else {
          msg := "last sequence number";
        }
      } else if tag == 5 {
        ok, level := GetLevel(input);
        if ok {
          ok, str := input.TakeLengthPrefixed();
        }
        if ok {
          fields := fields.(compactPointers := fields.compactPointers + [(level, str)]);
        } else {
          msg := "compaction pointer";
        }
      } else if tag == 6 {
        ok, level := GetLevel(input);
        if ok {
          ok, number := input.TakeVarint(10, DWORD);
        }
        if ok {
          fields := fields.(deletedFiles := fields.deletedFiles + {(level, number)});
        } else {
          msg := "deleted file";
        }
      } else if tag == 7 {
        var f: NewFile;
        ok, f := GetAddedFile(input);
        if ok {
          fields := fields.(newFiles := fields.newFiles + [f]);
        } else {
          msg := "new-file entry";
        }
      } else {
        msg := "unknown tag";
      }
    }

    /** DecodeFrom, of any bytes: compaction pointers already in the object stay in front of the
        decoded ones. */
    method DecodeFrom(src: Bytes) returns (msg: string)
      modifies this
      ensures (msg, fields) == ReadAll(EMPTY_FIELDS.(compactPointers := old(fields.compactPointers)), src)
    {
      hide ReadVarint, ReadPayload, Apply, Complaint;
      Clear();
      var input := new Input(src);
      ghost var start := fields;
      msg := "";
      var more, tag := true, 0;
      while more && msg == ""
        invariant fresh(input)
        invariant msg == "" ==> ReadAll(start, src) == ReadAll(fields, input.rest)
        invariant msg == "" && !more ==> ReadVarint(input.rest, 5, WORD).Bad?
        invariant msg != "" ==> ReadAll(start, src) == (msg, fields)
        decreases msg == "", more, |input.rest|
      {
        more, tag := input.TakeVarint(5, WORD);
        if more {
          msg := DecodePayload(input, tag);
        }
      }
      if msg == "" && input.rest != [] {
        msg := "invalid tag";
      }
    }
  }

  /** The bytes of an edit read back as the edit, behind the compaction pointers that were there. */
  lemma EncodedReads(e: Fields, order: seq<(nat, nat)>, pointers: seq<(nat, Bytes)>)
    requires Encodable(e) && Lists(order, e.deletedFiles)
    ensures ReadAll(EMPTY_FIELDS.(compactPointers := pointers), AllBytes(Records(e, order)))
            == ("", e.(compactPointers := pointers + e.compactPointers))
  {
    var start, rs := EMPTY_FIELDS.(compactPointers := pointers), Records(e, order);
    RecordsFit(e, order);
    RecordsReplay(e, order, pointers);
    hide AllBytes, Records, Encodable, Lists, ApplyAll;
    RecordsRead(start, rs, []);
    assert AllBytes(rs) + [] == AllBytes(rs);
  }

  /** Decoding gives an edit back exactly when the object had no compaction pointers before: clearing
      leaves them in place. */
  lemma DecodedIsEncodedIff(e: Fields, before: seq<(nat, Bytes)>)
    ensures e.(compactPointers := before + e.compactPointers) == e <==> before == []
  {
    if before == [] {
      assert before + e.compactPointers == e.compactPointers;
    } else {
      assert |before + e.compactPointers| > |e.compactPointers|;
    }
  }

  /** Encoding an edit and decoding it into a fresh one gives the edit. */
  method EncodeThenDecode(edit: VersionEdit) returns (msg: string, copy: VersionEdit)
    ensures Encodable(edit.fields) ==> msg == "" && copy.fields == edit.fields
    ensures fresh(copy)
  {
    ghost var e := edit.fields;
    ghost var order;
    var bytes;
    bytes, order := edit.EncodeTo();
    copy := new VersionEdit();
    msg := copy.DecodeFrom(bytes);
    if Encodable(e) {
      EncodedReads(e, order, []);
      DecodedIsEncodedIff(e, []);
    }
  }
}
