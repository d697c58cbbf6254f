/** Write-ahead log files: records cut into checksummed fragments that never cross a 32 KB block
    (db/log_format.h, db/log_writer.cc, db/log_reader.cc). */
module LogFormat {
  import opened Coding
  import Crc32c

  const BLOCK_SIZE: nat := 32768
  const HEADER_SIZE: nat := 7

  const ZERO_TYPE: nat := 0
  const FULL_TYPE: nat := 1
  const FIRST_TYPE: nat := 2
  const MIDDLE_TYPE: nat := 3
  const LAST_TYPE: nat := 4

  // ---------- the format ----------

  function Zeros(n: nat): (z: Bytes)
    ensures |z| == n
  {
    seq(n, _ => 0)
  }

  /** Checksum over the type byte and the payload, masked. */
  function Checksum(t: Byte, payload: Bytes): (c: Bytes)
    ensures |c| == 4
  {
    EncodeFixed32(Crc32c.Mask(Crc32c.Crc(Crc32c.Crc(0, [t]), payload)))
  }

  function Header(t: nat, payload: Bytes): (h: Bytes)
    requires t <= LAST_TYPE && |payload| < 0x1_0000
    ensures |h| == HEADER_SIZE
  {
    Checksum(t as Byte, payload) + [(|payload| % 256) as Byte, (|payload| / 256) as Byte, t as Byte]
  }

  /** One fragment as it stands in the file. */
  function Physical(t: nat, payload: Bytes): (b: Bytes)
    requires t <= LAST_TYPE && |payload| < 0x1_0000
    ensures |b| == HEADER_SIZE + |payload|
  {
    Header(t, payload) + payload
  }

  /** Padding before a fragment written at file position p. */
  function Pad(p: nat): (n: nat)
    ensures n < HEADER_SIZE && (p + n) % BLOCK_SIZE + HEADER_SIZE <= BLOCK_SIZE
  {
    var leftover := BLOCK_SIZE - p % BLOCK_SIZE;
    if leftover < HEADER_SIZE then leftover else 0
  }

  /** Payload bytes that still fit into the block after a header at p. */
  function Avail(p: nat): nat
    requires p % BLOCK_SIZE + HEADER_SIZE <= BLOCK_SIZE
  {
    BLOCK_SIZE - p % BLOCK_SIZE - HEADER_SIZE
  }

  function Type(begin: bool, end: bool): nat {
    if begin && end then FULL_TYPE else if begin then FIRST_TYPE else if end then LAST_TYPE else MIDDLE_TYPE
  }

  /** How much of `left` payload bytes goes into the fragment written at p. */
  function Cut(p: nat, left: nat): (n: nat)
    ensures n <= left && n <= BLOCK_SIZE - HEADER_SIZE
  {
    var avail := Avail(p + Pad(p));
    if left < avail then left else avail
  }

  /** The first fragment, with its padding, of data written at p. */
  function Fragment(p: nat, data: Bytes, begin: bool): Bytes {
    var n := Cut(p, |data|);
    Zeros(Pad(p)) + Physical(Type(begin, n == |data|), data[..n])
  }

  /** What AddRecord appends at file position p. When a block has exactly a header's room left the
      fragment carries nothing, and the next one starts a fresh block. */
  function RecordBytes(p: nat, data: Bytes, begin: bool): Bytes
    decreases |data|, Avail(p + Pad(p)) == 0
  {
    var n := Cut(p, |data|);
    var f := Fragment(p, data, begin);
    if n == |data| then f
    else
      AfterEmptyFragment(p);
      f + RecordBytes(p + |f|, data[n..], false)
  }

  lemma AfterEmptyFragment(p: nat)
    ensures Avail(p + Pad(p)) == 0 ==>
              var q := p + Pad(p) + HEADER_SIZE; Pad(q) == 0 && Avail(q) > 0
  {
  }

  /** A whole log file. */
  function LogBytes(p: nat, records: seq<Bytes>): Bytes
    decreases |records|
  {
    if records == [] then []
    else
      var b := RecordBytes(p, records[0], true);
      b + LogBytes(p + |b|, records[1..])
  }

  // ---------- the writer ----------

  lemma SameOffsetAfter(a: nat, b: nat, k: nat)
    requires a % BLOCK_SIZE == b % BLOCK_SIZE
    ensures (a + k) % BLOCK_SIZE == (b + k) % BLOCK_SIZE
  {
  }

  /** AddRecord does one fragment, then the rest. */
  lemma RecordUnfolds(p: nat, data: Bytes, begin: bool)
    ensures var n, f := Cut(p, |data|), Fragment(p, data, begin);
            && |f| == Pad(p) + HEADER_SIZE + n
            && RecordBytes(p, data, begin) == f + (if n == |data| then [] else RecordBytes(p + |f|, data[n..], false))
            && (n < |data| ==> n > 0 || (Avail(p + Pad(p)) == 0 && Avail(p + |f| + Pad(p + |f|)) > 0))
  {
    hide Physical;
    AfterEmptyFragment(p);
  }

  class Writer {
    var dest: Bytes
    var blockOffset: nat

    ghost predicate Ok()
      reads this
    {
      blockOffset <= BLOCK_SIZE && blockOffset % BLOCK_SIZE == |dest| % BLOCK_SIZE
    }

    /** Continue a file, at the block offset its length implies. */
    constructor (dest: Bytes)
      ensures Ok() && this.dest == dest
    {
      this.dest, blockOffset := dest, |dest| % BLOCK_SIZE;
    }

    method AddRecord(data: Bytes)
      requires Ok()
      modifies this
      ensures Ok() && dest == old(dest) + RecordBytes(|old(dest)|, data, true)
    {
      hide RecordBytes, Physical, Zeros, Fragment;
      ghost var whole := dest + RecordBytes(|dest|, data, true);
      var done, begin, finished := 0, true, false;
      while !finished
        invariant Ok() && done <= |data|
        invariant whole == if finished then dest else dest + RecordBytes(|dest|, data[done..], begin)
        decreases !finished, |data| - done, Avail(|dest| + Pad(|dest|)) == 0
      {
        ghost var p := |dest|;
        RecordUnfolds(p, data[done..], begin);
        var length: nat;
        length := AddFragment(data[done..], begin);
        assert data[done..][length..] == data[done + length..];
        finished := done + length == |data|;
        done, begin := done + length, false;
      }
    }

    /** One round of AddRecord's loop: pad to a new block if need be, then emit what fits. */
    method AddFragment(rest: Bytes, begin: bool) returns (length: nat)
      requires Ok()
      modifies this
      ensures Ok() && length == Cut(|old(dest)|, |rest|)
      ensures dest == old(dest) + Fragment(|old(dest)|, rest, begin)
    {
      hide Physical, Zeros;
      ghost var before := dest;
      var leftover := BLOCK_SIZE - blockOffset;
      if leftover < HEADER_SIZE {
        if leftover > 0 {
          dest := dest + Zeros(leftover);
        }
        blockOffset := 0;
      }
      assert dest == before + Zeros(Pad(|before|)) by { NoZeros(); }
      assert Ok() by { assert |dest| == |before| + Pad(|before|); }
      var avail := BLOCK_SIZE - blockOffset - HEADER_SIZE;
      length := if |rest| < avail then |rest| else avail;
      var end := |rest| == length;
      var t := if begin && end then FULL_TYPE else if begin then FIRST_TYPE else if end then LAST_TYPE else MIDDLE_TYPE;
      EmitPhysicalRecord(t, rest[..length]);
    }

    lemma NoZeros()
      ensures Zeros(0) == []
    {
    }

    method EmitPhysicalRecord(t: nat, payload: Bytes)
      requires Ok() && t <= LAST_TYPE && blockOffset + HEADER_SIZE + |payload| <= BLOCK_SIZE
      modifies this
      ensures Ok() && dest == old(dest) + Physical(t, payload) && blockOffset == old(blockOffset) + HEADER_SIZE + |payload|
    {
      hide Crc32c.Crc, EncodeFixed32, Crc32c.Mask;
      var crc := Crc32c.Extend(Crc32c.Crc(0, [t as Byte]), payload, 0);
      var buf := EncodeFixed32(Crc32c.Mask(crc)) + [(|payload| % 256) as Byte, (|payload| / 256) as Byte, t as Byte];
      SameOffsetAfter(blockOffset, |dest|, HEADER_SIZE + |payload|);
      dest := dest + buf;
      dest := dest + payload;
      blockOffset := blockOffset + HEADER_SIZE + |payload|;
      assert old(dest) + buf + payload == old(dest) + (buf + payload);
    }
  }

  // ---------- the reader ----------

  datatype Event = EndOfFile | BadRecord | PhysicalRecord(kind: nat, fragment: Bytes)

  /** The two length bytes of a header. */
  function LengthField(b: Bytes): (n: nat)
    requires |b| >= HEADER_SIZE
    ensures n < 0x1_0000
  {
    b[4] as nat + 256 * (b[5] as nat)
  }

  predicate ChecksumMatches(b: Bytes, length: nat)
    requires HEADER_SIZE + length <= |b|
  {
    Crc32c.Crc(0, b[6..HEADER_SIZE + length]) == Crc32c.Unmask(DecodeFixed32(b))
  }

  lemma TailOfHeader(t: nat, payload: Bytes)
    requires t <= LAST_TYPE && |payload| < 0x1_0000
    ensures var h := Header(t, payload);
            h[..4] == Checksum(t as Byte, payload) && h[4] == (|payload| % 256) as Byte && h[5] == (|payload| / 256) as Byte && h[6] == t as Byte
  {
    hide Checksum;
  }

  lemma LengthOfBytes(b: Bytes, n: nat)
    requires |b| >= HEADER_SIZE && n < 0x1_0000 && b[4] == (n % 256) as Byte && b[5] == (n / 256) as Byte
    ensures LengthField(b) == n
  {
  }

  lemma ChecksumRoundTrip(b: Bytes, t: nat, payload: Bytes)
    requires t <= LAST_TYPE && |payload| < 0x1_0000
    requires |b| >= HEADER_SIZE && b[..4] == Checksum(t as Byte, payload)
    requires |b| >= HEADER_SIZE + |payload| && b[6..HEADER_SIZE + |payload|] == [t as Byte] + payload
    ensures ChecksumMatches(b, |payload|)
  {
    hide Crc32c.Crc, Crc32c.Mask, Crc32c.Unmask, EncodeFixed32, DecodeFixed32;
    var crc := Crc32c.Crc(Crc32c.Crc(0, [t as Byte]), payload);
    Crc32c.CrcConcat(0, [t as Byte], payload);
    Crc32c.MaskBijective(crc);
    Fixed32RoundTrip(Crc32c.Mask(crc));
    DecodesFirstFour(b, EncodeFixed32(Crc32c.Mask(crc)));
  }

  /** A fragment read back from the start of a buffer is recognised for what it is. */
  lemma FragmentRoundTrip(b: Bytes, t: nat, payload: Bytes)
    requires t <= LAST_TYPE && |payload| < 0x1_0000 && |b| >= HEADER_SIZE
    requires b <= Physical(t, payload) || Physical(t, payload) <= b
    ensures LengthField(b) == |payload| && b[6] as nat == t
    ensures |b| >= HEADER_SIZE + |payload| ==>
              b[HEADER_SIZE..HEADER_SIZE + |payload|] == payload && ChecksumMatches(b, |payload|)
  {
    hide ChecksumMatches, Checksum, LengthField, Header;
    var f, h := Physical(t, payload), Header(t, payload);
    assert f[..HEADER_SIZE] == h && f[HEADER_SIZE..] == payload;
    assert b[..HEADER_SIZE] == h;
    TailOfHeader(t, payload);
    assert b[4] == b[..HEADER_SIZE][4] && b[5] == b[..HEADER_SIZE][5] && b[6] == b[..HEADER_SIZE][6];
    assert LengthField(b) == |payload| by { LengthOfBytes(b, |payload|); }
    if |b| >= |f| {
      assert b[..|f|] == f;
      assert b[HEADER_SIZE..|f|] == f[HEADER_SIZE..];
      assert b[..4] == h[..4];
      assert b[6..|f|] == [b[6]] + b[HEADER_SIZE..|f|];
      ChecksumRoundTrip(b, t, payload);
    }
  }

  lemma DecodesFirstFour(b: Bytes, w: Bytes)
    requires |b| >= 4 && |w| == 4 && b[..4] == w
    ensures DecodeFixed32(b) == DecodeFixed32(w)
  {
    assert forall i :: 0 <= i < 4 ==> b[i] == w[i];
  }

  class Reader {
    const file: Bytes
    const checksum: bool
    var offset: nat
    var buffer: Bytes
    var eof: bool
    /** Sizes of what has been reported as dropped. */
    var reports: seq<nat>
    /** The log as its writer had it; the file is a prefix of it, or something else altogether. */
    ghost const log: Bytes

    ghost predicate Ok()
      reads `offset, `buffer, `eof
    {
      && offset <= |file| && |buffer| <= offset && buffer == file[offset - |buffer|..offset]
      && (if eof then offset == |file| && |buffer| <= offset % BLOCK_SIZE else offset % BLOCK_SIZE == 0 && |buffer| <= BLOCK_SIZE)
    }

    /** File position of the first byte not yet consumed. */
    ghost function Pos(): (p: nat)
      requires Ok()
      reads `offset, `buffer, `eof
      ensures p <= |file|
    {
      offset - |buffer|
    }

    constructor (file: Bytes, checksum: bool, ghost log: Bytes)
      ensures Ok() && Pos() == 0 && !eof && reports == []
      ensures this.file == file && this.checksum == checksum && this.log == log
    {
      this.file, this.checksum, this.log := file, checksum, log;
      offset, buffer, eof, reports := 0, [], false, [];
    }

    ghost predicate Torn() {
      file <= log
    }

    /** The log holds this fragment, after its padding, at the reader's position. */
    ghost predicate Awaits(t: nat, payload: Bytes)
      requires Ok()
      reads `offset, `buffer, `eof
    {
      && Torn() && ZERO_TYPE < t <= LAST_TYPE
      && (Pos() + Pad(Pos())) % BLOCK_SIZE + HEADER_SIZE + |payload| <= BLOCK_SIZE
      && Pos() <= |log| && Zeros(Pad(Pos())) + Physical(t, payload) <= log[Pos()..]
    }

    ghost function End(payload: Bytes): nat
      requires Ok()
      reads `offset, `buffer, `eof
    {
      Pos() + Pad(Pos()) + HEADER_SIZE + |payload|
    }

    /** Reads the next block, if the file has one. */
    method Refill()
      requires Ok() && !eof && |buffer| < HEADER_SIZE
      modifies this
      ensures Ok() && reports == old(reports) && offset >= old(offset)
      ensures Pos() == old(offset) && offset == if |file| - old(offset) < BLOCK_SIZE then |file| else old(offset) + BLOCK_SIZE
      ensures eof <==> |buffer| < BLOCK_SIZE
    {
      var n := if |file| - offset < BLOCK_SIZE then |file| - offset else BLOCK_SIZE;
      buffer := file[offset..offset + n];
      BlockArithmetic(offset, n);
      offset := offset + n;
      if |buffer| < BLOCK_SIZE {
        eof := true;
      }
    }

    lemma BlockArithmetic(o: nat, n: nat)
      requires o % BLOCK_SIZE == 0 && n <= BLOCK_SIZE
      ensures (o + n) % BLOCK_SIZE == if n == BLOCK_SIZE then 0 else n
    {
    }

    /** What is left of the buffer is what is left of the block, or the file ends first. */
    lemma PadOfPos()
      requires Ok()
      ensures |buffer| < HEADER_SIZE && !eof ==> Pad(Pos()) == |buffer| && Pad(offset) == 0
      ensures |buffer| >= HEADER_SIZE ==> Pad(Pos()) == 0
      ensures |buffer| >= HEADER_SIZE && !eof ==> Pos() % BLOCK_SIZE + |buffer| == BLOCK_SIZE
    {
    }

    /** A fragment at the front of the buffer, as a piece of the file. */
    static lemma PrefixParts(file: Bytes, offset: nat, buffer: Bytes, length: nat)
      requires offset <= |file| && |buffer| <= offset && buffer == file[offset - |buffer|..offset]
      requires HEADER_SIZE + length <= |buffer| && LengthField(buffer) == length
      ensures var start, n := offset - |buffer|, HEADER_SIZE + length;
              var f := file[start..start + n];
              && LengthField(f) == length && f[6] == buffer[6] && f[HEADER_SIZE..] == buffer[HEADER_SIZE..n]
              && (ChecksumMatches(f, length) <==> ChecksumMatches(buffer, length))
    {
      hide Crc32c.Crc, Crc32c.Unmask, DecodeFixed32;
      var start, n := offset - |buffer|, HEADER_SIZE + length;
      var f := file[start..start + n];
      assert f == buffer[..n];
      assert f[6..n] == buffer[6..n] && f[HEADER_SIZE..] == buffer[HEADER_SIZE..n];
      DecodesFirstFour(f, buffer[..4]);
      DecodesFirstFour(buffer, buffer[..4]);
    }

    /** The fragment is what stands just before the reader's position in the file, and its checksum is right. */
    ghost predicate ReadFrom(e: Event)
      requires Ok() && e.PhysicalRecord?
      reads `offset, `buffer, `eof
    {
      var n := HEADER_SIZE + |e.fragment|;
      && n <= Pos()
      && var f := file[Pos() - n..Pos()];
      && LengthField(f) == |e.fragment| && f[6] as nat == e.kind && f[HEADER_SIZE..] == e.fragment
      && (checksum ==> ChecksumMatches(f, |e.fragment|))
    }

    method ReadPhysicalRecord(ghost t: nat, ghost payload: Bytes) returns (e: Event)
      requires Ok()
      modifies this
      ensures Ok() && Pos() >= old(Pos())
      ensures if e.EndOfFile? then eof && buffer == [] else Pos() > old(Pos())
      ensures e.PhysicalRecord? ==> ReadFrom(e)
      ensures old(Torn() && Pos() == |log|) ==> e.EndOfFile? && reports == old(reports)
      ensures old(Awaits(t, payload)) ==>
                && reports == old(reports)
                && (if old(End(payload)) <= |file| then e == PhysicalRecord(t, payload) && Pos() == old(End(payload))
                    else e.EndOfFile?)
    {
      hide Pad, Zeros, Physical, Awaits, End, Torn, Next, ChecksumMatches, LengthField;
      while |buffer| < HEADER_SIZE
        invariant Ok() && Pos() >= old(Pos()) && reports == old(reports)
        invariant old(Torn() && Pos() == |log|) ==> Torn() && Pos() == |log|
        invariant old(Awaits(t, payload)) ==> Awaits(t, payload) && End(payload) == old(End(payload))
        decreases |file| - offset, !eof
      {
        if eof {
          TruncatedHeader(t, payload);
          buffer := [];
          return EndOfFile;
        }
        PadOfPos();
        SkipPad(t, payload);
        Refill();
        if old(Awaits(t, payload)) {
          StillAwaits(t, payload);
        }
      }
      PadOfPos();
      RecognizeFragment(t, payload);
      e := ParseFragment();
    }

    /** Parses the fragment at the start of the buffer. */
    method ParseFragment() returns (e: Event)
      requires Ok() && |buffer| >= HEADER_SIZE
      modifies this
      ensures Ok() && Pos() >= old(Pos())
      ensures if e.EndOfFile? then eof && buffer == [] else Pos() > old(Pos())
      ensures old(HEADER_SIZE + LengthField(buffer) > |buffer| && eof) ==> e.EndOfFile? && reports == old(reports)
      ensures old(HEADER_SIZE + LengthField(buffer) <= |buffer| && buffer[6] != 0 && ChecksumMatches(buffer, LengthField(buffer))) ==>
                var n := old(LengthField(buffer));
                && e == PhysicalRecord(old(buffer[6]) as nat, old(buffer)[HEADER_SIZE..HEADER_SIZE + n])
                && Pos() == old(Pos()) + HEADER_SIZE + n && reports == old(reports)
      ensures e.PhysicalRecord? ==> ReadFrom(e)
      ensures old(checksum && HEADER_SIZE + LengthField(buffer) <= |buffer| && buffer[6] != 0 && !ChecksumMatches(buffer, LengthField(buffer))) ==>
                e.BadRecord? && reports == old(reports) + [|old(buffer)|]
    {
      hide ChecksumMatches, LengthField, ReadFrom;
      var kind := buffer[6] as nat;
      var length := LengthField(buffer);
      if HEADER_SIZE + length > |buffer| {
        var drop := |buffer|;
        buffer := [];
        if !eof {
          reports := reports + [drop];
          return BadRecord;
        }
        return EndOfFile;
      }
      if kind == ZERO_TYPE && length == 0 {
        buffer := [];
        return BadRecord;
      }
      if checksum {
        var matches := CheckFragment(length);
        if !matches {
          reports := reports + [|buffer|];
          buffer := [];
          return BadRecord;
        }
      }
      e := TakeFragment(length);
    }

    /** Consumes the fragment at the start of the buffer. */
    method TakeFragment(length: nat) returns (e: Event)
      requires Ok() && HEADER_SIZE + length <= |buffer| && LengthField(buffer) == length
      requires checksum ==> ChecksumMatches(buffer, length)
      modifies `buffer
      ensures Ok() && Pos() == old(Pos()) + HEADER_SIZE + length
      ensures e == PhysicalRecord(old(buffer[6]) as nat, old(buffer)[HEADER_SIZE..HEADER_SIZE + length]) && ReadFrom(e)
    {
      hide ChecksumMatches, LengthField, ReadFrom;
      var kind := buffer[6] as nat;
      var fragment := buffer[HEADER_SIZE..HEADER_SIZE + length];
      PrefixParts(file, offset, buffer, length);
      buffer := buffer[HEADER_SIZE + length..];
      e := PhysicalRecord(kind, fragment);
      NowRead(e, HEADER_SIZE + length);
    }

    /** The stored checksum against the one of the bytes. */
    method CheckFragment(length: nat) returns (matches: bool)
      requires HEADER_SIZE + length <= |buffer|
      ensures matches <==> ChecksumMatches(buffer, length)
    {
      hide Crc32c.Crc, Crc32c.Unmask, DecodeFixed32;
      var actual := Crc32c.Extend(0, buffer[6..HEADER_SIZE + length], 0);
      matches := actual == Crc32c.Unmask(DecodeFixed32(buffer));
    }

    lemma NowRead(e: Event, n: nat)
      requires Ok() && e.PhysicalRecord? && n == HEADER_SIZE + |e.fragment| && n <= Pos()
      requires var f := file[Pos() - n..Pos()];
               LengthField(f) == |e.fragment| && f[6] as nat == e.kind && f[HEADER_SIZE..] == e.fragment && (checksum ==> ChecksumMatches(f, |e.fragment|))
      ensures ReadFrom(e)
    {
      hide ChecksumMatches, LengthField;
    }

    /** The log holds this fragment at a position that needs no padding. */
    ghost predicate Next(t: nat, payload: Bytes, p: nat) {
      && Torn() && ZERO_TYPE < t <= LAST_TYPE
      && Pad(p) == 0 && p % BLOCK_SIZE + HEADER_SIZE + |payload| <= BLOCK_SIZE
      && p <= |log| && Zeros(0) + Physical(t, payload) <= log[p..]
    }

    lemma StillAwaits(t: nat, payload: Bytes)
      requires Ok() && Next(t, payload, Pos())
      ensures Awaits(t, payload) && End(payload) == Pos() + HEADER_SIZE + |payload|
    {
      hide Zeros, Physical, Pad, Ok, Pos, Torn;
    }

    /** Dropping a block's trailer moves past exactly the writer's padding. */
    lemma SkipPad(t: nat, payload: Bytes)
      requires Ok() && |buffer| < HEADER_SIZE && !eof
      ensures Torn() && Pos() == |log| ==> offset == |log|
      ensures Awaits(t, payload) ==> End(payload) == offset + HEADER_SIZE + |payload| && Next(t, payload, offset)
    {
      PadOfPos();
      if Awaits(t, payload) {
        hide Physical;
        var z := Zeros(Pad(Pos()));
        assert (z + Physical(t, payload))[|z|..] == Physical(t, payload);
        assert log[Pos()..][|z|..] == log[offset..];
        assert Zeros(0) == [];
      }
    }

    /** With less than a header left at the end of the file, the fragment is not all there. */
    lemma TruncatedHeader(t: nat, payload: Bytes)
      requires Ok() && |buffer| < HEADER_SIZE && eof
      ensures Awaits(t, payload) ==> End(payload) > |file|
    {
    }

    /** With a header in the buffer, the awaited fragment is recognised; if it is not all there, the
        file ends in the middle of it. */
    lemma RecognizeFragment(t: nat, payload: Bytes)
      requires Ok() && |buffer| >= HEADER_SIZE && Pad(Pos()) == 0
      requires !eof ==> Pos() % BLOCK_SIZE + |buffer| == BLOCK_SIZE
      ensures Torn() ==> Pos() < |log|
      ensures Awaits(t, payload) ==>
                && End(payload) == Pos() + HEADER_SIZE + |payload| && t > 0
                && LengthField(buffer) == |payload| && buffer[6] as nat == t
                && (HEADER_SIZE + |payload| > |buffer| ==> eof && End(payload) > |file|)
                && (HEADER_SIZE + |payload| <= |buffer| ==>
                      buffer[HEADER_SIZE..HEADER_SIZE + |payload|] == payload && ChecksumMatches(buffer, |payload|))
    {
      hide ChecksumMatches, LengthField, Physical, Header;
      if Awaits(t, payload) {
        var f, p := Physical(t, payload), Pos();
        assert Zeros(0) + f == f;
        BufferInLog(p);
        Overlap(buffer, f, log[p..]);
        FragmentRoundTrip(buffer, t, payload);
      }
    }

    lemma BufferInLog(p: nat)
      requires Ok() && Torn() && p == Pos()
      ensures buffer <= log[p..]
    {
      assert file == log[..|file|];
      assert log[..|file|][p..offset] == log[p..][..|buffer|];
    }

    lemma Overlap(a: Bytes, b: Bytes, whole: Bytes)
      requires a <= whole && b <= whole
      ensures a <= b || b <= a
    {
      if |a| <= |b| {
        assert b[..|a|] == whole[..|a|];
      } else {
        assert a[..|b|] == whole[..|b|];
      }
    }

    /** The reader stands before these records of the log. */
    ghost predicate Before(rest: seq<Bytes>)
      requires Ok()
      reads `offset, `buffer, `eof
    {
      Torn() && Pos() <= |log| && log[Pos()..] == LogBytes(Pos(), rest)
    }

    /** The reader stands before what is left of a record, which ends at `end`, and then the rest. */
    ghost predicate Within(data: Bytes, begin: bool, end: nat, rest: seq<Bytes>)
      requires Ok()
      reads `offset, `buffer, `eof
    {
      && Torn() && Pos() <= |log|
      && end == Pos() + |RecordBytes(Pos(), data, begin)|
      && log[Pos()..] == RecordBytes(Pos(), data, begin) + LogBytes(end, rest)
    }

    lemma StartOfRecord(rest: seq<Bytes>)
      requires Ok() && Before(rest)
      ensures Torn() && (rest == [] ==> Pos() == |log|)
      ensures rest != [] ==> Within(rest[0], true, Pos() + |RecordBytes(Pos(), rest[0], true)|, rest[1..])
    {
    }

    /** What the next physical read should find within a record. */
    lemma AwaitsFragment(data: Bytes, begin: bool, end: nat, rest: seq<Bytes>)
      requires Ok() && Within(data, begin, end, rest)
      ensures var n := Cut(Pos(), |data|);
              && Awaits(Type(begin, n == |data|), data[..n])
              && End(data[..n]) == Pos() + |Fragment(Pos(), data, begin)| <= end
              && (n == |data| ==> End(data[..n]) == end)
    {
      hide Physical, Zeros, RecordBytes;
      RecordUnfolds(Pos(), data, begin);
      var f := Fragment(Pos(), data, begin);
      assert f <= RecordBytes(Pos(), data, begin) <= log[Pos()..];
    }

    /** After a fragment comes the rest of the record, or the next one. */
    static lemma AfterFragment(log: Bytes, p: nat, data: Bytes, begin: bool, end: nat, rest: seq<Bytes>)
      requires p <= |log| && end == p + |RecordBytes(p, data, begin)|
      requires log[p..] == RecordBytes(p, data, begin) + LogBytes(end, rest)
      ensures var n, q := Cut(p, |data|), p + |Fragment(p, data, begin)|;
              && q <= |log|
              && (n == |data| ==> log[q..] == LogBytes(q, rest))
              && (n < |data| ==> end == q + |RecordBytes(q, data[n..], false)| && log[q..] == RecordBytes(q, data[n..], false) + LogBytes(end, rest))
    {
      hide Physical, Zeros, RecordBytes, LogBytes, Fragment;
      RecordUnfolds(p, data, begin);
      var n, f := Cut(p, |data|), Fragment(p, data, begin);
      var q := p + |f|;
      assert log[p..][|f|..] == log[q..];
      if n == |data| {
        assert f + [] == f;
      } else {
        var more := RecordBytes(q, data[n..], false);
        assert (f + more) + LogBytes(end, rest) == f + (more + LogBytes(end, rest));
      }
    }

    /** The physical read, as the loop of ReadRecord sees it. */
    method NextFragment(ghost data: Bytes, ghost begin: bool, ghost end: nat, ghost rest: seq<Bytes>) returns (e: Event)
      requires Ok()
      modifies this
      ensures Ok() && Pos() >= old(Pos())
      ensures if e.EndOfFile? then eof && buffer == [] else Pos() > old(Pos())
      ensures old(Torn() && Pos() == |log|) ==> e.EndOfFile? && reports == old(reports)
      ensures old(Within(data, begin, end, rest)) ==>
                var n := Cut(old(Pos()), |data|);
                && reports == old(reports)
                && (e.EndOfFile? ==> |file| < end)
                && (!e.EndOfFile? ==> e == PhysicalRecord(Type(begin, n == |data|), data[..n]))
                && (!e.EndOfFile? && n == |data| ==> Before(rest) && Pos() == end)
                && (!e.EndOfFile? && n < |data| ==> Within(data[n..], false, end, rest))
    {
      hide Physical, Zeros, RecordBytes, LogBytes, Awaits, Fragment, Cut, Torn;
      ghost var n, p := Cut(Pos(), |data|), Pos();
      if Within(data, begin, end, rest) {
        AwaitsFragment(data, begin, end, rest);
        AfterFragment(log, p, data, begin, end, rest);
      }
      e := ReadPhysicalRecord(Type(begin, n == |data|), data[..n]);
    }

    static lemma TypeCases(begin: bool, end: bool)
      ensures Type(begin, end) == if begin then (if end then FULL_TYPE else FIRST_TYPE) else if end then LAST_TYPE else MIDDLE_TYPE
    {
    }

    static ghost predicate Joins(scratch: Bytes, data: Bytes, whole: Bytes) {
      scratch + data == whole
    }

    static lemma JoinsAll(whole: Bytes)
      ensures Joins([], whole, whole)
    {
    }

    static lemma JoinsNext(scratch: Bytes, data: Bytes, n: nat, whole: Bytes)
      requires Joins(scratch, data, whole) && n <= |data|
      ensures Joins(scratch + data[..n], data[n..], whole)
      ensures scratch == [] ==> Joins(data[..n], data[n..], whole)
      ensures n == |data| ==> scratch + data[..n] == whole && (scratch == [] ==> data[..n] == whole)
    {
      assert data == data[..n] + data[n..];
      assert scratch + data == (scratch + data[..n]) + data[n..];
    }

    /** What a fragment does to the record being put together; what it cannot belong to is dropped. */
    static ghost predicate Taken(kind: nat, fragment: Bytes, scratch: Bytes, inFragmentedRecord: bool,
                                 done: bool, record: Bytes, more: bool, dropped: seq<nat>) {
      && (done <==> kind == FULL_TYPE || (kind == LAST_TYPE && inFragmentedRecord))
      && (record == if kind == FULL_TYPE || kind == FIRST_TYPE then fragment
                    else if inFragmentedRecord && (kind == MIDDLE_TYPE || kind == LAST_TYPE) then scratch + fragment
                    else if kind == MIDDLE_TYPE || kind == LAST_TYPE then scratch else [])
      && (more <==> kind == FIRST_TYPE || (inFragmentedRecord && (kind == MIDDLE_TYPE || kind == FULL_TYPE || kind == LAST_TYPE)))
      && (dropped == [] <==> if kind == FULL_TYPE || kind == FIRST_TYPE then !inFragmentedRecord || scratch == []
                             else (kind == MIDDLE_TYPE || kind == LAST_TYPE) && inFragmentedRecord)
    }

    /** The awaited fragment continues the record, or completes it. */
    static lemma TakesAwaited(data: Bytes, n: nat, begin: bool, scratch: Bytes, whole: Bytes, kind: nat, fragment: Bytes,
                              done: bool, record: Bytes, more: bool, dropped: seq<nat>)
      requires n <= |data| && Joins(scratch, data, whole) && (begin ==> scratch == [])
      requires kind == Type(begin, n == |data|) && fragment == data[..n]
      requires Taken(kind, fragment, scratch, !begin, done, record, more, dropped)
      ensures dropped == [] && (done <==> n == |data|)
      ensures if done then record == whole else more && Joins(record, data[n..], whole)
    {
      TypeCases(begin, n == |data|);
      JoinsNext(scratch, data, n, whole);
      hide Joins;
    }

    method TakeIn(kind: nat, fragment: Bytes, scratch: Bytes, inFragmentedRecord: bool)
        returns (done: bool, record: Bytes, more: bool, dropped: seq<nat>)
      ensures Taken(kind, fragment, scratch, inFragmentedRecord, done, record, more, dropped)
    {
      done, record, more, dropped := false, scratch, inFragmentedRecord, [];
      if kind == FULL_TYPE || kind == FIRST_TYPE {
        if inFragmentedRecord && scratch != [] {
          dropped := [|scratch|];
        }
        done, record, more := kind == FULL_TYPE, fragment, kind == FIRST_TYPE || inFragmentedRecord;
      } else if kind == MIDDLE_TYPE || kind == LAST_TYPE {
        if inFragmentedRecord {
          record, done := scratch + fragment, kind == LAST_TYPE;
        } else {
          dropped := [|fragment|];
        }
      } else {
        dropped := [|fragment| + (if inFragmentedRecord then |scratch| else 0)];
        record, more := [], false;
      }
    }

    /** Reads the next logical record; false at the end of the file. On a log that was cut off
        anywhere, records come back unchanged as long as they are complete, and nothing is reported
        as corrupt. On any file at all it terminates. */
    method ReadRecord(ghost rest: seq<Bytes>) returns (ok: bool, record: Bytes)
      requires Ok()
      modifies this
      ensures Ok() && Pos() >= old(Pos())
      ensures if ok then Pos() > old(Pos()) else eof && buffer == []
      ensures old(Before(rest)) ==>
                && reports == old(reports)
                && (if rest != [] && old(Pos() + |RecordBytes(Pos(), rest[0], true)|) <= |file|
                    then ok && record == rest[0] && Before(rest[1..]) && Pos() == old(Pos() + |RecordBytes(Pos(), rest[0], true)|)
                    else !ok)
    {
      hide RecordBytes, Within, Before, Cut, Torn, Ok, Pos, ReadFrom, Joins, Type, Pad, Avail, Physical, Zeros, ChecksumMatches, LengthField, Awaits, Fragment, LogBytes, Taken;
      var scratch: Bytes := [];
      var inFragmentedRecord := false;
      ghost var atEnd := Before(rest) && rest == [];
      ghost var sound := Before(rest) && rest != [];
      ghost var data := if sound then rest[0] else [];
      ghost var later := if sound then rest[1..] else [];
      ghost var end := if sound then Pos() + |RecordBytes(Pos(), data, true)| else 0;
      if Before(rest) {
        StartOfRecord(rest);
      }
      if sound {
        JoinsAll(rest[0]);
      }
      while true
        invariant Ok() && Pos() >= old(Pos())
        invariant atEnd ==> Torn() && Pos() == |log| && reports == old(reports)
        invariant sound ==> reports == old(reports) && Within(data, !inFragmentedRecord, end, later)
        invariant sound ==> Joins(scratch, data, rest[0]) && (!inFragmentedRecord ==> scratch == [])
        decreases |file| - Pos()
      {
        ghost var n, left := Cut(Pos(), |data|), data;
        var e := NextFragment(data, !inFragmentedRecord, end, later);
        if sound {
          data := data[n..];
        }
        match e
        case EndOfFile =>
          return false, [];
        case BadRecord =>
          if inFragmentedRecord {
            reports := reports + [|scratch|];
            inFragmentedRecord, scratch := false, [];
          }
        case PhysicalRecord(kind, fragment) =>
          var done, taken, more, dropped := TakeIn(kind, fragment, scratch, inFragmentedRecord);
          if sound {
            TakesAwaited(left, n, !inFragmentedRecord, scratch, rest[0], kind, fragment, done, taken, more, dropped);
          }
          scratch, inFragmentedRecord := taken, more;
          reports := reports + dropped;
          if done {
            return true, scratch;
          }
      }
    }
  }

  // ---------- whole logs ----------

  /** The records that lie wholly within the first n bytes of a log written from p on. */
  function Complete(p: nat, records: seq<Bytes>, n: nat): seq<Bytes>
    decreases |records|
  {
    if records == [] then []
    else
      var end := p + |RecordBytes(p, records[0], true)|;
      if end <= n then [records[0]] + Complete(end, records[1..], n) else []
  }

  /** The complete records are the first ones, and all of them when nothing is cut off. */
  lemma {:induction false} CompleteIsPrefix(p: nat, records: seq<Bytes>, n: nat)
    ensures Complete(p, records, n) <= records
    ensures n >= p + |LogBytes(p, records)| ==> Complete(p, records, n) == records
    decreases |records|
  {
    hide RecordBytes;
    if records != [] {
      CompleteIsPrefix(p + |RecordBytes(p, records[0], true)|, records[1..], n);
    }
  }

  /** Appending one record to a log appends its bytes to the file. */
  lemma {:induction false} LogBytesAppend(p: nat, records: seq<Bytes>, r: Bytes)
    ensures LogBytes(p, records + [r]) == LogBytes(p, records) + RecordBytes(p + |LogBytes(p, records)|, r, true)
    decreases |records|
  {
    hide RecordBytes;
    if records == [] {
      assert [r][1..] == [];
    } else {
      var b := RecordBytes(p, records[0], true);
      assert (records + [r])[1..] == records[1..] + [r] && (records + [r])[0] == records[0];
      LogBytesAppend(p + |b|, records[1..], r);
    }
  }

  method WriteAll(records: seq<Bytes>) returns (file: Bytes)
    ensures file == LogBytes(0, records)
  {
    hide RecordBytes, LogBytes;
    var w := new Writer([]);
    assert LogBytes(0, []) == [] by { NoRecords(); }
    for i := 0 to |records|
      invariant w.Ok() && w.dest == LogBytes(0, records[..i])
    {
      LogBytesAppend(0, records[..i], records[i]);
      assert records[..i] + [records[i]] == records[..i + 1];
      w.AddRecord(records[i]);
    }
    assert records[..|records|] == records;
    file := w.dest;
  }

  lemma NoRecords()
    ensures forall p: nat, records: seq<Bytes> :: |records| == 0 ==> LogBytes(p, records) == []
  {
  }

  /** The reading loop of recovery. Whatever prefix of a log a crash has left, reading it gives back
      exactly the records that are wholly there, and reports no corruption; any other bytes are read
      to the end as well. */
  method ReadAll(file: Bytes, checksum: bool, ghost written: seq<Bytes>) returns (records: seq<Bytes>, reports: seq<nat>)
    ensures file <= LogBytes(0, written) ==> records == Complete(0, written, |file|) && reports == []
  {
    hide RecordBytes, LogBytes, Complete;
    var reader := new Reader(file, checksum, LogBytes(0, written));
    ghost var rest := written;
    ghost var sound := file <= LogBytes(0, written);
    records := [];
    assert sound ==> reader.Before(rest);
    var more := true;
    while more
      invariant reader.Ok() && reader.file == file && fresh(reader)
      invariant sound ==> reader.reports == []
      invariant sound && more ==> reader.Before(rest) && Complete(0, written, |file|) == records + Complete(reader.Pos(), rest, |file|)
      invariant sound && !more ==> Complete(0, written, |file|) == records
      decreases more, |file| - reader.Pos()
    {
      NextComplete(reader.Pos(), rest, |file|);
      var ok, record := reader.ReadRecord(rest);
      if ok {
        if sound {
          assert records + ([record] + Complete(reader.Pos(), rest[1..], |file|)) == (records + [record]) + Complete(reader.Pos(), rest[1..], |file|);
          rest := rest[1..];
        }
        records := records + [record];
      } else {
        assert sound ==> records + [] == records;
        more := false;
      }
    }
    reports := reader.reports;
  }

  lemma NextComplete(p: nat, records: seq<Bytes>, n: nat)
    ensures var end := p + (if records == [] then 0 else |RecordBytes(p, records[0], true)|);
            Complete(p, records, n) == if records != [] && end <= n then [records[0]] + Complete(end, records[1..], n) else []
  {
    hide RecordBytes;
  }

  // ---------- the format in numbers ----------

  /** A record that fits into what is left of its block, behind seven bytes of header, is one fragment of type
      1. Otherwise fragments fill the block, of type 2 first, 3 in the middle and 4 at the end; fewer than seven
      bytes are left as zeros. */
  lemma RecordInNumbers(p: nat, data: Bytes, begin: bool)
    ensures var room := 32768 - p % 32768;
            && (room < 7 ==> RecordBytes(p, data, begin) == Zeros(room) + RecordBytes(p + room, data, begin))
            && (room >= 7 && 7 + |data| <= room ==> RecordBytes(p, data, begin) == Physical(if begin then 1 else 4, data))
            && (room >= 7 && 7 + |data| > room ==>
                  RecordBytes(p, data, begin) == Physical(if begin then 2 else 3, data[..room - 7]) + RecordBytes(p + room, data[room - 7..], false))
  {
    hide *;
    if 32768 - p % 32768 < 7 {
      AfterZeros(p, data, begin);
    } else {
      FillsBlock(p, data, begin);
    }
  }

  lemma AfterZeros(p: nat, data: Bytes, begin: bool)
    requires 32768 - p % 32768 < 7
    ensures var room := 32768 - p % 32768;
            RecordBytes(p, data, begin) == Zeros(room) + RecordBytes(p + room, data, begin)
  {
    hide Physical, Zeros, RecordBytes, Fragment, Cut, Pad, Avail;
    var room := 32768 - p % 32768;
    var n := Cut(p, |data|);
    RecordUnfolds(p, data, begin);
    RecordUnfolds(p + room, data, begin);
    PadZeros(p, data, begin);
    var f := Fragment(p + room, data, begin);
    var more := if n == |data| then [] else RecordBytes(p + room + |f|, data[n..], false);
    assert (Zeros(room) + f) + more == Zeros(room) + (f + more);
  }

  lemma FillsBlock(p: nat, data: Bytes, begin: bool)
    requires 32768 - p % 32768 >= 7
    ensures var room := 32768 - p % 32768;
            && (7 + |data| <= room ==> RecordBytes(p, data, begin) == Physical(if begin then 1 else 4, data))
            && (7 + |data| > room ==>
                  RecordBytes(p, data, begin) == Physical(if begin then 2 else 3, data[..room - 7]) + RecordBytes(p + room, data[room - 7..], false))
  {
    hide Physical, Zeros, RecordBytes, Fragment, Cut, Pad, Avail;
    RecordUnfolds(p, data, begin);
    NoPad(p, data, begin);
    assert data[..|data|] == data;
  }

  lemma BlockBoundary(p: nat)
    ensures (p + (32768 - p % 32768)) % 32768 == 0
  {
  }

  lemma PadZeros(p: nat, data: Bytes, begin: bool)
    requires 32768 - p % 32768 < 7
    ensures var room := 32768 - p % 32768;
            Cut(p + room, |data|) == Cut(p, |data|) && Fragment(p, data, begin) == Zeros(room) + Fragment(p + room, data, begin)
  {
    hide Physical;
    BlockBoundary(p);
    var room := 32768 - p % 32768;
    assert Pad(p) == room && Pad(p + room) == 0 && Zeros(0) == [];
  }

  lemma NoPad(p: nat, data: Bytes, begin: bool)
    requires 32768 - p % 32768 >= 7
    ensures Pad(p) == 0
    ensures var n := Cut(p, |data|);
            && n == (if 7 + |data| <= 32768 - p % 32768 then |data| else 32768 - p % 32768 - 7)
            && Fragment(p, data, begin) == Physical(if begin then (if n == |data| then 1 else 2) else if n == |data| then 4 else 3, data[..n])
  {
    hide Physical;
    assert Pad(p) == 0 && Zeros(0) == [];
  }

  /** A fragment: checksum, length, type and payload, low bytes first. */
  lemma FragmentInNumbers(t: nat, payload: Bytes)
    requires t <= 4 && |payload| < 65536
    ensures var f := Physical(t, payload);
            && |f| == 7 + |payload| && f[7..] == payload && f[6] as nat == t && f[4] as nat + 256 * (f[5] as nat) == |payload|
            && f[..4] == EncodeFixed32(Crc32c.Mask(Crc32c.Crc(0, f[6..])))
  {
    hide Crc32c.Crc, Crc32c.Mask, EncodeFixed32;
    Crc32c.CrcConcat(0, [t as Byte], payload);
    var f := Physical(t, payload);
    assert f[6..] == [t as Byte] + payload;
  }
}
