// The write-ahead log (db/log_format.h, db/log_writer.cc, db/log_reader.cc).

module Log {
  import opened Wrappers
  import opened Coding
  import Crc32c

  const BLOCK: nat := 32768
  const HEADER: nat := 7

  datatype RecordType = Full | First | Middle | Last
  {
    function Code(): Byte {
      match this
      case Full => 1
      case First => 2
      case Middle => 3
      case Last => 4
    }
  }

  function Octets(s: seq<Byte>): (r: seq<Crc32c.Byte>)
    ensures |r| == |s|
  {
    seq(|s|, i requires 0 <= i < |s| => s[i] as bv8)
  }

  // The stored checksum of a record's type and payload.
  function Checksum(code: Byte, payload: seq<Byte>): (c: nat)
    ensures c < U32
  {
    Crc32c.Mask(Crc32c.Value(Octets([code] + payload))) as nat
  }

  // The writer extends a precomputed checksum of the type.
  lemma ChecksumExtends(code: Byte, payload: seq<Byte>)
    ensures Checksum(code, payload) ==
      Crc32c.Mask(Crc32c.Extended(Crc32c.Value(Octets([code])), Octets(payload))) as nat
  {
    hide Crc32c.Extended, Crc32c.Mask;
    Crc32c.ExtendComposes(0, Octets([code]), Octets(payload));
    assert Octets([code]) + Octets(payload) == Octets([code] + payload);
  }

  function Physical(t: RecordType, payload: seq<Byte>): (r: seq<Byte>)
    requires |payload| < 0x1_0000
    ensures |r| == HEADER + |payload|
  {
    Fixed(Checksum(t.Code(), payload), 4) + [|payload| % 256, |payload| / 256, t.Code()] + payload
  }

  // Where the next header goes when p bytes have been written: never across the end of a block.
  function Start(p: nat): (s: nat)
    ensures p <= s < p + HEADER && s % BLOCK + HEADER <= BLOCK
    ensures s == p || s % BLOCK == 0
  {
    var leftover := BLOCK - p % BLOCK;
    if leftover < HEADER then p + leftover else p
  }

  function Room(p: nat): nat { BLOCK - HEADER - Start(p) % BLOCK }

  function Fragment(p: nat, data: seq<Byte>): (n: nat)
    ensures n <= |data| && n <= Room(p)
  {
    if |data| < Room(p) then |data| else Room(p)
  }

  function TypeOf(begin: bool, end: bool): RecordType {
    if begin && end then Full else if begin then First else if end then Last else Middle
  }

  // One fragment, with the trailer before it.
  function Piece(p: nat, data: seq<Byte>, begin: bool): (r: seq<Byte>)
    ensures |r| == Start(p) - p + HEADER + Fragment(p, data)
  {
    var n := Fragment(p, data);
    Zeros(Start(p) - p) + Physical(TypeOf(begin, n == |data|), data[..n])
  }

  // What the writer appends for the rest of a record when p bytes have been written.
  function Appended(p: nat, data: seq<Byte>, begin: bool): (r: seq<Byte>)
    ensures |r| >= HEADER
    decreases |data|, if p % BLOCK == BLOCK - HEADER then 1 else 0
  {
    var n, piece := Fragment(p, data), Piece(p, data, begin);
    if n == |data| then piece else piece + Appended(p + |piece|, data[n..], false)
  }

  // The log of a list of records, from position p on.
  function Logged(p: nat, records: seq<seq<Byte>>): seq<Byte>
    decreases |records|
  {
    if records == [] then [] else
      var r := Appended(p, records[0], true);
      r + Logged(p + |r|, records[1..])
  }

  class Writer {
    var dest: seq<Byte>
    var blockOffset: nat

    ghost predicate Valid()
      reads this
    {
      blockOffset <= BLOCK && blockOffset % BLOCK == |dest| % BLOCK
    }

    // Writes on after what the destination already holds.
    constructor (dest: seq<Byte>)
      ensures Valid() && this.dest == dest
    {
      this.dest, blockOffset := dest, |dest| % BLOCK;
    }

    method AddRecord(data: seq<Byte>)
      requires Valid()
      modifies this
      ensures Valid() && dest == old(dest) + Appended(|old(dest)|, data, true)
    {
      hide Piece, Appended, Start, Fragment;
      var ptr: nat, left: nat, begin, more := 0, |data|, true, true;
      assert data[0..] == data;
      while more
        invariant Valid() && ptr + left == |data| && (!more ==> left == 0)
        invariant dest + (if more then Appended(|dest|, data[ptr..], begin) else []) ==
          old(dest) + Appended(|old(dest)|, data, true)
        decreases more, left, if |dest| % BLOCK == BLOCK - HEADER then 1 else 0
      {
        ghost var was, rest := dest, data[ptr..];
        AppendedStep(|dest|, rest, begin);
        var fragmentLength := AddFragment(data, ptr, left, begin);
        assert data[ptr + fragmentLength..] == rest[fragmentLength..];
        ptr, left, begin := ptr + fragmentLength, left - fragmentLength, false;
        more := left > 0;
      }
    }

    // One pass of the loop: a trailer if no header fits, and as much data as the block holds.
    method AddFragment(data: seq<Byte>, ptr: nat, left: nat, begin: bool) returns (fragmentLength: nat)
      requires Valid() && ptr + left == |data|
      modifies this
      ensures Valid() && fragmentLength == Fragment(|old(dest)|, data[ptr..])
      ensures dest == old(dest) + Piece(|old(dest)|, data[ptr..], begin)
    {
      hide Physical, Start;
      Placed(|dest|, blockOffset, left);
      ghost var p, rest := |dest|, data[ptr..];
      var leftover := BLOCK - blockOffset;
      if leftover < HEADER {
        if leftover > 0 {
          dest := dest + Zeros(leftover);
        }
        blockOffset := 0;
      }
      assert dest == old(dest) + Zeros(Start(p) - p);
      var avail := BLOCK - blockOffset - HEADER;
      fragmentLength := if left < avail then left else avail;
      var end := left == fragmentLength;
      var t := if begin && end then Full else if begin then First else if end then Last else Middle;
      assert data[ptr..ptr + fragmentLength] == rest[..fragmentLength];
      EmitPhysicalRecord(t, data[ptr..ptr + fragmentLength]);
    }

    method EmitPhysicalRecord(t: RecordType, payload: seq<Byte>)
      requires Valid() && blockOffset + HEADER + |payload| <= BLOCK
      modifies this
      ensures Valid() && dest == old(dest) + Physical(t, payload)
      ensures blockOffset == old(blockOffset) + HEADER + |payload|
    {
      hide Crc32c.Mask, Crc32c.Extended, Crc32c.Value, Octets, Checksum, Fixed;
      var crc := Crc32c.Mask(Crc32c.Extended(Crc32c.Value(Octets([t.Code()])), Octets(payload)));
      ChecksumExtends(t.Code(), payload);
      dest := dest + Fixed(crc as nat, 4) + [|payload| % 256, |payload| / 256, t.Code()];
      dest := dest + payload;
      SameOffset(blockOffset, |old(dest)|, HEADER + |payload|);
      blockOffset := blockOffset + HEADER + |payload|;
    }
  }

  lemma SameOffset(a: nat, b: nat, k: nat)
    requires a % BLOCK == b % BLOCK
    ensures (a + k) % BLOCK == (b + k) % BLOCK
  {
    ModAdd(a, k, BLOCK);
    ModAdd(b, k, BLOCK);
  }

  // The writer's own view of where it stands in the block.
  lemma Placed(p: nat, offset: nat, left: nat)
    requires offset <= BLOCK && offset % BLOCK == p % BLOCK
    ensures var leftover := BLOCK - offset;
            && Start(p) == (if leftover < HEADER then p + leftover else p)
            && (if leftover < HEADER then 0 else offset) % BLOCK == Start(p) % BLOCK
            && Room(p) == BLOCK - HEADER - (if leftover < HEADER then 0 else offset)
  {
  }

  lemma AppendedStep(p: nat, data: seq<Byte>, begin: bool)
    ensures var n := Fragment(p, data);
            Appended(p, data, begin)
              == Piece(p, data, begin) + if n == |data| then []
                else Appended(p + |Piece(p, data, begin)|, data[n..], false)
    ensures Fragment(p, data) == 0 ==>
      data == [] || (p % BLOCK == BLOCK - HEADER && (p + HEADER) % BLOCK == 0 && Start(p) == p)
  {
    hide Physical, Zeros;
  }

  // ---- The reader ----

  datatype PhysicalRecord = Record(code: Byte, fragment: seq<Byte>) | Eof | BadRecord

  // The log as written, at position p: the next fragment, or its end.
  datatype Ahead = Next(data: seq<Byte>, begin: bool, rest: seq<Byte>) | AtEnd
  {
    ghost predicate At(log: seq<Byte>, p: nat) {
      p <= |log| && log[p..] ==
        match this case AtEnd => [] case Next(data, begin, rest) => Appended(p, data, begin) + rest
    }
  }

  // A header and its payload at the front of `s`.
  lemma ParseHeader(t: RecordType, payload: seq<Byte>, s: seq<Byte>)
    requires |payload| < 0x1_0000 && |s| >= HEADER + |payload| && s[..HEADER + |payload|] == Physical(t, payload)
    ensures s[HEADER..HEADER + |payload|] == payload
    ensures DecodeFixed(s[..4]) == Checksum(t.Code(), payload) && s[6..HEADER + |payload|] == [t.Code()] + payload
  {
    hide Checksum, DecodeFixed, Fixed;
    var r, e := Physical(t, payload), HEADER + |payload|;
    Inside(s, r, 0, 4);
    Inside(s, r, 6, e);
    Inside(s, r, HEADER, e);
    assert Power(256, 4) == 256 * (256 * (256 * 256));
    FixedRoundTrip(Checksum(t.Code(), payload), 4);
    PhysicalParts(t, payload);
  }

  lemma Slices(crc: seq<Byte>, low: Byte, high: Byte, code: Byte, payload: seq<Byte>)
    requires |crc| == 4
    ensures var r, e := crc + [low, high, code] + payload, HEADER + |payload|;
            r[0..4] == crc && r[6..e] == [code] + payload && r[HEADER..e] == payload
  {
  }

  lemma PhysicalParts(t: RecordType, payload: seq<Byte>)
    requires |payload| < 0x1_0000
    ensures Physical(t, payload)[0..4] == Fixed(Checksum(t.Code(), payload), 4)
    ensures Physical(t, payload)[6..HEADER + |payload|] == [t.Code()] + payload
    ensures Physical(t, payload)[HEADER..HEADER + |payload|] == payload
  {
    hide Checksum;
    Slices(Fixed(Checksum(t.Code(), payload), 4), |payload| % 256, |payload| / 256, t.Code(), payload);
    assert Physical(t, payload) ==
      Fixed(Checksum(t.Code(), payload), 4) + [|payload| % 256, |payload| / 256, t.Code()] + payload;
    assert Physical(t, payload)[0..4] == Fixed(Checksum(t.Code(), payload), 4);
    assert Physical(t, payload)[HEADER..HEADER + |payload|] == payload;
  }

  lemma Inside(s: seq<Byte>, front: seq<Byte>, i: nat, j: nat)
    requires i <= j <= |front| <= |s| && s[..|front|] == front
    ensures s[i..j] == front[i..j]
  {
    assert s[..|front|][..j] == s[..j];
    assert front[i..j] == front[..j][i..] && s[i..j] == s[..j][i..];
  }

  // The header alone shows the type and the length.
  lemma HeaderBytes(t: RecordType, payload: seq<Byte>, s: seq<Byte>)
    requires |payload| < 0x1_0000 && |s| >= HEADER && s[..HEADER] == Physical(t, payload)[..HEADER]
    ensures (s[4] as int) + 256 * (s[5] as int) == |payload| && s[6] == t.Code()
  {
    hide Checksum, Fixed;
    var r := Physical(t, payload);
    assert s[4] == s[..HEADER][4] && s[5] == s[..HEADER][5] && s[6] == s[..HEADER][6];
    assert r[4] == r[..HEADER][4] && r[5] == r[..HEADER][5] && r[6] == r[..HEADER][6];
  }

  lemma StartInBlock(p: nat, data: seq<Byte>)
    ensures Start(p) >= p && Start(p) % BLOCK + HEADER + Fragment(p, data) <= BLOCK
  {
  }

  // The next physical record lies in one block, at the place the writer chose.
  lemma NextRecord(log: seq<Byte>, p: nat, data: seq<Byte>, begin: bool, rest: seq<Byte>)
    requires Next(data, begin, rest).At(log, p)
    ensures var s, n := Start(p), Fragment(p, data);
            && s + HEADER + n <= |log| && s % BLOCK + HEADER + n <= BLOCK
            && |Piece(p, data, begin)| == s - p + HEADER + n
            && log[s..s + HEADER + n] == Physical(TypeOf(begin, n == |data|), data[..n])
  {
    hide Physical, Start, Appended, Zeros, Fragment, Piece;
    StartInBlock(p, data);
    PieceParts(p, data, begin);
    var tail := AppendedFront(p, data, begin, rest);
    var n := Fragment(p, data);
    var record := Physical(TypeOf(begin, n == |data|), data[..n]);
    DropFront(log, p, Zeros(Start(p) - p), record + tail);
    FrontIs(log, Start(p), record, tail);
  }

  lemma PieceParts(p: nat, data: seq<Byte>, begin: bool)
    ensures var n := Fragment(p, data);
            var record := Physical(TypeOf(begin, n == |data|), data[..n]);
            && Start(p) >= p && |record| == HEADER + n && |Zeros(Start(p) - p)| == Start(p) - p
            && Piece(p, data, begin) == Zeros(Start(p) - p) + record
  {
    hide Start, Zeros;
    StartInBlock(p, data);
  }

  // What the next record stands in front of.
  lemma AppendedFront(p: nat, data: seq<Byte>, begin: bool, rest: seq<Byte>) returns (tail: seq<Byte>)
    ensures var n := Fragment(p, data);
            && Start(p) >= p
            && Appended(p, data, begin) + rest
               == Zeros(Start(p) - p) + (Physical(TypeOf(begin, n == |data|), data[..n]) + tail)
  {
    hide Physical, Start, Appended, Zeros, Fragment, Piece;
    AppendedStep(p, data, begin);
    PieceParts(p, data, begin);
    var n := Fragment(p, data);
    var record := Physical(TypeOf(begin, n == |data|), data[..n]);
    var next := if n == |data| then [] else Appended(p + |Piece(p, data, begin)|, data[n..], false);
    tail := next + rest;
    Regroup(Zeros(Start(p) - p), record, next, rest);
  }

  lemma ChecksumMatches(t: RecordType, payload: seq<Byte>)
    ensures var c := Checksum(t.Code(), payload); Crc32c.Unmask(c as bv32) == Crc32c.Value(Octets([t.Code()] + payload))
  {
    hide Crc32c.Value, Crc32c.Mask, Crc32c.Unmask, Octets;
    Crc32c.MaskRoundTrip(Crc32c.Value(Octets([t.Code()] + payload)));
  }

  class Reader {
    const file: seq<Byte>
    var buffer: seq<Byte>
    var eof: bool
    var endOfBufferOffset: nat
    // Corruptions reported so far.
    var reports: nat

    constructor (file: seq<Byte>)
      ensures this.file == file && Inv() && Pos() == 0 && reports == 0
    {
      this.file, buffer, eof, endOfBufferOffset, reports := file, [], false, 0, 0;
    }

    // How much of the file has been taken in.
    function Pos(): int
      reads this`buffer, this`endOfBufferOffset
    {
      endOfBufferOffset - |buffer|
    }

    // The buffer is the unread part of the block read last; a block cut short means the end of the file.
    ghost predicate Inv()
      reads this`buffer, this`eof, this`endOfBufferOffset
    {
      && |buffer| <= endOfBufferOffset <= |file| && buffer == file[Pos()..endOfBufferOffset]
      && (!eof ==> endOfBufferOffset % BLOCK == 0)
      && (eof ==> endOfBufferOffset == |file|)
      && (buffer != [] ==> SameBlock(Pos(), endOfBufferOffset))
    }

    // SequentialFile::Read: a block, or what is left of the file.
    method ReadBlock()
      requires Inv() && !eof
      modifies this
      ensures Inv() && Pos() == old(endOfBufferOffset) && reports == old(reports)
      ensures endOfBufferOffset == if old(endOfBufferOffset) + BLOCK <= |file| then old(endOfBufferOffset) + BLOCK
        else |file|
      ensures eof <==> endOfBufferOffset < old(endOfBufferOffset) + BLOCK
    {
      var n := if endOfBufferOffset + BLOCK <= |file| then BLOCK else |file| - endOfBufferOffset;
      buffer := file[endOfBufferOffset..endOfBufferOffset + n];
      endOfBufferOffset := endOfBufferOffset + |buffer|;
      if |buffer| < BLOCK {
        eof := true;
      }
    }

    method RemovePrefix(k: nat)
      requires Inv() && k <= |buffer|
      modifies this`buffer
      ensures Inv() && Pos() == old(Pos()) + k
    {
      buffer := buffer[k..];
    }

    lemma Bounds()
      requires Inv()
      ensures 0 <= Pos() <= endOfBufferOffset <= |file| && (eof ==> endOfBufferOffset == |file|)
    {
    }

    lemma BeforeTrailer(p: nat)
      requires Inv() && (Pos() == p || Pos() == Start(p)) && |buffer| < HEADER
      ensures !eof ==> endOfBufferOffset == Start(p)
      ensures eof ==> |file| < Start(p) + HEADER
    {
      hide Start;
      if !eof { Trailer(p, Pos(), endOfBufferOffset); } else { CutShort(p, Pos(), endOfBufferOffset); }
    }

    // On any bytes at all the reader moves on or stops. On a front of a written log it finds the next
    // fragment if that ends in the file, and reports nothing.
    method ReadPhysicalRecord(ghost log: seq<Byte>, ghost ahead: Option<Ahead>) returns (r: PhysicalRecord)
      requires Inv() && (ahead.Some? ==> file <= log && ahead.value.At(log, Pos()))
      modifies this
      ensures Inv() && (r != Eof ==> Pos() > old(Pos())) && (ahead.Some? ==> reports == old(reports))
      ensures ahead.Some? ==> Found(r, old(Pos()), ahead.value)
    {
      hide Inv, Piece, Appended, Physical, Octets, Fragment, Start, StoredCrc, Crc32c.Value, TypeOf;
      Bounds();
      ghost var p, s := Pos(), Start(Pos());
      ghost var next := ahead.Some? && ahead.value.Next?;
      if next { NextRecord(log, p, ahead.value.data, ahead.value.begin, ahead.value.rest); }
      while true
        invariant Inv() && endOfBufferOffset <= |file| && reports == old(reports) && Pos() >= p
        invariant next ==> Pos() == p || Pos() == s
        invariant ahead.Some? && !next ==> Pos() == |file|
        decreases |file| - endOfBufferOffset, if eof then 0 else 1
      {
        Bounds();
        if |buffer| < HEADER {
          if next { BeforeTrailer(p); }
          if !eof {
            ReadBlock();
            continue;
          } else {
            RemovePrefix(|buffer|);
            return Eof;
          }
        }
        if next { ParseNext(log, p, ahead.value); }
        var length: int := (buffer[4] as int) + 256 * (buffer[5] as int);
        var code := buffer[6];
        if HEADER + length > |buffer| {
          RemovePrefix(|buffer|);
          if !eof {
            reports := reports + 1;
            return BadRecord;
          }
          return Eof;
        }
        if code == 0 && length == 0 {
          RemovePrefix(|buffer|);
          return BadRecord;
        }
        var expected, actual := StoredCrc(buffer), Crc32c.Value(Octets(buffer[6..HEADER + length]));
        if actual != expected {
          RemovePrefix(|buffer|);
          reports := reports + 1;
          return BadRecord;
        }
        var fragment := buffer[HEADER..HEADER + length];
        RemovePrefix(HEADER + length);
        return Record(code, fragment);
      }
      assert false;
    }

    ghost predicate Found(r: PhysicalRecord, p: nat, ahead: Ahead)
      reads this
    {
      match ahead
      case AtEnd => r == Eof
      case Next(data, begin, rest) =>
        var n, end := Fragment(p, data), p + |Piece(p, data, begin)|;
        if end <= |file| then r == Record(TypeOf(begin, n == |data|).Code(), data[..n]) && Pos() == end else r == Eof
    }

    lemma AtStart(p: nat, n: nat)
      requires Inv() && (Pos() == p || Pos() == Start(p)) && |buffer| >= HEADER
      requires Start(p) % BLOCK + HEADER + n <= BLOCK
      ensures Pos() == Start(p) && (HEADER + n > |buffer| ==> eof)
    {
      hide Start;
      InBlock(p, Pos(), endOfBufferOffset);
      if HEADER + n > |buffer| { Unfinished(Start(p), n, endOfBufferOffset); }
    }

    lemma BufferIs(log: seq<Byte>, k: nat)
      requires Inv() && file <= log && k <= |buffer|
      ensures 0 <= Pos() && Pos() + k <= |log| && buffer[..k] == log[Pos()..Pos() + k]
    {
      assert file == log[..|file|];
    }

    // With a whole header in the buffer: it is the next record's, and its payload is there unless the file
    // ends first.
    lemma ParseNext(log: seq<Byte>, p: nat, ahead: Ahead)
      requires Inv() && file <= log && ahead.Next? && ahead.At(log, p) && (Pos() == p || Pos() == Start(p))
      requires |buffer| >= HEADER
      ensures var n := Fragment(p, ahead.data); var t := TypeOf(ahead.begin, n == |ahead.data|);
              && (buffer[4] as int) + 256 * (buffer[5] as int) == n && buffer[6] == t.Code() && Pos() == Start(p)
              && Start(p) + HEADER + n == p + |Piece(p, ahead.data, ahead.begin)|
              && (HEADER + n > |buffer| ==> eof)
              && (HEADER + n <= |buffer| ==>
                    && buffer[HEADER..HEADER + n] == ahead.data[..n]
                    && Crc32c.Value(Octets(buffer[6..HEADER + n])) == StoredCrc(buffer))
    {
      hide Inv, Piece, Appended, Physical, DecodeFixed, Checksum, Octets, Fragment, Start, StoredCrc, Crc32c.Value,
           Crc32c.Unmask;
      var s, n := Start(p), Fragment(p, ahead.data);
      var t := TypeOf(ahead.begin, n == |ahead.data|);
      NextRecord(log, p, ahead.data, ahead.begin, ahead.rest);
      AtStart(p, n);
      BufferIs(log, HEADER);
      Shorter(log, s, HEADER, HEADER + n);
      HeaderBytes(t, ahead.data[..n], buffer);
      if HEADER + n <= |buffer| {
        BufferIs(log, HEADER + n);
        ParsePayload(t, ahead.data[..n], buffer);
      }
    }

    // The next whole record. On a front of a written log: the next one written, if its last byte is in the
    // file, and nothing is reported; a record cut off by the end of the file is not returned.
    method ReadRecord(ghost log: seq<Byte>, ghost more: Option<seq<seq<Byte>>>) returns (ok: bool, record: seq<Byte>)
      requires Inv() && (more.Some? ==> file <= log && RecordsAt(log, Pos(), more.value))
      modifies this
      ensures Inv() && (ok ==> Pos() > old(Pos()))
      ensures more.Some? ==> reports == old(reports) && (ok <==> Complete(|file|, old(Pos()), more.value))
      ensures more.Some? && ok ==>
        record == more.value[0] && Pos() == old(Pos()) + |Appended(old(Pos()), more.value[0], true)| &&
          RecordsAt(log, Pos(), more.value[1..])
    {
      hide Inv, Appended, Piece, Fragment, Logged, Found, Midway, Complete, RecordsAt;
      var scratch: seq<Byte>, inFragmentedRecord := [], false;
      ghost var start, left := Pos(), [];
      ghost var some := more.Some? && more.value != [];
      Bounds();
      if some { left := more.value[0]; FirstOf(log, Pos(), more.value); }
      ghost var none := more.Some? && more.value == [];
      if none { LastOf(log, Pos()); }
      while true
        invariant none ==> AtEnd.At(log, Pos())
        invariant Inv() && start <= Pos() <= |file| && (more.Some? ==> reports == old(reports))
        invariant some ==> Midway(log, start, more.value, Pos(), scratch, left, inFragmentedRecord)
        decreases |file| - Pos()
      {
        ghost var p := Pos();
        ghost var ahead :=
          if more.None? then None else Some(AheadOf(log, start, more.value, p, scratch, left, inFragmentedRecord));
        if some { AheadHolds(log, start, more.value, p, scratch, left, inFragmentedRecord); }
        var r := ReadPhysicalRecord(log, ahead);
        Bounds();
        if more.Some? { Outcome(log, start, more.value, p, scratch, left, inFragmentedRecord, r); }
        match r {
          case Eof =>
            return false, [];
          case BadRecord =>
            if inFragmentedRecord {
              reports := reports + 1;
              inFragmentedRecord, scratch := false, [];
            }
          case Record(code, fragment) =>
            assert [] + fragment == fragment;
            if code == 1 {
              if inFragmentedRecord && scratch != [] {
                reports := reports + 1;
              }
              return true, fragment;
            } else if code == 2 {
              if inFragmentedRecord && scratch != [] {
                reports := reports + 1;
              }
              scratch, inFragmentedRecord := fragment, true;
            } else if code == 3 {
              if !inFragmentedRecord {
                reports := reports + 1;
              } else {
                scratch := scratch + fragment;
              }
            } else if code == 4 {
              if !inFragmentedRecord {
                reports := reports + 1;
              } else {
                return true, scratch + fragment;
              }
            } else {
              reports := reports + 1;
              inFragmentedRecord, scratch := false, [];
            }
            if some { left := left[|fragment|..]; }
        }
      }
      assert false;
    }

    ghost function AheadOf(log: seq<Byte>, start: nat, more: seq<seq<Byte>>, p: nat, scratch: seq<Byte>,
        left: seq<Byte>, started: bool): Ahead
    {
      if more == [] then AtEnd else Next(left, !started, Logged(start + |Appended(start, more[0], true)|, more[1..]))
    }

    lemma AheadHolds(log: seq<Byte>, start: nat, more: seq<seq<Byte>>, p: nat, scratch: seq<Byte>, left: seq<Byte>,
        started: bool)
      requires more != [] && Midway(log, start, more, p, scratch, left, started)
      ensures AheadOf(log, start, more, p, scratch, left, started).At(log, p)
    {
    }

    // What the next physical record means for a record under way.
    lemma Outcome(log: seq<Byte>, start: nat, more: seq<seq<Byte>>, p: nat, scratch: seq<Byte>, left: seq<Byte>,
        started: bool, r: PhysicalRecord)
      requires more != [] ==> Midway(log, start, more, p, scratch, left, started)
      requires Found(r, p, AheadOf(log, start, more, p, scratch, left, started))
      ensures r != BadRecord && (more == [] ==> r == Eof) && (r == Eof ==> !Complete(|file|, start, more))
      ensures r.Record? ==>
        && r.code in {1, 2, 3, 4} && (r.code in {1, 2} ==> !started && scratch == []) && (r.code in {3, 4} ==> started)
        && |r.fragment| <= |left|
        && (r.code in {1, 4} ==>
              && scratch + r.fragment == more[0] && Complete(|file|, start, more) && RecordsAt(log, Pos(), more[1..])
              && Pos() == start + |Appended(start, more[0], true)|)
        && (r.code in {2, 3} ==> Midway(log, start, more, Pos(), scratch + r.fragment, left[|r.fragment|..], true))
    {
      hide Appended, Piece, Logged;
      if more != [] { NextFragment(log, start, more, p, scratch, left, started); }
    }
  }

  lemma ParsePayload(t: RecordType, payload: seq<Byte>, s: seq<Byte>)
    requires |payload| < 0x1_0000 && |s| >= HEADER + |payload| && s[..HEADER + |payload|] == Physical(t, payload)
    ensures s[HEADER..HEADER + |payload|] == payload && Crc32c.Value(Octets(s[6..HEADER + |payload|])) == StoredCrc(s)
  {
    hide Physical, DecodeFixed, Checksum, Octets, StoredCrc, Crc32c.Value, Crc32c.Unmask;
    ParseHeader(t, payload, s);
    StoredIs(t, payload, s);
    ChecksumMatches(t, payload);
  }

  function StoredCrc(header: seq<Byte>): Crc32c.Word
    requires |header| >= HEADER
  {
    Crc32c.Unmask((DecodeFixed(header[..4]) % U32) as bv32)
  }

  // These records, whole, are what the log holds from position p on.
  ghost predicate RecordsAt(log: seq<Byte>, p: int, more: seq<seq<Byte>>) {
    0 <= p <= |log| && log[p..] == Logged(p, more)
  }

  // The next record's last byte is in the file.
  ghost predicate Complete(n: nat, p: nat, more: seq<seq<Byte>>) {
    more != [] && p + |Appended(p, more[0], true)| <= n
  }

  // Part of a record has been taken in, from `start` to p; `left` is yet to come.
  ghost predicate Midway(log: seq<Byte>, start: nat, more: seq<seq<Byte>>, p: nat, scratch: seq<Byte>, left: seq<Byte>,
      started: bool)
    requires more != []
  {
    var end := start + |Appended(start, more[0], true)|;
    && more[0] == scratch + left && (!started ==> scratch == []) && p + |Appended(p, left, !started)| == end
    && Next(left, !started, Logged(end, more[1..])).At(log, p)
  }

  lemma FirstOf(log: seq<Byte>, p: nat, more: seq<seq<Byte>>)
    requires RecordsAt(log, p, more) && more != []
    ensures Midway(log, p, more, p, [], more[0], false)
  {
  }

  lemma LastOf(log: seq<Byte>, p: nat)
    requires RecordsAt(log, p, [])
    ensures AtEnd.At(log, p)
  {
  }

  lemma Shorter(log: seq<Byte>, p: nat, j: nat, k: nat)
    requires j <= k && p + k <= |log|
    ensures log[p..p + j] == log[p..p + k][..j]
  {
  }

  lemma DropFront(log: seq<Byte>, p: nat, a: seq<Byte>, b: seq<Byte>)
    requires p <= |log| && log[p..] == a + b
    ensures p + |a| <= |log| && log[p + |a|..] == b
  {
    assert log[p + |a|..] == log[p..][|a|..];
  }

  lemma Regroup(a: seq<Byte>, b: seq<Byte>, c: seq<Byte>, d: seq<Byte>)
    ensures ((a + b) + c) + d == a + (b + (c + d))
    ensures (a + b) + [] == a + b
  {
  }

  lemma FrontIs(log: seq<Byte>, p: nat, a: seq<Byte>, b: seq<Byte>)
    requires p <= |log| && log[p..] == a + b
    ensures p + |a| <= |log| && log[p..p + |a|] == a
  {
    assert log[p..p + |a|] == log[p..][..|a|];
  }

  // What one more fragment means for a record under way.
  lemma NextFragment(log: seq<Byte>, start: nat, more: seq<seq<Byte>>, p: nat, scratch: seq<Byte>, left: seq<Byte>,
      started: bool)
    requires more != [] && Midway(log, start, more, p, scratch, left, started)
    ensures var n, q, end :=
      Fragment(p, left), p + |Piece(p, left, !started)|, start + |Appended(start, more[0], true)|;
            && q <= end && (n == |left| <==> q == end)
            && (n == |left| ==> scratch + left[..n] == more[0] && RecordsAt(log, end, more[1..]))
            && (n < |left| ==> Midway(log, start, more, q, scratch + left[..n], left[n..], true))
  {
    hide Piece, Fragment, Appended, Logged;
    AppendedStep(p, left, !started);
    var n, piece, end := Fragment(p, left), Piece(p, left, !started), start + |Appended(start, more[0], true)|;
    var rest := Logged(end, more[1..]);
    DropFront(log, p, Appended(p, left, !started), rest);
    if n < |left| {
      var tail := Appended(p + |piece|, left[n..], false);
      assert (piece + tail) + rest == piece + (tail + rest);
      DropFront(log, p, piece, tail + rest);
    }
    SplitLeft(scratch, left, n);
  }

  lemma SplitLeft(scratch: seq<Byte>, left: seq<Byte>, n: nat)
    requires n <= |left|
    ensures scratch + left == (scratch + left[..n]) + left[n..]
  {
  }

  lemma StoredIs(t: RecordType, payload: seq<Byte>, header: seq<Byte>)
    requires |header| >= HEADER && DecodeFixed(header[..4]) == Checksum(t.Code(), payload)
    ensures StoredCrc(header) == Crc32c.Unmask(Checksum(t.Code(), payload) as bv32)
  {
    hide Checksum, DecodeFixed, Crc32c.Unmask;
  }

  // Fewer bytes than a header left in a whole block: a trailer, after which the next record starts.
  lemma Trailer(p: nat, q: int, e: nat)
    requires (q == p || q == Start(p)) && q <= e < q + HEADER && e % BLOCK == 0 && (q == e || SameBlock(q, e))
    ensures e == Start(p)
  {
  }

  // Fewer bytes than a header before the end of the file: the next record does not end in the file.
  lemma CutShort(p: nat, q: int, e: nat)
    requires (q == p || q == Start(p)) && q <= e < q + HEADER && (q == e || SameBlock(q, e))
    ensures e < Start(p) + HEADER
  {
  }

  lemma InBlock(p: nat, q: int, e: nat)
    requires (q == p || q == Start(p)) && q + HEADER <= e && SameBlock(q, e)
    ensures q == Start(p)
  {
  }

  // A payload that reaches past the bytes read is cut off by the end of the file, not of the block.
  lemma Unfinished(s: nat, n: nat, e: nat)
    requires s % BLOCK + HEADER + n <= BLOCK && s < e < s + HEADER + n
    ensures e % BLOCK != 0
  {
  }

  // No block starts strictly between p and the end e of what was read.
  ghost predicate SameBlock(p: int, e: nat) {
    0 <= p < e && e <= p - p % BLOCK + BLOCK
  }
}
