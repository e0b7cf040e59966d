// Block handles, checked blocks and the footer of a table file (table/format.cc). Blocks are stored
// uncompressed.

module Formats {
  import opened Wrappers
  import opened Coding
  import Log
  import Crc32c

  const TRAILER: nat := 5

  // ---- Handles ----

  datatype BlockHandle = BlockHandle(offset: nat, size: nat)

  function EncodeHandle(h: BlockHandle): Bytes { Varint(h.offset) + Varint(h.size) }

  // The handle and what follows it; more may follow.
  function DecodeHandle(input: Bytes): Option<(BlockHandle, Bytes)> {
    match GetVarint64(input)
    case None => None
    case Some(o) => match GetVarint64(o.1) case None => None case Some(z) => Some((BlockHandle(o.0, z.0), z.1))
  }

  lemma HandleRoundTrip(h: BlockHandle, rest: Bytes)
    requires h.offset < U64 && h.size < U64
    ensures DecodeHandle(EncodeHandle(h) + rest) == Some((h, rest)) && |EncodeHandle(h)| <= 20
  {
    hide Varint, GetVarint64;
    assert EncodeHandle(h) + rest == Varint(h.offset) + (Varint(h.size) + rest);
    Varint64RoundTrip(h.offset, Varint(h.size) + rest);
    Varint64RoundTrip(h.size, rest);
    Varint64Length(h.offset);
    Varint64Length(h.size);
  }

  // ---- Blocks ----

  // A stored block is followed by its compression type and a checksum of both.
  function Trailer(contents: Bytes): (t: Bytes)
    ensures |t| == TRAILER
  {
    [0] + Fixed(Masked(Crc32c.Extended(Crc32c.Value(Log.Octets(contents)), Log.Octets([0]))), 4)
  }

  function StoredCrc(trailer: Bytes): Crc32c.Word
    requires |trailer| == TRAILER
  {
    Crc32c.Unmask((DecodeFixed(trailer[1..]) % U32) as bv32)
  }

  predicate Intact(file: Bytes, h: BlockHandle)
    requires h.offset + h.size + TRAILER <= |file|
  {
    StoredCrc(file[h.offset + h.size..h.offset + h.size + TRAILER]) ==
      Crc32c.Value(Log.Octets(file[h.offset..h.offset + h.size + 1]))
  }

  // ReadBlock.
  method ReadBlock(file: Bytes, h: BlockHandle, verifyChecksums: bool) returns (r: Option<Bytes>)
    ensures r.Some? <==>
      && h.offset + h.size + TRAILER <= |file| && file[h.offset + h.size] == 0 && (verifyChecksums ==> Intact(file, h))
    ensures r.Some? ==> r.value == file[h.offset..h.offset + h.size]
  {
    hide StoredCrc, Crc32c.Value;
    var end := h.offset + h.size;
    if end + TRAILER > |file| {
      return None;
    }
    var contents := file[h.offset..end + TRAILER];
    if verifyChecksums {
      var actual := Crc32c.Value(Log.Octets(contents[..h.size + 1]));
      assert contents[h.size..] == file[end..end + TRAILER] && contents[..h.size + 1] == file[h.offset..end + 1];
      if StoredCrc(contents[h.size..]) != actual {
        return None;
      }
    }
    if contents[h.size] != 0 {
      return None;
    }
    assert contents[..h.size] == file[h.offset..end];
    return Some(contents[..h.size]);
  }

  // The file holds these contents there, with their trailer.
  ghost predicate Holds(file: Bytes, offset: nat, contents: Bytes) {
    && offset + |contents| + TRAILER <= |file|
    && file[offset..offset + |contents|] == contents
    && file[offset + |contents|..offset + |contents| + TRAILER] == Trailer(contents)
  }

  lemma TrailerMatches(contents: Bytes)
    ensures Trailer(contents)[0] == 0 && StoredCrc(Trailer(contents)) == Crc32c.Value(Log.Octets(contents + [0]))
  {
    hide Crc32c.Extended, Masked, Crc32c.Unmask, Log.Octets, Fixed, DecodeFixed;
    Crc32c.ExtendComposes(0, Log.Octets(contents), Log.Octets([0]));
    OctetsAppend(contents, [0]);
    var crc := Crc32c.Value(Log.Octets(contents + [0]));
    MaskStored(crc, Trailer(contents));
  }

  lemma MaskStored(crc: Crc32c.Word, trailer: Bytes)
    requires |trailer| == TRAILER && trailer[1..] == Fixed(Masked(crc), 4)
    ensures StoredCrc(trailer) == crc
  {
    hide Masked, Crc32c.Unmask, Fixed, DecodeFixed;
    assert Power(256, 4) == 256 * (256 * (256 * 256));
    FixedRoundTrip(Masked(crc), 4);
    UnmaskIs(trailer, Masked(crc));
    MaskedBack(crc);
  }

  function Masked(crc: Crc32c.Word): (m: nat)
    ensures m < U32
  {
    Crc32c.Mask(crc) as nat
  }

  lemma MaskedBack(crc: Crc32c.Word)
    ensures Crc32c.Unmask(Masked(crc) as bv32) == crc
  {
    hide Crc32c.Mask, Crc32c.Unmask;
    Crc32c.MaskRoundTrip(crc);
  }

  lemma UnmaskIs(trailer: Bytes, m: nat)
    requires |trailer| == TRAILER && DecodeFixed(trailer[1..]) == m < U32
    ensures StoredCrc(trailer) == Crc32c.Unmask(m as bv32)
  {
    hide DecodeFixed, Crc32c.Unmask;
  }

  lemma OctetsAppend(a: Bytes, b: Bytes)
    ensures Log.Octets(a) + Log.Octets(b) == Log.Octets(a + b)
  {
  }

  // Any block of the file as written can be read back, with or without the checksum.
  lemma HeldIsRead(file: Bytes, offset: nat, contents: Bytes)
    requires Holds(file, offset, contents)
    ensures file[offset + |contents|] == 0 && Intact(file, BlockHandle(offset, |contents|))
  {
    hide StoredCrc, Crc32c.Value, Trailer, Log.Octets;
    var end := offset + |contents|;
    TrailerMatches(contents);
    assert file[end] == file[end..end + TRAILER][0] == 0;
    assert file[offset..end + 1] == contents + [0];
  }

  // What is appended leaves the blocks before it in place.
  lemma HoldsOn(file: Bytes, now: Bytes, offset: nat, contents: Bytes)
    requires Holds(file, offset, contents) && file <= now
    ensures Holds(now, offset, contents)
  {
    hide Trailer;
    var end := offset + |contents|;
    assert now[offset..end] == file[offset..end];
    assert now[end..end + TRAILER] == file[end..end + TRAILER];
  }

  lemma HoldsNew(file: Bytes, contents: Bytes)
    ensures Holds(file + contents + Trailer(contents), |file|, contents)
  {
    hide Trailer;
    var all, end := file + contents + Trailer(contents), |file| + |contents|;
    assert all[|file|..end] == contents && all[end..end + TRAILER] == Trailer(contents);
  }

  // ---- The footer ----

  const MAGIC: nat := 0xdb47_7524_8b80_fb57
  const HANDLES: nat := 40
  const FOOTER: nat := 48

  datatype Footer = Footer(metaindex: BlockHandle, index: BlockHandle)

  // std::string::resize.
  function Resized(s: Bytes, n: nat): (r: Bytes)
    ensures |r| == n
  {
    if |s| >= n then s[..n] else s + Zeros(n - |s|)
  }

  function EncodeFooter(f: Footer): (r: Bytes)
    ensures |r| == FOOTER
  {
    Resized(EncodeHandle(f.metaindex) + EncodeHandle(f.index), HANDLES) + Fixed(MAGIC % U32, 4) + Fixed(MAGIC / U32, 4)
  }

  function DecodeFooter(input: Bytes): Option<Footer>
    requires |input| >= FOOTER
  {
    var lo, hi := DecodeFixed(input[FOOTER - 8..FOOTER - 4]), DecodeFixed(input[FOOTER - 4..FOOTER]);
    if hi * U32 + lo != MAGIC then None
    else match DecodeHandle(input)
      case None => None
      case Some(m) => match DecodeHandle(m.1) case None => None case Some(i) => Some(Footer(m.0, i.0))
  }

  lemma FooterRoundTrip(f: Footer)
    requires f.metaindex.offset < U64 && f.metaindex.size < U64 && f.index.offset < U64 && f.index.size < U64
    ensures DecodeFooter(EncodeFooter(f)) == Some(f)
  {
    hide DecodeHandle, EncodeHandle, DecodeFixed, Fixed, Zeros;
    var a, b, s := EncodeHandle(f.metaindex), EncodeHandle(f.index), EncodeFooter(f);
    HandleRoundTrip(f.metaindex, []);
    HandleRoundTrip(f.index, []);
    assert |a + b| <= HANDLES;
    var rest := Zeros(HANDLES - |a + b|) + Fixed(MAGIC % U32, 4) + Fixed(MAGIC / U32, 4);
    assert s == a + (b + rest);
    HandleRoundTrip(f.metaindex, b + rest);
    HandleRoundTrip(f.index, rest);
    assert s[FOOTER - 8..FOOTER - 4] == Fixed(MAGIC % U32, 4) && s[FOOTER - 4..FOOTER] == Fixed(MAGIC / U32, 4);
    assert Power(256, 4) == 256 * (256 * (256 * 256));
    FixedRoundTrip(MAGIC % U32, 4);
    FixedRoundTrip(MAGIC / U32, 4);
  }
}
