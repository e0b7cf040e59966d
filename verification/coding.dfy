// Fixed-width and variable-width integers and length-prefixed strings (util/coding.cc, util/coding.h).

module Coding {
  import opened Wrappers

  type Byte = b: int | 0 <= b < 256

  type Bytes = seq<Byte>

  const U32: nat := 0x1_0000_0000
  const U64: nat := 0x1_0000_0000_0000_0000

  function Zeros(n: nat): (r: Bytes)
    ensures |r| == n
  {
    seq(n, _ => 0)
  }

  // ---- Fixed width, the least significant byte first ----

  function Fixed(v: nat, width: nat): (r: seq<Byte>)
    ensures |r| == width
  {
    if width == 0 then [] else [v % 256] + Fixed(v / 256, width - 1)
  }

  function DecodeFixed(bytes: seq<Byte>): (v: nat)
  {
    if bytes == [] then 0 else bytes[0] + 256 * DecodeFixed(bytes[1..])
  }

  function Power(base: nat, n: nat): nat { if n == 0 then 1 else base * Power(base, n - 1) }

  lemma {:induction false} FixedRoundTrip(v: nat, width: nat)
    requires v < Power(256, width)
    ensures DecodeFixed(Fixed(v, width)) == v
  {
    if width == 0 {
    } else {
      assert Fixed(v, width)[1..] == Fixed(v / 256, width - 1);
      FixedRoundTrip(v / 256, width - 1);
    }
  }

  // ---- Varints: seven bits a byte, the last byte below 128 ----

  function Varint(v: nat): (r: seq<Byte>)
    ensures |r| >= 1
  {
    if v < 128 then [v] else [v % 128 + 128] + Varint(v / 128)
  }

  // The value of at most `left` bytes, each shifted above the ones before it, and what follows it.
  function GetVarint(input: seq<Byte>, left: nat): (r: Option<(nat, seq<Byte>)>) {
    if left == 0 || input == [] then None
    else if input[0] < 128 then Some((input[0], input[1..]))
    else match GetVarint(input[1..], left - 1)
      case None => None
      case Some(p) => Some((input[0] - 128 + 128 * p.0, p.1))
  }

  lemma {:induction false} VarintRoundTrip(v: nat, left: nat, rest: seq<Byte>)
    requires left > 0 && v < Power(128, left)
    ensures GetVarint(Varint(v) + rest, left) == Some((v, rest))
    decreases left
  {
    var s := Varint(v) + rest;
    if v < 128 {
      assert s[1..] == rest;
    } else {
      assert s[1..] == Varint(v / 128) + rest;
      assert Power(128, left) == 128 * Power(128, left - 1);
      VarintRoundTrip(v / 128, left - 1, rest);
    }
  }

  lemma {:induction false} VarintLength(v: nat, n: nat)
    requires n > 0 && v < Power(128, n)
    ensures |Varint(v)| <= n
    decreases n
  {
    if v >= 128 { VarintLength(v / 128, n - 1); }
  }

  // EncodeVarint64.
  method EncodeVarint64(v: nat) returns (dst: seq<Byte>)
    ensures dst == Varint(v)
  {
    dst := [];
    var w := v;
    while w >= 128
      invariant dst + Varint(w) == Varint(v)
    {
      assert (dst + [w % 128 + 128]) + Varint(w / 128) == dst + Varint(w);
      dst := dst + [w % 128 + 128];
      w := w / 128;
    }
    dst := dst + [w];
  }

  // EncodeVarint32, one branch for each length.
  method EncodeVarint32(v: nat) returns (dst: seq<Byte>)
    requires v < U32
    ensures dst == Varint(v)
  {
    if v < 0x80 {
      dst := [v];
    } else if v < 0x4000 {
      dst := [v % 128 + 128, v / 128];
    } else if v < 0x20_0000 {
      dst := [v % 128 + 128, v / 128 % 128 + 128, v / 0x4000];
    } else if v < 0x1000_0000 {
      dst := [v % 128 + 128, v / 128 % 128 + 128, v / 0x4000 % 128 + 128, v / 0x20_0000];
    } else {
      dst := [v % 128 + 128, v / 128 % 128 + 128, v / 0x4000 % 128 + 128, v / 0x20_0000 % 128 + 128, v / 0x1000_0000];
    }
    Unroll(v);
  }

  lemma Unroll(v: nat)
    ensures v >= 128 ==> Varint(v) == [v % 128 + 128] + Varint(v / 128)
    ensures v >= 0x4000 ==> Varint(v / 128) == [v / 128 % 128 + 128] + Varint(v / 0x4000)
    ensures v >= 0x20_0000 ==> Varint(v / 0x4000) == [v / 0x4000 % 128 + 128] + Varint(v / 0x20_0000)
    ensures v >= 0x1000_0000 ==> Varint(v / 0x20_0000) == [v / 0x20_0000 % 128 + 128] + Varint(v / 0x1000_0000)
  {
    assert v / 128 / 128 == v / 0x4000 && v / 0x4000 / 128 == v / 0x20_0000 && v / 0x20_0000 / 128 == v / 0x1000_0000;
  }

  function Times(a: int, b: int): int { a * b }

  // GetVarint32PtrFallback (five bytes, 32 bits kept) and GetVarint64Ptr (ten bytes, 64 bits kept).
  method GetVarintPtr(input: seq<Byte>, width: nat, limit: nat) returns (r: Option<(nat, seq<Byte>)>)
    requires limit > 0
    ensures r == Truncated(GetVarint(input, width), limit)
  {
    hide GetVarint, Truncated, Times;
    var result: int, p: nat, shift: nat, unit: int := 0, 0, 0, 1;
    ParsedNone(input, width, limit);
    while shift < width && p < |input|
      invariant p == shift <= width && p <= |input| && result < limit
      invariant Parsed(input, width, p, result, unit, limit)
    {
      ParsedByte(input, width, p, result, unit, limit);
      var byte: int := input[p];
      p := p + 1;
      if byte >= 128 {
        result := (result + Times(byte - 128, unit)) % limit;
      } else {
        result := (result + Times(byte, unit)) % limit;
        return Some((result, input[p..]));
      }
      shift, unit := shift + 1, unit * 128;
    }
    ParsedAll(input, width, p, result, unit, limit);
    return None;
  }

  // The first p bytes are taken in: the rest, shifted by `unit`, completes the value.
  ghost predicate Parsed(input: seq<Byte>, width: nat, p: nat, result: int, unit: int, limit: nat)
    requires p <= |input| && p <= width && limit > 0
  {
    match GetVarint(input[p..], width - p)
    case None => Truncated(GetVarint(input, width), limit) == None
    case Some(q) => Truncated(GetVarint(input, width), limit) == Some(((result + Times(q.0, unit)) % limit, q.1))
  }

  lemma ParsedNone(input: seq<Byte>, width: nat, limit: nat)
    requires limit > 0
    ensures Parsed(input, width, 0, 0, 1, limit)
  {
    assert input[0..] == input;
  }

  lemma ParsedAll(input: seq<Byte>, width: nat, p: nat, result: int, unit: int, limit: nat)
    requires p <= |input| && p <= width && limit > 0 && Parsed(input, width, p, result, unit, limit)
    requires (p == width || p == |input|)
    ensures Truncated(GetVarint(input, width), limit) == None
  {
  }

  lemma ParsedByte(input: seq<Byte>, width: nat, p: nat, result: int, unit: int, limit: nat)
    requires p < |input| && p < width && limit > 0 && Parsed(input, width, p, result, unit, limit)
    ensures input[p] < 128 ==>
      Truncated(GetVarint(input, width), limit) == Some(((result + Times(input[p], unit)) % limit, input[p + 1..]))
    ensures input[p] >= 128 ==>
      Parsed(input, width, p + 1, (result + Times(input[p] - 128, unit)) % limit, unit * 128, limit)
  {
    hide Truncated, Times;
    var rest, b := input[p..], input[p];
    assert rest[1..] == input[p + 1..] && rest[0] == b;
    if b >= 128 && GetVarint(input[p + 1..], width - p - 1).Some? {
      var q := GetVarint(input[p + 1..], width - p - 1).value;
      Shifted(result, b - 128, q.0, unit, limit);
    }
  }

  lemma Shifted(result: int, d: int, q: int, unit: int, limit: nat)
    requires limit > 0
    ensures (result + Times(d + 128 * q, unit)) % limit ==
      ((result + Times(d, unit)) % limit + Times(q, unit * 128)) % limit
  {
    hide Times;
    var a, b := result + Times(d, unit), Times(q, unit * 128);
    Distribute(d, q, unit);
    ModAdd(a, b, limit);
  }

  lemma Distribute(d: int, q: int, unit: int)
    ensures Times(d + 128 * q, unit) == Times(d, unit) + Times(q, unit * 128)
  {
  }

  lemma ModAdd(a: int, b: int, m: nat)
    requires m > 0
    ensures (a + b) % m == (a % m + b) % m
  {
    var q, r, x := a / m, (a % m + b) % m, (a % m + b) / m;
    DivMod(a, m);
    DivMod(a % m + b, m);
    Collect(q, x, m);
    ModUnique(a + b, m, q + x, r);
  }

  lemma DivMod(a: int, m: nat)
    requires m > 0
    ensures a == (a / m) * m + a % m && 0 <= a % m < m
  {
  }

  lemma Collect(q: int, x: int, m: int)
    ensures (q + x) * m == q * m + x * m
  {
  }

  lemma ModUnique(a: int, m: nat, q: int, r: int)
    requires m > 0 && a == q * m + r && 0 <= r < m
    ensures a % m == r
  {
    var p, s := a / m, a % m;
    DivMod(a, m);
    Collect(p - q, q, m);
    Collect(q - p, p, m);
    if p > q { AtLeast(p - q, m); }
    if q > p { AtLeast(q - p, m); }
  }

  lemma {:induction false} AtLeast(k: nat, m: nat)
    requires k > 0
    ensures k * m >= m
  {
    if k > 1 {
      AtLeast(k - 1, m);
      Collect(k - 1, 1, m);
    }
  }

  // ---- Length-prefixed strings ----

  function LengthPrefixed(s: seq<Byte>): seq<Byte> { Varint(|s|) + s }

  function GetLengthPrefixed(input: seq<Byte>): (r: Option<(seq<Byte>, seq<Byte>)>) {
    match GetVarint32(input)
    case None => None
    case Some(p) => if p.0 <= |p.1| then Some((p.1[..p.0], p.1[p.0..])) else None
  }

  function GetVarint32(input: seq<Byte>): Option<(nat, seq<Byte>)> { Truncated(GetVarint(input, 5), U32) }

  function GetVarint64(input: seq<Byte>): Option<(nat, seq<Byte>)> { Truncated(GetVarint(input, 10), U64) }

  function Truncated(r: Option<(nat, seq<Byte>)>, limit: nat): Option<(nat, seq<Byte>)>
    requires limit > 0
  {
    match r case None => None case Some(p) => Some((p.0 % limit, p.1))
  }

  lemma Varint32RoundTrip(v: nat, rest: seq<Byte>)
    requires v < U32
    ensures GetVarint32(Varint(v) + rest) == Some((v, rest))
  {
    hide GetVarint, Varint;
    assert Power(128, 5) == 128 * (128 * (128 * (128 * 128)));
    VarintRoundTrip(v, 5, rest);
  }

  lemma Varint64RoundTrip(v: nat, rest: seq<Byte>)
    requires v < U64
    ensures GetVarint64(Varint(v) + rest) == Some((v, rest))
  {
    hide GetVarint, Varint;
    assert Power(128, 5) == 128 * (128 * (128 * (128 * 128)));
    assert Power(128, 10) == 128 * (128 * (128 * (128 * (128 * Power(128, 5)))));
    VarintRoundTrip(v, 10, rest);
  }

  lemma Varint64Length(v: nat)
    requires v < U64
    ensures |Varint(v)| <= 10
  {
    hide Varint;
    assert Power(128, 5) == 128 * (128 * (128 * (128 * 128)));
    assert Power(128, 10) == 128 * (128 * (128 * (128 * (128 * Power(128, 5)))));
    VarintLength(v, 10);
  }

  lemma LengthPrefixedRoundTrip(s: seq<Byte>, rest: seq<Byte>)
    requires |s| < U32
    ensures GetLengthPrefixed(LengthPrefixed(s) + rest) == Some((s, rest))
  {
    assert LengthPrefixed(s) + rest == Varint(|s|) + (s + rest);
    Varint32RoundTrip(|s|, s + rest);
  }

  // What is read is gone from the input.
  lemma {:induction false} VarintShrinks(input: seq<Byte>, left: nat)
    ensures GetVarint(input, left).Some? ==> |GetVarint(input, left).value.1| < |input|
    decreases left
  {
    if left > 0 && input != [] && input[0] >= 128 { VarintShrinks(input[1..], left - 1); }
  }

  lemma PrefixedShrinks(input: seq<Byte>)
    ensures GetLengthPrefixed(input).Some? ==> |GetLengthPrefixed(input).value.1| < |input|
  {
    hide GetVarint;
    VarintShrinks(input, 5);
  }
}
