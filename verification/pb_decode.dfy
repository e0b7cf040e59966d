// Decoding a message (nanopb: pb_decode.c).

module PbDecode {
  import opened Wrappers
  import opened Coding
  import opened PbCommon
  import opened PbEncode
  import opened PbWords

  // ---- Varints ----

  // pb_decode_varint32: later bytes must be zero or carry the sign on.
  function ReadVarint32(input: Bytes): (r: Option<(nat, Bytes)>)
    ensures r.Some? ==> |r.value.1| < |input| && r.value.0 < U32
  {
    if input == [] then None
    else if input[0] < 128 then Some((input[0], input[1..]))
    else Varint32Rest(input[1..], 7, input[0] - 128)
  }

  function Varint32Rest(input: Bytes, bitpos: nat, result: nat): (r: Option<(nat, Bytes)>)
    requires result < U32
    ensures r.Some? ==> |r.value.1| < |input| && r.value.0 < U32
  {
    if input == [] then None
    else if bitpos >= 32 && !SignCarried(input[0], bitpos, result) then None
    else
      var now := WithByte(input[0], bitpos, result);
      var next := (bitpos + 7) % 256;
      if input[0] >= 128 then Varint32Rest(input[1..], next, now)
      else if next == 35 && input[0] / 16 % 8 != 0 then None
      else Some((now, input[1..]))
  }

  predicate SignCarried(b: Byte, bitpos: nat, result: nat) {
    b % 128 == 0 || (result / 0x8000_0000 != 0 && b == if bitpos < 63 then 0xff else 0x01)
  }

  function WithByte(b: Byte, bitpos: nat, result: nat): (now: nat)
    requires result < U32
    ensures now < U32
  {
    if bitpos >= 32 then result
    else
      assert Power(2, 32) == U32 by { PowerTwo32(); }
      OrFits(result, ShiftLeft(b % 128, bitpos) % U32, 32);
      BitOr(result, ShiftLeft(b % 128, bitpos) % U32)
  }

  lemma PowerTwo32()
    ensures Power(2, 32) == U32 && Power(2, 31) == 0x8000_0000
    ensures Power(2, 7) == 0x80 && Power(2, 14) == 0x4000 && Power(2, 21) == 0x20_0000 && Power(2, 28) == 0x1000_0000
  {
    assert Power(2, 7) == 2 * (2 * (2 * (2 * (2 * (2 * (2 * Power(2, 0)))))));
    assert Power(2, 14) == 2 * (2 * (2 * (2 * (2 * (2 * (2 * Power(2, 7)))))));
    assert Power(2, 21) == 2 * (2 * (2 * (2 * (2 * (2 * (2 * Power(2, 14)))))));
    assert Power(2, 28) == 2 * (2 * (2 * (2 * (2 * (2 * (2 * Power(2, 21)))))));
    assert Power(2, 32) == 2 * (2 * (2 * (2 * Power(2, 28))));
    assert Power(2, 32) == 2 * Power(2, 31);
  }

  lemma ReadVarint32Back(v: nat, rest: Bytes)
    requires v < U32
    ensures ReadVarint32(Varint(v) + rest) == Some((v, rest))
  {
    var s := Varint(v) + rest;
    if v < 128 {
      assert s[1..] == rest;
    } else {
      PowerTwo32();
      assert s[1..] == Varint(v / 128) + rest;
      RestBack(v / 128, 7, v % 128, rest);
    }
  }

  lemma {:induction false} RestBack(q: nat, bitpos: nat, result: nat, rest: Bytes)
    requires bitpos in {7, 14, 21, 28} && result < Power(2, bitpos) && ShiftLeft(q, bitpos) + result < U32
    ensures result < U32
    ensures Varint32Rest(Varint(q) + rest, bitpos, result) == Some((ShiftLeft(q, bitpos) + result, rest))
    decreases 28 - bitpos
  {
    hide BitOr, Power, ShiftLeft, Varint32Rest, Varint;
    var s := Varint(q) + rest;
    VarintSplits(q, rest);
    ByteIn(q, bitpos, result);
    RestUnfolds(s, bitpos, result);
    if q >= 128 {
      RestBack(q / 128, bitpos + 7, result + ShiftLeft(q % 128, bitpos), rest);
    }
  }

  lemma VarintSplits(q: nat, rest: Bytes)
    ensures var s := Varint(q) + rest;
            && s != [] && s[0] % 128 == q % 128 && (q < 128 <==> s[0] < 128) && (q < 128 ==> s[0] == q)
            && s[1..] == if q < 128 then rest else Varint(q / 128) + rest
  {
    hide Varint;
    VarintStep(q);
    HeadTail(if q < 128 then q else q % 128 + 128, if q < 128 then [] else Varint(q / 128), rest);
  }

  lemma VarintStep(q: nat)
    ensures Varint(q) == if q < 128 then [q] else [q % 128 + 128] + Varint(q / 128)
  {
  }

  lemma HeadTail(b: Byte, tail: Bytes, rest: Bytes)
    ensures ([b] + tail + rest)[0] == b && ([b] + tail + rest)[1..] == tail + rest
    ensures [b] + [] == [b] && [] + rest == rest
  {
  }

  // Seven more bits of a number of 32 bits.
  lemma ByteIn(q: nat, bitpos: nat, result: nat)
    requires bitpos in {7, 14, 21, 28} && result < Power(2, bitpos) && ShiftLeft(q, bitpos) + result < U32
    ensures var now := result + ShiftLeft(q % 128, bitpos);
            && now == BitOr(result, ShiftLeft(q % 128, bitpos) % U32) && now < U32
            && (q < 128 ==> now == ShiftLeft(q, bitpos) + result && (bitpos == 28 ==> q < 16))
            && (q >= 128 ==>
                  && bitpos < 28 && now < Power(2, bitpos + 7)
                  && ShiftLeft(q / 128, bitpos + 7) + now == ShiftLeft(q, bitpos) + result)
  {
    hide BitOr, Power, ShiftLeft;
    LowFits(q, bitpos);
    OrIsSum(result, q % 128, bitpos);
    ByteSum(q, bitpos, result);
  }

  lemma LowFits(q: nat, bitpos: nat)
    requires bitpos in {7, 14, 21, 28} && ShiftLeft(q, bitpos) < U32
    ensures ShiftLeft(q % 128, bitpos) <= ShiftLeft(q, bitpos)
    ensures ShiftLeft(q % 128, bitpos) % U32 == ShiftLeft(q % 128, bitpos)
  {
    hide ShiftLeft;
    Shifts(q);
    Shifts(q % 128);
  }

  lemma ByteSum(q: nat, bitpos: nat, result: nat)
    requires bitpos in {7, 14, 21, 28} && result < Power(2, bitpos) && ShiftLeft(q, bitpos) + result < U32
    ensures var now := result + ShiftLeft(q % 128, bitpos);
            && (q < 128 ==> now == ShiftLeft(q, bitpos) + result && (bitpos == 28 ==> q < 16))
            && (q >= 128 ==>
                  && bitpos < 28 && now < Power(2, bitpos + 7)
                  && ShiftLeft(q / 128, bitpos + 7) + now == ShiftLeft(q, bitpos) + result)
  {
    hide Power, ShiftLeft;
    Shifts(q);
    Shifts(q % 128);
    Shifts(q / 128);
  }

  lemma RestUnfolds(s: Bytes, bitpos: nat, result: nat)
    requires s != [] && bitpos < 32 && result < U32
    ensures BitOr(result, ShiftLeft(s[0] % 128, bitpos) % U32) < U32
    ensures var now := BitOr(result, ShiftLeft(s[0] % 128, bitpos) % U32);
            Varint32Rest(s, bitpos, result) ==
            if s[0] >= 128 then Varint32Rest(s[1..], bitpos + 7, now)
            else if bitpos == 28 && s[0] / 16 % 8 != 0 then None
            else Some((now, s[1..]))
  {
    hide BitOr, Power, ShiftLeft;
    assert BitOr(result, ShiftLeft(s[0] % 128, bitpos) % U32) == WithByte(s[0], bitpos, result);
  }

  lemma Shifts(n: nat)
    ensures ShiftLeft(n, 7) == 0x80 * n && ShiftLeft(n, 14) == 0x4000 * n && ShiftLeft(n, 21) == 0x20_0000 * n
    ensures ShiftLeft(n, 28) == 0x1000_0000 * n
    ensures Power(2, 7) == 0x80 && Power(2, 14) == 0x4000 && Power(2, 21) == 0x20_0000 && Power(2, 28) == 0x1000_0000
  {
    hide Power;
    PowerTwo32();
  }

  // pb_skip_varint: of any length.
  function SkipVarint(input: Bytes): (r: Option<Bytes>)
    ensures r.Some? ==> |r.value| < |input|
  {
    if input == [] then None else if input[0] < 128 then Some(input[1..]) else SkipVarint(input[1..])
  }

  function Skip(input: Bytes, count: nat): Option<Bytes> { if |input| < count then None else Some(input[count..]) }

  function SkipField(input: Bytes, wireType: nat): (r: Option<Bytes>)
    ensures r.Some? ==> |r.value| <= |input|
  {
    if wireType == WT_VARINT then SkipVarint(input)
    else if wireType == WT_64BIT then Skip(input, 8)
    else if wireType == WT_STRING then
      match ReadVarint32(input) case None => None case Some(n) => Skip(n.1, n.0)
    else if wireType == WT_32BIT then Skip(input, 4)
    else None
  }

  // A zero ends the message.
  datatype TagRead = End | Bad | Got(wireType: nat, tag: Word32, rest: Bytes)

  function ReadTag(input: Bytes): (r: TagRead)
    ensures r.Got? ==> |r.rest| < |input| && r.wireType < 8
  {
    if input == [] then End
    else match ReadVarint32(input)
      case None => Bad
      case Some(n) => if n.0 == 0 then End else Got(n.0 % 8, n.0 / 8, n.1)
  }

  // ---- Values ----

  // The cast to a signed width.
  function Signed(w: Width, n: int): (i: int)
    ensures w.Signed(i)
  {
    var m := n % (2 * w.Half());
    if m >= w.Half() then m - 2 * w.Half() else m
  }

  // Narrow fields take 32 bits first, so that a negative number of 32 bits alone is read right.
  function IntOf(w: Width, n: nat): Option<Value> {
    var svalue := if w.W64? then Signed(W64, n) else Signed(W32, n);
    if Signed(w, svalue) != svalue then None else Some(Int(svalue))
  }

  function UnZigZag(n: nat): (i: int)
    requires n < U64
    ensures W64.Signed(i)
  {
    if n % 2 == 1 then Signed(W64, U64 - 1 - n / 2) else Signed(W64, n / 2)
  }

  function ZigZagOf(w: Width, n: nat): Option<Value>
    requires n < U64
  {
    var i := UnZigZag(n);
    if w.Signed(i) then Some(Int(i)) else None
  }

  // A length, and so much of the rest.
  function ReadString(input: Bytes): (r: Option<(Bytes, Bytes)>)
    ensures r.Some? ==> |r.value.0| + |r.value.1| < |input|
  {
    match ReadVarint32(input)
    case None => None
    case Some(n) => if |n.1| < n.0 then None else Some((n.1[..n.0], n.1[n.0..]))
  }

  // The field's part of a structure, whatever it held.
  function SlotsOf(fields: seq<Field>, v: Value): (r: seq<Slot>)
    ensures |r| == |fields|
  {
    if v.Msg? && |v.slots| == |fields| then v.slots else Defaults(fields)
  }

  ghost function DecodedValue(t: LType, input: Bytes, base: Value): (r: Option<(Value, Bytes)>)
    ensures r.Some? ==> |r.value.1| < |input|
    decreases |input|, 1
  {
    match t
    case BoolType => (match ReadVarint32(input) case None => None case Some(n) => Some((Bit(n.0 != 0), n.1)))
    case VarintType(w) => Mapped(GetVarint64Checked(input), (n: nat) => IntOf(w, n))
    case UvarintType(w) => Mapped(GetVarint64Checked(input), (n: nat) => if w.Unsigned(n) then Some(Word(n)) else None)
    case SvarintType(w) => Mapped(GetVarint64Checked(input), (n: nat) => if n < U64 then ZigZagOf(w, n) else None)
    case Fixed32Type => if |input| < 4 then None else Some((Word(DecodeFixed(input[..4])), input[4..]))
    case Fixed64Type => if |input| < 8 then None else Some((Word(DecodeFixed(input[..8])), input[8..]))
    case BytesType(max) => Sized(ReadString(input), (n: nat) => n <= max)
    case StringType(max) => Sized(ReadString(input), (n: nat) => n + 1 <= max)
    case SubmessageType(fields) => (match ReadString(input)
      case None => None
      case Some(s) =>
        match DecodedMsg(fields, s.0, SlotsOf(fields, base)) case None => None case Some(m) => Some((Msg(m), s.1)))
    case FixedLengthType(size) => FixedLength(input, size)
  }

  function GetVarint64Checked(input: Bytes): (r: Option<(nat, Bytes)>)
    ensures r.Some? ==> |r.value.1| < |input|
  {
    VarintShrinks(input, 10);
    GetVarint64(input)
  }

  function Mapped(r: Option<(nat, Bytes)>, f: nat -> Option<Value>): Option<(Value, Bytes)> {
    match r case None => None case Some(n) => match f(n.0) case None => None case Some(v) => Some((v, n.1))
  }

  function Sized(r: Option<(Bytes, Bytes)>, fits: nat -> bool): Option<(Value, Bytes)> {
    match r case None => None case Some(s) => if fits(|s.0|) then Some((Raw(s.0), s.1)) else None
  }

  // An empty string stands for zeros.
  function FixedLength(input: Bytes, size: nat): Option<(Value, Bytes)> {
    match ReadVarint32(input)
    case None => None
    case Some(n) =>
      if n.0 == 0 then Some((Raw(Zeros(size)), n.1))
      else if n.0 != size || |n.1| < size then None
      else Some((Raw(n.1[..size]), n.1[size..]))
  }

  // ---- Fields ----

  function Base(f: Field, s: Slot): Value {
    match s
    case Single(v) => v
    case Maybe(_, v) => v
    case Choice(chosen) => if chosen.Some? then chosen.value else Default(f.ltype, f.preset)
    case Many(_) => Default(f.ltype, f.preset)
  }

  function Elements(s: Slot): seq<Value> { if s.Many? then s.vs else [] }

  ghost function DecodedPacked(t: LType, input: Bytes, vs: seq<Value>, max: nat): Option<seq<Value>>
    decreases |input|, 2
  {
    if input == [] then Some(vs)
    else if |vs| >= max then None
    else match DecodedValue(t, input, Zero(t)) case None => None case Some(d) => DecodedPacked(t, d.1, vs + [d.0], max)
  }

  ghost function DecodedSlot(f: Field, wireType: nat, input: Bytes, s: Slot): (r: Option<(Slot, Bytes)>)
    ensures r.Some? ==> |r.value.1| < |input|
    decreases |input|, 3
  {
    match f.rule
    case Required => Filled(DecodedValue(f.ltype, input, Base(f, s)), v => Single(v))
    case Singular => Filled(DecodedValue(f.ltype, input, Base(f, s)), v => Single(v))
    case Optional => Filled(DecodedValue(f.ltype, input, Base(f, s)), v => Maybe(true, v))
    case Oneof(_) => Filled(DecodedValue(f.ltype, input, Base(f, s)), v => Choice(Some(v)))
    case Repeated(max) =>
      if wireType == WT_STRING && f.ltype.Packable() then
        match ReadString(input)
        case None => None
        case Some(p) => match DecodedPacked(f.ltype, p.0, Elements(s), max) case None => None
          case Some(vs) => Some((Many(vs), p.1))
      else if |Elements(s)| >= max then None
      else Filled(DecodedValue(f.ltype, input, Default(f.ltype, f.preset)), v => Many(Elements(s) + [v]))
  }

  function Filled(r: Option<(Value, Bytes)>, f: Value -> Slot): Option<(Slot, Bytes)> {
    match r case None => None case Some(d) => Some((f(d.0), d.1))
  }

  // Choosing a member of a union gives up the other ones.
  function Placed(fields: seq<Field>, slots: seq<Slot>, i: nat, s: Slot): (r: seq<Slot>)
    requires |slots| == |fields| && i < |fields|
    ensures |r| == |fields|
  {
    seq(|fields|, (j: nat) requires j < |fields| =>
      if j == i then s else if fields[i].rule.Oneof? && fields[j].rule == fields[i].rule then Choice(None)
        else slots[j])
  }

  // ---- Messages ----

  // The structure so far, the iterator's place, and which of the first required fields were seen.
  datatype Progress = Progress(slots: seq<Slot>, pos: nat, seen: set<nat>)
  {
    predicate Valid(fields: seq<Field>) { |slots| == |fields| && (pos < |fields| || pos == 0) }
  }

  function Advance(fields: seq<Field>, p: Progress, i: nat, s: Slot): (r: Progress)
    requires p.Valid(fields) && i < |fields|
    ensures r.Valid(fields)
  {
    Progress(Placed(fields, p.slots, i, s), i, Noted(fields, p.seen, i))
  }

  function Noted(fields: seq<Field>, seen: set<nat>, i: nat): set<nat>
    requires i < |fields|
  {
    var r := RequiredBefore(fields, i);
    if fields[i].rule.Required? && r < MAX_REQUIRED_FIELDS then seen + {r} else seen
  }

  function Tracked(fields: seq<Field>): (n: nat)
    ensures n <= MAX_REQUIRED_FIELDS
  {
    var n := RequiredBefore(fields, |fields|);
    if n > MAX_REQUIRED_FIELDS then MAX_REQUIRED_FIELDS else n
  }

  // Only so many required fields are kept track of.
  ghost predicate AllSeen(fields: seq<Field>, seen: set<nat>) { forall r :: 0 <= r < Tracked(fields) ==> r in seen }

  ghost function Finished(fields: seq<Field>, p: Progress): Option<seq<Slot>> {
    if AllSeen(fields, p.seen) then Some(p.slots) else None
  }

  ghost function DecodedFrom(fields: seq<Field>, input: Bytes, p: Progress): (r: Option<seq<Slot>>)
    requires p.Valid(fields)
    ensures r.Some? ==> |r.value| == |fields|
    decreases |input|, 4
  {
    match ReadTag(input)
    case End => Finished(fields, p)
    case Bad => None
    case Got(wireType, tag, rest) =>
      match Search(fields, p.pos, tag)
      case None => (match SkipField(rest, wireType) case None => None case Some(after) => DecodedFrom(fields, after, p))
      case Some(i) =>
        match DecodedSlot(fields[i], wireType, rest, p.slots[i])
        case None => None
        case Some(d) => DecodedFrom(fields, d.1, Advance(fields, p, i, d.0))
  }

  // pb_decode_noinit: what the structure held stays where nothing is decoded.
  ghost function DecodedMsg(fields: seq<Field>, input: Bytes, slots: seq<Slot>): (r: Option<seq<Slot>>)
    requires |slots| == |fields|
    ensures r.Some? ==> |r.value| == |fields|
    decreases |input|, 5
  {
    DecodedFrom(fields, input, Progress(slots, 0, {}))
  }

  // ---- The stream ----

  // What a call returned and left is what the specification says, or both failed.
  ghost predicate Agrees<T>(r: Option<(T, Bytes)>, ok: bool, v: T, rest: Bytes) {
    (ok <==> r.Some?) && (ok ==> r.value == (v, rest))
  }

  // A stream over a buffer.
  class IStream {
    const data: Bytes
    var state: nat
    var bytesLeft: nat

    constructor (data: Bytes, state: nat, bytesLeft: nat)
      requires state + bytesLeft <= |data|
      ensures Valid() && this.data == data && this.state == state && this.bytesLeft == bytesLeft
    {
      this.data, this.state, this.bytesLeft := data, state, bytesLeft;
    }

    ghost predicate Valid()
      reads this
    {
      state + bytesLeft <= |data|
    }

    // Bytes were only taken from the front, unless something failed in between.
    twostate predicate Took(ok: bool)
      reads this
    {
      && Valid() && bytesLeft <= old(bytesLeft) && state + bytesLeft <= old(state) + old(bytesLeft)
      && (ok ==> state + bytesLeft == old(state) + old(bytesLeft))
    }

    ghost function Remaining(): (r: Bytes)
      requires Valid()
      reads this
      ensures |r| == bytesLeft
    {
      data[state..state + bytesLeft]
    }

    // pb_read; the bytes may also just be skipped.
    method Read(count: nat) returns (ok: bool, buf: Bytes)
      requires Valid()
      modifies this
      ensures Took(true) && (ok <==> count <= old(bytesLeft))
      ensures ok ==> buf == old(Remaining())[..count] && Remaining() == old(Remaining())[count..]
      ensures ok ==> state == old(state) + count && bytesLeft == old(bytesLeft) - count
      ensures !ok ==> Remaining() == old(Remaining())
    {
      buf := [];
      if count == 0 {
        return true, buf;
      }
      if bytesLeft < count {
        return false, buf;
      }
      buf := data[state..state + count];
      state := state + count;
      bytesLeft := bytesLeft - count;
      return true, buf;
    }

    method ReadByte() returns (ok: bool, byte: Byte)
      requires Valid()
      modifies this
      ensures Took(true) && (ok <==> old(bytesLeft) > 0)
      ensures ok ==> byte == old(Remaining())[0] && Remaining() == old(Remaining())[1..]
      ensures !ok ==> Remaining() == old(Remaining())
    {
      byte := 0;
      if bytesLeft == 0 {
        return false, byte;
      }
      byte := data[state];
      state := state + 1;
      bytesLeft := bytesLeft - 1;
      return true, byte;
    }

    method DecodeVarint32() returns (ok: bool, value: nat)
      requires Valid()
      modifies this
      ensures Took(true) && Agrees(ReadVarint32(old(Remaining())), ok, value, Remaining())
    {
      hide BitOr, ShiftLeft, WithByte, SignCarried;
      ghost var input := Remaining();
      value := 0;
      var byte: Byte;
      ok, byte := ReadByte();
      if !ok {
        return;
      }
      if byte < 128 {
        value := byte;
        return;
      }
      var bitpos: nat := 7;
      var result: nat := byte % 128;
      var more := true;
      while more
        invariant Took(true) && result < U32 && bitpos < 256 && bytesLeft < old(bytesLeft)
        invariant more ==> ReadVarint32(input) == Varint32Rest(Remaining(), bitpos, result)
        invariant !more ==>
          ReadVarint32(input) == if bitpos == 35 && byte / 16 % 8 != 0 then None else Some((result, Remaining()))
        decreases bytesLeft + if more then 1 else 0
      {
        ok, byte := ReadByte();
        if !ok {
          return;
        }
        if bitpos >= 32 {
          if !SignCarried(byte, bitpos, result) {
            return false, 0;
          }
        }
        result := WithByte(byte, bitpos, result);
        bitpos := (bitpos + 7) % 256;
        more := byte >= 128;
      }
      if bitpos == 35 && byte / 16 % 8 != 0 {
        return false, 0;
      }
      return true, result;
    }

    method DecodeVarint() returns (ok: bool, value: nat)
      requires Valid()
      modifies this
      ensures Took(true) && Agrees(GetVarint64(old(Remaining())), ok, value, Remaining())
      ensures ok ==> value < U64 && bytesLeft < old(bytesLeft)
    {
      hide BitOr, ShiftLeft, GetVarint, Times, Power, Truncated;
      ghost var input := Remaining();
      ghost var p: nat := 0;
      var bitpos: nat := 0;
      var result: nat := 0;
      var byte: Byte := 128;
      value := 0;
      Pow0();
      ParsedNone(input, 10, U64);
      while byte >= 128
        invariant Took(true) && result < U64 && bitpos == 7 * p && p <= 10 && p <= |input| && Remaining() == input[p..]
        invariant bitpos < 64 ==> result < Power(2, bitpos)
        invariant if byte >= 128 then Parsed(input, 10, p, result, Power(2, bitpos), U64)
                  else p > 0 && GetVarint64(input) == Some((result, Remaining()))
        decreases bytesLeft + if byte >= 128 then 1 else 0
      {
        if bitpos >= 64 {
          ParsedAll(input, 10, p, result, Power(2, bitpos), U64);
          return false, 0;
        }
        ok, byte := ReadByte();
        if !ok {
          ParsedAll(input, 10, p, result, Power(2, bitpos), U64);
          return;
        }
        assert byte == input[p] && Remaining() == input[p + 1..];
        ParsedByte(input, 10, p, result, Power(2, bitpos), U64);
        OrMod(result, byte % 128, bitpos);
        result := BitOr(result, ShiftLeft(byte % 128, bitpos) % U64);
        bitpos := bitpos + 7;
        p := p + 1;
      }
      return true, result;
    }

    method SkipVarintBytes() returns (ok: bool)
      requires Valid()
      modifies this
      ensures Took(true) && (ok <==> SkipVarint(old(Remaining())).Some?)
      ensures (ok ==> SkipVarint(old(Remaining())) == Some(Remaining()))
    {
      ghost var input := Remaining();
      var byte: Byte := 128;
      while byte >= 128
        invariant Took(true) && SkipVarint(input) == if byte >= 128 then SkipVarint(Remaining()) else Some(Remaining())
        decreases bytesLeft + if byte >= 128 then 1 else 0
      {
        ok, byte := ReadByte();
        if !ok {
          return;
        }
      }
      return true;
    }

    // pb_skip_field.
    method SkipWire(wireType: nat) returns (ok: bool)
      requires Valid()
      modifies this
      ensures Took(true) && (ok <==> SkipField(old(Remaining()), wireType).Some?)
      ensures ok ==> SkipField(old(Remaining()), wireType) == Some(Remaining())
    {
      hide ReadVarint32, SkipVarint;
      var skipped: Bytes;
      if wireType == WT_VARINT {
        ok := SkipVarintBytes();
      } else if wireType == WT_64BIT {
        ok, skipped := Read(8);
      } else if wireType == WT_STRING {
        var length;
        ok, length := DecodeVarint32();
        if ok {
          ok, skipped := Read(length);
        }
      } else if wireType == WT_32BIT {
        ok, skipped := Read(4);
      } else {
        ok := false;
      }
    }

    // pb_decode_tag.
    method DecodeTag() returns (read: TagRead)
      requires Valid() && bytesLeft > 0
      modifies this
      ensures Took(true)
      ensures read == ReadTag(old(Remaining())) && (read.Got? ==> read.rest == Remaining())
    {
      hide ReadVarint32;
      ghost var input := Remaining();
      var ok, temp := DecodeVarint32();
      if !ok {
        return Bad;
      }
      if temp == 0 {
        return End;
      }
      return Got(temp % 8, temp / 8, data[state..state + bytesLeft]);
    }

    // pb_make_string_substream.
    method MakeSubstream() returns (ok: bool, sub: IStream)
      requires Valid()
      modifies this
      ensures Took(false) && fresh(sub) && sub.Valid()
      ensures ok <==> ReadString(old(Remaining())).Some?
      ensures ok ==>
        var r := ReadString(old(Remaining())).value;
        && sub.Remaining() == r.0 && data == sub.data && sub.state + sub.bytesLeft + bytesLeft <= |data|
        && data[sub.state + sub.bytesLeft..sub.state + sub.bytesLeft + bytesLeft] == r.1
        && sub.bytesLeft < old(bytesLeft) && bytesLeft < old(bytesLeft)
        && sub.state + sub.bytesLeft + bytesLeft == old(state) + old(bytesLeft)
    {
      hide ReadVarint32;
      var size;
      ok, size := DecodeVarint32();
      sub := new IStream(data, state, bytesLeft);
      if !ok {
        return;
      }
      if sub.bytesLeft < size {
        return false, sub;
      }
      sub.bytesLeft := size;
      bytesLeft := bytesLeft - size;
    }

    // pb_close_string_substream: what the substream left is skipped.
    method CloseSubstream(sub: IStream)
      requires sub != this && sub.Valid() && sub.data == data && sub.state + sub.bytesLeft + bytesLeft <= |data|
      modifies this`state, sub
      ensures Valid() && state == old(sub.state + sub.bytesLeft)
    {
      if sub.bytesLeft > 0 {
        var _, _ := sub.Read(sub.bytesLeft);
      }
      state := sub.state;
    }
  }

  lemma Pow0()
    ensures Power(2, 0) == 1
  {
  }

  lemma {:induction false} PowerGrows(j: nat, k: nat)
    requires j <= k
    ensures Power(2, j) <= Power(2, k)
    decreases k
  {
    if j < k { PowerGrows(j, k - 1); }
  }

  lemma PowerNext(k: nat)
    ensures Power(2, k + 7) == 128 * Power(2, k) && Power(2, k) > 0
  {
    assert Power(2, k + 2) == 4 * Power(2, k);
    assert Power(2, k + 4) == 4 * Power(2, k + 2);
    assert Power(2, k + 6) == 4 * Power(2, k + 4);
    PowerGrows(0, k);
  }

  lemma Power56()
    ensures Power(2, 56) == 0x100_0000_0000_0000 && Power(2, 63) == 0x8000_0000_0000_0000
  {
    hide Power;
    PowerTwo32();
    PowerNext(28);
    PowerNext(35);
    PowerNext(42);
    PowerNext(49);
    PowerNext(56);
  }

  lemma TimesBelow(d: nat, unit: nat)
    requires d < 128
    ensures Times(d, unit) <= 127 * unit
  {
  }

  // Or-ing in seven more bits, as far as 64 bits go, is adding them.
  lemma OrMod(result: nat, d: nat, bitpos: nat)
    requires bitpos <= 56 || bitpos == 63
    requires result < Power(2, bitpos) && d < 128
    ensures var now := BitOr(result, ShiftLeft(d, bitpos) % U64);
            && now == (result + Times(d, Power(2, bitpos))) % U64 && now < U64
            && (bitpos + 7 < 64 ==> now < Power(2, bitpos + 7))
    ensures Power(2, bitpos + 7) == Power(2, bitpos) * 128
  {
    hide BitOr, Power, Times, ShiftLeft;
    Power56();
    PowerNext(bitpos);
    ShiftIsTimes(d, bitpos);
    if bitpos <= 56 {
      PowerGrows(bitpos, 56);
      TimesBelow(d, Power(2, bitpos));
      OrIsSum(result, d, bitpos);
    } else {
      OrLast(result, d);
    }
  }

  lemma ShiftIsTimes(d: nat, bitpos: nat)
    ensures ShiftLeft(d, bitpos) == Times(d, Power(2, bitpos))
  {
  }

  // Of the tenth byte, only the lowest bit counts.
  lemma OrLast(result: nat, d: nat)
    requires result < Power(2, 63) && d < 128
    ensures BitOr(result, ShiftLeft(d, 63) % U64) == (result + Times(d, Power(2, 63))) % U64
  {
    hide BitOr, Power;
    Power56();
    OrIsSum(result, d % 2, 63);
    assert ShiftLeft(d, 63) == (d / 2) * U64 + ShiftLeft(d % 2, 63);
  }

  // ---- Decoding ----

  method DecodeNumber(stream: IStream, t: LType) returns (ok: bool, v: Value)
    requires stream.Valid() && (t.BoolType? || t.VarintType? || t.UvarintType? || t.SvarintType?)
    modifies stream
    ensures stream.Took(ok)
    ensures forall base :: Agrees(DecodedValue(t, old(stream.Remaining()), base), ok, v, stream.Remaining())
  {
    hide ReadVarint32, GetVarint64, IntOf, ZigZagOf;
    v := Bit(false);
    var value;
    if t.BoolType? {
      ok, value := stream.DecodeVarint32();
      v := Bit(value != 0);
      return;
    }
    ok, value := stream.DecodeVarint();
    if !ok {
      return;
    }
    var r :=
      if t.VarintType? then IntOf(t.w, value)
      else if t.SvarintType? then ZigZagOf(t.w, value)
      else if t.w.Unsigned(value) then Some(Word(value)) else None;
    if r.None? {
      return false, v;
    }
    v := r.value;
  }

  method DecodeFixedWord(stream: IStream, width: nat) returns (ok: bool, v: Value)
    requires stream.Valid() && width in {4, 8}
    modifies stream
    ensures stream.Took(ok)
    ensures var t, input := if width == 4 then Fixed32Type else Fixed64Type, old(stream.Remaining());
            forall base :: Agrees(DecodedValue(t, input, base), ok, v, stream.Remaining())
  {
    hide DecodeFixed;
    var bytes;
    ok, bytes := stream.Read(width);
    v := Word(DecodeFixed(bytes));
  }

  // Bytes, and strings with room for the terminator.
  method DecodeSized(stream: IStream, t: LType) returns (ok: bool, v: Value)
    requires stream.Valid() && (t.BytesType? || t.StringType?)
    modifies stream
    ensures stream.Took(ok)
    ensures forall base :: Agrees(DecodedValue(t, old(stream.Remaining()), base), ok, v, stream.Remaining())
  {
    hide ReadVarint32;
    v := Bit(false);
    var size;
    ok, size := stream.DecodeVarint32();
    if !ok {
      return;
    }
    if (if t.BytesType? then size else size + 1) > t.max {
      return false, v;
    }
    var bytes;
    ok, bytes := stream.Read(size);
    v := Raw(bytes);
  }

  method DecodeFixedLength(stream: IStream, size: nat) returns (ok: bool, v: Value)
    requires stream.Valid()
    modifies stream
    ensures stream.Took(ok)
    ensures Agrees(FixedLength(old(stream.Remaining()), size), ok, v, stream.Remaining())
  {
    hide ReadVarint32;
    v := Bit(false);
    var n;
    ok, n := stream.DecodeVarint32();
    if !ok {
      return;
    }
    if n == 0 {
      v := Raw(Zeros(size));
      return;
    }
    if n != size {
      return false, v;
    }
    var bytes;
    ok, bytes := stream.Read(size);
    v := Raw(bytes);
  }

  // Into what the field held: only a submessage merges with it.
  method DecodeValue(stream: IStream, t: LType, base: Value) returns (ok: bool, v: Value)
    requires stream.Valid()
    modifies stream
    ensures stream.Took(ok)
    ensures Agrees(DecodedValue(t, old(stream.Remaining()), base), ok, v, stream.Remaining())
    decreases stream.bytesLeft, 1
  {
    match t {
      case BytesType(_) => ok, v := DecodeSized(stream, t);
      case StringType(_) => ok, v := DecodeSized(stream, t);
      case FixedLengthType(size) => ok, v := DecodeFixedLength(stream, size);
      case Fixed32Type => ok, v := DecodeFixedWord(stream, 4);
      case Fixed64Type => ok, v := DecodeFixedWord(stream, 8);
      case SubmessageType(fields) => ok, v := DecodeSubmessage(stream, fields, base);
      case _ => ok, v := DecodeNumber(stream, t);
    }
  }

  method DecodeSubmessage(stream: IStream, fields: seq<Field>, base: Value) returns (ok: bool, v: Value)
    requires stream.Valid()
    modifies stream
    ensures stream.Took(ok)
    ensures Agrees(DecodedValue(SubmessageType(fields), old(stream.Remaining()), base), ok, v, stream.Remaining())
    decreases stream.bytesLeft, 0
  {
    hide ReadString, DecodedFrom;
    v := Bit(false);
    var sub;
    ok, sub := stream.MakeSubstream();
    if !ok {
      return;
    }
    var slots;
    ok, slots := DecodeNoinit(sub, fields, SlotsOf(fields, base));
    v := Msg(slots);
    stream.CloseSubstream(sub);
  }

  // The values of a packed array, all in one string.
  method DecodePacked(stream: IStream, f: Field, vs: seq<Value>) returns (ok: bool, slot: Slot)
    requires stream.Valid() && f.rule.Repeated? && f.ltype.Packable()
    modifies stream
    ensures stream.Took(ok)
    ensures Agrees(DecodedSlot(f, WT_STRING, old(stream.Remaining()), Many(vs)), ok, slot, stream.Remaining())
    decreases stream.bytesLeft, 2
  {
    hide ReadString, DecodedValue;
    slot := Many(vs);
    var sub;
    ok, sub := stream.MakeSubstream();
    if !ok {
      return;
    }
    ghost var whole, end, left := sub.Remaining(), sub.state + sub.bytesLeft, stream.bytesLeft;
    var items := vs;
    var status := true;
    while sub.bytesLeft > 0 && |items| < f.rule.max && status
      invariant sub != stream && stream.bytesLeft == left && sub.Valid()
      invariant (status ==> sub.state + sub.bytesLeft == end)
      invariant status ==>
        DecodedPacked(f.ltype, whole, vs, f.rule.max) == DecodedPacked(f.ltype, sub.Remaining(), items, f.rule.max)
      invariant !status ==> DecodedPacked(f.ltype, whole, vs, f.rule.max) == None
      modifies sub
      decreases sub.bytesLeft + if status then 1 else 0
    {
      var v;
      status, v := DecodeValue(sub, f.ltype, Zero(f.ltype));
      if status {
        items := items + [v];
      }
    }
    if sub.bytesLeft != 0 || !status {
      return false, slot;
    }
    stream.CloseSubstream(sub);
    return true, Many(items);
  }

  // decode_static_field.
  method DecodeStaticField(stream: IStream, f: Field, wireType: nat, s: Slot) returns (ok: bool, slot: Slot)
    requires stream.Valid()
    modifies stream
    ensures stream.Took(ok)
    ensures Agrees(DecodedSlot(f, wireType, old(stream.Remaining()), s), ok, slot, stream.Remaining())
    decreases stream.bytesLeft, 3
  {
    hide ReadString, DecodedValue, DecodedPacked;
    var v;
    match f.rule {
      case Required =>
        ok, v := DecodeValue(stream, f.ltype, Base(f, s));
        slot := Single(v);
      case Singular =>
        ok, v := DecodeValue(stream, f.ltype, Base(f, s));
        slot := Single(v);
      case Optional =>
        ok, v := DecodeValue(stream, f.ltype, Base(f, s));
        slot := Maybe(true, v);
      case Oneof(_) =>
        ok, v := DecodeValue(stream, f.ltype, Base(f, s));
        slot := Choice(Some(v));
      case Repeated(max) =>
        if wireType == WT_STRING && f.ltype.Packable() {
          ok, slot := DecodePacked(stream, f, Elements(s));
        } else if |Elements(s)| >= max {
          return false, s;
        } else {
          ok, v := DecodeValue(stream, f.ltype, Default(f.ltype, f.preset));
          slot := Many(Elements(s) + [v]);
        }
    }
  }

  // ---- The required fields ----

  // Two words say which of the tracked required fields were seen.
  ghost predicate Marks(fieldsSeen: seq<nat>, fields: seq<Field>, seen: set<nat>) {
    && |fieldsSeen| == 2 && fieldsSeen[0] < U32 && fieldsSeen[1] < U32
    && (forall r :: 0 <= r < 64 ==> HasBit(fieldsSeen[r / 32], r % 32) == (r in seen))
    && forall r :: r in seen ==> r < Tracked(fields)
  }

  lemma {:induction false} RequiredGrows(fields: seq<Field>, i: nat, j: nat)
    requires i <= j <= |fields|
    ensures RequiredBefore(fields, i) <= RequiredBefore(fields, j)
    decreases j
  {
    if i < j { RequiredGrows(fields, i, j - 1); }
  }

  lemma MarkOne(fieldsSeen: seq<nat>, fields: seq<Field>, seen: set<nat>, i: nat)
    requires Marks(fieldsSeen, fields, seen) && i < |fields| && fields[i].rule.Required?
    requires RequiredBefore(fields, i) < MAX_REQUIRED_FIELDS
    ensures var r := RequiredBefore(fields, i);
            Marks(fieldsSeen[r / 32 := BitOr(fieldsSeen[r / 32], Power(2, r % 32))], fields, Noted(fields, seen, i))
  {
    hide BitOr, HasBit, Power;
    var r := RequiredBefore(fields, i);
    RequiredGrows(fields, i + 1, |fields|);
    PowerTwo32();
    PowerBelow(r % 32);
    OrFits(fieldsSeen[r / 32], Power(2, r % 32), 32);
    var now := fieldsSeen[r / 32 := BitOr(fieldsSeen[r / 32], Power(2, r % 32))];
    forall q | 0 <= q < 64 ensures HasBit(now[q / 32], q % 32) == (q in seen || q == r) {
      HasBitOr(fieldsSeen[r / 32], Power(2, r % 32), q % 32);
      OneBit(r % 32, q % 32);
    }
  }

  lemma PowerBelow(k: nat)
    requires k < 32
    ensures Power(2, k) < U32
  {
    hide Power;
    PowerTwo32();
    PowerGrows(k, 31);
  }

  const ALL_BITS: nat := U32 - 1

  // The check of whole words, then of the remaining bits.
  method RequiredPresent(fieldsSeen: seq<nat>, count: nat, ghost fields: seq<Field>,
      ghost seen: set<nat>) returns (ok: bool)
    requires Marks(fieldsSeen, fields, seen) && count == Tracked(fields)
    ensures ok <==> AllSeen(fields, seen)
  {
    hide HasBit, Power, ShiftRight, Tracked;
    for i := 0 to count / 32
      invariant forall r :: 0 <= r < 32 * i ==> r in seen
    {
      WordFull(fieldsSeen, fields, seen, i, 32);
      if fieldsSeen[i] != ALL_BITS {
        return false;
      }
    }
    if count % 32 != 0 {
      WordFull(fieldsSeen, fields, seen, count / 32, count % 32);
      if fieldsSeen[count / 32] != ShiftRight(ALL_BITS, 32 - count % 32) {
        return false;
      }
    }
    return true;
  }

  // A word whose tracked bits are the first m of it is right exactly if all these were seen.
  lemma WordFull(fieldsSeen: seq<nat>, fields: seq<Field>, seen: set<nat>, i: nat, m: nat)
    requires Marks(fieldsSeen, fields, seen) && i < 2 && m <= 32 && 32 * i + m <= Tracked(fields)
    requires m < 32 ==> 32 * i + m == Tracked(fields)
    ensures fieldsSeen[i] == ShiftRight(ALL_BITS, 32 - m) <==> forall r :: 32 * i <= r < 32 * i + m ==> r in seen
    ensures ShiftRight(ALL_BITS, 0) == ALL_BITS
  {
    hide HasBit, Power, Tracked, LowOnes;
    PowerTwo32();
    AllOnes();
    LowOnesFit(m, 32);
    OnesDecide(fieldsSeen[i], m, 32);
    WordBits(fieldsSeen, fields, seen, i, m);
  }

  lemma WordBits(fieldsSeen: seq<nat>, fields: seq<Field>, seen: set<nat>, i: nat, m: nat)
    requires Marks(fieldsSeen, fields, seen) && i < 2 && m <= 32 && 32 * i + m <= Tracked(fields)
    requires m < 32 ==> 32 * i + m == Tracked(fields)
    ensures Ones(fieldsSeen[i], m, 32) <==> forall r :: 32 * i <= r < 32 * i + m ==> r in seen
  {
    hide HasBit, Tracked;
    forall q | 0 <= q < 32 ensures HasBit(fieldsSeen[i], q) == (32 * i + q in seen) {
      var r := 32 * i + q;
      assert r / 32 == i && r % 32 == q;
      assert HasBit(fieldsSeen[r / 32], r % 32) == (r in seen);
    }
    if Ones(fieldsSeen[i], m, 32) {
      forall r | 32 * i <= r < 32 * i + m ensures r in seen { assert HasBit(fieldsSeen[i], r - 32 * i); }
    }
  }

  lemma AllOnes()
    ensures LowOnes(32) == ALL_BITS
  {
    assert LowOnes(8) == 255;
    assert LowOnes(16) == 65535 by { assert LowOnes(12) == 4095; }
    assert LowOnes(24) == 0xff_ffff by { assert LowOnes(20) == 0xf_ffff; }
    assert LowOnes(28) == 0xfff_ffff;
  }

  // ---- Messages ----

  // How many required fields there are, found by walking the iterator to its end.
  method CountRequired(iter: FieldIter) returns (count: nat)
    requires iter.Valid()
    modifies iter
    ensures iter.Valid() && count == Tracked(iter.fields)
  {
    var last := iter.pos;
    count := iter.requiredFieldIndex;
    var more := iter.Next();
    while more
      invariant iter.Valid() && last <= |iter.fields| && count == RequiredBefore(iter.fields, last)
      invariant if more then last + 1 == iter.pos < |iter.fields|
        else last + 1 == |iter.fields| || (iter.fields == [] && last == 0)
      decreases |iter.fields| - last, more
    {
      last := iter.pos;
      count := iter.requiredFieldIndex;
      more := iter.Next();
    }
    if |iter.fields| > 0 && iter.fields[last].rule.Required? {
      count := count + 1;
    }
    if count > MAX_REQUIRED_FIELDS {
      count := MAX_REQUIRED_FIELDS;
    }
  }

  // pb_decode_noinit.
  method DecodeNoinit(stream: IStream, fields: seq<Field>, before: seq<Slot>) returns (ok: bool, slots: seq<Slot>)
    requires stream.Valid() && |before| == |fields|
    modifies stream
    ensures stream.Took(ok)
    ensures var r := DecodedMsg(fields, old(stream.Remaining()), before); (ok <==> r.Some?) && (ok ==> r.value == slots)
    decreases stream.bytesLeft, 4
  {
    hide ReadTag, SkipField, DecodedSlot, Search, Marks, AllSeen, BitOr, Power, Tracked, Noted;
    slots := before;
    var fieldsSeen: seq<nat> := [0, 0];
    NothingMarked(fields);
    var iter := new FieldIter(fields);
    ghost var input, p := stream.Remaining(), Progress(before, 0, {});
    var eof := false;
    while stream.bytesLeft > 0 && !eof
      invariant stream.Took(true) && iter.Valid() && iter.fields == fields && p.Valid(fields)
      invariant p.slots == slots && p.pos == iter.pos && |fieldsSeen| == 2 && Marks(fieldsSeen, fields, p.seen)
      invariant DecodedMsg(fields, input, before) ==
        if eof then Finished(fields, p) else DecodedFrom(fields, stream.Remaining(), p)
      decreases stream.bytesLeft + if eof then 0 else 1
    {
      var read := stream.DecodeTag();
      match read {
        case End => eof := true;
        case Bad => return false, slots;
        case Got(wireType, tag, _) =>
          var found := iter.Find(tag);
          if !found {
            var skipped := stream.SkipWire(wireType);
            if !skipped {
              return false, slots;
            }
          } else {
            var i := iter.pos;
            if fields[i].rule.Required? && iter.requiredFieldIndex < MAX_REQUIRED_FIELDS {
              MarkOne(fieldsSeen, fields, p.seen, i);
              var r := iter.requiredFieldIndex;
              fieldsSeen := fieldsSeen[r / 32 := BitOr(fieldsSeen[r / 32], ShiftLeft(1, r % 32))];
            } else {
              NothingNoted(fields, p.seen, i);
            }
            var slot;
            ok, slot := DecodeStaticField(stream, fields[i], wireType, slots[i]);
            if !ok {
              return;
            }
            slots := Placed(fields, slots, i, slot);
            p := Advance(fields, p, i, slot);
          }
      }
    }
    EndOfInput();
    var count := CountRequired(iter);
    ok := RequiredPresent(fieldsSeen, count, fields, p.seen);
  }

  lemma NothingMarked(fields: seq<Field>)
    ensures Marks([0, 0], fields, {})
  {
    forall r | 0 <= r < 64 ensures !HasBit([0, 0][r / 32], r % 32) { NoBits(r % 32); }
  }

  lemma NothingNoted(fields: seq<Field>, seen: set<nat>, i: nat)
    requires i < |fields| && !(fields[i].rule.Required? && RequiredBefore(fields, i) < MAX_REQUIRED_FIELDS)
    ensures Noted(fields, seen, i) == seen
  {
  }

  lemma EndOfInput()
    ensures ReadTag([]) == End
  {
  }

  // pb_decode.
  method Decode(stream: IStream, fields: seq<Field>) returns (ok: bool, slots: seq<Slot>)
    requires stream.Valid()
    modifies stream
    ensures stream.Took(ok)
    ensures var r := DecodedMsg(fields, old(stream.Remaining()), Defaults(fields));
            (ok <==> r.Some?) && (ok ==> r.value == slots)
  {
    ok, slots := DecodeNoinit(stream, fields, Defaults(fields));
  }
}
