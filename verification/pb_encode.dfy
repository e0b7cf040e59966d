// Encoding a message, sizing or writing (nanopb: pb_encode.c).

module PbEncode {
  import opened Wrappers
  import opened Coding
  import opened PbCommon

  // ---- The encoding (Protocol Buffers encoding guide) ----

  const WT_VARINT: nat := 0
  const WT_64BIT: nat := 1
  const WT_STRING: nat := 2
  const WT_32BIT: nat := 5

  function WireType(t: LType): (w: nat)
    ensures w < 8
  {
    match t
    case BoolType => WT_VARINT
    case VarintType(_) => WT_VARINT
    case UvarintType(_) => WT_VARINT
    case SvarintType(_) => WT_VARINT
    case Fixed32Type => WT_32BIT
    case Fixed64Type => WT_64BIT
    case BytesType(_) => WT_STRING
    case StringType(_) => WT_STRING
    case SubmessageType(_) => WT_STRING
    case FixedLengthType(_) => WT_STRING
  }

  // The cast of a signed number to 64 unsigned bits.
  function Unsigned64(i: int): (n: nat)
    requires W64.Signed(i)
    ensures n < U64
  {
    i % U64
  }

  // Shifted left by one, and all bits flipped if the number was negative.
  function ZigZag(i: int): (n: nat)
    requires W64.Signed(i)
    ensures n < U64 && n == if i < 0 then -2 * i - 1 else 2 * i
  {
    if i < 0 then U64 - 1 - (2 * i) % U64 else (2 * i) % U64
  }

  // A string ends at its terminator or with its buffer.
  function Text(bytes: Bytes): (r: Bytes)
    ensures r <= bytes && 0 !in r && (|r| < |bytes| ==> bytes[|r|] == 0)
  {
    if bytes == [] || bytes[0] == 0 then [] else [bytes[0]] + Text(bytes[1..])
  }

  ghost function EncodedValue(t: LType, v: Value): Bytes
    requires Typed(t, v)
    decreases t, 1
  {
    match t
    case BoolType => Varint(if v.b then 1 else 0)
    case VarintType(_) => Varint(Unsigned64(v.i))
    case UvarintType(_) => Varint(v.n)
    case SvarintType(_) => Varint(ZigZag(v.i))
    case Fixed32Type => Fixed(v.n, 4)
    case Fixed64Type => Fixed(v.n, 8)
    case BytesType(_) => LengthPrefixed(v.bytes)
    case StringType(_) => LengthPrefixed(Text(v.bytes))
    case SubmessageType(fields) => LengthPrefixed(EncodedFirst(fields, v.slots, |fields|))
    case FixedLengthType(_) => LengthPrefixed(v.bytes)
  }

  ghost function Items(t: LType, vs: seq<Value>, n: nat): (r: Bytes)
    requires n <= |vs| && forall i :: 0 <= i < |vs| ==> Typed(t, vs[i])
    decreases t, 2, n
  {
    if n == 0 then [] else Items(t, vs, n - 1) + EncodedValue(t, vs[n - 1])
  }

  ghost function Tagged(tag: nat, t: LType, vs: seq<Value>, n: nat): (r: Bytes)
    requires n <= |vs| && forall i :: 0 <= i < |vs| ==> Typed(t, vs[i])
    decreases t, 2, n
  {
    if n == 0 then [] else Tagged(tag, t, vs, n - 1) + Tag(WireType(t), tag) + EncodedValue(t, vs[n - 1])
  }

  function Tag(wireType: nat, tag: nat): Bytes { Varint(8 * tag + wireType) }

  ghost function EncodedSlot(f: Field, s: Slot): Bytes
    requires TypedSlot(f, s)
    decreases f
  {
    match f.rule
    case Required => Tag(WireType(f.ltype), f.tag) + EncodedValue(f.ltype, s.v)
    case Singular => if ZeroValue(f.ltype, s.v) then [] else Tag(WireType(f.ltype), f.tag) + EncodedValue(f.ltype, s.v)
    case Optional => if !s.has then [] else Tag(WireType(f.ltype), f.tag) + EncodedValue(f.ltype, s.v)
    case Repeated(_) =>
      if s.vs == [] then []
      else if f.ltype.Packable() then Tag(WT_STRING, f.tag) + LengthPrefixed(Items(f.ltype, s.vs, |s.vs|))
      else Tagged(f.tag, f.ltype, s.vs, |s.vs|)
    case Oneof(_) => if s.chosen.None? then []
      else Tag(WireType(f.ltype), f.tag) + EncodedValue(f.ltype, s.chosen.value)
  }

  // The first n fields.
  ghost function EncodedFirst(fields: seq<Field>, slots: seq<Slot>, n: nat): Bytes
    requires TypedSlots(fields, slots) && n <= |fields|
    decreases fields, n
  {
    if n == 0 then [] else EncodedFirst(fields, slots, n - 1) + EncodedSlot(fields[n - 1], slots[n - 1])
  }

  // pb_check_proto3_default_value.
  predicate ZeroValue(t: LType, v: Value)
    decreases t, 1
  {
    match t
    case BoolType => v == Bit(false)
    case VarintType(_) => v == Int(0)
    case UvarintType(_) => v == Word(0)
    case SvarintType(_) => v == Int(0)
    case Fixed32Type => v == Word(0)
    case Fixed64Type => v == Word(0)
    case BytesType(_) => v.Raw? && v.bytes == []
    case StringType(_) => v.Raw? && (v.bytes == [] || v.bytes[0] == 0)
    case SubmessageType(fields) => v.Msg? && |v.slots| == |fields| && ZeroSlots(fields, v.slots)
    case FixedLengthType(size) => size == 0
  }

  predicate ZeroSlots(fields: seq<Field>, slots: seq<Slot>)
    requires |slots| == |fields|
    decreases fields
  {
    forall i :: 0 <= i < |fields| ==> ZeroSlot(fields[i], slots[i])
  }

  predicate ZeroSlot(f: Field, s: Slot)
    decreases f
  {
    match f.rule
    case Required => false
    case Repeated(_) => s.Many? && s.vs == []
    case Oneof(_) => s.Choice? && s.chosen.None?
    case Optional => s.Maybe? && !s.has
    case Singular => s.Single? && ZeroValue(f.ltype, s.v)
  }

  // What the encoder accepts: counts and sizes within what the descriptor allows.
  ghost predicate Encodable(t: LType, v: Value)
    decreases t, 1
  {
    match t
    case BytesType(max) => v.Raw? && |v.bytes| <= max
    case SubmessageType(fields) => v.Msg? && |v.slots| == |fields| && EncodableSlots(fields, v.slots)
    case _ => true
  }

  ghost predicate EncodableSlots(fields: seq<Field>, slots: seq<Slot>)
    requires |slots| == |fields|
    decreases fields
  {
    forall i :: 0 <= i < |fields| ==> EncodableSlot(fields[i], slots[i])
  }

  ghost predicate EncodableSlot(f: Field, s: Slot)
    decreases f
  {
    match f.rule
    case Required => s.Single? && Encodable(f.ltype, s.v)
    case Singular => s.Single? && (ZeroValue(f.ltype, s.v) || Encodable(f.ltype, s.v))
    case Optional => s.Maybe? && (s.has ==> Encodable(f.ltype, s.v))
    case Repeated(max) => s.Many? && |s.vs| <= max && forall i :: 0 <= i < |s.vs| ==> Encodable(f.ltype, s.vs[i])
    case Oneof(_) => s.Choice? && (s.chosen.Some? ==> Encodable(f.ltype, s.chosen.value))
  }

  lemma {:induction false} FirstGrows(fields: seq<Field>, slots: seq<Slot>, i: nat, n: nat)
    requires TypedSlots(fields, slots) && i <= n <= |fields|
    ensures |EncodedFirst(fields, slots, i)| <= |EncodedFirst(fields, slots, n)|
    decreases n
  {
    hide EncodedSlot, TypedSlots;
    if i < n { FirstGrows(fields, slots, i, n - 1); }
  }

  lemma {:induction false} ItemsGrow(t: LType, vs: seq<Value>, i: nat, n: nat)
    requires i <= n <= |vs| && forall i :: 0 <= i < |vs| ==> Typed(t, vs[i])
    ensures |Items(t, vs, i)| <= |Items(t, vs, n)|
    decreases n
  {
    hide EncodedValue, Typed;
    if i < n { ItemsGrow(t, vs, i, n - 1); }
  }

  lemma {:induction false} TaggedGrow(tag: nat, t: LType, vs: seq<Value>, i: nat, n: nat)
    requires i <= n <= |vs| && forall i :: 0 <= i < |vs| ==> Typed(t, vs[i])
    ensures |Tagged(tag, t, vs, i)| <= |Tagged(tag, t, vs, n)|
    decreases n
  {
    hide EncodedValue, Typed;
    if i < n { TaggedGrow(tag, t, vs, i, n - 1); }
  }

  // The bytes, but for the last one's top bit.
  ghost predicate Continued(buffer: Bytes, bytes: Bytes) {
    buffer != [] && var n := |buffer| - 1; buffer[n] >= 128 && bytes == buffer[..n] + [buffer[n] - 128]
  }

  // ---- The stream ----

  // size_t.
  const SIZE: nat := U64

  // A stream without a callback only counts. The state is what lies before the write position.
  class OStream {
    const sizing: bool
    const maxSize: nat
    var bytesWritten: nat
    var state: Bytes

    constructor (sizing: bool, state: Bytes, maxSize: nat)
      ensures this.sizing == sizing && this.state == state && this.maxSize == maxSize && bytesWritten == 0
    {
      this.sizing, this.state, this.maxSize, bytesWritten := sizing, state, maxSize, 0;
    }

    predicate Fits(count: nat)
      reads this
    {
      sizing || bytesWritten + count <= maxSize
    }

    // These bytes went out, or what is not good or does not fit was refused.
    twostate predicate Appended(ok: bool, good: bool, bytes: Bytes)
      reads this
    {
      && (ok <==> good && old(Fits(|bytes|)))
      && (ok ==> bytesWritten == old(bytesWritten) + |bytes| && state == old(state) + if sizing then [] else bytes)
    }

    // pb_write. A sizing stream is given a count alone.
    method Write(buf: Bytes, count: nat) returns (ok: bool)
      requires bytesWritten + count < SIZE && (sizing || (|buf| == count && bytesWritten <= maxSize))
      modifies this
      ensures ok <==> old(Fits(count))
      ensures ok ==> bytesWritten == old(bytesWritten) + count && state == old(state) + if sizing then [] else buf
    {
      if count > 0 && !sizing {
        if (bytesWritten + count) % SIZE < bytesWritten || bytesWritten + count > maxSize {
          return false;
        }
        for i := 0 to count
          invariant state == old(state) + buf[..i] && bytesWritten == old(bytesWritten)
        {
          assert buf[..i + 1] == buf[..i] + [buf[i]];
          state := state + [buf[i]];
        }
        assert buf[..count] == buf;
      }
      bytesWritten := bytesWritten + count;
      return true;
    }

    method EncodeVarint(value: nat) returns (ok: bool)
      requires value < U64 && bytesWritten + |Varint(value)| < SIZE && Fits(0)
      modifies this
      ensures Appended(ok, true, Varint(value))
    {
      if value <= 0x7f {
        ok := Write([value], 1);
        return;
      }
      var buffer: Bytes := [];
      var left: nat := value;
      while left > 0
        invariant if left > 0 then Varint(value) == buffer + Varint(left) else Continued(buffer, Varint(value))
      {
        ghost var was := buffer;
        buffer := buffer + [left % 128 + 128];
        assert buffer[..|buffer| - 1] == was;
        left := left / 128;
      }
      buffer := buffer[|buffer| - 1 := buffer[|buffer| - 1] - 128];
      Varint64Length(value);
      assert |buffer| <= 10;
      assert buffer == Varint(value);
      ok := Write(buffer, |buffer|);
    }

    method EncodeTag(wireType: nat, fieldNumber: Word32) returns (ok: bool)
      requires wireType < 8 && bytesWritten + |Tag(wireType, fieldNumber)| < SIZE && Fits(0)
      modifies this
      ensures Appended(ok, true, Tag(wireType, fieldNumber))
    {
      hide Varint;
      ok := EncodeVarint(8 * fieldNumber + wireType);
    }

    method EncodeString(buffer: Bytes, size: nat) returns (ok: bool)
      requires |buffer| == size < U64 && bytesWritten + |LengthPrefixed(buffer)| < SIZE && Fits(0)
      modifies this
      ensures Appended(ok, true, LengthPrefixed(buffer))
    {
      hide Varint;
      ok := EncodeVarint(size);
      if !ok {
        return;
      }
      ghost var start, whole := old(state), LengthPrefixed(buffer);
      assert |whole| == |Varint(size)| + size && start + Varint(size) + buffer == start + whole;
      ok := Write(buffer, size);
    }
  }

  // ---- Values, arrays, fields and messages ----

  method EncodeValue(stream: OStream, t: LType, v: Value) returns (ok: bool)
    requires Typed(t, v) && stream.Fits(0) && stream.bytesWritten + |EncodedValue(t, v)| < SIZE
    modifies stream
    ensures stream.Appended(ok, Encodable(t, v), EncodedValue(t, v))
    decreases t, 1
  {
    hide Varint, Fixed;
    match t {
      case BoolType => ok := stream.EncodeVarint(if v.b then 1 else 0);
      case VarintType(_) => ok := stream.EncodeVarint(Unsigned64(v.i));
      case UvarintType(_) => ok := stream.EncodeVarint(v.n);
      case SvarintType(_) => ok := stream.EncodeVarint(ZigZag(v.i));
      case Fixed32Type => ok := stream.Write(Fixed(v.n, 4), 4);
      case Fixed64Type => ok := stream.Write(Fixed(v.n, 8), 8);
      case BytesType(max) =>
        if |v.bytes| > max {
          return false;
        }
        ok := stream.EncodeString(v.bytes, |v.bytes|);
      case StringType(max) => ok := EncodeText(stream, v.bytes);
      case SubmessageType(fields) => ok := EncodeSubmessage(stream, fields, v.slots);
      case FixedLengthType(size) => ok := stream.EncodeString(v.bytes, size);
    }
  }

  // A string up to its terminator, or all of its buffer.
  method EncodeText(stream: OStream, buffer: Bytes) returns (ok: bool)
    requires stream.Fits(0) && stream.bytesWritten + |LengthPrefixed(Text(buffer))| < SIZE
    modifies stream
    ensures stream.Appended(ok, true, LengthPrefixed(Text(buffer)))
  {
    hide Varint;
    var size := 0;
    while size < |buffer| && buffer[size] != 0
      invariant size <= |buffer| && Text(buffer) == buffer[..size] + Text(buffer[size..])
      modifies {}
    {
      TextOn(buffer, size);
      size := size + 1;
    }
    TextEnds(buffer, size);
    ok := stream.EncodeString(buffer[..size], size);
  }

  lemma TextOn(buffer: Bytes, size: nat)
    requires size < |buffer| && buffer[size] != 0 && Text(buffer) == buffer[..size] + Text(buffer[size..])
    ensures Text(buffer) == buffer[..size + 1] + Text(buffer[size + 1..])
  {
    hide Text;
    var front, rest := buffer[..size], Text(buffer[size + 1..]);
    TextStep(buffer, size);
    Regroup(front, [buffer[size]], rest);
    assert buffer[..size + 1] == front + [buffer[size]];
  }

  lemma TextStep(buffer: Bytes, size: nat)
    requires size < |buffer| && buffer[size] != 0
    ensures Text(buffer[size..]) == [buffer[size]] + Text(buffer[size + 1..])
  {
    assert buffer[size..][1..] == buffer[size + 1..];
  }

  lemma Regroup(a: Bytes, b: Bytes, c: Bytes)
    ensures a + (b + c) == a + b + c
  {
  }

  lemma TextEnds(buffer: Bytes, size: nat)
    requires size <= |buffer| && (size < |buffer| ==> buffer[size] == 0)
    requires Text(buffer) == buffer[..size] + Text(buffer[size..])
    ensures Text(buffer) == buffer[..size]
  {
  }

  // The size pass, then the write pass in a substream of just that size.
  method EncodeSubmessage(stream: OStream, fields: seq<Field>, slots: seq<Slot>) returns (ok: bool)
    requires TypedSlots(fields, slots) && stream.Fits(0)
    requires stream.bytesWritten + |LengthPrefixed(EncodedFirst(fields, slots, |fields|))| < SIZE
    modifies stream
    ensures stream.Appended(ok, EncodableSlots(fields, slots), LengthPrefixed(EncodedFirst(fields, slots, |fields|)))
    decreases fields, 4
  {
    hide Varint;
    ghost var body := EncodedFirst(fields, slots, |fields|);
    var substream := new OStream(true, [], 0);
    ok := Encode(substream, fields, slots);
    if !ok {
      return;
    }
    var size := substream.bytesWritten;
    ok := stream.EncodeVarint(size);
    if !ok {
      return;
    }
    if stream.sizing {
      ok := stream.Write([], size);
      return;
    }
    if stream.bytesWritten + size > stream.maxSize {
      return false;
    }
    substream := new OStream(false, stream.state, size);
    ok := Encode(substream, fields, slots);
    // The passes agree.
    assert ok && substream.bytesWritten == size;
    assert old(stream.state) + Varint(size) + body == old(stream.state) + LengthPrefixed(body);
    stream.bytesWritten := stream.bytesWritten + substream.bytesWritten;
    stream.state := substream.state;
    if substream.bytesWritten != size {
      return false;
    }
  }

  // The values of an array, one after the other.
  method EncodeItems(stream: OStream, t: LType, vs: seq<Value>) returns (ok: bool)
    requires t.Packable() && (forall i :: 0 <= i < |vs| ==> Typed(t, vs[i])) && stream.Fits(0)
    requires stream.bytesWritten + |Items(t, vs, |vs|)| < SIZE
    modifies stream
    ensures stream.Appended(ok, true, Items(t, vs, |vs|))
    decreases t, 2
  {
    hide EncodedValue, Typed;
    for i := 0 to |vs|
      invariant stream.Fits(0) && stream.bytesWritten == old(stream.bytesWritten) + |Items(t, vs, i)|
      invariant stream.state == old(stream.state) + if stream.sizing then [] else Items(t, vs, i)
    {
      ItemsGrow(t, vs, i + 1, |vs|);
      ok := EncodeValue(stream, t, vs[i]);
      if !ok {
        return;
      }
    }
    return true;
  }

  lemma {:induction false} FixedItems(t: LType, vs: seq<Value>, n: nat)
    requires (t.Fixed32Type? || t.Fixed64Type?) && n <= |vs| && forall i :: 0 <= i < |vs| ==> Typed(t, vs[i])
    ensures |Items(t, vs, n)| == if t.Fixed32Type? then 4 * n else 8 * n
  {
    if n == 0 {
    } else {
      FixedItems(t, vs, n - 1);
    }
  }

  // The values of an array that cannot be packed, each with its tag.
  method EncodeTagged(stream: OStream, f: Field, vs: seq<Value>) returns (ok: bool)
    requires (forall i :: 0 <= i < |vs| ==> Typed(f.ltype, vs[i])) && stream.Fits(0)
    requires stream.bytesWritten + |Tagged(f.tag, f.ltype, vs, |vs|)| < SIZE
    modifies stream
    ensures stream.Appended(ok, forall i :: 0 <= i < |vs| ==> Encodable(f.ltype, vs[i]),
      Tagged(f.tag, f.ltype, vs, |vs|))
    decreases f.ltype, 2
  {
    hide EncodedValue, Typed, Encodable, Tag;
    for i := 0 to |vs|
      invariant stream.Fits(0) && stream.bytesWritten == old(stream.bytesWritten) + |Tagged(f.tag, f.ltype, vs, i)|
      invariant stream.state == old(stream.state) + if stream.sizing then [] else Tagged(f.tag, f.ltype, vs, i)
      invariant forall j :: 0 <= j < i ==> Encodable(f.ltype, vs[j])
    {
      TaggedGrow(f.tag, f.ltype, vs, i + 1, |vs|);
      ok := stream.EncodeTag(WireType(f.ltype), f.tag);
      if !ok {
        return;
      }
      ok := EncodeValue(stream, f.ltype, vs[i]);
      if !ok {
        return;
      }
    }
    return true;
  }

  // encode_array.
  method EncodeArray(stream: OStream, f: Field, vs: seq<Value>) returns (ok: bool)
    requires f.rule.Repeated? && TypedSlot(f, Many(vs)) && stream.Fits(0)
    requires stream.bytesWritten + |EncodedSlot(f, Many(vs))| < SIZE
    modifies stream
    ensures stream.Appended(ok, EncodableSlot(f, Many(vs)), EncodedSlot(f, Many(vs)))
    decreases f.ltype, 4
  {
    hide EncodedValue, Typed, Tag, Varint, Items, Tagged;
    var count := |vs|;
    if count == 0 {
      return true;
    }
    if count > f.rule.max {
      return false;
    }
    if f.ltype.Packable() {
      ok := stream.EncodeTag(WT_STRING, f.tag);
      if !ok {
        return;
      }
      var size := PackedSize(f.ltype, vs);
      ghost var items := Items(f.ltype, vs, count);
      ok := stream.EncodeVarint(size);
      if !ok {
        return;
      }
      if stream.sizing {
        ok := stream.Write([], size);
        return;
      }
      ghost var start := old(stream.state);
      assert start + Tag(WT_STRING, f.tag) + Varint(size) + items ==
        start + (Tag(WT_STRING, f.tag) + LengthPrefixed(items));
      ok := EncodeItems(stream, f.ltype, vs);
    } else {
      ok := EncodeTagged(stream, f, vs);
    }
  }

  // The total size of a packed array.
  method PackedSize(t: LType, vs: seq<Value>) returns (size: nat)
    requires t.Packable() && (forall i :: 0 <= i < |vs| ==> Typed(t, vs[i])) && |Items(t, vs, |vs|)| < SIZE
    ensures size == |Items(t, vs, |vs|)|
    decreases t, 3
  {
    hide EncodedValue, Typed, Items;
    if t.Fixed32Type? {
      FixedItems(t, vs, |vs|);
      size := 4 * |vs|;
    } else if t.Fixed64Type? {
      FixedItems(t, vs, |vs|);
      size := 8 * |vs|;
    } else {
      var sizestream := new OStream(true, [], 0);
      var ok := EncodeItems(sizestream, t, vs);
      size := sizestream.bytesWritten;
    }
  }

  method EncodeTaggedValue(stream: OStream, f: Field, v: Value) returns (ok: bool)
    requires Typed(f.ltype, v) && stream.Fits(0)
    requires stream.bytesWritten + |Tag(WireType(f.ltype), f.tag) + EncodedValue(f.ltype, v)| < SIZE
    modifies stream
    ensures stream.Appended(ok, Encodable(f.ltype, v), Tag(WireType(f.ltype), f.tag) + EncodedValue(f.ltype, v))
    decreases f.ltype, 2
  {
    hide EncodedValue, Typed, Tag, Encodable;
    ok := stream.EncodeTag(WireType(f.ltype), f.tag);
    if !ok {
      return;
    }
    ghost var start := old(stream.state);
    assert start + Tag(WireType(f.ltype), f.tag) + EncodedValue(f.ltype, v) ==
      start + (Tag(WireType(f.ltype), f.tag) + EncodedValue(f.ltype, v));
    ok := EncodeValue(stream, f.ltype, v);
  }

  // encode_basic_field.
  method EncodeField(stream: OStream, f: Field, s: Slot) returns (ok: bool)
    requires TypedSlot(f, s) && stream.Fits(0) && stream.bytesWritten + |EncodedSlot(f, s)| < SIZE
    modifies stream
    ensures stream.Appended(ok, EncodableSlot(f, s), EncodedSlot(f, s))
    decreases f
  {
    hide EncodedValue, Typed, Tag, Encodable, ZeroValue, Items, Tagged;
    ok := true;
    match f.rule {
      case Required => ok := EncodeTaggedValue(stream, f, s.v);
      case Singular =>
        if !ZeroValue(f.ltype, s.v) {
          ok := EncodeTaggedValue(stream, f, s.v);
        }
      case Optional =>
        if s.has {
          ok := EncodeTaggedValue(stream, f, s.v);
        }
      case Repeated(_) => ok := EncodeArray(stream, f, s.vs);
      case Oneof(_) =>
        if s.chosen.Some? {
          ok := EncodeTaggedValue(stream, f, s.chosen.value);
        }
    }
  }

  // pb_encode.
  method Encode(stream: OStream, fields: seq<Field>, slots: seq<Slot>) returns (ok: bool)
    requires TypedSlots(fields, slots) && stream.Fits(0)
    requires stream.bytesWritten + |EncodedFirst(fields, slots, |fields|)| < SIZE
    modifies stream
    ensures stream.Appended(ok, EncodableSlots(fields, slots), EncodedFirst(fields, slots, |fields|))
    decreases fields, 3
  {
    hide EncodedSlot, TypedSlot, EncodableSlot;
    var iter := new FieldIter(fields);
    if |fields| == 0 {
      return true;
    }
    var more := true;
    ghost var n := 0;
    while more
      invariant iter.Valid() && iter.fields == fields && n <= |fields| && (more <==> n < |fields|)
      invariant (more ==> iter.pos == n)
      invariant stream.Fits(0) && stream.bytesWritten == old(stream.bytesWritten) + |EncodedFirst(fields, slots, n)|
      invariant stream.state == old(stream.state) + if stream.sizing then [] else EncodedFirst(fields, slots, n)
      invariant forall j :: 0 <= j < n ==> EncodableSlot(fields[j], slots[j])
      decreases |fields| - n
    {
      FirstGrows(fields, slots, n + 1, |fields|);
      ok := EncodeField(stream, fields[iter.pos], slots[iter.pos]);
      if !ok {
        return;
      }
      more := iter.Next();
      n := n + 1;
    }
    return true;
  }

  // pb_get_encoded_size.
  method GetEncodedSize(fields: seq<Field>, slots: seq<Slot>) returns (size: Option<nat>)
    requires TypedSlots(fields, slots) && |EncodedFirst(fields, slots, |fields|)| < SIZE
    ensures size == if EncodableSlots(fields, slots) then Some(|EncodedFirst(fields, slots, |fields|)|) else None
  {
    var stream := new OStream(true, [], 0);
    var ok := Encode(stream, fields, slots);
    size := if ok then Some(stream.bytesWritten) else None;
  }
}
