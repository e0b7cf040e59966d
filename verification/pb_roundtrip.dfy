// Decoding undoes encoding, up to the defaults of what was not sent.

module PbRoundTrip {
  import opened Wrappers
  import opened Coding
  import opened PbCommon
  import opened PbEncode
  import opened PbDecode

  // ---- What can be sent and what arrives ----

  // Descriptors: distinct tags of at most 29 bits, all the way down.
  ghost predicate Described(fields: seq<Field>)
    decreases fields
  {
    DistinctTags(fields) && forall i :: 0 <= i < |fields| ==> DescribedField(fields[i])
  }

  ghost predicate DescribedField(f: Field)
    decreases f
  {
    0 < f.tag < 0x2000_0000 && (f.ltype.SubmessageType? ==> Described(f.ltype.fields))
  }

  // Strings end in their buffers, and of each union at most one member is chosen.
  ghost predicate Sendable(t: LType, v: Value)
    decreases t, 1
  {
    match t
    case BytesType(max) => v.Raw? && |v.bytes| <= max
    case StringType(max) => v.Raw? && |Text(v.bytes)| < max
    case SubmessageType(fields) => v.Msg? && |v.slots| == |fields| && SendableSlots(fields, v.slots)
    case _ => true
  }

  ghost predicate SendableSlots(fields: seq<Field>, slots: seq<Slot>)
    requires |slots| == |fields|
    decreases fields
  {
    && (forall i :: 0 <= i < |fields| ==> SendableSlot(fields[i], slots[i]))
    && OneChosen(fields, slots)
  }

  ghost predicate OneChosen(fields: seq<Field>, slots: seq<Slot>)
    requires |slots| == |fields|
  {
    forall i, j :: 0 <= i < j < |fields| && fields[i].rule.Oneof? && fields[j].rule == fields[i].rule ==>
      !Taken(slots[i]) || !Taken(slots[j])
  }

  predicate Taken(s: Slot) { s.Choice? && s.chosen.Some? }

  ghost predicate SendableSlot(f: Field, s: Slot)
    decreases f
  {
    match f.rule
    case Required => s.Single? && Sendable(f.ltype, s.v)
    case Singular => s.Single? && (ZeroValue(f.ltype, s.v) || Sendable(f.ltype, s.v))
    case Optional => s.Maybe? && (s.has ==> Sendable(f.ltype, s.v))
    case Repeated(max) => s.Many? && |s.vs| <= max && forall i :: 0 <= i < |s.vs| ==> Sendable(f.ltype, s.vs[i])
    case Oneof(_) => s.Choice? && (s.chosen.Some? ==> Sendable(f.ltype, s.chosen.value))
  }

  function Received(t: LType, v: Value): Value
    decreases t, 1
  {
    match t
    case StringType(_) => if v.Raw? then Raw(Text(v.bytes)) else v
    case SubmessageType(fields) => if v.Msg? && |v.slots| == |fields| then Msg(ReceivedSlots(fields, v.slots)) else v
    case _ => v
  }

  function ReceivedAll(t: LType, vs: seq<Value>, n: nat): (r: seq<Value>)
    requires n <= |vs|
    ensures |r| == n
    decreases t, 2, n
  {
    if n == 0 then [] else ReceivedAll(t, vs, n - 1) + [Received(t, vs[n - 1])]
  }

  function ReceivedSlots(fields: seq<Field>, slots: seq<Slot>): (r: seq<Slot>)
    requires |slots| == |fields|
    ensures |r| == |fields|
    decreases fields
  {
    if fields == [] then [] else [ReceivedSlot(fields[0], slots[0])] + ReceivedSlots(fields[1..], slots[1..])
  }

  function ReceivedSlot(f: Field, s: Slot): Slot
    decreases f
  {
    match s
    case Single(v) => if f.rule.Singular? && ZeroValue(f.ltype, v) then DefaultSlot(f) else Single(Received(f.ltype, v))
    case Maybe(has, v) => if !has then DefaultSlot(f) else Maybe(true, Received(f.ltype, v))
    case Many(vs) => Many(ReceivedAll(f.ltype, vs, |vs|))
    case Choice(chosen) => if chosen.None? then DefaultSlot(f) else Choice(Some(Received(f.ltype, chosen.value)))
  }

  lemma {:induction false} ReceivedAt(fields: seq<Field>, slots: seq<Slot>, i: nat)
    requires |slots| == |fields| && i < |fields|
    ensures ReceivedSlots(fields, slots)[i] == ReceivedSlot(fields[i], slots[i])
    decreases i
  {
    if i == 0 {
    } else {
      ReceivedAt(fields[1..], slots[1..], i - 1);
    }
  }

  // ---- Scalars ----

  lemma SignedBack(w: Width, i: int)
    requires w.Signed(i)
    ensures IntOf(w, Unsigned64(i)) == Some(Int(i)) && ZigZagOf(w, ZigZag(i)) == Some(Int(i))
  {
    assert W64.Signed(i);
    assert w == W64 || W32.Signed(i);
    CastBack(W64, i);
    if !w.W64? {
      Narrowed(i);
      CastBack(W32, i);
      CastBack(w, i);
    }
    var n := ZigZag(i);
    if i >= 0 {
      CastBack(W64, i);
      assert n % 2 == 0 && n / 2 == i;
    } else {
      assert n % 2 == 1 && U64 - 1 - n / 2 == i + U64;
      CastBack(W64, i);
      assert (i + U64) % U64 == i % U64;
    }
  }

  lemma CastBack(w: Width, i: int)
    requires w.Signed(i)
    ensures Signed(w, i) == i && Signed(w, i % (2 * w.Half())) == i
  {
    var m := 2 * w.Half();
    var r := if i >= 0 then i else i + m;
    ModUnique(i, m, if i >= 0 then 0 else -1, r);
    ModUnique(r, m, 0, r);
  }

  // Reducing by 2 to the 64 first does not matter.
  lemma Narrowed(i: int)
    requires W32.Signed(i)
    ensures Signed(W32, i % U64) == i
  {
    assert i % U64 == if i >= 0 then i else i + U64;
  }

  lemma ReadStringBack(s: Bytes, rest: Bytes)
    requires |s| < U32
    ensures ReadString(LengthPrefixed(s) + rest) == Some((s, rest))
  {
    hide Varint, ReadVarint32;
    assert LengthPrefixed(s) + rest == Varint(|s|) + (s + rest);
    ReadVarint32Back(|s|, s + rest);
  }

  lemma ReadTagBack(wireType: nat, tag: nat, rest: Bytes)
    requires wireType < 8 && 0 < tag < 0x2000_0000
    ensures ReadTag(Tag(wireType, tag) + rest) == Got(wireType, tag, rest)
  {
    hide Varint, ReadVarint32;
    ReadVarint32Back(8 * tag + wireType, rest);
  }

  // ---- One value ----

  lemma ScalarBack(t: LType, v: Value, base: Value, rest: Bytes)
    requires Typed(t, v) && t.Packable()
    ensures DecodedValue(t, EncodedValue(t, v) + rest, base) == Some((v, rest))
  {
    hide Varint, ReadVarint32, GetVarint64, Fixed, DecodeFixed, IntOf, ZigZagOf, ZigZag, Unsigned64;
    match t {
      case BoolType => ReadVarint32Back(if v.b then 1 else 0, rest);
      case VarintType(w) =>
        SignedBack(w, v.i);
        Varint64RoundTrip(Unsigned64(v.i), rest);
      case UvarintType(w) => Varint64RoundTrip(v.n, rest);
      case SvarintType(w) =>
        SignedBack(w, v.i);
        Varint64RoundTrip(ZigZag(v.i), rest);
      case Fixed32Type => FixedBack(v.n, 4, rest);
      case Fixed64Type => FixedBack(v.n, 8, rest);
    }
  }

  lemma FixedBack(n: nat, width: nat, rest: Bytes)
    requires (width == 4 && n < U32) || (width == 8 && n < U64)
    ensures DecodeFixed((Fixed(n, width) + rest)[..width]) == n && (Fixed(n, width) + rest)[width..] == rest
  {
    hide Fixed, DecodeFixed;
    assert Power(256, 4) == 256 * (256 * (256 * 256));
    assert Power(256, 8) == 256 * (256 * (256 * (256 * Power(256, 4))));
    FixedRoundTrip(n, width);
    assert (Fixed(n, width) + rest)[..width] == Fixed(n, width);
  }

  // Over the default of its type, a value sent is a value received.
  lemma {:induction false} ValueBack(t: LType, v: Value, base: Value, rest: Bytes)
    requires Typed(t, v) && Sendable(t, v) && |EncodedValue(t, v)| < U32
    requires t.SubmessageType? ==> Described(t.fields) && base == Msg(Defaults(t.fields))
    ensures DecodedValue(t, EncodedValue(t, v) + rest, base) == Some((Received(t, v), rest))
    decreases t, 1
  {
    if t.Packable() {
      ScalarBack(t, v, base, rest);
    } else {
      match t {
        case BytesType(_) => ReadStringBack(v.bytes, rest);
        case StringType(_) => ReadStringBack(Text(v.bytes), rest);
        case FixedLengthType(size) => FixedLengthBack(v.bytes, rest);
        case SubmessageType(fields) =>
          var body := EncodedFirst(fields, v.slots, |fields|);
          ReadStringBack(body, rest);
          MessageBack(fields, v.slots);
      }
    }
  }

  lemma FixedLengthBack(bytes: Bytes, rest: Bytes)
    requires |bytes| < U32
    ensures FixedLength(LengthPrefixed(bytes) + rest, |bytes|) == Some((Raw(bytes), rest))
  {
    hide Varint, ReadVarint32;
    assert LengthPrefixed(bytes) + rest == Varint(|bytes|) + (bytes + rest);
    ReadVarint32Back(|bytes|, bytes + rest);
    if bytes == [] { assert bytes + rest == rest; }
  }

  // ---- One field ----

  // A tag and what is decoded after it.
  lemma FieldRead(fields: seq<Field>, p: Progress, i: nat, wireType: nat, rest: Bytes)
    requires Described(fields) && p.Valid(fields) && i < |fields| && wireType < 8
    requires DecodedSlot(fields[i], wireType, rest, p.slots[i]).Some?
    ensures var d := DecodedSlot(fields[i], wireType, rest, p.slots[i]).value;
            DecodedFrom(fields, Tag(wireType, fields[i].tag) + rest, p) ==
              DecodedFrom(fields, d.1, Advance(fields, p, i, d.0))
  {
    hide Tag, ReadTag, Advance, DecodedSlot, Search;
    ReadTagBack(wireType, fields[i].tag, rest);
    SearchFinds(fields, p.pos, i);
  }

  lemma SingleBack(fields: seq<Field>, p: Progress, i: nat, v: Value, rest: Bytes)
    requires Described(fields) && p.Valid(fields) && i < |fields| && !fields[i].rule.Repeated?
    requires p.slots[i] == DefaultSlot(fields[i])
    requires var f := fields[i]; Typed(f.ltype, v) && Sendable(f.ltype, v) && |EncodedValue(f.ltype, v)| < U32
    ensures var f := fields[i];
            DecodedFrom(fields, Tag(WireType(f.ltype), f.tag) + EncodedValue(f.ltype, v) + rest, p)
            == DecodedFrom(fields, rest, Advance(fields, p, i, Whole(f, Received(f.ltype, v))))
    decreases fields[i].ltype, 2
  {
    hide Tag, DecodedFrom, Advance, DecodedValue, EncodedValue, Received, Typed, Sendable;
    var f := fields[i];
    var base := Base(f, p.slots[i]);
    DefaultOf(f);
    assert DescribedField(f);
    ValueBack(f.ltype, v, base, rest);
    var body := EncodedValue(f.ltype, v) + rest;
    assert Tag(WireType(f.ltype), f.tag) + EncodedValue(f.ltype, v) + rest == Tag(WireType(f.ltype), f.tag) + body;
    FieldRead(fields, p, i, WireType(f.ltype), body);
  }

  lemma DefaultOf(f: Field)
    ensures f.ltype.SubmessageType? ==>
      Base(f, DefaultSlot(f)) == Msg(Defaults(f.ltype.fields)) == Default(f.ltype, f.preset)
  {
  }

  // A field's slot with a value in it.
  function Whole(f: Field, v: Value): Slot {
    match f.rule
    case Required => Single(v)
    case Singular => Single(v)
    case Optional => Maybe(true, v)
    case Oneof(_) => Choice(Some(v))
    case Repeated(_) => Many([v])
  }

  lemma {:induction false} PackedBack(t: LType, vs: seq<Value>, n: nat, rest: Bytes, max: nat, acc: seq<Value>)
    requires t.Packable() && (forall i :: 0 <= i < |vs| ==> Typed(t, vs[i])) && n <= |vs| && |acc| + n <= max
    ensures DecodedPacked(t, Items(t, vs, n) + rest, acc, max) == DecodedPacked(t, rest, acc + vs[..n], max)
    decreases n
  {
    hide DecodedValue, EncodedValue, Typed;
    if n == 0 {
      assert [] + rest == rest && acc + vs[..0] == acc;
    } else {
      var last := EncodedValue(t, vs[n - 1]);
      assert Items(t, vs, n) + rest == Items(t, vs, n - 1) + (last + rest);
      PackedBack(t, vs, n - 1, last + rest, max, acc);
      ScalarBack(t, vs[n - 1], Zero(t), rest);
      assert acc + vs[..n] == acc + vs[..n - 1] + [vs[n - 1]];
    }
  }

  lemma {:induction false} ScalarsReceived(t: LType, vs: seq<Value>, n: nat)
    requires t.Packable() && n <= |vs|
    ensures ReceivedAll(t, vs, n) == vs[..n]
    decreases n
  {
    if n == 0 {
    } else {
      ScalarsReceived(t, vs, n - 1);
      assert vs[..n] == vs[..n - 1] + [vs[n - 1]];
    }
  }

  lemma PackedSlotBack(f: Field, vs: seq<Value>, rest: Bytes)
    requires f.rule.Repeated? && f.ltype.Packable() && |vs| <= f.rule.max
    requires (forall i :: 0 <= i < |vs| ==> Typed(f.ltype, vs[i]))
    requires |Items(f.ltype, vs, |vs|)| < U32
    ensures DecodedSlot(f, WT_STRING, LengthPrefixed(Items(f.ltype, vs, |vs|)) + rest, Many([]))
            == Some((Many(ReceivedAll(f.ltype, vs, |vs|)), rest))
  {
    hide DecodedValue, Typed, LengthPrefixed, ReadString;
    var items := Items(f.ltype, vs, |vs|);
    ReadStringBack(items, rest);
    PackedBack(f.ltype, vs, |vs|, [], f.rule.max, []);
    assert items + [] == items && [] + vs[..|vs|] == vs;
    assert DecodedPacked(f.ltype, [], vs, f.rule.max) == Some(vs);
    assert DecodedPacked(f.ltype, items, [], f.rule.max) == Some(vs);
    ScalarsReceived(f.ltype, vs, |vs|);
    assert vs[..|vs|] == vs;
  }

  // Filling a repeated field step by step is filling it at once.
  lemma AdvanceTwice(fields: seq<Field>, p: Progress, i: nat, s: Slot, t: Slot)
    requires p.Valid(fields) && i < |fields| && fields[i].rule.Repeated?
    ensures Advance(fields, Advance(fields, p, i, s), i, t) == Advance(fields, p, i, t)
    ensures Advance(fields, p, i, s).slots[i] == s
  {
  }

  function Filling(fields: seq<Field>, p: Progress, i: nat, vs: seq<Value>, n: nat): (r: Progress)
    requires p.Valid(fields) && i < |fields| && n <= |vs|
    ensures r.Valid(fields)
  {
    if n == 0 then p else Advance(fields, p, i, Many(ReceivedAll(fields[i].ltype, vs, n)))
  }

  // The values of an array that cannot be packed.
  lemma {:induction false} TaggedBack(fields: seq<Field>, p: Progress, i: nat, vs: seq<Value>, n: nat, rest: Bytes)
    requires Described(fields) && p.Valid(fields) && i < |fields| && p.slots[i] == Many([]) && n <= |vs|
    requires var f := fields[i];
             && f.rule.Repeated? && !f.ltype.Packable() && |vs| <= f.rule.max
             && (forall k :: 0 <= k < |vs| ==> Typed(f.ltype, vs[k]) && Sendable(f.ltype, vs[k]))
             && |Tagged(f.tag, f.ltype, vs, n)| < U32
    ensures DecodedFrom(fields, Tagged(fields[i].tag, fields[i].ltype, vs, n) + rest, p)
            == DecodedFrom(fields, rest, Filling(fields, p, i, vs, n))
    decreases fields[i].ltype, 2, n
  {
    hide Tag, DecodedFrom, DecodedValue, EncodedValue, Received, Typed, Sendable, Placed;
    if n == 0 {
      assert [] + rest == rest;
    } else {
      var f, v := fields[i], vs[n - 1];
      var body := EncodedValue(f.ltype, v) + rest;
      var whole := Tag(WireType(f.ltype), f.tag) + body;
      assert Tagged(f.tag, f.ltype, vs, n) + rest == Tagged(f.tag, f.ltype, vs, n - 1) + whole;
      TaggedBack(fields, p, i, vs, n - 1, whole);
      var q := Filling(fields, p, i, vs, n - 1);
      var acc := ReceivedAll(f.ltype, vs, n - 1);
      AdvanceTwice(fields, p, i, Many(acc), Many(acc + [Received(f.ltype, v)]));
      assert q.slots[i] == Many(acc);
      assert DescribedField(f);
      DefaultOf(f);
      ValueBack(f.ltype, v, Default(f.ltype, f.preset), rest);
      FieldRead(fields, q, i, WireType(f.ltype), body);
    }
  }

  predicate Sent(f: Field, s: Slot) {
    match f.rule
    case Required => true
    case Singular => s.Single? && !ZeroValue(f.ltype, s.v)
    case Optional => s.Maybe? && s.has
    case Repeated(_) => s.Many? && s.vs != []
    case Oneof(_) => Taken(s)
  }

  // What a field that is not sent leaves is its default.
  function Stepped(fields: seq<Field>, p: Progress, i: nat, s: Slot): (r: Progress)
    requires p.Valid(fields) && i < |fields|
    ensures r.Valid(fields)
  {
    if Sent(fields[i], s) then Advance(fields, p, i, ReceivedSlot(fields[i], s)) else p
  }

  lemma SlotBack(fields: seq<Field>, p: Progress, i: nat, s: Slot, rest: Bytes)
    requires Described(fields) && p.Valid(fields) && i < |fields| && p.slots[i] == DefaultSlot(fields[i])
    requires TypedSlot(fields[i], s) && SendableSlot(fields[i], s) && |EncodedSlot(fields[i], s)| < U32
    ensures DecodedFrom(fields, EncodedSlot(fields[i], s) + rest, p) ==
      DecodedFrom(fields, rest, Stepped(fields, p, i, s))
    decreases fields[i]
  {
    hide Tag, DecodedFrom, Advance, DecodedValue, EncodedValue, Received, Typed, Sendable, DecodedSlot, LengthPrefixed,
         ZeroValue, Items;
    var f := fields[i];
    if !Sent(f, s) {
      assert [] + rest == rest;
    } else {
      match f.rule {
        case Required => SingleBack(fields, p, i, s.v, rest);
        case Singular => SingleBack(fields, p, i, s.v, rest);
        case Optional => SingleBack(fields, p, i, s.v, rest);
        case Oneof(_) => SingleBack(fields, p, i, s.chosen.value, rest);
        case Repeated(_) => ArrayBack(fields, p, i, s.vs, rest);
      }
    }
  }

  lemma ArrayBack(fields: seq<Field>, p: Progress, i: nat, vs: seq<Value>, rest: Bytes)
    requires Described(fields) && p.Valid(fields) && i < |fields| && p.slots[i] == Many([]) && fields[i].rule.Repeated?
    requires vs != []
    requires TypedSlot(fields[i], Many(vs)) && SendableSlot(fields[i], Many(vs))
    requires |EncodedSlot(fields[i], Many(vs))| < U32
    ensures DecodedFrom(fields, EncodedSlot(fields[i], Many(vs)) + rest, p)
            == DecodedFrom(fields, rest, Advance(fields, p, i, Many(ReceivedAll(fields[i].ltype, vs, |vs|))))
    decreases fields[i].ltype, 3
  {
    hide Tag, DecodedFrom, Advance, DecodedValue, EncodedValue, Received, Typed, Sendable, DecodedSlot, Varint;
    var f := fields[i];
    if f.ltype.Packable() {
      var items := Items(f.ltype, vs, |vs|);
      PackedSlotBack(f, vs, rest);
      assert Tag(WT_STRING, f.tag) + LengthPrefixed(items) + rest ==
        Tag(WT_STRING, f.tag) + (LengthPrefixed(items) + rest);
      FieldRead(fields, p, i, WT_STRING, LengthPrefixed(items) + rest);
    } else {
      TaggedBack(fields, p, i, vs, |vs|, rest);
    }
  }

  // ---- A message ----

  function Start(fields: seq<Field>): (p: Progress)
    ensures p.Valid(fields)
  {
    Progress(Defaults(fields), 0, {})
  }

  // The progress after the first n fields.
  function Through(fields: seq<Field>, slots: seq<Slot>, n: nat): (p: Progress)
    requires |slots| == |fields| && n <= |fields|
    ensures p.Valid(fields)
  {
    if n == 0 then Start(fields) else Stepped(fields, Through(fields, slots, n - 1), n - 1, slots[n - 1])
  }

  lemma {:induction false} ThroughSlots(fields: seq<Field>, slots: seq<Slot>, n: nat)
    requires TypedSlots(fields, slots) && OneChosen(fields, slots) && n <= |fields|
    ensures forall j :: 0 <= j < |fields| ==>
      Through(fields, slots, n).slots[j] == if j < n then ReceivedSlot(fields[j], slots[j]) else DefaultSlot(fields[j])
    decreases n
  {
    hide ReceivedSlot, DefaultSlot, Typed;
    if n == 0 {
      forall j | 0 <= j < |fields| ensures Start(fields).slots[j] == DefaultSlot(fields[j]) { DefaultsAt(fields, j); }
    } else {
      ThroughSlots(fields, slots, n - 1);
      forall j | 0 <= j < |fields| ensures Through(fields, slots, n).slots[j] ==
        if j < n then ReceivedSlot(fields[j], slots[j]) else DefaultSlot(fields[j])
      {
        SlotStep(fields, slots, n - 1, j);
      }
    }
  }

  lemma SlotStep(fields: seq<Field>, slots: seq<Slot>, i: nat, j: nat)
    requires TypedSlots(fields, slots) && OneChosen(fields, slots) && i < |fields| && j < |fields|
    requires Through(fields, slots, i).slots[j] == if j < i then ReceivedSlot(fields[j], slots[j])
      else DefaultSlot(fields[j])
    ensures Through(fields, slots, i + 1).slots[j] == if j <= i then ReceivedSlot(fields[j], slots[j])
      else DefaultSlot(fields[j])
  {
    hide Through, Typed, Received, Default;
    var p := Through(fields, slots, i);
    assert TypedSlot(fields[i], slots[i]) && TypedSlot(fields[j], slots[j]);
    assert Through(fields, slots, i + 1) == Stepped(fields, p, i, slots[i]) by { ThroughNext(fields, slots, i); }
  }

  lemma ThroughNext(fields: seq<Field>, slots: seq<Slot>, i: nat)
    requires |slots| == |fields| && i < |fields|
    ensures Through(fields, slots, i + 1) == Stepped(fields, Through(fields, slots, i), i, slots[i])
  {
    hide Stepped;
  }

  lemma {:induction false} ThroughSeen(fields: seq<Field>, slots: seq<Slot>, n: nat)
    requires |slots| == |fields| && n <= |fields|
    ensures forall r :: 0 <= r < RequiredBefore(fields, n) && r < MAX_REQUIRED_FIELDS ==>
      r in Through(fields, slots, n).seen
    decreases n
  {
    hide ReceivedSlot, Placed;
    if n == 0 {
    } else {
      ThroughSeen(fields, slots, n - 1);
    }
  }

  lemma {:induction false} FirstBack(fields: seq<Field>, slots: seq<Slot>, n: nat, rest: Bytes)
    requires Described(fields) && TypedSlots(fields, slots) && SendableSlots(fields, slots) && n <= |fields|
    requires |EncodedFirst(fields, slots, n)| < U32
    ensures DecodedFrom(fields, EncodedFirst(fields, slots, n) + rest, Start(fields)) ==
      DecodedFrom(fields, rest, Through(fields, slots, n))
    decreases fields, n
  {
    hide DecodedFrom, EncodedSlot, TypedSlot, SendableSlot, Stepped, DefaultSlot, ReceivedSlot;
    if n == 0 {
      assert [] + rest == rest;
    } else {
      var last := EncodedSlot(fields[n - 1], slots[n - 1]);
      assert EncodedFirst(fields, slots, n) + rest == EncodedFirst(fields, slots, n - 1) + (last + rest);
      FirstBack(fields, slots, n - 1, last + rest);
      ThroughSlots(fields, slots, n - 1);
      SlotBack(fields, Through(fields, slots, n - 1), n - 1, slots[n - 1], rest);
    }
  }

  // Decoding undoes encoding.
  lemma MessageBack(fields: seq<Field>, slots: seq<Slot>)
    requires Described(fields) && TypedSlots(fields, slots) && SendableSlots(fields, slots)
    requires |EncodedFirst(fields, slots, |fields|)| < U32
    ensures DecodedMsg(fields, EncodedFirst(fields, slots, |fields|), Defaults(fields)) ==
      Some(ReceivedSlots(fields, slots))
    decreases fields, |fields| + 1
  {
    hide EncodedSlot, TypedSlot, SendableSlot, Stepped, DefaultSlot, ReceivedSlot;
    var n, all := |fields|, EncodedFirst(fields, slots, |fields|);
    FirstBack(fields, slots, n, []);
    assert all + [] == all;
    ThroughSlots(fields, slots, n);
    ThroughSeen(fields, slots, n);
    var p := Through(fields, slots, n);
    assert DecodedFrom(fields, [], p) == Some(p.slots);
    forall j | 0 <= j < n ensures p.slots[j] == ReceivedSlots(fields, slots)[j] { ReceivedAt(fields, slots, j); }
    assert p.slots == ReceivedSlots(fields, slots);
  }

  // ---- Fields the reader does not know ----

  lemma {:induction false} SkipVarintBack(v: nat, rest: Bytes)
    ensures SkipVarint(Varint(v) + rest) == Some(rest)
  {
    var s := Varint(v) + rest;
    if v < 128 {
      assert s[1..] == rest;
    } else {
      assert s[1..] == Varint(v / 128) + rest;
      SkipVarintBack(v / 128, rest);
    }
  }

  lemma SkipStringBack(s: Bytes, rest: Bytes)
    requires |s| < U32
    ensures SkipField(LengthPrefixed(s) + rest, WT_STRING) == Some(rest)
  {
    hide Varint, ReadVarint32, SkipVarint;
    assert LengthPrefixed(s) + rest == Varint(|s|) + (s + rest);
    ReadVarint32Back(|s|, s + rest);
    assert (s + rest)[|s|..] == rest;
  }

  lemma SkipValue(t: LType, v: Value, rest: Bytes)
    requires Typed(t, v) && |EncodedValue(t, v)| < U32
    ensures SkipField(EncodedValue(t, v) + rest, WireType(t)) == Some(rest)
  {
    hide Varint, ReadVarint32, SkipVarint, Fixed, Unsigned64, ZigZag;
    match t {
      case BoolType => SkipVarintBack(if v.b then 1 else 0, rest);
      case VarintType(_) => SkipVarintBack(Unsigned64(v.i), rest);
      case UvarintType(_) => SkipVarintBack(v.n, rest);
      case SvarintType(_) => SkipVarintBack(ZigZag(v.i), rest);
      case Fixed32Type => assert (Fixed(v.n, 4) + rest)[4..] == rest;
      case Fixed64Type => assert (Fixed(v.n, 8) + rest)[8..] == rest;
      case BytesType(_) => SkipStringBack(v.bytes, rest);
      case StringType(_) => SkipStringBack(Text(v.bytes), rest);
      case FixedLengthType(_) => SkipStringBack(v.bytes, rest);
      case SubmessageType(fields) => SkipStringBack(EncodedFirst(fields, v.slots, |fields|), rest);
    }
  }

  predicate Unknown(fields: seq<Field>, tag: nat) { forall i :: 0 <= i < |fields| ==> fields[i].tag != tag }

  lemma {:induction false} UnknownNotFound(fields: seq<Field>, at: nat, tag: nat, left: nat)
    requires Unknown(fields, tag) && (left > 0 ==> at < |fields|)
    ensures SearchOn(fields, at, tag, left) == None
    decreases left
  {
    if left == 0 {
    } else {
      UnknownNotFound(fields, Wrapped(fields, at + 1), tag, left - 1);
    }
  }

  lemma UnknownRead(fields: seq<Field>, p: Progress, wireType: nat, tag: Word32, body: Bytes, rest: Bytes)
    requires p.Valid(fields) && Unknown(fields, tag) && wireType < 8 && 0 < tag < 0x2000_0000
    requires SkipField(body, wireType) == Some(rest)
    ensures DecodedFrom(fields, Tag(wireType, tag) + body, p) == DecodedFrom(fields, rest, p)
  {
    hide Tag, ReadTag, SkipField, DecodedSlot;
    ReadTagBack(wireType, tag, body);
    UnknownNotFound(fields, p.pos, tag, |fields|);
  }

  lemma {:induction false} UnknownTagged(fields: seq<Field>, p: Progress, f: Field, vs: seq<Value>, n: nat, rest: Bytes)
    requires p.Valid(fields) && Unknown(fields, f.tag) && 0 < f.tag < 0x2000_0000 && n <= |vs|
    requires (forall i :: 0 <= i < |vs| ==> Typed(f.ltype, vs[i])) && |Tagged(f.tag, f.ltype, vs, n)| < U32
    ensures DecodedFrom(fields, Tagged(f.tag, f.ltype, vs, n) + rest, p) == DecodedFrom(fields, rest, p)
    decreases n
  {
    hide Tag, DecodedFrom, EncodedValue, Typed, SkipField;
    if n == 0 {
      assert [] + rest == rest;
    } else {
      var body := EncodedValue(f.ltype, vs[n - 1]) + rest;
      var whole := Tag(WireType(f.ltype), f.tag) + body;
      assert Tagged(f.tag, f.ltype, vs, n) + rest == Tagged(f.tag, f.ltype, vs, n - 1) + whole;
      UnknownTagged(fields, p, f, vs, n - 1, whole);
      SkipValue(f.ltype, vs[n - 1], rest);
      UnknownRead(fields, p, WireType(f.ltype), f.tag, body, rest);
    }
  }

  lemma UnknownValue(fields: seq<Field>, p: Progress, f: Field, v: Value, rest: Bytes)
    requires p.Valid(fields) && Unknown(fields, f.tag) && 0 < f.tag < 0x2000_0000 && Typed(f.ltype, v)
    requires |EncodedValue(f.ltype, v)| < U32
    ensures DecodedFrom(fields, Tag(WireType(f.ltype), f.tag) + EncodedValue(f.ltype, v) + rest, p) ==
      DecodedFrom(fields, rest, p)
  {
    hide Tag, DecodedFrom, EncodedValue, Typed, SkipField;
    SkipValue(f.ltype, v, rest);
    var body := EncodedValue(f.ltype, v) + rest;
    assert Tag(WireType(f.ltype), f.tag) + EncodedValue(f.ltype, v) + rest == Tag(WireType(f.ltype), f.tag) + body;
    UnknownRead(fields, p, WireType(f.ltype), f.tag, body, rest);
  }

  // Wherever it stands, what was sent for a field the reader lacks changes nothing.
  lemma UnknownSkipped(fields: seq<Field>, p: Progress, f: Field, s: Slot, rest: Bytes)
    requires p.Valid(fields) && Unknown(fields, f.tag) && 0 < f.tag < 0x2000_0000
    requires TypedSlot(f, s) && |EncodedSlot(f, s)| < U32
    ensures DecodedFrom(fields, EncodedSlot(f, s) + rest, p) == DecodedFrom(fields, rest, p)
  {
    hide Tag, DecodedFrom, EncodedValue, Typed, SkipField, LengthPrefixed, Items, Tagged, ZeroValue;
    assert [] + rest == rest;
    match f.rule {
      case Required => UnknownValue(fields, p, f, s.v, rest);
      case Singular => if !ZeroValue(f.ltype, s.v) { UnknownValue(fields, p, f, s.v, rest); }
      case Optional => if s.has { UnknownValue(fields, p, f, s.v, rest); }
      case Oneof(_) => if s.chosen.Some? { UnknownValue(fields, p, f, s.chosen.value, rest); }
      case Repeated(_) =>
        if s.vs != [] && f.ltype.Packable() {
          var items := Items(f.ltype, s.vs, |s.vs|);
          assert |LengthPrefixed(items)| >= |items| by { PrefixedLonger(items); }
          SkipStringBack(items, rest);
          assert Tag(WT_STRING, f.tag) + LengthPrefixed(items) + rest ==
            Tag(WT_STRING, f.tag) + (LengthPrefixed(items) + rest);
          UnknownRead(fields, p, WT_STRING, f.tag, LengthPrefixed(items) + rest, rest);
        } else if s.vs != [] {
          UnknownTagged(fields, p, f, s.vs, |s.vs|, rest);
        }
    }
  }

  lemma PrefixedLonger(s: Bytes)
    ensures |LengthPrefixed(s)| >= |s|
  {
  }
}
