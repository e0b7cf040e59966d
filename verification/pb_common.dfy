// Message descriptors and messages (nanopb: pb.h, pb_common.c). Static fields only; pb_size_t has 32 bits.

module PbCommon {
  import opened Wrappers
  import opened Coding

  const SIZE_MAX: nat := U32 - 1
  const MAX_REQUIRED_FIELDS: nat := 64

  // ---- Descriptors ----

  datatype Width = W8 | W16 | W32 | W64
  {
    // 2 to the number of bits, halved.
    function Half(): nat {
      match this case W8 => 0x80 case W16 => 0x8000 case W32 => 0x8000_0000 case W64 => 0x8000_0000_0000_0000
    }

    predicate Signed(i: int) {
      var half: int := Half();
      -half <= i < half
    }

    predicate Unsigned(n: nat) { n < 2 * Half() }
  }

  // PB_LTYPE, with the data size where it matters. A string's size counts its terminator; the size of
  // bytes leaves out their count.
  datatype LType =
    | BoolType | VarintType(w: Width) | UvarintType(w: Width) | SvarintType(w: Width) | Fixed32Type | Fixed64Type
    | BytesType(max: nat) | StringType(max: nat) | SubmessageType(fields: seq<Field>) | FixedLengthType(size: nat)
  {
    predicate Packable() { BoolType? || VarintType? || UvarintType? || SvarintType? || Fixed32Type? || Fixed64Type? }
  }

  // PB_HTYPE. Singular is the optional field without a flag. The fields of one oneof share a group.
  datatype Rule = Required | Optional | Singular | Repeated(max: nat) | Oneof(group: nat)

  type Word32 = n: nat | n < U32

  datatype Field = Field(tag: Word32, ltype: LType, rule: Rule, preset: Option<Value>)

  // ---- Messages ----

  datatype Value = Bit(b: bool) | Int(i: int) | Word(n: nat) | Raw(bytes: Bytes) | Msg(slots: seq<Slot>)

  // A field's part of the structure: its value, with a flag, an array with its count, or the member of a
  // union that may be chosen.
  datatype Slot = Single(v: Value) | Maybe(has: bool, v: Value) | Many(vs: seq<Value>) | Choice(chosen: Option<Value>)

  // What the C types of the structure allow.
  ghost predicate Typed(t: LType, v: Value)
    decreases t, 1
  {
    match t
    case BoolType => v.Bit?
    case VarintType(w) => v.Int? && w.Signed(v.i)
    case UvarintType(w) => v.Word? && w.Unsigned(v.n)
    case SvarintType(w) => v.Int? && w.Signed(v.i)
    case Fixed32Type => v.Word? && v.n < U32
    case Fixed64Type => v.Word? && v.n < U64
    case BytesType(_) => v.Raw? && |v.bytes| <= SIZE_MAX
    case StringType(max) => v.Raw? && |v.bytes| <= max
    case SubmessageType(fields) => v.Msg? && TypedSlots(fields, v.slots)
    case FixedLengthType(size) => v.Raw? && |v.bytes| == size
  }

  ghost predicate TypedSlots(fields: seq<Field>, slots: seq<Slot>)
    decreases fields
  {
    |slots| == |fields| && forall i :: 0 <= i < |fields| ==> TypedSlot(fields[i], slots[i])
  }

  ghost predicate TypedSlot(f: Field, s: Slot)
    decreases f
  {
    match f.rule
    case Required => s.Single? && Typed(f.ltype, s.v)
    case Singular => s.Single? && Typed(f.ltype, s.v)
    case Optional => s.Maybe? && Typed(f.ltype, s.v)
    case Repeated(_) => s.Many? && |s.vs| <= SIZE_MAX && forall i :: 0 <= i < |s.vs| ==> Typed(f.ltype, s.vs[i])
    case Oneof(_) => s.Choice? && (s.chosen.Some? ==> Typed(f.ltype, s.chosen.value))
  }

  // ---- Defaults ----

  // pb_message_set_to_defaults, for a field's value.
  function Default(t: LType, preset: Option<Value>): Value
    decreases t, 1
  {
    match t
    case SubmessageType(fields) => Msg(Defaults(fields))
    case _ => if preset.Some? then preset.value else Zero(t)
  }

  function Zero(t: LType): Value {
    match t
    case BoolType => Bit(false)
    case VarintType(_) => Int(0)
    case SvarintType(_) => Int(0)
    case UvarintType(_) => Word(0)
    case Fixed32Type => Word(0)
    case Fixed64Type => Word(0)
    case BytesType(_) => Raw([])
    case StringType(_) => Raw([])
    case SubmessageType(_) => Msg([])
    case FixedLengthType(size) => Raw(Zeros(size))
  }

  function Defaults(fields: seq<Field>): (r: seq<Slot>)
    ensures |r| == |fields|
    decreases fields
  {
    if fields == [] then [] else [DefaultSlot(fields[0])] + Defaults(fields[1..])
  }

  function DefaultSlot(f: Field): Slot
    decreases f
  {
    match f.rule
    case Required => Single(Default(f.ltype, f.preset))
    case Singular => Single(Default(f.ltype, f.preset))
    case Optional => Maybe(false, Default(f.ltype, f.preset))
    case Repeated(_) => Many([])
    case Oneof(_) => Choice(None)
  }

  lemma {:induction false} DefaultsAt(fields: seq<Field>, i: nat)
    requires i < |fields|
    ensures Defaults(fields)[i] == DefaultSlot(fields[i])
  {
    if i == 0 {
    } else {
      DefaultsAt(fields[1..], i - 1);
    }
  }

  // ---- The field iterator ----

  // How many of the first i fields are required.
  function RequiredBefore(fields: seq<Field>, i: nat): (n: nat)
    requires i <= |fields|
    ensures n <= i
  {
    if i == 0 then 0 else RequiredBefore(fields, i - 1) + if fields[i - 1].rule.Required? then 1 else 0
  }

  // A position in the descriptor; it wraps round to the first field.
  class FieldIter {
    const fields: seq<Field>
    var pos: nat
    var requiredFieldIndex: nat

    constructor (fields: seq<Field>)
      ensures this.fields == fields && pos == 0 && Valid()
    {
      this.fields, pos, requiredFieldIndex := fields, 0, 0;
    }

    ghost predicate Valid()
      reads this
    {
      (pos < |fields| || pos == 0) && requiredFieldIndex == RequiredBefore(fields, pos)
    }

    method Next() returns (more: bool)
      requires Valid()
      modifies this
      ensures Valid() && more == (old(pos) + 1 < |fields|) && pos == if more then old(pos) + 1 else 0
    {
      if |fields| == 0 {
        return false;
      }
      if pos + 1 == |fields| {
        pos, requiredFieldIndex := 0, 0;
        return false;
      }
      if fields[pos].rule.Required? {
        requiredFieldIndex := requiredFieldIndex + 1;
      }
      pos := pos + 1;
      return true;
    }

    // Search from the current field all the way round.
    method Find(tag: nat) returns (found: bool)
      requires Valid()
      modifies this
      ensures Valid() && found == Search(fields, old(pos), tag).Some?
      ensures pos == if found then Search(fields, old(pos), tag).value else old(pos)
    {
      if |fields| == 0 {
        return false;
      }
      var start := pos;
      ghost var steps := 0;
      while true
        invariant Valid() && start < |fields| && steps < |fields| && pos == Wrapped(fields, start + steps)
        invariant Search(fields, start, tag) == SearchOn(fields, pos, tag, |fields| - steps)
        decreases |fields| - steps
      {
        if fields[pos].tag == tag {
          return true;
        }
        var _ := Next();
        steps := steps + 1;
        if pos == start {
          return false;
        }
      }
    }
  }

  function Wrapped(fields: seq<Field>, p: nat): nat { if p < |fields| then p else p - |fields| }

  // The place of a tag, searched for from a place on and round.
  function Search(fields: seq<Field>, from: nat, tag: nat): (r: Option<nat>)
    requires from < |fields| || from == 0
    ensures r.Some? ==> r.value < |fields| && fields[r.value].tag == tag
  {
    SearchOn(fields, from, tag, |fields|)
  }

  function SearchOn(fields: seq<Field>, at: nat, tag: nat, left: nat): (r: Option<nat>)
    requires left > 0 ==> at < |fields|
    ensures r.Some? ==> r.value < |fields| && fields[r.value].tag == tag
    decreases left
  {
    if left == 0 then None
    else if fields[at].tag == tag then Some(at)
    else SearchOn(fields, Wrapped(fields, at + 1), tag, left - 1)
  }

  ghost predicate DistinctTags(fields: seq<Field>) {
    forall i, j :: 0 <= i < j < |fields| ==> fields[i].tag != fields[j].tag
  }

  // With distinct tags, where the search starts does not matter.
  lemma SearchFinds(fields: seq<Field>, from: nat, i: nat)
    requires DistinctTags(fields) && i < |fields| && from < |fields|
    ensures Search(fields, from, fields[i].tag) == Some(i)
  {
    Reached(fields, from, i, |fields|);
  }

  lemma {:induction false} Reached(fields: seq<Field>, at: nat, i: nat, left: nat)
    requires DistinctTags(fields) && i < |fields| && at < |fields|
    requires at <= i < at + left || i + |fields| < at + left
    ensures SearchOn(fields, at, fields[i].tag, left) == Some(i)
    decreases left
  {
    if fields[at].tag != fields[i].tag { Reached(fields, Wrapped(fields, at + 1), i, left - 1); }
  }
}
