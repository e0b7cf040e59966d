// The record of one change to the set of files, as stored in the manifest (db/version_edit.cc).

module VersionEdits {
  import opened Wrappers
  import opened Coding
  import DbFormat

  // A deleted file: its level and number.
  datatype Deleted = Deleted(level: nat, number: nat)

  datatype Edit = Edit(comparator: Option<seq<Byte>>, logNumber: Option<nat>, prevLogNumber: Option<nat>,
                       nextFileNumber: Option<nat>, lastSequence: Option<nat>, compactPointers: seq<(nat, seq<Byte>)>,
                       deletedFiles: seq<Deleted>, newFiles: seq<NewFile>)

  datatype NewFile = NewFile(level: nat, number: nat, size: nat, smallest: seq<Byte>, largest: seq<Byte>)

  // One tagged field of the encoding.
  datatype Field =
    | Comparator(name: seq<Byte>)
    | LogNumber(n: nat)
    | NextFileNumber(n: nat)
    | LastSequence(n: nat)
    | CompactPointer(level: nat, key: seq<Byte>)
    | DeletedFile(file: Deleted)
    | AddedFile(added: NewFile)
    | PrevLogNumber(n: nat)
  {
    ghost predicate Fits() {
      match this
      case Comparator(name) => |name| < U32
      case LogNumber(n) => n < U64
      case NextFileNumber(n) => n < U64
      case LastSequence(n) => n < U64
      case CompactPointer(level, key) => level < DbFormat.NUM_LEVELS && |key| < U32
      case DeletedFile(f) => f.level < DbFormat.NUM_LEVELS && f.number < U64
      case AddedFile(f) =>
        f.level < DbFormat.NUM_LEVELS && f.number < U64 && f.size < U64 && |f.smallest| < U32 && |f.largest| < U32
      case PrevLogNumber(n) => n < U64
    }
  }

  function EncodeField(f: Field): seq<Byte> {
    match f
    case Comparator(name) => Varint(1) + LengthPrefixed(name)
    case LogNumber(n) => Varint(2) + Varint(n)
    case NextFileNumber(n) => Varint(3) + Varint(n)
    case LastSequence(n) => Varint(4) + Varint(n)
    case CompactPointer(level, key) => Varint(5) + Varint(level) + LengthPrefixed(key)
    case DeletedFile(d) => Varint(6) + Varint(d.level) + Varint(d.number)
    case AddedFile(a) =>
      Varint(7) + Varint(a.level) + Varint(a.number) + Varint(a.size) + LengthPrefixed(a.smallest) +
        LengthPrefixed(a.largest)
    case PrevLogNumber(n) => Varint(9) + Varint(n)
  }

  function GetLevel(input: seq<Byte>): Option<(nat, seq<Byte>)> {
    match GetVarint32(input)
    case None => None
    case Some(p) => if p.0 < DbFormat.NUM_LEVELS then Some(p) else None
  }

  function DecodeField(input: seq<Byte>): Option<(Field, seq<Byte>)> {
    match GetVarint32(input)
    case None => None
    case Some(t) => DecodeTagged(t.0, t.1)
  }

  function Number(r: Option<(nat, seq<Byte>)>, make: nat -> Field): Option<(Field, seq<Byte>)> {
    match r case None => None case Some(p) => Some((make(p.0), p.1))
  }

  function DecodeTagged(tag: nat, input: seq<Byte>): Option<(Field, seq<Byte>)> {
    if tag == 1 then
      match GetLengthPrefixed(input) case None => None case Some(p) => Some((Comparator(p.0), p.1))
    else if tag == 2 then Number(GetVarint64(input), (n: nat) => LogNumber(n))
    else if tag == 3 then Number(GetVarint64(input), (n: nat) => NextFileNumber(n))
    else if tag == 4 then Number(GetVarint64(input), (n: nat) => LastSequence(n))
    else if tag == 5 then
      match GetLevel(input)
      case None => None
      case Some(l) =>
        match GetLengthPrefixed(l.1) case None => None case Some(p) => Some((CompactPointer(l.0, p.0), p.1))
    else if tag == 6 then
      match GetLevel(input)
      case None => None
      case Some(l) => Number(GetVarint64(l.1), (n: nat) => DeletedFile(Deleted(l.0, n)))
    else if tag == 7 then DecodeAdded(input)
    else if tag == 9 then Number(GetVarint64(input), (n: nat) => PrevLogNumber(n))
    else None
  }

  function DecodeAdded(input: seq<Byte>): Option<(Field, seq<Byte>)> {
    match GetLevel(input)
    case None => None
    case Some(l) =>
      match GetVarint64(l.1)
      case None => None
      case Some(n) =>
        match GetVarint64(n.1)
        case None => None
        case Some(z) =>
          match GetLengthPrefixed(z.1)
          case None => None
          case Some(s) =>
            match GetLengthPrefixed(s.1)
            case None => None
            case Some(g) => Some((AddedFile(NewFile(l.0, n.0, z.0, s.0, g.0)), g.1))
  }

  lemma LevelRoundTrip(level: nat, rest: seq<Byte>)
    requires level < DbFormat.NUM_LEVELS
    ensures GetLevel(Varint(level) + rest) == Some((level, rest))
  {
    hide GetVarint32;
    Varint32RoundTrip(level, rest);
  }

  // Reading a field gives back the field written, and stops where it ends.
  lemma FieldRoundTrip(f: Field, rest: seq<Byte>)
    requires f.Fits()
    ensures DecodeField(EncodeField(f) + rest) == Some((f, rest))
  {
    hide Varint, GetVarint32, GetVarint64, LengthPrefixed, GetLengthPrefixed, GetLevel, DecodeTagged;
    var tag, tail := TagOf(f), TailOf(f);
    assert EncodeField(f) + rest == Varint(tag) + (tail + rest);
    Varint32RoundTrip(tag, tail + rest);
    TailRoundTrip(f, rest);
  }

  function TagOf(f: Field): nat {
    match f
    case Comparator(_) => 1
    case LogNumber(_) => 2
    case NextFileNumber(_) => 3
    case LastSequence(_) => 4
    case CompactPointer(_, _) => 5
    case DeletedFile(_) => 6
    case AddedFile(_) => 7
    case PrevLogNumber(_) => 9
  }

  function TailOf(f: Field): seq<Byte> {
    match f
    case Comparator(name) => LengthPrefixed(name)
    case LogNumber(n) => Varint(n)
    case NextFileNumber(n) => Varint(n)
    case LastSequence(n) => Varint(n)
    case CompactPointer(level, key) => Varint(level) + LengthPrefixed(key)
    case DeletedFile(d) => Varint(d.level) + Varint(d.number)
    case AddedFile(a) => Varint(a.level) + Varint(a.number) + Varint(a.size) + LengthPrefixed(a.smallest) +
      LengthPrefixed(a.largest)
    case PrevLogNumber(n) => Varint(n)
  }

  lemma TailRoundTrip(f: Field, rest: seq<Byte>)
    requires f.Fits()
    ensures DecodeTagged(TagOf(f), TailOf(f) + rest) == Some((f, rest))
  {
    hide Varint, GetVarint32, GetVarint64, LengthPrefixed, GetLengthPrefixed, GetLevel, DecodeAdded;
    match f
    case Comparator(name) => LengthPrefixedRoundTrip(name, rest);
    case LogNumber(n) => Varint64RoundTrip(n, rest);
    case NextFileNumber(n) => Varint64RoundTrip(n, rest);
    case LastSequence(n) => Varint64RoundTrip(n, rest);
    case PrevLogNumber(n) => Varint64RoundTrip(n, rest);
    case CompactPointer(level, key) =>
      assert TailOf(f) + rest == Varint(level) + (LengthPrefixed(key) + rest);
      LevelRoundTrip(level, LengthPrefixed(key) + rest);
      LengthPrefixedRoundTrip(key, rest);
    case DeletedFile(d) =>
      assert TailOf(f) + rest == Varint(d.level) + (Varint(d.number) + rest);
      LevelRoundTrip(d.level, Varint(d.number) + rest);
      Varint64RoundTrip(d.number, rest);
    case AddedFile(a) => AddedRoundTrip(a, rest);
  }

  lemma AddedRoundTrip(a: NewFile, rest: seq<Byte>)
    requires AddedFile(a).Fits()
    ensures DecodeAdded(TailOf(AddedFile(a)) + rest) == Some((AddedFile(a), rest))
  {
    hide Varint, GetVarint32, GetVarint64, LengthPrefixed, GetLengthPrefixed, GetLevel;
    var r4 := LengthPrefixed(a.largest) + rest;
    var r3 := LengthPrefixed(a.smallest) + r4;
    var r2 := Varint(a.size) + r3;
    var r1 := Varint(a.number) + r2;
    Regroup(Varint(a.level), Varint(a.number), Varint(a.size), LengthPrefixed(a.smallest), LengthPrefixed(a.largest),
      rest);
    LevelRoundTrip(a.level, r1);
    Varint64RoundTrip(a.number, r2);
    Varint64RoundTrip(a.size, r3);
    LengthPrefixedRoundTrip(a.smallest, r4);
    LengthPrefixedRoundTrip(a.largest, rest);
  }

  lemma Regroup(a: seq<Byte>, b: seq<Byte>, c: seq<Byte>, d: seq<Byte>, e: seq<Byte>, f: seq<Byte>)
    ensures a + b + c + d + e + f == a + (b + (c + (d + (e + f))))
  {
  }

  // ---- A whole edit ----

  ghost predicate Before(a: Deleted, b: Deleted) { a.level < b.level || (a.level == b.level && a.number < b.number) }

  // DeletedFileSet is an ordered set.
  ghost predicate Ascending(files: seq<Deleted>) {
    forall i, j :: 0 <= i < j < |files| ==> Before(files[i], files[j])
  }

  function InsertDeleted(files: seq<Deleted>, d: Deleted): seq<Deleted> {
    if files == [] then [d]
    else if files[0] == d then files
    else if d.level < files[0].level || (d.level == files[0].level && d.number < files[0].number) then [d] + files
    else [files[0]] + InsertDeleted(files[1..], d)
  }

  lemma {:induction false} InsertLast(files: seq<Deleted>, d: Deleted)
    requires Ascending(files + [d])
    ensures InsertDeleted(files, d) == files + [d]
  {
    if files == [] {
    } else {
      assert (files + [d])[0] == files[0] && (files + [d])[|files|] == d;
      assert (files + [d])[1..] == files[1..] + [d];
      InsertLast(files[1..], d);
    }
  }

  function EmptyEdit(): Edit { Edit(None, None, None, None, None, [], [], []) }

  // Clear leaves the compaction pointers alone.
  function Cleared(e: Edit): Edit { EmptyEdit().(compactPointers := e.compactPointers) }

  function Take(e: Edit, f: Field): Edit {
    match f
    case Comparator(name) => e.(comparator := Some(name))
    case LogNumber(n) => e.(logNumber := Some(n))
    case NextFileNumber(n) => e.(nextFileNumber := Some(n))
    case LastSequence(n) => e.(lastSequence := Some(n))
    case CompactPointer(level, key) => e.(compactPointers := e.compactPointers + [(level, key)])
    case DeletedFile(d) => e.(deletedFiles := InsertDeleted(e.deletedFiles, d))
    case AddedFile(a) => e.(newFiles := e.newFiles + [a])
    case PrevLogNumber(n) => e.(prevLogNumber := Some(n))
  }

  function TakeAll(e: Edit, fields: seq<Field>): Edit {
    if fields == [] then e else Take(TakeAll(e, fields[..|fields| - 1]), fields[|fields| - 1])
  }

  function NameOf(e: Edit): seq<Field> { match e.comparator case None => [] case Some(name) => [Comparator(name)] }

  function LogOf(e: Edit): seq<Field> { match e.logNumber case None => [] case Some(n) => [LogNumber(n)] }

  function PrevLogOf(e: Edit): seq<Field> { match e.prevLogNumber case None => [] case Some(n) => [PrevLogNumber(n)] }

  function NextFileOf(e: Edit): seq<Field> {
    match e.nextFileNumber case None => [] case Some(n) => [NextFileNumber(n)]
  }

  function LastSequenceOf(e: Edit): seq<Field> {
    match e.lastSequence case None => [] case Some(n) => [LastSequence(n)]
  }

  // The single fields of an edit, in the order they are written.
  function Heads(e: Edit): seq<Field> { NameOf(e) + LogOf(e) + PrevLogOf(e) + NextFileOf(e) + LastSequenceOf(e) }

  function Pointers(ps: seq<(nat, seq<Byte>)>): (r: seq<Field>)
    ensures |r| == |ps|
  {
    if ps == [] then [] else Pointers(ps[..|ps| - 1]) + [CompactPointer(ps[|ps| - 1].0, ps[|ps| - 1].1)]
  }

  function Deletions(ds: seq<Deleted>): (r: seq<Field>)
    ensures |r| == |ds|
  {
    if ds == [] then [] else Deletions(ds[..|ds| - 1]) + [DeletedFile(ds[|ds| - 1])]
  }

  function Additions(fs: seq<NewFile>): (r: seq<Field>)
    ensures |r| == |fs|
  {
    if fs == [] then [] else Additions(fs[..|fs| - 1]) + [AddedFile(fs[|fs| - 1])]
  }

  function Fields(e: Edit): seq<Field> {
    Heads(e) + Pointers(e.compactPointers) + Deletions(e.deletedFiles) + Additions(e.newFiles)
  }

  function EncodeFields(fields: seq<Field>): seq<Byte> {
    if fields == [] then [] else EncodeFields(fields[..|fields| - 1]) + EncodeField(fields[|fields| - 1])
  }

  lemma {:induction false} TakeAppend(e: Edit, a: seq<Field>, b: seq<Field>)
    ensures TakeAll(e, a + b) == TakeAll(TakeAll(e, a), b)
    decreases |b|
  {
    hide Take;
    if b == [] {
      assert a + b == a;
    } else {
      var n := |b| - 1;
      assert (a + b)[..|a + b| - 1] == a + b[..n] && (a + b)[|a + b| - 1] == b[n];
      TakeAppend(e, a, b[..n]);
    }
  }

  lemma {:induction false} TakePointers(e: Edit, ps: seq<(nat, seq<Byte>)>)
    ensures TakeAll(e, Pointers(ps)) == e.(compactPointers := e.compactPointers + ps)
    decreases |ps|
  {
    if ps == [] {
      assert e.compactPointers + ps == e.compactPointers;
    } else {
      var n := |ps| - 1;
      TakePointers(e, ps[..n]);
      assert e.compactPointers + ps == (e.compactPointers + ps[..n]) + [ps[n]];
      assert ps[n] == (ps[n].0, ps[n].1);
    }
  }

  lemma {:induction false} TakeDeletions(e: Edit, ds: seq<Deleted>)
    requires e.deletedFiles == [] && Ascending(ds)
    ensures TakeAll(e, Deletions(ds)) == e.(deletedFiles := ds)
    decreases |ds|
  {
    if ds == [] {
    } else {
      var n := |ds| - 1;
      assert ds == ds[..n] + [ds[n]];
      TakeDeletions(e, ds[..n]);
      InsertLast(ds[..n], ds[n]);
    }
  }

  lemma {:induction false} TakeAdditions(e: Edit, fs: seq<NewFile>)
    ensures TakeAll(e, Additions(fs)) == e.(newFiles := e.newFiles + fs)
    decreases |fs|
  {
    if fs == [] {
      assert e.newFiles + fs == e.newFiles;
    } else {
      var n := |fs| - 1;
      TakeAdditions(e, fs[..n]);
      assert e.newFiles + fs == (e.newFiles + fs[..n]) + [fs[n]];
    }
  }

  function TakeMaybe(d: Edit, fs: seq<Field>): Edit { if fs == [] then d else Take(d, fs[0]) }

  lemma TakeNext(d: Edit, before: seq<Field>, fs: seq<Field>)
    requires |fs| <= 1
    ensures TakeAll(d, before + fs) == TakeMaybe(TakeAll(d, before), fs)
  {
    hide Take;
    if fs == [] {
      assert before + fs == before;
    } else {
      assert (before + fs)[..|before|] == before;
    }
  }

  lemma TakeName(d: Edit, e: Edit)
    requires d.comparator.None?
    ensures TakeMaybe(d, NameOf(e)) == d.(comparator := e.comparator)
  {
  }

  lemma TakeLog(d: Edit, e: Edit)
    requires d.logNumber.None?
    ensures TakeMaybe(d, LogOf(e)) == d.(logNumber := e.logNumber)
  {
  }

  lemma TakePrevLog(d: Edit, e: Edit)
    requires d.prevLogNumber.None?
    ensures TakeMaybe(d, PrevLogOf(e)) == d.(prevLogNumber := e.prevLogNumber)
  {
  }

  lemma TakeNextFile(d: Edit, e: Edit)
    requires d.nextFileNumber.None?
    ensures TakeMaybe(d, NextFileOf(e)) == d.(nextFileNumber := e.nextFileNumber)
  {
  }

  lemma TakeLastSequence(d: Edit, e: Edit)
    requires d.lastSequence.None?
    ensures TakeMaybe(d, LastSequenceOf(e)) == d.(lastSequence := e.lastSequence)
  {
  }

  lemma TakeHeads(d: Edit, e: Edit)
    requires d == Cleared(d)
    ensures TakeAll(d, Heads(e)) == e.(compactPointers := d.compactPointers, deletedFiles := [], newFiles := [])
  {
    hide TakeAll, TakeMaybe, NameOf, LogOf, PrevLogOf, NextFileOf, LastSequenceOf;
    var c, l, p, x, s := NameOf(e), LogOf(e), PrevLogOf(e), NextFileOf(e), LastSequenceOf(e);
    SingleFields(e);
    TakeNone(d);
    TakeNext(d, [], c);
    assert [] + c == c;
    TakeName(d, e);
    TakeNext(d, c, l);
    TakeLog(d.(comparator := e.comparator), e);
    TakeNext(d, c + l, p);
    TakePrevLog(d.(comparator := e.comparator, logNumber := e.logNumber), e);
    TakeNext(d, c + l + p, x);
    TakeNextFile(d.(comparator := e.comparator, logNumber := e.logNumber, prevLogNumber := e.prevLogNumber), e);
    TakeNext(d, c + l + p + x, s);
    TakeLastSequence(
      d.(comparator := e.comparator, logNumber := e.logNumber, prevLogNumber := e.prevLogNumber,
        nextFileNumber := e.nextFileNumber), e);
  }

  lemma SingleFields(e: Edit)
    ensures |NameOf(e)| <= 1 && |LogOf(e)| <= 1 && |PrevLogOf(e)| <= 1 && |NextFileOf(e)| <= 1
    ensures |LastSequenceOf(e)| <= 1
  {
  }

  lemma TakeNone(d: Edit)
    ensures TakeAll(d, []) == d
  {
  }

  // Taking in an edit's fields after a Clear gives the edit, after the old compaction pointers.
  lemma TakeFields(d: Edit, e: Edit)
    requires d == Cleared(d) && Ascending(e.deletedFiles)
    ensures TakeAll(d, Fields(e)) == e.(compactPointers := d.compactPointers + e.compactPointers)
  {
    hide TakeAll, Heads, Pointers, Deletions, Additions;
    var h, p, x := Heads(e), Pointers(e.compactPointers), Deletions(e.deletedFiles);
    TakeHeads(d, e);
    TakeAppend(d, h, p);
    TakePointers(TakeAll(d, h), e.compactPointers);
    TakeAppend(d, h + p, x);
    TakeDeletions(TakeAll(d, h + p), e.deletedFiles);
    TakeAppend(d, h + p + x, Additions(e.newFiles));
    TakeAdditions(TakeAll(d, h + p + x), e.newFiles);
    assert [] + e.newFiles == e.newFiles;
  }

  // ---- Bytes ----

  // The fields of a well-formed input, or nothing if it is corrupt.
  function Parse(input: seq<Byte>): Option<seq<Field>>
    decreases |input|
  {
    if input == [] then Some([])
    else match DecodeField(input)
      case None => None
      case Some(p) =>
        if |p.1| < |input| then match Parse(p.1) case None => None case Some(fs) => Some([p.0] + fs) else None
  }

  lemma {:induction false} EncodeAppend(a: seq<Field>, b: seq<Field>)
    ensures EncodeFields(a + b) == EncodeFields(a) + EncodeFields(b)
    decreases |b|
  {
    hide EncodeField;
    if b == [] {
      assert a + b == a && EncodeFields(a) + [] == EncodeFields(a);
    } else {
      var n := |b| - 1;
      assert (a + b)[..|a + b| - 1] == a + b[..n] && (a + b)[|a + b| - 1] == b[n];
      EncodeAppend(a, b[..n]);
      assert (EncodeFields(a) + EncodeFields(b[..n])) + EncodeField(b[n]) ==
        EncodeFields(a) + (EncodeFields(b[..n]) + EncodeField(b[n]));
    }
  }

  lemma {:induction false} ParseRoundTrip(fields: seq<Field>)
    requires forall f :: f in fields ==> f.Fits()
    ensures Parse(EncodeFields(fields)) == Some(fields)
    decreases |fields|
  {
    hide EncodeField, DecodeField;
    if fields == [] {
    } else {
      assert fields == [fields[0]] + fields[1..];
      EncodeAppend([fields[0]], fields[1..]);
      EncodeOne(fields[0]);
      FieldRoundTrip(fields[0], EncodeFields(fields[1..]));
      ParseRoundTrip(fields[1..]);
    }
  }

  lemma EncodeOne(f: Field)
    ensures EncodeFields([f]) == EncodeField(f) && |EncodeField(f)| > 0
  {
    hide EncodeField;
    assert [f][..0] == [];
    assert [] + EncodeField(f) == EncodeField(f);
    EncodeLonger(f);
  }

  // Every field has its tag.
  lemma EncodeLonger(f: Field)
    ensures |EncodeField(f)| > 0
  {
    hide EncodeFields, LengthPrefixed;
  }

  ghost predicate Fits(e: Edit) {
    && Ascending(e.deletedFiles)
    && forall f :: f in Fields(e) ==> f.Fits()
  }

  // Decoding what EncodeTo wrote, after a Clear of d, gives the edit written, its compaction pointers
  // after those d had.
  lemma EditRoundTrip(d: Edit, e: Edit)
    requires Fits(e)
    ensures Parse(EncodeFields(Fields(e))) == Some(Fields(e))
    ensures TakeAll(Cleared(d), Fields(e)) == e.(compactPointers := d.compactPointers + e.compactPointers)
    ensures TakeAll(Cleared(d), Fields(e)) == e <==> d.compactPointers == []
  {
    hide Parse, TakeAll, Fields;
    ParseRoundTrip(Fields(e));
    TakeFields(Cleared(d), e);
    assert d.compactPointers == [] ==> d.compactPointers + e.compactPointers == e.compactPointers;
    assert |d.compactPointers + e.compactPointers| == |d.compactPointers| + |e.compactPointers|;
  }

  class VersionEdit {
    var comparator: Option<seq<Byte>>
    var logNumber: Option<nat>
    var prevLogNumber: Option<nat>
    var nextFileNumber: Option<nat>
    var lastSequence: Option<nat>
    var compactPointers: seq<(nat, seq<Byte>)>
    var deletedFiles: seq<Deleted>
    var newFiles: seq<NewFile>

    constructor ()
      ensures Abs() == EmptyEdit()
    {
      comparator, logNumber, prevLogNumber, nextFileNumber, lastSequence := None, None, None, None, None;
      compactPointers, deletedFiles, newFiles := [], [], [];
    }

    function Abs(): Edit
      reads this
    {
      Edit(comparator, logNumber, prevLogNumber, nextFileNumber, lastSequence, compactPointers, deletedFiles, newFiles)
    }

    method Clear()
      modifies this
      ensures Abs() == Cleared(old(Abs()))
    {
      comparator, logNumber, prevLogNumber, nextFileNumber, lastSequence := None, None, None, None, None;
      deletedFiles, newFiles := [], [];
    }

    method EncodeTo(dst: seq<Byte>) returns (r: seq<Byte>)
      ensures r == dst + EncodeFields(Fields(Abs()))
    {
      hide EncodeField;
      var heads := Heads(Abs());
      r := dst + EncodeFields(heads);
      assert heads + Pointers(compactPointers[..0]) == heads;
      for i := 0 to |compactPointers|
        invariant r == dst + EncodeFields(heads + Pointers(compactPointers[..i]))
      {
        PointersNext(compactPointers, i);
        var f := CompactPointer(compactPointers[i].0, compactPointers[i].1);
        Written(dst, heads, Pointers(compactPointers[..i]), f);
        r := r + EncodeField(f);
      }
      assert compactPointers[..|compactPointers|] == compactPointers;
      ghost var h1 := heads + Pointers(compactPointers);
      assert h1 + Deletions(deletedFiles[..0]) == h1;
      for i := 0 to |deletedFiles|
        invariant r == dst + EncodeFields(h1 + Deletions(deletedFiles[..i]))
      {
        DeletionsNext(deletedFiles, i);
        Written(dst, h1, Deletions(deletedFiles[..i]), DeletedFile(deletedFiles[i]));
        r := r + EncodeField(DeletedFile(deletedFiles[i]));
      }
      assert deletedFiles[..|deletedFiles|] == deletedFiles;
      ghost var h2 := h1 + Deletions(deletedFiles);
      assert h2 + Additions(newFiles[..0]) == h2;
      for i := 0 to |newFiles|
        invariant r == dst + EncodeFields(h2 + Additions(newFiles[..i]))
      {
        AdditionsNext(newFiles, i);
        Written(dst, h2, Additions(newFiles[..i]), AddedFile(newFiles[i]));
        r := r + EncodeField(AddedFile(newFiles[i]));
      }
      assert newFiles[..|newFiles|] == newFiles;
    }

    method TakeField(f: Field)
      modifies this
      ensures Abs() == Take(old(Abs()), f)
    {
      match f
      case Comparator(name) => comparator := Some(name);
      case LogNumber(n) => logNumber := Some(n);
      case NextFileNumber(n) => nextFileNumber := Some(n);
      case LastSequence(n) => lastSequence := Some(n);
      case CompactPointer(level, key) => compactPointers := compactPointers + [(level, key)];
      case DeletedFile(d) => deletedFiles := InsertDeleted(deletedFiles, d);
      case AddedFile(a) => newFiles := newFiles + [a];
      case PrevLogNumber(n) => prevLogNumber := Some(n);
    }

    method DecodeFrom(src: seq<Byte>) returns (ok: bool)
      modifies this
      ensures ok <==> Parse(src).Some?
      ensures ok ==> Abs() == TakeAll(Cleared(old(Abs())), Parse(src).value)
    {
      hide Take, DecodeField, Cleared;
      Clear();
      ghost var d, taken: seq<Field> := Abs(), [];
      var input := src;
      TakeNone(d);
      assert Parse(src).Some? ==> taken + Parse(src).value == Parse(src).value;
      while input != []
        invariant Abs() == TakeAll(d, taken)
        invariant match Parse(input) case None => Parse(src).None? case Some(fs) => Parse(src) == Some(taken + fs)
        decreases |input|
      {
        FieldShrinks(input);
        var p := DecodeField(input);
        if p.None? {
          return false;
        }
        TakeNextField(d, taken, p.value.0);
        TakeField(p.value.0);
        ghost var rest := Parse(p.value.1);
        if rest.Some? { assert taken + ([p.value.0] + rest.value) == (taken + [p.value.0]) + rest.value; }
        taken := taken + [p.value.0];
        input := p.value.1;
      }
      assert taken + [] == taken;
      return true;
    }
  }

  lemma TakeNextField(d: Edit, taken: seq<Field>, f: Field)
    ensures TakeAll(d, taken + [f]) == Take(TakeAll(d, taken), f)
  {
    assert (taken + [f])[..|taken|] == taken;
  }

  // One more field at the end of what has been written.
  lemma Written(dst: seq<Byte>, before: seq<Field>, fields: seq<Field>, f: Field)
    ensures dst + EncodeFields(before + (fields + [f])) == dst + EncodeFields(before + fields) + EncodeField(f)
  {
    hide EncodeField;
    assert before + (fields + [f]) == (before + fields) + [f];
    EncodeAppend(before + fields, [f]);
    EncodeOne(f);
    assert dst + (EncodeFields(before + fields) + EncodeField(f)) ==
      dst + EncodeFields(before + fields) + EncodeField(f);
  }

  lemma PointersNext(ps: seq<(nat, seq<Byte>)>, i: nat)
    requires i < |ps|
    ensures Pointers(ps[..i + 1]) == Pointers(ps[..i]) + [CompactPointer(ps[i].0, ps[i].1)]
  {
    assert ps[..i + 1][..i] == ps[..i];
  }

  lemma DeletionsNext(ds: seq<Deleted>, i: nat)
    requires i < |ds|
    ensures Deletions(ds[..i + 1]) == Deletions(ds[..i]) + [DeletedFile(ds[i])]
  {
    assert ds[..i + 1][..i] == ds[..i];
  }

  lemma AdditionsNext(fs: seq<NewFile>, i: nat)
    requires i < |fs|
    ensures Additions(fs[..i + 1]) == Additions(fs[..i]) + [AddedFile(fs[i])]
  {
    assert fs[..i + 1][..i] == fs[..i];
  }

  lemma LevelShrinks(input: seq<Byte>)
    ensures GetLevel(input).Some? ==> |GetLevel(input).value.1| < |input|
  {
    hide GetVarint;
    VarintShrinks(input, 5);
  }

  lemma NumberShrinks(input: seq<Byte>)
    ensures GetVarint64(input).Some? ==> |GetVarint64(input).value.1| < |input|
  {
    hide GetVarint;
    VarintShrinks(input, 10);
  }

  lemma AddedShrinks(input: seq<Byte>)
    ensures DecodeAdded(input).Some? ==> |DecodeAdded(input).value.1| < |input|
  {
    hide GetLevel, GetVarint64, GetLengthPrefixed;
    if DecodeAdded(input).Some? {
      LevelShrinks(input);
      var l := GetLevel(input).value;
      NumberShrinks(l.1);
      var n := GetVarint64(l.1).value;
      NumberShrinks(n.1);
      var z := GetVarint64(n.1).value;
      PrefixedShrinks(z.1);
      var k := GetLengthPrefixed(z.1).value;
      PrefixedShrinks(k.1);
    }
  }

  lemma TaggedShrinks(tag: nat, input: seq<Byte>)
    ensures DecodeTagged(tag, input).Some? ==> |DecodeTagged(tag, input).value.1| < |input|
  {
    hide GetLevel, GetVarint64, GetLengthPrefixed, DecodeAdded;
    AddedShrinks(input);
    LevelShrinks(input);
    NumberShrinks(input);
    PrefixedShrinks(input);
    if GetLevel(input).Some? {
      NumberShrinks(GetLevel(input).value.1);
      PrefixedShrinks(GetLevel(input).value.1);
    }
  }

  lemma FieldShrinks(input: seq<Byte>)
    ensures DecodeField(input).Some? ==> |DecodeField(input).value.1| < |input|
  {
    hide GetVarint, DecodeTagged;
    VarintShrinks(input, 5);
    if GetVarint32(input).Some? { TaggedShrinks(GetVarint32(input).value.0, GetVarint32(input).value.1); }
  }
}
