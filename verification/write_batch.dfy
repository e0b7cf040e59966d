// Write batches and their replay from the log (db/write_batch.cc, and RecoverLogFile of db/db_impl.cc).

module WriteBatches {
  import opened Wrappers
  import opened Coding
  import opened Log

  const BATCH_HEADER: nat := 12

  datatype Op = PutOp(key: seq<Byte>, value: seq<Byte>) | DeleteOp(key: seq<Byte>)
  {
    predicate Fits() { |key| < U32 && (PutOp? ==> |value| < U32) }
  }

  // An operation with the sequence number it is applied at.
  datatype Applied = Applied(sn: nat, op: Op)

  function EncodeOp(op: Op): seq<Byte> {
    match op
    case PutOp(k, v) => [1] + LengthPrefixed(k) + LengthPrefixed(v)
    case DeleteOp(k) => [0] + LengthPrefixed(k)
  }

  function Body(ops: seq<Op>): seq<Byte>
  {
    if ops == [] then [] else Body(ops[..|ops| - 1]) + EncodeOp(ops[|ops| - 1])
  }

  function Rep(sn: nat, ops: seq<Op>): (r: seq<Byte>)
    ensures |r| >= BATCH_HEADER
  {
    Fixed(sn, 8) + Fixed(|ops|, 4) + Body(ops)
  }

  ghost predicate Fit(sn: nat, ops: seq<Op>) { sn < U64 && |ops| < U32 && forall op :: op in ops ==> op.Fits() }

  lemma {:induction false} BodyAppend(a: seq<Op>, b: seq<Op>)
    ensures Body(a + b) == Body(a) + Body(b)
    decreases |b|
  {
    hide EncodeOp;
    if b == [] {
      assert a + b == a;
    } else {
      var n := |b| - 1;
      assert (a + b)[..|a + b| - 1] == a + b[..n] && (a + b)[|a + b| - 1] == b[n];
      BodyAppend(a, b[..n]);
      BodyLast(a + b);
      BodyLast(b);
      assert (Body(a) + Body(b[..n])) + EncodeOp(b[n]) == Body(a) + (Body(b[..n]) + EncodeOp(b[n]));
    }
  }

  lemma BodyLast(ops: seq<Op>)
    requires ops != []
    ensures Body(ops) == Body(ops[..|ops| - 1]) + EncodeOp(ops[|ops| - 1])
  {
  }

  lemma BodyOne(op: Op)
    ensures Body([op]) == EncodeOp(op)
  {
    assert [op][..0] == [];
  }

  lemma Grown(sn: nat, ops: seq<Op>, more: seq<Op>)
    ensures Rep(sn, ops + more) == Fixed(sn, 8) + Fixed(|ops| + |more|, 4) + Body(ops) + Body(more)
  {
    hide EncodeOp;
    BodyAppend(ops, more);
    Regroup4(Fixed(sn, 8), Fixed(|ops| + |more|, 4), Body(ops), Body(more));
  }

  lemma Regroup4(a: seq<Byte>, b: seq<Byte>, c: seq<Byte>, d: seq<Byte>)
    ensures a + b + (c + d) == a + b + c + d
  {
  }

  // One operation at the front of the input.
  function DecodeOp(input: seq<Byte>): Option<(Op, seq<Byte>)> {
    if input == [] then None
    else if input[0] == 1 then
      match GetLengthPrefixed(input[1..])
      case None => None
      case Some(k) =>
        match GetLengthPrefixed(k.1)
        case None => None
        case Some(v) => Some((PutOp(k.0, v.0), v.1))
    else if input[0] == 0 then
      match GetLengthPrefixed(input[1..])
      case None => None
      case Some(k) => Some((DeleteOp(k.0), k.1))
    else None
  }

  lemma OpRoundTrip(op: Op, rest: seq<Byte>)
    requires op.Fits()
    ensures DecodeOp(EncodeOp(op) + rest) == Some((op, rest))
  {
    hide LengthPrefixed, GetLengthPrefixed;
    var input := EncodeOp(op) + rest;
    match op
    case PutOp(k, v) =>
      assert input[1..] == LengthPrefixed(k) + (LengthPrefixed(v) + rest);
      LengthPrefixedRoundTrip(k, LengthPrefixed(v) + rest);
      LengthPrefixedRoundTrip(v, rest);
    case DeleteOp(k) =>
      assert input[1..] == LengthPrefixed(k) + rest;
      LengthPrefixedRoundTrip(k, rest);
  }

  class WriteBatch {
    var rep: seq<Byte>
    ghost var sn: nat
    ghost var ops: seq<Op>

    ghost predicate Valid()
      reads this
    {
      Fit(sn, ops) && rep == Rep(sn, ops)
    }

    constructor ()
      ensures Valid() && sn == 0 && ops == []
    {
      rep, sn, ops := Fixed(0, 8) + Fixed(0, 4), 0, [];
    }

    function Count(): nat
      requires |rep| >= BATCH_HEADER
      reads this
    {
      DecodeFixed(rep[8..12])
    }

    function Sequence(): nat
      requires |rep| >= BATCH_HEADER
      reads this
    {
      DecodeFixed(rep[..8])
    }

    lemma Header()
      requires Valid()
      ensures Count() == |ops| && Sequence() == sn && rep[..8] == Fixed(sn, 8) && rep[12..] == Body(ops)
    {
      RepParts(sn, ops);
    }

    method SetCount(n: nat)
      requires |rep| >= BATCH_HEADER
      modifies this`rep
      ensures rep == old(rep[..8]) + Fixed(n, 4) + old(rep[12..])
    {
      rep := rep[..8] + Fixed(n, 4) + rep[12..];
    }

    method SetSequence(n: nat)
      requires Valid() && n < U64
      modifies this
      ensures Valid() && sn == n && ops == old(ops)
    {
      hide Fixed, DecodeFixed, Body;
      RepParts(sn, ops);
      assert rep[8..] == rep[8..12] + rep[12..];
      rep := Fixed(n, 8) + rep[8..];
      sn := n;
    }

    method Put(key: seq<Byte>, value: seq<Byte>)
      requires Valid() && |ops| + 1 < U32 && |key| < U32 && |value| < U32
      modifies this
      ensures Valid() && sn == old(sn) && ops == old(ops) + [PutOp(key, value)]
    {
      hide Rep, Body, Fixed, DecodeFixed, LengthPrefixed;
      Header();
      Grown(sn, ops, [PutOp(key, value)]);
      BodyOne(PutOp(key, value));
      SetCount(Count() + 1);
      Regroup3(rep, [1], LengthPrefixed(key), LengthPrefixed(value));
      rep := rep + [1] + LengthPrefixed(key) + LengthPrefixed(value);
      ops := ops + [PutOp(key, value)];
    }

    method Delete(key: seq<Byte>)
      requires Valid() && |ops| + 1 < U32 && |key| < U32
      modifies this
      ensures Valid() && sn == old(sn) && ops == old(ops) + [DeleteOp(key)]
    {
      hide Rep, Body, Fixed, DecodeFixed, LengthPrefixed;
      Header();
      Grown(sn, ops, [DeleteOp(key)]);
      BodyOne(DeleteOp(key));
      SetCount(Count() + 1);
      Regroup3(rep, [0], LengthPrefixed(key), []);
      rep := rep + [0] + LengthPrefixed(key);
      ops := ops + [DeleteOp(key)];
    }

    // The other batch's operations follow this one's, under this one's sequence number.
    method Append(source: WriteBatch)
      requires Valid() && source.Valid() && source != this && |ops| + |source.ops| < U32
      modifies this
      ensures Valid() && sn == old(sn) && ops == old(ops) + source.ops
    {
      hide Rep, Body, Fixed, DecodeFixed;
      Header();
      source.Header();
      Grown(sn, ops, source.ops);
      SetCount(Count() + source.Count());
      rep := rep + source.rep[12..];
      ops := ops + source.ops;
    }
  }

  lemma Regroup3(a: seq<Byte>, b: seq<Byte>, c: seq<Byte>, d: seq<Byte>)
    ensures a + b + c + d == a + (b + c + d) && a + b + c + [] == a + b + c
  {
  }

  lemma RepParts(sn: nat, ops: seq<Op>)
    requires sn < U64 && |ops| < U32
    ensures var r := Rep(sn, ops);
            && r[..8] == Fixed(sn, 8) && r[8..12] == Fixed(|ops|, 4) && r[12..] == Body(ops)
            && DecodeFixed(r[..8]) == sn && DecodeFixed(r[8..12]) == |ops|
  {
    hide Fixed, DecodeFixed, Body;
    assert Power(256, 4) == 256 * (256 * (256 * 256));
    assert Power(256, 8) == 256 * (256 * (256 * (256 * Power(256, 4))));
    FixedRoundTrip(sn, 8);
    FixedRoundTrip(|ops|, 4);
  }

  // ---- Iteration ----

  // What a handler is given, and whether the whole body could be read.
  function DecodeBody(input: seq<Byte>): (r: (seq<Op>, bool))
    decreases |input|
  {
    if input == [] then ([], true)
    else match DecodeOp(input)
      case None => ([], false)
      case Some(p) =>
        if |p.1| < |input| then var r := DecodeBody(p.1); ([p.0] + r.0, r.1) else ([], false)
  }

  lemma {:induction false} BodyRoundTrip(ops: seq<Op>)
    requires forall op :: op in ops ==> op.Fits()
    ensures DecodeBody(Body(ops)) == (ops, true)
    decreases |ops|
  {
    hide DecodeOp, EncodeOp;
    if ops == [] {
    } else {
      assert ops == [ops[0]] + ops[1..];
      BodyAppend([ops[0]], ops[1..]);
      BodyOne(ops[0]);
      OpRoundTrip(ops[0], Body(ops[1..]));
      NotEmpty(ops[0]);
      BodyRoundTrip(ops[1..]);
    }
  }

  lemma NotEmpty(op: Op)
    ensures |EncodeOp(op)| > 0
  {
  }

  // WriteBatch::Iterate: the operations go to the handler one by one, even when a later one is bad.
  method Iterate(rep: seq<Byte>) returns (ok: bool, handled: seq<Op>)
    ensures |rep| < BATCH_HEADER ==> !ok && handled == []
    ensures |rep| >= BATCH_HEADER ==>
      var r := DecodeBody(rep[12..]); handled == r.0 && (ok <==> r.1 && |r.0| == DecodeFixed(rep[8..12]))
  {
    hide DecodeFixed, DecodeBody, GetLengthPrefixed, SoFar;
    if |rep| < BATCH_HEADER {
      return false, [];
    }
    var input := rep[12..];
    var found: nat := 0;
    handled := [];
    SoFarNone(input);
    while input != []
      invariant found == |handled| && SoFar(rep[12..], input, handled)
      decreases |input|
    {
      SoFarStep(rep[12..], input, handled);
      found := found + 1;
      var tag := input[0];
      var rest := input[1..];
      if tag == 1 {
        var key := GetLengthPrefixed(rest);
        if key.None? {
          return false, handled;
        }
        var value := GetLengthPrefixed(key.value.1);
        if value.None? {
          return false, handled;
        }
        handled := handled + [PutOp(key.value.0, value.value.0)];
        input := value.value.1;
      } else if tag == 0 {
        var key := GetLengthPrefixed(rest);
        if key.None? {
          return false, handled;
        }
        handled := handled + [DeleteOp(key.value.0)];
        input := key.value.1;
      } else {
        return false, handled;
      }
    }
    SoFarAll(rep[12..], handled);
    ok := found == DecodeFixed(rep[8..12]);
  }

  ghost predicate SoFar(body: seq<Byte>, input: seq<Byte>, handled: seq<Op>) {
    handled + DecodeBody(input).0 == DecodeBody(body).0 && DecodeBody(input).1 == DecodeBody(body).1
  }

  lemma SoFarNone(body: seq<Byte>)
    ensures SoFar(body, body, [])
  {
  }

  lemma SoFarAll(body: seq<Byte>, handled: seq<Op>)
    requires SoFar(body, [], handled)
    ensures DecodeBody(body) == (handled, true)
  {
    assert handled + [] == handled;
  }

  lemma SoFarStep(body: seq<Byte>, input: seq<Byte>, handled: seq<Op>)
    requires SoFar(body, input, handled) && input != []
    ensures match DecodeOp(input)
            case None => DecodeBody(body) == (handled, false)
            case Some(p) => |p.1| < |input| && SoFar(body, p.1, handled + [p.0])
  {
    hide DecodeOp;
    Shrinks(input);
    assert handled + [] == handled;
    if DecodeOp(input).Some? {
      var p := DecodeOp(input).value;
      assert handled + ([p.0] + DecodeBody(p.1).0) == (handled + [p.0]) + DecodeBody(p.1).0;
    }
  }

  lemma Shrinks(input: seq<Byte>)
    ensures DecodeOp(input).Some? ==> |DecodeOp(input).value.1| < |input|
  {
    hide GetLengthPrefixed;
    if input != [] {
      PrefixedShrinks(input[1..]);
      if input[0] == 1 && GetLengthPrefixed(input[1..]).Some? {
        PrefixedShrinks(GetLengthPrefixed(input[1..]).value.1);
      }
    }
  }

  // ---- Replay ----

  datatype Group = Group(sn: nat, ops: seq<Op>)

  // MemTableInserter: consecutive sequence numbers from the group's own on.
  function Numbered(sn: nat, ops: seq<Op>): seq<Applied> {
    if ops == [] then [] else Numbered(sn, ops[..|ops| - 1]) + [Applied(sn + |ops| - 1, ops[|ops| - 1])]
  }

  function Reps(groups: seq<Group>): (r: seq<seq<Byte>>)
    ensures |r| == |groups|
  {
    if groups == [] then [] else [Rep(groups[0].sn, groups[0].ops)] + Reps(groups[1..])
  }

  function Replayed(groups: seq<Group>): seq<Applied> {
    if groups == [] then [] else Numbered(groups[0].sn, groups[0].ops) + Replayed(groups[1..])
  }

  // How many of the records, logged from p on, end within the first n bytes.
  function Whole(p: nat, records: seq<seq<Byte>>, n: nat): (k: nat)
    ensures k <= |records|
    decreases |records|
  {
    if records == [] || p + |Appended(p, records[0], true)| > n then 0
    else 1 + Whole(p + |Appended(p, records[0], true)|, records[1..], n)
  }

  // The records of a log, read until none is whole, give exactly the whole ones.
  ghost predicate ReplayedSoFar(log: seq<Byte>, p: int, groups: seq<Group>, k: nat, entries: seq<Applied>, n: nat) {
    && k <= |groups| && RecordsAt(log, p, Reps(groups[k..])) && entries == Replayed(groups[..k])
    && Whole(0, Reps(groups), n) == k + Whole(p, Reps(groups[k..]), n)
  }

  // The last sequence number of any of the groups, or `least`.
  function LastSequence(least: int, groups: seq<Group>): int {
    if groups == [] then least else
      var rest, last :=
        LastSequence(least, groups[..|groups| - 1]), groups[|groups| - 1].sn + |groups[|groups| - 1].ops| - 1;
      if last > rest then last else rest
  }

  lemma RepsFirst(groups: seq<Group>, k: nat)
    requires k < |groups|
    ensures var r := Reps(groups[k..]);
            r != [] && r[0] == Rep(groups[k].sn, groups[k].ops) && r[1..] == Reps(groups[k + 1..])
  {
    assert groups[k..][1..] == groups[k + 1..];
  }

  lemma {:induction false} ReplayedAppend(a: seq<Group>, g: Group)
    ensures Replayed(a + [g]) == Replayed(a) + Numbered(g.sn, g.ops)
    decreases |a|
  {
    hide Numbered;
    if a == [] {
      assert a + [g] == [g] && [g][1..] == [];
      assert Numbered(g.sn, g.ops) + [] == Numbered(g.sn, g.ops);
    } else {
      assert (a + [g])[1..] == a[1..] + [g];
      ReplayedAppend(a[1..], g);
    }
  }

  lemma ReplayStep(log: seq<Byte>, p: nat, groups: seq<Group>, k: nat, entries: seq<Applied>, n: nat, q: int)
    requires ReplayedSoFar(log, p, groups, k, entries, n) && k < |groups|
    requires q == p + |Appended(p, Reps(groups[k..])[0], true)| <= n && RecordsAt(log, q, Reps(groups[k..])[1..])
    ensures ReplayedSoFar(log, q, groups, k + 1, entries + Numbered(groups[k].sn, groups[k].ops), n)
  {
    hide RecordsAt, Appended, Numbered, Rep, Replayed;
    RepsFirst(groups, k);
    assert groups[..k + 1] == groups[..k] + [groups[k]];
    ReplayedAppend(groups[..k], groups[k]);
  }

  lemma ReplayEnd(log: seq<Byte>, p: nat, groups: seq<Group>, k: nat, entries: seq<Applied>, n: nat)
    requires ReplayedSoFar(log, p, groups, k, entries, n) && !Complete(n, p, Reps(groups[k..]))
    ensures Whole(0, Reps(groups), n) == k && entries == Replayed(groups[..k])
  {
    hide RecordsAt, Appended, Replayed;
  }

  lemma RecordIs(groups: seq<Group>, k: nat, record: seq<Byte>)
    requires k < |groups| && Fit(groups[k].sn, groups[k].ops) && record == Reps(groups[k..])[0]
    ensures |record| >= 12 && DecodeFixed(record[..8]) == groups[k].sn && DecodeFixed(record[8..12]) == |groups[k].ops|
    ensures DecodeBody(record[12..]) == (groups[k].ops, true)
  {
    hide Rep, DecodeFixed, DecodeBody, Body;
    RepsFirst(groups, k);
    RepParts(groups[k].sn, groups[k].ops);
    BodyRoundTrip(groups[k].ops);
  }

  // RecoverLogFile: from any front of a log of groups, each group is replayed whole, with the sequence
  // numbers it was written with, or not at all; those replayed are the ones whose last byte is there.
  method Recover(file: seq<Byte>, ghost log: seq<Byte>, ghost groups: seq<Group>)
    returns (entries: seq<Applied>, maxSequence: int, reports: nat)
    requires log == Logged(0, Reps(groups)) && file <= log && forall g :: g in groups ==> Fit(g.sn, g.ops)
    ensures var whole := groups[..Whole(0, Reps(groups), |file|)];
            entries == Replayed(whole) && maxSequence == LastSequence(0, whole) && reports == 0
  {
    hide Logged, Replayed, ReplayedSoFar, Complete, RecordsAt, Appended, Whole, Numbered, DecodeBody, DecodeFixed, Fit,
         Rep, LastSequence;
    var reader := new Reader(file);
    entries, maxSequence := [], 0;
    ghost var k: nat := 0;
    var more := true;
    ReplayStart(log, groups, |file|);
    while more
      invariant reader.Inv() && reader.reports == 0
      invariant k <= |groups| && maxSequence == LastSequence(0, groups[..k])
      invariant more ==> reader.Pos() >= 0 && ReplayedSoFar(log, reader.Pos(), groups, k, entries, |file|)
      invariant !more ==> Whole(0, Reps(groups), |file|) == k && entries == Replayed(groups[..k])
      decreases more, |file| - reader.Pos()
    {
      reader.Bounds();
      ghost var p := reader.Pos();
      AtRecords(log, p, groups, k, entries, |file|);
      var ok, record := reader.ReadRecord(log, Some(Reps(groups[k..])));
      reader.Bounds();
      more := ok;
      if ok {
        CompleteMeans(|file|, p, Reps(groups[k..]));
        ReplayStep(log, p, groups, k, entries, |file|, reader.Pos());
        RecordIs(groups, k, record);
        LastStep(groups, k);
        if |record| >= 12 {
          var good, ops := Iterate(record);
          entries := entries + Numbered(DecodeFixed(record[..8]), ops);
          var last := DecodeFixed(record[..8]) + DecodeFixed(record[8..12]) - 1;
          if last > maxSequence {
            maxSequence := last;
          }
        }
        k := k + 1;
      } else {
        ReplayEnd(log, p, groups, k, entries, |file|);
      }
    }
    reports := reader.reports;
  }

  lemma ReplayStart(log: seq<Byte>, groups: seq<Group>, n: nat)
    requires log == Logged(0, Reps(groups))
    ensures ReplayedSoFar(log, 0, groups, 0, [], n) && LastSequence(0, groups[..0]) == 0
  {
    hide Logged, Whole;
    assert groups[0..] == groups && log[0..] == log;
  }

  lemma LastStep(groups: seq<Group>, k: nat)
    requires k < |groups|
    ensures var rest, last := LastSequence(0, groups[..k]), groups[k].sn + |groups[k].ops| - 1;
            LastSequence(0, groups[..k + 1]) == if last > rest then last else rest
  {
    assert groups[..k + 1][..k] == groups[..k];
  }

  lemma AtRecords(log: seq<Byte>, p: nat, groups: seq<Group>, k: nat, entries: seq<Applied>, n: nat)
    requires ReplayedSoFar(log, p, groups, k, entries, n)
    ensures RecordsAt(log, p, Reps(groups[k..]))
  {
  }

  lemma CompleteMeans(n: nat, p: nat, more: seq<seq<Byte>>)
    requires Complete(n, p, more)
    ensures more != [] && p + |Appended(p, more[0], true)| <= n
  {
  }
}
