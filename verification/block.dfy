// Prefix-compressed blocks with restart points (table/block_builder.cc, table/block.cc).

module Blocks {
  import opened Wrappers
  import opened Coding

  datatype Pair = Pair(key: Bytes, value: Bytes)

  // The user's order of keys.
  type Order = (Bytes, Bytes) -> bool

  ghost predicate Transitive(less: Order) {
    && (forall a, b, c :: less(a, b) && less(b, c) ==> less(a, c))
    && forall a :: !less(a, a)
  }

  ghost predicate Ascending(es: seq<Pair>, less: Order) {
    forall i, j :: 0 <= i < j < |es| ==> less(es[i].key, es[j].key)
  }

  function CommonPrefix(a: Bytes, b: Bytes): (n: nat)
    ensures n <= |a| && n <= |b| && a[..n] == b[..n]
  {
    if a == [] || b == [] || a[0] != b[0] then 0 else
      var n := 1 + CommonPrefix(a[1..], b[1..]);
      assert a[..n] == [a[0]] + a[1..][..n - 1] && b[..n] == [b[0]] + b[1..][..n - 1];
      n
  }

  // What is stored: the entries, and the places of those stored whole, the restart points.
  datatype Layout = Layout(es: seq<Pair>, marks: seq<nat>)
  {
    ghost predicate Valid() {
      && marks != [] && marks[0] == 0
      && (forall i, j :: 0 <= i < j < |marks| ==> marks[i] < marks[j])
      && forall i :: 0 < i < |marks| ==> marks[i] < |es|
    }

    // How many bytes of the key are taken from the key before.
    function Shared(i: nat): (n: nat)
      requires i < |es|
      ensures n <= |es[i].key| && (n > 0 ==> i > 0 && n <= |es[i - 1].key| && es[i - 1].key[..n] == es[i].key[..n])
    {
      if i in marks || i == 0 then 0 else CommonPrefix(es[i - 1].key, es[i].key)
    }

    function EntryAt(i: nat): Bytes
      requires i < |es|
    {
      EntryBytes(Shared(i), es[i])
    }

    // The first n entries.
    function Buffer(n: nat): Bytes
      requires n <= |es|
    {
      if n == 0 then [] else Buffer(n - 1) + EntryAt(n - 1)
    }

    function Offset(n: nat): nat
      requires n <= |es|
    {
      |Buffer(n)|
    }

    function RestartArray(n: nat): (r: Bytes)
      requires n <= |marks| && Valid()
      ensures |r| == 4 * n
    {
      if n == 0 then [] else RestartArray(n - 1) + Fixed(Restart(n - 1), 4)
    }

    function Restart(k: nat): nat
      requires k < |marks| && Valid()
    {
      Offset(marks[k])
    }

    function Stored(): Bytes
      requires Valid()
    {
      Buffer(|es|) + RestartArray(|marks|) + Fixed(|marks|, 4)
    }

    // Every size and offset fits 32 bits.
    ghost predicate Fits()
      requires Valid()
    {
      |Stored()| < U32
    }
  }

  function EntryBytes(shared: nat, e: Pair): (r: Bytes)
    requires shared <= |e.key|
    ensures |r| >= 3
  {
    Varint(shared) + Varint(|e.key| - shared) + Varint(|e.value|) + e.key[shared..] + e.value
  }

  // ---- The builder ----

  class BlockBuilder {
    const interval: nat
    var buffer: Bytes
    var restarts: seq<nat>
    var counter: nat
    var lastKey: Bytes
    ghost var layout: Layout

    ghost predicate Valid()
      reads this
    {
      && interval >= 1 && layout.Valid() && buffer == layout.Buffer(|layout.es|)
      && |restarts| == |layout.marks| && (forall k :: 0 <= k < |restarts| ==> restarts[k] == layout.Restart(k))
      && (layout.es == [] ==> lastKey == [])
      && (layout.es != [] ==> counter >= 1 && lastKey == layout.es[|layout.es| - 1].key)
      && counter <= interval && |layout.es| == layout.marks[|restarts| - 1] + counter
    }

    constructor (interval: nat)
      requires interval >= 1
      ensures Valid() && this.interval == interval && layout.es == []
    {
      this.interval, buffer, restarts, counter, lastKey, layout := interval, [], [0], 0, [], Layout([], [0]);
    }

    // How much of the key is shared with the last one.
    method Sharing(key: Bytes) returns (shared: nat)
      ensures shared == CommonPrefix(lastKey, key)
    {
      shared := 0;
      var minLength := if |lastKey| < |key| then |lastKey| else |key|;
      while shared < minLength && lastKey[shared] == key[shared]
        invariant shared <= minLength
        invariant CommonPrefix(lastKey, key) == shared + CommonPrefix(lastKey[shared..], key[shared..])
      {
        assert lastKey[shared..][1..] == lastKey[shared + 1..] && key[shared..][1..] == key[shared + 1..];
        shared := shared + 1;
      }
    }

    method Add(key: Bytes, value: Bytes)
      requires Valid()
      modifies this
      ensures Valid() && layout.es == old(layout.es) + [Pair(key, value)]
    {
      hide CommonPrefix, Layout.Buffer, Varint, Layout.Shared, EntryBytes;
      ghost var was, marks := layout, layout.marks;
      var shared := 0;
      if counter < interval {
        shared := Sharing(key);
      } else {
        restarts := restarts + [|buffer|];
        counter := 0;
        marks := marks + [|was.es|];
      }
      ghost var now := Layout(was.es + [Pair(key, value)], marks);
      Grown(was, now);
      LastShared(was, now, lastKey);
      BufferLast(now);
      AppendEntry(buffer, shared, Pair(key, value));
      var nonShared := |key| - shared;
      buffer := buffer + Varint(shared) + Varint(nonShared) + Varint(|value|);
      buffer := buffer + key[shared..] + value;
      lastKey := lastKey[..shared] + key[shared..];
      counter := counter + 1;
      layout := now;
    }

    method Reset()
      requires Valid()
      modifies this
      ensures Valid() && layout.es == []
    {
      buffer, restarts, counter, lastKey, layout := [], [0], 0, [], Layout([], [0]);
    }

    predicate Empty()
      requires Valid()
      reads this
      ensures layout.Valid() && (Empty() <==> layout.es == [])
    {
      buffer == []
    }

    function CurrentSizeEstimate(): nat
      reads this
    {
      |buffer| + 4 * |restarts| + 4
    }

    method Finish() returns (data: Bytes)
      requires Valid()
      ensures data == layout.Stored()
    {
      data := buffer;
      for i := 0 to |restarts|
        invariant data == buffer + layout.RestartArray(i)
      {
        data := data + Fixed(restarts[i], 4);
      }
      data := data + Fixed(|restarts|, 4);
    }
  }

  // One more entry, restart point or not, leaves the entries before as they are.
  lemma Grown(was: Layout, now: Layout)
    requires was.Valid() && |now.es| == |was.es| + 1 && was.es <= now.es
    requires now.marks == was.marks || (now.marks == was.marks + [|was.es|] && was.es != [])
    ensures now.Valid() && forall n :: 0 <= n <= |was.es| ==> now.Buffer(n) == was.Buffer(n)
  {
    forall n | 0 <= n <= |was.es| ensures now.Buffer(n) == was.Buffer(n) { SameBuffer(was, now, n); }
  }

  lemma LastShared(was: Layout, now: Layout, lastKey: Bytes)
    requires was.Valid() && now.Valid() && |now.es| == |was.es| + 1 && was.es <= now.es
    requires now.marks == was.marks || (now.marks == was.marks + [|was.es|] && was.es != [])
    requires if was.es == [] then lastKey == [] else lastKey == was.es[|was.es| - 1].key
    requires was.es != [] ==> was.marks[|was.marks| - 1] < |was.es|
    ensures var n := |was.es|;
            now.Shared(n) == if now.marks == was.marks then CommonPrefix(lastKey, now.es[n].key) else 0
  {
    var n := |was.es|;
    if now.marks == was.marks {
      assert n > 0 ==> n !in now.marks;
    } else {
      assert now.marks[|was.marks|] == n;
    }
  }

  lemma BufferLast(l: Layout)
    requires l.es != []
    ensures var n := |l.es| - 1; l.Buffer(n + 1) == l.Buffer(n) + l.EntryAt(n)
  {
  }

  lemma AppendEntry(buffer: Bytes, shared: nat, e: Pair)
    requires shared <= |e.key|
    ensures buffer + Varint(shared) + Varint(|e.key| - shared) + Varint(|e.value|) + e.key[shared..] + e.value ==
      buffer + EntryBytes(shared, e)
  {
    hide Varint;
  }

  lemma {:induction false} SameBuffer(was: Layout, now: Layout, n: nat)
    requires n <= |was.es| && was.es <= now.es && forall i :: 0 <= i < n ==> (i in now.marks <==> i in was.marks)
    ensures now.Buffer(n) == was.Buffer(n)
  {
    if n == 0 {
    } else {
      SameBuffer(was, now, n - 1);
      assert now.es[n - 1] == was.es[n - 1] && (n > 1 ==> now.es[n - 2] == was.es[n - 2]);
    }
  }

  // ---- Reading ----

  // DecodeEntry: the three sizes and what follows them, with a short way for sizes below 128.
  function DecodeEntry(input: Bytes): (r: Option<(nat, nat, nat, Bytes)>)
    ensures r.Some? ==> r.value.1 + r.value.2 <= |r.value.3| < |input|
  {
    if |input| < 3 then None
    else if input[0] < 128 && input[1] < 128 && input[2] < 128 then
      var rest := input[3..];
      if |rest| < input[1] as int + input[2] as int then None else Some((input[0], input[1], input[2], rest))
    else
      match DecodeSizes(input)
      case None => None
      case Some(t) => if |t.3| < t.1 + t.2 || |t.3| >= |input| then None else Some(t)
  }

  function DecodeSizes(input: Bytes): Option<(nat, nat, nat, Bytes)> {
    match GetVarint32(input)
    case None => None
    case Some(a) =>
      match GetVarint32(a.1)
      case None => None
      case Some(b) =>
        match GetVarint32(b.1)
        case None => None
        case Some(c) => Some((a.0, b.0, c.0, c.1))
  }

  // The short way reads what the long way reads.
  lemma ShortSizes(input: Bytes)
    requires |input| >= 3 && input[0] < 128 && input[1] < 128 && input[2] < 128
    ensures DecodeSizes(input) == Some((input[0], input[1], input[2], input[3..]))
  {
    ShortVarint(input);
    ShortVarint(input[1..]);
    ShortVarint(input[1..][1..]);
    assert input[1..][1..][1..] == input[3..];
  }

  lemma ShortVarint(input: Bytes)
    requires input != [] && input[0] < 128
    ensures GetVarint32(input) == Some((input[0], input[1..]))
  {
  }

  lemma EntryRoundTrip(shared: nat, e: Pair, rest: Bytes)
    requires shared <= |e.key| < U32 && |e.value| < U32
    ensures DecodeEntry(EntryBytes(shared, e) + rest) ==
      Some((shared, |e.key| - shared, |e.value|, e.key[shared..] + e.value + rest))
  {
    hide Varint, GetVarint32;
    var input, tail := EntryBytes(shared, e) + rest, e.key[shared..] + e.value + rest;
    var s2 := Varint(|e.value|) + tail;
    var s1 := Varint(|e.key| - shared) + s2;
    FlattenEntry(shared, e, rest);
    Varint32RoundTrip(shared, s1);
    Varint32RoundTrip(|e.key| - shared, s2);
    Varint32RoundTrip(|e.value|, tail);
    assert DecodeSizes(input) == Some((shared, |e.key| - shared, |e.value|, tail));
    if input[0] < 128 && input[1] < 128 && input[2] < 128 { ShortSizes(input); }
  }

  lemma FlattenEntry(shared: nat, e: Pair, rest: Bytes)
    requires shared <= |e.key|
    ensures EntryBytes(shared, e) + rest ==
      Varint(shared) + (Varint(|e.key| - shared) + (Varint(|e.value|) + (e.key[shared..] + e.value + rest)))
  {
    hide Varint;
  }

  // ---- Places in the buffer ----

  lemma {:induction false} BufferSplit(l: Layout, i: nat, n: nat)
    requires i <= n <= |l.es|
    ensures |l.Buffer(i)| + 3 * (n - i) <= |l.Buffer(n)| && l.Buffer(n)[..|l.Buffer(i)|] == l.Buffer(i)
  {
    hide Layout.EntryAt;
    if i < n {
      BufferSplit(l, i, n - 1);
      BufferNext(l, n - 1);
      EntryNotShort(l, n - 1);
      FrontOf(l.Buffer(n - 1), l.EntryAt(n - 1), |l.Buffer(i)|);
    }
  }

  lemma EntryNotShort(l: Layout, i: nat)
    requires i < |l.es|
    ensures |l.EntryAt(i)| >= 3
  {
  }

  lemma FrontOf(a: Bytes, b: Bytes, k: nat)
    requires k <= |a|
    ensures (a + b)[..k] == a[..k]
  {
  }

  lemma OffsetOrder(l: Layout, i: nat, j: nat)
    requires i <= |l.es| && j <= |l.es|
    ensures i < j <==> l.Offset(i) < l.Offset(j)
    ensures i == j <==> l.Offset(i) == l.Offset(j)
  {
    if i <= j { BufferSplit(l, i, j); } else { BufferSplit(l, j, i); }
  }

  // The bytes from entry i on: entry i, and the rest.
  lemma EntryIn(l: Layout, i: nat)
    requires i < |l.es|
    ensures l.Offset(i) + |l.EntryAt(i)| == l.Offset(i + 1) <= l.Offset(|l.es|)
    ensures l.Buffer(|l.es|)[l.Offset(i)..] == l.EntryAt(i) + l.Buffer(|l.es|)[l.Offset(i + 1)..]
  {
    hide Layout.EntryAt;
    BufferSplit(l, i + 1, |l.es|);
    BufferNext(l, i);
    TailOf(l.Buffer(|l.es|), l.Buffer(i), l.EntryAt(i));
  }

  lemma BufferNext(l: Layout, i: nat)
    requires i < |l.es|
    ensures l.Buffer(i + 1) == l.Buffer(i) + l.EntryAt(i)
  {
  }

  lemma TailOf(b: Bytes, front: Bytes, e: Bytes)
    requires |front| + |e| <= |b| && b[..|front| + |e|] == front + e
    ensures b[|front|..] == e + b[|front| + |e|..]
  {
    assert b == (front + e) + b[|front| + |e|..];
  }

  lemma {:induction false} RestartArrayAt(l: Layout, k: nat, n: nat)
    requires l.Valid() && k < n <= |l.marks|
    ensures l.RestartArray(n)[4 * k..4 * k + 4] == Fixed(l.Restart(k), 4)
  {
    hide Layout.Restart;
    if k < n - 1 {
      RestartArrayAt(l, k, n - 1);
      assert l.RestartArray(n)[4 * k..4 * k + 4] == l.RestartArray(n - 1)[4 * k..4 * k + 4];
    }
  }

  // The restart array, read back.
  lemma RestartRead(l: Layout, k: nat)
    requires l.Valid() && l.Fits() && k < |l.marks|
    ensures var at := l.Offset(|l.es|) + 4 * k;
            at + 4 <= |l.Stored()| && DecodeFixed(l.Stored()[at..at + 4]) == l.Restart(k)
  {
    hide Layout.Buffer, Layout.RestartArray, DecodeFixed, Fixed;
    var b, r, at := l.Buffer(|l.es|), l.RestartArray(|l.marks|), l.Offset(|l.es|) + 4 * k;
    RestartArrayAt(l, k, |l.marks|);
    assert l.Stored()[at..at + 4] == r[4 * k..4 * k + 4];
    RestartBelow(l, k);
    assert Power(256, 4) == 256 * (256 * (256 * 256));
    FixedRoundTrip(l.Restart(k), 4);
  }

  lemma RestartBelow(l: Layout, k: nat)
    requires l.Valid() && l.Fits() && k < |l.marks|
    ensures l.marks[k] <= |l.es| && l.Restart(k) <= l.Offset(|l.es|) < U32
  {
    BufferSplit(l, l.marks[k], |l.es|);
  }

  // The number of restart points stands at the end.
  lemma CountRead(l: Layout)
    requires l.Valid() && l.Fits()
    ensures var s := l.Stored();
            && |s| >= 4 && DecodeFixed(s[|s| - 4..]) == |l.marks| && |s| - (1 + |l.marks|) * 4 == l.Offset(|l.es|)
  {
    hide Layout.Buffer, Layout.RestartArray, DecodeFixed, Fixed;
    var s := l.Stored();
    assert s[|s| - 4..] == Fixed(|l.marks|, 4);
    assert Power(256, 4) == 256 * (256 * (256 * 256));
    FixedRoundTrip(|l.marks|, 4);
  }

  // ---- The iterator ----

  class Iter {
    const data: Bytes
    const restarts: nat
    const numRestarts: nat
    const less: Order
    var current: nat
    var restartIndex: nat
    var key: Bytes
    var value: Bytes
    // The offset just past the current value.
    var nextEntryOffset: nat
    ghost const l: Layout
    ghost var pos: nat

    // Block::Block and NewIterator.
    constructor (data: Bytes, less: Order, ghost l: Layout)
      requires l.Valid() && l.Fits() && data == l.Stored() && Ascending(l.es, less) && Transitive(less)
      ensures Inv() && !Valid() && this.l == l && this.less == less && pos == |l.es|
    {
      hide Layout.Stored, Layout.Buffer, DecodeFixed;
      CountRead(l);
      var n := DecodeFixed(data[|data| - 4..]);
      this.data, restarts, numRestarts, this.less := data, |data| - (1 + n) * 4, n, less;
      current, restartIndex, key, value, nextEntryOffset := |data| - (1 + n) * 4, n, [], [], 0;
      this.l, pos := l, |l.es|;
    }

    ghost predicate Opened() {
      && l.Valid() && l.Fits() && data == l.Stored() && Ascending(l.es, less) && Transitive(less)
      && restarts == l.Offset(|l.es|) && numRestarts == |l.marks|
    }

    predicate Valid()
      reads this
    {
      current < restarts
    }

    // Standing at entry p, in the stretch of its restart point or at the point itself.
    ghost predicate At(p: nat)
      requires Opened()
      reads this
    {
      && p < |l.es| && pos == p && current == l.Offset(p) && nextEntryOffset == l.Offset(p + 1)
      && key == l.es[p].key && value == l.es[p].value
      && restartIndex < numRestarts && l.marks[restartIndex] <= p
      && (restartIndex + 1 < numRestarts ==> p <= l.marks[restartIndex + 1])
    }

    ghost predicate Inv()
      reads this
    {
      Opened() && if pos < |l.es| then At(pos) else pos == |l.es| && current == restarts
    }

    function Current(): (e: Pair)
      requires Inv() && Valid()
      reads this
      ensures pos < |l.es| && e == l.es[pos]
    {
      OffsetOrder(l, pos, |l.es|);
      Pair(key, value)
    }

    lemma Standing()
      requires Inv()
      ensures Valid() <==> pos < |l.es|
    {
      hide Layout.Stored, Layout.Offset, Layout.Buffer, Layout.Shared;
      OffsetOrder(l, pos, |l.es|);
    }

    // About to parse entry p, with enough of the key before it at hand.
    ghost predicate Ready(p: nat)
      requires Opened()
      reads this
    {
      && p <= |l.es| && nextEntryOffset == l.Offset(p) && restartIndex < numRestarts && l.marks[restartIndex] <= p
      && (p < |l.es| ==> l.Shared(p) <= |key| && key[..l.Shared(p)] == l.es[p].key[..l.Shared(p)])
    }

    method GetRestartPoint(index: nat) returns (offset: nat)
      requires Opened() && index < numRestarts
      ensures offset == l.Restart(index)
    {
      hide Layout.Stored, Layout.Buffer, DecodeFixed, Layout.Restart;
      RestartRead(l, index);
      offset := DecodeFixed(data[restarts + 4 * index..restarts + 4 * index + 4]);
    }

    method SeekToRestartPoint(index: nat)
      requires Opened() && index < numRestarts
      modifies this
      ensures Ready(l.marks[index]) && restartIndex == index && pos == old(pos)
    {
      hide Layout.Stored, Layout.Buffer;
      RestartBelow(l, index);
      key := [];
      restartIndex := index;
      value := [];
      nextEntryOffset := GetRestartPoint(index);
      NoneShared(l, index);
    }

    method ParseNextKey(ghost p: nat) returns (ok: bool)
      requires Opened() && Ready(p)
      modifies this
      ensures Inv() && pos == p && (ok <==> p < |l.es|)
    {
      hide Layout.Stored, Layout.Buffer, Layout.Offset, Layout.Shared, DecodeEntry, EntryBytes, Ascending, Transitive;
      OffsetOrder(l, p, |l.es|);
      StoredLength(l);
      current := nextEntryOffset;
      pos := p;
      if current >= restarts {
        current, restartIndex := restarts, numRestarts;
        return false;
      }
      DecodeAt(l, p);
      var d := DecodeEntry(data[current..restarts]);
      // A block as built is never found corrupt.
      assert d.Some? && d.value.0 <= |key|;
      var (shared, nonShared, valueLength, rest) := d.value;
      KeyRebuilt(l, p, key);
      key := key[..shared] + rest[..nonShared];
      value := rest[nonShared..nonShared + valueLength];
      nextEntryOffset := restarts - |rest| + nonShared + valueLength;
      while restartIndex + 1 < numRestarts
        invariant restartIndex < numRestarts && l.marks[restartIndex] <= p
        modifies `restartIndex
        decreases numRestarts - restartIndex
      {
        var offset := GetRestartPoint(restartIndex + 1);
        RestartBelow(l, restartIndex + 1);
        OffsetOrder(l, l.marks[restartIndex + 1], p);
        if offset >= current {
          break;
        }
        restartIndex := restartIndex + 1;
      }
      return true;
    }

    method Next()
      requires Inv() && Valid()
      modifies this
      ensures Inv() && pos == old(pos) + 1
    {
      hide Layout.Stored, Layout.Buffer, Layout.Shared;
      OffsetOrder(l, pos, |l.es|);
      SharedNext(l, pos + 1);
      var _ := ParseNextKey(pos + 1);
    }

    // There is no way back but from a restart point before the current entry.
    method Prev()
      requires Inv() && Valid()
      modifies this
      ensures Inv() && pos == if old(pos) == 0 then |l.es| else old(pos) - 1
    {
      hide Layout.Stored, Layout.Buffer, Layout.Offset, Layout.Shared, Layout.Restart;
      OffsetOrder(l, pos, |l.es|);
      var original := current;
      ghost var was := pos;
      var found := RestartBefore();
      if !found {
        current, restartIndex, pos := restarts, numRestarts, |l.es|;
        return;
      }
      SeekToRestartPoint(restartIndex);
      ScanTo(original, l.marks[restartIndex], was);
    }

    // Scan backwards to a restart point before the current entry.
    method RestartBefore() returns (found: bool)
      requires Inv() && Valid()
      modifies this`restartIndex
      ensures found ==> restartIndex < numRestarts && l.marks[restartIndex] < pos
      ensures !found ==> pos == 0
    {
      hide Layout.Stored, Layout.Buffer, Layout.Offset, Layout.Shared, Layout.Restart;
      OffsetOrder(l, pos, |l.es|);
      var offset := GetRestartPoint(restartIndex);
      RestartOrder(l, restartIndex, pos);
      while offset >= current
        invariant restartIndex < numRestarts && offset == l.Restart(restartIndex)
        invariant offset >= current <==> l.marks[restartIndex] >= pos
        decreases restartIndex
      {
        if restartIndex == 0 {
          return false;
        }
        restartIndex := restartIndex - 1;
        offset := GetRestartPoint(restartIndex);
        RestartOrder(l, restartIndex, pos);
      }
      return true;
    }

    // Parse on until the next entry is the original one.
    method ScanTo(original: nat, ghost start: nat, ghost was: nat)
      requires Opened() && Ready(start) && start < was < |l.es| && original == l.Offset(was)
      modifies this
      ensures Inv() && pos == was - 1
    {
      hide Layout.Stored, Layout.Buffer, Layout.Offset, Layout.Shared, Layout.Restart, Opened, Ready;
      ghost var p := start;
      var ok := ParseNextKey(p);
      NextOffset(was);
      while ok && nextEntryOffset < original
        invariant Inv() && pos == p < was && ok && (nextEntryOffset < original <==> p + 1 < was)
        decreases was - p
      {
        p := p + 1;
        SharedNext(l, p);
        NextReady();
        ok := ParseNextKey(p);
        NextOffset(was);
      }
    }

    lemma NextReady()
      requires Inv() && pos < |l.es|
      ensures Opened() && Ready(pos + 1)
    {
      hide Layout.Stored, Layout.Buffer, Layout.Offset, Layout.Shared;
      SharedNext(l, pos + 1);
    }

    lemma NextOffset(was: nat)
      requires Inv() && pos < |l.es| && was <= |l.es|
      ensures nextEntryOffset < l.Offset(was) <==> pos + 1 < was
    {
      hide Layout.Stored, Layout.Buffer, Layout.Offset, Layout.Shared;
      OffsetOrder(l, pos + 1, was);
    }

    // The first entry whose key is at or after the target.
    method Seek(target: Bytes)
      requires Inv()
      modifies this
      ensures Inv() && (forall i :: 0 <= i < pos ==> less(l.es[i].key, target))
      ensures (pos < |l.es| ==> !less(l.es[pos].key, target))
    {
      hide Layout.Stored, Layout.Buffer, Layout.Shared, Transitive, Ascending;
      var left, right := 0, numRestarts - 1;
      while left < right
        invariant 0 <= left <= right < numRestarts
        invariant left > 0 ==> l.marks[left] < |l.es| && less(l.es[l.marks[left]].key, target)
      {
        var mid := (left + right + 1) / 2;
        var midKey := RestartKey(mid);
        if less(midKey, target) {
          left := mid;
        } else {
          right := mid - 1;
        }
      }
      ghost var p := l.marks[left];
      SeekToRestartPoint(left);
      AllBefore(l, less, target, p, left > 0);
      while true
        invariant Opened() && Ready(p) && forall i :: 0 <= i < p && i < |l.es| ==> less(l.es[i].key, target)
        decreases |l.es| - p
      {
        var ok := ParseNextKey(p);
        if !ok {
          return;
        }
        if !less(key, target) {
          return;
        }
        p := p + 1;
        SharedNext(l, p);
      }
    }

    // The key at a restart point is stored whole.
    method RestartKey(index: nat) returns (midKey: Bytes)
      requires Opened() && 0 < index < numRestarts
      ensures l.marks[index] < |l.es| && midKey == l.es[l.marks[index]].key
    {
      hide Layout.Stored, Layout.Buffer, Layout.Offset, DecodeEntry, Layout.Shared;
      ghost var p := l.marks[index];
      StoredLength(l);
      OffsetOrder(l, p, |l.es|);
      NoneShared(l, index);
      DecodeAt(l, p);
      var offset := GetRestartPoint(index);
      var d := DecodeEntry(data[offset..restarts]);
      midKey := d.value.3[..d.value.1];
    }

    method SeekToFirst()
      requires Inv()
      modifies this
      ensures Inv() && pos == 0
    {
      SeekToRestartPoint(0);
      var _ := ParseNextKey(0);
    }

    method SeekToLast()
      requires Inv()
      modifies this
      ensures Inv() && pos == if l.es == [] then 0 else |l.es| - 1
    {
      hide Layout.Stored, Layout.Buffer, Layout.Offset, Layout.Shared;
      ghost var p := l.marks[numRestarts - 1];
      RestartBelow(l, numRestarts - 1);
      SeekToRestartPoint(numRestarts - 1);
      var ok := ParseNextKey(p);
      if ok { OffsetOrder(l, p + 1, |l.es|); }
      while ok && nextEntryOffset < restarts
        invariant Inv() && pos == p <= |l.es| && (ok <==> p < |l.es|) && (p == |l.es| ==> l.es == [])
        invariant ok ==> (nextEntryOffset < restarts <==> p + 1 < |l.es|)
        decreases |l.es| - p
      {
        p := p + 1;
        SharedNext(l, p);
        ok := ParseNextKey(p);
        OffsetOrder(l, p + 1, |l.es|);
      }
    }
  }

  // Standing at an entry, enough of its key is at hand for the next one.
  lemma SharedNext(l: Layout, p: nat)
    requires 0 < p <= |l.es|
    ensures p < |l.es| ==>
      l.Shared(p) <= |l.es[p - 1].key| && l.es[p - 1].key[..l.Shared(p)] == l.es[p].key[..l.Shared(p)]
  {
  }

  lemma RestartOrder(l: Layout, k: nat, p: nat)
    requires l.Valid() && k < |l.marks| && l.marks[k] <= |l.es| && p < |l.es|
    ensures l.Restart(k) >= l.Offset(p) <==> l.marks[k] >= p
  {
    hide Layout.Buffer, Layout.Offset;
    OffsetOrder(l, l.marks[k], p);
  }

  // Entries before one that is before the target are before it too.
  lemma AllBefore(l: Layout, less: Order, target: Bytes, p: nat, known: bool)
    requires Ascending(l.es, less) && Transitive(less) && (p == 0 || (known && p < |l.es| && less(l.es[p].key, target)))
    ensures forall i :: 0 <= i < p && i < |l.es| ==> less(l.es[i].key, target)
  {
  }

  lemma NoneShared(l: Layout, index: nat)
    requires l.Valid() && index < |l.marks|
    ensures l.marks[index] < |l.es| ==> l.Shared(l.marks[index]) == 0
  {
  }

  // Decoding from entry p's offset finds its sizes, the rest of its key and its value.
  lemma DecodeAt(l: Layout, p: nat)
    requires l.Valid() && l.Fits() && p < |l.es| && l.Offset(p) <= l.Offset(|l.es|) <= |l.Stored()|
    ensures var d, e := DecodeEntry(l.Stored()[l.Offset(p)..l.Offset(|l.es|)]), l.es[p];
            && d.Some? && d.value.0 == l.Shared(p) && d.value.1 == |e.key| - l.Shared(p) && d.value.2 == |e.value|
            && |d.value.3| >= d.value.1 + d.value.2 && d.value.3[..d.value.1] == e.key[l.Shared(p)..]
            && d.value.3[d.value.1..d.value.1 + d.value.2] == e.value
            && l.Offset(|l.es|) - |d.value.3| + d.value.1 + d.value.2 == l.Offset(p + 1)
  {
    hide Layout.Buffer, Layout.Shared, DecodeEntry, Varint;
    StoredLength(l);
    var b, e, n := l.Buffer(|l.es|), l.es[p], |l.es|;
    EntryIn(l, p);
    var rest := b[l.Offset(p + 1)..];
    assert l.Stored()[l.Offset(p)..l.Offset(n)] == b[l.Offset(p)..];
    SizesFit(l, p);
    EntryRoundTrip(l.Shared(p), e, rest);
    var tail := e.key[l.Shared(p)..] + e.value + rest;
    assert tail[..|e.key| - l.Shared(p)] == e.key[l.Shared(p)..];
  }

  lemma StoredLength(l: Layout)
    requires l.Valid()
    ensures l.Offset(|l.es|) + 4 * |l.marks| + 4 == |l.Stored()|
    ensures l.Stored()[..l.Offset(|l.es|)] == l.Buffer(|l.es|)
  {
    hide Layout.Buffer, Layout.RestartArray, Fixed;
  }

  // A key is no longer than the bytes stored up to it.
  lemma {:induction false} KeyFits(l: Layout, p: nat)
    requires p < |l.es|
    ensures |l.es[p].key| <= l.Offset(p + 1) && |l.es[p].value| <= l.Offset(p + 1)
  {
    hide Varint;
    if p > 0 { KeyFits(l, p - 1); }
    EntryLength(l.Shared(p), l.es[p]);
  }

  lemma EntryLength(shared: nat, e: Pair)
    requires shared <= |e.key|
    ensures |EntryBytes(shared, e)| >= |e.key| - shared + |e.value|
  {
    hide Varint;
  }

  lemma SizesFit(l: Layout, p: nat)
    requires l.Valid() && l.Fits() && p < |l.es|
    ensures |l.es[p].key| < U32 && |l.es[p].value| < U32
  {
    hide Layout.Buffer;
    KeyFits(l, p);
    StoredLength(l);
    BufferSplit(l, p + 1, |l.es|);
  }

  // The shared front of the previous key and the stored rest make the key.
  lemma KeyRebuilt(l: Layout, p: nat, key: Bytes)
    requires p < |l.es| && l.Shared(p) <= |key| && key[..l.Shared(p)] == l.es[p].key[..l.Shared(p)]
    ensures key[..l.Shared(p)] + l.es[p].key[l.Shared(p)..] == l.es[p].key
  {
    hide Layout.Shared;
  }
}
