// Bloom filters and the filter block (util/bloom.cc, table/filter_block.cc). The hash is any function
// from keys to 32-bit words.

module Filters {
  import opened Coding

  type Hash = Bytes -> nat

  const FILTER_BASE: nat := 2048

  // ---- Bits ----

  function Mask(i: nat): bv8
    requires i < 8
  {
    if i == 0 then 1 else if i == 1 then 2 else if i == 2 then 4 else if i == 3 then 8
    else if i == 4 then 16 else if i == 5 then 32 else if i == 6 then 64 else 128
  }

  predicate HasBit(b: Byte, i: nat)
    requires i < 8
  {
    (b as bv8) & Mask(i) != 0
  }

  function SetBit(b: Byte, i: nat): (r: Byte)
    requires i < 8
  {
    ((b as bv8) | Mask(i)) as int
  }

  lemma SetBitKeeps(b: Byte, i: nat, j: nat)
    requires i < 8 && j < 8
    ensures HasBit(SetBit(b, i), i) && (HasBit(b, j) ==> HasBit(SetBit(b, i), j))
  {
    hide Mask;
    MaskNotZero(i);
    OrKeeps(b as bv8, Mask(i), Mask(j));
    BackAgain((b as bv8) | Mask(i));
  }

  lemma MaskNotZero(i: nat)
    requires i < 8
    ensures Mask(i) != 0
  {
  }

  lemma OrKeeps(b: bv8, m: bv8, n: bv8)
    requires m != 0
    ensures (b | m) & m != 0 && (b & n != 0 ==> (b | m) & n != 0)
  {
  }

  lemma BackAgain(b: bv8)
    ensures (b as int) as bv8 == b
  {
  }

  predicate BitAt(cells: Bytes, pos: nat)
    requires pos < 8 * |cells|
  {
    HasBit(cells[pos / 8], pos % 8)
  }

  function WithBit(cells: Bytes, pos: nat): (r: Bytes)
    requires pos < 8 * |cells|
    ensures |r| == |cells|
  {
    cells[pos / 8 := SetBit(cells[pos / 8], pos % 8)]
  }

  lemma WithBitKeeps(cells: Bytes, pos: nat, other: nat)
    requires pos < 8 * |cells| && other < 8 * |cells|
    ensures BitAt(WithBit(cells, pos), pos) && (BitAt(cells, other) ==> BitAt(WithBit(cells, pos), other))
  {
    hide SetBit, HasBit;
    SetBitKeeps(cells[pos / 8], pos % 8, other % 8);
  }

  // ---- Bloom filters ----

  // Rotate right by 17 bits.
  function Delta(h: nat): nat { h / 0x2_0000 + (h % 0x2_0000) * 0x8000 }

  // The j-th probe of a key with hash h.
  function Probe(h: nat, j: nat): nat { (h + j * Delta(h)) % U32 }

  ghost predicate AllProbed(cells: Bytes, h: nat, k: nat) {
    |cells| > 0 && forall j :: 0 <= j < k ==> BitAt(cells, Probe(h, j) % (8 * |cells|))
  }

  // BloomFilterPolicy, for a number of probes and of bits a key; the choice of the first by a floating
  // product is the caller's.
  class BloomFilterPolicy {
    const hash: Hash
    const bitsPerKey: nat
    const k: nat

    constructor (hash: Hash, bitsPerKey: nat, k: nat)
      requires 1 <= k <= 30
      ensures this.hash == hash && this.bitsPerKey == bitsPerKey && this.k == k
    {
      this.hash, this.bitsPerKey, this.k := hash, bitsPerKey, k;
    }

    method CreateFilter(keys: seq<Bytes>) returns (filter: Bytes)
      requires 1 <= k <= 30
      ensures |filter| >= 2 && forall key :: key in keys ==> MayMatch(hash, key, filter)
    {
      var bits := |keys| * bitsPerKey;
      if bits < 64 {
        bits := 64;
      }
      var bytes := (bits + 7) / 8;
      bits := bytes * 8;
      var cells := seq(bytes, _ => 0);
      for i := 0 to |keys|
        invariant |cells| == bytes && forall n :: 0 <= n < i ==> AllProbed(cells, hash(keys[n]) % U32, k)
      {
        cells := AddKey(cells, hash(keys[i]) % U32, keys, i);
      }
      filter := cells + [k];
      forall key | key in keys ensures MayMatch(hash, key, filter) {
        var n :| 0 <= n < |keys| && keys[n] == key;
        assert AllProbed(cells, hash(keys[n]) % U32, k);
        assert filter[..|filter| - 1] == cells;
      }
    }

    // One key's probes.
    method AddKey(was: Bytes, first: nat, ghost keys: seq<Bytes>, ghost i: nat) returns (cells: Bytes)
      requires |was| > 0 && i < |keys| && first < U32
      requires forall n :: 0 <= n < i ==> AllProbed(was, hash(keys[n]) % U32, k)
      ensures |cells| == |was| && AllProbed(cells, first, k)
      ensures forall n :: 0 <= n < i ==> AllProbed(cells, hash(keys[n]) % U32, k)
    {
      hide BitAt, WithBit;
      cells := was;
      var h, delta := first, Delta(first);
      for j := 0 to k
        invariant |cells| == |was| && h == Probe(first, j)
        invariant AllProbed(cells, first, j)
        invariant forall n :: 0 <= n < i ==> AllProbed(cells, hash(keys[n]) % U32, k)
      {
        var bitpos := h % (8 * |cells|);
        forall pos | 0 <= pos < 8 * |cells| && BitAt(cells, pos) ensures BitAt(WithBit(cells, bitpos), pos) {
          WithBitKeeps(cells, bitpos, pos);
        }
        WithBitKeeps(cells, bitpos, bitpos);
        cells := WithBit(cells, bitpos);
        NextProbe(first, j);
        h := (h + delta) % U32;
      }
    }

    method KeyMayMatch(key: Bytes, filter: Bytes) returns (may: bool)
      ensures may <==> MayMatch(hash, key, filter)
    {
      if |filter| < 2 {
        return false;
      }
      var cells := filter[..|filter| - 1];
      var k := filter[|filter| - 1];
      if k > 30 {
        return true;
      }
      var first := hash(key) % U32;
      var h, delta := first, Delta(first);
      for j := 0 to k
        invariant h == Probe(first, j) && AllProbed(cells, first, j)
      {
        if !BitAt(cells, h % (8 * |cells|)) {
          return false;
        }
        NextProbe(first, j);
        h := (h + delta) % U32;
      }
      return true;
    }
  }

  lemma NextProbe(h: nat, j: nat)
    requires h < U32
    ensures (Probe(h, j) + Delta(h)) % U32 == Probe(h, j + 1) && Probe(h, 0) == h
  {
    ModAdd(h + j * Delta(h), Delta(h), U32);
    assert h + j * Delta(h) + Delta(h) == h + (j + 1) * Delta(h);
  }

  // What a filter answers: too short a filter matches nothing, an unknown encoding everything.
  ghost predicate MayMatch(hash: Hash, key: Bytes, filter: Bytes) {
    |filter| >= 2 &&
      (filter[|filter| - 1] > 30 || AllProbed(filter[..|filter| - 1], hash(key) % U32, filter[|filter| - 1]))
  }

  // ---- The filter block ----

  function Concat(parts: seq<Bytes>): Bytes {
    if parts == [] then [] else Concat(parts[..|parts| - 1]) + parts[|parts| - 1]
  }

  // Part i lies at the length of the parts before it.
  lemma {:induction false} ConcatAt(parts: seq<Bytes>, i: nat)
    requires i < |parts|
    ensures var at := |Concat(parts[..i])|;
            && at + |parts[i]| == |Concat(parts[..i + 1])| <= |Concat(parts)|
            && Concat(parts)[at..at + |parts[i]|] == parts[i]
    decreases |parts|
  {
    var n := |parts| - 1;
    assert parts[..i + 1][..i] == parts[..i];
    if i < n {
      assert parts[..n][..i] == parts[..i] && parts[..n][..i + 1] == parts[..i + 1];
      ConcatAt(parts[..n], i);
      var at := |Concat(parts[..i])|;
      assert Concat(parts)[at..at + |parts[i]|] == Concat(parts[..n])[at..at + |parts[i]|];
    } else {
      assert parts[..i + 1] == parts;
    }
  }

  lemma ConcatPush(parts: seq<Bytes>, p: Bytes)
    ensures Concat(parts + [p]) == Concat(parts) + p
  {
    assert (parts + [p])[..|parts|] == parts;
  }

  function OffsetArray(parts: seq<Bytes>, n: nat): (r: Bytes)
    requires n <= |parts|
    ensures |r| == 4 * n
  {
    if n == 0 then [] else OffsetArray(parts, n - 1) + Fixed(|Concat(parts[..n - 1])|, 4)
  }

  // The block a list of filters makes.
  function FilterBlock(filters: seq<Bytes>): Bytes {
    Concat(filters) + OffsetArray(filters, |filters|) + Fixed(|Concat(filters)|, 4) + [11]
  }

  class FilterBlockBuilder {
    const policy: BloomFilterPolicy
    var keys: Bytes
    var start: seq<nat>
    var result: Bytes
    var filterOffsets: seq<nat>
    // The filters made, the keys waiting for the next one, and each key ever added with the number of
    // its filter.
    ghost var filters: seq<Bytes>
    ghost var pending: seq<Bytes>
    ghost var added: set<(nat, Bytes)>

    ghost predicate Valid()
      reads this
    {
      && 1 <= policy.k <= 30
      && keys == Concat(pending) && |start| == |pending|
      && (forall i :: 0 <= i < |start| ==> start[i] == |Concat(pending[..i])|)
      && result == Concat(filters) && |filterOffsets| == |filters|
      && (forall i :: 0 <= i < |filters| ==> filterOffsets[i] == |Concat(filters[..i])|)
      && forall p :: p in added ==> Served(p.0, p.1)
    }

    ghost predicate Served(i: nat, key: Bytes)
      reads this
    {
      && i <= |filters|
      && (i < |filters| ==> MayMatch(policy.hash, key, filters[i]))
      && (i == |filters| ==> key in pending)
    }

    constructor (policy: BloomFilterPolicy)
      requires 1 <= policy.k <= 30
      ensures Valid() && this.policy == policy && filters == [] && added == {}
    {
      this.policy, keys, start, result, filterOffsets := policy, [], [], [], [];
      filters, pending, added := [], [], {};
    }

    method StartBlock(blockOffset: nat)
      requires Valid() && blockOffset / FILTER_BASE >= |filters|
      modifies this
      ensures Valid() && |filters| == blockOffset / FILTER_BASE && added == old(added)
    {
      var filterIndex := blockOffset / FILTER_BASE;
      while filterIndex > |filterOffsets|
        invariant Valid() && |filters| <= filterIndex && added == old(added)
        decreases filterIndex - |filters|
      {
        GenerateFilter();
      }
    }

    method AddKey(key: Bytes)
      requires Valid()
      modifies this
      ensures Valid() && filters == old(filters) && added == old(added) + {(|filters|, key)}
    {
      hide Concat, MayMatch;
      start := start + [|keys|];
      ConcatPush(pending, key);
      keys := keys + key;
      forall i | 0 <= i <= |pending| ensures (pending + [key])[..i] == pending[..i] {}
      assert pending[..|pending|] == pending;
      pending := pending + [key];
      added := added + {(|filters|, key)};
      forall p | p in added ensures Served(p.0, p.1) {
        if p in old(added) { assert old(Served(p.0, p.1)); }
      }
    }

    method GenerateFilter()
      requires Valid()
      modifies this
      ensures Valid() && |filters| == |old(filters)| + 1 && added == old(added) && pending == []
    {
      hide Concat, MayMatch;
      ghost var n := |filters|;
      if |start| == 0 {
        filterOffsets := filterOffsets + [|result|];
        ConcatPush(filters, []);
        PrefixesStay(filters, []);
        filters := filters + [[]];
        assert pending == [];
        forall p | p in added ensures Served(p.0, p.1) { assert old(Served(p.0, p.1)); }
        return;
      }
      var bounds := start + [|keys|];
      var tmpKeys := seq(|start|, _ => []);
      for i := 0 to |start|
        invariant |tmpKeys| == |start| && forall j :: 0 <= j < i ==> tmpKeys[j] == pending[j]
        modifies {}
      {
        ConcatAt(pending, i);
        BoundsAre(pending, bounds, i);
        tmpKeys := tmpKeys[i := keys[bounds[i]..bounds[i + 1]]];
      }
      assert tmpKeys == pending;
      filterOffsets := filterOffsets + [|result|];
      var filter := policy.CreateFilter(tmpKeys);
      ConcatPush(filters, filter);
      PrefixesStay(filters, filter);
      result := result + filter;
      filters := filters + [filter];
      forall p | p in added ensures p.0 < |filters| && MayMatch(policy.hash, p.1, filters[p.0]) {
        assert old(Served(p.0, p.1));
      }
      keys, start, pending := [], [], [];
      NoParts();
    }

    // The finished block, in which every key added can be found through its filter.
    method Finish() returns (contents: Bytes)
      requires Valid()
      modifies this
      ensures Valid() && contents == FilterBlock(filters) && added == old(added)
      ensures forall p :: p in added ==> p.0 < |filters| && MayMatch(policy.hash, p.1, filters[p.0])
    {
      if |start| != 0 {
        GenerateFilter();
      }
      contents := result;
      for i := 0 to |filterOffsets|
        invariant contents == result + OffsetArray(filters, i)
      {
        contents := contents + Fixed(filterOffsets[i], 4);
      }
      contents := contents + Fixed(|result|, 4);
      contents := contents + [11];
      forall p | p in added ensures p.0 < |filters| && MayMatch(policy.hash, p.1, filters[p.0]) {
        assert Served(p.0, p.1);
      }
    }
  }

  lemma NoParts()
    ensures Concat([]) == []
  {
  }

  lemma PrefixesStay(parts: seq<Bytes>, p: Bytes)
    ensures forall i :: 0 <= i <= |parts| ==> (parts + [p])[..i] == parts[..i]
    ensures (parts + [p])[..|parts|] == parts
  {
  }

  lemma BoundsAre(parts: seq<Bytes>, bounds: seq<nat>, i: nat)
    requires |bounds| == |parts| + 1 && i < |parts| && bounds[|parts|] == |Concat(parts)|
    requires forall j :: 0 <= j < |parts| ==> bounds[j] == |Concat(parts[..j])|
    ensures bounds[i] == |Concat(parts[..i])| && bounds[i + 1] == |Concat(parts[..i + 1])|
  {
    assert parts[..|parts|] == parts;
  }

  function ShiftRight(n: nat, bits: nat): nat
    decreases bits
  {
    if bits == 0 then n else ShiftRight(n / 2, bits - 1)
  }

  // FilterBlockReader, on any contents.
  class FilterBlockReader {
    const policy: BloomFilterPolicy
    const data: Bytes
    const arrayOffset: nat
    const num: nat
    const baseLg: nat

    constructor (policy: BloomFilterPolicy, contents: Bytes)
      ensures this.policy == policy && data == contents && Valid()
      ensures |contents| >= 5 && DecodeFixed(contents[|contents| - 5..|contents| - 1]) <= |contents| - 5 ==>
        && arrayOffset == DecodeFixed(contents[|contents| - 5..|contents| - 1])
        && num == (|contents| - 5 - arrayOffset) / 4 && baseLg == contents[|contents| - 1]
    {
      hide DecodeFixed;
      var n := |contents|;
      this.policy, data := policy, contents;
      if n < 5 || DecodeFixed(contents[n - 5..n - 1]) > n - 5 {
        arrayOffset, num, baseLg := 0, 0, 0;
      } else {
        arrayOffset, num, baseLg :=
          DecodeFixed(contents[n - 5..n - 1]), (n - 5 - DecodeFixed(contents[n - 5..n - 1])) / 4, contents[n - 1];
      }
    }

    ghost predicate Valid() { num > 0 ==> arrayOffset + 4 * num + 4 < |data| }

    method KeyMayMatch(blockOffset: nat, key: Bytes) returns (may: bool)
      requires Valid()
      ensures may <==> Answer(blockOffset, key)
    {
      hide DecodeFixed, MayMatch;
      var index := ShiftRight(blockOffset, baseLg);
      if index < num {
        var start := DecodeFixed(data[arrayOffset + 4 * index..arrayOffset + 4 * index + 4]);
        var limit := DecodeFixed(data[arrayOffset + 4 * index + 4..arrayOffset + 4 * index + 8]);
        if start <= limit && limit <= arrayOffset {
          may := policy.KeyMayMatch(key, data[start..limit]);
          return;
        } else if start == limit {
          return false;
        }
      }
      return true;
    }

    ghost predicate Answer(blockOffset: nat, key: Bytes)
      requires Valid()
    {
      var index := ShiftRight(blockOffset, baseLg);
      if index < num then
        var start := DecodeFixed(data[arrayOffset + 4 * index..arrayOffset + 4 * index + 4]);
        var limit := DecodeFixed(data[arrayOffset + 4 * index + 4..arrayOffset + 4 * index + 8]);
        if start <= limit && limit <= arrayOffset then MayMatch(policy.hash, key, data[start..limit])
          else start != limit
      else true
    }
  }

  // On a block as built, the answer is the filter's own.
  lemma ReadsFilters(r: FilterBlockReader, filters: seq<Bytes>, blockOffset: nat, key: Bytes)
    requires r.data == FilterBlock(filters) && |FilterBlock(filters)| < U32 && r.Valid()
    requires r.arrayOffset == |Concat(filters)| && r.num == |filters| && r.baseLg == 11
    ensures r.Answer(blockOffset, key) <==>
      (blockOffset / FILTER_BASE < |filters| ==> MayMatch(r.policy.hash, key, filters[blockOffset / FILTER_BASE]))
  {
    hide MayMatch, DecodeFixed, Concat;
    ShiftEleven(blockOffset);
    var i := blockOffset / FILTER_BASE;
    if i < |filters| {
      OffsetsRead(filters, i);
      ConcatAt(filters, i);
      var at := |Concat(filters[..i])|;
      assert r.data[at..at + |filters[i]|] == Concat(filters)[at..at + |filters[i]|];
    }
  }

  lemma ShiftEleven(n: nat)
    ensures ShiftRight(n, 11) == n / FILTER_BASE
  {
    assert ShiftRight(n, 11) == ShiftRight(n / 2 / 2 / 2 / 2, 7) && n / 2 / 2 / 2 / 2 == n / 16;
    var m := n / 16;
    assert ShiftRight(m, 7) == ShiftRight(m / 2 / 2 / 2 / 2, 3) && m / 2 / 2 / 2 / 2 == m / 16;
    assert m / 16 == n / 256;
    var k := n / 256;
    assert ShiftRight(k, 3) == k / 2 / 2 / 2 && k / 2 / 2 / 2 == k / 8;
  }

  // The block's last words.
  lemma FilterBlockEnd(filters: seq<Bytes>)
    requires |FilterBlock(filters)| < U32
    ensures var c := FilterBlock(filters); var n := |c|;
            && n >= 5 && c[n - 1] == 11 && DecodeFixed(c[n - 5..n - 1]) == |Concat(filters)| <= n - 5
            && (n - 5 - |Concat(filters)|) / 4 == |filters|
  {
    hide DecodeFixed, Fixed, Concat;
    var c := FilterBlock(filters);
    var n := |c|;
    assert c[n - 5..n - 1] == Fixed(|Concat(filters)|, 4);
    assert Power(256, 4) == 256 * (256 * (256 * 256));
    FixedRoundTrip(|Concat(filters)|, 4);
  }

  lemma {:induction false} OffsetArrayAt(filters: seq<Bytes>, i: nat, n: nat)
    requires i < n <= |filters|
    ensures OffsetArray(filters, n)[4 * i..4 * i + 4] == Fixed(|Concat(filters[..i])|, 4)
  {
    hide Concat;
    if i < n - 1 {
      OffsetArrayAt(filters, i, n - 1);
      assert OffsetArray(filters, n)[4 * i..4 * i + 4] == OffsetArray(filters, n - 1)[4 * i..4 * i + 4];
    }
  }

  lemma OffsetsRead(filters: seq<Bytes>, i: nat)
    requires i < |filters| && |FilterBlock(filters)| < U32
    ensures var c, a := FilterBlock(filters), |Concat(filters)| + 4 * i;
            && a + 8 <= |c| && DecodeFixed(c[a..a + 4]) == |Concat(filters[..i])|
            && DecodeFixed(c[a + 4..a + 8]) == |Concat(filters[..i + 1])|
  {
    hide DecodeFixed, Fixed, Concat;
    var c, a := FilterBlock(filters), |Concat(filters)| + 4 * i;
    ConcatAt(filters, i);
    assert Power(256, 4) == 256 * (256 * (256 * 256));
    FixedRoundTrip(|Concat(filters[..i])|, 4);
    FixedRoundTrip(|Concat(filters[..i + 1])|, 4);
    OffsetArrayAt(filters, i, |filters|);
    assert c[a..a + 4] == OffsetArray(filters, |filters|)[4 * i..4 * i + 4];
    if i + 1 < |filters| {
      OffsetArrayAt(filters, i + 1, |filters|);
      assert c[a + 4..a + 8] == OffsetArray(filters, |filters|)[4 * i + 4..4 * i + 8];
    } else {
      assert filters[..i + 1] == filters;
      assert c[a + 4..a + 8] == Fixed(|Concat(filters)|, 4);
    }
  }
}
