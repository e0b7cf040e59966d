// The cache's hash table (util/cache.cc): buckets of handles linked through their own fields.

module HandleTables {

  type CacheKey = string

  // One cache entry; the list heads of the cache are handles too.
  class Handle {
    const key: CacheKey
    const hash: nat
    const value: string
    const charge: nat
    var nextHash: Handle?
    var next: Handle?
    var prev: Handle?
    var inCache: bool
    var refs: nat

    constructor (key: CacheKey, hash: nat, value: string, charge: nat)
      ensures this.key == key && this.hash == hash && this.value == value && this.charge == charge
      ensures nextHash == null && next == null && prev == null && !inCache && refs == 1
    {
      this.key, this.hash, this.value, this.charge := key, hash, value, charge;
      nextHash, next, prev, inCache, refs := null, null, null, false, 1;
    }

    predicate Matches(k: CacheKey, h: nat) { hash == h && key == k }
  }

  function At(chain: seq<Handle>, i: nat): Handle? { if i < |chain| then chain[i] else null }

  // The bucket links of a set of handles at one moment.
  type Links = map<Handle, Handle?>

  ghost function LinksOf(handles: set<Handle>): Links
    reads handles`nextHash
  {
    map h | h in handles :: h.nextHash
  }

  ghost predicate Chain(links: Links, first: Handle?, chain: seq<Handle>) {
    && first == At(chain, 0)
    && forall i :: 0 <= i < |chain| ==> chain[i] in links && links[chain[i]] == At(chain, i + 1)
  }

  ghost predicate Home(chain: seq<Handle>, b: nat, n: nat, handles: set<Handle>)
    requires n > 0
  {
    && (forall i, j :: 0 <= i < j < |chain| ==> chain[i] != chain[j])
    && forall h :: h in chain ==> h in handles && h.hash % n == b
  }

  // The buckets hold exactly these handles, each in the bucket of its hash.
  ghost predicate Table(links: Links, heads: seq<Handle?>, chains: seq<seq<Handle>>, handles: set<Handle>) {
    && |heads| == |chains| > 0
    && (forall b :: 0 <= b < |chains| ==> Chain(links, heads[b], chains[b]) && Home(chains[b], b, |chains|, handles))
    && forall h :: h in handles ==> h in chains[h.hash % |chains|]
  }

  ghost predicate UniqueKeys(handles: set<Handle>) {
    forall g, h :: g in handles && h in handles && g.Matches(h.key, h.hash) ==> g == h
  }

  // A place that holds a pointer to a handle: a bucket, or a handle's link.
  datatype Slot = Bucket(b: nat) | Link(h: Handle)

  ghost function SlotAt(chain: seq<Handle>, b: nat, i: nat): Slot
    requires i <= |chain|
  {
    if i == 0 then Bucket(b) else Link(chain[i - 1])
  }

  ghost function StoredHeads(heads: seq<Handle?>, slot: Slot, to: Handle?): seq<Handle?>
    requires slot.Bucket? ==> slot.b < |heads|
  {
    if slot.Bucket? then heads[slot.b := to] else heads
  }

  ghost function StoredLinks(links: Links, slot: Slot, to: Handle?): Links {
    if slot.Link? then links[slot.h := to] else links
  }

  // Chains[b][i..j], empty or a single handle, makes way for `mid`, empty or a single new handle: what the
  // links, the buckets and the handles become.
  datatype Splice = Splice(b: nat, i: nat, j: nat, mid: seq<Handle>)
  {
    ghost predicate Fits(chains: seq<seq<Handle>>, handles: set<Handle>) {
      && b < |chains| && i <= j <= |chains[b]| && j <= i + 1 && |mid| <= 1
      && forall h :: h in mid ==> h !in handles && h.hash % |chains| == b
    }

    ghost function Dropped(chains: seq<seq<Handle>>): set<Handle>
      requires b < |chains| && i <= j <= |chains[b]|
    {
      if i == j then {} else {chains[b][i]}
    }

    ghost function Added(): set<Handle> { if mid == [] then {} else {mid[0]} }

    ghost function Own(chain: seq<Handle>): (r: seq<Handle>)
      requires i <= j <= |chain|
      ensures |r| == |chain| - j + i + |mid|
    {
      chain[..i] + mid + chain[j..]
    }

    ghost function Chains(chains: seq<seq<Handle>>): seq<seq<Handle>>
      requires b < |chains| && i <= j <= |chains[b]|
    {
      chains[b := Own(chains[b])]
    }

    ghost function Target(chains: seq<seq<Handle>>): Handle?
      requires b < |chains|
    {
      if mid == [] then At(chains[b], j) else mid[0]
    }

    ghost function Heads(heads: seq<Handle?>, chains: seq<seq<Handle>>): seq<Handle?>
      requires b < |chains| == |heads| && i <= |chains[b]|
    {
      StoredHeads(heads, SlotAt(chains[b], b, i), Target(chains))
    }

    ghost function LinksAfter(links: Links, chains: seq<seq<Handle>>): Links
      requires b < |chains| && i <= j <= |chains[b]|
    {
      var l := if mid == [] then links else links[mid[0] := At(chains[b], j)];
      StoredLinks(l, SlotAt(chains[b], b, i), Target(chains)) - Dropped(chains)
    }
  }

  ghost function LinkAfter(s: Splice, links: Links, chains: seq<seq<Handle>>, h: Handle): Handle?
    requires s.b < |chains| && s.i <= s.j <= |chains[s.b]|
  {
    if SlotAt(chains[s.b], s.b, s.i) == Link(h) then s.Target(chains)
    else if s.mid != [] && h == s.mid[0] then At(chains[s.b], s.j)
    else if h in links then links[h] else null
  }

  // The links after a splice, handle by handle.
  lemma LinksAfterIs(s: Splice, links: Links, chains: seq<seq<Handle>>, after: Links)
    requires s.b < |chains| && s.i <= s.j <= |chains[s.b]|
    requires after.Keys == links.Keys - s.Dropped(chains) + s.Added() && s.Dropped(chains) !! s.Added()
    requires var slot := SlotAt(chains[s.b], s.b, s.i); slot.Link? ==> slot.h in links
    requires forall h :: h in after ==> after[h] == LinkAfter(s, links, chains, h)
    ensures after == s.LinksAfter(links, chains)
  {
  }

  lemma Spliced(s: Splice, links: Links, heads: seq<Handle?>, chains: seq<seq<Handle>>, handles: set<Handle>)
    requires Table(links, heads, chains, handles) && s.Fits(chains, handles)
    ensures Table(s.LinksAfter(links, chains), s.Heads(heads, chains), s.Chains(chains),
      handles - s.Dropped(chains) + s.Added())
  {
    hide Chain, Home;
    var after := handles - s.Dropped(chains) + s.Added();
    forall c | 0 <= c < |chains|
      ensures Chain(s.LinksAfter(links, chains), s.Heads(heads, chains)[c], s.Chains(chains)[c])
      ensures Home(s.Chains(chains)[c], c, |chains|, after)
    {
      if c == s.b { SplicedOwn(s, links, heads, chains, handles); }
        else { SplicedOther(s, links, heads, chains, handles, c); }
    }
    forall h | h in after ensures h in s.Chains(chains)[h.hash % |chains|] {
      SplicedCovers(s, links, heads, chains, handles, h);
    }
  }

  lemma SplicedOther(s: Splice, links: Links, heads: seq<Handle?>, chains: seq<seq<Handle>>, handles: set<Handle>,
      c: nat)
    requires Table(links, heads, chains, handles) && s.Fits(chains, handles) && c < |chains| && c != s.b
    ensures Chain(s.LinksAfter(links, chains), s.Heads(heads, chains)[c], chains[c])
    ensures Home(chains[c], c, |chains|, handles - s.Dropped(chains) + s.Added())
  {
    assert Chain(links, heads[c], chains[c]) && Home(chains[c], c, |chains|, handles);
    assert Home(chains[s.b], s.b, |chains|, handles);
    forall k | 0 <= k < |chains[c]| ensures chains[c][k] !in chains[s.b] && chains[c][k] !in s.mid {
      assert chains[c][k] in chains[c];
    }
  }

  lemma SplicedOwn(s: Splice, links: Links, heads: seq<Handle?>, chains: seq<seq<Handle>>, handles: set<Handle>)
    requires Table(links, heads, chains, handles) && s.Fits(chains, handles)
    ensures Chain(s.LinksAfter(links, chains), s.Heads(heads, chains)[s.b], s.Chains(chains)[s.b])
    ensures Home(s.Chains(chains)[s.b], s.b, |chains|, handles - s.Dropped(chains) + s.Added())
  {
    hide Chain, Home, Splice.LinksAfter;
    var chain, to := chains[s.b], s.Chains(chains)[s.b];
    assert Chain(links, heads[s.b], chain) && Home(chain, s.b, |chains|, handles);
    SplicedHome(s, chains, handles);
    SplicedChain(s, links, heads, chains, handles);
  }

  // What stands at place k after the splice.
  lemma SplicedAt(s: Splice, chains: seq<seq<Handle>>, handles: set<Handle>, k: nat)
    requires s.Fits(chains, handles) && k < |s.Chains(chains)[s.b]|
    ensures var chain := chains[s.b];
            && |s.Chains(chains)[s.b]| == |chain| - s.j + s.i + |s.mid|
            && s.Chains(chains)[s.b][k] ==
               if k < s.i then chain[k] else if k < s.i + |s.mid| then s.mid[0] else chain[k - |s.mid| - s.i + s.j]
  {
  }

  lemma SplicedHome(s: Splice, chains: seq<seq<Handle>>, handles: set<Handle>)
    requires s.Fits(chains, handles) && Home(chains[s.b], s.b, |chains|, handles)
    ensures Home(s.Chains(chains)[s.b], s.b, |chains|, handles - s.Dropped(chains) + s.Added())
  {
    hide Splice.Own;
    var chain, to := chains[s.b], s.Chains(chains)[s.b];
    forall k | 0 <= k < |chain| ensures chain[k] in chain && chain[k] !in s.mid {}
    forall k, l | 0 <= k < l < |to| ensures to[k] != to[l] {
      SplicedAt(s, chains, handles, k);
      SplicedAt(s, chains, handles, l);
    }
    forall h | h in to ensures h in handles - s.Dropped(chains) + s.Added() && h.hash % |chains| == s.b {
      var k :| 0 <= k < |to| && to[k] == h;
      SplicedAt(s, chains, handles, k);
    }
  }

  lemma SplicedChain(s: Splice, links: Links, heads: seq<Handle?>, chains: seq<seq<Handle>>, handles: set<Handle>)
    requires |heads| == |chains| && s.Fits(chains, handles) && Home(chains[s.b], s.b, |chains|, handles)
    requires Chain(links, heads[s.b], chains[s.b])
    ensures Chain(s.LinksAfter(links, chains), s.Heads(heads, chains)[s.b], s.Chains(chains)[s.b])
  {
    hide Splice.Own, Splice.LinksAfter, Home, Chain, At;
    var to, after := s.Chains(chains)[s.b], s.LinksAfter(links, chains);
    forall k | 0 <= k < |to| ensures to[k] in after && after[to[k]] == At(to, k + 1) {
      SplicedLink(s, links, heads, chains, handles, k);
    }
    SplicedHead(s, links, heads, chains, handles);
    AsChain(after, s.Heads(heads, chains)[s.b], to);
  }

  lemma AsChain(links: Links, first: Handle?, chain: seq<Handle>)
    requires first == At(chain, 0)
    requires forall i :: 0 <= i < |chain| ==> chain[i] in links && links[chain[i]] == At(chain, i + 1)
    ensures Chain(links, first, chain)
  {
  }

  lemma SplicedHead(s: Splice, links: Links, heads: seq<Handle?>, chains: seq<seq<Handle>>, handles: set<Handle>)
    requires |heads| == |chains| && s.Fits(chains, handles) && Chain(links, heads[s.b], chains[s.b])
    ensures s.Heads(heads, chains)[s.b] == At(s.Chains(chains)[s.b], 0)
  {
    hide Splice.Own;
    if s.Chains(chains)[s.b] != [] { SplicedAt(s, chains, handles, 0); }
  }

  lemma SplicedLink(s: Splice, links: Links, heads: seq<Handle?>, chains: seq<seq<Handle>>, handles: set<Handle>,
      k: nat)
    requires |heads| == |chains| && s.Fits(chains, handles) && Home(chains[s.b], s.b, |chains|, handles)
    requires Chain(links, heads[s.b], chains[s.b]) && k < |s.Chains(chains)[s.b]|
    ensures var to, after := s.Chains(chains)[s.b], s.LinksAfter(links, chains);
            to[k] in after && after[to[k]] == At(to, k + 1)
  {
    hide Splice.Own, Splice.LinksAfter, Home, Chain;
    var to := s.Chains(chains)[s.b];
    SplicedAt(s, chains, handles, k);
    if k + 1 < |to| { SplicedAt(s, chains, handles, k + 1); }
    if s.i <= k < s.i + |s.mid| {
      MidLink(s, links, chains, handles);
    } else {
      KeptLink(s, links, heads, chains, handles, if k < s.i then k else k - |s.mid| - s.i + s.j);
    }
  }

  lemma MidLink(s: Splice, links: Links, chains: seq<seq<Handle>>, handles: set<Handle>)
    requires s.Fits(chains, handles) && s.mid != [] && Home(chains[s.b], s.b, |chains|, handles)
    ensures var after := s.LinksAfter(links, chains); s.mid[0] in after && after[s.mid[0]] == At(chains[s.b], s.j)
  {
    var chain := chains[s.b];
    assert s.i > 0 ==> chain[s.i - 1] in chain;
    assert s.i < s.j ==> chain[s.i] in chain;
  }

  lemma KeptLink(s: Splice, links: Links, heads: seq<Handle?>, chains: seq<seq<Handle>>, handles: set<Handle>, q: nat)
    requires |heads| == |chains| && s.Fits(chains, handles) && Home(chains[s.b], s.b, |chains|, handles)
    requires Chain(links, heads[s.b], chains[s.b]) && q < |chains[s.b]| && !(s.i <= q < s.j)
    ensures var chain, after := chains[s.b], s.LinksAfter(links, chains);
            chain[q] in after && after[chain[q]] == if q + 1 == s.i then s.Target(chains) else At(chain, q + 1)
  {
    var chain := chains[s.b];
    assert chain[q] in chain;
  }

  lemma SplicedCovers(s: Splice, links: Links, heads: seq<Handle?>, chains: seq<seq<Handle>>, handles: set<Handle>,
      h: Handle)
    requires Table(links, heads, chains, handles) && s.Fits(chains, handles)
    requires h in handles - s.Dropped(chains) + s.Added()
    ensures h in s.Chains(chains)[h.hash % |chains|]
  {
    hide Chain, Home, Splice.Own;
    var chain, to := chains[s.b], s.Chains(chains)[s.b];
    if h in s.Added() {
      SplicedAt(s, chains, handles, s.i);
      assert to[s.i] == h;
    } else if h.hash % |chains| == s.b {
      var k :| 0 <= k < |chain| && chain[k] == h;
      var l := if k < s.i then k else k - s.j + s.i + |s.mid|;
      SplicedAt(s, chains, handles, l);
      assert to[l] == h;
    }
  }

  // h takes the place of the handle with its key, if there was one.
  lemma UniqueAfter(handles: set<Handle>, h: Handle, previous: Handle?)
    requires UniqueKeys(handles)
    requires if previous == null then forall g :: g in handles ==>
      !g.Matches(h.key, h.hash) else previous in handles && previous.Matches(h.key, h.hash)
    ensures UniqueKeys(handles - (if previous == null then {} else {previous}) + {h})
  {
  }

  lemma UniqueFewer(handles: set<Handle>, h: Handle)
    requires UniqueKeys(handles)
    ensures UniqueKeys(handles - {h})
  {
  }

  lemma OneLess(handles: set<Handle>, h: Handle)
    requires h in handles
    ensures |handles - {h}| == |handles| - 1 && forall e: set<Handle> :: e == {} ==> handles - {h} + e == handles - {h}
  {
  }

  lemma SwapOne(handles: set<Handle>, g: Handle, h: Handle)
    requires g in handles && h !in handles
    ensures |handles - {g} + {h}| == |handles|
  {
  }

  lemma TableSizes(links: Links, heads: seq<Handle?>, chains: seq<seq<Handle>>, handles: set<Handle>)
    requires Table(links, heads, chains, handles)
    ensures |heads| == |chains| > 0
  {
  }

  lemma EmptyTable(heads: seq<Handle?>, chains: seq<seq<Handle>>)
    requires |heads| == |chains| > 0 && forall b :: 0 <= b < |heads| ==> heads[b] == null && chains[b] == []
    ensures Table(map[], heads, chains, {})
  {
  }

  // The handles of the first i buckets and of the first k places of the next one.
  ghost predicate Moved(chains: seq<seq<Handle>>, handles: set<Handle>, moved: set<Handle>, i: nat, k: nat)
    requires |chains| > 0 && (i < |chains| ==> k <= |chains[i]|)
  {
    forall h :: h in handles ==>
      (h in moved <==> h.hash % |chains| < i || (i < |chains| && h.hash % |chains| == i && h in chains[i][..k]))
  }

  lemma BucketOf(links: Links, heads: seq<Handle?>, chains: seq<seq<Handle>>, handles: set<Handle>, i: nat)
    requires Table(links, heads, chains, handles) && i < |chains|
    ensures heads[i] == At(chains[i], 0)
  {
    assert Chain(links, heads[i], chains[i]);
  }

  lemma NoneMoved(chains: seq<seq<Handle>>, handles: set<Handle>)
    requires |chains| > 0
    ensures Moved(chains, handles, {}, 0, 0)
  {
  }

  // The next handle of the bucket has not been moved, and its link leads to the one after it.
  lemma NextUnmoved(links: Links, heads: seq<Handle?>, chains: seq<seq<Handle>>, handles: set<Handle>,
      moved: set<Handle>, i: nat, k: nat)
    requires Table(links, heads, chains, handles) && i < |chains| && k < |chains[i]|
    requires Moved(chains, handles, moved, i, k)
    ensures var h := chains[i][k]; h in handles && h !in moved && h in links && links[h] == At(chains[i], k + 1)
    ensures Moved(chains, handles, moved + {chains[i][k]}, i, k + 1)
  {
    assert Chain(links, heads[i], chains[i]) && Home(chains[i], i, |chains|, handles);
    assert chains[i][k] in chains[i];
    assert chains[i][..k + 1] == chains[i][..k] + [chains[i][k]];
  }

  lemma BucketDone(links: Links, heads: seq<Handle?>, chains: seq<seq<Handle>>, handles: set<Handle>,
      moved: set<Handle>, i: nat)
    requires Table(links, heads, chains, handles) && i < |chains| && Moved(chains, handles, moved, i, |chains[i]|)
    ensures i + 1 < |chains| ==> Moved(chains, handles, moved, i + 1, 0)
    ensures i + 1 == |chains| ==> handles <= moved
  {
    assert chains[i][..|chains[i]|] == chains[i];
  }

  class HandleTable {
    var list: array<Handle?>
    var elems: nat
    ghost var chains: seq<seq<Handle>>
    ghost var handles: set<Handle>

    ghost predicate Valid()
      reads this, list, handles`nextHash
    {
      Table(LinksOf(handles), list[..], chains, handles) && UniqueKeys(handles) && elems == |handles|
    }

    constructor ()
      ensures Valid() && handles == {} && fresh(list)
    {
      list, elems, chains, handles := new Handle?[4](_ => null), 0, seq(4, _ => []), {};
    }

    // The slot that points to the handle with this key, or the empty one at the end of its bucket.
    method FindPointer(key: CacheKey, hash: nat) returns (slot: Slot, target: Handle?, ghost i: nat)
      requires Valid()
      ensures var b := hash % list.Length;
              && b < |chains| && i <= |chains[b]| && slot == SlotAt(chains[b], b, i) && target == At(chains[b], i)
      ensures target != null ==>
        target in handles && target.Matches(key, hash) && target.nextHash == At(chains[hash % list.Length], i + 1)
      ensures target == null ==> forall h :: h in handles ==> !h.Matches(key, hash)
      ensures slot.Link? ==> slot.h in handles
    {
      hide Table, UniqueKeys, LinksOf;
      Bounds();
      var b := hash % list.Length;
      BucketOf(LinksOf(handles), list[..], chains, handles, b);
      slot, target, i := Bucket(b), list[b], 0;
      while target != null && !(target.hash == hash && target.key == key)
        invariant i <= |chains[b]| && slot == SlotAt(chains[b], b, i) && target == At(chains[b], i)
        invariant forall j :: 0 <= j < i ==> !chains[b][j].Matches(key, hash)
        invariant slot.Link? ==> slot.h in handles
        decreases |chains[b]| - i
      {
        NextInBucket(b, i);
        slot, target, i := Link(target), target.nextHash, i + 1;
      }
      if target != null { NextInBucket(b, i); } else { NotInBucket(key, hash); }
    }

    lemma NextInBucket(b: nat, i: nat)
      requires Valid() && b < |chains| && i < |chains[b]|
      ensures chains[b][i] in handles && chains[b][i].nextHash == At(chains[b], i + 1)
    {
      assert Chain(LinksOf(handles), list[..][b], chains[b]) && Home(chains[b], b, |chains|, handles);
      assert chains[b][i] in chains[b];
    }

    lemma NotInBucket(key: CacheKey, hash: nat)
      requires Valid() && list.Length == |chains|
      requires var b := hash % list.Length; forall j :: 0 <= j < |chains[b]| ==> !chains[b][j].Matches(key, hash)
      ensures forall h :: h in handles ==> !h.Matches(key, hash)
    {
      forall h | h in handles ensures !h.Matches(key, hash) {
        assert h in chains[h.hash % |chains|];
      }
    }

    lemma Start()
      requires Valid()
      ensures LinksOf(handles).Keys == handles && (forall h :: h in handles ==> LinksOf(handles)[h] == h.nextHash)
      ensures LinksOf({}) == map[]
    {
    }

    method Lookup(key: CacheKey, hash: nat) returns (h: Handle?)
      requires Valid()
      ensures h != null ==> h in handles && h.Matches(key, hash)
      ensures h == null ==> forall g :: g in handles ==> !g.Matches(key, hash)
    {
      var _, target, _ := FindPointer(key, hash);
      h := target;
    }

    // Enter h, in place of the handle with its key if there is one.
    method Insert(h: Handle) returns (previous: Handle?)
      requires Valid() && h !in handles
      modifies this, list, (handles + {h})`nextHash
      ensures Valid() && (list == old(list) || fresh(list))
      ensures previous != null ==>
        previous in old(handles) && previous.Matches(h.key, h.hash) && handles == old(handles) - {previous} + {h}
      ensures previous == null ==>
        (forall g :: g in old(handles) ==> !g.Matches(h.key, h.hash)) && handles == old(handles) + {h}
    {
      hide Table, UniqueKeys, LinksOf, Splice.Chains, Splice.LinksAfter, Splice.Heads, Splice.Own;
      Bounds();
      var slot, target, i := FindPointer(h.key, h.hash);
      previous := target;
      UniqueAfter(handles, h, previous);
      h.nextHash := if previous == null then null else previous.nextHash;
      Relink(slot, h, Splice(h.hash % list.Length, i, if previous == null then i else i + 1, [h]));
      if previous == null {
        Grow();
      } else {
        SwapOne(old(handles), previous, h);
      }
    }

    // One element more: the table doubles when it is full.
    method Grow()
      requires UniqueKeys(handles) && Table(LinksOf(handles), list[..], chains, handles) && elems + 1 == |handles|
      modifies this`list, this`chains, this`elems, handles`nextHash
      ensures Valid() && (list == old(list) || fresh(list))
    {
      hide Table, UniqueKeys, LinksOf;
      elems := elems + 1;
      if elems > list.Length {
        Resize();
      }
    }

    // The store through the slot that carries out a splice.
    method Relink(slot: Slot, to: Handle?, ghost s: Splice)
      requires Table(LinksOf(handles), list[..], chains, handles) && s.Fits(chains, handles)
      requires slot == SlotAt(chains[s.b], s.b, s.i) && to == s.Target(chains) && (slot.Link? ==> slot.h in handles)
      requires (s.mid != [] ==> to.nextHash == At(chains[s.b], s.j)) && (s.i < s.j ==> chains[s.b][s.i] in handles)
      modifies this`handles, this`chains, list, handles`nextHash
      ensures Table(LinksOf(handles), list[..], chains, handles)
      ensures handles == old(handles) - old(s.Dropped(chains)) + s.Added()
    {
      hide Table, Splice.LinksAfter, Splice.Chains;
      TableSizes(LinksOf(handles), list[..], chains, handles);
      ghost var links, heads, was := LinksOf(handles), list[..], chains;
      Spliced(s, links, heads, was, handles);
      Store(slot, to);
      handles, chains := handles - s.Dropped(was) + s.Added(), s.Chains(was);
      assert list[..] == s.Heads(heads, was);
      LinksAfterIs(s, links, was, LinksOf(handles));
    }

    lemma Bounds()
      requires Valid()
      ensures list.Length == |chains| > 0
    {
    }

    // Remove the handle with this key, if any.
    method Remove(key: CacheKey, hash: nat) returns (result: Handle?)
      requires Valid()
      modifies this, list, handles`nextHash
      ensures Valid() && list == old(list)
      ensures result != null ==>
        result in old(handles) && result.Matches(key, hash) && handles == old(handles) - {result}
      ensures result == null ==> handles == old(handles) && forall g :: g in handles ==> !g.Matches(key, hash)
    {
      hide Table, UniqueKeys, LinksOf;
      Bounds();
      var slot, target, i := FindPointer(key, hash);
      result := target;
      if result != null {
        UniqueFewer(handles, result);
        OneLess(handles, result);
        Relink(slot, result.nextHash, Splice(hash % list.Length, i, i + 1, []));
        elems := elems - 1;
      }
    }

    // Every handle moves to the front of its bucket in a new array.
    method Resize()
      requires Valid()
      modifies this`list, this`chains, handles`nextHash
      ensures Valid() && fresh(list)
    {
      hide Table, UniqueKeys, Moved, LinksOf;
      Start();
      Bounds();
      NoneMoved(chains, handles);
      var newLength := 4;
      while newLength < elems
        invariant newLength >= 4
      {
        newLength := newLength * 2;
      }
      var newList := new Handle?[newLength](_ => null);
      ghost var newChains: seq<seq<Handle>>, moved: set<Handle>, links := seq(newLength, _ => []), {}, LinksOf(handles);
      EmptyTable(newList[..], newChains);
      var count := 0;
      for i := 0 to list.Length
        invariant list == old(list) && chains == old(chains) && newList.Length == newLength
        invariant Table(LinksOf(moved), newList[..], newChains, moved) && |newChains| == newLength && count == |moved|
        invariant moved <= handles && Unmoved(links, moved)
        invariant if i < |chains| then Moved(chains, handles, moved, i, 0) else moved == handles
      {
        var moves;
        newChains, moved, moves := MoveBucket(newList, i, newChains, moved, links);
        count := count + moves;
      }
      list, chains := newList, newChains;
    }

    // One bucket, from its first handle to its last.
    method MoveBucket(newList: array<Handle?>, i: nat, ghost newChains: seq<seq<Handle>>, ghost moved: set<Handle>,
        ghost links: Links)
      returns (ghost after: seq<seq<Handle>>, ghost now: set<Handle>, moves: nat)
      requires i < list.Length && newList != list && Table(links, list[..], chains, handles) && |chains| == list.Length
      requires Table(LinksOf(moved), newList[..], newChains, moved)
      requires moved <= handles && Unmoved(links, moved) && Moved(chains, handles, moved, i, 0)
      modifies newList, handles`nextHash
      ensures Table(LinksOf(now), newList[..], after, now) && |after| == |newChains| && now <= handles
      ensures Unmoved(links, now)
      ensures if i + 1 < |chains| then Moved(chains, handles, now, i + 1, 0) else now == handles
      ensures |now| == |moved| + moves
    {
      hide Table, Moved;
      var h := list[i];
      ghost var k := 0;
      after, now, moves := newChains, moved, 0;
      BucketOf(links, list[..], chains, handles, i);
      while h != null
        invariant k <= |chains[i]| && h == At(chains[i], k)
        invariant Table(LinksOf(now), newList[..], after, now) && |after| == |newChains| && |now| == |moved| + moves
        invariant now <= handles && Moved(chains, handles, now, i, k) && Unmoved(links, now)
        decreases |chains[i]| - k
      {
        NextUnmoved(links, list[..], chains, handles, now, i, k);
        var next := h.nextHash;
        after := PushFront(newList, h, after, now);
        now := now + {h};
        h, k, moves := next, k + 1, moves + 1;
      }
      BucketDone(links, list[..], chains, handles, now, i);
    }

    // Handles not moved keep their links.
    ghost predicate Unmoved(links: Links, moved: set<Handle>)
      reads this, handles`nextHash
    {
      links.Keys == handles && forall h :: h in handles && h !in moved ==> h.nextHash == links[h]
    }

    static method PushFront(newList: array<Handle?>, h: Handle, ghost newChains: seq<seq<Handle>>,
        ghost moved: set<Handle>)
      returns (ghost after: seq<seq<Handle>>)
      requires Table(LinksOf(moved), newList[..], newChains, moved) && h !in moved
      modifies newList, h`nextHash
      ensures Table(LinksOf(moved + {h}), newList[..], after, moved + {h}) && |after| == |newChains|
    {
      hide Table;
      TableSizes(LinksOf(moved), newList[..], newChains, moved);
      ghost var b, links, heads := h.hash % newList.Length, LinksOf(moved), newList[..];
      ghost var s := Splice(b, 0, 0, [h]);
      BucketOf(links, heads, newChains, moved, b);
      Spliced(s, links, heads, newChains, moved);
      h.nextHash := newList[h.hash % newList.Length];
      newList[h.hash % newList.Length] := h;
      after := s.Chains(newChains);
      assert newList[..] == s.Heads(heads, newChains);
      assert LinksOf(moved + {h}) == s.LinksAfter(links, newChains);
      assert moved - {} + {h} == moved + {h};
    }

    method Store(slot: Slot, to: Handle?)
      requires slot.Bucket? ==> slot.b < list.Length
      modifies if slot.Bucket? then {list} else {}, (if slot.Link? then {slot.h} else {})`nextHash
      ensures list[..] == StoredHeads(old(list[..]), slot, to)
      ensures slot.Link? ==> slot.h.nextHash == to
    {
      match slot
      case Bucket(b) => list[b] := to;
      case Link(g) => g.nextHash := to;
    }
  }
}
