// One shard of the cache (util/cache.cc): a hash table, and two circular lists of the cached entries.

module LruCaches {
  import opened HandleTables

  // ---- Circular lists ----

  type Pointers = map<Handle, Handle?>

  ghost function NextOf(nodes: set<Handle>): Pointers
    reads nodes`next
  {
    map h | h in nodes :: h.next
  }

  ghost function PrevOf(nodes: set<Handle>): Pointers
    reads nodes`prev
  {
    map h | h in nodes :: h.prev
  }

  function Wrap(ring: seq<Handle>, k: nat): Handle
    requires ring != [] && k <= |ring|
  {
    if k == |ring| then ring[0] else ring[k]
  }

  ghost predicate NoDup(list: seq<Handle>) { forall i, j :: 0 <= i < j < |list| ==> list[i] != list[j] }

  // Both ways round, the links run through exactly this ring.
  ghost predicate Ring(next: Pointers, prev: Pointers, ring: seq<Handle>) {
    && ring != [] && NoDup(ring)
    && (forall k :: 0 <= k < |ring| ==> Linked(next, prev, ring[k], Wrap(ring, k + 1)))
  }

  ghost predicate Linked(next: Pointers, prev: Pointers, a: Handle, b: Handle) {
    a in next && b in prev && next[a] == b && prev[b] == a
  }

  function IndexOf(list: seq<Handle>, e: Handle?): (i: nat)
    requires e in list
    ensures i < |list| && list[i] == e
  {
    if list[0] == e then 0 else 1 + IndexOf(list[1..], e)
  }

  function Without(list: seq<Handle>, e: Handle?): seq<Handle> {
    if e in list then var i := IndexOf(list, e); list[..i] + list[i + 1..] else list
  }

  lemma Neighbours(next: Pointers, prev: Pointers, ring: seq<Handle>, i: nat)
    requires Ring(next, prev, ring) && i < |ring|
    ensures var p := if i == 0 then ring[|ring| - 1] else ring[i - 1]; Linked(next, prev, p, ring[i])
    ensures Linked(next, prev, ring[i], Wrap(ring, i + 1))
  {
    var j := if i == 0 then |ring| - 1 else i - 1;
    assert Wrap(ring, j + 1) == ring[i] && Linked(next, prev, ring[j], Wrap(ring, j + 1));
  }

  lemma RingWithout(next: Pointers, prev: Pointers, head: Handle, list: seq<Handle>, e: Handle)
    requires Ring(next, prev, [head] + list) && e in list
    ensures e in next && e in prev && next[e] != null && prev[e] != null
    ensures var n, p := next[e], prev[e];
            && n in prev && p in next && n in [head] + list && p in [head] + list
            && Ring(next[p := n], prev[n := p], [head] + Without(list, e))
  {
    hide Ring, NoDup, Without, IndexOf;
    var m, ring := IndexOf(list, e) + 1, [head] + list;
    WithoutCut(head, list, e);
    RingAt(next, prev, ring, m, e);
    RingCut(next, prev, ring, m);
  }

  lemma WithoutCut(head: Handle, list: seq<Handle>, e: Handle)
    requires e in list
    ensures var m, ring := IndexOf(list, e) + 1, [head] + list;
            m < |ring| && ring[m] == e && [head] + Without(list, e) == ring[..m] + ring[m + 1..]
  {
    hide IndexOf;
    var i, ring := IndexOf(list, e), [head] + list;
    assert ring[..i + 1] == [head] + list[..i] && ring[i + 2..] == list[i + 1..];
    assert [head] + (list[..i] + list[i + 1..]) == ([head] + list[..i]) + list[i + 1..];
  }

  lemma RingAt(next: Pointers, prev: Pointers, ring: seq<Handle>, m: nat, e: Handle)
    requires Ring(next, prev, ring) && 0 < m < |ring| && ring[m] == e
    ensures e in next && e in prev && next[e] == Wrap(ring, m + 1) && prev[e] == ring[m - 1]
    ensures Wrap(ring, m + 1) in prev && ring[m - 1] in next && Wrap(ring, m + 1) in ring && ring[m - 1] in ring
  {
    Neighbours(next, prev, ring, m);
  }

  lemma RingCut(next: Pointers, prev: Pointers, ring: seq<Handle>, m: nat)
    requires Ring(next, prev, ring) && 0 < m < |ring|
    ensures var p, n := ring[m - 1], Wrap(ring, m + 1); Ring(next[p := n], prev[n := p], ring[..m] + ring[m + 1..])
  {
    hide Ring, NoDup, Linked;
    var p, n, to := ring[m - 1], Wrap(ring, m + 1), ring[..m] + ring[m + 1..];
    forall k | 0 <= k < |to| ensures Linked(next[p := n], prev[n := p], to[k], Wrap(to, k + 1)) {
      CutLink(next, prev, ring, m, k);
    }
    CutNoDup(next, prev, ring, m);
    AsRing(next[p := n], prev[n := p], to);
  }

  lemma AsRing(next: Pointers, prev: Pointers, ring: seq<Handle>)
    requires ring != [] && NoDup(ring) && forall k :: 0 <= k < |ring| ==> Linked(next, prev, ring[k], Wrap(ring, k + 1))
    ensures Ring(next, prev, ring)
  {
  }

  lemma CutNoDup(next: Pointers, prev: Pointers, ring: seq<Handle>, m: nat)
    requires Ring(next, prev, ring) && 0 < m < |ring|
    ensures NoDup(ring[..m] + ring[m + 1..])
  {
    hide Linked;
    var to := ring[..m] + ring[m + 1..];
    forall k | 0 <= k < |to| ensures to[k] == ring[if k < m then k else k + 1] {}
  }

  lemma CutLink(next: Pointers, prev: Pointers, ring: seq<Handle>, m: nat, k: nat)
    requires Ring(next, prev, ring) && 0 < m < |ring| && k < |ring| - 1
    ensures var p, n, to := ring[m - 1], Wrap(ring, m + 1), ring[..m] + ring[m + 1..];
            Linked(next[p := n], prev[n := p], to[k], Wrap(to, k + 1))
  {
    hide Ring, Wrap;
    var to, j := ring[..m] + ring[m + 1..], if k < m then k else k + 1;
    CutWrap(ring, m, k);
    Neighbours(next, prev, ring, m);
    if k != m - 1 {
      Neighbours(next, prev, ring, j);
      RingDistinct(next, prev, ring, j, m);
    }
  }

  // A handle of the ring and the one after it, once another one is taken out.
  lemma CutWrap(ring: seq<Handle>, m: nat, k: nat)
    requires 0 < m < |ring| && k < |ring| - 1
    ensures var to, j := ring[..m] + ring[m + 1..], if k < m then k else k + 1;
            to[k] == ring[j] && Wrap(to, k + 1) == if k == m - 1 then Wrap(ring, m + 1) else Wrap(ring, j + 1)
  {
  }

  lemma RingDistinct(next: Pointers, prev: Pointers, ring: seq<Handle>, j: nat, m: nat)
    requires Ring(next, prev, ring) && 0 < m < |ring| && j < |ring| && j != m && j != m - 1
    ensures ring[j] != ring[m - 1] && Wrap(ring, j + 1) != Wrap(ring, m + 1)
  {
    WrapApart(ring, j + 1, m + 1);
  }

  lemma WrapApart(ring: seq<Handle>, i: nat, j: nat)
    requires ring != [] && NoDup(ring) && 0 < i <= |ring| && 0 < j <= |ring| && i != j
    ensures Wrap(ring, i) != Wrap(ring, j)
  {
  }

  lemma RingWith(next: Pointers, prev: Pointers, head: Handle, list: seq<Handle>, e: Handle)
    requires Ring(next, prev, [head] + list) && e != head && e !in list
    ensures head in prev && prev[head] != null
    ensures var p := prev[head];
            p in next && p in [head] + list &&
              Ring(next[e := head][p := e], prev[e := p][head := e], [head] + (list + [e]))
  {
    var ring, to := [head] + list, [head] + (list + [e]);
    Neighbours(next, prev, ring, 0);
    var p := ring[|list|];
    assert to == ring + [e];
    forall k | 0 <= k < |to| ensures Linked(next[e := head][p := e], prev[e := p][head := e], to[k], Wrap(to, k + 1)) {
      if k < |list| {
        Neighbours(next, prev, ring, k);
        assert to[k] == ring[k] && Wrap(to, k + 1) == ring[k + 1];
        assert ring[k] in ring && ring[k + 1] in ring;
      }
    }
  }

  // A store into a node outside the ring changes nothing.
  lemma RingAside(next: Pointers, prev: Pointers, ring: seq<Handle>, h: Handle, to: Handle?)
    requires Ring(next, prev, ring) && h !in ring
    ensures Ring(next[h := to], prev, ring) && Ring(next, prev[h := to], ring)
  {
    forall k | 0 <= k < |ring| ensures ring[k] != h && Wrap(ring, k + 1) != h { assert Wrap(ring, k + 1) in ring; }
  }

  // ---- The cache ----

  function Charge(list: seq<Handle>): nat {
    if list == [] then 0 else list[0].charge + Charge(list[1..])
  }

  datatype Mark = Mark(refs: nat, inCache: bool)

  type Marks = map<Handle, Mark>

  ghost function MarksOf(known: set<Handle>): Marks
    reads known`refs, known`inCache
  {
    map h | h in known :: Mark(h.refs, h.inCache)
  }

  // What the cache knows of its handles besides their own fields.
  datatype Book = Book(known: set<Handle>, lru: seq<Handle>, inUse: seq<Handle>, clients: multiset<Handle>,
    deleted: seq<Handle>)

  ghost predicate Count(m: Mark, b: Book, h: Handle, owed: Handle?) {
    && m.refs == b.clients[h] + (if m.inCache then 1 else 0) + (if h == owed then 1 else 0)
    && (m.inCache <==> h in b.lru || h in b.inUse)
    && (h in b.lru ==> b.clients[h] == 0 && h != owed) && (h in b.inUse ==> b.clients[h] > 0 || h == owed)
    && (h in b.deleted <==> m.refs == 0)
  }

  ghost predicate Counts(marks: Marks, b: Book, owed: Handle?) {
    && marks.Keys == b.known
    && (forall h {:trigger Count(marks[h], b, h, owed)} :: h in b.known ==> Count(marks[h], b, h, owed))
    && NoDup(b.deleted) && (forall h :: h in b.deleted ==> h in b.known)
    && (forall h :: h in b.clients ==> h in b.known)
  }

  // Only e's place and count change; nothing else is noticed.
  ghost predicate OneChanged(b: Book, c: Book, e: Handle) {
    && c.known == b.known
    && (forall h :: h in b.known && h != e ==>
          && c.clients[h] == b.clients[h]
          && (h in c.lru <==> h in b.lru) && (h in c.inUse <==> h in b.inUse) && (h in c.deleted <==> h in b.deleted))
    && (forall h :: h in c.clients ==> h in b.clients || h == e) && forall h :: h in c.deleted ==>
         h in b.deleted || h == e
  }

  lemma CountsAfter(m: Marks, b: Book, owed: Handle?, mark: Mark, c: Book, owed': Handle?, e: Handle)
    requires Counts(m, b, owed) && OneChanged(b, c, e) && e in b.known
    requires (owed == owed' || owed == e || owed == null) && (owed' == owed || owed' == e || owed' == null)
    requires Count(mark, c, e, owed') && NoDup(c.deleted)
    ensures Counts(m[e := mark], c, owed')
  {
    hide NoDup;
    var n := m[e := mark];
    forall h | h in c.known ensures Count(n[h], c, h, owed') {
      assert h != e ==> Count(m[h], b, h, owed);
    }
  }

  // The books after a reference is taken.
  function RefBook(b: Book, mark: Mark, e: Handle): Book {
    if mark.refs == 1 && mark.inCache then
      b.(lru := Without(b.lru, e), inUse := b.inUse + [e], clients := b.clients + multiset{e})
    else
      b.(clients := b.clients + multiset{e})
  }

  lemma RefCounts(m: Marks, b: Book, mark: Mark, e: Handle, head: Handle)
    requires Counts(m, b, null) && e in b.known && m[e] == mark && mark.refs > 0 && NoDup([head] + b.lru)
    ensures Counts(m[e := mark.(refs := mark.refs + 1)], RefBook(b, mark, e), null)
  {
    hide NoDup, Without, Charge;
    assert Count(m[e], b, e, null) && NoDup(b.deleted);
    WithoutMembers(head, b.lru, e);
    WithAtEnd(b.inUse, e);
    CountsAfter(m, b, null, mark.(refs := mark.refs + 1), RefBook(b, mark, e), null, e);
  }

  lemma CountsMore(m: Marks, b: Book, n: Marks, c: Book, e: Handle)
    requires Counts(m, b, null) && e !in b.known && n == m[e := Mark(1, false)] && e !in b.lru && e !in b.inUse
    requires c == b.(known := b.known + {e}, clients := b.clients + multiset{e})
    ensures Counts(n, c, null)
  {
    forall h | h in c.known ensures Count(n[h], c, h, null) {
      assert h != e ==> Count(m[h], b, h, null);
    }
  }

  ghost predicate Placed(a: Handle, b: Handle, known: set<Handle>, lru: seq<Handle>, inUse: seq<Handle>) {
    && a != b && a !in known && b !in known
    && (forall h :: h in lru ==> h in known && h !in inUse) && (forall h :: h in inUse ==> h in known)
  }

  lemma PlacedWithout(a: Handle, b: Handle, known: set<Handle>, lru: seq<Handle>, inUse: seq<Handle>, e: Handle)
    requires Placed(a, b, known, lru, inUse) && NoDup([a] + lru) && NoDup([b] + inUse)
    ensures Placed(a, b, known, Without(lru, e), Without(inUse, e))
  {
    WithoutMembers(a, lru, e);
    WithoutMembers(b, inUse, e);
  }

  class LRUCache {
    const capacity: nat
    var usage: nat
    const lruHead: Handle
    const inUseHead: Handle
    const table: HandleTable
    // The two lists, the unused entries from the oldest on; every handle ever made; the handles clients
    // hold, with multiplicity; the deleter calls so far.
    ghost var lru: seq<Handle>
    ghost var inUse: seq<Handle>
    ghost var known: set<Handle>
    ghost var clients: multiset<Handle>
    ghost var deleted: seq<Handle>

    constructor (capacity: nat)
      ensures Inv() && this.capacity == capacity && lru == [] && inUse == [] && clients == multiset{} && deleted == []
      ensures fresh(table) && fresh(table.list) && known == {} && fresh(lruHead) && fresh(inUseHead)
    {
      hide HandleTable.Valid, Ring;
      var l := new Handle("", 0, "", 0);
      var u := new Handle("", 0, "", 0);
      var t := new HandleTable();
      l.next, l.prev, u.next, u.prev := l, l, u, u;
      this.capacity, usage, lruHead, inUseHead, table := capacity, 0, l, u, t;
      lru, inUse, known, clients, deleted := [], [], {}, multiset{}, [];
      new;
      EmptyRing(NextOf(Nodes()), PrevOf(Nodes()), lruHead);
      EmptyRing(NextOf(Nodes()), PrevOf(Nodes()), inUseHead);
    }

    ghost function Nodes(): set<Handle>
      reads this`known
    {
      known + {lruHead, inUseHead}
    }

    ghost function Cached(): set<Handle>
      reads this`known, this`lru, this`inUse
    {
      set h | h in known && (h in lru || h in inUse)
    }

    ghost predicate Places()
      reads this`known, this`lru, this`inUse
    {
      Placed(lruHead, inUseHead, known, lru, inUse)
    }

    ghost predicate Charged()
      reads this`usage, this`lru, this`inUse
    {
      usage == Charge(lru) + Charge(inUse)
    }

    ghost predicate Rings()
      reads this`known, this`lru, this`inUse, Nodes()`next, Nodes()`prev
    {
      && Ring(NextOf(Nodes()), PrevOf(Nodes()), [lruHead] + lru)
      && Ring(NextOf(Nodes()), PrevOf(Nodes()), [inUseHead] + inUse)
    }

    ghost function TheBook(): Book
      reads this
    {
      Book(known, lru, inUse, clients, deleted)
    }

    // `owed` is a handle one of whose references is about to be given up.
    ghost predicate Core(owed: Handle?)
      reads this, Nodes()`next, Nodes()`prev, known`refs, known`inCache
    {
      Places() && Charged() && Rings() && Counts(MarksOf(known), TheBook(), owed)
    }

    // What holds between calls: each cached entry is in exactly one list, on the first with the cache's
    // reference only, on the second with others too; and each entry's deleter has run once if its
    // references are gone and not at all otherwise.
    ghost predicate Inv()
      reads this, Nodes()`next, Nodes()`prev, known`refs, known`inCache, table, table.list, table.handles`nextHash
    {
      Core(null) && table.Valid() && table.handles == Cached()
    }

    lemma Separate()
      requires Places()
      ensures forall h :: h in [lruHead] + lru ==> h !in [inUseHead] + inUse
      ensures forall h :: h in [lruHead] + lru || h in [inUseHead] + inUse ==> h in Nodes()
    {
    }

    lemma LastOf(list: Handle)
      requires Places() && Rings() && (list == lruHead || list == inUseHead)
      ensures list.prev != null
      ensures list.prev == (if list == lruHead then ([lruHead] + lru)[|lru|] else ([inUseHead] + inUse)[|inUse|])
      ensures list.prev in Nodes() && (list.prev == list || list.prev in lru || list.prev in inUse)
    {
      var ring := if list == lruHead then [lruHead] + lru else [inUseHead] + inUse;
      Neighbours(NextOf(Nodes()), PrevOf(Nodes()), ring, 0);
    }

    lemma RingsNoDup()
      requires Rings()
      ensures NoDup([lruHead] + lru) && NoDup([inUseHead] + inUse)
    {
    }

    method LRURemove(e: Handle)
      requires Places() && Rings() && (e in lru || e in inUse)
      modifies this`lru, this`inUse, Nodes()`next, Nodes()`prev
      ensures Places() && Rings() && lru == Without(old(lru), e) && inUse == Without(old(inUse), e)
      ensures forall h :: (h in lru <==> h in old(lru) && h != e) && (h in inUse <==> h in old(inUse) && h != e)
      ensures Charge(lru) + Charge(inUse) == old(Charge(lru) + Charge(inUse)) - e.charge
    {
      hide Ring, NoDup, Charge, Without, Placed;
      RingsNoDup();
      Absent(e);
      PlacedWithout(lruHead, inUseHead, known, lru, inUse, e);
      WithoutMembers(lruHead, lru, e);
      WithoutMembers(inUseHead, inUse, e);
      WithoutCharge(lru, e);
      WithoutCharge(inUse, e);
      Separate();
      ghost var next: Pointers, prev: Pointers := NextOf(Nodes()), PrevOf(Nodes());
      RemoveLinks(next, prev, lruHead, lru, inUseHead, inUse, e);
      NeighboursInside(e);
      ghost var n: Handle, p: Handle := e.next, e.prev;
      assert next[e] == n && prev[e] == p;
      Unlink(e);
      assert NextOf(Nodes()) == next[p := n] && PrevOf(Nodes()) == prev[n := p];
      lru, inUse := Without(lru, e), Without(inUse, e);
    }

    method Unlink(e: Handle)
      requires e in Nodes() && e.next != null && e.prev != null && e.next in Nodes() && e.prev in Nodes() && e.next != e
      requires e.prev != e
      modifies Nodes()`next, Nodes()`prev
      ensures NextOf(Nodes()) == old(NextOf(Nodes()))[old(e.prev) := old(e.next)]
      ensures PrevOf(Nodes()) == old(PrevOf(Nodes()))[old(e.next) := old(e.prev)]
    {
      e.next.prev := e.prev;
      e.prev.next := e.next;
    }

    lemma NeighboursInside(e: Handle)
      requires Places() && Rings() && (e in lru || e in inUse)
      ensures e in Nodes() && e.next != null && e.prev != null && e.next in Nodes() && e.prev in Nodes() && e.next != e
      ensures e.prev != e
    {
      Separate();
      var head, list := if e in lru then lruHead else inUseHead, if e in lru then lru else inUse;
      RingWithout(NextOf(Nodes()), PrevOf(Nodes()), head, list, e);
      NotItself(NextOf(Nodes()), PrevOf(Nodes()), head, list, e);
    }

    // The new entry goes last, before the head.
    method LRUAppend(list: Handle, e: Handle)
      requires Places() && Rings() && e in known && e !in lru && e !in inUse && (list == lruHead || list == inUseHead)
      modifies this`lru, this`inUse, Nodes()`next, Nodes()`prev
      ensures Places() && Rings()
      ensures forall h :: (h in lru || h in inUse <==> h in old(lru) || h in old(inUse) || h == e)
      ensures Charge(lru) + Charge(inUse) == old(Charge(lru) + Charge(inUse)) + e.charge
      ensures if list == lruHead then lru == old(lru) + [e] && inUse == old(inUse)
        else lru == old(lru) && inUse == old(inUse) + [e]
    {
      hide Ring, NoDup, Charge;
      Separate();
      LastOf(list);
      ghost var next: Pointers, prev: Pointers := NextOf(Nodes()), PrevOf(Nodes());
      if list == lruHead {
        AppendLinks(next, prev, lruHead, lru, [inUseHead] + inUse, e);
        WithAtEnd(lru, e);
        lru := lru + [e];
      } else {
        AppendLinks(next, prev, inUseHead, inUse, [lruHead] + lru, e);
        WithAtEnd(inUse, e);
        inUse := inUse + [e];
      }
      LinkBefore(list, e);
    }

    method LinkBefore(list: Handle, e: Handle)
      requires list in Nodes() && e in Nodes() && list != e && list.prev != null && list.prev in Nodes()
      requires list.prev != e
      modifies Nodes()`next, Nodes()`prev
      ensures NextOf(Nodes()) == old(NextOf(Nodes()))[e := list][old(list.prev) := e]
      ensures PrevOf(Nodes()) == old(PrevOf(Nodes()))[e := old(list.prev)][list := e]
    {
      ghost var p: Handle := list.prev;
      e.next := list;
      assert NextOf(Nodes()) == old(NextOf(Nodes()))[e := list];
      e.prev := list.prev;
      e.prev.next := e;
      e.next.prev := e;
    }

    method SetMark(e: Handle, refs: nat, inCache: bool)
      requires e in known
      modifies e`refs, e`inCache
      ensures e.refs == refs && e.inCache == inCache
      ensures MarksOf(known) == old(MarksOf(known))[e := Mark(refs, inCache)]
    {
      e.refs, e.inCache := refs, inCache;
    }

    // A client takes a reference; the first one moves the entry to the list of entries in use.
    method Ref(e: Handle)
      requires Core(null) && e in known && e.refs > 0
      modifies this`lru, this`inUse, this`clients, Nodes()`next, Nodes()`prev, e`refs, e`inCache
      ensures Core(null) && Cached() == old(Cached()) && clients == old(clients) + multiset{e}
      ensures lru == Without(old(lru), e)
      ensures inUse == if e in old(lru) then old(inUse) + [e] else old(inUse)
    {
      hide Places, Charged, Charge, Rings, Ring, NoDup, Without, Counts, MarksOf;
      ghost var m, b := MarksOf(known), TheBook();
      CountFacts(e);
      RingsNoDup();
      Absent(e);
      RefCounts(m, b, Mark(e.refs, e.inCache), e, lruHead);
      if e.refs == 1 && e.inCache {
        MoveTo(inUseHead, e);
      }
      SetMark(e, e.refs + 1, e.inCache);
      clients := clients + multiset{e};
    }

    // From one list to the end of the other.
    method MoveTo(list: Handle, e: Handle)
      requires Places() && Charged() && Rings() && (list == lruHead || list == inUseHead)
      requires if list == lruHead then e in inUse else e in lru
      modifies this`lru, this`inUse, Nodes()`next, Nodes()`prev
      ensures Places() && Charged() && Rings()
      ensures list == lruHead ==> lru == old(lru) + [e] && inUse == Without(old(inUse), e)
      ensures list == inUseHead ==> inUse == old(inUse) + [e] && lru == Without(old(lru), e)
      ensures forall h :: h != e ==> (h in lru <==> h in old(lru)) && (h in inUse <==> h in old(inUse))
      ensures Cached() == old(Cached())
      ensures if list == lruHead then e in lru && e !in inUse else e in inUse && e !in lru
    {
      hide Ring, NoDup, Charge, Without, Rings;
      Absent(e);
      LRURemove(e);
      LRUAppend(list, e);
    }

    lemma Absent(e: Handle)
      requires Places()
      ensures (e in lru ==> e !in inUse && Without(inUse, e) == inUse)
      ensures (e in inUse ==> e !in lru && Without(lru, e) == lru)
    {
    }

    lemma CountFacts(e: Handle)
      requires Core(null) && e in known
      ensures NoDup(deleted) && Count(Mark(e.refs, e.inCache), TheBook(), e, null)
      ensures MarksOf(known)[e := Mark(e.refs, e.inCache)] == MarksOf(known)
      ensures MarksOf(known)[e] == Mark(e.refs, e.inCache)
      ensures e.refs == 1 && e.inCache ==> e in lru
      ensures e.refs == 1 && e.inCache <== e in lru
      ensures (e !in lru ==> Without(lru, e) == lru) && lruHead != inUseHead
    {
      assert Count(MarksOf(known)[e], TheBook(), e, null);
    }

    // A reference is given up. With the last one the deleter runs; when only the cache's is left the entry
    // becomes the newest of the unused ones.
    method Unref(e: Handle)
      requires Core(e) && e in known
      modifies this`lru, this`inUse, this`deleted, Nodes()`next, Nodes()`prev, e`refs, e`inCache
      ensures Core(null) && Cached() == old(Cached())
      ensures var idle := e.inCache && clients[e] == 0;
              && lru == (if idle then old(lru) + [e] else old(lru))
              && inUse == (if idle then Without(old(inUse), e) else old(inUse))
      ensures deleted == if !e.inCache && clients[e] == 0 then old(deleted) + [e] else old(deleted)
    {
      hide Places, Charged, Charge, Rings, Ring, NoDup, Without, Counts, MarksOf;
      ghost var m, b := MarksOf(known), TheBook();
      OwedFacts(e);
      SetMark(e, e.refs - 1, e.inCache);
      if e.refs == 0 {
        NoDupPush(deleted, e);
        deleted := deleted + [e];
      } else if e.inCache && e.refs == 1 {
        MoveTo(lruHead, e);
      }
      CountsAfter(m, b, e, Mark(e.refs, e.inCache), TheBook(), null, e);
    }

    lemma OwedFacts(e: Handle)
      requires Core(e) && e in known
      ensures NoDup(deleted) && Count(Mark(e.refs, e.inCache), TheBook(), e, e)
      ensures e.refs == clients[e] + (if e.inCache then 1 else 0) + 1 && e !in deleted && e !in lru
      ensures (e.inCache <==> e in inUse)
    {
      assert Count(MarksOf(known)[e], TheBook(), e, e);
    }

    lemma ClientKnown(e: Handle)
      requires Core(null) && e in clients
      ensures e in known
    {
    }

    method Release(e: Handle)
      requires Inv() && e in clients
      modifies this`lru, this`inUse, this`clients, this`deleted, Nodes()`next, Nodes()`prev, e`refs, e`inCache
      ensures Inv() && clients == old(clients) - multiset{e}
      ensures var idle := e.inCache && clients[e] == 0;
              && lru == (if idle then old(lru) + [e] else old(lru))
              && inUse == (if idle then Without(old(inUse), e) else old(inUse))
      ensures deleted == if !e.inCache && clients[e] == 0 then old(deleted) + [e] else old(deleted)
    {
      hide Places, Charged, Charge, Rings, Ring, NoDup, Without, HandleTable.Valid, Counts, MarksOf;
      ghost var m, b := MarksOf(known), TheBook();
      ClientKnown(e);
      CountFacts(e);
      clients := clients - multiset{e};
      CountsAfter(m, b, null, Mark(e.refs, e.inCache), TheBook(), e, e);
      Unref(e);
    }

    // e, no longer in the table, leaves the cache.
    method FinishErase(e: Handle?) returns (erased: bool)
      requires Core(null) && (e != null ==> e in Cached())
      modifies this`usage, this`lru, this`inUse, this`deleted, Nodes()`next, Nodes()`prev,
        (if e == null then {} else {e})`refs
      modifies (if e == null then {} else {e})`inCache
      ensures Core(null) && (erased <==> e != null)
      ensures e == null ==> lru == old(lru) && inUse == old(inUse) && deleted == old(deleted) && usage == old(usage)
      ensures e != null ==>
        && lru == Without(old(lru), e) && inUse == Without(old(inUse), e) && Cached() == old(Cached()) - {e}
        && usage == old(usage) - e.charge && deleted == if clients[e] == 0 then old(deleted) + [e] else old(deleted)
    {
      hide Core, Charge, Without;
      if e != null {
        LeaveLists(e);
        Unref(e);
      }
      erased := e != null;
    }

    method LeaveLists(e: Handle)
      requires Core(null) && e in Cached()
      modifies this`usage, this`lru, this`inUse, Nodes()`next, Nodes()`prev, e`refs, e`inCache
      ensures Core(e) && !e.inCache && Cached() == old(Cached()) - {e} && usage == old(usage) - e.charge
      ensures lru == Without(old(lru), e) && inUse == Without(old(inUse), e)
    {
      hide Places, Rings, Ring, NoDup, Charge, Without, Counts, MarksOf;
      ghost var m, b := MarksOf(known), TheBook();
      Holds(e);
      CountFacts(e);
      LRURemove(e);
      SetMark(e, e.refs, false);
      usage := usage - e.charge;
      CountsAfter(m, b, null, Mark(e.refs, e.inCache), TheBook(), e, e);
    }

    lemma Holds(e: Handle)
      requires Core(null) && e in Cached()
      ensures e in known && e.inCache && e.refs > 0 && e.charge <= usage
    {
      assert Count(MarksOf(known)[e], TheBook(), e, null);
      if e in lru { ChargeOf(lru, e); } else { ChargeOf(inUse, e); }
    }

    method Lookup(key: CacheKey, hash: nat) returns (e: Handle?)
      requires Inv()
      modifies this`lru, this`inUse, this`clients, Nodes()`next, Nodes()`prev, known`refs, known`inCache
      ensures Inv() && (e == null ==> forall h :: h in table.handles ==> !h.Matches(key, hash))
      ensures e == null ==> lru == old(lru) && inUse == old(inUse) && clients == old(clients)
      ensures e != null ==>
        && e in table.handles && e.Matches(key, hash) && clients == old(clients) + multiset{e}
        && lru == Without(old(lru), e)
        && inUse == if e in old(lru) then old(inUse) + [e] else old(inUse)
    {
      hide Places, Charged, Rings, Ring, Charge, Without, HandleTable.Valid;
      e := table.Lookup(key, hash);
      if e != null {
        Holds(e);
        Ref(e);
      }
    }

    method Erase(key: CacheKey, hash: nat)
      requires Inv()
      modifies this`usage, this`lru, this`inUse, this`deleted, Nodes()`next, Nodes()`prev, known`refs, known`inCache
      modifies table, table.list, table.handles`nextHash
      ensures Inv() && forall h :: h in table.handles <==> h in old(table.handles) && !h.Matches(key, hash)
      ensures forall h :: h in old(table.handles) && h.Matches(key, hash) ==>
                lru == Without(old(lru), h) && deleted == if clients[h] == 0 then old(deleted) + [h] else old(deleted)
      ensures (forall h :: h in old(table.handles) ==> !h.Matches(key, hash)) ==>
        lru == old(lru) && deleted == old(deleted)
    {
      hide Core, Charge, HandleTable.Valid, Without;
      UniqueMatch(key, hash);
      var e := table.Remove(key, hash);
      var _ := FinishErase(e);
    }

    lemma UniqueMatch(key: CacheKey, hash: nat)
      requires table.Valid()
      ensures forall g, h ::
        g in table.handles && h in table.handles && g.Matches(key, hash) && h.Matches(key, hash) ==> g == h
    {
    }

    lemma Oldest()
      requires Core(null)
      ensures lruHead.next == (if lru == [] then lruHead else lru[0]) && (lru != [] ==> lru[0] != lruHead)
    {
      Neighbours(NextOf(Nodes()), PrevOf(Nodes()), [lruHead] + lru, 0);
    }

    // The oldest unused entry goes.
    method EvictOldest()
      requires Inv() && lru != []
      modifies this`usage, this`lru, this`inUse, this`deleted, Nodes()`next, Nodes()`prev, known`refs, known`inCache
      modifies table, table.list, table.handles`nextHash
      ensures Inv() && lru == old(lru[1..]) && inUse == old(inUse) && deleted == old(deleted) + [old(lru[0])]
      ensures table.handles == old(table.handles) - {old(lru[0])} && table.list == old(table.list)
      ensures usage == old(usage) - old(lru[0]).charge
    {
      hide Core, Charge, HandleTable.Valid, Without;
      Oldest();
      var e := lruHead.next;
      OldestFacts();
      var removed := table.Remove(e.key, e.hash);
      var erased := FinishErase(removed);
    }

    lemma OldestFacts()
      requires Inv() && lru != []
      ensures lru[0] in table.handles && lru[0] in Cached() && clients[lru[0]] == 0
      ensures Without(lru, lru[0]) == lru[1..] && Without(inUse, lru[0]) == inUse
      ensures forall h :: h in table.handles && h.Matches(lru[0].key, lru[0].hash) ==> h == lru[0]
    {
      assert lru[0] in lru && Count(MarksOf(known)[lru[0]], TheBook(), lru[0], null);
    }

    method Prune()
      requires Inv()
      modifies this`usage, this`lru, this`inUse, this`deleted, Nodes()`next, Nodes()`prev, known`refs, known`inCache
      modifies table, table.list, table.handles`nextHash
      ensures Inv() && lru == [] && inUse == old(inUse) && deleted == old(deleted) + old(lru)
      ensures table.handles == old(table.handles) - SetOf(old(lru))
    {
      hide Core, Cached, HandleTable.Valid, SetOf;
      ghost var k, was := 0, lru;
      NoneTaken(lru);
      Oldest();
      while lruHead.next != lruHead
        invariant Inv() && k <= |was| && lru == was[k..] && inUse == old(inUse) && deleted == old(deleted) + was[..k]
        invariant lruHead.next == (if lru == [] then lruHead else lru[0]) && (lru != [] ==> lru[0] != lruHead)
        invariant table.list == old(table.list)
        invariant table.handles == old(table.handles) - SetOf(was[..k])
        decreases |lru|
      {
        SetOfTake(was, k);
        EvictOldest();
        k := k + 1;
        Oldest();
      }
    }

    // A handle just made, held by the client it is made for.
    method NewHandle(key: CacheKey, hash: nat, value: string, charge: nat) returns (e: Handle)
      requires Inv()
      modifies this`known, this`clients
      ensures Inv() && fresh(e) && e.key == key && e.hash == hash && e.value == value && e.charge == charge
      ensures e.refs == 1 && !e.inCache && e !in old(known) && clients[e] == 1 && e !in Cached()
      ensures known == old(known) + {e} && clients == old(clients) + multiset{e} && Cached() == old(Cached())
    {
      hide Core, HandleTable.Valid, Counts, Cached;
      ghost var nodes := Nodes();
      e := new Handle(key, hash, value, charge);
      assert e !in nodes && Nodes() == nodes;
      Track(e);
    }

    ghost method Track(e: Handle)
      requires Core(null) && e !in Nodes() && e.refs == 1 && !e.inCache && e.next == null && e.prev == null
      modifies this`known, this`clients
      ensures Core(null) && known == old(known) + {e} && clients == old(clients) + multiset{e}
      ensures clients[e] == 1 && e !in Cached() && Cached() == old(Cached())
    {
      hide Ring, Charged, Counts, NextOf, PrevOf, MarksOf;
      ghost var m, b, nodes := MarksOf(known), TheBook(), Nodes();
      Domains(nodes, known);
      NotAClient(e);
      RingMore(NextOf(nodes), PrevOf(nodes), [lruHead] + lru, e);
      RingMore(NextOf(nodes), PrevOf(nodes), [inUseHead] + inUse, e);
      Wider(nodes, known, e);
      known, clients := known + {e}, clients + multiset{e};
      assert Nodes() == nodes + {e};
      CountsMore(m, b, MarksOf(known), TheBook(), e);
    }

    lemma NotAClient(e: Handle)
      requires Core(null) && e !in Nodes()
      ensures e !in clients && e !in lru && e !in inUse
    {
    }

    // The cache's own reference, and the place among the entries in use.
    method Enter(e: Handle)
      requires Core(null) && e in known && !e.inCache && clients[e] == 1 && e !in Cached()
      modifies this`usage, this`inUse, this`lru, Nodes()`next, Nodes()`prev, e`refs, e`inCache
      ensures Core(null) && Cached() == old(Cached()) + {e} && lru == old(lru) && inUse == old(inUse) + [e]
    {
      hide Rings, Ring, Charge, NoDup, Counts, MarksOf;
      ghost var m, b := MarksOf(known), TheBook();
      CountFacts(e);
      EnterFacts(e);
      SetMark(e, e.refs + 1, true);
      LRUAppend(inUseHead, e);
      usage := usage + e.charge;
      CountsAfter(m, b, null, Mark(e.refs, e.inCache), TheBook(), null, e);
    }

    lemma EnterFacts(e: Handle)
      requires Core(null) && e in known && !e.inCache
      ensures e !in lru && e !in inUse && e.refs == clients[e] && lruHead != inUseHead
    {
      assert Count(MarksOf(known)[e], TheBook(), e, null);
    }

    // The new handle enters the list of entries in use and the table; one of the same key leaves the cache.
    method AddToCache(e: Handle) returns (ghost previous: Handle?)
      requires Inv() && e in known && !e.inCache && clients[e] == 1 && e !in Cached()
      modifies this`usage, this`lru, this`inUse, this`deleted, Nodes()`next, Nodes()`prev, known`refs, known`inCache
      modifies table, table.list, known`nextHash
      ensures Inv() && (table.list == old(table.list) || fresh(table.list))
      ensures table.handles == old(table.handles) - (if previous == null then {} else {previous}) + {e}
      ensures if previous == null then forall h :: h in old(table.handles) ==> !h.Matches(e.key, e.hash)
              else previous in old(table.handles) && previous.Matches(e.key, e.hash)
      ensures lru == Without(old(lru), previous) && inUse == Without(old(inUse) + [e], previous)
      ensures deleted == old(deleted) + if previous != null && clients[previous] == 0 then [previous] else []
      ensures e !in lru && e != previous
    {
      hide Core, Charge, Without, HandleTable.Valid, NoDup;
      WithoutNull(lru);
      WithoutNull(inUse + [e]);
      Enter(e);
      var replaced := table.Insert(e);
      var _ := FinishErase(replaced);
      previous := replaced;
      InTable(e);
    }

    lemma CachedKnown()
      ensures Cached() <= known
    {
    }

    lemma InTable(e: Handle)
      requires Inv() && e in table.handles && clients[e] > 0
      ensures e !in lru
    {
      assert Count(MarksOf(known)[e], TheBook(), e, null);
    }

    // The returned handle is the client's. If the cache is over its capacity, unused entries go, the
    // oldest first, and no more of them than needed.
    method Insert(key: CacheKey, hash: nat, value: string, charge: nat)
      returns (e: Handle, ghost previous: Handle?, ghost left: seq<Handle>, ghost k: nat)
      requires Inv()
      modifies this, Nodes()`next, Nodes()`prev, known`refs, known`inCache, known`nextHash, table, table.list
      ensures Inv() && fresh(e) && e.key == key && e.hash == hash && e.value == value && e.charge == charge
      ensures known == old(known) + {e} && clients == old(clients) + multiset{e}
      ensures left == Without(old(lru), previous) && k <= |left| && lru == left[k..]
      ensures usage <= capacity || lru == []
      ensures k > 0 ==> usage + left[k - 1].charge > capacity
      ensures deleted ==
        old(deleted) + (if previous != null && clients[previous] == 0 then [previous] else []) + left[..k]
      ensures inUse == if capacity == 0 then old(inUse) else Without(old(inUse) + [e], previous)
      ensures capacity == 0 ==> previous == null
      ensures capacity > 0 ==>
        if previous == null then forall h :: h in old(table.handles) ==> !h.Matches(key, hash)
        else previous in old(table.handles) && previous.Matches(key, hash)
      ensures table.handles ==
        old(table.handles) - (if previous == null then {} else {previous}) - SetOf(left[..k]) +
          (if capacity > 0 then {e} else {})
    {
      hide Core, Without, HandleTable.Valid, Charge, Cached, SetOf;
      WithoutNull(lru);
      e := NewHandle(key, hash, value, charge);
      previous := null;
      if capacity > 0 {
        previous := AddToCache(e);
      }
      left := lru;
      k := EvictExcess();
      if capacity > 0 { NotTaken(left, k, e); }
    }

    // The eviction loop of Insert.
    method EvictExcess() returns (ghost k: nat)
      requires Inv()
      modifies this`usage, this`lru, this`inUse, this`deleted, Nodes()`next, Nodes()`prev, known`refs, known`inCache
      modifies table, table.list, known`nextHash
      ensures Inv() && k <= |old(lru)| && lru == old(lru)[k..] && inUse == old(inUse)
      ensures deleted == old(deleted) + old(lru)[..k]
      ensures (usage <= capacity || lru == []) && (k > 0 ==> usage + old(lru)[k - 1].charge > capacity)
      ensures table.handles == old(table.handles) - SetOf(old(lru)[..k])
    {
      hide Core, HandleTable.Valid, Cached, SetOf;
      ghost var was := lru;
      k := 0;
      NoneTaken(was);
      Oldest();
      while usage > capacity && lruHead.next != lruHead
        invariant Inv() && inUse == old(inUse) && table.list == old(table.list)
        invariant k <= |was| && lru == was[k..] && deleted == old(deleted) + was[..k]
        invariant k > 0 ==> usage + was[k - 1].charge > capacity
        invariant table.handles == old(table.handles) - SetOf(was[..k])
        invariant lruHead.next == (if lru == [] then lruHead else lru[0]) && (lru != [] ==> lru[0] != lruHead)
        decreases |lru|
      {
        CachedKnown();
        SetOfTake(was, k);
        EvictOldest();
        k := k + 1;
        Oldest();
      }
    }
  }

  // A ring has no duplicates, so e is gone once taken out.
  lemma WithoutMembers(head: Handle, list: seq<Handle>, e: Handle)
    requires NoDup([head] + list)
    ensures forall h :: h in Without(list, e) <==> h in list && h != e
    ensures e !in list ==> Without(list, e) == list
  {
    if e in list {
      var i := IndexOf(list, e);
      var front, back := list[..i], list[i + 1..];
      assert list == front + [e] + back;
      TailNoDup(head, list);
      assert e !in front && e !in back by { OnceOnly(front, e, back); }
    }
  }

  lemma TailNoDup(head: Handle, list: seq<Handle>)
    requires NoDup([head] + list)
    ensures NoDup(list)
  {
    forall i, j | 0 <= i < j < |list| ensures list[i] != list[j] {
      assert ([head] + list)[i + 1] == list[i] && ([head] + list)[j + 1] == list[j];
    }
  }

  lemma OnceOnly(front: seq<Handle>, e: Handle, back: seq<Handle>)
    requires NoDup(front + [e] + back)
    ensures e !in front && e !in back
  {
    var all, n := front + [e] + back, |front|;
    assert all[n] == e;
    forall i | 0 <= i < n ensures front[i] != e { assert all[i] == front[i]; }
    forall i | 0 <= i < |back| ensures back[i] != e { assert all[n + 1 + i] == back[i]; }
  }

  lemma WithoutCharge(list: seq<Handle>, e: Handle)
    ensures Charge(Without(list, e)) == Charge(list) - if e in list then e.charge else 0
  {
    if e in list {
      var i := IndexOf(list, e);
      assert list == list[..i] + ([e] + list[i + 1..]);
      ChargeSum(list[..i], [e] + list[i + 1..]);
      ChargeSum(list[..i], list[i + 1..]);
    }
  }

  lemma {:induction false} ChargeSum(a: seq<Handle>, b: seq<Handle>)
    ensures Charge(a + b) == Charge(a) + Charge(b)
  {
    if a == [] {
      assert a + b == b;
    } else {
      assert (a + b)[1..] == a[1..] + b;
      ChargeSum(a[1..], b);
    }
  }

  lemma ChargeOf(list: seq<Handle>, e: Handle)
    requires e in list
    ensures e.charge <= Charge(list)
  {
    WithoutCharge(list, e);
  }

  lemma WithAtEnd(list: seq<Handle>, e: Handle)
    ensures forall h :: h in list + [e] <==> h in list || h == e
    ensures Charge(list + [e]) == Charge(list) + e.charge
  {
    ChargeSum(list, [e]);
  }

  lemma WithoutNull(list: seq<Handle>)
    ensures Without(list, null) == list
  {
  }

  lemma NotItself(next: Pointers, prev: Pointers, head: Handle, list: seq<Handle>, e: Handle)
    requires Ring(next, prev, [head] + list) && e in list
    ensures e in next && e in prev && next[e] != e && prev[e] != e
  {
    var m, ring := IndexOf(list, e) + 1, [head] + list;
    assert ring[m] == e;
    Neighbours(next, prev, ring, m);
  }

  function SetOf(list: seq<Handle>): set<Handle> { set h | h in list }

  lemma NoneTaken(list: seq<Handle>)
    ensures SetOf(list[..0]) == {} && list[..|list|] == list
  {
  }

  lemma NotTaken(list: seq<Handle>, k: nat, e: Handle)
    requires k <= |list| && e !in list
    ensures e !in SetOf(list[..k])
  {
  }

  lemma SetOfTake(list: seq<Handle>, k: nat)
    requires k < |list|
    ensures SetOf(list[..k + 1]) == SetOf(list[..k]) + {list[k]} && list[..k + 1] == list[..k] + [list[k]]
  {
  }

  lemma NoDupPush(list: seq<Handle>, e: Handle)
    requires NoDup(list) && e !in list
    ensures NoDup(list + [e])
  {
  }

  lemma Domains(nodes: set<Handle>, known: set<Handle>)
    ensures NextOf(nodes).Keys == nodes && PrevOf(nodes).Keys == nodes && MarksOf(known).Keys == known
  {
  }

  lemma Wider(nodes: set<Handle>, known: set<Handle>, e: Handle)
    requires e !in nodes && e !in known
    ensures NextOf(nodes + {e}) == NextOf(nodes)[e := e.next] && PrevOf(nodes + {e}) == PrevOf(nodes)[e := e.prev]
    ensures MarksOf(known + {e}) == MarksOf(known)[e := Mark(e.refs, e.inCache)]
  {
  }

  lemma RingMore(next: Pointers, prev: Pointers, ring: seq<Handle>, e: Handle)
    requires Ring(next, prev, ring) && e !in next && e !in prev
    ensures Ring(next[e := null], prev[e := null], ring)
  {
  }

  lemma EmptyRing(next: Pointers, prev: Pointers, head: Handle)
    requires Linked(next, prev, head, head)
    ensures Ring(next, prev, [head] + [])
  {
  }

  // Taking e out of one ring leaves the other as it is.
  lemma RemoveLinks(next: Pointers, prev: Pointers, a: Handle, first: seq<Handle>, b: Handle, second: seq<Handle>,
      e: Handle)
    requires Ring(next, prev, [a] + first) && Ring(next, prev, [b] + second) && (e in first || e in second)
    requires forall h :: h in [a] + first ==> h !in [b] + second
    ensures e in next && e in prev && next[e] != null && prev[e] != null
    ensures var n, p := next[e], prev[e];
            && n in prev && p in next
            && Ring(next[p := n], prev[n := p], [a] + Without(first, e))
            && Ring(next[p := n], prev[n := p], [b] + Without(second, e))
  {
    hide Ring;
    if e in first {
      assert e in [a] + first;
      RemoveOne(next, prev, a, first, [b] + second, e);
    } else {
      assert e in [b] + second;
      RemoveOne(next, prev, b, second, [a] + first, e);
    }
  }

  lemma RemoveOne(next: Pointers, prev: Pointers, head: Handle, list: seq<Handle>, other: seq<Handle>, e: Handle)
    requires Ring(next, prev, [head] + list) && Ring(next, prev, other) && e in list
    requires forall h :: h in [head] + list ==> h !in other
    ensures e in next && e in prev && next[e] != null && prev[e] != null
    ensures var n, p := next[e], prev[e];
            n in prev && p in next && Ring(next[p := n], prev[n := p], [head] + Without(list, e)) &&
              Ring(next[p := n], prev[n := p], other)
  {
    hide Ring;
    RingWithout(next, prev, head, list, e);
    RingAside(next, prev, other, prev[e], next[e]);
    RingAside(next[prev[e] := next[e]], prev, other, next[e], prev[e]);
  }

  lemma AppendLinks(next: Pointers, prev: Pointers, head: Handle, list: seq<Handle>, other: seq<Handle>, e: Handle)
    requires Ring(next, prev, [head] + list) && Ring(next, prev, other) && e !in [head] + list && e !in other
    requires forall h :: h in [head] + list ==> h !in other
    ensures head in prev && prev[head] != null && prev[head] in next
    ensures var p := prev[head];
            && Ring(next[e := head][p := e], prev[e := p][head := e], [head] + (list + [e]))
            && Ring(next[e := head][p := e], prev[e := p][head := e], other)
  {
    hide Ring;
    assert head in [head] + list && (e in list ==> e in [head] + list);
    RingWith(next, prev, head, list, e);
    var p := prev[head];
    RingAside(next, prev, other, e, head);
    RingAside(next[e := head], prev, other, p, e);
    RingAside(next[e := head][p := e], prev, other, e, p);
    RingAside(next[e := head][p := e], prev[e := p], other, head, e);
  }
}
