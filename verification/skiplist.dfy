// The skip list (db/skiplist.h): one linked list a level, spliced in place from the bottom up while
// searches run.

module SkipLists {
  import opened DbFormat
  import opened Iterators

  const MAX_HEIGHT: nat := 12

  class Node {
    const entry: Entry
    var next: seq<Node?>

    constructor (entry: Entry, height: nat)
      ensures this.entry == entry && next == seq(height, _ => null)
    {
      this.entry, next := entry, seq(height, _ => null);
    }
  }

  function EntriesOf(list: seq<Node>): (r: seq<Entry>)
    ensures |r| == |list| && forall i :: 0 <= i < |list| ==> r[i] == list[i].entry
  {
    if list == [] then [] else EntriesOf(list[..|list| - 1]) + [list[|list| - 1].entry]
  }

  // The number of nodes of the list before `key`.
  function Rank(list: seq<Node>, key: Key): (r: nat)
    ensures r <= |list|
  {
    LowerBound(EntriesOf(list), key)
  }

  function At(list: seq<Node>, i: nat): Node? { if i < |list| then list[i] else null }

  function Before(head: Node, list: seq<Node>, i: nat): Node
    requires i <= |list|
  {
    if i == 0 then head else list[i - 1]
  }

  // The links of a set of nodes at one moment.
  type Links = map<Node, seq<Node?>>

  ghost function LinksOf(nodes: set<Node>): Links
    reads nodes`next
  {
    map n | n in nodes :: n.next
  }

  // The links of level l, from the head, run through exactly this list.
  ghost predicate Chain(links: Links, head: Node, list: seq<Node>, l: nat) {
    && head in links && l < |links[head]| && head !in list
    && (forall i :: 0 <= i < |list| ==> list[i] in links && l < |links[list[i]]|)
    && links[head][l] == At(list, 0)
    && forall i :: 0 <= i < |list| ==> links[list[i]][l] == At(list, i + 1)
  }

  ghost predicate AllChains(links: Links, head: Node, lists: seq<seq<Node>>) {
    forall l :: 0 <= l < |lists| ==> Chain(links, head, lists[l], l)
  }

  ghost predicate Ascending(list: seq<Node>) { Sorted(EntriesOf(list)) }

  ghost predicate Sub(a: seq<Node>, b: seq<Node>) { forall n :: n in a ==> n in b }

  // A search for `key` that stands at x on this list.
  ghost predicate Passing(head: Node, list: seq<Node>, x: Node, key: Key) {
    x == head || (x in list && Less(x.entry.key, key))
  }

  // What the lists of the levels are, links aside: a level below holds every node of a level above.
  ghost predicate Shape(head: Node, lists: seq<seq<Node>>, maxHeight: nat, repr: set<Node>) {
    && head in repr && |lists| == MAX_HEIGHT && 1 <= maxHeight <= MAX_HEIGHT
    && (forall l :: 0 <= l < MAX_HEIGHT ==> Ascending(lists[l]) && InRepr(head, lists[l], repr))
    && (forall l :: 0 < l < MAX_HEIGHT ==> Sub(lists[l], lists[l - 1]))
    && forall l :: maxHeight <= l < MAX_HEIGHT ==> lists[l] == []
  }

  ghost predicate InRepr(head: Node, list: seq<Node>, repr: set<Node>) {
    forall n :: n in list ==> n in repr && n != head
  }

  method RandomHeight() returns (height: nat)
    ensures 1 <= height <= MAX_HEIGHT
  {
    height := 1;
    var more: bool := *;
    while height < MAX_HEIGHT && more
      invariant 1 <= height <= MAX_HEIGHT
    {
      height := height + 1;
      more := *;
    }
  }

  class SkipList {
    const head: Node
    var maxHeight: nat
    // The list of each level.
    ghost var lists: seq<seq<Node>>
    ghost var repr: set<Node>

    ghost predicate Valid()
      reads this, repr`next
    {
      Shape(head, lists, maxHeight, repr) && AllChains(LinksOf(repr), head, lists)
    }

    ghost function Contents(): seq<Entry>
      requires Valid()
      reads this, repr`next
    {
      EntriesOf(lists[0])
    }

    constructor ()
      ensures Valid() && fresh(repr) && Contents() == []
    {
      var h := new Node(Entry(SeekKey(0.0, 0), ""), MAX_HEIGHT);
      head, maxHeight := h, 1;
      lists, repr := seq(MAX_HEIGHT, _ => []), {h};
      new;
      assert Shape(head, lists, maxHeight, repr);
    }

    lemma ContentsSorted()
      requires Valid()
      ensures Sorted(Contents())
    {
      LinkAt(0, 0);
    }

    lemma BeforeOrHead(r: nat)
      requires Valid() && r <= |lists[0]|
      ensures var x := Before(head, lists[0], r); (x == head <==> r == 0) && (r > 0 ==> x == At(lists[0], r - 1))
    {
      LinkAt(0, r);
    }

    lemma RankOfNode(i: nat)
      requires Valid() && i < |lists[0]|
      ensures Rank(lists[0], lists[0][i].entry.key) == i
    {
      LinkAt(0, i);
      RankAt(EntriesOf(lists[0]), i);
    }

    // No node is taller than the list.
    lemma UpperEmpty(key: Key)
      requires Valid()
      ensures forall l :: maxHeight <= l < MAX_HEIGHT ==> Rank(lists[l], key) == 0 && Before(head, lists[l], 0) == head
    {
    }

    lemma LinkAt(level: nat, i: nat)
      requires Valid() && level < MAX_HEIGHT && i <= |lists[level]|
      ensures Ascending(lists[level]) && head !in lists[level]
      ensures var x := Before(head, lists[level], i); level < |x.next| && x.next[level] == At(lists[level], i)
    {
      assert Chain(LinksOf(repr), head, lists[level], level);
    }

    // One pass of a search loop: a single link is read. Nothing about the list other than `Passing` is
    // carried from pass to pass, so insertions may happen in between.
    method Step(x: Node, level: nat, key: Key, ghost i: nat) returns (next: Node?, right: bool)
      requires Valid() && level < MAX_HEIGHT && i <= |lists[level]| && x == Before(head, lists[level], i)
      requires Passing(head, lists[level], x, key)
      ensures right ==> i < |lists[level]| && next == lists[level][i] && Passing(head, lists[level], next, key)
      ensures !right ==> i == Rank(lists[level], key) && next == At(lists[level], i)
    {
      hide Valid, Chain;
      Bounds();
      LinkAt(level, i);
      next := x.next[level];
      right := next != null && Less(next.entry.key, key);
      if i > 0 { NthPasses(lists[level], x, key, i); }
      if !right { RankHere(lists[level], key, i); }
    }

    // prev[l] is the last node before the key on level l.
    method FindGreaterOrEqual(key: Key) returns (x: Node?, prev: seq<Node>)
      requires Valid()
      ensures x == At(lists[0], Rank(lists[0], key))
      ensures |prev| == maxHeight
      ensures forall l :: 0 <= l < maxHeight ==> prev[l] == Before(head, lists[l], Rank(lists[l], key))
    {
      hide Valid, Less, LowerBound, EntriesOf;
      Bounds();
      var at, level := head, maxHeight - 1;
      ghost var i: nat := 0;
      prev := seq(maxHeight, _ => head);
      while true
        invariant 0 <= level < maxHeight && i <= |lists[level]| && at == Before(head, lists[level], i)
        invariant Passing(head, lists[level], at, key) && |prev| == maxHeight
        invariant forall l :: level < l < maxHeight ==> prev[l] == Before(head, lists[l], Rank(lists[l], key))
        decreases level, |lists[level]| - i
      {
        var next, right := Step(at, level, key, i);
        if right {
          at, i := next, i + 1;
        } else {
          prev := prev[level := at];
          if level == 0 {
            return next, prev;
          }
          i := Descend(at, level);
          level := level - 1;
        }
      }
    }

    // Where a node of a level stands.
    lemma Place(x: Node, level: nat) returns (i: nat)
      requires Valid() && level < MAX_HEIGHT && (x == head || x in lists[level])
      ensures i <= |lists[level]| && x == Before(head, lists[level], i)
    {
      i := 0;
      if x != head {
        var j :| 0 <= j < |lists[level]| && lists[level][j] == x;
        i := j + 1;
      }
    }

    // A node met on one level is on the level below.
    lemma Descend(x: Node, level: nat) returns (i: nat)
      requires Valid() && 0 < level < MAX_HEIGHT && (x == head || x in lists[level])
      ensures i <= |lists[level - 1]| && x == Before(head, lists[level - 1], i)
      ensures x == head || x in lists[level - 1]
    {
      i := 0;
      if x != head {
        assert Sub(lists[level], lists[level - 1]);
        var j :| 0 <= j < |lists[level - 1]| && lists[level - 1][j] == x;
        i := j + 1;
      }
    }

    lemma Bounds()
      requires Valid()
      ensures |lists| == MAX_HEIGHT && 1 <= maxHeight <= MAX_HEIGHT
    {
    }

    method FindLessThan(key: Key) returns (x: Node)
      requires Valid()
      ensures x == Before(head, lists[0], Rank(lists[0], key))
    {
      hide Valid, Less, LowerBound, EntriesOf;
      Bounds();
      var level := maxHeight - 1;
      ghost var i: nat := 0;
      x := head;
      while true
        invariant 0 <= level < maxHeight && i <= |lists[level]| && x == Before(head, lists[level], i)
        invariant Passing(head, lists[level], x, key)
        decreases level, |lists[level]| - i
      {
        var next, right := Step(x, level, key, i);
        if !right {
          if level == 0 {
            return;
          }
          i := Descend(x, level);
          level := level - 1;
        } else {
          x, i := next, i + 1;
        }
      }
    }

    method FindLast() returns (x: Node)
      requires Valid()
      ensures x == Before(head, lists[0], |lists[0]|)
    {
      hide Valid, Less, LowerBound, EntriesOf;
      Bounds();
      var level := maxHeight - 1;
      ghost var i: nat := 0;
      x := head;
      while true
        invariant 0 <= level < maxHeight && i <= |lists[level]| && x == Before(head, lists[level], i)
        decreases level, |lists[level]| - i
      {
        LinkAt(level, i);
        var next := x.next[level];
        if next == null {
          if level == 0 {
            return;
          }
          i := Descend(x, level);
          level := level - 1;
        } else {
          x, i := next, i + 1;
        }
      }
    }

    method Contains(key: Key) returns (found: bool)
      requires Valid()
      ensures found <==> exists e :: e in Contents() && e.key == key
    {
      var x, _ := FindGreaterOrEqual(key);
      found := x != null && x.entry.key == key;
      RankFinds(EntriesOf(lists[0]), key);
    }

    // The taller height takes effect before any node is linked on the new levels: they are empty.
    method RaiseHeight(height: nat)
      requires Valid() && maxHeight <= height <= MAX_HEIGHT
      modifies this`maxHeight
      ensures Valid() && maxHeight == height && lists == old(lists) && Contents() == old(Contents())
    {
      maxHeight := height;
    }

    // One atomic store.
    method SetNext(n: Node, l: nat, to: Node?)
      requires n in repr && l < |n.next|
      modifies n`next
      ensures n.next == old(n.next)[l := to]
      ensures LinksOf(repr) == old(LinksOf(repr))[n := old(LinksOf(repr)[n])[l := to]]
    {
      n.next := n.next[l := to];
    }

    // The first store of a splice: x is not on the level yet, so no level changes.
    method SetForward(x: Node, l: nat, to: Node?)
      requires Valid() && x in repr && l < MAX_HEIGHT && x !in lists[l] && x != head && l < |x.next|
      modifies x`next
      ensures Valid() && x.next == old(x.next)[l := to] && Contents() == old(Contents())
    {
      Bounds();
      hide Shape, AllChains;
      ghost var links := LinksOf(repr);
      SetNext(x, l, to);
      StoreElsewhere(links, head, lists, x, l, to);
    }

    // The second store: x joins the level.
    method Publish(x: Node, l: nat, prev: Node)
      requires Valid() && l < maxHeight && x !in lists[l] && x != head && l < |x.next| && x in repr
      requires l == 0 || x in lists[l - 1]
      requires var r := Rank(lists[l], x.entry.key); prev == Before(head, lists[l], r) && x.next[l] == At(lists[l], r)
      requires l < |prev.next| && forall n :: n in lists[l] ==> n.entry.key != x.entry.key
      modifies this`lists, prev`next
      ensures Valid() && prev.next == old(prev.next)[l := x]
      ensures lists == old(lists)[l := Inserted(old(lists[l]), x, Rank(old(lists[l]), x.entry.key))]
      ensures Contents() == if l == 0 then InsertEntry(old(Contents()), x.entry) else old(Contents())
    {
      hide Shape, AllChains, Ascending, Inserted, At, Before, Rank, InsertEntry;
      Bounds();
      LinkAt(0, 0);
      ghost var list, r, links := lists[l], Rank(lists[l], x.entry.key), LinksOf(repr);
      assert r <= |list|;
      LinkAt(l, r);
      InRange(l, r);
      ShapeInserted(head, lists, maxHeight, repr, l, x, r);
      StoreLinks(links, head, lists, x, l, r);
      assert links[prev] == prev.next;
      SetNext(prev, l, x);
      if l == 0 { InsertAscending(list, x, r); }
      lists := lists[l := Inserted(list, x, r)];
    }

    // The new node joins the levels one by one; what a search between two stores finds is said with
    // Insertion.
    method Insert(e: Entry)
      requires Valid() && forall d :: d in Contents() ==> d.key != e.key
      modifies this, repr
      ensures Valid() && fresh(repr - old(repr)) && Contents() == InsertEntry(old(Contents()), e)
      ensures Grows(old(lists), lists)
    {
      hide SkipList.Valid, Spliced, Grows, Rank, InsertEntry, Predecessors, Fresh, EntriesOf;
      ghost var was := lists;
      var w := new Insertion(this, e);
      while w.level < w.height
        invariant w.Inv() && w.list == this && w.was == was && w.x.entry == e && fresh(w) && fresh(repr - old(repr))
        modifies w, this`lists, repr`next
        decreases w.Left()
      {
        w.Step();
      }
      w.OneOrOther();
      SplicedGrows(was, lists, w.x, w.level);
    }

    method NewNode(e: Entry, height: nat) returns (x: Node)
      requires Valid() && forall d :: d in Contents() ==> d.key != e.key
      modifies this`repr
      ensures Valid() && fresh(x) && repr == old(repr) + {x} && x != head
      ensures x.entry == e && |x.next| == height && Fresh(lists, x)
    {
      ghost var links := LinksOf(repr);
      x := new Node(e, height);
      FreshNode(x);
      hide Shape, AllChains, Fresh;
      Widen(head, lists, maxHeight, repr, links, x, x.next);
      repr := repr + {x};
      assert LinksOf(repr) == links[x := x.next];
    }

    // prev, filled up with the head, precedes the key on every level the new node will have.
    lemma AllPredecessors(prev: seq<Node>, key: Key, height: nat)
      requires Valid() && 1 <= height <= MAX_HEIGHT
      requires |prev| == maxHeight
      requires forall l :: 0 <= l < maxHeight ==> prev[l] == Before(head, lists[l], Rank(lists[l], key))
      ensures Predecessors(head, lists, repr, if height > maxHeight then prev + seq(height - maxHeight, _ => head)
        else prev, key, height)
    {
      UpperEmpty(key);
    }

    lemma AllBelow(l: nat)
      requires Valid() && l < MAX_HEIGHT
      ensures Sub(lists[l], lists[0])
    {
      hide AllChains, Ascending, InRepr;
      if l > 0 { AllBelow(l - 1); }
    }

    lemma FreshNode(x: Node)
      requires Valid() && x !in repr && forall d :: d in Contents() ==> d.key != x.entry.key
      ensures Fresh(lists, x)
    {
      forall m, n | 0 <= m < MAX_HEIGHT && n in lists[m] ensures n != x && n.entry.key != x.entry.key {
        AllBelow(m);
        var i :| 0 <= i < |lists[0]| && lists[0][i] == n;
        assert Contents()[i] in Contents();
      }
    }

    lemma InRange(l: nat, r: nat)
      requires Valid() && l < MAX_HEIGHT && r <= |lists[l]|
      ensures Before(head, lists[l], r) in repr
    {
    }
  }

  // x is on the levels below l and nothing else has changed.
  ghost predicate Spliced(was: seq<seq<Node>>, now: seq<seq<Node>>, x: Node, l: nat) {
    && |now| == |was|
    && forall m :: 0 <= m < |was| ==> now[m] == if m < l then Inserted(was[m], x, Rank(was[m], x.entry.key)) else was[m]
  }

  ghost predicate Predecessors(head: Node, lists: seq<seq<Node>>, repr: set<Node>, prev: seq<Node>, key: Key,
      height: nat) {
    && height <= |prev| && height <= |lists|
    && forall l :: 0 <= l < height ==> prev[l] in repr && prev[l] == Before(head, lists[l], Rank(lists[l], key))
  }

  lemma PredecessorAt(head: Node, lists: seq<seq<Node>>, repr: set<Node>, prev: seq<Node>, key: Key, height: nat,
      l: nat)
    requires Predecessors(head, lists, repr, prev, key, height) && l < height
    ensures l < |prev| && prev[l] in repr && prev[l] == Before(head, lists[l], Rank(lists[l], key))
  {
  }

  // One more node, on no level yet.
  lemma Widen(head: Node, lists: seq<seq<Node>>, maxHeight: nat, repr: set<Node>, links: Links, x: Node, v: seq<Node?>)
    requires Shape(head, lists, maxHeight, repr) && AllChains(links, head, lists) && x !in links
    ensures Shape(head, lists, maxHeight, repr + {x})
    ensures AllChains(links[x := v], head, lists)
  {
    forall l | 0 <= l < |lists| ensures Chain(links[x := v], head, lists[l], l) {
      assert Chain(links, head, lists[l], l);
    }
  }

  lemma SplicedNone(was: seq<seq<Node>>, x: Node)
    ensures Spliced(was, was, x, 0)
  {
  }

  lemma BottomSpliced(was: seq<seq<Node>>, now: seq<seq<Node>>, x: Node, l: nat)
    requires Spliced(was, now, x, l) && 0 < l && 0 < |was| && Fresh(was, x) && Ascending(was[0])
    ensures EntriesOf(now[0]) == InsertEntry(EntriesOf(was[0]), x.entry)
  {
    InsertAscending(was[0], x, Rank(was[0], x.entry.key));
  }

  // No level holds x, or its key.
  ghost predicate Fresh(lists: seq<seq<Node>>, x: Node) {
    forall m, n :: 0 <= m < |lists| && n in lists[m] ==> n != x && n.entry.key != x.entry.key
  }

  lemma NotYet(was: seq<seq<Node>>, now: seq<seq<Node>>, x: Node, l: nat)
    requires l < |was| && Spliced(was, now, x, l) && Fresh(was, x)
    ensures now[l] == was[l] && x !in now[l] && (forall n :: n in now[l] ==> n.entry.key != x.entry.key)
    ensures l == 0 || x in now[l - 1]
  {
    assert now[l] == was[l];
    if l > 0 {
      InsertedIn(was[l - 1], x, Rank(was[l - 1], x.entry.key));
      assert now[l - 1] == Inserted(was[l - 1], x, Rank(was[l - 1], x.entry.key));
      assert x in Inserted(was[l - 1], x, Rank(was[l - 1], x.entry.key));
    }
  }

  lemma SplicedGrows(was: seq<seq<Node>>, now: seq<seq<Node>>, x: Node, l: nat)
    requires Spliced(was, now, x, l)
    ensures Grows(was, now)
  {
    forall m | 0 <= m < |was| ensures Sub(was[m], now[m]) {
      InsertedIn(was[m], x, Rank(was[m], x.entry.key));
    }
  }

  ghost predicate Grows(was: seq<seq<Node>>, now: seq<seq<Node>>) {
    |now| == |was| && forall m :: 0 <= m < |was| ==> Sub(was[m], now[m])
  }

  // A search under way goes on undisturbed when nodes are added.
  lemma SearchGoesOn(head: Node, was: seq<seq<Node>>, now: seq<seq<Node>>, level: nat, x: Node, key: Key)
    requires Grows(was, now) && level < |was| && Passing(head, was[level], x, key)
    ensures Passing(head, now[level], x, key)
  {
    assert Sub(was[level], now[level]);
  }

  // An insertion as the single writer carries it out, store by store.
  class Insertion {
    const list: SkipList
    const x: Node
    const prev: seq<Node>
    const height: nat
    // The levels when the new node was made.
    ghost const was: seq<seq<Node>>
    var level: nat
    // The new node's own link on this level is set.
    var forward: bool

    ghost predicate Inv()
      reads this, list, list.repr`next
    {
      && list.Valid() && |was| == MAX_HEIGHT && Ascending(was[0]) && Fresh(was, x) && Spliced(was, list.lists, x, level)
      && x in list.repr && x != list.head && |x.next| == height <= list.maxHeight && level <= height && height > 0
      && Predecessors(list.head, was, list.repr, prev, x.entry.key, height)
      && (forward ==> level < height && x.next[level] == At(was[level], Rank(was[level], x.entry.key)))
    }

    // The stores still to come.
    function Left(): nat
      requires level <= height
      reads this
    {
      2 * (height - level) - if forward && level < height then 1 else 0
    }

    constructor (list: SkipList, e: Entry)
      requires list.Valid() && forall d :: d in list.Contents() ==> d.key != e.key
      modifies list`maxHeight, list`repr
      ensures Inv() && this.list == list && x.entry == e && level == 0 && !forward && fresh(x)
      ensures list.lists == was == old(list.lists) && list.Contents() == old(list.Contents())
      ensures fresh(list.repr - old(list.repr))
    {
      hide Shape, AllChains, Spliced, Rank, Before, InsertEntry, Predecessors, Fresh, Ascending;
      var _, prev := list.FindGreaterOrEqual(e.key);
      var height := RandomHeight();
      list.Bounds();
      list.AllPredecessors(prev, e.key, height);
      list.LinkAt(0, 0);
      if height > list.maxHeight {
        prev := prev + seq(height - list.maxHeight, _ => list.head);
        list.RaiseHeight(height);
      }
      var x := list.NewNode(e, height);
      SplicedNone(list.lists, x);
      MorePredecessors(list.head, list.lists, list.repr - {x}, list.repr, prev, e.key, height);
      this.list, this.x, this.prev, this.height, was, level, forward := list, x, prev, height, list.lists, 0, false;
    }

    method Step()
      requires Inv() && level < height
      modifies this`level, this`forward, list`lists, list.repr`next
      ensures Inv() && Left() < old(Left()) && Grows(old(list.lists), list.lists)
      ensures list.Contents() == if old(forward) && old(level) == 0 then InsertEntry(old(list.Contents()), x.entry)
        else old(list.Contents())
    {
      hide SkipList.Valid, Rank, Inserted, Fresh, Spliced, Predecessors, Grows, InsertEntry, Ascending;
      ghost var l := level;
      list.Bounds();
      NotYet(was, list.lists, x, l);
      PredecessorAt(list.head, was, list.repr, prev, x.entry.key, height, l);
      list.LinkAt(l, Rank(was[l], x.entry.key));
      if !forward {
        SelfGrows(list.lists);
        list.SetForward(x, level, prev[level].next[level]);
        forward := true;
      } else {
        ghost var before := list.lists;
        list.Publish(x, level, prev[level]);
        SplicedMore(was, before, list.lists, x, l);
        level, forward := level + 1, false;
      }
    }

    // At every moment the list holds the entries it held, or those and the new one.
    lemma OneOrOther()
      requires Inv()
      ensures list.Contents() == if level == 0 then EntriesOf(was[0]) else InsertEntry(EntriesOf(was[0]), x.entry)
    {
      hide Rank, InsertEntry, Fresh, Ascending;
      if level > 0 { BottomSpliced(was, list.lists, x, level); }
    }

    // FindGreaterOrEqual by a reader, while any of the writer's stores fall between its own reads: it
    // ends where the key belongs in the list of its last read.
    method Find(key: Key) returns (found: Node?)
      requires Inv()
      modifies this`level, this`forward, list`lists, list.repr`next
      ensures Inv() && found == At(list.lists[0], Rank(list.lists[0], key))
      ensures list.Contents() in {EntriesOf(was[0]), InsertEntry(EntriesOf(was[0]), x.entry)}
    {
      hide SkipList.Valid, Less, LowerBound, EntriesOf, Rank, Spliced, Predecessors, Fresh, Grows, InsertEntry,
           Ascending;
      list.Bounds();
      var at, l := list.head, list.maxHeight - 1;
      ghost var i: nat := 0;
      while true
        invariant |list.lists| == MAX_HEIGHT && list.maxHeight <= MAX_HEIGHT
        invariant Inv() && 0 <= l < list.maxHeight && list.maxHeight == old(list.maxHeight)
        invariant list.repr == old(list.repr)
        invariant i <= |list.lists[l]| && at == Before(list.head, list.lists[l], i)
        invariant Passing(list.head, list.lists[l], at, key)
        decreases l, Left(), |list.lists[l]| - i
      {
        var writes: bool := *;
        if writes && level < height {
          ghost var before := list.lists;
          Step();
          list.Bounds();
          SearchGoesOn(list.head, before, list.lists, l, at, key);
          i := list.Place(at, l);
        } else {
          var next, right := list.Step(at, l, key, i);
          if right {
            at, i := next, i + 1;
          } else if l == 0 {
            OneOrOther();
            return next;
          } else {
            i := list.Descend(at, l);
            l := l - 1;
          }
        }
      }
    }
  }

  lemma MorePredecessors(head: Node, lists: seq<seq<Node>>, repr: set<Node>, more: set<Node>, prev: seq<Node>,
      key: Key, height: nat)
    requires Predecessors(head, lists, repr, prev, key, height) && repr <= more
    ensures Predecessors(head, lists, more, prev, key, height)
  {
  }

  lemma SelfGrows(lists: seq<seq<Node>>)
    ensures Grows(lists, lists)
  {
  }

  lemma SplicedMore(was: seq<seq<Node>>, before: seq<seq<Node>>, now: seq<seq<Node>>, x: Node, l: nat)
    requires l < |was| && Spliced(was, before, x, l)
    requires now == before[l := Inserted(before[l], x, Rank(before[l], x.entry.key))]
    ensures Spliced(was, now, x, l + 1) && Grows(before, now)
  {
    hide Rank, Inserted;
    InsertedIn(before[l], x, Rank(before[l], x.entry.key));
    assert before[l] == was[l];
  }

  // SkipList::Iterator, a cursor over the list's entries.
  class SkipListIterator {
    const list: SkipList
    var node: Node?
    ghost var pos: nat

    constructor (list: SkipList)
      requires list.Valid()
      ensures this.list == list && Inv() && pos == |list.Contents()|
    {
      this.list, node, pos := list, null, |list.lists[0]|;
    }

    ghost predicate Inv()
      reads this, list, list.repr`next
    {
      list.Valid() && pos <= |list.lists[0]| && node == At(list.lists[0], pos)
    }

    predicate Valid()
      reads this
    {
      node != null
    }

    lemma ValidInside()
      requires Inv()
      ensures Valid() <==> pos < |list.Contents()|
    {
      if pos < |list.lists[0]| { assert At(list.lists[0], pos) == list.lists[0][pos]; }
    }

    function Current(): (e: Entry)
      requires Inv() && Valid()
      reads this, list, list.repr`next
      ensures pos < |list.Contents()| && e == list.Contents()[pos]
    {
      node.entry
    }

    method Next()
      requires Inv() && Valid()
      modifies this
      ensures Inv() && pos == old(pos) + 1
    {
      list.LinkAt(0, pos + 1);
      node, pos := node.next[0], pos + 1;
    }

    // There is no backward link: the list is searched for the last node before this one.
    method Prev()
      requires Inv() && Valid()
      modifies this
      ensures Inv() && pos == if old(pos) == 0 then |list.Contents()| else old(pos) - 1
    {
      hide SkipList.Valid, Rank, Before;
      list.Bounds();
      list.RankOfNode(pos);
      list.BeforeOrHead(pos);
      var x := list.FindLessThan(node.entry.key);
      if x == list.head {
        node, pos := null, |list.lists[0]|;
      } else {
        node, pos := x, pos - 1;
      }
    }

    method Seek(target: Key)
      requires Inv()
      modifies this
      ensures Inv() && pos == LowerBound(list.Contents(), target)
    {
      hide Shape, AllChains, LowerBound;
      list.Bounds();
      var x, _ := list.FindGreaterOrEqual(target);
      node, pos := x, Rank(list.lists[0], target);
    }

    method SeekToFirst()
      requires Inv()
      modifies this
      ensures Inv() && pos == 0
    {
      list.LinkAt(0, 0);
      node, pos := list.head.next[0], 0;
    }

    method SeekToLast()
      requires Inv()
      modifies this
      ensures Inv() && pos == if list.Contents() == [] then 0 else |list.Contents()| - 1
    {
      hide SkipList.Valid, Before;
      list.Bounds();
      list.BeforeOrHead(|list.lists[0]|);
      var x := list.FindLast();
      if x == list.head {
        node, pos := null, 0;
      } else {
        node, pos := x, |list.lists[0]| - 1;
      }
    }
  }

  lemma RankAt(run: seq<Entry>, i: nat)
    requires Sorted(run) && i < |run|
    ensures LowerBound(run, run[i].key) == i
  {
    PastBound(run, run[i].key, i);
  }

  lemma StoreElsewhere(links: Links, head: Node, lists: seq<seq<Node>>, x: Node, l: nat, to: Node?)
    requires AllChains(links, head, lists) && x in links && x != head && l < |lists| && x !in lists[l] && l < |links[x]|
    ensures AllChains(links[x := links[x][l := to]], head, lists)
  {
    forall m | 0 <= m < |lists| ensures Chain(links[x := links[x][l := to]], head, lists[m], m) {
      assert Chain(links, head, lists[m], m);
    }
  }

  // A store after x's predecessor on level l makes x part of that level and changes no other.
  lemma StoreLinks(links: Links, head: Node, lists: seq<seq<Node>>, x: Node, l: nat, r: nat)
    requires AllChains(links, head, lists) && l < |lists| && r <= |lists[l]| && Ascending(lists[l])
    requires x in links && x != head && x !in lists[l] && l < |links[x]| && links[x][l] == At(lists[l], r)
    requires var prev := Before(head, lists[l], r); prev in links && l < |links[prev]|
    ensures var prev := Before(head, lists[l], r);
            AllChains(links[prev := links[prev][l := x]], head, lists[l := Inserted(lists[l], x, r)])
  {
    var prev := Before(head, lists[l], r);
    var after, to := links[prev := links[prev][l := x]], lists[l := Inserted(lists[l], x, r)];
    hide Ascending, Inserted;
    forall m | 0 <= m < |lists| ensures Chain(after, head, to[m], m) {
      assert Chain(links, head, lists[m], m);
      if m == l {
        StoreOwn(links, head, lists[l], x, l, r);
      }
    }
  }

  lemma StoreOwn(links: Links, head: Node, list: seq<Node>, x: Node, l: nat, r: nat)
    requires Chain(links, head, list, l) && r <= |list| && Ascending(list)
    requires x in links && x != head && x !in list && l < |links[x]| && links[x][l] == At(list, r)
    ensures var prev := Before(head, list, r);
            && prev in links && l < |links[prev]|
            && Chain(links[prev := links[prev][l := x]], head, Inserted(list, x, r), l)
  {
    var prev, to := Before(head, list, r), Inserted(list, x, r);
    var after := links[prev := links[prev][l := x]];
    StoreOwnLink(links, head, list, x, l, r, -1);
    InsertedIn(list, x, r);
    assert head !in to;
    hide Inserted, Before, Ascending, At;
    forall i | 0 <= i < |to| ensures to[i] in after && l < |after[to[i]]| && after[to[i]][l] == At(to, i + 1) {
      StoreOwnLink(links, head, list, x, l, r, i);
    }
  }

  lemma StoreOwnLink(links: Links, head: Node, list: seq<Node>, x: Node, l: nat, r: nat, i: int)
    requires Chain(links, head, list, l) && r <= |list| && Ascending(list)
    requires x in links && x != head && x !in list && l < |links[x]| && links[x][l] == At(list, r)
    requires -1 <= i <= |list|
    ensures var prev, to := Before(head, list, r), Inserted(list, x, r);
            && prev in links && l < |links[prev]| && |to| == |list| + 1
            && var n, after := if i < 0 then head else to[i], links[prev := links[prev][l := x]];
               n in after && l < |after[n]| && after[n][l] == At(to, i + 1)
  {
    NodesApart(head, list, r);
    hide Ascending;
    if i >= 0 { InsertedAt(list, x, r, i); }
    if i + 1 <= |list| { InsertedAt(list, x, r, i + 1); }
  }

  lemma InsertedAt(list: seq<Node>, x: Node, r: nat, i: nat)
    requires r <= |list| && i <= |list|
    ensures |Inserted(list, x, r)| == |list| + 1
    ensures Inserted(list, x, r)[i] == if i < r then list[i] else if i == r then x else list[i - 1]
  {
  }

  lemma ShapeInserted(head: Node, lists: seq<seq<Node>>, maxHeight: nat, repr: set<Node>, l: nat, x: Node, r: nat)
    requires Shape(head, lists, maxHeight, repr) && l < maxHeight && x in repr && x != head
    requires r == Rank(lists[l], x.entry.key) && (l == 0 || x in lists[l - 1])
    requires forall n :: n in lists[l] ==> n.entry.key != x.entry.key
    ensures Shape(head, lists[l := Inserted(lists[l], x, r)], maxHeight, repr)
  {
    hide Ascending, Rank, Inserted, Sub, InRepr;
    InsertAscending(lists[l], x, r);
    ReprInserted(head, lists[l], repr, x, r);
    if l > 0 { SubInserted(lists[l], lists[l - 1], x, r); }
    if l + 1 < MAX_HEIGHT { SubOfInserted(lists[l + 1], lists[l], x, r); }
  }

  lemma ReprInserted(head: Node, list: seq<Node>, repr: set<Node>, x: Node, r: nat)
    requires InRepr(head, list, repr) && x in repr && x != head && r <= |list|
    ensures InRepr(head, Inserted(list, x, r), repr)
  {
    InsertedIn(list, x, r);
  }

  lemma SubInserted(list: seq<Node>, below: seq<Node>, x: Node, r: nat)
    requires Sub(list, below) && x in below && r <= |list|
    ensures Sub(Inserted(list, x, r), below)
  {
    InsertedIn(list, x, r);
  }

  lemma SubOfInserted(above: seq<Node>, list: seq<Node>, x: Node, r: nat)
    requires Sub(above, list) && r <= |list|
    ensures Sub(above, Inserted(list, x, r))
  {
    InsertedIn(list, x, r);
  }

  lemma InsertedIn(list: seq<Node>, x: Node, r: nat)
    requires r <= |list|
    ensures forall n :: n in Inserted(list, x, r) <==> n in list || n == x
  {
    assert list == list[..r] + list[r..];
  }

  lemma NodesApart(head: Node, list: seq<Node>, r: nat)
    requires Ascending(list) && head !in list && r <= |list|
    ensures forall i :: 0 <= i < |list| && i != r - 1 ==> list[i] != Before(head, list, r)
    ensures Before(head, list, r) == if r == 0 then head else list[r - 1]
  {
    forall i | 0 <= i < |list| && i != r - 1 ensures list[i] != Before(head, list, r) {
      if r > 0 { AllDifferent(list, i, r - 1); }
    }
  }

  lemma AllDifferent(list: seq<Node>, i: nat, j: nat)
    requires Ascending(list) && i < |list| && j < |list| && i != j
    ensures list[i] != list[j]
  {
    var run := EntriesOf(list);
    assert i < j ==> Less(run[i].key, run[j].key);
    assert j < i ==> Less(run[j].key, run[i].key);
  }

  lemma InsertAscending(list: seq<Node>, x: Node, r: nat)
    requires Ascending(list) && r == Rank(list, x.entry.key) && forall n :: n in list ==> n.entry.key != x.entry.key
    ensures Ascending(Inserted(list, x, r))
    ensures EntriesOf(Inserted(list, x, r)) == InsertEntry(EntriesOf(list), x.entry)
  {
    hide Sorted, LowerBound;
    assert EntriesOf(Inserted(list, x, r)) == InsertEntry(EntriesOf(list), x.entry);
    forall e | e in EntriesOf(list) ensures e.key != x.entry.key {
      var i :| 0 <= i < |list| && EntriesOf(list)[i] == e;
      assert list[i] in list;
    }
    InsertSorted(EntriesOf(list), x.entry);
  }

  function InsertEntry(run: seq<Entry>, e: Entry): seq<Entry> {
    var r := LowerBound(run, e.key);
    run[..r] + [e] + run[r..]
  }

  lemma InsertSorted(run: seq<Entry>, e: Entry)
    requires Sorted(run) && forall d :: d in run ==> d.key != e.key
    ensures Sorted(InsertEntry(run, e))
  {
    hide Less, LowerBound;
    var to, r := InsertEntry(run, e), LowerBound(run, e.key);
    forall i, j | 0 <= i < j < |to| ensures Less(to[i].key, to[j].key) {
      if i < r { assert to[i] == run[i]; PastBound(run, e.key, i); } else if i > r { assert to[i] == run[i - 1]; }
      if j < r { assert to[j] == run[j]; } else if j > r { assert to[j] == run[j - 1]; AboveBound(run, e.key, j - 1); }
      if i < r < j { Trichotomy(run, i, j - 1); }
    }
  }

  lemma AboveBound(run: seq<Entry>, key: Key, i: nat)
    requires Sorted(run) && LowerBound(run, key) <= i < |run| && run[i].key != key
    ensures Less(key, run[i].key)
  {
    PastBound(run, key, i);
  }

  lemma NthPasses(list: seq<Node>, x: Node, key: Key, i: nat)
    requires 0 < i <= |list| && x == list[i - 1] && (x in list && Less(x.entry.key, key))
    ensures Less(list[i - 1].entry.key, key)
  {
  }

  ghost function Inserted(list: seq<Node>, x: Node, r: nat): seq<Node>
    requires r <= |list|
  {
    list[..r] + [x] + list[r..]
  }

  lemma RankHere(list: seq<Node>, key: Key, i: nat)
    requires Ascending(list) && i <= |list|
    requires i > 0 ==> Less(list[i - 1].entry.key, key)
    requires i < |list| ==> !Less(list[i].entry.key, key)
    ensures i == Rank(list, key)
  {
    var run, r := EntriesOf(list), Rank(list, key);
    if r < i - 1 { InRankOrder(run, r, i - 1); }
  }

  lemma RankFinds(run: seq<Entry>, key: Key)
    requires Sorted(run)
    ensures var r := LowerBound(run, key); (exists e :: e in run && e.key == key) <==> r < |run| && run[r].key == key
  {
    if e :| e in run && e.key == key {
      var i :| 0 <= i < |run| && run[i] == e;
      PastBound(run, key, i);
    }
  }

  lemma InRankOrder(run: seq<Entry>, i: nat, j: nat)
    requires Sorted(run) && i < j < |run|
    ensures Less(run[i].key, run[j].key)
  {
  }
}
