// Merging several sorted runs (table/merger.cc): the children together behave as one cursor over the
// sorted union of their entries.

module Merger {
  import opened Wrappers
  import opened DbFormat
  import opened Iterators
  import opened Files
  import opened CompactionWork
  import opened Version

  ghost predicate IsMerge(children: seq<Cursor>, merged: seq<Entry>) {
    && Sorted(merged)
    && (forall c :: 0 <= c < |children| ==> Sorted(children[c].src))
    && (forall c, i :: 0 <= c < |children| && 0 <= i < |children[c].src| ==> children[c].src[i] in merged)
    && (forall p :: 0 <= p < |merged| ==> Owned(children, merged[p]))
    && (forall c, d :: 0 <= c < d < |children| ==> NoSharedKey(children[c].src, children[d].src))
  }

  ghost predicate Owned(children: seq<Cursor>, e: Entry) {
    exists c :: 0 <= c < |children| && e in children[c].src
  }

  ghost predicate Distinct(children: seq<Cursor>) {
    forall c, d :: 0 <= c < d < |children| ==> children[c] != children[d]
  }

  ghost predicate NoSharedKey(a: seq<Entry>, b: seq<Entry>) {
    forall i, j :: 0 <= i < |a| && 0 <= j < |b| ==> a[i].key != b[j].key
  }

  // e belongs to merged[p..].
  predicate From(merged: seq<Entry>, p: nat, e: Entry) { p < |merged| && !Less(e.key, merged[p].key) }

  // e belongs to merged[..p + 1].
  predicate UpTo(merged: seq<Entry>, p: int, e: Entry) { 0 <= p < |merged| && !Less(merged[p].key, e.key) }

  // The child stands at its first entry of merged[p..].
  ghost predicate AtFrom(c: Cursor, merged: seq<Entry>, p: nat)
    reads c
  {
    && c.pos <= |c.src|
    && (forall i :: c.pos <= i < |c.src| ==> From(merged, p, c.src[i]))
    && forall i :: 0 <= i < c.pos ==> !From(merged, p, c.src[i])
  }

  // The child stands at its last entry of merged[..p + 1].
  ghost predicate AtUpTo(c: Cursor, merged: seq<Entry>, p: int)
    reads c
  {
    && c.pos <= |c.src|
    && (c.Valid() ==> forall i :: 0 <= i <= c.pos ==> UpTo(merged, p, c.src[i]))
    && forall i :: 0 <= i < |c.src| && (!c.Valid() || c.pos < i) ==> !UpTo(merged, p, c.src[i])
  }

  function Head(c: Cursor): Key
    requires c.Valid()
    reads c
  {
    c.src[c.pos].key
  }

  class MergingIterator {
    const children: seq<Cursor>
    var current: Option<nat>
    var direction: Direction
    ghost const merged: seq<Entry>
    ghost var pos: nat

    constructor (children: seq<Cursor>, ghost merged: seq<Entry>)
      requires IsMerge(children, merged) && Distinct(children)
      ensures this.children == children && this.merged == merged && Inv() && !Valid() && direction == Forward
    {
      this.children, this.merged, current, direction, pos := children, merged, None, Forward, |merged|;
    }

    // Only the position of the current child is bound when some child is current; the others follow it.
    ghost predicate Inv()
      reads this, children
    {
      && IsMerge(children, merged) && Distinct(children) && pos <= |merged| && (Valid() <==> pos < |merged|)
      && (Valid() ==>
            && current.value < |children| && children[current.value].Valid()
            && Here() == merged[pos]
            && (direction.Forward? ==> AllFrom(pos))
            && (direction.Reverse? ==> AllUpTo(pos)))
    }

    ghost predicate AllFrom(p: nat)
      reads children
    {
      forall c :: 0 <= c < |children| ==> AtFrom(children[c], merged, p)
    }

    ghost predicate AllUpTo(p: int)
      reads children
    {
      forall c :: 0 <= c < |children| ==> AtUpTo(children[c], merged, p)
    }

    predicate Valid()
      reads this
    {
      current.Some?
    }

    function Here(): Entry
      requires Valid() && current.value < |children| && children[current.value].Valid()
      reads this, children
    {
      children[current.value].src[children[current.value].pos]
    }

    method FindSmallest(ghost p: nat)
      requires IsMerge(children, merged) && Distinct(children) && p <= |merged| && AllFrom(p) && direction.Forward?
      modifies this`current, this`pos
      ensures Inv() && pos == p
    {
      hide IsMerge, AllFrom, Compare;
      var smallest: Option<nat> := None;
      for i := 0 to |children|
        invariant smallest.None? ==> forall c :: 0 <= c < i ==> !children[c].Valid()
        invariant smallest.Some? ==> smallest.value < i && IsSmallest(i, smallest.value)
      {
        var child := children[i];
        if child.Valid() {
          if smallest.None? {
            smallest := Some(i);
            Irreflexive(Head(child));
          } else if Compare(Head(child), Head(children[smallest.value])) < 0 {
            NewSmallest(i, smallest.value);
            smallest := Some(i);
          }
        }
      }
      if p < |merged| { ghost var c := SomeFrom(p); }
      if smallest.Some? { SmallestIsNext(p, smallest.value); }
      current, pos := smallest, p;
    }

    // Among the first n children that stand at an entry, s stands at the least.
    ghost predicate IsSmallest(n: nat, s: nat)
      requires n <= |children|
      reads children
    {
      && s < n && children[s].Valid()
      && forall c :: 0 <= c < n && children[c].Valid()
             ==> !Less(Head(children[c]), Head(children[s]))
    }

    lemma NewSmallest(n: nat, s: nat)
      requires n < |children| && IsSmallest(n, s) && children[n].Valid()
      requires Compare(Head(children[n]), Head(children[s])) < 0
      ensures IsSmallest(n + 1, n)
    {
    }

    lemma SmallestIsNext(p: nat, s: nat)
      requires IsMerge(children, merged) && AllFrom(p) && IsSmallest(|children|, s)
      ensures p < |merged| && children[s].src[children[s].pos] == merged[p]
    {
      var e := children[s].src[children[s].pos];
      assert AtFrom(children[s], merged, p) && From(merged, p, e);
      var c, i := Owner(p);
      assert AtFrom(children[c], merged, p) && From(merged, p, children[c].src[i]);
      InOrder(children[c].src, children[c].pos, i);
      SameKey(e.key, merged[p].key);
      Unique(merged, p, e);
    }

    lemma Owner(p: nat) returns (c: nat, i: nat)
      requires IsMerge(children, merged) && p < |merged|
      ensures c < |children| && i < |children[c].src| && children[c].src[i] == merged[p]
    {
      assert Owned(children, merged[p]);
      c :| 0 <= c < |children| && merged[p] in children[c].src;
      i :| 0 <= i < |children[c].src| && children[c].src[i] == merged[p];
    }

    lemma SomeFrom(p: nat) returns (c: nat)
      requires IsMerge(children, merged) && AllFrom(p) && p < |merged|
      ensures c < |children| && children[c].Valid()
    {
      var i: nat;
      c, i := Owner(p);
      assert AtFrom(children[c], merged, p) && From(merged, p, children[c].src[i]);
    }

    method FindLargest(ghost p: int)
      requires IsMerge(children, merged) && Distinct(children) && -1 <= p < |merged| && AllUpTo(p) && direction.Reverse?
      modifies this`current, this`pos
      ensures Inv() && pos == if p < 0 then |merged| else p
    {
      hide IsMerge, AllUpTo, Compare;
      var largest: Option<nat> := None;
      for i := |children| downto 0
        invariant largest.None? ==> forall c :: i <= c < |children| ==> !children[c].Valid()
        invariant largest.Some? ==> i <= largest.value && IsLargest(i, largest.value)
      {
        var child := children[i];
        if child.Valid() {
          if largest.None? {
            largest := Some(i);
            Irreflexive(Head(child));
          } else if Compare(Head(child), Head(children[largest.value])) > 0 {
            NewLargest(i, largest.value);
            largest := Some(i);
          } else {
            KeepLargest(i, largest.value);
          }
        }
      }
      if p >= 0 { ghost var c := SomeUpTo(p); }
      if largest.Some? { LargestIsPrevious(p, largest.value); }
      current, pos := largest, if p < 0 then |merged| else p;
    }

    ghost predicate IsLargest(n: nat, s: nat)
      reads children
    {
      && n <= s < |children| && children[s].Valid()
      && forall c :: n <= c < |children| && children[c].Valid()
             ==> !Less(Head(children[s]), Head(children[c]))
    }

    lemma NewLargest(n: nat, s: nat)
      requires n < |children| && IsLargest(n + 1, s) && children[n].Valid()
      requires Compare(Head(children[n]), Head(children[s])) > 0
      ensures IsLargest(n, n)
    {
    }

    lemma KeepLargest(n: nat, s: nat)
      requires n < |children| && IsLargest(n + 1, s) && children[n].Valid()
      requires Compare(Head(children[n]), Head(children[s])) <= 0
      ensures IsLargest(n, s)
    {
    }

    lemma LargestIsPrevious(p: int, s: nat)
      requires IsMerge(children, merged) && AllUpTo(p) && IsLargest(0, s)
      ensures 0 <= p < |merged| && children[s].src[children[s].pos] == merged[p]
    {
      var e := children[s].src[children[s].pos];
      assert AtUpTo(children[s], merged, p) && UpTo(merged, p, e);
      var c, i := Owner(p);
      assert AtUpTo(children[c], merged, p) && UpTo(merged, p, children[c].src[i]);
      InOrder(children[c].src, i, children[c].pos);
      SameKey(e.key, merged[p].key);
      Unique(merged, p, e);
    }

    lemma SomeUpTo(p: nat) returns (c: nat)
      requires IsMerge(children, merged) && AllUpTo(p) && p < |merged|
      ensures c < |children| && children[c].Valid()
    {
      var i: nat;
      c, i := Owner(p);
      assert AtUpTo(children[c], merged, p) && UpTo(merged, p, children[c].src[i]);
    }

    method SeekToFirst()
      requires Inv()
      modifies this, children
      ensures Inv() && direction.Forward? && pos == 0
    {
      for i := 0 to |children|
        invariant IsMerge(children, merged) && forall c :: 0 <= c < i ==> AtFrom(children[c], merged, 0)
      {
        children[i].SeekToFirst();
        AllFromStart(children[i].src, i);
      }
      direction := Forward;
      FindSmallest(0);
    }

    lemma AllFromStart(src: seq<Entry>, c: nat)
      requires IsMerge(children, merged) && c < |children| && children[c].src == src
      ensures forall i :: 0 <= i < |src| ==> From(merged, 0, src[i])
    {
      forall i | 0 <= i < |src| ensures From(merged, 0, src[i]) {
        var p :| 0 <= p < |merged| && merged[p] == src[i];
        InOrder(merged, 0, p);
      }
    }

    method SeekToLast()
      requires Inv()
      modifies this, children
      ensures Inv() && direction.Reverse? && pos == if merged == [] then 0 else |merged| - 1
    {
      for i := 0 to |children|
        invariant IsMerge(children, merged) && forall c :: 0 <= c < i ==> AtUpTo(children[c], merged, |merged| - 1)
      {
        children[i].SeekToLast();
        AllUpToEnd(children[i].src, i);
      }
      direction := Reverse;
      FindLargest(|merged| - 1);
    }

    lemma AllUpToEnd(src: seq<Entry>, c: nat)
      requires IsMerge(children, merged) && c < |children| && children[c].src == src
      ensures forall i :: 0 <= i < |src| ==> UpTo(merged, |merged| - 1, src[i])
    {
      forall i | 0 <= i < |src| ensures UpTo(merged, |merged| - 1, src[i]) {
        var p :| 0 <= p < |merged| && merged[p] == src[i];
        InOrder(merged, p, |merged| - 1);
      }
    }

    method Seek(target: Key)
      requires Inv()
      modifies this, children
      ensures Inv() && direction.Forward? && pos == LowerBound(merged, target)
    {
      hide IsMerge, AtFrom, From, LowerBound;
      for i := 0 to |children|
        invariant IsMerge(children, merged)
        invariant forall c :: 0 <= c < i ==> AtFrom(children[c], merged, LowerBound(merged, target))
      {
        children[i].Seek(target);
        SeekChild(i, target);
      }
      direction := Forward;
      FindSmallest(LowerBound(merged, target));
    }

    lemma SeekChild(c: nat, target: Key)
      requires IsMerge(children, merged) && c < |children| && children[c].pos == LowerBound(children[c].src, target)
      ensures AtFrom(children[c], merged, LowerBound(merged, target))
    {
      hide Less, From, LowerBound;
      var src, q, p := children[c].src, children[c].pos, LowerBound(merged, target);
      forall i | 0 <= i < |src| ensures From(merged, p, src[i]) <==> q <= i {
        var k := IndexOf(c, i);
        PastBound(src, target, i);
        PastBound(merged, target, k);
        FromIndex(merged, p, k);
      }
    }

    method Next()
      requires Inv() && Valid()
      modifies this, children
      ensures Inv() && direction.Forward? && pos == old(pos) + 1
    {
      hide IsMerge, AtFrom, AtUpTo, From, UpTo, Compare, Less, LowerBound;
      var at, key := current.value, Here().key;
      ghost var p: int := pos;
      assert merged[p] in children[at].src;
      if !direction.Forward? {
        for i := 0 to |children|
          invariant children[at].pos == old(children[at].pos) && pos == p
          invariant forall c :: 0 <= c < i && c != at ==> AtFrom(children[c], merged, p + 1)
        {
          if i != at {
            children[i].Seek(key);
            if children[i].Valid() { CompareEqual(key, Head(children[i])); }
            if children[i].Valid() && Compare(key, Head(children[i])) == 0 {
              children[i].Next();
            }
            SeekChildPast(i, p);
          }
        }
        direction := Forward;
      } else {
        forall c | 0 <= c < |children| && c != at ensures AtFrom(children[c], merged, p + 1) {
          OthersPast(at, c, p);
        }
      }
      ghost var q := children[at].pos;
      children[at].Next();
      CurrentPast(at, q, p);
      FindSmallest(p + 1);
    }

    // Entries of the other children are on the same side of the current entry and of its successor.
    lemma OthersPast(at: nat, c: nat, p: nat)
      requires IsMerge(children, merged) && at < |children| && c < |children| && c != at && p < |merged|
      requires merged[p] in children[at].src && AtFrom(children[c], merged, p)
      ensures AtFrom(children[c], merged, p + 1)
    {
      forall i | 0 <= i < |children[c].src| ensures From(merged, p + 1, children[c].src[i]) <==> children[c].pos <= i {
        var k := IndexOf(c, i);
        NotTheSame(at, c, p, i);
        FromIndex(merged, p, k);
        FromIndex(merged, p + 1, k);
      }
    }

    lemma CurrentPast(at: nat, q: nat, p: nat)
      requires IsMerge(children, merged) && at < |children| && p < |merged|
      requires q < |children[at].src| && children[at].src[q] == merged[p] && children[at].pos == q + 1
      ensures AtFrom(children[at], merged, p + 1)
    {
      hide From, Less;
      forall i | 0 <= i < |children[at].src| ensures From(merged, p + 1, children[at].src[i]) <==> q < i {
        var k := IndexOf(at, i);
        FromIndex(merged, p + 1, k);
        SameOrder(children[at].src, merged, i, q, k, p);
      }
    }

    // After a seek to the current key and a step off that key, a child stands past the current entry.
    lemma SeekChildPast(c: nat, p: nat)
      requires IsMerge(children, merged) && c < |children| && p < |merged|
      requires var src, q := children[c].src, LowerBound(children[c].src, merged[p].key);
               children[c].pos == if q < |src| && src[q].key == merged[p].key then q + 1 else q
      ensures AtFrom(children[c], merged, p + 1)
    {
      hide Less, From, LowerBound;
      var src, q := children[c].src, children[c].pos;
      forall i | 0 <= i < |src| ensures From(merged, p + 1, src[i]) <==> q <= i {
        var k := IndexOf(c, i);
        FromIndex(merged, p + 1, k);
        PastBound(src, merged[p].key, i);
        Trichotomy(merged, p, k);
      }
    }

    lemma IndexOf(c: nat, i: nat) returns (k: nat)
      requires IsMerge(children, merged) && c < |children| && i < |children[c].src|
      ensures k < |merged| && merged[k] == children[c].src[i]
    {
      assert children[c].src[i] in merged;
      k :| 0 <= k < |merged| && merged[k] == children[c].src[i];
    }

    lemma NotTheSame(at: nat, c: nat, p: nat, i: nat)
      requires IsMerge(children, merged) && at < |children| && c < |children| && c != at && p < |merged|
      requires merged[p] in children[at].src && i < |children[c].src|
      ensures children[c].src[i].key != merged[p].key
    {
      var j :| 0 <= j < |children[at].src| && children[at].src[j] == merged[p];
      assert c < at ==> NoSharedKey(children[c].src, children[at].src);
      assert at < c ==> NoSharedKey(children[at].src, children[c].src);
    }

    method Prev()
      requires Inv() && Valid()
      modifies this, children
      ensures Inv() && direction.Reverse? && pos == if old(pos) == 0 then |merged| else old(pos) - 1
    {
      hide IsMerge, AtFrom, AtUpTo, From, UpTo, Compare, Less, LowerBound;
      var at, key := current.value, Here().key;
      ghost var p: int := pos;
      assert merged[p] in children[at].src;
      if !direction.Reverse? {
        for i := 0 to |children|
          invariant children[at].pos == old(children[at].pos) && pos == p
          invariant forall c :: 0 <= c < i && c != at ==> AtUpTo(children[c], merged, p - 1)
        {
          if i != at {
            children[i].Seek(key);
            if children[i].Valid() {
              children[i].Prev();
            } else {
              children[i].SeekToLast();
            }
            SeekChildBefore(i, p);
          }
        }
        direction := Reverse;
      } else {
        forall c | 0 <= c < |children| && c != at ensures AtUpTo(children[c], merged, p - 1) {
          OthersBefore(at, c, p);
        }
      }
      ghost var q := children[at].pos;
      children[at].Prev();
      CurrentBefore(at, q, p);
      FindLargest(p - 1);
    }

    lemma OthersBefore(at: nat, c: nat, p: nat)
      requires IsMerge(children, merged) && at < |children| && c < |children| && c != at && p < |merged|
      requires merged[p] in children[at].src && AtUpTo(children[c], merged, p)
      ensures AtUpTo(children[c], merged, p - 1)
    {
      forall i | 0 <= i < |children[c].src|
        ensures UpTo(merged, p - 1, children[c].src[i]) <==> UpTo(merged, p, children[c].src[i])
      {
        var k := IndexOf(c, i);
        NotTheSame(at, c, p, i);
        UpToIndex(merged, p, k);
        UpToIndex(merged, p - 1, k);
      }
    }

    lemma CurrentBefore(at: nat, q: nat, p: nat)
      requires IsMerge(children, merged) && at < |children| && p < |merged|
      requires q < |children[at].src| && children[at].src[q] == merged[p]
      requires children[at].pos == if q == 0 then |children[at].src| else q - 1
      ensures AtUpTo(children[at], merged, p - 1)
    {
      hide UpTo, Less;
      forall i | 0 <= i < |children[at].src| ensures UpTo(merged, p - 1, children[at].src[i]) <==> i < q {
        var k := IndexOf(at, i);
        UpToIndex(merged, p - 1, k);
        SameOrder(children[at].src, merged, i, q, k, p);
      }
    }

    lemma SeekChildBefore(c: nat, p: nat)
      requires IsMerge(children, merged) && c < |children| && p < |merged|
      requires var src, q := children[c].src, LowerBound(children[c].src, merged[p].key);
               children[c].pos == if 0 < q then q - 1 else |src|
      ensures AtUpTo(children[c], merged, p - 1)
    {
      hide Less, UpTo, LowerBound;
      var src, q := children[c].src, LowerBound(children[c].src, merged[p].key);
      forall i | 0 <= i < |src| ensures UpTo(merged, p - 1, src[i]) <==> i < q {
        var k := IndexOf(c, i);
        UpToIndex(merged, p - 1, k);
        PastBound(src, merged[p].key, i);
        Trichotomy(merged, p, k);
      }
    }
  }

  lemma Irreflexive(key: Key)
    ensures !Less(key, key)
  {
  }

  lemma SameKey(a: Key, b: Key)
    requires !Less(a, b) && !Less(b, a)
    ensures a == b
  {
  }

  lemma Unique(run: seq<Entry>, p: nat, e: Entry)
    requires Sorted(run) && p < |run| && e in run && e.key == run[p].key
    ensures e == run[p]
  {
    var k :| 0 <= k < |run| && run[k] == e;
    if k != p { Trichotomy(run, p, k); }
  }

  lemma FromIndex(run: seq<Entry>, p: nat, k: nat)
    requires Sorted(run) && p <= |run| && k < |run|
    ensures From(run, p, run[k]) <==> p <= k
  {
    if p <= k { InOrder(run, p, k); } else if p < |run| { assert Less(run[k].key, run[p].key); }
  }

  lemma UpToIndex(run: seq<Entry>, p: int, k: nat)
    requires Sorted(run) && p < |run| && k < |run|
    ensures UpTo(run, p, run[k]) <==> k <= p
  {
    if k <= p { InOrder(run, k, p); } else if 0 <= p { assert Less(run[p].key, run[k].key); }
  }

  // Equal entries of two sorted runs are in the same order in both.
  lemma SameOrder(a: seq<Entry>, b: seq<Entry>, i: nat, j: nat, k: nat, l: nat)
    requires Sorted(a) && Sorted(b) && i < |a| && j < |a| && k < |b| && l < |b| && a[i] == b[k] && a[j] == b[l]
    ensures i < j <==> k < l
    ensures j < i <==> l < k
  {
    Trichotomy(a, j, i);
    Trichotomy(b, l, k);
  }

  // The input of a compaction, read through its merging iterator, is the merge of its files' runs.
  lemma MergeOfFiles(files: seq<File>, children: seq<Cursor>)
    requires |children| == |files|
    requires forall c :: 0 <= c < |files| ==> children[c].src == files[c].run && files[c].Valid()
    requires forall i, j :: 0 <= i < j < |files| ==> Apart(files[i].run, files[j].run)
    ensures IsMerge(children, MergeFiles(files))
  {
    hide Less, Compare, Merge, MergeFiles, Sorted, Apart, NoSharedKey, Contents, FileSet;
    MergeFilesSorted(files);
    forall c, i | 0 <= c < |files| && 0 <= i < |files[c].run| ensures files[c].run[i] in MergeFiles(files) {
      InMerged(files, c, i);
    }
    forall p | 0 <= p < |MergeFiles(files)| ensures Owned(children, MergeFiles(files)[p]) {
      var c := FromFile(files, MergeFiles(files)[p]);
      assert MergeFiles(files)[p] in children[c].src;
    }
    forall c, d | 0 <= c < d < |files| ensures NoSharedKey(children[c].src, children[d].src) {
      ApartKeys(files[c].run, files[d].run);
    }
  }

  lemma InMerged(files: seq<File>, c: nat, i: nat)
    requires c < |files| && i < |files[c].run|
    ensures files[c].run[i] in MergeFiles(files)
  {
    MergeFilesElements(files);
    assert files[c] in FileSet(files) && files[c].run[i] in files[c].run;
    assert files[c].run[i] in Elements(MergeFiles(files));
  }

  lemma FromFile(files: seq<File>, e: Entry) returns (c: nat)
    requires e in MergeFiles(files)
    ensures c < |files| && e in files[c].run
  {
    MergeFilesElements(files);
    assert e in Elements(MergeFiles(files));
    var f :| f in FileSet(files) && e in f.run;
    c :| 0 <= c < |files| && files[c] == f;
  }

  lemma ApartKeys(a: seq<Entry>, b: seq<Entry>)
    requires Apart(a, b)
    ensures NoSharedKey(a, b)
  {
    forall i, j | 0 <= i < |a| && 0 <= j < |b| ensures a[i].key != b[j].key { CompareEqual(a[i].key, b[j].key); }
  }
}
