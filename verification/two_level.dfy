// An index over blocks read as one run (table/two_level_iterator.cc): the concatenation of the blocks,
// some of which may be empty.

module TwoLevel {
  import opened DbFormat
  import opened Iterators

  // The first n blocks, one after the other. An index entry's value is the handle of its block.
  function Flat(index: seq<Entry>, blockOf: Value -> seq<Entry>, n: nat): seq<Entry>
    requires n <= |index|
  {
    if n == 0 then [] else Flat(index, blockOf, n - 1) + blockOf(index[n - 1].value)
  }

  function All(index: seq<Entry>, blockOf: Value -> seq<Entry>): seq<Entry> { Flat(index, blockOf, |index|) }

  function Offset(index: seq<Entry>, blockOf: Value -> seq<Entry>, n: nat): nat
    requires n <= |index|
  {
    |Flat(index, blockOf, n)|
  }

  // Each separator is at or after the keys of its own block and before the keys of the later ones.
  ghost predicate Separates(index: seq<Entry>, blockOf: Value -> seq<Entry>) {
    && (forall i :: 0 <= i < |index| ==> AtOrBefore(blockOf(index[i].value), index[i].key))
    && (forall i, j :: 0 <= i < j < |index| ==>
         Less(index[i].key, index[j].key) && After(index[i].key, blockOf(index[j].value)))
  }

  ghost predicate AtOrBefore(block: seq<Entry>, sep: Key) { forall k :: 0 <= k < |block| ==> !Less(sep, block[k].key) }

  ghost predicate After(sep: Key, block: seq<Entry>) { forall k :: 0 <= k < |block| ==> Less(sep, block[k].key) }

  class TwoLevelIterator {
    const index: Cursor
    const blockOf: Value -> seq<Entry>
    var data: Cursor?
    var dataBlockHandle: Value

    constructor (index: Cursor, blockOf: Value -> seq<Entry>)
      requires Separates(index.src, blockOf) && index.Ok()
      ensures this.index == index && this.blockOf == blockOf && Inv() && !Valid()
    {
      this.index, this.blockOf, data, dataBlockHandle := index, blockOf, null, "";
    }

    // Open: the data iterator, if any, reads the block its handle names.
    ghost predicate Open()
      reads this, index
    {
      && Separates(index.src, blockOf) && index.Ok()
      && (data != null ==> data != index && data.src == blockOf(dataBlockHandle))
    }

    // Between calls there is a data iterator exactly when an entry is current.
    ghost predicate Inv()
      reads this, index, data
    {
      && Open()
      && (data != null ==> data.Valid() && index.Valid() && data.src == Block())
    }

    predicate Valid()
      reads this, data
    {
      data != null && data.Valid()
    }

    function Block(): seq<Entry>
      requires index.Valid()
      reads this, index
    {
      blockOf(index.src[index.pos].value)
    }

    function Src(): seq<Entry> { All(index.src, blockOf) }

    // The place in the concatenation, or its length when no entry is current.
    ghost function Pos(): nat
      requires Inv()
      reads this, index, data
    {
      if Valid() then Offset(index.src, blockOf, index.pos) + data.pos else |Src()|
    }

    function Current(): (e: Entry)
      requires Inv() && Valid()
      reads this, index, data
      ensures Pos() < |Src()| && e == Src()[Pos()]
    {
      InConcatenation(index.src, blockOf, index.pos, data.pos);
      data.src[data.pos]
    }

    method InitDataBlock()
      requires Open()
      modifies this`data, this`dataBlockHandle
      ensures Open() && (data == null || data == old(data) || fresh(data)) && (data == null <==> !index.Valid())
      ensures data != null ==> data.src == Block()
    {
      if !index.Valid() {
        data := null;
      } else {
        var handle := index.src[index.pos].value;
        if data != null && handle == dataBlockHandle {
          // The open block is the one asked for.
        } else {
          data := new Cursor(blockOf(handle));
          dataBlockHandle := handle;
        }
      }
    }

    // Standing so that the next entry, in this block or a later one, is number p of the concatenation.
    ghost predicate Ahead(p: nat)
      reads this, index, data
    {
      && Open() && (data == null <==> !index.Valid())
      && (data == null ==> p == |Src()|)
      && (data != null ==> data.src == Block() && data.Ok() && p == Offset(index.src, blockOf, index.pos) + data.pos)
    }

    // Standing so that the previous entry, in this block or an earlier one, is number p; -1 if none is.
    ghost predicate Back(p: int)
      reads this, index, data
    {
      && Open() && (data == null <==> !index.Valid())
      && (data == null ==> p == -1)
      && (data != null ==>
            && data.src == Block() && data.Ok()
            && p == Offset(index.src, blockOf, index.pos) + if data.Valid() then data.pos else -1)
    }

    method SkipEmptyDataBlocksForward(ghost p: nat)
      requires Ahead(p)
      modifies this`data, this`dataBlockHandle, index, data
      ensures Inv() && Pos() == p && (data == null || data == old(data) || fresh(data))
    {
      while data == null || !data.Valid()
        invariant Ahead(p) && (data == null || data == old(data) || fresh(data))
        decreases |index.src| - index.pos
      {
        if !index.Valid() {
          data := null;
          return;
        }
        index.Next();
        InitDataBlock();
        if data != null {
          data.SeekToFirst();
        }
      }
      InConcatenation(index.src, blockOf, index.pos, data.pos);
    }

    method SkipEmptyDataBlocksBackward(ghost p: int)
      requires Back(p)
      modifies this`data, this`dataBlockHandle, index, data
      ensures Inv() && Pos() == (if p < 0 then |Src()| else p) && (data == null || data == old(data) || fresh(data))
    {
      while data == null || !data.Valid()
        invariant Back(p) && (data == null || data == old(data) || fresh(data))
        decreases if index.Valid() then index.pos + 1 else 0
      {
        if !index.Valid() {
          data := null;
          return;
        }
        index.Prev();
        InitDataBlock();
        if data != null {
          data.SeekToLast();
        }
      }
      InConcatenation(index.src, blockOf, index.pos, data.pos);
    }

    method Seek(target: Key)
      requires Inv()
      modifies this`data, this`dataBlockHandle, index, data
      ensures Inv() && Pos() == LowerBound(Src(), target) && (data == null || data == old(data) || fresh(data))
    {
      index.Seek(target);
      InitDataBlock();
      if data != null {
        data.Seek(target);
      }
      SeekPlace(index.src, blockOf, target);
      SkipEmptyDataBlocksForward(LowerBound(Src(), target));
    }

    method SeekToFirst()
      requires Inv()
      modifies this`data, this`dataBlockHandle, index, data
      ensures Inv() && Pos() == 0 && (data == null || data == old(data) || fresh(data))
    {
      index.SeekToFirst();
      InitDataBlock();
      if data != null {
        data.SeekToFirst();
      }
      SkipEmptyDataBlocksForward(0);
    }

    method SeekToLast()
      requires Inv()
      modifies this`data, this`dataBlockHandle, index, data
      ensures Inv() && Pos() == (if Src() == [] then 0 else |Src()| - 1)
      ensures (data == null || data == old(data) || fresh(data))
    {
      index.SeekToLast();
      InitDataBlock();
      if data != null {
        data.SeekToLast();
      }
      SkipEmptyDataBlocksBackward(|Src()| - 1);
    }

    method Next()
      requires Inv() && Valid()
      modifies this`data, this`dataBlockHandle, index, data
      ensures Inv() && Pos() == old(Pos()) + 1 && (data == null || data == old(data) || fresh(data))
    {
      ghost var p := Pos();
      data.Next();
      SkipEmptyDataBlocksForward(p + 1);
    }

    method Prev()
      requires Inv() && Valid()
      modifies this`data, this`dataBlockHandle, index, data
      ensures Inv() && Pos() == (if old(Pos()) == 0 then |Src()| else old(Pos()) - 1)
      ensures data == null || data == old(data) || fresh(data)
    {
      ghost var p: int := Pos();
      data.Prev();
      SkipEmptyDataBlocksBackward(p - 1);
    }
  }

  // Block i occupies its own stretch of the concatenation.
  lemma {:induction false} InFlat(index: seq<Entry>, blockOf: Value -> seq<Entry>, i: nat, k: nat, n: nat)
    requires i < n <= |index| && k < |blockOf(index[i].value)|
    ensures var at := Offset(index, blockOf, i) + k;
            at < Offset(index, blockOf, n) && Flat(index, blockOf, n)[at] == blockOf(index[i].value)[k]
  {
    if i < n - 1 { InFlat(index, blockOf, i, k, n - 1); }
  }

  lemma InConcatenation(index: seq<Entry>, blockOf: Value -> seq<Entry>, i: nat, k: nat)
    requires i < |index| && k < |blockOf(index[i].value)|
    ensures var at := Offset(index, blockOf, i) + k;
            at < |All(index, blockOf)| && All(index, blockOf)[at] == blockOf(index[i].value)[k]
  {
    InFlat(index, blockOf, i, k, |index|);
  }

  // Every place in the first n blocks lies in one of them.
  lemma {:induction false} FromBlock(index: seq<Entry>,
      blockOf: Value -> seq<Entry>, n: nat, p: nat) returns (i: nat, k: nat)
    requires n <= |index| && p < Offset(index, blockOf, n)
    ensures i < n && k < |blockOf(index[i].value)| && p == Offset(index, blockOf, i) + k
    ensures Flat(index, blockOf, n)[p] == blockOf(index[i].value)[k]
  {
    if p < Offset(index, blockOf, n - 1) {
      i, k := FromBlock(index, blockOf, n - 1, p);
    } else {
      i, k := n - 1, p - Offset(index, blockOf, n - 1);
    }
  }

  lemma {:induction false} OffsetGrows(index: seq<Entry>, blockOf: Value -> seq<Entry>, i: nat, n: nat)
    requires i <= n <= |index|
    ensures Offset(index, blockOf, i) <= Offset(index, blockOf, n)
  {
    if i < n { OffsetGrows(index, blockOf, i, n - 1); }
  }

  lemma AtBound(run: seq<Entry>, target: Key, p: nat)
    requires p <= |run| && forall j :: 0 <= j < p ==> Less(run[j].key, target)
    requires p < |run| ==> !Less(run[p].key, target)
    ensures p == LowerBound(run, target)
  {
  }

  lemma LessSep(a: Key, sep: Key, target: Key)
    requires !Less(sep, a) && Less(sep, target)
    ensures Less(a, target)
  {
  }

  // Seeking the index and then the block finds the place in the concatenation.
  lemma SeekPlace(index: seq<Entry>, blockOf: Value -> seq<Entry>, target: Key)
    requires Separates(index, blockOf)
    ensures var i := LowerBound(index, target);
            LowerBound(All(index, blockOf), target)
              == Offset(index, blockOf, i) + if i < |index| then LowerBound(blockOf(index[i].value), target) else 0
  {
    hide Less, LowerBound, Flat;
    var all, i := All(index, blockOf), LowerBound(index, target);
    var k := if i < |index| then LowerBound(blockOf(index[i].value), target) else 0;
    var p := Offset(index, blockOf, i) + k;
    forall q | 0 <= q < |all| ensures (q < p ==> Less(all[q].key, target)) && (q == p ==> !Less(all[q].key, target)) {
      var j, l := FromBlock(index, blockOf, |index|, q);
      SideOf(index, blockOf, target, j, l);
      if j < i { InFlat(index, blockOf, j, l, i); }
      if i < j { OffsetGrows(index, blockOf, i + 1, j); OffsetNext(index, blockOf, i); }
    }
    PlaceInside(index, blockOf, i, k);
    AtBound(all, target, p);
  }

  lemma OffsetNext(index: seq<Entry>, blockOf: Value -> seq<Entry>, i: nat)
    requires i < |index|
    ensures Offset(index, blockOf, i + 1) == Offset(index, blockOf, i) + |blockOf(index[i].value)|
  {
  }

  lemma PlaceInside(index: seq<Entry>, blockOf: Value -> seq<Entry>, i: nat, k: nat)
    requires i <= |index| && k <= if i < |index| then |blockOf(index[i].value)| else 0
    ensures Offset(index, blockOf, i) + k <= |All(index, blockOf)|
  {
    if i < |index| { OffsetNext(index, blockOf, i); OffsetGrows(index, blockOf, i + 1, |index|); }
  }

  lemma SideOf(index: seq<Entry>, blockOf: Value -> seq<Entry>, target: Key, j: nat, l: nat)
    requires Separates(index, blockOf) && j < |index| && l < |blockOf(index[j].value)|
    ensures var i := LowerBound(index, target); var key := blockOf(index[j].value)[l].key;
            && (j < i ==> Less(key, target)) && (i < j ==> !Less(key, target))
            && (i == j ==> (l < LowerBound(blockOf(index[j].value), target) ==> Less(key, target)))
            && (i == j && l == LowerBound(blockOf(index[j].value), target) ==> !Less(key, target))
  {
    var i, block := LowerBound(index, target), blockOf(index[j].value);
    if j < i { LessSep(block[l].key, index[j].key, target); }
    if i < j { assert After(index[i].key, block); }
  }

  // The concatenation is again a sorted run, so it can be merged or read by a user iterator.
  lemma AllSorted(index: seq<Entry>, blockOf: Value -> seq<Entry>)
    requires Separates(index, blockOf) && forall i :: 0 <= i < |index| ==> Sorted(blockOf(index[i].value))
    ensures Sorted(All(index, blockOf))
  {
    hide Less, Flat;
    var all := All(index, blockOf);
    forall p, q | 0 <= p < q < |all| ensures Less(all[p].key, all[q].key) {
      var i, k := FromBlock(index, blockOf, |index|, p);
      var j, l := FromBlock(index, blockOf, |index|, q);
      if i < j {
        assert AtOrBefore(blockOf(index[i].value), index[i].key);
        assert After(index[i].key, blockOf(index[j].value));
        LessSep(all[p].key, index[i].key, all[q].key);
      } else if j < i {
        OffsetNext(index, blockOf, j);
        OffsetGrows(index, blockOf, j + 1, i);
        assert false;
      }
    }
  }
}
