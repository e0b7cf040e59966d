// An iterator over a sorted run: a position in the run, or none.

module Iterators {
  import opened DbFormat

  datatype Direction = Forward | Reverse

  // The least index whose entry is at or after `target`.
  function LowerBound(src: seq<Entry>, target: Key): (i: nat)
    ensures i <= |src|
    ensures forall j :: 0 <= j < i ==> Less(src[j].key, target)
    ensures i < |src| ==> !Less(src[i].key, target)
  {
    if src == [] || !Less(src[0].key, target) then 0 else 1 + LowerBound(src[1..], target)
  }

  // After a step off either end the position is |src|, and only a seek makes it valid again.
  class Cursor {
    const src: seq<Entry>
    var pos: nat

    constructor (src: seq<Entry>)
      ensures this.src == src && pos == |src|
    {
      this.src, pos := src, |src|;
    }

    predicate Ok() reads this { pos <= |src| }

    predicate Valid() reads this { pos < |src| }

    method Seek(target: Key)
      modifies this
      ensures pos == LowerBound(src, target)
    {
      pos := LowerBound(src, target);
    }

    method SeekToFirst()
      modifies this
      ensures pos == 0
    {
      pos := 0;
    }

    method SeekToLast()
      modifies this
      ensures pos == if src == [] then 0 else |src| - 1
    {
      pos := if src == [] then 0 else |src| - 1;
    }

    method Next()
      requires Valid()
      modifies this
      ensures pos == old(pos) + 1
    {
      pos := pos + 1;
    }

    method Prev()
      requires Valid()
      modifies this
      ensures pos == if old(pos) == 0 then |src| else old(pos) - 1
    {
      pos := if pos == 0 then |src| else pos - 1;
    }
  }

  lemma CompareEqual(a: Key, b: Key)
    ensures Compare(a, b) == 0 <==> a == b
  {
  }

  lemma InOrder(run: seq<Entry>, i: nat, j: nat)
    requires Sorted(run) && i <= j < |run|
    ensures !Less(run[j].key, run[i].key)
  {
    assert i < j ==> Less(run[i].key, run[j].key);
  }

  lemma PastBound(run: seq<Entry>, key: Key, i: nat)
    requires Sorted(run) && i < |run|
    ensures var q := LowerBound(run, key); (i < q <==> Less(run[i].key, key)) && (q < i ==> Less(key, run[i].key))
  {
    var q := LowerBound(run, key);
    assert q < i ==> Less(run[q].key, run[i].key);
  }

  lemma Trichotomy(run: seq<Entry>, p: nat, k: nat)
    requires Sorted(run) && p < |run| && k < |run|
    ensures k < p <==> Less(run[k].key, run[p].key)
    ensures p < k <==> Less(run[p].key, run[k].key)
  {
    assert k < p ==> Less(run[k].key, run[p].key);
    assert p < k ==> Less(run[p].key, run[k].key);
  }
}
