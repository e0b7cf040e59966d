// The memtable (db/memtable.cc) over the skip list.

module MemTables {
  import opened Wrappers
  import opened DbFormat
  import opened Iterators
  import opened SkipLists
  import opened Version
  import DbImpl

  class MemTable {
    const table: SkipList

    constructor ()
      ensures table.Valid() && table.Contents() == [] && fresh(table) && fresh(table.repr)
    {
      table := new SkipList();
    }

    // The table becomes what the database's own steps add to their memtable.
    method Add(e: Entry)
      requires table.Valid() && forall d :: d in table.Contents() ==> d.key.sn < e.key.sn
      modifies table, table.repr
      ensures table.Valid() && fresh(table.repr - old(table.repr))
      ensures table.Contents() == DbImpl.MemTableAdd(old(table.Contents()), e)
    {
      hide SkipList.Valid, DbImpl.MemTableAdd, InsertEntry;
      table.ContentsSorted();
      AddIsInsert(table.Contents(), e);
      table.Insert(e);
    }

    // Only the entry the seek lands on is looked at.
    method Get(user: UserKey, sn: SequenceNumber) returns (r: Outcome)
      requires table.Valid()
      ensures r == Saved(TableGet(table.Contents(), SeekKey(user, sn)), user)
      ensures Answers(Elements(table.Contents()), user, sn, r)
    {
      hide SkipList.Valid, Answers, LowerBound, TableGet;
      table.ContentsSorted();
      SearchRun(table.Contents(), user, sn);
      GetIsSeek(table.Contents(), SeekKey(user, sn));
      var iter := new SkipListIterator(table);
      iter.Seek(SeekKey(user, sn));
      iter.ValidInside();
      r := NotHere;
      if iter.Valid() {
        var e := iter.Current();
        if e.key.user == user {
          match e.key.typ
          case Put => r := Found(e.value);
          case Deletion => r := Deleted;
        }
      }
    }
  }

  lemma {:induction false} AddIsInsert(run: seq<Entry>, e: Entry)
    requires Sorted(run) && forall d :: d in run ==> d.key.sn < e.key.sn
    ensures DbImpl.MemTableAdd(run, e) == InsertEntry(run, e)
    ensures forall d :: d in run ==> d.key != e.key
  {
    hide Less, Sorted, DbImpl.MemTableAdd, InsertEntry;
    AddStep(run, e);
    InsertStep(run, e);
    if run == [] {
    } else {
      assert run[0] in run;
      Total(run[0].key, e.key);
      if Less(run[0].key, e.key) {
        TailSorted(run);
        AddIsInsert(run[1..], e);
      }
    }
  }

  lemma AddStep(run: seq<Entry>, e: Entry)
    ensures DbImpl.MemTableAdd(run, e) ==
      if run == [] || Less(e.key, run[0].key) then [e] + run else [run[0]] + DbImpl.MemTableAdd(run[1..], e)
  {
    hide Less;
  }

  lemma InsertStep(run: seq<Entry>, e: Entry)
    ensures InsertEntry(run, e) == if run == [] || !Less(run[0].key, e.key) then [e] + run
      else [run[0]] + InsertEntry(run[1..], e)
  {
    hide Less;
    if run == [] || !Less(run[0].key, e.key) {
      assert InsertEntry(run, e) == [] + [e] + run;
    } else {
      var r := LowerBound(run[1..], e.key);
      assert run[..r + 1] == [run[0]] + run[1..][..r] && run[r + 1..] == run[1..][r..];
    }
  }

  lemma Total(a: Key, b: Key)
    requires a != b
    ensures Less(a, b) <==> !Less(b, a)
  {
  }

  lemma TailSorted(run: seq<Entry>)
    requires Sorted(run) && run != []
    ensures Sorted(run[1..])
  {
  }

  lemma {:induction false} GetIsSeek(run: seq<Entry>, target: Key)
    ensures var p := LowerBound(run, target); TableGet(run, target) == if p < |run| then Some(run[p]) else None
  {
    if run != [] && Less(run[0].key, target) { GetIsSeek(run[1..], target); }
  }
}
