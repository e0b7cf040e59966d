// Searching a version: the files of each level as the sorted vectors the code keeps
// (db/version_set.cc).

module Version {
  import opened Wrappers
  import opened DbFormat
  import opened Files
  import opened LsmTree

  // Non-overlapping files in key order.
  ghost predicate SortedFiles(files: seq<File>) {
    && (forall i :: 0 <= i < |files| ==> files[i].Valid())
    && forall i, j :: 0 <= i < j < |files| ==> Precedes(files[i], files[j])
  }

  // The least index whose file may hold a key at or after `key`.
  method FindFile(files: seq<File>, key: Key) returns (index: nat)
    requires SortedFiles(files)
    ensures index <= |files|
    ensures forall i :: 0 <= i < index ==> Less(files[i].largest, key)
    ensures forall i :: index <= i < |files| ==> !Less(files[i].largest, key)
  {
    var left, right := 0, |files|;
    while left < right
      invariant 0 <= left <= right <= |files|
      invariant forall i :: 0 <= i < left ==> Less(files[i].largest, key)
      invariant forall i :: right <= i < |files| ==> !Less(files[i].largest, key)
    {
      var mid := (left + right) / 2;
      LargestGrow(files, mid);
      if Less(files[mid].largest, key) {
        left := mid + 1;
      } else {
        right := mid;
      }
    }
    index := right;
  }

  lemma LargestGrow(files: seq<File>, m: nat)
    requires SortedFiles(files) && m < |files|
    ensures forall i :: 0 <= i < m ==> Less(files[i].largest, files[m].largest)
    ensures forall i :: m < i < |files| ==> Less(files[m].largest, files[i].largest)
  {
    forall i | 0 <= i < |files| ensures !Less(files[i].largest, files[i].smallest) {
      InRange(files[i], files[i].run[0]);
    }
  }

  method SomeFileOverlapsRange(disjointSorted: bool, files: seq<File>, smallest: UserKey, largest: UserKey)
    returns (overlap: bool)
    requires disjointSorted ==> SortedFiles(files)
    ensures overlap <==> exists i :: 0 <= i < |files| && Overlaps(files[i], smallest, largest)
  {
    if !disjointSorted {
      for i := 0 to |files|
        invariant forall j :: 0 <= j < i ==> !Overlaps(files[j], smallest, largest)
      {
        if smallest > files[i].largest.user || largest < files[i].smallest.user {
        } else {
          return true;
        }
      }
      return false;
    }
    var index := FindFile(files, SeekKey(smallest, MAX_SEQUENCE));
    if index >= |files| {
      return false;
    }
    overlap := !(largest < files[index].smallest.user);
  }

  // ---- Version::Get ----

  // A table's answer to a lookup: its first entry at or after the key.
  function TableGet(run: seq<Entry>, target: Key): (r: Option<Entry>)
    ensures r.Some? ==> r.value in run && !Less(r.value.key, target)
  {
    if run == [] then None
    else if !Less(run[0].key, target) then Some(run[0])
    else TableGet(run[1..], target)
  }

  lemma {:induction false} TableGetFirst(run: seq<Entry>, target: Key)
    requires Sorted(run)
    ensures TableGet(run, target).None? ==> forall e :: e in run ==> Less(e.key, target)
    ensures TableGet(run, target).Some? ==>
              forall e :: e in run && !Less(e.key, target) ==>
                e == TableGet(run, target).value || Less(TableGet(run, target).value.key, e.key)
  {
    if run != [] && Less(run[0].key, target) { TableGetFirst(run[1..], target); }
  }

  datatype Outcome = NotHere | Deleted | Found(value: Value)

  // SaveValue: only an entry of the very user key counts.
  function Saved(found: Option<Entry>, user: UserKey): Outcome {
    if found.None? || found.value.key.user != user then NotHere
    else if found.value.key.typ.Put? then Found(found.value.value)
    else Deleted
  }

  // What a search of `entries` that stops at its first hit must have found.
  ghost predicate Answers(entries: set<Entry>, user: UserKey, sn: nat, o: Outcome) {
    match o
    case NotHere => forall e :: e in entries && e.key.user == user ==> e.key.sn > sn
    case Deleted => exists e :: IsNewest(entries, user, sn, e) && e.key.typ.Deletion?
    case Found(v) => Finds(entries, user, sn, v)
  }

  lemma SearchRun(run: seq<Entry>, user: UserKey, sn: SequenceNumber)
    requires Sorted(run)
    ensures Answers(Elements(run), user, sn, Saved(TableGet(run, SeekKey(user, sn)), user))
  {
    var target := SeekKey(user, sn);
    TableGetFirst(run, target);
    var found := TableGet(run, target);
    forall e | e in run && e.key.user == user ensures Less(e.key, target) <==> e.key.sn > sn {}
    if found.Some? && found.value.key.user == user {
      assert IsNewest(Elements(run), user, sn, found.value);
    }
  }

  // A search through layers ordered from new to old may stop at its first hit.
  lemma FirstHit(passed: set<Entry>, hit: set<Entry>, rest: set<Entry>, user: UserKey, sn: nat, o: Outcome)
    requires Answers(passed, user, sn, NotHere) && Answers(hit, user, sn, o)
    requires forall d, e :: d in hit && e in rest && d.key.user == e.key.user ==> d.key.sn > e.key.sn
    ensures o == NotHere ==> Answers(passed + hit, user, sn, NotHere)
    ensures o != NotHere ==> Answers(passed + hit + rest, user, sn, o)
  {
    if o != NotHere {
      var n :| IsNewest(hit, user, sn, n) && (o.Deleted? ==> n.key.typ.Deletion?) &&
        (o.Found? ==> n.key.typ.Put? && n.value == o.value);
      assert IsNewest(passed + hit + rest, user, sn, n);
    }
  }

  function FileSet(files: seq<File>): set<File> { set f | f in files }

  ghost predicate NewestFirst(files: seq<File>) {
    forall i, j :: 0 <= i < j < |files| ==> files[i].number > files[j].number
  }

  // std::sort with NewestFirst, as an insertion.
  function InsertNewest(f: File, files: seq<File>): (r: seq<File>)
    ensures forall g :: g in r <==> g == f || g in files
  {
    if files == [] || f.number > files[0].number then [f] + files
    else [files[0]] + InsertNewest(f, files[1..])
  }

  lemma {:induction false} InsertKeepsOrder(f: File, files: seq<File>)
    requires NewestFirst(files) && forall g :: g in files ==> g.number != f.number
    ensures NewestFirst(InsertNewest(f, files))
  {
    if files != [] && f.number <= files[0].number {
      InsertKeepsOrder(f, files[1..]);
      var r := InsertNewest(f, files[1..]);
      forall i | 0 <= i < |r| ensures r[i].number < files[0].number {
        assert r[i] in r;
        assert r[i] == f || exists j :: 1 <= j < |files| && files[j] == r[i];
      }
    }
  }

  function SortNewest(files: seq<File>): (r: seq<File>)
    ensures forall g :: g in r <==> g in files
  {
    if files == [] then [] else InsertNewest(files[0], SortNewest(files[1..]))
  }

  ghost predicate DifferentNumbers(files: seq<File>) {
    forall i, j :: 0 <= i < j < |files| ==> files[i].number != files[j].number
  }

  lemma {:induction false} SortOrders(files: seq<File>)
    requires DifferentNumbers(files)
    ensures NewestFirst(SortNewest(files))
  {
    if files == [] {
    } else {
      SortOrders(files[1..]);
      InsertKeepsOrder(files[0], SortNewest(files[1..]));
    }
  }

  // ---- A version's levels as vectors ----

  function Sets(levels: seq<seq<File>>): Levels {
    seq(|levels|, i requires 0 <= i < |levels| => FileSet(levels[i]))
  }

  // The order of level 0 is immaterial to readers; deeper levels are sorted and disjoint.
  ghost predicate ValidLevels(levels: seq<seq<File>>) {
    && |levels| == NUM_LEVELS
    && (forall i :: 0 <= i < |levels[0]| ==> levels[0][i].Valid())
    && DifferentNumbers(levels[0])
    && forall i :: 1 <= i < NUM_LEVELS ==> SortedFiles(levels[i])
  }

  // Level 0: every file spanning the key, from the newest to the oldest.
  method SearchLevel0(files: seq<File>, user: UserKey, sn: SequenceNumber) returns (o: Outcome)
    requires DifferentNumbers(files) && forall f :: f in files ==> f.Valid()
    requires forall f, g :: f in files && g in files && f.number > g.number ==> Newer(f, g)
    ensures Answers(Contents(FileSet(files)), user, sn, o)
  {
    var tmp := Spanning(files, user);
    var order := SortNewest(tmp);
    SortOrders(tmp);
    for i := 0 to |order|
      invariant forall j :: 0 <= j < i ==> Answers(order[j].Entries(), user, sn, NotHere)
    {
      assert order[i] in files;
      SearchRun(order[i].run, user, sn);
      o := Saved(TableGet(order[i].run, SeekKey(user, sn)), user);
      if o != NotHere {
        NewestFileHits(files, order, i, user, sn, o);
        return;
      }
    }
    o := NotHere;
    forall e | e in Contents(FileSet(files)) && e.key.user == user ensures e.key.sn > sn {
      var f :| f in FileSet(files) && e in f.run;
      InRange(f, e);
      var j :| 0 <= j < |order| && order[j] == f;
      assert e in f.Entries();
    }
  }

  // The files whose range holds the key.
  method Spanning(files: seq<File>, user: UserKey) returns (tmp: seq<File>)
    requires DifferentNumbers(files)
    ensures DifferentNumbers(tmp) && forall f :: f in tmp <==> f in files && f.Spans(user)
  {
    tmp := [];
    for i := 0 to |files|
      invariant DifferentNumbers(tmp) && forall f :: f in tmp <==> f in files[..i] && f.Spans(user)
    {
      if user >= files[i].smallest.user && user <= files[i].largest.user {
        forall k | 0 <= k < |tmp| ensures tmp[k].number != files[i].number { assert tmp[k] in files[..i]; }
        tmp := tmp + [files[i]];
      }
      assert files[..i + 1] == files[..i] + [files[i]];
    }
    assert files[..|files|] == files;
  }

  lemma NewestFileHits(files: seq<File>, order: seq<File>, i: nat, user: UserKey, sn: nat, o: Outcome)
    requires forall f :: f in files ==> f.Valid()
    requires NewestFirst(order) && i < |order| && forall f :: f in order <==> f in files && f.Spans(user)
    requires forall f, g :: f in files && g in files && f.number > g.number ==> Newer(f, g)
    requires forall j :: 0 <= j < i ==> Answers(order[j].Entries(), user, sn, NotHere)
    requires o != NotHere && Answers(order[i].Entries(), user, sn, o)
    ensures Answers(Contents(FileSet(files)), user, sn, o)
  {
    var hit := order[i];
    var n :| IsNewest(hit.Entries(), user, sn, n) && (o.Deleted? ==> n.key.typ.Deletion?) &&
      (o.Found? ==> n.key.typ.Put? && n.value == o.value);
    assert hit in order && hit in FileSet(files);
    forall e | e in Contents(FileSet(files)) && e.key.user == user && e.key.sn <= sn ensures e.key.sn <= n.key.sn {
      var f :| f in FileSet(files) && e in f.run;
      InRange(f, e);
      NotNewer(order, i, f, user, sn, n, e);
    }
    assert IsNewest(Contents(FileSet(files)), user, sn, n);
  }

  // Files before the hit have nothing visible, and those after it nothing newer.
  lemma NotNewer(order: seq<File>, i: nat, f: File, user: UserKey, sn: nat, n: Entry, e: Entry)
    requires NewestFirst(order) && i < |order| && f in order && e in f.run && e.key.user == user && e.key.sn <= sn
    requires forall g, h :: g in order && h in order && g.number > h.number ==> Newer(g, h)
    requires forall j :: 0 <= j < i ==> Answers(order[j].Entries(), user, sn, NotHere)
    requires IsNewest(order[i].Entries(), user, sn, n)
    ensures e.key.sn <= n.key.sn
  {
    var j :| 0 <= j < |order| && order[j] == f;
    assert e in f.Entries();
    assert j > i ==> Newer(order[i], f);
  }

  // Deeper levels: only the first file whose largest key reaches the target can answer.
  method SearchSorted(files: seq<File>, user: UserKey, sn: SequenceNumber) returns (o: Outcome)
    requires SortedFiles(files)
    ensures Answers(Contents(FileSet(files)), user, sn, o)
  {
    var target := SeekKey(user, sn);
    var index := FindFile(files, target);
    if index >= |files| || user < files[index].smallest.user {
      o := NotHere;
      NoFileReaches(files, index, user, sn);
    } else {
      SearchRun(files[index].run, user, sn);
      o := Saved(TableGet(files[index].run, target), user);
      FileAnswersForLevel(files, index, user, sn);
    }
  }

  // Where the visible entries of a key can be once FindFile has answered `index`.
  lemma VisibleFrom(files: seq<File>, index: nat, user: UserKey, sn: SequenceNumber, e: Entry)
    requires SortedFiles(files) && index <= |files|
    requires forall i :: 0 <= i < index ==> Less(files[i].largest, SeekKey(user, sn))
    requires e in Contents(FileSet(files)) && e.key.user == user && e.key.sn <= sn
    ensures index < |files| && (e in files[index].run || Less(files[index].largest, e.key))
    ensures files[index].smallest.user <= user
  {
    var f :| f in FileSet(files) && e in f.run;
    var i :| 0 <= i < |files| && files[i] == f;
    InRange(f, e);
    assert index < |files|;
    InRange(files[index], files[index].run[0]);
    assert i > index ==> Precedes(files[index], files[i]);
  }

  lemma NoFileReaches(files: seq<File>, index: nat, user: UserKey, sn: SequenceNumber)
    requires SortedFiles(files) && index <= |files|
    requires forall i :: 0 <= i < index ==> Less(files[i].largest, SeekKey(user, sn))
    requires index == |files| || user < files[index].smallest.user
    ensures Answers(Contents(FileSet(files)), user, sn, NotHere)
  {
    forall e | e in Contents(FileSet(files)) && e.key.user == user ensures e.key.sn > sn {
      if e.key.sn <= sn { VisibleFrom(files, index, user, sn, e); }
    }
  }

  lemma FileAnswersForLevel(files: seq<File>, index: nat, user: UserKey, sn: SequenceNumber)
    requires SortedFiles(files) && index < |files|
    requires forall i :: 0 <= i < index ==> Less(files[i].largest, SeekKey(user, sn))
    requires !Less(files[index].largest, SeekKey(user, sn))
    ensures Answers(Contents(FileSet(files)), user, sn, Saved(TableGet(files[index].run, SeekKey(user, sn)), user))
  {
    var all := Contents(FileSet(files));
    var target := SeekKey(user, sn);
    var hit := files[index];
    assert hit in FileSet(files) && hit.run[|hit.run| - 1] in hit.run;
    TableGetFirst(hit.run, target);
    var found := TableGet(hit.run, target).value;
    InRange(hit, found);
    assert found in all;
    forall e | e in all && e.key.user == user && e.key.sn <= sn
      ensures found.key.user == user && e.key.sn <= found.key.sn
    {
      VisibleFrom(files, index, user, sn, e);
    }
    if found.key.user == user { assert IsNewest(all, user, sn, found); }
  }

  // Version::Get: level by level, stopping at the first hit.
  method Get(levels: seq<seq<File>>, user: UserKey, sn: SequenceNumber) returns (r: Option<Value>)
    requires ValidLevels(levels) && Recency(Sets(levels)) && Unambiguous(Stored(Sets(levels)))
    ensures forall v :: r == Some(v) <==> Finds(Stored(Sets(levels)), user, sn, v)
  {
    var o;
    for level := 0 to NUM_LEVELS
      invariant Answers(Stored(Sets(levels[..level])), user, sn, NotHere)
    {
      if levels[level] == [] {
        o := NotHere;
      } else if level == 0 {
        o := SearchLevel0(levels[0], user, sn);
      } else {
        o := SearchSorted(levels[level], user, sn);
      }
      LevelHit(levels, level, user, sn, o);
      if o != NotHere {
        OutcomeExact(Stored(Sets(levels)), user, sn, o);
        return if o.Found? then Some(o.value) else None;
      }
    }
    assert levels[..NUM_LEVELS] == levels;
    OutcomeExact(Stored(Sets(levels)), user, sn, NotHere);
    r := None;
  }

  lemma OutcomeExact(entries: set<Entry>, user: UserKey, sn: nat, o: Outcome)
    requires Unambiguous(entries) && Answers(entries, user, sn, o)
    ensures forall v :: o == Found(v) <==> Finds(entries, user, sn, v)
  {
  }

  lemma LevelHit(levels: seq<seq<File>>, level: nat, user: UserKey, sn: nat, o: Outcome)
    requires |levels| == NUM_LEVELS && Recency(Sets(levels)) && level < NUM_LEVELS
    requires Answers(Stored(Sets(levels[..level])), user, sn, NotHere)
    requires Answers(Contents(FileSet(levels[level])), user, sn, o)
    ensures o == NotHere ==> Answers(Stored(Sets(levels[..level + 1])), user, sn, NotHere)
    ensures o != NotHere ==> Answers(Stored(Sets(levels)), user, sn, o)
  {
    hide Recency, Answers;
    var passed, hit, rest :=
      Stored(Sets(levels[..level])), Contents(FileSet(levels[level])), Stored(Sets(levels[level + 1..]));
    LevelAbove(levels, level);
    FirstHit(passed, hit, rest, user, sn, o);
    StoredByLevel(levels[..level], [levels[level]]);
    StoredByLevel(levels[..level + 1], levels[level + 1..]);
    assert levels[..level] + [levels[level]] == levels[..level + 1];
    assert levels[..level + 1] + levels[level + 1..] == levels;
    assert Stored(Sets([levels[level]])) == hit by {
      forall e | e in hit ensures e in Stored(Sets([levels[level]])) {
        var f :| f in FileSet(levels[level]) && e in f.run;
        assert f in Sets([levels[level]])[0];
      }
    }
  }

  lemma LevelAbove(levels: seq<seq<File>>, level: nat)
    requires |levels| == NUM_LEVELS && Recency(Sets(levels)) && level < NUM_LEVELS
    ensures forall d, e ::
              d in Contents(FileSet(levels[level])) && e in Stored(Sets(levels[level + 1..])) &&
                d.key.user == e.key.user
              ==> d.key.sn > e.key.sn
  {
    forall d, e | d in Contents(FileSet(levels[level])) && e in Stored(Sets(levels[level + 1..])) &&
      d.key.user == e.key.user
      ensures d.key.sn > e.key.sn
    {
      var f :| f in FileSet(levels[level]) && d in f.run;
      var j: nat, g: File :| 0 <= j < |levels[level + 1..]| && g in Sets(levels[level + 1..])[j] && e in g.run;
      assert g in Sets(levels)[level + 1 + j] && f in Sets(levels)[level];
      assert Newer(f, g);
    }
  }

  lemma StoredByLevel(a: seq<seq<File>>, b: seq<seq<File>>)
    ensures Stored(Sets(a + b)) == Stored(Sets(a)) + Stored(Sets(b))
  {
    forall e ensures e in Stored(Sets(a + b)) <==> e in Stored(Sets(a)) + Stored(Sets(b)) {
      if i: nat, f: File :| i < |a| && f in Sets(a)[i] && e in f.run { assert f in Sets(a + b)[i]; }
      if i: nat, f: File :| i < |b| && f in Sets(b)[i] && e in f.run { assert f in Sets(a + b)[|a| + i]; }
      if i: nat, f: File :| i < |a + b| && f in Sets(a + b)[i] && e in f.run {
        assert if i < |a| then f in Sets(a)[i] else f in Sets(b)[i - |a|];
      }
    }
  }
}
