// The compaction loop (db/db_impl.cc, DoCompactionWork) and the base-level test with its advancing
// file pointers (db/version_set.cc, Compaction::IsBaseLevelForKey).

module CompactionWork {
  import opened DbFormat
  import opened Files
  import opened CompactionRule
  import opened LsmTree
  import opened Version

  class Compaction {
    const level: nat
    const version: seq<seq<File>>
    var levelPtrs: seq<nat>
    // The last user key asked about, and whether there was one.
    ghost var asked: bool
    ghost var lastKey: UserKey

    constructor (level: nat, version: seq<seq<File>>)
      requires ValidLevels(version)
      ensures Valid() && !asked && this.level == level && this.version == version
    {
      this.level, this.version, levelPtrs := level, version, seq(NUM_LEVELS, _ => 0);
      asked, lastKey := false, 0.0;
    }

    // Every file a pointer has passed ends before the last key asked about.
    ghost predicate Valid()
      reads this
    {
      && ValidLevels(version) && |levelPtrs| == NUM_LEVELS
      && (forall lvl :: 0 <= lvl < NUM_LEVELS ==> levelPtrs[lvl] <= |version[lvl]|)
      && (forall lvl :: 0 <= lvl < NUM_LEVELS && levelPtrs[lvl] > 0 ==> asked)
      && forall lvl, i :: 0 <= lvl < NUM_LEVELS && 0 <= i < levelPtrs[lvl] ==> version[lvl][i].largest.user < lastKey
    }

    // For keys in ascending order the pointers lose nothing: the answer is a full scan's.
    method IsBaseLevelForKey(user: UserKey) returns (base: bool)
      requires Valid() && (asked ==> lastKey <= user)
      modifies this
      ensures Valid() && asked && lastKey == user
      ensures base <==> forall lvl, f :: level + 2 <= lvl < NUM_LEVELS && f in version[lvl] ==> !f.Spans(user)
    {
      asked, lastKey := true, user;
      var lvl := level + 2;
      while lvl < NUM_LEVELS
        invariant Valid() && asked && lastKey == user
        invariant forall l, f :: level + 2 <= l < lvl && l < NUM_LEVELS && f in version[l] ==> !f.Spans(user)
      {
        var files := version[lvl];
        while levelPtrs[lvl] < |files|
          invariant Valid() && asked && lastKey == user && levelPtrs[lvl] <= |files|
          decreases |files| - levelPtrs[lvl]
        {
          var f := files[levelPtrs[lvl]];
          if user <= f.largest.user {
            if user >= f.smallest.user {
              assert f in version[lvl] && f.Spans(user);
              return false;
            }
            break;
          }
          levelPtrs := levelPtrs[lvl := levelPtrs[lvl] + 1];
        }
        NoneSpans(files, levelPtrs[lvl], user);
        lvl := lvl + 1;
      }
      base := true;
    }
  }

  // Files before the pointer end below the key, and the file at it, if any, starts above.
  lemma NoneSpans(files: seq<File>, p: nat, user: UserKey)
    requires SortedFiles(files) && p <= |files|
    requires forall i :: 0 <= i < p ==> files[i].largest.user < user
    requires p < |files| ==> user < files[p].smallest.user
    ensures forall f :: f in files ==> !f.Spans(user)
  {
    forall f | f in files ensures !f.Spans(user) {
      var i :| 0 <= i < |files| && files[i] == f;
      if i > p {
        assert Precedes(files[p], files[i]);
        InRange(files[p], files[p].run[0]);
      }
    }
  }

  ghost function Kept(input: seq<Entry>, n: nat, base: iset<UserKey>, smallestSnapshot: nat): seq<Entry>
    requires n <= |input|
  {
    if n == 0 then []
    else if Dropped(Elements(input), base, smallestSnapshot, input[n - 1]) then
      Kept(input, n - 1, base, smallestSnapshot)
    else Kept(input, n - 1, base, smallestSnapshot) + [input[n - 1]]
  }

  function Flatten(runs: seq<seq<Entry>>): seq<Entry> {
    if runs == [] then [] else Flatten(runs[..|runs| - 1]) + runs[|runs| - 1]
  }

  // In a sorted input an entry is hidden exactly when the entry before it has its user key and is
  // visible to the oldest snapshot.
  lemma HiddenByPrevious(input: seq<Entry>, i: nat, smallestSnapshot: nat)
    requires Sorted(input) && Unambiguous(Elements(input)) && i < |input|
    ensures Hidden(Elements(input), smallestSnapshot, input[i])
            <==> i > 0 && input[i - 1].key.user == input[i].key.user && input[i - 1].key.sn <= smallestSnapshot
    ensures i > 0 ==> input[i - 1].key.user <= input[i].key.user
  {
    assert i > 0 ==> Less(input[i - 1].key, input[i].key);
    var all := Elements(input);
    var e := input[i];
    if i > 0 && input[i - 1].key.user == e.key.user && input[i - 1].key.sn <= smallestSnapshot {
      assert input[i - 1] in all && e in all && Less(input[i - 1].key, e.key);
    }
    if f :| f in all && f.key.user == e.key.user && e.key.sn < f.key.sn <= smallestSnapshot {
      var j :| 0 <= j < |input| && input[j] == f;
      assert j > i ==> Less(e.key, f.key);
      assert j < i - 1 ==> Less(f.key, input[i - 1].key) && Less(input[i - 1].key, e.key);
    }
  }

  lemma EmptyParts(input: seq<Entry>, base: iset<UserKey>, ss: nat)
    ensures Flatten([]) == [] && Kept(input, 0, base, ss) == []
  {
  }

  lemma KeptStep(input: seq<Entry>, i: nat, base: iset<UserKey>, ss: nat)
    requires i < |input|
    ensures Kept(input, i + 1, base, ss)
            == if Dropped(Elements(input), base, ss, input[i]) then Kept(input, i, base, ss)
              else Kept(input, i, base, ss) + [input[i]]
  {
  }

  lemma FlattenPush(runs: seq<seq<Entry>>, run: seq<Entry>)
    ensures Flatten(runs + [run]) == Flatten(runs) + run
  {
    assert (runs + [run])[..|runs|] == runs;
  }

  // The user keys no file two or more levels down has in its range.
  ghost predicate BaseIs(level: nat, version: seq<seq<File>>, base: iset<UserKey>) {
    && |version| == NUM_LEVELS
    && forall k: UserKey :: k in base <==>
         forall lvl, f :: level + 2 <= lvl < NUM_LEVELS && f in version[lvl] ==> !f.Spans(k)
  }

  // The two drop rules.
  method ShouldDrop(c: Compaction, e: Entry, lastSequenceForKey: nat, smallestSnapshot: SequenceNumber,
      ghost base: iset<UserKey>)
    returns (drop: bool)
    requires c.Valid() && (c.asked ==> c.lastKey <= e.key.user)
    requires BaseIs(c.level, c.version, base)
    modifies c
    ensures c.Valid() && (c.asked ==> c.lastKey <= e.key.user)
    ensures drop <==> lastSequenceForKey <= smallestSnapshot || Obsolete(base, smallestSnapshot, e)
  {
    drop := false;
    if lastSequenceForKey <= smallestSnapshot {
      drop := true;
    } else if e.key.typ.Deletion? && e.key.sn <= smallestSnapshot {
      drop := c.IsBaseLevelForKey(e.key.user);
    }
  }

  // The loop keeps exactly the entries neither hidden nor obsolete, whatever the cuts between files.
  method DoCompactionWork(c: Compaction, input: seq<Entry>, smallestSnapshot: SequenceNumber, ghost base: iset<UserKey>)
    returns (outputs: seq<seq<Entry>>)
    requires c.Valid() && !c.asked && Sorted(input) && Unambiguous(Elements(input)) && smallestSnapshot < MAX_SEQUENCE
    requires BaseIs(c.level, c.version, base)
    modifies c
    ensures Flatten(outputs) == Kept(input, |input|, base, smallestSnapshot)
    ensures forall i :: 0 <= i < |outputs| ==> outputs[i] != []
  {
    hide Sorted, Unambiguous, Elements, Hidden, Flatten, Kept, BaseIs, Compaction.Valid;
    EmptyParts(input, base, smallestSnapshot);
    outputs := [];
    var builder: seq<Entry> := [];
    var currentUserKey, hasCurrentUserKey := 0.0, false;
    var lastSequenceForKey: nat := MAX_SEQUENCE;
    var i := 0;
    ghost var flat := [];
    while i < |input|
      invariant i <= |input| && c.Valid()
      invariant flat == Flatten(outputs) && flat + builder == Kept(input, i, base, smallestSnapshot)
      invariant forall k :: 0 <= k < |outputs| ==> outputs[k] != []
      invariant hasCurrentUserKey <==> i > 0
      invariant i > 0 ==> currentUserKey == input[i - 1].key.user && lastSequenceForKey == input[i - 1].key.sn
      invariant c.asked ==> i > 0 && c.lastKey <= input[i - 1].key.user
    {
      var e := input[i];
      // ShouldStopBefore, on the overlap with the grandparents.
      var stopBefore: bool := *;
      if stopBefore && builder != [] {
        FlattenPush(outputs, builder);
        outputs, flat, builder := outputs + [builder], flat + builder, [];
      }
      HiddenByPrevious(input, i, smallestSnapshot);
      if !hasCurrentUserKey || e.key.user != currentUserKey {
        currentUserKey, hasCurrentUserKey := e.key.user, true;
        lastSequenceForKey := MAX_SEQUENCE;
      }
      var drop := ShouldDrop(c, e, lastSequenceForKey, smallestSnapshot, base);
      lastSequenceForKey := e.key.sn;
      assert drop <==> Dropped(Elements(input), base, smallestSnapshot, e);
      KeptStep(input, i, base, smallestSnapshot);
      if !drop {
        assert (flat + builder) + [e] == flat + (builder + [e]);
        builder := builder + [e];
        // The file may have reached its size.
        if * {
          FlattenPush(outputs, builder);
          outputs, flat, builder := outputs + [builder], flat + builder, [];
        }
      }
      i := i + 1;
    }
    if builder != [] {
      FlattenPush(outputs, builder);
      outputs := outputs + [builder];
    }
  }

  // ---- The merged input ----

  function Merge(a: seq<Entry>, b: seq<Entry>): seq<Entry>
    decreases |a| + |b|
  {
    if a == [] then b
    else if b == [] then a
    else if Less(a[0].key, b[0].key) then [a[0]] + Merge(a[1..], b)
    else [b[0]] + Merge(a, b[1..])
  }

  ghost predicate Apart(a: seq<Entry>, b: seq<Entry>) {
    forall d, e :: d in a && e in b ==> Compare(d.key, e.key) != 0
  }

  lemma {:induction false} MergeElements(a: seq<Entry>, b: seq<Entry>)
    ensures Elements(Merge(a, b)) == Elements(a) + Elements(b)
    decreases |a| + |b|
  {
    if a != [] && b != [] {
      assert a == [a[0]] + a[1..] && b == [b[0]] + b[1..];
      assert Elements(a) == {a[0]} + Elements(a[1..]) && Elements(b) == {b[0]} + Elements(b[1..]);
      var tail := if Less(a[0].key, b[0].key) then Merge(a[1..], b) else Merge(a, b[1..]);
      var head := if Less(a[0].key, b[0].key) then a[0] else b[0];
      if Less(a[0].key, b[0].key) { MergeElements(a[1..], b); } else { MergeElements(a, b[1..]); }
      assert Elements([head] + tail) == {head} + Elements(tail);
    }
  }

  lemma {:induction false} MergeSorted(a: seq<Entry>, b: seq<Entry>)
    requires Sorted(a) && Sorted(b) && Apart(a, b)
    ensures Sorted(Merge(a, b))
    decreases |a| + |b|
  {
    if a != [] && b != [] {
      assert a[0] in a && b[0] in b && Compare(a[0].key, b[0].key) != 0;
      if Less(a[0].key, b[0].key) {
        MergeSorted(a[1..], b);
        HeadFirst(a, b);
      } else {
        MergeSorted(a, b[1..]);
        HeadFirst(b, a);
        MergeElements(a, b[1..]);
        assert Elements(Merge(a, b[1..])) == Elements(b[1..]) + Elements(a);
        PrependTo(b[0], Merge(a, b[1..]), b[1..], a);
        return;
      }
      MergeElements(a[1..], b);
      PrependTo(a[0], Merge(a[1..], b), a[1..], b);
    }
  }

  // The smaller head precedes everything else.
  lemma HeadFirst(a: seq<Entry>, b: seq<Entry>)
    requires Sorted(a) && Sorted(b) && a != [] && b != [] && Less(a[0].key, b[0].key)
    ensures forall e :: e in a[1..] || e in b ==> Less(a[0].key, e.key)
  {
    forall e | e in a[1..] || e in b ensures Less(a[0].key, e.key) {
      if e in a[1..] { var i :| 1 <= i < |a| && a[i] == e; } else { var i :| 0 <= i < |b| && b[i] == e; }
    }
  }

  lemma PrependTo(head: Entry, merged: seq<Entry>, a: seq<Entry>, b: seq<Entry>)
    requires Sorted(merged) && Elements(merged) == Elements(a) + Elements(b)
    requires forall e :: e in a || e in b ==> Less(head.key, e.key)
    ensures Sorted([head] + merged)
  {
    forall e | e in merged ensures Less(head.key, e.key) { assert e in Elements(merged); }
    Prepend(head, merged);
  }

  lemma Prepend(e: Entry, run: seq<Entry>)
    requires Sorted(run) && forall d :: d in run ==> Less(e.key, d.key)
    ensures Sorted([e] + run)
  {
  }

  function MergeFiles(files: seq<File>): seq<Entry> {
    if files == [] then [] else Merge(MergeFiles(files[..|files| - 1]), files[|files| - 1].run)
  }

  lemma {:induction false} MergeFilesElements(files: seq<File>)
    ensures Elements(MergeFiles(files)) == Contents(FileSet(files))
  {
    if files == [] {
    } else {
      var n := |files| - 1;
      MergeFilesElements(files[..n]);
      MergeElements(MergeFiles(files[..n]), files[n].run);
      assert files == files[..n] + [files[n]];
      assert FileSet(files) == FileSet(files[..n]) + {files[n]};
      ContentsOneMore(FileSet(files[..n]), files[n]);
    }
  }

  lemma ContentsOneMore(files: set<File>, f: File)
    ensures Contents(files + {f}) == Contents(files) + Elements(f.run)
  {
    forall e | e in Elements(f.run) ensures e in Contents(files + {f}) { assert f in files + {f} && e in f.run; }
  }

  // The merged input holds every input entry once, in order.
  lemma {:induction false} MergeFilesSorted(files: seq<File>)
    requires forall f :: f in files ==> f.Valid()
    requires forall i, j :: 0 <= i < j < |files| ==> Apart(files[i].run, files[j].run)
    ensures Sorted(MergeFiles(files))
  {
    if files == [] {
    } else {
      var n := |files| - 1;
      MergeFilesSorted(files[..n]);
      MergeFilesElements(files[..n]);
      forall d, e | d in MergeFiles(files[..n]) && e in files[n].run ensures Compare(d.key, e.key) != 0 {
        assert d in Elements(MergeFiles(files[..n]));
        var f :| f in FileSet(files[..n]) && d in f.run;
        var i :| 0 <= i < n && files[..n][i] == f;
        assert Apart(files[i].run, files[n].run);
      }
      assert files[n] in files;
      MergeSorted(MergeFiles(files[..n]), files[n].run);
    }
  }

  // ---- The kept entries and the files made of them ----

  lemma {:induction false} KeptElements(input: seq<Entry>, n: nat, base: iset<UserKey>, ss: nat)
    requires Sorted(input) && n <= |input|
    ensures Sorted(Kept(input, n, base, ss))
    ensures forall e :: e in Kept(input, n, base, ss) <==> e in input[..n] && !Dropped(Elements(input), base, ss, e)
  {
    if n == 0 {
    } else {
      KeptElements(input, n - 1, base, ss);
      assert input[..n] == input[..n - 1] + [input[n - 1]];
      var r := Kept(input, n - 1, base, ss);
      forall i | 0 <= i < |r| ensures Less(r[i].key, input[n - 1].key) {
        assert r[i] in r;
        var j :| 0 <= j < n - 1 && input[j] == r[i];
      }
    }
  }

  // The table built from a run of entries.
  function TableOf(run: seq<Entry>, number: nat, size: nat): (f: File)
    requires run != []
  {
    File(number, size, run[0].key, run[|run| - 1].key, run)
  }

  // Output files hold the pieces of the kept entries, under the numbers taken for them.
  ghost predicate BuiltFrom(files: seq<File>, runs: seq<seq<Entry>>, numbers: seq<nat>) {
    && |files| == |runs| <= |numbers|
    && forall i :: 0 <= i < |runs| ==> runs[i] != [] && files[i] == TableOf(runs[i], numbers[i], files[i].size)
  }

  ghost predicate RunBefore(a: seq<Entry>, b: seq<Entry>) {
    forall d, e :: d in a && e in b ==> Less(d.key, e.key)
  }

  lemma SplitSorted(front: seq<Entry>, last: seq<Entry>)
    requires Sorted(front + last)
    ensures Sorted(front) && Sorted(last) && RunBefore(front, last)
  {
    var all := front + last;
    forall i, j | 0 <= i < j < |front| ensures Less(front[i].key, front[j].key) {
      assert all[i] == front[i] && all[j] == front[j];
    }
    forall i, j | 0 <= i < j < |last| ensures Less(last[i].key, last[j].key) {
      assert all[|front| + i] == last[i] && all[|front| + j] == last[j];
    }
    forall d, e | d in front && e in last ensures Less(d.key, e.key) {
      var i :| 0 <= i < |front| && front[i] == d;
      var j :| 0 <= j < |last| && last[j] == e;
      assert all[i] == d && all[|front| + j] == e;
    }
  }

  lemma {:induction false} FlattenElements(runs: seq<seq<Entry>>, e: Entry)
    ensures e in Flatten(runs) <==> exists i :: 0 <= i < |runs| && e in runs[i]
  {
    if runs == [] {
    } else {
      var n := |runs| - 1;
      FlattenElements(runs[..n], e);
      if i :| 0 <= i < |runs| && e in runs[i] { assert i < n ==> e in runs[..n][i]; }
    }
  }

  // Any cutting of a sorted sequence gives sorted runs that follow one another.
  lemma {:induction false} FlattenSorted(runs: seq<seq<Entry>>)
    requires Sorted(Flatten(runs))
    ensures forall i :: 0 <= i < |runs| ==> Sorted(runs[i])
    ensures forall i, j :: 0 <= i < j < |runs| ==> RunBefore(runs[i], runs[j])
  {
    if runs == [] {
    } else {
      var n := |runs| - 1;
      SplitSorted(Flatten(runs[..n]), runs[n]);
      FlattenSorted(runs[..n]);
      hide Sorted, Flatten;
      forall i | 0 <= i < n ensures runs[..n][i] == runs[i] && RunBefore(runs[i], runs[n]) {
        forall e | e in runs[i] ensures e in Flatten(runs[..n]) {
          assert e in runs[..n][i];
          FlattenElements(runs[..n], e);
        }
      }
      forall i, j | 0 <= i < j < |runs| ensures RunBefore(runs[i], runs[j]) {
        assert j < n ==> RunBefore(runs[..n][i], runs[..n][j]);
      }
    }
  }

  lemma BuiltOutputs(files: seq<File>, runs: seq<seq<Entry>>, numbers: seq<nat>, kept: seq<Entry>)
    requires BuiltFrom(files, runs, numbers) && Flatten(runs) == kept && Sorted(kept)
    ensures forall f :: f in files ==> f.Valid()
    ensures forall i, j :: 0 <= i < j < |files| ==> Precedes(files[i], files[j])
    ensures Disjoint(FileSet(files)) && Contents(FileSet(files)) == Elements(kept)
  {
    FlattenSorted(runs);
    hide Flatten, Sorted;
    forall i, j | 0 <= i < j < |files| ensures Precedes(files[i], files[j]) {
      assert runs[i][|runs[i]| - 1] in runs[i] && runs[j][0] in runs[j] && RunBefore(runs[i], runs[j]);
    }
    forall e ensures e in Contents(FileSet(files)) <==> e in kept {
      FlattenElements(runs, e);
      if e in kept {
        var i :| 0 <= i < |runs| && e in runs[i];
        assert files[i] in FileSet(files) && e in files[i].run;
      }
    }
  }
}
