// Building the next version from a version and edits (db/version_set.cc, VersionSet::Builder).

module VersionBuilder {
  import opened DbFormat
  import opened Files
  import opened LsmTree
  import opened Version

  // One manifest record's effect on the files, level by level.
  datatype Edit = Edit(deleted: seq<set<nat>>, added: seq<seq<File>>)
  {
    ghost predicate Valid() { |deleted| == NUM_LEVELS && |added| == NUM_LEVELS }
  }

  // BySmallestKey.
  predicate Before(f: File, g: File) {
    var r := Compare(f.smallest, g.smallest);
    if r != 0 then r < 0 else f.number < g.number
  }

  ghost predicate Ordered(files: seq<File>) {
    forall i, j :: 0 <= i < j < |files| ==> Before(files[i], files[j])
  }

  ghost predicate WeaklyOrdered(files: seq<File>) {
    forall i, j :: 0 <= i < j < |files| ==> !Before(files[j], files[i])
  }

  function Numbers(files: seq<File>): set<nat> { set f | f in files :: f.number }

  // std::set::insert: no effect if an equivalent element is there.
  function Inserted(files: seq<File>, f: File): (r: seq<File>)
    ensures FileSet(r) == FileSet(files) + {f} ||
      (r == files && exists g :: g in files && !Before(f, g) && !Before(g, f))
  {
    if files == [] || Before(f, files[0]) then
      assert FileSet([f] + files) == FileSet(files) + {f};
      [f] + files
    else if !Before(files[0], f) then files
    else
      var r := Inserted(files[1..], f);
      assert files == [files[0]] + files[1..];
      assert FileSet([files[0]] + r) == {files[0]} + FileSet(r) && FileSet(files) == {files[0]} + FileSet(files[1..]);
      assert r == files[1..] ==> [files[0]] + r == files;
      [files[0]] + r
  }

  lemma {:induction false} InsertedOrdered(files: seq<File>, f: File)
    requires Ordered(files)
    ensures Ordered(Inserted(files, f))
    ensures forall g :: g in Inserted(files, f) ==> g == f || g in files
  {
    if files != [] && !Before(f, files[0]) && Before(files[0], f) {
      InsertedOrdered(files[1..], f);
      var r := Inserted(files[1..], f);
      forall i | 0 <= i < |r| ensures Before(files[0], r[i]) {
        assert r[i] in r;
        if r[i] != f { var j :| 1 <= j < |files| && files[j] == r[i]; }
      }
    }
  }

  // The deleted numbers and added files a level has accumulated.
  datatype LevelState = LevelState(deleted: set<nat>, added: set<File>)

  function Accumulate(s: LevelState, deleted: set<nat>, added: set<File>): LevelState {
    LevelState((s.deleted + deleted) - (set f | f in added :: f.number), s.added + added)
  }

  // What SaveTo leaves of a level.
  function LevelAfter(base: set<File>, s: LevelState): set<File> {
    set f | f in base + s.added && f.number !in s.deleted
  }

  class Builder {
    const base: seq<seq<File>>
    var deleted: seq<set<nat>>
    var added: seq<seq<File>>

    constructor (base: seq<seq<File>>)
      requires |base| == NUM_LEVELS
      ensures this.base == base && Valid()
      ensures forall i :: 0 <= i < NUM_LEVELS ==> State(i) == LevelState({}, {}) && added[i] == []
    {
      this.base := base;
      deleted, added := seq(NUM_LEVELS, _ => {}), seq(NUM_LEVELS, _ => []);
    }

    ghost predicate Valid()
      reads this
    {
      && |base| == |deleted| == |added| == NUM_LEVELS
      && forall i :: 0 <= i < NUM_LEVELS ==> Ordered(added[i])
    }

    ghost function State(i: nat): LevelState
      requires Valid() && i < NUM_LEVELS
      reads this
    {
      LevelState(deleted[i], FileSet(added[i]))
    }

    // Apply, for one level: deletions first, then additions, which also undo a deletion of their number.
    method ApplyLevel(level: nat, del: set<nat>, add: seq<File>)
      requires Valid() && level < NUM_LEVELS
      requires forall i, j :: 0 <= i < j < |add| ==> add[i].number != add[j].number
      requires forall f, g :: f in add && g in added[level] ==> f.number != g.number
      modifies this
      ensures Valid() && State(level) == Accumulate(old(State(level)), del, FileSet(add))
      ensures forall i :: 0 <= i < NUM_LEVELS && i != level ==> State(i) == old(State(i))
    {
      deleted := deleted[level := deleted[level] + del];
      for k := 0 to |add|
        invariant Valid() && State(level) == Accumulate(old(State(level)), del, FileSet(add[..k]))
        invariant forall i :: 0 <= i < NUM_LEVELS && i != level ==> State(i) == old(State(i))
      {
        ghost var before := State(level);
        var f := add[k];
        assert forall g :: g in added[level] ==> g in FileSet(added[level]);
        deleted := deleted[level := deleted[level] - {f.number}];
        InsertedOrdered(added[level], f);
        added := added[level := Inserted(added[level], f)];
        AccumulateOne(old(State(level)), del, add, k);
      }
      assert add[..|add|] == add;
    }

    method Apply(edit: Edit)
      requires Valid() && edit.Valid()
      requires forall l, i, j :: 0 <= l < NUM_LEVELS && 0 <= i < j < |edit.added[l]| ==>
        edit.added[l][i].number != edit.added[l][j].number
      requires forall l, f, g :: 0 <= l < NUM_LEVELS && f in edit.added[l] && g in added[l] ==> f.number != g.number
      modifies this
      ensures Valid()
      ensures forall i :: 0 <= i < NUM_LEVELS ==>
        State(i) == Accumulate(old(State(i)), edit.deleted[i], FileSet(edit.added[i]))
    {
      for level := 0 to NUM_LEVELS
        invariant Valid()
        invariant forall i :: 0 <= i < level ==>
          State(i) == Accumulate(old(State(i)), edit.deleted[i], FileSet(edit.added[i]))
        invariant forall i :: level <= i < NUM_LEVELS ==> State(i) == old(State(i))
      {
        assert State(level).added == old(State(level).added);
        assert forall g :: g in added[level] ==> g in FileSet(added[level]);
        ApplyLevel(level, edit.deleted[level], edit.added[level]);
      }
    }

    // MaybeAddFile: a deleted number is left out.
    method MaybeAddFile(v: seq<File>, level: nat, f: File) returns (r: seq<File>)
      requires Valid() && level < NUM_LEVELS
      ensures r == if f.number in deleted[level] then v else v + [f]
    {
      if f.number in deleted[level] {
        r := v;
      } else {
        r := v + [f];
      }
    }

    // SaveTo, for one level: merge the added files into the base files.
    method SaveLevel(level: nat) returns (v: seq<File>)
      requires Valid() && level < NUM_LEVELS && Ordered(base[level])
      ensures FileSet(v) == LevelAfter(FileSet(base[level]), State(level))
      ensures WeaklyOrdered(v)
      ensures NoneReadded(base[level], added[level]) ==> Ordered(v)
    {
      v := [];
      var baseFiles, addedFiles := base[level], added[level];
      var next := 0;
      for k := 0 to |addedFiles|
        invariant Merged(v, baseFiles, next, addedFiles, k, deleted[level])
      {
        // Add all smaller files listed in the base: up to upper_bound of the added one.
        while next < |baseFiles| && !Before(addedFiles[k], baseFiles[next])
          invariant Merged(v, baseFiles, next, addedFiles, k, deleted[level])
          invariant next <= |baseFiles|
        {
          MergeBase(v, baseFiles, next, addedFiles, k, deleted[level]);
          v := MaybeAddFile(v, level, baseFiles[next]);
          next := next + 1;
        }
        MergeAdded(v, baseFiles, next, addedFiles, k, deleted[level]);
        v := MaybeAddFile(v, level, addedFiles[k]);
      }
      while next < |baseFiles|
        invariant Merged(v, baseFiles, next, addedFiles, |addedFiles|, deleted[level])
      {
        MergeBase(v, baseFiles, next, addedFiles, |addedFiles|, deleted[level]);
        v := MaybeAddFile(v, level, baseFiles[next]);
        next := next + 1;
      }
      assert baseFiles[..|baseFiles|] == baseFiles && addedFiles[..|addedFiles|] == addedFiles;
    }
  }

  ghost predicate NoneReadded(base: seq<File>, added: seq<File>) {
    forall f, g :: f in base && g in added ==> f.number != g.number
  }

  // The base files from n and the added files from k on.
  ghost function Rest(base: seq<File>, n: nat, added: seq<File>, k: nat): set<File>
    requires n <= |base| && k <= |added|
  {
    FileSet(base[n..]) + FileSet(added[k..])
  }

  // v holds the undeleted files of the first n base and k added files, in order, before all the rest;
  // strictly so when no number is added again.
  ghost predicate Merged(v: seq<File>, base: seq<File>, n: nat, added: seq<File>, k: nat, deleted: set<nat>) {
    && n <= |base| && k <= |added|
    && (forall f :: f in v <==> (f in base[..n] || f in added[..k]) && f.number !in deleted)
    && WeaklyOrdered(v) && (forall f, g :: f in v && g in Rest(base, n, added, k) ==> !Before(g, f))
    && (NoneReadded(base, added) ==> Ordered(v) && forall f, g :: f in v && g in Rest(base, n, added, k) ==>
         Before(f, g))
  }

  // The next file in order goes to the end.
  lemma Push(v: seq<File>, x: File, rest: set<File>, rest': set<File>, strict: bool)
    requires rest' <= rest && x in rest && WeaklyOrdered(v) && (forall f, g :: f in v && g in rest ==> !Before(g, f))
    requires forall g :: g in rest' ==> !Before(g, x)
    requires strict ==>
      Ordered(v) && (forall f, g :: f in v && g in rest ==> Before(f, g)) && forall g :: g in rest' ==> Before(x, g)
    ensures WeaklyOrdered(v + [x]) && forall f, g :: f in v + [x] && g in rest' ==> !Before(g, f)
    ensures strict ==> Ordered(v + [x]) && forall f, g :: f in v + [x] && g in rest' ==> Before(f, g)
  {
    hide Before;
  }

  lemma BaseLeads(base: seq<File>, n: nat, added: seq<File>, k: nat)
    requires Ordered(base) && Ordered(added) && n < |base| && k <= |added|
    requires k < |added| ==> !Before(added[k], base[n])
    ensures forall g :: g in Rest(base, n + 1, added, k) ==>
      !Before(g, base[n]) && (NoneReadded(base, added) ==> Before(base[n], g))
  {
    forall g | g in Rest(base, n + 1, added, k)
      ensures !Before(g, base[n])
      ensures NoneReadded(base, added) ==> Before(base[n], g)
    {
      if g in base[n + 1..] {
        var j :| n < j < |base| && base[j] == g;
      } else {
        var j :| k <= j < |added| && added[j] == g;
        assert j > k ==> Before(added[k], added[j]);
        assert added[k] in added && base[n] in base;
      }
    }
  }

  lemma MergeBase(v: seq<File>, base: seq<File>, n: nat, added: seq<File>, k: nat, deleted: set<nat>)
    requires Merged(v, base, n, added, k, deleted) && Ordered(base) && Ordered(added) && n < |base|
    requires k < |added| ==> !Before(added[k], base[n])
    ensures Merged(if base[n].number in deleted then v else v + [base[n]], base, n + 1, added, k, deleted)
  {
    assert base[..n + 1] == base[..n] + [base[n]] && base[n..] == [base[n]] + base[n + 1..];
    BaseLeads(base, n, added, k);
    hide Before, Ordered, WeaklyOrdered, NoneReadded;
    assert Rest(base, n + 1, added, k) <= Rest(base, n, added, k) && base[n] in Rest(base, n, added, k);
    hide Rest;
    Push(v, base[n], Rest(base, n, added, k), Rest(base, n + 1, added, k), NoneReadded(base, added));
  }

  lemma AddedLeads(base: seq<File>, n: nat, added: seq<File>, k: nat)
    requires Ordered(base) && Ordered(added) && n <= |base| && k < |added|
    requires n < |base| ==> Before(added[k], base[n])
    ensures forall g :: g in Rest(base, n, added, k + 1) ==> Before(added[k], g) && !Before(g, added[k])
  {
    forall g | g in Rest(base, n, added, k + 1) ensures Before(added[k], g) && !Before(g, added[k]) {
      if g in base[n..] {
        var j :| n <= j < |base| && base[j] == g;
        assert j > n ==> Before(base[n], base[j]);
      } else {
        var j :| k < j < |added| && added[j] == g;
      }
    }
  }

  lemma MergeAdded(v: seq<File>, base: seq<File>, n: nat, added: seq<File>, k: nat, deleted: set<nat>)
    requires Merged(v, base, n, added, k, deleted) && Ordered(base) && Ordered(added) && k < |added|
    requires n < |base| ==> Before(added[k], base[n])
    ensures Merged(if added[k].number in deleted then v else v + [added[k]], base, n, added, k + 1, deleted)
  {
    assert added[..k + 1] == added[..k] + [added[k]] && added[k..] == [added[k]] + added[k + 1..];
    AddedLeads(base, n, added, k);
    hide Before, Ordered, WeaklyOrdered, NoneReadded;
    assert Rest(base, n, added, k + 1) <= Rest(base, n, added, k) && added[k] in Rest(base, n, added, k);
    hide Rest;
    Push(v, added[k], Rest(base, n, added, k), Rest(base, n, added, k + 1), NoneReadded(base, added));
  }

  lemma AccumulateOne(s: LevelState, del: set<nat>, add: seq<File>, k: nat)
    requires k < |add| && forall i, j :: 0 <= i < j < |add| ==> add[i].number != add[j].number
    ensures Accumulate(s, del, FileSet(add[..k + 1]))
            == LevelState(Accumulate(s, del, FileSet(add[..k])).deleted - {add[k].number},
              Accumulate(s, del, FileSet(add[..k])).added + {add[k]})
  {
    assert add[..k + 1] == add[..k] + [add[k]];
    assert FileSet(add[..k + 1]) == FileSet(add[..k]) + {add[k]};
  }

  // ---- Recovery: one builder for all edits, or one per edit ----

  datatype LevelEdit = LevelEdit(deleted: set<nat>, added: set<File>)

  function AccumulateAll(edits: seq<LevelEdit>): LevelState {
    if edits == [] then LevelState({}, {})
    else
      var e := edits[|edits| - 1];
      Accumulate(AccumulateAll(edits[..|edits| - 1]), e.deleted, e.added)
  }

  // LogAndApply's way: a new version from each edit alone.
  function InstallAll(base: set<File>, edits: seq<LevelEdit>): set<File> {
    if edits == [] then base
    else
      var e := edits[|edits| - 1];
      LevelAfter(InstallAll(base, edits[..|edits| - 1]), Accumulate(LevelState({}, {}), e.deleted, e.added))
  }

  // No edit adds a number that the base or an earlier edit has put at this level.
  ghost predicate NoneAddedTwice(base: set<File>, edits: seq<LevelEdit>) {
    && (forall i, f, g :: 0 <= i < |edits| && f in edits[i].added && g in base ==> f.number != g.number)
    && forall i, j, f, g :: 0 <= i < j < |edits| && f in edits[i].added && g in edits[j].added ==> f.number != g.number
  }

  lemma {:induction false} AddedByEdits(edits: seq<LevelEdit>, f: File)
    ensures f in AccumulateAll(edits).added <==> exists i :: 0 <= i < |edits| && f in edits[i].added
  {
    if edits == [] {
    } else {
      var n := |edits| - 1;
      AddedByEdits(edits[..n], f);
      if i :| 0 <= i < |edits| && f in edits[i].added { assert i < n ==> f in edits[..n][i].added; }
    }
  }

  // Replaying all edits through one builder gives the version that installing them one by one gives.
  lemma {:induction false} ReplayIsInstall(base: set<File>, edits: seq<LevelEdit>)
    requires NoneAddedTwice(base, edits)
    ensures LevelAfter(base, AccumulateAll(edits)) == InstallAll(base, edits)
  {
    if edits == [] {
    } else {
      var n := |edits| - 1;
      var e := edits[n];
      var s := AccumulateAll(edits[..n]);
      assert NoneAddedTwice(base, edits[..n]) by {
        assert forall i :: 0 <= i < n ==> edits[..n][i] == edits[i];
      }
      ReplayIsInstall(base, edits[..n]);
      LastAddsNew(base, edits, n);
      OneMoreEdit(base, s, e);
    }
  }

  lemma LastAddsNew(base: set<File>, edits: seq<LevelEdit>, n: nat)
    requires n < |edits| && NoneAddedTwice(base, edits)
    ensures forall f, g :: f in base + AccumulateAll(edits[..n]).added && g in edits[n].added ==> f.number != g.number
  {
    forall f, g | f in base + AccumulateAll(edits[..n]).added && g in edits[n].added ensures f.number != g.number {
      AddedByEdits(edits[..n], f);
      if f !in base {
        var i :| 0 <= i < n && f in edits[..n][i].added;
        assert f in edits[i].added;
      }
    }
  }

  lemma OneMoreEdit(base: set<File>, s: LevelState, e: LevelEdit)
    requires forall f, g :: f in base + s.added && g in e.added ==> f.number != g.number
    ensures LevelAfter(base, Accumulate(s, e.deleted, e.added))
            == LevelAfter(LevelAfter(base, s), Accumulate(LevelState({}, {}), e.deleted, e.added))
  {
    forall f ensures f in LevelAfter(base, Accumulate(s, e.deleted, e.added))
                     <==> f in LevelAfter(LevelAfter(base, s), Accumulate(LevelState({}, {}), e.deleted, e.added)) {
      var numbers := set g | g in e.added :: g.number;
      if f in e.added {
        assert f.number in numbers;
      } else if f in base + s.added {
        assert f.number !in numbers;
      }
    }
  }

  // A level in manifest order whose files do not overlap is sorted and disjoint.
  lemma OrderedDisjoint(files: seq<File>)
    requires Ordered(files) && Disjoint(FileSet(files)) && forall f :: f in files ==> f.Valid()
    ensures SortedFiles(files)
  {
    forall i, j | 0 <= i < j < |files| ensures Precedes(files[i], files[j]) {
      assert files[i] in FileSet(files) && files[j] in FileSet(files) && Before(files[i], files[j]);
      InRange(files[i], files[i].run[0]);
      InRange(files[j], files[j].run[0]);
    }
  }

  // What the caller of LogAndApply owes: each added number is new at its level.
  ghost predicate Applicable(current: seq<seq<File>>, edit: Edit) {
    && |current| == NUM_LEVELS && edit.Valid()
    && (forall i :: 0 <= i < NUM_LEVELS ==> Ordered(current[i]) && NoneReadded(current[i], edit.added[i]))
    && forall l, i, j :: 0 <= l < NUM_LEVELS && 0 <= i < j < |edit.added[l]| ==>
         edit.added[l][i].number != edit.added[l][j].number
  }

  // The version's levels after one edit.
  ghost predicate Applied(current: seq<seq<File>>, edit: Edit, v: seq<seq<File>>)
    requires |current| == NUM_LEVELS && edit.Valid()
  {
    && |v| == NUM_LEVELS
    && forall i :: 0 <= i < NUM_LEVELS ==>
         && Ordered(v[i])
         && FileSet(v[i]) ==
              LevelAfter(FileSet(current[i]), Accumulate(LevelState({}, {}), edit.deleted[i], FileSet(edit.added[i])))
  }

  // LogAndApply: the version one edit makes of the current one.
  method LogAndApply(current: seq<seq<File>>, edit: Edit) returns (v: seq<seq<File>>)
    requires Applicable(current, edit)
    ensures Applied(current, edit, v)
  {
    var builder := new Builder(current);
    builder.Apply(edit);
    v := [];
    for level := 0 to NUM_LEVELS
      invariant |v| == level && builder.Valid()
      invariant forall i :: 0 <= i < NUM_LEVELS ==>
                  builder.State(i) == Accumulate(LevelState({}, {}), edit.deleted[i], FileSet(edit.added[i]))
      invariant forall i :: 0 <= i < level ==>
                  && Ordered(v[i])
                  && FileSet(v[i]) == LevelAfter(FileSet(current[i]),
                       Accumulate(LevelState({}, {}), edit.deleted[i], FileSet(edit.added[i])))
    {
      assert builder.State(level) == Accumulate(LevelState({}, {}), edit.deleted[level], FileSet(edit.added[level]));
      forall f, g | f in current[level] && g in builder.added[level] ensures f.number != g.number {
        assert g in FileSet(builder.added[level]);
      }
      var files := builder.SaveLevel(level);
      v := v + [files];
    }
  }

  // ---- Recovery on the sorted vectors ----

  // What the edits do to one level.
  ghost function AtLevel(edits: seq<Edit>, level: nat): (r: seq<LevelEdit>)
    requires level < NUM_LEVELS && forall k :: 0 <= k < |edits| ==> edits[k].Valid()
    ensures |r| == |edits|
  {
    seq(|edits|, k requires 0 <= k < |edits| && edits[k].Valid() =>
      LevelEdit(edits[k].deleted[level], FileSet(edits[k].added[level])))
  }

  ghost predicate DistinctAdded(edit: Edit)
    requires edit.Valid()
  {
    forall l, i, j :: 0 <= l < NUM_LEVELS && 0 <= i < j < |edit.added[l]| ==>
      edit.added[l][i].number != edit.added[l][j].number
  }

  // A manifest that adds no number twice at a level.
  ghost predicate Replayable(base: seq<seq<File>>, edits: seq<Edit>) {
    && |base| == NUM_LEVELS && (forall i :: 0 <= i < NUM_LEVELS ==> Ordered(base[i]))
    && (forall k :: 0 <= k < |edits| ==> edits[k].Valid() && DistinctAdded(edits[k]))
    && forall i :: 0 <= i < NUM_LEVELS ==> NoneAddedTwice(FileSet(base[i]), AtLevel(edits, i))
  }

  // The versions LogAndApply makes of the edits one after the other end in v.
  ghost predicate InstalledEach(base: seq<seq<File>>, edits: seq<Edit>, v: seq<seq<File>>) {
    if edits == [] then v == base
    else
      var n := |edits| - 1;
      exists u :: InstalledEach(base, edits[..n], u) && |u| == NUM_LEVELS && edits[n].Valid() && Applied(u, edits[n], v)
  }

  // Two sorted vectors of the same files are the same.
  lemma {:induction false} SameOrdered(a: seq<File>, b: seq<File>)
    requires Ordered(a) && Ordered(b) && FileSet(a) == FileSet(b)
    ensures a == b
  {
    HeadIn(a);
    HeadIn(b);
    if a == [] {
    } else {
      FirstOf(a, b);
      FirstOf(b, a);
      assert a[0] == b[0];
      TailSet(a);
      TailSet(b);
      SameOrdered(a[1..], b[1..]);
      assert a == [a[0]] + a[1..] && b == [b[0]] + b[1..];
    }
  }

  lemma HeadIn(a: seq<File>)
    ensures a == [] <==> FileSet(a) == {}
  {
    if a != [] { assert a[0] in FileSet(a); }
  }

  lemma FirstOf(a: seq<File>, b: seq<File>)
    requires Ordered(a) && Ordered(b) && a != [] && b != [] && FileSet(a) == FileSet(b)
    ensures a[0] == b[0] || Before(a[0], b[0])
  {
    assert b[0] in FileSet(a);
    var i :| 0 <= i < |a| && a[i] == b[0];
  }

  lemma TailSet(a: seq<File>)
    requires Ordered(a) && a != []
    ensures FileSet(a[1..]) == FileSet(a) - {a[0]}
  {
    hide Before;
    forall f | f in a[1..] ensures f != a[0] {
      var i :| 0 <= i < |a[1..]| && a[1..][i] == f;
      NotBeforeItself(f);
      assert Before(a[0], a[i + 1]);
    }
    assert a == [a[0]] + a[1..];
  }

  lemma NotBeforeItself(f: File)
    ensures !Before(f, f)
  {
  }

  lemma Fewer(base: seq<seq<File>>, edits: seq<Edit>, n: nat)
    requires Replayable(base, edits) && n <= |edits|
    ensures Replayable(base, edits[..n])
    ensures forall i :: 0 <= i < NUM_LEVELS ==> AtLevel(edits[..n], i) == AtLevel(edits, i)[..n]
  {
    forall i | 0 <= i < NUM_LEVELS ensures NoneAddedTwice(FileSet(base[i]), AtLevel(edits[..n], i)) {
      var all, some := AtLevel(edits, i), AtLevel(edits[..n], i);
      assert forall k :: 0 <= k < n ==> some[k] == all[k];
    }
  }

  lemma {:induction false} EachInstalls(base: seq<seq<File>>, edits: seq<Edit>, v: seq<seq<File>>)
    requires Replayable(base, edits) && InstalledEach(base, edits, v)
    ensures |v| == NUM_LEVELS
    ensures forall i :: 0 <= i < NUM_LEVELS ==>
      Ordered(v[i]) && FileSet(v[i]) == InstallAll(FileSet(base[i]), AtLevel(edits, i))
  {
    hide NoneAddedTwice, LevelAfter, Accumulate, Ordered;
    if edits == [] {
    } else {
      var n := |edits| - 1;
      var u :| InstalledEach(base, edits[..n], u) && |u| == NUM_LEVELS && Applied(u, edits[n], v);
      Fewer(base, edits, n);
      EachInstalls(base, edits[..n], u);
    }
  }

  // What the base and the edits have put at a level does not have the numbers the next edit adds.
  lemma NextIsNew(base: seq<seq<File>>, edits: seq<Edit>, n: nat, i: nat, files: set<File>)
    requires Replayable(base, edits) && n < |edits| && i < NUM_LEVELS
    requires files <= FileSet(base[i]) + AccumulateAll(AtLevel(edits, i)[..n]).added
    ensures forall f, g :: f in files && g in edits[n].added[i] ==> f.number != g.number
  {
    LastAddsNew(FileSet(base[i]), AtLevel(edits, i), n);
    assert AtLevel(edits, i)[n].added == FileSet(edits[n].added[i]);
  }

  // VersionSet::Recover: one builder takes all the edits, and saves the version that installing them
  // one by one would have led to.
  method Recover(base: seq<seq<File>>, edits: seq<Edit>) returns (v: seq<seq<File>>)
    requires Replayable(base, edits)
    ensures |v| == NUM_LEVELS && forall w :: InstalledEach(base, edits, w) ==> v == w
  {
    hide NoneAddedTwice, LevelAfter, Accumulate, Ordered, NoneReadded, AccumulateAll;
    var builder := new Builder(base);
    NoEdits(edits);
    for k := 0 to |edits|
      invariant builder.Valid()
      invariant forall i :: 0 <= i < NUM_LEVELS ==> builder.State(i) == AccumulateAll(AtLevel(edits, i)[..k])
    {
      ApplicableNext(builder, base, edits, k);
      builder.Apply(edits[k]);
      AccumulatedNext(edits, k);
    }
    v := [];
    for level := 0 to NUM_LEVELS
      invariant |v| == level && builder.Valid()
      invariant forall i :: 0 <= i < NUM_LEVELS ==> builder.State(i) == AccumulateAll(AtLevel(edits, i)[..|edits|])
      invariant forall i :: 0 <= i < level ==>
        Ordered(v[i]) && FileSet(v[i]) == LevelAfter(FileSet(base[i]), AccumulateAll(AtLevel(edits, i)[..|edits|]))
    {
      AddedNotInBase(builder, base, edits, level);
      var files := builder.SaveLevel(level);
      v := v + [files];
    }
    forall w | InstalledEach(base, edits, w) ensures v == w { ReplayedIs(base, edits, v, w); }
  }

  lemma NoEdits(edits: seq<Edit>)
    requires forall k :: 0 <= k < |edits| ==> edits[k].Valid()
    ensures forall i :: 0 <= i < NUM_LEVELS ==> AccumulateAll(AtLevel(edits, i)[..0]) == LevelState({}, {})
  {
  }

  lemma AccumulatedNext(edits: seq<Edit>, k: nat)
    requires k < |edits| && forall k :: 0 <= k < |edits| ==> edits[k].Valid()
    ensures forall i :: 0 <= i < NUM_LEVELS ==>
      AccumulateAll(AtLevel(edits, i)[..k + 1]) ==
        Accumulate(AccumulateAll(AtLevel(edits, i)[..k]), edits[k].deleted[i], FileSet(edits[k].added[i]))
  {
    forall i | 0 <= i < NUM_LEVELS ensures AtLevel(edits, i)[..k + 1][..k] == AtLevel(edits, i)[..k] {}
  }

  lemma ApplicableNext(builder: Builder, base: seq<seq<File>>, edits: seq<Edit>, k: nat)
    requires Replayable(base, edits) && k < |edits| && builder.Valid()
    requires forall i :: 0 <= i < NUM_LEVELS ==> builder.State(i) == AccumulateAll(AtLevel(edits, i)[..k])
    ensures DistinctAdded(edits[k])
    ensures forall l, f, g :: 0 <= l < NUM_LEVELS && f in edits[k].added[l] && g in builder.added[l] ==>
      f.number != g.number
  {
    hide NoneAddedTwice, AccumulateAll, Ordered;
    forall l, f, g | 0 <= l < NUM_LEVELS && f in edits[k].added[l] && g in builder.added[l]
      ensures f.number != g.number
    {
      NextIsNew(base, edits, k, l, builder.State(l).added);
      assert g in builder.State(l).added;
    }
  }

  lemma AddedNotInBase(builder: Builder, base: seq<seq<File>>, edits: seq<Edit>, level: nat)
    requires Replayable(base, edits) && level < NUM_LEVELS && builder.Valid()
    requires builder.State(level) == AccumulateAll(AtLevel(edits, level)[..|edits|])
    ensures NoneReadded(base[level], builder.added[level])
  {
    var all := AtLevel(edits, level);
    assert all[..|edits|] == all;
    forall f, g | f in base[level] && g in builder.added[level] ensures f.number != g.number {
      assert g in builder.State(level).added && f in FileSet(base[level]);
      AddedByEdits(all, g);
    }
  }

  lemma ReplayedIs(base: seq<seq<File>>, edits: seq<Edit>, v: seq<seq<File>>, w: seq<seq<File>>)
    requires Replayable(base, edits) && InstalledEach(base, edits, w) && |v| == NUM_LEVELS
    requires forall i :: 0 <= i < NUM_LEVELS ==>
      Ordered(v[i]) && FileSet(v[i]) == LevelAfter(FileSet(base[i]), AccumulateAll(AtLevel(edits, i)[..|edits|]))
    ensures v == w
  {
    hide NoneAddedTwice, LevelAfter, Ordered;
    EachInstalls(base, edits, w);
    forall i | 0 <= i < NUM_LEVELS ensures v[i] == w[i] {
      assert AtLevel(edits, i)[..|edits|] == AtLevel(edits, i);
      ReplayIsInstall(FileSet(base[i]), AtLevel(edits, i));
      SameOrdered(v[i], w[i]);
    }
  }

  lemma OneMoreInstalled(base: seq<seq<File>>, edits: seq<Edit>, n: nat, u: seq<seq<File>>, v: seq<seq<File>>)
    requires n < |edits| && InstalledEach(base, edits[..n], u) && |u| == NUM_LEVELS && edits[n].Valid()
    requires Applied(u, edits[n], v)
    ensures InstalledEach(base, edits[..n + 1], v)
  {
    hide Applied;
    assert edits[..n + 1][..n] == edits[..n];
  }

  // The versions an open store goes through: LogAndApply once for each edit.
  method InstallEach(base: seq<seq<File>>, edits: seq<Edit>) returns (v: seq<seq<File>>)
    requires Replayable(base, edits)
    ensures InstalledEach(base, edits, v)
  {
    hide NoneAddedTwice, LevelAfter, Accumulate, Ordered, Applied, Applicable, DistinctAdded;
    v := base;
    assert edits[..0] == [];
    for k := 0 to |edits|
      invariant InstalledEach(base, edits[..k], v)
    {
      ApplicableAt(base, edits, k, v);
      var u := v;
      v := LogAndApply(u, edits[k]);
      OneMoreInstalled(base, edits, k, u, v);
    }
    assert edits[..|edits|] == edits;
  }

  lemma ApplicableAt(base: seq<seq<File>>, edits: seq<Edit>, k: nat, v: seq<seq<File>>)
    requires Replayable(base, edits) && k < |edits| && InstalledEach(base, edits[..k], v)
    ensures Applicable(v, edits[k]) && |v| == NUM_LEVELS && edits[k].Valid()
  {
    hide NoneAddedTwice, Ordered, InstalledEach;
    Fewer(base, edits, k);
    EachInstalls(base, edits[..k], v);
    forall i | 0 <= i < NUM_LEVELS ensures NoneReadded(v[i], edits[k].added[i]) {
      var some := AtLevel(edits, i)[..k];
      ReplayIsInstall(FileSet(base[i]), some);
      NextIsNew(base, edits, k, i, FileSet(v[i]));
      forall f | f in v[i] ensures f in FileSet(v[i]) {}
    }
  }
}
