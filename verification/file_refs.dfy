// Reference counts of files and versions, and the deletion of obsolete tables (db/version_set.cc,
// db/db_impl.cc).

module FileRefs {

  // A file of a version. An edit makes a new object for each file it puts at a level.
  class FileMetaData {
    const level: nat
    const number: nat
    var refs: int

    constructor (level: nat, number: nat)
      ensures this.level == level && this.number == number && refs == 1
    {
      this.level, this.number, refs := level, number, 1;
    }
  }

  // The files of all levels, one after the other.
  class Version {
    var refs: nat
    var files: seq<FileMetaData>

    constructor ()
      ensures refs == 0 && files == []
    {
      refs, files := 0, [];
    }
  }

  // How often the versions list each file.
  ghost function Listings(versions: seq<Version>): multiset<FileMetaData>
    reads versions`files
  {
    if versions == [] then multiset{}
      else Listings(versions[..|versions| - 1]) + multiset(versions[|versions| - 1].files)
  }

  lemma {:induction false} ListingsWithout(versions: seq<Version>, i: nat)
    requires i < |versions|
    ensures Listings(versions[..i] + versions[i + 1..]) + multiset(versions[i].files) == Listings(versions)
    decreases |versions|
  {
    var n := |versions| - 1;
    var rest := versions[..i] + versions[i + 1..];
    if i == n {
      assert rest == versions[..n];
    } else {
      var front := versions[..n];
      ListingsWithout(front, i);
      assert rest[..n - 1] == front[..i] + front[i + 1..] && rest[n - 1] == versions[n];
      var a, b := multiset(front[i].files), multiset(versions[n].files);
      assert Listings(rest) == Listings(front[..i] + front[i + 1..]) + b;
    }
  }

  lemma {:induction false} ListedIn(versions: seq<Version>, f: FileMetaData)
    ensures f in Listings(versions) <==> exists v :: v in versions && f in v.files
  {
    if versions == [] {
    } else {
      var n := |versions| - 1;
      ListedIn(versions[..n], f);
      if v :| v in versions && f in v.files { assert v in versions[..n] || v == versions[n]; }
    }
  }

  ghost predicate Different(versions: seq<Version>) {
    forall i, j :: 0 <= i < j < |versions| ==> versions[i] != versions[j]
  }

  lemma Removed(versions: seq<Version>, at: nat)
    requires at < |versions| && Different(versions)
    ensures var r := versions[..at] + versions[at + 1..];
            && Different(r)
            && forall u :: u in r <==> u in versions && u != versions[at]
  {
    var r := versions[..at] + versions[at + 1..];
    assert forall k :: 0 <= k < |r| ==> r[k] == versions[if k < at then k else k + 1];
    forall u | u in versions && u != versions[at] ensures u in r {
      var k :| 0 <= k < |versions| && versions[k] == u;
      assert r[if k < at then k else k - 1] == u;
    }
  }

  lemma OneMore(versions: seq<Version>, v: Version)
    requires Different(versions) && v !in versions
    ensures Different(versions + [v]) && Listings(versions + [v]) == Listings(versions) + multiset(v.files)
  {
    assert (versions + [v])[..|versions|] == versions;
  }

  // Each living file counts its holders, and a file lives as long as it has one.
  ghost predicate Counted(alive: set<FileMetaData>, holders: multiset<FileMetaData>)
    reads alive`refs
  {
    && (forall f :: f in alive ==> f in holders && f.refs == holders[f])
    && forall f :: f in holders ==> f in alive
  }

  class VersionSet {
    // The linked list, from the oldest on.
    var versions: seq<Version>
    var current: Version
    ghost var alive: set<FileMetaData>
    ghost var listed: multiset<FileMetaData>

    ghost predicate Linked()
      reads this`versions, this`listed, versions
    {
      Different(versions) && listed == Listings(versions) && forall v :: v in versions ==> v.refs > 0
    }

    // What is right while a builder and a version under construction hold some files too.
    ghost predicate Inv(held: multiset<FileMetaData>)
      reads this, versions, alive`refs
    {
      Linked() && Counted(alive, listed + held)
    }

    ghost predicate Valid()
      reads this, versions, alive`refs
    {
      Inv(multiset{}) && current in versions
    }

    constructor ()
      ensures Valid() && versions == [current] && fresh(current) && current.files == [] && alive == {}
    {
      var v := new Version();
      v.refs := 1;
      versions, current, alive, listed := [v], v, {}, multiset{};
      new;
      assert versions[..0] == [];
      assert Listings(versions) == multiset{};
    }

    method Ref(v: Version)
      requires Valid() && v in versions
      modifies v`refs
      ensures Valid() && v.refs == old(v.refs) + 1 > 1
    {
      hide Counted, Different, Listings;
      v.refs := v.refs + 1;
    }

    // The files' holders fewer by these; a file without holders is gone.
    method Drop(files: seq<FileMetaData>, ghost rest: multiset<FileMetaData>)
      requires Counted(alive, rest + multiset(files))
      modifies this`alive, alive`refs
      ensures Counted(alive, rest) && alive <= old(alive)
    {
      assert files[0..] == files;
      for i := 0 to |files|
        invariant Counted(alive, rest + multiset(files[i..])) && alive <= old(alive)
      {
        var f := files[i];
        assert files[i..] == [f] + files[i + 1..];
        assert f in multiset(files[i..]);
        // Never below zero.
        assert f.refs > 0;
        f.refs := f.refs - 1;
        if f.refs <= 0 {
          alive := alive - {f};
        }
      }
    }

    // One more holder.
    method Hold(f: FileMetaData, ghost holders: multiset<FileMetaData>)
      requires Counted(alive, holders) && f in alive
      modifies f`refs
      ensures Counted(alive, holders + multiset{f})
    {
      f.refs := f.refs + 1;
    }

    method NewFile(level: nat, number: nat, ghost holders: multiset<FileMetaData>) returns (f: FileMetaData)
      requires Counted(alive, holders)
      modifies this`alive
      ensures fresh(f) && f.level == level && f.number == number && alive == old(alive) + {f}
      ensures Counted(alive, holders + multiset{f})
    {
      f := new FileMetaData(level, number);
      alive := alive + {f};
    }

    // Version::Unref and the destructor: the last holder takes the version and its hold on its files away.
    method Unref(v: Version, ghost held: multiset<FileMetaData>)
      requires Inv(held) && v in versions
      modifies this`versions, this`listed, this`alive, v`refs, alive`refs
      ensures Inv(held) && alive <= old(alive)
      ensures versions == old(versions) ||
        (old(v.refs) == 1 && forall u :: u in versions <==> u in old(versions) && u != v)
      ensures old(v.refs) > 1 ==> versions == old(versions) && v.refs == old(v.refs) - 1
    {
      hide Counted, Different, Listings;
      if v.refs > 1 {
        v.refs := v.refs - 1;
        return;
      }
      var at := Place(v);
      ListingsWithout(versions, at);
      Removed(versions, at);
      ghost var was := listed;
      listed := Listings(versions[..at] + versions[at + 1..]);
      versions := versions[..at] + versions[at + 1..];
      v.refs := 0;
      assert listed + held + multiset(v.files) == was + held;
      Drop(v.files, listed + held);
    }

    // A holder of the version gives it up.
    method Release(v: Version)
      requires Valid() && v in versions && (v != current || v.refs > 1)
      modifies this`versions, this`listed, this`alive, v`refs, alive`refs
      ensures Valid() && alive <= old(alive) && current == old(current)
      ensures forall u :: u in versions ==> u in old(versions)
      ensures forall u :: u in old(versions) && u != v ==> u in versions
    {
      hide Inv;
      Unref(v, multiset{});
    }

    method Place(v: Version) returns (i: nat)
      requires v in versions
      ensures i < |versions| && versions[i] == v
    {
      i := 0;
      while versions[i] != v
        invariant i < |versions| && v in versions[i..]
        decreases |versions| - i
      {
        assert versions[i..] == [versions[i]] + versions[i + 1..];
        i := i + 1;
      }
    }

    lemma ListedAlive(v: Version)
      requires Inv(multiset{}) && v in versions
      ensures forall f :: f in v.files ==> f in alive
    {
      forall f | f in v.files ensures f in alive {
        ListedIn(versions, f);
        assert f in listed + multiset{};
      }
    }

    // Builder::Apply: a new object for each added file, held by the builder.
    method Apply(added: seq<(nat, nat)>) returns (files: seq<FileMetaData>)
      requires Inv(multiset{})
      modifies this`alive
      ensures Inv(multiset(files)) && |files| == |added| && old(alive) <= alive && fresh(alive - old(alive))
      ensures (forall f :: f in files ==> f in alive) && Named(files, added)
    {
      hide Counted, Linked;
      files := [];
      assert listed + multiset(files) == listed + multiset{};
      for i := 0 to |added|
        invariant Inv(multiset(files)) && |files| == i && old(alive) <= alive && fresh(alive - old(alive))
        invariant forall j :: 0 <= j < i ==> files[j] in alive && (files[j].level, files[j].number) == added[j]
      {
        var f := NewFile(added[i].0, added[i].1, listed + multiset(files));
        ghost var was := files;
        files := files + [f];
        assert listed + multiset(files) == listed + multiset(was) + multiset{f};
      }
    }

    // Builder::SaveTo, order aside: the version holds each file it takes.
    method SaveTo(v: Version, files: seq<FileMetaData>, gone: set<(nat, nat)>, ghost held: multiset<FileMetaData>)
      requires Inv(held) && v !in versions && v.files == [] && forall f :: f in files ==> f in alive
      modifies v`files, alive`refs
      ensures Inv(held + multiset(v.files)) && Saved(v.files, files, [], gone)
    {
      hide Counted, Linked;
      assert held + multiset(v.files) == held;
      for i := 0 to |files|
        invariant Inv(held + multiset(v.files))
        invariant forall f :: f in v.files <==> f in files[..i] && (f.level, f.number) !in gone
      {
        var f := files[i];
        assert files[..i + 1] == files[..i] + [f];
        MaybeAddFile(v, f, gone, held);
      }
      assert files[..|files|] == files && files + [] == files;
    }

    method MaybeAddFile(v: Version, f: FileMetaData, gone: set<(nat, nat)>, ghost held: multiset<FileMetaData>)
      requires Inv(held + multiset(v.files)) && v !in versions && f in alive
      modifies v`files, f`refs
      ensures Inv(held + multiset(v.files))
      ensures v.files == old(v.files) + if (f.level, f.number) in gone then [] else [f]
    {
      hide Counted, Different, Listings;
      if (f.level, f.number) in gone {
        return;
      }
      ghost var was := v.files;
      Hold(f, listed + (held + multiset(v.files)));
      v.files := v.files + [f];
      assert listed + (held + multiset(v.files)) == listed + (held + multiset(was)) + multiset{f};
    }

    method AppendVersion(v: Version)
      requires Inv(multiset(v.files)) && v !in versions && v.refs == 0 && current in versions
      modifies this, current`refs, v`refs, alive`refs
      ensures Valid() && current == v && alive <= old(alive)
      ensures forall u :: u in versions ==> u in old(versions) || u == v
      ensures forall u :: u in old(versions) && (u != old(current) || old(u.refs) > 1) ==> u in versions
    {
      hide Inv;
      Unref(current, multiset(v.files));
      Link(v);
    }

    // The new version goes to the end of the list.
    method Link(v: Version)
      requires Inv(multiset(v.files)) && v !in versions
      modifies this`versions, this`listed, this`current, v`refs
      ensures Valid() && current == v && versions == old(versions) + [v]
    {
      hide Counted, Different, Listings;
      OneMore(versions, v);
      ghost var before := listed;
      current := v;
      v.refs := 1;
      versions := versions + [v];
      listed := before + multiset(v.files);
      assert listed + multiset{} == before + multiset(v.files);
    }

    // The builder over the current version: deleted files go by level and number; a file put back loses its
    // deletion.
    method BuildVersion(deleted: set<(nat, nat)>, added: seq<(nat, nat)>)
      returns (v: Version, ghost news: seq<FileMetaData>)
      requires Valid() && forall i, j :: 0 <= i < j < |added| ==> added[i] != added[j]
      modifies this`alive, this`versions, this`listed, current`refs, alive`refs
      ensures Inv(multiset(v.files)) && fresh(v) && v.refs == 0 && current.refs == old(current.refs)
      ensures fresh(alive - old(alive))
      ensures versions == old(versions)
      ensures Named(news, added) && Saved(v.files, current.files, news, Gone(deleted, added))
    {
      hide Counted, Different, Listings, Linked, Named;
      var base := current;
      ListedAlive(base);
      Ref(base);
      v := new Version();
      var builderFiles := Apply(added);
      news := builderFiles;
      SaveTo(v, base.files + builderFiles, Gone(deleted, added), multiset(builderFiles));
      assert base.files + builderFiles + [] == base.files + builderFiles;
      assert listed + (multiset(builderFiles) + multiset(v.files)) ==
        listed + multiset(v.files) + multiset(builderFiles);
      Drop(builderFiles, listed + multiset(v.files));
      Unref(base, multiset(v.files));
    }

    // LogAndApply: the version made of the current one becomes current.
    method LogAndApply(deleted: set<(nat, nat)>, added: seq<(nat, nat)>)
      requires Valid() && forall i, j :: 0 <= i < j < |added| ==> added[i] != added[j]
      modifies this, current`refs, alive`refs
      ensures Valid() && fresh(current) && fresh(alive - old(alive))
      ensures forall u :: u in versions ==> u in old(versions) || u == current
      ensures forall u :: u in old(versions) && (u != old(current) || old(u.refs) > 1) ==> u in versions
      ensures forall f :: f in current.files ==> Edited(f, old(current.files), deleted, added)
      ensures forall f :: f in old(current.files) && (f.level, f.number) !in deleted ==> f in current.files
      ensures forall t :: t in added ==> exists f :: f in current.files && (f.level, f.number) == t
    {
      hide Inv, Named, Saved;
      ghost var was := current.files;
      var v;
      ghost var news;
      v, news := BuildVersion(deleted, added);
      SavedIs(v.files, was, news, deleted, added);
      AppendVersion(v);
    }
  }

  // Deletions not undone by an addition.
  function Gone(deleted: set<(nat, nat)>,
      added: seq<(nat, nat)>): set<(nat, nat)> { set d | d in deleted && d !in added }

  ghost predicate Named(files: seq<FileMetaData>, added: seq<(nat, nat)>) {
    |files| == |added| && forall i :: 0 <= i < |files| ==> (files[i].level, files[i].number) == added[i]
  }

  ghost predicate Saved(files: seq<FileMetaData>, base: seq<FileMetaData>, news: seq<FileMetaData>,
      gone: set<(nat, nat)>) {
    && (forall f :: f in files ==> f in base + news && (f.level, f.number) !in gone)
    && forall f :: f in base + news && (f.level, f.number) !in gone ==> f in files
  }

  lemma SavedIs(files: seq<FileMetaData>, base: seq<FileMetaData>, news: seq<FileMetaData>, deleted: set<(nat, nat)>,
      added: seq<(nat, nat)>)
    requires Named(news, added) && Saved(files, base, news, Gone(deleted, added))
    ensures forall f :: f in files ==> Edited(f, base, deleted, added)
    ensures forall f :: f in base && (f.level, f.number) !in deleted ==> f in files
    ensures forall t :: t in added ==> exists f :: f in files && (f.level, f.number) == t
  {
    forall t | t in added ensures exists f :: f in files && (f.level, f.number) == t {
      var i :| 0 <= i < |added| && added[i] == t;
      assert news[i] in base + news;
    }
  }

  // A file of the new version is one the edit adds, or one of the old version that it leaves.
  predicate Edited(f: FileMetaData, was: seq<FileMetaData>, deleted: set<(nat, nat)>, added: seq<(nat, nat)>) {
    (f.level, f.number) in added || (f in was && (f.level, f.number) !in deleted)
  }

  ghost function Listing(versions: seq<Version>, f: FileMetaData): set<Version>
    reads versions`files
  {
    set v | v in versions && f in v.files
  }

  lemma CountOnce(files: seq<FileMetaData>, f: FileMetaData)
    ensures f in files <==> multiset(files)[f] > 0
  {
  }

  // Where each version lists a file at most once, its count is the number of versions that list it.
  lemma {:induction false} ListingsCount(versions: seq<Version>, f: FileMetaData)
    requires Different(versions) && forall v :: v in versions ==> multiset(v.files)[f] <= 1
    ensures Listings(versions)[f] == |Listing(versions, f)|
  {
    if versions == [] {
      assert Listing(versions, f) == {};
    } else {
      var n := |versions| - 1;
      var v, front := versions[n], versions[..n];
      ListingsCount(front, f);
      assert versions == front + [v];
      ListingMore(front, v, f);
    }
  }

  lemma ListingMore(front: seq<Version>, v: Version, f: FileMetaData)
    requires v !in front && multiset(v.files)[f] <= 1
    ensures |Listing(front + [v], f)| == |Listing(front, f)| + multiset(v.files)[f]
  {
    CountOnce(v.files, f);
    if f in v.files {
      assert Listing(front + [v], f) == Listing(front, f) + {v};
    } else {
      assert Listing(front + [v], f) == Listing(front, f);
    }
  }

  // ---- Tables on disk ----

  // The store's tables. Between its operations readers take and give up versions; a compaction holds its
  // input version and the numbers of its outputs meanwhile.
  class Store {
    const vset: VersionSet
    var pendingOutputs: set<nat>
    var tables: set<nat>

    // Nothing a version lists, and no pending output, is missing.
    ghost predicate Valid()
      reads this, vset, vset.versions, vset.alive`refs
    {
      vset.Valid() && pendingOutputs <= tables && Present(vset.versions, tables)
    }

    constructor ()
      ensures Valid() && fresh(vset) && pendingOutputs == {} && tables == {}
    {
      vset := new VersionSet();
      pendingOutputs, tables := {}, {};
    }

    // OpenCompactionOutputFile, or WriteLevel0Table until the table is built.
    method NewTable(number: nat)
      requires Valid() && number !in tables
      modifies this`pendingOutputs, this`tables
      ensures Valid() && pendingOutputs == old(pendingOutputs) + {number} && tables == old(tables) + {number}
    {
      pendingOutputs := pendingOutputs + {number};
      tables := tables + {number};
    }

    // AddLiveFiles.
    method AddLiveFiles(pending: set<nat>) returns (live: set<nat>)
      ensures forall n :: n in live <==> n in pending || IsListed(vset.versions, n)
    {
      live := pending;
      var versions := vset.versions;
      for i := 0 to |versions|
        invariant forall n :: n in live <==> n in pending || IsListed(versions[..i], n)
      {
        var files := versions[i].files;
        ghost var was := live;
        for k := 0 to |files|
          invariant forall n :: n in live <==> n in was || exists f :: f in files[..k] && f.number == n
        {
          assert files[..k + 1] == files[..k] + [files[k]];
          live := live + {files[k].number};
        }
        assert files[..|files|] == files;
        assert versions[..i + 1] == versions[..i] + [versions[i]];
        forall n ensures IsListed(versions[..i + 1], n) <==>
          IsListed(versions[..i], n) || exists f :: f in files && f.number == n {}
      }
      assert versions[..|versions|] == versions;
    }

    // DeleteObsoleteFiles: a table goes exactly if no version lists it and it is no pending output.
    method DeleteObsoleteFiles()
      requires Valid()
      modifies this`tables
      ensures Valid()
      ensures forall n :: n in tables <==> n in old(tables) && (n in pendingOutputs || IsListed(vset.versions, n))
    {
      var live := AddLiveFiles(pendingOutputs);
      tables := tables * live;
    }

    // CompactMemTable from the built table on. It may run in the midst of a compaction: its outputs and
    // the versions in use lose nothing.
    method InstallFlush(level: nat, number: nat)
      requires Valid() && number in pendingOutputs
      modifies this`pendingOutputs, this`tables, vset, vset.current`refs, vset.alive`refs
      ensures Valid() && pendingOutputs == old(pendingOutputs) - {number} && number in tables
      ensures forall u :: u in old(vset.versions) && (u != old(vset.current) || old(u.refs) > 1) ==> u in vset.versions
    {
      pendingOutputs := pendingOutputs - {number};
      Install({}, [(level, number)]);
      assert (level, number) in [(level, number)];
      CurrentLists(number);
      DeleteObsoleteFiles();
    }

    method Install(deleted: set<(nat, nat)>, added: seq<(nat, nat)>)
      requires Valid() && (forall i, j :: 0 <= i < j < |added| ==> added[i] != added[j])
      requires forall t :: t in added ==> t.1 in tables
      modifies vset, vset.current`refs, vset.alive`refs
      ensures Valid() && fresh(vset.current) && fresh(vset.alive - old(vset.alive))
      ensures forall t :: t in added ==> Lists(vset.current, t.1)
      ensures forall u :: u in old(vset.versions) && (u != old(vset.current) || old(u.refs) > 1) ==> u in vset.versions
    {
      hide VersionSet.Inv;
      ghost var was := vset.versions;
      assert forall f :: f in vset.current.files ==> f.number in tables;
      vset.LogAndApply(deleted, added);
      assert vset.current in vset.versions;
    }

    // InstallCompactionResults, CleanupCompaction and ReleaseInputs.
    method FinishCompaction(input: Version, deleted: set<(nat, nat)>, added: seq<(nat, nat)>)
      requires Valid() && (forall i, j :: 0 <= i < j < |added| ==> added[i] != added[j])
      requires forall t :: t in added ==> t.1 in pendingOutputs
      requires input in vset.versions && (input.refs > 1 || input != vset.current)
      modifies this, vset, vset.versions`refs, vset.alive`refs
      ensures Valid() && forall t :: t in added ==> t.1 in tables && t.1 !in pendingOutputs
    {
      hide VersionSet.Inv, Lists;
      Install(deleted, added);
      pendingOutputs := pendingOutputs - set t | t in added :: t.1;
      vset.Release(input);
      forall t | t in added ensures IsListed(vset.versions, t.1) { CurrentLists(t.1); }
      DeleteObsoleteFiles();
    }

    lemma CurrentLists(n: nat)
      requires Valid() && Lists(vset.current, n)
      ensures IsListed(vset.versions, n)
    {
    }

    // A reader gives up its version.
    method Release(v: Version)
      requires Valid() && v in vset.versions && (v != vset.current || v.refs > 1)
      modifies vset`versions, vset`listed, vset`alive, v`refs, vset.alive`refs
      ensures Valid() && vset.current == old(vset.current)
    {
      vset.Release(v);
    }
  }

  ghost predicate Lists(v: Version, n: nat)
    reads v`files
  {
    exists f :: f in v.files && f.number == n
  }

  ghost predicate IsListed(versions: seq<Version>, n: nat)
    reads versions`files
  {
    exists v, f :: v in versions && f in v.files && f.number == n
  }

  ghost predicate Present(versions: seq<Version>, tables: set<nat>)
    reads versions`files
  {
    forall v, f :: v in versions && f in v.files ==> f.number in tables
  }
}
