// Choosing a compaction's inputs (db/version_set.cc).

module InputSelection {
  import opened Wrappers
  import opened DbFormat
  import opened Files
  import opened LsmTree
  import opened Version

  // The files of the vector that overlap a user-key range, in order.
  function Overlapping(files: seq<File>, start: UserKey, limit: UserKey): (r: seq<File>)
    ensures forall f :: f in r <==> f in files && Overlaps(f, start, limit)
  {
    if files == [] then []
    else
      var r := Overlapping(files[..|files| - 1], start, limit);
      var f := files[|files| - 1];
      assert files == files[..|files| - 1] + [f];
      if Overlaps(f, start, limit) then r + [f] else r
  }

  ghost predicate Distinct(files: seq<File>) {
    forall i, j :: 0 <= i < j < |files| ==> files[i] != files[j]
  }

  lemma {:induction false} OverlappingDistinct(files: seq<File>, start: UserKey, limit: UserKey)
    requires Distinct(files)
    ensures Distinct(Overlapping(files, start, limit))
  {
    if files == [] {
    } else {
      var n := |files| - 1;
      OverlappingDistinct(files[..n], start, limit);
      var r := Overlapping(files[..n], start, limit);
      forall i | 0 <= i < |r| ensures r[i] != files[n] {
        assert r[i] in r;
        var j :| 0 <= j < n && files[..n][j] == r[i];
      }
    }
  }

  lemma SortedDistinct(files: seq<File>)
    requires SortedFiles(files)
    ensures Distinct(files)
  {
    forall i, j | 0 <= i < j < |files| ensures files[i] != files[j] { StartsBefore(files, i, j); }
  }

  // Every file the range overlaps lies within it.
  ghost predicate ClosedRange(files: seq<File>, start: UserKey, limit: UserKey) {
    forall f :: f in files && Overlaps(f, start, limit) ==> start <= f.smallest.user && f.largest.user <= limit
  }

  // Files reaching out of the range, on either side: the measure of level 0's restarts.
  function Outside(files: seq<File>, start: UserKey, limit: UserKey): nat {
    if files == [] then 0
    else (if files[0].smallest.user < start then 1 else 0) + (if files[0].largest.user > limit then 1 else 0)
         + Outside(files[1..], start, limit)
  }

  lemma {:induction false} WiderOutside(files: seq<File>, start: UserKey, limit: UserKey, start': UserKey,
      limit': UserKey)
    requires start' <= start && limit <= limit'
    ensures Outside(files, start', limit') <= Outside(files, start, limit)
    ensures (exists f :: f in files && (start' <= f.smallest.user < start || limit < f.largest.user <= limit'))
            ==> Outside(files, start', limit') < Outside(files, start, limit)
  {
    if files == [] {
    } else {
      WiderOutside(files[1..], start, limit, start', limit');
      if f :| f in files && (start' <= f.smallest.user < start || limit < f.largest.user <= limit') {
        assert f == files[0] || f in files[1..];
      }
    }
  }

  // The file overlaps whatever range around the request no overlapping file sticks out of.
  ghost predicate Reached(files: seq<File>, begin: UserKey, end: UserKey, f: File) {
    f in files && forall b, e :: b <= begin && end <= e && ClosedRange(files, b, e) ==> Overlaps(f, b, e)
  }

  // GetOverlappingInputs. At level 0 an overlapping file widens the range and restarts the search;
  // the range lo..hi it ends with is the least closed one around the request.
  method GetOverlappingInputs(level: nat, files: seq<File>, begin: UserKey, end: UserKey)
    returns (inputs: seq<File>, ghost lo: UserKey, ghost hi: UserKey)
    ensures level > 0 ==> inputs == Overlapping(files, begin, end)
    ensures level == 0 ==> forall f :: f in inputs <==> Reached(files, begin, end, f)
    ensures inputs == Overlapping(files, lo, hi)
    ensures level > 0 ==> lo == begin && hi == end
    ensures level == 0 ==>
              && lo <= begin && end <= hi && ClosedRange(files, lo, hi)
              && (forall b, e :: b <= begin && end <= e && ClosedRange(files, b, e) ==> b <= lo && hi <= e)
    ensures forall k: UserKey :: lo <= k <= hi ==> begin <= k <= end || SomeSpans(FileSet(files), k)
  {
    inputs := [];
    var userBegin, userEnd := begin, end;
    var i := 0;
    while i < |files|
      invariant 0 <= i <= |files|
      invariant inputs == Overlapping(files[..i], userBegin, userEnd)
      invariant level > 0 ==> userBegin == begin && userEnd == end
      invariant userBegin <= begin && end <= userEnd
      invariant level == 0 ==> ClosedRange(files[..i], userBegin, userEnd)
      invariant forall b, e :: b <= begin && end <= e && ClosedRange(files, b, e) ==> b <= userBegin && userEnd <= e
      invariant forall k: UserKey :: userBegin <= k <= userEnd ==> begin <= k <= end || SomeSpans(FileSet(files), k)
      decreases Outside(files, userBegin, userEnd), |files| - i
    {
      var f := files[i];
      i := i + 1;
      assert files[..i][..i - 1] == files[..i - 1] && files[..i] == files[..i - 1] + [f];
      if f.largest.user < userBegin {
      } else if f.smallest.user > userEnd {
      } else {
        inputs := inputs + [f];
        if level == 0 {
          if f.smallest.user < userBegin {
            WiderOutside(files, userBegin, userEnd, f.smallest.user, userEnd);
            Widened(files, f, begin, end, userBegin, userEnd, f.smallest.user, userEnd);
            userBegin := f.smallest.user;
            inputs := [];
            i := 0;
          } else if f.largest.user > userEnd {
            WiderOutside(files, userBegin, userEnd, userBegin, f.largest.user);
            Widened(files, f, begin, end, userBegin, userEnd, userBegin, f.largest.user);
            userEnd := f.largest.user;
            inputs := [];
            i := 0;
          }
        }
      }
    }
    assert files[..|files|] == files;
    lo, hi := userBegin, userEnd;
    if level == 0 { LeastReached(files, begin, end, lo, hi); }
  }

  lemma LeastReached(files: seq<File>, begin: UserKey, end: UserKey, lo: UserKey, hi: UserKey)
    requires lo <= begin && end <= hi && ClosedRange(files, lo, hi)
    requires forall b, e :: b <= begin && end <= e && ClosedRange(files, b, e) ==> b <= lo && hi <= e
    ensures forall f :: f in Overlapping(files, lo, hi) <==> Reached(files, begin, end, f)
  {
    hide ClosedRange;
  }

  // Widening the range to one end of an overlapping file keeps it gapless and no wider than needed.
  lemma Widened(files: seq<File>, f: File, begin: UserKey, end: UserKey, lo: UserKey, hi: UserKey, lo': UserKey,
      hi': UserKey)
    requires f in files && Overlaps(f, lo, hi) && lo <= begin && end <= hi
    requires (lo' == f.smallest.user < lo && hi' == hi) || (lo' == lo && hi' == f.largest.user > hi)
    requires forall b, e :: b <= begin && end <= e && ClosedRange(files, b, e) ==> b <= lo && hi <= e
    requires forall k: UserKey :: lo <= k <= hi ==> begin <= k <= end || SomeSpans(FileSet(files), k)
    ensures forall b, e :: b <= begin && end <= e && ClosedRange(files, b, e) ==> b <= lo' && hi' <= e
    ensures forall k: UserKey :: lo' <= k <= hi' ==> begin <= k <= end || SomeSpans(FileSet(files), k)
  {
    forall k: UserKey | lo' <= k <= hi' ensures begin <= k <= end || SomeSpans(FileSet(files), k) {
      if !(lo <= k <= hi) { assert f in FileSet(files) && f.Spans(k); }
    }
  }

  // GetRange: the least range covering the files.
  method GetRange(inputs: seq<File>) returns (smallest: Key, largest: Key)
    requires inputs != []
    ensures forall f :: f in inputs ==> !Less(f.smallest, smallest) && !Less(largest, f.largest)
    ensures exists f :: f in inputs && f.smallest == smallest
    ensures exists f :: f in inputs && f.largest == largest
    ensures Hull(inputs, smallest, largest)
  {
    smallest, largest := inputs[0].smallest, inputs[0].largest;
    for i := 0 to |inputs|
      invariant i == 0 ==> smallest == inputs[0].smallest && largest == inputs[0].largest
      invariant forall f :: f in inputs[..i] ==> !Less(f.smallest, smallest) && !Less(largest, f.largest)
      invariant exists f :: f in inputs && f.smallest == smallest
      invariant exists f :: f in inputs && f.largest == largest
    {
      if i > 0 {
        if Less(inputs[i].smallest, smallest) { smallest := inputs[i].smallest; }
        if Less(largest, inputs[i].largest) { largest := inputs[i].largest; }
      }
      assert inputs[..i + 1] == inputs[..i] + [inputs[i]];
    }
    assert inputs[..|inputs|] == inputs;
  }

  ghost predicate IsLargest(files: seq<File>, key: Key) {
    (exists f :: f in files && f.largest == key) && forall f :: f in files ==> !Less(key, f.largest)
  }

  method FindLargestKey(files: seq<File>) returns (largest: Option<Key>)
    ensures largest.None? <==> files == []
    ensures largest.Some? ==> IsLargest(files, largest.value)
  {
    if files == [] {
      return None;
    }
    var key := files[0].largest;
    for i := 1 to |files|
      invariant IsLargest(files[..i], key)
    {
      if Less(key, files[i].largest) { key := files[i].largest; }
      assert files[..i + 1] == files[..i] + [files[i]];
      assert files[i] in files[..i + 1];
    }
    assert files[..|files|] == files;
    largest := Some(key);
  }

  // A file just above `key` that starts with its user key.
  predicate Boundary(f: File, key: Key) {
    Less(key, f.smallest) && f.smallest.user == key.user
  }

  method FindSmallestBoundaryFile(files: seq<File>, key: Key) returns (r: Option<File>)
    ensures r.None? ==> forall f :: f in files ==> !Boundary(f, key)
    ensures r.Some? ==> r.value in files && Boundary(r.value, key)
    ensures r.Some? ==> forall f :: f in files && Boundary(f, key) ==> !Less(f.smallest, r.value.smallest)
  {
    r := None;
    for i := 0 to |files|
      invariant r.None? ==> forall f :: f in files[..i] ==> !Boundary(f, key)
      invariant r.Some? ==> r.value in files && Boundary(r.value, key)
      invariant r.Some? ==> forall f :: f in files[..i] && Boundary(f, key) ==> !Less(f.smallest, r.value.smallest)
    {
      if Less(key, files[i].smallest) && files[i].smallest.user == key.user {
        if r.None? || Less(files[i].smallest, r.value.smallest) { r := Some(files[i]); }
      }
      assert files[..i + 1] == files[..i] + [files[i]];
    }
    assert files[..|files|] == files;
  }

  // How many files start above the key: what AddBoundaryInputs counts down.
  function Above(files: seq<File>, key: Key): nat {
    if files == [] then 0 else (if Less(key, files[0].smallest) then 1 else 0) + Above(files[1..], key)
  }

  lemma {:induction false} FewerAbove(files: seq<File>, f: File, key: Key)
    requires Boundary(f, key) && f.Valid()
    ensures Above(files, f.largest) <= Above(files, key)
    ensures f in files ==> Above(files, f.largest) < Above(files, key)
  {
    InRange(f, f.run[0]);
    if files == [] {
    } else {
      FewerAbove(files[1..], f, key);
    }
  }

  // AddBoundaryInputs: afterwards no file of the level starts just above the inputs' largest key with
  // its user key, and the files added touch one another from the old largest key to the new.
  method AddBoundaryInputs(levelFiles: seq<File>, compactionFiles: seq<File>) returns (files: seq<File>)
    requires forall f :: f in levelFiles || f in compactionFiles ==> f.Valid()
    ensures compactionFiles <= files
    ensures forall f :: f in files ==> f in compactionFiles || f in levelFiles
    ensures compactionFiles == [] ==> files == []
    ensures compactionFiles != [] ==> exists from, to :: AddedUpTo(levelFiles, compactionFiles, files, from, to)
  {
    files := compactionFiles;
    var start := FindLargestKey(files);
    if start.None? {
      return;
    }
    var from, key := start.value, start.value;
    assert SomeSpans(FileSet(files), key.user) by {
      var f :| f in files && f.largest == key;
      InRange(f, f.run[0]);
      assert f in FileSet(files) && f.Spans(key.user);
    }
    var continueSearching := true;
    while continueSearching
      invariant Extended(levelFiles, compactionFiles, files, from, key)
      invariant !continueSearching ==> forall f :: f in levelFiles ==> !Boundary(f, key)
      decreases continueSearching, Above(levelFiles, key)
    {
      var boundary := FindSmallestBoundaryFile(levelFiles, key);
      if boundary.Some? {
        FewerAbove(levelFiles, boundary.value, key);
        ExtendOnce(levelFiles, compactionFiles, files, from, key, boundary.value);
        files := files + [boundary.value];
        key := boundary.value.largest;
      } else {
        continueSearching := false;
      }
    }
    assert AddedUpTo(levelFiles, compactionFiles, files, from, key);
  }

  // The files are a stretch of the level.
  ghost predicate Contiguous(levelFiles: seq<File>, files: seq<File>) {
    && (forall f :: f in files ==> f in levelFiles)
    && forall i, j, k :: 0 <= i < j < k < |levelFiles| && levelFiles[i] in files && levelFiles[k] in files
         ==> levelFiles[j] in files
  }

  // `files` is `base` and boundary files of the level after it, the largest key risen from `from` to `to`.
  ghost predicate Extended(levelFiles: seq<File>, base: seq<File>, files: seq<File>, from: Key, to: Key) {
    && base <= files && base != [] && IsLargest(base, from) && IsLargest(files, to)
    && (forall f :: f in files ==> f in base || f in levelFiles)
    && (forall f :: f in files && f !in base ==> !Less(f.smallest, from))
    && !Less(to, from) && NoGap(FileSet(files), from.user, to.user)
    && ((forall f :: f in levelFiles ==> !Boundary(f, from)) ==> files == base && to == from)
    && (SortedFiles(levelFiles) && Contiguous(levelFiles, base) ==> Contiguous(levelFiles, files))
    && (Distinct(base) ==> Distinct(files))
  }

  ghost predicate AddedUpTo(levelFiles: seq<File>, base: seq<File>, files: seq<File>, from: Key, to: Key) {
    Extended(levelFiles, base, files, from, to) && forall f :: f in levelFiles ==> !Boundary(f, to)
  }

  lemma ExtendOnce(levelFiles: seq<File>, base: seq<File>, files: seq<File>, from: Key, key: Key, f: File)
    requires Extended(levelFiles, base, files, from, key) && f in levelFiles && f.Valid() && Boundary(f, key)
    requires forall g :: g in levelFiles && Boundary(g, key) ==> !Less(g.smallest, f.smallest)
    ensures Extended(levelFiles, base, files + [f], from, f.largest)
  {
    hide Contiguous, SortedFiles, NoGap, Distinct, IsLargest;
    InRange(f, f.run[0]);
    GrowGapless(files, from, key, f);
    GrowLargest(files, key, f);
    GrowDistinct(files, f);
    if SortedFiles(levelFiles) && Contiguous(levelFiles, files) { NextInLevel(levelFiles, files, key, f); }
  }

  // A boundary file goes on where the range so far ends.
  lemma GrowGapless(files: seq<File>, from: Key, key: Key, f: File)
    requires NoGap(FileSet(files), from.user, key.user) && Boundary(f, key)
    ensures NoGap(FileSet(files + [f]), from.user, f.largest.user)
  {
    forall k: UserKey | from.user <= k <= f.largest.user ensures SomeSpans(FileSet(files + [f]), k) {
      if k <= key.user {
        assert SomeSpans(FileSet(files), k);
      } else {
        assert f in FileSet(files + [f]);
      }
    }
  }

  lemma GrowLargest(files: seq<File>, key: Key, f: File)
    requires IsLargest(files, key) && Boundary(f, key) && f.Valid()
    ensures IsLargest(files + [f], f.largest) && f !in files
  {
    InRange(f, f.run[0]);
    assert (files + [f])[|files|] == f;
  }

  lemma GrowDistinct(files: seq<File>, f: File)
    requires f !in files
    ensures Distinct(files) ==> Distinct(files + [f])
  {
  }

  lemma TopIndex(levelFiles: seq<File>, files: seq<File>, key: Key) returns (p: nat)
    requires SortedFiles(levelFiles) && Contiguous(levelFiles, files) && IsLargest(files, key)
    ensures p < |levelFiles| && levelFiles[p] in files && levelFiles[p].largest == key
    ensures forall i :: p < i < |levelFiles| ==> levelFiles[i] !in files && Less(key, levelFiles[i].smallest)
    ensures forall i :: 0 <= i <= p ==> !Less(key, levelFiles[i].smallest)
  {
    var top :| top in files && top.largest == key;
    p :| 0 <= p < |levelFiles| && levelFiles[p] == top;
    forall i | 0 <= i < |levelFiles| ensures !Less(levelFiles[i].largest, levelFiles[i].smallest) {
      InRange(levelFiles[i], levelFiles[i].run[0]);
    }
    forall i | p < i < |levelFiles| ensures levelFiles[i] !in files && Less(key, levelFiles[i].smallest) {
      assert Precedes(levelFiles[p], levelFiles[i]);
    }
    forall i | 0 <= i < p ensures !Less(key, levelFiles[i].smallest) {
      assert Precedes(levelFiles[i], levelFiles[p]);
    }
  }

  // In a sorted level the smallest boundary file is the one right after the last input.
  lemma NextInLevel(levelFiles: seq<File>, files: seq<File>, key: Key, f: File)
    requires SortedFiles(levelFiles) && Contiguous(levelFiles, files) && IsLargest(files, key)
    requires f in levelFiles && Boundary(f, key)
    requires forall g :: g in levelFiles && Boundary(g, key) ==> !Less(g.smallest, f.smallest)
    ensures Contiguous(levelFiles, files + [f])
  {
    hide IsLargest, Contiguous;
    var p := TopIndex(levelFiles, files, key);
    var m :| 0 <= m < |levelFiles| && levelFiles[m] == f;
    if p + 1 < m { StartsBefore(levelFiles, p + 1, m); }
    OneMore(levelFiles, files, p);
  }

  lemma StartsBefore(files: seq<File>, i: nat, j: nat)
    requires SortedFiles(files) && i < j < |files|
    ensures Less(files[i].smallest, files[j].smallest)
  {
    InRange(files[i], files[i].run[0]);
    assert Precedes(files[i], files[j]);
  }

  lemma OneMore(levelFiles: seq<File>, files: seq<File>, p: nat)
    requires SortedFiles(levelFiles) && Contiguous(levelFiles, files) && p + 1 < |levelFiles| && levelFiles[p] in files
    requires forall i :: p < i < |levelFiles| ==> levelFiles[i] !in files
    ensures Contiguous(levelFiles, files + [levelFiles[p + 1]])
  {
    forall i | 0 <= i < |levelFiles| && i != p + 1 ensures levelFiles[i] != levelFiles[p + 1] {
      InRange(levelFiles[i], levelFiles[i].run[0]);
      if i < p { assert Precedes(levelFiles[i], levelFiles[p + 1]); }
      if i > p + 1 { assert Precedes(levelFiles[p + 1], levelFiles[i]); }
    }
  }

  // A file of the level after an input and outside the inputs lies above all of them.
  lemma AboveAll(levelFiles: seq<File>, files: seq<File>, to: Key, i: nat, j: nat)
    requires SortedFiles(levelFiles) && Contiguous(levelFiles, files) && IsLargest(files, to)
    requires i < j < |levelFiles| && levelFiles[i] in files && levelFiles[j] !in files
    ensures Less(to, levelFiles[j].smallest)
  {
    var top :| top in files && top.largest == to;
    var p :| 0 <= p < |levelFiles| && levelFiles[p] == top;
    assert p < j;
    assert Precedes(levelFiles[p], levelFiles[j]);
  }

  // A contiguous choice with no boundary file left leaves behind nothing older of its user keys.
  lemma ClosedInLevel(levelFiles: seq<File>, files: seq<File>, to: Key, f: File, g: File)
    requires SortedFiles(levelFiles) && Contiguous(levelFiles, files) && IsLargest(files, to)
    requires forall h :: h in levelFiles ==> !Boundary(h, to)
    requires Unambiguous(Contents(FileSet(levelFiles)))
    requires f in files && g in levelFiles && g !in files
    ensures Newer(g, f)
  {
    assert f in levelFiles;
    hide Contiguous, Unambiguous;
    var i :| 0 <= i < |levelFiles| && levelFiles[i] == f;
    var j :| 0 <= j < |levelFiles| && levelFiles[j] == g;
    if i < j {
      AboveAll(levelFiles, files, to, i, j);
      NoSharedKey(f, g);
    } else {
      assert Precedes(g, f);
      NewerBefore(levelFiles, f, g);
    }
  }

  // What a file before another in the level shares with it is newer.
  lemma NewerBefore(levelFiles: seq<File>, f: File, g: File)
    requires SortedFiles(levelFiles) && Unambiguous(Contents(FileSet(levelFiles)))
    requires f in levelFiles && g in levelFiles && f != g && Precedes(g, f)
    ensures Newer(g, f)
  {
    hide Unambiguous;
    forall d, e | d in g.run && e in f.run && d.key.user == e.key.user ensures d.key.sn > e.key.sn {
      InRange(f, e);
      InRange(g, d);
      NotSameNumber(levelFiles, f, g, d, e);
    }
  }

  lemma NoSharedKey(f: File, g: File)
    requires f.Valid() && g.Valid() && f.largest.user < g.smallest.user
    ensures Newer(g, f)
  {
    forall d, e | d in g.run && e in f.run ensures d.key.user != e.key.user {
      InRange(f, e);
      InRange(g, d);
    }
  }

  lemma NotSameNumber(levelFiles: seq<File>, f: File, g: File, d: Entry, e: Entry)
    requires Unambiguous(Contents(FileSet(levelFiles))) && SortedFiles(levelFiles)
    requires f in levelFiles && g in levelFiles && f != g && e in f.run && d in g.run && d.key.user == e.key.user
    ensures d.key.sn != e.key.sn
  {
    var i :| 0 <= i < |levelFiles| && levelFiles[i] == f;
    var j :| 0 <= j < |levelFiles| && levelFiles[j] == g;
    InRange(f, e);
    InRange(g, d);
    assert f in FileSet(levelFiles) && g in FileSet(levelFiles);
    assert d in Contents(FileSet(levelFiles)) && e in Contents(FileSet(levelFiles));
    assert i < j ==> Precedes(f, g);
    assert j < i ==> Precedes(g, f);
    assert d != e;
  }

  // ---- SetupOtherInputs ----

  function TotalFileSize(files: seq<File>): nat {
    if files == [] then 0 else files[0].size + TotalFileSize(files[1..])
  }

  // A first choice at `level`: a gapless stretch around lo..hi and, at level 0, all that overlaps it.
  ghost predicate FirstChoice(levelFiles: seq<File>, level: nat, inputs: seq<File>, lo: UserKey, hi: UserKey) {
    && inputs != [] && Distinct(inputs) && lo <= hi
    && (forall f :: f in inputs ==> f in levelFiles && Overlaps(f, lo, hi))
    && (level > 0 ==> Contiguous(levelFiles, inputs))
    && (level == 0 ==> inputs == Overlapping(levelFiles, lo, hi) && ClosedRange(levelFiles, lo, hi))
  }

  ghost predicate LevelOk(levelFiles: seq<File>, level: nat) {
    && Distinct(levelFiles) && (forall f :: f in levelFiles ==> f.Valid())
    && (level > 0 ==> SortedFiles(levelFiles) && Unambiguous(Contents(FileSet(levelFiles))))
  }

  // The least range covering the files.
  ghost predicate Hull(files: seq<File>, smallest: Key, largest: Key) {
    && (exists f :: f in files && f.smallest == smallest) && (exists f :: f in files && f.largest == largest)
    && forall f :: f in files ==> !Less(f.smallest, smallest) && !Less(largest, f.largest)
  }

  // Level 0: a closed choice has no boundary file to add.
  lemma ClosedHasNoBoundary(levelFiles: seq<File>, inputs: seq<File>, lo: UserKey, hi: UserKey, from: Key)
    requires FirstChoice(levelFiles, 0, inputs, lo, hi) && LevelOk(levelFiles, 0) && IsLargest(inputs, from)
    ensures forall g :: g in levelFiles ==> !Boundary(g, from)
  {
    var top :| top in inputs && top.largest == from;
    forall g | g in levelFiles && g.smallest.user == from.user ensures !Less(from, g.smallest) {
      InRange(g, g.run[0]);
      assert Overlaps(g, lo, hi) && g in inputs;
    }
  }

  // Outside the inputs, the level keeps nothing older of their user keys.
  lemma ChoiceClosed(levelFiles: seq<File>, level: nat, inputs: seq<File>, files: seq<File>, lo: UserKey, hi: UserKey,
      f: File, g: File)
    requires FirstChoice(levelFiles, level, inputs, lo, hi) && LevelOk(levelFiles, level)
    requires exists from, to :: AddedUpTo(levelFiles, inputs, files, from, to)
    requires f in files && g in levelFiles && g !in files
    ensures Newer(g, f)
  {
    var from, to :| AddedUpTo(levelFiles, inputs, files, from, to);
    if level > 0 {
      ClosedInLevel(levelFiles, files, to, f, g);
    } else {
      ClosedHasNoBoundary(levelFiles, inputs, lo, hi, from);
      forall d, e | d in g.run && e in f.run ensures d.key.user != e.key.user { InRange(g, d); InRange(f, e); }
    }
  }

  // The chosen stretch, its boundary files and what already bridged it leave no gap.
  lemma StretchGapless(levelFiles: seq<File>, bridge: set<File>, inputs: seq<File>, files: seq<File>, lo: UserKey,
      hi: UserKey, smallest: Key, largest: Key)
    requires NoGap(bridge + FileSet(inputs), lo, hi) && lo <= hi
    requires forall f :: f in inputs ==> f.Valid() && Overlaps(f, lo, hi)
    requires forall f :: f in bridge ==> lo <= f.smallest.user && f.largest.user <= hi
    requires exists from, to :: AddedUpTo(levelFiles, inputs, files, from, to)
    requires exists f :: (f in bridge || f in files) && f.smallest == smallest
    requires exists f :: (f in bridge || f in files) && f.largest == largest
    ensures NoGap(bridge + FileSet(files), smallest.user, largest.user)
  {
    hide Contiguous, SortedFiles, Distinct, Boundary;
    var from, to :| AddedUpTo(levelFiles, inputs, files, from, to);
    var top :| top in inputs && top.largest == from;
    var a :| (a in bridge || a in files) && a.smallest == smallest;
    var b :| (b in bridge || b in files) && b.largest == largest;
    forall k: UserKey | smallest.user <= k <= largest.user ensures SomeSpans(bridge + FileSet(files), k) {
      if lo <= k <= hi {
        assert SomeSpans(bridge + FileSet(inputs), k);
      } else if k < lo {
        assert a in inputs && a.Spans(k);
      } else {
        StretchedAbove(levelFiles, inputs, files, from, to, top, b, k);
      }
    }
  }

  // Above the range: the last of the inputs, or the files added to them.
  lemma StretchedAbove(levelFiles: seq<File>, inputs: seq<File>, files: seq<File>, from: Key, to: Key, top: File,
      b: File, k: UserKey)
    requires AddedUpTo(levelFiles, inputs, files, from, to) && top in inputs && top.largest == from
    requires top.smallest.user <= k <= b.largest.user && b in files && (b in inputs ==> b.smallest.user <= k)
    ensures SomeSpans(FileSet(files), k)
  {
    hide Contiguous, SortedFiles, Distinct, Boundary;
    if b in inputs {
      assert b in FileSet(files) && b.Spans(k);
    } else if k < from.user {
      assert top in FileSet(files) && top.Spans(k);
    } else {
      assert !Less(to, b.largest);
    }
  }

  // Files that each overlap a gapless range extend it to the hull of them all.
  lemma JoinGapless(files: seq<File>, smallest: Key, largest: Key, more: seq<File>, allStart: Key, allLimit: Key)
    requires NoGap(FileSet(files), smallest.user, largest.user) && Hull(files, smallest, largest)
    requires forall f :: f in more ==> Overlaps(f, smallest.user, largest.user)
    requires Hull(files + more, allStart, allLimit)
    ensures NoGap(FileSet(files) + FileSet(more), allStart.user, allLimit.user)
  {
    var a :| a in files + more && a.smallest == allStart;
    var b :| b in files + more && b.largest == allLimit;
    forall k: UserKey | allStart.user <= k <= allLimit.user ensures SomeSpans(FileSet(files) + FileSet(more), k) {
      if smallest.user <= k <= largest.user {
        assert SomeSpans(FileSet(files), k);
      } else if k < smallest.user {
        assert a in more && a.Spans(k);
      } else {
        assert b in more && b.Spans(k);
      }
    }
  }

  // A narrower range overlaps no more files; if as many, the same.
  lemma {:induction false} SameOverlap(files: seq<File>, lo: UserKey, hi: UserKey, lo': UserKey, hi': UserKey)
    requires lo' <= lo && hi <= hi'
    ensures |Overlapping(files, lo, hi)| <= |Overlapping(files, lo', hi')|
    ensures |Overlapping(files, lo, hi)| == |Overlapping(files, lo', hi')| ==>
      Overlapping(files, lo, hi) == Overlapping(files, lo', hi')
  {
    if files == [] {
    } else {
      SameOverlap(files[..|files| - 1], lo, hi, lo', hi');
    }
  }

  lemma OverlappingContiguous(files: seq<File>, lo: UserKey, hi: UserKey)
    requires SortedFiles(files)
    ensures Contiguous(files, Overlapping(files, lo, hi))
  {
    forall i, j, k | 0 <= i < j < k < |files| && Overlaps(files[i], lo, hi) && Overlaps(files[k], lo, hi)
      ensures Overlaps(files[j], lo, hi)
    {
      InRange(files[j], files[j].run[0]);
      assert Precedes(files[i], files[j]) && Precedes(files[j], files[k]);
    }
  }

  // A file of the output level that the inputs' range misses lies on one side of all the inputs.
  lemma MissedAside(lower: seq<File>, inputs0: seq<File>, smallest: Key, largest: Key, g: File)
    requires SortedFiles(lower) && Hull(inputs0, smallest, largest) && smallest.user <= largest.user
    requires forall f :: f in inputs0 ==> f.Valid()
    requires g in lower && g.Valid() && !Overlaps(g, smallest.user, largest.user)
    ensures Aside(g, FileSet(inputs0) + FileSet(Overlapping(lower, smallest.user, largest.user)))
    ensures forall f :: f in inputs0 ==> !Overlaps(g, f.smallest.user, f.largest.user)
  {
    forall f | f in Overlapping(lower, smallest.user, largest.user)
      ensures if g.largest.user < smallest.user then Precedes(g, f) else Precedes(f, g)
    {
      MissedSide(lower, smallest.user, largest.user, f, g);
    }
    hide SortedFiles, Overlapping;
    InRange(g, g.run[0]);
    forall f | f in inputs0 ensures f.smallest.user <= f.largest.user { InRange(f, f.run[0]); }
  }

  lemma MissedSide(lower: seq<File>, start: UserKey, limit: UserKey, f: File, g: File)
    requires SortedFiles(lower) && f in lower && g in lower && start <= limit
    requires Overlaps(f, start, limit) && !Overlaps(g, start, limit)
    ensures if g.largest.user < start then Precedes(g, f) else Precedes(f, g)
  {
    var i :| 0 <= i < |lower| && lower[i] == f;
    var j :| 0 <= j < |lower| && lower[j] == g;
    InRange(f, f.run[0]);
    InRange(g, g.run[0]);
    assert i < j ==> Precedes(f, g);
    assert j < i ==> Precedes(g, f);
  }

  // ---- The methods ----

  // What SetupOtherInputs hands over: InputsClosed, on the version's vectors.
  ghost predicate LeftAside(lower: seq<File>, inputs0: seq<File>, inputs1: seq<File>) {
    && (forall g :: g in lower && g !in inputs1 ==> Aside(g, FileSet(inputs0) + FileSet(inputs1)))
    && (forall f, g :: f in inputs0 && g in lower && g !in inputs1 ==> !Overlaps(g, f.smallest.user, f.largest.user))
  }

  // Nothing older of the inputs' user keys stays behind at their level.
  ghost predicate NothingOlder(levelFiles: seq<File>, inputs: seq<File>) {
    forall f, g :: f in inputs && g in levelFiles && g !in inputs ==> Newer(g, f)
  }

  ghost predicate Chosen(levels: seq<seq<File>>, level: nat, inputs0: seq<File>, inputs1: seq<File>, allStart: Key,
      allLimit: Key)
    requires level + 1 < |levels|
  {
    && inputs0 != [] && allStart.user <= allLimit.user && Distinct(inputs0) && Distinct(inputs1)
    && (forall f :: f in inputs0 ==> f in levels[level]) && (forall f :: f in inputs1 ==> f in levels[level + 1])
    && Hull(inputs0 + inputs1, allStart, allLimit)
    && NoGap(FileSet(inputs0) + FileSet(inputs1), allStart.user, allLimit.user)
    && NothingOlder(levels[level], inputs0)
    && LeftAside(levels[level + 1], inputs0, inputs1)
  }

  lemma UpperClosed(levelFiles: seq<File>, level: nat, first: seq<File>, lo: UserKey, hi: UserKey, inputs: seq<File>)
    requires LevelOk(levelFiles, level) && FirstChoice(levelFiles, level, first, lo, hi)
    requires exists from, to :: AddedUpTo(levelFiles, first, inputs, from, to)
    ensures NothingOlder(levelFiles, inputs)
  {
    forall f, g | f in inputs && g in levelFiles && g !in inputs ensures Newer(g, f) {
      ChoiceClosed(levelFiles, level, first, inputs, lo, hi, f, g);
    }
  }

  lemma LowerAside(lower: seq<File>, inputs0: seq<File>, smallest: Key, largest: Key, inputs1: seq<File>)
    requires SortedFiles(lower) && inputs0 != [] && forall f :: f in inputs0 ==> f.Valid()
    requires Hull(inputs0, smallest, largest) && inputs1 == Overlapping(lower, smallest.user, largest.user)
    ensures LeftAside(lower, inputs0, inputs1)
  {
    assert inputs0[0] in inputs0;
    InRange(inputs0[0], inputs0[0].run[0]);
    forall g | g in lower && g !in inputs1
      ensures Aside(g, FileSet(inputs0) + FileSet(inputs1))
      ensures forall f :: f in inputs0 ==> !Overlaps(g, f.smallest.user, f.largest.user)
    {
      MissedAside(lower, inputs0, smallest, largest, g);
    }
  }

  // PickCompaction from a chosen file on: close it at level 0, then complete both levels.
  method PickCompaction(levels: seq<seq<File>>, level: nat, pick: File, maxFileSize: nat)
    returns (inputs0: seq<File>, inputs1: seq<File>, allStart: Key, allLimit: Key)
    requires ValidLevels(levels) && level + 1 < NUM_LEVELS && pick in levels[level]
    requires Unambiguous(Stored(Sets(levels)))
    ensures Chosen(levels, level, inputs0, inputs1, allStart, allLimit)
    ensures pick in inputs0 && LowerOf(levels[level + 1], inputs0, inputs1)
  {
    var first := [pick];
    ghost var lo, hi := pick.smallest.user, pick.largest.user;
    InRange(pick, pick.run[0]);
    LevelsOk(levels, level);
    if level == 0 {
      var smallest, largest := GetRange(first);
      first, lo, hi := GetOverlappingInputs(0, levels[0], smallest.user, largest.user);
      OverlappingDistinct(levels[0], lo, hi);
      assert pick in first;
    }
    forall k: UserKey | lo <= k <= hi ensures SomeSpans(FileSet(first), k) {
      assert pick in FileSet(first);
      if level == 0 && !pick.Spans(k) {
        assert SomeSpans(FileSet(levels[0]), k);
        var f :| f in FileSet(levels[0]) && f.Spans(k);
        assert f in FileSet(first);
      }
    }
    inputs0, inputs1, allStart, allLimit := SetupOtherInputs(levels, level, first, lo, hi, maxFileSize);
  }

  lemma LevelsOk(levels: seq<seq<File>>, level: nat)
    requires ValidLevels(levels) && level < NUM_LEVELS && Unambiguous(Stored(Sets(levels)))
    ensures LevelOk(levels[level], level)
  {
    forall e | e in Contents(FileSet(levels[level])) ensures e in Stored(Sets(levels)) {
      var f :| f in FileSet(levels[level]) && e in f.run;
      assert f in Sets(levels)[level];
    }
  }

  lemma FirstValid(levelFiles: seq<File>, level: nat, first: seq<File>, lo: UserKey, hi: UserKey)
    requires LevelOk(levelFiles, level) && FirstChoice(levelFiles, level, first, lo, hi)
    ensures first != [] && (forall f :: f in first ==> f in levelFiles) && forall f :: f in levelFiles ==> f.Valid()
  {
  }

  ghost predicate Completed(levels: seq<seq<File>>, level: nat, first: seq<File>, lo: UserKey, hi: UserKey,
      inputs0: seq<File>)
    requires level < |levels|
  {
    && LevelOk(levels[level], level) && FirstChoice(levels[level], level, first, lo, hi)
    && exists from, to :: AddedUpTo(levels[level], first, inputs0, from, to)
  }

  lemma AllValid(levels: seq<seq<File>>, level: nat, first: seq<File>, lo: UserKey, hi: UserKey, inputs0: seq<File>)
    requires level < |levels| && Completed(levels, level, first, lo, hi, inputs0)
    ensures inputs0 != [] && Distinct(inputs0) && (forall f :: f in inputs0 ==> f in levels[level] && f.Valid())
    ensures forall f :: f in first ==> f in inputs0
  {
    hide NoGap, IsLargest, Contiguous, ClosedRange, Overlapping, SortedFiles;
    var from, to :| AddedUpTo(levels[level], first, inputs0, from, to);
    assert forall i :: 0 <= i < |first| ==> inputs0[i] == first[i];
  }

  // The upper inputs completed, and the lower files their range overlaps.
  lemma BothLevels(levels: seq<seq<File>>, level: nat, first: seq<File>, lo: UserKey, hi: UserKey, inputs0: seq<File>,
                   smallest: Key, largest: Key, inputs1: seq<File>, allStart: Key, allLimit: Key)
    requires level + 1 < |levels| && SortedFiles(levels[level + 1]) && Completed(levels, level, first, lo, hi, inputs0)
    requires Hull(inputs0, smallest, largest) && inputs1 == Overlapping(levels[level + 1], smallest.user, largest.user)
    requires Hull(inputs0 + inputs1, allStart, allLimit)
    requires NoGap(FileSet(inputs0) + FileSet(inputs1), allStart.user, allLimit.user)
    ensures Chosen(levels, level, inputs0, inputs1, allStart, allLimit)
  {
    hide NoGap, Hull, LevelOk, FirstChoice, AddedUpTo, Aside, Newer;
    AllValid(levels, level, first, lo, hi, inputs0);
    UpperClosed(levels[level], level, first, lo, hi, inputs0);
    LowerAside(levels[level + 1], inputs0, smallest, largest, inputs1);
    SortedDistinct(levels[level + 1]);
    OverlappingDistinct(levels[level + 1], smallest.user, largest.user);
    HullOrdered(inputs0 + inputs1, allStart, allLimit, inputs0[0]);
  }

  lemma HullWithin(files: seq<File>, smallest: Key, largest: Key, more: seq<File>, smallest': Key, largest': Key)
    requires Hull(files, smallest, largest) && Hull(more, smallest', largest') && forall f :: f in files ==> f in more
    ensures smallest'.user <= smallest.user && largest.user <= largest'.user
  {
  }

  lemma HullOrdered(files: seq<File>, smallest: Key, largest: Key, f: File)
    requires Hull(files, smallest, largest) && f in files && f.Valid()
    ensures smallest.user <= largest.user
  {
    InRange(f, f.run[0]);
  }

  lemma FirstGapless(levels: seq<seq<File>>, level: nat, first: seq<File>, lo: UserKey, hi: UserKey, inputs0: seq<File>,
                     smallest: Key, largest: Key, inputs1: seq<File>, allStart: Key, allLimit: Key)
    requires level + 1 < |levels| && Completed(levels, level, first, lo, hi, inputs0) && NoGap(FileSet(first), lo, hi)
    requires Hull(inputs0, smallest, largest) && inputs1 == Overlapping(levels[level + 1], smallest.user, largest.user)
    requires Hull(inputs0 + inputs1, allStart, allLimit)
    ensures NoGap(FileSet(inputs0) + FileSet(inputs1), allStart.user, allLimit.user)
  {
    hide NoGap, Contiguous, SortedFiles, ClosedRange;
    assert {} + FileSet(first) == FileSet(first) && {} + FileSet(inputs0) == FileSet(inputs0);
    StretchGapless(levels[level], {}, first, inputs0, lo, hi, smallest, largest);
    JoinGapless(inputs0, smallest, largest, inputs1, allStart, allLimit);
  }

  lemma ExpandedFirst(levels: seq<seq<File>>, level: nat, inputs0: seq<File>, inputs1: seq<File>, allStart: Key,
      allLimit: Key,
                      base: seq<File>, lo: UserKey, hi: UserKey)
    requires level + 1 < |levels| && LevelOk(levels[level], level)
    requires Chosen(levels, level, inputs0, inputs1, allStart, allLimit)
    requires base == Overlapping(levels[level], lo, hi) && lo <= allStart.user && allLimit.user <= hi
    requires level == 0 ==> ClosedRange(levels[level], lo, hi)
    ensures FirstChoice(levels[level], level, base, lo, hi)
    ensures forall f :: f in inputs0 ==> f in base
  {
    hide NoGap, NothingOlder, LeftAside, Contiguous, Unambiguous;
    forall f | f in inputs0 ensures f in base {
      assert f in inputs0 + inputs1;
      InRange(f, f.run[0]);
    }
    assert inputs0[0] in base;
    OverlappingDistinct(levels[level], lo, hi);
    hide Hull, Chosen;
    if level > 0 { OverlappingContiguous(levels[level], lo, hi); }
  }

  // Growing the upper inputs keeps the whole gapless: what they started from bridges it.
  lemma ExpandedGapless(levels: seq<seq<File>>, level: nat, inputs0: seq<File>, inputs1: seq<File>, allStart: Key,
      allLimit: Key,
                        base: seq<File>, lo: UserKey, hi: UserKey, expanded0: seq<File>, newStart: Key, newLimit: Key)
    requires level + 1 < |levels| && Chosen(levels, level, inputs0, inputs1, allStart, allLimit)
    requires Completed(levels, level, base, lo, hi, expanded0) && base == Overlapping(levels[level], lo, hi)
    requires lo <= allStart.user && allLimit.user <= hi
    requires forall k: UserKey :: lo <= k <= hi ==>
      allStart.user <= k <= allLimit.user || SomeSpans(FileSet(levels[level]), k)
    requires Hull(expanded0 + inputs1, newStart, newLimit)
    ensures NoGap(FileSet(expanded0) + FileSet(inputs1), newStart.user, newLimit.user)
  {
    hide Hull, AddedUpTo, Extended, IsLargest, Contiguous, SortedFiles, ClosedRange, Aside, Newer;
    AllValid(levels, level, base, lo, hi, expanded0);
    ExpandedFirst(levels, level, inputs0, inputs1, allStart, allLimit, base, lo, hi);
    Bridged(levels[level], inputs0, inputs1, allStart, allLimit, base, lo, hi);
    var bridge := FileSet(inputs1);
    WithinHull(inputs0, inputs1, allStart, allLimit);
    HullWitness(expanded0, inputs1, newStart, newLimit);
    assert forall f :: f in base ==> f.Valid() && Overlaps(f, lo, hi);
    StretchGapless(levels[level], bridge, base, expanded0, lo, hi, newStart, newLimit);
    assert bridge + FileSet(expanded0) == FileSet(expanded0) + FileSet(inputs1);
  }

  lemma WithinHull(inputs0: seq<File>, inputs1: seq<File>, allStart: Key, allLimit: Key)
    requires Hull(inputs0 + inputs1, allStart, allLimit)
    ensures forall f :: f in FileSet(inputs1) ==> allStart.user <= f.smallest.user && f.largest.user <= allLimit.user
  {
    forall f | f in FileSet(inputs1) ensures f in inputs0 + inputs1 {}
  }

  lemma HullWitness(inputs0: seq<File>, inputs1: seq<File>, allStart: Key, allLimit: Key)
    requires Hull(inputs0 + inputs1, allStart, allLimit)
    ensures exists f :: (f in FileSet(inputs1) || f in inputs0) && f.smallest == allStart
    ensures exists f :: (f in FileSet(inputs1) || f in inputs0) && f.largest == allLimit
  {
    var a :| a in inputs0 + inputs1 && a.smallest == allStart;
    var b :| b in inputs0 + inputs1 && b.largest == allLimit;
    assert a in FileSet(inputs1) || a in inputs0;
    assert b in FileSet(inputs1) || b in inputs0;
  }

  lemma Bridged(levelFiles: seq<File>, inputs0: seq<File>, inputs1: seq<File>, allStart: Key, allLimit: Key,
      base: seq<File>, lo: UserKey, hi: UserKey)
    requires NoGap(FileSet(inputs0) + FileSet(inputs1), allStart.user, allLimit.user)
    requires base == Overlapping(levelFiles, lo, hi) && forall f :: f in inputs0 ==> f in base
    requires forall k: UserKey :: lo <= k <= hi ==>
      allStart.user <= k <= allLimit.user || SomeSpans(FileSet(levelFiles), k)
    ensures NoGap(FileSet(inputs1) + FileSet(base), lo, hi)
  {
    forall k: UserKey | lo <= k <= hi ensures SomeSpans(FileSet(inputs1) + FileSet(base), k) {
      if allStart.user <= k <= allLimit.user {
        assert SomeSpans(FileSet(inputs0) + FileSet(inputs1), k);
        var f :| f in FileSet(inputs0) + FileSet(inputs1) && f.Spans(k);
        assert f in FileSet(inputs1) + FileSet(base);
      } else {
        assert SomeSpans(FileSet(levelFiles), k);
        var f :| f in FileSet(levelFiles) && f.Spans(k);
        assert f in FileSet(base);
      }
    }
  }

  // The lower inputs are the files that the range of the upper ones overlaps.
  ghost predicate LowerOf(lower: seq<File>, inputs0: seq<File>, inputs1: seq<File>) {
    exists smallest, largest ::
      Hull(inputs0, smallest, largest) && inputs1 == Overlapping(lower, smallest.user, largest.user)
  }

  // They are those of the first files and their boundary files, however the upper inputs grow after that.
  ghost predicate LowerUnmoved(levels: seq<seq<File>>, level: nat, first: seq<File>, inputs0: seq<File>,
      inputs1: seq<File>)
    requires level + 1 < |levels|
  {
    exists basic, from, to ::
      && AddedUpTo(levels[level], first, basic, from, to)
      && LowerOf(levels[level + 1], basic, inputs1) && forall f :: f in basic ==> f in inputs0
  }

  lemma LowerIs(lower: seq<File>, inputs0: seq<File>, smallest: Key, largest: Key, inputs1: seq<File>)
    requires Hull(inputs0, smallest, largest) && inputs1 == Overlapping(lower, smallest.user, largest.user)
    ensures LowerOf(lower, inputs0, inputs1)
  {
  }

  method SetupOtherInputs(levels: seq<seq<File>>, level: nat, first: seq<File>, ghost lo: UserKey, ghost hi: UserKey,
      maxFileSize: nat)
    returns (inputs0: seq<File>, inputs1: seq<File>, allStart: Key, allLimit: Key)
    requires ValidLevels(levels) && level + 1 < NUM_LEVELS && LevelOk(levels[level], level)
    requires FirstChoice(levels[level], level, first, lo, hi) && NoGap(FileSet(first), lo, hi)
    ensures Chosen(levels, level, inputs0, inputs1, allStart, allLimit)
    ensures forall f :: f in first ==> f in inputs0
    ensures LowerOf(levels[level + 1], inputs0, inputs1) && LowerUnmoved(levels, level, first, inputs0, inputs1)
  {
    hide LowerOf, Chosen, Hull, NoGap, FirstChoice, LevelOk, AddedUpTo, Extended, IsLargest, Contiguous, SortedFiles,
         Overlapping, ClosedRange, TotalFileSize, FileSet;
    FirstValid(levels[level], level, first, lo, hi);
    inputs0 := AddBoundaryInputs(levels[level], first);
    AllValid(levels, level, first, lo, hi, inputs0);
    var smallest, largest := GetRange(inputs0);
    ghost var lo1, hi1;
    inputs1, lo1, hi1 := GetOverlappingInputs(level + 1, levels[level + 1], smallest.user, largest.user);
    ghost var basic := inputs0;
    LowerIs(levels[level + 1], inputs0, smallest, largest, inputs1);
    allStart, allLimit := GetRange(inputs0 + inputs1);
    FirstGapless(levels, level, first, lo, hi, inputs0, smallest, largest, inputs1, allStart, allLimit);
    BothLevels(levels, level, first, lo, hi, inputs0, smallest, largest, inputs1, allStart, allLimit);
    if inputs1 != [] {
      var base, lo2, hi2 := GetOverlappingInputs(level, levels[level], allStart.user, allLimit.user);
      var expanded0 := AddBoundaryInputs(levels[level], base);
      if |expanded0| > |inputs0| && TotalFileSize(inputs1) + TotalFileSize(expanded0) < 25 * maxFileSize {
        var newStart, newLimit := GetRange(expanded0);
        var expanded1, lo3, hi3 := GetOverlappingInputs(level + 1, levels[level + 1], newStart.user, newLimit.user);
        if |expanded1| == |inputs1| {
          ExpandedFirst(levels, level, inputs0, inputs1, allStart, allLimit, base, lo2, hi2);
          AllValid(levels, level, base, lo2, hi2, expanded0);
          ghost var start, limit := allStart, allLimit;
          allStart, allLimit := GetRange(expanded0 + expanded1);
          HullWithin(inputs0, smallest, largest, expanded0, newStart, newLimit);
          SameOverlap(levels[level + 1], smallest.user, largest.user, newStart.user, newLimit.user);
          ExpandedGapless(levels, level, inputs0, inputs1, start, limit, base, lo2, hi2, expanded0, allStart, allLimit);
          BothLevels(levels, level, base, lo2, hi2, expanded0, newStart, newLimit, expanded1, allStart, allLimit);
          LowerIs(levels[level + 1], expanded0, newStart, newLimit, expanded1);
          inputs0, inputs1 := expanded0, expanded1;
        }
      }
    }
  }

  // ---- Where a flushed memtable goes ----

  ghost predicate OverlapsLevel(files: seq<File>, start: UserKey, limit: UserKey) {
    exists f :: f in files && Overlaps(f, start, limit)
  }

  // PickLevelForMemTableOutput: as deep as allowed past levels with no overlap; it stops at the first
  // level that overlaps or whose successor would be overlapped by too many bytes.
  method PickLevelForMemTableOutput(levels: seq<seq<File>>, smallest: UserKey, largest: UserKey, maxFileSize: nat)
    returns (level: nat)
    requires ValidLevels(levels)
    ensures level <= MAX_MEM_COMPACT_LEVEL
    ensures level > 0 ==> forall i :: 0 <= i <= level ==> !OverlapsLevel(levels[i], smallest, largest)
    ensures level < MAX_MEM_COMPACT_LEVEL ==>
              || OverlapsLevel(levels[level], smallest, largest) || OverlapsLevel(levels[level + 1], smallest, largest)
              || TotalFileSize(Overlapping(levels[level + 2], smallest, largest)) > 10 * maxFileSize
  {
    level := 0;
    var overlap := SomeFileOverlapsRange(false, levels[0], smallest, largest);
    if !overlap {
      while level < MAX_MEM_COMPACT_LEVEL
        invariant level <= MAX_MEM_COMPACT_LEVEL
        invariant forall i :: 0 <= i <= level ==> !OverlapsLevel(levels[i], smallest, largest)
      {
        overlap := SomeFileOverlapsRange(true, levels[level + 1], smallest, largest);
        if overlap {
          break;
        }
        if level + 2 < NUM_LEVELS {
          var overlaps, lo, hi := GetOverlappingInputs(level + 2, levels[level + 2], smallest, largest);
          if TotalFileSize(overlaps) > 10 * maxFileSize {
            break;
          }
        }
        level := level + 1;
      }
    }
  }
}
