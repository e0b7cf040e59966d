// A run on which the compactions the code chooses bring a deleted key back (db/version_set.cc,
// SetupOtherInputs, which takes the lower inputs without their boundary files).

module Resurrection {
  import opened Wrappers
  import opened DbFormat
  import opened Files
  import opened CompactionRule
  import opened LsmTree
  import Version
  import InputSelection

  const B1 := Entry(Key(1.0, 1, Put), "b")
  const C2 := Entry(Key(2.0, 2, Put), "c")
  const C3 := Entry(Key(2.0, 3, Deletion), "")
  const B4 := Entry(Key(1.0, 4, Put), "bb")

  // The first memtable, the second one, and the third.
  const BOTH := File(2, 1, B1.key, C2.key, [B1, C2])
  const GONE := File(3, 1, C3.key, C3.key, [C3])
  const TOP := File(6, 1, B4.key, B4.key, [B4])

  // Their compaction while a snapshot needs both entries of 2.0 ends a file between these.
  const LEFT := File(4, 1, B1.key, C3.key, [B1, C3])
  const RIGHT := File(5, 1, C2.key, C2.key, [C2])

  const OUT := File(7, 1, B4.key, B4.key, [B4])

  function Tables(one: set<File>, two: set<File>): Levels { [{}, one, two, {}, {}, {}, {}] }

  function FirstJob(): Running { Running(1, {GONE}, {BOTH}, Tables({GONE}, {BOTH}), 1.0, 2.0, 2, {}) }

  function LastJob(): Running { Running(1, {TOP}, {LEFT}, Tables({TOP}, {LEFT, RIGHT}), 1.0, 2.0, 4, {}) }

  // ---- The run ----

  // A state between compactions.
  function At(mem: set<Entry>, imm: Option<set<Entry>>, levels: Levels, snapshots: multiset<nat>, last: nat,
      nextFile: nat, log: seq<Option<Entry>>,
              floor: nat): State
  {
    State(mem, imm, levels, snapshots, last, nextFile, None, log, floor)
  }

  const ONE: seq<Option<Entry>> := [Some(B1)]
  const TWO: seq<Option<Entry>> := [Some(B1), Some(C2)]
  const THREE: seq<Option<Entry>> := [Some(B1), Some(C2), Some(C3)]
  const FOUR: seq<Option<Entry>> := [Some(B1), Some(C2), Some(C3), Some(B4)]

  function Wrote(): seq<State> {
    [At({}, None, Tables({}, {}), multiset{}, 0, 2, [], 0),
     At({B1}, None, Tables({}, {}), multiset{}, 0, 2, ONE, 0),
     At({B1, C2}, None, Tables({}, {}), multiset{}, 0, 2, TWO, 0),
     At({B1, C2}, None, Tables({}, {}), multiset{}, 2, 2, TWO, 0),
     At({B1, C2}, None, Tables({}, {}), multiset{2}, 2, 2, TWO, 0),
     At({}, Some({B1, C2}), Tables({}, {}), multiset{2}, 2, 2, TWO, 0),
     At({}, None, Tables({}, {BOTH}), multiset{2}, 2, 3, TWO, 0)]
  }

  function Deleted(): seq<State> {
    [At({}, None, Tables({}, {BOTH}), multiset{2}, 2, 3, TWO, 0),
     At({C3}, None, Tables({}, {BOTH}), multiset{2}, 2, 3, THREE, 0),
     At({C3}, None, Tables({}, {BOTH}), multiset{2}, 3, 3, THREE, 0),
     At({}, Some({C3}), Tables({}, {BOTH}), multiset{2}, 3, 3, THREE, 0),
     At({}, None, Tables({GONE}, {BOTH}), multiset{2}, 3, 4, THREE, 0)]
  }

  function Compacted(): seq<State> {
    [At({}, None, Tables({GONE}, {BOTH}), multiset{2}, 3, 4, THREE, 0),
     At({}, None, Tables({GONE}, {BOTH}), multiset{2}, 3, 4, THREE, 0).(running := Some(FirstJob())),
     At({}, None, Tables({}, {LEFT, RIGHT}), multiset{2}, 3, 6, THREE, 2),
     At({}, None, Tables({}, {LEFT, RIGHT}), multiset{}, 3, 6, THREE, 2)]
  }

  function WroteAgain(): seq<State> {
    [At({}, None, Tables({}, {LEFT, RIGHT}), multiset{}, 3, 6, THREE, 2),
     At({B4}, None, Tables({}, {LEFT, RIGHT}), multiset{}, 3, 6, FOUR, 2),
     At({B4}, None, Tables({}, {LEFT, RIGHT}), multiset{}, 4, 6, FOUR, 2),
     At({}, Some({B4}), Tables({}, {LEFT, RIGHT}), multiset{}, 4, 6, FOUR, 2),
     Before()]
  }

  function Before(): State { At({}, None, Tables({TOP}, {LEFT, RIGHT}), multiset{}, 4, 7, FOUR, 2) }

  function Begun(): State { Before().(running := Some(LastJob())) }

  function After(): State { At({}, None, Tables({}, {OUT, RIGHT}), multiset{}, 4, 8, FOUR, 4) }

  ghost predicate Steps(run: seq<State>) { forall i :: 0 <= i < |run| - 1 ==> Next(run[i], run[i + 1]) }

  lemma WroteSteps()
    ensures Steps(Wrote()) && Wrote()[0] == Initial()
  {
    var r := Wrote();
    assert Initial().levels == Tables({}, {});
    assert Insert(r[0], r[1], B1);
    assert Insert(r[1], r[2], C2);
    assert Publish(r[2], r[3]);
    assert TakeSnapshot(r[3], r[4]);
    assert SwitchMemTable(r[4], r[5]);
    FlushedTo(r[5].levels, BOTH, 2);
    BothValid();
    TablesAt({}, {}, {BOTH});
    assert {} + {BOTH} == {BOTH};
    assert Flush(r[5], r[6], BOTH, 2);
  }

  lemma TablesAt(one: set<File>, two: set<File>, files: set<File>)
    ensures Tables(one, two)[1] == one && Tables(one, two)[2] == two
    ensures Tables(one, two)[1 := files] == Tables(files, two) && Tables(one, two)[2 := files] == Tables(one, files)
  {
    var a, b := Tables(one, two)[1 := files], Tables(one, two)[2 := files];
    forall i | 0 <= i < 7 ensures a[i] == Tables(files, two)[i] && b[i] == Tables(one, files)[i] {}
  }

  lemma BothValid()
    ensures BOTH.Valid() && BOTH.Entries() == {B1, C2} && GONE.Valid() && GONE.Entries() == {C3} && TOP.Valid()
    ensures TOP.Entries() == {B4}
    ensures LEFT.Valid() && LEFT.Entries() == {B1, C3} && RIGHT.Valid() && RIGHT.Entries() == {C2} && OUT.Valid()
    ensures OUT.Entries() == {B4}
  {
    assert BOTH.run[0] == B1 && BOTH.run[1] == C2 && LEFT.run[0] == B1 && LEFT.run[1] == C3;
  }

  // Nothing in the way of a file at the levels above 2 and where it goes.
  lemma FlushedTo(levels: Levels, f: File, level: nat)
    requires |levels| == NUM_LEVELS && level in {1, 2} && levels[0] == {} && levels[1] == {}
    requires (level == 2 ==> levels[2] == {})
    ensures FlushTo(levels, f, level)
  {
    assert forall i :: 0 <= i <= level ==> levels[i] == {};
  }

  lemma DeletedSteps()
    ensures Steps(Deleted())
  {
    var r := Deleted();
    assert Insert(r[0], r[1], C3);
    assert Publish(r[1], r[2]);
    assert SwitchMemTable(r[2], r[3]);
    FlushedTo(r[3].levels, GONE, 1);
    BothValid();
    TablesAt({}, {BOTH}, {GONE});
    assert {} + {GONE} == {GONE};
    assert Flush(r[3], r[4], GONE, 1);
  }

  lemma AgainSteps()
    ensures Steps(WroteAgain())
  {
    var r := WroteAgain();
    assert Insert(r[0], r[1], B4);
    assert Publish(r[1], r[2]);
    assert SwitchMemTable(r[2], r[3]);
    FlushedTo(r[3].levels, TOP, 1);
    BothValid();
    TablesAt({}, {LEFT, RIGHT}, {TOP});
    assert {} + {TOP} == {TOP};
    assert Flush(r[3], r[4], TOP, 1);
  }

  // ---- The first compaction loses nothing ----

  lemma FirstClosed()
    ensures InputsClosed(Tables({GONE}, {BOTH}), FirstJob()) && !BoundaryLeft(Tables({GONE}, {BOTH}), FirstJob())
  {
    TablesAt({GONE}, {BOTH}, {});
    var c := FirstJob();
    forall k: UserKey | 1.0 <= k <= 2.0 ensures SomeSpans(c.Inputs(), k) { assert BOTH in c.Inputs() && BOTH.Spans(k); }
  }

  lemma FirstOutputs()
    ensures OutputsOf(FirstJob(), {LEFT, RIGHT})
  {
    BothValid();
    var c := FirstJob();
    var inputs := Contents(c.Inputs());
    assert inputs == {B1, C2, C3} by {
      assert BOTH in c.Inputs() && GONE in c.Inputs();
      assert B1 in BOTH.Entries() && C2 in BOTH.Entries() && C3 in GONE.Entries();
    }
    assert Contents({LEFT, RIGHT}) == {B1, C2, C3} by {
      assert B1 in LEFT.Entries() && C3 in LEFT.Entries() && C2 in RIGHT.Entries();
    }
    assert Precedes(LEFT, RIGHT);
    assert Survivors(inputs, inputs, c.Base(), 2) == inputs;
  }

  lemma CompactedSteps()
    ensures Steps(Compacted())
    ensures forall c :: Begin(Compacted()[0], Compacted()[1], c) ==> !BoundaryLeft(Compacted()[0].levels, c)
  {
    hide InputsClosed, OutputsOf, BoundaryLeft;
    var r := Compacted();
    FirstClosed();
    FirstOutputs();
    assert Begin(r[0], r[1], FirstJob());
    TablesAt({GONE}, {BOTH}, {});
    TablesAt({}, {BOTH}, {LEFT, RIGHT});
    assert {GONE} - {GONE} == {} && {BOTH} - {BOTH} + {LEFT, RIGHT} == {LEFT, RIGHT};
    assert Install(r[1], r[2], {LEFT, RIGHT});
    assert multiset{2} - multiset{2} == multiset{};
    assert ReleaseSnapshot(r[2], r[3], 2);
  }

  // ---- The last one loses the deletion ----

  lemma LastClosed()
    ensures InputsClosed(Tables({TOP}, {LEFT, RIGHT}), LastJob())
  {
    TablesAt({TOP}, {LEFT, RIGHT}, {});
    var c := LastJob();
    forall k: UserKey | 1.0 <= k <= 2.0 ensures SomeSpans(c.Inputs(), k) { assert LEFT in c.Inputs() && LEFT.Spans(k); }
    forall g | g in {LEFT, RIGHT} - {LEFT} ensures Aside(g, c.Inputs()) && !Overlaps(g, 1.0, 1.0) { assert g == RIGHT; }
  }

  lemma LastInputs()
    ensures Contents(LastJob().Inputs()) == {B1, C3, B4}
  {
    BothValid();
    var c := LastJob();
    assert LEFT in c.Inputs() && TOP in c.Inputs();
    assert B1 in LEFT.Entries() && C3 in LEFT.Entries() && B4 in TOP.Entries();
  }

  lemma LastOutputs()
    ensures OutputsOf(LastJob(), {OUT})
  {
    BothValid();
    LastInputs();
    var c := LastJob();
    var inputs := {B1, C3, B4};
    assert Contents({OUT}) == {B4} by { assert B4 in OUT.Entries(); }
    assert Hidden(inputs, 4, B1);
    assert c.IsBase(2.0) by { forall j | 3 <= j < |c.version| ensures c.version[j] == {} {} }
    assert Survivors(inputs, inputs, c.Base(), 4) == {B4};
  }

  lemma LastSteps()
    ensures Steps([Before(), Begun(), After()])
  {
    hide InputsClosed, OutputsOf;
    var r := [Before(), Begun(), After()];
    LastClosed();
    LastOutputs();
    assert Begin(r[0], r[1], LastJob());
    TablesAt({TOP}, {LEFT, RIGHT}, {});
    TablesAt({}, {LEFT, RIGHT}, {OUT, RIGHT});
    assert LEFT != RIGHT;
    assert {TOP} - {TOP} == {} && {LEFT, RIGHT} - {LEFT} + {OUT} == {OUT, RIGHT};
    assert Install(r[1], r[2], {OUT});
  }

  // ---- The whole run ----

  ghost predicate Careful(run: seq<State>) {
    forall i, c :: 0 <= i < |run| - 1 && |run[i].levels| == NUM_LEVELS && Begin(run[i], run[i + 1], c) ==>
      !BoundaryLeft(run[i].levels, c)
  }

  lemma Join(a: seq<State>, b: seq<State>)
    requires a != [] && b != [] && a[|a| - 1] == b[0] && Steps(a) && Steps(b)
    ensures Steps(a + b[1..]) && (Careful(a) && Careful(b) ==> Careful(a + b[1..]))
    ensures (a + b[1..])[0] == a[0] && (a + b[1..])[|a| + |b| - 2] == b[|b| - 1]
  {
    hide Next, Begin, BoundaryLeft;
    var r := a + b[1..];
    forall i | 0 <= i < |r| - 1 ensures (i < |a| - 1 && r[i] == a[i] && r[i + 1] == a[i + 1])
      || (i >= |a| - 1 && r[i] == b[i - |a| + 1] && r[i + 1] == b[i - |a| + 2]) {}
  }

  // Up to the last compaction, no boundary file was left behind.
  function Front(): seq<State> { Wrote() + Deleted()[1..] + Compacted()[1..] + WroteAgain()[1..] }

  lemma FrontRuns()
    ensures Steps(Front()) && Careful(Front()) && |Front()| == 18 && Front()[0] == Initial() && Front()[17] == Before()
  {
    hide Next, Begin, BoundaryLeft;
    WroteSteps();
    DeletedSteps();
    CompactedSteps();
    AgainSteps();
    NeverBegun();
    Join(Wrote(), Deleted());
    Join(Wrote() + Deleted()[1..], Compacted());
    Join(Wrote() + Deleted()[1..] + Compacted()[1..], WroteAgain());
  }

  lemma NeverBegun()
    ensures Careful(Wrote()) && Careful(Deleted()) && Careful(Compacted()) && Careful(WroteAgain())
  {
    hide InputsClosed, BoundaryLeft;
    CompactedSteps();
  }

  function LostRun(): seq<State> { Front() + [Begun(), After()] }

  lemma MarkerDropped(base: iset<UserKey>)
    requires 2.0 in base
    ensures Resurrects({B1, C2, C3, B4}, {B1, C3, B4}, base, 4, 2.0)
  {
    var tree, inputs := {B1, C2, C3, B4}, {B1, C3, B4};
    assert IsNewest(tree, 2.0, 4, C3);
    assert IsNewest(tree - inputs, 2.0, 2, C2);
  }

  lemma TreeThen()
    ensures Tree(Begun()) == {B1, C2, C3, B4} && Tree(After()) == {B4, C2}
  {
    BothValid();
    TablesAt({TOP}, {LEFT, RIGHT}, {});
    TablesAt({}, {OUT, RIGHT}, {});
    var s, t := Begun().levels, After().levels;
    forall e | e in {B1, C2, C3, B4} ensures e in Stored(s) {
      assert TOP in s[1] && LEFT in s[2] && RIGHT in s[2];
      assert e in TOP.Entries() || e in LEFT.Entries() || e in RIGHT.Entries();
    }
    forall e | e in {B4, C2} ensures e in Stored(t) {
      assert OUT in t[2] && RIGHT in t[2];
      assert e in OUT.Entries() || e in RIGHT.Entries();
    }
  }

  lemma DeletedInMap()
    ensures 2.0 !in MapAt(FOUR, 4)
  {
    assert MapAt(FOUR, 3) == MapAt(FOUR, 2) - {2.0};
  }

  lemma RunIs()
    ensures var run := LostRun();
            IsRun(run) && |run| == 20 && run[17] == Before() && run[18] == Begun() && run[19] == After() &&
              NoBoundary(run, 17)
  {
    hide Next, Begin, BoundaryLeft, Front;
    FrontRuns();
    LastSteps();
    var run := LostRun();
    Join(Front(), [Before(), Begun(), After()]);
    assert [Before(), Begun(), After()][1..] == [Begun(), After()];
    forall i | 0 <= i < 18 ensures run[i] == Front()[i] {}
    assert Steps(run);
    forall i | 0 <= i < 17 ensures |run[i].levels| == NUM_LEVELS { NextLevels(run[i], run[i + 1]); }
  }

  lemma NextLevels(s: State, t: State)
    requires Next(s, t)
    ensures |s.levels| == NUM_LEVELS
  {
  }

  // What the last compaction does to 2.0.
  lemma Lost()
    ensures !KeepsReads(Begun()) && 2.0 !in MapAt(After().log, 4) && Finds(Tree(After()), 2.0, 4, "c")
  {
    hide Resurrects, MapAt, Tree;
    TreeThen();
    LastInputs();
    assert LastJob().IsBase(2.0) by { forall j | 3 <= j < 7 ensures LastJob().version[j] == {} {} }
    MarkerDropped(LastJob().Base());
    DeletedInMap();
    assert IsNewest({B4, C2}, 2.0, 4, C2);
  }

  lemma LastInstalls()
    ensures Install(Begun(), After(), {OUT})
  {
    hide InputsClosed, OutputsOf;
    LastOutputs();
    TablesAt({TOP}, {LEFT, RIGHT}, {});
    TablesAt({}, {LEFT, RIGHT}, {OUT, RIGHT});
    assert LEFT != RIGHT;
    assert {TOP} - {TOP} == {} && {LEFT, RIGHT} - {LEFT} + {OUT} == {OUT, RIGHT};
  }

  // A run of the store's steps, sound up to its last one, which installs a compaction that brings a
  // deleted key back.
  lemma DeletedKeyReturns()
    ensures var run := LostRun();
            && IsRun(run) && |run| == 20 && run[18] == Begun() && run[19] == After()
            && (forall i :: 0 <= i < 18 ==> !BadInstall(run[i], run[i + 1])) && BadInstall(run[18], run[19])
    ensures Live(After(), 4) && 2.0 !in MapAt(After().log, 4) && Finds(Tree(After()), 2.0, 4, "c")
  {
    hide Next, Begin, BoundaryLeft, LostRun, KeepsReads, Install, MapAt, Tree, NoBoundary, Finds;
    RunIs();
    var run := LostRun();
    RunSound(run, 17);
    Lost();
    LastInstalls();
    NotInstalled(run[17], run[18]);
  }

  lemma NotInstalled(s: State, t: State)
    requires s.running.None?
    ensures !BadInstall(s, t)
  {
  }

  // ---- The choices are the code's own ----

  function Vectors(one: seq<File>, two: seq<File>): seq<seq<File>> { [[], one, two, [], [], [], []] }

  lemma VectorsOk(one: seq<File>, two: seq<File>)
    requires Version.SortedFiles(one) && Version.SortedFiles(two)
    requires forall f :: f in one || f in two ==> f.Entries() <= {B1, C2, C3, B4}
    ensures Version.ValidLevels(Vectors(one, two)) && Unambiguous(Stored(Version.Sets(Vectors(one, two))))
  {
    var levels := Vectors(one, two);
    forall i | 1 <= i < NUM_LEVELS ensures Version.SortedFiles(levels[i]) { assert i > 2 ==> levels[i] == []; }
    forall e | e in Stored(Version.Sets(levels)) ensures e in {B1, C2, C3, B4} {
      var i, f :| 0 <= i < 7 && f in Version.Sets(levels)[i] && e in f.run;
      assert f in levels[i];
      assert e in f.Entries();
    }
  }

  lemma OnlyOne(f: File, files: seq<File>)
    requires files != [] && InputSelection.Distinct(files) && forall g :: g in files ==> g == f
    ensures files == [f]
  {
    FirstTwo(files);
    assert files[0] in files;
  }

  lemma FirstTwo(files: seq<File>)
    requires InputSelection.Distinct(files)
    ensures |files| > 1 ==> files[0] in files && files[1] in files && files[0] != files[1]
  {
  }

  // The files of a level that one file's range overlaps.
  lemma LowerAre(f: File, lower: seq<File>, inputs1: seq<File>)
    requires InputSelection.LowerOf(lower, [f], inputs1)
    ensures inputs1 == InputSelection.Overlapping(lower, f.smallest.user, f.largest.user)
  {
    assert forall g :: g in [f] ==> g == f;
  }

  lemma Overlapped()
    ensures InputSelection.Overlapping([BOTH], 2.0, 2.0) == [BOTH]
    ensures InputSelection.Overlapping([LEFT, RIGHT], 1.0, 1.0) == [LEFT]
    ensures InputSelection.Overlapping([BOTH], 1.0, 1.0) == [BOTH]
  {
    assert [LEFT, RIGHT][..1] == [LEFT] && [LEFT][..0] == [] && [BOTH][..0] == [];
    assert InputSelection.Overlapping([LEFT], 1.0, 1.0) == [LEFT];
  }

  // With one file at level 1, the inputs are that file and what it overlaps.
  method Chosen(one: File, two: seq<File>, maxFileSize: nat) returns (inputs0: seq<File>, inputs1: seq<File>)
    requires Version.SortedFiles([one]) && Version.SortedFiles(two)
    requires forall f :: f == one || f in two ==> f.Entries() <= {B1, C2, C3, B4}
    ensures inputs0 == [one] && inputs1 == InputSelection.Overlapping(two, one.smallest.user, one.largest.user)
  {
    hide Version.ValidLevels, Unambiguous, Version.SortedFiles, InputSelection.LowerOf, InputSelection.Overlapping,
         NoGap,
         InputSelection.LeftAside, InputSelection.NothingOlder, InputSelection.Hull;
    var start, limit;
    VectorsOk([one], two);
    inputs0, inputs1, start, limit := InputSelection.PickCompaction(Vectors([one], two), 1, one, maxFileSize);
    OnlyOne(one, inputs0);
    LowerAre(one, two, inputs1);
  }

  // Whatever sizes are allowed, the two compactions have the inputs of the run.
  method ChosenInputs(maxFileSize: nat)
    returns (first0: seq<File>, first1: seq<File>, last0: seq<File>, last1: seq<File>)
    ensures first0 == [GONE] && first1 == [BOTH]
    ensures last0 == [TOP] && last1 == [LEFT]
  {
    hide Version.SortedFiles, InputSelection.Overlapping;
    BothValid();
    Overlapped();
    AllSorted();
    first0, first1 := Chosen(GONE, [BOTH], maxFileSize);
    last0, last1 := Chosen(TOP, [LEFT, RIGHT], maxFileSize);
  }

  lemma AllSorted()
    ensures Version.SortedFiles([]) && Version.SortedFiles([GONE]) && Version.SortedFiles([BOTH])
    ensures Version.SortedFiles([TOP])
    ensures Version.SortedFiles([LEFT, RIGHT])
  {
    BothValid();
    assert Precedes(LEFT, RIGHT);
  }

  method ChosenLevel(two: seq<File>, f: File, maxFileSize: nat) returns (level: nat)
    requires Version.SortedFiles(two) && forall g :: g in two ==> g.Entries() <= {B1, C2, C3, B4}
    requires InputSelection.TotalFileSize(InputSelection.Overlapping(two, f.smallest.user,
      f.largest.user)) <= 10 * maxFileSize
    ensures level == if InputSelection.OverlapsLevel(two, f.smallest.user, f.largest.user) then 1 else 2
  {
    hide Version.ValidLevels, Version.SortedFiles;
    VectorsOk([], two);
    NothingOverlaps(f);
    level := InputSelection.PickLevelForMemTableOutput(Vectors([], two), f.smallest.user, f.largest.user, maxFileSize);
  }

  lemma NothingOverlaps(f: File)
    ensures Version.SortedFiles([]) && !InputSelection.OverlapsLevel([], f.smallest.user, f.largest.user)
    ensures InputSelection.TotalFileSize(InputSelection.Overlapping([], f.smallest.user, f.largest.user)) == 0
  {
  }

  lemma SizeOfOne(f: File)
    ensures InputSelection.TotalFileSize([f]) == f.size
  {
    assert [f][1..] == [];
  }

  // And the three memtables go to the levels of the run.
  method ChosenLevels(maxFileSize: nat) returns (first: nat, second: nat, third: nat)
    requires maxFileSize > 0
    ensures first == 2 && second == 1 && third == 1
  {
    hide Version.SortedFiles;
    BothValid();
    Overlapped();
    AllSorted();
    NothingOverlaps(BOTH);
    first := ChosenLevel([], BOTH, maxFileSize);
    SizeOfOne(BOTH);
    SizeOfOne(LEFT);
    assert BOTH in [BOTH] && LEFT in [LEFT, RIGHT];
    second := ChosenLevel([BOTH], GONE, maxFileSize);
    third := ChosenLevel([LEFT, RIGHT], TOP, maxFileSize);
  }
}
