// The log-structured merge tree as a state machine, on sets of entries and files
// (db/db_impl.cc, db/version_set.cc, db/snapshot.h).

module LsmTree {
  import opened Wrappers
  import opened DbFormat
  import opened Files
  import opened CompactionRule

  type Levels = seq<set<File>>

  // A compaction at work: its inputs at `level` and `level + 1`, the version it took them from, the
  // sequence number it may not hide entries from, and the numbers of the output files it has opened.
  datatype Running = Running(level: nat, upper: set<File>, lower: set<File>, version: Levels,
                             start: UserKey, limit: UserKey, smallestSnapshot: nat, numbers: set<nat>)
  {
    function Inputs(): set<File> { upper + lower }

    // IsBaseLevelForKey: no file two or more levels down has the key in its range.
    ghost predicate IsBase(user: UserKey) {
      forall j, f :: level + 2 <= j < |version| && f in version[j] ==> !f.Spans(user)
    }

    ghost function Base(): iset<UserKey> { iset k: UserKey | IsBase(k) }
  }

  // The log has a place for every sequence number given out, empty where the write failed.
  datatype State = State(
    mem: set<Entry>,
    imm: Option<set<Entry>>,
    levels: Levels,
    snapshots: multiset<nat>,
    last: nat,
    nextFile: nat,
    running: Option<Running>,
    log: seq<Option<Entry>>,
    floor: nat)

  function Sealed(s: State): set<Entry> { if s.imm.Some? then s.imm.value else {} }

  function Stored(levels: Levels): set<Entry> {
    set i, f, e | 0 <= i < |levels| && f in levels[i] && e in f.run :: e
  }

  function Tree(s: State): set<Entry> { s.mem + Sealed(s) + Stored(s.levels) }

  function History(log: seq<Option<Entry>>): set<Entry> { set i | 0 <= i < |log| && log[i].Some? :: log[i].value }

  // Every entry of `a` is newer than every entry of `b`.
  ghost predicate AllNewer(a: set<Entry>, b: set<Entry>) {
    forall e, f :: e in a && f in b ==> e.key.sn > f.key.sn
  }

  // For each user key, the entries of `f` are newer than those of `g`.
  ghost predicate Newer(f: File, g: File) {
    forall d, e :: d in f.run && e in g.run && d.key.user == e.key.user ==> d.key.sn > e.key.sn
  }

  ghost predicate Disjoint(files: set<File>) {
    forall f, g :: f in files && g in files && f != g ==> Precedes(f, g) || Precedes(g, f)
  }

  ghost predicate NumbersDistinct(levels: Levels) {
    forall i, j, f, g ::
      0 <= i < |levels| && 0 <= j < |levels| && f in levels[i] && g in levels[j] && f.number == g.number
      ==> i == j && f == g
  }

  ghost predicate Shape(levels: Levels, nextFile: nat) {
    && |levels| == NUM_LEVELS
    && (forall i, f :: 0 <= i < NUM_LEVELS && f in levels[i] ==> f.Valid() && f.number < nextFile)
    && NumbersDistinct(levels)
    && (forall i :: 1 <= i < NUM_LEVELS ==> Disjoint(levels[i]))
  }

  // Level 0 from the newest file to the oldest, then level by level: never older before newer.
  ghost predicate Recency(levels: Levels)
    requires |levels| == NUM_LEVELS
  {
    && (forall f, g :: f in levels[0] && g in levels[0] && f.number > g.number ==> Newer(f, g))
    && (forall i, j, f, g :: 0 <= i < j < NUM_LEVELS && f in levels[i] && g in levels[j] ==> Newer(f, g))
  }

  ghost predicate Numbered(log: seq<Option<Entry>>) {
    forall i :: 0 <= i < |log| && log[i].Some? ==> log[i].value.key.sn == i + 1
  }

  ghost predicate Logged(s: State) {
    && s.last <= |s.log| < MAX_SEQUENCE
    && Numbered(s.log)
    && Tree(s) <= History(s.log)
    && (forall e :: e in Sealed(s) + Stored(s.levels) ==> e.key.sn <= s.last)
  }

  ghost predicate Complete(s: State) {
    ReadsAgree(History(s.log), Tree(s), s.floor)
  }

  ghost predicate SnapshotsSafe(s: State) {
    && s.floor <= s.last
    && (forall x :: x in s.snapshots ==> s.floor <= x <= s.last)
    && (s.running.Some? ==>
          && s.floor <= s.running.value.smallestSnapshot <= s.last
          && forall x :: x in s.snapshots ==> s.running.value.smallestSnapshot <= x)
  }

  ghost predicate SomeSpans(files: set<File>, user: UserKey) {
    exists f :: f in files && f.Spans(user)
  }

  // The user-key range start..limit has no gap between the ranges of `files`.
  ghost predicate NoGap(files: set<File>, start: UserKey, limit: UserKey) {
    forall k: UserKey :: start <= k <= limit ==> SomeSpans(files, k)
  }

  // g lies wholly on one side of all the files.
  ghost predicate Aside(g: File, files: set<File>) {
    (forall f :: f in files ==> Precedes(g, f)) || (forall f :: f in files ==> Precedes(f, g))
  }

  // What the choice of inputs establishes and nothing that may happen meanwhile destroys.
  ghost predicate InputsClosed(levels: Levels, c: Running)
    requires |levels| == NUM_LEVELS
  {
    && c.level + 1 < NUM_LEVELS && c.upper != {} && c.start <= c.limit
    && c.upper <= levels[c.level] && c.lower <= levels[c.level + 1]
    && (forall f :: f in c.Inputs() ==> c.start <= f.smallest.user && f.largest.user <= c.limit)
    && NoGap(c.Inputs(), c.start, c.limit)
    && (forall f, g :: f in c.upper && g in levels[c.level] - c.upper ==> Newer(g, f))
    && (forall g :: g in levels[c.level + 1] - c.lower ==> Aside(g, c.Inputs()))
    && (forall f, g :: f in c.upper && g in levels[c.level + 1] - c.lower ==>
         !Overlaps(g, f.smallest.user, f.largest.user))
  }

  // No file deeper than the output level holds a key the compaction takes to be at its base level.
  ghost predicate BaseStands(levels: Levels, c: Running)
    requires |levels| == NUM_LEVELS
  {
    && |c.version| == NUM_LEVELS
    && forall j, g, k: UserKey ::
         c.level + 2 <= j < NUM_LEVELS && g in levels[j] && g.Spans(k) && c.start <= k <= c.limit
         ==> !c.IsBase(k)
  }

  // The numbers of the opened output files are no other file's.
  ghost predicate NumbersHeld(levels: Levels, nextFile: nat, numbers: set<nat>) {
    forall n :: n in numbers ==> n < nextFile && Unused(levels, n)
  }

  ghost predicate Unused(levels: Levels, n: nat) {
    forall i, f :: 0 <= i < |levels| && f in levels[i] ==> f.number != n
  }

  ghost predicate Inv(s: State) {
    && Shape(s.levels, s.nextFile)
    && AllNewer(s.mem, Sealed(s) + Stored(s.levels))
    && AllNewer(Sealed(s), Stored(s.levels))
    && Recency(s.levels)
    && Logged(s)
    && SnapshotsSafe(s)
    && Complete(s)
    && (s.running.Some? ==>
          && InputsClosed(s.levels, s.running.value) && BaseStands(s.levels, s.running.value)
          && NumbersHeld(s.levels, s.nextFile, s.running.value.numbers))
  }

  // ---- Steps ----

  function Initial(): State {
    State({}, None, seq(NUM_LEVELS, _ => {}), multiset{}, 0, 2, None, [], 0)
  }

  // One entry of the batch being applied enters the memtable, not yet visible to readers.
  ghost predicate Insert(s: State, t: State, e: Entry) {
    && e.key.sn == |s.log| + 1 < MAX_SEQUENCE
    && t == s.(mem := s.mem + {e}, log := s.log + [Some(e)])
  }

  // A sequence number of a write that fails once it is numbered is used up all the same.
  ghost predicate Waste(s: State, t: State) {
    |s.log| + 1 < MAX_SEQUENCE && t == s.(log := s.log + [None])
  }

  // The whole batch becomes visible at once.
  ghost predicate Publish(s: State, t: State) {
    t == s.(last := |s.log|)
  }

  ghost predicate SwitchMemTable(s: State, t: State) {
    && s.imm.None? && s.last == |s.log|
    && t == s.(imm := Some(s.mem), mem := {})
  }

  // PickLevelForMemTableOutput goes below level 0 only past levels the file does not overlap.
  ghost predicate FlushTo(levels: Levels, f: File, level: nat)
    requires |levels| == NUM_LEVELS
  {
    && level <= MAX_MEM_COMPACT_LEVEL
    && forall i, g :: 0 <= i <= level && level > 0 && g in levels[i] ==>
         !Overlaps(g, f.smallest.user, f.largest.user)
  }

  ghost predicate Flush(s: State, t: State, f: File, level: nat)
    requires |s.levels| == NUM_LEVELS
  {
    && s.imm.Some? && f.number >= s.nextFile
    && f.Valid() && f.Entries() == s.imm.value && FlushTo(s.levels, f, level)
    && t == s.(imm := None, levels := s.levels[level := s.levels[level] + {f}], nextFile := f.number + 1)
  }

  // An empty memtable leaves no file.
  ghost predicate FlushEmpty(s: State, t: State) {
    s.imm == Some({}) && t == s.(imm := None)
  }

  // DoCompactionWork fixes the oldest sequence number it must keep readable.
  ghost predicate Begin(s: State, t: State, c: Running)
    requires |s.levels| == NUM_LEVELS
  {
    && s.running.None? && c.version == s.levels && InputsClosed(s.levels, c)
    && c.smallestSnapshot <= s.last && (forall x :: x in s.snapshots ==> c.smallestSnapshot <= x)
    && (c.smallestSnapshot == s.last || c.smallestSnapshot in s.snapshots) && c.numbers == {}
    && t == s.(running := Some(c))
  }

  // OpenCompactionOutputFile takes a number while the compaction is at work.
  ghost predicate OpenOutput(s: State, t: State) {
    && s.running.Some?
    && var c := s.running.value;
    t == s.(running := Some(c.(numbers := c.numbers + {s.nextFile})), nextFile := s.nextFile + 1)
  }

  // NewFileNumber for a file that is no table: a log or a manifest.
  ghost predicate TakeNumber(s: State, t: State) {
    t == s.(nextFile := s.nextFile + 1)
  }

  ghost predicate OutputsOf(c: Running, outputs: set<File>) {
    && (forall f :: f in outputs ==> f.Valid())
    && Disjoint(outputs)
    && Contents(outputs) == Survivors(Contents(c.Inputs()), Contents(c.Inputs()), c.Base(), c.smallestSnapshot)
  }

  ghost predicate FreshNumbers(outputs: set<File>, held: set<nat>, low: nat, high: nat) {
    && (forall f :: f in outputs ==> f.number in held || low <= f.number < high)
    && forall f, g :: f in outputs && g in outputs && f.number == g.number ==> f == g
  }

  function Replace(levels: Levels, level: nat, upper: set<File>, lower: set<File>, outputs: set<File>): Levels
    requires level + 1 < |levels|
  {
    levels[level := levels[level] - upper][level + 1 := levels[level + 1] - lower + outputs]
  }

  ghost predicate Install(s: State, t: State, outputs: set<File>)
    requires |s.levels| == NUM_LEVELS
  {
    && s.running.Some?
    && var c := s.running.value;
    && c.level + 1 < NUM_LEVELS && OutputsOf(c, outputs)
    && s.nextFile <= t.nextFile && FreshNumbers(outputs, c.numbers, s.nextFile, t.nextFile)
    && t == s.(levels := Replace(s.levels, c.level, c.upper, c.lower, outputs), running := None,
               nextFile := t.nextFile, floor := c.smallestSnapshot)
  }

  // A single input file with nothing to merge it with moves down as it is.
  ghost predicate TrivialMove(s: State, t: State, c: Running)
    requires |s.levels| == NUM_LEVELS
  {
    && s.running.None? && InputsClosed(s.levels, c) && c.lower == {} && |c.upper| == 1
    && t == s.(levels := Replace(s.levels, c.level, c.upper, {}, c.upper))
  }

  ghost predicate TakeSnapshot(s: State, t: State) {
    t == s.(snapshots := s.snapshots + multiset{s.last})
  }

  ghost predicate ReleaseSnapshot(s: State, t: State, x: nat) {
    x in s.snapshots && t == s.(snapshots := s.snapshots - multiset{x})
  }

  // ---- Every step keeps the invariant ----

  lemma InitialInv()
    ensures Inv(Initial())
  {
    var levels := Initial().levels;
    assert forall i :: 0 <= i < |levels| ==> levels[i] == {};
    EmptyLevels(levels);
    assert Tree(Initial()) == {};
  }

  lemma EmptyLevels(levels: Levels)
    requires |levels| == NUM_LEVELS && forall i :: 0 <= i < NUM_LEVELS ==> levels[i] == {}
    ensures Shape(levels, 2) && Recency(levels) && Stored(levels) == {}
  {
  }

  lemma InsertInv(s: State, t: State, e: Entry)
    requires Inv(s) && Insert(s, t, e)
    ensures Inv(t)
  {
    hide Shape, Recency, BaseStands, InputsClosed;
    HistoryGrows(s.log, Some(e));
    assert Tree(t) == Tree(s) + {e};
    forall f | f in Tree(s) ensures f.key.sn <= |s.log| {}
    forall user, sn: nat | sn >= t.floor ensures SameReads(History(t.log), Tree(t), user, sn) {
      assert SameReadsFrom(History(s.log), Tree(s), user, s.floor);
      AddNewest(History(s.log), Tree(s), e, user, sn);
    }
  }

  lemma HistoryGrows(log: seq<Option<Entry>>, o: Option<Entry>)
    ensures History(log + [o]) == History(log) + if o.Some? then {o.value} else {}
  {
    var now := log + [o];
    forall e | e in History(log) ensures e in History(now) {
      var i :| 0 <= i < |log| && log[i] == Some(e);
      assert now[i] == Some(e);
    }
    assert now[|log|] == o;
  }

  lemma WasteInv(s: State, t: State)
    requires Inv(s) && Waste(s, t)
    ensures Inv(t)
  {
    hide Shape, Recency, BaseStands, InputsClosed;
    HistoryGrows(s.log, None);
    assert History(t.log) == History(s.log);
    assert Tree(t) == Tree(s);
  }

  lemma OpenOutputInv(s: State, t: State)
    requires Inv(s) && OpenOutput(s, t)
    ensures Inv(t)
  {
    hide Recency, ReadsAgree, NumbersDistinct, Disjoint;
    var c, d := s.running.value, t.running.value;
    assert Tree(t) == Tree(s) && d.Inputs() == c.Inputs();
    assert forall k: UserKey :: d.IsBase(k) <==> c.IsBase(k);
  }

  lemma TakeNumberInv(s: State, t: State)
    requires Inv(s) && TakeNumber(s, t)
    ensures Inv(t)
  {
    hide Recency, ReadsAgree, NumbersDistinct, Disjoint, InputsClosed, BaseStands;
    assert Tree(t) == Tree(s);
  }

  // Adding one entry newer than all others to both sides keeps their reads the same.
  lemma AddNewest(a: set<Entry>, b: set<Entry>, e: Entry, user: UserKey, sn: nat)
    requires SameReads(a, b, user, sn)
    requires forall f :: f in a + b ==> f.key.sn < e.key.sn
    ensures SameReads(a + {e}, b + {e}, user, sn)
  {
    if e.key.user == user && e.key.sn <= sn {
      assert forall f :: IsNewest(a + {e}, user, sn, f) <==> f == e;
      assert forall f :: IsNewest(b + {e}, user, sn, f) <==> f == e;
    } else {
      SameNewest(a, a + {e}, user, sn);
      SameNewest(b, b + {e}, user, sn);
    }
  }

  lemma SameNewest(a: set<Entry>, b: set<Entry>, user: UserKey, sn: nat)
    requires forall e :: IsNewest(a, user, sn, e) <==> IsNewest(b, user, sn, e)
    ensures SameReads(a, b, user, sn)
  {
  }

  lemma PublishInv(s: State, t: State)
    requires Inv(s) && Publish(s, t)
    ensures Inv(t)
  {
  }

  lemma SwitchInv(s: State, t: State)
    requires Inv(s) && SwitchMemTable(s, t)
    ensures Inv(t)
  {
    assert Tree(t) == Tree(s);
  }

  lemma TakeSnapshotInv(s: State, t: State)
    requires Inv(s) && TakeSnapshot(s, t)
    ensures Inv(t)
  {
    assert Tree(t) == Tree(s);
  }

  lemma ReleaseSnapshotInv(s: State, t: State, x: nat)
    requires Inv(s) && ReleaseSnapshot(s, t, x)
    ensures Inv(t)
  {
    assert Tree(t) == Tree(s);
    assert t.snapshots <= s.snapshots;
  }

  lemma BeginInv(s: State, t: State, c: Running)
    requires Inv(s) && Begin(s, t, c)
    ensures Inv(t)
  {
  }

  // A file whose range meets a gapless range overlaps one of the files that cover it.
  lemma MeetsGapless(files: set<File>, start: UserKey, limit: UserKey, f: File)
    requires NoGap(files, start, limit) && f.Valid()
    requires start <= f.largest.user && f.smallest.user <= limit && start <= limit
    ensures exists g :: g in files && Overlaps(g, f.smallest.user, f.largest.user)
  {
    InRange(f, f.run[0]);
    var k := if f.smallest.user < start then start else f.smallest.user;
    assert SomeSpans(files, k);
  }

  lemma FlushInv(s: State, t: State, f: File, level: nat)
    requires |s.levels| == NUM_LEVELS && Inv(s) && Flush(s, t, f, level)
    ensures Inv(t)
  {
    hide Shape, Recency, InputsClosed, BaseStands, ReadsAgree, NumbersDistinct, NumbersHeld;
    FlushTree(s.levels, f, level);
    FlushShape(s.levels, s.nextFile, f, level);
    assert AllNewer(f.Entries(), Stored(s.levels));
    ShapeNumbers(s.levels, s.nextFile);
    FlushRecency(s.levels, s.nextFile, f, level);
    assert Tree(t) == Tree(s);
    if s.running.Some? {
      FlushedIsNew(s.levels, s.nextFile, f, s.running.value);
      FlushRunning(s.levels, f, level, s.running.value);
      FlushHeld(s.levels, s.nextFile, f, level, s.running.value.numbers);
    }
  }

  lemma FlushHeld(levels: Levels, nextFile: nat, f: File, level: nat, numbers: set<nat>)
    requires NumbersHeld(levels, nextFile, numbers) && f.number >= nextFile && level < |levels|
    ensures NumbersHeld(Added(levels, level, f), f.number + 1, numbers)
  {
    forall n | n in numbers ensures Unused(Added(levels, level, f), n) { assert Unused(levels, n); }
  }

  lemma ShapeNumbers(levels: Levels, nextFile: nat)
    requires Shape(levels, nextFile)
    ensures NumbersBelow(levels, nextFile)
  {
  }

  lemma FlushedIsNew(levels: Levels, nextFile: nat, f: File, c: Running)
    requires Shape(levels, nextFile) && f.number >= nextFile && InputsClosed(levels, c)
    ensures f !in c.Inputs()
  {
  }

  function Added(levels: Levels, level: nat, f: File): Levels
    requires level < |levels|
  {
    levels[level := levels[level] + {f}]
  }

  lemma FlushTree(levels: Levels, f: File, level: nat)
    requires level < |levels|
    ensures Stored(Added(levels, level, f)) == Stored(levels) + f.Entries()
  {
    var after := Added(levels, level, f);
    forall e ensures e in Stored(after) <==> e in Stored(levels) + f.Entries() {
      if e in f.run { assert f in after[level]; }
      if i, g :| 0 <= i < |levels| && g in levels[i] && e in g.run { assert g in after[i]; }
    }
  }

  lemma FlushNumbers(levels: Levels, f: File, level: nat)
    requires NumbersDistinct(levels) && level < |levels|
    requires forall i, g :: 0 <= i < |levels| && g in levels[i] ==> g.number < f.number
    ensures NumbersDistinct(Added(levels, level, f))
  {
    var after := Added(levels, level, f);
    forall i, j, g: File, h: File |
      0 <= i < |levels| && 0 <= j < |levels| && g in after[i] && h in after[j] && g.number == h.number
      ensures i == j && g == h
    {
      assert g in levels[i] || (g == f && i == level);
      assert h in levels[j] || (h == f && j == level);
    }
  }

  lemma FlushShape(levels: Levels, nextFile: nat, f: File, level: nat)
    requires Shape(levels, nextFile) && f.Valid() && f.number >= nextFile && FlushTo(levels, f, level)
    ensures Shape(Added(levels, level, f), f.number + 1)
  {
    FlushNumbers(levels, f, level);
    if level >= 1 {
      forall g | g in levels[level] ensures Precedes(f, g) || Precedes(g, f) {
        assert !Overlaps(g, f.smallest.user, f.largest.user);
      }
      assert Disjoint(Added(levels, level, f)[level]);
    }
  }

  ghost predicate NumbersBelow(levels: Levels, nextFile: nat) {
    forall i, f :: 0 <= i < |levels| && f in levels[i] ==> f.Valid() && f.number < nextFile
  }

  // A flushed file is newer than every other and shares no key with the levels it went past.
  lemma FlushRecency(levels: Levels, nextFile: nat, f: File, level: nat)
    requires |levels| == NUM_LEVELS && NumbersBelow(levels, nextFile)
    requires Recency(levels) && AllNewer(f.Entries(), Stored(levels))
    requires f.Valid() && f.number >= nextFile && FlushTo(levels, f, level)
    ensures Recency(Added(levels, level, f))
  {
    var after := Added(levels, level, f);
    forall i, g | 0 <= i < NUM_LEVELS && g in levels[i] ensures Newer(f, g) { FlushedNewer(levels, f, i, g); }
    forall i, g | 0 <= i < level && g in levels[i] ensures Newer(g, f) { PassedOver(levels, f, level, i, g); }
    forall i, j, g, h | 0 <= i < j < NUM_LEVELS && g in after[i] && h in after[j] ensures Newer(g, h) {
      assert g in levels[i] || (g == f && i == level);
      assert h in levels[j] || (h == f && j == level);
    }
  }

  lemma PassedOver(levels: Levels, f: File, level: nat, i: nat, g: File)
    requires |levels| == NUM_LEVELS && f.Valid() && g.Valid() && FlushTo(levels, f, level)
    requires i < level && g in levels[i]
    ensures Newer(g, f)
  {
    assert !Overlaps(g, f.smallest.user, f.largest.user);
    forall d, e | d in g.run && e in f.run ensures d.key.user != e.key.user { InRange(g, d); InRange(f, e); }
  }

  lemma FlushedNewer(levels: Levels, f: File, i: nat, g: File)
    requires AllNewer(f.Entries(), Stored(levels)) && i < |levels| && g in levels[i]
    ensures Newer(f, g)
  {
    forall d, e | d in f.run && e in g.run ensures d.key.sn > e.key.sn {
      assert d in f.Entries() && e in Stored(levels);
    }
  }

  // A compaction at work keeps what its inputs promise when a memtable is flushed meanwhile.
  lemma FlushRunning(levels: Levels, f: File, level: nat, c: Running)
    requires |levels| == NUM_LEVELS && AllNewer(f.Entries(), Stored(levels))
    requires f.Valid() && FlushTo(levels, f, level) && f !in c.Inputs()
    requires InputsClosed(levels, c) && BaseStands(levels, c)
    ensures InputsClosed(Added(levels, level, f), c) && BaseStands(Added(levels, level, f), c)
  {
    if level > c.level { FlushOutside(levels, f, level, c); }
    forall g | g in c.upper ensures Newer(f, g) { FlushedNewer(levels, f, c.level, g); }
  }

  // Flushed at or below the output level, it lies outside the compaction's whole key range.
  lemma FlushOutside(levels: Levels, f: File, level: nat, c: Running)
    requires |levels| == NUM_LEVELS && f.Valid() && FlushTo(levels, f, level) && level > c.level
    requires InputsClosed(levels, c)
    ensures f.largest.user < c.start || c.limit < f.smallest.user
    ensures Aside(f, c.Inputs())
  {
    forall g | g in c.Inputs() ensures !Overlaps(g, f.smallest.user, f.largest.user) {
      assert g in levels[c.level] || g in levels[c.level + 1];
    }
    assert !(c.start <= f.largest.user && f.smallest.user <= c.limit) by {
      if c.start <= f.largest.user && f.smallest.user <= c.limit { MeetsGapless(c.Inputs(), c.start, c.limit, f); }
    }
  }

  // ---- Replacing the inputs by files made of their entries ----

  // An entry is stored once.
  lemma StoredOnce(levels: Levels, nextFile: nat, i: nat, f: File, j: nat, g: File, e: Entry)
    requires Shape(levels, nextFile) && Recency(levels)
    requires i < NUM_LEVELS && j < NUM_LEVELS && f in levels[i] && g in levels[j] && e in f.run && e in g.run
    ensures i == j && f == g
  {
    InRange(f, e);
    InRange(g, e);
    assert i < j ==> Newer(f, g);
    assert j < i ==> Newer(g, f);
    assert i == j == 0 && f.number > g.number ==> Newer(f, g);
    assert i == j == 0 && f.number < g.number ==> Newer(g, f);
  }

  ghost predicate Replaceable(levels: Levels, c: Running, outputs: set<File>)
    requires |levels| == NUM_LEVELS
  {
    && InputsClosed(levels, c)
    && (forall f :: f in outputs ==> f.Valid())
    && Disjoint(outputs)
    && Contents(outputs) <= Contents(c.Inputs())
  }

  // A file beside all the inputs is beside any file made of their entries.
  lemma AsidePieces(g: File, h: File, inputs: set<File>)
    requires Aside(g, inputs) && h.Valid() && h.Entries() <= Contents(inputs)
    requires forall f :: f in inputs ==> f.Valid()
    ensures Precedes(g, h) || Precedes(h, g)
  {
    var first, last := h.run[0], h.run[|h.run| - 1];
    assert first in h.Entries() && last in h.Entries();
    var a :| a in inputs && first in a.run;
    var b :| b in inputs && last in b.run;
    InRange(a, first);
    InRange(b, last);
  }

  // The numbers of replacing files are fresh, or those of the input files themselves.
  ghost predicate NumbersFree(levels: Levels, c: Running, outputs: set<File>, high: nat) {
    && (forall f :: f in outputs ==> f.number < high)
    && (forall f, g :: f in outputs && g in outputs && f.number == g.number ==> f == g)
    && (forall i, f, g :: 0 <= i < |levels| && f in outputs && g in levels[i] && f.number == g.number ==>
         i == c.level && g in c.upper)
  }

  lemma ReplaceDisjoint(levels: Levels, c: Running, outputs: set<File>)
    requires |levels| == NUM_LEVELS && Replaceable(levels, c, outputs) && Disjoint(levels[c.level + 1])
    requires forall f :: f in c.Inputs() ==> f.Valid()
    ensures Disjoint(levels[c.level + 1] - c.lower + outputs)
  {
    forall g, h | g in levels[c.level + 1] - c.lower && h in outputs ensures Precedes(g, h) || Precedes(h, g) {
      forall e | e in h.run ensures e in Contents(c.Inputs()) { assert e in Contents(outputs); }
      AsidePieces(g, h, c.Inputs());
    }
  }

  lemma ReplaceNumbers(levels: Levels, c: Running, outputs: set<File>, high: nat)
    requires c.level + 1 < |levels| && NumbersDistinct(levels) && NumbersFree(levels, c, outputs, high)
    ensures NumbersDistinct(Replace(levels, c.level, c.upper, c.lower, outputs))
  {
    var after := Replace(levels, c.level, c.upper, c.lower, outputs);
    forall i, j, f: File, g: File |
      0 <= i < |levels| && 0 <= j < |levels| && f in after[i] && g in after[j] && f.number == g.number
      ensures i == j && f == g
    {
      assert f in levels[i] || (f in outputs && i == c.level + 1);
      assert g in levels[j] || (g in outputs && j == c.level + 1);
    }
  }

  lemma FreeBelow(levels: Levels, c: Running, outputs: set<File>, high: nat)
    requires NumbersFree(levels, c, outputs, high)
    ensures forall f :: f in outputs ==> f.number < high
  {
  }

  lemma ReplaceShape(levels: Levels, nextFile: nat, c: Running, outputs: set<File>, high: nat)
    requires Shape(levels, nextFile) && Replaceable(levels, c, outputs)
    requires nextFile <= high && NumbersFree(levels, c, outputs, high)
    ensures Shape(Replace(levels, c.level, c.upper, c.lower, outputs), high)
  {
    hide Newer, Aside, NoGap, Precedes, NumbersFree, NumbersDistinct;
    var after := Replace(levels, c.level, c.upper, c.lower, outputs);
    ReplaceDisjoint(levels, c, outputs);
    ReplaceNumbers(levels, c, outputs, high);
    assert forall f :: f in outputs ==> f.number < high by { FreeBelow(levels, c, outputs, high); }
    forall i | 1 <= i < NUM_LEVELS ensures Disjoint(after[i]) {
      if i != c.level + 1 { assert after[i] <= levels[i]; }
    }
  }

  lemma NewerThanPieces(g: File, h: File, inputs: set<File>)
    requires h.Entries() <= Contents(inputs)
    ensures (forall f :: f in inputs ==> Newer(g, f)) ==> Newer(g, h)
    ensures (forall f :: f in inputs ==> Newer(f, g)) ==> Newer(h, g)
  {
    forall e | e in h.run ensures e in Contents(inputs) { assert e in h.Entries(); }
  }

  lemma ReplaceRecency(levels: Levels, c: Running, outputs: set<File>)
    requires |levels| == NUM_LEVELS && Recency(levels) && Replaceable(levels, c, outputs)
    ensures Recency(Replace(levels, c.level, c.upper, c.lower, outputs))
  {
    var after := Replace(levels, c.level, c.upper, c.lower, outputs);
    forall h, e | h in outputs && e in h.run ensures e in Contents(c.Inputs()) { assert e in Contents(outputs); }
    forall i, g, h | 0 <= i <= c.level && g in after[i] && h in outputs ensures Newer(g, h) {
      NewerThanPieces(g, h, c.Inputs());
    }
    forall j, g, h | c.level + 1 < j < NUM_LEVELS && g in after[j] && h in outputs ensures Newer(h, g) {
      NewerThanPieces(g, h, c.Inputs());
    }
    forall i, j, g, h | 0 <= i < j < NUM_LEVELS && g in after[i] && h in after[j] ensures Newer(g, h) {
      assert g in levels[i] || (g in outputs && i == c.level + 1);
      assert h in levels[j] || (h in outputs && j == c.level + 1);
    }
  }

  // A stored entry is among the inputs' entries exactly when it is stored in an input file.
  lemma InputsApart(levels: Levels, nextFile: nat, c: Running, i: nat, g: File, e: Entry)
    requires Shape(levels, nextFile) && Recency(levels) && InputsClosed(levels, c)
    requires i < NUM_LEVELS && g in levels[i] && e in g.run
    ensures e in Contents(c.Inputs()) <==> (i == c.level && g in c.upper) || (i == c.level + 1 && g in c.lower)
  {
    if f :| f in c.Inputs() && e in f.run {
      StoredOnce(levels, nextFile, if f in c.upper then c.level else c.level + 1, f, i, g, e);
    }
  }

  lemma ReplaceStored(levels: Levels, nextFile: nat, c: Running, outputs: set<File>)
    requires |levels| == NUM_LEVELS
    requires Shape(levels, nextFile) && Recency(levels) && InputsClosed(levels, c)
    ensures Stored(Replace(levels, c.level, c.upper, c.lower, outputs))
            == (Stored(levels) - Contents(c.Inputs())) + Contents(outputs)
  {
    hide Shape, Recency;
    var after := Replace(levels, c.level, c.upper, c.lower, outputs);
    forall e | e in Stored(levels) && e !in Contents(c.Inputs()) ensures e in Stored(after) {
      var i: nat, g: File :| 0 <= i < NUM_LEVELS && g in levels[i] && e in g.run;
      InputsApart(levels, nextFile, c, i, g, e);
      assert g in after[i];
    }
    forall e | e in Contents(outputs) ensures e in Stored(after) {
      var f :| f in outputs && e in f.run;
      assert f in after[c.level + 1];
    }
    forall e | e in Stored(after) && e !in Contents(outputs) ensures e in Stored(levels) - Contents(c.Inputs()) {
      var i: nat, g: File :| 0 <= i < NUM_LEVELS && g in after[i] && e in g.run;
      assert g !in outputs && g in levels[i];
      InputsApart(levels, nextFile, c, i, g, e);
    }
  }

  lemma InputsStored(levels: Levels, c: Running)
    requires |levels| == NUM_LEVELS && InputsClosed(levels, c)
    ensures Contents(c.Inputs()) <= Stored(levels)
  {
    forall e | e in Contents(c.Inputs()) ensures e in Stored(levels) {
      var f :| f in c.Inputs() && e in f.run;
      assert f in levels[if f in c.upper then c.level else c.level + 1];
    }
  }

  lemma InstallTree(s: State, t: State, outputs: set<File>)
    requires Inv(s) && Install(s, t, outputs)
    ensures var c := s.running.value;
            Tree(t) == Survivors(Tree(s), Contents(c.Inputs()), c.Base(), c.smallestSnapshot)
  {
    var c := s.running.value;
    ReplaceStored(s.levels, s.nextFile, c, outputs);
    InputsStored(s.levels, c);
  }

  // ---- When a compaction is right ----

  ghost predicate KeepsReads(s: State)
    requires s.running.Some?
  {
    var c := s.running.value;
    forall user: UserKey :: !Resurrects(Tree(s), Contents(c.Inputs()), c.Base(), c.smallestSnapshot, user)
  }

  lemma LoggedUnambiguous(s: State)
    requires Logged(s)
    ensures Unambiguous(Tree(s))
  {
  }

  // Everything but the reads survives the replacement of files by others holding no new entry.
  lemma KeptButReads(s: State, t: State)
    requires Inv(s) && Shape(t.levels, t.nextFile) && Recency(t.levels) && Stored(t.levels) <= Stored(s.levels)
    requires t.running.None? && s.floor <= t.floor <= t.last && forall x :: x in t.snapshots ==> t.floor <= x
    requires t == s.(levels := t.levels, running := None, nextFile := t.nextFile, floor := t.floor)
    ensures Inv(t) <==> Complete(t)
  {
    assert Tree(t) <= Tree(s);
  }

  lemma OutputsFree(levels: Levels, nextFile: nat, c: Running, outputs: set<File>, high: nat)
    requires Shape(levels, nextFile) && NumbersHeld(levels, nextFile, c.numbers) && nextFile <= high
    requires FreshNumbers(outputs, c.numbers, nextFile, high)
    ensures NumbersFree(levels, c, outputs, high)
  {
    hide Disjoint, NumbersDistinct;
    forall i, f, g | 0 <= i < |levels| && f in outputs && g in levels[i] ensures f.number != g.number {
      assert f.number in c.numbers ==> Unused(levels, f.number);
    }
  }

  lemma InstallStructure(s: State, t: State, outputs: set<File>)
    requires Inv(s) && Install(s, t, outputs)
    ensures Shape(t.levels, t.nextFile) && Recency(t.levels) && Stored(t.levels) <= Stored(s.levels)
  {
    hide Recency, BaseStands, ReadsAgree, Disjoint, NumbersFree, FreshNumbers, NumbersHeld, InputsClosed,
         NumbersDistinct;
    var c := s.running.value;
    OutputsFree(s.levels, s.nextFile, c, outputs, t.nextFile);
    ReplaceShape(s.levels, s.nextFile, c, outputs, t.nextFile);
    ReplaceRecency(s.levels, c, outputs);
    ReplaceStored(s.levels, s.nextFile, c, outputs);
    InputsStored(s.levels, c);
  }

  // Installing a compaction keeps the invariant, reads included, exactly when it resurrects nothing.
  lemma InstallExact(s: State, t: State, outputs: set<File>)
    requires Inv(s) && Install(s, t, outputs)
    ensures Inv(t) <==> KeepsReads(s)
  {
    var c := s.running.value;
    InstallStructure(s, t, outputs);
    KeptButReads(s, t);
    InstallTree(s, t, outputs);
    InputsStored(s.levels, c);
    LoggedUnambiguous(s);
    forall user ensures SameReadsFrom(History(s.log), Tree(s), user, c.smallestSnapshot) {
      assert SameReadsFrom(History(s.log), Tree(s), user, s.floor);
    }
    CompactionKeepsHistory(History(s.log), Tree(s), Contents(c.Inputs()), c.Base(), c.smallestSnapshot);
  }

  lemma TrivialMoveStructure(levels: Levels, nextFile: nat, c: Running, f: File)
    requires Shape(levels, nextFile) && Recency(levels) && InputsClosed(levels, c) && c.lower == {} && c.upper == {f}
    ensures var after := Replace(levels, c.level, c.upper, {}, {f});
            Shape(after, nextFile) && Recency(after) && Stored(after) == Stored(levels)
  {
    hide Recency, Newer, NoGap, Aside, Precedes;
    assert c.Inputs() == {f} && f in levels[c.level];
    assert NumbersFree(levels, c, {f}, nextFile);
    ReplaceShape(levels, nextFile, c, {f}, nextFile);
    ReplaceRecency(levels, c, {f});
    ReplaceStored(levels, nextFile, c, {f});
    InputsStored(levels, c);
  }

  lemma TrivialMoveInv(s: State, t: State, c: Running)
    requires Inv(s) && TrivialMove(s, t, c)
    ensures Inv(t)
  {
    var f :| f in c.upper;
    Singleton(c.upper, f);
    TrivialMoveStructure(s.levels, s.nextFile, c, f);
    KeptButReads(s, t);
    assert Tree(t) == Tree(s);
  }

  lemma Singleton(files: set<File>, f: File)
    requires |files| == 1 && f in files
    ensures files == {f}
  {
    assert |files - {f}| == 0;
  }

  lemma FlushEmptyInv(s: State, t: State)
    requires Inv(s) && FlushEmpty(s, t)
    ensures Inv(t)
  {
    assert Tree(t) == Tree(s);
  }

  // ---- The boundary files the choice of inputs leaves behind ----

  // A file left at the output level that starts with the user key an input at that level ends with.
  ghost predicate BoundaryLeft(levels: Levels, c: Running)
    requires c.level + 1 < |levels|
  {
    exists f, g ::
      f in c.lower && g in levels[c.level + 1] - c.lower && Precedes(f, g) && f.largest.user == g.smallest.user
  }

  // A file left outside the inputs that holds an older entry of an obsolete marker's key follows, at
  // the output level, an input file ending with that key.
  lemma LeftoverFile(levels: Levels, c: Running, i: nat, f: File, marker: Entry, j: nat, g: File, stale: Entry)
    requires |levels| == NUM_LEVELS && Recency(levels) && InputsClosed(levels, c) && BaseStands(levels, c)
    requires f.Valid() && g.Valid() && marker in f.run && stale in g.run && c.IsBase(marker.key.user)
    requires (i == c.level && f in c.upper) || (i == c.level + 1 && f in c.lower)
    requires j < NUM_LEVELS && g in levels[j] && g !in c.Inputs()
    requires stale.key.user == marker.key.user && stale.key.sn < marker.key.sn
    ensures BoundaryLeft(levels, c)
  {
    InRange(f, marker);
    InRange(g, stale);
    assert g.Spans(marker.key.user) && f in c.Inputs();
    assert j < i ==> Newer(g, f);
    assert j == i == c.level ==> Newer(g, f);
    assert j == c.level + 1;
    assert Overlaps(g, f.smallest.user, f.largest.user);
    assert Aside(g, c.Inputs());
    assert f in c.lower && Precedes(f, g) && f.largest.user == g.smallest.user;
  }

  lemma LeftoverAtBoundary(levels: Levels, nextFile: nat, c: Running, marker: Entry, stale: Entry)
    requires |levels| == NUM_LEVELS && Recency(levels) && InputsClosed(levels, c) && BaseStands(levels, c)
    requires Shape(levels, nextFile)
    requires marker in Contents(c.Inputs()) && c.IsBase(marker.key.user)
    requires stale in Stored(levels) - Contents(c.Inputs())
    requires stale.key.user == marker.key.user && stale.key.sn < marker.key.sn
    ensures BoundaryLeft(levels, c)
  {
    var f :| f in c.Inputs() && marker in f.run;
    var j: nat, g: File :| 0 <= j < NUM_LEVELS && g in levels[j] && stale in g.run;
    assert g !in c.Inputs();
    if f in c.upper {
      LeftoverFile(levels, c, c.level, f, marker, j, g, stale);
    } else {
      LeftoverFile(levels, c, c.level + 1, f, marker, j, g, stale);
    }
  }

  lemma ResurrectsAtBoundary(above: set<Entry>, levels: Levels, nextFile: nat, c: Running, user: UserKey)
    requires |levels| == NUM_LEVELS && Shape(levels, nextFile) && Recency(levels)
    requires InputsClosed(levels, c) && BaseStands(levels, c) && AllNewer(above, Stored(levels))
    requires Resurrects(above + Stored(levels), Contents(c.Inputs()), c.Base(), c.smallestSnapshot, user)
    ensures BoundaryLeft(levels, c)
  {
    hide Shape, Recency, BaseStands, InputsClosed, BoundaryLeft;
    var inputs := Contents(c.Inputs());
    var tree := above + Stored(levels);
    var marker, stale :|
      && IsNewest(tree, user, c.smallestSnapshot, marker)
      && marker in inputs && Obsolete(c.Base(), c.smallestSnapshot, marker)
      && marker.key.sn > 0 && IsNewest(tree - inputs, user, marker.key.sn - 1, stale)
      && stale.key.typ.Put?;
    InputsStored(levels, c);
    assert stale in Stored(levels);
    LeftoverAtBoundary(levels, nextFile, c, marker, stale);
  }

  // With no boundary file left behind, a compaction keeps every read.
  lemma NoBoundaryKeepsReads(s: State)
    requires Inv(s) && s.running.Some? && !BoundaryLeft(s.levels, s.running.value)
    ensures KeepsReads(s)
  {
    hide Recency, BaseStands, InputsClosed, ReadsAgree, BoundaryLeft, Resurrects, Stored;
    var c := s.running.value;
    assert AllNewer(s.mem + Sealed(s), Stored(s.levels));
    forall user ensures !Resurrects(Tree(s), Contents(c.Inputs()), c.Base(), c.smallestSnapshot, user) {
      if Resurrects(Tree(s), Contents(c.Inputs()), c.Base(), c.smallestSnapshot, user) {
        ResurrectsAtBoundary(s.mem + Sealed(s), s.levels, s.nextFile, c, user);
      }
    }
  }

  // A memtable flushed while the compaction runs leaves no boundary file.
  lemma FlushKeepsBoundary(levels: Levels, f: File, level: nat, c: Running)
    requires |levels| == NUM_LEVELS && f.Valid() && FlushTo(levels, f, level) && InputsClosed(levels, c)
    requires f !in c.Inputs() && forall g :: g in c.lower ==> g.Valid()
    ensures BoundaryLeft(Added(levels, level, f), c) <==> BoundaryLeft(levels, c)
  {
    if level == c.level + 1 {
      FlushOutside(levels, f, level, c);
      forall g | g in c.lower ensures g.largest.user != f.smallest.user {
        InRange(f, f.run[0]);
        InRange(g, g.run[0]);
      }
    }
  }

  // ---- Runs ----

  // A compaction is installed that brings an overwritten value back.
  ghost predicate BadInstall(s: State, t: State) {
    |s.levels| == NUM_LEVELS && (exists outputs :: Install(s, t, outputs)) && !KeepsReads(s)
  }

  ghost predicate Next(s: State, t: State) {
    && |s.levels| == NUM_LEVELS
    && (|| (exists e :: Insert(s, t, e))
        || Publish(s, t)
        || SwitchMemTable(s, t)
        || (exists f, level :: Flush(s, t, f, level))
        || FlushEmpty(s, t)
        || (exists c :: Begin(s, t, c))
        || OpenOutput(s, t)
        || TakeNumber(s, t)
        || Waste(s, t)
        || (exists outputs :: Install(s, t, outputs))
        || (exists c :: TrivialMove(s, t, c))
        || TakeSnapshot(s, t)
        || (exists x :: ReleaseSnapshot(s, t, x)))
  }

  // One step keeps the invariant exactly when it is not such an installation.
  lemma StepExact(s: State, t: State)
    requires Inv(s) && Next(s, t)
    ensures Inv(t) <==> !BadInstall(s, t)
  {
    if outputs :| Install(s, t, outputs) {
      InstallExact(s, t, outputs);
    } else if e :| Insert(s, t, e) {
      InsertInv(s, t, e);
    } else if Publish(s, t) {
      PublishInv(s, t);
    } else if SwitchMemTable(s, t) {
      SwitchInv(s, t);
    } else if f, level :| Flush(s, t, f, level) {
      FlushInv(s, t, f, level);
    } else if FlushEmpty(s, t) {
      FlushEmptyInv(s, t);
    } else if c :| Begin(s, t, c) {
      BeginInv(s, t, c);
    } else if OpenOutput(s, t) {
      OpenOutputInv(s, t);
    } else if TakeNumber(s, t) {
      TakeNumberInv(s, t);
    } else if Waste(s, t) {
      WasteInv(s, t);
    } else if c :| TrivialMove(s, t, c) {
      TrivialMoveInv(s, t, c);
    } else if TakeSnapshot(s, t) {
      TakeSnapshotInv(s, t);
    } else {
      var x :| ReleaseSnapshot(s, t, x);
      ReleaseSnapshotInv(s, t, x);
    }
  }

  ghost predicate IsRun(run: seq<State>) {
    run != [] && run[0] == Initial() && forall i :: 0 <= i < |run| - 1 ==> Next(run[i], run[i + 1])
  }

  // No compaction is begun that leaves a boundary file behind.
  ghost predicate NoBoundary(run: seq<State>, n: nat)
    requires IsRun(run) && n < |run|
  {
    forall i, c :: 0 <= i < n && Begin(run[i], run[i + 1], c) ==> !BoundaryLeft(run[i].levels, c)
  }

  ghost predicate Sound(s: State) {
    Inv(s) && (s.running.Some? ==> !BoundaryLeft(s.levels, s.running.value))
  }

  // A step that begins no compaction with a boundary file left behind keeps all this, and is no
  // installation that brings a value back.
  lemma SoundStep(s: State, t: State)
    requires Sound(s) && Next(s, t) && forall c :: Begin(s, t, c) ==> !BoundaryLeft(s.levels, c)
    ensures Sound(t) && !BadInstall(s, t)
  {
    hide Shape, Recency, InputsClosed, BaseStands, ReadsAgree, BoundaryLeft, KeepsReads, NumbersHeld;
    if s.running.Some? { NoBoundaryKeepsReads(s); }
    StepExact(s, t);
    if f, level :| Flush(s, t, f, level) {
      if s.running.Some? {
        FlushedIsNew(s.levels, s.nextFile, f, s.running.value);
        LowerValid(s.levels, s.nextFile, s.running.value);
        FlushKeepsBoundary(s.levels, f, level, s.running.value);
      }
    } else if OpenOutput(s, t) {
      SameBoundary(s.levels, s.running.value, t.running.value);
    }
  }

  lemma LowerValid(levels: Levels, nextFile: nat, c: Running)
    requires Shape(levels, nextFile) && InputsClosed(levels, c)
    ensures forall g :: g in c.lower ==> g.Valid()
  {
  }

  lemma SameBoundary(levels: Levels, c: Running, d: Running)
    requires |levels| == NUM_LEVELS && InputsClosed(levels, c) && d.level == c.level && d.lower == c.lower
    ensures c.level + 1 < |levels|
    ensures BoundaryLeft(levels, c) <==> BoundaryLeft(levels, d)
  {
  }

  // So no run on which no compaction is begun with a boundary file left behind is ever wrong.
  lemma {:induction false} RunSound(run: seq<State>, n: nat)
    requires IsRun(run) && n < |run| && NoBoundary(run, n)
    ensures Sound(run[n]) && forall i :: 0 <= i < n ==> !BadInstall(run[i], run[i + 1])
  {
    if n == 0 {
      InitialInv();
    } else {
      RunSound(run, n - 1);
      assert Next(run[n - 1], run[n]);
      SoundStep(run[n - 1], run[n]);
    }
  }

  // ---- The specification: a map that remembers its past ----

  // The store after the first n operations.
  function MapAt(log: seq<Option<Entry>>, n: nat): map<UserKey, Value>
    requires n <= |log|
  {
    if n == 0 then map[]
    else
      var m := MapAt(log, n - 1);
      match log[n - 1]
      case None => m
      case Some(e) => if e.key.typ.Put? then m[e.key.user := e.value] else m - {e.key.user}
  }

  lemma {:induction false} HistoryIsMap(log: seq<Option<Entry>>, n: nat, user: UserKey, v: Value)
    requires n <= |log| && Numbered(log)
    ensures Finds(History(log), user, n, v) <==> user in MapAt(log, n) && MapAt(log, n)[user] == v
  {
    var h := History(log);
    if n == 0 {
    } else {
      HistoryIsMap(log, n - 1, user, v);
      var o := log[n - 1];
      assert o.Some? ==> o.value in h;
      assert forall f :: f in h && f.key.sn == n ==> o == Some(f);
      if o.Some? && o.value.key.user == user {
        assert forall f :: IsNewest(h, user, n, f) <==> f == o.value;
      } else {
        assert forall f :: IsNewest(h, user, n, f) <==> IsNewest(h, user, n - 1, f);
      }
    }
  }

  // A sequence number a reader may hold: a snapshot's or the last one.
  predicate Live(s: State, sn: nat) { sn in s.snapshots || sn == s.last }

  lemma LiveReads(s: State, user: UserKey, sn: nat, v: Value)
    requires Inv(s) && Live(s, sn)
    ensures sn <= |s.log|
    ensures Finds(Tree(s), user, sn, v) <==> user in MapAt(s.log, sn) && MapAt(s.log, sn)[user] == v
  {
    hide Shape, Recency, InputsClosed, BaseStands, MapAt;
    assert SameReadsFrom(History(s.log), Tree(s), user, s.floor);
    assert SameReads(History(s.log), Tree(s), user, sn);
    HistoryIsMap(s.log, sn, user, v);
  }

  // Every read of every reachable state answers as the map of the operations up to the reader's
  // sequence number does.
  lemma RunsReadTheMap(run: seq<State>, n: nat, user: UserKey, sn: nat, v: Value)
    requires IsRun(run) && n < |run| && Live(run[n], sn) && NoBoundary(run, n)
    ensures sn <= |run[n].log|
    ensures Finds(Tree(run[n]), user, sn, v) <==> user in MapAt(run[n].log, sn) && MapAt(run[n].log, sn)[user] == v
  {
    RunSound(run, n);
    LiveReads(run[n], user, sn, v);
  }

  // A bad installation makes a deleted key readable at the sequence number it had to keep.
  lemma BadInstallRevives(s: State, t: State)
    requires Inv(s) && BadInstall(s, t)
    ensures exists user, v ::
              var sn := s.running.value.smallestSnapshot;
              user !in MapAt(s.log, sn) && Finds(Tree(t), user, sn, v)
  {
    var c := s.running.value;
    var inputs := Contents(c.Inputs());
    var outputs :| Install(s, t, outputs);
    InstallTree(s, t, outputs);
    InputsStored(s.levels, c);
    LoggedUnambiguous(s);
    var user :| Resurrects(Tree(s), inputs, c.Base(), c.smallestSnapshot, user);
    ResurrectsRevives(Tree(s), inputs, c.Base(), c.smallestSnapshot, user);
    NotInMap(s, user, c.smallestSnapshot);
  }

  lemma NotInMap(s: State, user: UserKey, sn: nat)
    requires Logged(s) && Complete(s) && s.floor <= sn <= |s.log|
    requires forall v :: !Finds(Tree(s), user, sn, v)
    ensures user !in MapAt(s.log, sn)
  {
    assert SameReadsFrom(History(s.log), Tree(s), user, s.floor);
    assert SameReads(History(s.log), Tree(s), user, sn);
    if user in MapAt(s.log, sn) {
      HistoryIsMap(s.log, sn, user, MapAt(s.log, sn)[user]);
    }
  }

  lemma {:induction false} LogGrows(run: seq<State>, n: nat, m: nat)
    requires IsRun(run) && n <= m < |run|
    ensures run[n].log <= run[m].log
    decreases m - n
  {
    if n < m {
      LogGrows(run, n + 1, m);
      assert Next(run[n], run[n + 1]);
    }
  }

  lemma {:induction false} MapOfPrefix(log: seq<Option<Entry>>, longer: seq<Option<Entry>>, n: nat)
    requires n <= |log| && log <= longer
    ensures MapAt(longer, n) == MapAt(log, n)
  {
    if n == 0 {
    } else {
      MapOfPrefix(log, longer, n - 1);
    }
  }

  // A reader that took its memtables and version in state n may look into them at any later time:
  // whatever was added to its memtable meanwhile, it sees the map of its own moment.
  lemma ReadersKeepTheirMoment(run: seq<State>, n: nat, m: nat, added: set<Entry>, user: UserKey, sn: nat, v: Value)
    requires IsRun(run) && n <= m < |run| && Live(run[n], sn) && NoBoundary(run, n)
    requires forall e :: e in added ==> e.key.sn > |run[n].log|
    ensures sn <= |run[m].log|
    ensures Finds(Tree(run[n]) + added, user, sn, v) <==>
      user in MapAt(run[m].log, sn) && MapAt(run[m].log, sn)[user] == v
  {
    RunSound(run, n);
    LogGrows(run, n, m);
    MapOfPrefix(run[n].log, run[m].log, sn);
    RunsReadTheMap(run, n, user, sn, v);
    SameNewest(Tree(run[n]), Tree(run[n]) + added, user, sn);
  }
}
