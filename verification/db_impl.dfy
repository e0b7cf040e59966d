// The database object (db/db_impl.cc): each operation takes the steps of the state machine.

module DbImpl {
  import opened Wrappers
  import opened DbFormat
  import opened Files
  import opened CompactionRule
  import opened LsmTree
  import opened Version
  import opened InputSelection
  import CompactionWork
  import VersionBuilder

  datatype Op = PutOp(user: UserKey, value: Value) | DeleteOp(user: UserKey)

  function EntryOf(op: Op, sn: SequenceNumber): Entry {
    match op
    case PutOp(u, v) => Entry(Key(u, sn, Put), v)
    case DeleteOp(u) => Entry(Key(u, sn, Deletion), "")
  }

  // The memtable's skip list, as the sorted sequence of its entries.
  function MemTableAdd(run: seq<Entry>, e: Entry): (r: seq<Entry>)
    ensures Elements(r) == Elements(run) + {e}
  {
    if run == [] || Less(e.key, run[0].key) then
      assert Elements([e] + run) == Elements(run) + {e};
      [e] + run
    else
      var r := MemTableAdd(run[1..], e);
      assert run == [run[0]] + run[1..];
      assert Elements([run[0]] + r) == {run[0]} + Elements(r) && Elements(run) == {run[0]} + Elements(run[1..]);
      [run[0]] + r
  }

  lemma {:induction false} MemTableSorted(run: seq<Entry>, e: Entry)
    requires Sorted(run) && forall d :: d in run ==> d.key.sn < e.key.sn
    ensures Sorted(MemTableAdd(run, e))
  {
    if run != [] && !Less(e.key, run[0].key) {
      MemTableSorted(run[1..], e);
      var r := MemTableAdd(run[1..], e);
      forall i | 0 <= i < |r| ensures Less(run[0].key, r[i].key) {
        assert r[i] in Elements(r);
        if r[i] != e { var j :| 1 <= j < |run| && run[j] == r[i]; }
      }
    }
  }

  // A compaction between its choice and its installation.
  datatype Job = Job(level: nat, inputs0: seq<File>, inputs1: seq<File>, version: seq<seq<File>>,
                     start: UserKey, limit: UserKey, smallestSnapshot: SequenceNumber, numbers: seq<nat>)
  {
    function Abs(): Running {
      Running(level, FileSet(inputs0), FileSet(inputs1), Sets(version), start, limit, smallestSnapshot,
        set n | n in numbers)
    }
  }

  // The numbers of n output files: those taken while the compaction was at work, then new ones.
  function OutputNumbers(taken: seq<nat>, next: nat, n: nat): (r: seq<nat>)
    ensures |r| == n
  {
    seq(n, i requires i >= 0 => if i < |taken| then taken[i] else next + i - |taken|)
  }

  ghost predicate NumbersDiffer(numbers: seq<nat>) {
    forall i, j :: 0 <= i < j < |numbers| ==> numbers[i] != numbers[j]
  }

  ghost predicate OrderedLevels(levels: seq<seq<File>>) {
    ValidLevels(levels) && forall i :: 0 <= i < NUM_LEVELS ==> VersionBuilder.Ordered(levels[i])
  }

  class Db {
    var mem: seq<Entry>
    var imm: Option<seq<Entry>>
    var levels: seq<seq<File>>
    var snapshots: seq<SequenceNumber>
    var lastSequence: SequenceNumber
    var nextFileNumber: nat
    var job: Option<Job>
    // Every operation ever numbered, and the oldest sequence number still promised to readers.
    ghost var log: seq<Option<Entry>>
    ghost var floor: nat

    constructor ()
      ensures Valid() && Abs() == Initial()
    {
      mem, imm, levels, snapshots := [], None, seq(NUM_LEVELS, _ => []), [];
      lastSequence, nextFileNumber, job, log, floor := 0, 2, None, [], 0;
      new;
      assert forall i :: 0 <= i < NUM_LEVELS ==> Sets(levels)[i] == Initial().levels[i];
      assert Sets(levels) == Initial().levels;
      assert multiset(snapshots) == multiset{} && Elements(mem) == {};
      InitialInv();
    }

    ghost function Abs(): State
      reads this
    {
      State(Elements(mem), if imm.Some? then Some(Elements(imm.value)) else None, Sets(levels), multiset(snapshots),
            lastSequence, nextFileNumber, if job.Some? then Some(job.value.Abs()) else None, log, floor)
    }

    ghost predicate Vectors()
      reads this
    {
      && OrderedLevels(levels) && Sorted(mem) && (imm.Some? ==> Sorted(imm.value))
      && (forall i, j :: 0 <= i < j < |snapshots| ==> snapshots[i] <= snapshots[j])
      && (job.Some? ==>
            && ValidLevels(job.value.version) && Distinct(job.value.inputs0) && Distinct(job.value.inputs1)
            && NumbersDiffer(job.value.numbers))
    }

    ghost predicate Valid()
      reads this
    {
      Vectors() && Inv(Abs())
    }

    // DBImpl::Get: the memtable, then the immutable one, then the version.
    method Get(user: UserKey, snapshot: Option<SequenceNumber>) returns (r: Option<Value>)
      requires Valid() && (snapshot.Some? ==> snapshot.value in snapshots)
      ensures var sn := if snapshot.Some? then snapshot.value else lastSequence;
              sn <= |log| && r == (if user in MapAt(log, sn) then Some(MapAt(log, sn)[user]) else None)
    {
      var sn := if snapshot.Some? then snapshot.value else lastSequence;
      ghost var s := Abs();
      var target := SeekKey(user, sn);
      SearchRun(mem, user, sn);
      var o := Saved(TableGet(mem, target), user);
      if o != NotHere {
        r := if o.Found? then Some(o.value) else None;
        HitDecides(s, {}, s.mem, Sealed(s) + Stored(s.levels), user, sn, o);
      } else {
        if imm.Some? {
          SearchRun(imm.value, user, sn);
          o := Saved(TableGet(imm.value, target), user);
        }
        if o != NotHere {
          r := if o.Found? then Some(o.value) else None;
          HitDecides(s, s.mem, Sealed(s), Stored(s.levels), user, sn, o);
        } else {
          StoredUnambiguous(s);
          r := Version.Get(levels, user, sn);
          NotAbove(s.mem + Sealed(s), Stored(s.levels), user, sn);
        }
      }
      ReadIsMap(s, user, sn, r);
    }

    // Write, once at the head of the queue: the group's entries enter the memtable one by one, and
    // become visible together.
    method Write(updates: seq<Op>)
      requires Valid() && |log| == lastSequence && lastSequence + |updates| + 1 < MAX_SEQUENCE
      modifies this
      ensures Valid() && log == old(log) + Recorded(Entries(updates, old(lastSequence))) && lastSequence == |log|
      ensures imm == old(imm) && levels == old(levels) && snapshots == old(snapshots) && job == old(job)
      ensures Elements(mem) == old(Elements(mem)) + Elements(Entries(updates, old(lastSequence)))
    {
      hide Inv, OrderedLevels, Sorted, Insert, Publish;
      for i := 0 to |updates|
        invariant Valid() && log == old(log) + Recorded(Entries(updates[..i], old(lastSequence)))
        invariant lastSequence == old(lastSequence)
        invariant Elements(mem) == old(Elements(mem)) + Elements(Entries(updates[..i], old(lastSequence)))
        invariant imm == old(imm) && levels == old(levels) && snapshots == old(snapshots) && job == old(job)
      {
        assert updates[..i + 1][..i] == updates[..i];
        AddToMemTable(EntryOf(updates[i], lastSequence + 1 + i));
      }
      assert updates[..|updates|] == updates;
      assert |Recorded(Entries(updates, old(lastSequence)))| == |updates|;
      MakeVisible(lastSequence + |updates|);
    }

    // A write whose group is numbered but cannot be logged: nothing is applied, and yet the numbers
    // are used up.
    method FailedWrite(count: nat)
      requires Valid() && |log| == lastSequence && lastSequence + count + 1 < MAX_SEQUENCE
      modifies this
      ensures Valid() && log == old(log) + Failed(count) && lastSequence == |log|
      ensures mem == old(mem) && imm == old(imm) && levels == old(levels) && snapshots == old(snapshots)
      ensures job == old(job)
    {
      hide Inv, OrderedLevels, Sorted, Publish;
      for i := 0 to count
        invariant Valid() && log == old(log) + Failed(i) && lastSequence == old(lastSequence)
        invariant mem == old(mem) && imm == old(imm) && levels == old(levels) && snapshots == old(snapshots)
        invariant job == old(job)
      {
        ghost var s := Abs();
        log := log + [None];
        WasteInv(s, Abs());
        assert Failed(i) + [None] == Failed(i + 1);
      }
      MakeVisible(lastSequence + count);
    }

    // SetLastSequence.
    method MakeVisible(last: SequenceNumber)
      requires Valid() && last == |log|
      modifies this`lastSequence
      ensures Valid() && Publish(old(Abs()), Abs()) && lastSequence == last
    {
      hide Inv, OrderedLevels, Sorted;
      ghost var s := Abs();
      lastSequence := last;
      PublishInv(s, Abs());
    }

    // MemTableInserter: one entry of the batch.
    method AddToMemTable(e: Entry)
      requires Valid() && e.key.sn == |log| + 1 < MAX_SEQUENCE
      modifies this`mem, this`log
      ensures Valid() && Insert(old(Abs()), Abs(), e)
      ensures log == old(log) + [Some(e)] && Elements(mem) == old(Elements(mem)) + {e}
    {
      ghost var s := Abs();
      forall d | d in mem ensures d.key.sn < e.key.sn { assert d in Tree(s); }
      hide Inv, OrderedLevels;
      MemTableSorted(mem, e);
      mem := MemTableAdd(mem, e);
      log := log + [Some(e)];
      InsertInv(s, Abs(), e);
    }

    // MakeRoomForWrite, when the memtable is full and no older one waits to be written.
    method SwitchMemTables()
      requires Valid() && imm.None? && |log| == lastSequence
      modifies this`mem, this`imm
      ensures Valid() && SwitchMemTable(old(Abs()), Abs())
      ensures imm == Some(old(mem)) && mem == []
    {
      ghost var s := Abs();
      imm := Some(mem);
      mem := [];
      assert Elements(mem) == {};
      hide Inv, OrderedLevels;
      SwitchInv(s, Abs());
    }

    method GetSnapshot() returns (sn: SequenceNumber)
      requires Valid()
      modifies this`snapshots
      ensures Valid() && TakeSnapshot(old(Abs()), Abs())
      ensures sn == lastSequence && snapshots == old(snapshots) + [sn]
    {
      ghost var s := Abs();
      sn := lastSequence;
      assert forall i :: 0 <= i < |snapshots| ==> snapshots[i] in s.snapshots;
      hide Inv, OrderedLevels, Sorted;
      assert multiset(snapshots + [sn]) == multiset(snapshots) + multiset{sn};
      snapshots := snapshots + [sn];
      TakeSnapshotInv(s, Abs());
    }

    // The snapshot to release is named by its place in the list.
    method ReleaseSnapshot(i: nat)
      requires Valid() && i < |snapshots|
      modifies this`snapshots
      ensures Valid() && LsmTree.ReleaseSnapshot(old(Abs()), Abs(), old(snapshots[i]))
      ensures snapshots == old(snapshots[..i] + snapshots[i + 1..])
    {
      hide Inv, OrderedLevels, Sorted;
      ghost var s := Abs();
      RemoveAt(snapshots, i);
      snapshots := snapshots[..i] + snapshots[i + 1..];
      ReleaseSnapshotInv(s, Abs(), old(snapshots[i]));
    }

    // CompactMemTable: the immutable memtable becomes a table file at a level that keeps it newest.
    method CompactMemTable(size: nat, maxFileSize: nat)
      requires Valid() && imm.Some?
      modifies this`imm, this`levels, this`nextFileNumber
      ensures Valid() && imm.None?
      ensures old(imm.value) == [] ==> FlushEmpty(old(Abs()), Abs())
      ensures old(imm.value) != [] ==>
        exists f: File, level :: f.run == old(imm.value) && Flush(old(Abs()), Abs(), f, level)
    {
      ghost var s := Abs();
      var run := imm.value;
      if run == [] {
        imm := None;
        assert Elements(run) == {} && s.imm == Some({});
        hide Inv, OrderedLevels;
        FlushEmptyInv(s, Abs());
        return;
      }
      hide Inv, Sorted, Shape, FlushTo;
      var f, level, v := WriteLevel0Table(run, size, maxFileSize);
      imm, levels, nextFileNumber := None, v, nextFileNumber + 1;
      assert Flush(s, Abs(), f, level);
      FlushInv(s, Abs(), f, level);
      InvLevels(Abs(), levels);
    }

    // WriteLevel0Table and the version edit that adds its file.
    method WriteLevel0Table(run: seq<Entry>, size: nat, maxFileSize: nat)
      returns (f: File, level: nat, v: seq<seq<File>>)
      requires Valid() && run != [] && Sorted(run)
      ensures f.Valid() && f.number == nextFileNumber && f.run == run
      ensures level <= MAX_MEM_COMPACT_LEVEL && FlushTo(Sets(levels), f, level)
      ensures |v| == NUM_LEVELS && Sets(v) == Added(Sets(levels), level, f)
      ensures forall i :: 0 <= i < NUM_LEVELS ==> VersionBuilder.Ordered(v[i])
    {
      f := File(nextFileNumber, size, run[0].key, run[|run| - 1].key, run);
      LevelNumbers(levels, nextFileNumber);
      hide Inv, Sorted, FlushTo, VersionBuilder.Applicable, VersionBuilder.Applied, OverlapsLevel;
      level := PickLevelForMemTableOutput(levels, f.smallest.user, f.largest.user, maxFileSize);
      PickedLevel(levels, f, level);
      var edit := AddOne(level, f);
      AddOneApplicable(levels, nextFileNumber, level, f);
      v := VersionBuilder.LogAndApply(levels, edit);
      AddedToLevel(levels, v, level, f);
    }

    // BackgroundCompaction from a chosen file on: move it down if there is nothing to merge, or else
    // start a compaction.
    method BackgroundCompaction(level: nat, pick: File, maxFileSize: nat)
      requires Valid() && imm.None? && job.None? && level + 1 < NUM_LEVELS && pick in levels[level]
      modifies this`levels, this`job
      ensures Valid()
      ensures exists c: Running ::
        (job.None? && TrivialMove(old(Abs()), Abs(), c)) || (job.Some? && Begin(old(Abs()), Abs(), c))
    {
      hide Inv, InputsClosed, Vectors, TrivialMove, Begin;
      var c, trivial := MakeJob(level, pick, maxFileSize);
      if trivial {
        MoveJob(c);
      } else {
        StartJob(c);
      }
    }

    method StartJob(c: Job)
      requires Valid() && job.None? && c.version == levels && InputsClosed(Sets(levels), c.Abs())
      requires Distinct(c.inputs0) && Distinct(c.inputs1)
      requires c.smallestSnapshot <= lastSequence && forall x :: x in multiset(snapshots) ==> c.smallestSnapshot <= x
      requires (c.smallestSnapshot == lastSequence || c.smallestSnapshot in multiset(snapshots)) && c.numbers == []
      modifies this`job
      ensures Valid() && job == Some(c) && Begin(old(Abs()), Abs(), c.Abs())
    {
      hide Inv, Sorted, InputsClosed, VersionBuilder.Ordered;
      ghost var s := Abs();
      job := Some(c);
      assert Begin(s, Abs(), c.Abs());
      BeginInv(s, Abs(), c.Abs());
    }

    method MoveJob(c: Job)
      requires Valid() && job.None? && c.version == levels && InputsClosed(Sets(levels), c.Abs())
      requires c.level + 1 < NUM_LEVELS && |c.inputs0| == 1 && c.inputs1 == [] && c.inputs0[0] in levels[c.level]
      modifies this`levels
      ensures Valid() && TrivialMove(old(Abs()), Abs(), c.Abs())
    {
      hide Inv, Sorted, InputsClosed, VersionBuilder.Ordered, OrderedLevels;
      ghost var s := Abs();
      var v := MoveDown(c.level, c.inputs0[0]);
      assert FileSet(c.inputs0) == {c.inputs0[0]} && FileSet(c.inputs1) == {};
      levels := v;
      assert TrivialMove(s, Abs(), c.Abs());
      TrivialMoveInv(s, Abs(), c.Abs());
      InvLevels(Abs(), levels);
    }

    lemma LevelsReady()
      requires Valid()
      ensures ValidLevels(levels) && Unambiguous(Stored(Sets(levels)))
    {
      StoredUnambiguous(Abs());
    }

    // What a compaction must keep readable: the oldest snapshot, or the last sequence number.
    method OldestSequence() returns (smallestSnapshot: SequenceNumber)
      requires Valid()
      ensures smallestSnapshot <= lastSequence && forall x :: x in multiset(snapshots) ==> smallestSnapshot <= x
      ensures smallestSnapshot == lastSequence || smallestSnapshot in multiset(snapshots)
    {
      ghost var s := Abs();
      hide Shape, Recency, Complete, Logged, InputsClosed, BaseStands, OrderedLevels, Sorted;
      assert snapshots != [] ==> snapshots[0] in s.snapshots && snapshots[0] <= lastSequence;
      assert forall x :: x in s.snapshots ==> x in snapshots;
      smallestSnapshot := if snapshots == [] then lastSequence else snapshots[0];
    }

    // PickCompaction, IsTrivialMove, and the oldest sequence number to keep.
    method MakeJob(level: nat, pick: File, maxFileSize: nat) returns (c: Job, trivial: bool)
      requires Valid() && level + 1 < NUM_LEVELS && pick in levels[level]
      ensures c.level == level && c.version == levels && InputsClosed(Sets(levels), c.Abs())
      ensures |c.Abs().version| == NUM_LEVELS
      ensures pick in c.inputs0 && forall f :: f in c.inputs0 ==> f in levels[level]
      ensures trivial ==> |c.inputs0| == 1 && c.inputs1 == []
      ensures Distinct(c.inputs0) && Distinct(c.inputs1)
      ensures c.smallestSnapshot <= lastSequence && forall x :: x in multiset(snapshots) ==> c.smallestSnapshot <= x
      ensures (c.smallestSnapshot == lastSequence || c.smallestSnapshot in multiset(snapshots)) && c.numbers == []
    {
      hide Inv, Vectors, InputsClosed, Chosen, LowerOf, Overlapping, ClosedRange, TotalFileSize, SomeSpans,
           ValidLevels, Unambiguous;
      LevelsReady();
      var inputs0, inputs1, allStart, allLimit := PickCompaction(levels, level, pick, maxFileSize);
      var smallestSnapshot := OldestSequence();
      c := Job(level, inputs0, inputs1, levels, allStart.user, allLimit.user, smallestSnapshot, []);
      ChosenClosed(levels, level, inputs0, inputs1, allStart, allLimit, c.Abs());
      var grandparentBytes := 0;
      if level + 2 < NUM_LEVELS {
        var grandparents, lo, hi := GetOverlappingInputs(level + 2, levels[level + 2], allStart.user, allLimit.user);
        grandparentBytes := TotalFileSize(grandparents);
      }
      trivial := |inputs0| == 1 && inputs1 == [] && grandparentBytes <= 10 * maxFileSize;
    }

    // The edit of a trivial move: the file leaves its level and joins the next.
    method MoveDown(level: nat, f: File) returns (v: seq<seq<File>>)
      requires Valid() && level + 1 < NUM_LEVELS && f in levels[level]
      ensures level + 1 < |levels| && Sets(v) == Replace(Sets(levels), level, {f}, {}, {f})
      ensures |levels| == |v| == NUM_LEVELS && forall i :: 0 <= i < NUM_LEVELS ==> VersionBuilder.Ordered(v[i])
    {
      MoveApplicable(levels, nextFileNumber, level, f);
      var edit := Replacement(level, [f], [], [f]);
      v := VersionBuilder.LogAndApply(levels, edit);
      ReplacedLevels(levels, v, level, [f], [], [f]);
      assert FileSet([f]) == {f} && FileSet([]) == {};
    }

    // OpenCompactionOutputFile, in the midst of the work: a memtable flushed later has a higher number.
    method OpenCompactionOutputFile() returns (number: nat)
      requires Valid() && job.Some?
      modifies this`job, this`nextFileNumber
      ensures Valid() && OpenOutput(old(Abs()), Abs()) && number == old(nextFileNumber)
      ensures job == Some(old(job.value).(numbers := old(job.value.numbers) + [number]))
    {
      ghost var s := Abs();
      assert forall n :: n in job.value.numbers ==> n < nextFileNumber by {
        forall n | n in job.value.numbers ensures n < nextFileNumber { assert n in s.running.value.numbers; }
      }
      hide Inv, OrderedLevels, Sorted;
      number := nextFileNumber;
      var numbers := job.value.numbers + [number];
      job := Some(job.value.(numbers := numbers));
      nextFileNumber := nextFileNumber + 1;
      assert Abs().running.value.numbers == s.running.value.numbers + {number};
      OpenOutputInv(s, Abs());
    }

    // DoCompactionWork and InstallCompactionResults: merge the inputs, drop what may go, replace the
    // inputs by the files made of the rest. All is well exactly when no deletion was dropped over an
    // older value left at the output level.
    method DoCompaction(fileSize: nat -> nat) returns (ghost outputs: set<File>)
      requires Valid() && job.Some?
      modifies this`levels, this`job, this`nextFileNumber, this`floor
      ensures Vectors() && Install(old(Abs()), Abs(), outputs)
      ensures Valid() <==> KeepsReads(old(Abs()))
      ensures !BoundaryLeft(old(Sets(levels)), old(job.value.Abs())) ==> Valid()
    {
      hide Inv, Sorted, InputsClosed, VersionBuilder.Ordered, OrderedLevels, Install, KeepsReads, BoundaryLeft,
           OutputsOf, NumbersOk;
      ghost var s := Abs();
      var c := job.value;
      var files := DoCompactionWork(c, fileSize);
      var v := Replaced(c, files);
      outputs := FileSet(files);
      levels, job, nextFileNumber, floor := v, None, nextFileNumber + Beyond(c, files), c.smallestSnapshot;
      TakesInstall(s, Abs(), c, files);
      Installed(s, Abs(), outputs, levels);
      if !BoundaryLeft(s.levels, c.Abs()) { NoBoundaryKeepsReads(s); }
    }

    // The output files: what survives of the merged inputs.
    method DoCompactionWork(c: Job, fileSize: nat -> nat) returns (files: seq<File>)
      requires Valid() && job == Some(c)
      ensures c.level + 1 < |levels| == NUM_LEVELS && OutputsOf(c.Abs(), FileSet(files))
      ensures NumbersOk(c, nextFileNumber, files)
    {
      NumbersFacts(Abs(), c);
      hide Inv, Sorted, InputsClosed, OrderedLevels, CompactionWork.BuiltFrom, CompactionWork.BaseIs, OutputsOf,
           CompactionWork.Kept, CompactionWork.Flatten,
           NumbersOk;
      JobFacts(Abs(), c, levels);
      var input := CompactionWork.MergeFiles(c.inputs0 + c.inputs1);
      var work := new CompactionWork.Compaction(c.level, c.version);
      BaseOfVersion(c);
      var runs := CompactionWork.DoCompactionWork(work, input, c.smallestSnapshot, c.Abs().Base());
      files := BuildOutputs(runs, OutputNumbers(c.numbers, nextFileNumber, |runs|), fileSize);
      OutputsAreSurvivors(c, input, runs, files, OutputNumbers(c.numbers, nextFileNumber, |runs|));
      FilesNumbered(c, runs, files, nextFileNumber);
    }

    method BuildOutputs(runs: seq<seq<Entry>>, numbers: seq<nat>, fileSize: nat -> nat) returns (files: seq<File>)
      requires |numbers| == |runs| && forall i :: 0 <= i < |runs| ==> runs[i] != []
      ensures CompactionWork.BuiltFrom(files, runs, numbers)
    {
      files := [];
      for i := 0 to |runs|
        invariant CompactionWork.BuiltFrom(files, runs[..i], numbers)
      {
        assert runs[..i + 1] == runs[..i] + [runs[i]];
        files := files + [CompactionWork.TableOf(runs[i], numbers[i], fileSize(i))];
      }
      assert runs[..|runs|] == runs;
    }

    // InstallCompactionResults.
    method Replaced(c: Job, files: seq<File>) returns (v: seq<seq<File>>)
      requires Valid() && job == Some(c) && c.level + 1 < |levels| == NUM_LEVELS && NumbersOk(c, nextFileNumber, files)
      ensures Sets(v) == Replace(Sets(levels), c.level, FileSet(c.inputs0), FileSet(c.inputs1), FileSet(files))
      ensures |v| == NUM_LEVELS && forall i :: 0 <= i < NUM_LEVELS ==> VersionBuilder.Ordered(v[i])
    {
      OutputsUnused(Abs(), c, levels, files);
      hide Inv, Sorted, NumbersOk;
      ReplacementApplicable(levels, c.level, c.inputs0, c.inputs1, files);
      InputsPresent(Abs(), c, levels);
      v := VersionBuilder.LogAndApply(levels, Replacement(c.level, c.inputs0, c.inputs1, files));
      ReplacedLevels(levels, v, c.level, c.inputs0, c.inputs1, files);
    }
  }

  // How many of the output files have no number when the work ends.
  function Beyond(c: Job, files: seq<File>): nat { if |files| > |c.numbers| then |files| - |c.numbers| else 0 }

  // Each output file has a number of its own, taken for this compaction.
  ghost predicate NumbersOk(c: Job, next: nat, files: seq<File>) {
    && (forall i, j :: 0 <= i < j < |files| ==> files[i].number != files[j].number)
    && forall f :: f in files ==> f.number in c.numbers || next <= f.number < next + Beyond(c, files)
  }

  lemma NumbersFacts(s: State, c: Job)
    requires Inv(s) && s.running == Some(c.Abs())
    ensures forall n :: n in c.numbers ==> n < s.nextFile
  {
    forall n | n in c.numbers ensures n < s.nextFile { assert n in c.Abs().numbers; }
  }

  lemma FilesNumbered(c: Job, runs: seq<seq<Entry>>, files: seq<File>, next: nat)
    requires CompactionWork.BuiltFrom(files, runs, OutputNumbers(c.numbers, next, |runs|))
    requires NumbersDiffer(c.numbers) && forall n :: n in c.numbers ==> n < next
    ensures NumbersOk(c, next, files)
  {
    var numbers := OutputNumbers(c.numbers, next, |runs|);
    forall i | 0 <= i < |files| ensures files[i].number == numbers[i] {}
    forall i | 0 <= i < |c.numbers| ensures c.numbers[i] < next { assert c.numbers[i] in c.numbers; }
  }

  lemma OutputsUnused(s: State, c: Job, levels: seq<seq<File>>, files: seq<File>)
    requires Inv(s) && s.running == Some(c.Abs()) && s.levels == Sets(levels) && NumbersOk(c, s.nextFile, files)
    ensures forall i, f, g :: 0 <= i < |levels| && f in levels[i] && g in files ==> f.number != g.number
  {
    forall i, f, g | 0 <= i < |levels| && f in levels[i] && g in files ensures f.number != g.number {
      assert f in s.levels[i];
      if g.number in c.numbers { assert g.number in c.Abs().numbers && Unused(s.levels, g.number); }
    }
  }

  // What the invariant says of a compaction at work.
  lemma JobFacts(s: State, c: Job, levels: seq<seq<File>>)
    requires Inv(s) && s.running == Some(c.Abs()) && s.levels == Sets(levels)
    requires Distinct(c.inputs0) && Distinct(c.inputs1)
    ensures c.level + 1 < |levels| == NUM_LEVELS && c.smallestSnapshot < MAX_SEQUENCE
    ensures var input := CompactionWork.MergeFiles(c.inputs0 + c.inputs1);
            && Sorted(input) && Elements(input) == Contents(c.Abs().Inputs()) && Unambiguous(Elements(input))
  {
    hide Shape, Recency, InputsClosed, ReadsAgree, Sorted;
    var files := c.inputs0 + c.inputs1;
    InputsPresent(s, c, levels);
    InputsStored(s.levels, c.Abs());
    LoggedUnambiguous(s);
    assert FileSet(files) == c.Abs().Inputs();
    CompactionWork.MergeFilesElements(files);
    forall i, j | 0 <= i < j < |files| ensures CompactionWork.Apart(files[i].run, files[j].run) {
      ApartInputs(s, c, levels, i, j);
    }
    CompactionWork.MergeFilesSorted(files);
  }

  lemma InputsPresent(s: State, c: Job, levels: seq<seq<File>>)
    requires Inv(s) && s.running == Some(c.Abs()) && s.levels == Sets(levels)
    ensures c.level + 1 < |levels| == NUM_LEVELS && NumbersDistinct(Sets(levels))
    ensures (forall f :: f in c.inputs0 ==> f in levels[c.level] && f.Valid())
    ensures forall f :: f in c.inputs1 ==> f in levels[c.level + 1] && f.Valid()
  {
    hide Recency, ReadsAgree, Logged;
    forall f | f in c.inputs0 ensures f in levels[c.level] && f.Valid() {
      assert f in c.Abs().upper && f in s.levels[c.level];
    }
    forall f | f in c.inputs1 ensures f in levels[c.level + 1] && f.Valid() {
      assert f in c.Abs().lower && f in s.levels[c.level + 1];
    }
  }

  // Two input files share no internal key.
  lemma ApartInputs(s: State, c: Job, levels: seq<seq<File>>, i: nat, j: nat)
    requires Inv(s) && s.running == Some(c.Abs()) && s.levels == Sets(levels)
    requires Distinct(c.inputs0) && Distinct(c.inputs1) && i < j < |c.inputs0 + c.inputs1|
    ensures CompactionWork.Apart((c.inputs0 + c.inputs1)[i].run, (c.inputs0 + c.inputs1)[j].run)
  {
    hide Shape, Recency, ReadsAgree, InputsClosed, BaseStands, Logged;
    InputsPresent(s, c, levels);
    LoggedUnambiguous(s);
    var files := c.inputs0 + c.inputs1;
    var l := if i < |c.inputs0| then c.level else c.level + 1;
    var m := if j < |c.inputs0| then c.level else c.level + 1;
    InputAt(c, levels, i);
    InputAt(c, levels, j);
    assert l == m ==> files[i] != files[j];
    FilesApart(s.levels, s.nextFile, l, files[i], m, files[j]);
  }

  lemma InputAt(c: Job, levels: seq<seq<File>>, i: nat)
    requires i < |c.inputs0 + c.inputs1| && c.level + 1 < |levels|
    requires (forall f :: f in c.inputs0 ==> f in levels[c.level])
    requires forall f :: f in c.inputs1 ==> f in levels[c.level + 1]
    ensures (c.inputs0 + c.inputs1)[i] in Sets(levels)[if i < |c.inputs0| then c.level else c.level + 1]
  {
    if i < |c.inputs0| {
      assert c.inputs0[i] in c.inputs0;
    } else {
      assert c.inputs1[i - |c.inputs0|] in c.inputs1;
    }
  }

  lemma FilesApart(levels: Levels, nextFile: nat, l: nat, f: File, m: nat, g: File)
    requires |levels| == NUM_LEVELS && Shape(levels, nextFile) && Recency(levels) && Unambiguous(Stored(levels))
    requires l < NUM_LEVELS && m < NUM_LEVELS && f in levels[l] && g in levels[m] && (l != m || f != g)
    ensures CompactionWork.Apart(f.run, g.run)
  {
    hide Shape, Recency;
    forall d, e | d in f.run && e in g.run ensures Compare(d.key, e.key) != 0 {
      assert d in Stored(levels) && e in Stored(levels);
      if d == e { StoredOnce(levels, nextFile, l, f, m, g, d); }
      EqualKeys(d.key, e.key);
    }
  }

  lemma EqualKeys(a: Key, b: Key)
    ensures Compare(a, b) == 0 <==> a == b
  {
  }

  lemma BaseOfVersion(c: Job)
    requires ValidLevels(c.version)
    ensures CompactionWork.BaseIs(c.level, c.version, c.Abs().Base())
  {
    forall k: UserKey
      ensures k in c.Abs().Base() <==>
        forall lvl, f :: c.level + 2 <= lvl < NUM_LEVELS && f in c.version[lvl] ==> !f.Spans(k)
    {
      assert forall lvl, f :: 0 <= lvl < NUM_LEVELS ==> (f in Sets(c.version)[lvl] <==> f in c.version[lvl]);
    }
  }

  lemma OutputsAreSurvivors(c: Job, input: seq<Entry>, runs: seq<seq<Entry>>, files: seq<File>, numbers: seq<nat>)
    requires Sorted(input) && Elements(input) == Contents(c.Abs().Inputs())
    requires CompactionWork.Flatten(runs) == CompactionWork.Kept(input, |input|, c.Abs().Base(), c.smallestSnapshot)
    requires CompactionWork.BuiltFrom(files, runs, numbers)
    ensures OutputsOf(c.Abs(), FileSet(files))
  {
    var kept := CompactionWork.Kept(input, |input|, c.Abs().Base(), c.smallestSnapshot);
    CompactionWork.KeptElements(input, |input|, c.Abs().Base(), c.smallestSnapshot);
    CompactionWork.BuiltOutputs(files, runs, numbers, kept);
    assert input[..|input|] == input;
    assert Elements(kept) == Survivors(Elements(input), Elements(input), c.Abs().Base(), c.smallestSnapshot);
  }

  lemma ReplacementApplicable(levels: seq<seq<File>>, level: nat, inputs0: seq<File>, inputs1: seq<File>,
      outputs: seq<File>)
    requires OrderedLevels(levels)
    requires forall i, f, g :: 0 <= i < NUM_LEVELS && f in levels[i] && g in outputs ==> f.number != g.number
    requires forall i, j :: 0 <= i < j < |outputs| ==> outputs[i].number != outputs[j].number
    ensures VersionBuilder.Applicable(levels, Replacement(level, inputs0, inputs1, outputs))
  {
  }

  lemma TakesInstall(s: State, t: State, c: Job, files: seq<File>)
    requires |s.levels| == NUM_LEVELS && s.running == Some(c.Abs()) && c.level + 1 < NUM_LEVELS
    requires OutputsOf(c.Abs(), FileSet(files))
    requires NumbersOk(c, s.nextFile, files)
    requires t.nextFile == s.nextFile + Beyond(c, files)
    requires t == s.(levels := Replace(s.levels, c.level, FileSet(c.inputs0), FileSet(c.inputs1), FileSet(files)),
                     running := None, nextFile := t.nextFile, floor := c.smallestSnapshot)
    ensures Install(s, t, FileSet(files))
  {
    hide OutputsOf;
  }

  lemma Installed(s: State, t: State, outputs: set<File>, levels: seq<seq<File>>)
    requires Inv(s) && Install(s, t, outputs) && t.levels == Sets(levels)
    requires |levels| == NUM_LEVELS && forall i :: 0 <= i < NUM_LEVELS ==> VersionBuilder.Ordered(levels[i])
    ensures OrderedLevels(levels) && (Inv(t) <==> KeepsReads(s))
  {
    hide Inv, KeepsReads, VersionBuilder.Ordered;
    InstallExact(s, t, outputs);
    InstallStructure(s, t, outputs);
    InvLevels(t, levels);
  }

  // AddInputDeletions and the output files.
  function Replacement(level: nat, inputs0: seq<File>, inputs1: seq<File>, outputs: seq<File>): VersionBuilder.Edit {
    VersionBuilder.Edit(
      seq(NUM_LEVELS, i => if i == level then VersionBuilder.Numbers(inputs0)
        else if i == level + 1 then VersionBuilder.Numbers(inputs1) else {}),
      seq(NUM_LEVELS, i => if i == level + 1 then outputs else []))
  }

  // Deleting by number deletes exactly the input files.
  lemma ReplacedLevels(levels: seq<seq<File>>, v: seq<seq<File>>, level: nat, inputs0: seq<File>, inputs1: seq<File>,
      outputs: seq<File>)
    requires |levels| == NUM_LEVELS && level + 1 < NUM_LEVELS && NumbersDistinct(Sets(levels))
    requires (forall f :: f in inputs0 ==> f in levels[level]) && forall f :: f in inputs1 ==> f in levels[level + 1]
    requires VersionBuilder.Applicable(levels, Replacement(level, inputs0, inputs1, outputs))
    requires VersionBuilder.Applied(levels, Replacement(level, inputs0, inputs1, outputs), v)
    ensures Sets(v) == Replace(Sets(levels), level, FileSet(inputs0), FileSet(inputs1), FileSet(outputs))
    ensures |v| == NUM_LEVELS && forall i :: 0 <= i < NUM_LEVELS ==> VersionBuilder.Ordered(v[i])
  {
    assert VersionBuilder.NoneReadded(levels[level + 1], outputs);
    hide NumbersDistinct, VersionBuilder.Ordered, VersionBuilder.Applicable, VersionBuilder.NoneReadded,
         VersionBuilder.LevelAfter;
    NothingAdded(levels);
    DeletedByNumber(levels, level, inputs0, []);
    DeletedByNumber(levels, level + 1, inputs1, outputs);
    var after := Replace(Sets(levels), level, FileSet(inputs0), FileSet(inputs1), FileSet(outputs));
    forall i | 0 <= i < NUM_LEVELS ensures FileSet(v[i]) == after[i] {
      assert FileSet([]) == {};
    }
  }

  lemma NothingAdded(levels: seq<seq<File>>)
    ensures forall i :: 0 <= i < |levels| ==>
              && VersionBuilder.NoneReadded(levels[i], [])
              && VersionBuilder.LevelAfter(FileSet(levels[i]),
                   VersionBuilder.Accumulate(VersionBuilder.LevelState({}, {}), {}, FileSet([]))) == FileSet(levels[i])
  {
  }

  lemma DeletedByNumber(levels: seq<seq<File>>, i: nat, inputs: seq<File>, outputs: seq<File>)
    requires i < |levels| && NumbersDistinct(Sets(levels)) && forall f :: f in inputs ==> f in levels[i]
    requires VersionBuilder.NoneReadded(levels[i], outputs)
    ensures VersionBuilder.LevelAfter(FileSet(levels[i]),
              VersionBuilder.Accumulate(VersionBuilder.LevelState({}, {}), VersionBuilder.Numbers(inputs),
                FileSet(outputs)))
            == FileSet(levels[i]) - FileSet(inputs) + FileSet(outputs)
  {
    var numbers, outs := VersionBuilder.Numbers(inputs), set f | f in FileSet(outputs) :: f.number;
    forall f | f in levels[i] ensures f.number in numbers <==> f in inputs {
      assert f in Sets(levels)[i];
      if f.number in numbers { var g :| g in inputs && g.number == f.number; assert g in Sets(levels)[i]; }
    }
    forall f | f in levels[i] ensures f.number !in outs {}
    forall f | f in outputs ensures f.number in outs { assert f in FileSet(outputs); }
  }

  lemma MoveApplicable(levels: seq<seq<File>>, next: nat, level: nat, f: File)
    requires OrderedLevels(levels) && Shape(Sets(levels), next) && level + 1 < NUM_LEVELS && f in levels[level]
    ensures VersionBuilder.Applicable(levels, Replacement(level, [f], [], [f]))
  {
    forall g | g in levels[level + 1] ensures g.number != f.number {
      assert g in Sets(levels)[level + 1] && f in Sets(levels)[level];
    }
  }

  // The inputs chosen on the vectors are closed on the sets.
  lemma ChosenClosed(levels: seq<seq<File>>, level: nat, inputs0: seq<File>, inputs1: seq<File>, allStart: Key,
      allLimit: Key, c: Running)
    requires |levels| == NUM_LEVELS && level + 1 < NUM_LEVELS
    requires Chosen(levels, level, inputs0, inputs1, allStart, allLimit)
    requires c.level == level && c.upper == FileSet(inputs0) && c.lower == FileSet(inputs1)
    requires c.start == allStart.user && c.limit == allLimit.user
    ensures InputsClosed(Sets(levels), c) && (forall f :: f in inputs0 ==> f in levels[level])
    ensures Distinct(inputs0) && Distinct(inputs1)
  {
    assert inputs0[0] in c.upper;
    forall f | f in c.Inputs() ensures c.start <= f.smallest.user && f.largest.user <= c.limit {
      assert f in inputs0 + inputs1;
    }
    forall g | g in Sets(levels)[level + 1] - c.lower ensures g in levels[level + 1] && g !in inputs1 {}
    forall g | g in Sets(levels)[level] - c.upper ensures g in levels[level] && g !in inputs0 {}
  }

  function AddOne(level: nat, f: File): VersionBuilder.Edit {
    VersionBuilder.Edit(seq(NUM_LEVELS, _ => {}), seq(NUM_LEVELS, i => if i == level then [f] else []))
  }

  lemma AddOneApplicable(levels: seq<seq<File>>, next: nat, level: nat, f: File)
    requires OrderedLevels(levels) && f.number >= next
    requires forall i, g :: 0 <= i < NUM_LEVELS && g in levels[i] ==> g.number < next
    ensures VersionBuilder.Applicable(levels, AddOne(level, f))
  {
  }

  lemma PickedLevel(levels: seq<seq<File>>, f: File, level: nat)
    requires |levels| == NUM_LEVELS && level <= MAX_MEM_COMPACT_LEVEL
    requires level > 0 ==> forall i :: 0 <= i <= level ==> !OverlapsLevel(levels[i], f.smallest.user, f.largest.user)
    ensures FlushTo(Sets(levels), f, level)
  {
    forall i, g | 0 <= i <= level && level > 0 && g in Sets(levels)[i]
      ensures !Overlaps(g, f.smallest.user, f.largest.user)
    {
      assert g in levels[i] && !OverlapsLevel(levels[i], f.smallest.user, f.largest.user);
    }
  }

  // File numbers in use are below the next one to give out.
  lemma LevelNumbers(levels: seq<seq<File>>, nextFileNumber: nat)
    requires |levels| == NUM_LEVELS && Shape(Sets(levels), nextFileNumber)
    ensures forall i, f :: 0 <= i < NUM_LEVELS && f in levels[i] ==> f.number < nextFileNumber
  {
    forall i, f | 0 <= i < NUM_LEVELS && f in levels[i] ensures f.number < nextFileNumber {
      assert f in Sets(levels)[i];
    }
  }

  lemma AddedToLevel(levels: seq<seq<File>>, v: seq<seq<File>>, level: nat, f: File)
    requires |levels| == NUM_LEVELS && level < NUM_LEVELS && VersionBuilder.Applied(levels, AddOne(level, f), v)
    ensures |v| == NUM_LEVELS && forall i :: 0 <= i < NUM_LEVELS ==> VersionBuilder.Ordered(v[i])
    ensures Sets(v) == Added(Sets(levels), level, f)
  {
    forall i | 0 <= i < NUM_LEVELS
      ensures FileSet(v[i]) == if i == level then FileSet(levels[i]) + {f} else FileSet(levels[i])
    {
      assert FileSet([f]) == {f};
    }
  }

  // Levels in manifest order that satisfy the invariant are the sorted vectors readers need.
  lemma InvLevels(s: State, levels: seq<seq<File>>)
    requires Shape(s.levels, s.nextFile) && s.levels == Sets(levels) && |levels| == NUM_LEVELS
    requires forall i :: 0 <= i < NUM_LEVELS ==> VersionBuilder.Ordered(levels[i])
    ensures OrderedLevels(levels)
  {
    forall i, f | 0 <= i < NUM_LEVELS && f in levels[i] ensures f.Valid() { assert f in Sets(levels)[i]; }
    forall i | 1 <= i < NUM_LEVELS ensures SortedFiles(levels[i]) {
      assert Sets(levels)[i] == FileSet(levels[i]);
      VersionBuilder.OrderedDisjoint(levels[i]);
    }
    forall i, j | 0 <= i < j < |levels[0]| ensures levels[0][i].number != levels[0][j].number {
      assert levels[0][i] in Sets(levels)[0] && levels[0][j] in Sets(levels)[0];
      assert VersionBuilder.Before(levels[0][i], levels[0][j]);
    }
  }

  function Entries(updates: seq<Op>, last: nat): (r: seq<Entry>)
    requires last + |updates| <= MAX_SEQUENCE
    ensures |r| == |updates|
  {
    if updates == [] then []
    else Entries(updates[..|updates| - 1], last) + [EntryOf(updates[|updates| - 1], last + |updates|)]
  }

  function Failed(count: nat): (r: seq<Option<Entry>>)
    ensures |r| == count
  {
    seq(count, _ => None)
  }

  // Every one of them was applied.
  function Recorded(entries: seq<Entry>): (r: seq<Option<Entry>>)
    ensures |r| == |entries|
  {
    seq(|entries|, i requires 0 <= i < |entries| => Some(entries[i]))
  }

  lemma RemoveAt(s: seq<SequenceNumber>, k: nat)
    requires k < |s| && forall i, j :: 0 <= i < j < |s| ==> s[i] <= s[j]
    ensures var r := s[..k] + s[k + 1..];
            && s[k] in multiset(s) && multiset(r) == multiset(s) - multiset{s[k]}
            && forall i, j :: 0 <= i < j < |r| ==> r[i] <= r[j]
  {
    RemoveCount(s, k);
    var r := s[..k] + s[k + 1..];
    assert forall i :: 0 <= i < |r| ==> r[i] == if i < k then s[i] else s[i + 1];
  }

  lemma RemoveCount(s: seq<SequenceNumber>, k: nat)
    requires k < |s|
    ensures s[k] in multiset(s) && multiset(s[..k] + s[k + 1..]) == multiset(s) - multiset{s[k]}
  {
    assert s == s[..k] + [s[k]] + s[k + 1..];
  }

  lemma StoredUnambiguous(s: State)
    requires Inv(s)
    ensures Unambiguous(Stored(s.levels)) && Recency(s.levels)
  {
    LoggedUnambiguous(s);
  }

  // The first layer that knows the key decides the read.
  lemma HitDecides(s: State, passed: set<Entry>, hit: set<Entry>, rest: set<Entry>, user: UserKey, sn: nat, o: Outcome)
    requires Logged(s) && passed + hit + rest == Tree(s) && AllNewer(hit, rest)
    requires Answers(passed, user, sn, NotHere) && Answers(hit, user, sn, o) && o != NotHere
    ensures forall v :: o == Found(v) <==> Finds(Tree(s), user, sn, v)
  {
    FirstHit(passed, hit, rest, user, sn, o);
    LoggedUnambiguous(s);
    OutcomeExact(Tree(s), user, sn, o);
  }

  // Layers that know nothing of the key leave the read to the rest.
  lemma NotAbove(above: set<Entry>, rest: set<Entry>, user: UserKey, sn: nat)
    requires Answers(above, user, sn, NotHere)
    ensures forall v :: Finds(above + rest, user, sn, v) <==> Finds(rest, user, sn, v)
  {
    SameNewest(above + rest, rest, user, sn);
  }

  lemma ReadIsMap(s: State, user: UserKey, sn: nat, r: Option<Value>)
    requires Inv(s) && Live(s, sn) && forall v :: r == Some(v) <==> Finds(Tree(s), user, sn, v)
    ensures sn <= |s.log| && r == (if user in MapAt(s.log, sn) then Some(MapAt(s.log, sn)[user]) else None)
  {
    LiveReads(s, user, sn, "");
    if user in MapAt(s.log, sn) { LiveReads(s, user, sn, MapAt(s.log, sn)[user]); }
    if r.Some? { LiveReads(s, user, sn, r.value); }
  }
}
