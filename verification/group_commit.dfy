// Group commit (Write and BuildBatchGroup of db/db_impl.cc): a queue of writers, the first of which
// writes for a front of the queue.

module GroupCommit {
  import opened Wrappers
  import opened Coding
  import opened WriteBatches

  // A null batch asks only for room to be made.
  datatype Writer = Writer(batch: Option<seq<Op>>, sync: bool)

  function Ops(w: Writer): seq<Op> { if w.batch.Some? then w.batch.value else [] }

  function OpsOf(ws: seq<Writer>): seq<Op> {
    if ws == [] then [] else OpsOf(ws[..|ws| - 1]) + Ops(ws[|ws| - 1])
  }

  function ByteSize(ops: seq<Op>): nat { BATCH_HEADER + |Body(ops)| }

  function MaxSize(first: nat): nat { if first <= 0x2_0000 then first + 0x2_0000 else 0x10_0000 }

  // Where the group that starts at ws[0] ends, when ws[..i] are in it and take up `size` bytes.
  function GroupEnd(ws: seq<Writer>, i: nat, size: nat, maxSize: nat): (e: nat)
    requires 0 < i <= |ws|
    ensures i <= e <= |ws|
    ensures forall k :: i <= k < e ==> ws[k].sync ==> ws[0].sync
    decreases |ws| - i
  {
    if i == |ws| || (ws[i].sync && !ws[0].sync) then i
    else if ws[i].batch.None? then GroupEnd(ws, i + 1, size, maxSize)
    else
      var grown := size + ByteSize(ws[i].batch.value);
      if grown > maxSize then i else GroupEnd(ws, i + 1, grown, maxSize)
  }

  function GroupSize(ws: seq<Writer>): (n: nat)
    requires ws != [] && ws[0].batch.Some?
    ensures 1 <= n <= |ws| && forall k :: 0 <= k < n ==> ws[k].sync ==> ws[0].sync
  {
    var size := ByteSize(ws[0].batch.value);
    GroupEnd(ws, 1, size, MaxSize(size))
  }

  lemma {:induction false} OpsOfAppend(a: seq<Writer>, b: seq<Writer>)
    ensures OpsOf(a + b) == OpsOf(a) + OpsOf(b)
    decreases |b|
  {
    if b == [] {
      assert a + b == a && OpsOf(a) + [] == OpsOf(a);
    } else {
      var n := |b| - 1;
      assert (a + b)[..|a + b| - 1] == a + b[..n] && (a + b)[|a + b| - 1] == b[n];
      OpsOfAppend(a, b[..n]);
      assert (OpsOf(a) + OpsOf(b[..n])) + Ops(b[n]) == OpsOf(a) + (OpsOf(b[..n]) + Ops(b[n]));
    }
  }

  // ---- BuildBatchGroup ----

  // The queue's writers and the batches they brought.
  ghost predicate Brought(ws: seq<Writer>, batches: seq<WriteBatch?>, tmp: WriteBatch)
    reads batches, tmp
  {
    && |batches| == |ws| && tmp !in batches && tmp.Valid()
    && forall k :: 0 <= k < |ws| ==>
         if ws[k].batch.None? then batches[k] == null
         else batches[k] != null && batches[k].Valid() && batches[k].ops == ws[k].batch.value
  }

  // The first writer's batch, or the temporary one holding the operations of the whole group in order.
  method BuildBatchGroup(ws: seq<Writer>, batches: seq<WriteBatch?>, tmp: WriteBatch)
    returns (result: WriteBatch, last: nat)
    requires ws != [] && ws[0].batch.Some? && Brought(ws, batches, tmp) && tmp.ops == [] && tmp.sn < U64
    requires |OpsOf(ws)| < U32
    modifies tmp
    ensures last + 1 == GroupSize(ws) && result.Valid() && result.ops == OpsOf(ws[..last + 1])
    ensures result == batches[0] || result == tmp
    ensures Brought(ws, batches, tmp)
  {
    hide WriteBatch.Valid, Rep, Body, OpsOf, GroupEnd;
    var first := batches[0];
    result := first;
    var size: nat := |first.rep|;
    ByteSizeIs(first);
    var maxSize: nat := 0x10_0000;
    if size <= 0x2_0000 {
      maxSize := size + 0x2_0000;
    }
    last := 0;
    OpsOfFirst(ws);
    var i: nat := 1;
    while i < |ws|
      invariant 0 < i <= |ws| && last + 1 == i && Brought(ws, batches, tmp)
      invariant GroupSize(ws) == GroupEnd(ws, i, size, maxSize)
      invariant result.Valid() && result.ops == OpsOf(ws[..i]) && (result == first ==> tmp.ops == [])
      invariant (result == first || result == tmp)
    {
      var w := ws[i];
      GroupEndStep(ws, i, size, maxSize);
      OpsOfNext(ws, i);
      if w.sync && !ws[0].sync {
        break;
      }
      if batches[i] != null {
        ByteSizeIs(batches[i]);
        size := size + |batches[i].rep|;
        if size > maxSize {
          break;
        }
        if result == first {
          result := tmp;
          result.Append(first);
        }
        result.Append(batches[i]);
      }
      last := i;
      i := i + 1;
    }
    GroupEndAll(ws, size, maxSize);
  }

  lemma GroupEndStep(ws: seq<Writer>, i: nat, size: nat, maxSize: nat)
    requires 0 < i < |ws|
    ensures ws[i].sync && !ws[0].sync ==> GroupEnd(ws, i, size, maxSize) == i
    ensures !(ws[i].sync && !ws[0].sync) && ws[i].batch.None? ==>
      GroupEnd(ws, i, size, maxSize) == GroupEnd(ws, i + 1, size, maxSize)
    ensures !(ws[i].sync && !ws[0].sync) && ws[i].batch.Some? ==>
              var grown := size + ByteSize(ws[i].batch.value);
              GroupEnd(ws, i, size, maxSize) == if grown > maxSize then i else GroupEnd(ws, i + 1, grown, maxSize)
  {
  }

  lemma GroupEndAll(ws: seq<Writer>, size: nat, maxSize: nat)
    requires ws != []
    ensures GroupEnd(ws, |ws|, size, maxSize) == |ws|
  {
  }

  lemma ByteSizeIs(b: WriteBatch)
    requires b.Valid()
    ensures |b.rep| == ByteSize(b.ops)
  {
  }

  lemma OpsOfFirst(ws: seq<Writer>)
    requires ws != []
    ensures OpsOf(ws[..1]) == Ops(ws[0])
  {
    assert ws[..1][..0] == [];
    assert [] + Ops(ws[0]) == Ops(ws[0]);
  }

  lemma OpsOfNext(ws: seq<Writer>, i: nat)
    requires i < |ws|
    ensures OpsOf(ws[..i + 1]) == OpsOf(ws[..i]) + Ops(ws[i]) && |OpsOf(ws[..i + 1])| <= |OpsOf(ws)|
    ensures ws[i].batch.None? ==> OpsOf(ws[..i + 1]) == OpsOf(ws[..i])
  {
    assert ws[..i + 1][..i] == ws[..i];
    assert ws == ws[..i + 1] + ws[i + 1..];
    OpsOfAppend(ws[..i + 1], ws[i + 1..]);
    assert OpsOf(ws[..i]) + [] == OpsOf(ws[..i]);
  }

  // ---- The queue as a state machine ----

  datatype Status = Ok | Failed

  datatype Phase = Idle | Grouped(size: nat, first: nat) | Logged(size: nat, first: nat, status: Status)

  // Writers in the order they queued; the first |results| have returned. A writer's start is the sequence
  // number its operations begin at, whether or not they reached the memtable.
  datatype State = State(arrivals: seq<Writer>, results: seq<Status>, starts: seq<nat>, synced: seq<bool>, phase: Phase,
                         lastSequence: nat, memtable: seq<Applied>)
  {
    ghost function Queue(): seq<Writer>
      requires |results| <= |arrivals|
    {
      arrivals[|results|..]
    }
  }

  function Init(last: nat): State { State([], [], [], [], Idle, last, []) }

  // Write: the writer joins the queue.
  ghost predicate Enqueue(s: State, t: State, w: Writer) {
    t == s.(arrivals := s.arrivals + [w])
  }

  // The writer at the front returns by itself: its batch is null, or no room could be made.
  ghost predicate ReturnAlone(s: State, t: State, status: Status) {
    && |s.results| < |s.arrivals| && s.phase.Idle? && (s.Queue()[0].batch.None? || status.Failed?)
    && t == s.(results := s.results + [status], starts := s.starts + [s.lastSequence + 1], synced := s.synced + [false])
  }

  // The writer at the front gathers its group and numbers it.
  ghost predicate Group(s: State, t: State) {
    && |s.results| < |s.arrivals| && s.phase.Idle? && s.Queue()[0].batch.Some?
    && t == s.(phase := Grouped(GroupSize(s.Queue()), s.lastSequence + 1))
  }

  // The log, the sync the leader asked for and the memtable, without the lock.
  ghost predicate Commit(s: State, t: State, status: Status) {
    && s.phase.Grouped? && |s.results| + s.phase.size <= |s.arrivals|
    && t == s.(phase := Logged(s.phase.size, s.phase.first, status),
               memtable := if status.Ok? then s.memtable + Numbered(s.phase.first, OpsOf(s.Queue()[..s.phase.size]))
                 else s.memtable)
  }

  function Starts(ws: seq<Writer>, first: nat): (r: seq<nat>)
    ensures |r| == |ws|
  {
    if ws == [] then [] else Starts(ws[..|ws| - 1], first) + [first + |OpsOf(ws[..|ws| - 1])|]
  }

  // The numbers become visible, and the group's writers return.
  ghost predicate Finish(s: State, t: State) {
    && s.phase.Logged? && 0 < s.phase.size && |s.results| + s.phase.size <= |s.arrivals|
    && var group := s.Queue()[..s.phase.size];
       t == s.(phase := Idle, lastSequence := s.lastSequence + |OpsOf(group)|,
               results := s.results + seq(s.phase.size, _ => s.phase.status),
               starts := s.starts + Starts(group, s.phase.first),
               synced := s.synced + seq(s.phase.size, _ => group[0].sync))
  }

  ghost predicate Next(s: State, t: State) {
    || (exists w :: Enqueue(s, t, w))
    || (exists status :: ReturnAlone(s, t, status))
    || Group(s, t)
    || (exists status :: Commit(s, t, status))
    || Finish(s, t)
  }

  // What the first n writers should have put into the memtable: each one's operations in order, whole, if
  // it was told all is well, and nothing otherwise.
  ghost function Promised(s: State, n: nat): seq<Applied>
    requires n <= |s.results| <= |s.arrivals| && |s.starts| == |s.results|
  {
    if n == 0 then []
    else Promised(s, n - 1) + if s.results[n - 1].Ok? then Numbered(s.starts[n - 1], Ops(s.arrivals[n - 1])) else []
  }

  ghost function InFlight(s: State): seq<Applied>
    requires |s.results| <= |s.arrivals| && (s.phase.Logged? ==> |s.results| + s.phase.size <= |s.arrivals|)
  {
    if s.phase.Logged? && s.phase.status.Ok? then Numbered(s.phase.first, OpsOf(s.Queue()[..s.phase.size])) else []
  }

  // Each writer's numbers start after all earlier ones, and end by what is visible.
  ghost predicate Ranges(s: State, from: nat) {
    && |s.starts| == |s.results| <= |s.arrivals|
    && (forall j :: 0 <= j < |s.starts| ==> from < s.starts[j])
    && (forall i, j :: 0 <= i < j < |s.starts| ==> EndOf(s, i) <= s.starts[j])
    && forall j :: 0 <= j < |s.starts| ==> EndOf(s, j) <= s.lastSequence + 1
  }

  // Where writer j's numbers end; one that returned alone used none.
  ghost function EndOf(s: State, j: nat): nat
    requires j < |s.starts| && |s.starts| == |s.results| <= |s.arrivals|
  {
    s.starts[j] + if s.results[j].Ok? then |Ops(s.arrivals[j])| else 0
  }

  ghost predicate Sound(s: State) { |s.starts| == |s.synced| == |s.results| <= |s.arrivals| }

  // A group is a front of the queue, with no sync write under a leader that does not sync.
  ghost predicate GroupStands(s: State)
    requires Sound(s)
  {
    !s.phase.Idle? ==>
      && 0 < s.phase.size && |s.results| + s.phase.size <= |s.arrivals| && s.phase.first == s.lastSequence + 1
      && s.Queue()[0].batch.Some? && forall k :: 0 <= k < s.phase.size ==> s.Queue()[k].sync ==> s.Queue()[0].sync
  }

  ghost predicate SyncsKept(s: State)
    requires Sound(s)
  {
    forall j :: 0 <= j < |s.results| ==> s.arrivals[j].batch.Some? && s.arrivals[j].sync && s.results[j].Ok? ==>
      s.synced[j]
  }

  ghost predicate Inv(s: State, from: nat) {
    && Sound(s) && Ranges(s, from) && from <= s.lastSequence && GroupStands(s) && SyncsKept(s)
    && s.memtable == Promised(s, |s.results|) + InFlight(s)
  }

  lemma InitInv(last: nat)
    ensures Inv(Init(last), last)
  {
  }

  // What earlier writers were promised does not depend on later ones.
  lemma {:induction false} PromisedSame(s: State, t: State, n: nat)
    requires n <= |s.results| <= |s.arrivals| && |s.starts| == |s.results|
    requires s.arrivals <= t.arrivals && s.results <= t.results && s.starts <= t.starts
    requires |t.results| <= |t.arrivals| && |t.starts| == |t.results|
    ensures Promised(t, n) == Promised(s, n)
  {
    hide Numbered, Ops;
    if n == 0 {
    } else {
      PromisedSame(s, t, n - 1);
      assert t.results[n - 1] == s.results[n - 1] && t.starts[n - 1] == s.starts[n - 1];
      assert t.arrivals[n - 1] == s.arrivals[n - 1];
    }
  }

  // The same writers have returned in the same way.
  lemma SameReturned(s: State, t: State, from: nat)
    requires Sound(s) && Ranges(s, from) && SyncsKept(s) && s.arrivals <= t.arrivals
    requires t.results == s.results && t.starts == s.starts && t.synced == s.synced && t.lastSequence == s.lastSequence
    ensures Sound(t) && Ranges(t, from) && SyncsKept(t) && Promised(t, |t.results|) == Promised(s, |s.results|)
  {
    hide Promised, Numbered, OpsOf, Ops;
    PromisedSame(s, t, |s.results|);
    forall j | 0 <= j < |s.arrivals| ensures t.arrivals[j] == s.arrivals[j] {}
    forall j | 0 <= j < |s.starts| ensures EndOf(t, j) == EndOf(s, j) {}
  }

  lemma EnqueueInv(s: State, t: State, from: nat, w: Writer)
    requires Inv(s, from) && Enqueue(s, t, w)
    ensures Inv(t, from)
  {
    hide Promised, Numbered, OpsOf, Ranges, SyncsKept;
    SameReturned(s, t, from);
    forall k | 0 <= k < |s.Queue()| ensures t.Queue()[k] == s.Queue()[k] {}
    if !s.phase.Idle? { assert t.Queue()[..s.phase.size] == s.Queue()[..s.phase.size]; }
  }

  lemma ReturnAloneInv(s: State, t: State, from: nat, status: Status)
    requires Inv(s, from) && ReturnAlone(s, t, status)
    ensures Inv(t, from)
  {
    hide Numbered, OpsOf, Promised;
    var r := |s.results|;
    PromisedSame(s, t, r);
    forall j | 0 <= j < r
      ensures t.results[j] == s.results[j] && t.starts[j] == s.starts[j] && t.synced[j] == s.synced[j] {}
    forall j | 0 <= j < r ensures EndOf(t, j) == EndOf(s, j) {}
    NumberedNone(t.starts[r]);
    PromisedNext(t, r + 1);
    assert t.arrivals[r] == s.Queue()[0];
    assert Promised(t, r) + [] == Promised(t, r);
  }

  lemma NumberedNone(first: nat)
    ensures Numbered(first, []) == []
  {
  }

  lemma GroupInv(s: State, t: State, from: nat)
    requires Inv(s, from) && Group(s, t)
    ensures Inv(t, from)
  {
    hide Numbered, OpsOf, Promised, GroupEnd, Ranges, SyncsKept;
    SameReturned(s, t, from);
  }

  lemma CommitInv(s: State, t: State, from: nat, status: Status)
    requires Inv(s, from) && Commit(s, t, status)
    ensures Inv(t, from)
  {
    hide Numbered, OpsOf, Promised, Ranges, SyncsKept;
    SameReturned(s, t, from);
    assert s.memtable == Promised(s, |s.results|) && s.memtable + [] == s.memtable;
  }

  lemma {:induction false} NumberedAppend(first: nat, a: seq<Op>, b: seq<Op>)
    ensures Numbered(first, a + b) == Numbered(first, a) + Numbered(first + |a|, b)
    decreases |b|
  {
    if b == [] {
      assert a + b == a;
    } else {
      var n := |b| - 1;
      assert (a + b)[..|a + b| - 1] == a + b[..n] && (a + b)[|a + b| - 1] == b[n];
      NumberedAppend(first, a, b[..n]);
    }
  }

  lemma {:induction false} StartsAt(ws: seq<Writer>, first: nat, k: nat)
    requires k < |ws|
    ensures Starts(ws, first)[k] == first + |OpsOf(ws[..k])|
    decreases |ws|
  {
    hide OpsOf;
    var n := |ws| - 1;
    if k < n {
      StartsAt(ws[..n], first, k);
      assert ws[..n][..k] == ws[..k];
    }
  }

  // The first k members of the group that finishes.
  lemma {:induction false} PromisedGroup(s: State, t: State, k: nat)
    requires |s.starts| == |s.results| && Finish(s, t) && k <= s.phase.size && |t.results| <= |t.arrivals|
    requires |t.starts| == |t.results|
    ensures var group := s.Queue()[..s.phase.size];
            Promised(t, |s.results| + k)
              == Promised(s, |s.results|) + if s.phase.status.Ok? then Numbered(s.phase.first, OpsOf(group[..k]))
                else []
  {
    hide Numbered, OpsOf, Starts;
    var r, group := |s.results|, s.Queue()[..s.phase.size];
    if k == 0 {
      PromisedSame(s, t, r);
      NoOps(s.phase.first);
      assert group[..0] == [];
      assert Promised(s, r) + [] == Promised(s, r);
    } else {
      PromisedGroup(s, t, k - 1);
      PromisedMember(s, t, k, Promised(s, r));
    }
  }

  lemma PromisedMember(s: State, t: State, k: nat, before: seq<Applied>)
    requires |s.starts| == |s.results| && Finish(s, t) && 0 < k <= s.phase.size && |t.results| <= |t.arrivals|
    requires |t.starts| == |t.results|
    requires Promised(t, |s.results| + k - 1)
          == before + if s.phase.status.Ok? then Numbered(s.phase.first, OpsOf(s.Queue()[..s.phase.size][..k - 1]))
            else []
    ensures Promised(t, |s.results| + k)
         == before + if s.phase.status.Ok? then Numbered(s.phase.first, OpsOf(s.Queue()[..s.phase.size][..k])) else []
  {
    hide Numbered, OpsOf, Starts, Promised, Ops;
    var r, group := |s.results|, s.Queue()[..s.phase.size];
    StartsAt(group, s.phase.first, k - 1);
    OpsOfNext(group, k - 1);
    assert t.results[r + k - 1] == s.phase.status && t.starts[r + k - 1] == Starts(group, s.phase.first)[k - 1];
    assert t.arrivals[r + k - 1] == group[k - 1];
    PromisedNext(t, r + k);
    if s.phase.status.Ok? {
      NumberedAppend(s.phase.first, OpsOf(group[..k - 1]), Ops(group[k - 1]));
      var b, c := Numbered(s.phase.first, OpsOf(group[..k - 1])), Numbered(t.starts[r + k - 1], Ops(group[k - 1]));
      assert (before + b) + c == before + (b + c);
    } else {
      assert Promised(t, r + k - 1) + [] == Promised(t, r + k - 1);
    }
  }

  lemma PromisedNext(s: State, n: nat)
    requires 0 < n <= |s.results| <= |s.arrivals| && |s.starts| == |s.results|
    ensures Promised(s, n) == Promised(s, n - 1) +
      if s.results[n - 1].Ok? then Numbered(s.starts[n - 1], Ops(s.arrivals[n - 1])) else []
  {
  }

  lemma NoOps(first: nat)
    ensures OpsOf([]) == [] && Numbered(first, OpsOf([])) == []
  {
  }

  lemma FinishInv(s: State, t: State, from: nat)
    requires Inv(s, from) && Finish(s, t)
    ensures Inv(t, from)
  {
    hide Numbered, OpsOf, Starts, Promised, InFlight, Ranges, SyncsKept;
    var group := s.Queue()[..s.phase.size];
    PromisedGroup(s, t, s.phase.size);
    assert group[..s.phase.size] == group;
    FlightIs(s, t);
    FinishRanges(s, t, from);
    FinishSynced(s, t);
    assert |t.results| == |s.results| + s.phase.size;
    assert t.memtable == Promised(t, |t.results|) + [];
  }

  lemma FlightIs(s: State, t: State)
    requires |s.results| <= |s.arrivals| && s.phase.Logged? && |s.results| + s.phase.size <= |s.arrivals|
    requires |t.results| <= |t.arrivals| && t.phase.Idle?
    ensures InFlight(t) == []
    ensures InFlight(s) == if s.phase.status.Ok? then Numbered(s.phase.first, OpsOf(s.Queue()[..s.phase.size])) else []
  {
  }

  lemma FinishSynced(s: State, t: State)
    requires Sound(s) && Finish(s, t) && GroupStands(s) && SyncsKept(s)
    ensures Sound(t) && SyncsKept(t)
  {
    hide Starts, OpsOf;
    forall j | 0 <= j < |t.results| && t.arrivals[j].batch.Some? && t.arrivals[j].sync && t.results[j].Ok?
      ensures t.synced[j]
    {
      var k := j - |s.results|;
      if k >= 0 { assert t.arrivals[j] == s.Queue()[k] && t.synced[j] == s.Queue()[..s.phase.size][0].sync; }
    }
  }

  // Member k of the group that finishes.
  lemma MemberRange(s: State, t: State, k: nat)
    requires Sound(s) && Sound(t) && Finish(s, t) && k < s.phase.size
    ensures var j, group := |s.results| + k, s.Queue()[..s.phase.size];
            && t.starts[j] == s.phase.first + |OpsOf(group[..k])|
            && t.starts[j] <= EndOf(t, j) <= s.phase.first + |OpsOf(group[..k + 1])|
  {
    hide Starts, OpsOf, Ops;
    var group := s.Queue()[..s.phase.size];
    StartsAt(group, s.phase.first, k);
    OpsOfNext(group, k);
    assert t.arrivals[|s.results| + k] == group[k] && t.starts[|s.results| + k] == Starts(group, s.phase.first)[k];
  }

  // The group's numbers come after all earlier ones, in order, and end at the new last sequence number.
  lemma FinishRanges(s: State, t: State, from: nat)
    requires Sound(s) && Sound(t) && Ranges(s, from) && from <= s.lastSequence && Finish(s, t)
    requires s.phase.first == s.lastSequence + 1
    ensures Ranges(t, from)
  {
    hide Starts, OpsOf, Ops;
    var r, group := |s.results|, s.Queue()[..s.phase.size];
    assert group[..s.phase.size] == group && |t.starts| == r + s.phase.size;
    forall j | 0 <= j < r ensures t.starts[j] == s.starts[j] && EndOf(t, j) == EndOf(s, j) {
      assert t.results[j] == s.results[j] && t.arrivals[j] == s.arrivals[j];
    }
    forall j | 0 <= j < |t.starts| ensures from < t.starts[j] && EndOf(t, j) <= t.lastSequence + 1 {
      if r <= j {
        MemberRange(s, t, j - r);
        OpsOfFront(group, j - r + 1, s.phase.size);
      }
    }
    forall i, j | 0 <= i < j < |t.starts| ensures EndOf(t, i) <= t.starts[j] {
      if r <= j { MemberRange(s, t, j - r); }
      if r <= i {
        MemberRange(s, t, i - r);
        OpsOfFront(group, i - r + 1, j - r);
      }
    }
  }

  lemma OpsOfFront(ws: seq<Writer>, i: nat, k: nat)
    requires i <= k <= |ws|
    ensures |OpsOf(ws[..i])| <= |OpsOf(ws[..k])|
  {
    assert ws[..k] == ws[..i] + ws[i..k];
    OpsOfAppend(ws[..i], ws[i..k]);
  }

  lemma StepInv(s: State, t: State, from: nat)
    requires Inv(s, from) && Next(s, t)
    ensures Inv(t, from)
  {
    hide Inv, Enqueue, ReturnAlone, Group, Commit, Finish;
    if w :| Enqueue(s, t, w) {
      EnqueueInv(s, t, from, w);
    } else if status :| ReturnAlone(s, t, status) {
      ReturnAloneInv(s, t, from, status);
    } else if Group(s, t) {
      GroupInv(s, t, from);
    } else if status :| Commit(s, t, status) {
      CommitInv(s, t, from, status);
    } else {
      FinishInv(s, t, from);
    }
  }

  ghost predicate IsRun(run: seq<State>, from: nat) {
    run != [] && run[0] == Init(from) && forall i :: 0 <= i < |run| - 1 ==> Next(run[i], run[i + 1])
  }

  lemma {:induction false} RunInv(run: seq<State>, from: nat)
    requires IsRun(run, from)
    ensures Inv(run[|run| - 1], from)
    decreases |run|
  {
    hide Inv, Next;
    if |run| == 1 {
      InitInv(from);
    } else {
      var n := |run| - 1;
      RunInv(run[..n], from);
      assert Next(run[n - 1], run[n]);
      StepInv(run[n - 1], run[n], from);
    }
  }

  // Numbers rise through the list, from above lo and below hi.
  ghost predicate Rising(m: seq<Applied>, lo: nat, hi: nat) {
    && (forall i :: 0 <= i < |m| ==> lo < m[i].sn < hi)
    && forall i, j :: 0 <= i < j < |m| ==> m[i].sn < m[j].sn
  }

  lemma {:induction false} NumberedRising(first: nat, ops: seq<Op>)
    requires first > 0
    ensures Rising(Numbered(first, ops), first - 1, first + |ops|) && |Numbered(first, ops)| == |ops|
    decreases |ops|
  {
    if ops == [] {
    } else {
      NumberedRising(first, ops[..|ops| - 1]);
    }
  }

  lemma RisingAppend(a: seq<Applied>, b: seq<Applied>, lo: nat, mid: nat, hi: nat)
    requires Rising(a, lo, mid + 1) && Rising(b, mid, hi) && lo <= mid < hi
    ensures Rising(a + b, lo, hi)
  {
  }

  lemma {:induction false} PromisedRising(s: State, from: nat, n: nat)
    requires Ranges(s, from) && n <= |s.results|
    ensures Rising(Promised(s, n), from, if n == 0 then from + 1 else EndOf(s, n - 1))
    ensures n > 0 ==> EndOf(s, n - 1) > from
  {
    hide Numbered, Ops;
    if n == 0 {
    } else {
      PromisedRising(s, from, n - 1);
      var first := s.starts[n - 1];
      if n > 1 { assert EndOf(s, n - 2) <= s.starts[n - 1]; }
      PromisedNext(s, n);
      if s.results[n - 1].Ok? {
        NumberedRising(first, Ops(s.arrivals[n - 1]));
        if Ops(s.arrivals[n - 1]) == [] {
          assert Promised(s, n) == Promised(s, n - 1);
          Widen(Promised(s, n - 1), from, if n == 1 then from + 1 else EndOf(s, n - 2), EndOf(s, n - 1));
        } else {
          Widen(Promised(s, n - 1), from, if n == 1 then from + 1 else EndOf(s, n - 2), first);
          RisingAppend(Promised(s, n - 1), Numbered(first, Ops(s.arrivals[n - 1])), from, first - 1, EndOf(s, n - 1));
        }
      } else {
        assert Promised(s, n) == Promised(s, n - 1);
        Widen(Promised(s, n - 1), from, if n == 1 then from + 1 else EndOf(s, n - 2), EndOf(s, n - 1));
      }
    }
  }

  lemma Widen(m: seq<Applied>, lo: nat, hi: nat, higher: nat)
    requires Rising(m, lo, hi) && hi <= higher
    ensures Rising(m, lo, higher)
  {
  }

  // At every moment of every run the memtable holds, in arrival order, the whole batch of each writer told
  // all is well, once, nothing of one told otherwise, and after these at most the group being written; the
  // numbers rise through it, and the visible ones are those of the writers that have returned. Their ranges
  // of numbers follow one another, and each that asked for a sync got one.
  lemma WritesAreAtomic(run: seq<State>, from: nat)
    requires IsRun(run, from)
    ensures var s := run[|run| - 1];
            && |s.results| <= |s.arrivals| && |s.starts| == |s.results|
            && (s.phase.Logged? ==> |s.results| + s.phase.size <= |s.arrivals|)
            && var n, done := |s.results|, Promised(s, |s.results|);
               && s.memtable == done + InFlight(s)
               && (forall i, j :: 0 <= i < j < |s.memtable| ==> s.memtable[i].sn < s.memtable[j].sn)
               && (forall i :: 0 <= i < |s.memtable| ==> (s.memtable[i].sn <= s.lastSequence <==> i < |done|))
               && (forall i, j :: 0 <= i < j < n ==> from < s.starts[i] && EndOf(s, i) <= s.starts[j])
               && (forall j :: 0 <= j < n ==> EndOf(s, j) <= s.lastSequence + 1)
               && |s.synced| == n
               && forall j :: 0 <= j < n && s.arrivals[j].batch.Some? && s.arrivals[j].sync && s.results[j].Ok? ==>
                    s.synced[j]
  {
    hide Promised, InFlight, Numbered, OpsOf;
    RunInv(run, from);
    var s := run[|run| - 1];
    var n := |s.results|;
    PromisedRising(s, from, n);
    Widen(Promised(s, n), from, if n == 0 then from + 1 else EndOf(s, n - 1), s.lastSequence + 1);
    FlightRising(s);
    RisingAppend(Promised(s, n), InFlight(s), from, s.lastSequence, s.lastSequence + 1 + |InFlight(s)|);
  }

  lemma FlightRising(s: State)
    requires |s.results| <= |s.arrivals|
    requires (s.phase.Logged? ==> |s.results| + s.phase.size <= |s.arrivals| && s.phase.first == s.lastSequence + 1)
    ensures Rising(InFlight(s), s.lastSequence, s.lastSequence + 1 + |InFlight(s)|)
  {
    hide Numbered, OpsOf;
    if s.phase.Logged? && s.phase.status.Ok? { NumberedRising(s.phase.first, OpsOf(s.Queue()[..s.phase.size])); }
  }
}
