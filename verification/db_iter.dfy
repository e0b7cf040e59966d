// The iterator users see (db/db_iter.cc): one entry per live user key.

module DbIterator {
  import opened Wrappers
  import opened DbFormat
  import opened Iterators

  predicate Visible(src: seq<Entry>, sn: nat, i: nat)
    requires i < |src|
  {
    src[i].key.sn <= sn
  }

  // Index i holds the newest visible entry of its user key, and it is a value.
  ghost predicate Live(src: seq<Entry>, sn: nat, i: nat) {
    && i < |src| && Visible(src, sn, i) && src[i].key.typ.Put?
    && forall j :: 0 <= j < i && src[j].key.user == src[i].key.user ==> !Visible(src, sn, j)
  }

  // r is the first live index from `from` on, or none is.
  ghost predicate FirstLive(src: seq<Entry>, sn: nat, from: nat, r: Option<nat>) {
    match r
    case Some(i) => from <= i && Live(src, sn, i) && forall j :: from <= j < i ==> !Live(src, sn, j)
    case None => forall j :: from <= j ==> !Live(src, sn, j)
  }

  // r is the last live index before `to`, or none is.
  ghost predicate LastLive(src: seq<Entry>, sn: nat, to: nat, r: Option<nat>) {
    match r
    case Some(i) => i < to && Live(src, sn, i) && forall j :: i < j < to ==> !Live(src, sn, j)
    case None => forall j :: 0 <= j < to ==> !Live(src, sn, j)
  }

  class DbIter {
    const iter: Cursor
    const sn: SequenceNumber
    var direction: Direction
    var valid: bool
    var savedKey: UserKey
    var savedValue: Value
    // The live entry the iterator stands on.
    ghost var current: Option<nat>

    constructor (iter: Cursor, sn: SequenceNumber)
      requires Sorted(iter.src)
      ensures this.iter == iter && this.sn == sn && Inv() && current == None
    {
      this.iter, this.sn, direction, valid, current := iter, sn, Forward, false, None;
      savedKey, savedValue := 0.0, "";
    }

    // Reverse: the internal iterator stands before every visible entry of the current key, with
    // nothing visible in between.
    ghost predicate Behind(c: nat)
      requires c < |iter.src|
      reads this, iter
    {
      var p := if iter.pos < |iter.src| then iter.pos else -1;
      && p < c && (p >= 0 ==> iter.src[p].key.user < iter.src[c].key.user)
      && forall j :: p < j < c ==> !Visible(iter.src, sn, j)
    }

    ghost predicate Inv()
      reads this, iter
    {
      && Sorted(iter.src) && (valid <==> current.Some?)
      && (current.Some? ==>
            var c := current.value;
            && Live(iter.src, sn, c)
            && (direction.Forward? ==> iter.pos == c)
            && (direction.Reverse? ==>
                 savedKey == iter.src[c].key.user && savedValue == iter.src[c].value && Behind(c)))
    }

    function Key(): (k: UserKey)
      requires Inv() && valid
      reads this, iter
      ensures k == iter.src[current.value].key.user
    {
      if direction.Forward? then iter.src[iter.pos].key.user else savedKey
    }

    function Value(): (v: string)
      requires Inv() && valid
      reads this, iter
      ensures v == iter.src[current.value].value
    {
      if direction.Forward? then iter.src[iter.pos].value else savedValue
    }

    method FindNextUserEntry(skip: Option<UserKey>, ghost from: nat)
      requires Sorted(iter.src) && iter.Valid() && direction.Forward?
      requires Hiding(iter.src, sn, iter.pos, from, skip)
      modifies this`valid, this`current, iter
      ensures Inv() && FirstLive(iter.src, sn, from, current)
    {
      var skipping := skip;
      while true
        invariant Sorted(iter.src) && iter.Valid() && direction.Forward?
        invariant Hiding(iter.src, sn, iter.pos, from, skipping)
        decreases |iter.src| - iter.pos
      {
        var e := iter.src[iter.pos];
        if e.key.sn <= sn {
          match e.key.typ
          case Deletion =>
            HideBy(iter.src, sn, iter.pos, from, skipping);
            skipping := Some(e.key.user);
          case Put =>
            if skipping.Some? && e.key.user <= skipping.value {
              StayHidden(iter.src, sn, iter.pos, from, skipping);
            } else {
              valid, current := true, Some(iter.pos);
              return;
            }
        } else {
          PassInvisible(iter.src, sn, iter.pos, from, skipping);
        }
        iter.Next();
        if !iter.Valid() {
          break;
        }
      }
      valid, current := false, None;
    }

    // Forward to the first live entry after the current one.
    method Next()
      requires Inv() && valid
      modifies this, iter
      ensures Inv() && direction.Forward? && FirstLive(iter.src, sn, old(current.value) + 1, current)
    {
      ghost var c := current.value;
      if direction.Reverse? {
        direction := Forward;
        if !iter.Valid() {
          iter.SeekToFirst();
        } else {
          iter.Next();
        }
        // The current key's entries lie ahead, so the internal iterator is valid here.
        SkipAhead(iter.src, sn, iter.pos, c);
      } else {
        savedKey := iter.src[iter.pos].key.user;
        SkipAhead(iter.src, sn, iter.pos, c);
      }
      FindNextUserEntry(Some(savedKey), c + 1);
    }

    // Backward to the last live entry before the current one.
    method Prev()
      requires Inv() && valid
      modifies this, iter
      ensures Inv() && LastLive(iter.src, sn, old(current.value), current)
    {
      ghost var c := current.value;
      if direction.Forward? {
        savedKey := iter.src[iter.pos].key.user;
        while true
          invariant iter.pos <= c && Sorted(iter.src) && Live(iter.src, sn, c) && savedKey == iter.src[c].key.user
          invariant forall j :: iter.pos < j < c ==> !Live(iter.src, sn, j)
          invariant iter.src[iter.pos].key.user == savedKey
          decreases iter.pos
        {
          ghost var at := iter.pos;
          iter.Prev();
          if !iter.Valid() {
            valid, current := false, None;
            return;
          }
          assert Less(iter.src[iter.pos].key, iter.src[at].key);
          if iter.src[iter.pos].key.user < savedKey {
            break;
          }
        }
        direction := Reverse;
      }
      FindPrevUserEntry(c);
    }

    method FindPrevUserEntry(ghost to: nat)
      requires Sorted(iter.src) && direction.Reverse? && to <= |iter.src|
      requires iter.Valid() ==> iter.pos < to
      requires forall j :: (if iter.Valid() then iter.pos else -1) < j < to ==> !Live(iter.src, sn, j)
      modifies this, iter
      ensures Inv() && LastLive(iter.src, sn, to, current)
    {
      var valueType := Deletion;
      ghost var found: nat := 0;
      if iter.Valid() {
        while true
          invariant Sorted(iter.src) && direction.Reverse? && iter.Valid() && iter.pos < to <= |iter.src|
          invariant Collecting(iter.src, sn, iter.pos, to, valueType, found)
          invariant valueType.Put? ==> savedKey == iter.src[found].key.user && savedValue == iter.src[found].value
          decreases iter.pos
        {
          ghost var at := iter.pos;
          var e := iter.src[iter.pos];
          if e.key.sn <= sn {
            if valueType.Put? && e.key.user < savedKey {
              break;
            }
            CollectVisible(iter.src, sn, at, to, valueType, found);
            valueType := e.key.typ;
            if valueType.Put? {
              savedKey, savedValue := e.key.user, e.value;
              found := at;
            }
          } else {
            CollectInvisible(iter.src, sn, at, to, valueType, found);
          }
          iter.Prev();
          if !iter.Valid() {
            break;
          }
        }
      }
      if valueType.Deletion? {
        valid, current := false, None;
        direction := Forward;
      } else {
        valid, current := true, Some(found);
      }
    }

    method Seek(target: UserKey)
      requires Inv()
      modifies this, iter
      ensures Inv() && direction.Forward?
      ensures current.Some? ==> iter.src[current.value].key.user >= target
      ensures forall j: nat :: Live(iter.src, sn, j) && iter.src[j].key.user >= target ==>
        current.Some? && current.value <= j
    {
      direction := Forward;
      iter.Seek(SeekKey(target, sn));
      StartOfKey(iter.src, sn, target);
      ghost var q := iter.pos;
      if iter.Valid() {
        FindNextUserEntry(None, q);
      } else {
        valid, current := false, None;
      }
      forall j: nat | Live(iter.src, sn, j) && iter.src[j].key.user >= target ensures j >= q {}
    }

    method SeekToFirst()
      requires Inv()
      modifies this, iter
      ensures Inv() && direction.Forward? && FirstLive(iter.src, sn, 0, current)
    {
      direction := Forward;
      iter.SeekToFirst();
      if iter.Valid() {
        FindNextUserEntry(None, 0);
      } else {
        valid, current := false, None;
      }
    }

    method SeekToLast()
      requires Inv()
      modifies this, iter
      ensures Inv() && LastLive(iter.src, sn, |iter.src|, current)
    {
      direction := Reverse;
      iter.SeekToLast();
      FindPrevUserEntry(|iter.src|);
    }
  }

  // Whether an entry would be skipped as hidden.
  predicate Blocked(skip: Option<UserKey>, e: Entry) { skip.Some? && e.key.user <= skip.value }

  // A visible entry of e's user key lies before index q.
  ghost predicate Seen(src: seq<Entry>, sn: nat, q: nat, e: Entry) {
    exists j :: 0 <= j < q && j < |src| && src[j].key.user == e.key.user && Visible(src, sn, j)
  }

  // At index q, on the way to the first live index from `from` on: skipping hides exactly the entries
  // that must not be shown.
  ghost predicate Hiding(src: seq<Entry>, sn: nat, q: nat, from: nat, skip: Option<UserKey>) {
    && (forall i :: from <= i < q ==> !Live(src, sn, i))
    && (forall i :: q <= i < |src| && Blocked(skip, src[i]) ==> i < from || !Live(src, sn, i))
    && (forall i :: q <= i < |src| && !Blocked(skip, src[i]) ==> from <= i && !Seen(src, sn, q, src[i]))
    && (forall i :: q <= i < |src| && skip.Some? && Visible(src, sn, i) ==> skip.value <= src[i].key.user)
  }

  lemma HideBy(src: seq<Entry>, sn: nat, q: nat, from: nat, skip: Option<UserKey>)
    requires Sorted(src) && q < |src| && Hiding(src, sn, q, from, skip)
    requires Visible(src, sn, q) && src[q].key.typ.Deletion?
    ensures Hiding(src, sn, q + 1, from, Some(src[q].key.user))
  {
    forall i | q < i < |src| ensures src[q].key.user <= src[i].key.user { assert Less(src[q].key, src[i].key); }
  }

  lemma StayHidden(src: seq<Entry>, sn: nat, q: nat, from: nat, skip: Option<UserKey>)
    requires Sorted(src) && q < |src| && Hiding(src, sn, q, from, skip) && Blocked(skip, src[q])
    ensures Hiding(src, sn, q + 1, from, skip)
  {
  }

  lemma PassInvisible(src: seq<Entry>, sn: nat, q: nat, from: nat, skip: Option<UserKey>)
    requires Sorted(src) && q < |src| && Hiding(src, sn, q, from, skip) && !Visible(src, sn, q)
    ensures Hiding(src, sn, q + 1, from, skip)
  {
  }

  // From anywhere between the entries before the current key and the current entry, skipping the
  // current key leads to the entries after it.
  lemma SkipAhead(src: seq<Entry>, sn: nat, q: nat, c: nat)
    requires Sorted(src) && Live(src, sn, c) && q <= c
    requires forall j :: q <= j < c ==> !Visible(src, sn, j)
    ensures Hiding(src, sn, q, c + 1, Some(src[c].key.user))
  {
    forall i | q <= i < |src|
      ensures i < c ==> src[i].key.user <= src[c].key.user
      ensures i > c ==> src[c].key.user <= src[i].key.user
    {
      assert i < c ==> Less(src[i].key, src[c].key);
      assert i > c ==> Less(src[c].key, src[i].key);
    }
    forall j | 0 <= j < q ensures src[j].key.user <= src[c].key.user {
      assert j < c ==> Less(src[j].key, src[c].key);
    }
  }

  // On the way back from `to`, at index q still unread: the last value met is the newest visible entry
  // so far of its key, and nothing after it is live.
  ghost predicate Collecting(src: seq<Entry>, sn: nat, q: int, to: nat, valueType: ValueType, found: nat) {
    && -1 <= q < to <= |src|
    && (valueType.Deletion? ==> forall j :: q < j < to ==> !Live(src, sn, j))
    && (valueType.Put? ==>
          && q < found < to && Visible(src, sn, found) && src[found].key.typ.Put?
          && (forall j :: q < j < found ==> !Visible(src, sn, j))
          && forall j :: found < j < to ==> !Live(src, sn, j))
  }

  lemma CollectInvisible(src: seq<Entry>, sn: nat, q: nat, to: nat, valueType: ValueType, found: nat)
    requires q < |src| && Collecting(src, sn, q, to, valueType, found) && !Visible(src, sn, q)
    ensures Collecting(src, sn, q - 1, to, valueType, found)
  {
  }

  lemma CollectVisible(src: seq<Entry>, sn: nat, q: nat, to: nat, valueType: ValueType, found: nat)
    requires Sorted(src) && q < |src| && Collecting(src, sn, q, to, valueType, found) && Visible(src, sn, q)
    requires valueType.Put? ==> !(src[q].key.user < src[found].key.user)
    ensures Collecting(src, sn, q - 1, to, src[q].key.typ, q)
  {
    if valueType.Put? { assert Less(src[q].key, src[found].key); }
  }

  // Nothing visible of `target` or later lies before the seek key's place.
  lemma StartOfKey(src: seq<Entry>, sn: SequenceNumber, target: UserKey)
    requires Sorted(src)
    ensures var q := LowerBound(src, SeekKey(target, sn));
            && Hiding(src, sn, q, q, None)
            && (forall j :: 0 <= j < q && src[j].key.user >= target ==> !Visible(src, sn, j))
            && forall j :: q <= j < |src| ==> src[j].key.user >= target
  {
    var q := LowerBound(src, SeekKey(target, sn));
    forall j | q <= j < |src| ensures src[j].key.user >= target { assert j > q ==> Less(src[q].key, src[j].key); }
  }

  lemma LiveIsNewest(src: seq<Entry>, sn: nat, i: nat)
    requires Sorted(src) && Live(src, sn, i)
    ensures IsNewest(Elements(src), src[i].key.user, sn, src[i])
  {
    forall f | f in Elements(src) && f.key.user == src[i].key.user && f.key.sn <= sn
      ensures f.key.sn <= src[i].key.sn
    {
      var j :| 0 <= j < |src| && src[j] == f;
      assert j > i ==> Less(src[i].key, src[j].key);
    }
  }

  lemma NewestIsLive(src: seq<Entry>, sn: nat, i: nat)
    requires Sorted(src) && Unambiguous(Elements(src)) && i < |src| && src[i].key.typ.Put?
    requires IsNewest(Elements(src), src[i].key.user, sn, src[i])
    ensures Live(src, sn, i)
  {
    forall j | 0 <= j < i && src[j].key.user == src[i].key.user ensures !Visible(src, sn, j) {
      assert Less(src[j].key, src[i].key) && src[j] in Elements(src);
    }
  }

  // The keys the iterator stops at, with their values, are what reads at its sequence number find.
  lemma LiveIsFound(src: seq<Entry>, sn: nat, user: UserKey, v: Value)
    requires Sorted(src) && Unambiguous(Elements(src))
    ensures Finds(Elements(src), user, sn, v)
       <==> exists i: nat :: Live(src, sn, i) && src[i].key.user == user && src[i].value == v
  {
    hide Sorted, Live, IsNewest, Unambiguous;
    if Finds(Elements(src), user, sn, v) {
      var e :| IsNewest(Elements(src), user, sn, e) && e.key.typ.Put? && e.value == v;
      assert e in Elements(src) && e.key.user == user by { NewestIsThere(Elements(src), user, sn, e); }
      var i :| 0 <= i < |src| && src[i] == e;
      NewestIsLive(src, sn, i);
    }
    forall i: nat | Live(src, sn, i) && i < |src| && src[i].key.user == user && src[i].value == v
      ensures Finds(Elements(src), user, sn, v)
    {
      LiveIsNewest(src, sn, i);
      LiveInRange(src, sn, i);
    }
    forall i: nat | Live(src, sn, i) ensures i < |src| { LiveInRange(src, sn, i); }
  }

  lemma NewestIsThere(entries: set<Entry>, user: UserKey, sn: nat, e: Entry)
    requires IsNewest(entries, user, sn, e)
    ensures e in entries && e.key.user == user
  {
  }

  lemma LiveInRange(src: seq<Entry>, sn: nat, i: nat)
    requires Live(src, sn, i)
    ensures i < |src| && src[i].key.typ.Put?
  {
  }

  // Each user key is shown once, in ascending order.
  lemma LiveAscending(src: seq<Entry>, sn: nat, i: nat, j: nat)
    requires Sorted(src) && Live(src, sn, i) && Live(src, sn, j) && i < j
    ensures src[i].key.user < src[j].key.user
  {
    assert Less(src[i].key, src[j].key);
  }
}
