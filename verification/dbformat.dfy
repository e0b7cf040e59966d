// Internal keys and entries (db/dbformat.h, db/dbformat.cc).

module DbFormat {

  // A user key is represented by its place in the user comparator's total order. Every total
  // order on the (countably many) byte strings embeds in the reals, so nothing is lost.
  type UserKey = real
  type Value = string

  const MAX_SEQUENCE: nat := 0x100_0000_0000_0000 - 1
  const NUM_LEVELS: nat := 7
  const MAX_MEM_COMPACT_LEVEL: nat := 2

  type SequenceNumber = sn: nat | sn <= MAX_SEQUENCE

  datatype ValueType = Deletion | Put

  datatype Key = Key(user: UserKey, sn: SequenceNumber, typ: ValueType)
  {
    // The packed trailer: the type sits in the low eight bits.
    function Tag(): nat { sn * 256 + (if typ.Put? then 1 else 0) }
  }

  datatype Entry = Entry(key: Key, value: Value)

  // InternalKeyComparator: increasing user key, then decreasing trailer.
  function Compare(a: Key, b: Key): int {
    if a.user < b.user then -1
    else if a.user > b.user then 1
    else if a.Tag() > b.Tag() then -1
    else if a.Tag() < b.Tag() then 1
    else 0
  }

  predicate Less(a: Key, b: Key) { Compare(a, b) < 0 }

  // The key that sorts first among those of `user` with sequence number at most `sn`.
  function SeekKey(user: UserKey, sn: SequenceNumber): Key { Key(user, sn, Put) }

  ghost predicate Sorted(run: seq<Entry>) {
    forall i, j :: 0 <= i < j < |run| ==> Less(run[i].key, run[j].key)
  }

  function Elements(run: seq<Entry>): set<Entry> { set e | e in run }

  ghost predicate IsNewest(entries: set<Entry>, user: UserKey, sn: nat, e: Entry) {
    && e in entries && e.key.user == user && e.key.sn <= sn
    && forall f :: f in entries && f.key.user == user && f.key.sn <= sn ==> f.key.sn <= e.key.sn
  }

  // What a read of `user` at sequence number `sn` finds in a set of entries.
  ghost predicate Finds(entries: set<Entry>, user: UserKey, sn: nat, value: Value) {
    exists e :: IsNewest(entries, user, sn, e) && e.key.typ.Put? && e.value == value
  }

  // No two entries of one user key carry the same sequence number.
  ghost predicate Unambiguous(entries: set<Entry>) {
    forall e, f :: e in entries && f in entries && e.key.user == f.key.user && e.key.sn == f.key.sn ==> e == f
  }

  // Some entry is newest as soon as one is visible.
  lemma {:induction false} NewestExists(entries: set<Entry>, user: UserKey, sn: nat, e: Entry)
    requires e in entries && e.key.user == user && e.key.sn <= sn
    ensures exists n :: IsNewest(entries, user, sn, n) && e.key.sn <= n.key.sn
    decreases sn - e.key.sn
  {
    if f :| f in entries && f.key.user == user && e.key.sn < f.key.sn <= sn {
      NewestExists(entries, user, sn, f);
    } else {
      assert IsNewest(entries, user, sn, e);
    }
  }
}
