// What a compaction may drop (db/db_impl.cc, DoCompactionWork), on sets of entries.

module CompactionRule {
  import opened DbFormat

  // Rule (A): a newer entry of the same user key, already visible to the oldest snapshot, is
  // among the inputs.
  ghost predicate Hidden(inputs: set<Entry>, smallestSnapshot: nat, e: Entry) {
    exists f :: f in inputs && f.key.user == e.key.user && e.key.sn < f.key.sn <= smallestSnapshot
  }

  // A deletion marker visible to the oldest snapshot whose key the deeper levels cannot hold.
  ghost predicate Obsolete(base: iset<UserKey>, smallestSnapshot: nat, e: Entry) {
    e.key.typ.Deletion? && e.key.sn <= smallestSnapshot && e.key.user in base
  }

  ghost predicate Dropped(inputs: set<Entry>, base: iset<UserKey>, smallestSnapshot: nat, e: Entry) {
    Hidden(inputs, smallestSnapshot, e) || Obsolete(base, smallestSnapshot, e)
  }

  ghost function Survivors(tree: set<Entry>, inputs: set<Entry>, base: iset<UserKey>,
      smallestSnapshot: nat): set<Entry> {
    set e | e in tree && !(e in inputs && Dropped(inputs, base, smallestSnapshot, e))
  }

  // The compaction would bring an overwritten value of `user` back: the newest visible entry is a
  // deletion marker that gets dropped, and the newest older entry left outside the inputs is a value.
  ghost predicate Resurrects(tree: set<Entry>, inputs: set<Entry>, base: iset<UserKey>, smallestSnapshot: nat,
      user: UserKey) {
    exists marker, stale ::
      && IsNewest(tree, user, smallestSnapshot, marker)
      && marker in inputs && Obsolete(base, smallestSnapshot, marker)
      && marker.key.sn > 0 && IsNewest(tree - inputs, user, marker.key.sn - 1, stale)
      && stale.key.typ.Put?
  }

  ghost predicate SameReads(before: set<Entry>, after: set<Entry>, user: UserKey, sn: nat) {
    forall v :: Finds(before, user, sn, v) <==> Finds(after, user, sn, v)
  }

  // The newest entry at `sn` survives unless it is an obsolete marker.
  lemma NewestSurvives(tree: set<Entry>, inputs: set<Entry>, base: iset<UserKey>, ss: nat, user: UserKey, sn: nat,
      e: Entry)
    requires inputs <= tree && ss <= sn && IsNewest(tree, user, sn, e)
    requires !(e in inputs && Obsolete(base, ss, e))
    ensures IsNewest(Survivors(tree, inputs, base, ss), user, sn, e)
  {
  }

  // Below a dropped marker only entries outside the inputs are left.
  lemma BelowMarker(tree: set<Entry>, inputs: set<Entry>, base: iset<UserKey>, ss: nat, user: UserKey, sn: nat,
      marker: Entry, e: Entry)
    requires inputs <= tree && ss <= sn && Unambiguous(tree)
    requires IsNewest(tree, user, sn, marker) && marker in inputs && Obsolete(base, ss, marker)
    ensures IsNewest(Survivors(tree, inputs, base, ss), user, sn, e)
            <==> marker.key.sn > 0 && IsNewest(tree - inputs, user, marker.key.sn - 1, e)
  {
    var after := Survivors(tree, inputs, base, ss);
    forall f: Entry | f.key.user == user && f.key.sn <= sn
      ensures f in after <==> f in tree - inputs && f.key.sn < marker.key.sn
    {
      if f in inputs && f.key.sn < marker.key.sn {
        assert Hidden(inputs, ss, f);
      }
      assert f in tree && f.key.sn == marker.key.sn ==> f == marker;
    }
  }

  lemma ResurrectsRevives(tree: set<Entry>, inputs: set<Entry>, base: iset<UserKey>, ss: nat, user: UserKey)
    requires inputs <= tree && Unambiguous(tree) && Resurrects(tree, inputs, base, ss, user)
    ensures exists v :: Finds(Survivors(tree, inputs, base, ss), user, ss, v)
    ensures forall v :: !Finds(tree, user, ss, v)
  {
    var marker, stale :|
      && IsNewest(tree, user, ss, marker)
      && marker in inputs && Obsolete(base, ss, marker)
      && marker.key.sn > 0 && IsNewest(tree - inputs, user, marker.key.sn - 1, stale)
      && stale.key.typ.Put?;
    BelowMarker(tree, inputs, base, ss, user, ss, marker, stale);
    assert Finds(Survivors(tree, inputs, base, ss), user, ss, stale.value);
  }

  // Exactly when a compaction leaves every read at or after the oldest snapshot unchanged.
  lemma CompactionExact(tree: set<Entry>, inputs: set<Entry>, base: iset<UserKey>, ss: nat, user: UserKey)
    requires inputs <= tree && Unambiguous(tree)
    ensures SameReadsFrom(tree, Survivors(tree, inputs, base, ss), user, ss)
            <==> !Resurrects(tree, inputs, base, ss, user)
  {
    var after := Survivors(tree, inputs, base, ss);
    if Resurrects(tree, inputs, base, ss, user) {
      ResurrectsRevives(tree, inputs, base, ss, user);
      assert !SameReads(tree, after, user, ss);
    } else {
      forall sn | sn >= ss ensures SameReads(tree, after, user, sn) {
        KeepsRead(tree, inputs, base, ss, user, sn);
      }
    }
  }

  lemma KeepsRead(tree: set<Entry>, inputs: set<Entry>, base: iset<UserKey>, ss: nat, user: UserKey, sn: nat)
    requires inputs <= tree && Unambiguous(tree) && sn >= ss
    requires !Resurrects(tree, inputs, base, ss, user)
    ensures SameReads(tree, Survivors(tree, inputs, base, ss), user, sn)
  {
    var after := Survivors(tree, inputs, base, ss);
    forall v ensures Finds(tree, user, sn, v) <==> Finds(after, user, sn, v) {
      if n :| IsNewest(tree, user, sn, n) {
        if n in inputs && Obsolete(base, ss, n) {
          assert IsNewest(tree, user, ss, n);
          if stale :| IsNewest(after, user, sn, stale) {
            BelowMarker(tree, inputs, base, ss, user, sn, n, stale);
            assert stale.key.typ.Deletion?;
            assert forall e :: IsNewest(after, user, sn, e) ==> e == stale;
          }
        } else {
          NewestSurvives(tree, inputs, base, ss, user, sn, n);
          assert forall e :: IsNewest(after, user, sn, e) ==> e == n;
        }
      } else {
        forall e | IsNewest(after, user, sn, e) ensures false { NewestExists(tree, user, sn, e); }
      }
    }
  }

  ghost predicate SameReadsFrom(a: set<Entry>, b: set<Entry>, user: UserKey, from: nat) {
    forall sn :: sn >= from ==> SameReads(a, b, user, sn)
  }

  ghost predicate ReadsAgree(a: set<Entry>, b: set<Entry>, from: nat) {
    forall user :: SameReadsFrom(a, b, user, from)
  }

  // The same, for all user keys, when the reads of the tree before agree with those of `history`.
  lemma CompactionKeepsHistory(history: set<Entry>, tree: set<Entry>, inputs: set<Entry>, base: iset<UserKey>, ss: nat)
    requires inputs <= tree && Unambiguous(tree) && ReadsAgree(history, tree, ss)
    ensures ReadsAgree(history, Survivors(tree, inputs, base, ss), ss)
            <==> forall user :: !Resurrects(tree, inputs, base, ss, user)
  {
    var after := Survivors(tree, inputs, base, ss);
    forall user ensures !Resurrects(tree, inputs, base, ss, user) <==> SameReadsFrom(history, after, user, ss) {
      CompactionExact(tree, inputs, base, ss, user);
      SameReadsVia(history, tree, after, user, ss);
    }
  }

  lemma SameReadsVia(a: set<Entry>, b: set<Entry>, c: set<Entry>, user: UserKey, from: nat)
    requires SameReadsFrom(a, b, user, from)
    ensures SameReadsFrom(a, c, user, from) <==> SameReadsFrom(b, c, user, from)
  {
    forall sn | sn >= from ensures SameReads(a, c, user, sn) <==> SameReads(b, c, user, sn) {
      assert SameReads(a, b, user, sn);
    }
  }
}
