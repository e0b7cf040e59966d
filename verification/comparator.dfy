// The bytewise order and the order of encoded internal keys (util/comparator.cc, db/dbformat.cc).

module Comparators {
  import opened Coding
  import DbFormat

  // Slice::compare: by the first byte that differs, a proper front first.
  predicate Below(a: Bytes, b: Bytes) {
    if b == [] then false
    else if a == [] then true
    else a[0] < b[0] || (a[0] == b[0] && Below(a[1..], b[1..]))
  }

  lemma {:induction false} BelowTotal(a: Bytes, b: Bytes)
    ensures !(Below(a, b) && Below(b, a)) && (a == b || Below(a, b) || Below(b, a)) && !Below(a, a)
    decreases |a| + |b|
  {
    if a != [] && b != [] {
      BelowTotal(a[1..], b[1..]);
      assert a == [a[0]] + a[1..] && b == [b[0]] + b[1..];
    }
    BelowIrreflexive(a);
  }

  lemma {:induction false} BelowIrreflexive(a: Bytes)
    ensures !Below(a, a)
  {
    if a == [] {
    } else {
      BelowIrreflexive(a[1..]);
    }
  }

  lemma {:induction false} BelowTransitive(a: Bytes, b: Bytes, c: Bytes)
    requires Below(a, b) && Below(b, c)
    ensures Below(a, c)
    decreases |a|
  {
    if a != [] && a[0] == b[0] == c[0] { BelowTransitive(a[1..], b[1..], c[1..]); }
  }

  // Strings that agree up to place k are ordered by what stands there.
  lemma {:induction false} BelowAt(a: Bytes, b: Bytes, k: nat)
    requires k <= |a| && k <= |b| && a[..k] == b[..k]
    ensures Below(a, b) <==> Below(a[k..], b[k..])
    decreases k
  {
    if k == 0 {
    } else {
      assert a[0] == a[..k][0] == b[..k][0] == b[0];
      assert a[1..][..k - 1] == a[..k][1..] && b[1..][..k - 1] == b[..k][1..];
      BelowAt(a[1..], b[1..], k - 1);
      assert a[1..][k - 1..] == a[k..] && b[1..][k - 1..] == b[k..];
    }
  }

  // A string not shorter than start's front and below limit, at or after start.
  method FindShortestSeparator(start: Bytes, limit: Bytes) returns (r: Bytes)
    ensures |r| <= |start| && (r == start || Below(start, r))
    ensures Below(start, limit) ==> Below(r, limit)
    ensures start == limit ==> r == start
  {
    var minLength := if |start| < |limit| then |start| else |limit|;
    var diffIndex := 0;
    while diffIndex < minLength && start[diffIndex] == limit[diffIndex]
      invariant diffIndex <= minLength && start[..diffIndex] == limit[..diffIndex]
    {
      assert start[..diffIndex + 1] == start[..diffIndex] + [start[diffIndex]];
      assert limit[..diffIndex + 1] == limit[..diffIndex] + [limit[diffIndex]];
      diffIndex := diffIndex + 1;
    }
    r := start;
    if diffIndex >= minLength {
    } else {
      var diffByte: int := start[diffIndex];
      if diffByte < 0xff && diffByte + 1 < limit[diffIndex] {
        r := start[..diffIndex] + [diffByte + 1];
        assert r[..diffIndex] == start[..diffIndex] && r[diffIndex..] == [diffByte + 1];
        BelowAt(start, r, diffIndex);
        BelowAt(r, limit, diffIndex);
      }
    }
  }

  method FindShortSuccessor(key: Bytes) returns (r: Bytes)
    ensures |r| <= |key| && (r == key || Below(key, r))
  {
    for i := 0 to |key|
    {
      var byte: int := key[i];
      if byte != 0xff {
        r := key[..i] + [byte + 1];
        assert r[..i] == key[..i] && r[i..] == [byte + 1];
        BelowAt(key, r, i);
        return;
      }
    }
    r := key;
  }

  // ---- Encoded internal keys ----

  function InternalKey(user: Bytes, tag: nat): (r: Bytes)
    ensures |r| == |user| + 8
  {
    user + Fixed(tag, 8)
  }

  function UserOf(key: Bytes): Bytes
    requires |key| >= 8
  {
    key[..|key| - 8]
  }

  function TagOf(key: Bytes): nat
    requires |key| >= 8
  {
    DecodeFixed(key[|key| - 8..])
  }

  // InternalKeyComparator: increasing user key, then decreasing trailer.
  predicate InternalBelow(a: Bytes, b: Bytes) {
    && |a| >= 8 && |b| >= 8
    && (Below(UserOf(a), UserOf(b)) || (UserOf(a) == UserOf(b) && TagOf(a) > TagOf(b)))
  }

  lemma InternalTransitive(a: Bytes, b: Bytes, c: Bytes)
    ensures InternalBelow(a, b) && InternalBelow(b, c) ==> InternalBelow(a, c)
    ensures !InternalBelow(a, a)
  {
    hide Below, DecodeFixed;
    if |a| >= 8 { BelowTotal(UserOf(a), UserOf(a)); }
    if InternalBelow(a, b) && InternalBelow(b, c) && Below(UserOf(a), UserOf(b)) && Below(UserOf(b), UserOf(c)) {
      BelowTransitive(UserOf(a), UserOf(b), UserOf(c));
    }
  }

  lemma {:induction false} FixedOfDecode(bytes: Bytes)
    ensures Fixed(DecodeFixed(bytes), |bytes|) == bytes
  {
    if bytes == [] {
    } else {
      FixedOfDecode(bytes[1..]);
    }
  }

  lemma InternalTotal(a: Bytes, b: Bytes)
    requires |a| >= 8 && |b| >= 8
    ensures a == b || InternalBelow(a, b) || InternalBelow(b, a)
  {
    hide Below, DecodeFixed, Fixed;
    BelowTotal(UserOf(a), UserOf(b));
    if UserOf(a) == UserOf(b) && TagOf(a) == TagOf(b) {
      FixedOfDecode(a[|a| - 8..]);
      FixedOfDecode(b[|b| - 8..]);
      assert a == UserOf(a) + a[|a| - 8..] && b == UserOf(b) + b[|b| - 8..];
    }
  }

  lemma InternalParts(user: Bytes, tag: nat)
    requires tag < U64
    ensures UserOf(InternalKey(user, tag)) == user && TagOf(InternalKey(user, tag)) == tag
  {
    hide Fixed, DecodeFixed;
    assert Power(256, 8) == 256 * (256 * (256 * (256 * (256 * (256 * (256 * 256))))));
    FixedRoundTrip(tag, 8);
    assert InternalKey(user, tag)[|user|..] == Fixed(tag, 8);
  }

  // PackSequenceAndType(kMaxSequenceNumber, kValueTypeForSeek).
  const EARLIEST_TAG: nat := DbFormat.MAX_SEQUENCE * 256 + 1

  // The separator is the start itself, or a key of a user key strictly between the two.
  method InternalShortestSeparator(start: Bytes, limit: Bytes) returns (r: Bytes)
    requires |start| >= 8 && |limit| >= 8
    ensures |r| >= 8 && (r == start || Below(UserOf(start), UserOf(r)))
    ensures InternalBelow(start, limit) && r != start ==> Below(UserOf(r), UserOf(limit))
  {
    hide Below, DecodeFixed, Fixed;
    var tmp := FindShortestSeparator(UserOf(start), UserOf(limit));
    BelowTotal(UserOf(start), tmp);
    r := start;
    if |tmp| < |UserOf(start)| && Below(UserOf(start), tmp) {
      r := InternalKey(tmp, EARLIEST_TAG);
      InternalParts(tmp, EARLIEST_TAG);
    }
  }

  method InternalShortSuccessor(key: Bytes) returns (r: Bytes)
    requires |key| >= 8
    ensures |r| >= 8 && (r == key || Below(UserOf(key), UserOf(r)))
  {
    hide Below, DecodeFixed, Fixed;
    var tmp := FindShortSuccessor(UserOf(key));
    r := key;
    if |tmp| < |UserOf(key)| && Below(UserOf(key), tmp) {
      r := InternalKey(tmp, EARLIEST_TAG);
      InternalParts(tmp, EARLIEST_TAG);
    }
  }
}
