/** Byte-wise order, internal-key order, and the keys that separate blocks in a table's index
    (util/comparator.cc, db/dbformat.cc). */
module Comparators {
  import opened Coding

  /** Lexicographic order on bytes. */
  predicate Before(a: Bytes, b: Bytes) {
    b != [] && (a == [] || a[0] < b[0] || (a[0] == b[0] && Before(a[1..], b[1..])))
  }

  lemma {:induction false} BeforeIsTotal(a: Bytes, b: Bytes)
    ensures !Before(a, a)
    ensures a == b || Before(a, b) || Before(b, a)
    ensures !(Before(a, b) && Before(b, a))
    decreases |a|
  {
    if a != [] {
      BeforeIsTotal(a[1..], if b == [] then [] else b[1..]);
      assert a == [a[0]] + a[1..];
      if b != [] {
        assert b == [b[0]] + b[1..];
      }
    }
  }

  lemma {:induction false} BeforeIsTransitive(a: Bytes, b: Bytes, c: Bytes)
    requires Before(a, b) && Before(b, c)
    ensures Before(a, c)
    decreases |a|
  {
    if a != [] && a[0] == b[0] == c[0] {
      BeforeIsTransitive(a[1..], b[1..], c[1..]);
    }
  }

  /** Where two strings part: one has ended, or has the smaller byte. */
  predicate SmallerAt(a: Bytes, b: Bytes, i: nat) {
    i <= |a| && i < |b| && a[..i] == b[..i] && (i == |a| || a[i] < b[i])
  }

  /** The order is that of the first byte in which two strings differ, and a prefix comes first. */
  lemma {:induction false} BeforeIff(a: Bytes, b: Bytes)
    ensures Before(a, b) <==> exists i: nat :: SmallerAt(a, b, i)
  {
    if Before(a, b) && a != [] && a[0] == b[0] {
      BeforeIff(a[1..], b[1..]);
      var i: nat :| SmallerAt(a[1..], b[1..], i);
      assert a[..i + 1] == [a[0]] + a[1..][..i] && b[..i + 1] == [b[0]] + b[1..][..i];
      assert SmallerAt(a, b, i + 1);
    } else if Before(a, b) {
      assert SmallerAt(a, b, 0);
    }
    forall i: nat | SmallerAt(a, b, i) ensures Before(a, b) {
      if i > 0 {
        assert a[0] == a[..i][0] == b[..i][0] == b[0];
        assert a[1..][..i - 1] == a[..i][1..] == b[..i][1..] == b[1..][..i - 1];
        assert SmallerAt(a[1..], b[1..], i - 1);
        BeforeIff(a[1..], b[1..]);
      }
    }
  }

  /** Strings that agree up to position i are ordered by what follows. */
  lemma {:induction false} BeforeFrom(a: Bytes, b: Bytes, i: nat)
    requires i <= |a| && i <= |b| && a[..i] == b[..i]
    ensures Before(a, b) <==> Before(a[i..], b[i..])
    decreases i
  {
    if i > 0 {
      assert a[0] == a[..i][0] == b[..i][0] == b[0];
      assert a[1..][..i - 1] == a[..i][1..] == b[..i][1..] == b[1..][..i - 1];
      BeforeFrom(a[1..], b[1..], i - 1);
      assert a[1..][i - 1..] == a[i..] && b[1..][i - 1..] == b[i..];
    }
  }

  /** The strings part at d, with room between their bytes there. */
  predicate GapAt(start: Bytes, limit: Bytes, d: nat) {
    && d < |start| && d < |limit| && start[..d] == limit[..d]
    && start[d] != limit[d] && start[d] < 255 && start[d] + 1 < limit[d]
  }

  /** FindShortestSeparator: changes `start` only to a string no longer, from `start` on and below
      `limit`, and does so whenever there is a gap where the two part. */
  method FindShortestSeparator(start: Bytes, limit: Bytes) returns (r: Bytes)
    ensures r == start || (|r| <= |start| && Before(start, r) && Before(r, limit))
    ensures forall d: nat :: GapAt(start, limit, d) ==> r != start && r == start[..d] + [start[d] + 1]
    ensures r != start ==> exists d: nat :: GapAt(start, limit, d)
  {
    var minLength := if |start| <= |limit| then |start| else |limit|;
    var diff := 0;
    while diff < minLength && start[diff] == limit[diff]
      invariant diff <= minLength && start[..diff] == limit[..diff]
    {
      diff := diff + 1;
    }
    if diff >= minLength {
      return start;
    }
    var byte := start[diff];
    if byte < 255 && byte + 1 < limit[diff] {
      r := start[..diff] + [byte + 1];
      assert r[..diff] == start[..diff] && r[diff..] == [byte + 1];
      BeforeFrom(start, r, diff);
      BeforeFrom(r, limit, diff);
      assert GapAt(start, limit, diff);
    } else {
      r := start;
    }
  }

  /** The first byte that can be raised. */
  predicate RaisedAt(key: Bytes, i: nat) {
    i < |key| && key[i] < 255 && forall j :: 0 <= j < i ==> key[j] == 255
  }

  /** FindShortSuccessor: a string no longer than the key and above it, unless the key is a run of
      the largest byte. */
  method FindShortSuccessor(key: Bytes) returns (r: Bytes)
    ensures r == key || (|r| <= |key| && Before(key, r))
    ensures r == key <==> forall i :: 0 <= i < |key| ==> key[i] == 255
    ensures forall i: nat :: RaisedAt(key, i) ==> r == key[..i] + [key[i] + 1]
    ensures r != key ==> Before(key, r) && exists i: nat :: RaisedAt(key, i)
  {
    var i := 0;
    while i < |key|
      invariant forall j :: 0 <= j < i && j < |key| ==> key[j] == 255
    {
      if key[i] != 255 {
        r := key[..i] + [key[i] + 1];
        assert RaisedAt(key, i);
        assert r[..i] == key[..i] && r[i..] == [key[i] + 1];
        BeforeFrom(key, r, i);
        return;
      }
      i := i + 1;
    }
    r := key;
  }

  // ---------- internal keys ----------

  /** A user key and the packed sequence number and type. */
  datatype TableKey = TableKey(user: Bytes, tag: nat)

  /** The tag that sorts before every other of its user key. */
  const MAX_TAG: nat := 0xFFFF_FFFF_FFFF_FF01

  predicate KeyBefore(a: TableKey, b: TableKey) {
    Before(a.user, b.user) || (a.user == b.user && a.tag > b.tag)
  }

  predicate KeyAtOrBefore(a: TableKey, b: TableKey) {
    a == b || KeyBefore(a, b)
  }

  lemma KeyOrder(a: TableKey, b: TableKey, c: TableKey)
    ensures !KeyBefore(a, a)
    ensures a == b || KeyBefore(a, b) || KeyBefore(b, a)
    ensures !(KeyBefore(a, b) && KeyBefore(b, a))
    ensures KeyBefore(a, b) && KeyBefore(b, c) ==> KeyBefore(a, c)
  {
    BeforeIsTotal(a.user, b.user);
    BeforeIsTotal(b.user, c.user);
    if Before(a.user, b.user) && Before(b.user, c.user) {
      BeforeIsTransitive(a.user, b.user, c.user);
    }
  }

  /** What an index needs of the key between two blocks: it is the last key of the first block, or it
      lies behind it with a user key below everything in the second. */
  ghost predicate Separates(last: TableKey, sep: TableKey, next: TableKey) {
    sep == last || (KeyBefore(last, sep) && Before(sep.user, next.user))
  }

  lemma SeparatorIsBetween(last: TableKey, sep: TableKey, next: TableKey)
    requires Separates(last, sep, next) && KeyBefore(last, next)
    ensures KeyAtOrBefore(last, sep) && KeyBefore(sep, next)
  {
  }

  /** InternalKeyComparator::FindShortestSeparator: shortens the user key if that makes it physically
      shorter but logically larger. */
  method FindKeySeparator(start: TableKey, limit: TableKey) returns (r: TableKey)
    ensures Separates(start, r, limit)
    ensures forall d: nat :: GapAt(start.user, limit.user, d) && d + 1 < |start.user| ==>
              r == TableKey(start.user[..d] + [start.user[d] + 1], MAX_TAG)
    ensures r != start ==> exists d: nat :: GapAt(start.user, limit.user, d) && d + 1 < |start.user|
  {
    var tmp := FindShortestSeparator(start.user, limit.user);
    if |tmp| < |start.user| && Before(start.user, tmp) {
      r := TableKey(tmp, MAX_TAG);
    } else {
      r := start;
    }
  }

  method FindKeySuccessor(key: TableKey) returns (r: TableKey)
    ensures KeyAtOrBefore(key, r)
    ensures forall i: nat :: RaisedAt(key.user, i) && i + 1 < |key.user| ==> r == TableKey(key.user[..i] + [key.user[i] + 1], MAX_TAG)
    ensures r != key ==> exists i: nat :: RaisedAt(key.user, i) && i + 1 < |key.user|
  {
    hide Before;
    var tmp := FindShortSuccessor(key.user);
    if |tmp| < |key.user| && Before(key.user, tmp) {
      r := TableKey(tmp, MAX_TAG);
    } else {
      r := key;
    }
  }
}
