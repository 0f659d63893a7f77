/** Bytewise order and shortened index keys (util/comparator.cc, db/dbformat.cc). */
module Separators {
  import opened InternalKeys

  /** Lexicographic order of byte strings. */
  predicate Below(a: Bytes, b: Bytes) {
    if b == [] then false
    else if a == [] then true
    else a[0] < b[0] || (a[0] == b[0] && Below(a[1..], b[1..]))
  }

  lemma {:induction false} NotBelowItself(a: Bytes)
    ensures !Below(a, a)
  {
    if a != [] {
      NotBelowItself(a[1..]);
    }
  }

  lemma {:induction false} BelowTotal(a: Bytes, b: Bytes)
    ensures a == b || Below(a, b) || Below(b, a)
    ensures !(Below(a, b) && Below(b, a)) && !Below(a, a)
    decreases |a| + |b|
  {
    NotBelowItself(a);
    if a != [] && b != [] {
      BelowTotal(a[1..], b[1..]);
      if a[0] == b[0] && a[1..] == b[1..] {
        assert a == [a[0]] + a[1..] == b;
      }
    }
  }

  lemma {:induction false} BelowTransitive(a: Bytes, b: Bytes, c: Bytes)
    requires Below(a, b) && Below(b, c)
    ensures Below(a, c)
    decreases |a|
  {
    if a != [] && a[0] == b[0] == c[0] {
      BelowTransitive(a[1..], b[1..], c[1..]);
    }
  }

  /** Strings that part at position `n` are ordered by their bytes there. */
  lemma {:induction false} PartAt(a: Bytes, b: Bytes, n: nat)
    requires n < |a| && n < |b| && a[..n] == b[..n] && a[n] < b[n]
    ensures Below(a, b)
    decreases n
  {
    if n > 0 {
      assert a[..n][0] == a[0] && b[..n][0] == b[0];
      assert a[1..][..n - 1] == a[..n][1..] && b[1..][..n - 1] == b[..n][1..];
      PartAt(a[1..], b[1..], n - 1);
    }
  }

  /** The strings part at position `n`, where the byte of `a` can be raised by one and stay below that of `b`. */
  predicate RaisableAt(a: Bytes, b: Bytes, n: nat) {
    n < |a| && n < |b| && a[..n] == b[..n] && a[n] as int + 1 < b[n] as int
  }

  /** Position `n` holds the first byte that is not 255. */
  predicate FirstBelow255(a: Bytes, n: nat) {
    n < |a| && a[n] < 255 && forall i :: 0 <= i < n ==> a[i] == 255
  }

  /** Cut off behind position `n`, whose byte is raised by one. */
  function Raised(a: Bytes, n: nat): Bytes
    requires n < |a| && a[n] < 255
  {
    a[..n] + [a[n] + 1]
  }

  /** Two strings part in one place only. */
  lemma OneParting(a: Bytes, b: Bytes, m: nat, n: nat)
    requires m <= |a| && m <= |b| && a[..m] == b[..m] && RaisableAt(a, b, n)
    requires m == |a| || m == |b| || a[m] != b[m]
    ensures m == n
  {
    assert forall i :: 0 <= i < m ==> a[..m][i] == a[i] && b[..m][i] == b[i];
    assert forall i :: 0 <= i < n ==> a[..n][i] == a[i] && b[..n][i] == b[i];
  }

  /** A string between `start` and `limit`, shorter if the byte where they part can be raised by one. */
  method FindShortestSeparator(start: Bytes, limit: Bytes) returns (r: Bytes)
    ensures r == start || (Below(start, r) && Below(r, limit))
    ensures r == start <==> forall n: nat :: !RaisableAt(start, limit, n)
    ensures forall n: nat :: RaisableAt(start, limit, n) ==> r == Raised(start, n)
  {
    var minLength := if |start| < |limit| then |start| else |limit|;
    var diff := 0;
    while diff < minLength && start[diff] == limit[diff]
      invariant 0 <= diff <= minLength && start[..diff] == limit[..diff]
    {
      diff := diff + 1;
    }
    r := start;
    forall n: nat | RaisableAt(start, limit, n) ensures diff < minLength && n == diff {
      OneParting(start, limit, diff, n);
    }
    if diff < minLength {
      var b := start[diff];
      if b < 255 && b + 1 < limit[diff] {
        r := start[..diff] + [b + 1];
        assert r[..diff] == start[..diff];
        PartAt(start, r, diff);
        PartAt(r, limit, diff);
        assert RaisableAt(start, limit, diff);
        assert r[diff] != start[diff];
      }
    }
  }

  /** A string at or after `key`, shorter if some byte can be raised. */
  method FindShortSuccessor(key: Bytes) returns (r: Bytes)
    ensures r == key || Below(key, r)
    ensures r == key <==> forall n: nat :: !FirstBelow255(key, n)
    ensures forall n: nat :: FirstBelow255(key, n) ==> r == Raised(key, n)
  {
    var i := 0;
    while i < |key|
      invariant 0 <= i <= |key| && forall j :: 0 <= j < i ==> key[j] == 255
    {
      if key[i] != 255 {
        r := key[..i] + [key[i] + 1];
        assert r[..i] == key[..i];
        PartAt(key, r, i);
        assert FirstBelow255(key, i);
        assert r[i] != key[i];
        return;
      }
      i := i + 1;
    }
    r := key;
  }

  // ---------- internal keys ----------

  /** An internal key with its user key as bytes and its packed sequence number and type. */
  datatype TableKey = TableKey(user: Bytes, tag: nat)

  /** The greatest tag, which sorts first among those of a user key. */
  const FIRST_TAG: nat := MAX_SEQUENCE * 256 + 1

  predicate Precedes(a: TableKey, b: TableKey) {
    Below(a.user, b.user) || (a.user == b.user && a.tag > b.tag)
  }

  lemma PrecedesTotal(a: TableKey, b: TableKey)
    ensures a == b || Precedes(a, b) || Precedes(b, a)
    ensures !(Precedes(a, b) && Precedes(b, a)) && !Precedes(a, a)
  {
    hide Below;
    BelowTotal(a.user, b.user);
    BelowTotal(a.user, a.user);
  }

  lemma PrecedesTransitive(a: TableKey, b: TableKey, c: TableKey)
    requires Precedes(a, b) && Precedes(b, c)
    ensures Precedes(a, c)
  {
    hide Below;
    if Below(a.user, b.user) && Below(b.user, c.user) {
      BelowTransitive(a.user, b.user, c.user);
    }
  }

  /** The key itself, or one of a user key strictly between. */
  predicate Separates(last: TableKey, r: TableKey, next: TableKey) {
    r == last || (Below(last.user, r.user) && Below(r.user, next.user) && r.tag == FIRST_TAG)
  }

  /** Shortened if that makes the user key shorter, with the tag that sorts first; else left as it is. */
  ghost predicate ShortSeparator(start: TableKey, limit: TableKey, r: TableKey) {
    && (r != start <==> exists n: nat :: RaisableAt(start.user, limit.user, n) && n + 1 < |start.user|)
    && forall n: nat :: RaisableAt(start.user, limit.user, n) && n + 1 < |start.user| ==>
         r == TableKey(Raised(start.user, n), FIRST_TAG)
  }

  ghost predicate ShortSuccessor(key: TableKey, r: TableKey) {
    && (r != key <==> exists n: nat :: FirstBelow255(key.user, n) && n + 1 < |key.user|)
    && forall n: nat :: FirstBelow255(key.user, n) && n + 1 < |key.user| ==>
         r == TableKey(Raised(key.user, n), FIRST_TAG)
  }

  method FindInternalSeparator(start: TableKey, limit: TableKey) returns (r: TableKey)
    ensures Separates(start, r, limit) && ShortSeparator(start, limit, r)
  {
    hide Below, FirstBelow255;
    var tmp := FindShortestSeparator(start.user, limit.user);
    r := start;
    if |tmp| < |start.user| && Below(start.user, tmp) {
      r := TableKey(tmp, FIRST_TAG);
    }
  }

  method FindInternalSuccessor(key: TableKey) returns (r: TableKey)
    ensures (r == key || (Below(key.user, r.user) && r.tag == FIRST_TAG)) && ShortSuccessor(key, r)
  {
    hide Below, RaisableAt;
    var tmp := FindShortSuccessor(key.user);
    r := key;
    if |tmp| < |key.user| && Below(key.user, tmp) {
      r := TableKey(tmp, FIRST_TAG);
    }
  }
}
