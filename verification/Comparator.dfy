/** The bytewise order of keys and the short separators of index blocks (util/comparator.cc,
    db/dbformat.cc). */
module Comparator {
  import opened Coding
  import opened Block

  /** Slice::compare: the first byte that differs decides, else the shorter is smaller. */
  predicate BytesLess(a: Bytes, b: Bytes) {
    if b == [] then false
    else if a == [] then true
    else if a[0] != b[0] then a[0] < b[0]
    else BytesLess(a[1..], b[1..])
  }

  lemma {:induction false} LessAsymmetric(a: Bytes, b: Bytes)
    requires BytesLess(a, b)
    ensures !BytesLess(b, a)
  {
    if a != [] && a[0] == b[0] { LessAsymmetric(a[1..], b[1..]); }
  }

  lemma {:induction false} LessTransitive(a: Bytes, b: Bytes, c: Bytes)
    requires BytesLess(a, b) && BytesLess(b, c)
    ensures BytesLess(a, c)
  {
    if a != [] && a[0] == b[0] == c[0] { LessTransitive(a[1..], b[1..], c[1..]); }
  }

  lemma {:induction false} LessTotal(a: Bytes, b: Bytes)
    ensures BytesLess(a, b) || BytesLess(b, a) || a == b
  {
    if a != [] && b != [] && a[0] == b[0] {
      LessTotal(a[1..], b[1..]);
      assert a == [a[0]] + a[1..] && b == [b[0]] + b[1..];
    }
  }

  lemma BytesStrict()
    ensures Strict(BytesLess)
  {
    forall a, b | BytesLess(a, b) ensures !BytesLess(b, a) {
      LessAsymmetric(a, b);
    }
    forall a, b, c | BytesLess(a, b) && BytesLess(b, c) ensures BytesLess(a, c) {
      LessTransitive(a, b, c);
    }
    forall a, b, c | BytesLess(a, b) && !BytesLess(c, b) ensures BytesLess(a, c) {
      LessTotal(b, c);
      if BytesLess(b, c) { LessTransitive(a, b, c); }
    }
  }

  /** Strings that agree up to n and differ there are ordered by their bytes at n. */
  lemma {:induction false} DiffersAt(a: Bytes, b: Bytes, n: nat)
    requires n <= |a| && n < |b| && a[..n] == b[..n] && (n < |a| ==> a[n] != b[n])
    ensures BytesLess(a, b) <==> n == |a| || a[n] < b[n]
    decreases n
  {
    if n > 0 {
      assert a[0] == a[..n][0] == b[..n][0] == b[0];
      assert a[1..][..n - 1] == a[..n][1..] && b[1..][..n - 1] == b[..n][1..];
      DiffersAt(a[1..], b[1..], n - 1);
    }
  }

  /** How many leading bytes two strings share. */
  method CommonPrefix(a: Bytes, b: Bytes) returns (n: nat)
    ensures n <= |a| && n <= |b| && a[..n] == b[..n] && (n < |a| && n < |b| ==> a[n] != b[n])
  {
    n := 0;
    while n < |a| && n < |b| && a[n] == b[n]
      invariant n <= |a| && n <= |b| && a[..n] == b[..n]
    {
      n := n + 1;
    }
  }

  /** The strings agree up to n, and a larger byte there still stays below the limit's. */
  predicate CanShorten(start: Bytes, limit: Bytes, n: nat) {
    n < |start| && n < |limit| && start[..n] == limit[..n] && start[n] < 0xff && start[n] + 1 < limit[n]
  }

  /** FindShortestSeparator: a string from `start` on and before `limit`, shorter when possible. */
  method FindShortestSeparator(start: Bytes, limit: Bytes) returns (r: Bytes)
    ensures !BytesLess(r, start) && |r| <= |start|
    ensures BytesLess(start, limit) ==> BytesLess(r, limit)
    ensures r != start ==> BytesLess(start, r) && start != limit
    ensures forall n: nat :: CanShorten(start, limit, n) ==> |r| == n + 1
    ensures r != start ==> exists n: nat :: CanShorten(start, limit, n)
  {
    r := start;
    NotLess(start);
    var n := CommonPrefix(start, limit);
    forall m: nat | CanShorten(start, limit, m) ensures m == n {
      var a, b := start[..m], limit[..m];
      assert forall i :: 0 <= i < |a| && i < |b| ==> a[i] == start[i] && b[i] == limit[i];
      var c, d := start[..n], limit[..n];
      assert forall i :: 0 <= i < |c| && i < |d| ==> c[i] == start[i] && d[i] == limit[i];
    }
    if n < |start| && n < |limit| && start[n] < 0xff && start[n] + 1 < limit[n] {
      r := start[..n] + [start[n] + 1];
      assert CanShorten(start, limit, n) && r[..n] == start[..n];
      DiffersAt(r, limit, n);
      DiffersAt(start, r, n);
      DiffersAt(r, start, n);
    }
  }

  lemma {:induction false} NotLess(a: Bytes)
    ensures !BytesLess(a, a)
  {
    if a != [] { NotLess(a[1..]); }
  }

  /** FindShortSuccessor: a string from the key on, shorter when possible. */
  method FindShortSuccessor(key: Bytes) returns (r: Bytes)
    ensures !BytesLess(r, key) && |r| <= |key|
    ensures r != key ==> BytesLess(key, r)
    ensures forall n: nat :: n < |key| && key[n] != 0xff ==> |r| <= n + 1
  {
    NotLess(key);
    for i := 0 to |key|
      invariant forall j :: 0 <= j < i ==> key[j] == 0xff
    {
      if key[i] != 0xff {
        r := key[..i] + [key[i] + 1];
        assert r[..i] == key[..i];
        DiffersAt(r, key, i);
        DiffersAt(key, r, i);
        return;
      }
    }
    r := key;
  }

  // Internal keys

  const TAG_SIZE: nat := 8

  function UserKey(k: Bytes): Bytes
    requires |k| >= TAG_SIZE
  {
    k[..|k| - TAG_SIZE]
  }

  function TagOf(k: Bytes): nat
    requires |k| >= TAG_SIZE
  {
    DecodeFixed64(k[|k| - TAG_SIZE..])
  }

  function InternalKey(user: Bytes, tag: nat): (k: Bytes)
    ensures |k| >= TAG_SIZE
  {
    user + EncodeFixed64(tag)
  }

  lemma InternalParts(user: Bytes, tag: nat)
    requires tag < MAX_SIZE * MAX_SIZE
    ensures UserKey(InternalKey(user, tag)) == user && TagOf(InternalKey(user, tag)) == tag
  {
    var k := InternalKey(user, tag);
    assert k[|k| - TAG_SIZE..] == EncodeFixed64(tag);
    DecodeEncode64(tag, []);
    assert EncodeFixed64(tag) + [] == EncodeFixed64(tag);
  }

  /** InternalKeyComparator: increasing user key, then decreasing tag. Strings too short to be
      internal keys, which it is never given, come first. */
  predicate InternalLess(a: Bytes, b: Bytes) {
    if |b| < TAG_SIZE then false
    else if |a| < TAG_SIZE then true
    else BytesLess(UserKey(a), UserKey(b)) || (UserKey(a) == UserKey(b) && TagOf(a) > TagOf(b))
  }

  lemma InternalStrict()
    ensures Strict(InternalLess)
  {
    forall a, b | InternalLess(a, b) ensures !InternalLess(b, a) {
      if |a| >= TAG_SIZE {
        if BytesLess(UserKey(a), UserKey(b)) { LessAsymmetric(UserKey(a), UserKey(b)); } else { NotLess(UserKey(a)); }
      }
    }
    forall a, b, c | InternalLess(a, b) && InternalLess(b, c) ensures InternalLess(a, c) {
      InternalTransitive(a, b, c);
    }
    forall a, b, c | InternalLess(a, b) && !InternalLess(c, b) ensures InternalLess(a, c) {
      InternalFollows(a, b, c);
    }
  }

  lemma InternalTransitive(a: Bytes, b: Bytes, c: Bytes)
    requires InternalLess(a, b) && InternalLess(b, c)
    ensures InternalLess(a, c)
  {
    if |a| >= TAG_SIZE && BytesLess(UserKey(a), UserKey(b)) && BytesLess(UserKey(b), UserKey(c)) {
      LessTransitive(UserKey(a), UserKey(b), UserKey(c));
    }
  }

  lemma InternalFollows(a: Bytes, b: Bytes, c: Bytes)
    requires InternalLess(a, b) && !InternalLess(c, b)
    ensures InternalLess(a, c)
  {
    if |a| >= TAG_SIZE && |c| >= TAG_SIZE {
      LessTotal(UserKey(b), UserKey(c));
      if BytesLess(UserKey(b), UserKey(c)) && BytesLess(UserKey(a), UserKey(b)) {
        LessTransitive(UserKey(a), UserKey(b), UserKey(c));
      }
    }
  }

  /** The greatest tag, with which a user key comes first. */
  const MAX_TAG: nat := 0xFFFF_FFFF_FFFF_FF01

  /** The separator of internal keys: from `start` on and before `limit`. */
  method InternalSeparator(start: Bytes, limit: Bytes) returns (r: Bytes)
    requires |start| >= TAG_SIZE && |limit| >= TAG_SIZE
    ensures |r| >= TAG_SIZE && |r| <= |start| && !InternalLess(r, start)
    ensures InternalLess(start, limit) ==>
        InternalLess(r, limit) && (r == start || BytesLess(UserKey(r), UserKey(limit)))
  {
    NotLess(UserKey(start));
    var tmp := FindShortestSeparator(UserKey(start), UserKey(limit));
    if |tmp| < |UserKey(start)| && BytesLess(UserKey(start), tmp) {
      r := InternalKey(tmp, MAX_TAG);
      InternalParts(tmp, MAX_TAG);
      LessAsymmetric(UserKey(start), tmp);
      NotBoth(UserKey(start), tmp);
      if InternalLess(start, limit) { SeparatorBefore(start, limit, tmp, r); }
    } else {
      r := start;
    }
  }

  lemma NotBoth(a: Bytes, b: Bytes)
    requires BytesLess(a, b)
    ensures a != b
  {
    NotLess(a);
  }

  /** A user key is shortened only when it differs from the limit's. */
  lemma SeparatorBefore(start: Bytes, limit: Bytes, tmp: Bytes, r: Bytes)
    requires |start| >= TAG_SIZE && |limit| >= TAG_SIZE && |r| >= TAG_SIZE && UserKey(r) == tmp
    requires InternalLess(start, limit) && BytesLess(UserKey(start), tmp)
    requires BytesLess(UserKey(start), UserKey(limit)) ==> BytesLess(tmp, UserKey(limit))
    requires UserKey(start) != UserKey(limit)
    ensures InternalLess(r, limit) && BytesLess(UserKey(r), UserKey(limit))
  {
  }

  /** The successor of an internal key: from the key on. */
  method InternalSuccessor(key: Bytes) returns (r: Bytes)
    requires |key| >= TAG_SIZE
    ensures |r| >= TAG_SIZE && |r| <= |key| && !InternalLess(r, key)
  {
    NotLess(UserKey(key));
    var tmp := FindShortSuccessor(UserKey(key));
    if |tmp| < |UserKey(key)| && BytesLess(UserKey(key), tmp) {
      r := InternalKey(tmp, MAX_TAG);
      InternalParts(tmp, MAX_TAG);
      LessAsymmetric(UserKey(key), tmp);
      NotBoth(UserKey(key), tmp);
    } else {
      r := key;
    }
  }
}
