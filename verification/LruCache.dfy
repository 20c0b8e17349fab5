/** The cache of blocks and tables (util/cache.cc): a hash table, two circular lists and reference
    counts. Handles are numbered from 2 on; 0 and 1 are the heads of the two lists. */
module LruCache {
  import opened Format
  import opened Coding
  import opened Block

  // The hash table

  /** What the table sees of a handle. */
  datatype Slot = Slot(id: nat, hash: Word, key: Bytes)

  datatype Name = Name(hash: Word, key: Bytes)

  function NameOf(s: Slot): Name {
    Name(s.hash, s.key)
  }

  ghost predicate PowerOfTwo(n: nat) {
    n == 1 || (n > 1 && n % 2 == 0 && PowerOfTwo(n / 2))
  }

  /** hash & (length - 1), for a length that is a power of two. */
  function BucketOf(hash: Word, length: nat): (b: nat)
    requires length > 0
    ensures b < length
  {
    hash % length
  }

  ghost predicate BucketOk(list: seq<seq<Slot>>, contents: map<Name, nat>, b: nat)
    requires b < |list|
  {
    && (forall i :: 0 <= i < |list[b]| ==> SlotOk(list[b][i], |list|, contents, b))
    && forall i, j :: 0 <= i < j < |list[b]| ==> NameOf(list[b][i]) != NameOf(list[b][j])
  }

  ghost predicate SlotOk(s: Slot, length: nat, contents: map<Name, nat>, b: nat)
    requires length > 0
  {
    BucketOf(s.hash, length) == b && NameOf(s) in contents && contents[NameOf(s)] == s.id
  }

  ghost predicate Stored(list: seq<seq<Slot>>, contents: map<Name, nat>, n: Name)
    requires n in contents && |list| > 0
  {
    Slot(contents[n], n.hash, n.key) in list[BucketOf(n.hash, |list|)]
  }

  /** The buckets hold exactly the contents, each name where its hash says. */
  ghost predicate TableOk(list: seq<seq<Slot>>, contents: map<Name, nat>) {
    && |list| > 0 && (forall b :: 0 <= b < |list| ==> BucketOk(list, contents, b))
    && forall n :: n in contents ==> Stored(list, contents, n)
  }

  /** In place of slot i of bucket b, or at its end. */
  lemma PutKeeps(list: seq<seq<Slot>>, contents: map<Name, nat>, s: Slot, b: nat, i: nat)
    requires TableOk(list, contents) && b == BucketOf(s.hash, |list|) && i <= |list[b]|
    requires forall j :: 0 <= j < |list[b]| && NameOf(list[b][j]) == NameOf(s) ==> j == i
    requires i < |list[b]| ==> NameOf(list[b][i]) == NameOf(s)
    ensures var row := if i < |list[b]| then list[b][i := s] else list[b] + [s];
      TableOk(list[b := row], contents[NameOf(s) := s.id])
    ensures NameOf(s) in contents <==> i < |list[b]|
    ensures i < |list[b]| ==> contents[NameOf(s)] == list[b][i].id
  {
    var row := if i < |list[b]| then list[b][i := s] else list[b] + [s];
    var now, after := list[b := row], contents[NameOf(s) := s.id];
    assert BucketOk(list, contents, b);
    assert i < |list[b]| ==> SlotOk(list[b][i], |list|, contents, b);
    assert NameOf(s) in contents ==> Stored(list, contents, NameOf(s));
    forall c | 0 <= c < |now| ensures BucketOk(now, after, c) {
      assert BucketOk(list, contents, c);
      forall j | 0 <= j < |now[c]| ensures SlotOk(now[c][j], |now|, after, c) {
        assert now[c][j] == s || (j < |list[c]| && now[c][j] == list[c][j] && SlotOk(list[c][j], |list|, contents, c));
      }
    }
    forall n | n in after ensures Stored(now, after, n) {
      if n == NameOf(s) {
        assert now[b][i] == s;
      } else {
        assert Stored(list, contents, n);
        var was, c := Slot(contents[n], n.hash, n.key), BucketOf(n.hash, |list|);
        var j :| 0 <= j < |list[c]| && list[c][j] == was;
        assert now[c][j] == was;
      }
    }
  }

  lemma CutKeeps(list: seq<seq<Slot>>, contents: map<Name, nat>, b: nat, i: nat)
    requires TableOk(list, contents) && b < |list| && i < |list[b]|
    ensures NameOf(list[b][i]) in contents && contents[NameOf(list[b][i])] == list[b][i].id
    ensures TableOk(list[b := list[b][..i] + list[b][i + 1..]], contents - {NameOf(list[b][i])})
  {
    var s := list[b][i];
    var now, after := list[b := list[b][..i] + list[b][i + 1..]], contents - {NameOf(s)};
    assert BucketOk(list, contents, b);
    assert SlotOk(s, |list|, contents, b);
    forall c | 0 <= c < |now| ensures BucketOk(now, after, c) {
      assert BucketOk(list, contents, c);
      forall j | 0 <= j < |now[c]| ensures SlotOk(now[c][j], |now|, after, c) {
        var k := if c == b && j >= i then j + 1 else j;
        assert now[c][j] == list[c][k] && SlotOk(list[c][k], |list|, contents, c);
      }
    }
    forall n | n in after ensures Stored(now, after, n) {
      assert Stored(list, contents, n);
      var was, c := Slot(contents[n], n.hash, n.key), BucketOf(n.hash, |list|);
      var j :| 0 <= j < |list[c]| && list[c][j] == was;
      var k := if c == b && j > i then j - 1 else j;
      assert now[c][k] == was;
    }
  }

  /** A slot whose name is new goes to the front of its bucket. */
  lemma PushKeeps(list: seq<seq<Slot>>, contents: map<Name, nat>, s: Slot)
    requires TableOk(list, contents) && NameOf(s) !in contents
    ensures var b := BucketOf(s.hash, |list|);
      TableOk(list[b := [s] + list[b]], contents[NameOf(s) := s.id])
  {
    var b := BucketOf(s.hash, |list|);
    var now, after := list[b := [s] + list[b]], contents[NameOf(s) := s.id];
    forall c | 0 <= c < |now| ensures BucketOk(now, after, c) {
      assert BucketOk(list, contents, c);
      forall j | 0 <= j < |now[c]| ensures SlotOk(now[c][j], |now|, after, c) {
        var k := if c == b then j - 1 else j;
        assert (c == b && j == 0) || (now[c][j] == list[c][k] && SlotOk(list[c][k], |list|, contents, c));
      }
      forall i, j | 0 <= i < j < |now[c]| ensures NameOf(now[c][i]) != NameOf(now[c][j]) {
        var k := if c == b then j - 1 else j;
        assert now[c][j] == list[c][k] && SlotOk(list[c][k], |list|, contents, c);
      }
    }
    forall n | n in after ensures Stored(now, after, n) {
      if n == NameOf(s) {
        assert now[b][0] == s;
      } else {
        assert Stored(list, contents, n);
        var was, c := Slot(contents[n], n.hash, n.key), BucketOf(n.hash, |list|);
        var j :| 0 <= j < |list[c]| && list[c][j] == was;
        assert now[c][if c == b then j + 1 else j] == was;
      }
    }
  }

  class HandleTable {
    var elems: nat
    var list: seq<seq<Slot>>
    ghost var contents: map<Name, nat>

    /** The table never has more elements than buckets. */
    ghost predicate Valid()
      reads this
    {
      TableOk(list, contents) && elems == |contents| <= |list| && PowerOfTwo(|list|)
    }

    constructor ()
      ensures Valid() && contents == map[]
    {
      elems, contents := 0, map[];
      list := seq(4, i => []);
      assert PowerOfTwo(2) && PowerOfTwo(4);
    }

    /** FindPointer: the slot with the name, or the end of its bucket. */
    method FindPointer(key: Bytes, hash: Word) returns (b: nat, i: nat)
      requires Valid()
      ensures b == BucketOf(hash, |list|) && i <= |list[b]|
      ensures forall j :: 0 <= j < |list[b]| && NameOf(list[b][j]) == Name(hash, key) ==> j == i
      ensures i < |list[b]| ==> NameOf(list[b][i]) == Name(hash, key)
    {
      b, i := BucketOf(hash, |list|), 0;
      assert BucketOk(list, contents, b);
      while i < |list[b]| && (list[b][i].hash != hash || key != list[b][i].key)
        invariant i <= |list[b]| && forall j :: 0 <= j < i ==> NameOf(list[b][j]) != Name(hash, key)
      {
        i := i + 1;
      }
    }

    method Lookup(key: Bytes, hash: Word) returns (r: Option<nat>)
      requires Valid()
      ensures r == if Name(hash, key) in contents then Some(contents[Name(hash, key)]) else None
    {
      var b, i := FindPointer(key, hash);
      assert BucketOk(list, contents, b);
      assert Name(hash, key) in contents ==> Stored(list, contents, Name(hash, key));
      if i < |list[b]| {
        assert SlotOk(list[b][i], |list|, contents, b);
        r := Some(list[b][i].id);
      } else {
        r := None;
      }
    }

    /** The name leads to the new handle; the one it led to before is handed back. */
    method Insert(h: Slot) returns (r: Option<nat>)
      requires Valid()
      modifies this
      ensures Valid() && contents == old(contents)[NameOf(h) := h.id]
      ensures r == if NameOf(h) in old(contents) then Some(old(contents)[NameOf(h)]) else None
    {
      var b, i := FindPointer(h.key, h.hash);
      PutKeeps(list, contents, h, b, i);
      contents := contents[NameOf(h) := h.id];
      if i < |list[b]| {
        r := Some(list[b][i].id);
        list := list[b := list[b][i := h]];
        SameSize(old(contents), NameOf(h), h.id);
      } else {
        r := None;
        list := list[b := list[b] + [h]];
        elems := elems + 1;
        if elems > |list| { Resize(); }
      }
    }

    method Remove(key: Bytes, hash: Word) returns (r: Option<nat>)
      requires Valid()
      modifies this
      ensures Valid() && contents == old(contents) - {Name(hash, key)}
      ensures r == if Name(hash, key) in old(contents) then Some(old(contents)[Name(hash, key)]) else None
    {
      var b, i := FindPointer(key, hash);
      if i < |list[b]| {
        CutKeeps(list, contents, b, i);
        r := Some(list[b][i].id);
        list := list[b := list[b][..i] + list[b][i + 1..]];
        OneLess(contents, Name(hash, key));
        elems := elems - 1;
        contents := contents - {Name(hash, key)};
      } else {
        assert Name(hash, key) in contents ==> Stored(list, contents, Name(hash, key));
        r := None;
        assert contents == contents - {Name(hash, key)};
      }
    }

    /** Resize: every name moves to its bucket among more; none is lost. */
    method Resize()
      requires TableOk(list, contents) && elems == |contents|
      modifies this`list
      ensures Valid() && |list| >= 4 && (|list| == 4 || |list| / 2 < elems)
    {
      hide TableOk, MovedTo;
      var newLength := 4;
      assert PowerOfTwo(2) && PowerOfTwo(4);
      while newLength < elems
        invariant PowerOfTwo(newLength) && newLength >= 4 && (newLength == 4 || newLength / 2 < elems)
      {
        newLength := newLength * 2;
      }
      var from := list;
      var newList: seq<seq<Slot>> := seq(newLength, i => []);
      var count := 0;
      ghost var moved: map<Name, nat> := map[];
      HasBuckets(from, contents);
      NothingMoved(newList, from, contents);
      for b := 0 to |from|
        invariant TableOk(newList, moved) && |newList| == newLength && count == |moved|
        invariant MovedTo(moved, from, contents, b)
      {
        var n;
        newList, n, moved := MoveBucket(from, contents, b, newList, moved);
        count := count + n;
      }
      AllMoved(moved, from, contents);
      assert elems == count;
      list := newList;
    }
  }

  /** The names of the buckets before b. */
  ghost predicate MovedTo(moved: map<Name, nat>, from: seq<seq<Slot>>, contents: map<Name, nat>, b: nat)
    requires |from| > 0
  {
    && (forall n :: n in moved ==> n in contents && moved[n] == contents[n] && BucketOf(n.hash, |from|) < b)
    && forall n :: n in contents && BucketOf(n.hash, |from|) < b ==> n in moved
  }

  lemma HasBuckets(list: seq<seq<Slot>>, contents: map<Name, nat>)
    requires TableOk(list, contents)
    ensures |list| > 0
  {
  }

  lemma NothingMoved(to: seq<seq<Slot>>, from: seq<seq<Slot>>, contents: map<Name, nat>)
    requires |to| > 0 && (forall b :: 0 <= b < |to| ==> to[b] == []) && |from| > 0
    ensures TableOk(to, map[]) && MovedTo(map[], from, contents, 0)
  {
  }

  lemma AllMoved(moved: map<Name, nat>, from: seq<seq<Slot>>, contents: map<Name, nat>)
    requires |from| > 0 && MovedTo(moved, from, contents, |from|)
    ensures moved == contents
  {
    assert forall n :: n in contents ==> BucketOf(n.hash, |from|) < |from|;
    assert moved.Keys == contents.Keys;
  }

  ghost predicate InRow(row: seq<Slot>, j: nat, n: Name) {
    exists k :: 0 <= k < j && k < |row| && NameOf(row[k]) == n
  }

  /** All handles of bucket b go to the new buckets of their hashes. */
  method MoveBucket(from: seq<seq<Slot>>, ghost contents: map<Name, nat>, b: nat, to: seq<seq<Slot>>,
      ghost before: map<Name, nat>)
    returns (r: seq<seq<Slot>>, n: nat, ghost moved: map<Name, nat>)
    requires TableOk(from, contents) && b < |from| && |to| > 0 && TableOk(to, before)
    requires MovedTo(before, from, contents, b)
    ensures TableOk(r, moved) && |r| == |to| && |moved| == |before| + n && MovedTo(moved, from, contents, b + 1)
  {
    hide TableOk, BucketOf, InRow;
    var row := from[b];
    r, n, moved := to, 0, before;
    RowOk(from, contents, b);
    assert forall m :: !InRow(row, 0, m) by { NoneInRow(row); }
    for j := 0 to |row|
      invariant TableOk(r, moved) && |r| == |to| > 0 && n == j && |moved| == |before| + n
      invariant forall m :: m in moved <==> m in before || InRow(row, j, m)
      invariant forall m :: m in moved ==> m in contents && moved[m] == contents[m]
    {
      var h := row[j];
      assert SlotOk(h, |from|, contents, b);
      var at := BucketOf(h.hash, |r|);
      NextInRow(row, j);
      assert NameOf(h) !in moved;
      PushKeeps(r, moved, h);
      r := r[at := [h] + r[at]];
      moved := moved[NameOf(h) := h.id];
      n := n + 1;
    }
    forall m | InRow(row, |row|, m) ensures BucketOf(m.hash, |from|) == b {
      InOwnBucket(from, contents, b, m);
    }
    forall m | m in contents && BucketOf(m.hash, |from|) == b ensures m in moved {
      AllInRow(from, contents, b, m);
    }
  }

  lemma NoneInRow(row: seq<Slot>)
    ensures forall n :: !InRow(row, 0, n)
  {
  }

  lemma NextInRow(row: seq<Slot>, j: nat)
    requires j < |row| && forall i, k :: 0 <= i < k < |row| ==> NameOf(row[i]) != NameOf(row[k])
    ensures !InRow(row, j, NameOf(row[j]))
    ensures forall n :: InRow(row, j + 1, n) <==> InRow(row, j, n) || n == NameOf(row[j])
  {
  }

  lemma InOwnBucket(list: seq<seq<Slot>>, contents: map<Name, nat>, b: nat, n: Name)
    requires TableOk(list, contents) && b < |list| && InRow(list[b], |list[b]|, n)
    ensures BucketOf(n.hash, |list|) == b
  {
    var k :| 0 <= k < |list[b]| && NameOf(list[b][k]) == n;
    assert BucketOk(list, contents, b);
    assert SlotOk(list[b][k], |list|, contents, b);
  }

  lemma RowOk(list: seq<seq<Slot>>, contents: map<Name, nat>, b: nat)
    requires TableOk(list, contents) && b < |list|
    ensures forall i :: 0 <= i < |list[b]| ==> SlotOk(list[b][i], |list|, contents, b)
    ensures forall i, j :: 0 <= i < j < |list[b]| ==> NameOf(list[b][i]) != NameOf(list[b][j])
  {
    assert BucketOk(list, contents, b);
  }

  lemma AllInRow(list: seq<seq<Slot>>, contents: map<Name, nat>, b: nat, n: Name)
    requires TableOk(list, contents) && b < |list| && n in contents && BucketOf(n.hash, |list|) == b
    ensures InRow(list[b], |list[b]|, n)
  {
    assert Stored(list, contents, n);
    var k :| 0 <= k < |list[b]| && list[b][k] == Slot(contents[n], n.hash, n.key);
    assert NameOf(list[b][k]) == n;
  }

  lemma SameSize(m: map<Name, nat>, n: Name, id: nat)
    requires n in m
    ensures |m[n := id]| == |m|
  {
    assert m[n := id].Keys == m.Keys;
    SizeOfKeys(m);
    SizeOfKeys(m[n := id]);
  }

  lemma OneLess(m: map<Name, nat>, n: Name)
    requires n in m
    ensures |m - {n}| == |m| - 1
  {
    assert (m - {n})[n := m[n]] == m;
  }

  lemma SizeOfKeys(m: map<Name, nat>)
    ensures |m| == |m.Keys|
  {
  }

  // Circular lists

  /** The two pointers of every handle and list head. */
  datatype Links = Links(next: map<nat, nat>, prev: map<nat, nat>)

  /** The i-th node of the ring of a head and the list after it. */
  ghost function Node(head: nat, xs: seq<nat>, i: nat): nat {
    if 1 <= i <= |xs| then xs[i - 1] else head
  }

  ghost predicate Linked(l: Links, a: nat, b: nat) {
    a in l.next && l.next[a] == b && b in l.prev && l.prev[b] == a
  }

  ghost predicate NoRepeats(xs: seq<nat>) {
    forall i, j :: 0 <= i < j < |xs| ==> xs[i] != xs[j]
  }

  ghost predicate Ring(l: Links, head: nat, xs: seq<nat>) {
    && head !in xs && NoRepeats(xs)
    && forall i :: 0 <= i <= |xs| ==> Linked(l, Node(head, xs, i), Node(head, xs, i + 1))
  }

  /** e->next->prev = e->prev; e->prev->next = e->next. */
  function Unlink(l: Links, e: nat): Links
    requires e in l.next && e in l.prev
  {
    Links(l.next[l.prev[e] := l.next[e]], l.prev[l.next[e] := l.prev[e]])
  }

  /** e->next = list; e->prev = list->prev; e->prev->next = e; e->next->prev = e. */
  function LinkBefore(l: Links, list: nat, e: nat): Links
    requires list in l.prev
  {
    var before := l.prev[list];
    Links(l.next[e := list][before := e], l.prev[e := before][list := e])
  }

  /** The list without an element. */
  function Without(xs: seq<nat>, e: nat): seq<nat> {
    if xs == [] then [] else if xs[0] == e then xs[1..] else [xs[0]] + Without(xs[1..], e)
  }

  lemma {:induction false} WithoutAt(xs: seq<nat>, k: nat)
    requires k < |xs| && NoRepeats(xs)
    ensures Without(xs, xs[k]) == xs[..k] + xs[k + 1..]
    decreases k
  {
    if k > 0 {
      WithoutAt(xs[1..], k - 1);
      assert xs == [xs[0]] + xs[1..];
      assert xs[..k] == [xs[0]] + xs[1..][..k - 1];
    }
  }

  lemma {:induction false} WithoutNone(xs: seq<nat>, e: nat)
    requires e !in xs
    ensures Without(xs, e) == xs
  {
    if xs != [] { WithoutNone(xs[1..], e); }
  }

  lemma InRing(l: Links, head: nat, xs: seq<nat>, e: nat) returns (k: nat)
    requires Ring(l, head, xs) && e in xs
    ensures k < |xs| && xs[k] == e && e in l.next && e in l.prev
    ensures l.prev[e] == Node(head, xs, k) && l.next[e] == Node(head, xs, k + 2)
  {
    k :| 0 <= k < |xs| && xs[k] == e;
    assert Linked(l, Node(head, xs, k), Node(head, xs, k + 1))
        && Linked(l, Node(head, xs, k + 1), Node(head, xs, k + 2));
  }

  lemma {:induction false} UnlinkRing(l: Links, head: nat, xs: seq<nat>, e: nat)
    requires Ring(l, head, xs) && e in xs && e in l.next && e in l.prev
    ensures Ring(Unlink(l, e), head, Without(xs, e))
    ensures forall x :: x in Without(xs, e) <==> x in xs && x != e
  {
    var k := InRing(l, head, xs, e);
    WithoutAt(xs, k);
    var ys, after := xs[..k] + xs[k + 1..], Unlink(l, e);
    NodesDiffer(head, xs);
    forall i | 0 <= i <= |ys| ensures Linked(after, Node(head, ys, i), Node(head, ys, i + 1)) {
      var j := if i <= k then i else i + 1;
      assert Linked(l, Node(head, xs, j), Node(head, xs, j + 1));
      NodesCut(head, xs, k, i);
      NodesCut(head, xs, k, i + 1);
    }
  }

  lemma NodesCut(head: nat, xs: seq<nat>, k: nat, i: nat)
    requires k < |xs| && i <= |xs|
    ensures Node(head, xs[..k] + xs[k + 1..], i) == Node(head, xs, if i <= k then i else i + 1)
  {
  }

  lemma NodesDiffer(head: nat, xs: seq<nat>)
    requires NoRepeats(xs) && head !in xs
    ensures forall i, j :: 0 <= i < j <= |xs| ==> Node(head, xs, i) != Node(head, xs, j)
  {
  }

  /** A ring of other nodes is not touched. */
  lemma UnlinkOther(l: Links, head: nat, xs: seq<nat>, e: nat, other: nat, ys: seq<nat>)
    requires Ring(l, head, xs) && e in xs && Ring(l, other, ys) && e in l.next && e in l.prev
    requires head != other && head !in ys && other !in xs && forall x :: x in xs ==> x !in ys
    ensures Ring(Unlink(l, e), other, ys)
  {
    var k := InRing(l, head, xs, e);
    assert forall i :: Node(head, xs, i) == head || Node(head, xs, i) in xs;
    assert forall i :: Node(other, ys, i) == other || Node(other, ys, i) in ys;
    forall i | 0 <= i <= |ys| ensures Linked(Unlink(l, e), Node(other, ys, i), Node(other, ys, i + 1)) {
      assert Linked(l, Node(other, ys, i), Node(other, ys, i + 1));
    }
  }

  lemma AppendRing(l: Links, head: nat, xs: seq<nat>, e: nat)
    requires Ring(l, head, xs) && e !in xs && e != head && head in l.prev
    ensures Ring(LinkBefore(l, head, e), head, xs + [e])
  {
    var ys := xs + [e];
    assert Linked(l, Node(head, xs, |xs|), Node(head, xs, |xs| + 1));
    forall i | 0 <= i <= |ys| ensures Linked(LinkBefore(l, head, e), Node(head, ys, i), Node(head, ys, i + 1)) {
      if i <= |xs| { assert Linked(l, Node(head, xs, i), Node(head, xs, i + 1)); }
    }
  }

  lemma AppendOther(l: Links, head: nat, xs: seq<nat>, e: nat, other: nat, ys: seq<nat>)
    requires Ring(l, head, xs) && Ring(l, other, ys) && e !in ys && e != other && head in l.prev
    requires head != other && head !in ys && other !in xs && forall x :: x in xs ==> x !in ys
    ensures Ring(LinkBefore(l, head, e), other, ys)
  {
    assert Linked(l, Node(head, xs, |xs|), Node(head, xs, |xs| + 1));
    forall i | 0 <= i <= |ys| ensures Linked(LinkBefore(l, head, e), Node(other, ys, i), Node(other, ys, i + 1)) {
      assert Linked(l, Node(other, ys, i), Node(other, ys, i + 1));
    }
  }

  // Handles

  datatype Handle = Handle(hash: Word, key: Bytes, value: nat, charge: nat, inCache: bool, refs: nat)

  /** The sum of the charges of handles. */
  function Charges(handles: map<nat, Handle>, xs: seq<nat>): nat {
    if xs == [] then 0
    else Charges(handles, xs[..|xs| - 1]) + if xs[|xs| - 1] in handles then handles[xs[|xs| - 1]].charge else 0
  }

  ghost predicate SameCharges(a: map<nat, Handle>, b: map<nat, Handle>, xs: seq<nat>) {
    forall x :: x in xs ==> x in a && x in b && a[x].charge == b[x].charge
  }

  lemma {:induction false} ChargesSame(a: map<nat, Handle>, b: map<nat, Handle>, xs: seq<nat>)
    requires SameCharges(a, b, xs)
    ensures Charges(a, xs) == Charges(b, xs)
  {
    if xs != [] { ChargesSame(a, b, xs[..|xs| - 1]); }
  }

  lemma {:induction false} ChargesWithout(handles: map<nat, Handle>, xs: seq<nat>, e: nat)
    requires NoRepeats(xs) && e in xs && e in handles
    ensures Charges(handles, xs) == Charges(handles, Without(xs, e)) + handles[e].charge
  {
    var k :| 0 <= k < |xs| && xs[k] == e;
    WithoutAt(xs, k);
    CutCharge(handles, xs, k);
  }

  lemma {:induction false} CutCharge(handles: map<nat, Handle>, xs: seq<nat>, k: nat)
    requires k < |xs| && xs[k] in handles
    ensures Charges(handles, xs) == Charges(handles, xs[..k] + xs[k + 1..]) + handles[xs[k]].charge
    decreases |xs|
  {
    var ys := xs[..k] + xs[k + 1..];
    var init := xs[..|xs| - 1];
    if k < |init| {
      CutCharge(handles, init, k);
      assert ys[..|ys| - 1] == init[..k] + init[k + 1..];
    } else {
      assert ys == init;
    }
  }

  lemma {:induction false} ChargesAppend(handles: map<nat, Handle>, xs: seq<nat>, e: nat)
    requires e in handles
    ensures Charges(handles, xs + [e]) == Charges(handles, xs) + handles[e].charge
  {
    assert (xs + [e])[..|xs|] == xs;
  }

  // Counts

  const LRU: nat := 0
  const IN_USE: nat := 1
  const FIRST: nat := 2

  ghost predicate RingsOk(l: Links, lru: seq<nat>, inUse: seq<nat>) {
    && Ring(l, LRU, lru) && Ring(l, IN_USE, inUse)
    && (forall x :: x in lru ==> x >= FIRST && x !in inUse) && forall x :: x in inUse ==> x >= FIRST
  }

  /** A handle is held by its clients, by the cache, and `owed` times by a caller about to let go;
      which list it is on depends on its count. */
  ghost predicate HandleOk(handles: map<nat, Handle>, clients: map<nat, nat>, lru: seq<nat>, inUse: seq<nat>, id: nat,
      owed: nat) {
    && id in handles && id in clients && id >= FIRST
    && var h := handles[id];
       && h.refs == clients[id] + owed + (if h.inCache then 1 else 0) && h.refs >= 1
       && (id in lru <==> h.inCache && h.refs == 1) && (id in inUse <==> h.inCache && h.refs >= 2)
  }

  ghost predicate CountsOk(handles: map<nat, Handle>, clients: map<nat, nat>, lru: seq<nat>, inUse: seq<nat>,
      owing: nat) {
    && handles.Keys == clients.Keys && NoRepeats(lru) && NoRepeats(inUse)
    && (forall x :: x in lru || x in inUse ==> x in handles)
    && forall id :: id in handles ==> HandleOk(handles, clients, lru, inUse, id, if id == owing then 1 else 0)
  }

  ghost function Total(handles: map<nat, Handle>, lru: seq<nat>, inUse: seq<nat>): nat {
    Charges(handles, lru) + Charges(handles, inUse)
  }

  /** Every handle ever made is there, or its deleter was called, once. */
  ghost predicate Accounted(ids: set<nat>, nextId: nat, deleted: seq<nat>) {
    && nextId >= FIRST && (forall id :: FIRST <= id < nextId <==> id in ids || id in deleted)
    && (forall id :: id in deleted ==> id !in ids) && NoRepeats(deleted)
  }

  /** A handle gains a client. */
  lemma {:induction false} RefCounts(handles: map<nat, Handle>, clients: map<nat, nat>, lru: seq<nat>,
      inUse: seq<nat>, e: nat)
    requires CountsOk(handles, clients, lru, inUse, 0) && e in handles && e in clients
    ensures var hs := handles[e := handles[e].(refs := handles[e].refs + 1)];
      var l, u := Without(lru, e), if e in lru then inUse + [e] else inUse;
      CountsOk(hs, clients[e := clients[e] + 1], l, u, 0) && Total(hs, l, u) == Total(handles, lru, inUse)
    ensures e in lru <==> handles[e].inCache && handles[e].refs == 1
  {
    hide Without, Charges, NoRepeats;
    var hs := handles[e := handles[e].(refs := handles[e].refs + 1)];
    var l, u := Without(lru, e), if e in lru then inUse + [e] else inUse;
    assert HandleOk(handles, clients, lru, inUse, e, 0);
    Moved(handles, hs, lru, inUse, e);
    WithoutHas(lru, e);
    forall id | id in hs ensures HandleOk(hs, clients[e := clients[e] + 1], l, u, id, 0) {
      assert HandleOk(handles, clients, lru, inUse, id, 0);
    }
  }

  /** Moving from one list to the end of the other keeps the total. */
  lemma {:induction false} Moved(handles: map<nat, Handle>, hs: map<nat, Handle>, from: seq<nat>, to: seq<nat>, e: nat)
    requires NoRepeats(from) && NoRepeats(to) && (e in from ==> e !in to)
    requires (forall x :: x in from || x in to ==> x in handles)
    requires forall x :: x in handles ==> x in hs && hs[x].charge == handles[x].charge
    ensures var t := if e in from then to + [e] else to;
      NoRepeats(Without(from, e)) && NoRepeats(t)
        && Charges(hs, Without(from, e)) + Charges(hs, t) == Charges(handles, from) + Charges(handles, to)
  {
    WithoutHas(from, e);
    if e in from {
      ChargesWithout(handles, from, e);
      ChargesAppend(handles, to, e);
      ChargesSame(handles, hs, Without(from, e));
      ChargesSame(handles, hs, to + [e]);
    } else {
      WithoutNone(from, e);
      ChargesSame(handles, hs, from);
      ChargesSame(handles, hs, to);
    }
  }

  lemma {:induction false} WithoutHas(xs: seq<nat>, e: nat)
    requires NoRepeats(xs)
    ensures NoRepeats(Without(xs, e)) && forall x :: x in Without(xs, e) <==> x in xs && x != e
  {
    if e in xs {
      var k :| 0 <= k < |xs| && xs[k] == e;
      WithoutAt(xs, k);
      CutHas(xs, k);
    } else {
      WithoutNone(xs, e);
    }
  }

  lemma CutHas(xs: seq<nat>, k: nat)
    requires NoRepeats(xs) && k < |xs|
    ensures NoRepeats(xs[..k] + xs[k + 1..]) && forall x :: x in xs[..k] + xs[k + 1..] <==> x in xs && x != xs[k]
  {
    var ys := xs[..k] + xs[k + 1..];
    forall x | x in xs && x != xs[k] ensures x in ys {
      var i :| 0 <= i < |xs| && xs[i] == x;
      assert ys[if i < k then i else i - 1] == x;
    }
    forall x | x in ys ensures x in xs && x != xs[k] {
      var i :| 0 <= i < |ys| && ys[i] == x;
      assert x == xs[if i < k then i else i + 1];
    }
  }

  /** A handle owing one reference gives it up. */
  lemma {:induction false} UnrefCounts(handles: map<nat, Handle>, clients: map<nat, nat>, lru: seq<nat>,
      inUse: seq<nat>, e: nat)
    requires CountsOk(handles, clients, lru, inUse, e) && e in handles && e in clients && (e in inUse ==> e !in lru)
    ensures var h := handles[e].(refs := handles[e].refs - 1);
      if h.refs == 0 then
        !h.inCache && CountsOk(handles - {e}, clients - {e}, lru, inUse, 0)
          && Total(handles - {e}, lru, inUse) == Total(handles, lru, inUse)
      else
        var hs := handles[e := h];
        if h.inCache && h.refs == 1 then
          e in inUse && e !in lru && CountsOk(hs, clients, lru + [e], Without(inUse, e), 0)
            && Total(hs, lru + [e], Without(inUse, e)) == Total(handles, lru, inUse)
        else CountsOk(hs, clients, lru, inUse, 0) && Total(hs, lru, inUse) == Total(handles, lru, inUse)
    ensures handles[e].refs == clients[e] + 1 + if handles[e].inCache then 1 else 0
  {
    hide Without, Charges, NoRepeats;
    var h := handles[e].(refs := handles[e].refs - 1);
    assert HandleOk(handles, clients, lru, inUse, e, 1);
    if h.refs == 0 {
      var hs, cs := handles - {e}, clients - {e};
      ChargesSame(handles, hs, lru);
      ChargesSame(handles, hs, inUse);
      forall id | id in hs ensures HandleOk(hs, cs, lru, inUse, id, 0) {
        assert HandleOk(handles, clients, lru, inUse, id, 0);
      }
    } else {
      var hs := handles[e := h];
      var move := h.inCache && h.refs == 1;
      var l, u := if move then lru + [e] else lru, if move then Without(inUse, e) else inUse;
      if move {
        Moved(handles, hs, inUse, lru, e);
        WithoutHas(inUse, e);
      } else {
        ChargesSame(handles, hs, lru);
        ChargesSame(handles, hs, inUse);
      }
      forall id | id in hs ensures HandleOk(hs, clients, l, u, id, 0) {
        assert HandleOk(handles, clients, lru, inUse, id, if id == e then 1 else 0);
      }
    }
  }

  lemma {:induction false} EraseCounts(handles: map<nat, Handle>, clients: map<nat, nat>, lru: seq<nat>,
      inUse: seq<nat>, e: nat)
    requires CountsOk(handles, clients, lru, inUse, 0) && e in handles && handles[e].inCache
    requires (e in inUse ==> e !in lru)
    ensures var hs := handles[e := handles[e].(inCache := false)];
      CountsOk(hs, clients, Without(lru, e), Without(inUse, e), e)
      && Total(handles, lru, inUse) == Total(hs, Without(lru, e), Without(inUse, e)) + handles[e].charge
    ensures e in lru || e in inUse
  {
    hide Without, Charges, NoRepeats;
    var hs := handles[e := handles[e].(inCache := false)];
    var l, u := Without(lru, e), Without(inUse, e);
    assert HandleOk(handles, clients, lru, inUse, e, 0);
    WithoutHas(lru, e);
    WithoutHas(inUse, e);
    ChargesSame(handles, hs, l);
    ChargesSame(handles, hs, u);
    if e in lru {
      ChargesWithout(handles, lru, e);
      WithoutNone(inUse, e);
    } else {
      ChargesWithout(handles, inUse, e);
      WithoutNone(lru, e);
    }
    forall id | id in hs ensures HandleOk(hs, clients, l, u, id, if id == e then 1 else 0) {
      assert HandleOk(handles, clients, lru, inUse, id, 0);
    }
  }

  lemma {:induction false} AddCounts(handles: map<nat, Handle>, clients: map<nat, nat>, lru: seq<nat>, inUse: seq<nat>,
      e: nat, h: Handle)
    requires CountsOk(handles, clients, lru, inUse, 0) && e !in handles && e >= FIRST && h.refs == 1 && !h.inCache
    ensures var hs := handles[e := h];
      CountsOk(hs, clients[e := 1], lru, inUse, 0) && Total(hs, lru, inUse) == Total(handles, lru, inUse)
  {
    hide Charges, NoRepeats;
    var hs := handles[e := h];
    ChargesSame(handles, hs, lru);
    ChargesSame(handles, hs, inUse);
    forall id | id in hs ensures HandleOk(hs, clients[e := 1], lru, inUse, id, 0) {
      assert id != e ==> HandleOk(handles, clients, lru, inUse, id, 0);
    }
  }

  lemma {:induction false} CacheCounts(handles: map<nat, Handle>, clients: map<nat, nat>, lru: seq<nat>,
      inUse: seq<nat>, e: nat)
    requires CountsOk(handles, clients, lru, inUse, 0) && e in handles && !handles[e].inCache
    ensures var h := handles[e].(inCache := true, refs := handles[e].refs + 1);
      var hs, u := handles[e := h], inUse + [e];
      CountsOk(hs, clients, lru, u, 0) && Total(hs, lru, u) == Total(handles, lru, inUse) + h.charge
    ensures e !in lru && e !in inUse
  {
    hide Charges;
    var h := handles[e].(inCache := true, refs := handles[e].refs + 1);
    var hs, u := handles[e := h], inUse + [e];
    assert HandleOk(handles, clients, lru, inUse, e, 0);
    ChargesSame(handles, hs, lru);
    ChargesSame(handles, hs, inUse);
    ChargesAppend(hs, inUse, e);
    forall id | id in hs ensures HandleOk(hs, clients, lru, u, id, 0) {
      assert HandleOk(handles, clients, lru, inUse, id, 0);
    }
  }

  // The table and the handles

  ghost predicate Leads(contents: map<Name, nat>, handles: map<nat, Handle>, n: Name)
    requires n in contents
  {
    var id := contents[n];
    id in handles && handles[id].inCache && Name(handles[id].hash, handles[id].key) == n
  }

  ghost predicate Found(contents: map<Name, nat>, handles: map<nat, Handle>, id: nat)
    requires id in handles
  {
    var n := Name(handles[id].hash, handles[id].key);
    n in contents && contents[n] == id
  }

  /** The names lead to the cached handles, to all but one. */
  ghost predicate Indexed(contents: map<Name, nat>, handles: map<nat, Handle>, but: nat) {
    && 0 !in handles && (forall n :: n in contents ==> Leads(contents, handles, n))
    && forall id :: id in handles && handles[id].inCache && id != but ==> Found(contents, handles, id)
  }

  ghost predicate SameNames(a: map<nat, Handle>, b: map<nat, Handle>, but: nat) {
    && (forall id :: id in a && id != but ==>
      id in b && b[id].hash == a[id].hash && b[id].key == a[id].key && b[id].inCache == a[id].inCache)
    && forall id :: id in b && id != but ==> id in a
  }

  lemma IndexedStill(contents: map<Name, nat>, a: map<nat, Handle>, b: map<nat, Handle>, but: nat)
    requires Indexed(contents, a, but) && SameNames(a, b, but) && (forall n :: n in contents ==> contents[n] != but)
    requires but >= FIRST && (but in b ==> !b[but].inCache)
    ensures Indexed(contents, b, 0)
  {
    forall n | n in contents ensures Leads(contents, b, n) {
      assert Leads(contents, a, n);
    }
    forall id | id in b && b[id].inCache ensures Found(contents, b, id) {
      assert Found(contents, a, id);
    }
  }

  lemma IndexedSame(contents: map<Name, nat>, a: map<nat, Handle>, b: map<nat, Handle>)
    requires Indexed(contents, a, 0) && SameNames(a, b, 0) && 0 !in b
    ensures Indexed(contents, b, 0)
  {
    forall n | n in contents ensures Leads(contents, b, n) {
      assert Leads(contents, a, n);
    }
    forall id | id in b && b[id].inCache && id != 0 ensures Found(contents, b, id) {
      assert Found(contents, a, id);
    }
  }

  // What the operations change

  datatype View = View(handles: map<nat, Handle>, clients: map<nat, nat>, contents: map<Name, nat>, lru: seq<nat>,
    inUse: seq<nat>, deleted: seq<nat>, usage: int)

  /** One client more. */
  ghost function Held(v: View, e: nat): View
    requires e in v.handles && e in v.clients
  {
    var h := v.handles[e];
    v.(handles := v.handles[e := h.(refs := h.refs + 1)], clients := v.clients[e := v.clients[e] + 1],
       lru := Without(v.lru, e), inUse := if e in v.lru then v.inUse + [e] else v.inUse)
  }

  /** One reference less: the deleter is called when neither clients nor the cache hold it; what
      only the cache holds is the newest of the unreferenced. */
  ghost function Dropped(v: View, e: nat): View
    requires e in v.handles && e in v.clients && v.handles[e].refs >= 1
  {
    var h := v.handles[e];
    if v.clients[e] == 0 && !h.inCache then
      v.(handles := v.handles - {e}, clients := v.clients - {e}, deleted := v.deleted + [e])
    else
      var w := v.(handles := v.handles[e := h.(refs := h.refs - 1)]);
      if v.clients[e] == 0 then w.(lru := v.lru + [e], inUse := Without(v.inUse, e)) else w
  }

  /** A handle is out of the cache: without clients its deleter is called. */
  ghost function TakenOut(v: View, e: nat): View
    requires e in v.handles && e in v.clients && v.handles[e].refs >= 1
  {
    var h := v.handles[e];
    var w := v.(lru := Without(v.lru, e), inUse := Without(v.inUse, e), usage := v.usage - h.charge);
    if v.clients[e] == 0 then w.(handles := v.handles - {e}, clients := v.clients - {e}, deleted := v.deleted + [e])
    else w.(handles := v.handles[e := h.(inCache := false, refs := h.refs - 1)])
  }

  ghost predicate Present(v: View, e: nat) {
    e in v.handles && e in v.clients && v.handles[e].refs >= 1
  }

  /** A new handle and its client. */
  ghost function Made(v: View, e: nat, h: Handle): View {
    v.(handles := v.handles[e := h], clients := v.clients[e := 1])
  }

  /** The cache has the handle too; what its name led to before is taken out. */
  ghost function PutIn(v: View, e: nat): View
    requires e in v.handles
  {
    var h, n := v.handles[e], Name(v.handles[e].hash, v.handles[e].key);
    var x := v.(handles := v.handles[e := h.(inCache := true, refs := h.refs + 1)], contents := v.contents[n := e],
                inUse := v.inUse + [e], usage := v.usage + h.charge);
    if n in v.contents && Present(x, v.contents[n]) then TakenOut(x, v.contents[n]) else x
  }

  ghost function Inserted(v: View, e: nat, h: Handle, caching: bool): View {
    if caching then PutIn(Made(v, e, h), e) else Made(v, e, h)
  }

  /** What was inserted is found, whatever was evicted. */
  lemma InsertedIsFound(v: View, w: View, e: nat, h: Handle, k: nat)
    requires e !in v.handles && e !in v.lru && Evicted(Inserted(v, e, h, true), w, k)
    requires forall n :: n in v.contents ==> v.contents[n] in v.handles
    ensures var n := Name(h.hash, h.key); n in w.contents && w.contents[n] == e && e in w.clients && w.clients[e] == 1
  {
    var n, x := Name(h.hash, h.key), Inserted(v, e, h, true);
    if n in v.contents { WithoutOnly(v.lru, v.contents[n]); }
    assert e !in x.lru;
  }

  lemma {:induction false} WithoutOnly(xs: seq<nat>, e: nat)
    ensures forall x :: x in Without(xs, e) ==> x in xs
  {
    if xs != [] { WithoutOnly(xs[1..], e); }
  }

  // The cache

  class Cache {
    const capacity: nat
    const table: HandleTable
    var usage: nat
    var handles: map<nat, Handle>
    var links: Links
    var nextId: nat
    ghost var lru: seq<nat> // the unreferenced, the oldest first
    ghost var inUse: seq<nat>
    ghost var clients: map<nat, nat> // how often each handle is held outside
    ghost var deleted: seq<nat> // the calls of deleters

    ghost function Now(): View
      reads this, table
    {
      View(handles, clients, table.contents, lru, inUse, deleted, usage)
    }

    ghost predicate Inner(owing: nat)
      reads this
    {
      && RingsOk(links, lru, inUse) && Accounted(handles.Keys, nextId, deleted)
      && CountsOk(handles, clients, lru, inUse, owing) && usage == Total(handles, lru, inUse)
    }

    ghost predicate Valid()
      reads this, table
    {
      Inner(0) && table.Valid() && Indexed(table.contents, handles, 0)
    }

    constructor (capacity: nat)
      ensures Valid() && table.contents == map[] && nextId == FIRST && this.capacity == capacity && fresh(table)
    {
      this.capacity := capacity;
      table := new HandleTable();
      usage, handles, nextId := 0, map[], FIRST;
      links := Links(map[LRU := LRU, IN_USE := IN_USE], map[LRU := LRU, IN_USE := IN_USE]);
      lru, inUse, clients, deleted := [], [], map[], [];
    }

    method LruRemove(e: nat)
      requires RingsOk(links, lru, inUse) && (e in lru || e in inUse)
      modifies this`links, this`lru, this`inUse
      ensures RingsOk(links, lru, inUse) && lru == Without(old(lru), e) && inUse == Without(old(inUse), e)
      ensures (forall x :: x in lru <==> x in old(lru) && x != e) && forall x :: x in inUse <==>
          x in old(inUse) && x != e
    {
      if e in lru {
        ghost var k := InRing(links, LRU, lru, e);
        UnlinkRing(links, LRU, lru, e);
        UnlinkOther(links, LRU, lru, e, IN_USE, inUse);
        WithoutNone(inUse, e);
      } else {
        ghost var k := InRing(links, IN_USE, inUse, e);
        UnlinkRing(links, IN_USE, inUse, e);
        UnlinkOther(links, IN_USE, inUse, e, LRU, lru);
        WithoutNone(lru, e);
      }
      links := Unlink(links, e);
      lru, inUse := Without(lru, e), Without(inUse, e);
    }

    method LruAppend(list: nat, e: nat)
      requires RingsOk(links, lru, inUse) && list <= IN_USE && e >= FIRST && e !in lru && e !in inUse
      modifies this`links, this`lru, this`inUse
      ensures RingsOk(links, lru, inUse) && lru == (if list == LRU then old(lru) + [e] else old(lru))
      ensures inUse == if list == LRU then old(inUse) else old(inUse) + [e]
    {
      HeadLinked(list);
      if list == LRU {
        AppendRing(links, LRU, lru, e);
        AppendOther(links, LRU, lru, e, IN_USE, inUse);
        lru := lru + [e];
      } else {
        AppendRing(links, IN_USE, inUse, e);
        AppendOther(links, IN_USE, inUse, e, LRU, lru);
        inUse := inUse + [e];
      }
      links := LinkBefore(links, list, e);
    }

    /** The neighbours of a list's head: the oldest and the newest. */
    lemma HeadLinked(list: nat)
      requires RingsOk(links, lru, inUse) && list <= IN_USE
      ensures list in links.prev && list in links.next
      ensures var xs := if list == LRU then lru else inUse; links.next[list] == if xs == [] then list else xs[0]
    {
      var xs := if list == LRU then lru else inUse;
      assert Linked(links, Node(list, xs, 0), Node(list, xs, 1))
          && Linked(links, Node(list, xs, |xs|), Node(list, xs, |xs| + 1));
    }

    /** Ref: one client more; a handle that had none leaves the list of the unreferenced. */
    method Ref(e: nat)
      requires Inner(0) && e in handles
      modifies this`handles, this`links, this`lru, this`inUse, this`clients
      ensures Inner(0) && Now() == Held(old(Now()), e)
    {
      hide RingsOk, Accounted, CountsOk, Total, Without;
      ghost var l, u := lru, inUse;
      CountedKeys(0);
      InHandles(e);
      RefCounts(handles, clients, lru, inUse, e);
      var h := handles[e];
      assert OnLists(e) by { ListsOf(e); }
      if h.refs == 1 && h.inCache {
        LruRemove(e);
        WithoutNone(u, e);
        LruAppend(IN_USE, e);
      } else {
        WithoutNone(l, e);
      }
      handles := handles[e := h.(refs := h.refs + 1)];
      assert handles.Keys == old(handles).Keys;
      clients := clients[e := clients[e] + 1];
    }

    ghost predicate OnLists(e: nat)
      requires e in handles
      reads this`handles, this`lru, this`inUse
    {
      && (e in lru <==> handles[e].inCache && handles[e].refs == 1)
        && (e in inUse <==> handles[e].inCache && handles[e].refs >= 2)
    }

    lemma ListsOf(e: nat)
      requires CountsOk(handles, clients, lru, inUse, 0) && e in handles
      ensures OnLists(e)
    {
      assert HandleOk(handles, clients, lru, inUse, e, if e == 0 then 1 else 0);
    }

    lemma CountedKeys(owing: nat)
      requires CountsOk(handles, clients, lru, inUse, owing)
      ensures handles.Keys == clients.Keys
    {
    }

    lemma InHandles(e: nat)
      requires Accounted(handles.Keys, nextId, deleted) && handles.Keys == clients.Keys && e in handles
      ensures FIRST <= e < nextId && e in clients
    {
    }

    /** Unref: the last reference gone, the deleter is called; without clients a cached handle goes
        to the newest end of the list of the unreferenced. */
    method Unref(e: nat)
      requires Inner(e) && e in handles
      modifies this`handles, this`links, this`lru, this`inUse, this`clients, this`deleted
      ensures Inner(0) && Now() == Dropped(old(Now()), e)
    {
      hide RingsOk, Accounted, CountsOk, Total, Without;
      CountedKeys(e);
      InHandles(e);
      NotBoth(e);
      UnrefCounts(handles, clients, lru, inUse, e);
      var h := handles[e].(refs := handles[e].refs - 1);
      if h.refs == 0 {
        // (*e->deleter)(e->key(), e->value); free(e);
        DeletedAccounts(handles.Keys, nextId, deleted, e);
        deleted := deleted + [e];
        handles := handles - {e};
        clients := clients - {e};
        assert handles.Keys == old(handles).Keys - {e};
      } else {
        handles := handles[e := h];
        assert handles.Keys == old(handles).Keys;
        if h.inCache && h.refs == 1 {
          LruRemove(e);
          WithoutNone(old(lru), e);
          LruAppend(LRU, e);
        }
      }
    }

    lemma NotBoth(e: nat)
      requires RingsOk(links, lru, inUse)
      ensures e in inUse ==> e !in lru
    {
    }

    /** FinishErase: the handle is out of the table already. */
    method FinishErase(e: Option<nat>) returns (b: bool)
      requires Inner(0) && table.Valid()
      requires e.Some? ==> e.value in handles && handles[e.value].inCache && Indexed(table.contents, handles, e.value)
      requires e.Some? ==> forall n :: n in table.contents ==> table.contents[n] != e.value
      requires e.None? ==> Indexed(table.contents, handles, 0)
      modifies this`usage, this`handles, this`links, this`lru, this`inUse, this`clients, this`deleted
      ensures Valid() && (b <==> e.Some?)
      ensures Now() == if e.Some? then TakenOut(old(Now()), e.value) else old(Now())
    {
      hide RingsOk, Accounted, CountsOk, Total, Without, Indexed, Dropped, TakenOut;
      if e.Some? {
        var id := e.value;
        CountedKeys(0);
        InHandles(id);
        NotBoth(id);
        EraseCounts(handles, clients, lru, inUse, id);
        CountedRefs(id);
        ghost var was := Now();
        OutThenDropped(was, id);
        LruRemove(id);
        handles := handles[id := handles[id].(inCache := false)];
        assert handles.Keys == old(handles).Keys;
        usage := usage - handles[id].charge;
        Unref(id);
        IndexedOut(was, id);
      }
      b := e.Some?;
    }

    lemma CountedRefs(e: nat)
      requires CountsOk(handles, clients, lru, inUse, 0) && e in handles && e in clients && e >= FIRST
      ensures handles[e].refs == clients[e] + if handles[e].inCache then 1 else 0
      ensures handles[e].refs >= 1
    {
      assert HandleOk(handles, clients, lru, inUse, e, 0);
    }

    method Lookup(key: Bytes, hash: Word) returns (r: Option<nat>)
      requires Valid()
      modifies this`handles, this`links, this`lru, this`inUse, this`clients
      ensures Valid()
      ensures r == if Name(hash, key) in table.contents then Some(table.contents[Name(hash, key)]) else None
      ensures Now() == if r.Some? then Held(old(Now()), r.value) else old(Now())
    {
      hide CountsOk, RingsOk, Accounted, Total, Without;
      r := table.Lookup(key, hash);
      if r.Some? {
        assert Leads(table.contents, handles, Name(hash, key));
        Ref(r.value);
        IndexedSame(table.contents, old(handles), handles);
      }
    }

    /** Release: a client gives up what Insert or Lookup handed it. */
    method Release(e: nat)
      requires Valid() && e in handles && e in clients && clients[e] > 0
      modifies this`handles, this`links, this`lru, this`inUse, this`clients, this`deleted
      ensures Valid() && Now() == Dropped(old(Now()).(clients := old(clients)[e := old(clients)[e] - 1]), e)
    {
      hide RingsOk, Accounted, Total, Without, Indexed, Dropped;
      ghost var before := clients;
      clients := clients[e := clients[e] - 1];
      ghost var held := Now();
      assert CountsOk(handles, clients, lru, inUse, e) by {
        forall id | id in handles ensures HandleOk(handles, clients, lru, inUse, id, if id == e then 1 else 0) {
          assert HandleOk(handles, before, lru, inUse, id, 0);
        }
      }
      assert HandleOk(handles, clients, lru, inUse, e, 1);
      Unref(e);
      IndexedDropped(held, e);
    }

    /** Erase: the name leads nowhere; its handle lives on while clients hold it. */
    method Erase(key: Bytes, hash: Word)
      requires Valid()
      modifies this`usage, this`handles, this`links, this`lru, this`inUse, this`clients, this`deleted, table
      ensures Valid() && table.contents == old(table.contents) - {Name(hash, key)}
      ensures var n := Name(hash, key);
        Now() == if n in old(table.contents) then TakenOut(old(Now()).(contents := table.contents),
          old(table.contents)[n]) else old(Now())
    {
      hide CountsOk, RingsOk, Accounted, Total, Without, Indexed;
      var e := table.Remove(key, hash);
      if e.Some? {
        RemovedName(old(table.contents), handles, Name(hash, key));
      } else {
        assert table.contents == old(table.contents);
      }
      var b := FinishErase(e);
    }

    /** lru_.next, taken out of the table and the cache: its deleter is called. */
    method EvictOldest()
      requires Valid() && lru != []
      modifies this`usage, this`handles, this`links, this`lru, this`inUse, this`clients, this`deleted, table
      ensures Valid() && Evicted(old(Now()), Now(), 1) && old(lru)[0] in old(handles) && |lru| < |old(lru)|
      ensures usage + old(handles)[old(lru)[0]].charge == old(usage)
    {
      hide RingsOk, Accounted, Total, Without, Indexed;
      HeadOf();
      var e := links.next[LRU];
      assert HandleOk(handles, clients, lru, inUse, e, 0);
      assert Found(table.contents, handles, e) by { FoundCached(table.contents, handles, e); }
      var r := table.Remove(handles[e].key, handles[e].hash);
      RemovedName(old(table.contents), handles, Name(handles[e].hash, handles[e].key));
      WithoutFirst(lru, inUse, e) by { NotBoth(e); }
      var b := FinishErase(r);
      OneGone(old(Now()), Name(old(handles)[e].hash, old(handles)[e].key));
    }

    /** Oldest first, until the charges fit or nothing is left to evict. */
    method Evict() returns (ghost k: nat)
      requires Valid()
      modifies this`usage, this`handles, this`links, this`lru, this`inUse, this`clients, this`deleted, table
      ensures Valid() && Evicted(old(Now()), Now(), k) && (usage <= capacity || lru == [])
      ensures k > 0 ==> LastCharge(old(Now()), k) + usage > capacity
    {
      hide Valid, Keep, Evicted, LastCharge, ListsThere;
      ghost var start := Now();
      k := 0;
      NoneEvicted(start);
      ThereNow();
      HeadOf();
      while usage > capacity && links.next[LRU] != LRU
        invariant Valid() && Evicted(start, Now(), k) && (k > 0 ==> LastCharge(start, k) + usage > capacity)
        invariant LRU in links.next && (links.next[LRU] == LRU <==> lru == [])
        decreases |lru|
      {
        ghost var before := Now();
        EvictOldest();
        EvictNext(start, before, Now(), k);
        k := k + 1;
        HeadOf();
      }
    }

    /** malloc: the handle is made, for its client. */
    method Make(h: Handle) returns (e: nat)
      requires Valid() && !h.inCache && h.refs == 1
      modifies this`handles, this`nextId, this`clients
      ensures Valid() && e == old(nextId) && nextId == e + 1 && e !in old(handles) && e in handles
      ensures Now() == Made(old(Now()), e, h)
    {
      hide RingsOk, Accounted, CountsOk, Total, Without, Indexed;
      e := nextId;
      NewId(handles.Keys, nextId, deleted);
      AddCounts(handles, clients, lru, inUse, e, h);
      NameAbsent(table.contents, handles, e, h);
      nextId := nextId + 1;
      handles := handles[e := h];
      clients := clients[e := 1];
      assert handles.Keys == old(handles).Keys + {e};
    }

    /** The new handle goes to the list in use and to the table. */
    method PutInCache(e: nat)
      requires Valid() && e in handles && !handles[e].inCache && handles[e].refs == 1
      modifies this`usage, this`handles, this`links, this`lru, this`inUse, this`clients, this`deleted, table
      ensures Valid() && Now() == PutIn(old(Now()), e)
    {
      hide RingsOk, Accounted, CountsOk, Total, Without, Indexed, TakenOut, TableOk, PowerOfTwo;
      var h := handles[e];
      ghost var was := Now();
      CountedKeys(0);
      InHandles(e);
      CacheCounts(handles, clients, lru, inUse, e);
      NameTaken(table.contents, handles, e);
      handles := handles[e := h.(inCache := true, refs := h.refs + 1)];
      assert handles.Keys == was.handles.Keys;
      LruAppend(IN_USE, e);
      usage := usage + h.charge;
      var before := table.Insert(Slot(e, h.hash, h.key));
      if before.Some? {
        InHandles(before.value);
        CountedRefs(before.value);
      }
      var b := FinishErase(before);
    }

    /** Insert, and what it evicts. */
    method Insert(key: Bytes, hash: Word, value: nat, charge: nat) returns (e: nat, ghost k: nat)
      requires Valid()
      modifies this`usage, this`handles, this`links, this`nextId, this`lru, this`inUse, this`clients,
          this`deleted, table
      ensures Valid() && e == old(nextId) && nextId == e + 1
      ensures var v := Inserted(old(Now()), e, Handle(hash, key, value, charge, false, 1), capacity > 0);
        Evicted(v, Now(), k) && (usage <= capacity || lru == []) && (k > 0 ==> LastCharge(v, k) + usage > capacity)
    {
      hide Inner, Indexed, Evicted, LastCharge, PutIn;
      e := Make(Handle(hash, key, value, charge, false, 1));
      if capacity > 0 { PutInCache(e); }
      k := Evict();
    }

    method Prune()
      requires Valid()
      modifies this`usage, this`handles, this`links, this`lru, this`inUse, this`clients, this`deleted, table
      ensures Valid() && lru == [] && Evicted(old(Now()), Now(), |old(lru)|)
    {
      hide Valid, Keep, Evicted, ListsThere;
      ghost var start, k: nat := Now(), 0;
      NoneEvicted(start);
      ThereNow();
      HeadOf();
      while links.next[LRU] != LRU
        invariant Valid() && Evicted(start, Now(), k)
        invariant LRU in links.next && (links.next[LRU] == LRU <==> lru == [])
        decreases |lru|
      {
        ghost var before := Now();
        EvictOldest();
        EvictNext(start, before, Now(), k);
        k := k + 1;
        HeadOf();
      }
      AllEvicted(start, Now(), k);
    }

    /** A cached handle is in the table and on exactly one list: in use when clients hold it. */
    lemma OnOneList(e: nat)
      requires Valid() && e in handles
      ensures e in clients && (handles[e].inCache <==> e in lru || e in inUse) && !(e in lru && e in inUse)
      ensures handles[e].inCache ==> Found(table.contents, handles, e) && (e in lru <==> clients[e] == 0)
      ensures Found(table.contents, handles, e) ==> handles[e].inCache
    {
      hide RingsOk, Ring, Charges;
      NotBoth(e);
      assert HandleOk(handles, clients, lru, inUse, e, 0);
      var n := Name(handles[e].hash, handles[e].key);
      if n in table.contents { assert Leads(table.contents, handles, n); }
    }

    /** Every handle ever made is held by a client or the cache, or its deleter was called, once. */
    lemma DeletedOnce(e: nat)
      requires Valid() && FIRST <= e < nextId
      ensures e in deleted <==> e !in handles
      ensures e in handles ==> e in clients && (clients[e] > 0 || handles[e].inCache)
      ensures NoRepeats(deleted)
    {
      if e in handles { assert HandleOk(handles, clients, lru, inUse, e, 0); }
    }

    /** What neither a client nor the list of the unreferenced has was deleted. */
    lemma DeletedWhenLetGo(e: nat)
      requires Valid() && FIRST <= e < nextId && e !in lru && (e in clients ==> clients[e] == 0)
      ensures e in deleted
    {
      hide RingsOk, Ring, Charges, Inner, Indexed;
      DeletedOnce(e);
      if e in handles { OnOneList(e); }
    }

    /** When no client holds anything and nothing is left to evict, every deleter was called. */
    lemma AllDeleted()
      requires Valid() && lru == [] && forall e :: e in clients ==> clients[e] == 0
      ensures forall e :: FIRST <= e < nextId ==> e in deleted
      ensures handles.Keys == {} && table.contents.Keys == {}
    {
      hide RingsOk, Ring, Charges, CountsOk;
      forall e | FIRST <= e < nextId ensures e in deleted {
        DeletedWhenLetGo(e);
      }
      AllThere();
    }

    lemma AllThere()
      requires Valid()
      ensures (forall n :: n in table.contents ==> table.contents[n] in handles) && forall e :: e in handles ==>
          FIRST <= e < nextId
    {
      assert forall n :: n in table.contents ==> Leads(table.contents, handles, n);
    }

    lemma HeadOf()
      requires Valid()
      ensures LRU in links.next && links.next[LRU] == (if lru == [] then LRU else lru[0])
      ensures links.next[LRU] == LRU <==> lru == []
    {
      HeadLinked(LRU);
    }

    lemma ThereNow()
      requires Valid()
      ensures ListsThere(Now())
    {
    }
  }

  /** The k oldest of the unreferenced are out of the cache and their deleters called. */
  ghost predicate Evicted(v: View, w: View, k: nat) {
    && k <= |v.lru| && w.lru == v.lru[k..] && w.inUse == v.inUse && w.deleted == v.deleted + v.lru[..k]
    && w.usage + Charges(v.handles, v.lru[..k]) == v.usage
    && w.handles == Keep(v.handles, v.lru[..k]) && w.clients == Keep(v.clients, v.lru[..k])
    && w.contents == map n | n in v.contents && v.contents[n] !in v.lru[..k] :: v.contents[n]
  }

  ghost predicate ListsThere(v: View) {
    forall e :: e in v.lru ==> e in v.handles
  }

  /** The charge of the k-th oldest. */
  ghost function LastCharge(v: View, k: nat): nat
    requires 0 < k
  {
    if k <= |v.lru| && v.lru[k - 1] in v.handles then v.handles[v.lru[k - 1]].charge else 0
  }

  lemma NoneEvicted(v: View)
    ensures Evicted(v, v, 0)
  {
  }

  lemma AllEvicted(v: View, w: View, k: nat)
    requires Evicted(v, w, k) && w.lru == []
    ensures k == |v.lru|
  {
  }

  lemma EvictNext(v: View, w: View, x: View, k: nat)
    requires Evicted(v, w, k) && Evicted(w, x, 1) && ListsThere(v) && w.lru[0] in w.handles
    ensures Evicted(v, x, k + 1) && LastCharge(v, k + 1) + x.usage == w.usage
  {
    var l := v.lru;
    assert w.lru[..1] == [l[k]] && l[..k + 1] == l[..k] + [l[k]] && w.lru[1..] == l[k + 1..];
    ChargesAppend(v.handles, l[..k], l[k]);
    FirstCharge(w.handles, w.lru);
    assert w.deleted + [l[k]] == v.deleted + l[..k + 1];
  }

  function Keep<T>(m: map<nat, T>, gone: seq<nat>): map<nat, T> {
    map x | x in m && x !in gone :: m[x]
  }

  /** FinishErase is the removal from the list and the release of the cache's reference. */
  lemma OutThenDropped(v: View, e: nat)
    requires e in v.handles && e in v.clients && v.handles[e].refs >= 1 && v.handles[e].inCache
    requires v.handles[e].refs == v.clients[e] + 1
    ensures var w := v.(handles := v.handles[e := v.handles[e].(inCache := false)], lru := Without(v.lru, e),
        inUse := Without(v.inUse, e), usage := v.usage - v.handles[e].charge);
      TakenOut(v, e) == Dropped(w, e)
  {
  }

  lemma IndexedDropped(v: View, e: nat)
    requires Indexed(v.contents, v.handles, 0) && e in v.handles && e in v.clients && v.handles[e].refs >= 1
    requires e >= FIRST
    ensures Indexed(v.contents, Dropped(v, e).handles, 0)
  {
    if v.clients[e] == 0 && !v.handles[e].inCache {
      NotInTable(v.contents, v.handles, e);
      IndexedStill(v.contents, v.handles, Dropped(v, e).handles, e);
    } else {
      IndexedSame(v.contents, v.handles, Dropped(v, e).handles);
    }
  }

  lemma IndexedOut(v: View, e: nat)
    requires Indexed(v.contents, v.handles, e) && e in v.handles && e in v.clients && v.handles[e].refs >= 1
    requires e >= FIRST
    requires forall n :: n in v.contents ==> v.contents[n] != e
    ensures Indexed(v.contents, TakenOut(v, e).handles, 0)
  {
    IndexedStill(v.contents, v.handles, TakenOut(v, e).handles, e);
  }

  lemma NewId(ids: set<nat>, nextId: nat, deleted: seq<nat>)
    requires Accounted(ids, nextId, deleted)
    ensures nextId !in ids && nextId >= FIRST && Accounted(ids + {nextId}, nextId + 1, deleted)
  {
    assert nextId !in deleted;
  }

  /** The name of a handle newly cached leads to it; what it led to before is the one left over. */
  lemma NameTaken(contents: map<Name, nat>, handles: map<nat, Handle>, e: nat)
    requires Indexed(contents, handles, 0) && e in handles && !handles[e].inCache
    ensures var h, n := handles[e], Name(handles[e].hash, handles[e].key);
      && Indexed(contents[n := e], handles[e := h.(inCache := true, refs := h.refs + 1)],
        if n in contents then contents[n] else 0)
      && (n in contents ==>
        contents[n] in handles && handles[contents[n]].inCache && contents[n] != e
        && forall m :: m in contents && m != n ==> contents[m] != contents[n])
  {
    var h, n := handles[e], Name(handles[e].hash, handles[e].key);
    var after, hs := contents[n := e], handles[e := h.(inCache := true, refs := h.refs + 1)];
    forall m | m in after ensures Leads(after, hs, m) {
      if m in contents { assert Leads(contents, handles, m); }
    }
    forall id | id in hs && hs[id].inCache && (n in contents ==> id != contents[n]) ensures Found(after, hs, id) {
      if id != e { assert Found(contents, handles, id); }
    }
    if n in contents {
      assert Leads(contents, handles, n);
      forall m | m in contents && m != n ensures contents[m] != contents[n] {
        assert Leads(contents, handles, m);
      }
    }
  }

  lemma NameAbsent(contents: map<Name, nat>, handles: map<nat, Handle>, e: nat, h: Handle)
    requires Indexed(contents, handles, 0) && e !in handles && e >= FIRST && !h.inCache
    ensures Indexed(contents, handles[e := h], 0)
  {
    var hs := handles[e := h];
    forall n | n in contents ensures Leads(contents, hs, n) {
      assert Leads(contents, handles, n);
    }
    forall id | id in hs && hs[id].inCache ensures Found(contents, hs, id) {
      assert Found(contents, handles, id);
    }
  }

  lemma NotInTable(contents: map<Name, nat>, handles: map<nat, Handle>, e: nat)
    requires Indexed(contents, handles, 0) && e in handles && !handles[e].inCache
    ensures Indexed(contents, handles, e) && forall n :: n in contents ==> contents[n] != e
  {
    assert forall n :: n in contents ==> Leads(contents, handles, n);
  }

  lemma RemovedName(contents: map<Name, nat>, handles: map<nat, Handle>, n: Name)
    requires Indexed(contents, handles, 0) && n in contents
    ensures contents[n] in handles && handles[contents[n]].inCache && Indexed(contents - {n}, handles, contents[n])
    ensures forall m :: m in contents && m != n ==> contents[m] != contents[n]
  {
    assert Leads(contents, handles, n);
    forall m | m in contents && m != n ensures Leads(contents - {n}, handles, m) && contents[m] != contents[n] {
      assert Leads(contents, handles, m);
    }
    forall id | id in handles && handles[id].inCache && id != contents[n] ensures Found(contents - {n}, handles, id) {
      assert Found(contents, handles, id);
    }
  }

  lemma FoundCached(contents: map<Name, nat>, handles: map<nat, Handle>, e: nat)
    requires Indexed(contents, handles, 0) && e in handles && handles[e].inCache
    ensures Found(contents, handles, e)
  {
  }

  lemma WithoutFirst(l: seq<nat>, u: seq<nat>, e: nat)
    requires l != [] && l[0] == e && e !in u
    ensures Without(l, e) == l[1..] && Without(u, e) == u
  {
    WithoutNone(u, e);
  }

  lemma FirstCharge(handles: map<nat, Handle>, l: seq<nat>)
    requires l != [] && l[0] in handles
    ensures Charges(handles, l[..1]) == handles[l[0]].charge
  {
    assert l[..1][..0] == [];
  }

  lemma OneGone(v: View, n: Name)
    requires v.lru != [] && n in v.contents && v.contents[n] == v.lru[0] && v.lru[0] in v.handles
    requires forall m :: m in v.contents && m != n ==> v.contents[m] != v.lru[0]
    ensures var e := v.lru[0]; var gone := v.lru[..1];
      Keep(v.handles, gone) == v.handles - {e} && Keep(v.clients, gone) == v.clients - {e} && gone == [e]
      && Charges(v.handles, gone) == v.handles[e].charge
      && v.contents - {n} == map m | m in v.contents && v.contents[m] !in gone :: v.contents[m]
  {
    FirstCharge(v.handles, v.lru);
  }

  lemma DeletedAccounts(ids: set<nat>, nextId: nat, deleted: seq<nat>, e: nat)
    requires Accounted(ids, nextId, deleted) && e in ids
    ensures Accounted(ids - {e}, nextId, deleted + [e])
  {
  }
}
