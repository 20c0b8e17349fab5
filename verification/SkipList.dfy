/** The skip list under the memtable (db/skiplist.h). One writer inserts while readers search:
    each store of a pointer is a method of its own, and a search may stand between any two of
    them. Nodes are never removed. */
module SkipList {
  const MAX_HEIGHT: nat := 12

  function Nulls(n: nat): seq<Node?> {
    if n == 0 then [] else Nulls(n - 1) + [null]
  }

  class Node {
    const key: int
    var next: seq<Node?>

    constructor (key: int, height: nat)
      ensures this.key == key && next == Nulls(height)
    {
      this.key, next := key, Nulls(height);
    }
  }

  /** A search: the node it has come to and the level it reads. */
  datatype Search = Search(x: Node, level: nat)

  /** The node after position i of a list. */
  function NextIn(list: seq<Node>, i: nat): Node?
    requires i < |list|
  {
    if i + 1 < |list| then list[i + 1] else null
  }

  /** The links of level l lead from the head through the list. */
  ghost predicate Spells(links: map<Node, seq<Node?>>, head: Node, list: seq<Node>, l: nat) {
    && list != [] && list[0] == head
    && (forall i :: 0 <= i < |list| ==> list[i] in links && |links[list[i]]| > l)
    && forall i :: 0 <= i < |list| ==> links[list[i]][l] == NextIn(list, i)
  }

  class List {
    const head: Node
    var maxHeight: nat
    ghost var all: set<Node>
    /** The nodes of each level in order, the head first. */
    ghost var lists: seq<seq<Node>>

    /** The links of a level spell its list, which is sorted. */
    ghost predicate LevelOk(l: nat)
      requires l < |lists|
      reads this, all
    {
      Linked(Links(), lists, l)
    }

    /** The pointers of all nodes. */
    ghost function Links(): map<Node, seq<Node?>>
      reads this, all
    {
      map n | n in all :: n.next
    }

    ghost predicate Linked(links: map<Node, seq<Node?>>, ls: seq<seq<Node>>, m: nat)
      requires m < |ls|
    {
      Spells(links, head, ls[m], m) && SortedFrom(ls[m])
    }

    ghost predicate Valid()
      reads this, all
    {
      && |lists| == MAX_HEIGHT && 1 <= maxHeight <= MAX_HEIGHT
      && (forall l :: 0 <= l < MAX_HEIGHT ==> LevelOk(l))
      && (forall l :: 0 <= l < MAX_HEIGHT - 1 ==> Sublist(lists[l + 1], lists[l]))
      && (forall l :: maxHeight <= l < MAX_HEIGHT ==> lists[l] == [head])
    }

    /** The keys in the list, in order. */
    ghost function Keys(): seq<int>
      requires Valid()
      reads this, all
    {
      assert LevelOk(0);
      KeysOf(lists[0])
    }

    lemma KeysIncrease(i: nat, j: nat)
      requires Valid() && i < j < |Keys()|
      ensures Keys()[i] < Keys()[j]
    {
      hide Spells;
      assert LevelOk(0);
      Ends(Links(), head, lists[0], 0);
      KeysSorted(lists[0], i, j);
    }

    constructor ()
      ensures Valid() && fresh(all) && Keys() == []
    {
      var h := new Node(0, MAX_HEIGHT);
      NullsAt(MAX_HEIGHT);
      head, maxHeight := h, 1;
      all := {h};
      lists := seq(MAX_HEIGHT, i => [h]);
    }

    // Searching

    /** The node is before the target: the head, or of a smaller key. */
    ghost predicate Before(x: Node, key: int) {
      x == head || x.key < key
    }

    /** What a search knows, whatever the writer does meanwhile. */
    ghost predicate SearchOk(s: Search, key: int)
      reads this`lists
    {
      SearchIn(lists, s, key)
    }

    ghost predicate SearchIn(ls: seq<seq<Node>>, s: Search, key: int) {
      s.level < |ls| && s.x in ls[s.level] && Before(s.x, key)
    }

    /** A search in one state is one in every later state: lists only grow. */
    lemma SearchStays(before: seq<seq<Node>>, after: seq<seq<Node>>, s: Search, key: int)
      requires SearchIn(before, s, key) && Grown(before, after)
      ensures SearchIn(after, s, key)
    {
      assert Sublist(before[s.level], after[s.level]);
    }

    /** `next` is the first node of level l at or after the key, and `x` the one before it. */
    ghost predicate Neighbours(l: nat, x: Node, next: Node?, key: int)
      reads this`lists
    {
      l < |lists| && exists i :: 0 <= i < |lists[l]| && lists[l][i] == x && NeighboursAt(lists[l], i, next, key)
    }

    ghost predicate NeighboursAt(list: seq<Node>, i: nat, next: Node?, key: int)
      requires i < |list|
    {
      && Before(list[i], key)
      && next == NextIn(list, i)
      && forall j :: i < j < |list| ==> list[j].key >= key
    }

    /** A search may begin with any height the list has had. */
    method Start(height: nat) returns (s: Search)
      requires Valid() && 1 <= height <= maxHeight
      ensures s == Search(head, height - 1) && (forall key :: SearchOk(s, key)) && lists[s.level][0] == head
    {
      s := Search(head, height - 1);
      assert LevelOk(height - 1);
    }

    /** One load of a pointer and what follows from it. When the level is exhausted `next` and
        the search's node are neighbours of the key at this moment. */
    method Step(s: Search, key: int) returns (t: Search, next: Node?, found: bool)
      requires Valid() && SearchOk(s, key)
      ensures found ==> Neighbours(s.level, s.x, next, key)
      ensures found && s.level == 0 ==> t == s
      ensures !(found && s.level == 0) ==> SearchOk(t, key)
      ensures !found ==> t.level == s.level
      ensures !found ==> forall i :: 0 <= i < |lists[s.level]| && lists[s.level][i] == s.x ==>
          i + 1 < |lists[s.level]| && lists[s.level][i + 1] == t.x
      ensures found && s.level > 0 ==> t == Search(s.x, s.level - 1)
    {
      hide SortedFrom, Spells, Sublist, NeighboursAt;
      assert LevelOk(s.level);
      ghost var list := lists[s.level];
      ghost var i :| 0 <= i < |list| && list[i] == s.x;
      AfterUnique(list, i);
      LinkAt(Links(), head, list, s.level, i);
      next := s.x.next[s.level];
      if next != null && next.key < key {
        t, found := Search(next, s.level), false;
        assert list[i + 1] == next;
      } else {
        found := true;
        AreNeighbours(list, i, next, key);
        t := if s.level > 0 then Search(s.x, s.level - 1) else s;
        if s.level > 0 {
          assert Sublist(lists[s.level - 1 + 1], lists[s.level - 1]);
          InBoth(lists[s.level], lists[s.level - 1], s.x);
        }
      }
    }

    lemma AreNeighbours(list: seq<Node>, i: nat, next: Node?, key: int)
      requires i < |list| && Before(list[i], key) && next == NextIn(list, i) && (next == null || next.key >= key)
      requires forall j :: i + 1 < j < |list| ==> list[i + 1].key < list[j].key
      ensures NeighboursAt(list, i, next, key)
    {
    }

    /** The node of level l after which the key belongs. */
    ghost predicate Precedes(l: nat, x: Node, key: int)
      reads this`lists
    {
      l < |lists| && exists i :: 0 <= i < |lists[l]| && lists[l][i] == x && LastBefore(lists[l], i, key)
    }

    ghost predicate LastBefore(list: seq<Node>, i: nat, key: int)
      requires i < |list|
    {
      Before(list[i], key) && forall j :: i < j < |list| ==> list[j].key >= key
    }

    /** FindGreaterOrEqual without a writer: the first node at or after the key and, at every
        level in use, the node before it. */
    method FindGreaterOrEqual(key: int) returns (x: Node?, prev: seq<Node>)
      requires Valid()
      ensures |prev| == MAX_HEIGHT && Neighbours(0, prev[0], x, key)
      ensures forall l :: 0 <= l < maxHeight ==> Precedes(l, prev[l], key)
    {
      prev := seq(MAX_HEIGHT, i => head);
      var s := Start(maxHeight);
      assert SearchOk(s, key);
      ghost var i := 0;
      assert LevelOk(s.level);
      while true
        invariant SearchOk(s, key) && |prev| == MAX_HEIGHT && s.level < maxHeight
        invariant 0 <= i < |lists[s.level]| && lists[s.level][i] == s.x
        invariant forall l :: s.level < l < maxHeight ==> Precedes(l, prev[l], key)
        decreases s.level, |lists[s.level]| - i
      {
        var t, next, found := Step(s, key);
        if found {
          prev := prev[s.level := s.x];
          assert Precedes(s.level, s.x, key) by { NeighboursPrecede(s.level, s.x, next, key); }
          if s.level == 0 {
            return next, prev;
          }
          i :| 0 <= i < |lists[t.level]| && lists[t.level][i] == t.x;
        } else {
          i := i + 1;
        }
        s := t;
      }
    }

    lemma NeighboursPrecede(l: nat, x: Node, next: Node?, key: int)
      requires Neighbours(l, x, next, key)
      ensures Precedes(l, x, key)
    {
      var i :| 0 <= i < |lists[l]| && lists[l][i] == x && NeighboursAt(lists[l], i, next, key);
      assert LastBefore(lists[l], i, key);
    }

    /** FindLessThan: the last node before the key, the head if there is none. */
    method FindLessThan(key: int) returns (x: Node)
      requires Valid()
      ensures Precedes(0, x, key)
    {
      var s := Start(maxHeight);
      assert SearchOk(s, key);
      ghost var i := 0;
      assert LevelOk(s.level);
      while true
        invariant SearchOk(s, key)
        invariant 0 <= i < |lists[s.level]| && lists[s.level][i] == s.x
        decreases s.level, |lists[s.level]| - i
      {
        var t, next, found := Step(s, key);
        if found {
          if s.level == 0 {
            NeighboursPrecede(0, s.x, next, key);
            return s.x;
          }
          i :| 0 <= i < |lists[t.level]| && lists[t.level][i] == t.x;
        } else {
          i := i + 1;
        }
        s := t;
      }
    }

    /** FindLast: the last node, the head of an empty list. */
    method FindLast() returns (x: Node)
      requires Valid()
      ensures lists[0] != [] && x == lists[0][|lists[0]| - 1]
    {
      var level: nat := maxHeight - 1;
      x := head;
      ghost var i := 0;
      assert LevelOk(level);
      while true
        invariant level < MAX_HEIGHT && 0 <= i < |lists[level]| && lists[level][i] == x
        decreases level, |lists[level]| - i
      {
        assert LevelOk(level);
        var next := x.next[level];
        assert Links()[x][level] == NextIn(lists[level], i);
        if next == null {
          if level == 0 { return; }
          assert x in lists[level] && Sublist(lists[level - 1 + 1], lists[level - 1]);
          level := level - 1;
          i :| 0 <= i < |lists[level]| && lists[level][i] == x;
        } else {
          x := next;
          i := i + 1;
        }
      }
    }

    method Contains(key: int) returns (b: bool)
      requires Valid()
      ensures b <==> key in Keys()
    {
      var x, prev := FindGreaterOrEqual(key);
      b := x != null && x.key == key;
      NeighbourIsFirst(prev[0], x, key);
    }

    /** The key is in the list exactly when it is the neighbour's. */
    lemma NeighbourIsFirst(x: Node, next: Node?, key: int)
      requires Valid() && Neighbours(0, x, next, key)
      ensures key in Keys() <==> next != null && next.key == key
    {
      hide Spells, SortedFrom;
      var list := lists[0];
      assert LevelOk(0);
      Ends(Links(), head, list, 0);
      var i :| 0 <= i < |list| && list[i] == x && NeighboursAt(list, i, next, key);
      FirstFrom(list, i, key);
    }

    lemma FirstFrom(list: seq<Node>, i: nat, key: int)
      requires SortedFrom(list) && i < |list| && list[0] == head && Before(list[i], key)
      requires forall j :: i < j < |list| ==> list[j].key >= key
      ensures key in KeysOf(list) <==> i + 1 < |list| && list[i + 1].key == key
    {
      var keys := KeysOf(list);
      if i + 1 < |list| { assert keys[i] == list[i + 1].key; }
      forall j | 0 <= j < |keys| && j != i ensures keys[j] != key || j > i {
        assert keys[j] == list[j + 1].key;
        if j + 1 < i { assert list[j + 1].key < list[i].key; }
      }
      forall j | i < j < |keys| ensures keys[j] > list[i + 1].key {
        assert keys[j] == list[j + 1].key;
      }
    }

    // Inserting

    /** The new node's own pointer, not yet to be seen at this level. */
    method SetOwnNext(x: Node, l: nat, prev: Node)
      requires Valid() && x in all && l < |lists| && x !in lists[l] && l < |x.next| && prev in lists[l]
      modifies x
      ensures Valid() && |prev.next| > l && x.next == old(x.next)[l := prev.next[l]]
    {
      hide Spells, SortedFrom;
      ghost var links := Links();
      assert LevelOk(l);
      Ends(links, head, lists[l], l);
      forall m | 0 <= m < MAX_HEIGHT ensures Linked(links, lists, m) {
        assert LevelOk(m);
      }
      x.next := x.next[l := prev.next[l]];
      assert Links() == links[x := links[x][l := prev.next[l]]];
      forall m | 0 <= m < MAX_HEIGHT ensures LevelOk(m) {
        assert Linked(links, lists, m);
        if m == l { UnseenStore(links, head, lists[l], l, x, prev.next[l]); }
        else { OthersAfter(links, head, lists[m], m, x, l, prev.next[l]); }
      }
    }

    lemma LastIsSmaller(list: seq<Node>, p: nat, x: Node)
      requires SortedFrom(list) && p < |list| && list[0] == head && LastBefore(list, p, x.key)
      ensures p == 0 || list[p].key < x.key
    {
    }

    /** The store that makes the new node visible at a level. */
    method Publish(x: Node, l: nat, prev: Node, ghost p: nat)
      requires Valid() && x in all && l < maxHeight && x !in lists[l] && l < |x.next|
      requires p < |lists[l]| && lists[l][p] == prev && LastBefore(lists[l], p, x.key)
      requires forall j :: p < j < |lists[l]| ==> lists[l][j].key != x.key
      requires |prev.next| > l && x.next[l] == prev.next[l] && (l > 0 ==> x in lists[l - 1])
      modifies prev, this`lists
      ensures Valid() && x.next == old(x.next)
      ensures lists == old(lists)[l := Inserted(old(lists)[l], p, x)] && Grown(old(lists), lists)
    {
      hide Spells, SortedFrom, Inserted;
      ghost var list, before, links := lists[l], lists, Links();
      assert LevelOk(l);
      Ends(links, head, list, l);
      forall m | 0 <= m < MAX_HEIGHT ensures Linked(links, before, m) {
        assert LevelOk(m);
      }
      prev.next := prev.next[l := x];
      lists := lists[l := Inserted(lists[l], p, x)];
      assert Links() == links[prev := links[prev][l := x]];
      LinksAfter(links, head, list, l, p, x);
      LastIsSmaller(list, p, x);
      InsertedSorted(list, p, x);
      forall m | 0 <= m < MAX_HEIGHT ensures LevelOk(m) {
        assert Linked(links, before, m);
        if m != l { OthersAfter(links, head, before[m], m, prev, l, x); }
      }
      InsertedGrows(list, p, x);
      SublistsKept(before, l, p, x);
    }

    /** The height of the list grows before the node is linked. */
    method GrowTo(height: nat)
      requires Valid() && 1 <= height <= MAX_HEIGHT
      modifies this`maxHeight
      ensures Valid() && maxHeight == if height > old(maxHeight) then height else old(maxHeight)
    {
      hide Spells, SortedFrom;
      ghost var links := Links();
      forall l | 0 <= l < MAX_HEIGHT ensures Linked(links, lists, l) {
        assert LevelOk(l);
      }
      if height > maxHeight { maxHeight := height; }
      assert Links() == links;
      forall l | 0 <= l < MAX_HEIGHT ensures LevelOk(l) {
        assert Linked(links, lists, l);
      }
    }

    /** A new node is in no list. */
    ghost method AddNode(x: Node)
      requires Valid() && x !in all
      modifies this`all
      ensures Valid() && all == old(all) + {x} && forall l :: 0 <= l < MAX_HEIGHT ==> x !in lists[l]
    {
      hide SortedFrom;
      ghost var links := Links();
      forall m | 0 <= m < MAX_HEIGHT ensures Linked(links, lists, m) {
        assert LevelOk(m);
      }
      all := all + {x};
      assert forall y :: y in links ==> Links()[y] == links[y];
      forall m | 0 <= m < MAX_HEIGHT ensures LevelOk(m) && x !in lists[m] {
        assert Linked(links, lists, m);
        MoreLinks(links, Links(), lists[m], m, x);
      }
    }

    lemma MoreLinks(links: map<Node, seq<Node?>>, more: map<Node, seq<Node?>>, list: seq<Node>, l: nat, x: Node)
      requires Spells(links, head, list, l) && x !in links && forall y :: y in links ==>
          y in more && more[y] == links[y]
      ensures Spells(more, head, list, l) && x !in list
    {
    }

    lemma InAll(l: nat, i: nat)
      requires Valid() && l < MAX_HEIGHT && i < |lists[l]|
      ensures lists[l][i] in all
    {
      assert LevelOk(l);
    }

    lemma HeadsPrecede(key: int)
      requires Valid()
      ensures forall l :: maxHeight <= l < MAX_HEIGHT ==> Precedes(l, head, key)
    {
      forall l | maxHeight <= l < MAX_HEIGHT ensures Precedes(l, head, key) {
        assert lists[l][0] == head && LastBefore(lists[l], 0, key);
      }
    }

    lemma {:induction false} UnderLevelZero(l: nat, y: Node)
      requires Valid() && l < MAX_HEIGHT && y in lists[l]
      ensures y in lists[0]
      decreases l
    {
      if l > 0 {
        assert Sublist(lists[l - 1 + 1], lists[l - 1]);
        UnderLevelZero(l - 1, y);
      }
    }

    /** A key that is not in the list is at no level. */
    lemma KeyNowhere(key: int)
      requires Valid() && key !in Keys()
      ensures forall l, i :: 0 <= l < MAX_HEIGHT && 1 <= i < |lists[l]| ==> lists[l][i].key != key
    {
      forall l, i | 0 <= l < MAX_HEIGHT && 1 <= i < |lists[l]| ensures lists[l][i].key != key {
        var y := lists[l][i];
        assert LevelOk(l) && LevelOk(0);
        UnderLevelZero(l, y);
        var j :| 0 <= j < |lists[0]| && lists[0][j] == y;
        assert j > 0;
        assert Keys()[j - 1] == y.key;
      }
    }

    /** Where the new node goes at a level that does not have it yet. */
    ghost predicate Waits(x: Node, l: nat, prev: Node)
      reads this`lists
    {
      l < |lists| && x !in lists[l] && Precedes(l, prev, x.key) && forall i :: 1 <= i < |lists[l]| ==>
        lists[l][i].key != x.key
    }

    /** Above the old height of the list the new node follows the head. */
    method UseHead(prev0: seq<Node>, from: nat, to: nat) returns (prev: seq<Node>)
      requires |prev0| == MAX_HEIGHT && from <= to <= MAX_HEIGHT
      ensures |prev| == MAX_HEIGHT && forall l :: 0 <= l < MAX_HEIGHT ==> prev[l] == if from <= l < to then head
          else prev0[l]
    {
      prev := prev0;
      for i := from to to
        invariant |prev| == MAX_HEIGHT && forall l :: 0 <= l < MAX_HEIGHT ==> prev[l] == if from <= l < i then head
            else prev0[l]
      {
        prev := prev[i := head];
      }
    }

    /** Links the node at each of its levels, from the lowest up. */
    method LinkAll(x: Node, prev: seq<Node>) returns (ghost p: nat)
      requires Valid() && x in all && 1 <= |x.next| <= maxHeight && |prev| == MAX_HEIGHT
      requires forall l :: 0 <= l < |x.next| ==> Waits(x, l, prev[l])
      modifies this`lists, all
      ensures Valid() && Grown(old(lists), lists)
      ensures p < |old(lists)[0]| && lists[0] == Inserted(old(lists)[0], p, x)
    {
      hide Spells, SortedFrom, Inserted;
      ghost var before := lists;
      p := 0;
      var height := |x.next|;
      for i := 0 to height
        invariant Valid() && |x.next| == height && (i > 0 ==> x in lists[i - 1])
        invariant forall l :: i <= l < height ==> Waits(x, l, prev[l])
        invariant Grown(before, lists)
        invariant if i == 0 then lists == before else p < |before[0]| && lists[0] == Inserted(before[0], p, x)
      {
        assert Waits(x, i, prev[i]);
        ghost var at :| 0 <= at < |lists[i]| && lists[i][at] == prev[i] && LastBefore(lists[i], at, x.key);
        ghost var was := lists;
        InAll(i, at);
        SetOwnNext(x, i, prev[i]);
        Publish(x, i, prev[i], at);
        if i == 0 { p := at; }
        assert x in Inserted(was[i], at, x) by { InsertedGrows(was[i], at, x); }
        GrownTwice(before, was, lists);
      }
    }

    /** Insert: a node of the given height for the key. */
    method Insert(key: int, height: nat)
      requires Valid() && key !in Keys() && 1 <= height <= MAX_HEIGHT
      modifies this, all
      ensures Valid() && fresh(all - old(all)) && Grown(old(lists), lists)
      ensures exists p :: 0 <= p <= |old(Keys())| && Keys() == old(Keys())[..p] + [key] + old(Keys())[p..]
    {
      hide Spells, SortedFrom, Inserted;
      ghost var before, keys := lists, Keys();
      var next, prev := FindGreaterOrEqual(key);
      HeadsPrecede(key);
      KeyNowhere(key);
      if height > maxHeight {
        prev := UseHead(prev, maxHeight, height);
        GrowTo(height);
      }
      var x := new Node(key, height);
      NullsAt(height);
      AddNode(x);
      forall l | 0 <= l < height ensures Waits(x, l, prev[l]) {
        assert Precedes(l, prev[l], key);
      }
      ghost var p := LinkAll(x, prev);
      InsertedKeys(before[0], p, x);
    }
  }

  lemma GrownTwice(a: seq<seq<Node>>, b: seq<seq<Node>>, c: seq<seq<Node>>)
    requires Grown(a, b) && Grown(b, c)
    ensures Grown(a, c)
  {
    forall l | 0 <= l < |a| ensures Sublist(a[l], c[l]) {
      assert Sublist(a[l], b[l]) && Sublist(b[l], c[l]);
    }
  }

  lemma KeysSorted(list: seq<Node>, i: nat, j: nat)
    requires list != [] && SortedFrom(list) && i < j < |KeysOf(list)|
    ensures KeysOf(list)[i] < KeysOf(list)[j]
  {
  }

  lemma InsertedKeys(list: seq<Node>, p: nat, x: Node)
    requires p < |list|
    ensures KeysOf(Inserted(list, p, x)) == KeysOf(list)[..p] + [x.key] + KeysOf(list)[p..]
  {
  }

  lemma Ends(links: map<Node, seq<Node?>>, head: Node, list: seq<Node>, l: nat)
    requires Spells(links, head, list, l)
    ensures list != [] && list[0] == head && forall i :: 0 <= i < |list| ==> list[i] in links && |links[list[i]]| > l
  {
  }

  /** After the two stores the links of the level spell the list with the new node. */
  lemma LinksAfter(links: map<Node, seq<Node?>>, head: Node, list: seq<Node>, l: nat, p: nat, x: Node)
    requires Spells(links, head, list, l) && SortedFrom(list) && p < |list| && x !in list
    requires x in links && |links[x]| > l && links[x][l] == links[list[p]][l]
    ensures Spells(links[list[p] := links[list[p]][l := x]], head, Inserted(list, p, x), l)
  {
    var now, prev := Inserted(list, p, x), list[p];
    var after := links[prev := links[prev][l := x]];
    forall i | 0 <= i < |now| ensures now[i] in after && |after[now[i]]| > l && after[now[i]][l] == NextIn(now, i) {
      InsertedAt(list, p, x, i);
      if i < p {
        Distinct(list, p, i);
        assert links[list[i]][l] == NextIn(list, i);
      } else if i > p + 1 {
        var k := i - 1;
        Distinct(list, p, k);
        assert links[list[k]][l] == NextIn(list, k);
      } else if i == p + 1 {
        assert links[list[p]][l] == NextIn(list, p);
      }
    }
  }

  /** A store at one level leaves the links of the others. */
  lemma OthersAfter(links: map<Node, seq<Node?>>, head: Node, list: seq<Node>, m: nat, prev: Node, l: nat, x: Node?)
    requires Spells(links, head, list, m) && m != l && prev in links && l < |links[prev]|
    ensures Spells(links[prev := links[prev][l := x]], head, list, m)
  {
  }

  /** Before it is visible at a level, a node's own pointer there does not matter. */
  lemma UnseenStore(links: map<Node, seq<Node?>>, head: Node, list: seq<Node>, l: nat, x: Node, y: Node?)
    requires Spells(links, head, list, l) && x !in list && x in links && l < |links[x]|
    ensures Spells(links[x := links[x][l := y]], head, list, l)
  {
  }

  lemma SublistsKept(before: seq<seq<Node>>, l: nat, p: nat, x: Node)
    requires |before| == MAX_HEIGHT && l < MAX_HEIGHT && p < |before[l]| && (l > 0 ==> x in before[l - 1])
    requires forall m :: 0 <= m < MAX_HEIGHT - 1 ==> Sublist(before[m + 1], before[m])
    ensures var after := before[l := Inserted(before[l], p, x)];
      Grown(before, after) && forall m :: 0 <= m < MAX_HEIGHT - 1 ==> Sublist(after[m + 1], after[m])
  {
    InsertedGrows(before[l], p, x);
    var after := before[l := Inserted(before[l], p, x)];
    forall m | 0 <= m < MAX_HEIGHT - 1 ensures Sublist(after[m + 1], after[m]) {
      assert Sublist(before[m + 1], before[m]);
      forall y | y in after[m + 1] ensures y in after[m] {
        if m + 1 == l {
          assert y == x || y in before[l];
        } else if m == l {
          assert y in before[l];
        }
      }
    }
  }

  ghost function Inserted(list: seq<Node>, p: nat, x: Node): seq<Node>
    requires p < |list|
  {
    list[..p + 1] + [x] + list[p + 1..]
  }

  lemma InsertedAt(list: seq<Node>, p: nat, x: Node, i: nat)
    requires p < |list| && i <= |list|
    ensures Inserted(list, p, x)[i] == if i <= p then list[i] else if i == p + 1 then x else list[i - 1]
    ensures i < |list| ==> Inserted(list, p, x)[i + 1] == if i < p then list[i + 1] else if i == p then x else list[i]
  {
  }

  lemma LinkAt(links: map<Node, seq<Node?>>, head: Node, list: seq<Node>, l: nat, i: nat)
    requires Spells(links, head, list, l) && i < |list|
    ensures list[i] in links && |links[list[i]]| > l && links[list[i]][l] == NextIn(list, i)
  {
  }

  lemma InBoth(upper: seq<Node>, lower: seq<Node>, x: Node)
    requires Sublist(upper, lower) && x in upper
    ensures x in lower
  {
  }

  lemma AfterUnique(list: seq<Node>, i: nat)
    requires SortedFrom(list) && i < |list|
    ensures forall j :: 0 <= j < |list| && list[j] == list[i] ==> j == i
    ensures forall j :: i + 1 < j < |list| ==> list[i + 1].key < list[j].key
  {
  }

  lemma Distinct(list: seq<Node>, i: nat, j: nat)
    requires SortedFrom(list) && i < |list| && j < |list| && i != j
    ensures list[i] != list[j]
  {
  }

  lemma InsertedSorted(list: seq<Node>, p: nat, x: Node)
    requires SortedFrom(list) && p < |list| && x !in list && (p == 0 || list[p].key < x.key)
    requires forall j :: p < j < |list| ==> list[j].key > x.key
    ensures SortedFrom(Inserted(list, p, x))
  {
    var r := Inserted(list, p, x);
    forall i, j | 1 <= i < j < |r| ensures r[i].key < r[j].key {
      InsertedAt(list, p, x, i);
      InsertedAt(list, p, x, j);
    }
    forall i | 1 <= i < |r| ensures r[i] != r[0] {
      InsertedAt(list, p, x, i);
    }
  }

  lemma InsertedGrows(list: seq<Node>, p: nat, x: Node)
    requires p < |list|
    ensures forall y :: y in Inserted(list, p, x) <==> y in list || y == x
  {
    assert list == list[..p + 1] + list[p + 1..];
    forall y ensures y in Inserted(list, p, x) <==> y in list || y == x {
      assert y in list <==> y in list[..p + 1] || y in list[p + 1..];
    }
  }

  /** Every list has kept its nodes. */
  ghost predicate Grown(before: seq<seq<Node>>, after: seq<seq<Node>>) {
    |before| == |after| && forall l :: 0 <= l < |before| ==> Sublist(before[l], after[l])
  }

  lemma {:induction false} NullsAt(n: nat)
    ensures |Nulls(n)| == n && forall i :: 0 <= i < n ==> Nulls(n)[i] == null
  {
    if n > 0 { NullsAt(n - 1); }
  }

  ghost predicate SortedFrom(list: seq<Node>) {
    && (forall i, j :: 1 <= i < j < |list| ==> list[i].key < list[j].key)
    && forall i :: 1 <= i < |list| ==> list[i] != list[0]
  }

  ghost predicate Sublist(upper: seq<Node>, lower: seq<Node>) {
    forall x :: x in upper ==> x in lower
  }

  ghost function KeysOf(list: seq<Node>): seq<int>
    requires list != []
  {
    seq(|list| - 1, i requires 0 <= i < |list| - 1 => list[i + 1].key)
  }
}
