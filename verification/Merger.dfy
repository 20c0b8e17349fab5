/** MergingIterator (table/merger.cc): a cursor over the sorted union of its children. */
module Merger {
  import opened Format

  /** Strictly increasing in the order of internal keys, the order a child yields. */
  ghost predicate KeySorted(es: seq<Entry>) {
    forall i, j :: 0 <= i < j < |es| ==> Less(es[i].ik, es[j].ik)
  }

  predicate SameKey(a: IKey, b: IKey) {
    a.user == b.user && Tag(a) == Tag(b)
  }

  lemma SortedIsKeySorted(es: seq<Entry>)
    requires Sorted(es)
    ensures KeySorted(es)
  {
  }

  /** No key is in two children. */
  ghost predicate NoSharedKeys(children: seq<seq<Entry>>) {
    forall i, j, x, y :: 0 <= i < j < |children| && x in children[i] && y in children[j] ==>
        Less(x.ik, y.ik) || Less(y.ik, x.ik)
  }

  // The sorted union

  function Merge(a: seq<Entry>, b: seq<Entry>): seq<Entry> {
    if a == [] then b
    else if b == [] then a
    else if Less(a[0].ik, b[0].ik) then [a[0]] + Merge(a[1..], b)
    else [b[0]] + Merge(a, b[1..])
  }

  function MergeAll(children: seq<seq<Entry>>): seq<Entry> {
    if children == [] then [] else Merge(children[0], MergeAll(children[1..]))
  }

  lemma ElementsCons(x: Entry, a: seq<Entry>, b: seq<Entry>)
    ensures Elements([x] + a) == {x} + Elements(a) && Elements([x] + b) == {x} + Elements(b)
  {
  }

  lemma {:induction false} MergeElements(a: seq<Entry>, b: seq<Entry>)
    ensures Elements(Merge(a, b)) == Elements(a) + Elements(b)
    decreases |a| + |b|
  {
    if a != [] && b != [] {
      if Less(a[0].ik, b[0].ik) {
        MergeElements(a[1..], b);
        ElementsCons(a[0], a[1..], Merge(a[1..], b));
        assert a == [a[0]] + a[1..];
      } else {
        MergeElements(a, b[1..]);
        ElementsCons(b[0], b[1..], Merge(a, b[1..]));
        assert b == [b[0]] + b[1..];
      }
    }
  }

  lemma {:induction false} MergeSorted(a: seq<Entry>, b: seq<Entry>)
    requires KeySorted(a) && KeySorted(b)
    requires forall x, y :: x in a && y in b ==> Less(x.ik, y.ik) || Less(y.ik, x.ik)
    ensures KeySorted(Merge(a, b))
    decreases |a| + |b|
  {
    if a != [] && b != [] {
      if Less(a[0].ik, b[0].ik) {
        MergeSorted(a[1..], b);
        HeadFirst(a[0], Merge(a[1..], b), a[1..], b);
      } else {
        MergeSorted(a, b[1..]);
        HeadFirst(b[0], Merge(a, b[1..]), a, b[1..]);
      }
    }
  }

  lemma HeadFirst(x: Entry, m: seq<Entry>, a: seq<Entry>, b: seq<Entry>)
    requires KeySorted(m) && m == Merge(a, b)
    requires forall y :: y in a || y in b ==> Less(x.ik, y.ik)
    ensures KeySorted([x] + m)
  {
    MergeElements(a, b);
    forall j | 0 <= j < |m| ensures Less(x.ik, m[j].ik) {
      assert m[j] in Elements(m);
    }
  }

  ghost function Union(children: seq<seq<Entry>>): set<Entry> {
    set i, e | 0 <= i < |children| && e in children[i] :: e
  }

  lemma {:induction false} MergeAllElements(children: seq<seq<Entry>>)
    ensures Elements(MergeAll(children)) == Union(children)
  {
    if children != [] {
      MergeAllElements(children[1..]);
      MergeElements(children[0], MergeAll(children[1..]));
      forall e | e in Union(children) ensures e in Elements(children[0]) + Union(children[1..]) {
        var i :| 0 <= i < |children| && e in children[i];
        if i > 0 { assert e in children[1..][i - 1]; }
      }
      forall e | e in Union(children[1..]) ensures e in Union(children) {
        var i :| 0 <= i < |children[1..]| && e in children[1..][i];
        assert e in children[i + 1];
      }
    }
  }

  /** The merged sequence is sorted and holds each child's entries and nothing else. */
  lemma {:induction false} MergeAllSorted(children: seq<seq<Entry>>)
    requires forall i :: 0 <= i < |children| ==> KeySorted(children[i])
    requires NoSharedKeys(children)
    ensures KeySorted(MergeAll(children)) && Elements(MergeAll(children)) == Union(children)
  {
    MergeAllElements(children);
    if children != [] {
      var rest := children[1..];
      MergeAllSorted(rest);
      MergeAllElements(rest);
      forall x, y | x in children[0] && y in MergeAll(rest) ensures Less(x.ik, y.ik) || Less(y.ik, x.ik) {
        assert y in Elements(MergeAll(rest));
        var i :| 0 <= i < |rest| && y in rest[i];
        assert y in children[i + 1];
      }
      MergeSorted(children[0], MergeAll(rest));
    }
  }

  // The cursor

  function PrevPosition(p: nat, length: nat): nat {
    if p == 0 then length else p - 1
  }

  class MergingIterator {
    const children: seq<seq<Entry>>
    /** Position of each child; a child is valid while its position is an index. */
    var pos: seq<nat>
    var current: Option<nat>
    var forward: bool
    /** The index of the cursor in the merged sequence, its length when invalid. */
    ghost var at: nat
    ghost const merged: seq<Entry>

    ghost predicate ChildrenOk() {
      && (forall i :: 0 <= i < |children| ==> KeySorted(children[i])) && NoSharedKeys(children)
      && KeySorted(merged) && Elements(merged) == Union(children)
    }

    predicate ChildValid(i: nat)
      requires i < |children| && |pos| == |children|
      reads this`pos
    {
      pos[i] < |children[i]|
    }

    /** Among the first n of the merged sequence. */
    ghost predicate Below(e: Entry, n: nat) {
      n < |merged| ==> Less(e.ik, merged[n].ik)
    }

    /** Child i stands at its first entry that is not among the first n. */
    ghost predicate AtOrAfter(i: nat, p: nat, n: nat)
      requires i < |children|
    {
      p <= |children[i]| && forall j :: 0 <= j < |children[i]| ==> (j < p <==> Below(children[i][j], n))
    }

    /** Child i stands at its last entry among the first n, or is invalid when it has none. */
    ghost predicate Before(i: nat, p: nat, n: nat)
      requires i < |children|
    {
      p <= |children[i]| && forall j :: 0 <= j < |children[i]| ==>
        (p < |children[i]| && j <= p <==> Below(children[i][j], n))
    }

    ghost predicate Valid()
      reads this
    {
      && ChildrenOk() && |pos| == |children|
      && at <= |merged|
      && (current.None? ==> at == |merged|)
      && (current.Some? ==> AtCurrent())
      && (current.Some? && forward ==> forall i :: 0 <= i < |children| ==> AtOrAfter(i, pos[i], at))
      && (current.Some? && !forward ==> forall i :: 0 <= i < |children| ==> Before(i, pos[i], at + 1))
    }

    ghost predicate AtCurrent()
      reads this
    {
      && |pos| == |children| && current.Some? && current.value < |children|
        && pos[current.value] < |children[current.value]|
      && at < |merged| && children[current.value][pos[current.value]] == merged[at]
    }

    function Key(): (e: Entry)
      requires Valid() && current.Some?
      reads this
      ensures at < |merged| && e == merged[at]
    {
      children[current.value][pos[current.value]]
    }

    constructor (children: seq<seq<Entry>>)
      requires forall i :: 0 <= i < |children| ==> KeySorted(children[i])
      requires NoSharedKeys(children)
      ensures Valid() && this.children == children && current.None?
      ensures merged == MergeAll(children)
    {
      this.children := children;
      pos := seq(|children|, i requires 0 <= i < |children| => |children[i]|);
      current := None;
      forward := true;
      merged := MergeAll(children);
      at := |MergeAll(children)|;
      MergeAllSorted(children);
    }

    lemma InMerged(i: nat, j: nat) returns (n: nat)
      requires ChildrenOk() && i < |children| && j < |children[i]|
      ensures n < |merged| && merged[n] == children[i][j]
    {
      var e := children[i][j];
      assert e in children[i];
      assert e in Elements(merged);
      n :| 0 <= n < |merged| && merged[n] == children[i][j];
    }

    lemma Holder(n: nat) returns (i: nat, j: nat)
      requires ChildrenOk() && n < |merged|
      ensures i < |children| && j < |children[i]| && children[i][j] == merged[n]
    {
      assert merged[n] in Union(children);
      i :| 0 <= i < |children| && merged[n] in children[i];
      j :| 0 <= j < |children[i]| && children[i][j] == merged[n];
    }

    lemma NotAfter(i: nat, j: nat, p: nat)
      requires ChildrenOk() && i < |children| && j <= p < |children[i]|
      ensures !Less(children[i][p].ik, children[i][j].ik)
    {
      assert KeySorted(children[i]);
    }

    /** An entry among the first n, and not before entry n - 1, is entry n - 1. */
    lemma LastBelow(i: nat, p: nat, n: nat)
      requires ChildrenOk() && i < |children| && p < |children[i]| && 0 < n <= |merged|
      requires Below(children[i][p], n) && !Less(children[i][p].ik, merged[n - 1].ik)
      ensures children[i][p] == merged[n - 1]
    {
      var m := InMerged(i, p);
    }

    /** The smallest of the children's entries is the next of the merged sequence. */
    method FindSmallest(ghost n: nat)
      requires ChildrenOk() && |pos| == |children| && n <= |merged|
      requires forall i :: 0 <= i < |children| ==> AtOrAfter(i, pos[i], n)
      modifies this`current, this`at
      ensures at == n && (current.None? <==> n == |merged|)
      ensures current.Some? ==> AtCurrent()
    {
      var smallest: Option<nat> := None;
      for i := 0 to |children|
        invariant smallest.None? ==> forall k :: 0 <= k < i ==> !ChildValid(k)
        invariant smallest.Some? ==> smallest.value < i && ChildValid(smallest.value)
        invariant smallest.Some? ==> forall k :: 0 <= k < i && ChildValid(k) ==>
          !Less(children[k][pos[k]].ik, children[smallest.value][pos[smallest.value]].ik)
      {
        if ChildValid(i) {
          if smallest.None? {
            smallest := Some(i);
          } else if Less(children[i][pos[i]].ik, children[smallest.value][pos[smallest.value]].ik) {
            smallest := Some(i);
          }
        }
      }
      current := smallest;
      at := n;
      SmallestIsNext(smallest, n);
    }

    lemma SmallestIsNext(smallest: Option<nat>, n: nat)
      requires ChildrenOk() && |pos| == |children| && n <= |merged|
      requires forall i :: 0 <= i < |children| ==> AtOrAfter(i, pos[i], n)
      requires smallest.None? ==> forall k :: 0 <= k < |children| ==> !ChildValid(k)
      requires smallest.Some? ==> smallest.value < |children| && ChildValid(smallest.value)
      requires smallest.Some? ==> forall k :: 0 <= k < |children| && ChildValid(k) ==>
        !Less(children[k][pos[k]].ik, children[smallest.value][pos[smallest.value]].ik)
      ensures smallest.None? <==> n == |merged|
      ensures smallest.Some? && n < |merged| ==> children[smallest.value][pos[smallest.value]] == merged[n]
    {
      if n < |merged| {
        var i, j := Holder(n);
        assert !Below(children[i][j], n);
        assert ChildValid(i) && pos[i] <= j;
        assert !Less(children[i][j].ik, children[i][pos[i]].ik);
        var s := smallest.value;
        var m := InMerged(s, pos[s]);
        assert !Below(children[s][pos[s]], n);
        assert m == n;
      } else {
        assert forall k :: 0 <= k < |children| && pos[k] < |children[k]| ==> Below(children[k][pos[k]], n);
      }
    }

    method FindLargest(ghost n: nat)
      requires ChildrenOk() && |pos| == |children| && n <= |merged|
      requires forall i :: 0 <= i < |children| ==> Before(i, pos[i], n)
      modifies this`current, this`at
      ensures current.None? <==> n == 0
      ensures at == if n == 0 then |merged| else n - 1
      ensures current.Some? ==> AtCurrent() && forall i :: 0 <= i < |children| ==> Before(i, pos[i], at + 1)
    {
      hide MergingIterator.Before, MergingIterator.ChildrenOk;
      var largest: Option<nat> := None;
      var i := |children|;
      while i > 0
        invariant 0 <= i <= |children|
        invariant largest.None? ==> forall k :: i <= k < |children| ==> !ChildValid(k)
        invariant largest.Some? ==> i <= largest.value < |children| && ChildValid(largest.value)
        invariant largest.Some? ==> forall k :: i <= k < |children| && ChildValid(k) ==>
          !Less(children[largest.value][pos[largest.value]].ik, children[k][pos[k]].ik)
      {
        i := i - 1;
        if ChildValid(i) {
          if largest.None? {
            largest := Some(i);
          } else if Less(children[largest.value][pos[largest.value]].ik, children[i][pos[i]].ik) {
            largest := Some(i);
          }
        }
      }
      current := largest;
      at := if n == 0 then |merged| else n - 1;
      LargestIsPrevious(largest, n);
    }

    lemma LargestIsPrevious(largest: Option<nat>, n: nat)
      requires ChildrenOk() && |pos| == |children| && n <= |merged|
      requires forall i :: 0 <= i < |children| ==> Before(i, pos[i], n)
      requires largest.None? ==> forall k :: 0 <= k < |children| ==> !ChildValid(k)
      requires largest.Some? ==> largest.value < |children| && ChildValid(largest.value)
      requires largest.Some? ==> forall k :: 0 <= k < |children| && ChildValid(k) ==>
        !Less(children[largest.value][pos[largest.value]].ik, children[k][pos[k]].ik)
      ensures largest.None? <==> n == 0
      ensures largest.Some? && n > 0 ==> children[largest.value][pos[largest.value]] == merged[n - 1]
    {
      if n > 0 {
        var i, j := Holder(n - 1);
        assert Below(children[i][j], n);
        assert ChildValid(i) && j <= pos[i];
        var l := largest.value;
        assert Below(children[l][pos[l]], n);
        NotAfter(i, j, pos[i]);
        LastBelow(l, pos[l], n);
      } else {
        assert forall k :: 0 <= k < |children| && pos[k] < |children[k]| ==> Below(children[k][pos[k]], n);
        NothingBelowZero();
      }
    }

    lemma NothingBelowZero()
      requires ChildrenOk()
      ensures forall i, j :: 0 <= i < |children| && 0 <= j < |children[i]| ==> !Below(children[i][j], 0)
    {
      forall i, j | 0 <= i < |children| && 0 <= j < |children[i]| ensures !Below(children[i][j], 0) {
          var m := InMerged(i, j);
      }
    }

    /** Being among the first n + 1 is being among the first n or being entry n. */
    lemma BelowNext(i: nat, j: nat, n: nat)
      requires ChildrenOk() && i < |children| && j < |children[i]| && n < |merged|
      ensures Below(children[i][j], n + 1) <==> Below(children[i][j], n) || children[i][j] == merged[n]
    {
      var m := InMerged(i, j);
      assert Below(children[i][j], n + 1) <==> m < n + 1;
      assert Below(children[i][j], n) <==> m < n;
    }

    /** A key in one child is in no other. */
    lemma OnlyChild(c: nat, p: nat, i: nat, j: nat)
      requires ChildrenOk() && c < |children| && i < |children| && p < |children[c]| && j < |children[i]|
      ensures children[c][p] == children[i][j] <==> c == i && p == j
    {
      var x, y := children[c][p], children[i][j];
      assert x in children[c] && y in children[i];
    }

    method SeekToFirst()
      requires Valid()
      modifies this
      ensures Valid() && at == 0
    {
      var i := 0;
      while i < |children|
        invariant 0 <= i <= |children| && |pos| == |children|
        invariant forall k :: 0 <= k < i ==> pos[k] == 0
      {
        pos := pos[i := 0];
        i := i + 1;
      }
      NothingBelowZero();
      FindSmallest(0);
      forward := true;
    }

    method SeekToLast()
      requires Valid()
      modifies this
      ensures Valid() && (current.None? <==> merged == [])
      ensures merged != [] ==> at == |merged| - 1
    {
      var i := 0;
      while i < |children|
        invariant 0 <= i <= |children| && |pos| == |children|
        invariant forall k :: 0 <= k < i ==> pos[k] == PrevPosition(|children[k]|, |children[k]|)
      {
        pos := pos[i := PrevPosition(|children[i]|, |children[i]|)];
        i := i + 1;
      }
      FindLargest(|merged|);
      forward := false;
    }

    method Seek(target: IKey)
      requires Valid()
      modifies this
      ensures Valid() && at == LowerBound(merged, target)
    {
      var i := 0;
      ghost var n := LowerBound(merged, target);
      while i < |children|
        invariant 0 <= i <= |children| && |pos| == |children|
        invariant forall k :: 0 <= k < i ==> AtOrAfter(k, pos[k], n)
      {
        SeekChild(i, target);
        pos := pos[i := LowerBound(children[i], target)];
        i := i + 1;
      }
      FindSmallest(n);
      forward := true;
    }

    lemma SeekChild(i: nat, target: IKey)
      requires ChildrenOk() && i < |children|
      ensures AtOrAfter(i, LowerBound(children[i], target), LowerBound(merged, target))
    {
      var p, n := LowerBound(children[i], target), LowerBound(merged, target);
      forall j | 0 <= j < |children[i]| ensures j < p <==> Below(children[i][j], n) {
        var m := InMerged(i, j);
        assert Less(children[i][j].ik, target) <==> j < p;
        assert Less(merged[m].ik, target) <==> m < n;
      }
    }

    /** Puts every child but the current one at its first entry after the key, so that
        all stand as the forward direction wants them. */
    method SwitchToForward()
      requires Valid() && current.Some? && !forward
      modifies this`pos, this`forward
      ensures Valid() && forward && current.Some? && at == old(at)
    {
      var c, key := current.value, Key().ik;
      var i := 0;
      while i < |children|
        invariant 0 <= i <= |children| && AtCurrent() && current == Some(c)
        invariant pos[c] == old(pos[c])
        invariant forall k :: 0 <= k < i && k != c ==> AtOrAfter(k, pos[k], at)
      {
        if i != c {
          var p := LowerBound(children[i], key);
          SeekToCurrent(i, at);
          NoTie(c, i, p);
          if p < |children[i]| && SameKey(key, children[i][p].ik) {
            assert false;  // no other child has the key of the cursor
          }
          pos := pos[i := p];
        }
        i := i + 1;
      }
      CurrentFirst(c);
      forward := true;
    }

    /** Seeking a child to the key of the cursor leaves it after all smaller entries. */
    lemma SeekToCurrent(i: nat, n: nat)
      requires ChildrenOk() && i < |children| && n < |merged|
      ensures AtOrAfter(i, LowerBound(children[i], merged[n].ik), n)
    {
      SeekChild(i, merged[n].ik);
      assert LowerBound(merged, merged[n].ik) == n;
    }

    lemma NoTie(c: nat, i: nat, p: nat)
      requires ChildrenOk() && AtCurrent() && current == Some(c) && i < |children| && i != c
      ensures p < |children[i]| ==> Less(children[i][p].ik, merged[at].ik) || Less(merged[at].ik, children[i][p].ik)
    {
      if p < |children[i]| {
        var x, y := children[i][p], children[c][pos[c]];
        assert x in children[i] && y in children[c];
      }
    }

    lemma CurrentFirst(c: nat)
      requires ChildrenOk() && AtCurrent() && current == Some(c)
      ensures AtOrAfter(c, pos[c], at) && Before(c, pos[c], at + 1)
    {
      forall j | 0 <= j < |children[c]|
        ensures j < pos[c] <==> Below(children[c][j], at)
        ensures j <= pos[c] <==> Below(children[c][j], at + 1)
      {
        BelowNext(c, j, at);
        if j < pos[c] {
          assert Less(children[c][j].ik, children[c][pos[c]].ik);
        } else if pos[c] < j {
          assert Less(children[c][pos[c]].ik, children[c][j].ik);
        }
      }
    }

    /** Moves to the next entry of the merged sequence, from either direction. */
    method Next()
      requires Valid() && current.Some?
      modifies this
      ensures Valid() && at == old(at) + 1
    {
      if !forward {
        SwitchToForward();
      }
      StepForward();
    }

    method StepForward()
      requires Valid() && current.Some? && forward
      modifies this`pos, this`current, this`at
      ensures Valid() && at == old(at) + 1
    {
      var c := current.value;
      ghost var n := at;
      ghost var before := pos;
      pos := pos[c := pos[c] + 1];
      forall i | 0 <= i < |children| ensures AtOrAfter(i, pos[i], n + 1) {
        StepPast(i, c, before, n);
      }
      FindSmallest(n + 1);
    }

    lemma StepPast(i: nat, c: nat, before: seq<nat>, n: nat)
      requires ChildrenOk() && |before| == |children| && c < |children| && i < |children|
      requires n < |merged| && before[c] < |children[c]| && children[c][before[c]] == merged[n]
      requires AtOrAfter(i, before[i], n)
      ensures AtOrAfter(i, if i == c then before[i] + 1 else before[i], n + 1)
    {
      forall j | 0 <= j < |children[i]|
        ensures Below(children[i][j], n + 1) <==> j < if i == c then before[i] + 1 else before[i]
      {
        BelowNext(i, j, n);
        OnlyChild(c, before[c], i, j);
      }
    }

    /** Puts every child but the current one at its last entry before the key. */
    method SwitchToReverse()
      requires Valid() && current.Some? && forward
      modifies this`pos, this`forward
      ensures Valid() && !forward && current.Some? && at == old(at)
    {
      hide MergingIterator.Before, KeySorted, NoSharedKeys, Union;
      var c, key := current.value, Key().ik;
      var i := 0;
      while i < |children|
        invariant 0 <= i <= |children| && AtCurrent() && current == Some(c)
        invariant pos[c] == old(pos[c])
        invariant forall k :: 0 <= k < i && k != c ==> Before(k, pos[k], at)
      {
        if i != c {
          var p := LowerBound(children[i], key);
          SeekToCurrent(i, at);
          SeekThenPrev(i, at, p);
          if p < |children[i]| {
            pos := pos[i := PrevPosition(p, |children[i]|)];
          } else {
            pos := pos[i := PrevPosition(|children[i]|, |children[i]|)];
          }
        }
        i := i + 1;
      }
      AllBefore(c);
      forward := false;
    }

    lemma AllBefore(c: nat)
      requires ChildrenOk() && AtCurrent() && current == Some(c)
      requires forall k :: 0 <= k < |children| && k != c ==> Before(k, pos[k], at)
      ensures forall i :: 0 <= i < |children| ==> Before(i, pos[i], at + 1)
    {
      CurrentFirst(c);
      forall i | 0 <= i < |children| && i != c ensures Before(i, pos[i], at + 1) {
        OthersSkipCurrent(i, c);
      }
    }

    lemma StepBack(c: nat, back: seq<nat>)
      requires ChildrenOk() && AtCurrent() && current == Some(c)
      requires back == pos[c := PrevPosition(pos[c], |children[c]|)]
      requires forall i :: 0 <= i < |children| ==> Before(i, pos[i], at + 1)
      ensures forall i :: 0 <= i < |children| ==> Before(i, back[i], at)
    {
      CurrentFirst(c);
      forall i | 0 <= i < |children| && i != c ensures Before(i, pos[i], at) {
        OthersSkipCurrent(i, c);
      }
    }

    /** Before the entry sought there is the last smaller entry, or none. */
    lemma SeekThenPrev(i: nat, n: nat, p: nat)
      requires i < |children| && AtOrAfter(i, p, n)
      ensures Before(i, PrevPosition(p, |children[i]|), n)
    {
    }

    lemma OthersSkipCurrent(i: nat, c: nat)
      requires ChildrenOk() && AtCurrent() && current == Some(c) && i < |children| && i != c
      ensures Before(i, pos[i], at) <==> Before(i, pos[i], at + 1)
    {
      forall j | 0 <= j < |children[i]| ensures Below(children[i][j], at) <==> Below(children[i][j], at + 1) {
        BelowNext(i, j, at);
        OnlyChild(c, pos[c], i, j);
      }
    }

    /** Moves to the previous entry of the merged sequence, from either direction; before the
        first entry the cursor becomes invalid. */
    method Prev()
      requires Valid() && current.Some?
      modifies this
      ensures Valid() && (current.None? <==> old(at) == 0)
      ensures old(at) > 0 ==> at == old(at) - 1
    {
      if forward {
        SwitchToReverse();
      }
      StepBackward();
    }

    method StepBackward()
      requires Valid() && current.Some? && !forward
      modifies this`pos, this`current, this`at
      ensures Valid() && (current.None? <==> old(at) == 0)
      ensures old(at) > 0 ==> at == old(at) - 1
    {
      var c := current.value;
      ghost var n := at;
      ghost var back := pos[c := PrevPosition(pos[c], |children[c]|)];
      StepBack(c, back);
      pos := pos[c := PrevPosition(pos[c], |children[c]|)];
      assert pos == back;
      FindLargest(n);
    }
  }
}
