/** DBIter (db/db_iter.cc): turns the sorted entries of the store into the sorted keys a snapshot
    shows, in both directions. */
module DbIter {
  import opened Format
  import opened Merger

  /** Entry i is what a read of its key at snapshot s finds, and it is a value. */
  ghost predicate Live(es: seq<Entry>, s: nat, i: nat)
    requires i < |es|
  {
    && es[i].ik.seqno <= s && es[i].ik.kind.Value?
    && forall j :: 0 <= j < i && es[j].ik.user == es[i].ik.user ==> es[j].ik.seqno > s
  }

  /** The entries among the first n that the snapshot shows. */
  ghost function Rows(es: seq<Entry>, s: nat, n: nat): seq<Entry>
    requires n <= |es|
  {
    if n == 0 then [] else Rows(es, s, n - 1) + if Live(es, s, n - 1) then [es[n - 1]] else []
  }

  ghost function AllRows(es: seq<Entry>, s: nat): seq<Entry> {
    Rows(es, s, |es|)
  }

  lemma {:induction false} RowsPrefix(es: seq<Entry>, s: nat, i: nat, n: nat)
    requires i <= n <= |es|
    ensures Rows(es, s, i) <= Rows(es, s, n)
  {
    if i < n {
      RowsPrefix(es, s, i, n - 1);
    }
  }

  /** The entry at a live position is the row with the number of rows before it. */
  lemma RowAt(es: seq<Entry>, s: nat, i: nat)
    requires i < |es| && Live(es, s, i)
    ensures |Rows(es, s, i)| < |AllRows(es, s)| && AllRows(es, s)[|Rows(es, s, i)|] == es[i]
  {
    RowsPrefix(es, s, i + 1, |es|);
    assert Rows(es, s, i + 1)[|Rows(es, s, i)|] == es[i];
  }

  lemma {:induction false} NoRows(es: seq<Entry>, s: nat, i: nat, n: nat)
    requires i <= n <= |es| && forall j :: i <= j < n ==> !Live(es, s, j)
    ensures Rows(es, s, n) == Rows(es, s, i)
  {
    if i < n {
      NoRows(es, s, i, n - 1);
    }
  }

  lemma {:induction false} RowOrigin(es: seq<Entry>, s: nat, n: nat, r: nat) returns (i: nat)
    requires n <= |es| && r < |Rows(es, s, n)|
    ensures i < n && Live(es, s, i) && Rows(es, s, n)[r] == es[i] && |Rows(es, s, i)| == r
  {
    if r < |Rows(es, s, n - 1)| {
      i := RowOrigin(es, s, n - 1, r);
    } else {
      i := n - 1;
    }
  }

  /** The rows are sorted by user key, one for each key. */
  lemma RowsSorted(es: seq<Entry>, s: nat, a: nat, b: nat)
    requires Sorted(es) && a < b < |AllRows(es, s)|
    ensures AllRows(es, s)[a].ik.user < AllRows(es, s)[b].ik.user
  {
    var i := RowOrigin(es, s, |es|, a);
    var j := RowOrigin(es, s, |es|, b);
    if j <= i { RowsPrefix(es, s, j, i); }
  }

  /** A key has a row exactly when a read of it at the snapshot returns a value, and the row
      holds that value. */
  lemma RowsAreReads(es: seq<Entry>, s: nat, k: int)
    requires Sorted(es)
    ensures View(Elements(es), k, s).Some? <==> exists r :: 0 <= r < |AllRows(es, s)| && AllRows(es, s)[r].ik.user == k
    ensures forall r :: 0 <= r < |AllRows(es, s)| && AllRows(es, s)[r].ik.user == k ==>
        View(Elements(es), k, s) == Some(AllRows(es, s)[r].value)
  {
    var all := Elements(es);
    forall r | 0 <= r < |AllRows(es, s)| && AllRows(es, s)[r].ik.user == k
      ensures View(all, k, s) == Some(AllRows(es, s)[r].value)
    {
      var i := RowOrigin(es, s, |es|, r);
      LiveIsRead(es, s, i);
    }
    if View(all, k, s).Some? {
      var i := ReadHasRow(es, s, k);
      RowAt(es, s, i);
    }
  }

  lemma ReadHasRow(es: seq<Entry>, s: nat, k: int) returns (i: nat)
    requires Sorted(es) && View(Elements(es), k, s).Some?
    ensures i < |es| && Live(es, s, i) && es[i].ik.user == k
  {
    var all := Elements(es);
    assert Distinct(all);
    VisibleOrHidden(all, k, s);
    var e :| IsVisible(all, k, s, e);
    ViewOf(all, k, s, e);
    i :| 0 <= i < |es| && es[i] == e;
    forall j | 0 <= j < i && es[j].ik.user == k ensures es[j].ik.seqno > s {
      assert es[j] in all && Precedes(es[j].ik, es[i].ik);
    }
  }

  lemma LiveIsRead(es: seq<Entry>, s: nat, i: nat)
    requires Sorted(es) && i < |es| && Live(es, s, i)
    ensures View(Elements(es), es[i].ik.user, s) == Some(es[i].value)
  {
    var all, k := Elements(es), es[i].ik.user;
    assert Distinct(all);
    forall x | x in all && x.ik.user == k && x.ik.seqno <= s ensures x.ik.seqno <= es[i].ik.seqno {
      var j :| 0 <= j < |es| && es[j] == x;
      assert j > i ==> Precedes(es[i].ik, es[j].ik);
    }
    assert IsVisible(all, k, s, es[i]);
    ViewOf(all, k, s, es[i]);
  }

  // The forward scan

  /** What the scan knows of the entries before n: one that is visible has a user key it skips or
      a smaller one than entry n. What it skips is the key of a visible entry. */
  ghost predicate Passed(es: seq<Entry>, s: nat, n: nat, skipping: bool, skip: int)
    requires n <= |es|
  {
    && (forall j :: 0 <= j < n && es[j].ik.seqno <= s ==>
      (skipping && es[j].ik.user <= skip) || (n < |es| ==> es[j].ik.user < es[n].ik.user))
    && (skipping ==> exists j :: 0 <= j < n && es[j].ik.seqno <= s && es[j].ik.user == skip)
  }

  /** From n the scan only skips entries until it is past the visible entry base - 1. */
  ghost predicate Approaching(es: seq<Entry>, s: nat, n: nat, base: nat, skipping: bool, skip: int)
    requires n < base <= |es|
  {
    && skipping && skip == es[base - 1].ik.user && es[base - 1].ik.seqno <= s && es[base - 1].ik.kind.Value?
    && forall j :: n <= j < base - 1 ==> es[j].ik.seqno > s
  }

  ghost predicate Scanning(es: seq<Entry>, s: nat, n: nat, base: nat, skipping: bool, skip: int)
    requires n <= |es| && base <= |es|
  {
    if n < base then Approaching(es, s, n, base, skipping, skip)
    else Passed(es, s, n, skipping, skip) && Rows(es, s, n) == Rows(es, s, base)
  }

  predicate Hides(e: Entry, s: nat, skipping: bool, skip: int) {
    e.ik.seqno > s || e.ik.kind.Deletion? || (skipping && e.ik.user <= skip)
  }

  /** An entry the scan does not skip is a row. */
  lemma ScanFinds(es: seq<Entry>, s: nat, n: nat, base: nat, skipping: bool, skip: int)
    requires Sorted(es) && base <= |es| && n < |es| && Scanning(es, s, n, base, skipping, skip)
    requires !Hides(es[n], s, skipping, skip)
    ensures n >= base && Live(es, s, n) && Rows(es, s, n) == Rows(es, s, base)
  {
  }

  lemma PassedNext(es: seq<Entry>, s: nat, n: nat, skipping: bool, skip: int)
    requires Sorted(es) && n < |es| && Passed(es, s, n, skipping, skip) && Hides(es[n], s, skipping, skip)
    ensures if es[n].ik.seqno <= s && es[n].ik.kind.Deletion? then Passed(es, s, n + 1, true, es[n].ik.user)
      else Passed(es, s, n + 1, skipping, skip)
    ensures !Live(es, s, n)
  {
    forall j | 0 <= j < n
      ensures es[j].ik.user <= es[n].ik.user && (n + 1 < |es| ==> es[n].ik.user <= es[n + 1].ik.user)
    {
      assert Precedes(es[j].ik, es[n].ik);
      assert n + 1 < |es| ==> Precedes(es[n].ik, es[n + 1].ik);
    }
  }

  lemma PassedBase(es: seq<Entry>, s: nat, n: nat)
    requires Sorted(es) && n < |es| && es[n].ik.seqno <= s
    ensures Passed(es, s, n + 1, true, es[n].ik.user)
  {
    forall j | 0 <= j < n ensures es[j].ik.user <= es[n].ik.user {
      assert Precedes(es[j].ik, es[n].ik);
    }
  }

  lemma ScanSkips(es: seq<Entry>, s: nat, n: nat, base: nat, skipping: bool, skip: int)
    requires Sorted(es) && base <= |es| && n < |es| && Scanning(es, s, n, base, skipping, skip)
    requires Hides(es[n], s, skipping, skip)
    ensures if es[n].ik.seqno <= s && es[n].ik.kind.Deletion? then Scanning(es, s, n + 1, base, true, es[n].ik.user)
      else Scanning(es, s, n + 1, base, skipping, skip)
  {
    if n >= base {
      PassedNext(es, s, n, skipping, skip);
    } else if n == base - 1 {
      PassedBase(es, s, n);
    }
  }

  lemma ScanStarts(es: seq<Entry>, s: nat, base: nat, skip: int)
    requires base <= |es| && Passed(es, s, base, false, skip)
    ensures Scanning(es, s, base, base, false, skip)
  {
  }

  lemma ScanEnds(es: seq<Entry>, s: nat, base: nat, skipping: bool, skip: int)
    requires base <= |es| && Scanning(es, s, |es|, base, skipping, skip)
    ensures AllRows(es, s) == Rows(es, s, base)
  {
  }

  // The reverse scan

  /** The scan from below `top` stands at b, -1 for before the first entry. `p` is the last visible
      entry it met, `top` when there was none; only that one can be a row. */
  ghost predicate Backward(es: seq<Entry>, s: nat, b: int, p: nat, top: nat, kind: Kind, key: int, value: string) {
    && -1 <= b < p <= top <= |es|
    && (forall j :: b < j < p ==> es[j].ik.seqno > s)
    && (p == top ==> kind.Deletion?)
    && (p < top ==>
        && es[p].ik.seqno <= s && kind == es[p].ik.kind
        && (kind.Value? ==> key == es[p].ik.user && value == es[p].value)
        && Rows(es, s, top) == Rows(es, s, p + 1))
  }

  /** A visible entry takes over from the last one: it is of the same key, or that was a marker. */
  lemma BackwardMeets(es: seq<Entry>, s: nat, b: nat, p: nat, top: nat, kind: Kind, key: int, value: string)
    requires Sorted(es) && Backward(es, s, b, p, top, kind, key, value)
    requires es[b].ik.seqno <= s && (kind.Deletion? || es[b].ik.user >= key)
    ensures Backward(es, s, b - 1, b, top, es[b].ik.kind, es[b].ik.user, es[b].value)
  {
    if p < top {
      assert Precedes(es[b].ik, es[p].ik);
      NoRows(es, s, b + 1, p + 1);
    } else {
      NoRows(es, s, b + 1, top);
    }
  }

  lemma BackwardPasses(es: seq<Entry>, s: nat, b: nat, p: nat, top: nat, kind: Kind, key: int, value: string)
    requires Backward(es, s, b, p, top, kind, key, value) && es[b].ik.seqno > s
    ensures Backward(es, s, b - 1, p, top, kind, key, value)
  {
  }

  /** What is saved with a marker does not matter. */
  lemma BackwardAgain(es: seq<Entry>, s: nat, b: nat, top: nat, kind: Kind, key: int, value: string)
    requires b < |es| && Backward(es, s, b - 1, b, top, kind, es[b].ik.user, es[b].value)
    requires kind.Value? ==> key == es[b].ik.user && value == es[b].value
    ensures Backward(es, s, b - 1, b, top, kind, key, value)
  {
  }

  lemma BackwardStarts(es: seq<Entry>, s: nat, top: nat, key: int, value: string)
    requires top <= |es|
    ensures Backward(es, s, top - 1, top, top, Deletion, key, value)
  {
  }

  lemma BackwardInRange(es: seq<Entry>, s: nat, b: int, p: nat, top: nat, kind: Kind, key: int, value: string)
    requires Backward(es, s, b, p, top, kind, key, value)
    ensures -1 <= b < p <= top <= |es|
    ensures forall j :: b < j < p ==> es[j].ik.seqno > s
    ensures p < top && kind.Value? ==> key == es[p].ik.user && value == es[p].value
  {
  }

  lemma BackwardStops(es: seq<Entry>, s: nat, b: int, p: nat, top: nat, kind: Kind, key: int, value: string)
    requires Sorted(es) && Backward(es, s, b, p, top, kind, key, value)
    requires kind.Value? && (b >= 0 ==> es[b].ik.user < key)
    ensures p < top && Live(es, s, p) && Rows(es, s, top) == Rows(es, s, p) + [es[p]]
  {
    forall j | 0 <= j <= b ensures es[j].ik.user < key {
      assert j < b ==> Precedes(es[j].ik, es[b].ik);
    }
  }

  lemma BackwardEmpty(es: seq<Entry>, s: nat, p: nat, top: nat, key: int, value: string)
    requires Sorted(es) && Backward(es, s, -1, p, top, Deletion, key, value)
    ensures Rows(es, s, top) == []
  {
    NoRows(es, s, 0, p);
  }

  class DBIter {
    const iter: MergingIterator
    const sequence: nat
    var savedKey: int
    var savedValue: string
    var forward: bool
    var valid: bool
    /** The position of the current entry, and of its row among all rows. */
    ghost var at: nat
    ghost var row: nat

    ghost function Shown(): seq<Entry> {
      AllRows(iter.merged, sequence)
    }

    ghost predicate Invisible(from: int, to: int)
      requires -1 <= from && to <= |iter.merged|
    {
      forall j :: from < j < to ==> iter.merged[j].ik.seqno > sequence
    }

    /** Where the inner iterator stands in the reverse direction: before the first entry when it
        is invalid. */
    ghost function Behind(): (p: int)
      reads this, iter
      requires iter.Valid()
      ensures -1 <= p < |iter.merged|
    {
      if iter.current.None? then -1 else iter.at
    }

    ghost predicate AtRow()
      reads this
    {
      at < |iter.merged| && Live(iter.merged, sequence, at) && row == |Rows(iter.merged, sequence, at)|
    }

    ghost predicate Valid()
      reads this, iter
    {
      && iter.Valid() && Sorted(iter.merged)
      && (!valid ==> row == |Shown()|)
      && (valid ==> AtRow())
      && (valid && forward ==> iter.current.Some? && iter.at == at)
      && (valid && !forward ==>
          && savedKey == iter.merged[at].ik.user && savedValue == iter.merged[at].value
          && Behind() < at && Invisible(Behind(), at)
          && (Behind() >= 0 ==> iter.merged[Behind()].ik.user < savedKey))
    }

    constructor (iter: MergingIterator, sequence: nat)
      requires iter.Valid() && Sorted(iter.merged)
      ensures Valid() && !valid && this.iter == iter && this.sequence == sequence
    {
      this.iter, this.sequence := iter, sequence;
      savedKey, savedValue, forward, valid, at := 0, "", true, false, 0;
      row := |AllRows(iter.merged, sequence)|;
    }

    function Key(): (k: int)
      requires Valid() && valid
      reads this, iter
      ensures row < |Shown()| && k == Shown()[row].ik.user
    {
      RowAt(iter.merged, sequence, at);
      if forward then iter.Key().ik.user else savedKey
    }

    function Val(): (v: string)
      requires Valid() && valid
      reads this, iter
      ensures row < |Shown()| && v == Shown()[row].value
    {
      RowAt(iter.merged, sequence, at);
      if forward then iter.Key().value else savedValue
    }

    /** FindNextUserEntry: to the first row from `base` on. */
    method FindNextUserEntry(skipping0: bool, skip0: int, ghost base: nat)
      requires iter.Valid() && Sorted(iter.merged) && iter.current.Some? && forward && base <= |iter.merged|
      requires Scanning(iter.merged, sequence, iter.at, base, skipping0, skip0)
      modifies this`valid, this`savedKey, this`at, this`row, iter
      ensures Valid() && row == |Rows(iter.merged, sequence, base)|
    {
      hide Scanning, Live, Rows;
      var skipping, skip := skipping0, skip0;
      ghost var es := iter.merged;
      while true
        invariant iter.Valid() && iter.current.Some? && forward
        invariant Scanning(es, sequence, iter.at, base, skipping, skip)
        decreases |es| - iter.at
      {
        var e := iter.Key();
        ghost var n := iter.at;
        if !Hides(e, sequence, skipping, skip) {
          ScanFinds(es, sequence, n, base, skipping, skip);
          valid := true;
          at, row := n, |Rows(es, sequence, n)|;
          return;
        }
        ScanSkips(es, sequence, n, base, skipping, skip);
        if e.ik.seqno <= sequence && e.ik.kind.Deletion? {
          skip := e.ik.user;
          skipping := true;
        }
        iter.Next();
        if iter.current.None? { break; }
      }
      ScanEnds(es, sequence, base, skipping, skip);
      valid := false;
      row := |Shown()|;
    }

    /** Moves to the next row, from either direction. */
    method Next()
      requires Valid() && valid
      modifies this, iter
      ensures Valid() && row == old(row) + 1 && (valid <==> row < |Shown()|)
    {
      ghost var base := at + 1;
      if !forward {
        forward := true;
        if iter.current.None? { iter.SeekToFirst(); } else { iter.Next(); }
        // The current row lies ahead, so the inner iterator is valid.
      } else {
        savedKey := iter.Key().ik.user;
      }
      FindNextUserEntry(true, savedKey, base);
      if valid { RowAt(iter.merged, sequence, at); }
    }

    /** FindPrevUserEntry: to the last row before `top`. */
    method FindPrevUserEntry(ghost top: nat)
      requires iter.Valid() && Sorted(iter.merged) && top == Behind() + 1 && !forward
      modifies this, iter
      ensures Valid() && (valid <==> |Rows(iter.merged, sequence, top)| > 0)
      ensures valid ==> row == |Rows(iter.merged, sequence, top)| - 1
    {
      hide Rows, Live, Backward, Sorted, MergingIterator.ChildrenOk, MergingIterator.AtCurrent,
          MergingIterator.AtOrAfter, MergingIterator.Before;
      var valueType := Deletion;
      ghost var es, p := iter.merged, top;
      BackwardStarts(es, sequence, top, savedKey, savedValue);
      while iter.current.Some?
        invariant iter.Valid() && !forward
        invariant Backward(es, sequence, Behind(), p, top, valueType, savedKey, savedValue)
        decreases Behind()
      {
        var e := iter.Key();
        ghost var b := iter.at;
        if e.ik.seqno <= sequence {
          if valueType.Value? && e.ik.user < savedKey { break; }
          BackwardMeets(es, sequence, b, p, top, valueType, savedKey, savedValue);
          p := b;
          valueType := e.ik.kind;
          if valueType.Deletion? {
            savedKey, savedValue := 0, "";
          } else {
            savedKey, savedValue := e.ik.user, e.value;
          }
          BackwardAgain(es, sequence, b, top, e.ik.kind, savedKey, savedValue);
        } else {
          BackwardPasses(es, sequence, b, p, top, valueType, savedKey, savedValue);
        }
        iter.Prev();
      }
      if valueType.Deletion? {
        BackwardEmpty(es, sequence, p, top, savedKey, savedValue);
        valid, forward, row := false, true, |Shown()|;
      } else {
        BackwardInRange(es, sequence, Behind(), p, top, valueType, savedKey, savedValue);
        BackwardStops(es, sequence, Behind(), p, top, valueType, savedKey, savedValue);
        valid, at, row := true, p, |Rows(es, sequence, p)|;
      }
    }

    /** Before the entry at `at` and its invisible predecessors no row is lost. */
    lemma SameRowsBefore(b: int)
      requires iter.Valid() && -1 <= b < at <= |iter.merged| && Invisible(b, at)
      ensures Rows(iter.merged, sequence, b + 1) == Rows(iter.merged, sequence, at)
      ensures Rows(iter.merged, sequence, 0) == []
    {
      NoRows(iter.merged, sequence, b + 1, at);
    }

    /** Moves to the previous row, from either direction; before the first row the cursor becomes
        invalid. */
    method Prev()
      requires Valid() && valid
      modifies this, iter
      ensures Valid() && (valid <==> old(row) > 0)
      ensures valid ==> row == old(row) - 1
    {
      hide Rows, Live, Sorted;
      if forward {
        LeaveKey();
        if iter.current.None? {
          SameRowsBefore(-1);
          valid, row := false, |Shown()|;
          savedKey, savedValue := 0, "";
          return;
        }
        forward := false;
      }
      SameRowsBefore(Behind());
      FindPrevUserEntry(Behind() + 1);
    }

    /** Scans back until the key changes. */
    method LeaveKey()
      requires Valid() && valid && forward
      modifies this`savedKey, iter
      ensures iter.Valid() && Behind() < at && Invisible(Behind(), at)
    {
      hide Rows, Live, Sorted;
      savedKey := iter.Key().ik.user;
      while true
        invariant iter.Valid() && iter.current.Some? && iter.at <= at && AtRow()
        invariant iter.merged[iter.at].ik.user == savedKey == iter.merged[at].ik.user
        decreases iter.at
      {
        ghost var n := iter.at;
        iter.Prev();
        if iter.current.None? {
          FirstOfKey(0);
          return;
        }
        if iter.Key().ik.user < savedKey {
          FirstOfKey(n);
          return;
        }
        NotSmaller(n - 1);
      }
    }

    lemma NotSmaller(n: nat)
      requires Sorted(iter.merged) && n < at < |iter.merged| && iter.merged[n].ik.user >= iter.merged[at].ik.user
      ensures iter.merged[n].ik.user == iter.merged[at].ik.user
    {
      assert Precedes(iter.merged[n].ik, iter.merged[at].ik);
    }

    /** The entries of the current key before the current one are invisible. */
    lemma FirstOfKey(n: nat)
      requires Sorted(iter.merged) && AtRow() && n <= at && iter.merged[n].ik.user == iter.merged[at].ik.user
      ensures Invisible(n - 1, at)
    {
      forall j | n <= j < at ensures iter.merged[j].ik.user == iter.merged[at].ik.user {
        assert n < j ==> Precedes(iter.merged[n].ik, iter.merged[j].ik);
        assert Precedes(iter.merged[j].ik, iter.merged[at].ik);
      }
    }

    /** Moves to the first row with a key at or after `target`. */
    method Seek(target: int)
      requires Valid()
      modifies this, iter
      ensures Valid() && (valid <==> row < |Shown()|)
      ensures forall r :: 0 <= r < row ==> Shown()[r].ik.user < target
      ensures valid ==> Shown()[row].ik.user >= target
    {
      hide Rows, Live, Sorted, Passed, Scanning;
      forward := true;
      savedKey, savedValue := target, "";
      iter.Seek(LookupKey(target, sequence));
      ghost var n := iter.at;
      SeekRows(target);
      ScanStarts(iter.merged, sequence, n, target);
      if iter.current.Some? {
        FindNextUserEntry(false, savedKey, n);
        if valid { RowAt(iter.merged, sequence, at); }
      } else {
        valid, row := false, |Shown()|;
      }
    }

    lemma SeekRows(target: int)
      requires Sorted(iter.merged)
      ensures var n := LowerBound(iter.merged, LookupKey(target, sequence));
        && Passed(iter.merged, sequence, n, false, target)
        && |Rows(iter.merged, sequence, n)| <= |Shown()|
        && (forall r :: 0 <= r < |Rows(iter.merged, sequence, n)| ==> Shown()[r].ik.user < target)
        && (|Rows(iter.merged, sequence, n)| < |Shown()| ==>
          Shown()[|Rows(iter.merged, sequence, n)|].ik.user >= target)
    {
      var es := iter.merged;
      var n := LowerBound(es, LookupKey(target, sequence));
      RowsPrefix(es, sequence, n, |es|);
      forall r | 0 <= r < |Rows(es, sequence, n)| ensures Shown()[r].ik.user < target {
        var i := RowOrigin(es, sequence, n, r);
      }
      if |Rows(es, sequence, n)| < |Shown()| {
        var i := RowOrigin(es, sequence, |es|, |Rows(es, sequence, n)|);
        if i < n { RowsPrefix(es, sequence, i + 1, n); }
        assert n < i ==> Precedes(es[n].ik, es[i].ik);
      }
    }

    method SeekToFirst()
      requires Valid()
      modifies this, iter
      ensures Valid() && row == 0 && (valid <==> Shown() != [])
    {
      forward := true;
      savedValue := "";
      iter.SeekToFirst();
      if iter.current.Some? {
        FindNextUserEntry(false, savedKey, 0);
        if valid { RowAt(iter.merged, sequence, at); }
      } else {
        valid, row := false, |Shown()|;
      }
    }

    method SeekToLast()
      requires Valid()
      modifies this, iter
      ensures Valid() && (valid <==> Shown() != [])
      ensures valid ==> row == |Shown()| - 1
    {
      forward := false;
      savedValue := "";
      iter.SeekToLast();
      FindPrevUserEntry(|iter.merged|);
    }
  }
}
