/** The memtable (db/memtable.cc): a sorted sequence of entries, into which each operation of a
    batch goes under its own sequence number. */
module MemTable {
  import opened Format
  import opened Lsm
  import opened Recovery

  lemma InsertedSorted(es: seq<Entry>, i: nat, e: Entry)
    requires Sorted(es) && i == LowerBound(es, e.ik)
    requires forall x :: x in es && x.ik.user == e.ik.user ==> x.ik.seqno != e.ik.seqno
    ensures Sorted(es[..i] + [e] + es[i..]) && Elements(es[..i] + [e] + es[i..]) == Elements(es) + {e}
  {
    hide Elements;
    forall j | 0 <= j < i ensures Precedes(es[j].ik, e.ik) {
      assert es[j] in es && Less(es[j].ik, e.ik);
      KeyOrder(es[j], e);
    }
    forall j | i <= j < |es| ensures Precedes(e.ik, es[j].ik) {
      assert es[i] in es && !Less(es[i].ik, e.ik);
      KeyOrder(es[i], e);
      if i < j { assert Precedes(es[i].ik, es[j].ik); }
    }
    InsertedElements(es, i, e);
  }

  /** Entries with different sequence numbers for one user key are ordered either way alike. */
  lemma KeyOrder(x: Entry, e: Entry)
    requires x.ik.user == e.ik.user ==> x.ik.seqno != e.ik.seqno
    ensures if Less(x.ik, e.ik) then Precedes(x.ik, e.ik) else Precedes(e.ik, x.ik)
  {
  }

  lemma InsertedElements(es: seq<Entry>, i: nat, e: Entry)
    requires i <= |es|
    ensures Elements(es[..i] + [e] + es[i..]) == Elements(es) + {e}
  {
    assert es == es[..i] + es[i..];
    forall x | x in Elements(es) + {e} ensures x in es[..i] + [e] + es[i..] {
      if x != e { assert x in es[..i] || x in es[i..]; }
    }
  }

  /** Add: the entry goes to its place, before older entries of its user key. */
  method Add(es: seq<Entry>, e: Entry) returns (r: seq<Entry>)
    requires Sorted(es) && forall x :: x in es && x.ik.user == e.ik.user ==> x.ik.seqno != e.ik.seqno
    ensures Sorted(r) && Elements(r) == Elements(es) + {e}
  {
    var i := LowerBound(es, e.ik);
    InsertedSorted(es, i, e);
    r := es[..i] + [e] + es[i..];
  }

  ghost predicate OlderThan(es: set<Entry>, first: nat) {
    forall x :: x in es ==> x.ik.seqno < first
  }

  lemma BatchTake(b: Batch, i: nat)
    requires i < |b.ops|
    ensures BatchEntries(Batch(b.first, b.ops[..i + 1])) == BatchEntries(Batch(b.first, b.ops[..i])) +
        {EntryOf(b.ops[i], b.first + i)}
  {
    var one, two := Batch(b.first, b.ops[..i]), Batch(b.first, b.ops[..i + 1]);
    forall e | e in BatchEntries(two) ensures e in BatchEntries(one) || e == EntryOf(b.ops[i], b.first + i) {
      var j :| 0 <= j < i + 1 && e == EntryOf(two.ops[j], b.first + j);
      if j < i { assert one.ops[j] == two.ops[j]; }
    }
    forall e | e in BatchEntries(one) ensures e in BatchEntries(two) {
      var j :| 0 <= j < i && e == EntryOf(one.ops[j], b.first + j);
      assert two.ops[j] == one.ops[j];
    }
    assert two.ops[i] == b.ops[i];
  }

  /** InsertInto: the operations of a batch newer than the memtable, under rising numbers. */
  method InsertInto(b: Batch, mem: seq<Entry>) returns (r: seq<Entry>)
    requires Sorted(mem) && OlderThan(Elements(mem), b.first)
    ensures Sorted(r) && Elements(r) == Elements(mem) + BatchEntries(b)
  {
    r := mem;
    var sequence := b.first;
    assert BatchEntries(Batch(b.first, b.ops[..0])) == {};
    for i := 0 to |b.ops|
      invariant sequence == b.first + i && Sorted(r)
      invariant Elements(r) == Elements(mem) + BatchEntries(Batch(b.first, b.ops[..i]))
      invariant OlderThan(Elements(r), sequence)
    {
      BatchTake(b, i);
      forall x | x in r ensures x.ik.seqno < sequence {
        assert x in Elements(r);
      }
      r := Add(r, EntryOf(b.ops[i], sequence));
      sequence := sequence + 1;
    }
    assert b.ops[..|b.ops|] == b.ops;
  }
}
