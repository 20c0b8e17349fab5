/** Internal keys and entries (db/dbformat.h, db/dbformat.cc), and what a set of
    entries shows of a user key at a snapshot.

    A user key is modelled by an integer: the comparator is supplied by the user, and
    only the total order it defines matters to the code that uses these keys. */
module Format {
  datatype Option<+T> = None | Some(value: T) {
    function GetOr(default: T): T {
      if None? then default else value
    }
  }

  /** The sequences one after another. */
  function Joined<T>(parts: seq<seq<T>>): seq<T> {
    if parts == [] then [] else Joined(parts[..|parts| - 1]) + parts[|parts| - 1]
  }

  /** Sequence numbers leave eight bits free for the value type. */
  const MAX_SEQUENCE: nat := 0xFF_FFFF_FFFF_FFFF

  datatype Kind = Deletion | Value

  datatype IKey = IKey(user: int, seqno: nat, kind: Kind)

  datatype Entry = Entry(ik: IKey, value: string)

  /** Sequence number and type packed in one word, as stored at the end of an internal key. */
  function Tag(k: IKey): nat {
    k.seqno * 256 + if k.kind.Value? then 1 else 0
  }

  /** Increasing user key, then decreasing tag. */
  predicate Less(a: IKey, b: IKey) {
    a.user < b.user || (a.user == b.user && Tag(a) > Tag(b))
  }

  /** The internal key a read of `user` at sequence number `seqno` seeks to. */
  function LookupKey(user: int, seqno: nat): IKey {
    IKey(user, seqno, Value)
  }

  /** An internal key lies before the lookup key exactly when its user key is smaller, or it
      is an entry of the same user key that is newer than the snapshot. */
  lemma BeforeLookupKey(k: IKey, user: int, seqno: nat)
    ensures Less(k, LookupKey(user, seqno)) <==> k.user < user || (k.user == user && k.seqno > seqno)
  {
  }

  /** Strictly increasing, no two entries of one user key with one sequence number. */
  ghost predicate Sorted(es: seq<Entry>) {
    forall i, j :: 0 <= i < j < |es| ==> Precedes(es[i].ik, es[j].ik)
  }

  predicate Precedes(a: IKey, b: IKey) {
    a.user < b.user || (a.user == b.user && a.seqno > b.seqno)
  }

  ghost function Elements(es: seq<Entry>): set<Entry> {
    set e | e in es
  }

  /** Every entry of `a` is newer than every entry of `b` with the same user key. */
  ghost predicate Newer(a: set<Entry>, b: set<Entry>) {
    forall x, y :: x in a && y in b && x.ik.user == y.ik.user ==> x.ik.seqno > y.ik.seqno
  }

  /** No two entries of one user key share a sequence number. */
  ghost predicate Distinct(a: set<Entry>) {
    forall x, y :: x in a && y in a && x.ik.user == y.ik.user && x.ik.seqno == y.ik.seqno ==> x == y
  }

  // What a read sees

  /** `e` is the newest entry of user key `k` that snapshot `s` may see. */
  ghost predicate IsVisible(a: set<Entry>, k: int, s: nat, e: Entry) {
    && e in a && e.ik.user == k && e.ik.seqno <= s
    && forall x :: x in a && x.ik.user == k && x.ik.seqno <= s ==> x.ik.seqno <= e.ik.seqno
  }

  ghost predicate Hidden(a: set<Entry>, k: int, s: nat) {
    forall x :: x in a && x.ik.user == k ==> x.ik.seqno > s
  }

  function Result(e: Entry): Option<string> {
    if e.ik.kind.Value? then Some(e.value) else None
  }

  /** The value a read of `k` at snapshot `s` returns: that of the newest visible entry,
      nothing when that entry is a deletion or there is none. */
  ghost function View(a: set<Entry>, k: int, s: nat): Option<string> {
    if exists e :: IsVisible(a, k, s, e)
    then var e :| IsVisible(a, k, s, e); Result(e)
    else None
  }

  lemma ViewOf(a: set<Entry>, k: int, s: nat, e: Entry)
    requires Distinct(a) && IsVisible(a, k, s, e)
    ensures View(a, k, s) == Result(e)
  {
  }

  lemma ViewHidden(a: set<Entry>, k: int, s: nat)
    requires Hidden(a, k, s)
    ensures View(a, k, s) == None
  {
  }

  /** Either nothing of `k` is visible or there is a newest visible entry. */
  lemma {:induction false} VisibleOrHidden(a: set<Entry>, k: int, s: nat)
    ensures Hidden(a, k, s) || exists e :: IsVisible(a, k, s, e)
    decreases a
  {
    if x :| x in a && x.ik.user == k && x.ik.seqno <= s {
      var rest := a - {x};
      VisibleOrHidden(rest, k, s);
      if e :| IsVisible(rest, k, s, e) && e.ik.seqno > x.ik.seqno {
        assert IsVisible(a, k, s, e);
      } else {
        assert IsVisible(a, k, s, x);
      }
    }
  }

  /** A read depends only on the visible entries of its key. */
  lemma ViewDependsOn(a: set<Entry>, b: set<Entry>, k: int, s: nat)
    requires Distinct(a) && Distinct(b)
    requires forall e: Entry :: e.ik.user == k && e.ik.seqno <= s ==> (e in a <==> e in b)
    ensures View(a, k, s) == View(b, k, s)
  {
    VisibleOrHidden(a, k, s);
    if e :| IsVisible(a, k, s, e) {
      assert IsVisible(b, k, s, e);
      ViewOf(a, k, s, e);
      ViewOf(b, k, s, e);
    } else {
      assert Hidden(b, k, s);
    }
  }

  /** The position of the first entry at or after `target`: what the seek of a table or of an iterator finds. */
  function LowerBound(es: seq<Entry>, target: IKey): (i: nat)
    ensures i <= |es|
    ensures forall j :: 0 <= j < i ==> Less(es[j].ik, target)
    ensures i < |es| ==> !Less(es[i].ik, target)
  {
    if es == [] || !Less(es[0].ik, target) then 0 else
      var i := LowerBound(es[1..], target);
      assert forall j :: 1 <= j < |es| ==> es[j] == es[1..][j - 1];
      i + 1
  }
}
