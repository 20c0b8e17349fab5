/** What a compaction drops (db/db_impl.cc, the loop of DoCompactionWork) and why reads at the
    snapshots in use do not notice, with the exact case in which they do. */
module CompactionSemantics {
  import opened Format
  import opened Versions

  /** A compaction under way: its input files, the version it was picked from and the oldest
      snapshot in use when it started. */
  datatype Job = Job(level: nat, in0: set<File>, in1: set<File>, input: Levels, smallest: nat) {
    ghost function Entries(): set<Entry> {
      EntriesOf(in0 + in1)
    }

    /** No file below the output level has the user key in its range. */
    ghost predicate IsBaseLevelForKey(user: int) {
      forall i, f :: level + 2 <= i < |input| && f in input[i] ==> !f.Spans(user)
    }

    /** Rule (A): a newer entry of the same user key is visible at every snapshot in use. */
    ghost predicate Shadowed(e: Entry) {
      exists x :: x in Entries() && x.ik.user == e.ik.user && e.ik.seqno < x.ik.seqno <= smallest
    }

    /** A deletion marker with nothing left to hide. */
    ghost predicate Obsolete(e: Entry) {
      e.ik.kind.Deletion? && e.ik.seqno <= smallest && IsBaseLevelForKey(e.ik.user)
    }

    ghost function Kept(): set<Entry> {
      set e | e in Entries() && !Shadowed(e) && !Obsolete(e)
    }
  }

  /** Where the rest of the store stands relative to the inputs: for a user key of the inputs
      it holds newer entries (levels above, memtables), or entries of the next file of the
      output level; deeper levels have none when the compaction takes the key to be at its base level. */
  ghost predicate Placed(job: Job, shallow: set<Entry>, next: set<Entry>, deep: set<Entry>) {
    && Newer(shallow, job.Entries())
    && Newer(job.Entries(), deep)
    && Newer(shallow, next) && Newer(next, deep)
    && (forall e, x :: e in job.Entries() && x in deep && e.ik.user == x.ik.user ==> !job.IsBaseLevelForKey(e.ik.user))
    && Distinct(shallow + next + deep + job.Entries())
  }

  /** Dropping deletion marker `t` of `k` uncovers `n`: `t` is what a read at the oldest snapshot
      in use finds, the compaction drops it as obsolete, and the output level keeps, in a file
      that is not an input, an older value of `k`. */
  ghost predicate Uncovers(job: Job, shallow: set<Entry>, next: set<Entry>, deep: set<Entry>, k: int, t: Entry,
      n: Entry) {
    && t in job.Entries() && job.Obsolete(t)
    && IsVisible(shallow + next + deep + job.Entries(), k, job.smallest, t)
    && IsVisible(next, k, job.smallest, n) && n.ik.kind.Value?
  }

  ghost predicate UncoversSome(job: Job, shallow: set<Entry>, next: set<Entry>, deep: set<Entry>) {
    exists k, t, n :: Uncovers(job, shallow, next, deep, k, t, n)
  }

  /** Reads of the whole store before and after the inputs are replaced by what is kept. */
  ghost predicate SameReads(job: Job, shallow: set<Entry>, next: set<Entry>, deep: set<Entry>, k: int, s: nat) {
    View(shallow + next + deep + job.Kept(), k, s) == View(shallow + next + deep + job.Entries(), k, s)
  }

  /** The newest entry a read finds is dropped only as an obsolete deletion marker. */
  lemma VisibleDropped(job: Job, rest: set<Entry>, k: int, s: nat, m: Entry)
    requires s >= job.smallest && IsVisible(rest + job.Entries(), k, s, m) && m in job.Entries()
    ensures m in job.Kept() || job.Obsolete(m)
  {
    assert forall x :: x in job.Entries() ==> x in rest + job.Entries();
  }

  /** When the newest entry survives, so does the read. */
  lemma VisibleKept(job: Job, rest: set<Entry>, k: int, s: nat, m: Entry)
    requires Distinct(rest + job.Entries()) && IsVisible(rest + job.Entries(), k, s, m)
    requires m in rest || m in job.Kept()
    ensures View(rest + job.Kept(), k, s) == View(rest + job.Entries(), k, s)
  {
    assert forall x :: x in rest + job.Kept() ==> x in rest + job.Entries();
    assert IsVisible(rest + job.Kept(), k, s, m);
    ViewOf(rest + job.Kept(), k, s, m);
    ViewOf(rest + job.Entries(), k, s, m);
  }

  /** After an obsolete marker is dropped, only the next file of the output level can show the
      key. */
  lemma BehindMarker(job: Job, shallow: set<Entry>, next: set<Entry>, deep: set<Entry>, k: int, s: nat, t: Entry,
      x: Entry)
    requires Placed(job, shallow, next, deep) && s >= job.smallest
    requires IsVisible(shallow + next + deep + job.Entries(), k, s, t) && t in job.Entries() && job.Obsolete(t)
    requires x in shallow + next + deep + job.Kept() && x.ik.user == k && x.ik.seqno <= s && x != t
    ensures x in next && x.ik.seqno < t.ik.seqno
  {
    var all := shallow + next + deep + job.Entries();
    assert x in all && t in all;
    assert x.ik.seqno <= t.ik.seqno;
    assert t.ik.seqno != x.ik.seqno;
    if x in job.Kept() {
      assert job.Shadowed(x);
    }
  }

  /** The main result on one compaction: every read at every snapshot not older than the
      oldest one in use is unchanged, if and only if no marker uncovers a value left in
      another file of the output level. */
  lemma CompactionPreservesReads(job: Job, shallow: set<Entry>, next: set<Entry>, deep: set<Entry>)
    requires Placed(job, shallow, next, deep)
    ensures (forall k, s :: s >= job.smallest ==> SameReads(job, shallow, next, deep, k, s))
      <==> !UncoversSome(job, shallow, next, deep)
  {
    if !UncoversSome(job, shallow, next, deep) {
      forall k, s | s >= job.smallest ensures SameReads(job, shallow, next, deep, k, s) {
        ReadKept(job, shallow, next, deep, k, s);
      }
    } else {
      var k, t, n :| Uncovers(job, shallow, next, deep, k, t, n);
      ReadUncovered(job, shallow, next, deep, k, t, n);
      assert !SameReads(job, shallow, next, deep, k, job.smallest);
    }
  }

  lemma ReadKept(job: Job, shallow: set<Entry>, next: set<Entry>, deep: set<Entry>, k: int, s: nat)
    requires Placed(job, shallow, next, deep) && s >= job.smallest
    requires !UncoversSome(job, shallow, next, deep)
    ensures SameReads(job, shallow, next, deep, k, s)
  {
    var rest := shallow + next + deep;
    var all := rest + job.Entries();
    VisibleOrHidden(all, k, s);
    if m :| IsVisible(all, k, s, m) {
      if m in rest || m in job.Kept() {
        VisibleKept(job, rest, k, s, m);
      } else {
        VisibleDropped(job, rest, k, s, m);
        ViewOf(all, k, s, m);
        MarkerDropped(job, shallow, next, deep, k, s, m);
      }
    } else {
      assert Hidden(rest + job.Kept(), k, s);
    }
  }

  lemma MarkerDropped(job: Job, shallow: set<Entry>, next: set<Entry>, deep: set<Entry>, k: int, s: nat, t: Entry)
    requires Placed(job, shallow, next, deep) && s >= job.smallest
    requires !UncoversSome(job, shallow, next, deep)
    requires IsVisible(shallow + next + deep + job.Entries(), k, s, t) && t in job.Entries() && job.Obsolete(t)
    requires t !in shallow + next + deep + job.Kept()
    ensures View(shallow + next + deep + job.Kept(), k, s) == None
  {
    var left := shallow + next + deep + job.Kept();
    VisibleOrHidden(left, k, s);
    if x :| IsVisible(left, k, s, x) {
      BehindMarker(job, shallow, next, deep, k, s, t, x);
      assert IsVisible(shallow + next + deep + job.Entries(), k, job.smallest, t);
      assert IsVisible(next, k, job.smallest, x) by {
        assert forall y :: y in next ==> y in left;
      }
      assert x.ik.kind.Deletion? by {
        if x.ik.kind.Value? {
          assert Uncovers(job, shallow, next, deep, k, t, x);
        }
      }
      assert Distinct(left);
      ViewOf(left, k, s, x);
    }
  }

  lemma ReadUncovered(job: Job, shallow: set<Entry>, next: set<Entry>, deep: set<Entry>, k: int, t: Entry, n: Entry)
    requires Placed(job, shallow, next, deep) && Uncovers(job, shallow, next, deep, k, t, n)
    ensures View(shallow + next + deep + job.Entries(), k, job.smallest) == None
    ensures View(shallow + next + deep + job.Kept(), k, job.smallest) == Some(n.value)
  {
    var all := shallow + next + deep + job.Entries();
    var left := shallow + next + deep + job.Kept();
    ViewOf(all, k, job.smallest, t);
    assert Distinct(left);
    assert t !in shallow && t !in deep && t !in next;
    forall x | x in left && x.ik.user == k && x.ik.seqno <= job.smallest ensures x.ik.seqno <= n.ik.seqno {
      BehindMarker(job, shallow, next, deep, k, job.smallest, t, x);
    }
    assert IsVisible(left, k, job.smallest, n);
    ViewOf(left, k, job.smallest, n);
  }
}
