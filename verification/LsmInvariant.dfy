/** Every step of the store keeps its invariant. */
module LsmInvariant {
  import opened Format
  import opened Versions
  import opened CompactionPicker
  import opened CompactionSemantics
  import opened Lsm

  lemma StoredDistinct(db: Db)
    requires FromHistory(db)
    ensures AllRecorded(db.hist + db.group, db.lastSeq + db.inserted, db.All())
    ensures Distinct(db.All())
  {
    RecordedLonger(db.hist, db.lastSeq, db.Imm(), db.group, db.lastSeq + db.inserted);
    RecordedLonger(db.hist, db.lastSeq, AllEntries(db.levels), db.group, db.lastSeq + db.inserted);
  }

  lemma RecordedLonger(log: seq<Op>, n: nat, es: set<Entry>, more: seq<Op>, n': nat)
    requires AllRecorded(log, n, es) && n <= n' <= |log + more|
    ensures AllRecorded(log + more, n', es)
  {
    forall e | e in es ensures Recorded(log + more, n', e) {
      assert Recorded(log, n, e);
    }
  }

  // Reads that a step cannot change

  lemma SameStored(a: Db, b: Db)
    requires FromHistory(a) && Faithful(a) && b.lastSeq == a.lastSeq && b.hist == a.hist
    requires b.All() == a.All() && a.Oldest() <= b.Oldest()
    ensures Faithful(b)
  {
  }

  // Writes

  lemma SpecGetExtends(h: seq<Op>, g: seq<Op>, k: int, s: nat)
    requires s <= |h|
    ensures SpecGet(h + g, k, s) == SpecGet(h, k, s)
  {
    if s > 0 && h[s - 1].key != k {
      SpecGetExtends(h, g, k, s - 1);
    }
  }

  lemma BeginWriteKeeps(a: Db, ops: seq<Op>, b: Db)
    requires Inv(a) && StepBeginWrite(a, ops, b)
    ensures Inv(b)
  {
    BeginWriteHistory(a, ops, b);
    SameStored(a, b);
  }

  lemma BeginWriteHistory(a: Db, ops: seq<Op>, b: Db)
    requires FromHistory(a) && StepBeginWrite(a, ops, b)
    ensures FromHistory(b) && b.All() == a.All()
  {
    assert a.hist + a.group == a.hist && a.inserted == 0;
    RecordedLonger(a.hist, a.lastSeq, a.mem, ops, a.lastSeq);
  }

  lemma InsertOneHistory(a: Db, b: Db, e: Entry)
    requires FromHistory(a) && StepInsertOne(a, b)
    requires e == EntryOf(a.group[a.inserted], a.lastSeq + a.inserted + 1)
    ensures FromHistory(b) && b.All() == a.All() + {e}
  {
    assert (a.hist + a.group)[e.ik.seqno - 1] == a.group[a.inserted];
    assert b.hist + b.group == a.hist + a.group;
    RecordedLonger(a.hist + a.group, a.lastSeq + a.inserted, a.mem, [], b.lastSeq + b.inserted);
    assert a.hist + a.group + [] == a.hist + a.group;
    forall i | 0 <= i < b.inserted ensures InMemtable(b.group, b.lastSeq, b.mem, i) {
      if i < a.inserted { assert InMemtable(a.group, a.lastSeq, a.mem, i); }
    }
  }

  lemma InsertOneKeeps(a: Db, b: Db)
    requires Inv(a) && StepInsertOne(a, b)
    ensures Inv(b)
  {
    var e := EntryOf(a.group[a.inserted], a.lastSeq + a.inserted + 1);
    InsertOneHistory(a, b, e);
    InsertOneAge(a, b, e);
    InsertOneReads(a, b, e);
  }

  lemma InsertOneAge(a: Db, b: Db, e: Entry)
    requires FromHistory(a) && InAgeOrder(a) && b == a.(mem := a.mem + {e}, inserted := a.inserted + 1)
    requires e.ik.seqno > a.lastSeq
    ensures InAgeOrder(b)
  {
    forall x | x in a.Imm() + AllEntries(a.levels) ensures x.ik.seqno <= a.lastSeq {
      assert Recorded(a.hist, a.lastSeq, x);
    }
  }

  lemma InsertOneReads(a: Db, b: Db, e: Entry)
    requires FromHistory(a) && Faithful(a) && FromHistory(b) && StepInsertOne(a, b)
    requires b.All() == a.All() + {e} && e.ik.seqno > a.lastSeq
    ensures Faithful(b)
  {
    StoredDistinct(a);
    StoredDistinct(b);
    forall k, s | b.Oldest() <= s <= b.lastSeq ensures View(b.All(), k, s) == SpecGet(b.hist, k, s) {
      ViewDependsOn(a.All(), b.All(), k, s);
    }
  }

  lemma ViewStep(a: set<Entry>, k: int, s: nat)
    requires Distinct(a) && s > 0
    requires forall e :: e in a && e.ik.user == k ==> e.ik.seqno != s
    ensures View(a, k, s) == View(a, k, s - 1)
  {
    VisibleOrHidden(a, k, s);
    if e :| IsVisible(a, k, s, e) {
      ViewOf(a, k, s, e);
      assert IsVisible(a, k, s - 1, e);
      ViewOf(a, k, s - 1, e);
    }
  }

  lemma PublishedEntry(a: Db, b: Db, s: nat)
    requires FromHistory(a) && StepPublish(a, b) && a.lastSeq < s <= b.lastSeq
    ensures EntryOf(b.hist[s - 1], s) in a.mem
    ensures forall e :: e in a.All() && e.ik.seqno == s ==> e == EntryOf(b.hist[s - 1], s)
  {
    var i := s - 1 - a.lastSeq;
    assert InMemtable(a.group, a.lastSeq, a.mem, i) && b.hist[s - 1] == a.group[i];
    StoredDistinct(a);
    assert b.hist == a.hist + a.group;
    forall e | e in a.All() && e.ik.seqno == s ensures e == EntryOf(b.hist[s - 1], s) {
      assert Recorded(b.hist, b.lastSeq, e);
    }
  }

  lemma {:induction false} PublishedReads(a: Db, b: Db, k: int, s: nat)
    requires FromHistory(a) && SnapshotsOk(a) && Faithful(a) && StepPublish(a, b)
    requires a.Oldest() <= s <= b.lastSeq
    ensures View(a.All(), k, s) == SpecGet(b.hist, k, s)
  {
    if s <= a.lastSeq {
      SpecGetExtends(a.hist, a.group, k, s);
    } else {
      var e := EntryOf(b.hist[s - 1], s);
      PublishedEntry(a, b, s);
      StoredDistinct(a);
      if e.ik.user == k {
        assert IsVisible(a.All(), k, s, e);
        ViewOf(a.All(), k, s, e);
      } else {
        PublishedReads(a, b, k, s - 1);
        ViewStep(a.All(), k, s);
      }
    }
  }

  lemma PublishKeeps(a: Db, b: Db)
    requires Inv(a) && StepPublish(a, b)
    ensures Inv(b)
  {
    assert b.All() == a.All();
    assert b.hist + b.group == b.hist;
    RecordedLonger(a.hist, a.lastSeq, a.Imm(), a.group, b.lastSeq);
    RecordedLonger(a.hist, a.lastSeq, AllEntries(a.levels), a.group, b.lastSeq);
    forall k, s | b.Oldest() <= s <= b.lastSeq ensures View(b.All(), k, s) == SpecGet(b.hist, k, s) {
      PublishedReads(a, b, k, s);
    }
  }

  // Memtable switch, file numbers, snapshots

  lemma SwitchMemKeeps(a: Db, b: Db)
    requires Inv(a) && StepSwitchMem(a, b)
    ensures Inv(b)
  {
    assert a.hist + a.group == a.hist && a.inserted == 0;
    assert b.All() == a.All();
    SameStored(a, b);
  }

  lemma NewNumberKeeps(a: Db, b: Db)
    requires Inv(a) && StepNewNumber(a, b)
    ensures Inv(b)
  {
    SameStored(a, b);
  }

  lemma AbandonKeeps(a: Db, b: Db)
    requires Inv(a) && StepAbandon(a, b)
    ensures Inv(b)
  {
    SameStored(a, b);
  }

  lemma TakeSnapshotKeeps(a: Db, b: Db)
    requires Inv(a) && StepTakeSnapshot(a, b)
    ensures Inv(b)
  {
    SameStored(a, b);
  }

  lemma ReleaseSnapshotKeeps(a: Db, index: nat, b: Db)
    requires Inv(a) && StepReleaseSnapshot(a, index, b)
    ensures Inv(b)
  {
    SameStored(a, b);
  }

  lemma PickKeeps(a: Db, level: nat, in0: set<File>, in1: set<File>, b: Db)
    requires Inv(a) && StepPick(a, level, in0, in1, b)
    ensures Inv(b)
  {
    PickedJobOk(a.levels, a.Oldest(), level, in0, in1);
    SameStored(a, b);
  }

  lemma OrderIsAge(d: set<Entry>, x: Entry, y: Entry)
    requires Distinct(d) && x in d && y in d && Less(x.ik, y.ik) && x.ik.user == y.ik.user
    ensures x.ik.seqno > y.ik.seqno
  {
  }

  /** Files left behind in the upper level hold nothing older than the inputs. */
  lemma LeftBehindNewer(v: Levels, level: nat, in0: set<File>)
    requires VersionOk(v) && level < NUM_LEVELS && UpperOk(v[level], level, in0)
    ensures Newer(EntriesOf(v[level] - in0), EntriesOf(in0))
  {
    forall x, y | x in EntriesOf(v[level] - in0) && y in EntriesOf(in0) && x.ik.user == y.ik.user
      ensures x.ik.seqno > y.ik.seqno
    {
      var f :| f in v[level] - in0 && x in f.entries;
      var g :| g in in0 && y in g.entries;
      InAll(v, level, f, x);
      InAll(v, level, g, y);
      LeftBehindPair(v[level], level, in0, AllEntries(v), f, g, x, y);
    }
  }

  lemma LeftBehindPair(all: set<File>, level: nat, in0: set<File>, stored: set<Entry>, f: File, g: File, x: Entry,
      y: Entry)
    requires UpperOk(all, level, in0) && (level > 0 ==> Apart(all)) && Distinct(stored)
    requires f in all && f !in in0 && x in f.entries && g in in0 && y in g.entries
    requires x in stored && y in stored && x.ik.user == y.ik.user
    ensures x.ik.seqno > y.ik.seqno
  {
    FileRange(f, x);
    FileRange(g, y);
    if level == 0 {
      assert false;
    } else {
      assert f in all && !ContinuesKey(f, g.Largest());
      assert FileBefore(f, g);
      OrderIsAge(stored, x, y);
    }
  }

  /** Files of the output level outside the inputs lie on one side of all inputs. */
  lemma OutsideAside(v: Levels, level: nat, in0: set<File>, in1: set<File>, f: File)
    requires |v| == NUM_LEVELS && level + 1 < NUM_LEVELS && Apart(v[level + 1]) && in0 != {}
    requires in1 == (set h | h in v[level + 1] && MeetsHull(h, in0))
    requires f in v[level + 1] - in1
    ensures Aside(f, in0 + in1)
  {
    var g :| g in in0;
    forall h | h in in0 + in1
      ensures if f.Largest().user < g.Smallest().user then FileBefore(f, h) else FileBefore(h, f)
    {
      if h in in0 { BesideInput(in0, f, h, g); } else { OneSide(v[level + 1], in0, f, h, g); }
    }
  }

  lemma BesideInput(in0: set<File>, f: File, h: File, g: File)
    requires !MeetsHull(f, in0) && h in in0 && g in in0
    ensures if f.Largest().user < g.Smallest().user then FileBefore(f, h) else FileBefore(h, f)
  {
    FileEnds(f);
    FileEnds(h);
    FileEnds(g);
  }

  lemma OneSide(next: set<File>, in0: set<File>, f: File, h: File, g: File)
    requires Apart(next) && f in next && h in next && f != h
    requires !MeetsHull(f, in0) && MeetsHull(h, in0) && g in in0
    ensures if f.Largest().user < g.Smallest().user then FileBefore(f, h) else FileBefore(h, f)
  {
    FileEnds(f);
    FileEnds(h);
    FileEnds(g);
    assert FileBefore(f, h) || FileBefore(h, f);
    var x, y :| x in in0 && y in in0 && x.Smallest().user <= h.Largest().user && h.Smallest().user <= y.Largest().user;
    FileEnds(x);
    FileEnds(y);
    if f.Largest().user < g.Smallest().user {
      assert f.Largest().user < x.Smallest().user;
    } else {
      assert g.Smallest().user <= f.Largest().user;
      assert f.Smallest().user > y.Largest().user;
    }
  }

  lemma PickedAboveBase(v: Levels, c: Job)
    requires |v| == NUM_LEVELS && c.level + 2 <= NUM_LEVELS && c.input == v
    ensures BaseHolds(v, c)
  {
    forall e, x | e in c.Entries() && x in Between(v, c.level + 2, NUM_LEVELS) && e.ik.user == x.ik.user
      ensures !c.IsBaseLevelForKey(e.ik.user)
    {
      var i, f :| c.level + 2 <= i < NUM_LEVELS && f in v[i] && x in f.entries;
      FileRange(f, x);
    }
  }

  lemma PickedJobOk(v: Levels, oldest: nat, level: nat, in0: set<File>, in1: set<File>)
    requires VersionOk(v) && Picked(v, level, in0, in1)
    ensures JobOk(v, oldest, Job(level, in0, in1, v, oldest))
  {
    hide Newer, Aside, BaseHolds, Connected, MeetsHull, EntriesOf, NoBoundary, NewestByNumber;
    LeftBehindNewer(v, level, in0);
    forall f | f in v[level + 1] - in1 ensures Aside(f, in0 + in1) {
      OutsideAside(v, level, in0, in1, f);
    }
    PickedAboveBase(v, Job(level, in0, in1, v, oldest));
  }

  // Flush

  lemma AddFileEntries(v: Levels, to: nat, f: File)
    requires to < |v|
    ensures AllEntries(v[to := v[to] + {f}]) == AllEntries(v) + Elements(f.entries)
  {
    var w := v[to := v[to] + {f}];
    forall e | e in AllEntries(w) ensures e in AllEntries(v) + Elements(f.entries) {
      var i, g: File :| 0 <= i < |w| && g in w[i] && e in g.entries;
      if g in v[i] { InAll(v, i, g, e); }
    }
    forall e | e in AllEntries(v) + Elements(f.entries) ensures e in AllEntries(w) {
      if e in f.entries {
        InAll(w, to, f, e);
      } else {
        var i, g :| 0 <= i < |v| && g in v[i] && e in g.entries;
        InAll(w, i, g, e);
      }
    }
  }

  lemma EntriesOfAdd(fs: set<File>, f: File)
    ensures EntriesOf(fs + {f}) == EntriesOf(fs) + Elements(f.entries)
  {
  }

  /** A file of entries newer than all the levels may be added to a level when that level and
      all shallower ones are clear of its range, or when the level is zero and its number is
      the highest. */
  ghost predicate MayAdd(v: Levels, to: nat, f: File) {
    && |v| == NUM_LEVELS && to < NUM_LEVELS
    && Newer(Elements(f.entries), AllEntries(v))
    && (forall i, g :: 0 <= i < NUM_LEVELS && g in v[i] ==> g.number < f.number)
    && (to > 0 ==> forall i :: 0 <= i <= to ==> ClearLevel(v[i], f.Smallest().user, f.Largest().user))
  }

  lemma ClearShares(fs: set<File>, f: File, x: Entry, y: Entry)
    requires ClearLevel(fs, f.Smallest().user, f.Largest().user)
    requires x in EntriesOf(fs) && y in f.entries
    ensures x.ik.user != y.ik.user
  {
    var g :| g in fs && x in g.entries;
    FileRange(g, x);
    FileRange(f, y);
    assert !g.Overlaps(f.Smallest().user, f.Largest().user);
  }

  lemma AddedLevelsNewer(v: Levels, to: nat, f: File, i: nat, j: nat)
    requires VersionOk(v) && MayAdd(v, to, f) && i < j < NUM_LEVELS
    ensures Newer(EntriesOf(v[to := v[to] + {f}][i]), EntriesOf(v[to := v[to] + {f}][j]))
  {
    var w := v[to := v[to] + {f}];
    forall x, y | x in EntriesOf(w[i]) && y in EntriesOf(w[j]) && x.ik.user == y.ik.user
      ensures x.ik.seqno > y.ik.seqno
    {
      assert Newer(EntriesOf(v[i]), EntriesOf(v[j]));
      EntriesOfAdd(v[to], f);
      if x in EntriesOf(v[i]) {
        if y !in EntriesOf(v[j]) {
          assert to == j && y in f.entries;
          ClearShares(v[i], f, x, y);
        }
      } else {
        assert to == i && x in f.entries && y in EntriesOf(v[j]);
        var g :| g in v[j] && y in g.entries;
        InAll(v, j, g, y);
      }
    }
  }

  lemma AddedApart(v: Levels, to: nat, f: File)
    requires VersionOk(v) && MayAdd(v, to, f) && to > 0
    ensures Apart(v[to] + {f})
  {
    assert Apart(v[to]) && ClearLevel(v[to], f.Smallest().user, f.Largest().user);
    forall g | g in v[to] ensures FileBefore(f, g) || FileBefore(g, f) {
      assert !g.Overlaps(f.Smallest().user, f.Largest().user);
    }
  }

  lemma AddedNewestByNumber(v: Levels, f: File)
    requires VersionOk(v) && MayAdd(v, 0, f)
    ensures NewestByNumber(v[0] + {f})
  {
    forall g | g in v[0] ensures Newer(Elements(f.entries), Elements(g.entries)) {
      forall y | y in g.entries ensures y in AllEntries(v) { InAll(v, 0, g, y); }
    }
  }

  lemma AddedVersionOk(v: Levels, to: nat, f: File)
    requires VersionOk(v) && MayAdd(v, to, f) && Distinct(AllEntries(v) + Elements(f.entries))
    ensures VersionOk(v[to := v[to] + {f}])
  {
    var w := v[to := v[to] + {f}];
    AddFileEntries(v, to, f);
    forall i, j | 0 <= i < j < NUM_LEVELS ensures Newer(EntriesOf(w[i]), EntriesOf(w[j])) {
      AddedLevelsNewer(v, to, f, i, j);
    }
    if to == 0 {
      AddedNewestByNumber(v, f);
    } else {
      AddedApart(v, to, f);
    }
  }

  /** A file clear of two connected inputs' levels lies beside the whole compaction. */
  lemma ClearOfInputs(c: Job, f: File)
    requires Connected(c.in0 + c.in1) && c.in0 != {}
    requires forall g :: g in c.in0 + c.in1 ==> !g.Overlaps(f.Smallest().user, f.Largest().user)
    ensures Aside(f, c.in0 + c.in1) && !MeetsHull(f, c.in0)
    ensures forall e, x :: e in c.Entries() && x in f.entries ==> e.ik.user != x.ik.user
  {
    FileEnds(f);
    OutsideHull(c, f);
    forall g, h | g in c.in0 + c.in1 && h in c.in0 + c.in1
      ensures FileBefore(f, g) ==> FileBefore(f, h)
    {
      FileEnds(g);
      FileEnds(h);
      assert !Covered(c.in0 + c.in1, f.Smallest().user);
      assert !Separates(h, f.Smallest().user, g);
    }
    forall g | g in c.in0 + c.in1 ensures FileBefore(f, g) || FileBefore(g, f) {
      FileEnds(g);
    }
    forall e, x | e in c.Entries() && x in f.entries ensures e.ik.user != x.ik.user {
      var g :| g in c.in0 + c.in1 && e in g.entries;
      FileRange(g, e);
      FileRange(f, x);
    }
  }

  lemma OutsideHull(c: Job, f: File)
    requires Connected(c.in0 + c.in1)
    requires forall g :: g in c.in0 + c.in1 ==> !g.Overlaps(f.Smallest().user, f.Largest().user)
    ensures !MeetsHull(f, c.in0)
  {
    FileEnds(f);
    assert !Covered(c.in0 + c.in1, f.Smallest().user);
    forall g, h | g in c.in0 && h in c.in0 && g.Smallest().user <= f.Largest().user
        && f.Smallest().user <= h.Largest().user
      ensures false
    {
      assert g in c.in0 + c.in1 && h in c.in0 + c.in1;
      assert Separates(g, f.Smallest().user, h);
    }
  }

  lemma AddedBase(v: Levels, c: Job, to: nat, f: File)
    requires |v| == NUM_LEVELS && to < NUM_LEVELS && BaseHolds(v, c)
    requires to >= c.level + 2 ==> forall e, x :: e in c.Entries() && x in f.entries ==> e.ik.user != x.ik.user
    ensures BaseHolds(v[to := v[to] + {f}], c)
  {
    var w := v[to := v[to] + {f}];
    forall e, x | e in c.Entries() && x in Between(w, c.level + 2, NUM_LEVELS) && e.ik.user == x.ik.user
      ensures !c.IsBaseLevelForKey(e.ik.user)
    {
      var i, g: File :| c.level + 2 <= i < NUM_LEVELS && g in w[i] && x in g.entries;
      assert g in v[i];
      assert x in Between(v, c.level + 2, NUM_LEVELS);
    }
  }

  /** A flush beside a running compaction leaves what the compaction relies on intact. */
  lemma AddedJobOk(v: Levels, oldest: nat, c: Job, to: nat, f: File)
    requires JobOk(v, oldest, c) && MayAdd(v, to, f)
    ensures JobOk(v[to := v[to] + {f}], oldest, c)
  {
    hide Newer, Aside, BaseHolds, Connected, MeetsHull, EntriesOf, VersionOk;
    if to == c.level {
      AddedAbove(v, c, f);
    }
    if to >= c.level + 1 {
      assert ClearLevel(v[c.level], f.Smallest().user, f.Largest().user);
      assert ClearLevel(v[c.level + 1], f.Smallest().user, f.Largest().user);
      ClearOfInputs(c, f);
    }
    AddedBase(v, c, to, f);
  }

  lemma AddedAbove(v: Levels, c: Job, f: File)
    requires |v| == NUM_LEVELS && c.level < NUM_LEVELS && c.in0 <= v[c.level] && MayAdd(v, c.level, f)
    requires Newer(EntriesOf(v[c.level] - c.in0), EntriesOf(c.in0))
    ensures Newer(EntriesOf(v[c.level] + {f} - c.in0), EntriesOf(c.in0))
  {
    forall x, y | x in EntriesOf(v[c.level] + {f} - c.in0) && y in EntriesOf(c.in0) && x.ik.user == y.ik.user
      ensures x.ik.seqno > y.ik.seqno
    {
      var g :| g in c.in0 && y in g.entries;
      InAll(v, c.level, g, y);
      var h :| h in v[c.level] + {f} - c.in0 && x in h.entries;
      if h != f { InEntriesOf(v[c.level] - c.in0, h, x); }
    }
  }

  lemma FlushKeeps(a: Db, file: Option<File>, to: nat, b: Db)
    requires Inv(a) && StepFlush(a, file, to, b)
    ensures Inv(b)
  {
    if file.None? {
      assert b.All() == a.All();
      SameStored(a, b);
    } else {
      var f := file.value;
      FlushedFile(a, f, to, b);
      FlushedNumbers(a, f, to, b);
      AddFileEntries(a.levels, to, f);
      FlushedHistory(a, f, to, b);
      SameStored(a, b);
    }
  }

  lemma FlushedNumbers(a: Db, f: File, to: nat, b: Db)
    requires NumbersOk(a) && StepFlush(a, Some(f), to, b)
    ensures NumbersOk(b)
  {
  }

  lemma FlushedHistory(a: Db, f: File, to: nat, b: Db)
    requires FromHistory(a) && InAgeOrder(a) && StepFlush(a, Some(f), to, b)
    requires AllEntries(b.levels) == AllEntries(a.levels) + Elements(f.entries)
    ensures FromHistory(b) && b.All() == a.All()
    ensures Newer(b.mem, AllEntries(b.levels))
  {
  }

  lemma FlushedFile(a: Db, f: File, to: nat, b: Db)
    requires Inv(a) && StepFlush(a, Some(f), to, b)
    ensures VersionOk(b.levels)
    ensures b.job.Some? ==> JobOk(b.levels, b.Oldest(), b.job.value)
  {
    StoredDistinct(a);
    assert MayAdd(a.levels, to, f);
    assert AllEntries(a.levels) + Elements(f.entries) <= a.All();
    AddedVersionOk(a.levels, to, f);
    if b.job.Some? {
      AddedJobOk(a.levels, a.Oldest(), a.job.value, to, f);
    }
  }

  // Replacing the inputs of a compaction by its outputs

  ghost function Replaced(v: Levels, level: nat, in0: set<File>, in1: set<File>, outputs: set<File>): Levels
    requires level + 1 < |v|
  {
    v[level := v[level] - in0][level + 1 := v[level + 1] - in1 + outputs]
  }

  ghost predicate Replaceable(v: Levels, level: nat, in0: set<File>, in1: set<File>, outputs: set<File>) {
    && VersionOk(v) && level + 1 < NUM_LEVELS && in0 <= v[level] && in1 <= v[level + 1]
    && Newer(EntriesOf(v[level] - in0), EntriesOf(in0))
    && AllAside(v[level + 1] - in1, in0 + in1)
    && EntriesOf(outputs) <= EntriesOf(in0 + in1) && Apart(outputs)
  }

  lemma Origin(v: Levels, level: nat, in0: set<File>, in1: set<File>, outputs: set<File>, e: Entry)
    requires Replaceable(v, level, in0, in1, outputs) && e in EntriesOf(v[level + 1] - in1 + outputs)
    ensures e in EntriesOf(v[level + 1]) || e in EntriesOf(in0)
  {
    var f :| f in v[level + 1] - in1 + outputs && e in f.entries;
    if f in outputs {
      assert e in EntriesOf(outputs);
      var g :| g in in0 + in1 && e in g.entries;
    }
  }

  lemma ReplacedNewer(v: Levels, level: nat, in0: set<File>, in1: set<File>, outputs: set<File>, i: nat, j: nat)
    requires Replaceable(v, level, in0, in1, outputs) && i < j < NUM_LEVELS
    ensures Newer(EntriesOf(Replaced(v, level, in0, in1, outputs)[i]),
        EntriesOf(Replaced(v, level, in0, in1, outputs)[j]))
  {
    var w := Replaced(v, level, in0, in1, outputs);
    forall x, y | x in EntriesOf(w[i]) && y in EntriesOf(w[j]) && x.ik.user == y.ik.user
      ensures x.ik.seqno > y.ik.seqno
    {
      if i == level + 1 {
        Origin(v, level, in0, in1, outputs, x);
        assert Newer(EntriesOf(v[level]), EntriesOf(v[j])) && Newer(EntriesOf(v[level + 1]), EntriesOf(v[j]));
      } else if j == level + 1 {
        Origin(v, level, in0, in1, outputs, y);
        assert Newer(EntriesOf(v[i]), EntriesOf(v[level + 1]));
        if i < level {
          assert Newer(EntriesOf(v[i]), EntriesOf(v[level]));
        }
      } else {
        assert Newer(EntriesOf(v[i]), EntriesOf(v[j]));
      }
    }
  }

  lemma OutputAside(fs: set<File>, outputs: set<File>, h: File, o: File)
    requires Aside(h, fs) && EntriesOf(outputs) <= EntriesOf(fs) && o in outputs
    ensures FileBefore(h, o) || FileBefore(o, h)
  {
    FileEnds(o);
    InEntriesOf(outputs, o, o.entries[0]);
    InEntriesOf(outputs, o, o.entries[|o.entries| - 1]);
    var f :| f in fs && o.entries[0] in f.entries;
    var g :| g in fs && o.entries[|o.entries| - 1] in g.entries;
    FileRange(f, o.entries[0]);
    FileRange(g, o.entries[|o.entries| - 1]);
  }

  lemma ReplacedApart(v: Levels, level: nat, in0: set<File>, in1: set<File>, outputs: set<File>)
    requires Replaceable(v, level, in0, in1, outputs)
    ensures Apart(v[level + 1] - in1 + outputs)
  {
    assert Apart(v[level + 1]);
    forall h, o | h in v[level + 1] - in1 && o in outputs ensures FileBefore(h, o) || FileBefore(o, h) {
      OutputAside(in0 + in1, outputs, h, o);
    }
  }

  lemma ReplacedEntries(v: Levels, level: nat, in0: set<File>, in1: set<File>, outputs: set<File>)
    requires |v| == NUM_LEVELS && level + 1 < NUM_LEVELS
    ensures AllEntries(Replaced(v, level, in0, in1, outputs)) ==
      Between(v, 0, level) + EntriesOf(v[level] - in0) + EntriesOf(v[level + 1] - in1) + EntriesOf(outputs) +
        Between(v, level + 2, NUM_LEVELS)
  {
    var w := Replaced(v, level, in0, in1, outputs);
    var r := Between(v, 0, level) + EntriesOf(v[level] - in0) + EntriesOf(v[level + 1] - in1) + EntriesOf(outputs) +
      Between(v, level + 2, NUM_LEVELS);
    forall e | e in AllEntries(w) ensures e in r {
      var i, f: File :| 0 <= i < |w| && f in w[i] && e in f.entries;
      if i == level { InEntriesOf(v[level] - in0, f, e); }
      else if i == level + 1 {
        if f in outputs { InEntriesOf(outputs, f, e); } else { InEntriesOf(v[level + 1] - in1, f, e); }
      }
    }
    forall e | e in r ensures e in AllEntries(w) {
      if e in EntriesOf(v[level] - in0) {
        var f :| f in v[level] - in0 && e in f.entries;
        InAll(w, level, f, e);
      } else if e in EntriesOf(v[level + 1] - in1) {
        var f :| f in v[level + 1] - in1 && e in f.entries;
        InAll(w, level + 1, f, e);
      } else if e in EntriesOf(outputs) {
        var f :| f in outputs && e in f.entries;
        InAll(w, level + 1, f, e);
      } else {
        var i, f :| 0 <= i < NUM_LEVELS && i != level && i != level + 1 && f in v[i] && e in f.entries;
        InAll(w, i, f, e);
      }
    }
  }

  lemma SplitEntries(v: Levels, level: nat, in0: set<File>, in1: set<File>)
    requires |v| == NUM_LEVELS && level + 1 < NUM_LEVELS && in0 <= v[level] && in1 <= v[level + 1]
    ensures AllEntries(v) ==
      Between(v, 0, level) + EntriesOf(v[level] - in0) + EntriesOf(v[level + 1] - in1) + EntriesOf(in0 + in1) +
        Between(v, level + 2, NUM_LEVELS)
  {
    var r := Between(v, 0, level) + EntriesOf(v[level] - in0) + EntriesOf(v[level + 1] - in1) + EntriesOf(in0 + in1) +
      Between(v, level + 2, NUM_LEVELS);
    forall e | e in AllEntries(v) ensures e in r {
      var i, f :| 0 <= i < |v| && f in v[i] && e in f.entries;
      if f in in0 + in1 { InEntriesOf(in0 + in1, f, e); }
      else if i == level { InEntriesOf(v[level] - in0, f, e); }
      else if i == level + 1 { InEntriesOf(v[level + 1] - in1, f, e); }
    }
    forall e | e in r ensures e in AllEntries(v) {
      if f :| f in in0 + in1 && e in f.entries {
        InAll(v, if f in in0 then level else level + 1, f, e);
      }
    }
  }

  lemma ReplacedDistinct(v: Levels, level: nat, in0: set<File>, in1: set<File>, outputs: set<File>)
    requires |v| == NUM_LEVELS && level + 1 < NUM_LEVELS && in0 <= v[level] && in1 <= v[level + 1]
    requires EntriesOf(outputs) <= EntriesOf(in0 + in1) && Distinct(AllEntries(v))
    ensures AllEntries(Replaced(v, level, in0, in1, outputs)) <= AllEntries(v)
    ensures Distinct(AllEntries(Replaced(v, level, in0, in1, outputs)))
  {
    ReplacedEntries(v, level, in0, in1, outputs);
    SplitEntries(v, level, in0, in1);
  }

  lemma ReplacedLevelZero(v: Levels, level: nat, in0: set<File>, in1: set<File>, outputs: set<File>)
    requires Replaceable(v, level, in0, in1, outputs)
    ensures NewestByNumber(Replaced(v, level, in0, in1, outputs)[0])
  {
    assert NewestByNumber(v[0]);
  }

  lemma ReplacedVersionOk(v: Levels, level: nat, in0: set<File>, in1: set<File>, outputs: set<File>)
    requires Replaceable(v, level, in0, in1, outputs)
    ensures VersionOk(Replaced(v, level, in0, in1, outputs))
  {
    var w := Replaced(v, level, in0, in1, outputs);
    forall i, j | 0 <= i < j < NUM_LEVELS ensures Newer(EntriesOf(w[i]), EntriesOf(w[j])) {
      ReplacedNewer(v, level, in0, in1, outputs, i, j);
    }
    forall i | 1 <= i < NUM_LEVELS ensures Apart(w[i]) {
      assert Apart(v[i]);
      if i == level + 1 { ReplacedApart(v, level, in0, in1, outputs); }
    }
    ReplacedLevelZero(v, level, in0, in1, outputs);
    ReplacedDistinct(v, level, in0, in1, outputs);
  }

  // Moving a file, installing outputs

  lemma MoveKeeps(a: Db, f: File, level: nat, b: Db)
    requires Inv(a) && StepMove(a, f, level, b)
    ensures Inv(b)
  {
    hide VersionOk, NumbersUnique, AllEntries, Connected, MeetsHull;
    MovedVersion(a.levels, f, level, b.levels);
    MovedNumbers(a.levels, level, f);
    assert b.All() == a.All();
    SameStored(a, b);
  }

  lemma MovedVersion(v: Levels, f: File, level: nat, w: Levels)
    requires VersionOk(v) && Picked(v, level, {f}, {})
    requires w == v[level := v[level] - {f}][level + 1 := v[level + 1] + {f}]
    ensures w == Replaced(v, level, {f}, {}, {f})
    ensures VersionOk(w) && AllEntries(w) == AllEntries(v)
  {
    assert v[level + 1] - {} + {f} == v[level + 1] + {f};
    LeftBehindNewer(v, level, {f});
    forall h | h in v[level + 1] - {} ensures Aside(h, {f} + {}) {
      OutsideAside(v, level, {f}, {}, h);
    }
    assert {f} + {} == {f};
    assert Replaceable(v, level, {f}, {}, {f});
    ReplacedVersionOk(v, level, {f}, {}, {f});
    ReplacedEntries(v, level, {f}, {}, {f});
    SplitEntries(v, level, {f}, {});
  }

  lemma MovedNumbers(v: Levels, level: nat, f: File)
    requires |v| == NUM_LEVELS && NumbersUnique(v) && level + 1 < NUM_LEVELS && f in v[level]
    ensures NumbersUnique(Replaced(v, level, {f}, {}, {f}))
  {
    var w := Replaced(v, level, {f}, {}, {f});
    forall i, j, x: File, y: File | 0 <= i < |w| && 0 <= j < |w| && x in w[i] && y in w[j] && x.number == y.number
      ensures i == j && x == y
    {
      assert x in v[if x == f then level else i] && y in v[if y == f then level else j];
    }
  }

  lemma BetweenNewer(v: Levels, lo: nat, hi: nat, j: nat)
    requires VersionOk(v) && lo <= hi <= NUM_LEVELS && j < NUM_LEVELS
    ensures hi <= j ==> Newer(Between(v, lo, hi), EntriesOf(v[j]))
    ensures j < lo ==> Newer(EntriesOf(v[j]), Between(v, lo, hi))
  {
    forall x, y | x in Between(v, lo, hi) && y in EntriesOf(v[j]) && x.ik.user == y.ik.user
      ensures hi <= j ==> x.ik.seqno > y.ik.seqno
      ensures j < lo ==> y.ik.seqno > x.ik.seqno
    {
      var i, f :| lo <= i < hi && f in v[i] && x in f.entries;
      InEntriesOf(v[i], f, x);
      if hi <= j {
        assert Newer(EntriesOf(v[i]), EntriesOf(v[j]));
      } else if j < lo {
        assert Newer(EntriesOf(v[j]), EntriesOf(v[i]));
      }
    }
  }

  /** The inputs of a running compaction are still in their levels. */
  ghost predicate InputsInPlace(v: Levels, c: Job) {
    |v| == NUM_LEVELS && c.level + 1 < NUM_LEVELS && c.in0 <= v[c.level] && c.in1 <= v[c.level + 1]
  }

  lemma JobEntries(v: Levels, c: Job, e: Entry)
    requires InputsInPlace(v, c) && e in c.Entries()
    ensures e in EntriesOf(c.in0) || e in EntriesOf(c.in1)
    ensures e in EntriesOf(c.in0) ==> e in EntriesOf(v[c.level])
    ensures e in EntriesOf(c.in1) ==> e in EntriesOf(v[c.level + 1])
    ensures e in AllEntries(v)
  {
    var f :| f in c.in0 + c.in1 && e in f.entries;
    if f in c.in0 { InAll(v, c.level, f, e); } else { InAll(v, c.level + 1, f, e); }
  }

  lemma LeftEntries(fs: set<File>, part: set<File>, e: Entry)
    requires e in EntriesOf(fs - part)
    ensures e in EntriesOf(fs)
  {
    var f :| f in fs - part && e in f.entries;
    InEntriesOf(fs, f, e);
  }

  lemma AboveNewer(v: Levels, c: Job, x: Entry, y: Entry)
    requires VersionOk(v) && InputsInPlace(v, c)
    requires Newer(EntriesOf(v[c.level] - c.in0), EntriesOf(c.in0))
    requires x in Between(v, 0, c.level) + EntriesOf(v[c.level] - c.in0) && y in c.Entries() && x.ik.user == y.ik.user
    ensures x.ik.seqno > y.ik.seqno
  {
    JobEntries(v, c, y);
    BetweenNewer(v, 0, c.level, c.level);
    BetweenNewer(v, 0, c.level, c.level + 1);
    if x in EntriesOf(v[c.level] - c.in0) {
      LeftEntries(v[c.level], c.in0, x);
      assert Newer(EntriesOf(v[c.level]), EntriesOf(v[c.level + 1]));
    }
  }

  lemma NewerBelow(v: Levels, c: Job, x: Entry, y: Entry)
    requires VersionOk(v) && InputsInPlace(v, c)
    requires x in EntriesOf(v[c.level + 1] - c.in1) + c.Entries()
    requires y in Between(v, c.level + 2, NUM_LEVELS) && x.ik.user == y.ik.user
    ensures x.ik.seqno > y.ik.seqno
  {
    BetweenNewer(v, c.level + 2, NUM_LEVELS, c.level);
    BetweenNewer(v, c.level + 2, NUM_LEVELS, c.level + 1);
    if x in c.Entries() {
      JobEntries(v, c, x);
    } else {
      LeftEntries(v[c.level + 1], c.in1, x);
    }
  }

  lemma AboveNewerBeside(v: Levels, c: Job, x: Entry, y: Entry)
    requires VersionOk(v) && InputsInPlace(v, c)
    requires x in Between(v, 0, c.level) + EntriesOf(v[c.level] - c.in0)
    requires y in EntriesOf(v[c.level + 1] - c.in1) && x.ik.user == y.ik.user
    ensures x.ik.seqno > y.ik.seqno
  {
    LeftEntries(v[c.level + 1], c.in1, y);
    BetweenNewer(v, 0, c.level, c.level + 1);
    if x in EntriesOf(v[c.level] - c.in0) {
      LeftEntries(v[c.level], c.in0, x);
      assert Newer(EntriesOf(v[c.level]), EntriesOf(v[c.level + 1]));
    }
  }

  lemma LevelsPlaced(v: Levels, c: Job)
    requires VersionOk(v) && InputsInPlace(v, c)
    requires Newer(EntriesOf(v[c.level] - c.in0), EntriesOf(c.in0))
    ensures Newer(Between(v, 0, c.level) + EntriesOf(v[c.level] - c.in0), c.Entries())
    ensures Newer(Between(v, 0, c.level) + EntriesOf(v[c.level] - c.in0), EntriesOf(v[c.level + 1] - c.in1))
    ensures Newer(EntriesOf(v[c.level + 1] - c.in1), Between(v, c.level + 2, NUM_LEVELS))
    ensures Newer(c.Entries(), Between(v, c.level + 2, NUM_LEVELS))
  {
    var above := Between(v, 0, c.level) + EntriesOf(v[c.level] - c.in0);
    var beside := EntriesOf(v[c.level + 1] - c.in1);
    var below := Between(v, c.level + 2, NUM_LEVELS);
    forall x, y | x in above && y in c.Entries() && x.ik.user == y.ik.user ensures x.ik.seqno > y.ik.seqno {
      AboveNewer(v, c, x, y);
    }
    forall x, y | x in above && y in beside && x.ik.user == y.ik.user ensures x.ik.seqno > y.ik.seqno {
      AboveNewerBeside(v, c, x, y);
    }
    forall x, y | x in beside + c.Entries() && y in below && x.ik.user == y.ik.user ensures x.ik.seqno > y.ik.seqno {
      NewerBelow(v, c, x, y);
    }
  }

  lemma InstalledPlaced(a: Db, c: Job)
    requires FromHistory(a) && InAgeOrder(a) && InputsInPlace(a.levels, c)
    requires Newer(EntriesOf(a.levels[c.level] - c.in0), EntriesOf(c.in0)) && BaseHolds(a.levels, c)
    ensures a.All() == Above(a, c) + Beside(a, c) + Below(a, c) + c.Entries()
    ensures Placed(c, Above(a, c), Beside(a, c), Below(a, c))
  {
    hide VersionOk, BaseHolds, Newer, EntriesOf, Between, FromHistory, Distinct, Placed;
    var v := a.levels;
    var above := Between(v, 0, c.level) + EntriesOf(v[c.level] - c.in0);
    SplitEntries(v, c.level, c.in0, c.in1);
    StoredDistinct(a);
    LevelsPlaced(v, c);
    assert Above(a, c) == a.mem + a.Imm() + above;
    assert a.All() == a.mem + a.Imm() + (above + Beside(a, c) + Below(a, c) + c.Entries());
    WholePlaced(v, c, a.mem, a.Imm(), above, Beside(a, c), Below(a, c));
  }

  lemma WholePlaced(v: Levels, c: Job, mem: set<Entry>, imm: set<Entry>, above: set<Entry>, beside: set<Entry>,
      below: set<Entry>)
    requires |v| == NUM_LEVELS && c.level + 2 <= NUM_LEVELS && below == Between(v, c.level + 2, NUM_LEVELS)
    requires BaseHolds(v, c)
    requires Newer(above, c.Entries()) && Newer(above, beside) && Newer(beside, below) && Newer(c.Entries(), below)
    requires Newer(mem, AllEntries(v)) && Newer(imm, AllEntries(v))
    requires AllEntries(v) == above + beside + below + c.Entries()
    requires Distinct(mem + imm + (above + beside + below + c.Entries()))
    ensures Placed(c, mem + imm + above, beside, below)
  {
    hide EntriesOf, Between;
    assert mem + imm + above + beside + below + c.Entries() == mem + imm + (above + beside + below + c.Entries());
  }

  lemma InstallKeeps(a: Db, outputs: set<File>, b: Db)
    requires Inv(a) && StepInstall(a, outputs, b)
    ensures Inv(b)
  {
    var c := a.job.value;
    InstalledVersion(a, c, outputs, b);
    InstalledNumbers(a, c, outputs, b);
    InstalledReads(a, c, outputs, b);
  }

  lemma InstalledLevels(v: Levels, oldest: nat, c: Job, outputs: set<File>)
    requires VersionOk(v) && JobOk(v, oldest, c) && EntriesOf(outputs) == c.Kept() && Apart(outputs)
    ensures VersionOk(Replaced(v, c.level, c.in0, c.in1, outputs))
    ensures AllEntries(Replaced(v, c.level, c.in0, c.in1, outputs)) <= AllEntries(v)
  {
    assert Replaceable(v, c.level, c.in0, c.in1, outputs);
    ReplacedVersionOk(v, c.level, c.in0, c.in1, outputs);
    ReplacedDistinct(v, c.level, c.in0, c.in1, outputs);
  }

  lemma InstalledVersion(a: Db, c: Job, outputs: set<File>, b: Db)
    requires FromHistory(a) && InAgeOrder(a) && JobOk(a.levels, a.Oldest(), c)
    requires OutputsOk(a, c, outputs) && b == Installed(a, c, outputs)
    ensures InAgeOrder(b) && FromHistory(b)
    ensures b.All() == Above(a, c) + Beside(a, c) + Below(a, c) + c.Kept()
  {
    assert b.levels == Replaced(a.levels, c.level, c.in0, c.in1, outputs);
    InstalledLevels(a.levels, a.Oldest(), c, outputs);
    FewerEntries(a, b);
    InstalledAll(a, c, outputs, b);
  }

  lemma InstalledAll(a: Db, c: Job, outputs: set<File>, b: Db)
    requires |a.levels| == NUM_LEVELS && c.level + 1 < NUM_LEVELS
    requires EntriesOf(outputs) == c.Kept() && b == Installed(a, c, outputs)
    ensures b.All() == Above(a, c) + Beside(a, c) + Below(a, c) + c.Kept()
  {
    assert b.levels == Replaced(a.levels, c.level, c.in0, c.in1, outputs);
    ReplacedEntries(a.levels, c.level, c.in0, c.in1, outputs);
  }

  lemma FewerEntries(a: Db, b: Db)
    requires FromHistory(a) && InAgeOrder(a)
    requires b == a.(levels := b.levels, job := b.job, pending := b.pending)
    requires VersionOk(b.levels) && AllEntries(b.levels) <= AllEntries(a.levels)
    ensures FromHistory(b) && InAgeOrder(b)
  {
  }

  lemma InstalledNumbers(a: Db, c: Job, outputs: set<File>, b: Db)
    requires NumbersOk(a) && InputsInPlace(a.levels, c) && OutputsOk(a, c, outputs) && b == Installed(a, c, outputs)
    ensures NumbersOk(b)
  {
  }

  lemma InstalledReads(a: Db, c: Job, outputs: set<File>, b: Db)
    requires FromHistory(a) && InAgeOrder(a) && JobOk(a.levels, a.Oldest(), c) && Faithful(a)
    requires !Uncovering(a, c) && b == Installed(a, c, outputs)
    requires b.All() == Above(a, c) + Beside(a, c) + Below(a, c) + c.Kept()
    ensures Faithful(b)
  {
    hide View, EntriesOf, Placed, Above, Beside, Below, InAgeOrder;
    InstalledPlaced(a, c);
    CompactionPreservesReads(c, Above(a, c), Beside(a, c), Below(a, c));
    forall k, s | b.Oldest() <= s <= b.lastSeq ensures View(b.All(), k, s) == SpecGet(b.hist, k, s) {
      assert SameReads(c, Above(a, c), Beside(a, c), Below(a, c), k, s);
    }
  }

  // Runs

  lemma StepKeeps(a: Db, ev: Event, b: Db)
    requires Inv(a) && Step(a, ev, b)
    ensures Inv(b)
  {
    match ev
    case BeginWrite(ops) => BeginWriteKeeps(a, ops, b);
    case InsertOne => InsertOneKeeps(a, b);
    case Publish => PublishKeeps(a, b);
    case SwitchMem => SwitchMemKeeps(a, b);
    case NewNumber => NewNumberKeeps(a, b);
    case Flush(file, to) => FlushKeeps(a, file, to, b);
    case Pick(level, in0, in1) => PickKeeps(a, level, in0, in1, b);
    case Move(moved, from) => MoveKeeps(a, moved, from, b);
    case Install(outputs) => InstallKeeps(a, outputs, b);
    case Abandon => AbandonKeeps(a, b);
    case TakeSnapshot => TakeSnapshotKeeps(a, b);
    case ReleaseSnapshot(index) => ReleaseSnapshotKeeps(a, index, b);
  }

  lemma InitInv(db: Db)
    requires Init(db)
    ensures Inv(db)
  {
    assert db.All() == {};
    forall k, s | 0 <= s <= 0 ensures View(db.All(), k, s) == SpecGet(db.hist, k, s) {
      ViewHidden(db.All(), k, s);
    }
  }

  ghost predicate Run(states: seq<Db>, events: seq<Event>) {
    && |states| == |events| + 1 && Init(states[0])
    && forall i :: 0 <= i < |events| ==> Step(states[i], events[i], states[i + 1])
  }

  lemma {:induction false} RunInv(states: seq<Db>, events: seq<Event>, n: nat)
    requires Run(states, events) && n < |states|
    ensures Inv(states[n])
  {
    if n == 0 {
      InitInv(states[0]);
    } else {
      RunInv(states, events, n - 1);
      StepKeeps(states[n - 1], events[n - 1], states[n]);
    }
  }

  /** In every reachable state a read at the last sequence number or at any snapshot in use
      returns the value of the last write of the key at or before it. */
  lemma ReadsAreCorrect(states: seq<Db>, events: seq<Event>, n: nat, k: int, s: nat)
    requires Run(states, events) && n < |states|
    requires s == states[n].lastSeq || s in states[n].snapshots
    ensures s <= |states[n].hist| && View(states[n].All(), k, s) == SpecGet(states[n].hist, k, s)
  {
    RunInv(states, events, n);
  }

  lemma {:induction false} HistoryGrows(states: seq<Db>, events: seq<Event>, i: nat, j: nat)
    requires Run(states, events) && i <= j < |states|
    ensures states[i].hist <= states[j].hist
  {
    if i < j {
      HistoryGrows(states, events, i, j - 1);
      assert Step(states[j - 1], events[j - 1], states[j]);
    }
  }

  /** Snapshot stability over whole runs: while a snapshot stays in use, a read at it returns
      what it returned when the snapshot was taken, whatever writes, flushes, moves and
      compactions come between. */
  lemma SnapshotStability(states: seq<Db>, events: seq<Event>, i: nat, j: nat, k: int, s: nat)
    requires Run(states, events) && i <= j < |states|
    requires s == states[i].lastSeq || s in states[i].snapshots
    requires s in states[j].snapshots
    ensures View(states[j].All(), k, s) == View(states[i].All(), k, s)
  {
    ReadsAreCorrect(states, events, i, k, s);
    ReadsAreCorrect(states, events, j, k, s);
    HistoryGrows(states, events, i, j);
    var h := states[i].hist;
    assert states[j].hist == h + states[j].hist[|h|..];
    SpecGetExtends(h, states[j].hist[|h|..], k, s);
  }

  lemma {:induction false} LastSeqGrows(states: seq<Db>, events: seq<Event>, i: nat, j: nat)
    requires Run(states, events) && i <= j < |states|
    ensures states[i].lastSeq <= states[j].lastSeq
  {
    if i < j {
      LastSeqGrows(states, events, i, j - 1);
      assert Step(states[j - 1], events[j - 1], states[j]);
    }
  }

  /** A snapshot in use is the last sequence number of some earlier state. */
  lemma {:induction false} SnapshotTakenAt(states: seq<Db>, events: seq<Event>, n: nat, s: nat) returns (j: nat)
    requires Run(states, events) && n < |states| && s in states[n].snapshots
    ensures j <= n && s == states[j].lastSeq
  {
    if n > 0 && s in states[n - 1].snapshots {
      j := SnapshotTakenAt(states, events, n - 1, s);
    } else {
      assert n > 0 ==> Step(states[n - 1], events[n - 1], states[n]);
      j := n;
    }
  }

  /** No snapshot exposes part of a batch: of the operations published together it sees all or
      none. */
  lemma SnapshotsSeeWholeBatches(states: seq<Db>, events: seq<Event>, i: nat, n: nat, s: nat)
    requires Run(states, events) && i < |events| && events[i].Publish? && n < |states| && s in states[n].snapshots
    ensures states[i + 1].hist == states[i].hist + states[i].group
    ensures s <= |states[i].hist| || s >= |states[i + 1].hist|
  {
    var j := SnapshotTakenAt(states, events, n, s);
    RunInv(states, events, i);
    RunInv(states, events, i + 1);
    assert Step(states[i], events[i], states[i + 1]);
    if j <= i { LastSeqGrows(states, events, j, i); } else { LastSeqGrows(states, events, i + 1, j); }
  }
}
