/** DBImpl (db/db_impl.cc): each method is a region the code runs under its mutex, and takes
    the store through the steps of the state machine. */
module DbImpl {
  import opened Format
  import opened Versions
  import opened VersionSet
  import opened CompactionPicker
  import opened CompactionSemantics
  import opened CompactionWork
  import opened Manifest
  import opened Lsm
  import opened LsmInvariant
  import opened Recovery
  import opened RecoveryProof
  import opened MemTable
  import opened RecoveryWork
  import opened WriteQueue
  import opened InternalIterator
  import opened DbIter

  /** The compaction under way, with the version it was picked from. */
  datatype Running = Running(inputs: Inputs, version: FileVectors, smallestSnapshot: nat) {
    ghost function ToJob(): Job {
      Job(inputs.level, FileSet(inputs.in0), FileSet(inputs.in1), Sets(version), smallestSnapshot)
    }
  }

  // Memtables

  /** A lookup that stops at the newer source reads what both show together. */
  lemma FirstHit(newer: set<Entry>, rest: set<Entry>, k: int, s: nat)
    requires Newer(newer, rest) && Distinct(newer + rest)
    ensures forall e :: IsVisible(newer, k, s, e) ==> View(newer + rest, k, s) == Result(e)
    ensures Hidden(newer, k, s) ==> View(newer + rest, k, s) == View(rest, k, s)
  {
    forall e | IsVisible(newer, k, s, e) ensures View(newer + rest, k, s) == Result(e) {
      assert IsVisible(newer + rest, k, s, e);
      ViewOf(newer + rest, k, s, e);
    }
    if Hidden(newer, k, s) {
      ViewDependsOn(newer + rest, rest, k, s);
    }
  }

  lemma PublishIsStep(a: Node, b: Node)
    requires a.db.writing && a.db.inserted == |a.db.group|
    requires b == a.(db := a.db.(writing := false, group := [], inserted := 0, lastSeq := a.db.lastSeq + |a.db.group|,
        hist := a.db.hist + a.db.group))
    ensures NodeStep(a, Publish, b)
  {
  }

  lemma SwitchIsStep(a: Node, b: Node)
    requires !a.db.writing && a.db.imm.None?
    requires b == a.(db := a.db.(imm := Some(a.db.mem), mem := {}, nextFile := a.db.nextFile + 1),
                     logs := a.logs[a.db.nextFile := []], immLog := a.logFile, logFile := a.db.nextFile)
    ensures NodeStep(a, SwitchMem, b)
  {
  }

  lemma EmptyIsSorted()
    ensures Sorted([]) && Elements([]) == {}
  {
  }

  // Versions

  ghost predicate NewNumbers(present: set<File>, added: set<File>) {
    NumbersName(added) && forall f, g :: f in present && g in added ==> f.number != g.number
  }

  lemma NumbersDistinguish(base: seq<File>, added: seq<File>)
    requires forall f, g :: f in FileSet(base) && g in FileSet(added) ==> f.number != g.number
    ensures Distinguishable(base, added)
  {
    forall f, g | f in base && g in added ensures BySmallestKey(f, g) || BySmallestKey(g, f) {
      assert f in FileSet(base) && g in FileSet(added);
    }
  }

  lemma ImmIsTable(es: seq<Entry>, a: Node)
    requires NodeInv(a) && a.db.imm == Some(Elements(es))
    ensures Storable(es)
  {
    forall e | e in es ensures e.ik.seqno <= MAX_SEQUENCE {
      assert e in a.db.Imm();
      assert Recorded(a.db.hist, a.db.lastSeq, e);
    }
  }

  ghost predicate Storable(es: seq<Entry>) {
    forall e :: e in es ==> e.ik.seqno <= MAX_SEQUENCE
  }

  /** BuildTable; the size of the encoded table is a parameter. */
  method BuildTable(number: nat, size: nat, es: seq<Entry>) returns (f: File)
    requires es != [] && Sorted(es) && Storable(es)
    ensures f == FileMetaData(number, size, es)
  {
    f := FileMetaData(number, size, es);
  }

  /** An edit without deletions whose only addition, if any, goes to one level. */
  lemma AddOnly(v: set<File>, e: Edit, l: nat)
    requires e.deleted == {} && |e.added| <= 1
    ensures AddedAt(e, l) == if |e.added| == 1 && e.added[0].0 == l then {e.added[0].1} else {}
    ensures DeletedAt(e, l) == {} && After(v, e, l) == v + AddedAt(e, l)
  {
  }

  /** The event and edit of a flush describe the table of the immutable memtable, if it has any
      entries, at a level it may go to. */
  ghost predicate FlushedTable(db: Db, ev: Event, e: Edit) {
    && db.imm.Some? && ev.Flush? && |db.levels| == NUM_LEVELS && ev.to <= MAX_MEM_COMPACT_LEVEL
    && match ev.file
       case None => db.imm.value == {} && e.added == []
       case Some(f) =>
         && e.added == [(ev.to, f)]
         && Elements(f.entries) == db.imm.value && f.number == db.nextFile
         && (ev.to > 0 ==> forall i :: 0 <= i <= ev.to ==>
           ClearLevel(db.levels[i], f.Smallest().user, f.Largest().user))
  }

  /** The edit of a flush adds at most one file, under a number that is new. */
  lemma FlushEditOk(a: Node, ev: Event, e: Edit)
    requires NodeInv(a) && FlushedTable(a.db, ev, e) && e.deleted == {}
    ensures EditOk(e) && ev.Flush?
    ensures forall l :: 0 <= l < NUM_LEVELS ==> NewNumbers(a.db.levels[l], AddedAt(e, l))
  {
  }

  /** The memtable's table and its edit, installed, are the flush step. */
  lemma FlushIsStep(a: Node, ev: Event, e: Edit, b: Node)
    requires NodeInv(a) && FlushedTable(a.db, ev, e)
    requires e == Edit({}, e.added, Some(a.logFile), Some(a.db.lastSeq), Some(a.db.nextFile + 1))
    requires b.db == a.db.(imm := None, nextFile := a.db.nextFile + 1, levels := b.db.levels)
    requires |b.db.levels| == NUM_LEVELS
    requires forall l :: 0 <= l < NUM_LEVELS ==> b.db.levels[l] == After(a.db.levels[l], e, l)
    requires b == Node(b.db, a.manifest + [e], map k | k in a.logs && k >= a.logFile :: a.logs[k], a.logFile, a.immLog)
    ensures NodeStep(a, ev, b)
  {
    forall l | 0 <= l < NUM_LEVELS
      ensures AddedAt(e, l) == b.db.levels[l] - a.db.levels[l]
      ensures DeletedAt(e, l) == Numbers(a.db.levels[l] - b.db.levels[l])
    {
      AddOnly(a.db.levels[l], e, l);
      NewFileNotThere(a.db, ev, l);
      assert a.db.levels[l] - b.db.levels[l] == {};
    }
    assert b.manifest[..|a.manifest|] == a.manifest;
    FlushLevels(a.db, ev, e, b.db);
  }

  lemma NewFileNotThere(db: Db, ev: Event, l: nat)
    requires NumbersOk(db) && ev.Flush? && l < |db.levels|
    ensures ev.file.Some? && ev.file.value.number == db.nextFile ==> ev.file.value !in db.levels[l]
  {
  }

  lemma FlushLevels(a: Db, ev: Event, e: Edit, b: Db)
    requires |a.levels| == |b.levels| == NUM_LEVELS && ev.Flush? && e.deleted == {}
    requires if ev.file.None? then e.added == [] else e.added == [(ev.to, ev.file.value)] && ev.to < NUM_LEVELS
    requires forall l :: 0 <= l < NUM_LEVELS ==> b.levels[l] == After(a.levels[l], e, l)
    ensures b.levels == if ev.file.None? then a.levels else a.levels[ev.to := a.levels[ev.to] + {ev.file.value}]
  {
    forall l | 0 <= l < NUM_LEVELS
      ensures b.levels[l] == if ev.file.Some? && l == ev.to then a.levels[l] + {ev.file.value} else a.levels[l]
    {
      AddOnly(a.levels[l], e, l);
      assert a.levels[l] + {} == a.levels[l];
    }
  }

  // Compactions

  lemma PickIsStep(a: Node, level: nat, in0: set<File>, in1: set<File>, b: Node)
    requires NodeInv(a) && a.db.job.None? && Picked(a.db.levels, level, in0, in1)
    requires b == a.(db := a.db.(job := Some(Job(level, in0, in1, a.db.levels, a.db.Oldest()))))
    ensures NodeStep(a, Pick(level, in0, in1), b)
  {
  }

  lemma SetsAre(v: FileVectors, w: Levels)
    requires |v| == |w| && forall l :: 0 <= l < |v| ==> FileSet(v[l]) == w[l]
    ensures Sets(v) == w
  {
  }

  lemma SetsLength(v: FileVectors)
    ensures |Sets(v)| == |v|
  {
  }

  lemma LogNumberAfter(m: seq<Edit>, e: Edit)
    requires e.logNumber.Some?
    ensures LogNumberOf(m + [e]) == e.logNumber.value
  {
  }

  lemma NewInVectors(v: FileVectors, e: Edit)
    requires |v| == NUM_LEVELS && |Sets(v)| == NUM_LEVELS && forall l :: 0 <= l < NUM_LEVELS ==>
        NewNumbers(Sets(v)[l], AddedAt(e, l))
    ensures forall l :: 0 <= l < NUM_LEVELS ==> NewNumbers(FileSet(v[l]), AddedAt(e, l))
  {
    forall l | 0 <= l < NUM_LEVELS ensures NewNumbers(FileSet(v[l]), AddedAt(e, l)) {
      assert Sets(v)[l] == FileSet(v[l]);
    }
  }

  lemma SetsAfter(v: FileVectors, w: FileVectors, e: Edit)
    requires |v| == |w| == NUM_LEVELS && forall l :: 0 <= l < NUM_LEVELS ==> FileSet(w[l]) == After(FileSet(v[l]), e, l)
    ensures |Sets(v)| == |Sets(w)| == NUM_LEVELS && forall l :: 0 <= l < NUM_LEVELS ==>
        Sets(w)[l] == After(Sets(v)[l], e, l)
  {
  }

  ghost predicate EditAdds(e: Edit, v: Levels, l: nat)
    requires l < |v|
  {
    NewNumbers(v[l], AddedAt(e, l))
  }

  /** An edit between two versions that brings in new numbers only turns one into the other. */
  lemma EditApplies(e: Edit, v: Levels, w: Levels)
    requires EditBetween(e, v, w) && NumbersUnique(v) && forall l :: 0 <= l < NUM_LEVELS ==> EditAdds(e, v, l)
    ensures forall l :: 0 <= l < NUM_LEVELS ==> After(v[l], e, l) == w[l]
  {
    forall l | 0 <= l < NUM_LEVELS ensures After(v[l], e, l) == w[l] {
      LevelNumbers(v, l);
      assert EditAdds(e, v, l);
      EditLeadsTo(e, v[l], w[l], l);
    }
  }

  ghost function Moved(v: Levels, f: File, level: nat): Levels
    requires level + 1 < |v|
  {
    v[level := v[level] - {f}][level + 1 := v[level + 1] + {f}]
  }

  lemma MoveEditOk(a: Node, f: File, level: nat, e: Edit, w: Levels)
    requires NodeInv(a) && level + 1 < NUM_LEVELS && f in a.db.levels[level] && w == Moved(a.db.levels, f, level)
    requires e.deleted == {(level, f.number)} && e.added == [(level + 1, f)]
    ensures EditOk(e) && EditBetween(e, a.db.levels, w)
    ensures forall l :: 0 <= l < NUM_LEVELS ==> EditAdds(e, a.db.levels, l) && After(a.db.levels[l], e, l) == w[l]
  {
    var v := a.db.levels;
    assert NumbersUnique(v);
    assert f !in v[level + 1];
    forall l | 0 <= l < NUM_LEVELS
      ensures AddedAt(e, l) == w[l] - v[l] && DeletedAt(e, l) == Numbers(v[l] - w[l]) && EditAdds(e, v, l)
    {
      MoveEditAt(e, f, level, l);
      if l == level {
        assert v[l] - w[l] == {f};
      } else {
        assert v[l] - w[l] == {};
      }
    }
    EditApplies(e, v, w);
  }

  lemma MoveEditAt(e: Edit, f: File, level: nat, l: nat)
    requires e.deleted == {(level, f.number)} && e.added == [(level + 1, f)]
    ensures AddedAt(e, l) == if l == level + 1 then {f} else {}
    ensures DeletedAt(e, l) == if l == level then {f.number} else {}
  {
    if l == level { assert (level, f.number) in e.deleted; }
    if l == level + 1 { assert e.added[0].0 == l && e.added[0].1 in AddedAt(e, l); }
  }

  lemma MoveIsStep(a: Node, f: File, level: nat, e: Edit, b: Node)
    requires NodeInv(a) && a.db.job.None? && Picked(a.db.levels, level, {f}, {})
    requires EditBetween(e, a.db.levels, Moved(a.db.levels, f, level)) && EditOk(e)
    requires e == Edit(e.deleted, e.added, Some(LogNumberOf(a.manifest)), Some(a.db.lastSeq), Some(a.db.nextFile))
    requires b == a.(db := a.db.(levels := Moved(a.db.levels, f, level)), manifest := a.manifest + [e])
    ensures NodeStep(a, Move(f, level), b)
  {
    assert b.manifest[..|a.manifest|] == a.manifest;
  }

  /** The numbers of the inputs, by level. */
  function InputDeletions(c: Inputs): set<(nat, nat)> {
    (set i | 0 <= i < |c.in0| :: (c.level, c.in0[i].number)) +
      (set i | 0 <= i < |c.in1| :: (c.level + 1, c.in1[i].number))
  }

  function AddedFiles(level: nat, files: seq<File>): seq<(nat, File)> {
    seq(|files|, i requires 0 <= i < |files| => (level, files[i]))
  }

  lemma InstallEditAt(c: Inputs, outputs: seq<File>, e: Edit, l: nat)
    requires e.deleted == InputDeletions(c) && e.added == AddedFiles(c.level + 1, outputs)
    ensures AddedAt(e, l) == if l == c.level + 1 then FileSet(outputs) else {}
    ensures DeletedAt(e, l) ==
      if l == c.level then Numbers(FileSet(c.in0)) else if l == c.level + 1 then Numbers(FileSet(c.in1)) else {}
  {
    if l == c.level + 1 {
      forall f | f in FileSet(outputs) ensures f in AddedAt(e, l) {
        var i :| 0 <= i < |outputs| && outputs[i] == f;
        assert e.added[i] == (c.level + 1, f);
      }
      forall n | n in Numbers(FileSet(c.in1)) ensures n in DeletedAt(e, l) {
        var i :| 0 <= i < |c.in1| && c.in1[i].number == n;
        assert (c.level + 1, n) in e.deleted;
      }
    }
    if l == c.level {
      forall n | n in Numbers(FileSet(c.in0)) ensures n in DeletedAt(e, l) {
        var i :| 0 <= i < |c.in0| && c.in0[i].number == n;
        assert (c.level, n) in e.deleted;
      }
    }
  }

  lemma InstallEditOk(v: Levels, c: Inputs, outputs: seq<File>, e: Edit, w: Levels)
    requires |v| == NUM_LEVELS && NumbersUnique(v) && c.level + 1 < NUM_LEVELS
    requires FileSet(c.in0) <= v[c.level] && FileSet(c.in1) <= v[c.level + 1]
    requires w == v[c.level := v[c.level] - FileSet(c.in0)][c.level + 1 := v[c.level + 1] - FileSet(c.in1) +
        FileSet(outputs)]
    requires NumbersName(FileSet(outputs)) && forall i, f, g :: 0 <= i < NUM_LEVELS && f in v[i] && g in outputs ==>
        f.number != g.number
    requires e.deleted == InputDeletions(c) && e.added == AddedFiles(c.level + 1, outputs)
    ensures EditOk(e) && EditBetween(e, v, w)
    ensures forall l :: 0 <= l < NUM_LEVELS ==> EditAdds(e, v, l) && After(v[l], e, l) == w[l]
  {
    forall l | 0 <= l < NUM_LEVELS
      ensures AddedAt(e, l) == w[l] - v[l] && DeletedAt(e, l) == Numbers(v[l] - w[l]) && EditAdds(e, v, l)
    {
      InstallEditAt(c, outputs, e, l);
      assert forall g :: g in FileSet(outputs) ==> g !in v[l];
      if l == c.level {
        assert v[l] - w[l] == FileSet(c.in0);
      } else if l == c.level + 1 {
        assert v[l] - w[l] == FileSet(c.in1);
        assert w[l] - v[l] == FileSet(outputs);
      } else {
        assert v[l] - w[l] == {};
      }
    }
    EditApplies(e, v, w);
  }

  /** Cutting a sorted sequence gives sorted tables in order. */
  lemma {:induction false} PieceOfJoined(outputs: seq<seq<Entry>>, i: nat)
    requires Sorted(Joined(outputs)) && i < |outputs|
    ensures Sorted(outputs[i])
    ensures forall x, y :: x in Joined(outputs[..i]) && y in outputs[i] ==> Precedes(x.ik, y.ik)
    ensures Joined(outputs[..i + 1]) == Joined(outputs[..i]) + outputs[i]
    ensures Elements(Joined(outputs[..i + 1])) <= Elements(Joined(outputs))
    decreases |outputs|
  {
    var init, last := outputs[..|outputs| - 1], outputs[|outputs| - 1];
    var all := Joined(outputs);
    assert all == Joined(init) + last;
    if i == |outputs| - 1 {
      assert outputs[..i + 1] == outputs;
      forall x: Entry, y: Entry | x in Joined(init) && y in last ensures Precedes(x.ik, y.ik) {
        var p :| 0 <= p < |Joined(init)| && Joined(init)[p] == x;
        var q :| 0 <= q < |last| && last[q] == y;
        assert all[p] == x && all[|Joined(init)| + q] == y;
      }
      forall p, q | 0 <= p < q < |last| ensures Precedes(last[p].ik, last[q].ik) {
        assert all[|Joined(init)| + p] == last[p] && all[|Joined(init)| + q] == last[q];
      }
    } else {
      forall p, q | 0 <= p < q < |Joined(init)| ensures Precedes(Joined(init)[p].ik, Joined(init)[q].ik) {
        assert all[p] == Joined(init)[p] && all[q] == Joined(init)[q];
      }
      PieceOfJoined(init, i);
      assert init[..i] == outputs[..i] && init[..i + 1] == outputs[..i + 1] && init[i] == outputs[i];
    }
  }

  /** The numbers of the outputs are pending and rise. */
  ghost predicate PendingNumbers(files: seq<File>, pending: set<nat>) {
    && (forall i :: 0 <= i < |files| ==> files[i].number in pending)
    && (forall i, j :: 0 <= i < j < |files| ==> files[i].number < files[j].number)
  }

  lemma PieceStorable(outputs: seq<seq<Entry>>, i: nat)
    requires i < |outputs| && Storable(Joined(outputs))
    requires Elements(Joined(outputs[..i + 1])) <= Elements(Joined(outputs))
    requires Joined(outputs[..i + 1]) == Joined(outputs[..i]) + outputs[i]
    ensures Storable(outputs[i])
  {
    forall e | e in outputs[i] ensures e.ik.seqno <= MAX_SEQUENCE {
      assert e in Elements(Joined(outputs[..i + 1]));
      assert e in Joined(outputs);
    }
  }

  lemma NoOutputs(outputs: seq<seq<Entry>>)
    ensures EntriesOf(FileSet([])) == Elements(Joined(outputs[..0])) && InOrder([])
  {
    assert outputs[..0] == [];
  }

  lemma OutputAppended(files: seq<File>, outputs: seq<seq<Entry>>, i: nat, f: File)
    requires i < |outputs| && f.entries == outputs[i] && InOrder(files)
    requires EntriesOf(FileSet(files)) == Elements(Joined(outputs[..i]))
    requires forall x, y :: x in Joined(outputs[..i]) && y in outputs[i] ==> Precedes(x.ik, y.ik)
    requires Joined(outputs[..i + 1]) == Joined(outputs[..i]) + outputs[i]
    ensures EntriesOf(FileSet(files + [f])) == Elements(Joined(outputs[..i + 1])) && InOrder(files + [f])
  {
    FileSetAppend(files, f);
    EntriesOfAdd(FileSet(files), f);
    FileEnds(f);
    forall j | 0 <= j < |files| ensures FileBefore(files[j], f) {
      FileEnds(files[j]);
      var last := files[j].entries[|files[j].entries| - 1];
      InEntriesOf(FileSet(files), files[j], last);
      assert last in Joined(outputs[..i]);
    }
  }

  lemma InOrderApart(files: seq<File>)
    requires InOrder(files)
    ensures Apart(FileSet(files))
  {
    forall f, g | f in FileSet(files) && g in FileSet(files) && f != g ensures FileBefore(f, g) || FileBefore(g, f) {
      var i :| 0 <= i < |files| && files[i] == f;
      var j :| 0 <= j < |files| && files[j] == g;
    }
  }

  lemma PendingNumbersName(files: seq<File>, pending: set<nat>)
    requires PendingNumbers(files, pending)
    ensures NumbersName(FileSet(files)) && forall f :: f in files ==> f.number in pending
  {
    forall f, g | f in FileSet(files) && g in FileSet(files) && f.number == g.number ensures f == g {
      var i :| 0 <= i < |files| && files[i] == f;
      var j :| 0 <= j < |files| && files[j] == g;
      assert !(i < j) && !(j < i);
    }
  }

  lemma InstallEdit(a: Node, c: Inputs, files: seq<File>, e: Edit)
    requires NodeInv(a) && a.db.job.Some? && PendingNumbers(files, a.db.pending)
    requires a.db.job.value.level == c.level && a.db.job.value.in0 == FileSet(c.in0)
    requires a.db.job.value.in1 == FileSet(c.in1)
    requires e.deleted == InputDeletions(c) && e.added == AddedFiles(c.level + 1, files)
    ensures c.level + 2 <= NUM_LEVELS == |a.db.levels| && EditOk(e)
    ensures EditBetween(e, a.db.levels, Installed(a.db, a.db.job.value, FileSet(files)).levels)
    ensures forall l :: 0 <= l < NUM_LEVELS ==>
      EditAdds(e, a.db.levels, l)
        && After(a.db.levels[l], e, l) == Installed(a.db, a.db.job.value, FileSet(files)).levels[l]
  {
    PendingNumbersName(files, a.db.pending);
    InstallEditOk(a.db.levels, c, files, e, Installed(a.db, a.db.job.value, FileSet(files)).levels);
  }

  lemma InstallIsStep(a: Node, c: Inputs, files: seq<File>, e: Edit, b: Node)
    requires NodeInv(a) && a.db.job.Some? && PendingNumbers(files, a.db.pending)
    requires EntriesOf(FileSet(files)) == a.db.job.value.Kept() && InOrder(files)
    requires |a.db.levels| == NUM_LEVELS && a.db.job.value.level + 2 <= NUM_LEVELS && !Uncovering(a.db, a.db.job.value)
    requires EditBetween(e, a.db.levels, Installed(a.db, a.db.job.value, FileSet(files)).levels) && EditOk(e)
    requires e == Edit(e.deleted, e.added, Some(LogNumberOf(a.manifest)), Some(a.db.lastSeq), Some(a.db.nextFile))
    requires b == a.(db := a.db.(job := None, levels := Installed(a.db, a.db.job.value, FileSet(files)).levels,
        pending := b.db.pending),
                     manifest := a.manifest + [e])
    requires b.db.pending == a.db.pending - (set i | 0 <= i < |files| :: files[i].number)
    ensures NodeStep(a, Install(FileSet(files)), b)
  {
    InOrderApart(files);
    PendingNumbersName(files, a.db.pending);
    assert (set i | 0 <= i < |files| :: files[i].number) == (set f | f in FileSet(files) :: f.number);
    assert b.manifest[..|a.manifest|] == a.manifest;
  }

  lemma SameUncovering(a: Db, b: Db, c: Job)
    requires c.level + 2 <= |a.levels| && b.levels == a.levels && b.mem == a.mem && b.imm == a.imm
    ensures Uncovering(a, c) <==> Uncovering(b, c)
  {
  }

  lemma InputStorable(a: Node, job: Job, input: seq<Entry>)
    requires NodeInv(a) && a.db.job == Some(job) && Elements(input) == job.Entries()
    ensures Storable(input) && job.smallest < MAX_SEQUENCE
  {
    forall e | e in input ensures e.ik.seqno <= MAX_SEQUENCE {
      assert e in Elements(input);
      JobEntries(a.db.levels, job, e);
      assert Recorded(a.db.hist, a.db.lastSeq, e);
    }
  }

  lemma KeptStorable(job: Job, input: seq<Entry>, kept: seq<Entry>)
    requires Storable(input) && Elements(input) == job.Entries() && Elements(kept) == job.Kept()
    ensures Storable(kept)
  {
    forall e | e in kept ensures e.ik.seqno <= MAX_SEQUENCE {
      assert e in Elements(kept) && e in Elements(input);
    }
  }

  // Opening

  /** WriteSnapshot: one edit that adds every file of the version. */
  function SnapshotEdit(v: FileVectors): Edit {
    Edit({}, LevelFiles(v, |v|), None, None, None)
  }

  function LevelFiles(v: FileVectors, n: nat): seq<(nat, File)>
    requires n <= |v|
  {
    if n == 0 then [] else LevelFiles(v, n - 1) + AddedFiles(n - 1, v[n - 1])
  }

  lemma {:induction false} LevelFilesAt(v: FileVectors, n: nat, l: nat, f: File)
    requires n <= |v|
    ensures (l, f) in LevelFiles(v, n) <==> l < n && f in v[l]
  {
    if n > 0 {
      LevelFilesAt(v, n - 1, l, f);
      assert (l, f) in AddedFiles(n - 1, v[n - 1]) <==> l == n - 1 && f in v[l] by {
        if l == n - 1 && f in v[l] {
          var i :| 0 <= i < |v[l]| && v[l][i] == f;
          assert AddedFiles(n - 1, v[n - 1])[i] == (l, f);
        }
      }
    }
  }

  lemma SnapshotEditOk(v: FileVectors, w: Levels)
    requires |v| == NUM_LEVELS && Sets(v) == w
    ensures EditOk(SnapshotEdit(v)) && EditBetween(SnapshotEdit(v), Empty(), w)
    ensures SnapshotEdit(v) == Edit({}, SnapshotEdit(v).added, None, None, None)
  {
    var e := SnapshotEdit(v);
    forall i | 0 <= i < |e.added| ensures e.added[i].0 < NUM_LEVELS {
      LevelFilesAt(v, |v|, e.added[i].0, e.added[i].1);
      assert (e.added[i].0, e.added[i].1) == e.added[i];
    }
    forall l | 0 <= l < NUM_LEVELS ensures AddedAt(e, l) == w[l] - {} && DeletedAt(e, l) == Numbers({} - w[l]) {
      forall f ensures f in AddedAt(e, l) <==> f in w[l] {
        LevelFilesAt(v, |v|, l, f);
        if f in w[l] {
          var i :| 0 <= i < |e.added| && e.added[i] == (l, f);
        }
        if f in AddedAt(e, l) {
          var i :| 0 <= i < |e.added| && e.added[i].0 == l && e.added[i].1 == f;
          assert e.added[i] == (l, f);
        }
      }
    }
  }

  /** The edit of a store being opened adds the replayed tables to level zero. */
  lemma OpenEditAt(e: Edit, files: seq<File>, l: nat)
    requires e.deleted == {} && e.added == AddedFiles(0, files)
    ensures AddedAt(e, l) == if l == 0 then FileSet(files) else {}
    ensures DeletedAt(e, l) == {}
  {
    if l == 0 {
      forall f | f in FileSet(files) ensures f in AddedAt(e, l) {
        var i :| 0 <= i < |files| && files[i] == f;
        assert e.added[i] == (0, f);
      }
    }
  }

  lemma OpenEdit(a: Node, m: seq<Edit>, base: FileVectors, files: seq<File>, slots: seq<Option<File>>, floor: nat,
      next: nat, e: Edit)
    requires ManifestOk(a.db, m) && m == a.manifest && |base| == NUM_LEVELS && Sets(base) == BaseLevels(m)
    requires FileSet(files) == TableSet(slots) && NumbersRise(slots, floor, next) && floor > NextFileOf(m)
    requires e.deleted == {} && e.added == AddedFiles(0, files)
    ensures EditOk(e) && forall l :: 0 <= l < NUM_LEVELS ==> NewNumbers(FileSet(base[l]), AddedAt(e, l))
    ensures EditBetween(e, BaseLevels(m), RecoveredLevels(m, slots))
  {
    BaseIsCurrent(a);
    var v, w := BaseLevels(m), RecoveredLevels(m, slots);
    TablesNamed(slots, floor, next);
    forall l | 0 <= l < NUM_LEVELS
      ensures NewNumbers(FileSet(base[l]), AddedAt(e, l)) && AddedAt(e, l) == w[l] - v[l]
      ensures DeletedAt(e, l) == Numbers(v[l] - w[l])
    {
      OpenEditAt(e, files, l);
      assert FileSet(base[l]) == Sets(base)[l] == v[l];
      forall f, g | f in v[l] && g in AddedAt(e, l) ensures f.number != g.number {
        CurrentNumbers(a, l, f);
      }
      assert v[l] - w[l] == {};
      assert AddedAt(e, l) !! v[l];
    }
  }

  lemma ManifestOf(a: Node)
    requires NodeInv(a)
    ensures ManifestOk(a.db, a.manifest)
  {
  }

  lemma OpenedLevels(now: FileVectors, base: FileVectors, m: seq<Edit>, e: Edit, files: seq<File>,
      slots: seq<Option<File>>)
    requires |now| == |base| == NUM_LEVELS && Sets(base) == BaseLevels(m) && FileSet(files) == TableSet(slots)
    requires e.deleted == {} && e.added == AddedFiles(0, files)
    requires forall l :: 0 <= l < NUM_LEVELS ==> FileSet(now[l]) == After(FileSet(base[l]), e, l)
    ensures Sets(now) == RecoveredLevels(m, slots)
  {
    forall l | 0 <= l < NUM_LEVELS ensures Sets(now)[l] == RecoveredLevels(m, slots)[l] {
      OpenEditAt(e, files, l);
      assert FileSet(base[l]) == Sets(base)[l];
    }
  }

  /** The opened store and its new manifest are what recovery must make. */
  lemma OpenIsRecovery(a: Node, numbers: seq<nat>, parts: seq<seq<Batch>>, slots: seq<Option<File>>, floor: nat,
      e0: Edit, e1: Edit, b: Node)
    requires ReplayOrder(a, numbers, Joined(parts)) && Rising(Joined(parts)) && Replayed(Joined(parts), parts, slots)
    requires NumbersRise(slots, floor, b.logFile) && NextFileOf(a.manifest) < floor <= b.logFile
    requires b.db.nextFile == b.logFile + 1
    requires EditOk(e0) && EditBetween(e0, Empty(), BaseLevels(a.manifest))
    requires EditOk(e1) && EditBetween(e1, BaseLevels(a.manifest), RecoveredLevels(a.manifest, slots))
    requires e0.logNumber == None && e0.lastSeq == None && e0.nextFile == None
    requires e1.logNumber == Some(b.logFile) && e1.lastSeq == Some(b.db.lastSeq) && e1.nextFile == Some(b.db.nextFile)
    requires b.db ==
        Db({}, None, RecoveredLevels(a.manifest, slots), [], Max(LastSeqOf(a.manifest), HighestOf(Joined(parts))),
                        false, [], 0, None, {}, b.db.nextFile, a.db.hist + a.db.group)
    requires b.logs == map[b.logFile := []] && b.manifest == [e0, e1]
    ensures Recovered(a, numbers, Joined(parts), parts, slots, b)
  {
    hide ReplayOrder, Rising, Replayed, EditBetween, RecoveredLevels, BaseLevels, EditOk;
  }

  lemma TablesNamed(slots: seq<Option<File>>, floor: nat, next: nat)
    requires NumbersRise(slots, floor, next)
    ensures NumbersName(TableSet(slots)) && forall f :: f in TableSet(slots) ==> floor <= f.number
  {
    forall f, g | f in TableSet(slots) && g in TableSet(slots) && f.number == g.number ensures f == g {
      var i :| 0 <= i < |slots| && slots[i].Some? && slots[i].value == f;
      var j :| 0 <= j < |slots| && slots[j].Some? && slots[j].value == g;
      assert !(i < j) && !(j < i);
    }
  }

  /** A key has a row if and only if the history gives it a value, and then it has that value. */
  ghost predicate KeySpelled(rows: seq<Entry>, hist: seq<Op>, s: nat, k: int)
    requires s <= |hist|
  {
    && (SpecGet(hist, k, s).Some? <==> exists r :: 0 <= r < |rows| && rows[r].ik.user == k)
    && forall r :: 0 <= r < |rows| && rows[r].ik.user == k ==> SpecGet(hist, k, s) == Some(rows[r].value)
  }

  ghost predicate RowsSpell(rows: seq<Entry>, hist: seq<Op>, s: nat)
    requires s <= |hist|
  {
    forall k :: KeySpelled(rows, hist, s, k)
  }

  lemma RowsMatch(es: seq<Entry>, db: Db, s: nat, k: int)
    requires Sorted(es) && Elements(es) == db.All() && s <= |db.hist| && View(db.All(), k, s) == SpecGet(db.hist, k, s)
    ensures KeySpelled(AllRows(es, s), db.hist, s, k)
  {
    RowsAreReads(es, s, k);
  }

  lemma AgesJoin(mem: set<Entry>, imm: set<Entry>, files: set<Entry>)
    requires Newer(mem, imm) && Newer(mem + imm, files) && Distinct(mem + imm + files)
    ensures Newer(mem, imm + files) && Newer(imm, files) && Distinct(mem + (imm + files)) && Distinct(imm + files)
  {
  }

  /** The ages of what is stored, and that it reads as the history says. */
  lemma StoredAges(a: Node, s: nat)
    requires NodeInv(a) && (s == a.db.lastSeq || s in a.db.snapshots)
    ensures Newer(a.db.mem, a.db.Imm()) && Newer(a.db.mem + a.db.Imm(), AllEntries(a.db.levels)) && Distinct(a.db.All())
    ensures s <= |a.db.hist| && forall k :: View(a.db.All(), k, s) == SpecGet(a.db.hist, k, s)
  {
    StoredDistinct(a.db);
  }

  class DB {
    var mem: seq<Entry>
    var imm: Option<seq<Entry>>
    var levels: FileVectors
    var snapshots: seq<nat>
    var lastSequence: nat
    var writing: bool
    var group: seq<Op>
    var inserted: nat
    var running: Option<Running>
    var pendingOutputs: set<nat>
    var nextFileNumber: nat
    var manifest: seq<Edit>
    var logs: map<nat, seq<Batch>>
    var logfileNumber: nat
    var immLog: nat
    ghost var hist: seq<Op>

    ghost function State(): Node
      reads this
    {
      Node(Db(Elements(mem), if imm.Some? then Some(Elements(imm.value)) else None, Sets(levels), snapshots,
              lastSequence, writing, group, inserted, if running.Some? then Some(running.value.ToJob()) else None,
              pendingOutputs, nextFileNumber, hist),
           manifest, logs, logfileNumber, immLog)
    }

    ghost predicate Shape()
      reads this
    {
      && Sorted(mem) && (imm.Some? ==> Sorted(imm.value))
      && |levels| == NUM_LEVELS
      && (forall l :: 0 <= l < NUM_LEVELS ==> SortedBySmallest(levels[l]))
      && (running.Some? ==> VectorsOk(running.value.version) && InputsOk(running.value.version, running.value.inputs))
    }

    ghost predicate Valid()
      reads this
    {
      Shape() && NodeInv(State())
    }

    lemma VectorsAreOk()
      requires Valid()
      ensures VectorsOk(levels)
    {
      var v := Sets(levels);
      forall i | 1 <= i < NUM_LEVELS ensures InOrder(levels[i]) {
        assert v[i] == FileSet(levels[i]) && Apart(v[i]);
        SortedApartInOrder(levels[i]);
      }
      SortedNoRepeats(levels[0]);
    }

    /** A new store: an empty version in the manifest and an empty log. */
    constructor ()
      ensures Valid() && hist == [] && NewStore(State())
    {
      mem, imm, levels, snapshots, lastSequence := [], None, seq(NUM_LEVELS, i => []), [], 0;
      writing, group, inserted, running, pendingOutputs, nextFileNumber := false, [], 0, None, {}, 4;
      manifest := [Edit({}, [], Some(0), Some(0), Some(4))];
      logs, logfileNumber, immLog, hist := map[3 := []], 3, 0, [];
      new;
      assert forall i :: 0 <= i < NUM_LEVELS ==> FileSet(levels[i]) == {};
      assert Sets(levels) == seq(NUM_LEVELS, i => {});
      assert Elements(mem) == {};
      NewStoreOk(State());
    }

    /** Opening the store on the manifest and the logs a crash left behind: the history before
        the crash, with a batch whose record was complete, is there again. `full` says after
        which records of which log the memtable is flushed early. */
    constructor Open(ghost before: Node, m: seq<Edit>, files: map<nat, seq<Batch>>, full: (nat, nat) -> bool, size: nat)
      requires NodeInv(before) && m == before.manifest && files == before.logs
      ensures Valid() && hist == before.db.hist + before.db.group
      ensures exists numbers, live, parts, tables :: Recovered(before, numbers, live, parts, tables, State())
    {
      hide NodeInv, Recovered, ManifestOk, Rising, HighestOf, BaseLevels, RecoveredLevels, ReplayOrder, EditBetween,
          EditOk, Replayed, NumbersRise, NewNumbers, SnapshotEdit;
      var version, replay, last, numbers := RecoverStore(before, m, files, full, size);
      var newLogNumber := replay.nextFileNumber;
      mem, imm, levels, snapshots, lastSequence := [], None, version, [], last;
      writing, group, inserted, running, pendingOutputs, nextFileNumber := false, [], 0, None, {}, newLogNumber + 1;
      manifest := [SnapshotEdit(version)];
      logs, logfileNumber, immLog := map[newLogNumber := []], newLogNumber, 0;
      hist := before.db.hist + before.db.group;
      new;
      var e := Edit({}, AddedFiles(0, replay.added), Some(logfileNumber), Some(lastSequence), Some(nextFileNumber));
      ManifestOf(before);
      OpenEdit(before, m, version, replay.added, replay.slots, replay.floor, newLogNumber, e);
      LogAndApply(e);
      OpenedLevels(levels, version, m, e, replay.added, replay.slots);
      SnapshotEditOk(version, BaseLevels(m));
      OpenIsRecovery(before, numbers, replay.parts, replay.slots, replay.floor, SnapshotEdit(version), e, State());
      RecoveryKeeps(before, numbers, Joined(replay.parts), replay.parts, replay.slots, State());
    }

    lemma CurrentLog()
      requires Valid()
      ensures logfileNumber in logs && |Sets(levels)| == NUM_LEVELS
    {
    }

    // Reads

    /** Get: the memtable, the immutable memtable, then the version, stopping at the first
        that knows the key, returns the last write at or before the snapshot. */
    method Get(key: int, snapshot: Option<nat>) returns (value: Option<string>)
      requires Valid() && (snapshot.Some? ==> snapshot.value in snapshots)
      ensures var s := if snapshot.Some? then snapshot.value else lastSequence;
        s <= |hist| && value == SpecGet(hist, key, s)
    {
      hide NodeInv, Newer, VectorsOk, AllEntries, View, SpecGet, Distinct;
      var s := if snapshot.Some? then snapshot.value else lastSequence;
      ghost var db := State().db;
      ghost var files := AllEntries(db.levels);
      StoredAges(State(), s);
      AgesJoin(db.mem, db.Imm(), files);
      assert View(db.All(), key, s) == SpecGet(hist, key, s);
      FirstHit(db.mem, db.Imm() + files, key, s);
      assert db.All() == db.mem + (db.Imm() + files);
      var saver := TableGet(mem, key, s);
      TableGetVisible(mem, key, s);
      if !saver.NotFound? {
        return ResultOf(saver);
      }
      FirstHit(db.Imm(), files, key, s);
      if imm.Some? {
        saver := TableGet(imm.value, key, s);
        TableGetVisible(imm.value, key, s);
        if !saver.NotFound? {
          return ResultOf(saver);
        }
      }
      VectorsAreOk();
      value := VersionSet.Get(levels, key, s);
    }

    /** NewIterator: a cursor whose rows are the keys with a value at the snapshot, each with the
        value the history says it has. */
    method NewIterator(snapshot: Option<nat>) returns (it: DBIter)
      requires Valid() && (snapshot.Some? ==> snapshot.value in snapshots)
      ensures fresh(it) && fresh(it.iter) && it.Valid() && !it.valid
      ensures it.sequence == if snapshot.Some? then snapshot.value else lastSequence
      ensures it.sequence <= |hist| && RowsSpell(it.Shown(), hist, it.sequence)
    {
      hide NodeInv, VectorsOk, KeySpelled;
      var s := if snapshot.Some? then snapshot.value else lastSequence;
      ghost var db := State().db;
      StoredAges(State(), s);
      VectorsAreOk();
      var iter := NewInternalIterator(mem, imm, levels);
      it := new DBIter(iter, s);
      assert Elements(iter.merged) == db.All();
      forall k ensures KeySpelled(it.Shown(), hist, s, k) {
        RowsMatch(iter.merged, db, s, k);
      }
    }

    method GetSnapshot() returns (s: nat)
      requires Valid()
      modifies this`snapshots
      ensures Valid() && s == lastSequence && snapshots == old(snapshots) + [s]
      ensures NodeStep(old(State()), TakeSnapshot, State())
    {
      hide NodeInv;
      s := lastSequence;
      snapshots := snapshots + [s];
      NodeStepKeeps(old(State()), TakeSnapshot, State());
    }

    method ReleaseSnapshot(index: nat)
      requires Valid() && index < |snapshots|
      modifies this`snapshots
      ensures Valid() && snapshots == old(snapshots)[..index] + old(snapshots)[index + 1..]
      ensures NodeStep(old(State()), Event.ReleaseSnapshot(index), State())
    {
      hide NodeInv;
      snapshots := snapshots[..index] + snapshots[index + 1..];
      NodeStepKeeps(old(State()), Event.ReleaseSnapshot(index), State());
    }

    // Writes

    /** Logs a batch under the next sequence numbers. */
    method LogBatch(ops: seq<Op>)
      requires Valid() && !writing && lastSequence + |ops| < MAX_SEQUENCE
      modifies this`logs, this`writing, this`group, this`inserted
      ensures Valid() && NodeStep(old(State()), BeginWrite(ops), State())
      ensures writing && group == ops && inserted == 0
    {
      hide NodeInv;
      CurrentLog();
      logs := logs[logfileNumber := logs[logfileNumber] + [Batch(lastSequence + 1, ops)]];
      writing, group, inserted := true, ops, 0;
      NodeStepKeeps(old(State()), BeginWrite(ops), State());
    }

    /** Inserts the next operation of the batch into the memtable. */
    method InsertNext()
      requires Valid() && writing && inserted < |group|
      modifies this`mem, this`inserted
      ensures Valid() && inserted == old(inserted) + 1
      ensures NodeStep(old(State()), InsertOne, State())
    {
      hide NodeInv;
      var e := EntryOf(group[inserted], lastSequence + inserted + 1);
      NotYetInserted(e);
      mem := Add(mem, e);
      inserted := inserted + 1;
      NodeStepKeeps(old(State()), InsertOne, State());
    }

    lemma NotYetInserted(e: Entry)
      requires Valid() && writing && inserted < |group| && e == EntryOf(group[inserted], lastSequence + inserted + 1)
      ensures forall x :: x in mem && x.ik.user == e.ik.user ==> x.ik.seqno != e.ik.seqno
    {
      forall x | x in mem ensures x.ik.seqno < e.ik.seqno {
        assert x in Elements(mem);
        assert Recorded(hist + group, lastSequence + inserted, x);
      }
    }

    method PublishBatch()
      requires Valid() && writing && inserted == |group|
      modifies this`writing, this`group, this`inserted, this`lastSequence, this`hist
      ensures Valid() && NodeStep(old(State()), Publish, State())
      ensures !writing && hist == old(hist) + old(group) && lastSequence == old(lastSequence) + |old(group)|
    {
      hide NodeInv, NodeStep, Sorted, SortedBySmallest, VectorsOk, InputsOk;
      ghost var a := State();
      hist, lastSequence := hist + group, lastSequence + |group|;
      writing, group, inserted := false, [], 0;
      PublishIsStep(a, State());
      NodeStepKeeps(a, Publish, State());
    }

    /** A whole write: the operations become the next entries of the history, all at once for
        readers, since only the last step moves the last sequence number. */
    method Write(ops: seq<Op>)
      requires Valid() && !writing && lastSequence + |ops| < MAX_SEQUENCE
      modifies this`logs, this`writing, this`group, this`inserted, this`mem, this`lastSequence, this`hist
      ensures Valid() && !writing && hist == old(hist) + ops && lastSequence == old(lastSequence) + |ops|
    {
      hide NodeInv, NodeStep;
      LogBatch(ops);
      while inserted < |group|
        invariant Valid() && writing && group == ops && inserted <= |group|
        invariant hist == old(hist) && lastSequence == old(lastSequence)
      {
        InsertNext();
      }
      PublishBatch();
    }

    /** The history is what the groups of the queue wrote, in order. */
    ghost predicate Serves(q: Queue)
      reads this, q
    {
      hist == Written(q.groups, |q.groups|) && lastSequence == q.lastSequence
    }

    /** The writer in charge writes its group and comes back to answer it. */
    method CommitGroup(q: Queue)
      requires Valid() && q.Valid() && Serves(q) && !writing && q.inFlight.Some?
      requires lastSequence + |q.inFlight.value.1| < MAX_SEQUENCE
      modifies q, this`logs, this`writing, this`group, this`inserted, this`mem, this`lastSequence, this`hist
      ensures Valid() && q.Valid() && Serves(q) && !writing && q.inFlight.None?
      ensures hist == old(hist) + old(q.inFlight).value.1
      ensures |q.groups| == |old(q.groups)| + 1 && q.groups[..|old(q.groups)|] == old(q.groups)
      ensures q.groups[|old(q.groups)|].status.OK?
    {
      hide NodeInv;
      ghost var groups := q.groups;
      Write(q.inFlight.value.1);
      q.EndGroup(OK);
      GroupsPrefix(groups, q.groups[|groups|], |groups|);
    }

    /** A new log under the next number; the memtable becomes the immutable one. */
    method NewMemtable()
      modifies this`mem, this`imm, this`logs, this`logfileNumber, this`immLog, this`nextFileNumber
      ensures mem == [] && imm == Some(old(mem)) && logs == old(logs)[old(nextFileNumber) := []]
      ensures logfileNumber == old(nextFileNumber) && immLog == old(logfileNumber)
      ensures nextFileNumber == old(nextFileNumber) + 1
    {
      var newLogNumber := nextFileNumber;
      nextFileNumber := newLogNumber + 1;
      logs := logs[newLogNumber := []];
      immLog, logfileNumber := logfileNumber, newLogNumber;
      imm, mem := Some(mem), [];
    }

    /** MakeRoomForWrite's switch to a new memtable and log. */
    method SwitchMemtable()
      requires Valid() && !writing && imm.None?
      modifies this`mem, this`imm, this`logs, this`logfileNumber, this`immLog, this`nextFileNumber
      ensures Valid() && NodeStep(old(State()), SwitchMem, State())
    {
      hide NodeInv, NodeStep, Sorted, SortedBySmallest, VectorsOk, InputsOk, Sets, Elements, Running.ToJob;
      ghost var a := State();
      EmptyIsSorted();
      NewMemtable();
      ghost var b := State();
      assert b.db == a.db.(imm := Some(a.db.mem), mem := {}, nextFile := a.db.nextFile + 1);
      SwitchIsStep(a, b);
      NodeStepKeeps(a, SwitchMem, b);
    }

    method NewOutputNumber() returns (n: nat)
      requires Valid()
      modifies this`pendingOutputs, this`nextFileNumber
      ensures Valid() && n == old(nextFileNumber) && pendingOutputs == old(pendingOutputs) + {n}
      ensures nextFileNumber == old(nextFileNumber) + 1
      ensures NodeStep(old(State()), NewNumber, State())
    {
      hide NodeInv;
      n := nextFileNumber;
      pendingOutputs := pendingOutputs + {n};
      nextFileNumber := nextFileNumber + 1;
      NodeStepKeeps(old(State()), NewNumber, State());
    }

    // Versions

    /** Makes the edit's version current and appends the edit to the manifest. */
    method LogAndApply(e: Edit)
      requires |levels| == NUM_LEVELS && EditOk(e)
      requires forall l :: 0 <= l < NUM_LEVELS ==>
          SortedBySmallest(levels[l]) && NewNumbers(FileSet(levels[l]), AddedAt(e, l))
      modifies this`levels, this`manifest
      ensures |levels| == NUM_LEVELS && manifest == old(manifest) + [e]
      ensures forall l :: 0 <= l < NUM_LEVELS ==>
          SortedBySmallest(levels[l]) && FileSet(levels[l]) == After(FileSet(old(levels)[l]), e, l)
    {
      var builder := new Builder();
      assert forall l :: 0 <= l < NUM_LEVELS ==> {} + AddedAt(e, l) == AddedAt(e, l);
      builder.ApplyEdit(e);
      forall l | 0 <= l < NUM_LEVELS ensures Distinguishable(levels[l], builder.added[l]) {
        assert FileSet(builder.added[l]) == builder.State(l).added == AddedAt(e, l);
        NumbersDistinguish(levels[l], builder.added[l]);
      }
      levels := builder.SaveTo(levels);
      manifest := manifest + [e];
    }

    method DeleteObsoleteLogs()
      modifies this`logs
      ensures logs == map k | k in old(logs) && k >= LogNumberOf(manifest) :: old(logs)[k]
    {
      logs := map k | k in logs && k >= LogNumberOf(manifest) :: logs[k];
    }

    /** WriteLevel0Table: the table of the immutable memtable, under the next file number, at
        the level picked for it. */
    method WriteLevel0Table(targetFileSize: nat, tableSize: nat) returns (e: Edit, ghost ev: Event)
      requires Valid() && imm.Some?
      ensures FlushedTable(State().db, ev, e)
      ensures e == Edit({}, e.added, Some(logfileNumber), Some(lastSequence), Some(nextFileNumber + 1))
    {
      hide NodeInv;
      CurrentLog();
      e := Edit({}, [], Some(logfileNumber), Some(lastSequence), Some(nextFileNumber + 1));
      if imm.value == [] {
        ev := Flush(None, 0);
      } else {
        ImmIsTable(imm.value, State());
        var f := BuildTable(nextFileNumber, tableSize, imm.value);
        FileEnds(f);
        VectorsAreOk();
        var level := PickLevelForMemTableOutput(levels, f.Smallest().user, f.Largest().user, targetFileSize);
        e := e.(added := [(level, f)]);
        ev := Flush(Some(f), level);
      }
    }

    /** The version and the manifest gain the edit, and the logs before the current one go. */
    method ReplaceImm(e: Edit)
      requires |levels| == NUM_LEVELS && EditOk(e) && e.logNumber.Some?
      requires forall l :: 0 <= l < NUM_LEVELS ==>
          SortedBySmallest(levels[l]) && NewNumbers(FileSet(levels[l]), AddedAt(e, l))
      modifies this`imm, this`levels, this`nextFileNumber, this`manifest, this`logs
      ensures imm.None? && nextFileNumber == old(nextFileNumber) + 1 && manifest == old(manifest) + [e]
      ensures |levels| == NUM_LEVELS && forall l :: 0 <= l < NUM_LEVELS ==> SortedBySmallest(levels[l])
      ensures |Sets(levels)| == |Sets(old(levels))| == NUM_LEVELS
      ensures forall l :: 0 <= l < NUM_LEVELS ==> Sets(levels)[l] == After(Sets(old(levels))[l], e, l)
      ensures logs == map k | k in old(logs) && k >= e.logNumber.value :: old(logs)[k]
    {
      hide EditOk, NewNumbers, SortedBySmallest, After, AddedAt, Sets, LogNumberOf;
      nextFileNumber := nextFileNumber + 1;
      LogAndApply(e);
      SetsAfter(old(levels), levels, e);
      imm := None;
      LogNumberAfter(old(manifest), e);
      DeleteObsoleteLogs();
    }

    /** Replaces the immutable memtable by its table. */
    method CompactMemTable(targetFileSize: nat, tableSize: nat) returns (ghost ev: Event)
      requires Valid() && imm.Some?
      modifies this`imm, this`levels, this`nextFileNumber, this`manifest, this`logs
      ensures Valid() && ev.Flush? && NodeStep(old(State()), ev, State())
    {
      hide NodeInv, NodeStep, FlushedTable, NewNumbers, EditOk, SortedBySmallest, Sorted, VectorsOk, InputsOk, After,
          AddedAt, FileSet, Elements, Sets, Running.ToJob, LogNumberOf;
      ghost var a := State();
      var e;
      e, ev := WriteLevel0Table(targetFileSize, tableSize);
      FlushEditOk(a, ev, e);
      SetsLength(levels);
      NewInVectors(levels, e);
      ReplaceImm(e);
      ghost var b := State();
      assert b.db == a.db.(imm := None, nextFile := a.db.nextFile + 1, levels := b.db.levels);
      FlushIsStep(a, ev, e, b);
      NodeStepKeeps(a, ev, b);
    }

    // Compactions

    /** Picks a compaction and starts it, or moves its only file down when that is all. */
    method StartCompaction(sizeLevel: Option<nat>, compactPointer: Option<IKey>, seekFile: Option<File>,
        seekLevel: nat, targetFileSize: nat)
      returns (ghost ev: Option<Event>)
      requires Valid() && running.None?
      requires sizeLevel.Some? ==> sizeLevel.value + 1 < NUM_LEVELS && levels[sizeLevel.value] != []
      requires seekFile.Some? ==> seekLevel + 1 < NUM_LEVELS && seekFile.value in levels[seekLevel]
      modifies this`running, this`levels, this`manifest
      ensures Valid()
      ensures ev.None? ==> State() == old(State())
      ensures ev.Some? ==> (ev.value.Pick? || ev.value.Move?) && NodeStep(old(State()), ev.value, State())
    {
      hide NodeInv, NodeStep;
      VectorsAreOk();
      var picked := PickCompaction(levels, sizeLevel, compactPointer, seekFile, seekLevel, targetFileSize);
      if picked.None? {
        return None;
      }
      var c := picked.value;
      if IsTrivialMove(c, targetFileSize) {
        var e := MoveToNextLevel(c);
        ev := Some(e);
      } else {
        ghost var a := State();
        running := Some(Running(c, levels, if snapshots == [] then lastSequence else snapshots[0]));
        ev := Some(Pick(c.level, FileSet(c.in0), FileSet(c.in1)));
        PickIsStep(a, c.level, FileSet(c.in0), FileSet(c.in1), State());
        NodeStepKeeps(a, ev.value, State());
      }
    }

    method MoveToNextLevel(c: Inputs) returns (ghost ev: Event)
      requires Valid() && running.None? && InputsOk(levels, c) && |c.in0| == 1 && c.in1 == []
      modifies this`levels, this`manifest
      ensures Valid() && ev == Move(c.in0[0], c.level) && NodeStep(old(State()), ev, State())
    {
      hide NodeInv, NodeStep;
      ghost var a := State();
      var f, level := c.in0[0], c.level;
      assert c.in0 == [f];
      assert FileSet(c.in0) == {f} && FileSet(c.in1) == {};
      ev := Move(f, level);
      var e := Edit({(level, f.number)}, [(level + 1, f)], Some(LogNumberOf(manifest)), Some(lastSequence),
        Some(nextFileNumber));
      ghost var w := Moved(a.db.levels, f, level);
      MoveEditOk(a, f, level, e, w);
      LogAndApply(e);
      SetsAre(levels, w);
      MoveIsStep(a, f, level, e, State());
      NodeStepKeeps(a, ev, State());
    }

    /** Builds a table for each piece of the output, under new numbers that stay pending. */
    method BuildOutputs(outputs: seq<seq<Entry>>, sizeOf: seq<Entry> -> nat) returns (files: seq<File>)
      requires Valid() && Sorted(Joined(outputs)) && Storable(Joined(outputs))
      requires forall o :: o in outputs ==> o != []
      modifies this`pendingOutputs, this`nextFileNumber
      ensures Valid()
      ensures EntriesOf(FileSet(files)) == Elements(Joined(outputs)) && InOrder(files)
      ensures PendingNumbers(files, pendingOutputs)
    {
      hide NodeInv, NodeStep, Sorted, Joined, Storable, InOrder, EntriesOf;
      files := [];
      NoOutputs(outputs);
      for i := 0 to |outputs|
        invariant Valid()
        invariant EntriesOf(FileSet(files)) == Elements(Joined(outputs[..i])) && InOrder(files)
        invariant PendingNumbers(files, pendingOutputs)
        invariant forall j :: 0 <= j < |files| ==> files[j].number < nextFileNumber
      {
        PieceOfJoined(outputs, i);
        PieceStorable(outputs, i);
        assert outputs[i] in outputs;
        var number := NewOutputNumber();
        var f := BuildTable(number, sizeOf(outputs[i]), outputs[i]);
        OutputAppended(files, outputs, i, f);
        files := files + [f];
      }
      assert outputs[..|outputs|] == outputs;
    }

    /** InstallCompactionResults: the outputs replace the inputs in the version and the
        manifest. The compaction must not uncover a value it leaves beside its inputs. */
    method InstallCompactionResults(files: seq<File>)
      requires Valid() && running.Some?
      requires EntriesOf(FileSet(files)) == running.value.ToJob().Kept() && InOrder(files)
      requires PendingNumbers(files, pendingOutputs)
      requires |Sets(levels)| == NUM_LEVELS && running.value.inputs.level + 2 <= NUM_LEVELS
      requires !Uncovering(State().db, running.value.ToJob())
      modifies this`running, this`levels, this`manifest, this`pendingOutputs
      ensures Valid() && running.None?
      ensures NodeStep(old(State()), Install(FileSet(files)), State())
      ensures State().db.levels == Installed(old(State()).db, old(running).value.ToJob(), FileSet(files)).levels
    {
      hide NodeInv, NodeStep, Uncovering, VectorsOk, InputsOk, EditBetween, PendingNumbers, NewNumbers, EditOk,
          SortedBySmallest, InOrder, Sorted, Installed, After, AddedAt, InputDeletions, AddedFiles, EntriesOf;
      ghost var a := State();
      var c := running.value.inputs;
      var e := Edit(InputDeletions(c), AddedFiles(c.level + 1, files), Some(LogNumberOf(manifest)), Some(lastSequence),
        Some(nextFileNumber));
      ghost var b := Installed(a.db, running.value.ToJob(), FileSet(files));
      InstallEdit(a, c, files, e);
      LogAndApply(e);
      SetsAre(levels, b.levels);
      running, pendingOutputs := None, pendingOutputs - (set i | 0 <= i < |files| :: files[i].number);
      InstallIsStep(a, c, files, e, State());
      NodeStepKeeps(a, Install(FileSet(files)), State());
    }

    /** The whole work of a compaction: merge the inputs, drop, build tables, install. In the new
        version tables with exactly what the compaction keeps stand for the inputs. */
    method DoCompactionWork(sizeOf: seq<Entry> -> nat) returns (ghost outputs: set<File>)
      requires Valid() && running.Some?
      requires |Sets(levels)| == NUM_LEVELS && running.value.inputs.level + 2 <= NUM_LEVELS
      requires !Uncovering(State().db, running.value.ToJob())
      modifies this`running, this`levels, this`manifest, this`pendingOutputs, this`nextFileNumber
      ensures Valid() && running.None?
      ensures EntriesOf(outputs) == old(running).value.ToJob().Kept()
      ensures State().db.levels == Installed(old(State()).db, old(running).value.ToJob(), outputs).levels
    {
      hide NodeInv, NodeStep, Uncovering;
      ghost var before := State().db;
      var r := running.value;
      ghost var job := r.ToJob();
      var input := MergeInputs(r.version, r.inputs);
      InputStorable(State(), job, input);
      var cursor := new BaseLevelCursor(r.inputs.level, r.version);
      assert job.Entries() == EntriesOf(FileSet(r.inputs.in0) + FileSet(r.inputs.in1));
      var tables := DropAndCut(job, r.smallestSnapshot, cursor, input);
      KeptStorable(job, input, Joined(tables));
      var files := BuildOutputs(tables, sizeOf);
      SameUncovering(before, State().db, job);
      InstallCompactionResults(files);
      outputs := FileSet(files);
    }
  }
}
