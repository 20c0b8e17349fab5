/** Doing a compaction: merging the inputs, dropping what no snapshot needs and cutting the
    outputs (db/db_impl.cc, DoCompactionWork; db/version_set.cc, Compaction). */
module CompactionWork {
  import opened Format
  import opened Versions
  import opened VersionSet
  import opened CompactionPicker
  import opened CompactionSemantics
  import opened Merger

  /** Whether a file of a level below the output level has the user key in its range. */
  ghost predicate InDeeper(input: FileVectors, lvl: nat, user: int) {
    exists i :: lvl <= i < |input| && SpansKey(input[i], user)
  }

  ghost predicate SpansKey(files: seq<File>, user: int) {
    exists j :: 0 <= j < |files| && files[j].Spans(user)
  }

  /** The cursors that answer base-level queries for non-decreasing user keys. */
  class BaseLevelCursor {
    const level: nat
    const input: FileVectors
    var levelPtrs: seq<nat>
    /** The user key asked for last. */
    ghost var last: Option<int>

    ghost predicate Valid()
      reads this
    {
      && |input| == |levelPtrs| == NUM_LEVELS
      && (forall i :: 1 <= i < NUM_LEVELS ==> InOrder(input[i]))
      && (forall i :: 0 <= i < NUM_LEVELS ==> Passed(i, levelPtrs[i], last))
    }

    /** The first p files of level i end before the last key asked for. */
    ghost predicate Passed(i: nat, p: nat, key: Option<int>)
      requires i < |input|
    {
      p <= |input[i]| && forall j :: 0 <= j < p ==> key.Some? && input[i][j].Largest().user < key.value
    }

    constructor (level: nat, input: FileVectors)
      requires |input| == NUM_LEVELS
      requires forall i :: 1 <= i < NUM_LEVELS ==> InOrder(input[i])
      ensures Valid() && this.level == level && this.input == input && last == None
    {
      this.level := level;
      this.input := input;
      levelPtrs := seq(NUM_LEVELS, i => 0);
      last := None;
    }

    /** The monotone cursors answer exactly, as long as user keys do not decrease. */
    method IsBaseLevelForKey(user: int) returns (b: bool)
      requires Valid() && (last.Some? ==> last.value <= user)
      modifies this
      ensures Valid() && last == Some(user)
      ensures b <==> !InDeeper(input, level + 2, user)
    {
      last := Some(user);
      b := true;
      var lvl := level + 2;
      while lvl < NUM_LEVELS
        invariant Valid() && last == Some(user) && level + 2 <= lvl
        invariant forall i :: level + 2 <= i < lvl && i < NUM_LEVELS ==> !SpansKey(input[i], user)
      {
        var files := input[lvl];
        while levelPtrs[lvl] < |files|
          invariant Valid() && last == Some(user)
          decreases |files| - levelPtrs[lvl]
        {
          var f := files[levelPtrs[lvl]];
          if user <= f.Largest().user {
            if user >= f.Smallest().user {
              assert SpansKey(files, user);
              return false;
            }
            break;
          }
          levelPtrs := levelPtrs[lvl := levelPtrs[lvl] + 1];
        }
        NoneSpans(files, levelPtrs[lvl], user);
        lvl := lvl + 1;
      }
    }
  }

  /** Files before the cursor end before the key, the one at it and those after begin after. */
  lemma NoneSpans(files: seq<File>, p: nat, user: int)
    requires InOrder(files) && p <= |files|
    requires forall j :: 0 <= j < p ==> files[j].Largest().user < user
    requires p < |files| ==> user < files[p].Smallest().user
    ensures !SpansKey(files, user)
  {
    forall j | p < j < |files| ensures !files[j].Spans(user) {
      EndsInOrder(files, p, j);
    }
  }

  lemma DeeperIsNotBase(job: Job, input: FileVectors, user: int)
    requires job.input == Sets(input)
    ensures job.IsBaseLevelForKey(user) <==> !InDeeper(input, job.level + 2, user)
  {
    if InDeeper(input, job.level + 2, user) {
      var i :| job.level + 2 <= i < |input| && SpansKey(input[i], user);
      var j :| 0 <= j < |input[i]| && input[i][j].Spans(user);
      assert input[i][j] in job.input[i];
    }
    if !job.IsBaseLevelForKey(user) {
      var i, f :| job.level + 2 <= i < |job.input| && f in job.input[i] && f.Spans(user);
      var j :| 0 <= j < |input[i]| && input[i][j] == f;
    }
  }

  // The loop

  lemma JoinedAppend(outputs: seq<seq<Entry>>, o: seq<Entry>)
    ensures Joined(outputs + [o]) == Joined(outputs) + o
  {
    assert (outputs + [o])[..|outputs|] == outputs;
  }

  /** In a sorted input rule (A) looks no further than the previous entry. */
  lemma ShadowedByPrevious(job: Job, input: seq<Entry>, i: nat)
    requires Sorted(input) && Elements(input) == job.Entries() && i < |input|
    ensures job.Shadowed(input[i]) <==>
      i > 0 && input[i - 1].ik.user == input[i].ik.user && input[i - 1].ik.seqno <= job.smallest
  {
    if job.Shadowed(input[i]) {
      var x :| x in job.Entries() && x.ik.user == input[i].ik.user && input[i].ik.seqno < x.ik.seqno <= job.smallest;
      assert x in Elements(input);
      var j :| 0 <= j < |input| && input[j] == x;
      assert j < i;
      if j < i - 1 {
        assert Precedes(input[j].ik, input[i - 1].ik) && Precedes(input[i - 1].ik, input[i].ik);
      }
    }
    if i > 0 && input[i - 1].ik.user == input[i].ik.user && input[i - 1].ik.seqno <= job.smallest {
      assert input[i - 1] in Elements(input);
      assert Precedes(input[i - 1].ik, input[i].ik);
    }
  }

  ghost function KeptOf(job: Job, es: seq<Entry>): set<Entry> {
    set e | e in es && !job.Shadowed(e) && !job.Obsolete(e)
  }

  /** The user key and sequence number of the entry before position i, as the loop remembers them. */
  ghost predicate Remembered(input: seq<Entry>, i: nat, key: Option<int>, last: nat) {
    && i <= |input|
    && (i == 0 ==> key == None)
    && (i > 0 ==> key == Some(input[i - 1].ik.user) && last == input[i - 1].ik.seqno)
  }

  ghost predicate Asked(base: BaseLevelCursor, job: Job, input: seq<Entry>, i: nat)
    reads base
  {
    && base.Valid() && base.level == job.level && job.input == Sets(base.input)
    && (base.last.Some? ==> 0 < i <= |input| && base.last.value <= input[i - 1].ik.user)
  }

  /** One entry of the merged input: drop it or not. */
  method DecideDrop(ghost job: Job, smallestSnapshot: nat, base: BaseLevelCursor, input: seq<Entry>, i: nat,
      key: Option<int>, last: nat)
    returns (drop: bool, key': Option<int>, last': nat)
    requires Sorted(input) && Elements(input) == job.Entries() && job.smallest == smallestSnapshot < MAX_SEQUENCE
    requires i < |input| && Remembered(input, i, key, last) && Asked(base, job, input, i)
    modifies base
    ensures Remembered(input, i + 1, key', last') && Asked(base, job, input, i + 1)
    ensures drop <==> job.Shadowed(input[i]) || job.Obsolete(input[i])
  {
    var e := input[i];
    drop, key', last' := false, key, last;
    if key' != Some(e.ik.user) {
      key', last' := Some(e.ik.user), MAX_SEQUENCE;
    }
    ShadowedByPrevious(job, input, i);
    if i > 0 { assert Precedes(input[i - 1].ik, e.ik); }
    if last' <= smallestSnapshot {
      drop := true;
    } else if e.ik.kind.Deletion? && e.ik.seqno <= smallestSnapshot {
      drop := base.IsBaseLevelForKey(e.ik.user);
      DeeperIsNotBase(job, base.input, e.ik.user);
    }
    last' := e.ik.seqno;
  }

  /** The finished tables and the one being built hold what is kept of the first i entries. */
  ghost predicate Done(job: Job, input: seq<Entry>, i: nat, outputs: seq<seq<Entry>>, builder: seq<Entry>) {
    && i <= |input|
    && Elements(Joined(outputs) + builder) == KeptOf(job, input[..i])
    && Sorted(Joined(outputs) + builder)
    && forall o :: o in outputs ==> o != []
  }

  lemma CloseTable(job: Job, input: seq<Entry>, i: nat, outputs: seq<seq<Entry>>, builder: seq<Entry>)
    requires Done(job, input, i, outputs, builder) && builder != []
    ensures Done(job, input, i, outputs + [builder], [])
  {
    JoinedAppend(outputs, builder);
    assert Joined(outputs + [builder]) + [] == Joined(outputs) + builder;
  }

  /** Drops the entries of the merged input that no snapshot in use needs and cuts the rest
      into tables. Where to cut depends on encoded sizes, so any cut is allowed for. */
  method DropAndCut(ghost job: Job, smallestSnapshot: nat, base: BaseLevelCursor, input: seq<Entry>)
      returns (outputs: seq<seq<Entry>>)
    requires Sorted(input) && Elements(input) == job.Entries() && job.smallest == smallestSnapshot < MAX_SEQUENCE
    requires base.last == None && Asked(base, job, input, 0)
    modifies base
    ensures Elements(Joined(outputs)) == job.Kept() && Sorted(Joined(outputs))
    ensures forall o :: o in outputs ==> o != []
  {
    hide Done, Joined, Sorted, KeptOf, Asked;
    outputs := [];
    var builder: seq<Entry> := [];
    NothingDone(job, input);
    var currentUserKey: Option<int> := None;
    var lastSequenceForKey := MAX_SEQUENCE;
    for i := 0 to |input|
      invariant Remembered(input, i, currentUserKey, lastSequenceForKey) && Asked(base, job, input, i)
      invariant Done(job, input, i, outputs, builder)
    {
      var stopBefore: bool := *;
      if stopBefore && builder != [] {
        CloseTable(job, input, i, outputs, builder);
        outputs, builder := outputs + [builder], [];
      }
      var drop;
      drop, currentUserKey,
        lastSequenceForKey := DecideDrop(job, smallestSnapshot, base, input, i, currentUserKey, lastSequenceForKey);
      OneDone(job, input, i, outputs, builder);
      if !drop {
        builder := builder + [input[i]];
        var full: bool := *;
        if full {
          CloseTable(job, input, i + 1, outputs, builder);
          outputs, builder := outputs + [builder], [];
        }
      }
    }
    if builder != [] {
      CloseTable(job, input, |input|, outputs, builder);
      outputs := outputs + [builder];
    }
    AllDone(job, input, outputs);
  }

  lemma NothingDone(job: Job, input: seq<Entry>)
    ensures Done(job, input, 0, [], [])
  {
    assert Joined<Entry>([]) + [] == [] && input[..0] == [];
  }

  /** The next entry joins the table being built unless it is dropped. */
  lemma OneDone(job: Job, input: seq<Entry>, i: nat, outputs: seq<seq<Entry>>, builder: seq<Entry>)
    requires Sorted(input) && i < |input| && Done(job, input, i, outputs, builder)
    ensures Done(job, input, i + 1, outputs, if job.Shadowed(input[i]) || job.Obsolete(input[i]) then builder
        else builder + [input[i]])
  {
    KeptTake(job, input, i);
    if !job.Shadowed(input[i]) && !job.Obsolete(input[i]) {
      AddKept(job, input, i, Joined(outputs) + builder);
      assert Joined(outputs) + (builder + [input[i]]) == Joined(outputs) + builder + [input[i]];
    }
  }

  lemma AllDone(job: Job, input: seq<Entry>, outputs: seq<seq<Entry>>)
    requires Elements(input) == job.Entries() && Done(job, input, |input|, outputs, [])
    ensures Elements(Joined(outputs)) == job.Kept() && Sorted(Joined(outputs)) && forall o :: o in outputs ==> o != []
  {
    assert input[..|input|] == input;
    assert Joined(outputs) + [] == Joined(outputs);
  }

  lemma KeptTake(job: Job, input: seq<Entry>, i: nat)
    requires i < |input|
    ensures KeptOf(job, input[..i + 1]) ==
      KeptOf(job, input[..i]) + if job.Shadowed(input[i]) || job.Obsolete(input[i]) then {} else {input[i]}
  {
    assert input[..i + 1] == input[..i] + [input[i]];
  }

  lemma AddKept(job: Job, input: seq<Entry>, i: nat, kept: seq<Entry>)
    requires Sorted(input) && i < |input| && Sorted(kept) && Elements(kept) == KeptOf(job, input[..i])
    requires !job.Shadowed(input[i]) && !job.Obsolete(input[i])
    ensures Sorted(kept + [input[i]]) && Elements(kept + [input[i]]) == KeptOf(job, input[..i + 1])
  {
    KeptTake(job, input, i);
    assert Elements(kept + [input[i]]) == Elements(kept) + {input[i]};
    forall j | 0 <= j < |kept| ensures Precedes(kept[j].ik, input[i].ik) {
      assert kept[j] in Elements(kept);
      assert kept[j] in input[..i];
    }
  }

  // The input iterator

  /** The entries of consecutive files, as a concatenating iterator yields them. */
  function FileEntries(files: seq<File>): seq<Entry> {
    if files == [] then [] else files[0].entries + FileEntries(files[1..])
  }

  lemma {:induction false} FileElements(files: seq<File>)
    ensures Elements(FileEntries(files)) == EntriesOf(FileSet(files))
  {
    if files != [] {
      FileElements(files[1..]);
      assert files == [files[0]] + files[1..];
      assert FileSet(files) == {files[0]} + FileSet(files[1..]);
      forall e | e in EntriesOf(FileSet(files))
        ensures e in Elements(files[0].entries) + EntriesOf(FileSet(files[1..]))
      {
        var f :| f in FileSet(files) && e in f.entries;
        if f != files[0] { assert f in FileSet(files[1..]); }
      }
      forall e | e in Elements(files[0].entries) + EntriesOf(FileSet(files[1..]))
        ensures e in EntriesOf(FileSet(files))
      {
        if e in files[0].entries {
          InEntriesOf(FileSet(files), files[0], e);
        } else {
          var f :| f in FileSet(files[1..]) && e in f.entries;
          InEntriesOf(FileSet(files), f, e);
        }
      }
    }
  }

  lemma {:induction false} FilesSorted(files: seq<File>)
    requires InOrder(files)
    ensures KeySorted(FileEntries(files))
  {
    if files != [] {
      var rest := files[1..];
      forall i, j | 0 <= i < j < |rest| ensures FileBefore(rest[i], rest[j]) {
        assert rest[i] == files[i + 1] && rest[j] == files[j + 1];
      }
      FilesSorted(rest);
      FileElements(rest);
      forall x, y | x in files[0].entries && y in FileEntries(rest) ensures Less(x.ik, y.ik) {
        assert y in Elements(FileEntries(rest));
        var f :| f in FileSet(rest) && y in f.entries;
        var k :| 0 <= k < |rest| && rest[k] == f;
        assert f == files[k + 1] && FileBefore(files[0], f);
        FileRange(files[0], x);
        FileRange(f, y);
      }
      KeySortedAppend(files[0].entries, FileEntries(rest));
    }
  }

  lemma KeySortedAppend(a: seq<Entry>, b: seq<Entry>)
    requires Sorted(a) && KeySorted(b)
    requires forall x, y :: x in a && y in b ==> Less(x.ik, y.ik)
    ensures KeySorted(a + b)
  {
    forall i, j | 0 <= i < j < |a + b| ensures Less((a + b)[i].ik, (a + b)[j].ik) {
      if i < |a| && j >= |a| { assert a[i] in a && b[j - |a|] in b; }
    }
  }

  /** One child a level-zero file, one concatenating child for the files of another level. */
  function Children(level: nat, in0: seq<File>, in1: seq<File>): seq<seq<Entry>> {
    (if level == 0 then seq(|in0|, i requires 0 <= i < |in0| => in0[i].entries) else [FileEntries(in0)]) +
    (if in1 == [] then [] else [FileEntries(in1)])
  }

  /** No entry of `a` has the internal key of an entry of `b`. */
  ghost predicate Differ(a: set<Entry>, b: set<Entry>) {
    forall x, y :: x in a && y in b ==> Less(x.ik, y.ik) || Less(y.ik, x.ik)
  }

  lemma NewerDiffer(a: set<Entry>, b: set<Entry>)
    requires Newer(a, b)
    ensures Differ(a, b) && Differ(b, a)
  {
    forall x, y | x in a && y in b ensures Less(x.ik, y.ik) || Less(y.ik, x.ik) {
      if x.ik.user == y.ik.user { assert x.ik.seqno > y.ik.seqno; }
    }
  }

  lemma LevelEntriesDiffer(v: FileVectors, c: Inputs)
    requires VectorsOk(v) && InputsOk(v, c)
    ensures Differ(EntriesOf(FileSet(c.in0)), EntriesOf(FileSet(c.in1)))
  {
    var sets := Sets(v);
    assert FileSet(c.in0) <= sets[c.level] && FileSet(c.in1) <= sets[c.level + 1];
    assert Newer(EntriesOf(sets[c.level]), EntriesOf(sets[c.level + 1]));
    FewerFiles(FileSet(c.in0), sets[c.level]);
    FewerFiles(FileSet(c.in1), sets[c.level + 1]);
    NewerDiffer(EntriesOf(FileSet(c.in0)), EntriesOf(FileSet(c.in1)));
  }

  lemma FewerFiles(a: set<File>, b: set<File>)
    requires a <= b
    ensures EntriesOf(a) <= EntriesOf(b)
  {
    forall e | e in EntriesOf(a) ensures e in EntriesOf(b) {
      var f :| f in a && e in f.entries;
      InEntriesOf(b, f, e);
    }
  }

  lemma LevelZeroEntriesDiffer(v: FileVectors, f: File, g: File)
    requires VectorsOk(v) && f in v[0] && g in v[0] && f != g
    ensures Differ(Elements(f.entries), Elements(g.entries))
  {
    var zero := Sets(v)[0];
    assert f in zero && g in zero && NewestByNumber(zero);
    assert f.number != g.number;
    if f.number > g.number {
      NewerDiffer(Elements(f.entries), Elements(g.entries));
    } else {
      NewerDiffer(Elements(g.entries), Elements(f.entries));
    }
  }

  lemma ChildrenDiffer(level: nat, in0: seq<File>, in1: seq<File>)
    requires Differ(EntriesOf(FileSet(in0)), EntriesOf(FileSet(in1)))
    requires level == 0 ==> forall i, j :: 0 <= i < j < |in0| ==>
        Differ(Elements(in0[i].entries), Elements(in0[j].entries))
    ensures NoSharedKeys(Children(level, in0, in1))
  {
    var cs := Children(level, in0, in1);
    FileElements(in0);
    FileElements(in1);
    forall i, j, x: Entry, y: Entry | 0 <= i < j < |cs| && x in cs[i] && y in cs[j]
      ensures Less(x.ik, y.ik) || Less(y.ik, x.ik)
    {
      if level == 0 && j < |in0| {
        assert x in Elements(in0[i].entries) && y in Elements(in0[j].entries);
      } else {
        assert y in Elements(FileEntries(in1));
        if level == 0 {
          InEntriesOf(FileSet(in0), in0[i], x);
        } else {
          assert x in Elements(FileEntries(in0));
        }
      }
    }
  }

  lemma ChildrenSorted(level: nat, in0: seq<File>, in1: seq<File>)
    requires InOrder(in1) && (level > 0 ==> InOrder(in0))
    ensures forall i :: 0 <= i < |Children(level, in0, in1)| ==> KeySorted(Children(level, in0, in1)[i])
  {
    FilesSorted(in1);
    if level > 0 { FilesSorted(in0); }
  }

  lemma ChildrenOk(v: FileVectors, c: Inputs)
    requires VectorsOk(v) && InputsOk(v, c)
    ensures NoSharedKeys(Children(c.level, c.in0, c.in1))
  {
    LevelEntriesDiffer(v, c);
    if c.level == 0 {
      forall i, j | 0 <= i < j < |c.in0| ensures Differ(Elements(c.in0[i].entries), Elements(c.in0[j].entries)) {
        assert c.in0[i] in FileSet(c.in0) && c.in0[j] in FileSet(c.in0);
        LevelZeroEntriesDiffer(v, c.in0[i], c.in0[j]);
      }
    }
    ChildrenDiffer(c.level, c.in0, c.in1);
  }

  lemma ChildrenUnion(level: nat, in0: seq<File>, in1: seq<File>)
    ensures Union(Children(level, in0, in1)) == EntriesOf(FileSet(in0) + FileSet(in1))
  {
    var cs := Children(level, in0, in1);
    FileElements(in0);
    FileElements(in1);
    forall e | e in Union(cs) ensures e in EntriesOf(FileSet(in0) + FileSet(in1)) {
      var i :| 0 <= i < |cs| && e in cs[i];
      if level == 0 && i < |in0| {
        InEntriesOf(FileSet(in0) + FileSet(in1), in0[i], e);
      } else {
        assert e in Elements(cs[i]);
        var f :| f in FileSet(in0) + FileSet(in1) && e in f.entries;
      }
    }
    forall e | e in EntriesOf(FileSet(in0) + FileSet(in1)) ensures e in Union(cs) {
      var f :| f in FileSet(in0) + FileSet(in1) && e in f.entries;
      if f in in0 {
        if level == 0 {
          var i :| 0 <= i < |in0| && in0[i] == f;
          assert e in cs[i];
        } else {
          assert e in EntriesOf(FileSet(in0));
          assert e in Elements(cs[0]);
        }
      } else {
        assert e in EntriesOf(FileSet(in1));
        assert e in Elements(cs[|cs| - 1]);
      }
    }
  }

  /** Everything the merging iterator yields from the first entry on. */
  method Drain(children: seq<seq<Entry>>) returns (input: seq<Entry>)
    requires forall i :: 0 <= i < |children| ==> KeySorted(children[i])
    requires NoSharedKeys(children)
    ensures KeySorted(input) && Elements(input) == Union(children)
  {
    hide Union, NoSharedKeys, KeySorted, Elements, MergingIterator.AtOrAfter, MergingIterator.Before;
    var it := new MergingIterator(children);
    ghost var merged := it.merged;
    it.SeekToFirst();
    input := [];
    while it.current.Some?
      invariant it.Valid() && fresh(it) && it.merged == merged
      invariant input == merged[..it.at]
      decreases |merged| - it.at
    {
      assert merged[..it.at + 1] == merged[..it.at] + [merged[it.at]];
      var e := it.Key();
      input := input + [e];
      it.Next();
    }
    assert input == merged;
  }

  /** The whole input of a compaction, in order, through the merging iterator. */
  method MergeInputs(v: FileVectors, c: Inputs) returns (input: seq<Entry>)
    requires VectorsOk(v) && InputsOk(v, c)
    ensures Sorted(input) && Elements(input) == EntriesOf(FileSet(c.in0) + FileSet(c.in1))
  {
    var children := Children(c.level, c.in0, c.in1);
    ChildrenSorted(c.level, c.in0, c.in1);
    ChildrenOk(v, c);
    ChildrenUnion(c.level, c.in0, c.in1);
    input := Drain(children);
    InputSorted(v, c, input);
  }

  lemma InputSorted(v: FileVectors, c: Inputs, input: seq<Entry>)
    requires VectorsOk(v) && InputsOk(v, c)
    requires KeySorted(input) && Elements(input) == EntriesOf(FileSet(c.in0) + FileSet(c.in1))
    ensures Sorted(input)
  {
    var all := AllEntries(Sets(v));
    forall e | e in Elements(input) ensures e in all {
      var f :| f in FileSet(c.in0) + FileSet(c.in1) && e in f.entries;
      InAll(Sets(v), if f in FileSet(c.in0) then c.level else c.level + 1, f, e);
    }
    KeySortedDistinct(input, all);
  }

  lemma KeySortedDistinct(input: seq<Entry>, all: set<Entry>)
    requires KeySorted(input) && Elements(input) <= all && Distinct(all)
    ensures Sorted(input)
  {
    forall i, j | 0 <= i < j < |input| ensures Precedes(input[i].ik, input[j].ik) {
      assert input[i] in Elements(input) && input[j] in Elements(input);
      assert Less(input[i].ik, input[j].ik);
    }
  }
}
