/** DBImpl::NewInternalIterator and Version::AddIterators (db/db_impl.cc, db/version_set.cc): one
    cursor over all that is stored. */
module InternalIterator {
  import opened Format
  import opened Versions
  import opened VersionSet
  import opened LsmInvariant
  import opened Merger
  import opened CompactionWork

  /** The children chosen so far and what they hold. */
  ghost predicate Holds(children: seq<seq<Entry>>, stored: set<Entry>) {
    && (forall i :: 0 <= i < |children| ==> KeySorted(children[i]))
    && NoSharedKeys(children) && Union(children) == stored
  }

  lemma AddChild(children: seq<seq<Entry>>, stored: set<Entry>, c: seq<Entry>)
    requires Holds(children, stored) && KeySorted(c) && Differ(stored, Elements(c))
    ensures Holds(children + [c], stored + Elements(c))
  {
    var cs := children + [c];
    forall i, j, x: Entry, y: Entry | 0 <= i < j < |cs| && x in cs[i] && y in cs[j]
      ensures Less(x.ik, y.ik) || Less(y.ik, x.ik)
    {
      if j < |children| {
        assert x in children[i] && y in children[j];
      } else {
        assert x in children[i] && y in Elements(c);
        assert x in Union(children);
      }
    }
    forall e | e in stored + Elements(c) ensures e in Union(cs) {
      if e in stored {
        var i :| 0 <= i < |children| && e in children[i];
        assert e in cs[i];
      } else {
        assert e in cs[|children|];
      }
    }
    forall e | e in Union(cs) ensures e in stored + Elements(c) {
      var i :| 0 <= i < |cs| && e in cs[i];
      assert i < |children| ==> e in children[i];
    }
  }

  lemma BetweenNext(v: Levels, l: nat)
    requires l < |v|
    ensures Between(v, 0, l + 1) == Between(v, 0, l) + EntriesOf(v[l])
  {
    forall e | e in Between(v, 0, l + 1) ensures e in Between(v, 0, l) + EntriesOf(v[l]) {
      var i, f: File :| 0 <= i < l + 1 && f in v[i] && e in f.entries;
      if i == l { InEntriesOf(v[l], f, e); }
    }
    forall e | e in EntriesOf(v[l]) ensures e in Between(v, 0, l + 1) {
      var f :| f in v[l] && e in f.entries;
    }
  }

  lemma LevelDiffers(v: Levels, memtables: set<Entry>, l: nat)
    requires VersionOk(v) && l < NUM_LEVELS && Newer(memtables, AllEntries(v))
    ensures Differ(memtables + Between(v, 0, l), EntriesOf(v[l]))
  {
    forall x, y | x in memtables + Between(v, 0, l) && y in EntriesOf(v[l])
      ensures Less(x.ik, y.ik) || Less(y.ik, x.ik)
    {
      var g :| g in v[l] && y in g.entries;
      InAll(v, l, g, y);
      if x !in memtables {
        var i, f: File :| 0 <= i < l && f in v[i] && x in f.entries;
        InEntriesOf(v[i], f, x);
        NewerDiffer(EntriesOf(v[i]), EntriesOf(v[l]));
      }
      if x.ik.user == y.ik.user && x in memtables { assert x.ik.seqno > y.ik.seqno; }
    }
  }

  lemma NewerThanFile(v: Levels, memtables: set<Entry>, l: nat, f: File)
    requires l < |v| && f in v[l] && Newer(memtables, AllEntries(v))
    ensures Differ(memtables, Elements(f.entries))
  {
    forall y | y in f.entries ensures y in AllEntries(v) {
      InAll(v, l, f, y);
    }
    NewerDiffer(memtables, Elements(f.entries));
  }

  /** A level-zero file differs from the files before it. */
  lemma EarlierFilesDiffer(v: FileVectors, i: nat)
    requires VectorsOk(v) && i < |v[0]|
    ensures Differ(EntriesOf(FileSet(v[0][..i])), Elements(v[0][i].entries))
  {
    hide VersionOk, NumbersUnique;
    var f := v[0][i];
    forall x, y | x in EntriesOf(FileSet(v[0][..i])) && y in f.entries ensures Less(x.ik, y.ik) || Less(y.ik, x.ik) {
      var g :| g in FileSet(v[0][..i]) && x in g.entries;
      var j :| 0 <= j < i && v[0][..i][j] == g;
      assert v[0][j] == g;
      LevelZeroEntriesDiffer(v, g, f);
    }
  }

  /** A level-zero file differs from the memtables and from the files before it. */
  lemma FileDiffers(v: FileVectors, memtables: set<Entry>, i: nat)
    requires VectorsOk(v) && i < |v[0]| && Newer(memtables, AllEntries(Sets(v)))
    ensures Differ(memtables + EntriesOf(FileSet(v[0][..i])), Elements(v[0][i].entries))
  {
    hide VersionOk, NumbersUnique, Newer, AllEntries, EntriesOf;
    assert v[0][i] in Sets(v)[0];
    NewerThanFile(Sets(v), memtables, 0, v[0][i]);
    EarlierFilesDiffer(v, i);
  }

  lemma EntriesOfTake(files: seq<File>, i: nat)
    requires i < |files|
    ensures EntriesOf(FileSet(files[..i + 1])) == EntriesOf(FileSet(files[..i])) + Elements(files[i].entries)
  {
    FileSetTake(files, i);
    EntriesOfAdd(FileSet(files[..i]), files[i]);
  }

  method MemTableChildren(mem: seq<Entry>, imm: Option<seq<Entry>>) returns (children: seq<seq<Entry>>)
    requires Sorted(mem) && (imm.Some? ==> Sorted(imm.value) && Newer(Elements(mem), Elements(imm.value)))
    ensures Holds(children, Elements(mem) + if imm.Some? then Elements(imm.value) else {})
  {
    children := [];
    assert Holds(children, {});
    SortedIsKeySorted(mem);
    AddChild(children, {}, mem);
    assert {} + Elements(mem) == Elements(mem);
    children := children + [mem];
    if imm.Some? {
      SortedIsKeySorted(imm.value);
      NewerDiffer(Elements(mem), Elements(imm.value));
      AddChild(children, Elements(mem), imm.value);
      children := children + [imm.value];
    }
  }

  /** AddIterators: a child for each level-zero file and one for each other level with files. */
  method AddIterators(v: FileVectors, memtables: seq<seq<Entry>>, ghost stored: set<Entry>)
      returns (children: seq<seq<Entry>>)
    requires VectorsOk(v) && Holds(memtables, stored) && Newer(stored, AllEntries(Sets(v)))
    ensures Holds(children, stored + AllEntries(Sets(v)))
  {
    hide Holds, VectorsOk, VersionOk, NumbersUnique;
    children := AddLevelZero(v, memtables, stored);
    ghost var sets := Sets(v);
    assert VersionOk(sets) && |v| == NUM_LEVELS by { VectorsFacts(v); }
    BetweenNext(sets, 0);
    assert Between(sets, 0, 0) == {};
    assert stored + EntriesOf(FileSet(v[0])) == stored + Between(sets, 0, 1);
    for level := 1 to NUM_LEVELS
      invariant Holds(children, stored + Between(sets, 0, level))
    {
      BetweenNext(sets, level);
      FileElements(v[level]);
      if v[level] != [] {
        VectorsFacts(v);
        LevelDiffers(sets, stored, level);
        FilesSorted(v[level]);
        AddChild(children, stored + Between(sets, 0, level), FileEntries(v[level]));
        children := children + [FileEntries(v[level])];
      } else {
        assert Elements(FileEntries(v[level])) == {};
        assert stored + Between(sets, 0, level + 1) == stored + Between(sets, 0, level);
      }
      assert stored + Between(sets, 0, level + 1) == stored + Between(sets, 0, level) + Elements(FileEntries(v[level]));
    }
  }

  lemma VectorsFacts(v: FileVectors)
    requires VectorsOk(v)
    ensures |v| == NUM_LEVELS && VersionOk(Sets(v)) && forall l :: 1 <= l < NUM_LEVELS ==> InOrder(v[l])
  {
  }

  method AddLevelZero(v: FileVectors, memtables: seq<seq<Entry>>, ghost stored: set<Entry>)
      returns (children: seq<seq<Entry>>)
    requires VectorsOk(v) && Holds(memtables, stored) && Newer(stored, AllEntries(Sets(v)))
    ensures Holds(children, stored + EntriesOf(FileSet(v[0])))
  {
    hide Holds, VectorsOk;
    children := memtables;
    VectorsFacts(v);
    assert v[0][..0] == [] && EntriesOf(FileSet([])) == {} && stored + {} == stored;
    for i := 0 to |v[0]|
      invariant Holds(children, stored + EntriesOf(FileSet(v[0][..i])))
    {
      var f := v[0][i];
      FileDiffers(v, stored, i);
      SortedIsKeySorted(f.entries);
      AddChild(children, stored + EntriesOf(FileSet(v[0][..i])), f.entries);
      EntriesOfTake(v[0], i);
      assert stored + EntriesOf(FileSet(v[0][..i + 1])) == stored + EntriesOf(FileSet(v[0][..i])) + Elements(f.entries);
      children := children + [f.entries];
    }
    assert v[0][..|v[0]|] == v[0];
  }

  method NewInternalIterator(mem: seq<Entry>, imm: Option<seq<Entry>>, v: FileVectors) returns (it: MergingIterator)
    requires VectorsOk(v)
    requires Sorted(mem) && (imm.Some? ==> Sorted(imm.value) && Newer(Elements(mem), Elements(imm.value)))
    requires Newer(Elements(mem) + (if imm.Some? then Elements(imm.value) else {}), AllEntries(Sets(v)))
    requires Distinct(Elements(mem) + (if imm.Some? then Elements(imm.value) else {}) + AllEntries(Sets(v)))
    ensures fresh(it) && it.Valid() && Sorted(it.merged)
    ensures Elements(it.merged) == Elements(mem) + (if imm.Some? then Elements(imm.value) else {}) + AllEntries(Sets(v))
  {
    hide VectorsOk, VersionOk, Newer;
    var memtables := MemTableChildren(mem, imm);
    var children := AddIterators(v, memtables, Elements(mem) + if imm.Some? then Elements(imm.value) else {});
    it := new MergingIterator(children);
    KeySortedDistinct(it.merged, Elements(it.merged));
  }
}
