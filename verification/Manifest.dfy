/** Version edits and the builder that folds them into a version (db/version_edit.h,
    db/version_set.cc). */
module Manifest {
  import opened Format
  import opened Versions
  import opened VersionSet

  /** A manifest record: files deleted and added by level and, when present, counters. */
  datatype Edit = Edit(deleted: set<(nat, nat)>, added: seq<(nat, File)>,
                       logNumber: Option<nat>, lastSeq: Option<nat>, nextFile: Option<nat>)

  ghost function Numbers(fs: set<File>): set<nat> {
    set f | f in fs :: f.number
  }

  ghost function DeletedAt(e: Edit, level: nat): set<nat> {
    set d | d in e.deleted && d.0 == level :: d.1
  }

  ghost function AddedAt(e: Edit, level: nat): set<File> {
    set i | 0 <= i < |e.added| && e.added[i].0 == level :: e.added[i].1
  }

  // One level of the builder

  datatype LevelState = LevelState(deleted: set<nat>, added: set<File>)

  const NO_CHANGE := LevelState({}, {})

  /** Deletions are noted first; adding a file takes its number off the deletions. */
  ghost function Apply(s: LevelState, e: Edit, level: nat): LevelState {
    LevelState(s.deleted + DeletedAt(e, level) - Numbers(AddedAt(e, level)), s.added + AddedAt(e, level))
  }

  ghost function Save(s: LevelState, base: set<File>): set<File> {
    set f | f in base + s.added && f.number !in s.deleted
  }

  /** What LogAndApply makes of a level: a fresh builder on the current version. */
  ghost function After(base: set<File>, e: Edit, level: nat): set<File> {
    Save(Apply(NO_CHANGE, e, level), base)
  }

  /** A file of the base or the first edit is deleted by the first edit and its number is
      added again by the second. */
  ghost predicate Resurrects(base: set<File>, e1: Edit, e2: Edit, level: nat) {
    exists f :: f in base + AddedAt(e1, level) && f !in AddedAt(e2, level)
      && f.number in DeletedAt(e1, level) - Numbers(AddedAt(e1, level)) && f.number in Numbers(AddedAt(e2, level))
  }

  /** Folding two edits through one builder gives the version that applying them one at a time
      gives, exactly when the second adds no number that the first deleted from the level. */
  lemma OneBuilderForTwo(base: set<File>, e1: Edit, e2: Edit, level: nat)
    ensures Save(Apply(Apply(NO_CHANGE, e1, level), e2, level), base) == After(After(base, e1, level), e2, level)
      <==> !Resurrects(base, e1, e2, level)
  {
    var one := Save(Apply(Apply(NO_CHANGE, e1, level), e2, level), base);
    var two := After(After(base, e1, level), e2, level);
    if Resurrects(base, e1, e2, level) {
      var f :| f in base + AddedAt(e1, level) && f !in AddedAt(e2, level)
        && f.number in DeletedAt(e1, level) - Numbers(AddedAt(e1, level)) && f.number in Numbers(AddedAt(e2, level));
      assert f in one && f !in two;
    } else {
      forall f ensures f in one <==> f in two {
        if f in AddedAt(e2, level) {
          assert f.number in Numbers(AddedAt(e2, level));
        } else if f in base + AddedAt(e1, level) && f.number in DeletedAt(e1, level) - Numbers(AddedAt(e1, level)) {
          assert f.number !in Numbers(AddedAt(e2, level));
        }
      }
    }
  }

  // A whole manifest

  /** The builder after all edits, as VersionSet::Recover runs it. */
  ghost function Folded(m: seq<Edit>, level: nat): LevelState {
    if m == [] then NO_CHANGE else Apply(Folded(m[..|m| - 1], level), m[|m| - 1], level)
  }

  /** The level after applying the edits one at a time, as they were made. */
  ghost function Stepwise(m: seq<Edit>, level: nat): set<File> {
    if m == [] then {} else After(Stepwise(m[..|m| - 1], level), m[|m| - 1], level)
  }

  /** The numbers ever added to the level. */
  ghost function Seen(m: seq<Edit>, level: nat): set<nat> {
    if m == [] then {} else Seen(m[..|m| - 1], level) + Numbers(AddedAt(m[|m| - 1], level))
  }

  /** No number comes to a level twice. */
  ghost predicate NeverReadded(m: seq<Edit>, level: nat) {
    m != [] ==> NeverReadded(m[..|m| - 1], level) && Numbers(AddedAt(m[|m| - 1], level)) !! Seen(m[..|m| - 1], level)
  }

  lemma {:induction false} FoldedSeen(m: seq<Edit>, level: nat)
    ensures Numbers(Folded(m, level).added) == Seen(m, level)
    ensures Stepwise(m, level) <= Folded(m, level).added
  {
    if m != [] {
      var init, e := m[..|m| - 1], m[|m| - 1];
      FoldedSeen(init, level);
      forall n | n in Seen(m, level) ensures n in Numbers(Folded(m, level).added) {
        if n in Seen(init, level) {
          var f :| f in Folded(init, level).added && f.number == n;
          assert f in Folded(m, level).added;
        } else {
          var f :| f in AddedAt(e, level) && f.number == n;
          assert f in Folded(m, level).added;
        }
      }
    }
  }

  /** Recovery folds the whole manifest through one builder on an empty version and gets the
      version the edits made one at a time, as long as no number comes to a level twice. */
  lemma {:induction false} ManifestRecovers(m: seq<Edit>, level: nat)
    requires NeverReadded(m, level)
    ensures Save(Folded(m, level), {}) == Stepwise(m, level)
  {
    if m != [] {
      var init, e := m[..|m| - 1], m[|m| - 1];
      ManifestRecovers(init, level);
      FoldedSeen(init, level);
      var s := Folded(init, level);
      forall f ensures f in Save(Folded(m, level), {}) <==> f in Stepwise(m, level) {
        if f in AddedAt(e, level) {
          assert f.number in Numbers(AddedAt(e, level));
        } else if f in s.added {
          assert f.number in Seen(init, level) && f.number !in Numbers(AddedAt(e, level));
          assert f in Save(s, {}) <==> f.number !in s.deleted;
        }
      }
    }
  }

  // The builder

  /** The order of files within a level: smallest key, then file number. */
  predicate BySmallestKey(a: File, b: File) {
    Less(a.Smallest(), b.Smallest()) || (!Less(b.Smallest(), a.Smallest()) && a.number < b.number)
  }

  ghost predicate SortedBySmallest(files: seq<File>) {
    forall i, j :: 0 <= i < j < |files| ==> BySmallestKey(files[i], files[j])
  }

  lemma SortedNoRepeats(files: seq<File>)
    requires SortedBySmallest(files)
    ensures NoRepeats(files)
  {
  }

  /** Sorted by smallest key, the files of a level without overlap are in order. */
  lemma SortedApartInOrder(files: seq<File>)
    requires SortedBySmallest(files) && Apart(FileSet(files))
    ensures InOrder(files)
  {
    forall i, j | 0 <= i < j < |files| ensures FileBefore(files[i], files[j]) {
      assert files[i] in FileSet(files) && files[j] in FileSet(files);
      assert BySmallestKey(files[i], files[j]);
      FileEnds(files[i]);
      FileEnds(files[j]);
    }
  }

  /** std::set::insert: keeps the order, ignores a file equal to one already there. */
  method InsertFile(files: seq<File>, f: File) returns (r: seq<File>)
    requires SortedBySmallest(files)
    ensures SortedBySmallest(r)
    ensures (forall g :: g in files && g.number == f.number ==> g == f) ==> FileSet(r) == FileSet(files) + {f}
  {
    hide SortedBySmallest;
    var i := 0;
    while i < |files| && BySmallestKey(files[i], f)
      invariant 0 <= i <= |files|
      invariant forall j :: 0 <= j < i ==> BySmallestKey(files[j], f)
    {
      i := i + 1;
    }
    if i < |files| && !BySmallestKey(f, files[i]) {
      assert files[i] in files && files[i].number == f.number;
      return files;
    }
    FileSetInsert(files, i, f);
    InsertedBySmallest(files, i, f);
    r := files[..i] + [f] + files[i..];
  }

  lemma InsertedBySmallest(files: seq<File>, i: nat, f: File)
    requires SortedBySmallest(files) && i <= |files| && (forall j :: 0 <= j < i ==> BySmallestKey(files[j], f))
    requires i < |files| ==> BySmallestKey(f, files[i])
    ensures SortedBySmallest(files[..i] + [f] + files[i..])
  {
    forall j | i <= j < |files| ensures BySmallestKey(f, files[j]) {
      if i < j { assert BySmallestKey(files[i], files[j]); }
    }
  }

  /** std::upper_bound from `from` on. */
  method UpperBound(files: seq<File>, from: nat, f: File) returns (r: nat)
    requires from <= |files| && SortedBySmallest(files)
    ensures from <= r <= |files|
    ensures forall j :: from <= j < r ==> !BySmallestKey(f, files[j])
    ensures forall j :: r <= j < |files| ==> BySmallestKey(f, files[j])
  {
    r := from;
    while r < |files| && !BySmallestKey(f, files[r])
      invariant from <= r <= |files|
      invariant forall j :: from <= j < r ==> !BySmallestKey(f, files[j])
    {
      r := r + 1;
    }
  }

  ghost predicate AllBefore(files: seq<File>, f: File) {
    forall j :: 0 <= j < |files| ==> BySmallestKey(files[j], f)
  }

  lemma AppendSorted(files: seq<File>, f: File)
    requires SortedBySmallest(files) && AllBefore(files, f)
    ensures SortedBySmallest(files + [f])
  {
  }

  ghost function Undeleted(files: seq<File>, deleted: set<nat>): set<File> {
    set f | f in files && f.number !in deleted
  }

  /** No file of one vector ranks equal to a file of the other. */
  ghost predicate Distinguishable(base: seq<File>, added: seq<File>) {
    forall f, g :: f in base && g in added ==> BySmallestKey(f, g) || BySmallestKey(g, f)
  }

  /** MaybeAddFile. */
  method MaybeAddFile(v: seq<File>, f: File, deleted: set<nat>) returns (r: seq<File>)
    requires SortedBySmallest(v) && AllBefore(v, f)
    ensures SortedBySmallest(r)
    ensures FileSet(r) == FileSet(v) + if f.number in deleted then {} else {f}
    ensures forall g :: AllBefore(v, g) && BySmallestKey(f, g) ==> AllBefore(r, g)
  {
    if f.number in deleted {
      r := v;
    } else {
      AppendSorted(v, f);
      FileSetAppend(v, f);
      r := v + [f];
    }
  }

  lemma UndeletedTake(files: seq<File>, i: nat, deleted: set<nat>)
    requires i < |files|
    ensures Undeleted(files[..i + 1], deleted) ==
      Undeleted(files[..i], deleted) + if files[i].number in deleted then {} else {files[i]}
  {
    assert files[..i + 1] == files[..i] + [files[i]];
  }

  ghost predicate Merged(base: seq<File>, added: seq<File>, deleted: set<nat>, b: nat, a: nat, v: seq<File>) {
    && b <= |base| && a <= |added|
    && SortedBySmallest(v)
    && FileSet(v) == Undeleted(base[..b], deleted) + Undeleted(added[..a], deleted)
    && (forall j :: b <= j < |base| ==> AllBefore(v, base[j]))
    && (forall j :: a <= j < |added| ==> AllBefore(v, added[j]))
  }

  /** Appends base files b to bpos, all of which rank before the next added file. */
  method CopyBase(base: seq<File>, added: seq<File>, deleted: set<nat>, b: nat, bpos: nat, a: nat, v: seq<File>)
      returns (r: seq<File>)
    requires Merged(base, added, deleted, b, a, v) && b <= bpos <= |base|
    requires SortedBySmallest(base) && SortedBySmallest(added)
    requires forall i, j :: b <= i < bpos && a <= j < |added| ==> BySmallestKey(base[i], added[j])
    ensures Merged(base, added, deleted, bpos, a, r)
  {
    r := v;
    for i := b to bpos
      invariant Merged(base, added, deleted, i, a, r)
    {
      UndeletedTake(base, i, deleted);
      r := MaybeAddFile(r, base[i], deleted);
    }
  }

  /** SaveTo for one level: merges the added files into the base and leaves deleted ones out. */
  method SaveLevel(base: seq<File>, added: seq<File>, deleted: set<nat>) returns (v: seq<File>)
    requires SortedBySmallest(base) && SortedBySmallest(added) && Distinguishable(base, added)
    ensures SortedBySmallest(v)
    ensures FileSet(v) == Save(LevelState(deleted, FileSet(added)), FileSet(base))
  {
    v := [];
    var b := 0;
    for a := 0 to |added|
      invariant Merged(base, added, deleted, b, a, v)
    {
      var bpos := UpperBound(base, b, added[a]);
      BaseRanks(base, added, b, bpos, a);
      v := CopyBase(base, added, deleted, b, bpos, a, v);
      b := bpos;
      UndeletedTake(added, a, deleted);
      v := MaybeAddFile(v, added[a], deleted);
    }
    v := CopyBase(base, added, deleted, b, |base|, |added|, v);
    assert base[..|base|] == base && added[..|added|] == added;
  }

  lemma BaseRanks(base: seq<File>, added: seq<File>, b: nat, bpos: nat, a: nat)
    requires b <= bpos <= |base| && a < |added| && SortedBySmallest(added) && Distinguishable(base, added)
    requires forall j :: b <= j < bpos ==> !BySmallestKey(added[a], base[j])
    ensures forall i, j :: b <= i < bpos && a <= j < |added| ==> BySmallestKey(base[i], added[j])
  {
    forall i, j | b <= i < bpos && a <= j < |added| ensures BySmallestKey(base[i], added[j]) {
      assert base[i] in base && added[a] in added;
      assert BySmallestKey(base[i], added[a]);
    }
  }

  /** A number names one file. */
  ghost predicate NumbersName(fs: set<File>) {
    forall f, g :: f in fs && g in fs && f.number == g.number ==> f == g
  }

  ghost predicate EditOk(e: Edit) {
    (forall d :: d in e.deleted ==> d.0 < NUM_LEVELS) && (forall i :: 0 <= i < |e.added| ==> e.added[i].0 < NUM_LEVELS)
  }

  class Builder {
    var deleted: seq<set<nat>>
    var added: seq<seq<File>>

    ghost predicate Valid()
      reads this
    {
      && |deleted| == |added| == NUM_LEVELS
      && forall l :: 0 <= l < NUM_LEVELS ==> SortedBySmallest(added[l])
    }

    ghost function State(l: nat): LevelState
      requires Valid() && l < NUM_LEVELS
      reads this
    {
      LevelState(deleted[l], FileSet(added[l]))
    }

    constructor ()
      ensures Valid() && forall l :: 0 <= l < NUM_LEVELS ==> State(l) == NO_CHANGE
    {
      deleted := seq(NUM_LEVELS, i => {});
      added := seq(NUM_LEVELS, i => []);
    }

    method NoteDeletions(e: Edit)
      requires Valid() && EditOk(e)
      modifies this`deleted
      ensures Valid()
      ensures forall l :: 0 <= l < NUM_LEVELS ==> deleted[l] == old(deleted)[l] + DeletedAt(e, l)
    {
      var left := e.deleted;
      while left != {}
        invariant Valid() && left <= e.deleted
        invariant forall l :: 0 <= l < NUM_LEVELS ==>
            deleted[l] == old(deleted)[l] + DeletedAt(e.(deleted := e.deleted - left), l)
        decreases |left|
      {
        var d :| d in left;
        ghost var done := e.deleted - left;
        assert e.deleted - (left - {d}) == done + {d};
        forall l | 0 <= l < NUM_LEVELS
          ensures DeletedAt(e.(deleted := done + {d}), l) == DeletedAt(e.(deleted := done), l) + if l ==
              d.0 then {d.1} else {}
        {
          DeletedOneMore(e, done, d, l);
        }
        deleted := deleted[d.0 := deleted[d.0] + {d.1}];
        left := left - {d};
      }
      assert e.deleted - {} == e.deleted && e.(deleted := e.deleted) == e;
    }

    /** Folds one edit into the builder. */
    method ApplyEdit(e: Edit)
      requires Valid() && EditOk(e)
      requires forall l :: 0 <= l < NUM_LEVELS ==> NumbersName(State(l).added + AddedAt(e, l))
      modifies this
      ensures Valid()
      ensures forall l :: 0 <= l < NUM_LEVELS ==> State(l) == Apply(old(State(l)), e, l)
    {
      NoteDeletions(e);
      for i := 0 to |e.added|
        invariant Valid()
        invariant forall l :: 0 <= l < NUM_LEVELS ==> AddedSoFar(old(State(l)), e, i, l, State(l))
      {
        var level, f := e.added[i].0, e.added[i].1;
        var files := InsertFile(added[level], f);
        forall l | 0 <= l < NUM_LEVELS
          ensures AddedSoFar(old(State(l)), e, i + 1, l, if l ==
              level then LevelState(deleted[l] - {f.number}, FileSet(files)) else State(l))
        {
          AddedOneMore(old(State(l)), e, i, l, State(l));
        }
        deleted := deleted[level := deleted[level] - {f.number}];
        added := added[level := files];
      }
      forall l | 0 <= l < NUM_LEVELS ensures State(l) == Apply(old(State(l)), e, l) {
        assert e.added[..|e.added|] == e.added;
        assert e.(added := e.added) == e;
      }
    }

    /** The new version: the base merged with the additions, less the deletions. */
    method SaveTo(base: FileVectors) returns (v: FileVectors)
      requires Valid() && |base| == NUM_LEVELS
      requires forall l :: 0 <= l < NUM_LEVELS ==> SortedBySmallest(base[l]) && Distinguishable(base[l], added[l])
      ensures |v| == NUM_LEVELS
      ensures forall l :: 0 <= l < NUM_LEVELS ==>
          SortedBySmallest(v[l]) && FileSet(v[l]) == Save(State(l), FileSet(base[l]))
    {
      v := [];
      for level := 0 to NUM_LEVELS
        invariant |v| == level
        invariant forall l :: 0 <= l < level ==>
            SortedBySmallest(v[l]) && FileSet(v[l]) == Save(State(l), FileSet(base[l]))
      {
        var files := SaveLevel(base[level], added[level], deleted[level]);
        v := v + [files];
      }
    }
  }

  lemma DeletedOneMore(e: Edit, done: set<(nat, nat)>, d: (nat, nat), l: nat)
    ensures DeletedAt(e.(deleted := done + {d}), l) == DeletedAt(e.(deleted := done), l) + if l ==
        d.0 then {d.1} else {}
  {
    assert (d.0, d.1) == d;
    if l == d.0 {
      assert d in (done + {d}) && d.0 == l;
      assert d.1 in DeletedAt(e.(deleted := done + {d}), l);
    }
  }

  /** The state of a level after the deletions and the first i additions of an edit. */
  ghost predicate AddedSoFar(s: LevelState, e: Edit, i: nat, l: nat, now: LevelState) {
    && i <= |e.added|
    && now.added == s.added + AddedAt(e.(added := e.added[..i]), l)
    && now.deleted == s.deleted + DeletedAt(e, l) - Numbers(AddedAt(e.(added := e.added[..i]), l))
  }

  lemma AddedTake(e: Edit, i: nat, l: nat)
    requires i < |e.added|
    ensures AddedAt(e.(added := e.added[..i + 1]), l) ==
      AddedAt(e.(added := e.added[..i]), l) + if e.added[i].0 == l then {e.added[i].1} else {}
    ensures AddedAt(e.(added := e.added[..i]), l) <= AddedAt(e, l)
    ensures e.added[i].0 == l ==> e.added[i].1 in AddedAt(e, l)
  {
    var a, b := e.(added := e.added[..i]), e.(added := e.added[..i + 1]);
    forall f | f in AddedAt(a, l) ensures f in AddedAt(b, l) && f in AddedAt(e, l) {
      var j :| 0 <= j < i && a.added[j].0 == l && a.added[j].1 == f;
      assert b.added[j] == e.added[j] == a.added[j];
    }
    if e.added[i].0 == l {
      assert b.added[i] == e.added[i];
    }
  }

  lemma AddedOneMore(s: LevelState, e: Edit, i: nat, l: nat, now: LevelState)
    requires i < |e.added| && AddedSoFar(s, e, i, l, now)
    ensures e.added[i].0 != l ==> AddedSoFar(s, e, i + 1, l, now)
    ensures e.added[i].0 == l ==>
      AddedSoFar(s, e, i + 1, l, LevelState(now.deleted - {e.added[i].1.number}, now.added + {e.added[i].1}))
    ensures now.added <= s.added + AddedAt(e, l)
    ensures e.added[i].0 == l ==> e.added[i].1 in AddedAt(e, l)
  {
    AddedTake(e, i, l);
    if e.added[i].0 == l {
      var f := e.added[i].1;
      assert Numbers(AddedAt(e.(added := e.added[..i]), l) + {f}) ==
          Numbers(AddedAt(e.(added := e.added[..i]), l)) + {f.number};
    } else {
      assert AddedAt(e.(added := e.added[..i + 1]), l) == AddedAt(e.(added := e.added[..i]), l);
    }
  }
}
