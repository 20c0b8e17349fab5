/** Version and VersionSet (db/version_set.cc): searching the file vectors of a version. */
module VersionSet {
  import opened Format
  import opened Versions

  /** A version as the code keeps it: one vector of files for each level. */
  type FileVectors = seq<seq<File>>

  /** The order of the vectors of levels above zero. */
  ghost predicate InOrder(files: seq<File>)
  {
    forall i, j :: 0 <= i < j < |files| ==> FileBefore(files[i], files[j])
  }

  ghost predicate NoRepeats(files: seq<File>) {
    forall i, j :: 0 <= i < j < |files| ==> files[i] != files[j]
  }

  ghost function FileSet(files: seq<File>): set<File> {
    set f | f in files
  }

  lemma FileSetAppend(files: seq<File>, f: File)
    ensures FileSet(files + [f]) == FileSet(files) + {f}
  {
  }

  lemma FileSetTake(files: seq<File>, i: nat)
    requires i < |files|
    ensures FileSet(files[..i + 1]) == FileSet(files[..i]) + {files[i]}
  {
    assert files[..i + 1] == files[..i] + [files[i]];
  }

  lemma FileSetInsert(files: seq<File>, k: nat, f: File)
    requires k <= |files|
    ensures FileSet(files[..k] + [f] + files[k..]) == FileSet(files) + {f}
  {
    assert files == files[..k] + files[k..];
    forall g | g in FileSet(files) + {f} ensures g in files[..k] + [f] + files[k..] {
      if g != f { assert g in files[..k] || g in files[k..]; }
    }
  }

  ghost function Sets(v: FileVectors): Levels {
    seq(|v|, i requires 0 <= i < |v| => FileSet(v[i]))
  }

  ghost predicate VectorsOk(v: FileVectors) {
    && |v| == NUM_LEVELS
    && NoRepeats(v[0])
    && (forall i :: 1 <= i < NUM_LEVELS ==> InOrder(v[i]))
    && VersionOk(Sets(v))
    && NumbersUnique(Sets(v))
  }

  // Binary search and overlap

  /** The index of the first file that ends at or after `key`, |files| if there is none. */
  method FindFile(files: seq<File>, key: IKey) returns (r: nat)
    requires InOrder(files)
    ensures r <= |files|
    ensures forall i :: 0 <= i < r ==> Less(files[i].Largest(), key)
    ensures forall i :: r <= i < |files| ==> !Less(files[i].Largest(), key)
  {
    var left, right := 0, |files|;
    while left < right
      invariant 0 <= left <= right <= |files|
      invariant forall i :: 0 <= i < left ==> Less(files[i].Largest(), key)
      invariant forall i :: right <= i < |files| ==> !Less(files[i].Largest(), key)
    {
      var mid := (left + right) / 2;
      var f := files[mid];
      if Less(f.Largest(), key) {
        forall i | 0 <= i < mid ensures Less(files[i].Largest(), key) {
          EndsInOrder(files, i, mid);
        }
        left := mid + 1;
      } else {
        forall i | mid < i < |files| ensures !Less(files[i].Largest(), key) {
          EndsInOrder(files, mid, i);
        }
        right := mid;
      }
    }
    r := right;
  }

  lemma EndsInOrder(files: seq<File>, i: nat, j: nat)
    requires InOrder(files) && i < j < |files|
    ensures Less(files[i].Largest(), files[j].Largest())
    ensures Less(files[i].Smallest(), files[j].Smallest())
  {
    assert files[i] in files && files[j] in files;
    FileEnds(files[i]);
    FileEnds(files[j]);
  }

  /** null stands before all keys. */
  predicate AfterFile(user: Option<int>, f: File)
  {
    user.Some? && user.value > f.Largest().user
  }

  /** null stands after all keys. */
  predicate BeforeFile(user: Option<int>, f: File)
  {
    user.Some? && user.value < f.Smallest().user
  }

  /** Whether some file holds a user key in [smallest, largest], an absent bound being
      unbounded: what both the scan and the binary search decide. */
  ghost predicate SomeOverlap(files: seq<File>, smallest: Option<int>, largest: Option<int>)
  {
    exists f :: f in files && !AfterFile(smallest, f) && !BeforeFile(largest, f)
  }

  method SomeFileOverlapsRange(disjointSorted: bool, files: seq<File>, smallest: Option<int>, largest: Option<int>)
    returns (b: bool)
    requires disjointSorted ==> InOrder(files)
    requires smallest.Some? && largest.Some? ==> smallest.value <= largest.value
    ensures b <==> SomeOverlap(files, smallest, largest)
  {
    if !disjointSorted {
      for i := 0 to |files|
        invariant forall j :: 0 <= j < i ==> AfterFile(smallest, files[j]) || BeforeFile(largest, files[j])
      {
        var f := files[i];
        if !(AfterFile(smallest, f) || BeforeFile(largest, f)) {
          return true;
        }
      }
      return false;
    }
    var index := 0;
    if smallest.Some? {
      index := FindFile(files, IKey(smallest.value, MAX_SEQUENCE, Value));
      forall i | 0 <= i < |files| ensures AfterFile(smallest, files[i]) <==> i < index {
        var f := files[i];
        assert f in files;
        FileEnds(f);
        BeforeLookupKey(f.Largest(), smallest.value, MAX_SEQUENCE);
      }
    }
    if index >= |files| {
      return false;
    }
    b := !BeforeFile(largest, files[index]);
    if b {
      assert files[index] in files;
    } else {
      forall i | index < i < |files| ensures BeforeFile(largest, files[i]) {
        EndsInOrder(files, index, i);
      }
    }
  }

  // Point lookup

  datatype Saver = NotFound | Found(value: string) | Deleted

  /** TableCache::Get with SaveValue as its callback. */
  function TableGet(es: seq<Entry>, user: int, snapshot: nat): Saver {
    var i := LowerBound(es, LookupKey(user, snapshot));
    if i == |es| || es[i].ik.user != user then NotFound
    else if es[i].ik.kind.Value? then Found(es[i].value) else Deleted
  }

  /** A sorted table yields the newest visible entry of the user key it holds. */
  lemma TableGetVisible(es: seq<Entry>, user: int, snapshot: nat)
    requires Sorted(es)
    ensures TableGet(es, user, snapshot).NotFound? ==> Hidden(Elements(es), user, snapshot)
    ensures !TableGet(es, user, snapshot).NotFound? ==>
      exists e :: IsVisible(Elements(es), user, snapshot, e) && ResultOf(TableGet(es, user, snapshot)) == Result(e)
  {
    var target := LookupKey(user, snapshot);
    var i := LowerBound(es, target);
    forall j | 0 <= j < |es| ensures j < i ==> !(es[j].ik.user == user && es[j].ik.seqno <= snapshot) {
      BeforeLookupKey(es[j].ik, user, snapshot);
    }
    if i < |es| {
      BeforeLookupKey(es[i].ik, user, snapshot);
      forall j | i < j < |es| ensures Precedes(es[i].ik, es[j].ik) {}
      if es[i].ik.user == user {
        assert IsVisible(Elements(es), user, snapshot, es[i]);
      }
    }
  }

  function ResultOf(s: Saver): Option<string> {
    if s.Found? then Some(s.value) else None
  }

  /** Files in order of decreasing number. */
  method SortNewestFirst(files: seq<File>) returns (r: seq<File>)
    ensures FileSet(r) == FileSet(files)
    ensures forall i, j :: 0 <= i < j < |r| ==> r[i].number >= r[j].number
  {
    r := [];
    for n := 0 to |files|
      invariant FileSet(r) == FileSet(files[..n])
      invariant forall i, j :: 0 <= i < j < |r| ==> r[i].number >= r[j].number
    {
      var f, k := files[n], 0;
      while k < |r| && r[k].number > f.number
        invariant 0 <= k <= |r|
        invariant forall i :: 0 <= i < k ==> r[i].number > f.number
      {
        k := k + 1;
      }
      FileSetTake(files, n);
      FileSetInsert(r, k, f);
      r := r[..k] + [f] + r[k..];
    }
    assert files[..|files|] == files;
  }

  lemma FoundInLevel(v: Levels, level: nat, user: int, s: nat, e: Entry)
    requires VersionOk(v) && level < NUM_LEVELS
    requires Hidden(Between(v, 0, level), user, s)
    requires IsVisible(EntriesOf(v[level]), user, s, e)
    ensures View(AllEntries(v), user, s) == Result(e)
  {
    forall x | x in AllEntries(v) && x.ik.user == user && x.ik.seqno <= s ensures x.ik.seqno <= e.ik.seqno {
      var i, f :| 0 <= i < |v| && f in v[i] && x in f.entries;
      InEntriesOf(v[i], f, x);
      if level < i {
        assert Newer(EntriesOf(v[level]), EntriesOf(v[i]));
      }
    }
    assert IsVisible(AllEntries(v), user, s, e);
    ViewOf(AllEntries(v), user, s, e);
  }

  /** Among overlapping files the newest one that shows the key decides. */
  lemma FoundInNewestFile(fs: set<File>, f: File, user: int, s: nat, e: Entry)
    requires NewestByNumber(fs) && f in fs
    requires forall g :: g in fs && g != f && g.number >= f.number ==> Hidden(Elements(g.entries), user, s)
    requires IsVisible(Elements(f.entries), user, s, e)
    ensures IsVisible(EntriesOf(fs), user, s, e)
  {
    forall x | x in EntriesOf(fs) && x.ik.user == user && x.ik.seqno <= s ensures x.ik.seqno <= e.ik.seqno {
      var g :| g in fs && x in g.entries;
      assert x in Elements(g.entries);
      if g != f && g.number < f.number {
        assert Newer(Elements(f.entries), Elements(g.entries));
      }
    }
  }

  lemma OutOfRange(f: File, user: int, s: nat)
    requires !f.Spans(user)
    ensures Hidden(Elements(f.entries), user, s)
  {
    forall x | x in f.entries ensures x.ik.user != user { FileRange(f, x); }
  }

  ghost predicate Split(files: seq<File>, index: nat, key: IKey) {
    && index <= |files|
    && (forall i :: 0 <= i < index ==> Less(files[i].Largest(), key))
    && (forall i :: index <= i < |files| ==> !Less(files[i].Largest(), key))
  }

  /** A visible entry of the key is in no file before the one found; when it is in a later
      one, the found file ends in an entry of the same user key that is newer still. */
  lemma CandidateFile(files: seq<File>, index: nat, user: int, s: nat, j: nat, x: Entry)
    requires InOrder(files) && Split(files, index, LookupKey(user, s))
    requires j < |files| && x in files[j].entries && x.ik.user == user && x.ik.seqno <= s
    ensures index <= j
    ensures index < j ==> files[index].Largest().user == user && x.ik.seqno <= files[index].Largest().seqno <= s
  {
    FileRange(files[j], x);
    BeforeLookupKey(files[j].Largest(), user, s);
    if index < j {
      BeforeLookupKey(files[index].Largest(), user, s);
      assert FileBefore(files[index], files[j]);
    }
  }

  /** In a level of disjoint files the first file that ends at or after the lookup key
      answers for the whole level. */
  lemma LevelSearch(files: seq<File>, index: nat, user: int, s: nat)
    requires InOrder(files) && Split(files, index, LookupKey(user, s))
    ensures index == |files| || Hidden(Elements(files[index].entries), user, s) ==>
        Hidden(EntriesOf(FileSet(files)), user, s)
    ensures index < |files| ==>
      forall e :: IsVisible(Elements(files[index].entries), user, s, e) ==>
          IsVisible(EntriesOf(FileSet(files)), user, s, e)
  {
    forall x | x in EntriesOf(FileSet(files)) && x.ik.user == user && x.ik.seqno <= s
      ensures index < |files| && !Hidden(Elements(files[index].entries), user, s)
      ensures forall e :: IsVisible(Elements(files[index].entries), user, s, e) ==> x.ik.seqno <= e.ik.seqno
    {
      var f :| f in FileSet(files) && x in f.entries;
      var j :| 0 <= j < |files| && files[j] == f;
      CandidateFile(files, index, user, s, j, x);
      FileEnds(files[index]);
      var l := files[index].entries[|files[index].entries| - 1];
      assert l in Elements(files[index].entries);
      assert x in Elements(f.entries);
    }
    if index < |files| {
      assert forall e :: e in files[index].entries ==> e in EntriesOf(FileSet(files)) by {
        assert files[index] in FileSet(files);
      }
    }
  }

  ghost predicate NoneKnows(r: seq<File>, n: nat, user: int, s: nat)
    requires n <= |r|
  {
    forall j :: 0 <= j < n ==> Hidden(Elements(r[j].entries), user, s)
  }

  /** Searching `r` in order and stopping at the first hit reads what all of `files` shows. */
  ghost predicate AnswersFor(r: seq<File>, files: seq<File>, user: int, s: nat) {
    && (NoneKnows(r, |r|, user, s) ==> Hidden(EntriesOf(FileSet(files)), user, s))
    && forall n, e | 0 <= n < |r| && NoneKnows(r, n, user, s) && IsVisible(Elements(r[n].entries), user, s, e) ::
         IsVisible(EntriesOf(FileSet(files)), user, s, e)
  }

  /** Searches files in the given order and stops at the first that knows the key. */
  method SearchFiles(files: seq<File>, user: int, snapshot: nat) returns (saver: Saver, n: nat)
    ensures n <= |files|
    ensures NoneKnows(files, n, user, snapshot)
    ensures saver.NotFound? <==> n == |files|
    ensures !saver.NotFound? ==>
      exists e :: IsVisible(Elements(files[n].entries), user, snapshot, e) && ResultOf(saver) == Result(e)
  {
    n := 0;
    while n < |files|
      invariant n <= |files|
      invariant NoneKnows(files, n, user, snapshot)
    {
      saver := TableGet(files[n].entries, user, snapshot);
      TableGetVisible(files[n].entries, user, snapshot);
      if !saver.NotFound? {
        return;
      }
      n := n + 1;
    }
    saver := NotFound;
  }

  /** The files Version::Get searches at a level, in its order. */
  method FilesToSearch(files: seq<File>, level: nat, user: int, snapshot: nat) returns (r: seq<File>)
    requires level > 0 ==> InOrder(files)
    requires level == 0 ==> NewestByNumber(FileSet(files))
    requires forall f, g :: f in files && g in files && f.number == g.number ==> f == g
    ensures AnswersFor(r, files, user, snapshot)
  {
    r := [];
    if level == 0 {
      r := SearchedInLevelZero(files, user);
      LevelZeroSearch(files, r, user, snapshot);
    } else {
      var index := FindFile(files, LookupKey(user, snapshot));
      LevelSearch(files, index, user, snapshot);
      if index < |files| {
        if user < files[index].Smallest().user {
          OutOfRange(files[index], user, snapshot);
        } else {
          r := [files[index]];
          assert r[0] == files[index];
        }
      }
    }
  }

  lemma LevelZeroSearch(files: seq<File>, r: seq<File>, user: int, s: nat)
    requires NewestByNumber(FileSet(files))
    requires forall f, g :: f in files && g in files && f.number == g.number ==> f == g
    requires FileSet(r) == set f | f in files && f.Spans(user)
    requires forall i, j :: 0 <= i < j < |r| ==> r[i].number >= r[j].number
    ensures AnswersFor(r, files, user, s)
  {
    forall g | g in files && g !in r ensures Hidden(Elements(g.entries), user, s) {
      assert g !in FileSet(r);
      OutOfRange(g, user, s);
    }
    if NoneKnows(r, |r|, user, s) {
      forall x | x in EntriesOf(FileSet(files)) && x.ik.user == user ensures x.ik.seqno > s {
        var f :| f in FileSet(files) && x in f.entries;
        assert x in Elements(f.entries);
      }
    }
    forall n, e | 0 <= n < |r| && NoneKnows(r, n, user, s) && IsVisible(Elements(r[n].entries), user, s, e)
      ensures IsVisible(EntriesOf(FileSet(files)), user, s, e)
    {
      assert r[n] in FileSet(r);
      forall g | g in FileSet(files) && g != r[n] && g.number >= r[n].number
        ensures Hidden(Elements(g.entries), user, s)
      {
        if g in r {
          var j :| 0 <= j < |r| && r[j] == g;
        }
      }
      FoundInNewestFile(FileSet(files), r[n], user, s, e);
    }
  }

  /** Version::Get: level zero newest file first, then one candidate file a level, stopping at
      the first entry of the key, reads what the whole version shows. */
  method Get(v: FileVectors, user: int, snapshot: nat) returns (r: Option<string>)
    requires VectorsOk(v)
    ensures r == View(AllEntries(Sets(v)), user, snapshot)
  {
    ghost var sets := Sets(v);
    for level := 0 to NUM_LEVELS
      invariant Hidden(Between(sets, 0, level), user, snapshot)
    {
      assert sets[level] == FileSet(v[level]);
      var files := FilesToSearch(v[level], level, user, snapshot);
      var saver, n := SearchFiles(files, user, snapshot);
      if saver.NotFound? {
        HiddenThrough(sets, level, user, snapshot);
      } else {
        ghost var e :| IsVisible(Elements(files[n].entries), user, snapshot, e) && ResultOf(saver) == Result(e);
        FoundInLevel(sets, level, user, snapshot, e);
        return ResultOf(saver);
      }
    }
    return None;
  }

  lemma HiddenThrough(v: Levels, level: nat, user: int, s: nat)
    requires level < |v|
    requires Hidden(Between(v, 0, level), user, s) && Hidden(EntriesOf(v[level]), user, s)
    ensures Hidden(Between(v, 0, level + 1), user, s)
  {
    forall x | x in Between(v, 0, level + 1) && x.ik.user == user ensures x.ik.seqno > s {
      var i, f :| 0 <= i < level + 1 && f in v[i] && x in f.entries;
      if i < level {
        assert x in Between(v, 0, level);
      } else {
        InEntriesOf(v[level], f, x);
      }
    }
  }

  /** The level-zero files whose range holds the key, newest first. */
  method SearchedInLevelZero(files: seq<File>, user: int) returns (r: seq<File>)
    ensures FileSet(r) == set f | f in files && f.Spans(user)
    ensures forall i, j :: 0 <= i < j < |r| ==> r[i].number >= r[j].number
  {
    var tmp: seq<File> := [];
    for i := 0 to |files|
      invariant FileSet(tmp) == set f | f in files[..i] && f.Spans(user)
    {
      var f := files[i];
      assert files[..i + 1] == files[..i] + [f];
      if user >= f.Smallest().user && user <= f.Largest().user {
        FileSetAppend(tmp, f);
        tmp := tmp + [f];
      }
    }
    assert files[..|files|] == files;
    r := SortNewestFirst(tmp);
  }
}
