/** Choosing the inputs of a compaction and the level of a flushed memtable
    (db/version_set.cc). */
module CompactionPicker {
  import opened Format
  import opened Versions
  import opened VersionSet

  // Ranges of user keys

  /** The range of `f` meets [begin, end], an absent bound being unbounded. */
  predicate Meets(f: File, begin: Option<int>, end: Option<int>) {
    !AfterFile(begin, f) && !BeforeFile(end, f)
  }

  /** The range of `f` lies inside [begin, end]. */
  predicate Within(f: File, begin: Option<int>, end: Option<int>) {
    && (begin.Some? ==> begin.value <= f.Smallest().user)
    && (end.Some? ==> f.Largest().user <= end.value)
  }

  /** [begin, end] contains [begin', end']. */
  predicate Wider(begin: Option<int>, end: Option<int>, begin': Option<int>, end': Option<int>) {
    && (begin.Some? ==> begin'.Some? && begin.value <= begin'.value)
    && (end.Some? ==> end'.Some? && end'.value <= end.value)
  }

  predicate InRange(u: int, begin: Option<int>, end: Option<int>) {
    (begin.Some? ==> begin.value <= u) && (end.Some? ==> u <= end.value)
  }

  /** Every file that meets the range lies inside it. */
  ghost predicate Closed(fs: set<File>, begin: Option<int>, end: Option<int>) {
    forall f :: f in fs && Meets(f, begin, end) ==> Within(f, begin, end)
  }

  /** The range of `f` meets the smallest range that holds all of `fs`. */
  ghost predicate MeetsHull(f: File, fs: set<File>) {
    exists g, h :: g in fs && h in fs && g.Smallest().user <= f.Largest().user && f.Smallest().user <= h.Largest().user
  }

  predicate Separates(f: File, u: int, g: File) {
    f.Smallest().user <= u <= g.Largest().user
  }

  ghost predicate Covered(fs: set<File>, u: int) {
    exists h :: h in fs && h.Spans(u)
  }

  /** The ranges of `fs` leave no gap: each user key between two of them is in one of them. */
  ghost predicate Connected(fs: set<File>) {
    forall u, f, g :: f in fs && g in fs && Separates(f, u, g) ==> Covered(fs, u)
  }

  lemma ConnectedUnion(a: set<File>, b: set<File>)
    requires Connected(a) && forall f :: f in b ==> MeetsHull(f, a)
    ensures Connected(a + b)
  {
    forall u, f, g | f in a + b && g in a + b && Separates(f, u, g) ensures Covered(a + b, u) {
      if !f.Spans(u) && !g.Spans(u) {
        FileEnds(f);
        FileEnds(g);
        assert MeetsHull(f, a) by { if f in a { assert f.Smallest().user <= f.Largest().user; } }
        assert MeetsHull(g, a) by { if g in a { assert g.Smallest().user <= g.Largest().user; } }
        var f' :| f' in a && f'.Smallest().user <= f.Largest().user;
        var g' :| g' in a && g.Smallest().user <= g'.Largest().user;
        assert Separates(f', u, g');
        assert Covered(a, u);
      }
    }
  }

  // GetOverlappingInputs

  lemma Bounds(files: seq<File>) returns (lo: int, hi: int)
    ensures forall f :: f in files ==> lo <= f.Smallest().user && f.Largest().user <= hi
  {
    lo, hi := 0, 0;
    for i := 0 to |files|
      invariant forall j :: 0 <= j < i ==> lo <= files[j].Smallest().user && files[j].Largest().user <= hi
    {
      if files[i].Smallest().user < lo { lo := files[i].Smallest().user; }
      if files[i].Largest().user > hi { hi := files[i].Largest().user; }
    }
  }

  function Distance(begin: Option<int>, end: Option<int>, lo: int, hi: int): nat {
    (if begin.Some? && begin.value > lo then begin.value - lo else 0) +
    (if end.Some? && hi > end.value then hi - end.value else 0)
  }

  /** [ub, ue] is the least range that contains [begin, end] and that no file straddles. */
  ghost predicate LeastClosed(fs: set<File>, begin: Option<int>, end: Option<int>, ub: Option<int>, ue: Option<int>) {
    && Wider(ub, ue, begin, end)
    && Closed(fs, ub, ue)
    && WithinAllClosed(fs, begin, end, ub, ue)
  }

  ghost predicate WithinAllClosed(fs: set<File>, begin: Option<int>, end: Option<int>, ub: Option<int>,
      ue: Option<int>) {
    forall lo, hi :: Closed(fs, lo, hi) && Wider(lo, hi, begin, end) ==> Wider(lo, hi, ub, ue)
  }

  ghost function Meeting(files: seq<File>, begin: Option<int>, end: Option<int>): set<File> {
    set f | f in files && Meets(f, begin, end)
  }

  lemma MeetingTake(files: seq<File>, i: nat, begin: Option<int>, end: Option<int>)
    requires i < |files|
    ensures Meeting(files[..i + 1], begin, end) ==
      Meeting(files[..i], begin, end) + if Meets(files[i], begin, end) then {files[i]} else {}
  {
    assert files[..i + 1] == files[..i] + [files[i]];
  }

  /** All files of a level that meet the range. In level zero the range is first widened to
      the least closed one, which is the old range together with the ranges of files found. */
  method GetOverlappingInputs(levelZero: bool, files: seq<File>, begin: Option<int>, end: Option<int>)
    returns (inputs: seq<File>, ghost ub: Option<int>, ghost ue: Option<int>)
    ensures FileSet(inputs) == Meeting(files, ub, ue)
    ensures if levelZero then LeastClosed(FileSet(files), begin, end, ub, ue) else ub == begin && ue == end
    ensures Grown(files, begin, end, ub, ue)
    ensures !levelZero && InOrder(files) ==> InOrder(inputs)
    ensures NoRepeats(files) ==> NoRepeats(inputs)
  {
    hide Grown, WithinAllClosed, Closed, NoRepeats, InOrder, FileSet;
    inputs := [];
    StartEmpty(files, begin, end);
    var userBegin, userEnd := begin, end;
    ghost var lo, hi := Bounds(files);
    var i := 0;
    while i < |files|
      invariant 0 <= i <= |files|
      invariant FileSet(inputs) == Meeting(files[..i], userBegin, userEnd)
      invariant levelZero ==> Closed(FileSet(inputs), userBegin, userEnd)
      invariant !levelZero ==> userBegin == begin && userEnd == end
      invariant !levelZero && InOrder(files) ==> InOrder(inputs)
      invariant NoRepeats(files) ==> NoRepeats(inputs)
      invariant Wider(userBegin, userEnd, begin, end)
      invariant begin.Some? == userBegin.Some? && end.Some? == userEnd.Some?
      invariant WithinAllClosed(FileSet(files), begin, end, userBegin, userEnd)
      invariant Grown(files, begin, end, userBegin, userEnd)
      decreases Distance(userBegin, userEnd, lo, hi), |files| - i
    {
      var f := files[i];
      MeetingTake(files, i, userBegin, userEnd);
      i := i + 1;
      if AfterFile(userBegin, f) {
      } else if BeforeFile(userEnd, f) {
      } else {
        if !levelZero && InOrder(files) {
          StillInOrder(files, i - 1, inputs, userBegin, userEnd);
        }
        if NoRepeats(files) {
          NotYetThere(files, i - 1, inputs, userBegin, userEnd);
        }
        FileSetAppend(inputs, f);
        if levelZero && Within(f, userBegin, userEnd) { ClosedAppend(FileSet(inputs), f, userBegin, userEnd); }
        inputs := inputs + [f];
        if levelZero {
          if userBegin.Some? && f.Smallest().user < userBegin.value {
            Widen(files, f, begin, end, userBegin, userEnd, Some(f.Smallest().user), userEnd);
            userBegin := Some(f.Smallest().user);
            inputs, i := [], 0;
            StartEmpty(files, userBegin, userEnd);
          } else if userEnd.Some? && f.Largest().user > userEnd.value {
            Widen(files, f, begin, end, userBegin, userEnd, userBegin, Some(f.Largest().user));
            userEnd := Some(f.Largest().user);
            inputs, i := [], 0;
            StartEmpty(files, userBegin, userEnd);
          }
        }
      }
    }
    assert files[..|files|] == files;
    ub, ue := userBegin, userEnd;
    AllClosed(files, inputs, ub, ue);
  }

  lemma StartEmpty(files: seq<File>, begin: Option<int>, end: Option<int>)
    ensures FileSet([]) == Meeting(files[..0], begin, end) && Closed(FileSet([]), begin, end)
    ensures InOrder([]) && NoRepeats([])
    ensures WithinAllClosed(FileSet(files), begin, end, begin, end) && Grown(files, begin, end, begin, end)
  {
  }

  lemma ClosedAppend(fs: set<File>, f: File, begin: Option<int>, end: Option<int>)
    requires Closed(fs, begin, end) && Within(f, begin, end)
    ensures Closed(fs + {f}, begin, end)
  {
  }

  /** Closed for the files that meet the range is closed for all. */
  lemma AllClosed(files: seq<File>, inputs: seq<File>, begin: Option<int>, end: Option<int>)
    requires FileSet(inputs) == Meeting(files, begin, end)
    ensures Closed(FileSet(inputs), begin, end) ==> Closed(FileSet(files), begin, end)
  {
    forall f | Closed(FileSet(inputs), begin, end) && f in files && Meets(f, begin, end) ensures Within(f, begin, end) {
      assert f in FileSet(inputs);
    }
  }

  /** Each key gained by widening lies in a file that meets the widened range. */
  ghost predicate Grown(files: seq<File>, begin: Option<int>, end: Option<int>, ub: Option<int>, ue: Option<int>) {
    forall u :: InRange(u, ub, ue) && !InRange(u, begin, end) ==>
        exists f :: f in files && f.Spans(u) && Meets(f, ub, ue)
  }

  lemma Widen(files: seq<File>, f: File, begin: Option<int>, end: Option<int>, b: Option<int>, e: Option<int>,
      b': Option<int>, e': Option<int>)
    requires f in files && Meets(f, b, e) && Grown(files, begin, end, b, e) && Wider(b, e, begin, end)
    requires WithinAllClosed(FileSet(files), begin, end, b, e)
    requires b.Some? == begin.Some? && e.Some? == end.Some?
    requires (e' == e && b.Some? && b' == Some(f.Smallest().user) && b'.value < b.value)
      || (b' == b && e.Some? && e' == Some(f.Largest().user) && e'.value > e.value)
    ensures Grown(files, begin, end, b', e')
    ensures WithinAllClosed(FileSet(files), begin, end, b', e')
  {
    FileEnds(f);
    forall u | InRange(u, b', e') && !InRange(u, begin, end)
      ensures exists g :: g in files && g.Spans(u) && Meets(g, b', e')
    {
      if InRange(u, b, e) {
        var g :| g in files && g.Spans(u) && Meets(g, b, e);
      } else {
        assert f.Spans(u);
      }
    }
    forall l, h | Closed(FileSet(files), l, h) && Wider(l, h, begin, end) ensures Wider(l, h, b', e') {
      assert Wider(l, h, b, e);
      assert f in FileSet(files) && Meets(f, l, h);
    }
  }

  lemma NotYetThere(files: seq<File>, i: nat, inputs: seq<File>, begin: Option<int>, end: Option<int>)
    requires i < |files| && NoRepeats(files) && NoRepeats(inputs) && FileSet(inputs) == Meeting(files[..i], begin, end)
    ensures NoRepeats(inputs + [files[i]])
  {
    forall j | 0 <= j < |inputs| ensures inputs[j] != files[i] {
      assert inputs[j] in FileSet(inputs);
      assert inputs[j] in files[..i];
    }
  }

  lemma StillInOrder(files: seq<File>, i: nat, inputs: seq<File>, begin: Option<int>, end: Option<int>)
    requires i < |files| && InOrder(files) && InOrder(inputs) && FileSet(inputs) == Meeting(files[..i], begin, end)
    ensures InOrder(inputs + [files[i]])
  {
    forall j | 0 <= j < |inputs| ensures FileBefore(inputs[j], files[i]) {
      assert inputs[j] in FileSet(inputs);
      assert inputs[j] in files[..i];
    }
  }

  // Boundary files

  ghost predicate IsLargestKey(files: seq<File>, key: IKey) {
    && (exists f :: f in files && f.Largest() == key)
    && forall f :: f in files ==> !Less(key, f.Largest())
  }

  ghost predicate IsSmallestKey(files: seq<File>, key: IKey) {
    && (exists f :: f in files && f.Smallest() == key)
    && forall f :: f in files ==> !Less(f.Smallest(), key)
  }

  method FindLargestKey(files: seq<File>) returns (key: Option<IKey>)
    ensures key.None? <==> files == []
    ensures key.Some? ==> IsLargestKey(files, key.value)
  {
    if files == [] {
      return None;
    }
    var k := files[0].Largest();
    for i := 1 to |files|
      invariant exists j :: 0 <= j < i && files[j].Largest() == k
      invariant forall j :: 0 <= j < i ==> !Less(k, files[j].Largest())
    {
      if Less(k, files[i].Largest()) {
        k := files[i].Largest();
      }
    }
    key := Some(k);
  }

  /** `f` begins after `key`, with its user key. */
  predicate ContinuesKey(f: File, key: IKey) {
    Less(key, f.Smallest()) && f.Smallest().user == key.user
  }

  method FindSmallestBoundaryFile(levelFiles: seq<File>, largestKey: IKey) returns (r: Option<File>)
    ensures r.None? ==> forall f :: f in levelFiles ==> !ContinuesKey(f, largestKey)
    ensures r.Some? ==> r.value in levelFiles && ContinuesKey(r.value, largestKey)
    ensures r.Some? ==> forall f :: f in levelFiles && ContinuesKey(f, largestKey) ==>
        !Less(f.Smallest(), r.value.Smallest())
  {
    r := None;
    for i := 0 to |levelFiles|
      invariant r.None? ==> forall j :: 0 <= j < i ==> !ContinuesKey(levelFiles[j], largestKey)
      invariant r.Some? ==> r.value in levelFiles && ContinuesKey(r.value, largestKey)
      invariant r.Some? ==>
        forall j :: 0 <= j < i && ContinuesKey(levelFiles[j], largestKey) ==>
            !Less(levelFiles[j].Smallest(), r.value.Smallest())
    {
      var f := levelFiles[i];
      if Less(largestKey, f.Smallest()) && f.Smallest().user == largestKey.user {
        if r.None? || Less(f.Smallest(), r.value.Smallest()) {
          r := Some(f);
        }
      }
    }
  }

  /** `part` is a run of consecutive files of `all`. */
  ghost predicate Contiguous(all: set<File>, part: set<File>) {
    forall f :: f in all && f !in part ==>
      (forall g :: g in part ==> FileBefore(f, g)) || (forall g :: g in part ==> FileBefore(g, f))
  }

  /** No file outside `part` goes on with the user key some file of `part` ends with. */
  ghost predicate NoBoundary(all: set<File>, part: set<File>) {
    forall f, g :: f in all && f !in part && g in part ==> !ContinuesKey(f, g.Largest())
  }

  /** What extending `c` to `r` by boundary files keeps; `other` stands for the inputs of the
      other level. */
  ghost predicate BoundaryExtension(levelFiles: seq<File>, c: seq<File>, r: seq<File>, other: set<File>) {
    && c <= r
    && FileSet(r) <= FileSet(levelFiles)
    && (Connected(other + FileSet(c)) ==> Connected(other + FileSet(r)))
    && (Apart(FileSet(levelFiles)) && Contiguous(FileSet(levelFiles), FileSet(c)) ==>
      Contiguous(FileSet(levelFiles), FileSet(r)))
    && (InOrder(c) ==> InOrder(r))
    && (NoRepeats(c) ==> NoRepeats(r))
    && (NoneContinues(levelFiles, c) ==> r == c)
  }

  ghost predicate NoneContinues(levelFiles: seq<File>, c: seq<File>) {
    forall key, f :: IsLargestKey(c, key) && f in levelFiles ==> !ContinuesKey(f, key)
  }

  /** Extends the files of a compaction, at the end, until no file of the level goes on with
      the user key they end with. */
  method AddBoundaryInputs(levelFiles: seq<File>, compactionFiles: seq<File>, ghost other: set<File>)
      returns (r: seq<File>)
    requires FileSet(compactionFiles) <= FileSet(levelFiles)
    ensures BoundaryExtension(levelFiles, compactionFiles, r, other)
    ensures NoneContinues(levelFiles, r)
  {
    r := compactionFiles;
    NoExtension(levelFiles, r, other);
    var key := FindLargestKey(r);
    if key.None? {
      return;
    }
    var largestKey := key.value;
    var continueSearching := true;
    while continueSearching
      invariant IsLargestKey(r, largestKey)
      invariant !continueSearching ==> forall f :: f in levelFiles ==> !ContinuesKey(f, largestKey)
      invariant BoundaryExtension(levelFiles, compactionFiles, r, other)
      decreases continueSearching, |FileSet(levelFiles) - FileSet(r)|
    {
      var boundary := FindSmallestBoundaryFile(levelFiles, largestKey);
      if boundary.Some? {
        var b := boundary.value;
        BoundaryLargest(levelFiles, r, largestKey, b);
        BoundaryStep(levelFiles, compactionFiles, r, largestKey, b, other);
        r := r + [b];
        largestKey := b.Largest();
      } else {
        continueSearching := false;
      }
    }
    LargestKeyAlike(r, largestKey);
  }

  lemma LargestKeyAlike(r: seq<File>, key: IKey)
    requires IsLargestKey(r, key)
    ensures forall k, f :: IsLargestKey(r, k) && ContinuesKey(f, k) ==> ContinuesKey(f, key)
  {
    forall k, f | IsLargestKey(r, k) && ContinuesKey(f, k) ensures ContinuesKey(f, key) {
      assert !Less(k, key) && !Less(key, k);
    }
  }

  lemma NoExtension(levelFiles: seq<File>, c: seq<File>, other: set<File>)
    requires FileSet(c) <= FileSet(levelFiles)
    ensures BoundaryExtension(levelFiles, c, c, other)
  {
  }

  lemma BoundaryLargest(levelFiles: seq<File>, r: seq<File>, key: IKey, b: File)
    requires IsLargestKey(r, key) && b in levelFiles && ContinuesKey(b, key)
    ensures FileSet(r + [b]) == FileSet(r) + {b} && b !in FileSet(r)
    ensures |FileSet(levelFiles) - FileSet(r + [b])| < |FileSet(levelFiles) - FileSet(r)|
    ensures IsLargestKey(r + [b], b.Largest())
  {
    FileSetAppend(r, b);
    FileEnds(b);
    assert FileSet(levelFiles) - FileSet(r + [b]) == (FileSet(levelFiles) - FileSet(r)) - {b};
    assert b in r + [b];
    forall f | f in r + [b] ensures !Less(b.Largest(), f.Largest()) {
      if f in r {} else { assert f == b; }
    }
  }

  lemma BoundaryStep(levelFiles: seq<File>, c: seq<File>, r: seq<File>, key: IKey, b: File, other: set<File>)
    requires BoundaryExtension(levelFiles, c, r, other) && IsLargestKey(r, key)
    requires b in levelFiles && ContinuesKey(b, key)
    requires forall f :: f in levelFiles && ContinuesKey(f, key) ==> !Less(f.Smallest(), b.Smallest())
    ensures BoundaryExtension(levelFiles, c, r + [b], other)
  {
    FileSetAppend(r, b);
    FileEnds(b);
    var g :| g in r && g.Largest() == key;
    FileEnds(g);
    if Connected(other + FileSet(r)) {
      BoundaryConnected(other + FileSet(r), g, b);
      assert other + FileSet(r) + {b} == other + FileSet(r + [b]);
    }
    if Apart(FileSet(levelFiles)) && Contiguous(FileSet(levelFiles), FileSet(r)) {
      BoundaryContiguous(FileSet(levelFiles), FileSet(r), g, b);
    }
    if InOrder(r) {
      BoundaryInOrder(r, key, b);
    }
    if NoneContinues(levelFiles, c) {
      assert false;
    }
  }

  lemma BoundaryConnected(fs: set<File>, g: File, b: File)
    requires Connected(fs) && g in fs && ContinuesKey(b, g.Largest())
    ensures Connected(fs + {b})
  {
    FileEnds(b);
    FileEnds(g);
    assert MeetsHull(b, fs);
    ConnectedUnion(fs, {b});
  }

  lemma BoundaryInOrder(r: seq<File>, key: IKey, b: File)
    requires InOrder(r) && IsLargestKey(r, key) && ContinuesKey(b, key)
    ensures InOrder(r + [b])
  {
    forall j | 0 <= j < |r| ensures FileBefore(r[j], b) {
      assert r[j] in r;
    }
  }

  lemma BoundaryContiguous(all: set<File>, part: set<File>, g: File, b: File)
    requires Apart(all) && Contiguous(all, part)
    requires part <= all && g in part && b in all && ContinuesKey(b, g.Largest())
    requires forall f :: f in all && ContinuesKey(f, g.Largest()) ==> !Less(f.Smallest(), b.Smallest())
    ensures Contiguous(all, part + {b})
  {
    FileEnds(g);
    FileEnds(b);
    forall f | f in all && f !in part + {b}
      ensures (forall h :: h in part + {b} ==> FileBefore(f, h)) || (forall h :: h in part + {b} ==> FileBefore(h, f))
    {
      FileEnds(f);
      assert FileBefore(f, g) || FileBefore(g, f);
      assert FileBefore(f, b) || FileBefore(b, f);
    }
  }

  // The inputs of a compaction

  method GetRange(inputs: seq<File>) returns (smallest: IKey, largest: IKey)
    requires inputs != []
    ensures IsSmallestKey(inputs, smallest) && IsLargestKey(inputs, largest)
  {
    smallest, largest := inputs[0].Smallest(), inputs[0].Largest();
    for i := 1 to |inputs|
      invariant exists j :: 0 <= j < i && inputs[j].Smallest() == smallest
      invariant exists j :: 0 <= j < i && inputs[j].Largest() == largest
      invariant forall j :: 0 <= j < i ==> !Less(inputs[j].Smallest(), smallest) && !Less(largest, inputs[j].Largest())
    {
      if Less(inputs[i].Smallest(), smallest) {
        smallest := inputs[i].Smallest();
      }
      if Less(largest, inputs[i].Largest()) {
        largest := inputs[i].Largest();
      }
    }
  }

  lemma HullMeets(files: seq<File>, smallest: IKey, largest: IKey, f: File)
    requires IsSmallestKey(files, smallest) && IsLargestKey(files, largest)
    ensures Meets(f, Some(smallest.user), Some(largest.user)) <==> MeetsHull(f, FileSet(files))
  {
  }

  /** The files of the upper level: in level zero no file left out meets their range, above it
      none left out goes on with a user key that one of them ends with. */
  ghost predicate UpperOk(all: set<File>, level: nat, part: set<File>) {
    && part != {} && part <= all
    && (level == 0 ==> forall f :: f in all && f !in part ==> !MeetsHull(f, part))
    && (level > 0 ==> NoBoundary(all, part))
  }

  /** What SetupOtherInputs makes of the files first picked. */
  ghost predicate Picked(v: Levels, level: nat, in0: set<File>, in1: set<File>) {
    && |v| == NUM_LEVELS && level + 1 < NUM_LEVELS
    && UpperOk(v[level], level, in0)
    && in1 == (set f | f in v[level + 1] && MeetsHull(f, in0))
    && Connected(in0 + in1)
  }

  ghost predicate StartOk(all: set<File>, level: nat, part: set<File>) {
    && part != {} && part <= all && Connected(part)
    && (level == 0 ==> forall f :: f in all && f !in part ==> !MeetsHull(f, part))
    && (level > 0 ==> Contiguous(all, part))
  }

  /** Files that meet a range of user keys are consecutive in a level of disjoint files. */
  lemma MeetingContiguous(files: seq<File>, begin: int, end: int)
    requires Apart(FileSet(files))
    ensures Contiguous(FileSet(files), Meeting(files, Some(begin), Some(end)))
  {
    var part := Meeting(files, Some(begin), Some(end));
    forall f | f in FileSet(files) && f !in part
      ensures (forall g :: g in part ==> FileBefore(f, g)) || (forall g :: g in part ==> FileBefore(g, f))
    {
      FileEnds(f);
      forall g | g in part ensures if f.Largest().user < begin then FileBefore(f, g) else FileBefore(g, f) {
        FileEnds(g);
        assert FileBefore(f, g) || FileBefore(g, f);
      }
    }
  }

  /** A run of files above level zero, with nothing going on with its last user key. */
  lemma RunCompletes(files: seq<File>, r: seq<File>)
    requires r != [] && FileSet(r) <= FileSet(files)
    requires NoneContinues(files, r)
    requires Apart(FileSet(files)) && Contiguous(FileSet(files), FileSet(r))
    ensures NoBoundary(FileSet(files), FileSet(r))
  {
    var key := LargestKeyOf(r);
    var m :| m in r && m.Largest() == key;
    assert m in FileSet(r);
    forall f, g | f in FileSet(files) && f !in FileSet(r) && g in FileSet(r) ensures !ContinuesKey(f, g.Largest()) {
      FileEnds(f);
      FileEnds(m);
      FileEnds(g);
      assert !ContinuesKey(f, key);
      if FileBefore(f, g) {
      } else {
        assert FileBefore(m, f);
      }
    }
  }

  /** AddBoundaryInputs completes a run of files above level zero; in level zero, where the
      files picked already are all that meet their range, it adds nothing. */
  lemma BoundaryCompletes(files: seq<File>, level: nat, c: seq<File>, r: seq<File>, other: set<File>)
    requires c != [] && BoundaryExtension(files, c, r, other) && NoneContinues(files, r)
    requires FileSet(c) <= FileSet(files)
    requires level == 0 ==> forall f :: f in FileSet(files) && f !in FileSet(c) ==> !MeetsHull(f, FileSet(c))
    requires level > 0 ==> Apart(FileSet(files)) && Contiguous(FileSet(files), FileSet(c))
    ensures UpperOk(FileSet(files), level, FileSet(r))
  {
    assert r[0] in FileSet(r);
    if level == 0 {
      NothingContinuesInLevelZero(files, c);
      assert r == c;
    } else {
      RunCompletes(files, r);
    }
  }

  lemma LargestKeyOf(r: seq<File>) returns (key: IKey)
    requires r != []
    ensures IsLargestKey(r, key)
  {
    key := r[0].Largest();
    for i := 1 to |r|
      invariant exists j :: 0 <= j < i && r[j].Largest() == key
      invariant forall j :: 0 <= j < i ==> !Less(key, r[j].Largest())
    {
      if Less(key, r[i].Largest()) { key := r[i].Largest(); }
    }
  }

  lemma NothingContinuesInLevelZero(files: seq<File>, c: seq<File>)
    requires FileSet(c) <= FileSet(files)
    requires forall f :: f in FileSet(files) && f !in FileSet(c) ==> !MeetsHull(f, FileSet(c))
    ensures NoneContinues(files, c)
  {
    forall key, f | IsLargestKey(c, key) && f in files ensures !ContinuesKey(f, key) {
      FileEnds(f);
      var g :| g in c && g.Largest() == key;
      FileEnds(g);
      assert g in FileSet(c);
      if f !in c {
        assert !MeetsHull(f, FileSet(c));
      }
    }
  }

  function TotalFileSize(files: seq<File>): nat {
    if files == [] then 0 else files[0].size + TotalFileSize(files[1..])
  }

  datatype Inputs = Inputs(level: nat, in0: seq<File>, in1: seq<File>, grandparents: seq<File>, pointer: IKey)

  ghost predicate InputsOk(v: FileVectors, c: Inputs)
    requires |v| == NUM_LEVELS
  {
    && Picked(Sets(v), c.level, FileSet(c.in0), FileSet(c.in1))
    && (if c.level > 0 then InOrder(c.in0) else NoRepeats(c.in0)) && InOrder(c.in1)
  }

  lemma NextLevelInputs(v: FileVectors, level: nat, in0: seq<File>, smallest: IKey, largest: IKey, in1: seq<File>)
    requires |v| == NUM_LEVELS && level + 1 < NUM_LEVELS
    requires IsSmallestKey(in0, smallest) && IsLargestKey(in0, largest)
    requires FileSet(in1) == Meeting(v[level + 1], Some(smallest.user), Some(largest.user))
    ensures FileSet(in1) == set f | f in Sets(v)[level + 1] && MeetsHull(f, FileSet(in0))
  {
    forall f ensures Meets(f, Some(smallest.user), Some(largest.user)) <==> MeetsHull(f, FileSet(in0)) {
      HullMeets(in0, smallest, largest, f);
    }
  }

  /** Files of the upper level that meet the whole range: they contain the first choice, they
      are a run (in level zero, closed), and with the first choice they leave no gap. */
  lemma ExpandedStart(v: FileVectors, level: nat, all: seq<File>, in0: seq<File>, start: IKey, limit: IKey,
                      e: seq<File>, ub: Option<int>, ue: Option<int>)
    requires VectorsOk(v) && level + 1 < NUM_LEVELS
    requires in0 != [] && FileSet(in0) <= FileSet(v[level]) && FileSet(in0) <= FileSet(all)
    requires IsSmallestKey(all, start) && IsLargestKey(all, limit) && Connected(FileSet(all))
    requires FileSet(e) == Meeting(v[level], ub, ue)
    requires if level == 0 then LeastClosed(FileSet(v[level]), Some(start.user), Some(limit.user), ub, ue)
             else ub == Some(start.user) && ue == Some(limit.user)
    requires Grown(v[level], Some(start.user), Some(limit.user), ub, ue)
    ensures FileSet(in0) <= FileSet(e)
    ensures level == 0 ==> forall f :: f in FileSet(v[level]) && f !in FileSet(e) ==> !MeetsHull(f, FileSet(e))
    ensures level > 0 ==> Contiguous(FileSet(v[level]), FileSet(e))
    ensures Connected(FileSet(all) + FileSet(e))
  {
    FirstChoiceMeets(v[level], all, in0, start, limit, ub, ue);
    if level == 0 {
      ClosedMeets(v[level], e, ub, ue);
      ExpandedConnected(v[level], all, start, limit, e, ub, ue);
    } else {
      assert Sets(v)[level] == FileSet(v[level]) && Apart(FileSet(v[level]));
      MeetingContiguous(v[level], start.user, limit.user);
      MeetingConnected(v[level], all, start, limit, e);
    }
  }

  lemma FirstChoiceMeets(files: seq<File>, all: seq<File>, in0: seq<File>, start: IKey, limit: IKey, ub: Option<int>,
      ue: Option<int>)
    requires FileSet(in0) <= FileSet(files) && FileSet(in0) <= FileSet(all)
    requires IsSmallestKey(all, start) && IsLargestKey(all, limit) && Wider(ub, ue, Some(start.user), Some(limit.user))
    ensures FileSet(in0) <= Meeting(files, ub, ue)
  {
    forall f | f in FileSet(in0) ensures f in Meeting(files, ub, ue) {
      FileEnds(f);
      assert f in FileSet(all) && f in FileSet(files);
    }
  }

  lemma ClosedMeets(files: seq<File>, e: seq<File>, ub: Option<int>, ue: Option<int>)
    requires FileSet(e) == Meeting(files, ub, ue) && Closed(FileSet(files), ub, ue)
    ensures forall f :: f in FileSet(e) ==> Within(f, ub, ue)
    ensures forall f :: f in FileSet(files) && f !in FileSet(e) ==> !MeetsHull(f, FileSet(e))
  {
    forall f | f in FileSet(e) ensures Within(f, ub, ue) {
      assert f in FileSet(files);
    }
  }

  lemma MeetingConnected(files: seq<File>, all: seq<File>, start: IKey, limit: IKey, e: seq<File>)
    requires IsSmallestKey(all, start) && IsLargestKey(all, limit) && Connected(FileSet(all))
    requires FileSet(e) == Meeting(files, Some(start.user), Some(limit.user))
    ensures Connected(FileSet(all) + FileSet(e))
  {
    forall f | f in FileSet(e) ensures MeetsHull(f, FileSet(all)) {
      HullMeets(all, start, limit, f);
    }
    ConnectedUnion(FileSet(all), FileSet(e));
  }

  lemma ExpandedConnected(files: seq<File>, all: seq<File>, start: IKey, limit: IKey, e: seq<File>, ub: Option<int>,
      ue: Option<int>)
    requires IsSmallestKey(all, start) && IsLargestKey(all, limit) && Connected(FileSet(all))
    requires FileSet(e) == Meeting(files, ub, ue)
    requires Wider(ub, ue, Some(start.user), Some(limit.user))
    requires forall f :: f in FileSet(e) ==> Within(f, ub, ue)
    requires Grown(files, Some(start.user), Some(limit.user), ub, ue)
    ensures Connected(FileSet(all) + FileSet(e))
  {
    var first :| first in all && first.Smallest() == start;
    var last :| last in all && last.Largest() == limit;
    forall u, f, g | f in FileSet(all) + FileSet(e) && g in FileSet(all) + FileSet(e) && Separates(f, u, g)
      ensures Covered(FileSet(all) + FileSet(e), u)
    {
      assert InRange(u, ub, ue);
      if InRange(u, Some(start.user), Some(limit.user)) {
        assert first in FileSet(all) && last in FileSet(all) && Separates(first, u, last);
        assert Covered(FileSet(all), u);
      } else {
        var h :| h in files && h.Spans(u) && Meets(h, ub, ue);
        assert h in FileSet(e);
      }
    }
  }

  lemma ExpandedInputs(next: set<File>, in0: set<File>, in1: set<File>, e0: set<File>, e1: set<File>)
    requires in0 <= e0
    requires in1 == (set f | f in next && MeetsHull(f, in0)) && e1 == (set f | f in next && MeetsHull(f, e0))
    requires Connected(in0 + in1 + e0)
    ensures Connected(e0 + e1)
  {
    forall f | f in next && MeetsHull(f, in0) ensures MeetsHull(f, e0) {
      var g, h :| g in in0 && h in in0 && g.Smallest().user <= f.Largest().user
        && f.Smallest().user <= h.Largest().user;
      assert g in e0 && h in e0;
    }
    assert in0 + in1 + e0 == e0 + in1;
    forall f | f in e1 ensures MeetsHull(f, e0 + in1) {
      var g, h :| g in e0 && h in e0 && g.Smallest().user <= f.Largest().user && f.Smallest().user <= h.Largest().user;
      assert g in e0 + in1 && h in e0 + in1;
    }
    ConnectedUnion(e0 + in1, e1);
    assert e0 + in1 + e1 == e0 + e1;
  }

  /** Adds the boundary files of a run of the upper level. */
  method UpperInputs(v: FileVectors, level: nat, start: seq<File>, ghost other: set<File>) returns (in0: seq<File>)
    requires VectorsOk(v) && level < NUM_LEVELS && start != [] && FileSet(start) <= FileSet(v[level])
    requires level == 0 ==> forall f :: f in FileSet(v[level]) && f !in FileSet(start) ==> !MeetsHull(f, FileSet(start))
    requires level > 0 ==> Contiguous(FileSet(v[level]), FileSet(start)) && InOrder(start)
    requires level == 0 ==> NoRepeats(start)
    requires Connected(other + FileSet(start))
    ensures UpperOk(FileSet(v[level]), level, FileSet(in0)) && in0 != []
    ensures FileSet(start) <= FileSet(in0) && Connected(other + FileSet(in0))
    ensures if level > 0 then InOrder(in0) else NoRepeats(in0)
  {
    assert Sets(v)[level] == FileSet(v[level]) && (level > 0 ==> Apart(FileSet(v[level])));
    in0 := AddBoundaryInputs(v[level], start, other);
    BoundaryCompletes(v[level], level, start, in0, other);
  }

  /** The files of the next level that meet the range of `in0`. */
  method NextInputs(v: FileVectors, level: nat, in0: seq<File>) returns (in1: seq<File>, smallest: IKey, largest: IKey)
    requires VectorsOk(v) && level + 1 < NUM_LEVELS && in0 != []
    ensures FileSet(in1) == set f | f in Sets(v)[level + 1] && MeetsHull(f, FileSet(in0))
    ensures InOrder(in1) && IsLargestKey(in0, largest)
  {
    smallest, largest := GetRange(in0);
    ghost var b, e;
    in1, b, e := GetOverlappingInputs(false, v[level + 1], Some(smallest.user), Some(largest.user));
    NextLevelInputs(v, level, in0, smallest, largest, in1);
  }

  /** The larger inputs that fit in the range of `in0` and `in1` taken together. */
  method ExpandInputs(v: FileVectors, level: nat, in0: seq<File>, in1: seq<File>)
      returns (e0: seq<File>, e1: seq<File>, largest: IKey)
    requires VectorsOk(v) && Picked(Sets(v), level, FileSet(in0), FileSet(in1))
    ensures Picked(Sets(v), level, FileSet(e0), FileSet(e1))
    ensures FileSet(in0) <= FileSet(e0)
    ensures (if level > 0 then InOrder(e0) else NoRepeats(e0)) && InOrder(e1) && IsLargestKey(e0, largest)
  {
    var all := in0 + in1;
    assert FileSet(all) == FileSet(in0) + FileSet(in1);
    assert Sets(v)[level] == FileSet(v[level]);
    assert exists f :: f in FileSet(in0);
    var start, limit := GetRange(all);
    var start0, ub, ue := GetOverlappingInputs(level == 0, v[level], Some(start.user), Some(limit.user));
    ExpandedStart(v, level, all, in0, start, limit, start0, ub, ue);
    assert in0[0] in FileSet(in0);
    e0 := UpperInputs(v, level, start0, FileSet(all));
    e1, start, largest := NextInputs(v, level, e0);
    ExpandedInputs(Sets(v)[level + 1], FileSet(in0), FileSet(in1), FileSet(e0), FileSet(e1));
  }

  method FirstInputs(v: FileVectors, level: nat, initial: seq<File>)
      returns (in0: seq<File>, in1: seq<File>, largest: IKey)
    requires VectorsOk(v) && level + 1 < NUM_LEVELS
    requires StartOk(FileSet(v[level]), level, FileSet(initial))
    requires if level > 0 then InOrder(initial) else NoRepeats(initial)
    ensures Picked(Sets(v), level, FileSet(in0), FileSet(in1))
    ensures FileSet(initial) <= FileSet(in0) && in0 != []
    ensures (if level > 0 then InOrder(in0) else NoRepeats(in0)) && InOrder(in1) && IsLargestKey(in0, largest)
  {
    hide VersionOk, NumbersUnique, Connected;
    assert {} + FileSet(initial) == FileSet(initial);
    assert initial != [];
    in0 := UpperInputs(v, level, initial, {});
    assert {} + FileSet(in0) == FileSet(in0);
    var smallest;
    in1, smallest, largest := NextInputs(v, level, in0);
    ConnectedUnion(FileSet(in0), FileSet(in1));
    assert Sets(v)[level] == FileSet(v[level]);
  }

  /** Files two levels down that meet the whole compaction. */
  method Grandparents(v: FileVectors, level: nat, all: seq<File>) returns (r: seq<File>)
    requires |v| == NUM_LEVELS && all != []
    ensures level + 2 >= NUM_LEVELS ==> r == []
    ensures level + 2 < NUM_LEVELS ==> FileSet(r) == set f | f in v[level + 2] && MeetsHull(f, FileSet(all))
  {
    r := [];
    if level + 2 < NUM_LEVELS {
      var start, limit := GetRange(all);
      ghost var b, e;
      r, b, e := GetOverlappingInputs(false, v[level + 2], Some(start.user), Some(limit.user));
      forall f ensures Meets(f, Some(start.user), Some(limit.user)) <==> MeetsHull(f, FileSet(all)) {
        HullMeets(all, start, limit, f);
      }
    }
  }

  /** Completes the files picked at `level` to the inputs of a compaction, growing them when
      that brings in no further file of the next level and stays within the size limit. */
  method SetupOtherInputs(v: FileVectors, level: nat, initial: seq<File>, expandedLimit: nat) returns (c: Inputs)
    requires VectorsOk(v) && level + 1 < NUM_LEVELS
    requires StartOk(FileSet(v[level]), level, FileSet(initial))
    requires if level > 0 then InOrder(initial) else NoRepeats(initial)
    ensures InputsOk(v, c) && c.level == level
    ensures FileSet(initial) <= FileSet(c.in0)
    ensures IsLargestKey(c.in0, c.pointer)
  {
    var in0, in1, largest := FirstInputs(v, level, initial);
    if in1 != [] {
      var expanded0, expanded1, newLimit := ExpandInputs(v, level, in0, in1);
      if |expanded0| > |in0| && TotalFileSize(in1) + TotalFileSize(expanded0) < expandedLimit && |expanded1| == |in1| {
        largest := newLimit;
        in0, in1 := expanded0, expanded1;
      }
    }
    var grandparents := Grandparents(v, level, in0 + in1);
    c := Inputs(level, in0, in1, grandparents, largest);
  }

  function MaxGrandParentOverlapBytes(targetFileSize: nat): nat {
    10 * targetFileSize
  }

  function ExpandedCompactionByteSizeLimit(targetFileSize: nat): nat {
    25 * targetFileSize
  }

  /** Picks a compaction: of the level whose score called for one, at the first file after the
      compaction pointer, wrapping around; else of the file that used up its seeks. */
  method PickCompaction(v: FileVectors, sizeLevel: Option<nat>, compactPointer: Option<IKey>,
                        seekFile: Option<File>, seekLevel: nat, targetFileSize: nat) returns (c: Option<Inputs>)
    requires VectorsOk(v)
    requires sizeLevel.Some? ==> sizeLevel.value + 1 < NUM_LEVELS && v[sizeLevel.value] != []
    requires seekFile.Some? ==> seekLevel + 1 < NUM_LEVELS && seekFile.value in v[seekLevel]
    ensures c.None? <==> sizeLevel.None? && seekFile.None?
    ensures c.Some? ==> InputsOk(v, c.value) && c.value.level == if sizeLevel.Some? then sizeLevel.value else seekLevel
    ensures c.Some? && sizeLevel.None? ==> seekFile.value in c.value.in0
  {
    var level, first;
    if sizeLevel.Some? {
      level := sizeLevel.value;
      var i := 0;
      while i < |v[level]| && compactPointer.Some? && !Less(compactPointer.value, v[level][i].Largest())
        invariant 0 <= i <= |v[level]|
      {
        i := i + 1;
      }
      first := if i < |v[level]| then v[level][i] else v[level][0];
    } else if seekFile.Some? {
      level, first := seekLevel, seekFile.value;
    } else {
      return None;
    }
    var start := [first];
    SingleFileStart(v, level, first);
    if level == 0 {
      ghost var ub, ue;
      start, ub, ue := GetOverlappingInputs(true, v[0], Some(first.Smallest().user), Some(first.Largest().user));
      LevelZeroStart(v[0], first, start, ub, ue);
    }
    assert first in FileSet(start);
    var inputs := SetupOtherInputs(v, level, start, ExpandedCompactionByteSizeLimit(targetFileSize));
    c := Some(inputs);
  }

  lemma SingleFileStart(v: FileVectors, level: nat, f: File)
    requires VectorsOk(v) && level < NUM_LEVELS && f in v[level]
    ensures FileSet([f]) == {f} && Connected({f})
    ensures level > 0 ==> StartOk(FileSet(v[level]), level, {f})
  {
    assert Sets(v)[level] == FileSet(v[level]) && (level > 0 ==> Apart(FileSet(v[level])));
    forall u, g, h | g in {f} && h in {f} && Separates(g, u, h) ensures Covered({f}, u) {
      assert f.Spans(u);
    }
  }

  lemma LevelZeroStart(files: seq<File>, f: File, start: seq<File>, ub: Option<int>, ue: Option<int>)
    requires f in files && FileSet(start) == Meeting(files, ub, ue)
    requires LeastClosed(FileSet(files), Some(f.Smallest().user), Some(f.Largest().user), ub, ue)
    requires Grown(files, Some(f.Smallest().user), Some(f.Largest().user), ub, ue)
    ensures f in FileSet(start) && StartOk(FileSet(files), 0, FileSet(start))
  {
    FileEnds(f);
    assert Meets(f, ub, ue);
    forall u, g, h | g in FileSet(start) && h in FileSet(start) && Separates(g, u, h)
      ensures Covered(FileSet(start), u)
    {
      assert Within(g, ub, ue) && Within(h, ub, ue) && InRange(u, ub, ue);
      if !f.Spans(u) {
        assert !InRange(u, Some(f.Smallest().user), Some(f.Largest().user));
        var x :| x in files && x.Spans(u) && Meets(x, ub, ue);
        assert x in FileSet(start);
      }
    }
    forall g | g in FileSet(files) && g !in FileSet(start) ensures !MeetsHull(g, FileSet(start)) {
      assert forall h :: h in FileSet(start) ==> Within(h, ub, ue);
    }
  }

  /** A single input file and little to overlap with two levels down. */
  predicate IsTrivialMove(c: Inputs, targetFileSize: nat) {
    |c.in0| == 1 && c.in1 == [] && TotalFileSize(c.grandparents) <= MaxGrandParentOverlapBytes(targetFileSize)
  }

  // The level of a flushed memtable

  const MAX_MEM_COMPACT_LEVEL: nat := 2

  /** No file of the level holds a user key in [lo, hi]. */
  ghost predicate ClearLevel(fs: set<File>, lo: int, hi: int) {
    forall f :: f in fs ==> !f.Overlaps(lo, hi)
  }

  method OverlapInLevel(v: FileVectors, level: nat, lo: int, hi: int) returns (b: bool)
    requires VectorsOk(v) && level < NUM_LEVELS && lo <= hi
    ensures b <==> !ClearLevel(FileSet(v[level]), lo, hi)
  {
    b := SomeFileOverlapsRange(level > 0, v[level], Some(lo), Some(hi));
    if b {
      var f :| f in v[level] && !AfterFile(Some(lo), f) && !BeforeFile(Some(hi), f);
      assert f in FileSet(v[level]) && f.Overlaps(lo, hi);
    }
  }

  /** The memtable goes below level zero only past levels that are clear of its range. */
  method PickLevelForMemTableOutput(v: FileVectors, lo: int, hi: int, targetFileSize: nat) returns (level: nat)
    requires VectorsOk(v) && lo <= hi
    ensures level <= MAX_MEM_COMPACT_LEVEL
    ensures level > 0 ==> forall i :: 0 <= i <= level ==> ClearLevel(FileSet(v[i]), lo, hi)
  {
    level := 0;
    var overlap := OverlapInLevel(v, 0, lo, hi);
    if !overlap {
      while level < MAX_MEM_COMPACT_LEVEL
        invariant level <= MAX_MEM_COMPACT_LEVEL
        invariant forall i :: 0 <= i <= level ==> ClearLevel(FileSet(v[i]), lo, hi)
      {
        overlap := OverlapInLevel(v, level + 1, lo, hi);
        if overlap {
          break;
        }
        if level + 2 < NUM_LEVELS {
          var overlaps, _, _ := GetOverlappingInputs(false, v[level + 2], Some(lo), Some(hi));
          if TotalFileSize(overlaps) > MaxGrandParentOverlapBytes(targetFileSize) {
            break;
          }
        }
        level := level + 1;
      }
    }
  }
}
