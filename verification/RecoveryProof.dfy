/** Recovery gives back every published write: after a crash in any reachable state the store
    satisfies its invariant again, with the history extended by a batch already logged. */
module RecoveryProof {
  import opened Format
  import opened Versions
  import opened Manifest
  import opened Lsm
  import opened LsmInvariant
  import opened Recovery

  // The replayed logs

  /** The logs recovery selects are those of the memtables, oldest first. */
  lemma ReplaysLive(a: Node, numbers: seq<nat>, live: seq<Batch>)
    requires LogNumbersOk(a) && ReplayOrder(a, numbers, live)
    ensures live == LiveBatches(a)
  {
    assert a.logFile in numbers;
    if a.db.imm.Some? {
      assert a.immLog in numbers;
      TwoNumbers(numbers, a.immLog, a.logFile);
      OneLog(a.logs, a.immLog);
      assert numbers[..1] == [a.immLog];
    } else {
      OneNumber(numbers, a.logFile);
      OneLog(a.logs, a.logFile);
      assert [] + a.logs[a.logFile] == a.logs[a.logFile];
    }
  }

  lemma OneLog(logs: map<nat, seq<Batch>>, n: nat)
    requires n in logs
    ensures JoinedLogs(logs, [n]) == logs[n]
  {
    assert [n][..0] == [];
    assert JoinedLogs(logs, []) + logs[n] == logs[n];
  }

  lemma TwoNumbers(s: seq<nat>, x: nat, y: nat)
    requires forall i, j :: 0 <= i < j < |s| ==> s[i] < s[j]
    requires forall k :: k in s <==> k == x || k == y
    requires x < y
    ensures s == [x, y]
  {
    assert x in s && y in s;
    assert s[0] in s && s[1] in s && s[|s| - 1] in s;
  }

  lemma OneNumber(s: seq<nat>, x: nat)
    requires forall i, j :: 0 <= i < j < |s| ==> s[i] < s[j]
    requires forall k :: k in s <==> k == x
    ensures s == [x]
  {
    assert x in s;
    assert s[0] in s && s[|s| - 1] in s;
  }

  lemma LogConcat(x: seq<Batch>, y: seq<Batch>)
    ensures LogEntries(x + y) == LogEntries(x) + LogEntries(y)
  {
    forall e | e in LogEntries(x) + LogEntries(y) ensures e in LogEntries(x + y) {
      if e in LogEntries(x) {
        var i :| 0 <= i < |x| && e in BatchEntries(x[i]);
        assert (x + y)[i] == x[i];
      } else {
        var i :| 0 <= i < |y| && e in BatchEntries(y[i]);
        assert (x + y)[|x| + i] == y[i];
      }
    }
    forall e | e in LogEntries(x + y) ensures e in LogEntries(x) + LogEntries(y) {
      var i :| 0 <= i < |x + y| && e in BatchEntries((x + y)[i]);
      if i < |x| { assert (x + y)[i] == x[i]; } else { assert (x + y)[i] == y[i - |x|]; }
    }
  }

  /** The highest sequence number replayed is that of the last batch. */
  lemma {:induction false} HighestIsLast(live: seq<Batch>)
    requires Rising(live)
    ensures live != [] ==> HighestOf(live) == LastOf(live[|live| - 1])
  {
    if |live| > 1 {
      var init := live[..|live| - 1];
      HighestIsLast(init);
      assert live[|live| - 2] == init[|init| - 1];
    }
  }

  lemma RecoveredLastSeq(a: Node)
    requires LogsOk(a) && ManifestOk(a.db, a.manifest)
    ensures Max(LastSeqOf(a.manifest), HighestOf(LiveBatches(a))) == a.db.lastSeq + |a.db.group|
  {
    HighestIsLast(LiveBatches(a));
  }

  // The write that was logged when the crash came

  /** The state in which the batch being written has been inserted and published. */
  lemma {:induction false} CompleteWrite(a: Db) returns (c: Db)
    requires Inv(a)
    ensures Inv(c) && !c.writing && c.group == [] && c.inserted == 0
    ensures c.hist == a.hist + a.group && c.lastSeq == a.lastSeq + |a.group|
    ensures c.levels == a.levels && c.imm == a.imm && c.mem == a.mem + GroupEntries(a)
    decreases |a.group| - a.inserted, a.writing
  {
    if !a.writing {
      assert GroupEntries(a) == {} && a.hist + a.group == a.hist;
      c := a;
    } else if a.inserted == |a.group| {
      c := PublishAll(a);
    } else {
      var b := InsertNext(a);
      c := CompleteWrite(b);
    }
  }

  lemma InsertNext(a: Db) returns (b: Db)
    requires Inv(a) && a.writing && a.inserted < |a.group|
    ensures Inv(b) && b == a.(mem := b.mem, inserted := a.inserted + 1)
    ensures b.mem + GroupEntries(b) == a.mem + GroupEntries(a)
  {
    var e := EntryOf(a.group[a.inserted], a.lastSeq + a.inserted + 1);
    b := a.(mem := a.mem + {e}, inserted := a.inserted + 1);
    assert Step(a, InsertOne, b);
    StepKeeps(a, InsertOne, b);
    assert e == EntryOf(a.group[a.inserted], a.lastSeq + 1 + a.inserted);
    assert e in GroupEntries(a) && GroupEntries(b) == GroupEntries(a);
  }

  lemma PublishAll(a: Db) returns (c: Db)
    requires Inv(a) && a.writing && a.inserted == |a.group|
    ensures Inv(c)
    ensures c == a.(writing := false, group := [], inserted := 0, lastSeq := a.lastSeq + |a.group|,
        hist := a.hist + a.group)
    ensures c.mem == a.mem + GroupEntries(a)
  {
    GroupInserted(a);
    c := a.(writing := false, group := [], inserted := 0, lastSeq := a.lastSeq + |a.group|, hist := a.hist + a.group);
    assert Step(a, Publish, c);
    StepKeeps(a, Publish, c);
  }

  // The tables

  /** All of an earlier part comes before all of a later one. */
  lemma {:induction false} PartsRise(parts: seq<seq<Batch>>, j: nat, n: nat, x: Entry, y: Entry)
    requires Rising(Joined(parts)) && j < n < |parts|
    requires x in LogEntries(parts[j]) && y in LogEntries(parts[n])
    ensures x.ik.seqno < y.ik.seqno
    decreases |parts|
  {
    hide Rising, BatchEntries;
    var init, last := parts[..|parts| - 1], parts[|parts| - 1];
    var all := Joined(parts);
    assert all == Joined(init) + last;
    if n < |parts| - 1 {
      RisingTake(all, |Joined(init)|);
      assert all[..|Joined(init)|] == Joined(init);
      PartsRise(init, j, n, x, y);
    } else {
      PartInJoined(init, j, x);
      var p :| 0 <= p < |Joined(init)| && x in BatchEntries(Joined(init)[p]);
      var q :| 0 <= q < |last| && y in BatchEntries(last[q]);
      assert all[p] == Joined(init)[p] && all[|Joined(init)| + q] == last[q];
      BatchesRise(all, p, |Joined(init)| + q, x, y);
    }
  }

  lemma BatchesRise(log: seq<Batch>, p: nat, q: nat, x: Entry, y: Entry)
    requires Rising(log) && p < q < |log| && x in BatchEntries(log[p]) && y in BatchEntries(log[q])
    ensures x.ik.seqno < y.ik.seqno
  {
  }

  lemma RisingTake(log: seq<Batch>, k: nat)
    requires Rising(log) && k <= |log|
    ensures Rising(log[..k])
  {
  }

  lemma {:induction false} PartInJoined(parts: seq<seq<Batch>>, j: nat, x: Entry)
    requires j < |parts| && x in LogEntries(parts[j])
    ensures x in LogEntries(Joined(parts))
    decreases |parts|
  {
    var init, last := parts[..|parts| - 1], parts[|parts| - 1];
    LogConcat(Joined(init), last);
    if j < |init| {
      assert init[j] == parts[j];
      PartInJoined(init, j, x);
    }
  }

  lemma {:induction false} JoinedInPart(parts: seq<seq<Batch>>, x: Entry) returns (j: nat)
    requires x in LogEntries(Joined(parts))
    ensures j < |parts| && x in LogEntries(parts[j])
    decreases |parts|
  {
    assert LogEntries([]) == {};
    var init, last := parts[..|parts| - 1], parts[|parts| - 1];
    LogConcat(Joined(init), last);
    if x in LogEntries(last) {
      j := |parts| - 1;
    } else {
      j := JoinedInPart(init, x);
      assert init[j] == parts[j];
    }
  }

  /** The tables together hold exactly the operations replayed. */
  lemma TablesHoldLogs(live: seq<Batch>, parts: seq<seq<Batch>>, tables: seq<Option<File>>)
    requires Replayed(live, parts, tables)
    ensures EntriesOf(TableSet(tables)) == LogEntries(live)
  {
    forall e | e in EntriesOf(TableSet(tables)) ensures e in LogEntries(live) {
      var f :| f in TableSet(tables) && e in f.entries;
      var i :| 0 <= i < |tables| && tables[i].Some? && tables[i].value == f;
      assert TableOf(parts[i], tables[i]);
      PartInJoined(parts, i, e);
    }
    forall e | e in LogEntries(live) ensures e in EntriesOf(TableSet(tables)) {
      var i := JoinedInPart(parts, e);
      assert TableOf(parts[i], tables[i]);
      var f := tables[i].value;
      assert f in TableSet(tables) && e in f.entries;
    }
  }

  ghost function WithTables(v: Levels, tables: seq<Option<File>>, n: nat): Levels
    requires |v| == NUM_LEVELS && n <= |tables|
  {
    v[0 := v[0] + TableSet(tables[..n])]
  }

  lemma TableSetTake(tables: seq<Option<File>>, n: nat)
    requires n < |tables|
    ensures TableSet(tables[..n + 1]) == TableSet(tables[..n]) + if tables[n].Some? then {tables[n].value} else {}
    ensures forall f :: f in TableSet(tables[..n]) ==> exists j :: 0 <= j < n && tables[j] == Some(f)
  {
    forall f | f in TableSet(tables[..n + 1]) ensures f in TableSet(tables[..n]) || tables[n] == Some(f) {
      var i :| 0 <= i < n + 1 && tables[..n + 1][i].Some? && tables[..n + 1][i].value == f;
      if i < n { assert tables[..n][i] == tables[i]; }
    }
    forall f | f in TableSet(tables[..n])
      ensures f in TableSet(tables[..n + 1]) && exists j :: 0 <= j < n && tables[j] == Some(f)
    {
      var i :| 0 <= i < n && tables[..n][i].Some? && tables[..n][i].value == f;
      assert tables[..n + 1][i] == tables[i];
    }
    if tables[n].Some? { assert tables[..n + 1][n] == tables[n]; }
  }

  /** The replayed operations are those of the memtables and the batch being written; all are
      newer than the tables. */
  ghost predicate Replayable(v: Levels, live: seq<Batch>, parts: seq<seq<Batch>>, tables: seq<Option<File>>,
      floor: nat, next: nat) {
    && VersionOk(v) && Rising(live) && Replayed(live, parts, tables) && NumbersRise(tables, floor, next)
    && Newer(LogEntries(live), AllEntries(v))
    && Distinct(LogEntries(live) + AllEntries(v))
    && forall i, f :: 0 <= i < NUM_LEVELS && f in v[i] ==> f.number < floor
  }

  lemma TableNewerThanEarlier(v: Levels, live: seq<Batch>, parts: seq<seq<Batch>>, tables: seq<Option<File>>,
      floor: nat, next: nat, n: nat, x: Entry, y: Entry)
    requires Replayable(v, live, parts, tables, floor, next) && n < |tables| && tables[n].Some?
    requires x in tables[n].value.entries && y in EntriesOf(TableSet(tables[..n]))
    ensures x.ik.seqno > y.ik.seqno
  {
    var f :| f in TableSet(tables[..n]) && y in f.entries;
    TableSetTake(tables, n);
    var j :| 0 <= j < n && tables[j] == Some(f);
    assert TableOf(parts[j], tables[j]) && TableOf(parts[n], tables[n]);
    PartsRise(parts, j, n, y, x);
  }

  lemma TableInLogs(live: seq<Batch>, parts: seq<seq<Batch>>, tables: seq<Option<File>>, n: nat)
    requires Replayed(live, parts, tables) && n < |tables| && tables[n].Some?
    ensures Elements(tables[n].value.entries) <= LogEntries(live)
  {
    assert TableOf(parts[n], tables[n]);
    forall e | e in Elements(tables[n].value.entries) ensures e in LogEntries(live) {
      PartInJoined(parts, n, e);
    }
  }

  lemma TableMayAdd(v: Levels, live: seq<Batch>, parts: seq<seq<Batch>>, tables: seq<Option<File>>, floor: nat,
      next: nat, n: nat)
    requires Replayable(v, live, parts, tables, floor, next) && n < |tables| && tables[n].Some?
    requires AllEntries(WithTables(v, tables, n)) == AllEntries(v) + EntriesOf(TableSet(tables[..n]))
    ensures MayAdd(WithTables(v, tables, n), 0, tables[n].value)
  {
    var f, w := tables[n].value, WithTables(v, tables, n);
    TableInLogs(live, parts, tables, n);
    TableSetTake(tables, n);
    forall x, y | x in Elements(f.entries) && y in AllEntries(w) && x.ik.user == y.ik.user
      ensures x.ik.seqno > y.ik.seqno
    {
      if y !in AllEntries(v) {
        TableNewerThanEarlier(v, live, parts, tables, floor, next, n, x, y);
      }
    }
    forall i, g: File | 0 <= i < NUM_LEVELS && g in w[i] ensures g.number < f.number {
      if g !in v[i] { assert g in TableSet(tables[..n]); }
    }
  }

  lemma {:induction false} TablesAdded(v: Levels, live: seq<Batch>, parts: seq<seq<Batch>>, tables: seq<Option<File>>,
      floor: nat, next: nat, n: nat)
    requires Replayable(v, live, parts, tables, floor, next) && n <= |tables|
    ensures VersionOk(WithTables(v, tables, n))
    ensures AllEntries(WithTables(v, tables, n)) == AllEntries(v) + EntriesOf(TableSet(tables[..n]))
    ensures EntriesOf(TableSet(tables[..n])) <= LogEntries(live)
  {
    hide VersionOk, Replayable, Replayed, Distinct, AllEntries;
    ReplayableParts(v, live, parts, tables, floor, next);
    if n == 0 {
      assert TableSet(tables[..0]) == {} && v[0] + {} == v[0] && WithTables(v, tables, 0) == v;
    } else {
      TablesAdded(v, live, parts, tables, floor, next, n - 1);
      TableSetTake(tables, n - 1);
      var w := WithTables(v, tables, n - 1);
      if tables[n - 1].Some? {
        var f := tables[n - 1].value;
        TableMayAdd(v, live, parts, tables, floor, next, n - 1);
        TableInLogs(live, parts, tables, n - 1);
        AddFileEntries(w, 0, f);
        FewerDistinct(AllEntries(w) + Elements(f.entries), LogEntries(live) + AllEntries(v));
        AddedVersionOk(w, 0, f);
        assert WithTables(v, tables, n) == w[0 := w[0] + {f}] by {
          assert v[0] + TableSet(tables[..n]) == w[0] + {f};
        }
        EntriesOfAdd(TableSet(tables[..n - 1]), f);
      } else {
        assert tables[..n] == tables[..n - 1] + [tables[n - 1]];
        assert TableSet(tables[..n]) == TableSet(tables[..n - 1]);
        assert WithTables(v, tables, n) == w;
      }
    }
  }

  lemma ReplayableParts(v: Levels, live: seq<Batch>, parts: seq<seq<Batch>>, tables: seq<Option<File>>, floor: nat,
      next: nat)
    requires Replayable(v, live, parts, tables, floor, next)
    ensures |v| == NUM_LEVELS && VersionOk(v) && Replayed(live, parts, tables)
    ensures Distinct(LogEntries(live) + AllEntries(v))
  {
  }

  lemma FewerDistinct(a: set<Entry>, b: set<Entry>)
    requires Distinct(b) && a <= b
    ensures Distinct(a)
  {
  }

  // Assembling the result

  lemma BaseIsCurrent(a: Node)
    requires ManifestOk(a.db, a.manifest)
    ensures BaseLevels(a.manifest) == a.db.levels
  {
    forall l | 0 <= l < NUM_LEVELS ensures BaseLevels(a.manifest)[l] == a.db.levels[l] {
      assert LevelRecorded(a.db.levels, a.manifest, l);
      ManifestRecovers(a.manifest, l);
    }
  }

  lemma CurrentNumbers(a: Node, i: nat, f: File)
    requires ManifestOk(a.db, a.manifest) && i < NUM_LEVELS && f in a.db.levels[i]
    ensures f.number < NextFileOf(a.manifest)
  {
    assert LevelRecorded(a.db.levels, a.manifest, i) && NumbersBounded(a.db, a.manifest, i);
    StepwiseSeen(a.manifest, i);
  }

  lemma LiveHoldsMemtables(a: Node, c: Db)
    requires LogsOk(a) && c.imm == a.db.imm && c.mem == a.db.mem + GroupEntries(a.db)
    ensures LogEntries(LiveBatches(a)) == c.mem + c.Imm()
  {
    LogConcat(if a.db.imm.Some? then a.logs[a.immLog] else [], a.logs[a.logFile]);
    assert LogEntries([]) == {};
  }

  lemma RecoveredReplayable(a: Node, c: Db, live: seq<Batch>, parts: seq<seq<Batch>>, tables: seq<Option<File>>,
      next: nat)
    requires NodeInv(a) && Inv(c) && c.levels == a.db.levels && c.imm == a.db.imm
    requires c.mem == a.db.mem + GroupEntries(a.db)
    requires live == LiveBatches(a) && Replayed(live, parts, tables)
    requires NumbersRise(tables, NextFileOf(a.manifest), next)
    ensures Replayable(a.db.levels, live, parts, tables, NextFileOf(a.manifest), next)
    ensures LogEntries(live) + AllEntries(a.db.levels) == c.All()
  {
    LiveHoldsMemtables(a, c);
    StoredDistinct(c);
    forall i, f | 0 <= i < NUM_LEVELS && f in a.db.levels[i] ensures f.number < NextFileOf(a.manifest) {
      CurrentNumbers(a, i, f);
    }
  }

  lemma RecoveredNumbers(v: Levels, live: seq<Batch>, parts: seq<seq<Batch>>, tables: seq<Option<File>>,
      floor: nat, b: Db)
    requires Replayable(v, live, parts, tables, floor, b.nextFile) && NumbersUnique(v) && floor <= b.nextFile
    requires b.levels == v[0 := v[0] + TableSet(tables)] && b.pending == {}
    ensures NumbersOk(b)
  {
    forall f, g | f in TableSet(tables) && g in TableSet(tables) && f.number == g.number ensures f == g {
      var i :| 0 <= i < |tables| && tables[i].Some? && tables[i].value == f;
      var j :| 0 <= j < |tables| && tables[j].Some? && tables[j].value == g;
      assert !(i < j) && !(j < i);
    }
    forall f | f in TableSet(tables) ensures floor <= f.number < b.nextFile {}
  }

  /** The recovered store keeps the invariant of the state machine. */
  lemma RecoveredDb(a: Node, numbers: seq<nat>, live: seq<Batch>, parts: seq<seq<Batch>>,
      tables: seq<Option<File>>, b: Node)
    requires NodeInv(a) && Recovered(a, numbers, live, parts, tables, b)
    ensures Inv(b.db)
    ensures b.db.lastSeq == a.db.lastSeq + |a.db.group|
  {
    hide NodeInv, Inv, Replayable, VersionOk, NumbersOk, Replayed, NumbersRise, HighestOf, LogEntries, BaseLevels,
        EditBetween, EditOk, LogsOk, ManifestOk, ReplayOrder, LiveBatches;
    var c := CompleteOf(a);
    ReplaysLive(a, numbers, live);
    BaseIsCurrent(a);
    RecoveredLastSeq(a);
    var floor := NextFileOf(a.manifest);
    RecoveredReplayable(a, c, live, parts, tables, b.db.nextFile);
    ReplayedLevels(a.db.levels, live, parts, tables, floor, b.db);
    RecoveredReads(c, b.db);
  }

  /** The node's parts, and the state in which the batch being written is published. */
  lemma CompleteOf(a: Node) returns (c: Db)
    requires NodeInv(a)
    ensures ManifestOk(a.db, a.manifest) && LogsOk(a) && LogNumbersOk(a) && Inv(c) && !c.writing && c.group == []
    ensures c.inserted == 0
    ensures c.hist == a.db.hist + a.db.group && c.lastSeq == a.db.lastSeq + |a.db.group|
    ensures c.levels == a.db.levels && c.imm == a.db.imm && c.mem == a.db.mem + GroupEntries(a.db)
    ensures NumbersUnique(a.db.levels) && |a.db.levels| == NUM_LEVELS
  {
    hide Inv, LogNumbersOk, ManifestOk;
    c := CompleteWrite(a.db);
    LevelsOf(a.db);
  }

  lemma LevelsOf(a: Db)
    requires Inv(a)
    ensures NumbersUnique(a.levels) && |a.levels| == NUM_LEVELS
  {
  }

  lemma ReplayedLevels(v: Levels, live: seq<Batch>, parts: seq<seq<Batch>>, tables: seq<Option<File>>,
      floor: nat, b: Db)
    requires Replayable(v, live, parts, tables, floor, b.nextFile) && NumbersUnique(v) && |v| == NUM_LEVELS
    requires floor <= b.nextFile
    requires b.levels == v[0 := v[0] + TableSet(tables)] && b.pending == {}
    ensures NumbersOk(b) && VersionOk(b.levels) && AllEntries(b.levels) == AllEntries(v) + LogEntries(live)
  {
    hide VersionOk, NumbersOk;
    TablesAdded(v, live, parts, tables, floor, b.nextFile, |tables|);
    assert tables[..|tables|] == tables;
    TablesHoldLogs(live, parts, tables);
    RecoveredNumbers(v, live, parts, tables, floor, b);
  }

  /** Tables instead of memtables, no snapshots: the same entries, hence the same reads. */
  lemma RecoveredReads(c: Db, b: Db)
    requires Inv(c) && !c.writing && c.group == [] && c.inserted == 0
    requires VersionOk(b.levels) && AllEntries(b.levels) == c.All() && NumbersOk(b)
    requires b == Db({}, None, b.levels, [], c.lastSeq, false, [], 0, None, {}, b.nextFile, c.hist)
    ensures Inv(b)
  {
    StoredDistinct(c);
    assert c.hist + c.group == c.hist;
    assert b.All() == c.All();
    assert c.Oldest() <= c.lastSeq;
  }

  lemma RecoveredLevel(a: Node, base: Levels, b: Node, l: nat)
    requires |b.manifest| == 2 && l < NUM_LEVELS && |base| == |b.db.levels| == NUM_LEVELS
    requires EditBetween(b.manifest[0], Empty(), base) && EditBetween(b.manifest[1], base, b.db.levels)
    requires NumbersUnique(b.db.levels) && base[l] <= b.db.levels[l]
    ensures LevelRecorded(b.db.levels, b.manifest, l)
    ensures Seen(b.manifest, l) == Numbers(b.db.levels[l])
  {
    var m := b.manifest;
    var first := m[..1];
    assert first[..0] == [] && m[..0] == [];
    AppendEdit([], first, m[0], l);
    AppendEdit(first, m, m[1], l);
    assert base[l] - {} == base[l] && {} - base[l] == {};
    LevelNumbers(b.db.levels, l);
    EditLeadsTo(m[0], {}, base[l], l);
    EditLeadsTo(m[1], base[l], b.db.levels[l], l);
    assert Numbers(base[l]) + Numbers(b.db.levels[l] - base[l]) == Numbers(b.db.levels[l]);
    forall n | n in Numbers(b.db.levels[l] - base[l]) ensures n !in Numbers(base[l]) {
      var f :| f in b.db.levels[l] - base[l] && f.number == n;
    }
    assert Folded(m, l).added == {} + base[l] + (b.db.levels[l] - base[l]);
    assert {} + base[l] + (b.db.levels[l] - base[l]) == b.db.levels[l];
  }

  lemma RecoveredManifest(a: Node, numbers: seq<nat>, live: seq<Batch>, parts: seq<seq<Batch>>,
      tables: seq<Option<File>>, b: Node)
    requires Reopened(a, numbers, live, parts, tables, b) && NumbersOk(b.db)
    ensures ManifestOk(b.db, b.manifest) && LogsOk(b)
  {
    hide LevelRecorded, NumbersBounded, NumbersOk, Replayed, NumbersRise, ReplayOrder, EditBetween, HighestOf, Rising;
    var base := BaseLevels(a.manifest);
    NumbersApart(b.db);
    forall l | 0 <= l < NUM_LEVELS
      ensures LevelRecorded(b.db.levels, b.manifest, l) && NumbersBounded(b.db, b.manifest, l)
    {
      RecoveredLevel(a, base, b, l);
      LevelBounded(b.db, b.manifest, l);
    }
    NothingLogged(b);
  }

  lemma NumbersApart(db: Db)
    requires NumbersOk(db)
    ensures NumbersUnique(db.levels)
  {
  }

  lemma LevelBounded(db: Db, m: seq<Edit>, l: nat)
    requires NumbersOk(db) && l < |db.levels| && Seen(m, l) == Numbers(db.levels[l])
    requires m != [] && m[|m| - 1].nextFile == Some(db.nextFile)
    ensures NumbersBounded(db, m, l)
  {
  }

  lemma NothingLogged(b: Node)
    requires b.logs == map[b.logFile := []] && b.logFile < b.db.nextFile && b.db.mem == {} && b.db.imm.None?
    requires b.db.group == [] && EndsWithCounters(b.manifest)
    requires b.manifest[|b.manifest| - 1].logNumber == Some(b.logFile)
    requires b.manifest[|b.manifest| - 1].lastSeq == Some(b.db.lastSeq)
    ensures LogsOk(b)
  {
    assert LogEntries([]) == {};
  }

  /** The main result on crashes: recovery at any point of a run gives a store that satisfies
      the whole invariant, whose history is the published one extended by the batch whose log
      record was complete. */
  lemma RecoveryKeeps(a: Node, numbers: seq<nat>, live: seq<Batch>, parts: seq<seq<Batch>>,
      tables: seq<Option<File>>, b: Node)
    requires NodeInv(a) && Recovered(a, numbers, live, parts, tables, b)
    ensures NodeInv(b) && b.db.hist == a.db.hist + a.db.group
  {
    RecoveredDb(a, numbers, live, parts, tables, b);
    RecoveredManifest(a, numbers, live, parts, tables, b);
  }

  // Runs with crashes

  datatype NodeEvent =
    | Do(ev: Event)
    | Crash(numbers: seq<nat>, live: seq<Batch>, parts: seq<seq<Batch>>, tables: seq<Option<File>>)

  ghost predicate AnyStep(a: Node, ev: NodeEvent, b: Node) {
    match ev
    case Do(e) => NodeStep(a, e, b)
    case Crash(numbers, live, parts, tables) => Recovered(a, numbers, live, parts, tables, b)
  }

  /** A new store: the manifest record of an empty version and an empty log. */
  ghost predicate NewStore(n: Node) {
    && Init(n.db) && n.logs == map[n.logFile := []] && n.logFile < n.db.nextFile
    && n.manifest == [Edit({}, [], Some(0), Some(0), Some(n.db.nextFile))]
  }

  ghost predicate NodeRun(states: seq<Node>, events: seq<NodeEvent>) {
    && |states| == |events| + 1 && NewStore(states[0])
    && forall i :: 0 <= i < |events| ==> AnyStep(states[i], events[i], states[i + 1])
  }

  lemma NewStoreOk(n: Node)
    requires NewStore(n)
    ensures NodeInv(n)
  {
    InitInv(n.db);
    var m := n.manifest;
    assert m[..0] == [];
    forall l | 0 <= l < NUM_LEVELS ensures LevelRecorded(n.db.levels, m, l) && NumbersBounded(n.db, m, l) {
      AppendEdit([], m, m[0], l);
    }
    assert LogEntries([]) == {};
  }

  lemma {:induction false} NodeRunInv(states: seq<Node>, events: seq<NodeEvent>, n: nat)
    requires NodeRun(states, events) && n < |states|
    ensures NodeInv(states[n])
  {
    if n == 0 {
      NewStoreOk(states[0]);
    } else {
      NodeRunInv(states, events, n - 1);
      match events[n - 1] {
        case Do(e) => NodeStepKeeps(states[n - 1], e, states[n]);
        case Crash(numbers, live, parts, tables) => RecoveryKeeps(states[n - 1], numbers, live, parts, tables,
          states[n]);
      }
    }
  }

  /** No published write is ever lost: the history only grows, across crashes too. */
  lemma {:induction false} NothingLost(states: seq<Node>, events: seq<NodeEvent>, i: nat, j: nat)
    requires NodeRun(states, events) && i <= j < |states|
    ensures states[i].db.hist <= states[j].db.hist
  {
    hide AnyStep, NewStore;
    if i < j {
      NothingLost(states, events, i, j - 1);
      HistoryKept(states[j - 1], events[j - 1], states[j]);
    }
  }

  lemma HistoryKept(a: Node, ev: NodeEvent, b: Node)
    requires AnyStep(a, ev, b)
    ensures a.db.hist <= b.db.hist
  {
  }

  /** Over whole runs with any number of crashes, a read at the last sequence number or at a
      snapshot in use returns the last write of the key in the history. */
  lemma DurableReads(states: seq<Node>, events: seq<NodeEvent>, n: nat, k: int, s: nat)
    requires NodeRun(states, events) && n < |states|
    requires s == states[n].db.lastSeq || s in states[n].db.snapshots
    ensures s <= |states[n].db.hist| && View(states[n].db.All(), k, s) == SpecGet(states[n].db.hist, k, s)
  {
    NodeRunInv(states, events, n);
  }

  /** A crash while nothing is being written leaves the latest value of every key as it was. */
  lemma QuietCrashKeepsReads(states: seq<Node>, events: seq<NodeEvent>, n: nat, k: int)
    requires NodeRun(states, events) && n < |events| && events[n].Crash? && !states[n].db.writing
    ensures View(states[n + 1].db.All(), k, states[n + 1].db.lastSeq) ==
        View(states[n].db.All(), k, states[n].db.lastSeq)
  {
    NodeRunInv(states, events, n);
    NodeRunInv(states, events, n + 1);
    assert AnyStep(states[n], events[n], states[n + 1]);
    assert states[n + 1].db.hist == states[n].db.hist;
  }
}
