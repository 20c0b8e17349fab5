/** The store together with its manifest and logs: every step writes what recovery needs, and
    recovery after a crash at any point finds every published write (db/db_impl.cc,
    db/version_set.cc). */
module Recovery {
  import opened Format
  import opened Versions
  import opened Manifest
  import opened Lsm
  import opened LsmInvariant

  // Logs

  /** A log record: operations and the sequence number of the first. */
  datatype Batch = Batch(first: nat, ops: seq<Op>)

  ghost function BatchEntries(b: Batch): set<Entry> {
    set i | 0 <= i < |b.ops| :: EntryOf(b.ops[i], b.first + i)
  }

  ghost function LogEntries(log: seq<Batch>): set<Entry> {
    set i, e | 0 <= i < |log| && e in BatchEntries(log[i]) :: e
  }

  /** Batches hold rising sequence numbers. */
  ghost predicate Rising(log: seq<Batch>) {
    && (forall i :: 0 <= i < |log| ==> log[i].first >= 1)
    && (forall i, j :: 0 <= i < j < |log| ==> log[i].first + |log[i].ops| <= log[j].first)
  }

  function LastOf(b: Batch): nat
    requires b.first >= 1
  {
    b.first + |b.ops| - 1
  }

  // Counters in the manifest

  function LogNumberOf(m: seq<Edit>): nat {
    if m == [] then 0
    else if m[|m| - 1].logNumber.Some? then m[|m| - 1].logNumber.value
    else LogNumberOf(m[..|m| - 1])
  }

  function LastSeqOf(m: seq<Edit>): nat {
    if m == [] then 0
    else if m[|m| - 1].lastSeq.Some? then m[|m| - 1].lastSeq.value
    else LastSeqOf(m[..|m| - 1])
  }

  function NextFileOf(m: seq<Edit>): nat {
    if m == [] then 0
    else if m[|m| - 1].nextFile.Some? then m[|m| - 1].nextFile.value
    else NextFileOf(m[..|m| - 1])
  }

  // State

  datatype Node = Node(db: Db, manifest: seq<Edit>, logs: map<nat, seq<Batch>>, logFile: nat, immLog: nat)

  /** The batches recovery replays: the log of the immutable memtable, then the current one. */
  function LiveBatches(n: Node): seq<Batch>
    requires n.logFile in n.logs && (n.db.imm.Some? ==> n.immLog in n.logs)
  {
    (if n.db.imm.Some? then n.logs[n.immLog] else []) + n.logs[n.logFile]
  }

  ghost function GroupEntries(db: Db): set<Entry> {
    BatchEntries(Batch(db.lastSeq + 1, db.group))
  }

  /** The last edit of a manifest carries all counters. */
  ghost predicate EndsWithCounters(m: seq<Edit>) {
    m != [] && m[|m| - 1].logNumber.Some? && m[|m| - 1].lastSeq.Some? && m[|m| - 1].nextFile.Some?
  }

  ghost predicate ManifestOk(db: Db, m: seq<Edit>) {
    && |db.levels| == NUM_LEVELS && EndsWithCounters(m)
    && (forall i :: 0 <= i < |m| ==> EditOk(m[i]))
    && (forall l :: 0 <= l < NUM_LEVELS ==> LevelRecorded(db.levels, m, l))
    && (forall l :: 0 <= l < NUM_LEVELS ==> NumbersBounded(db, m, l))
    && NextFileOf(m) <= db.nextFile
    && LastSeqOf(m) <= db.lastSeq
  }

  /** The manifest makes the level; no file of a shallower level was ever in it. */
  ghost predicate LevelRecorded(v: Levels, m: seq<Edit>, l: nat)
    requires l < |v|
  {
    && Stepwise(m, l) == v[l] && NeverReadded(m, l) && NumbersName(Folded(m, l).added)
    && forall i, f :: 0 <= i < l && f in v[i] ==> f.number !in Seen(m, l)
  }

  ghost predicate NumbersBounded(db: Db, m: seq<Edit>, l: nat) {
    forall n :: n in Seen(m, l) ==> n < NextFileOf(m) && n !in db.pending
  }

  /** The logs recovery replays are those of the memtables. */
  ghost predicate LogNumbersOk(n: Node) {
    && n.logFile in n.logs && LogNumberOf(n.manifest) <= n.logFile
    && (forall k :: k in n.logs ==> k < n.db.nextFile)
    && (n.db.imm.Some? ==> n.immLog in n.logs && LogNumberOf(n.manifest) <= n.immLog < n.logFile)
    && (forall k :: k in n.logs && k >= LogNumberOf(n.manifest) ==> k == n.logFile || (n.db.imm.Some? && k == n.immLog))
  }

  ghost predicate LogsOk(n: Node) {
    && LogNumbersOk(n)
    && LogEntries(n.logs[n.logFile]) == n.db.mem + GroupEntries(n.db)
    && (n.db.imm.Some? ==> LogEntries(n.logs[n.immLog]) == n.db.imm.value)
    && Rising(LiveBatches(n))
    && LastBatchOk(n.db, LiveBatches(n), LastSeqOf(n.manifest))
  }

  /** The last batch is the last write, logged if not yet published; without batches the
      manifest knows the last sequence number. */
  ghost predicate LastBatchOk(db: Db, live: seq<Batch>, recorded: nat) {
    if live == [] then recorded == db.lastSeq && db.group == []
    else live[|live| - 1].first >= 1 && LastOf(live[|live| - 1]) == db.lastSeq + |db.group|
  }

  ghost predicate NodeInv(n: Node) {
    Inv(n.db) && ManifestOk(n.db, n.manifest) && LogsOk(n)
  }

  // Steps

  /** The edit turns levels v into w. */
  ghost predicate EditBetween(e: Edit, v: Levels, w: Levels) {
    |v| == |w| == NUM_LEVELS && forall l :: 0 <= l < NUM_LEVELS ==>
      AddedAt(e, l) == w[l] - v[l] && DeletedAt(e, l) == Numbers(v[l] - w[l])
  }

  /** LogAndApply: the edit carries the counters and, when it has none, the current log number. */
  ghost predicate Logged(a: Node, b: Node, logNumber: nat) {
    && |b.manifest| == |a.manifest| + 1 && b.manifest[..|a.manifest|] == a.manifest
    && var e := b.manifest[|a.manifest|];
       EditBetween(e, a.db.levels, b.db.levels) && EditOk(e)
       && e.logNumber == Some(logNumber) && e.lastSeq == Some(b.db.lastSeq) && e.nextFile == Some(b.db.nextFile)
  }

  ghost predicate OnlyDb(a: Node, b: Node) {
    b == a.(db := b.db)
  }

  ghost predicate Durable(a: Node, ev: Event, b: Node) {
    match ev
    case BeginWrite(ops) =>
      a.logFile in a.logs
        && b == a.(db := b.db, logs := a.logs[a.logFile := a.logs[a.logFile] + [Batch(a.db.lastSeq + 1, ops)]])
    case SwitchMem =>
      b == a.(db := b.db, logs := a.logs[a.db.nextFile := []], immLog := a.logFile, logFile := a.db.nextFile)
    case Flush(file, to) =>
      Logged(a, b, a.logFile)
      && b == a.(db := b.db, manifest := b.manifest, logs := map k | k in a.logs && k >= a.logFile :: a.logs[k])
    case Move(moved, from) =>
      Logged(a, b, LogNumberOf(a.manifest)) && b == a.(db := b.db, manifest := b.manifest)
    case Install(outputs) =>
      Logged(a, b, LogNumberOf(a.manifest)) && b == a.(db := b.db, manifest := b.manifest)
    case _ => OnlyDb(a, b)
  }

  ghost predicate NodeStep(a: Node, ev: Event, b: Node) {
    Step(a.db, ev, b.db) && Durable(a, ev, b)
  }

  // The manifest keeps up

  /** Files new to a level were never in it nor in a deeper one. */
  ghost predicate FreshBelow(v: Levels, w: Levels, m: seq<Edit>) {
    |v| == |w| == NUM_LEVELS && forall l :: 0 <= l < NUM_LEVELS ==> FreshAt(w[l] - v[l], m, l)
  }

  ghost predicate FreshAt(added: set<File>, m: seq<Edit>, l: nat) {
    forall f, j :: f in added && l <= j < NUM_LEVELS ==> f.number !in Seen(m, j)
  }

  lemma AppendEdit(m: seq<Edit>, m': seq<Edit>, e: Edit, l: nat)
    requires |m'| == |m| + 1 && m'[..|m|] == m && m'[|m|] == e
    ensures Stepwise(m', l) == After(Stepwise(m, l), e, l)
    ensures Seen(m', l) == Seen(m, l) + Numbers(AddedAt(e, l))
    ensures NeverReadded(m', l) <==> NeverReadded(m, l) && Numbers(AddedAt(e, l)) !! Seen(m, l)
    ensures Folded(m', l).added == Folded(m, l).added + AddedAt(e, l)
  {
    assert m'[..|m'| - 1] == m;
  }

  lemma AddedName(m: seq<Edit>, l: nat, added: set<File>)
    requires NumbersName(Folded(m, l).added) && NumbersName(added) && Numbers(added) !! Seen(m, l)
    ensures NumbersName(Folded(m, l).added + added)
  {
    FoldedSeen(m, l);
    forall f, g | f in Folded(m, l).added && g in added ensures f.number != g.number {
      assert f.number in Numbers(Folded(m, l).added) && g.number in Numbers(added);
    }
  }

  lemma {:induction false} StepwiseSeen(m: seq<Edit>, l: nat)
    ensures forall f :: f in Stepwise(m, l) ==> f.number in Seen(m, l)
  {
    FoldedSeen(m, l);
    forall f | f in Stepwise(m, l) ensures f.number in Seen(m, l) {
      assert f in Folded(m, l).added;
    }
  }

  /** Applying the edit between two versions to the first gives the second. */
  lemma EditLeadsTo(e: Edit, v: set<File>, w: set<File>, l: nat)
    requires AddedAt(e, l) == w - v && DeletedAt(e, l) == Numbers(v - w)
    requires NumbersName(v) && forall f, g :: f in v && g in w - v ==> f.number != g.number
    ensures After(v, e, l) == w
  {
    forall f ensures f in After(v, e, l) <==> f in w {
      if f in v && f !in w {
        assert f.number in Numbers(v - w) && f.number !in Numbers(w - v);
      }
      if f in v && f in w {
        assert forall g :: g in v - w ==> g.number != f.number;
      }
    }
  }

  lemma LevelNumbers(v: Levels, l: nat)
    requires NumbersUnique(v) && l < |v|
    ensures NumbersName(v[l])
  {
  }

  lemma LoggedLevel(a: Node, b: Node, ln: nat, l: nat)
    requires NumbersUnique(a.db.levels) && NumbersUnique(b.db.levels) && ManifestOk(a.db, a.manifest)
    requires Logged(a, b, ln) && FreshBelow(a.db.levels, b.db.levels, a.manifest) && l < NUM_LEVELS
    ensures LevelRecorded(b.db.levels, b.manifest, l)
    ensures Seen(b.manifest, l) == Seen(a.manifest, l) + Numbers(b.db.levels[l] - a.db.levels[l])
  {
    var m, m', v, w := a.manifest, b.manifest, a.db.levels, b.db.levels;
    var e := m'[|m|];
    AppendEdit(m, m', e, l);
    assert LevelRecorded(v, m, l);
    StepwiseSeen(m, l);
    LevelNumbers(v, l);
    assert FreshAt(w[l] - v[l], m, l);
    EditLeadsTo(e, v[l], w[l], l);
    LevelNumbers(w, l);
    assert Numbers(w[l] - v[l]) !! Seen(m, l);
    AddedName(m, l, w[l] - v[l]);
    forall i, f | 0 <= i < l && f in w[i] ensures f.number !in Seen(m', l) {
      if f !in v[i] { assert FreshAt(w[i] - v[i], m, i); }
      assert forall g :: g in w[l] - v[l] ==> g.number != f.number;
    }
  }

  lemma LoggedManifest(a: Node, b: Node, ln: nat)
    requires NumbersUnique(a.db.levels) && NumbersOk(b.db) && ManifestOk(a.db, a.manifest)
    requires Logged(a, b, ln) && FreshBelow(a.db.levels, b.db.levels, a.manifest)
    requires a.db.nextFile <= b.db.nextFile && b.db.pending <= a.db.pending
    ensures ManifestOk(b.db, b.manifest)
    ensures LogNumberOf(b.manifest) == ln && LastSeqOf(b.manifest) == b.db.lastSeq
  {
    assert b.manifest[|b.manifest| - 1] == b.manifest[|a.manifest|];
    assert forall i :: 0 <= i < |a.manifest| ==> b.manifest[i] == b.manifest[..|a.manifest|][i];
    forall l | 0 <= l < NUM_LEVELS
      ensures LevelRecorded(b.db.levels, b.manifest, l) && NumbersBounded(b.db, b.manifest, l)
    {
      LoggedLevel(a, b, ln, l);
      assert NumbersBounded(a.db, a.manifest, l);
      forall n | n in Seen(b.manifest, l) ensures n < NextFileOf(b.manifest) && n !in b.db.pending {
        if n !in Seen(a.manifest, l) {
          var f :| f in b.db.levels[l] - a.db.levels[l] && f.number == n;
        }
      }
    }
  }

  // The logs keep up

  lemma LogAppend(log: seq<Batch>, b: Batch)
    ensures LogEntries(log + [b]) == LogEntries(log) + BatchEntries(b)
  {
    forall e | e in LogEntries(log) + BatchEntries(b) ensures e in LogEntries(log + [b]) {
      if e in LogEntries(log) {
        var i :| 0 <= i < |log| && e in BatchEntries(log[i]);
        assert (log + [b])[i] == log[i];
      } else {
        assert (log + [b])[|log|] == b;
      }
    }
    forall e | e in LogEntries(log + [b]) ensures e in LogEntries(log) + BatchEntries(b) {
      var i :| 0 <= i < |log + [b]| && e in BatchEntries((log + [b])[i]);
      if i < |log| { assert (log + [b])[i] == log[i]; }
    }
  }

  lemma BeginWriteLogs(a: Node, ops: seq<Op>, b: Node)
    requires NodeInv(a) && NodeStep(a, BeginWrite(ops), b)
    ensures LogsOk(b)
  {
    hide ManifestOk, Inv, Rising, LogEntries, BatchEntries, LastBatchOk, LogNumberOf, LastSeqOf;
    var batch := Batch(a.db.lastSeq + 1, ops);
    LogAppend(a.logs[a.logFile], batch);
    var live := LiveBatches(a);
    assert LiveBatches(b) == live + [batch];
    NothingInGroup(a.db);
    RisingAppend(a.db, live, LastSeqOf(a.manifest), batch);
    BatchIsLast(b.db, live, LastSeqOf(a.manifest), batch);
  }

  lemma BatchIsLast(db: Db, live: seq<Batch>, recorded: nat, batch: Batch)
    requires batch == Batch(db.lastSeq + 1, db.group)
    ensures LastBatchOk(db, live + [batch], recorded)
  {
  }

  lemma RisingAppend(db: Db, live: seq<Batch>, recorded: nat, batch: Batch)
    requires Rising(live) && LastBatchOk(db, live, recorded) && db.group == [] && batch.first == db.lastSeq + 1
    ensures Rising(live + [batch])
  {
    forall i | 0 <= i < |live| ensures live[i].first + |live[i].ops| <= batch.first {
      if i < |live| - 1 {
        assert live[i].first + |live[i].ops| <= live[|live| - 1].first;
      }
    }
  }

  lemma NothingInGroup(db: Db)
    requires Inv(db) && !db.writing
    ensures db.group == [] && GroupEntries(db) == {}
  {
  }

  lemma InsertOneLogs(a: Node, b: Node)
    requires NodeInv(a) && NodeStep(a, InsertOne, b)
    ensures LogsOk(b)
  {
    hide Inv, ManifestOk, Rising, LogEntries;
    var e := EntryOf(a.db.group[a.db.inserted], a.db.lastSeq + a.db.inserted + 1);
    assert e in GroupEntries(a.db);
    assert GroupEntries(b.db) == GroupEntries(a.db);
    assert LiveBatches(b) == LiveBatches(a);
  }

  /** Once all is inserted the group adds nothing to the memtable. */
  lemma GroupInserted(db: Db)
    requires FromHistory(db) && db.inserted == |db.group|
    ensures GroupEntries(db) <= db.mem
  {
    forall e | e in GroupEntries(db) ensures e in db.mem {
      var i :| 0 <= i < |db.group| && e == EntryOf(db.group[i], db.lastSeq + 1 + i);
      assert InMemtable(db.group, db.lastSeq, db.mem, i);
    }
  }

  lemma PublishLogs(a: Node, b: Node)
    requires NodeInv(a) && NodeStep(a, Publish, b)
    ensures LogsOk(b)
  {
    GroupInserted(a.db);
    assert GroupEntries(b.db) == {};
    assert LiveBatches(b) == LiveBatches(a);
  }

  lemma SwitchMemLogs(a: Node, b: Node)
    requires NodeInv(a) && NodeStep(a, SwitchMem, b)
    ensures LogsOk(b)
  {
    assert GroupEntries(a.db) == {} && GroupEntries(b.db) == {};
    assert LiveBatches(b) == LiveBatches(a);
    assert LogEntries([]) == {};
  }

  lemma RisingDrop(log: seq<Batch>, k: nat)
    requires Rising(log) && k <= |log|
    ensures Rising(log[k..])
  {
  }

  lemma FlushLogs(a: Node, file: Option<File>, to: nat, b: Node)
    requires NodeInv(a) && NodeStep(a, Flush(file, to), b) && LogNumberOf(b.manifest) == a.logFile
    requires LastSeqOf(b.manifest) == b.db.lastSeq
    ensures LogsOk(b)
  {
    hide Inv, ManifestOk, Logged, LogEntries, Rising, LastBatchOk, LogNumberOf, LastSeqOf;
    assert GroupEntries(b.db) == GroupEntries(a.db);
    var before, live := LiveBatches(a), LiveBatches(b);
    assert live == before[|a.logs[a.immLog]|..];
    RisingDrop(before, |a.logs[a.immLog]|);
    FlushedLast(a, b, before, live);
  }

  lemma FlushedLast(a: Node, b: Node, before: seq<Batch>, live: seq<Batch>)
    requires LogsOk(a) && before == LiveBatches(a) && live == a.logs[a.logFile]
    requires b.db.lastSeq == a.db.lastSeq && b.db.group == a.db.group && LastSeqOf(b.manifest) == b.db.lastSeq
    ensures LastBatchOk(b.db, live, LastSeqOf(b.manifest))
  {
    if live != [] {
      assert live[|live| - 1] == before[|before| - 1];
    } else {
      FlushedLogEmpty(a);
    }
  }

  /** With an empty current log nothing is being written. */
  lemma FlushedLogEmpty(a: Node)
    requires LogsOk(a) && a.logs[a.logFile] == []
    ensures a.db.group == []
  {
    assert LogEntries([]) == {};
    if a.db.group != [] { GroupShown(a.db); }
  }

  lemma GroupShown(db: Db)
    requires db.group != []
    ensures GroupEntries(db) != {}
  {
    assert EntryOf(db.group[0], db.lastSeq + 1 + 0) in GroupEntries(db);
  }

  lemma OtherLogs(a: Node, b: Node)
    requires LogsOk(a)
    requires b.logs == a.logs && b.logFile == a.logFile && b.immLog == a.immLog
    requires b.db ==
        a.db.(levels := b.db.levels, snapshots := b.db.snapshots, job := b.db.job, pending := b.db.pending,
        nextFile := b.db.nextFile)
    requires a.db.nextFile <= b.db.nextFile && LogNumberOf(b.manifest) == LogNumberOf(a.manifest)
    requires LastSeqOf(b.manifest) == LastSeqOf(a.manifest) || LastSeqOf(b.manifest) == b.db.lastSeq
    requires LastSeqOf(b.manifest) == b.db.lastSeq || b.manifest == a.manifest
    ensures LogsOk(b)
  {
    assert GroupEntries(b.db) == GroupEntries(a.db);
    assert LiveBatches(b) == LiveBatches(a);
  }

  // Every step keeps the node invariant

  lemma SameManifest(a: Node, b: Node)
    requires ManifestOk(a.db, a.manifest) && b.manifest == a.manifest && b.db.levels == a.db.levels
    requires a.db.lastSeq <= b.db.lastSeq && a.db.nextFile <= b.db.nextFile
    requires b.db.pending <= a.db.pending + {a.db.nextFile}
    ensures ManifestOk(b.db, b.manifest)
  {
    forall l | 0 <= l < NUM_LEVELS
      ensures LevelRecorded(b.db.levels, b.manifest, l) && NumbersBounded(b.db, b.manifest, l)
    {
      assert LevelRecorded(a.db.levels, a.manifest, l) && NumbersBounded(a.db, a.manifest, l);
    }
  }

  lemma FlushFresh(a: Node, file: Option<File>, to: nat, b: Node)
    requires ManifestOk(a.db, a.manifest) && StepFlush(a.db, file, to, b.db)
    ensures FreshBelow(a.db.levels, b.db.levels, a.manifest)
  {
    forall l | 0 <= l < NUM_LEVELS ensures FreshAt(b.db.levels[l] - a.db.levels[l], a.manifest, l) {
      forall f, j | f in b.db.levels[l] - a.db.levels[l] && l <= j < NUM_LEVELS
        ensures f.number !in Seen(a.manifest, j)
      {
        assert f.number == a.db.nextFile && NumbersBounded(a.db, a.manifest, j);
      }
    }
  }

  lemma MoveFresh(a: Node, f: File, level: nat, b: Node)
    requires ManifestOk(a.db, a.manifest) && StepMove(a.db, f, level, b.db)
    ensures FreshBelow(a.db.levels, b.db.levels, a.manifest)
  {
    forall l | 0 <= l < NUM_LEVELS ensures FreshAt(b.db.levels[l] - a.db.levels[l], a.manifest, l) {
      forall g, j | g in b.db.levels[l] - a.db.levels[l] && l <= j < NUM_LEVELS
        ensures g.number !in Seen(a.manifest, j)
      {
        assert g == f && l == level + 1 && LevelRecorded(a.db.levels, a.manifest, j);
      }
    }
  }

  lemma InstallFresh(a: Node, outputs: set<File>, b: Node)
    requires ManifestOk(a.db, a.manifest) && StepInstall(a.db, outputs, b.db)
    ensures FreshBelow(a.db.levels, b.db.levels, a.manifest)
  {
    forall l | 0 <= l < NUM_LEVELS ensures FreshAt(b.db.levels[l] - a.db.levels[l], a.manifest, l) {
      forall f, j | f in b.db.levels[l] - a.db.levels[l] && l <= j < NUM_LEVELS
        ensures f.number !in Seen(a.manifest, j)
      {
        assert f in outputs && NumbersBounded(a.db, a.manifest, j);
      }
    }
  }

  lemma FlushNodeKeeps(a: Node, file: Option<File>, to: nat, b: Node)
    requires NodeInv(a) && NodeStep(a, Flush(file, to), b)
    ensures NodeInv(b)
  {
    StepKeeps(a.db, Flush(file, to), b.db);
    FlushFresh(a, file, to, b);
    LoggedManifest(a, b, a.logFile);
    FlushLogs(a, file, to, b);
  }

  lemma MoveNodeKeeps(a: Node, moved: File, from: nat, b: Node)
    requires NodeInv(a) && NodeStep(a, Move(moved, from), b)
    ensures NodeInv(b)
  {
    StepKeeps(a.db, Move(moved, from), b.db);
    MoveFresh(a, moved, from, b);
    LoggedManifest(a, b, LogNumberOf(a.manifest));
    OtherLogs(a, b);
  }

  lemma InstallNodeKeeps(a: Node, outputs: set<File>, b: Node)
    requires NodeInv(a) && NodeStep(a, Install(outputs), b)
    ensures NodeInv(b)
  {
    StepKeeps(a.db, Install(outputs), b.db);
    InstallFresh(a, outputs, b);
    LoggedManifest(a, b, LogNumberOf(a.manifest));
    OtherLogs(a, b);
  }

  lemma WriteNodeKeeps(a: Node, ev: Event, b: Node)
    requires ev.BeginWrite? || ev.InsertOne? || ev.Publish? || ev.SwitchMem?
    requires NodeInv(a) && NodeStep(a, ev, b)
    ensures NodeInv(b)
  {
    StepKeeps(a.db, ev, b.db);
    SameManifest(a, b);
    match ev
    case BeginWrite(ops) => BeginWriteLogs(a, ops, b);
    case InsertOne => InsertOneLogs(a, b);
    case Publish => PublishLogs(a, b);
    case SwitchMem => SwitchMemLogs(a, b);
  }

  lemma QuietNodeKeeps(a: Node, ev: Event, b: Node)
    requires ev.NewNumber? || ev.Pick? || ev.Abandon? || ev.TakeSnapshot? || ev.ReleaseSnapshot?
    requires NodeInv(a) && NodeStep(a, ev, b)
    ensures NodeInv(b)
  {
    StepKeeps(a.db, ev, b.db);
    SameManifest(a, b);
    OtherLogs(a, b);
  }

  lemma NodeStepKeeps(a: Node, ev: Event, b: Node)
    requires NodeInv(a) && NodeStep(a, ev, b)
    ensures NodeInv(b)
  {
    match ev
    case Flush(file, to) => FlushNodeKeeps(a, file, to, b);
    case Move(moved, from) => MoveNodeKeeps(a, moved, from, b);
    case Install(outputs) => InstallNodeKeeps(a, outputs, b);
    case BeginWrite(_) => WriteNodeKeeps(a, ev, b);
    case InsertOne => WriteNodeKeeps(a, ev, b);
    case Publish => WriteNodeKeeps(a, ev, b);
    case SwitchMem => WriteNodeKeeps(a, ev, b);
    case _ => QuietNodeKeeps(a, ev, b);
  }

  // Crash and recovery

  /** Recovery cuts the replayed batches into tables wherever the memtable grows too big; a
      stretch without operations leaves no table. */
  ghost predicate Replayed(live: seq<Batch>, parts: seq<seq<Batch>>, tables: seq<Option<File>>) {
    && Joined(parts) == live && |tables| == |parts|
    && forall i :: 0 <= i < |parts| ==> TableOf(parts[i], tables[i])
  }

  ghost predicate TableOf(part: seq<Batch>, table: Option<File>) {
    if table.None? then LogEntries(part) == {} else Elements(table.value.entries) == LogEntries(part)
  }

  ghost function TableSet(tables: seq<Option<File>>): set<File> {
    set i | 0 <= i < |tables| && tables[i].Some? :: tables[i].value
  }

  /** New tables get rising numbers, above all numbers in the manifest and below `next`. */
  ghost predicate NumbersRise(tables: seq<Option<File>>, floor: nat, next: nat) {
    && (forall i :: 0 <= i < |tables| && tables[i].Some? ==> floor <= tables[i].value.number < next)
    && (forall i, j :: 0 <= i < j < |tables| && tables[i].Some? && tables[j].Some? ==>
      tables[i].value.number < tables[j].value.number)
  }

  function Max(a: nat, b: nat): nat {
    if a < b then b else a
  }

  function HighestOf(live: seq<Batch>): nat
    requires Rising(live)
  {
    if live == [] then 0 else Max(HighestOf(live[..|live| - 1]), LastOf(live[|live| - 1]))
  }

  /** The batches of all logs not older than the manifest's log number, in order of number. */
  ghost predicate ReplayOrder(n: Node, numbers: seq<nat>, live: seq<Batch>) {
    && (forall k :: k in numbers <==> k in n.logs && k >= LogNumberOf(n.manifest))
    && (forall i, j :: 0 <= i < j < |numbers| ==> numbers[i] < numbers[j])
    && (forall k :: k in numbers ==> k in n.logs)
    && live == JoinedLogs(n.logs, numbers)
  }

  ghost function JoinedLogs(logs: map<nat, seq<Batch>>, numbers: seq<nat>): seq<Batch> {
    if numbers == [] then []
    else
      var last := numbers[|numbers| - 1];
      JoinedLogs(logs, numbers[..|numbers| - 1]) + if last in logs then logs[last] else []
  }

  /** `hist` is not stored anywhere: it is the history plus the batch whose record was already
      logged. */
  ghost predicate Recovered(a: Node, numbers: seq<nat>, live: seq<Batch>, parts: seq<seq<Batch>>,
      tables: seq<Option<File>>, b: Node) {
    Reopened(a, numbers, live, parts, tables, b) && b.db.hist == a.db.hist + a.db.group
  }

  /** What opening the store after a crash makes of the manifest and the logs. */
  ghost predicate Reopened(a: Node, numbers: seq<nat>, live: seq<Batch>, parts: seq<seq<Batch>>,
      tables: seq<Option<File>>, b: Node) {
    && ReplayOrder(a, numbers, live) && Rising(live) && Replayed(live, parts, tables)
    && NumbersRise(tables, NextFileOf(a.manifest), b.db.nextFile)
    && b.logFile < b.db.nextFile && NextFileOf(a.manifest) <= b.db.nextFile
    && b.db == Db({}, None, RecoveredLevels(a.manifest, tables), [], Max(LastSeqOf(a.manifest), HighestOf(live)),
                  false, [], 0, None, {}, b.db.nextFile, b.db.hist)
    && b.logs == map[b.logFile := []]
    && |b.manifest| == 2
    && EditOk(b.manifest[0]) && EditOk(b.manifest[1])
    && EditBetween(b.manifest[0], Empty(), BaseLevels(a.manifest))
    && EditBetween(b.manifest[1], BaseLevels(a.manifest), b.db.levels)
    && b.manifest[0].logNumber == None && b.manifest[0].lastSeq == None && b.manifest[0].nextFile == None
    && b.manifest[1].logNumber == Some(b.logFile) && b.manifest[1].lastSeq == Some(b.db.lastSeq)
      && b.manifest[1].nextFile == Some(b.db.nextFile)
  }

  ghost function Empty(): Levels {
    seq(NUM_LEVELS, l => {})
  }

  ghost function BaseLevels(m: seq<Edit>): Levels {
    seq(NUM_LEVELS, l requires 0 <= l < NUM_LEVELS => Save(Folded(m, l), {}))
  }

  ghost function RecoveredLevels(m: seq<Edit>, tables: seq<Option<File>>): Levels {
    BaseLevels(m)[0 := BaseLevels(m)[0] + TableSet(tables)]
  }
}
