/** The store as a state machine: memtables, levels, snapshots and the compaction under way,
    one step for each region the code runs under its mutex (db/db_impl.cc). */
module Lsm {
  import opened Format
  import opened Versions
  import opened CompactionPicker
  import opened CompactionSemantics

  datatype Op = Op(key: int, kind: Kind, value: string)

  function EntryOf(op: Op, n: nat): Entry {
    Entry(IKey(op.key, n, op.kind), op.value)
  }

  /** `hist` is the log of published operations, number n at index n-1. `group` is the batch
      being written, of which `inserted` operations are in the memtable. `pending` holds the
      file numbers handed out to tables being built. */
  datatype Db = Db(mem: set<Entry>, imm: Option<set<Entry>>, levels: Levels, snapshots: seq<nat>, lastSeq: nat,
                   writing: bool, group: seq<Op>, inserted: nat, job: Option<Job>,
                   pending: set<nat>, nextFile: nat, hist: seq<Op>) {
    ghost function Imm(): set<Entry> {
      if imm.Some? then imm.value else {}
    }

    ghost function All(): set<Entry> {
      mem + Imm() + AllEntries(levels)
    }

    /** The oldest snapshot in use, the last sequence number when there is none. */
    function Oldest(): nat {
      if snapshots == [] then lastSeq else snapshots[0]
    }
  }

  /** What a read of `k` at sequence number `s` means: the last write among the first s wins. */
  function SpecGet(hist: seq<Op>, k: int, s: nat): Option<string>
    requires s <= |hist|
  {
    if s == 0 then None
    else if hist[s - 1].key == k then (if hist[s - 1].kind.Value? then Some(hist[s - 1].value) else None)
    else SpecGet(hist, k, s - 1)
  }

  // Invariant

  ghost predicate CountersOk(db: Db) {
    && db.lastSeq == |db.hist| && db.inserted <= |db.group|
    && (!db.writing ==> db.group == [])
    && db.lastSeq + |db.group| < MAX_SEQUENCE
  }

  /** `e` is the operation its sequence number names, one of the first n. */
  ghost predicate Recorded(log: seq<Op>, n: nat, e: Entry) {
    1 <= e.ik.seqno <= n <= |log| && e == EntryOf(log[e.ik.seqno - 1], e.ik.seqno)
  }

  ghost predicate AllRecorded(log: seq<Op>, n: nat, es: set<Entry>) {
    forall e :: e in es ==> Recorded(log, n, e)
  }

  /** The operations of the batch being written that are in the memtable already. */
  ghost predicate InMemtable(group: seq<Op>, lastSeq: nat, mem: set<Entry>, i: nat) {
    i < |group| && EntryOf(group[i], lastSeq + i + 1) in mem
  }

  /** Every stored entry is the operation its sequence number names; only the memtable holds
      operations not yet published. */
  ghost predicate FromHistory(db: Db) {
    && CountersOk(db)
    && AllRecorded(db.hist + db.group, db.lastSeq + db.inserted, db.mem)
    && AllRecorded(db.hist, db.lastSeq, db.Imm())
    && AllRecorded(db.hist, db.lastSeq, AllEntries(db.levels))
    && (forall i :: 0 <= i < db.inserted ==> InMemtable(db.group, db.lastSeq, db.mem, i))
  }

  ghost predicate InAgeOrder(db: Db) {
    && VersionOk(db.levels)
    && Newer(db.mem, db.Imm()) && Newer(db.mem, AllEntries(db.levels)) && Newer(db.Imm(), AllEntries(db.levels))
  }

  ghost predicate NumbersOk(db: Db) {
    && NumbersUnique(db.levels)
    && (forall i, f :: 0 <= i < |db.levels| && f in db.levels[i] ==> f.number < db.nextFile && f.number !in db.pending)
    && (forall n :: n in db.pending ==> n < db.nextFile)
  }

  ghost predicate SnapshotsOk(db: Db) {
    && (forall i, j :: 0 <= i < j < |db.snapshots| ==> db.snapshots[i] <= db.snapshots[j])
    && (forall i :: 0 <= i < |db.snapshots| ==> db.snapshots[i] <= db.lastSeq)
  }

  /** `f` lies on one side of all of `fs`. */
  ghost predicate Aside(f: File, fs: set<File>) {
    (forall g :: g in fs ==> FileBefore(f, g)) || (forall g :: g in fs ==> FileBefore(g, f))
  }

  /** What a compaction relies on while it runs and flushes install new files beside it. */
  ghost predicate JobOk(v: Levels, oldest: nat, c: Job) {
    && |v| == |c.input| == NUM_LEVELS && c.level + 1 < NUM_LEVELS
    && c.in0 != {} && c.in0 <= v[c.level] && c.in1 <= v[c.level + 1]
    && c.smallest <= oldest
    && Newer(EntriesOf(v[c.level] - c.in0), EntriesOf(c.in0))
    && AllAside(v[c.level + 1] - c.in1, c.in0 + c.in1)
    && NoneMeets(v[c.level + 1] - c.in1, c.in0)
    && BaseHolds(v, c)
    && Connected(c.in0 + c.in1)
  }

  ghost predicate AllAside(others: set<File>, fs: set<File>) {
    forall f :: f in others ==> Aside(f, fs)
  }

  ghost predicate NoneMeets(others: set<File>, fs: set<File>) {
    forall f :: f in others ==> !MeetsHull(f, fs)
  }

  /** A user key of the inputs that the compaction takes to be at its base level has no entry
      below the output level. */
  ghost predicate BaseHolds(v: Levels, c: Job)
    requires |v| == NUM_LEVELS
  {
    forall e, x :: e in c.Entries() && x in Between(v, c.level + 2, NUM_LEVELS) && e.ik.user == x.ik.user ==>
        !c.IsBaseLevelForKey(e.ik.user)
  }

  /** At every sequence number from the oldest snapshot in use to the last one the stored
      entries show what the history says. */
  ghost predicate Faithful(db: Db)
    requires db.lastSeq <= |db.hist|
  {
    forall k, s :: db.Oldest() <= s <= db.lastSeq ==> View(db.All(), k, s) == SpecGet(db.hist, k, s)
  }

  ghost predicate Inv(db: Db) {
    && FromHistory(db)
    && InAgeOrder(db)
    && NumbersOk(db)
    && SnapshotsOk(db)
    && (db.job.Some? ==> JobOk(db.levels, db.Oldest(), db.job.value))
    && Faithful(db)
  }

  // Steps

  datatype Event =
    | BeginWrite(ops: seq<Op>)
    | InsertOne
    | Publish
    | SwitchMem
    | NewNumber
    | Flush(file: Option<File>, to: nat)
    | Pick(level: nat, in0: set<File>, in1: set<File>)
    | Move(moved: File, from: nat)
    | Install(outputs: set<File>)
    | Abandon
    | TakeSnapshot
    | ReleaseSnapshot(index: nat)

  /** A batch is about to be logged; its operations get the next sequence numbers. */
  ghost predicate StepBeginWrite(a: Db, ops: seq<Op>, b: Db) {
    && !a.writing && a.lastSeq + |ops| < MAX_SEQUENCE
    && b == a.(writing := true, group := ops, inserted := 0)
  }

  ghost predicate StepInsertOne(a: Db, b: Db) {
    && a.writing && a.inserted < |a.group|
    && b == a.(mem := a.mem + {EntryOf(a.group[a.inserted], a.lastSeq + a.inserted + 1)}, inserted := a.inserted + 1)
  }

  ghost predicate StepPublish(a: Db, b: Db) {
    && a.writing && a.inserted == |a.group|
    && b == a.(writing := false, group := [], inserted := 0, lastSeq := a.lastSeq + |a.group|, hist := a.hist + a.group)
  }

  ghost predicate StepSwitchMem(a: Db, b: Db) {
    && !a.writing && a.imm.None?
    && b == a.(imm := Some(a.mem), mem := {}, nextFile := a.nextFile + 1)
  }

  ghost predicate StepNewNumber(a: Db, b: Db) {
    b == a.(pending := a.pending + {a.nextFile}, nextFile := a.nextFile + 1)
  }

  /** The immutable memtable becomes a table, placed below level zero only past levels that
      are clear of its range; an empty one leaves no table. */
  ghost predicate StepFlush(a: Db, file: Option<File>, to: nat, b: Db) {
    && a.imm.Some? && |a.levels| == NUM_LEVELS && to <= MAX_MEM_COMPACT_LEVEL
    && match file
       case None => a.imm.value == {} && b == a.(imm := None, nextFile := a.nextFile + 1)
       case Some(f) =>
         && Elements(f.entries) == a.imm.value && f.number == a.nextFile
         && (to > 0 ==> forall i :: 0 <= i <= to ==> ClearLevel(a.levels[i], f.Smallest().user, f.Largest().user))
         && b == a.(imm := None, nextFile := a.nextFile + 1, levels := a.levels[to := a.levels[to] + {f}])
  }

  ghost predicate StepPick(a: Db, level: nat, in0: set<File>, in1: set<File>, b: Db) {
    && a.job.None? && Picked(a.levels, level, in0, in1)
    && b == a.(job := Some(Job(level, in0, in1, a.levels, a.Oldest())))
  }

  ghost predicate StepMove(a: Db, f: File, level: nat, b: Db) {
    && a.job.None? && Picked(a.levels, level, {f}, {})
    && b == a.(levels := a.levels[level := a.levels[level] - {f}][level + 1 := a.levels[level + 1] + {f}])
  }

  /** The outputs hold exactly what the compaction keeps, in disjoint files. */
  ghost predicate OutputsOk(a: Db, c: Job, outputs: set<File>) {
    && EntriesOf(outputs) == c.Kept()
    && Apart(outputs)
    && (forall f :: f in outputs ==> f.number in a.pending)
    && (forall f, g :: f in outputs && g in outputs && f.number == g.number ==> f == g)
  }

  ghost function Above(a: Db, c: Job): set<Entry>
    requires c.level < |a.levels|
  {
    a.mem + a.Imm() + Between(a.levels, 0, c.level) + EntriesOf(a.levels[c.level] - c.in0)
  }

  ghost function Beside(a: Db, c: Job): set<Entry>
    requires c.level + 1 < |a.levels|
  {
    EntriesOf(a.levels[c.level + 1] - c.in1)
  }

  ghost function Below(a: Db, c: Job): set<Entry>
    requires c.level + 2 <= |a.levels|
  {
    Between(a.levels, c.level + 2, |a.levels|)
  }

  /** The compaction drops a marker that still hides a value left beside its inputs. */
  ghost predicate Uncovering(a: Db, c: Job)
    requires c.level + 2 <= |a.levels|
  {
    UncoversSome(c, Above(a, c), Beside(a, c), Below(a, c))
  }

  ghost function Installed(a: Db, c: Job, outputs: set<File>): Db
    requires c.level + 1 < |a.levels|
  {
    a.(job := None, pending := a.pending - (set f | f in outputs :: f.number),
       levels := a.levels[c.level := a.levels[c.level] - c.in0][c.level + 1 := a.levels[c.level + 1] - c.in1 + outputs])
  }

  /** The outputs take the place of the inputs, whatever that uncovers. */
  ghost predicate Installs(a: Db, outputs: set<File>, b: Db) {
    && a.job.Some? && a.job.value.level + 2 <= |a.levels| && OutputsOk(a, a.job.value, outputs)
    && b == Installed(a, a.job.value, outputs)
  }

  ghost predicate StepInstall(a: Db, outputs: set<File>, b: Db) {
    Installs(a, outputs, b) && !Uncovering(a, a.job.value)
  }

  ghost predicate StepAbandon(a: Db, b: Db) {
    a.job.Some? && b == a.(job := None)
  }

  ghost predicate StepTakeSnapshot(a: Db, b: Db) {
    b == a.(snapshots := a.snapshots + [a.lastSeq])
  }

  ghost predicate StepReleaseSnapshot(a: Db, index: nat, b: Db) {
    index < |a.snapshots| && b == a.(snapshots := a.snapshots[..index] + a.snapshots[index + 1..])
  }

  ghost predicate Step(a: Db, ev: Event, b: Db) {
    match ev
    case BeginWrite(ops) => StepBeginWrite(a, ops, b)
    case InsertOne => StepInsertOne(a, b)
    case Publish => StepPublish(a, b)
    case SwitchMem => StepSwitchMem(a, b)
    case NewNumber => StepNewNumber(a, b)
    case Flush(file, to) => StepFlush(a, file, to, b)
    case Pick(level, in0, in1) => StepPick(a, level, in0, in1, b)
    case Move(moved, from) => StepMove(a, moved, from, b)
    case Install(outputs) => StepInstall(a, outputs, b)
    case Abandon => StepAbandon(a, b)
    case TakeSnapshot => StepTakeSnapshot(a, b)
    case ReleaseSnapshot(index) => StepReleaseSnapshot(a, index, b)
  }

  ghost predicate Init(db: Db) {
    db == Db({}, None, seq(NUM_LEVELS, i => {}), [], 0, false, [], 0, None, {}, db.nextFile, [])
  }
}
