/** The output level's neighbour: AddBoundaryInputs is called for files of the upper level only
    (db/version_set.cc), so a user key may be split between an input of the output level and
    the next file there. When no key is, every compaction keeps all reads; a state is given in
    which one is, and a read changes. */
module Boundary {
  import opened Format
  import opened Versions
  import opened CompactionPicker
  import opened CompactionSemantics
  import opened Lsm
  import opened LsmInvariant

  /** No file outside `in1` begins with the user key that a file of `in1` ends with. */
  ghost predicate BoundaryClear(others: set<File>, in1: set<File>) {
    forall f, g :: f in others && g in in1 ==> f.Smallest().user != g.Largest().user
  }

  /** A marker among the inputs and an older entry of its key beside them: the key is split
      between an input of the output level and the next file. */
  lemma OlderBeside(next: set<File>, in0: set<File>, in1: set<File>, stored: set<Entry>, t: Entry, n: Entry)
      returns (f: File, g: File)
    requires Apart(next) && in1 <= next && NoneMeets(next - in1, in0) && Distinct(stored) && t in stored && n in stored
    requires t in EntriesOf(in0 + in1) && n in EntriesOf(next - in1)
    requires t.ik.user == n.ik.user && n.ik.seqno < t.ik.seqno
    ensures f in next - in1 && g in in1 && f.Smallest().user == g.Largest().user == t.ik.user
  {
    f :| f in next - in1 && n in f.entries;
    g :| g in in0 + in1 && t in g.entries;
    FileRange(f, n);
    FileRange(g, t);
    assert g in in0 ==> MeetsHull(f, in0);
    assert FileBefore(g, f) by {
      if FileBefore(f, g) { OrderIsAge(stored, n, t); }
    }
  }

  lemma PartsOf(a: Db, c: Job)
    requires Inv(a) && a.job == Some(c)
    ensures |a.levels| == NUM_LEVELS && VersionOk(a.levels) && JobOk(a.levels, a.Oldest(), c)
    ensures Distinct(a.All())
    ensures a.All() == Above(a, c) + Beside(a, c) + Below(a, c) + c.Entries()
    ensures Placed(c, Above(a, c), Beside(a, c), Below(a, c))
  {
    StoredDistinct(a);
    InstalledPlaced(a, c);
  }

  lemma NextLevel(v: Levels, oldest: nat, c: Job)
    requires VersionOk(v) && JobOk(v, oldest, c)
    ensures c.level + 1 < |v| && Apart(v[c.level + 1]) && c.in1 <= v[c.level + 1]
    ensures NoneMeets(v[c.level + 1] - c.in1, c.in0)
  {
  }

  lemma BesideIs(a: Db, c: Job)
    requires c.level + 1 < |a.levels|
    ensures Beside(a, c) == EntriesOf(a.levels[c.level + 1] - c.in1)
  {
  }

  lemma OlderValue(c: Job, above: set<Entry>, beside: set<Entry>, below: set<Entry>, k: int, t: Entry, n: Entry)
    requires Uncovers(c, above, beside, below, k, t, n) && Distinct(above + beside + below + c.Entries())
    ensures t in c.Entries() && n in beside && t.ik.user == n.ik.user == k && n.ik.seqno < t.ik.seqno
  {
    var all := above + beside + below + c.Entries();
    assert n in all && t in all && n != t;
  }

  /** With a clear boundary no compaction uncovers anything. */
  lemma ClearBoundaryIsSafe(a: Db, c: Job)
    requires Inv(a) && a.job == Some(c) && JobOk(a.levels, a.Oldest(), c)
    requires BoundaryClear(a.levels[c.level + 1] - c.in1, c.in1)
    ensures !Uncovering(a, c)
  {
    hide Inv, VersionOk, JobOk, Distinct, Above, Beside, Below, Uncovers, Placed, NoneMeets, EntriesOf, Apart;
    PartsOf(a, c);
    NextLevel(a.levels, a.Oldest(), c);
    assert Beside(a, c) == EntriesOf(a.levels[c.level + 1] - c.in1) by { BesideIs(a, c); }
    if k, t, n :| Uncovers(c, Above(a, c), Beside(a, c), Below(a, c), k, t, n) {
      OlderValue(c, Above(a, c), Beside(a, c), Below(a, c), k, t, n);
      var f, g := OlderBeside(a.levels[c.level + 1], c.in0, c.in1, a.All(), t, n);
    }
  }

  /** A boundary that is clear when the compaction is picked stays clear until it is installed:
      a flush in between adds only files without a user key in common with the inputs. */
  lemma BoundaryStaysClear(a: Db, ev: Event, b: Db)
    requires Inv(a) && Step(a, ev, b) && a.job.Some? && b.job == a.job
    requires var c := a.job.value; JobOk(a.levels, a.Oldest(), c) && BoundaryClear(a.levels[c.level + 1] - c.in1, c.in1)
    ensures Inv(b) && var c := a.job.value;
        |b.levels| == NUM_LEVELS && BoundaryClear(b.levels[c.level + 1] - c.in1, c.in1)
  {
    hide Inv, JobOk, Apart, Uncovering;
    JobOfInv(a);
    JobInputs(a.levels, a.Oldest(), a.job.value);
    StepKeeps(a, ev, b);
    var c := a.job.value;
    if ev.Flush? && ev.file.Some? && ev.to == c.level + 1 {
      ClearAfterFlush(a.levels[c.level + 1], c.in1, ev.file.value);
    }
  }

  lemma JobInputs(v: Levels, oldest: nat, c: Job)
    requires JobOk(v, oldest, c)
    ensures |v| == NUM_LEVELS && c.level + 1 < NUM_LEVELS && c.in1 <= v[c.level + 1]
  {
  }

  lemma ClearAfterFlush(next: set<File>, in1: set<File>, f: File)
    requires in1 <= next && BoundaryClear(next - in1, in1) && ClearLevel(next, f.Smallest().user, f.Largest().user)
    ensures BoundaryClear(next + {f} - in1, in1)
  {
    FileEnds(f);
    forall g | g in in1 ensures f.Smallest().user != g.Largest().user {
      FileEnds(g);
    }
  }

  // Runs of the code as it is

  /** A step of the code, which installs a compaction without looking at what it uncovers. */
  ghost predicate BareStep(a: Db, ev: Event, b: Db) {
    if ev.Install? then Installs(a, ev.outputs, b) else Step(a, ev, b)
  }

  ghost predicate BareRun(states: seq<Db>, events: seq<Event>) {
    && |states| == |events| + 1 && Init(states[0])
    && forall i :: 0 <= i < |events| ==> BareStep(states[i], events[i], states[i + 1])
  }

  /** If a compaction is picked, no user key is split between its inputs of the output level and
      the next file there: what a caller can check before it starts the compaction. */
  ghost predicate ClearPick(a: Db, ev: Event) {
    ev.Pick? && ev.level + 1 < |a.levels| ==> BoundaryClear(a.levels[ev.level + 1] - ev.in1, ev.in1)
  }

  ghost predicate ClearJob(a: Db) {
    a.job.Some? && a.job.value.level + 1 < |a.levels| ==>
      BoundaryClear(a.levels[a.job.value.level + 1] - a.job.value.in1, a.job.value.in1)
  }

  lemma ClearStep(a: Db, ev: Event, b: Db)
    requires Inv(a) && ClearJob(a) && BareStep(a, ev, b) && ClearPick(a, ev)
    ensures Step(a, ev, b) && Inv(b) && ClearJob(b)
  {
    hide Inv, Step, JobOk, BoundaryClear, Uncovering, Installs;
    if a.job.Some? { JobOfInv(a); }
    if ev.Install? {
      JobInstalled(a, ev.outputs, b);
      ClearBoundaryIsSafe(a, a.job.value);
      GuardHolds(a, ev, b);
    }
    StepKeeps(a, ev, b);
    JobAfter(a, ev, b);
    if a.job.Some? && b.job == a.job { BoundaryStaysClear(a, ev, b); }
  }

  lemma JobOfInv(a: Db)
    requires Inv(a) && a.job.Some?
    ensures JobOk(a.levels, a.Oldest(), a.job.value) && |a.levels| == NUM_LEVELS && a.job.value.level + 1 < NUM_LEVELS
  {
  }

  lemma JobInstalled(a: Db, outputs: set<File>, b: Db)
    requires Installs(a, outputs, b)
    ensures a.job.Some? && a.job.value.level + 2 <= |a.levels|
  {
  }

  lemma GuardHolds(a: Db, ev: Event, b: Db)
    requires ev.Install? && Installs(a, ev.outputs, b) && !Uncovering(a, a.job.value)
    ensures Step(a, ev, b)
  {
  }

  lemma JobAfter(a: Db, ev: Event, b: Db)
    requires Step(a, ev, b)
    ensures if ev.Pick? then b.levels == a.levels && b.job.Some? && b.job.value.level == ev.level
        && b.job.value.in1 == ev.in1
      else b.job.None? || b.job == a.job
  {
  }

  lemma {:induction false} ClearRunSoFar(states: seq<Db>, events: seq<Event>, n: nat)
    requires BareRun(states, events) && n < |states| && forall i :: 0 <= i < |events| ==>
        ClearPick(states[i], events[i])
    ensures Inv(states[n]) && ClearJob(states[n])
    ensures forall i :: 0 <= i < n ==> Step(states[i], events[i], states[i + 1])
  {
    hide BareStep, Step, Inv, ClearJob, ClearPick;
    if n == 0 {
      InitInv(states[0]);
      assert ClearJob(states[0]) by { NoJob(states[0]); }
    } else {
      ClearRunSoFar(states, events, n - 1);
      ClearStep(states[n - 1], events[n - 1], states[n]);
    }
  }

  lemma NoJob(db: Db)
    requires Init(db)
    ensures ClearJob(db)
  {
  }

  /** Runs of the code are runs of the machine as long as the boundary is clear whenever a
      compaction is picked: so all that is proved of runs holds of them. */
  lemma ClearRunIsRun(states: seq<Db>, events: seq<Event>)
    requires BareRun(states, events) && forall i :: 0 <= i < |events| ==> ClearPick(states[i], events[i])
    ensures Run(states, events)
  {
    hide BareStep, Step, ClearPick;
    ClearRunSoFar(states, events, |events|);
  }

  /** Snapshot stability under the condition a caller can check. */
  lemma ClearSnapshotStability(states: seq<Db>, events: seq<Event>, i: nat, j: nat, k: int, s: nat)
    requires BareRun(states, events) && forall l :: 0 <= l < |events| ==> ClearPick(states[l], events[l])
    requires i <= j < |states| && (s == states[i].lastSeq || s in states[i].snapshots) && s in states[j].snapshots
    ensures View(states[j].All(), k, s) == View(states[i].All(), k, s)
  {
    hide BareStep, Step, ClearPick;
    ClearRunIsRun(states, events);
    SnapshotStability(states, events, i, j, k, s);
  }

  // A read that changes

  const PutOne := Entry(IKey(1, 1, Value), "a")
  const PutTwenty := Entry(IKey(20, 2, Value), "v")
  const DeleteTwenty := Entry(IKey(20, 3, Deletion), "")
  const PutThree := Entry(IKey(3, 4, Value), "b")

  function First(): File {
    FileMetaData(3, 1, [PutOne, PutTwenty])
  }

  /** Key 20 is deleted after a snapshot was taken. */
  function Second(): File {
    FileMetaData(5, 1, [DeleteTwenty])
  }

  /** Ends with the marker of key 20. */
  function Lower(): File {
    FileMetaData(6, 1, [PutOne, DeleteTwenty])
  }

  /** Begins with the value of key 20 the marker hides. */
  function Neighbour(): File {
    FileMetaData(7, 1, [PutTwenty])
  }

  function Upper(): File {
    FileMetaData(9, 1, [PutThree])
  }

  function Output(): File {
    FileMetaData(10, 1, [PutOne, PutThree])
  }

  ghost function LevelsOf(one: set<File>, two: set<File>): Levels {
    [{}, one, two, {}, {}, {}, {}]
  }

  ghost function SplitLevels(): Levels {
    LevelsOf({Upper()}, {Lower(), Neighbour()})
  }

  ghost function SplitJob(): Job {
    Job(1, {Upper()}, {Lower()}, SplitLevels(), 4)
  }

  const Writes := [Op(1, Value, "a"), Op(20, Value, "v"), Op(20, Deletion, ""), Op(3, Value, "b")]

  /** A store in which a compaction of one file of level 1 with one file of level 2 is under way. */
  ghost function SplitDb(): Db {
    Quiet({}, SplitLevels(), [], 4, {10}, 11).(job := Some(SplitJob()))
  }

  /** The store after n of the writes, with nothing under way. */
  ghost function Quiet(mem: set<Entry>, v: Levels, snapshots: seq<nat>, n: nat, pending: set<nat>, nextFile: nat): Db
    requires n <= |Writes|
  {
    Db(mem, None, v, snapshots, n, false, [], 0, None, pending, nextFile, Writes[..n])
  }

  /** Some run of the store ends there. */
  ghost predicate Reachable(db: Db) {
    exists states, events :: Run(states, events) && states[|events|] == db
  }

  lemma StepReaches(a: Db, ev: Event, b: Db)
    requires Reachable(a) && Step(a, ev, b)
    ensures Reachable(b)
  {
    hide Step, Init;
    var states, events :| Run(states, events) && states[|events|] == a;
    var ss, es := states + [b], events + [ev];
    assert ss[0] == states[0];
    forall i | 0 <= i < |es| ensures Step(ss[i], es[i], ss[i + 1]) {
      if i < |events| { assert ss[i] == states[i] && ss[i + 1] == states[i + 1] && es[i] == events[i]; }
    }
    assert Run(ss, es) && ss[|es|] == b;
  }

  /** The next of the writes, by itself. */
  lemma WriteReaches(mem: set<Entry>, v: Levels, snapshots: seq<nat>, n: nat, pending: set<nat>, nextFile: nat)
    requires n < |Writes| && Reachable(Quiet(mem, v, snapshots, n, pending, nextFile))
    ensures Reachable(Quiet(mem + {EntryOf(Writes[n], n + 1)}, v, snapshots, n + 1, pending, nextFile))
  {
    hide Reachable;
    var a, op := Quiet(mem, v, snapshots, n, pending, nextFile), Writes[n];
    var b := a.(writing := true, group := [op]);
    StepReaches(a, BeginWrite([op]), b);
    var c := b.(mem := mem + {EntryOf(op, n + 1)}, inserted := 1);
    StepReaches(b, InsertOne, c);
    assert Writes[..n + 1] == Writes[..n] + [op];
    StepReaches(c, Publish, Quiet(c.mem, v, snapshots, n + 1, pending, nextFile));
  }

  /** The memtable becomes a table of a level, past levels clear of its range. */
  lemma FlushReaches(f: File, to: nat, v: Levels, w: Levels, snapshots: seq<nat>, n: nat, nextFile: nat)
    requires n <= |Writes| && f.number == nextFile + 1 && to <= 2 && |v| == NUM_LEVELS && w == v[to := v[to] + {f}]
    requires forall i :: 0 <= i <= to ==> ClearLevel(v[i], f.Smallest().user, f.Largest().user)
    requires Reachable(Quiet(Elements(f.entries), v, snapshots, n, {}, nextFile))
    ensures Reachable(Quiet({}, w, snapshots, n, {}, nextFile + 2))
  {
    hide Reachable;
    var a := Quiet(Elements(f.entries), v, snapshots, n, {}, nextFile);
    var b := a.(imm := Some(a.mem), mem := {}, nextFile := nextFile + 1);
    StepReaches(a, SwitchMem, b);
    StepReaches(b, Flush(Some(f), to), Quiet({}, w, snapshots, n, {}, nextFile + 2));
  }

  lemma FirstReaches()
    ensures Reachable(Quiet({}, LevelsOf({Second()}, {First()}), [2], 3, {}, 6))
  {
    hide Reachable, First, Second, LevelsOf;
    var none, one := LevelsOf({}, {}), LevelsOf({}, {First()});
    FileFacts();
    LevelFacts({}, {});
    LevelFacts({}, {First()});
    LevelFacts({Second()}, {First()});
    assert {} + {First()} == {First()} && {} + {Second()} == {Second()};
    var start := Quiet({}, none, [], 0, {}, 2);
    assert Reachable(start) by { Starts(start); }
    WriteReaches({}, none, [], 0, {}, 2);
    WriteReaches({} + {PutOne}, none, [], 1, {}, 2);
    assert Elements(First().entries) == {} + {PutOne} + {PutTwenty};
    FlushReaches(First(), 2, none, one, [], 2, 2);
    var two := Quiet({}, one, [], 2, {}, 4);
    StepReaches(two, TakeSnapshot, two.(snapshots := [2]));
    WriteReaches({}, one, [2], 2, {}, 4);
    assert Elements(Second().entries) == {} + {DeleteTwenty};
    FlushReaches(Second(), 1, one, LevelsOf({Second()}, {First()}), [2], 3, 4);
  }

  lemma Starts(db: Db)
    requires db == Quiet({}, LevelsOf({}, {}), [], 0, {}, 2)
    ensures Reachable(db)
  {
    assert Init(db);
    assert Run([db], []);
  }

  lemma FileFacts()
    ensures forall e :: e in First().entries <==> e == PutOne || e == PutTwenty
    ensures forall e :: e in Second().entries <==> e == DeleteTwenty
    ensures forall e :: e in Upper().entries <==> e == PutThree
    ensures forall e :: e in Lower().entries <==> e == PutOne || e == DeleteTwenty
    ensures forall e :: e in Neighbour().entries <==> e == PutTwenty
    ensures forall e :: e in Output().entries <==> e == PutOne || e == PutThree
    ensures First().number == 3 && First().Smallest() == PutOne.ik && First().Largest() == PutTwenty.ik
    ensures Second().number == 5 && Second().Smallest() == Second().Largest() == DeleteTwenty.ik
    ensures Lower().number == 6 && Lower().Smallest() == PutOne.ik && Lower().Largest() == DeleteTwenty.ik
    ensures Neighbour().number == 7 && Neighbour().Smallest() == Neighbour().Largest() == PutTwenty.ik
    ensures Upper().number == 9 && Upper().Smallest() == Upper().Largest() == PutThree.ik && Output().number == 10
  {
    assert First().entries[0] == PutOne && First().entries[1] == PutTwenty;
    assert Lower().entries[0] == PutOne && Lower().entries[1] == DeleteTwenty;
    assert Output().entries[0] == PutOne && Output().entries[1] == PutThree;
  }

  lemma LevelFacts(one: set<File>, two: set<File>)
    ensures var v := LevelsOf(one, two);
      |v| == NUM_LEVELS && v[1] == one && v[2] == two && forall i :: 0 <= i < NUM_LEVELS && i != 1 && i != 2 ==>
        v[i] == {}
  {
  }

  lemma FirstPicked()
    ensures Picked(LevelsOf({Second()}, {First()}), 1, {Second()}, {First()})
  {
    hide First, Second, LevelsOf;
    FileFacts();
    LevelFacts({Second()}, {First()});
    assert MeetsHull(First(), {Second()});
    var both := {Second()} + {First()};
    forall u, f, g | f in both && g in both && Separates(f, u, g) ensures Covered(both, u) {
      assert First() in both && First().Spans(u);
    }
  }

  lemma SplitPicked()
    ensures Picked(SplitLevels(), 1, {Upper()}, {Lower()})
  {
    hide Upper, Lower, Neighbour, LevelsOf;
    FileFacts();
    LevelFacts({Upper()}, {Lower(), Neighbour()});
    assert MeetsHull(Lower(), {Upper()});
    assert !MeetsHull(Neighbour(), {Upper()});
    var both := {Upper()} + {Lower()};
    forall u, f, g | f in both && g in both && Separates(f, u, g) ensures Covered(both, u) {
      assert Lower() in both && Lower().Spans(u);
    }
  }

  ghost function FirstJob(): Job {
    Job(1, {Second()}, {First()}, LevelsOf({Second()}, {First()}), 2)
  }

  /** The snapshot keeps everything, and the outputs are cut inside key 20. */
  lemma FirstKept()
    ensures FirstJob().Kept() == {PutOne, DeleteTwenty, PutTwenty} == EntriesOf({Lower(), Neighbour()})
    ensures Apart({Lower(), Neighbour()})
  {
    hide First, Second, Lower, Neighbour, LevelsOf;
    FileFacts();
    var c, out := FirstJob(), {Lower(), Neighbour()};
    InEntriesOf(c.in0 + c.in1, First(), PutOne);
    InEntriesOf(c.in0 + c.in1, Second(), DeleteTwenty);
    InEntriesOf(c.in0 + c.in1, First(), PutTwenty);
    InEntriesOf(out, Lower(), PutOne);
    InEntriesOf(out, Lower(), DeleteTwenty);
    InEntriesOf(out, Neighbour(), PutTwenty);
    assert c.Entries() == {PutOne, DeleteTwenty, PutTwenty};
  }

  lemma CutReaches()
    ensures Reachable(Quiet({}, LevelsOf({}, {Lower(), Neighbour()}), [], 3, {}, 8))
  {
    hide Reachable, First, Second, Lower, Neighbour, LevelsOf, Picked, Apart, EntriesOf;
    FirstReaches();
    var v, w := LevelsOf({Second()}, {First()}), LevelsOf({}, {Lower(), Neighbour()});
    var a := Quiet({}, v, [2], 3, {}, 6);
    var b := Quiet({}, v, [2], 3, {} + {6}, 7);
    StepReaches(a, NewNumber, b);
    var c := Quiet({}, v, [2], 3, {} + {6} + {7}, 8);
    StepReaches(b, NewNumber, c);
    FirstPicked();
    var d := c.(job := Some(FirstJob()));
    StepReaches(c, Pick(1, {Second()}, {First()}), d);
    var e := Quiet({}, w, [2], 3, {}, 8);
    CutInstalls(d, e);
    StepReaches(d, Install({Lower(), Neighbour()}), e);
    StepReaches(e, ReleaseSnapshot(0), e.(snapshots := []));
  }

  lemma CutInstalls(d: Db, e: Db)
    requires d == Quiet({}, LevelsOf({Second()}, {First()}), [2], 3, {} + {6} + {7}, 8).(job := Some(FirstJob()))
    requires e == Quiet({}, LevelsOf({}, {Lower(), Neighbour()}), [2], 3, {}, 8)
    ensures Step(d, Install({Lower(), Neighbour()}), e)
  {
    hide First, Second, Lower, Neighbour, LevelsOf, Apart, EntriesOf;
    FileFacts();
    FirstKept();
    LevelFacts({Second()}, {First()});
    LevelFacts({}, {Lower(), Neighbour()});
    var out := {Lower(), Neighbour()};
    assert {Second()} - {Second()} == {} && {First()} - {First()} == {} && {} + out == out;
    assert Beside(d, FirstJob()) == {} by { NoFiles(); }
    assert Installed(d, FirstJob(), out).levels == e.levels;
    assert (set f | f in out :: f.number) == {6, 7};
  }

  lemma NoFiles()
    ensures EntriesOf({}) == {} && EntriesOf({} - {}) == {}
  {
  }

  /** A run of the machine ends with the compaction under way. */
  lemma SplitReaches()
    ensures Reachable(SplitDb())
  {
    hide Reachable, Lower, Neighbour, Upper, LevelsOf, Picked;
    FileFacts();
    CutReaches();
    var v := LevelsOf({}, {Lower(), Neighbour()});
    LevelFacts({}, {Lower(), Neighbour()});
    LevelFacts({Upper()}, {Lower(), Neighbour()});
    WriteReaches({}, v, [], 3, {}, 8);
    assert Elements(Upper().entries) == {} + {PutThree} && {} + {Upper()} == {Upper()};
    FlushReaches(Upper(), 1, v, SplitLevels(), [], 4, 8);
    assert {} + {10} == {10};
    var a := Quiet({}, SplitLevels(), [], 4, {10}, 11);
    StepReaches(Quiet({}, SplitLevels(), [], 4, {}, 10), NewNumber, a);
    SplitPicked();
    StepReaches(a, Pick(1, {Upper()}, {Lower()}), SplitDb());
  }

  lemma ReachableInv(db: Db)
    requires Reachable(db)
    ensures Inv(db)
  {
    hide Step, Inv;
    var states, events :| Run(states, events) && states[|events|] == db;
    RunInv(states, events, |events|);
  }

  lemma SplitKept()
    ensures SplitJob().Entries() == {PutOne, DeleteTwenty, PutThree} && EntriesOf({Output()}) == {PutOne, PutThree}
    ensures SplitJob().Kept() == {PutOne, PutThree} && SplitJob().Obsolete(DeleteTwenty)
  {
    hide Upper, Lower, Neighbour, Output, LevelsOf;
    FileFacts();
    LevelFacts({Upper()}, {Lower(), Neighbour()});
    var c := SplitJob();
    InEntriesOf({Output()}, Output(), PutOne);
    InEntriesOf({Output()}, Output(), PutThree);
    InEntriesOf(c.in0 + c.in1, Upper(), PutThree);
    InEntriesOf(c.in0 + c.in1, Lower(), PutOne);
    InEntriesOf(c.in0 + c.in1, Lower(), DeleteTwenty);
    assert c.IsBaseLevelForKey(20);
  }

  lemma SplitBeside()
    ensures Beside(SplitDb(), SplitJob()) == {PutTwenty}
  {
    hide Upper, Lower, Neighbour, LevelsOf;
    FileFacts();
    LevelFacts({Upper()}, {Lower(), Neighbour()});
    assert SplitDb().levels[2] - SplitJob().in1 == {Neighbour()};
    InEntriesOf({Neighbour()}, Neighbour(), PutTwenty);
  }

  lemma SplitAround()
    ensures Above(SplitDb(), SplitJob()) == {} && Below(SplitDb(), SplitJob()) == {}
  {
    hide Upper, Lower, Neighbour, LevelsOf;
    LevelFacts({Upper()}, {Lower(), Neighbour()});
    NoFiles();
    assert {Upper()} - {Upper()} == {};
  }

  lemma SplitUncovers()
    ensures Inv(SplitDb()) && |SplitDb().levels| == NUM_LEVELS
    ensures Uncovers(SplitJob(), Above(SplitDb(), SplitJob()), Beside(SplitDb(), SplitJob()),
        Below(SplitDb(), SplitJob()), 20, DeleteTwenty, PutTwenty)
  {
    hide Upper, Lower, Neighbour, Output, LevelsOf, Inv, Above, Below, Beside, Reachable;
    SplitReaches();
    ReachableInv(SplitDb());
    SplitKept();
    SplitBeside();
    SplitAround();
    LevelFacts({Upper()}, {Lower(), Neighbour()});
  }

  lemma SplitOutput()
    ensures OutputsOk(SplitDb(), SplitJob(), {Output()}) && EntriesOf({Output()}) == SplitJob().Kept()
  {
    hide Upper, Lower, LevelsOf;
    SplitKept();
    assert Output().number == 10;
  }

  /** The boundary case is real: a run of the store leads to a compaction, picked as the code picks
      it, whose outputs, installed as the code does, bring a deleted value back. */
  lemma SplitKeyComesBack()
    ensures Reachable(SplitDb()) && SplitDb().job == Some(SplitJob())
    ensures Picked(SplitDb().levels, 1, {Upper()}, {Lower()})
    ensures BareStep(SplitDb(), Install({Output()}), Installed(SplitDb(), SplitJob(), {Output()}))
    ensures SplitDb().lastSeq == 4
    ensures View(SplitDb().All(), 20, 4) == None
    ensures View(Installed(SplitDb(), SplitJob(), {Output()}).All(), 20, 4) == Some("v")
  {
    hide Upper, Lower, Neighbour, Output, LevelsOf, Inv, View, Uncovers, Placed, Above, Below, Beside, AllEntries,
        EntriesOf, Picked, OutputsOk, Reachable, LevelsOf, Distinct;
    var a, c := SplitDb(), SplitJob();
    SplitReaches();
    SplitPicked();
    SplitOutput();
    SplitUncovers();
    PartsOf(a, c);
    ReadUncovered(c, Above(a, c), Beside(a, c), Below(a, c), 20, DeleteTwenty, PutTwenty);
    InstalledAll(a, c, {Output()}, Installed(a, c, {Output()}));
  }
}
