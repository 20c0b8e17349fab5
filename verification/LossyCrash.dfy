/** Crashes that lose what was not synced: the logs are cut anywhere behind their synced records,
    and the store is opened again. What was synced is found, whole and not hidden by anything
    older (db/db_impl.cc, db/log_reader.cc). */
module LossyCrash {
  import opened Format
  import opened Versions
  import opened Manifest
  import opened Lsm
  import opened LsmInvariant
  import opened Recovery
  import opened RecoveryProof
  import opened WriteQueue

  /** Every log keeps a prefix that has its synced records. */
  ghost predicate Cut(a: Node, synced: map<nat, nat>, c: Node) {
    c == a.(logs := c.logs) && c.logs.Keys == a.logs.Keys && forall k :: k in a.logs ==>
      CutLog(a.logs, synced, c.logs, k)
  }

  ghost predicate CutLog(logs: map<nat, seq<Batch>>, synced: map<nat, nat>, kept: map<nat, seq<Batch>>, k: nat)
    requires k in logs
  {
    k in kept && kept[k] <= logs[k] && (k in synced ==> synced[k] <= |kept[k]|)
  }

  /** Entries of tables are covered by the last sequence number in the manifest. */
  ghost predicate TablesCounted(n: Node) {
    forall e :: e in AllEntries(n.db.levels) ==> e.ik.seqno <= LastSeqOf(n.manifest)
  }

  lemma TablesPublished(db: Db)
    requires Inv(db)
    ensures forall e :: e in AllEntries(db.levels) ==> e.ik.seqno <= db.lastSeq
  {
    assert forall e :: e in AllEntries(db.levels) ==> Recorded(db.hist, db.lastSeq, e);
  }

  lemma LoggedCounts(a: Node, b: Node, ln: nat)
    requires Logged(a, b, ln)
    ensures LastSeqOf(b.manifest) == b.db.lastSeq
  {
    assert b.manifest[|b.manifest| - 1] == b.manifest[|a.manifest|];
  }

  lemma StepCounts(a: Node, ev: NodeEvent, b: Node)
    requires AnyStep(a, ev, b) && TablesCounted(a) && NodeInv(b)
    ensures TablesCounted(b)
  {
    hide Inv, ManifestOk, LogsOk, LastSeqOf, AllEntries;
    TablesPublished(b.db);
    match ev
    case Crash(_, _, _, _) => ReopenedCounts(b);
    case Do(e) =>
      if e.Flush? { LoggedCounts(a, b, a.logFile); }
      if e.Move? || e.Install? { LoggedCounts(a, b, LogNumberOf(a.manifest)); }
  }

  lemma ReopenedCounts(b: Node)
    requires EndsWithCounters(b.manifest) && b.manifest[|b.manifest| - 1].lastSeq == Some(b.db.lastSeq)
    ensures LastSeqOf(b.manifest) == b.db.lastSeq
  {
  }

  lemma {:induction false} RunCounts(states: seq<Node>, events: seq<NodeEvent>, n: nat)
    requires NodeRun(states, events) && n < |states|
    ensures TablesCounted(states[n])
  {
    hide AnyStep, NodeInv, LastSeqOf;
    if n == 0 {
      NothingStored(states[0]);
    } else {
      RunCounts(states, events, n - 1);
      NodeRunInv(states, events, n);
      StepCounts(states[n - 1], events[n - 1], states[n]);
    }
  }

  lemma NothingStored(n: Node)
    requires NewStore(n)
    ensures TablesCounted(n)
  {
  }

  // What is replayed

  lemma PrefixRises(x: seq<Batch>, y: seq<Batch>, p: seq<Batch>, q: seq<Batch>)
    requires Rising(x + y) && p <= x && q <= y
    ensures Rising(p + q)
  {
    var all, kept := x + y, p + q;
    forall i | 0 <= i < |kept| ensures kept[i].first >= 1 {
      assert kept[i] == all[if i < |p| then i else i - |p| + |x|];
    }
    forall i, j | 0 <= i < j < |kept| ensures kept[i].first + |kept[i].ops| <= kept[j].first {
      assert kept[i] == all[if i < |p| then i else i - |p| + |x|]
          && kept[j] == all[if j < |p| then j else j - |p| + |x|];
    }
  }

  lemma PrefixEntries(p: seq<Batch>, x: seq<Batch>)
    requires p <= x
    ensures LogEntries(p) <= LogEntries(x)
  {
    forall e | e in LogEntries(p) ensures e in LogEntries(x) {
      var i :| 0 <= i < |p| && e in BatchEntries(p[i]);
      assert x[i] == p[i];
    }
  }

  /** The logs replayed after the cut are in order, and part of those before. */
  lemma CutReplay(a: Node, synced: map<nat, nat>, c: Node)
    requires LogsOk(a) && Cut(a, synced, c)
    ensures LogNumbersOk(c) && Rising(LiveBatches(c)) && LogEntries(LiveBatches(c)) <= LogEntries(LiveBatches(a))
  {
    hide LogEntries, Rising;
    assert CutLog(a.logs, synced, c.logs, a.logFile) && (a.db.imm.Some? ==> CutLog(a.logs, synced, c.logs, a.immLog));
    var x, y := if a.db.imm.Some? then a.logs[a.immLog] else [], a.logs[a.logFile];
    var p, q := if a.db.imm.Some? then c.logs[a.immLog] else [], c.logs[a.logFile];
    PrefixRises(x, y, p, q);
    PrefixEntries(p, x);
    PrefixEntries(q, y);
    LogConcat(x, y);
    LogConcat(p, q);
  }

  lemma CutReplayable(a: Node, kept: seq<Batch>, parts: seq<seq<Batch>>, tables: seq<Option<File>>, next: nat)
    requires NodeInv(a) && Rising(kept) && LogEntries(kept) <= LogEntries(LiveBatches(a))
    requires Replayed(kept, parts, tables)
    requires NumbersRise(tables, NextFileOf(a.manifest), next)
    ensures Replayable(a.db.levels, kept, parts, tables, NextFileOf(a.manifest), next) && NumbersUnique(a.db.levels)
  {
    hide Inv, ManifestOk, LogEntries, Replayed, NumbersRise, Rising, VersionOk, LiveBatches;
    var c := CompleteOf(a);
    LiveHoldsMemtables(a, c);
    FewerReplayed(c, kept);
    forall i, f | 0 <= i < NUM_LEVELS && f in a.db.levels[i] ensures f.number < NextFileOf(a.manifest) {
      CurrentNumbers(a, i, f);
    }
  }

  lemma FewerReplayed(c: Db, kept: seq<Batch>)
    requires Inv(c) && LogEntries(kept) <= c.mem + c.Imm()
    ensures VersionOk(c.levels) && Newer(LogEntries(kept), AllEntries(c.levels))
    ensures Distinct(LogEntries(kept) + AllEntries(c.levels))
  {
    StoredDistinct(c);
    assert forall e :: e in LogEntries(kept) + AllEntries(c.levels) ==> e in c.All();
  }

  /** Opening the store after such a crash gives sound levels that hold all tables and exactly the
      records kept, with a last sequence number that covers them. */
  lemma LossyRecovery(a: Node, synced: map<nat, nat>, c: Node, numbers: seq<nat>, live: seq<Batch>,
      parts: seq<seq<Batch>>, tables: seq<Option<File>>, b: Node)
    requires NodeInv(a) && TablesCounted(a) && Cut(a, synced, c) && Reopened(c, numbers, live, parts, tables, b)
    ensures live == LiveBatches(c) && VersionOk(b.db.levels) && NumbersOk(b.db) && ManifestOk(b.db, b.manifest)
    ensures LogsOk(b)
    ensures AllEntries(b.db.levels) == b.db.All() == AllEntries(a.db.levels) + LogEntries(live)
    ensures forall e :: e in b.db.All() ==> e.ik.seqno <= b.db.lastSeq
  {
    hide NodeInv, VersionOk, NumbersOk, Replayed, NumbersRise, LogEntries, BaseLevels, EditBetween, EditOk, LogsOk,
        ManifestOk, ReplayOrder, LiveBatches, Replayable, HighestOf, Cut, LogNumbersOk;
    var d := CompleteOf(a);
    CutReplay(a, synced, c);
    CutSame(a, synced, c);
    ReplaysLive(c, numbers, live);
    BaseIsCurrent(a);
    CutReplayable(a, live, parts, tables, b.db.nextFile);
    ReplayedLevels(a.db.levels, live, parts, tables, NextFileOf(a.manifest), b.db);
    RecoveredManifest(c, numbers, live, parts, tables, b);
    HighestCovers(live);
  }

  lemma CutSame(a: Node, synced: map<nat, nat>, c: Node)
    requires Cut(a, synced, c)
    ensures c.db == a.db && c.manifest == a.manifest
  {
  }

  lemma {:induction false} HighestCovers(live: seq<Batch>)
    requires Rising(live)
    ensures forall e :: e in LogEntries(live) ==> e.ik.seqno <= HighestOf(live)
  {
    HighestIsLast(live);
    forall e | e in LogEntries(live) ensures e.ik.seqno <= HighestOf(live) {
      var i :| 0 <= i < |live| && e in BatchEntries(live[i]);
      if i < |live| - 1 { assert live[i].first + |live[i].ops| <= live[|live| - 1].first; }
    }
  }

  // What was synced

  /** The logs that recovery replays. */
  ghost predicate IsLive(a: Node, k: nat) {
    k == a.logFile || (a.db.imm.Some? && k == a.immLog)
  }

  lemma SyncedReplayed(a: Node, synced: map<nat, nat>, c: Node, k: nat, i: nat)
    requires LogNumbersOk(a) && LogNumbersOk(c) && Cut(a, synced, c) && IsLive(a, k) && k in a.logs && k in synced
    requires i < synced[k] && i < |a.logs[k]|
    ensures BatchEntries(a.logs[k][i]) <= LogEntries(LiveBatches(c))
  {
    hide BatchEntries;
    assert CutLog(a.logs, synced, c.logs, k);
    var x, y := if c.db.imm.Some? then c.logs[c.immLog] else [], c.logs[c.logFile];
    LogConcat(x, y);
    assert c.logs[k][i] == a.logs[k][i] && (k == a.logFile ==> y == c.logs[k]) && (k != a.logFile ==> x == c.logs[k]);
  }

  /** In every reachable state: after a crash that loses what was not synced, a write whose record
      was synced is in the store, and a read of its key finds it or a newer write. */
  lemma SyncedWriteSurvives(states: seq<Node>, events: seq<NodeEvent>, n: nat, synced: map<nat, nat>, c: Node,
                            numbers: seq<nat>, live: seq<Batch>, parts: seq<seq<Batch>>,
                              tables: seq<Option<File>>, b: Node,
                            k: nat, i: nat, e: Entry) returns (m: Entry)
    requires NodeRun(states, events) && n < |states| && Cut(states[n], synced, c)
    requires Reopened(c, numbers, live, parts, tables, b)
    requires IsLive(states[n], k) && k in states[n].logs && k in synced && i < synced[k] && i < |states[n].logs[k]|
    requires e in BatchEntries(states[n].logs[k][i])
    ensures e in b.db.All() && m in b.db.All() && m.ik.user == e.ik.user && m.ik.seqno >= e.ik.seqno
    ensures View(b.db.All(), e.ik.user, b.db.lastSeq) == Result(m)
  {
    hide NodeRun, Cut, Reopened, NodeInv, LogsOk, ManifestOk, VersionOk, NumbersOk, BatchEntries, LogEntries,
        LogNumbersOk, View, LiveBatches;
    var a := states[n];
    NodeRunInv(states, events, n);
    RunCounts(states, events, n);
    LossyRecovery(a, synced, c, numbers, live, parts, tables, b);
    var d := CompleteOf(a);
    CutReplay(a, synced, c);
    SyncedReplayed(a, synced, c, k, i);
    ReopenedDistinct(b);
    VisibleOrHidden(b.db.All(), e.ik.user, b.db.lastSeq);
    m :| IsVisible(b.db.All(), e.ik.user, b.db.lastSeq, m);
    ViewOf(b.db.All(), e.ik.user, b.db.lastSeq, m);
  }

  lemma ReopenedDistinct(b: Node)
    requires VersionOk(b.db.levels) && AllEntries(b.db.levels) == b.db.All()
    ensures Distinct(b.db.All())
  {
  }

  /** Record i of log k is the one written for a group, and counts as synced if it was. */
  ghost predicate RecordAt(a: Node, synced: map<nat, nat>, g: Group, k: nat, i: nat) {
    g.record.Some? ==>
      && k in a.logs && i < |a.logs[k]| && a.logs[k][i] == Batch(g.record.value.first, g.record.value.ops)
      && (g.record.value.synced ==> k in synced && i < synced[k])
  }

  /** A writer that asked for a sync and was told OK: every operation of its batch is in the store
      after such a crash, as long as its log is still the one recovery replays. */
  lemma ToldOkSurvives(states: seq<Node>, events: seq<NodeEvent>, n: nat, synced: map<nat, nat>, c: Node,
                       numbers: seq<nat>, live: seq<Batch>, parts: seq<seq<Batch>>, tables: seq<Option<File>>, b: Node,
                       writers: seq<Writer>, groups: seq<Group>, id: nat, k: nat, i: nat) returns (g: nat, at: nat)
    requires NodeRun(states, events) && n < |states| && Cut(states[n], synced, c)
    requires Reopened(c, numbers, live, parts, tables, b)
    requires AllOk(writers, groups) && id < Answered(groups, |groups|) && id < |writers| && writers[id].sync
    requires IsLive(states[n], k)
    requires forall h :: 0 <= h < |groups| && id in groups[h].members ==> RecordAt(states[n], synced, groups[h], k, i)
    ensures g < |groups| && id in groups[g].members && HasAnswer(writers[id], groups[g].status)
    ensures groups[g].status.OK? && writers[id].batch.Some? ==>
      && groups[g].record.Some?
      && forall j :: 0 <= j < |writers[id].batch.value| ==>
        EntryOf(writers[id].batch.value[j], groups[g].record.value.first + at + j) in b.db.All()
  {
    hide NodeRun, Cut, Reopened, AllOk, HasAnswer, IsLive;
    g, at := ToldOk(writers, groups, id);
    if groups[g].status.OK? && writers[id].batch.Some? {
      var r, batch := groups[g].record.value, writers[id].batch.value;
      assert RecordAt(states[n], synced, groups[g], k, i);
      forall j | 0 <= j < |batch| ensures EntryOf(batch[j], r.first + at + j) in b.db.All() {
        assert batch[j] == r.ops[at..at + |batch|][j] == r.ops[at + j];
        var e := EntryOf(r.ops[at + j], r.first + (at + j));
        assert e in BatchEntries(Batch(r.first, r.ops));
        var m := SyncedWriteSurvives(states, events, n, synced, c, numbers, live, parts, tables, b, k, i, e);
      }
    }
  }
}
