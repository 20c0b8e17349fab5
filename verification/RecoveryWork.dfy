/** Opening a store: VersionSet::Recover folds the manifest, DBImpl::RecoverLogFile replays the
    logs into level-0 tables (db/db_impl.cc, db/version_set.cc). */
module RecoveryWork {
  import opened Format
  import opened Versions
  import opened VersionSet
  import opened Manifest
  import opened Lsm
  import opened Recovery
  import opened RecoveryProof
  import opened MemTable

  // The manifest

  datatype Counters = Counters(logNumber: nat, nextFile: nat, lastSequence: nat)

  lemma {:induction false} FoldedGrows(m: seq<Edit>, i: nat, l: nat)
    requires i <= |m|
    ensures Folded(m[..i], l).added <= Folded(m, l).added
    decreases |m| - i
  {
    if i < |m| {
      FoldedGrows(m, i + 1, l);
      assert m[..i + 1][..i] == m[..i];
    } else {
      assert m[..i] == m;
    }
  }

  lemma FoldedTake(m: seq<Edit>, i: nat, l: nat)
    requires i < |m|
    ensures Folded(m[..i + 1], l) == Apply(Folded(m[..i], l), m[i], l)
    ensures LogNumberOf(m[..i + 1]) == m[i].logNumber.GetOr(LogNumberOf(m[..i]))
    ensures NextFileOf(m[..i + 1]) == m[i].nextFile.GetOr(NextFileOf(m[..i]))
    ensures LastSeqOf(m[..i + 1]) == m[i].lastSeq.GetOr(LastSeqOf(m[..i]))
  {
    assert m[..i + 1][..i] == m[..i];
  }

  lemma NoEdits(m: seq<Edit>)
    ensures LogNumberOf(m[..0]) == NextFileOf(m[..0]) == LastSeqOf(m[..0]) == 0
        && forall l :: Folded(m[..0], l) == NO_CHANGE
  {
  }

  lemma FewerNamed(a: set<File>, b: set<File>)
    requires a <= b && NumbersName(b)
    ensures NumbersName(a)
  {
  }

  lemma EmptyVector()
    ensures SortedBySmallest([]) && FileSet([]) == {}
  {
  }

  /** Each counter is in some edit. */
  ghost predicate HasCounters(m: seq<Edit>) {
    && (exists i :: 0 <= i < |m| && m[i].logNumber.Some?)
    && (exists i :: 0 <= i < |m| && m[i].nextFile.Some?)
    && (exists i :: 0 <= i < |m| && m[i].lastSeq.Some?)
  }

  /** Recover: one builder takes all the edits; later counters replace earlier ones. Fails
      exactly when a counter is in no edit. */
  method RecoverVersion(m: seq<Edit>) returns (levels: FileVectors, counters: Option<Counters>)
    requires forall i :: 0 <= i < |m| ==> EditOk(m[i])
    requires forall l :: 0 <= l < NUM_LEVELS ==> NumbersName(Folded(m, l).added)
    ensures |levels| == NUM_LEVELS
    ensures forall l :: 0 <= l < NUM_LEVELS ==>
        SortedBySmallest(levels[l]) && FileSet(levels[l]) == Save(Folded(m, l), {})
    ensures counters.Some? <==> HasCounters(m)
    ensures counters.Some? ==> counters.value == Counters(LogNumberOf(m), NextFileOf(m), LastSeqOf(m))
  {
    hide EditOk, NumbersName, SortedBySmallest, LogNumberOf, NextFileOf, LastSeqOf, Folded, Save;
    NoEdits(m);
    var builder := new Builder();
    var haveLog, haveNext, haveLast := false, false, false;
    var logNumber, nextFile, lastSequence := 0, 0, 0;
    for i := 0 to |m|
      invariant fresh(builder) && builder.Valid()
      invariant forall l :: 0 <= l < NUM_LEVELS ==> builder.State(l) == Folded(m[..i], l)
      invariant logNumber == LogNumberOf(m[..i]) && nextFile == NextFileOf(m[..i]) && lastSequence == LastSeqOf(m[..i])
      invariant haveLog <==> exists j :: 0 <= j < i && m[j].logNumber.Some?
      invariant haveNext <==> exists j :: 0 <= j < i && m[j].nextFile.Some?
      invariant haveLast <==> exists j :: 0 <= j < i && m[j].lastSeq.Some?
    {
      var edit := m[i];
      forall l | 0 <= l < NUM_LEVELS
        ensures NumbersName(builder.State(l).added + AddedAt(edit, l))
        ensures Folded(m[..i + 1], l) == Apply(builder.State(l), edit, l)
      {
        FoldedTake(m, i, l);
        FoldedGrows(m, i + 1, l);
        FewerNamed(Folded(m[..i + 1], l).added, Folded(m, l).added);
      }
      FoldedTake(m, i, 0);
      builder.ApplyEdit(edit);
      if edit.logNumber.Some? { logNumber, haveLog := edit.logNumber.value, true; }
      if edit.nextFile.Some? { nextFile, haveNext := edit.nextFile.value, true; }
      if edit.lastSeq.Some? { lastSequence, haveLast := edit.lastSeq.value, true; }
    }
    assert m[..|m|] == m;
    var none: FileVectors := seq(NUM_LEVELS, i => []);
    EmptyVector();
    levels := builder.SaveTo(none);
    counters := if haveLog && haveNext && haveLast then Some(Counters(logNumber, nextFile, lastSequence)) else None;
  }

  // The logs

  lemma JoinedAppend(parts: seq<seq<Batch>>, part: seq<Batch>)
    ensures Joined(parts + [part]) == Joined(parts) + part
  {
    assert (parts + [part])[..|parts|] == parts;
  }

  lemma TableSetAppend(slots: seq<Option<File>>, t: Option<File>)
    ensures TableSet(slots + [t]) == TableSet(slots) + if t.Some? then {t.value} else {}
  {
    var s := slots + [t];
    forall f | f in TableSet(slots) ensures f in TableSet(s) {
      var i :| 0 <= i < |slots| && slots[i].Some? && slots[i].value == f;
      assert s[i] == slots[i];
    }
    assert s[|slots|] == t;
  }

  lemma HighestAppend(log: seq<Batch>, b: Batch)
    requires Rising(log) && Rising(log + [b])
    ensures b.first >= 1 && HighestOf(log + [b]) == Max(HighestOf(log), LastOf(b))
  {
    assert (log + [b])[..|log|] == log && (log + [b])[|log|] == b;
  }

  /** A batch is newer than those before it in a log with rising numbers. */
  lemma EarlierBatches(before: seq<Batch>, b: Batch)
    requires Rising(before + [b])
    ensures OlderThan(LogEntries(before), b.first)
  {
    var log := before + [b];
    forall e | e in LogEntries(before) ensures e.ik.seqno < b.first {
      var i :| 0 <= i < |before| && e in BatchEntries(before[i]);
      assert log[i] == before[i] && log[|before|] == b;
    }
  }

  lemma SuffixOlder(front: seq<Batch>, back: seq<Batch>, first: nat)
    requires OlderThan(LogEntries(front + back), first)
    ensures OlderThan(LogEntries(back), first)
  {
    LogConcat(front, back);
  }

  lemma OneMorePart(parts: seq<seq<Batch>>, slots: seq<Option<File>>, part: seq<Batch>, slot: Option<File>,
      mem: seq<Entry>, floor: nat, number: nat)
    requires Replayed(Joined(parts), parts, slots) && NumbersRise(slots, floor, number) && floor <= number
    requires Elements(mem) == LogEntries(part)
    requires if mem == [] then slot.None? else slot.Some? && slot.value.entries == mem && slot.value.number == number
    ensures Replayed(Joined(parts + [part]), parts + [part], slots + [slot])
    ensures NumbersRise(slots + [slot], floor, number + 1)
  {
    assert mem == [] ==> Elements(mem) == {};
    var p, s := parts + [part], slots + [slot];
    forall i | 0 <= i < |p| ensures TableOf(p[i], s[i]) {
      assert i < |parts| ==> TableOf(parts[i], slots[i]);
    }
    forall i | 0 <= i < |s| && s[i].Some? ensures floor <= s[i].value.number < number + 1 {
      assert i < |slots| ==> s[i] == slots[i];
    }
    forall i, j | 0 <= i < j < |s| && s[i].Some? && s[j].Some? ensures s[i].value.number < s[j].value.number {
      assert s[i] == slots[i];
      assert j < |slots| ==> s[j] == slots[j];
    }
  }

  /** The replay of the logs under way: the tables made so far and the counters it moves. */
  class Replay {
    var added: seq<File>
    var maxSequence: nat
    var nextFileNumber: nat
    ghost const floor: nat // the first number handed out
    ghost var parts: seq<seq<Batch>>
    ghost var slots: seq<Option<File>>

    ghost predicate Valid()
      reads this
    {
      && Replayed(Joined(parts), parts, slots)
      && NumbersRise(slots, floor, nextFileNumber) && floor <= nextFileNumber
      && FileSet(added) == TableSet(slots)
    }

    constructor (next: nat)
      ensures Valid() && parts == [] && slots == [] && maxSequence == 0 && nextFileNumber == next && floor == next
    {
      added, maxSequence, nextFileNumber, floor := [], 0, next, next;
      parts, slots := [], [];
    }

    /** WriteLevel0Table without a version: always to level zero; an empty memtable leaves no
        table but takes a number. */
    method WriteLevel0Table(mem: seq<Entry>, size: nat, ghost part: seq<Batch>)
      requires Valid() && Sorted(mem) && Elements(mem) == LogEntries(part)
      requires forall e :: e in mem ==> e.ik.seqno <= MAX_SEQUENCE
      modifies this`added, this`nextFileNumber, this`parts, this`slots
      ensures Valid() && parts == old(parts) + [part] && nextFileNumber > old(nextFileNumber)
    {
      hide Replayed, NumbersRise, LogEntries, TableSet, FileSet, Joined;
      var number := nextFileNumber;
      nextFileNumber := nextFileNumber + 1;
      ghost var slot: Option<File> := None;
      if mem != [] {
        var f: File := FileMetaData(number, size, mem);
        FileSetAppend(added, f);
        added := added + [f];
        slot := Some(f);
      }
      TableSetAppend(slots, slot);
      OneMorePart(parts, slots, part, slot, mem, floor, number);
      slots := slots + [slot];
      parts := parts + [part];
    }

    /** A log number may be newer than anything the manifest knows. */
    method MarkFileNumberUsed(number: nat)
      requires Valid()
      modifies this`nextFileNumber
      ensures Valid() && nextFileNumber == Max(old(nextFileNumber), number + 1)
    {
      if nextFileNumber <= number { nextFileNumber := number + 1; }
    }

    /** Replays one log. `full` says after which records the memtable is over its size. */
    method RecoverLogFile(log: seq<Batch>, full: nat -> bool, size: nat)
      requires Valid() && Rising(Joined(parts)) && Rising(Joined(parts) + log)
      requires maxSequence == HighestOf(Joined(parts))
      requires OlderThan(LogEntries(Joined(parts) + log), MAX_SEQUENCE + 1)
      modifies this
      ensures Valid() && Joined(parts) == old(Joined(parts)) + log && nextFileNumber >= old(nextFileNumber)
      ensures maxSequence == HighestOf(Joined(parts))
    {
      hide Replayed, NumbersRise, Rising, HighestOf, LogEntries, OlderThan, Joined;
      ghost var start := Joined(parts);
      var mem: Option<seq<Entry>> := None;
      ghost var part: seq<Batch> := [];
      assert log[..0] == [] && start + [] == start;
      NoEntries();
      for i := 0 to |log|
        invariant Valid() && Joined(parts) + part == start + log[..i] && nextFileNumber >= old(nextFileNumber)
        invariant Rising(start + log[..i]) && maxSequence == HighestOf(start + log[..i])
        invariant if mem.None? then part == [] else Sorted(mem.value) && Elements(mem.value) == LogEntries(part)
      {
        var batch := log[i];
        ReadOne(start, log, i, Joined(parts), part);
        if mem.None? { mem := Some([]); }
        LogAppend(part, batch);
        var filled := InsertInto(batch, mem.value);
        mem := Some(filled);
        part := part + [batch];
        var lastSeq := LastOf(batch);
        if lastSeq > maxSequence { maxSequence := lastSeq; }
        assert Joined(parts) + part == start + log[..i + 1];
        if full(i) {
          MemFits(start, log, i + 1, Joined(parts), part, filled);
          JoinedAppend(parts, part);
          WriteLevel0Table(filled, size, part);
          mem, part := None, [];
          assert Joined(parts) + [] == Joined(parts);
        }
      }
      assert log[..|log|] == log;
      if mem.Some? {
        MemFits(start, log, |log|, Joined(parts), part, mem.value);
        JoinedAppend(parts, part);
        WriteLevel0Table(mem.value, size, part);
      }
    }
  }

  lemma RisingPrefix(front: seq<Batch>, back: seq<Batch>)
    requires Rising(front + back)
    ensures Rising(front)
  {
    RisingTake(front + back, |front|);
    assert (front + back)[..|front|] == front;
  }

  lemma NoEntries()
    ensures LogEntries([]) == {} && Elements([]) == {}
  {
  }

  lemma ReadOne(start: seq<Batch>, log: seq<Batch>, i: nat, flushed: seq<Batch>, part: seq<Batch>)
    requires Rising(start + log) && i < |log| && flushed + part == start + log[..i]
    ensures Rising(start + log[..i]) && Rising(start + log[..i + 1]) && log[i].first >= 1
    ensures HighestOf(start + log[..i + 1]) == Max(HighestOf(start + log[..i]), LastOf(log[i]))
    ensures OlderThan(LogEntries(part), log[i].first)
    ensures start + log[..i + 1] == flushed + (part + [log[i]])
  {
    var before := start + log[..i];
    assert start + log == before + log[i..];
    RisingPrefix(before, log[i..]);
    assert start + log == (before + [log[i]]) + log[i + 1..];
    RisingPrefix(before + [log[i]], log[i + 1..]);
    assert start + log[..i + 1] == before + [log[i]];
    HighestAppend(before, log[i]);
    EarlierBatches(before, log[i]);
    SuffixOlder(flushed, part, log[i].first);
    assert (before + [log[i]])[|before|] == log[i];
  }

  lemma MemFits(start: seq<Batch>, log: seq<Batch>, i: nat, flushed: seq<Batch>, part: seq<Batch>, mem: seq<Entry>)
    requires OlderThan(LogEntries(start + log), MAX_SEQUENCE + 1) && i <= |log| && flushed + part == start + log[..i]
    requires Elements(mem) == LogEntries(part)
    ensures forall e :: e in mem ==> e.ik.seqno <= MAX_SEQUENCE
  {
    assert start + log == flushed + part + log[i..];
    LogConcat(flushed + part, log[i..]);
    LogConcat(flushed, part);
    forall e | e in mem ensures e.ik.seqno <= MAX_SEQUENCE {
      assert e in Elements(mem);
    }
  }

  // Choosing the logs

  /** The numbers of the logs to replay, in order; the directory lists them in any order. */
  method SelectLogs(names: set<nat>, minLog: nat) returns (numbers: seq<nat>)
    ensures forall k :: k in numbers <==> k in names && k >= minLog
    ensures Increasing(numbers)
  {
    numbers := [];
    var left := names;
    while left != {}
      invariant left <= names
      invariant forall k :: k in numbers <==> k in names - left && k >= minLog
      invariant Increasing(numbers)
      decreases |left|
    {
      var n :| n in left;
      left := left - {n};
      if n >= minLog {
        numbers := InsertNumber(numbers, n);
      }
    }
  }

  ghost predicate Increasing(s: seq<nat>) {
    forall i, j :: 0 <= i < j < |s| ==> s[i] < s[j]
  }

  lemma InsertedNumber(s: seq<nat>, i: nat, n: nat)
    requires Increasing(s) && n !in s && i <= |s|
    requires (forall j :: 0 <= j < i ==> s[j] < n) && (i < |s| ==> s[i] >= n)
    ensures Increasing(s[..i] + [n] + s[i..])
    ensures forall k :: k in s[..i] + [n] + s[i..] <==> k in s || k == n
  {
    assert s == s[..i] + s[i..];
    assert i < |s| ==> s[i] in s;
    assert forall j :: i <= j < |s| ==> s[j] > n;
  }

  method InsertNumber(s: seq<nat>, n: nat) returns (r: seq<nat>)
    requires n !in s && Increasing(s)
    ensures Increasing(r)
    ensures forall k :: k in r <==> k in s || k == n
  {
    var i := 0;
    while i < |s| && s[i] < n
      invariant 0 <= i <= |s|
      invariant forall j :: 0 <= j < i ==> s[j] < n
    {
      i := i + 1;
    }
    InsertedNumber(s, i, n);
    r := s[..i] + [n] + s[i..];
  }

  // Recovery of a reachable store

  lemma CountersPresent(m: seq<Edit>)
    requires EndsWithCounters(m)
    ensures HasCounters(m)
  {
    var i := |m| - 1;
    assert m[i].logNumber.Some? && m[i].nextFile.Some? && m[i].lastSeq.Some?;
  }

  lemma ManifestReadable(a: Node)
    requires NodeInv(a)
    ensures HasCounters(a.manifest) && forall i :: 0 <= i < |a.manifest| ==> EditOk(a.manifest[i])
    ensures forall l :: 0 <= l < NUM_LEVELS ==> NumbersName(Folded(a.manifest, l).added)
  {
    CountersPresent(a.manifest);
    forall l | 0 <= l < NUM_LEVELS ensures NumbersName(Folded(a.manifest, l).added) {
      assert LevelRecorded(a.db.levels, a.manifest, l);
    }
  }

  lemma {:induction false} JoinedLogsGrow(logs: map<nat, seq<Batch>>, numbers: seq<nat>, i: nat)
    requires i <= |numbers|
    ensures JoinedLogs(logs, numbers[..i]) <= JoinedLogs(logs, numbers)
    decreases |numbers|
  {
    if i < |numbers| {
      var init := numbers[..|numbers| - 1];
      JoinedLogsGrow(logs, init, i);
      assert init[..i] == numbers[..i];
    } else {
      assert numbers[..i] == numbers;
    }
  }

  lemma PrefixReplayable(a: Node, numbers: seq<nat>, i: nat)
    requires NodeInv(a) && ReplayOrder(a, numbers, JoinedLogs(a.logs, numbers)) && i <= |numbers|
    ensures Rising(JoinedLogs(a.logs, numbers[..i]))
    ensures OlderThan(LogEntries(JoinedLogs(a.logs, numbers[..i])), MAX_SEQUENCE + 1)
  {
    hide NodeInv, LogEntries, OlderThan, Rising, JoinedLogs, LiveBatches, ReplayOrder, LogsOk;
    LogsOkOf(a);
    var live, front := JoinedLogs(a.logs, numbers), JoinedLogs(a.logs, numbers[..i]);
    ReplaysLive(a, numbers, live);
    JoinedLogsGrow(a.logs, numbers, i);
    LiveBounded(a);
    Prefix(live, front);
  }

  lemma LogsOkOf(a: Node)
    requires NodeInv(a)
    ensures LogsOk(a) && Rising(LiveBatches(a))
  {
  }

  lemma Prefix(live: seq<Batch>, front: seq<Batch>)
    requires front <= live && Rising(live) && OlderThan(LogEntries(live), MAX_SEQUENCE + 1)
    ensures Rising(front) && OlderThan(LogEntries(front), MAX_SEQUENCE + 1)
  {
    RisingTake(live, |front|);
    assert live == front + live[|front|..];
    LogConcat(front, live[|front|..]);
  }

  lemma {:induction false} NextLog(a: Node, numbers: seq<nat>, i: nat)
    requires ReplayOrder(a, numbers, JoinedLogs(a.logs, numbers)) && i < |numbers|
    ensures numbers[i] in a.logs
    ensures JoinedLogs(a.logs, numbers[..i + 1]) == JoinedLogs(a.logs, numbers[..i]) + a.logs[numbers[i]]
  {
    var taken := numbers[..i + 1];
    assert taken[..|taken| - 1] == numbers[..i] && taken[|taken| - 1] == numbers[i] && numbers[i] in numbers;
  }

  lemma LiveBounded(a: Node)
    requires NodeInv(a)
    ensures OlderThan(LogEntries(LiveBatches(a)), MAX_SEQUENCE + 1)
  {
    var c := CompleteWrite(a.db);
    LiveHoldsMemtables(a, c);
    BoundedMemtables(c);
  }

  lemma BoundedMemtables(c: Db)
    requires Inv(c)
    ensures OlderThan(c.mem + c.Imm(), MAX_SEQUENCE + 1)
  {
    forall e | e in c.mem + c.Imm() ensures e.ik.seqno < MAX_SEQUENCE + 1 {
      assert Recorded(c.hist + c.group, c.lastSeq + c.inserted, e) || Recorded(c.hist, c.lastSeq, e);
    }
  }

  /** DBImpl::Recover on what a crash left behind: the version of the manifest, and the tables
      of all logs not older than its log number, replayed in the order of their numbers. */
  method RecoverStore(ghost a: Node, m: seq<Edit>, logs: map<nat, seq<Batch>>, full: (nat, nat) -> bool, size: nat)
    returns (levels: FileVectors, replay: Replay, lastSequence: nat, ghost numbers: seq<nat>)
    requires NodeInv(a) && m == a.manifest && logs == a.logs
    ensures |levels| == NUM_LEVELS && Sets(levels) == BaseLevels(m)
    ensures forall l :: 0 <= l < NUM_LEVELS ==> SortedBySmallest(levels[l])
    ensures fresh(replay) && replay.Valid() && replay.floor > NextFileOf(m)
    ensures ReplayOrder(a, numbers, Joined(replay.parts)) && Rising(Joined(replay.parts))
    ensures lastSequence == Max(LastSeqOf(m), HighestOf(Joined(replay.parts)))
    ensures forall k :: k in numbers ==> k < replay.nextFileNumber
  {
    hide NodeInv, LogEntries, OlderThan, Rising, HighestOf, Folded, Replayed, NumbersRise, JoinedLogs, Joined,
        HasCounters;
    ManifestReadable(a);
    var counters;
    levels, counters := RecoverVersion(m);
    assert Sets(levels) == BaseLevels(m);
    var c := counters.value;
    // The code marks the log number as used before this, which then overwrites the counter: a
    // manifest's log number is below its next file number.
    replay := new Replay(c.nextFile + 1);
    var selected := SelectLogs(logs.Keys, c.logNumber);
    numbers := selected;
    NoBatches(logs, numbers);
    for i := 0 to |selected|
      invariant fresh(replay) && replay.Valid() && replay.floor > NextFileOf(m)
      invariant Joined(replay.parts) == JoinedLogs(logs, selected[..i]) && Rising(Joined(replay.parts))
      invariant replay.maxSequence == HighestOf(Joined(replay.parts))
      invariant forall k :: k in selected[..i] ==> k < replay.nextFileNumber
    {
      PrefixReplayable(a, selected, i);
      PrefixReplayable(a, selected, i + 1);
      NextLog(a, selected, i);
      var n := selected[i];
      replay.RecoverLogFile(logs[n], (r: nat) => full(n, r), size);
      replay.MarkFileNumberUsed(n);
    }
    assert selected[..|selected|] == selected;
    lastSequence := c.lastSequence;
    if lastSequence < replay.maxSequence { lastSequence := replay.maxSequence; }
  }

  lemma NoBatches(logs: map<nat, seq<Batch>>, numbers: seq<nat>)
    ensures JoinedLogs(logs, numbers[..0]) == [] && Rising([]) && HighestOf([]) == 0 && Joined<Batch>([]) == []
  {
  }
}
