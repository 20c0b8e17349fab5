/** Group commit (DBImpl::Write and BuildBatchGroup, db/db_impl.cc): writers queue up, the one at
    the front writes a group of batches and answers the whole group. Each method is a region the
    code runs under its mutex; other threads run between two of them. */
module WriteQueue {
  import opened Format
  import opened Lsm

  datatype Status = OK | Failed

  /** A thread inside Write: waiting on its condition variable, in charge of the queue (making
      room), writing its group without the mutex, or back with a result. */
  datatype Thread = Asleep(signaled: bool) | Leading | Writing | Returned(result: Status)

  /** No batch: the caller only wants the memtable switched. `bytes` is the size of the encoded
      batch. */
  datatype Writer = Writer(batch: Option<seq<Op>>, bytes: nat, sync: bool, done: bool, status: Status, thread: Thread)

  /** Writers answered together, and the log record written for them; none when there was no
      room or nothing to write. */
  datatype Group = Group(members: seq<nat>, record: Option<LogRecord>, status: Status)

  datatype LogRecord = LogRecord(first: nat, ops: seq<Op>, synced: bool)

  // The group

  function MaxSize(size: nat): nat {
    if size <= 0x2_0000 then size + 0x2_0000 else 0x10_0000
  }

  /** The bytes and operations of the batches of the first n writers. */
  function Bytes(ws: seq<Writer>, n: nat): nat
    requires n <= |ws|
  {
    if n == 0 then 0 else Bytes(ws, n - 1) + if ws[n - 1].batch.Some? then ws[n - 1].bytes else 0
  }

  function Ops(ws: seq<Writer>, n: nat): seq<Op>
    requires n <= |ws|
  {
    if n == 0 then [] else Ops(ws, n - 1) + ws[n - 1].batch.GetOr([])
  }

  /** Writer i may join the group of the first writer: no sync write behind one without sync, no
      batch that makes the group too big. */
  predicate MayJoin(ws: seq<Writer>, i: nat)
    requires 0 < i < |ws|
  {
    && (ws[i].sync ==> ws[0].sync)
    && (ws[i].batch.Some? ==> Bytes(ws, i + 1) <= MaxSize(ws[0].bytes))
  }

  /** The longest prefix of the queue that may be written together. */
  ghost predicate IsGroup(ws: seq<Writer>, n: nat) {
    && 1 <= n <= |ws|
    && (forall i :: 1 <= i < n ==> MayJoin(ws, i))
    && (n < |ws| ==> !MayJoin(ws, n))
  }

  /** BuildBatchGroup. */
  method BuildBatchGroup(ws: seq<Writer>) returns (n: nat, ops: seq<Op>)
    requires ws != [] && ws[0].batch.Some?
    ensures IsGroup(ws, n) && ops == Ops(ws, n)
  {
    ops := ws[0].batch.value;
    var size := ws[0].bytes;
    var maxSize := if size <= 0x2_0000 then size + 0x2_0000 else 0x10_0000;
    n := 1;
    assert Ops(ws, 1) == Ops(ws, 0) + ops && Bytes(ws, 1) == Bytes(ws, 0) + size;
    while n < |ws|
      invariant 1 <= n <= |ws| && ops == Ops(ws, n) && size == Bytes(ws, n)
      invariant forall i :: 1 <= i < n ==> MayJoin(ws, i)
    {
      var w := ws[n];
      if w.sync && !ws[0].sync { break; }
      if w.batch.Some? {
        size := size + w.bytes;
        if size > maxSize { break; }
        ops := ops + w.batch.value;
      }
      n := n + 1;
    }
  }

  // What a writer may rely on

  function OpsOf(g: Group): seq<Op> {
    if g.record.Some? then g.record.value.ops else []
  }

  /** The operations of the first n groups. */
  function Written(groups: seq<Group>, n: nat): seq<Op>
    requires n <= |groups|
  {
    if n == 0 then [] else Written(groups, n - 1) + OpsOf(groups[n - 1])
  }

  /** The number of writers the first n groups answered. */
  function Answered(groups: seq<Group>, n: nat): nat
    requires n <= |groups|
  {
    if n == 0 then 0 else Answered(groups, n - 1) + |groups[n - 1].members|
  }

  /** Group k: its members are the writers that came next; its record holds their batches under
      the next sequence numbers, and is synced if one of them asked for it; each member has
      the group's status as its answer. */
  ghost predicate GroupOk(writers: seq<Writer>, groups: seq<Group>, k: nat)
    requires k < |groups|
  {
    var g := groups[k];
    var from := Answered(groups, k);
    && g.members != [] && from + |g.members| <= |writers|
    && (forall i :: 0 <= i < |g.members| ==> g.members[i] == from + i)
    && (g.record.Some? ==>
      && g.record.value.first == |Written(groups, k)| + 1
      && g.record.value.ops == Ops(writers[from..from + |g.members|], |g.members|)
      && forall i :: from <= i < from + |g.members| && writers[i].sync ==> g.record.value.synced)
    && (g.record.None? ==> |g.members| == 1 && (g.status.OK? ==> writers[from].batch.None?))
    && forall i :: from <= i < from + |g.members| ==> HasAnswer(writers[i], g.status)
  }

  /** Back with the status, or done and about to be: signalled, or not asleep. */
  predicate HasAnswer(w: Writer, status: Status) {
    match w.thread
    case Returned(result) => result == status
    case Asleep(signaled) => w.done && w.status == status && signaled
    case _ => false
  }

  /** A writer still in the queue at position i: only the front is in charge or has been
      signalled, so that no writer waits for a signal that will not come. */
  predicate WaitsWell(w: Writer, i: nat, busy: bool) {
    && !w.done
    && match w.thread
       case Returned(_) => false
       case Asleep(signaled) => if i == 0 then signaled && !busy else true
       case Leading => i == 0 && !busy
       case Writing => i == 0 && busy
  }

  /** The group being written. */
  ghost predicate InFlightOk(ws: seq<Writer>, n: nat, ops: seq<Op>) {
    && 1 <= n <= |ws| && ops == Ops(ws, n) && ws[0].batch.Some?
    && forall i :: 0 <= i < n && ws[i].sync ==> ws[0].sync
  }

  function Ids(from: nat, n: nat): seq<nat> {
    seq(n, i requires 0 <= i => from + i)
  }

  // Groups do not change while others are made

  lemma {:induction false} GroupPrefix(ws: seq<Writer>, vs: seq<Writer>, n: nat)
    requires n <= |ws| && n <= |vs| && forall i :: 0 <= i < n ==> ws[i].batch == vs[i].batch
    ensures Ops(ws, n) == Ops(vs, n)
  {
    if n > 0 {
      GroupPrefix(ws, vs, n - 1);
    }
  }

  /** Nothing a group depends on changes for the writers of `before`. */
  ghost predicate Keeps(before: seq<Writer>, after: seq<Writer>) {
    |before| <= |after| && forall i :: 0 <= i < |before| ==> KeepsOne(before[i], after[i])
  }

  ghost predicate KeepsOne(w: Writer, v: Writer) {
    v.batch == w.batch && v.sync == w.sync && (HasAnswer(w, OK) ==> HasAnswer(v, OK))
      && (HasAnswer(w, Failed) ==> HasAnswer(v, Failed))
  }

  lemma {:induction false} GroupStays(before: seq<Writer>, after: seq<Writer>, groups: seq<Group>, k: nat)
    requires Keeps(before, after) && k < |groups| && GroupOk(before, groups, k)
    ensures GroupOk(after, groups, k)
  {
    var g := groups[k];
    var from := Answered(groups, k);
    var ws, vs := before[from..from + |g.members|], after[from..from + |g.members|];
    forall i | from <= i < from + |g.members| ensures HasAnswer(after[i], g.status) && after[i].sync == before[i].sync {
      assert KeepsOne(before[i], after[i]);
    }
    forall i | 0 <= i < |g.members| ensures ws[i].batch == vs[i].batch {
      assert KeepsOne(before[from + i], after[from + i]);
    }
    GroupPrefix(ws, vs, |g.members|);
  }

  lemma InFlightStays(ws: seq<Writer>, vs: seq<Writer>, n: nat, ops: seq<Op>)
    requires InFlightOk(ws, n, ops) && Keeps(ws, vs)
    ensures InFlightOk(vs, n, ops)
  {
    assert forall i :: 0 <= i < |ws| ==> KeepsOne(ws[i], vs[i]);
    GroupPrefix(ws, vs, n);
  }

  lemma {:induction false} GroupsPrefix(groups: seq<Group>, g: Group, n: nat)
    requires n <= |groups|
    ensures Answered(groups + [g], n) == Answered(groups, n) && Written(groups + [g], n) == Written(groups, n)
  {
    if n > 0 {
      GroupsPrefix(groups, g, n - 1);
      assert (groups + [g])[n - 1] == groups[n - 1];
    }
  }

  lemma GroupKept(writers: seq<Writer>, groups: seq<Group>, g: Group, k: nat)
    requires k < |groups| && GroupOk(writers, groups, k)
    ensures GroupOk(writers, groups + [g], k)
  {
    GroupsPrefix(groups, g, k);
  }

  lemma {:induction false} AnsweredGrows(groups: seq<Group>, i: nat, j: nat)
    requires i <= j <= |groups|
    ensures Answered(groups, i) <= Answered(groups, j)
  {
    if i < j {
      AnsweredGrows(groups, i, j - 1);
    }
  }

  // What the groups mean for one writer

  ghost predicate AllOk(writers: seq<Writer>, groups: seq<Group>) {
    forall k :: 0 <= k < |groups| ==> GroupOk(writers, groups, k)
  }

  /** Every writer answered is a member of a group, at its place in the order of arrival. */
  lemma {:induction false} GroupOfWriter(writers: seq<Writer>, groups: seq<Group>, n: nat, id: nat) returns (k: nat)
    requires AllOk(writers, groups) && n <= |groups| && id < Answered(groups, n)
    ensures k < n && Answered(groups, k) <= id < Answered(groups, k + 1)
    ensures groups[k].members[id - Answered(groups, k)] == id && id < |writers|
    ensures HasAnswer(writers[id], groups[k].status)
  {
    if id >= Answered(groups, n - 1) {
      k := n - 1;
      assert GroupOk(writers, groups, k);
    } else {
      k := GroupOfWriter(writers, groups, n - 1, id);
    }
  }

  /** No writer is a member of two groups. */
  lemma OneGroupOnly(writers: seq<Writer>, groups: seq<Group>, j: nat, k: nat, id: nat)
    requires AllOk(writers, groups) && j < |groups| && k < |groups|
    requires id in groups[j].members && id in groups[k].members
    ensures j == k
  {
    assert GroupOk(writers, groups, j) && GroupOk(writers, groups, k);
    if j < k { AnsweredGrows(groups, j + 1, k); }
    if k < j { AnsweredGrows(groups, k + 1, j); }
  }

  lemma {:induction false} OwnSlice(ws: seq<Writer>, n: nat, i: nat)
    requires i < n <= |ws|
    ensures var at := |Ops(ws, i)|; var own := ws[i].batch.GetOr([]);
      at + |own| <= |Ops(ws, n)| && Ops(ws, n)[at..at + |own|] == own
  {
    if i < n - 1 {
      OwnSlice(ws, n - 1, i);
    }
  }

  /** A writer told OK: its whole batch is in the log record of its group, under consecutive
      sequence numbers, and synced if it asked for that. */
  lemma ToldOk(writers: seq<Writer>, groups: seq<Group>, id: nat) returns (k: nat, at: nat)
    requires AllOk(writers, groups) && id < Answered(groups, |groups|)
    ensures k < |groups| && id < |writers| && id in groups[k].members && HasAnswer(writers[id], groups[k].status)
    ensures groups[k].status.OK? && writers[id].batch.Some? ==>
      && groups[k].record.Some? && at + |writers[id].batch.value| <= |groups[k].record.value.ops|
      && groups[k].record.value.ops[at..at + |writers[id].batch.value|] == writers[id].batch.value
      && (writers[id].sync ==> groups[k].record.value.synced)
  {
    k := GroupOfWriter(writers, groups, |groups|, id);
    var from := Answered(groups, k);
    var g := groups[k];
    assert GroupOk(writers, groups, k);
    var ws := writers[from..from + |g.members|];
    at := |Ops(ws, id - from)|;
    OwnSlice(ws, |g.members|, id - from);
    assert ws[id - from] == writers[id];
  }

  lemma {:induction false} OpsConcat(ws: seq<Writer>, from: nat, n: nat)
    requires from + n <= |ws|
    ensures Ops(ws, from + n) == Ops(ws, from) + Ops(ws[from..from + n], n)
  {
    if n > 0 {
      OpsConcat(ws, from, n - 1);
      GroupPrefix(ws[from..from + n - 1], ws[from..from + n], n - 1);
      assert ws[from..from + n][n - 1] == ws[from + n - 1];
      assert Ops(ws, from + n) == Ops(ws, from + n - 1) + ws[from + n - 1].batch.GetOr([]);
      assert Ops(ws[from..from + n], n) == Ops(ws[from..from + n], n - 1) + ws[from + n - 1].batch.GetOr([]);
    }
  }

  /** When all groups succeed, what was written is the concatenation of the batches in the order
      the writers came. */
  lemma {:induction false} WrittenInOrder(writers: seq<Writer>, groups: seq<Group>, n: nat)
    requires AllOk(writers, groups) && n <= |groups| && forall k :: 0 <= k < n ==> groups[k].status.OK?
    ensures Answered(groups, n) <= |writers| && Written(groups, n) == Ops(writers, Answered(groups, n))
  {
    hide AllOk, Ops, OpsOf;
    if n > 0 {
      WrittenInOrder(writers, groups, n - 1);
      OpsOfGroup(writers, groups, n - 1);
      OpsConcat(writers, Answered(groups, n - 1), |groups[n - 1].members|);
    } else {
      assert Ops(writers, 0) == [] by { NoOps(writers); }
    }
  }

  lemma NoOps(ws: seq<Writer>)
    ensures Ops(ws, 0) == []
  {
  }

  lemma {:induction false} OpsOfGroup(writers: seq<Writer>, groups: seq<Group>, k: nat)
    requires AllOk(writers, groups) && k < |groups| && groups[k].status.OK?
    ensures var from, n := Answered(groups, k), |groups[k].members|;
      from + n <= |writers| && OpsOf(groups[k]) == Ops(writers[from..from + n], n)
  {
    var g, from := groups[k], Answered(groups, k);
    assert GroupOk(writers, groups, k);
    if g.record.None? {
      var ws := writers[from..from + 1];
      assert writers[from] == ws[0] && Ops(ws, 1) == Ops(ws, 0) + ws[0].batch.GetOr([]);
    }
  }

  /** The writers answered make one more group. */
  lemma {:induction false} AnsweredAll(before: seq<Writer>, after: seq<Writer>, groups: seq<Group>, front: nat, n: nat,
      record: Option<LogRecord>, status: Status)
    requires AllOk(before, groups) && front == Answered(groups, |groups|) && Keeps(before, after) && |after| == |before|
    requires 1 <= n && front + n <= |before|
    requires record.None? ==> n == 1 && (status.OK? ==> before[front].batch.None?)
    requires record.Some? ==> InFlightOk(before[front..], n, record.value.ops)
    requires record.Some? ==>
        record.value.first == |Written(groups, |groups|)| + 1 && record.value.synced == before[front].sync
    requires forall i :: front <= i < front + n ==> HasAnswer(after[i], status)
    ensures AllOk(after, groups + [Group(Ids(front, n), record, status)])
  {
    hide GroupOk, Keeps;
    var g := Group(Ids(front, n), record, status);
    var now := groups + [g];
    forall k | 0 <= k < |now| ensures GroupOk(after, now, k) {
      if k < |groups| {
        GroupStays(before, after, groups, k);
        GroupKept(after, groups, g, k);
      } else {
        NewGroup(before, after, groups, g);
      }
    }
  }

  lemma {:induction false} NewGroup(before: seq<Writer>, after: seq<Writer>, groups: seq<Group>, g: Group)
    requires g.members == Ids(Answered(groups, |groups|), |g.members|) && Keeps(before, after) && |after| == |before|
    requires var front, n := Answered(groups, |groups|), |g.members|;
      && 1 <= n && front + n <= |before|
      && (g.record.None? ==> n == 1 && (g.status.OK? ==> before[front].batch.None?))
      && (g.record.Some? ==> InFlightOk(before[front..], n, g.record.value.ops))
      && (g.record.Some? ==>
        g.record.value.first == |Written(groups, |groups|)| + 1 && g.record.value.synced == before[front].sync)
      && forall i :: front <= i < front + n ==> HasAnswer(after[i], g.status)
    ensures GroupOk(after, groups + [g], |groups|)
  {
    hide Written, Ops, HasAnswer, Keeps;
    var front, n := Answered(groups, |groups|), |g.members|;
    GroupsPrefix(groups, g, |groups|);
    GroupOps(before, after, front, n);
    assert g.record.Some? ==> forall i :: 0 <= i < n ==> before[front..][i] == before[front + i];
  }

  lemma GroupOps(before: seq<Writer>, after: seq<Writer>, front: nat, n: nat)
    requires Keeps(before, after) && front + n <= |before| == |after|
    ensures Ops(before[front..], n) == Ops(after[front..front + n], n)
    ensures forall i :: front <= i < front + n ==> after[i].batch == before[i].batch && after[i].sync == before[i].sync
  {
    hide HasAnswer;
    var b, a := before[front..], after[front..front + n];
    forall i | 0 <= i < n ensures a[i].batch == b[i].batch {
      assert KeepsOne(before[front + i], after[front + i]);
    }
    GroupPrefix(b, a, n);
  }

  /** The first n writers from `front` on have their answer, the next one is signalled. */
  ghost predicate Marked(ws: seq<Writer>, vs: seq<Writer>, front: nat, n: nat, status: Status) {
    && 1 <= n && front + n <= |ws| == |vs|
    && vs[front] == ws[front].(thread := Returned(status))
    && (forall j :: front < j < front + n ==> vs[j] == ws[j].(done := true, status := status, thread := Asleep(true)))
    && (forall j :: 0 <= j < front || front + n < j < |ws| ==> vs[j] == ws[j])
    && (front + n < |ws| ==> vs[front + n] == ws[front + n].(thread := Asleep(true)))
  }

  method MarkDone(writers: seq<Writer>, front: nat, n: nat, status: Status) returns (ws: seq<Writer>)
    requires 1 <= n && front + n <= |writers|
    ensures Marked(writers, ws, front, n, status)
  {
    ws := writers[front := writers[front].(thread := Returned(status))];
    for i := 1 to n
      invariant |ws| == |writers|
      invariant ws[front] == writers[front].(thread := Returned(status))
      invariant forall j :: front < j < front + i ==>
          ws[j] == writers[j].(done := true, status := status, thread := Asleep(true))
      invariant forall j :: 0 <= j < front || front + i <= j < |ws| ==> ws[j] == writers[j]
    {
      ws := ws[front + i := ws[front + i].(done := true, status := status, thread := Asleep(true))];
    }
    if front + n < |ws| {
      ws := ws[front + n := ws[front + n].(thread := Asleep(true))];
    }
  }

  lemma MarkedKeeps(ws: seq<Writer>, vs: seq<Writer>, front: nat, n: nat, status: Status, busy: bool)
    requires Marked(ws, vs, front, n, status)
    requires forall i :: front <= i < |ws| ==> WaitsWell(ws[i], i - front, busy)
    ensures Keeps(ws, vs)
    ensures forall i :: front <= i < front + n ==> HasAnswer(vs[i], status)
    ensures forall i :: front + n <= i < |vs| ==> WaitsWell(vs[i], i - (front + n), false)
  {
    forall i | 0 <= i < |ws| ensures KeepsOne(ws[i], vs[i]) {
      if i >= front { assert WaitsWell(ws[i], i - front, busy); }
    }
    forall i | front + n <= i < |vs| ensures WaitsWell(vs[i], i - (front + n), false) {
      assert WaitsWell(ws[i], i - front, busy);
    }
  }

  class Queue {
    // All writers in the order they came; those from `answered` on are in the queue.
    var writers: seq<Writer>
    var answered: nat
    var lastSequence: nat
    // What the writer in charge does outside the mutex: the size of its group and its operations.
    var inFlight: Option<(nat, seq<Op>)>
    ghost var groups: seq<Group>

    ghost predicate Valid()
      reads this
    {
      && answered <= |writers| && answered == Answered(groups, |groups|)
      && AllOk(writers, groups)
      && (forall i :: answered <= i < |writers| ==> WaitsWell(writers[i], i - answered, inFlight.Some?))
      && lastSequence == |Written(groups, |groups|)|
      && (inFlight.Some? ==> InFlightOk(writers[answered..], inFlight.value.0, inFlight.value.1))
    }

    constructor ()
      ensures Valid() && writers == [] && groups == [] && lastSequence == 0
    {
      writers, answered, lastSequence, inFlight, groups := [], 0, 0, None, [];
    }

    /** A thread calls Write: it queues up and, at the front, goes on; else it waits. */
    method Arrive(batch: Option<seq<Op>>, bytes: nat, sync: bool) returns (id: nat)
      requires Valid()
      modifies this`writers
      ensures Valid() && id == |old(writers)|
      ensures writers ==
          old(writers) + [Writer(batch, bytes, sync, false, OK, if answered == id then Leading else Asleep(false))]
    {
      id := |writers|;
      var w := Writer(batch, bytes, sync, false, OK, if answered == id then Leading else Asleep(false));
      ghost var before := writers;
      writers := writers + [w];
      forall k | 0 <= k < |groups| ensures GroupOk(writers, groups, k) {
        GroupStays(before, writers, groups, k);
      }
      if inFlight.Some? {
        InFlightStays(before[answered..], writers[answered..], inFlight.value.0, inFlight.value.1);
      }
    }

    /** A waiting thread wakes, signalled or not: it returns its answer, takes charge, or waits
        on. */
    method Wake(id: nat)
      requires Valid() && id < |writers| && writers[id].thread.Asleep?
      modifies this`writers
      ensures Valid()
      ensures |writers| == |old(writers)| && forall i :: 0 <= i < |writers| && i != id ==> writers[i] == old(writers)[i]
      ensures writers[id] == old(writers)[id].(thread :=
        if id < answered then Returned(old(writers)[id].status) else if id == answered then Leading else Asleep(false))
    {
      var w := writers[id];
      ghost var before := writers;
      if id < answered { ghost var k := GroupOfWriter(writers, groups, |groups|, id); }
      var thread := if w.done then Returned(w.status) else if id == answered then Leading else Asleep(false);
      writers := writers[id := w.(thread := thread)];
      forall k | 0 <= k < |groups| ensures GroupOk(writers, groups, k) {
        GroupStays(before, writers, groups, k);
      }
      if inFlight.Some? {
        InFlightStays(before[answered..], writers[answered..], inFlight.value.0, inFlight.value.1);
      }
    }

    /** The front, after MakeRoomForWrite: chooses its group and leaves the mutex to write it;
        without room or without a batch it answers itself alone. */
    method StartGroup(room: Status)
      requires Valid() && answered < |writers| && writers[answered].thread.Leading?
      modifies this
      ensures Valid()
      ensures room.OK? && old(writers[answered].batch.Some?) ==>
        && inFlight.Some? && groups == old(groups) && answered == old(answered) && lastSequence == old(lastSequence)
        && IsGroup(old(writers[answered..]), inFlight.value.0)
          && inFlight.value.1 == Ops(old(writers[answered..]), inFlight.value.0)
      ensures !(room.OK? && old(writers[answered].batch.Some?)) ==>
        && inFlight.None? && groups == old(groups) + [Group(Ids(old(answered), 1), None, room)]
          && lastSequence == old(lastSequence)
    {
      if room.OK? && writers[answered].batch.Some? {
        ghost var before := writers;
        var n, ops := BuildBatchGroup(writers[answered..]);
        inFlight := Some((n, ops));
        writers := writers[answered := writers[answered].(thread := Writing)];
        forall k | 0 <= k < |groups| ensures GroupOk(writers, groups, k) {
          GroupStays(before, writers, groups, k);
        }
        assert forall i :: 1 <= i < n ==>
            MayJoin(before[answered..], i) && writers[answered..][i] == before[answered..][i];
        GroupPrefix(before[answered..], writers[answered..], n);
      } else {
        Answer(1, None, room);
      }
    }

    /** The front comes back from writing the log, syncing it if asked and inserting into the
        memtable; the sequence numbers are used up even when that failed. */
    method EndGroup(status: Status)
      requires Valid() && inFlight.Some?
      modifies this
      ensures Valid() && inFlight.None?
      ensures var n, ops := old(inFlight).value.0, old(inFlight).value.1;
        && groups == old(groups) +
          [Group(Ids(old(answered), n),
          Some(LogRecord(old(lastSequence) + 1, ops, old(writers[answered].sync))), status)]
        && answered == old(answered) + n && lastSequence == old(lastSequence) + |ops|
    {
      var n, ops := inFlight.value.0, inFlight.value.1;
      Answer(n, Some(LogRecord(lastSequence + 1, ops, writers[answered].sync)), status);
    }

    /** Takes the first n writers off the queue with the status, and signals each of them and
        the new front. */
    method Answer(n: nat, record: Option<LogRecord>, status: Status)
      requires Valid() && 1 <= n && answered + n <= |writers|
      requires writers[answered].thread.Leading? || writers[answered].thread.Writing?
      requires if record.None? then n == 1 && inFlight.None? && (status.OK? ==> writers[answered].batch.None?) else
        && inFlight == Some((n, record.value.ops))
        && record == Some(LogRecord(lastSequence + 1, record.value.ops, writers[answered].sync))
      modifies this
      ensures Valid() && inFlight.None? && answered == old(answered) + n
      ensures groups == old(groups) + [Group(Ids(old(answered), n), record, status)]
      ensures lastSequence == old(lastSequence) + if record.Some? then |record.value.ops| else 0
    {
      hide GroupOk, HasAnswer, Ops;
      var front := answered;
      var ws := MarkDone(writers, front, n, status);
      MarkedKeeps(writers, ws, front, n, status, inFlight.Some?);
      AnsweredAll(writers, ws, groups, front, n, record, status);
      GroupsPrefix(groups, Group(Ids(front, n), record, status), |groups|);
      writers, answered, inFlight := ws, front + n, None;
      if record.Some? { lastSequence := lastSequence + |record.value.ops|; }
      groups := groups + [Group(Ids(front, n), record, status)];
    }
  }

}
