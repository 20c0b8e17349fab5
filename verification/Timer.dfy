/** The timers of a libuv loop (src/timer.c), kept in the heap. What callbacks do is a script of
    starts, stops and repeats for each timer. */
module Timer {
  import opened Heap

  const UINT64_MAX: nat := 0xFFFF_FFFF_FFFF_FFFF
  const INT_MAX: nat := 0x7FFF_FFFF

  datatype Handle = Handle(timeout: nat, repeat: nat, startId: nat, callback: bool, active: bool, closing: bool)

  datatype Status = Success | EINVAL

  datatype Action = Start(node: Node, timeout: nat, repeat: nat) | Stop(node: Node) | Again(node: Node)

  datatype Fired = Fired(node: Node, rank: Rank)

  /** The sum of 64-bit numbers, which wraps, or the largest number if it did. */
  function ClampedSum(time: nat, timeout: nat): (r: nat)
    requires time <= UINT64_MAX && timeout <= UINT64_MAX
    ensures r == if time + timeout <= UINT64_MAX then time + timeout else UINT64_MAX
  {
    var sum := (time + timeout) % (UINT64_MAX + 1);
    if sum < timeout then UINT64_MAX else sum
  }

  /** Timers that were due, each under its rank, in increasing order of rank. */
  ghost predicate FiredInOrder(fired: seq<Fired>, due: set<Node>, ranks: Ranks) {
    && (forall i, j :: 0 <= i < j < |fired| ==> RankLess(fired[i].rank, fired[j].rank))
    && forall i :: 0 <= i < |fired| ==> fired[i].node in due && fired[i].rank == RankOf(ranks, fired[i].node)
  }

  ghost predicate FiredBefore(fired: seq<Fired>, remaining: set<Node>, ranks: Ranks) {
    forall i, m :: 0 <= i < |fired| && m in remaining ==> RankLess(fired[i].rank, RankOf(ranks, m))
  }

  lemma FiredMore(fired: seq<Fired>, f: Fired, due: set<Node>, now: set<Node>, after: set<Node>, ranks: Ranks)
    requires FiredInOrder(fired, due, ranks) && FiredBefore(fired, now, ranks)
    requires f.node in now && f.node in due && f.rank == RankOf(ranks, f.node) && after <= now
    requires forall m :: m in after ==> RankLess(f.rank, RankOf(ranks, m))
    ensures FiredInOrder(fired + [f], due, ranks) && FiredBefore(fired + [f], after, ranks)
  {
  }

  ghost predicate WasOk(nodes: seq<Node>, ranks: Ranks, handles: map<Node, Handle>, counter: nat, n: Node) {
    && (n in nodes <==> n in handles && handles[n].active)
    && (n in handles ==> handles[n].repeat <= UINT64_MAX)
    && (n in nodes ==>
        && RankOf(ranks, n) == Rank(handles[n].timeout, handles[n].startId)
        && handles[n].startId < counter && handles[n].callback && !handles[n].closing)
  }

  /** Every script starts only timers that are not due at once. */
  ghost predicate ScriptsOk(scripts: map<Node, seq<Action>>, handles: set<Node>) {
    forall n, a :: n in scripts && a in scripts[n] ==>
        a.node in handles && (a.Start? ==> 0 < a.timeout <= UINT64_MAX && a.repeat <= UINT64_MAX)
  }

  class Loop {
    const heap: Heap
    var time: nat
    var counter: nat
    var handles: map<Node, Handle>

    /** The timers in the heap are the active ones, under their timeout and start. */
    ghost predicate HandleOk(n: Node)
      reads this, heap
    {
      WasOk(heap.nodes, heap.ranks, handles, counter, n)
    }

    ghost predicate Valid()
      reads this, heap
    {
      && heap.Valid() && time <= UINT64_MAX
      && (forall n :: HandleOk(n))
      && StartsDiffer()
    }

    /** No two active timers were started at once. */
    ghost predicate StartsDiffer()
      reads this, heap
    {
      forall m, n :: m in heap.nodes && n in heap.nodes && m != n ==>
          RankOf(heap.ranks, m).startId != RankOf(heap.ranks, n).startId
    }

    /** The active timers that are due. */
    ghost function Due(): set<Node>
      reads this, heap
    {
      set n | n in heap.nodes && RankOf(heap.ranks, n).timeout <= time
    }

    constructor (time: nat)
      requires time <= UINT64_MAX
      ensures Valid() && fresh(heap) && handles == map[] && this.time == time
    {
      this.time, counter, handles := time, 0, map[];
      heap := new Heap();
    }

    method Init(n: Node)
      requires Valid() && n !in handles
      modifies this`handles
      ensures Valid() && handles == old(handles)[n := Handle(0, 0, 0, false, false, false)]
    {
      assert HandleOk(n);
      handles := handles[n := Handle(0, 0, 0, false, false, false)];
      assert forall m :: old(HandleOk(m)) ==> HandleOk(m);
    }

    /** uv_timer_stop. */
    method StopTimer(n: Node)
      requires Valid() && n in handles
      modifies this`handles, heap
      ensures Valid() && handles == old(handles)[n := old(handles)[n].(active := false)]
      ensures Due() == old(Due()) - {n} && n !in heap.nodes && heap.ranks == old(heap.ranks)
      ensures forall m :: m in heap.nodes <==> m in old(heap.nodes) && m != n
    {
      assert HandleOk(n);
      if !handles[n].active {
        assert handles[n].(active := false) == handles[n];
        return;
      }
      heap.Remove(n);
      handles := handles[n := handles[n].(active := false)];
      forall m ensures HandleOk(m) {
        assert old(HandleOk(m));
      }
    }

    /** uv_timer_start. */
    method StartTimer(n: Node, callback: bool, timeout: nat, repeat: nat) returns (status: Status)
      requires Valid() && n in handles && timeout <= UINT64_MAX && repeat <= UINT64_MAX
      modifies this`handles, this`counter, heap
      ensures Valid()
      ensures status == if old(handles)[n].closing || !callback then EINVAL else Success
      ensures status.EINVAL? ==>
          handles == old(handles) && counter == old(counter) && heap.nodes == old(heap.nodes)
          && heap.ranks == old(heap.ranks)
      ensures status.Success? ==>
        handles == old(handles)[n := Handle(ClampedSum(time, timeout), repeat, old(counter), true, true, false)]
          && counter == old(counter) + 1
      ensures status.Success? ==> Due() == old(Due()) - {n} + if ClampedSum(time, timeout) <= time then {n} else {}
      ensures forall m :: m in old(heap.nodes) && m != n ==> RankOf(heap.ranks, m) == old(RankOf(heap.ranks, m))
    {
      hide Heap.Valid;
      if handles[n].closing || !callback { return EINVAL; }
      if handles[n].active { StopTimer(n); }
      assert n !in heap.nodes by { assert HandleOk(n); }
      ghost var ranks, nodes, before, c := heap.ranks, heap.nodes, handles, counter;
      forall m ensures WasOk(nodes, ranks, before, c, m) && (m in nodes ==> m != n) {
        assert HandleOk(m);
      }
      var clamped := ClampedSum(time, timeout);
      handles := handles[n := Handle(clamped, repeat, counter, true, handles[n].active, false)];
      counter := counter + 1;
      ghost var rank := Rank(clamped, c);
      heap.Insert(n, Rank(handles[n].timeout, handles[n].startId));
      handles := handles[n := handles[n].(active := true)];
      forall m ensures HandleOk(m) {
        assert WasOk(nodes, ranks, before, c, m);
        assert m in heap.nodes <==> m in nodes || m == n;
        if m == n {
          assert RankOf(heap.ranks, m) == rank;
        } else {
          assert RankOf(heap.ranks, m) == RankOf(ranks, m) && (m in handles <==> m in before);
          assert m in before ==> handles[m] == before[m];
        }
      }
      return Success;
    }

    /** What is due stays due as it was, except for one timer at most. */
    ghost predicate OnlyTouches(due: set<Node>, ranks: Ranks, n: Node)
      reads this, heap
    {
      && Due() <= due && (forall m :: m in due && m != n ==> m in Due())
      && forall m :: m in Due() ==> RankOf(heap.ranks, m) == RankOf(ranks, m)
    }

    /** uv_timer_again: a repeating timer is started anew, later than now. */
    method TimerAgain(n: Node) returns (status: Status)
      requires Valid() && n in handles && time < UINT64_MAX
      modifies this`handles, this`counter, heap
      ensures Valid() && handles.Keys == old(handles).Keys
      ensures OnlyTouches(old(Due()), old(heap.ranks), n) && (n !in old(Due()) ==> n !in Due())
      ensures status == if old(handles)[n].callback then Success else EINVAL
      ensures old(handles)[n].callback && 0 < old(handles)[n].repeat <= UINT64_MAX && !old(handles)[n].closing ==>
        handles[n] == Handle(ClampedSum(time, old(handles)[n].repeat), old(handles)[n].repeat, old(counter), true,
          true, false)
    {
      assert HandleOk(n);
      if !handles[n].callback { return EINVAL; }
      if handles[n].repeat != 0 {
        var repeat := handles[n].repeat;
        StopTimer(n);
        status := StartTimer(n, true, repeat, repeat);
      }
      status := Success;
    }

    /** uv__next_timeout: how long until the earliest timer is due, -1 without timers. */
    method NextTimeout() returns (d: int)
      requires Valid()
      ensures d == -1 <==> heap.nodes == []
      ensures d == 0 <==> Due() != {}
      ensures d > 0 ==> forall n :: n in heap.nodes ==> RankOf(heap.ranks, n).timeout >= time + d
      ensures d > 0 ==> d == INT_MAX || exists n :: n in heap.nodes && RankOf(heap.ranks, n).timeout == time + d
    {
      if heap.min.Null? { return -1; }
      var n := heap.min.node;
      MinIsFirst(n);
      assert HandleOk(n);
      if handles[n].timeout <= time {
        assert n in Due();
        return 0;
      }
      var diff := handles[n].timeout - time;
      d := if diff > INT_MAX then INT_MAX else diff;
    }

    /** The root comes before all other active timers. */
    lemma MinIsFirst(n: Node)
      requires Valid() && heap.min == To(n)
      ensures n in heap.nodes && forall m :: m in heap.nodes && m != n ==>
          RankLess(RankOf(heap.ranks, n), RankOf(heap.ranks, m))
    {
      forall m | m in heap.nodes && m != n ensures RankLess(RankOf(heap.ranks, n), RankOf(heap.ranks, m)) {
        var i :| 0 <= i < |heap.nodes| && heap.nodes[i] == m;
        FirstIsLeast(heap.ranks, heap.nodes, i);
      }
    }

    method RunAction(a: Action)
      requires Valid() && time < UINT64_MAX && a.node in handles
      requires a.Start? ==> 0 < a.timeout <= UINT64_MAX && a.repeat <= UINT64_MAX
      modifies this`handles, this`counter, heap
      ensures Valid() && handles.Keys == old(handles).Keys
      ensures OnlyTouches(old(Due()), old(heap.ranks), a.node) && (a.node !in old(Due()) ==> a.node !in Due())
    {
      match a
      case Start(n, timeout, repeat) => var status := StartTimer(n, true, timeout, repeat);
      case Stop(n) => StopTimer(n);
      case Again(n) => var status := TimerAgain(n);
    }

    /** A callback touches the timer. */
    ghost predicate Touches(script: seq<Action>, n: Node) {
      exists a :: a in script && a.node == n
    }

    /** What is due stays due as it was, except for timers the script touches. */
    ghost predicate ScriptTouches(due: set<Node>, ranks: Ranks, script: seq<Action>)
      reads this, heap
    {
      && Due() <= due && (forall m :: m in due && !Touches(script, m) ==> m in Due())
      && forall m :: m in Due() ==> RankOf(heap.ranks, m) == RankOf(ranks, m)
    }

    method RunCallback(script: seq<Action>)
      requires Valid() && time < UINT64_MAX
      requires forall a :: a in script ==>
          a.node in handles && (a.Start? ==> 0 < a.timeout <= UINT64_MAX && a.repeat <= UINT64_MAX)
      modifies this`handles, this`counter, heap
      ensures Valid() && handles.Keys == old(handles).Keys
      ensures ScriptTouches(old(Due()), old(heap.ranks), script)
    {
      ghost var due, ranks := Due(), heap.ranks;
      for i := 0 to |script|
        invariant Valid() && handles.Keys == old(handles).Keys
        invariant ScriptTouches(due, ranks, script[..i])
      {
        assert script[i] in script;
        RunAction(script[i]);
        assert script[..i + 1] == script[..i] + [script[i]];
      }
      assert script[..|script|] == script;
    }

    /** The timer fired, or the callback of one that did touched it. */
    ghost predicate Accounted(fired: seq<Fired>, scripts: map<Node, seq<Action>>, n: Node) {
      exists i :: 0 <= i < |fired| && AccountedBy(fired[i].node, scripts, n)
    }

    ghost predicate AccountedBy(f: Node, scripts: map<Node, seq<Action>>, n: Node) {
      f == n || (f in scripts && Touches(scripts[f], n))
    }

    lemma StillAccounted(fired: seq<Fired>, f: Fired, scripts: map<Node, seq<Action>>, n: Node)
      requires Accounted(fired, scripts, n) || AccountedBy(f.node, scripts, n)
      ensures Accounted(fired + [f], scripts, n)
    {
      var now := fired + [f];
      if Accounted(fired, scripts, n) {
        var i :| 0 <= i < |fired| && AccountedBy(fired[i].node, scripts, n);
        assert AccountedBy(now[i].node, scripts, n);
      } else {
        assert AccountedBy(now[|fired|].node, scripts, n);
      }
    }

    /** Takes the first timer off, starts it anew if it repeats, and calls it back. */
    method FireNext(scripts: map<Node, seq<Action>>) returns (f: Fired)
      requires Valid() && time < UINT64_MAX && ScriptsOk(scripts, handles.Keys)
      requires heap.min.To? && heap.min.node in handles && handles[heap.min.node].timeout <= time
      modifies this`handles, this`counter, heap
      ensures Valid() && handles.Keys == old(handles).Keys
      ensures f.node in old(Due()) && f.rank == old(RankOf(heap.ranks, f.node)) && f.node !in Due()
      ensures DueKept(old(Due()), old(heap.ranks))
      ensures forall m :: m in Due() ==> RankLess(f.rank, RankOf(heap.ranks, m))
      ensures forall m :: m in old(Due()) && m !in Due() ==> AccountedBy(f.node, scripts, m)
    {
      var n := heap.min.node;
      MinIsFirst(n);
      assert HandleOk(n);
      f := Fired(n, Rank(handles[n].timeout, handles[n].startId));
      StopTimer(n);
      var status := TimerAgain(n);
      var script := if n in scripts then scripts[n] else [];
      RunCallback(script);
    }

    /** uv__run_timers: fires the due timers in order of timeout and start, each once; it ends when
        callbacks start nothing already due. A timer due at first fires unless a callback that
        fired before it stopped it or started it anew. */
    method RunTimers(scripts: map<Node, seq<Action>>) returns (fired: seq<Fired>)
      requires Valid() && time < UINT64_MAX && ScriptsOk(scripts, handles.Keys)
      modifies this`handles, this`counter, heap
      ensures Valid() && Due() == {}
      ensures FiredInOrder(fired, old(Due()), old(heap.ranks))
      ensures forall n :: n in old(Due()) ==> Accounted(fired, scripts, n)
    {
      hide Accounted, AccountedBy, ScriptsOk, StartsDiffer;
      fired := [];
      ghost var due, ranks := Due(), heap.ranks;
      MinKnown();
      while heap.min.To? && handles[heap.min.node].timeout <= time
        invariant Valid() && handles.Keys == old(handles).Keys && (heap.min.To? ==> heap.min.node in handles)
        invariant DueKept(due, ranks)
        invariant FiredInOrder(fired, due, ranks) && FiredBefore(fired, Due(), ranks)
        invariant forall n :: n in due && n !in Due() ==> Accounted(fired, scripts, n)
        decreases Due()
      {
        ghost var now := Due();
        var f := FireNext(scripts);
        forall m | m in due && m !in Due() ensures Accounted(fired + [f], scripts, m) {
          assert m !in now ==> Accounted(fired, scripts, m);
          StillAccounted(fired, f, scripts, m);
        }
        FiredMore(fired, f, due, now, Due(), ranks);
        fired := fired + [f];
        MinKnown();
      }
      NothingDue();
    }

    ghost predicate DueKept(due: set<Node>, ranks: Ranks)
      reads this, heap
    {
      Due() <= due && forall m :: m in Due() ==> RankOf(heap.ranks, m) == RankOf(ranks, m)
    }

    lemma MinKnown()
      requires Valid()
      ensures heap.min.To? ==> heap.min.node in handles && heap.min.node in heap.nodes
    {
      if heap.min.To? {
        MinIsFirst(heap.min.node);
        assert HandleOk(heap.min.node);
      }
    }

    lemma NothingDue()
      requires Valid() && (heap.min.To? ==> heap.min.node in handles && handles[heap.min.node].timeout > time)
      ensures Due() == {}
    {
      if heap.min.To? {
        MinIsFirst(heap.min.node);
        assert HandleOk(heap.min.node);
      }
    }
  }
}
