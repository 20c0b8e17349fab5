/** libuv's thread pool (src/threadpool.c) with one event loop: two queues, a token that stands
    for slow work in the main queue, workers that sleep on a condition, and cancellation. Each
    method is a region the code runs under the pool's or the loop's mutex. */
module ThreadPool {
  /** What the main queue holds: work, or the message that slow work waits in the other queue. */
  datatype Message = Work(id: nat) | RunSlowWork

  /** A worker: about to take the mutex for the first time, asleep on the condition, woken but
      without the mutex yet, running work, or done with it and about to take the mutex again. */
  datatype Worker = Starting | Sleeping | Woken | Running(id: nat, slow: bool) | Finishing(slow: bool)

  /** The work pointer of a request: still to be called, called, or replaced by uv__cancelled. */
  datatype WorkPtr = Callback | Null | Cancelled

  datatype Error = NoError | ECANCELED

  // Counting

  function Tally<T(!new)>(s: seq<T>, p: T -> bool): nat {
    if s == [] then 0 else Tally(s[..|s| - 1], p) + if p(s[|s| - 1]) then 1 else 0
  }

  function IsWork(id: nat): Message -> bool { (m: Message) => m == Work(id) }
  function Is(id: nat): nat -> bool { (x: nat) => x == id }
  function Runs(id: nat): Worker -> bool { (w: Worker) => w.Running? && w.id == id }
  function CalledFor(id: nat): ((nat, Error)) -> bool { (c: (nat, Error)) => c.0 == id }
  function CalledWrong(id: nat, ran: bool): ((nat, Error)) -> bool {
    (c: (nat, Error)) => c.0 == id && c.1.NoError? != ran
  }

  predicate IsIdle(w: Worker) { w.Sleeping? || w.Woken? }
  predicate IsReady(w: Worker) { w.Starting? || w.Woken? || w.Finishing? }
  predicate IsSlow(w: Worker) { (w.Running? || w.Finishing?) && w.slow }
  predicate IsSlowFinishing(w: Worker) { w.Finishing? && w.slow }
  predicate IsSleeping(w: Worker) { w.Sleeping? }

  lemma {:induction false} TallyConcat<T(!new)>(a: seq<T>, b: seq<T>, p: T -> bool)
    ensures Tally(a + b, p) == Tally(a, p) + Tally(b, p)
  {
    if b == [] {
      assert a + b == a;
    } else {
      assert (a + b)[..|a + b| - 1] == a + b[..|b| - 1];
      TallyConcat(a, b[..|b| - 1], p);
    }
  }

  lemma TallyOne<T(!new)>(x: T, p: T -> bool)
    ensures Tally([x], p) == if p(x) then 1 else 0
  {
    assert [x][..0] == [];
  }

  lemma TallyAppend<T(!new)>(s: seq<T>, x: T, p: T -> bool)
    ensures Tally(s + [x], p) == Tally(s, p) + if p(x) then 1 else 0
  {
    assert (s + [x])[..|s|] == s;
  }

  lemma TallyHead<T(!new)>(s: seq<T>, p: T -> bool)
    requires s != []
    ensures Tally(s, p) == (if p(s[0]) then 1 else 0) + Tally(s[1..], p)
  {
    assert s == [s[0]] + s[1..];
    TallyConcat([s[0]], s[1..], p);
    TallyOne(s[0], p);
  }

  lemma TallyUpdate<T(!new)>(s: seq<T>, i: nat, x: T, p: T -> bool)
    requires i < |s|
    ensures Tally(s[i := x], p) + (if p(s[i]) then 1 else 0) == Tally(s, p) + (if p(x) then 1 else 0)
    ensures p(s[i]) ==> Tally(s, p) > 0
  {
    assert s == s[..i] + s[i..] && s[i := x] == s[..i] + s[i := x][i..];
    assert s[i := x][i..][1..] == s[i..][1..];
    TallyConcat(s[..i], s[i..], p);
    TallyConcat(s[..i], s[i := x][i..], p);
    TallyHead(s[i..], p);
    TallyHead(s[i := x][i..], p);
  }

  lemma {:induction false} TallyNone<T(!new)>(s: seq<T>, p: T -> bool)
    ensures Tally(s, p) == 0 <==> forall i :: 0 <= i < |s| ==> !p(s[i])
  {
    if s != [] {
      TallyNone(s[..|s| - 1], p);
      assert forall i :: 0 <= i < |s| - 1 ==> s[i] == s[..|s| - 1][i];
    }
  }

  lemma {:induction false} TallyWithin<T(!new)>(s: seq<T>, p: T -> bool, q: T -> bool)
    requires forall x :: p(x) ==> q(x)
    ensures Tally(s, p) <= Tally(s, q)
  {
    if s != [] {
      TallyWithin(s[..|s| - 1], p, q);
    }
  }

  // What a worker does with the mutex

  /** The queues and the number of slow jobs running, as one worker leaves them, and what it does
      next. */
  datatype Taken = Taken(wq: seq<Message>, pending: seq<nat>, slow: nat, next: Worker)

  predicate OnlyToken(wq: seq<Message>) {
    wq == [RunSlowWork]
  }

  /** The worker takes the first work in the queue; the token counts as slow work when there is
      some and the limit allows it, else work behind it goes first. Without anything it may run
      it goes to sleep. */
  function Take(wq: seq<Message>, pending: seq<nat>, slow: nat, limit: nat): Taken
    requires OneToken(wq)
  {
    if wq == [] || (OnlyToken(wq) && slow >= limit) then Taken(wq, pending, slow, Sleeping)
    else if wq[0].Work? then Taken(wq[1..], pending, slow, Running(wq[0].id, false))
    else if slow < limit && pending != [] then
      Taken(wq[1..] + (if |pending| > 1 then [RunSlowWork] else []), pending[1..], slow + 1, Running(pending[0], true))
    else
      var rest := if slow >= limit then [RunSlowWork] else [];
      if |wq| == 1 then Taken([], pending, slow, Sleeping)
      else
        FirstBehindToken(wq);
        Taken(wq[2..] + rest, pending, slow, Running(wq[1].id, false))
  }

  /** The token is in the queue at most once. */
  predicate OneToken(wq: seq<Message>) {
    forall i, j :: 0 <= i < j < |wq| ==> wq[i].Work? || wq[j].Work?
  }

  lemma FirstBehindToken(wq: seq<Message>)
    requires OneToken(wq) && |wq| > 1 && wq[0].RunSlowWork?
    ensures wq[1].Work?
  {
  }

  /** Messages some worker could act on at once; a worker about to take the mutex no longer
      counts as running slow work. */
  function Runnable(wq: seq<Message>, slow: nat, finishing: nat, limit: nat): nat {
    if RunSlowWork in wq && slow >= limit + finishing then |wq| - 1 else |wq|
  }

  // What every region keeps

  /** How often a request is in each kind of place; `wrong` counts callbacks with the wrong
      error. */
  datatype Place = Place(waiting: nat, running: nat, cancelling: nat, finished: nat, called: nat, wrong: nat)

  /** A request is in exactly one place. One that waits has not run and can be; one that was
      handed to the loop either ran or was cancelled, and its callback says which. */
  predicate RequestOk(p: Place, submitted: bool, ptr: WorkPtr, ran: bool) {
    && p.waiting + p.running + p.cancelling + p.finished + p.called == (if submitted then 1 else 0)
    && (p.waiting == 1 ==> ptr.Callback? && !ran)
    && (p.running == 1 ==> ptr.Callback? && ran)
    && (p.cancelling == 1 ==> ptr.Cancelled? && !ran)
    && (p.finished == 1 || p.called == 1 ==> if ran then ptr.Null? else ptr.Cancelled?)
    && p.wrong == 0 && (ran ==> submitted)
  }

  /** All that holds requests. */
  datatype Requests = Requests(wq: seq<Message>, pending: seq<nat>, workers: seq<Worker>, cancelling: seq<nat>,
                               loopWq: seq<nat>, taken: seq<nat>, called: seq<(nat, Error)>, work: seq<WorkPtr>,
                                 ran: set<nat>) {
    function Where(id: nat): Place {
      Place(Tally(wq, IsWork(id)) + Tally(pending, Is(id)), Tally(workers, Runs(id)), Tally(cancelling, Is(id)),
            Tally(loopWq, Is(id)) + Tally(taken, Is(id)), Tally(called, CalledFor(id)),
              Tally(called, CalledWrong(id, id in ran)))
    }

    predicate Ok(id: nat) {
      RequestOk(Where(id), id < |work|, if id < |work| then work[id] else Null, id in ran)
    }
  }

  ghost predicate RequestsOk(r: Requests) {
    forall id: nat :: r.Ok(id)
  }

  ghost predicate CountsOk(workers: seq<Worker>, nthreads: nat, slow: nat, idle: nat) {
    && nthreads > 0 && |workers| == nthreads
    && idle == Tally(workers, IsIdle)
    && slow == Tally(workers, IsSlow) && slow <= Limit(nthreads)
  }

  function Limit(nthreads: nat): nat {
    (nthreads + 1) / 2
  }

  /** No wakeup is lost: with workers asleep, those about to take the mutex are enough for
      all that could be run. */
  ghost predicate AwakeOk(workers: seq<Worker>, wq: seq<Message>, slow: nat, limit: nat) {
    Tally(workers, IsSleeping) > 0 ==>
      Runnable(wq, slow, Tally(workers, IsSlowFinishing), limit) <= Tally(workers, IsReady)
  }

  /** Slow work that waits is announced in the main queue, once. */
  ghost predicate QueuesOk(wq: seq<Message>, pending: seq<nat>) {
    OneToken(wq) && (pending != [] ==> RunSlowWork in wq)
  }

  /** uv_cond_signal: wakes a worker that waits on the condition, if there is one. */
  ghost predicate Signalled(before: seq<Worker>, after: seq<Worker>) {
    || (Tally(before, IsSleeping) == 0 && after == before)
    || exists i :: 0 <= i < |before| && before[i].Sleeping? && after == before[i := Woken]
  }

  lemma SignalCounts(before: seq<Worker>, after: seq<Worker>, id: nat)
    requires Signalled(before, after)
    ensures |after| == |before| && Tally(after, IsIdle) == Tally(before, IsIdle)
    ensures Tally(after, IsSlow) == Tally(before, IsSlow)
    ensures Tally(after, IsSlowFinishing) == Tally(before, IsSlowFinishing)
    ensures Tally(after, Runs(id)) == Tally(before, Runs(id))
    ensures if Tally(before, IsSleeping) > 0 then Tally(after, IsReady) == Tally(before, IsReady) + 1
        else after == before
  {
    TallyNone(before, IsSleeping);
    if Tally(before, IsSleeping) > 0 {
      var i :| 0 <= i < |before| && before[i].Sleeping? && after == before[i := Woken];
      TallyUpdate(before, i, Woken, IsIdle);
      TallyUpdate(before, i, Woken, IsSlow);
      TallyUpdate(before, i, Woken, IsSlowFinishing);
      TallyUpdate(before, i, Woken, IsReady);
      TallyUpdate(before, i, Woken, Runs(id));
    }
  }

  /** With as many signals as messages came, enough workers are awake. */
  lemma AwakeAfter(before: seq<Worker>, after: seq<Worker>, wq: seq<Message>, nthreads: nat, slow: nat, idle: nat,
      signals: nat)
    requires CountsOk(before, nthreads, slow, idle) && signals <= 1
    requires Tally(before, IsSleeping) > 0 ==>
      Runnable(wq, slow, Tally(before, IsSlowFinishing), Limit(nthreads)) <= Tally(before, IsReady) + signals
    requires if signals > 0 && idle > 0 then Signalled(before, after) else after == before
    ensures CountsOk(after, nthreads, slow, idle) && AwakeOk(after, wq, slow, Limit(nthreads))
  {
    hide Tally;
    if signals > 0 && idle > 0 { SignalCounts(before, after, 0); }
    if idle == 0 { NoneIdle(before); }
  }

  ghost predicate SameWorkers(before: seq<Worker>, after: seq<Worker>) {
    after == before || Signalled(before, after)
  }

  lemma SubmitRequests(r: Requests, id: nat, m: Message, r': Requests)
    requires RequestsOk(r) && id == |r.work| && (m == Work(id) || m == RunSlowWork)
    requires SameWorkers(r.workers, r'.workers)
    requires r' ==
        r.(wq := r'.wq, pending := if m.Work? then r.pending
        else r.pending + [id], workers := r'.workers, work := r.work + [Callback])
    requires r'.wq == r.wq + [m] || (m == RunSlowWork && r'.wq == r.wq)
    ensures RequestsOk(r')
  {
    hide Tally;
    forall k: nat ensures r'.Ok(k) {
      assert r.Ok(k);
      TallyAppend(r.wq, m, IsWork(k));
      TallyAppend(r.pending, id, Is(k));
      if r'.workers != r.workers { SignalCounts(r.workers, r'.workers, k); }
    }
  }

  lemma FinishRequests(r: Requests, i: nat)
    requires RequestsOk(r) && i < |r.workers| && r.workers[i].Running?
    ensures var id, slow := r.workers[i].id, r.workers[i].slow;
      id < |r.work|
        && RequestsOk(r.(work := r.work[id := Null], loopWq := r.loopWq + [id],
        workers := r.workers[i := Finishing(slow)]))
  {
    hide Tally;
    var id, after := r.workers[i].id, r.workers[i := Finishing(r.workers[i].slow)];
    assert r.Ok(id);
    TallyUpdate(r.workers, i, after[i], Runs(id));
    var r' := r.(work := r.work[id := Null], loopWq := r.loopWq + [id], workers := after);
    forall k: nat ensures r'.Ok(k) {
      assert r.Ok(k);
      TallyUpdate(r.workers, i, after[i], Runs(k));
      TallyAppend(r.loopWq, id, Is(k));
    }
  }

  lemma TakenRequests(r: Requests, i: nat, slow: nat, limit: nat, r': Requests)
    requires RequestsOk(r) && i < |r.workers| && IsReady(r.workers[i]) && OneToken(r.wq)
    requires var t := Take(r.wq, r.pending, slow, limit);
      SameWorkers(r.workers[i := t.next], r'.workers)
      && r' == r.(wq := t.wq, pending := t.pending, workers := r'.workers,
        ran := r.ran + if t.next.Running? then {t.next.id} else {})
    ensures RequestsOk(r')
  {
    hide Tally, Take;
    var t := Take(r.wq, r.pending, slow, limit);
    TakeNext(r.wq, r.pending, slow, limit);
    forall k: nat ensures r'.Ok(k) {
      assert r.Ok(k);
      TakeRequests(r.wq, r.pending, slow, limit, k);
      TallyUpdate(r.workers, i, t.next, Runs(k));
      TallyWithin(r.called, CalledWrong(k, true), CalledFor(k));
      if r'.workers != r.workers[i := t.next] { SignalCounts(r.workers[i := t.next], r'.workers, k); }
    }
  }

  lemma WakeRequests(r: Requests, i: nat)
    requires RequestsOk(r) && i < |r.workers| && r.workers[i].Sleeping?
    ensures RequestsOk(r.(workers := r.workers[i := Woken]))
  {
    hide Tally;
    var r' := r.(workers := r.workers[i := Woken]);
    forall k: nat ensures r'.Ok(k) {
      assert r.Ok(k);
      TallyUpdate(r.workers, i, Woken, Runs(k));
    }
  }

  /** A request that is in one place is in no other. */
  lemma InPlaces(r: Requests, id: nat)
    requires r.Ok(id)
    ensures Work(id) in r.wq <==> Tally(r.wq, IsWork(id)) == 1
    ensures id in r.pending <==> Tally(r.pending, Is(id)) == 1
    ensures id in r.loopWq <==> Tally(r.loopWq, Is(id)) == 1
    ensures id in r.taken <==> Tally(r.taken, Is(id)) == 1
    ensures id in r.cancelling <==> Tally(r.cancelling, Is(id)) == 1
    ensures (exists c :: c in r.called && c.0 == id) <==> Tally(r.called, CalledFor(id)) == 1
  {
    TallyNone(r.wq, IsWork(id));
    TallyNone(r.pending, Is(id));
    TallyNone(r.loopWq, Is(id));
    TallyNone(r.taken, Is(id));
    TallyNone(r.cancelling, Is(id));
    TallyNone(r.called, CalledFor(id));
  }

  lemma UnlinkRequests(r: Requests, id: nat)
    requires RequestsOk(r) && id < |r.work| && id !in r.cancelling && forall c :: c in r.called ==> c.0 != id
    ensures (Work(id) in r.wq || id in r.pending || id in r.loopWq || id in r.taken) && !r.work[id].Null? <==>
        id !in r.ran
    ensures id !in r.ran ==>
      RequestsOk(r.(wq := Remove(r.wq, Work(id)), pending := Remove(r.pending, id), loopWq := Remove(r.loopWq, id),
        taken := Remove(r.taken, id),
                    work := r.work[id := Cancelled], cancelling := r.cancelling + [id]))
  {
    hide Tally;
    assert r.Ok(id);
    InPlaces(r, id);
    var r' := r.(wq := Remove(r.wq, Work(id)), pending := Remove(r.pending, id), loopWq := Remove(r.loopWq, id),
      taken := Remove(r.taken, id),
                 work := r.work[id := Cancelled], cancelling := r.cancelling + [id]);
    if id !in r.ran {
      forall k: nat ensures r'.Ok(k) {
        assert r.Ok(k);
        TallyRemove(r.wq, Work(id), IsWork(k));
        TallyRemove(r.pending, id, Is(k));
        TallyRemove(r.loopWq, id, Is(k));
        TallyRemove(r.taken, id, Is(k));
        TallyAppend(r.cancelling, id, Is(k));
      }
    }
  }

  lemma HandOverRequests(r: Requests, id: nat)
    requires RequestsOk(r) && id in r.cancelling
    ensures RequestsOk(r.(cancelling := Remove(r.cancelling, id), loopWq := r.loopWq + [id]))
  {
    hide Tally;
    assert r.Ok(id);
    InPlaces(r, id);
    var r' := r.(cancelling := Remove(r.cancelling, id), loopWq := r.loopWq + [id]);
    forall k: nat ensures r'.Ok(k) {
      assert r.Ok(k);
      TallyRemove(r.cancelling, id, Is(k));
      TallyAppend(r.loopWq, id, Is(k));
    }
  }

  lemma FinishedRequests(r: Requests)
    requires RequestsOk(r) && r.taken == []
    ensures RequestsOk(r.(loopWq := [], taken := r.loopWq))
  {
    var r' := r.(loopWq := [], taken := r.loopWq);
    forall k: nat ensures r'.Ok(k) {
      assert r.Ok(k);
    }
  }

  lemma CallRequests(r: Requests)
    requires RequestsOk(r) && r.taken != []
    ensures var id := r.taken[0];
      && id < |r.work| && (r.work[id].Cancelled? <==> id !in r.ran)
      && RequestsOk(r.(taken := r.taken[1..], called := r.called + [(id, if id in r.ran then NoError else ECANCELED)]))
  {
    hide Tally;
    var id := r.taken[0];
    assert r.Ok(id);
    InPlaces(r, id);
    var c := (id, if id in r.ran then NoError else ECANCELED);
    var r' := r.(taken := r.taken[1..], called := r.called + [c]);
    forall k: nat ensures r'.Ok(k) {
      assert r.Ok(k);
      TallyHead(r.taken, Is(k));
      TallyAppend(r.called, c, CalledFor(k));
      TallyAppend(r.called, c, CalledWrong(k, k in r.ran));
    }
  }

  // What the invariant means

  /** A request is called back at most once, with no error if its work ran and with ECANCELED if
      it never did. */
  lemma CalledOnce(r: Requests, i: nat, j: nat)
    requires RequestsOk(r) && i < |r.called| && j < |r.called| && r.called[i].0 == r.called[j].0
    ensures i == j && r.called[i].1 == if r.called[i].0 in r.ran then NoError else ECANCELED
  {
    var id := r.called[i].0;
    assert r.Ok(id);
    TallyNone(r.called, CalledWrong(id, id in r.ran));
    if i != j {
      var other := (id + 1, NoError);
      TallyUpdate(r.called, i, other, CalledFor(id));
      assert r.called[i := other][j].0 == id;
      TallyNone(r.called[i := other], CalledFor(id));
    }
  }

  /** While work waits in either queue some worker is not asleep. */
  lemma SomeoneAwake(workers: seq<Worker>, nthreads: nat, slow: nat, idle: nat, wq: seq<Message>, pending: seq<nat>)
    requires CountsOk(workers, nthreads, slow, idle) && AwakeOk(workers, wq, slow, Limit(nthreads))
    requires QueuesOk(wq, pending)
    requires wq != [] || pending != []
    ensures exists i :: 0 <= i < |workers| && !workers[i].Sleeping?
  {
    if forall i :: 0 <= i < |workers| ==> workers[i].Sleeping? {
      TallyNone(workers, IsSleeping);
      TallyNone(workers, IsReady);
      TallyNone(workers, IsSlow);
      assert workers[0].Sleeping?;
    }
  }

  /** With slow work under its limit, or other work waiting, a worker sleeps only while others
      are on their way to the mutex. */
  lemma SleepersAreNotNeeded(workers: seq<Worker>, nthreads: nat, slow: nat, idle: nat, wq: seq<Message>, i: nat)
    requires CountsOk(workers, nthreads, slow, idle) && AwakeOk(workers, wq, slow, Limit(nthreads))
    requires i < |workers| && workers[i].Sleeping?
    requires (exists id :: Work(id) in wq) || (wq != [] && slow < Limit(nthreads))
    ensures exists j :: 0 <= j < |workers| && IsReady(workers[j])
  {
    TallyNone(workers, IsSleeping);
    TallyNone(workers, IsReady);
    if id :| Work(id) in wq {
      assert RunSlowWork in wq ==> |wq| > 1;
    }
  }

  /** When all workers sleep and the loop has nothing left, every request was called back. */
  lemma AllCalledBack(r: Requests, nthreads: nat, slow: nat, idle: nat, id: nat)
    requires RequestsOk(r) && CountsOk(r.workers, nthreads, slow, idle) && QueuesOk(r.wq, r.pending)
    requires AwakeOk(r.workers, r.wq, slow, Limit(nthreads))
    requires forall i :: 0 <= i < |r.workers| ==> r.workers[i].Sleeping?
    requires r.cancelling == [] && r.loopWq == [] && r.taken == [] && id < |r.work|
    ensures exists i :: 0 <= i < |r.called| && r.called[i].0 == id
  {
    if r.wq != [] || r.pending != [] {
      SomeoneAwake(r.workers, nthreads, slow, idle, r.wq, r.pending);
    }
    assert r.Ok(id);
    TallyNone(r.workers, Runs(id));
    TallyNone(r.called, CalledFor(id));
  }

  class Pool {
    const nthreads: nat
    var wq: seq<Message>
    var pending: seq<nat> // slow_io_pending_wq
    var slowRunning: nat
    var idle: nat
    var workers: seq<Worker>
    // The loop: finished requests, those uv__work_done took off, and the callbacks made.
    var loopWq: seq<nat>
    var taken: seq<nat>
    var called: seq<(nat, Error)>
    // Unlinked by uv__work_cancel and not yet handed to the loop.
    var cancelling: seq<nat>
    var work: seq<WorkPtr> // by request
    ghost var ran: set<nat>

    ghost function State(): Requests
      reads this
    {
      Requests(wq, pending, workers, cancelling, loopWq, taken, called, work, ran)
    }

    ghost predicate Valid()
      reads this
    {
      && CountsOk(workers, nthreads, slowRunning, idle)
      && AwakeOk(workers, wq, slowRunning, Limit(nthreads))
      && QueuesOk(wq, pending)
      && RequestsOk(State())
    }

    constructor (n: nat)
      requires n > 0
      ensures Valid() && nthreads == n && work == [] && called == [] && ran == {}
      ensures forall i :: 0 <= i < |workers| ==> workers[i].Starting?
    {
      nthreads := n;
      wq, pending, slowRunning, idle := [], [], 0, 0;
      workers := seq(n, i => Starting);
      loopWq, taken, called, cancelling, work, ran := [], [], [], [], [], {};
      new;
      TallyNone(workers, IsIdle);
      TallyNone(workers, IsSlow);
      TallyNone(workers, IsSleeping);
      forall id: nat ensures State().Ok(id) {
        TallyNone(workers, Runs(id));
      }
    }

    method Signal()
      modifies this`workers
      ensures Signalled(old(workers), workers)
    {
      if i :| 0 <= i < |workers| && workers[i].Sleeping? {
        workers := workers[i := Woken];
      } else {
        TallyNone(workers, IsSleeping);
      }
    }

    /** uv__work_submit and post. */
    method Submit(slow: bool) returns (id: nat)
      requires Valid()
      modifies this`wq, this`pending, this`workers, this`work
      ensures Valid()
      ensures id == |old(work)| && work == old(work) + [Callback]
      ensures pending == old(pending) + if slow then [id] else []
      ensures wq == old(wq) + if !slow then [Work(id)] else if RunSlowWork in old(wq) then [] else [RunSlowWork]
      ensures workers == old(workers) || Signalled(old(workers), workers)
    {
      hide Tally, AwakeOk, Signalled, Runnable, CountsOk, RequestsOk, OneToken;
      id := |work|;
      work := work + [Callback];
      if slow {
        pending := pending + [id];
      }
      if !slow || RunSlowWork !in wq {
        var m := if slow then RunSlowWork else Work(id);
        wq := wq + [m];
        SubmitQueues(old(wq), old(pending), m, pending);
        SubmitAwake(workers, old(wq), m, slowRunning, Limit(nthreads));
        if idle > 0 { Signal(); }
        AwakeAfter(old(workers), workers, wq, nthreads, slowRunning, idle, 1);
      }
      SubmitRequests(old(State()), id, if slow then RunSlowWork else Work(id), State());
    }

    /** The worker's work function returned: under the loop's mutex the request goes to the loop. */
    method FinishWork(i: nat)
      requires Valid() && i < |workers| && workers[i].Running?
      modifies this`workers, this`work, this`loopWq
      ensures Valid()
      ensures var w := old(workers)[i];
        w.id < |old(work)| && work == old(work)[w.id := Null] && loopWq == old(loopWq) + [w.id]
        && workers == old(workers)[i := Finishing(w.slow)]
    {
      hide Tally, RequestsOk;
      var w := workers[i];
      FinishRequests(State(), i);
      work := work[w.id := Null];
      loopWq := loopWq + [w.id];
      workers := workers[i := Finishing(w.slow)];
      WorkerCounts(old(workers), i, Finishing(w.slow));
    }

    /** The worker takes the mutex and goes round its loop until it runs something or sleeps. */
    method NextWork(i: nat)
      requires Valid() && i < |workers| && IsReady(workers[i])
      modifies this`wq, this`pending, this`slowRunning, this`idle, this`workers, this`ran
      ensures Valid()
      ensures old(slowRunning) >= if IsSlow(old(workers)[i]) then 1 else 0
      ensures var t := Take(old(wq), old(pending), old(slowRunning) - (if IsSlow(old(workers)[i]) then 1 else 0),
          Limit(nthreads));
        wq == t.wq && pending == t.pending && slowRunning == t.slow && workers[i] == t.next
        && SameWorkers(old(workers)[i := t.next], workers)
        && ran == old(ran) + if t.next.Running? then {t.next.id} else {}
    {
      hide Tally, Take, OneToken, Signalled, SameWorkers, AwakeOk, AwakeButFor, RequestsOk, Limit, CountsOk, QueuesOk;
      var w := workers[i];
      ghost var all := workers;
      TokenOnce(wq, pending);
      NextCounts(all, i, wq, pending, nthreads, slowRunning, idle);
      if w.Woken? { idle := idle - 1; }
      if w.Finishing? && w.slow { slowRunning := slowRunning - 1; }
      var t := TakeWork(wq, pending, slowRunning, Limit(nthreads));
      ghost var free := slowRunning;
      TakeQueues(wq, pending, free, Limit(nthreads));
      TakeAwake(all, i, wq, pending, old(slowRunning), Limit(nthreads));
      Proceed(i, t);
      TakenRequests(old(State()), i, free, Limit(nthreads), State());
    }

    /** A condition variable may wake a thread without a signal. */
    method SpuriousWakeup(i: nat)
      requires Valid() && i < |workers| && workers[i].Sleeping?
      modifies this`workers
      ensures Valid() && workers == old(workers)[i := Woken]
    {
      hide Tally, RequestsOk;
      WakeRequests(State(), i);
      WorkerCounts(workers, i, Woken);
      workers := workers[i := Woken];
    }

    /** Whether the request is linked into a queue; one that a worker runs is not. */
    predicate Linked(id: nat)
      reads this
    {
      Work(id) in wq || id in pending || id in loopWq || id in taken
    }

    /** The first half of uv__work_cancel: with both mutexes, unlinks a request that no worker
        took. Fails for one that runs or has run. */
    method Unlink(id: nat) returns (cancelled: bool)
      requires Valid() && id < |work| && id !in cancelling && forall c :: c in called ==> c.0 != id
      modifies this`wq, this`pending, this`loopWq, this`taken, this`work, this`cancelling
      ensures Valid()
      ensures cancelled <==> id !in ran
      ensures !cancelled ==> State() == old(State())
      ensures cancelled ==> work == old(work)[id := Cancelled] && cancelling == old(cancelling) + [id]
      ensures cancelled ==> wq == Remove(old(wq), Work(id)) && pending == Remove(old(pending), id)
      ensures cancelled ==> loopWq == Remove(old(loopWq), id) && taken == Remove(old(taken), id)
    {
      hide Tally, RequestsOk, CountsOk, OneToken;
      UnlinkRequests(State(), id);
      cancelled := Linked(id) && !work[id].Null?;
      if cancelled {
        RemoveOneToken(wq, Work(id));
        RemoveKeeps(wq, Work(id));
        RemoveKeeps(pending, id);
        wq, pending, loopWq, taken := Remove(wq, Work(id)), Remove(pending, id), Remove(loopWq, id), Remove(taken, id);
        work := work[id := Cancelled];
        cancelling := cancelling + [id];
      }
    }

    /** The second half: hands the cancelled request to the loop. */
    method HandOver(id: nat)
      requires Valid() && id in cancelling
      modifies this`cancelling, this`loopWq
      ensures Valid() && cancelling == Remove(old(cancelling), id) && loopWq == old(loopWq) + [id]
    {
      hide Tally, RequestsOk, CountsOk, AwakeOk;
      HandOverRequests(State(), id);
      cancelling, loopWq := Remove(cancelling, id), loopWq + [id];
    }

    /** uv__work_done takes all finished requests off the loop's queue. */
    method TakeFinished()
      requires Valid() && taken == []
      modifies this`loopWq, this`taken
      ensures Valid() && taken == old(loopWq) && loopWq == []
    {
      hide Tally, RequestsOk, CountsOk, AwakeOk;
      FinishedRequests(State());
      loopWq, taken := [], loopWq;
    }

    /** uv__work_done calls back the next of them. */
    method CallNext()
      requires Valid() && taken != []
      modifies this`taken, this`called
      ensures Valid() && taken == old(taken)[1..]
      ensures var id := old(taken)[0]; called == old(called) + [(id, if id in ran then NoError else ECANCELED)]
    {
      hide Tally, RequestsOk, CountsOk, AwakeOk;
      CallRequests(State());
      var id := taken[0];
      var err := if work[id].Cancelled? then ECANCELED else NoError;
      taken, called := taken[1..], called + [(id, err)];
    }

    /** Leaves the mutex with what was taken, or sleeps; more slow work wakes one more worker. */
    method Proceed(i: nat, t: Taken)
      requires i < |workers| && (t.next.Sleeping? || t.next.Running?)
      requires CountsOk(workers[i := t.next], nthreads, t.slow, idle + if t.next.Sleeping? then 1 else 0)
      requires AwakeButFor(workers[i := t.next], t, Limit(nthreads))
      modifies this`wq, this`pending, this`slowRunning, this`idle, this`workers, this`ran
      ensures wq == t.wq && pending == t.pending && slowRunning == t.slow
      ensures SameWorkers(old(workers)[i := t.next], workers) && |workers| == |old(workers)| && workers[i] == t.next
      ensures ran == old(ran) + if t.next.Running? then {t.next.id} else {}
      ensures CountsOk(workers, nthreads, slowRunning, idle) && AwakeOk(workers, wq, slowRunning, Limit(nthreads))
    {
      hide Tally, Runnable, Signalled, AwakeOk, CountsOk;
      wq, pending, slowRunning := t.wq, t.pending, t.slow;
      workers := workers[i := t.next];
      ghost var before := workers;
      if t.next.Sleeping? {
        idle := idle + 1;
      } else {
        ran := ran + {t.next.id};
        if t.next.slow && t.pending != [] && idle > 0 {
          Signal();
          SignalLeaves(before, workers, i);
        }
      }
      AwakeAfter(before, workers, wq, nthreads, slowRunning, idle, SignalsFor(t));
    }
  }

  // Cancellation and completion

  function Remove<T(==)>(s: seq<T>, x: T): seq<T> {
    if s == [] then [] else if s[0] == x then s[1..] else [s[0]] + Remove(s[1..], x)
  }

  lemma {:induction false} TallyRemove<T(!new)>(s: seq<T>, x: T, p: T -> bool)
    ensures x in s ==> Tally(Remove(s, x), p) + (if p(x) then 1 else 0) == Tally(s, p)
    ensures x !in s ==> Remove(s, x) == s
  {
    if s != [] {
      TallyHead(s, p);
      if s[0] != x {
        TallyRemove(s[1..], x, p);
        TallyHead([s[0]] + Remove(s[1..], x), p);
        assert ([s[0]] + Remove(s[1..], x))[1..] == Remove(s[1..], x);
      }
    }
  }

  lemma {:induction false} RemoveKeeps<T>(s: seq<T>, x: T)
    ensures forall y :: y != x ==> (y in s <==> y in Remove(s, x))
    ensures |Remove(s, x)| <= |s|
  {
    if s != [] && s[0] != x {
      RemoveKeeps(s[1..], x);
      assert s == [s[0]] + s[1..];
    } else if s != [] {
      assert s == [s[0]] + s[1..];
    }
  }

  lemma {:induction false} RemoveOneToken(wq: seq<Message>, m: Message)
    requires OneToken(wq)
    ensures OneToken(Remove(wq, m))
  {
    if wq != [] && wq[0] != m {
      RemoveOneToken(wq[1..], m);
      RemoveKeeps(wq[1..], m);
      var r := Remove(wq[1..], m);
      forall i, j | 0 <= i < j < |Remove(wq, m)| ensures Remove(wq, m)[i].Work? || Remove(wq, m)[j].Work? {
        if i == 0 && wq[0].RunSlowWork? {
          assert r[j - 1] in r;
          assert m != r[j - 1] ==> r[j - 1] in wq[1..];
        }
      }
    }
  }

  /** More slow work is worth a signal. */
  function SignalsFor(t: Taken): nat {
    if t.next.Running? && t.next.slow && t.pending != [] then 1 else 0
  }

  ghost predicate AwakeButFor(ws: seq<Worker>, t: Taken, limit: nat) {
    Tally(ws, IsSleeping) > 0 ==>
      Runnable(t.wq, t.slow, Tally(ws, IsSlowFinishing), limit) <= Tally(ws, IsReady) + SignalsFor(t)
  }

  /** The counters after a worker has been round its loop. */
  lemma NextCounts(ws: seq<Worker>, i: nat, wq: seq<Message>, pending: seq<nat>, nthreads: nat, slow: nat, idle: nat)
    requires i < |ws| && IsReady(ws[i]) && CountsOk(ws, nthreads, slow, idle) && OneToken(wq)
    ensures idle >= (if IsIdle(ws[i]) then 1 else 0) && slow >= (if IsSlow(ws[i]) then 1 else 0)
    ensures slow == Tally(ws, IsSlow)
    ensures var t := Take(wq, pending, slow - (if IsSlow(ws[i]) then 1 else 0), Limit(nthreads));
      && (t.next.Sleeping? || t.next.Running?)
      && CountsOk(ws[i := t.next], nthreads, t.slow, idle - (if IsIdle(ws[i]) then 1 else 0) +
        (if t.next.Sleeping? then 1 else 0))
  {
    hide Tally, Take, OneToken;
    WorkerCounts(ws, i, Starting);
    var free := slow - if IsSlow(ws[i]) then 1 else 0;
    TakeNext(wq, pending, free, Limit(nthreads));
    WorkerCounts(ws, i, Take(wq, pending, free, Limit(nthreads)).next);
  }

  /** A signal does not touch a worker that is not asleep. */
  lemma SignalLeaves(before: seq<Worker>, after: seq<Worker>, i: nat)
    requires SameWorkers(before, after) && i < |before| && !before[i].Sleeping?
    ensures |after| == |before| && after[i] == before[i]
  {
  }

  lemma TokenOnce(wq: seq<Message>, pending: seq<nat>)
    requires QueuesOk(wq, pending)
    ensures OneToken(wq)
  {
  }

  lemma TakeQueues(wq: seq<Message>, pending: seq<nat>, slow: nat, limit: nat)
    requires QueuesOk(wq, pending)
    ensures var t := Take(wq, pending, slow, limit);
      QueuesOk(t.wq, t.pending)
  {
  }

  lemma TakeNext(wq: seq<Message>, pending: seq<nat>, slow: nat, limit: nat)
    requires OneToken(wq)
    ensures var t := Take(wq, pending, slow, limit);
      && (t.next.Sleeping? || t.next.Running?) && t.slow == slow + (if IsSlow(t.next) then 1 else 0)
      && (slow <= limit ==> t.slow <= limit)
  {
  }

  /** What is taken goes from the queues to the worker. */
  lemma TakeRequests(wq: seq<Message>, pending: seq<nat>, slow: nat, limit: nat, k: nat)
    requires OneToken(wq)
    ensures var t := Take(wq, pending, slow, limit);
      Tally(t.wq, IsWork(k)) + Tally(t.pending, Is(k)) + (if Runs(k)(t.next) then 1 else 0)
      == Tally(wq, IsWork(k)) + Tally(pending, Is(k))
  {
    hide Tally;
    if wq != [] {
      TallyHead(wq, IsWork(k));
      if |wq| > 1 {
        TallyHead(wq[1..], IsWork(k));
        assert wq[1..][1..] == wq[2..];
        TallyAppend(wq[2..], RunSlowWork, IsWork(k));
        assert wq[2..] + [] == wq[2..];
      }
      TallyAppend(wq[1..], RunSlowWork, IsWork(k));
      assert wq[1..] + [] == wq[1..];
      if pending != [] { TallyHead(pending, Is(k)); }
      EmptyTally(k);
    }
  }

  lemma EmptyTally(k: nat)
    ensures Tally([], IsWork(k)) == 0
  {
  }

  /** A worker that takes the mutex leaves no fewer workers awake than there is work, counting
      the one it signals. */
  lemma TakeAwake(ws: seq<Worker>, i: nat, wq: seq<Message>, pending: seq<nat>, slow: nat, limit: nat)
    requires i < |ws| && IsReady(ws[i]) && OneToken(wq) && AwakeOk(ws, wq, slow, limit)
    requires slow == Tally(ws, IsSlow)
    ensures slow >= if IsSlow(ws[i]) then 1 else 0
    ensures var t := Take(wq, pending, slow - (if IsSlow(ws[i]) then 1 else 0), limit);
      AwakeButFor(ws[i := t.next], t, limit)
  {
    hide Tally;
    WorkerCounts(ws, i, Starting);
    var free := slow - if IsSlow(ws[i]) then 1 else 0;
    var t := Take(wq, pending, free, limit);
    WorkerCounts(ws, i, t.next);
    TallyWithin(ws[i := t.next], IsSlowFinishing, IsReady);
    TakeRunnable(wq, pending, free, limit, Tally(ws[i := t.next], IsSlowFinishing));
  }

  /** What is taken is one message less, unless the token comes back. */
  lemma TakeRunnable(wq: seq<Message>, pending: seq<nat>, slow: nat, limit: nat, finishing: nat)
    requires OneToken(wq)
    ensures var t := Take(wq, pending, slow, limit);
      if t.next.Sleeping? then Runnable(t.wq, t.slow, finishing, limit) <= if finishing > 0 then 1 else 0
      else Runnable(t.wq, t.slow, finishing, limit) + 1 <= Runnable(wq, slow, finishing, limit) + if t.next.slow
        && t.pending != [] then 1 else 0
  {
    var t := Take(wq, pending, slow, limit);
    if wq != [] {
      assert wq == [wq[0]] + wq[1..];
      if |wq| > 1 {
        assert wq[1..] == [wq[1]] + wq[2..];
      }
    }
  }

  method TakeWork(wq0: seq<Message>, pending: seq<nat>, slow: nat, limit: nat) returns (t: Taken)
    requires OneToken(wq0)
    ensures t == Take(wq0, pending, slow, limit)
  {
    var wq := wq0;
    while !(wq == [] || (OnlyToken(wq) && slow >= limit))
      invariant OneToken(wq) && Take(wq, pending, slow, limit) == Take(wq0, pending, slow, limit)
      decreases |wq|, wq != [] && wq[0].RunSlowWork?
    {
      var q := wq[0];
      if q.Work? {
        return Taken(wq[1..], pending, slow, Running(q.id, false));
      }
      ghost var before := wq;
      wq := wq[1..];
      if slow >= limit {
        FirstBehindToken(before);
        wq := wq + [q];
        assert wq[1..] == before[2..] + [RunSlowWork];
      } else if pending != [] {
        return Taken(wq + (if |pending| > 1 then [RunSlowWork] else []), pending[1..], slow + 1,
          Running(pending[0], true));
      } else if wq != [] {
        FirstBehindToken(before);
        assert wq[1..] == before[2..];
      }
    }
    t := Taken(wq, pending, slow, Sleeping);
  }

  /** One message more, before the signal. */
  lemma SubmitAwake(workers: seq<Worker>, wq: seq<Message>, m: Message, slow: nat, limit: nat)
    requires AwakeOk(workers, wq, slow, limit)
    ensures Tally(workers, IsSleeping) > 0 ==>
      Runnable(wq + [m], slow, Tally(workers, IsSlowFinishing), limit) <= Tally(workers, IsReady) + 1
  {
    assert RunSlowWork in wq ==> RunSlowWork in wq + [m];
  }

  lemma SubmitQueues(wq: seq<Message>, pending: seq<nat>, m: Message, now: seq<nat>)
    requires QueuesOk(wq, pending) && if m.RunSlowWork? then RunSlowWork !in wq else now == pending
    ensures QueuesOk(wq + [m], now)
  {
  }

  lemma NoneIdle(workers: seq<Worker>)
    requires Tally(workers, IsIdle) == 0
    ensures Tally(workers, IsSleeping) == 0
  {
    TallyWithin(workers, IsSleeping, IsIdle);
  }

  /** The counts after one worker changes. */
  lemma WorkerCounts(ws: seq<Worker>, i: nat, w: Worker)
    requires i < |ws|
    ensures Tally(ws[i := w], IsIdle) + (if IsIdle(ws[i]) then 1 else 0) ==
        Tally(ws, IsIdle) + (if IsIdle(w) then 1 else 0)
    ensures Tally(ws[i := w], IsSlow) + (if IsSlow(ws[i]) then 1 else 0) ==
        Tally(ws, IsSlow) + (if IsSlow(w) then 1 else 0)
    ensures Tally(ws[i := w], IsReady) + (if IsReady(ws[i]) then 1 else 0) ==
        Tally(ws, IsReady) + (if IsReady(w) then 1 else 0)
    ensures Tally(ws[i := w], IsSleeping) + (if IsSleeping(ws[i]) then 1 else 0) ==
        Tally(ws, IsSleeping) + (if IsSleeping(w) then 1 else 0)
    ensures Tally(ws[i := w], IsSlowFinishing) + (if IsSlowFinishing(ws[i]) then 1 else 0)
         == Tally(ws, IsSlowFinishing) + (if IsSlowFinishing(w) then 1 else 0)
  {
    TallyUpdate(ws, i, w, IsIdle);
    TallyUpdate(ws, i, w, IsSlow);
    TallyUpdate(ws, i, w, IsReady);
    TallyUpdate(ws, i, w, IsSleeping);
    TallyUpdate(ws, i, w, IsSlowFinishing);
  }
}
