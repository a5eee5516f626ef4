/** What the invariant says about whole runs of the pool, in the terms a caller would use. */
module PoolTheorems {
  import opened Wrappers
  import opened PoolModel
  import opened PoolInvariant

  lemma {:induction false} RunKeepsInvariant(size: nat, es: seq<Event>)
    requires IsRun(size, es)
    ensures Inv(After(size, es))
    decreases |es|
  {
    hide Inv, Step, Enabled;
    if es == [] {
      InitialInv(size);
    } else {
      RunKeepsInvariant(size, es[..|es| - 1]);
      StepKeeps(After(size, es[..|es| - 1]), es[|es| - 1]);
    }
  }

  // ---- Each job is in exactly one place and is settled at most once ----

  ghost predicate Waiting(s: Pool, id: nat) {
    exists j :: 0 <= j < |s.queue| && s.queue[j].id == id
  }

  ghost predicate Settled(s: Pool, id: nat) {
    exists j :: 0 <= j < |s.resolutions| && s.resolutions[j].id == id
  }

  lemma ExactlyOnePlace(size: nat, es: seq<Event>, id: nat)
    requires IsRun(size, es)
    ensures var s := After(size, es);
            && (id < s.nextId <==> Waiting(s, id) || id in s.pending || Settled(s, id))
            && !(Waiting(s, id) && id in s.pending)
            && !(Waiting(s, id) && Settled(s, id))
            && !(id in s.pending && Settled(s, id))
  {
    var s := After(size, es);
    RunKeepsInvariant(size, es);
    PlaceOf(s, id);
  }

  lemma PlaceOf(s: Pool, id: nat)
    requires OnePlacePerJob(s.queue, s.pending.Keys, s.resolutions, s.nextId)
    ensures id < s.nextId <==> Waiting(s, id) || id in s.pending || Settled(s, id)
    ensures !(Waiting(s, id) && id in s.pending)
    ensures !(Waiting(s, id) && Settled(s, id))
    ensures !(id in s.pending && Settled(s, id))
  {
    CensusParts(s.queue, s.pending.Keys, s.resolutions, id);
    assert Waiting(s, id) <==> id in JobIds(s.queue) by {
      assert forall j :: 0 <= j < |s.queue| ==> JobIds(s.queue)[j] == s.queue[j].id;
    }
    assert Settled(s, id) <==> id in ResolvedIds(s.resolutions) by {
      assert forall j :: 0 <= j < |s.resolutions| ==> ResolvedIds(s.resolutions)[j] == s.resolutions[j].id;
    }
  }

  lemma NeverSettledTwice(size: nat, es: seq<Event>)
    requires IsRun(size, es)
    ensures var rs := After(size, es).resolutions;
            forall i, j :: 0 <= i < j < |rs| ==> rs[i].id != rs[j].id
  {
    var s := After(size, es);
    RunKeepsInvariant(size, es);
    var ids := ResolvedIds(s.resolutions);
    forall i, j | 0 <= i < j < |s.resolutions| ensures s.resolutions[i].id != s.resolutions[j].id {
      CensusParts(s.queue, s.pending.Keys, s.resolutions, ids[i]);
      if ids[i] == ids[j] {
        RepeatCount(ids, i, j);
      }
    }
  }

  /** Settled promises stay settled, in the same order with the same outcomes; messages cannot be unsent. */
  lemma HistoryGrows(s: Pool, e: Event)
    requires Enabled(s, e)
    ensures s.resolutions <= Step(s, e).resolutions
    ensures s.sends <= Step(s, e).sends
    ensures s.nextId <= Step(s, e).nextId
  {
    match e
    case Enqueue(execute, ms) =>
      DispatchOnlySends(s.(nextId := s.nextId + 1, queue := s.queue + [Job(s.nextId, execute, ms, 0)]));
    case Ready(p) => DispatchOnlySends(MarkReady(s, p));
    case Reply(p, id, recycle) =>
      if id in s.pending { DispatchOnlySends(Answer(s, p, id)); }
    case _ =>
  }

  lemma {:induction false} DispatchOnlySends(s: Pool)
    ensures var s' := Dispatch(s);
            && s'.resolutions == s.resolutions && s'.nextId == s.nextId && s.sends <= s'.sends
            && s'.size == s.size && s'.handlers == s.handlers && s'.killed == s.killed
            && s'.shuttingDown == s.shuttingDown && s'.nextProc == s.nextProc
            && |s'.forks| == |s.forks|
    decreases |s.queue|
  {
    if !s.shuttingDown && s.queue != [] {
      var i := FindFree(s.forks);
      if i < |s.forks| {
        DispatchOnlySends(Assign(s, i));
      }
    }
  }

  // ---- A timer and a reply concern the fork that runs the job ----

  lemma PendingIsActive(size: nat, es: seq<Event>)
    requires IsRun(size, es)
    ensures var s := After(size, es);
            && (forall id :: id in s.pending <==>
                  exists i :: 0 <= i < |s.forks| && s.forks[i].active.Some? && s.forks[i].active.value.job.id == id)
            && (forall t :: t in s.timers <==>
                  exists i :: 0 <= i < |s.forks| && s.forks[i].active.Some? && s.forks[i].active.value.timer == t)
            && (forall i, k :: 0 <= i < k < |s.forks| && s.forks[i].active.Some? && s.forks[k].active.Some? ==>
                  && s.forks[i].active.value.job.id != s.forks[k].active.value.job.id
                  && s.forks[i].active.value.timer != s.forks[k].active.value.timer)
            && (forall i :: 0 <= i < |s.forks| ==>
                  (s.forks[i].busy <==> s.forks[i].active.Some?) && (s.forks[i].busy ==> s.forks[i].ready))
  {
    var s := After(size, es);
    RunKeepsInvariant(size, es);
    ActivePairing(s.forks, s.pending, s.timers);
  }

  lemma ActivePairing(forks: seq<Fork>, pending: map<nat, Pending>, timers: map<nat, Alarm>)
    requires Linked(forks, pending, timers)
    ensures forall id :: id in pending <==>
              exists i :: 0 <= i < |forks| && forks[i].active.Some? && forks[i].active.value.job.id == id
    ensures forall t :: t in timers <==>
              exists i :: 0 <= i < |forks| && forks[i].active.Some? && forks[i].active.value.timer == t
    ensures forall i, k :: 0 <= i < k < |forks| && forks[i].active.Some? && forks[k].active.Some? ==>
              && forks[i].active.value.job.id != forks[k].active.value.job.id
              && forks[i].active.value.timer != forks[k].active.value.timer
    ensures forall i :: 0 <= i < |forks| ==>
              (forks[i].busy <==> forks[i].active.Some?) && (forks[i].busy ==> forks[i].ready)
  {
    forall i | 0 <= i < |forks| ensures ForkOk(forks[i]) {}
    forall i | 0 <= i < |forks| && forks[i].active.Some?
      ensures ActiveOk(i, forks[i].active.value, pending, timers) {}
    forall id | id in pending
      ensures exists i :: 0 <= i < |forks| && forks[i].active.Some? && forks[i].active.value.job.id == id
    {
      assert forks[timers[pending[id].timer].fork].active == Some(Active(pending[id].job, pending[id].timer));
    }
  }

  /** A firing timer kills and replaces the process that runs the very job it was armed for, settles that job as
      timed out, and touches no other fork. */
  lemma TimerHitsItsOwnFork(s: Pool, t: nat)
    requires Inv(s) && t in s.timers
    ensures var i, job := s.timers[t].fork, s.timers[t].job;
            && i < |s.forks|
            && s.forks[i].active == Some(Active(job, t))
            && var s' := OnTimeout(s, t);
            && s.forks[i].proc in s'.killed
            && s'.resolutions == s.resolutions + [Resolution(job.id, TimedOut(job.execute, job.timeoutMs))]
            && s'.forks[i].active.None? && !s'.forks[i].ready
            && (!s.shuttingDown ==> s.forks[i].proc !in s'.handlers && s'.forks[i].proc == s.nextProc)
            && (forall k :: 0 <= k < |s.forks| && k != i ==> s'.forks[k] == s.forks[k])
  {
    assert s.timers[t].fork < |s.forks|;
  }

  lemma {:induction false} DispatchSparesBusy(s: Pool, k: nat)
    requires k < |s.forks| && s.forks[k].busy
    ensures |Dispatch(s).forks| == |s.forks| && Dispatch(s).forks[k] == s.forks[k]
    decreases |s.queue|
  {
    if !s.shuttingDown && s.queue != [] {
      var i := FindFree(s.forks);
      if i < |s.forks| {
        DispatchSparesBusy(Assign(s, i), k);
      }
    }
  }

  lemma {:induction false} DispatchKeepsWorker(s: Pool, k: nat)
    requires k < |s.forks|
    ensures |Dispatch(s).forks| == |s.forks|
    ensures Dispatch(s).forks[k].proc == s.forks[k].proc && Dispatch(s).forks[k].ready == s.forks[k].ready
    decreases |s.queue|
  {
    if !s.shuttingDown && s.queue != [] {
      var i := FindFree(s.forks);
      if i < |s.forks| {
        DispatchKeepsWorker(Assign(s, i), k);
      }
    }
  }

  /** Fork `i` has been given a new process: the old one is signalled and no longer heard, the new one is heard and its
      `ready` is not counted as an initial one. */
  ghost predicate Replaced(s: Pool, s': Pool, i: nat) {
    && i < |s.forks| == |s'.forks|
    && s'.forks[i] == Fork(s.nextProc, false, false, None) && s'.nextProc == s.nextProc + 1
    && s.forks[i].proc in s'.killed && s.forks[i].proc !in s'.handlers
    && s.nextProc in s'.handlers && s'.handlers[s.nextProc] == Handler(i, false)
  }

  /** A heard reply to a pending id settles that id for the fork that runs it. The fork then has a new process if the
      worker asked to be recycled, and otherwise its old one, as ready as before; every other busy fork keeps its job. */
  lemma ReplyFreesItsOwnFork(s: Pool, p: nat, id: nat, recycle: bool)
    requires Inv(s) && !s.shuttingDown && Enabled(s, Reply(p, id, recycle)) && id in s.pending
    ensures var i := s.handlers[p].fork;
            && s.forks[i].proc == p && s.forks[i].active.Some? && s.forks[i].active.value.job.id == id
            && var s' := OnReply(s, p, id, recycle);
            && s'.resolutions == s.resolutions + [Resolution(id, Answered(p))]
            && |s'.forks| == |s.forks|
            && (forall k :: 0 <= k < |s.forks| && k != i && s.forks[k].busy ==> s'.forks[k] == s.forks[k])
            && (recycle ==> Replaced(s, s', i) && s'.queue == s.queue)
            && (!recycle ==> s'.forks[i].proc == p && s'.forks[i].ready && s'.handlers == s.handlers && s'.killed == s.killed)
  {
    ReplyIsOurs(s, p, id);
    var i, t := s.handlers[p].fork, Answer(s, p, id);
    ReadyWhenActive(s.forks, s.pending, s.timers, i);
    KnownProcesses(s);
    hide Inv, Dispatch;
    DispatchOnlySends(t);
    DispatchKeepsWorker(t, i);
    forall k | 0 <= k < |s.forks| && k != i && s.forks[k].busy
      ensures OnReply(s, p, id, recycle).forks[k] == s.forks[k]
    {
      DispatchSparesBusy(t, k);
    }
  }

  lemma ReadyWhenActive(forks: seq<Fork>, pending: map<nat, Pending>, timers: map<nat, Alarm>, i: nat)
    requires Linked(forks, pending, timers) && i < |forks| && forks[i].active.Some?
    ensures forks[i].ready
  {
    assert ForkOk(forks[i]);
  }

  lemma KnownProcesses(s: Pool)
    requires Inv(s)
    ensures forall p :: p in s.handlers ==> s.handlers[p].fork < |s.forks| && s.forks[s.handlers[p].fork].proc == p
    ensures forall i :: 0 <= i < |s.forks| ==> s.forks[i].proc < s.nextProc
  {
  }

  /** A worker that dies is replaced if and only if it had announced itself; one that dies before keeps its process, dead
      and still attached. Whatever happens to its job, no other fork changes. */
  lemma FailureReplacesIffReady(s: Pool, p: nat)
    requires Inv(s) && !s.shuttingDown && Enabled(s, Failure(p))
    ensures var i, s' := s.handlers[p].fork, OnFailure(s, p);
            && s.forks[i].proc == p && |s'.forks| == |s.forks|
            && (s.forks[i].busy ==> s.forks[i].ready)
            && (s'.forks[i].proc == s.nextProc <==> s.forks[i].ready)
            && (s.forks[i].ready ==> Replaced(s, s', i))
            && (!s.forks[i].ready ==> s' == s)
            && (forall k :: 0 <= k < |s.forks| && k != i ==> s'.forks[k] == s.forks[k])
  {
    var i := s.handlers[p].fork;
    var f := s.forks[i];
    FailedFork(s, p);
    hide Inv, Replaced;
    if f.active.Some? {
      RespawnReplaces(s, Recover(s, i, f.active.value), i);
    } else if f.ready {
      RespawnReplaces(s, SetFork(s, i, f.(active := None, busy := false, ready := false)), i);
    } else {
      assert f == f.(active := None, busy := false, ready := false);
      assert s.forks == s.forks[i := f];
    }
  }

  lemma FailedFork(s: Pool, p: nat)
    requires Inv(s) && p in s.handlers
    ensures var i := s.handlers[p].fork;
            && i < |s.forks| && s.forks[i].proc == p && ForkOk(s.forks[i]) && p < s.nextProc && s.nextProc !in s.handlers
  {
    KnownProcesses(s);
    assert ForkOk(s.forks[s.handlers[p].fork]);
  }

  lemma RespawnReplaces(s: Pool, t: Pool, i: nat)
    requires i < |s.forks| == |t.forks| && t.forks[i].proc == s.forks[i].proc < s.nextProc && !t.shuttingDown
    requires t.nextProc == s.nextProc && t.handlers == s.handlers && t.killed == s.killed
    ensures Replaced(s, Respawn(t, i), i) && Respawn(t, i).forks[i].proc == s.nextProc
    ensures forall k :: 0 <= k < |s.forks| && k != i ==> Respawn(t, i).forks[k] == t.forks[k]
  {
  }

  /** A reply to an id that is no longer pending changes nothing. */
  lemma StaleReplyIsIgnored(s: Pool, p: nat, id: nat, recycle: bool)
    requires Inv(s) && Enabled(s, Reply(p, id, recycle)) && Settled(s, id)
    ensures OnReply(s, p, id, recycle) == s
  {
    PlaceOf(s, id);
  }

  // ---- Dispatch order ----

  /** The first `r` jobs of the queue are interrupted ones; the rest are exactly the ids that were never sent, in order;
      and the ids that were sent were first sent in id order. */
  ghost predicate RetriesThenFresh(q: seq<Job>, sends: seq<Sent>, nextId: nat, r: nat) {
    && r <= |q| && |q| - r <= nextId
    && var n := nextId - (|q| - r);
       && (forall j :: 0 <= j < r ==> q[j].crashRetries == 1 && q[j].id < n)
       && (forall j :: r <= j < |q| ==> q[j].crashRetries == 0 && q[j].id == n + (j - r))
       && FirstOccurrences(SentIds(sends)) == UpTo(n)
  }

  lemma FreshAt(q: seq<Job>, nextId: nat, j: nat)
    requires QueueShape(q, nextId) && Unsent(q) <= nextId && Unsent(q) <= |q| && |q| - Unsent(q) <= j < |q|
    ensures q[j].id == nextId - (|q| - j)
  {
    UnsentSplit(q, nextId);
  }

  lemma QueueIsInOrder(q: seq<Job>, sends: seq<Sent>, nextId: nat)
    requires QueueShape(q, nextId) && InIdOrder(q, sends, nextId) && QueueCounts(q, sends)
    ensures Unsent(q) <= |q| && RetriesThenFresh(q, sends, nextId, |q| - Unsent(q))
  {
    UnsentSplit(q, nextId);
    hide FirstOccurrences, Unsent, SendCount, QueueShape, QueueCounts;
    var n, r := nextId - Unsent(q), |q| - Unsent(q);
    forall j | r <= j < |q|
      ensures q[j].crashRetries == 0 && q[j].id == n + (j - r)
    {
      FreshAt(q, nextId, j);
    }
    forall j | 0 <= j < r
      ensures q[j].crashRetries == 1 && q[j].id < n
    {
      RetriedOnce(q, nextId, j);
      SentBefore(q, sends, nextId, j);
    }
  }

  lemma RetriedOnce(q: seq<Job>, nextId: nat, j: nat)
    requires QueueShape(q, nextId) && j < |q|
    ensures q[j].crashRetries <= 1
  {
  }

  /** In every reachable state the queue is in order and nobody has been sent a job more than twice. */
  lemma DispatchOrder(size: nat, es: seq<Event>)
    requires IsRun(size, es)
    ensures var s := After(size, es); exists r: nat :: RetriesThenFresh(s.queue, s.sends, s.nextId, r)
    ensures forall id: nat :: SendCount(After(size, es).sends, id) <= MAX_WORKER_CRASH_RETRIES + 1
  {
    RunKeepsInvariant(size, es);
    var s := After(size, es);
    hide Linked, Attached, OnePlacePerJob, SentToFork, ForkCounts, ReadyCounted, RetriesThenFresh, QueueShape, InIdOrder, QueueCounts,
         IsRun, After;
    QueueIsInOrder(s.queue, s.sends, s.nextId);
  }

  lemma {:induction false} UnsentSplit(q: seq<Job>, nextId: nat)
    requires QueueShape(q, nextId)
    ensures Unsent(q) <= |q|
    ensures forall j :: 0 <= j < |q| ==> (q[j].crashRetries == 0 <==> |q| - Unsent(q) <= j)
  {
    if q != [] {
      if q[0].crashRetries == 0 {
        UnsentAll(q);
      } else {
        assert QueueShape(q[1..], nextId) by {
          assert forall j :: 0 <= j < |q[1..]| ==> q[1..][j] == q[j + 1];
        }
        UnsentSplit(q[1..], nextId);
        forall j | 0 <= j < |q| ensures q[j].crashRetries == 0 <==> |q| - Unsent(q) <= j {
          if j > 0 { assert q[j] == q[1..][j - 1]; }
        }
      }
    }
  }

  lemma SentBefore(q: seq<Job>, sends: seq<Sent>, nextId: nat, j: nat)
    requires InIdOrder(q, sends, nextId) && QueueCounts(q, sends) && j < |q| && q[j].crashRetries > 0
    ensures q[j].id < nextId - Unsent(q)
  {
    assert SendCount(sends, q[j].id) > 0;
    assert q[j].id in SentIds(sends);
    OccursFirst(SentIds(sends), q[j].id);
  }

  lemma {:induction false} OccursFirst(xs: seq<nat>, x: nat)
    requires x in xs
    ensures x in FirstOccurrences(xs)
  {
    var init := xs[..|xs| - 1];
    assert xs == init + [xs[|xs| - 1]];
    if x in init {
      OccursFirst(init, x);
    }
  }

  // ---- Progress measure ----

  /** What a job can still cost: a dispatch and an end, twice if its first worker dies. */
  ghost function Cost(job: Job, running: bool): nat {
    if job.crashRetries == 0 then (if running then 3 else 4)
    else if job.crashRetries == 1 then (if running then 1 else 2)
    else 0
  }

  ghost function QueueCost(q: seq<Job>): nat {
    if q == [] then 0 else Cost(q[0], false) + QueueCost(q[1..])
  }

  ghost function ForkCost(forks: seq<Fork>): nat {
    if forks == [] then 0
    else (if forks[0].active.Some? then Cost(forks[0].active.value.job, true) else 0) + ForkCost(forks[1..])
  }

  ghost function Weight(s: Pool): nat {
    QueueCost(s.queue) + ForkCost(s.forks)
  }

  /** The event ends a dispatched job's stay on its worker. */
  ghost predicate Ends(s: Pool, e: Event)
    requires Enabled(s, e)
  {
    match e
    case Reply(p, id, _) => !s.shuttingDown && id in s.pending
    case Timeout(t) => true
    case Failure(p) =>
      !s.shuttingDown && s.forks[s.handlers[p].fork].proc == p && s.forks[s.handlers[p].fork].active.Some?
    case _ => false
  }

  lemma {:induction false} QueueCostSnoc(q: seq<Job>, x: Job)
    ensures QueueCost(q + [x]) == QueueCost(q) + Cost(x, false)
  {
    if q == [] {
      assert q + [x] == [x];
    } else {
      assert (q + [x])[1..] == q[1..] + [x];
      QueueCostSnoc(q[1..], x);
    }
  }

  ghost function ActiveCost(f: Fork): nat {
    if f.active.Some? then Cost(f.active.value.job, true) else 0
  }

  lemma {:induction false} ForkCostUpdate(forks: seq<Fork>, i: nat, f: Fork)
    requires i < |forks|
    ensures ForkCost(forks[i := f]) + ActiveCost(forks[i]) == ForkCost(forks) + ActiveCost(f)
  {
    if i == 0 {
      assert forks[i := f][1..] == forks[1..];
    } else {
      assert forks[i := f][1..] == forks[1..][i - 1 := f];
      ForkCostUpdate(forks[1..], i - 1, f);
    }
  }

  lemma {:induction false} DispatchPays(s: Pool)
    requires Inv(s)
    ensures Weight(Dispatch(s)) + |Dispatch(s).sends| == Weight(s) + |s.sends|
    decreases |s.queue|
  {
    hide Linked, Attached, OnePlacePerJob, SentToFork, InIdOrder, QueueCounts, ForkCounts, AtMostTwice, ReadyCounted;
    if !s.shuttingDown && s.queue != [] {
      var i := FindFree(s.forks);
      if i < |s.forks| {
        var s' := Assign(s, i);
        assert ForkOk(s.forks[i]) by { FreeIsIdle(s.forks, s.pending, s.timers, i); }
        ForkCostUpdate(s.forks, i, s'.forks[i]);
        assert Cost(s.queue[0], true) + 1 == Cost(s.queue[0], false);
        AssignKeeps(s, i);
        DispatchPays(s');
      }
    }
  }

  lemma FreeIsIdle(forks: seq<Fork>, pending: map<nat, Pending>, timers: map<nat, Alarm>, i: nat)
    requires Linked(forks, pending, timers) && i < |forks|
    ensures ForkOk(forks[i])
  {
  }

  lemma RespawnPays(s: Pool, i: nat)
    requires i < |s.forks| && s.forks[i].active.None?
    ensures Weight(Respawn(s, i)) == Weight(s)
  {
    if !s.shuttingDown {
      ForkCostUpdate(s.forks, i, Respawn(s, i).forks[i]);
    }
  }

  lemma FinishPays(s: Pool, i: nat, o: Outcome, ready: bool, killed: set<nat>)
    requires Inv(s) && i < |s.forks| && s.forks[i].active.Some?
    ensures Weight(Finish(s, i, o, ready, killed)) + 1 <= Weight(s)
  {
    ForkCostUpdate(s.forks, i, Finish(s, i, o, ready, killed).forks[i]);
    assert ForkCounts(s.forks, s.sends);
  }

  lemma RequeuePays(s: Pool, i: nat)
    requires Inv(s) && i < |s.forks| && s.forks[i].active.Some? && s.forks[i].active.value.job.crashRetries == 0
    ensures Weight(Requeue(s, i)) + 1 == Weight(s)
  {
    ForkCostUpdate(s.forks, i, Requeue(s, i).forks[i]);
    assert Requeue(s, i).queue[1..] == s.queue;
  }

  lemma ReplyPays(s: Pool, p: nat, id: nat, recycle: bool)
    requires Inv(s) && Enabled(s, Reply(p, id, recycle))
    ensures var s' := OnReply(s, p, id, recycle);
            Weight(s') + |s'.sends| + (if Ends(s, Reply(p, id, recycle)) then 1 else 0) <= Weight(s) + |s.sends|
  {
    if !s.shuttingDown && id in s.pending {
      ReplyIsOurs(s, p, id);
      var i := s.handlers[p].fork;
      var t := Answer(s, p, id);
      assert t == Finish(s, i, Answered(p), s.forks[i].ready, s.killed);
      FinishPays(s, i, Answered(p), s.forks[i].ready, s.killed);
      FinishKeeps(s, i, Answered(p), s.forks[i].ready, s.killed);
      if recycle {
        RespawnPays(t, i);
      } else {
        DispatchPays(t);
      }
    }
  }

  lemma CrashPays(s: Pool, i: nat)
    requires Inv(s) && i < |s.forks| && s.forks[i].active.Some?
    ensures var t := Recover(s, i, s.forks[i].active.value);
            Weight(t) + 1 <= Weight(s) && t.sends == s.sends && |t.forks| == |s.forks| && t.forks[i].active.None?
  {
    hide Inv, Weight;
    var a := s.forks[i].active.value;
    if a.job.crashRetries == 0 {
      assert Recover(s, i, a) == Requeue(s, i);
      RequeuePays(s, i);
    } else {
      assert Recover(s, i, a) == Finish(s, i, WorkerDied(a.job.execute), false, s.killed);
      FinishPays(s, i, WorkerDied(a.job.execute), false, s.killed);
    }
  }

  lemma FailurePays(s: Pool, p: nat)
    requires Inv(s) && Enabled(s, Failure(p))
    ensures Weight(OnFailure(s, p)) + (if Ends(s, Failure(p)) then 1 else 0) <= Weight(s)
    ensures OnFailure(s, p).sends == s.sends
  {
    hide Inv, Recover;
    var i := s.handlers[p].fork;
    var f := s.forks[i];
    if !s.shuttingDown && f.proc == p {
      if f.active.Some? {
        CrashPays(s, i);
        RespawnPays(Recover(s, i, f.active.value), i);
      } else {
        var g := f.(active := None, busy := false, ready := false);
        ForkCostUpdate(s.forks, i, g);
        RespawnPays(SetFork(s, i, g), i);
      }
    }
  }

  lemma EnqueuePays(s: Pool, execute: bool, ms: nat)
    requires Inv(s)
    ensures var s' := OnEnqueue(s, execute, ms);
            Weight(s') + |s'.sends| == Weight(s) + |s.sends| + 4 && s'.nextId == s.nextId + 1
  {
    hide Inv;
    var x := Job(s.nextId, execute, ms, 0);
    var t := s.(nextId := s.nextId + 1, queue := s.queue + [x]);
    EnqueueKeeps(s, execute, ms);
    QueueCostSnoc(s.queue, x);
    DispatchPays(t);
    DispatchOnlySends(t);
  }

  lemma ReadyPays(s: Pool, p: nat)
    requires Inv(s) && Enabled(s, Ready(p))
    ensures var s' := OnReady(s, p); Weight(s') + |s'.sends| == Weight(s) + |s.sends| && s'.nextId == s.nextId
  {
    hide Inv;
    var t := MarkReady(s, p);
    MarkReadyKeeps(s, p);
    ForkCostUpdate(s.forks, s.handlers[p].fork, t.forks[s.handlers[p].fork]);
    DispatchPays(t);
    DispatchOnlySends(t);
  }

  lemma TimeoutPays(s: Pool, t: nat)
    requires Inv(s) && t in s.timers && s.timers[t].fork < |s.forks|
    ensures Weight(OnTimeout(s, t)) + 1 <= Weight(s) && OnTimeout(s, t).sends == s.sends
  {
    TimerHitsItsOwnFork(s, t);
    hide Inv;
    var i, job := s.timers[t].fork, s.timers[t].job;
    var killed := s.killed + {s.forks[i].proc};
    assert Expire(s, t) == Finish(s, i, TimedOut(job.execute, job.timeoutMs), false, killed);
    FinishPays(s, i, TimedOut(job.execute, job.timeoutMs), false, killed);
    RespawnPays(Expire(s, t), i);
  }

  /** Every dispatch and every end of a dispatched job is paid for out of the weight, which only a new job raises. */
  lemma WeightFalls(s: Pool, e: Event)
    requires Inv(s) && Enabled(s, e)
    ensures var s' := Step(s, e);
            Weight(s') + |s'.sends| + (if Ends(s, e) then 1 else 0)
            <= Weight(s) + |s.sends| + 4 * (s'.nextId - s.nextId)
  {
    HistoryGrows(s, e);
    hide Inv, OnEnqueue, OnReady, OnReply, OnFailure, OnTimeout;
    match e
    case Enqueue(execute, ms) => EnqueuePays(s, execute, ms);
    case Ready(p) => ReadyPays(s, p);
    case Reply(p, id, recycle) => ReplyPays(s, p, id, recycle);
    case Timeout(t) => TimeoutPays(s, t);
    case Failure(p) => FailurePays(s, p);
    case _ =>
  }

  /** How many events of the run ended a dispatched job. */
  ghost function EndsIn(size: nat, es: seq<Event>): nat
    requires IsRun(size, es)
    decreases |es|
  {
    if es == [] then 0
    else
      var init, e := es[..|es| - 1], es[|es| - 1];
      EndsIn(size, init) + if Ends(After(size, init), e) then 1 else 0
  }

  /** However replies, timeouts, crashes and recycles interleave, `n` jobs cause at most `4 n` dispatches and
      worker-ending events together, less what the unsettled jobs can still cost. */
  lemma {:induction false} RunIsBounded(size: nat, es: seq<Event>)
    requires IsRun(size, es)
    ensures var s := After(size, es); Weight(s) + |s.sends| + EndsIn(size, es) <= 4 * s.nextId
    decreases |es|
  {
    hide Inv, Enabled, Step, Ends, Weight;
    if es == [] {
      EmptyPoolWeighsNothing(size);
    } else {
      var init, e := es[..|es| - 1], es[|es| - 1];
      RunIsBounded(size, init);
      RunKeepsInvariant(size, init);
      WeightFalls(After(size, init), e);
      HistoryGrows(After(size, init), e);
    }
  }

  lemma EmptyPoolWeighsNothing(size: nat)
    ensures Weight(Initial(size)) == 0 && Initial(size).sends == [] && Initial(size).nextId == 0
  {
    IdleForksCostNothing(Initial(size).forks);
  }

  lemma {:induction false} IdleForksCostNothing(forks: seq<Fork>)
    requires forall i :: 0 <= i < |forks| ==> forks[i].active.None?
    ensures ForkCost(forks) == 0
  {
    if forks != [] {
      IdleForksCostNothing(forks[1..]);
    }
  }

  // ---- No fresh job waits for an idle worker ----

  ghost predicate HasFreeFork(forks: seq<Fork>) {
    exists i :: 0 <= i < |forks| && forks[i].ready && !forks[i].busy
  }

  /** While the pool is open, a worker stands idle only if everything in the queue is an interrupted job. */
  ghost predicate OnlyRetriesWait(s: Pool) {
    !s.shuttingDown && HasFreeFork(s.forks) ==>
      forall j :: 0 <= j < |s.queue| ==> s.queue[j].crashRetries > 0
  }

  lemma {:induction false} DispatchSaturates(s: Pool)
    ensures var s' := Dispatch(s); s.shuttingDown || s'.queue == [] || !HasFreeFork(s'.forks)
    decreases |s.queue|
  {
    if !s.shuttingDown && s.queue != [] {
      var i := FindFree(s.forks);
      if i < |s.forks| {
        DispatchSaturates(Assign(s, i));
      }
    }
  }

  lemma DispatchConservesWork(s: Pool)
    ensures OnlyRetriesWait(Dispatch(s)) && OnlyRetriesWait(SettleReady(Dispatch(s)))
  {
    DispatchSaturates(s);
    DispatchOnlySends(s);
  }

  lemma StepConservesWork(s: Pool, e: Event)
    requires Inv(s) && Enabled(s, e) && OnlyRetriesWait(s)
    ensures OnlyRetriesWait(Step(s, e))
  {
    hide Inv, OnReply, OnTimeout, OnFailure, Dispatch;
    match e
    case Enqueue(execute, ms) =>
      var t := s.(nextId := s.nextId + 1, queue := s.queue + [Job(s.nextId, execute, ms, 0)]);
      DispatchConservesWork(t);
      DispatchOnlySends(t);
    case Ready(p) => DispatchConservesWork(MarkReady(s, p));
    case Reply(p, id, recycle) => ReplyConservesWork(s, p, id, recycle);
    case Timeout(t) => TimeoutConservesWork(s, t);
    case Failure(p) => FailureConservesWork(s, p);
    case _ =>
  }

  /** Taking a fork out of service frees nobody and leaves the queue as it was, or puts an interrupted job in front. */
  ghost predicate Retires(s: Pool, s': Pool, i: nat) {
    && i < |s.forks| == |s'.forks| && s'.shuttingDown == s.shuttingDown
    && !s'.forks[i].ready
    && (forall k :: 0 <= k < |s.forks| && k != i ==> s'.forks[k] == s.forks[k])
    && (s'.queue == s.queue || (s'.queue != [] && s'.queue[0].crashRetries > 0 && s'.queue[1..] == s.queue))
  }

  lemma RetiringConservesWork(s: Pool, s': Pool, i: nat)
    requires OnlyRetriesWait(s) && Retires(s, s', i)
    ensures OnlyRetriesWait(s')
  {
    if !s'.shuttingDown && HasFreeFork(s'.forks) {
      var k :| 0 <= k < |s'.forks| && s'.forks[k].ready && !s'.forks[k].busy;
      assert s.forks[k] == s'.forks[k];
      assert HasFreeFork(s.forks);
      forall j | 0 <= j < |s'.queue|
        ensures s'.queue[j].crashRetries > 0
      {
        if s'.queue != s.queue && j > 0 {
          assert s'.queue[1..][j - 1] == s'.queue[j];
        }
      }
    }
  }

  lemma ReplyConservesWork(s: Pool, p: nat, id: nat, recycle: bool)
    requires Inv(s) && Enabled(s, Reply(p, id, recycle)) && OnlyRetriesWait(s)
    ensures OnlyRetriesWait(OnReply(s, p, id, recycle))
  {
    hide Inv, Dispatch;
    if !s.shuttingDown && id in s.pending {
      var t, i := Answer(s, p, id), s.handlers[p].fork;
      if recycle {
        assert Retires(s, Respawn(t, i), i);
        RetiringConservesWork(s, Respawn(t, i), i);
      } else {
        DispatchConservesWork(t);
      }
    }
  }

  lemma TimeoutConservesWork(s: Pool, t: nat)
    requires Inv(s) && t in s.timers && OnlyRetriesWait(s)
    ensures s.timers[t].fork < |s.forks| && OnlyRetriesWait(OnTimeout(s, t))
  {
    TimerHitsItsOwnFork(s, t);
    hide Inv;
    var i := s.timers[t].fork;
    assert Retires(s, OnTimeout(s, t), i);
    RetiringConservesWork(s, OnTimeout(s, t), i);
  }

  lemma FailureConservesWork(s: Pool, p: nat)
    requires Enabled(s, Failure(p)) && OnlyRetriesWait(s)
    ensures OnlyRetriesWait(OnFailure(s, p))
  {
    var s', i := OnFailure(s, p), s.handlers[p].fork;
    if !s.shuttingDown && s.forks[i].proc == p {
      assert Retires(s, s', i);
      RetiringConservesWork(s, s', i);
    }
  }

  lemma {:induction false} NoFreshJobWaitsForAnIdleWorker(size: nat, es: seq<Event>)
    requires IsRun(size, es)
    ensures OnlyRetriesWait(After(size, es))
    decreases |es|
  {
    hide Inv, Enabled, Step, OnlyRetriesWait;
    if es == [] {
      NothingFreeAtFirst(size);
    } else {
      var init, e := es[..|es| - 1], es[|es| - 1];
      RunKeepsInvariant(size, init);
      NoFreshJobWaitsForAnIdleWorker(size, init);
      StepConservesWork(After(size, init), e);
    }
  }

  lemma NothingFreeAtFirst(size: nat)
    ensures OnlyRetriesWait(Initial(size))
  {
  }

  /** The run in which one of two ready workers crashes on the only job. */
  ghost function CrashRun(): seq<Event> {
    [Ready(0), Ready(1), Enqueue(false, 10), Failure(0)]
  }

  /** An interrupted job, unlike a fresh one, can sit in the queue beside an idle worker. */
  lemma InterruptedJobCanWaitBesideAnIdleWorker()
    ensures IsRun(2, CrashRun())
    ensures var s := After(2, CrashRun());
            |s.forks| == 2 && s.queue == [Job(0, false, 10, 1)] && s.forks[1].ready && !s.forks[1].busy && !s.shuttingDown
  {
    TwoReady();
    var s3, es := SaturatedPair(), [Ready(0), Ready(1)];
    hide IsRun, After;
    Extend(2, es, Enqueue(false, 10));
    assert After(2, es + [Enqueue(false, 10)]) == s3 by {
      hide MarkReady, SettleReady;
    }
    Extend(2, es + [Enqueue(false, 10)], Failure(0));
    assert CrashRun() == es + [Enqueue(false, 10)] + [Failure(0)];
  }

  lemma TwoReady()
    ensures IsRun(2, [Ready(0), Ready(1)])
    ensures After(2, [Ready(0), Ready(1)]) == SettleReady(MarkReady(SettleReady(MarkReady(Initial(2), 0)), 1))
  {
    var s0, s1 := Initial(2), SettleReady(MarkReady(Initial(2), 0));
    assert Dispatch(MarkReady(s0, 0)) == MarkReady(s0, 0);
    Extend(2, [], Ready(0));
    assert Dispatch(MarkReady(s1, 1)) == MarkReady(s1, 1);
    Extend(2, [] + [Ready(0)], Ready(1));
    assert [Ready(0), Ready(1)] == [] + [Ready(0)] + [Ready(1)];
  }

  lemma Extend(size: nat, es: seq<Event>, e: Event)
    requires IsRun(size, es) && Enabled(After(size, es), e)
    ensures IsRun(size, es + [e]) && After(size, es + [e]) == Step(After(size, es), e)
  {
    assert (es + [e])[..|es + [e]| - 1] == es;
  }

  /** Two ready workers, the first of them running the only job. */
  ghost function SaturatedPair(): (s: Pool)
    ensures OnEnqueue(SettleReady(MarkReady(SettleReady(MarkReady(Initial(2), 0)), 1)), false, 10) == s
    ensures |s.forks| == 2 && 0 in s.handlers && s.handlers[0].fork == 0 && !s.shuttingDown && s.queue == []
    ensures s.forks[0] == Fork(0, true, true, Some(Active(Job(0, false, 10, 0), 0))) && s.forks[1] == Fork(1, true, false, None)
  {
    var s2 := SettleReady(MarkReady(SettleReady(MarkReady(Initial(2), 0)), 1));
    var q := s2.(nextId := s2.nextId + 1, queue := s2.queue + [Job(s2.nextId, false, 10, 0)]);
    assert FindFree(q.forks) == 0;
    assert Assign(q, 0).queue == [];
    assert Dispatch(Assign(q, 0)) == Assign(q, 0);
    assert Dispatch(q) == Assign(q, 0);
    Assign(q, 0)
  }

  // ---- A settled job is over ----

  lemma {:induction false} DispatchSendsWaiting(s: Pool, id: nat)
    requires id !in JobIds(s.queue)
    ensures SendCount(Dispatch(s).sends, id) == SendCount(s.sends, id)
    decreases |s.queue|
  {
    if !s.shuttingDown && s.queue != [] {
      var i := FindFree(s.forks);
      if i < |s.forks| {
        assert JobIds(s.queue)[0] == s.queue[0].id;
        assert JobIds(s.queue[1..]) == JobIds(s.queue)[1..];
        SendOne(s.sends, Sent(s.forks[i].proc, s.queue[0].id), id);
        DispatchSendsWaiting(Assign(s, i), id);
      }
    }
  }

  lemma OnlyWaitingJobsAreSent(s: Pool, e: Event, id: nat)
    requires Enabled(s, e) && id !in JobIds(s.queue) && id < s.nextId
    ensures SendCount(Step(s, e).sends, id) == SendCount(s.sends, id)
  {
    match e
    case Enqueue(execute, ms) =>
      var t := s.(nextId := s.nextId + 1, queue := s.queue + [Job(s.nextId, execute, ms, 0)]);
      assert JobIds(t.queue) == JobIds(s.queue) + [s.nextId];
      DispatchSendsWaiting(t, id);
    case Ready(p) => DispatchSendsWaiting(MarkReady(s, p), id);
    case Reply(p, id', recycle) =>
      if id' in s.pending { DispatchSendsWaiting(Answer(s, p, id'), id); }
    case _ =>
  }

  /** Once its promise is settled a job is never sent to a worker again, whatever happens next. */
  lemma SettledJobIsNeverSentAgain(s: Pool, e: Event, id: nat)
    requires Inv(s) && Enabled(s, e) && Settled(s, id)
    ensures Settled(Step(s, e), id) && SendCount(Step(s, e).sends, id) == SendCount(s.sends, id)
  {
    PlaceOf(s, id);
    hide Inv, Step, Enabled;
    HistoryGrows(s, e);
    var j :| 0 <= j < |s.resolutions| && s.resolutions[j].id == id;
    assert Step(s, e).resolutions[j] == s.resolutions[j];
    assert forall k :: 0 <= k < |s.queue| ==> JobIds(s.queue)[k] == s.queue[k].id;
    OnlyWaitingJobsAreSent(s, e, id);
  }

  // ---- Outcomes ----

  /** An answer comes from a worker that was sent the job; a crash verdict is given only after two workers were. */
  ghost predicate OutcomeOk(r: Resolution, sends: seq<Sent>) {
    match r.outcome
    case Answered(p) => Sent(p, r.id) in sends
    case TimedOut(_, _) => SendCount(sends, r.id) >= 1
    case WorkerDied(_) => SendCount(sends, r.id) >= 2
  }

  ghost predicate OutcomesOk(s: Pool) {
    forall j :: 0 <= j < |s.resolutions| ==> OutcomeOk(s.resolutions[j], s.sends)
  }

  lemma OutcomeStays(r: Resolution, sends: seq<Sent>, more: seq<Sent>)
    requires OutcomeOk(r, sends) && sends <= more
    ensures OutcomeOk(r, more)
  {
    assert more == sends + more[|sends|..];
    assert SentIds(more) == SentIds(sends) + SentIds(more[|sends|..]);
    assert SendCount(more, r.id) >= SendCount(sends, r.id);
  }

  /** What one event adds to the settled jobs: nothing, or one job with a justified outcome. */
  lemma StepSettlesJustly(s: Pool, e: Event)
    requires Inv(s) && Enabled(s, e)
    ensures var s' := Step(s, e);
            || s'.resolutions == s.resolutions
            || (exists r :: s'.resolutions == s.resolutions + [r] && OutcomeOk(r, s.sends))
  {
    hide OnTimeout, OnFailure, OnePlacePerJob, Linked, Attached, SentToFork, InIdOrder, QueueCounts;
    match e
    case Enqueue(execute, ms) =>
      DispatchOnlySends(s.(nextId := s.nextId + 1, queue := s.queue + [Job(s.nextId, execute, ms, 0)]));
    case Ready(p) => DispatchOnlySends(MarkReady(s, p));
    case Reply(p, id, recycle) =>
      if !s.shuttingDown && id in s.pending {
        ReplyFreesItsOwnFork(s, p, id, recycle);
        assert OutcomeOk(Resolution(id, Answered(p)), s.sends);
      }
    case Timeout(t) => TimeoutSettlesJustly(s, t);
    case Failure(p) => FailureSettlesJustly(s, p);
    case _ =>
  }

  lemma FailureSettlesJustly(s: Pool, p: nat)
    requires ForkCounts(s.forks, s.sends) && p in s.handlers && s.handlers[p].fork < |s.forks|
    ensures var s' := OnFailure(s, p);
            || s'.resolutions == s.resolutions
            || (exists r :: s'.resolutions == s.resolutions + [r] && OutcomeOk(r, s.sends))
  {
    var f := s.forks[s.handlers[p].fork];
    if f.active.Some? {
      var job := f.active.value.job;
      assert job.crashRetries > 0 ==> OutcomeOk(Resolution(job.id, WorkerDied(job.execute)), s.sends);
    }
  }

  lemma TimeoutSettlesJustly(s: Pool, t: nat)
    requires Inv(s) && t in s.timers && s.timers[t].fork < |s.forks|
    ensures exists r :: OnTimeout(s, t).resolutions == s.resolutions + [r] && OutcomeOk(r, s.sends)
  {
    TimerHitsItsOwnFork(s, t);
    var job := s.timers[t].job;
    assert OutcomeOk(Resolution(job.id, TimedOut(job.execute, job.timeoutMs)), s.sends);
  }

  lemma {:induction false} EveryOutcomeIsJustified(size: nat, es: seq<Event>)
    requires IsRun(size, es)
    ensures OutcomesOk(After(size, es))
    decreases |es|
  {
    hide Inv, Enabled, Step, OutcomeOk;
    if es != [] {
      var init, e := es[..|es| - 1], es[|es| - 1];
      var s := After(size, init);
      EveryOutcomeIsJustified(size, init);
      RunKeepsInvariant(size, init);
      HistoryGrows(s, e);
      StepSettlesJustly(s, e);
      var s' := Step(s, e);
      forall j | 0 <= j < |s'.resolutions| ensures OutcomeOk(s'.resolutions[j], s'.sends) {
        OutcomeStays(s'.resolutions[j], s.sends, s'.sends);
      }
    }
  }

  // ---- Processes and readiness ----

  /** No child process is lost: each is still listened to or was signalled, and after `shutdown` all were. */
  lemma NoProcessLeaks(size: nat, es: seq<Event>, p: nat)
    requires IsRun(size, es) && p < After(size, es).nextProc
    ensures var s := After(size, es);
            && (p in s.killed || exists i :: 0 <= i < |s.forks| && s.forks[i].proc == p)
            && (s.shuttingDown ==> p in s.killed)
  {
    RunKeepsInvariant(size, es);
    var s := After(size, es);
    if p in s.handlers {
      assert s.forks[s.handlers[p].fork].proc == p;
    }
  }

  /** After shutdown nothing is sent or forked any more, whatever still happens. */
  lemma ShutdownIsFinal(s: Pool, e: Event)
    requires Inv(s) && Enabled(s, e) && s.shuttingDown
    ensures var s' := Step(s, e);
            s'.shuttingDown && s'.sends == s.sends && s'.nextProc == s.nextProc && s'.handlers == map[]
            && |s'.forks| == |s.forks| && (forall i :: 0 <= i < |s.forks| ==> s'.forks[i].proc == s.forks[i].proc)
  {
    assert s.handlers == map[];
    hide Inv;
    match e
    case Enqueue(execute, ms) =>
      DispatchOnlySends(s.(nextId := s.nextId + 1, queue := s.queue + [Job(s.nextId, execute, ms, 0)]));
    case _ =>
  }

  /** `ready()` settles only when each of the processes forked at construction has announced itself. */
  lemma ReadyMeansAllAnnounced(size: nat, es: seq<Event>)
    requires IsRun(size, es)
    ensures var s := After(size, es);
            s.readyCount <= size && (s.readyDone != {} ==> forall p: nat :: p < size ==> p in s.readied)
  {
    RunKeepsInvariant(size, es);
    SizeIsFixed(size, es);
    var s := After(size, es);
    var early := set p | p in s.readied && p < s.size;
    CardinalUpTo(early, size);
    if s.readyDone != {} {
      FullSet(early, size);
      forall p: nat | p < size ensures p in s.readied {
        assert p in early;
      }
    }
  }

  lemma {:induction false} FullSet(xs: set<nat>, n: nat)
    requires |xs| == n && forall x :: x in xs ==> x < n
    ensures forall p: nat :: p < n ==> p in xs
  {
    if n > 0 {
      if n - 1 in xs {
        FullSet(xs - {n - 1}, n - 1);
      } else {
        CardinalUpTo(xs, n - 1);
      }
    }
  }

  lemma {:induction false} SizeIsFixed(size: nat, es: seq<Event>)
    requires IsRun(size, es)
    ensures After(size, es).size == size
    decreases |es|
  {
    if es != [] {
      var init, e := es[..|es| - 1], es[|es| - 1];
      SizeIsFixed(size, init);
      StepKeepsSize(After(size, init), e);
    }
  }

  lemma StepKeepsSize(s: Pool, e: Event)
    requires Enabled(s, e)
    ensures Step(s, e).size == s.size
  {
    match e
    case Enqueue(execute, ms) =>
      DispatchOnlySends(s.(nextId := s.nextId + 1, queue := s.queue + [Job(s.nextId, execute, ms, 0)]));
    case Ready(p) => DispatchOnlySends(MarkReady(s, p));
    case Reply(p, id, recycle) =>
      if id in s.pending { DispatchOnlySends(Answer(s, p, id)); }
    case _ =>
  }
}
