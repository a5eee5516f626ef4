/** The pool itself: the class of scripts/compiler-pool.ts, its fields updated in place. Each handler is proved to
    do to the fields exactly what the corresponding function of `PoolModel` does to the state, so every theorem
    about runs holds of it. */
module CompilerPoolClass {
  import opened Wrappers
  import opened PoolModel
  import opened PoolInvariant

  lemma DispatchStops(s: Pool)
    requires s.shuttingDown || s.queue == [] || FindFree(s.forks) == |s.forks|
    ensures PoolModel.Dispatch(s) == s
  {
  }

  lemma DispatchGoesOn(s: Pool)
    requires !s.shuttingDown && s.queue != [] && FindFree(s.forks) < |s.forks|
    ensures PoolModel.Dispatch(s) == PoolModel.Dispatch(Assign(s, FindFree(s.forks)))
  {
  }

  ghost function Procs(forks: seq<Fork>, k: nat): set<nat>
    requires k <= |forks|
  {
    set i | 0 <= i < k :: forks[i].proc
  }

  lemma ProcsGrow(forks: seq<Fork>, k: nat)
    requires k < |forks|
    ensures Procs(forks, k + 1) == Procs(forks, k) + {forks[k].proc}
  {
  }

  lemma NoProcs(forks: seq<Fork>)
    ensures Procs(forks, 0) == {}
  {
  }

  lemma AllProcs(now: Pool, before: Pool)
    requires now == before.(shuttingDown := true, handlers := before.handlers - Procs(before.forks, |before.forks|),
                            killed := before.killed + Procs(before.forks, |before.forks|))
    ensures now == OnShutdown(before)
  {
  }

  /** The pool while its constructor forks the workers. */
  ghost function Starting(size: nat, forks: seq<Fork>, handlers: map<nat, Handler>): Pool {
    Pool(size, forks, map[], [], 0, None, 0, false, map[], 0, handlers, |forks|, {}, {}, [], [], 0, {})
  }

  lemma AllStarted(s: Pool)
    requires s == Starting(s.size, s.forks, s.handlers) && |s.forks| == s.size
    requires forall i :: 0 <= i < |s.forks| ==> s.forks[i] == Fork(i, false, false, None)
    requires s.handlers == map p: nat | 0 <= p < s.size :: Handler(p, true)
    ensures s == Initial(s.size)
  {
    assert s.forks == Initial(s.size).forks;
  }

  class CompilerPool {
    const size: nat
    var forks: seq<Fork>
    var pending: map<nat, Pending>
    var queue: seq<Job>
    var nextId: nat
    var readyResolve: Option<nat>
    var readyCount: nat
    var shuttingDown: bool
    // The outside world.
    var timers: map<nat, Alarm>
    var nextTimer: nat
    var handlers: map<nat, Handler>
    var nextProc: nat
    var readied: set<nat>
    var killed: set<nat>
    var sends: seq<Sent>
    var resolutions: seq<Resolution>
    var readyAsks: nat
    var readyDone: set<nat>

    ghost function State(): Pool
      reads this
    {
      Pool(size, forks, pending, queue, nextId, readyResolve, readyCount, shuttingDown,
           timers, nextTimer, handlers, nextProc, readied, killed, sends, resolutions, readyAsks, readyDone)
    }

    ghost predicate Valid()
      reads this
    {
      Inv(State())
    }

    constructor (size: nat)
      ensures State() == Initial(size)
      ensures Valid()
    {
      this.size := size;
      forks, pending, queue, nextId := [], map[], [], 0;
      readyResolve, readyCount, shuttingDown := None, 0, false;
      timers, nextTimer, handlers, nextProc := map[], 0, map[], 0;
      readied, killed, sends, resolutions, readyAsks, readyDone := {}, {}, [], [], 0, {};
      new;
      hide Inv;
      while |forks| < size
        invariant |forks| == nextProc <= size
        invariant forall i :: 0 <= i < |forks| ==> forks[i] == Fork(i, false, false, None)
        invariant handlers == map p: nat | 0 <= p < nextProc :: Handler(p, true)
        invariant State() == Starting(size, forks, handlers)
      {
        handlers := handlers[nextProc := Handler(|forks|, true)];
        forks := forks + [Fork(nextProc, false, false, None)];
        nextProc := nextProc + 1;
      }
      AllStarted(State());
      InitialInv(size);
    }

    /** The body of the loop in `dispatch`. */
    method AssignTo(free: nat)
      requires |queue| > 0 && free < |forks|
      modifies this
      ensures State() == Assign(old(State()), free)
    {
      var job, timer := queue[0], nextTimer;
      queue := queue[1..];
      nextTimer := nextTimer + 1;
      timers := timers[timer := Alarm(free, job)];
      forks := forks[free := forks[free].(busy := true, active := Some(Active(job, timer)))];
      pending := pending[job.id := Pending(job, timer)];
      sends := sends + [Sent(forks[free].proc, job.id)];
    }

    method Dispatch()
      modifies this
      ensures State() == PoolModel.Dispatch(old(State()))
    {
      hide PoolModel.Dispatch, FindFree;
      if shuttingDown {
        DispatchStops(State());
        return;
      }
      while |queue| > 0
        invariant !shuttingDown
        invariant PoolModel.Dispatch(State()) == PoolModel.Dispatch(old(State()))
        decreases |queue|
      {
        var free := FindFree(forks);
        if free == |forks| {
          break;
        }
        DispatchGoesOn(State());
        AssignTo(free);
      }
      DispatchStops(State());
    }

    method RespawnFork(i: nat)
      requires i < |forks|
      modifies this
      ensures State() == Respawn(old(State()), i)
    {
      if shuttingDown {
        return;
      }
      var retired := forks[i].proc;
      handlers := handlers - {retired};
      killed := killed + {retired};
      forks := forks[i := Fork(nextProc, false, false, None)];
      handlers := handlers[nextProc := Handler(i, false)];
      nextProc := nextProc + 1;
    }

    /** `compile` and `runTest` differ only in the payload. */
    method Enqueue(execute: bool, timeoutMs: nat) returns (id: nat)
      requires Valid()
      modifies this
      ensures State() == OnEnqueue(old(State()), execute, timeoutMs)
      ensures id == old(nextId) && Valid()
    {
      hide Inv;
      id := nextId;
      nextId := nextId + 1;
      queue := queue + [Job(id, execute, timeoutMs, 0)];
      EnqueueKeeps(old(State()), execute, timeoutMs);
      DispatchKeeps(State());
      Dispatch();
    }

    method AwaitReady() returns (promise: nat)
      requires Valid()
      modifies this`readyAsks, this`readyDone, this`readyResolve
      ensures State() == AskReady(old(State()))
      ensures promise == old(readyAsks) && Valid()
    {
      promise := readyAsks;
      readyAsks := readyAsks + 1;
      if readyCount == size {
        readyDone := readyDone + {promise};
      } else {
        readyResolve := Some(promise);
      }
      AskKeeps(old(State()));
    }

    method ReadyMessage(p: nat)
      requires Valid() && p in handlers && p !in readied
      modifies this
      ensures old(handlers[p].fork < |forks|)
      ensures State() == OnReady(old(State()), p) && Valid()
    {
      hide Inv;
      ReadyKeeps(State(), p);
      if shuttingDown {
        return;
      }
      var h := handlers[p];
      readied := readied + {p};
      forks := forks[h.fork := forks[h.fork].(ready := true)];
      if h.countInitialReady {
        readyCount := readyCount + 1;
      }
      assert State() == MarkReady(old(State()), p);
      Dispatch();
      if readyCount == size && readyResolve.Some? {
        readyDone := readyDone + {readyResolve.value};
      }
    }

    method ReplyMessage(p: nat, id: nat, recycle: bool)
      requires Valid() && p in handlers && Sent(p, id) in sends
      modifies this
      ensures old(handlers[p].fork < |forks|)
      ensures State() == OnReply(old(State()), p, id, recycle) && Valid()
    {
      hide Inv;
      ReplyKeeps(State(), p, id, recycle);
      if shuttingDown || id !in pending {
        return;
      }
      var i, job := handlers[p].fork, pending[id];
      pending := pending - {id};
      forks := forks[i := forks[i].(active := None, busy := false)];
      timers := timers - {job.timer};
      resolutions := resolutions + [Resolution(job.job.id, Answered(p))];
      assert State() == Answer(old(State()), p, id);
      if recycle {
        RespawnFork(i);
      } else {
        Dispatch();
      }
    }

    method TimerFires(t: nat)
      requires Valid() && t in timers
      modifies this
      ensures old(timers[t].fork < |forks|)
      ensures State() == OnTimeout(old(State()), t) && Valid()
    {
      hide Inv;
      TimeoutKeeps(State(), t);
      var i, job := timers[t].fork, timers[t].job;
      timers := timers - {t};
      pending := pending - {job.id};
      resolutions := resolutions + [Resolution(job.id, TimedOut(job.execute, job.timeoutMs))];
      forks := forks[i := forks[i].(busy := false, ready := false, active := None)];
      killed := killed + {forks[i].proc};
      assert State() == Expire(old(State()), t);
      RespawnFork(i);
    }

    method HandleForkFailure(p: nat)
      requires Valid() && p in handlers
      modifies this
      ensures old(handlers[p].fork < |forks|)
      ensures State() == OnFailure(old(State()), p) && Valid()
    {
      hide Inv;
      FailureKeeps(State(), p);
      var i := handlers[p].fork;
      if shuttingDown || forks[i].proc != p {
        return;
      }
      var active, wasReady := forks[i].active, forks[i].ready;
      forks := forks[i := forks[i].(active := None, busy := false, ready := false)];
      if active.None? && !wasReady {
        return;
      }
      if active.Some? {
        GiveUp(active.value);
        assert State() == Recover(old(State()), i, active.value);
      }
      hide Recover;
      RespawnFork(i);
    }

    /** The interrupted job of a failed worker goes back to the front of the queue once; the second time it is given up. */
    method GiveUp(active: Active)
      modifies this`timers, this`pending, this`queue, this`resolutions
      ensures timers == old(timers) - {active.timer} && pending == old(pending) - {active.job.id}
      ensures if active.job.crashRetries < MAX_WORKER_CRASH_RETRIES
              then queue == [active.job.(crashRetries := active.job.crashRetries + 1)] + old(queue)
                   && resolutions == old(resolutions)
              else queue == old(queue)
                   && resolutions == old(resolutions) + [Resolution(active.job.id, WorkerDied(active.job.execute))]
    {
      var job := active.job;
      timers := timers - {active.timer};
      pending := pending - {job.id};
      if job.crashRetries < MAX_WORKER_CRASH_RETRIES {
        queue := [job.(crashRetries := job.crashRetries + 1)] + queue;
      } else {
        resolutions := resolutions + [Resolution(job.id, WorkerDied(job.execute))];
      }
    }

    method ShutDown()
      requires Valid()
      modifies this`shuttingDown, this`handlers, this`killed
      ensures State() == OnShutdown(old(State())) && Valid()
    {
      hide Inv, Procs;
      ShutdownKeeps(State());
      shuttingDown := true;
      NoProcs(forks);
      var k := 0;
      while k < |forks|
        invariant 0 <= k <= |forks|
        invariant shuttingDown
        invariant handlers == old(handlers) - Procs(forks, k)
        invariant killed == old(killed) + Procs(forks, k)
      {
        ProcsGrow(forks, k);
        handlers := handlers - {forks[k].proc};
        killed := killed + {forks[k].proc};
        k := k + 1;
      }
      AllProcs(State(), old(State()));
    }
  }
}
