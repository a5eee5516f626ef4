/** The state of scripts/compiler-pool.ts and what each of its event handlers does to it.

    JavaScript runs one handler at a time, so an execution of the pool is a sequence of events, each handled
    atomically. A `ForkState` object is created once and never moves, so its index in `forks` is its identity.
    Everything outside the class is part of the state too: armed timers, the listeners attached to each child
    process, the messages sent, the promises settled, the processes signalled. */
module PoolModel {
  import opened Wrappers

  const MAX_WORKER_CRASH_RETRIES: nat := 1

  /** A `QueueItem`: `execute` and `timeoutMs` are the parts of its payload the pool itself looks at. */
  datatype Job = Job(id: nat, execute: bool, timeoutMs: nat, crashRetries: nat)

  datatype Active = Active(job: Job, timer: nat)

  /** A `ForkState`; processes are named by the order in which they were forked. */
  datatype Fork = Fork(proc: nat, ready: bool, busy: bool, active: Option<Active>)

  /** A `PendingJob`: its `resolve` closure captures the job and the timer it clears. */
  datatype Pending = Pending(job: Job, timer: nat)

  /** A `setTimeout` callback: it captures the fork and the job it was armed for. */
  datatype Alarm = Alarm(fork: nat, job: Job)

  /** The listeners of one process: they capture a fork and `countInitialReady`. */
  datatype Handler = Handler(fork: nat, countInitialReady: bool)

  datatype Outcome =
    | Answered(proc: nat)
    | TimedOut(execute: bool, timeoutMs: nat)
    | WorkerDied(execute: bool)

  /** One call of a job's `resolve`. */
  datatype Resolution = Resolution(id: nat, outcome: Outcome)

  /** One `proc.send`. */
  datatype Sent = Sent(proc: nat, id: nat)

  datatype Pool = Pool(
    size: nat,
    forks: seq<Fork>,
    pending: map<nat, Pending>,
    queue: seq<Job>,
    nextId: nat,
    readyResolve: Option<nat>,
    readyCount: nat,
    shuttingDown: bool,
    // Outside the class.
    timers: map<nat, Alarm>,
    nextTimer: nat,
    handlers: map<nat, Handler>,
    nextProc: nat,
    readied: set<nat>,
    killed: set<nat>,
    sends: seq<Sent>,
    resolutions: seq<Resolution>,
    readyAsks: nat,
    readyDone: set<nat>)

  function Initial(size: nat): (s: Pool) {
    Pool(size,
         seq(size, i requires 0 <= i < size => Fork(i, false, false, None)),
         map[], [], 0, None, 0, false,
         map[], 0,
         map p: nat | 0 <= p < size :: Handler(p, true),
         size, {}, {}, [], [], 0, {})
  }

  /** `forks.find((f) => f.ready && !f.busy)`, as an index; the length when there is none. */
  function FindFree(forks: seq<Fork>): (i: nat)
    ensures i <= |forks|
    ensures i < |forks| ==> forks[i].ready && !forks[i].busy
    ensures forall j :: 0 <= j < i ==> !(forks[j].ready && !forks[j].busy)
  {
    if forks == [] || (forks[0].ready && !forks[0].busy) then 0 else 1 + FindFree(forks[1..])
  }

  function SetFork(s: Pool, i: nat, f: Fork): Pool
    requires i < |s.forks|
  {
    s.(forks := s.forks[i := f])
  }

  /** One iteration of the loop in `dispatch`: the head of the queue goes to fork `i`. */
  function Assign(s: Pool, i: nat): Pool
    requires s.queue != [] && i < |s.forks|
  {
    var job, t := s.queue[0], s.nextTimer;
    s.(queue := s.queue[1..],
       forks := s.forks[i := s.forks[i].(busy := true, active := Some(Active(job, t)))],
       timers := s.timers[t := Alarm(i, job)],
       nextTimer := t + 1,
       pending := s.pending[job.id := Pending(job, t)],
       sends := s.sends + [Sent(s.forks[i].proc, job.id)])
  }

  function Dispatch(s: Pool): Pool
    decreases |s.queue|
  {
    if s.shuttingDown || s.queue == [] then s
    else
      var i := FindFree(s.forks);
      if i == |s.forks| then s else Dispatch(Assign(s, i))
  }

  function Respawn(s: Pool, i: nat): Pool
    requires i < |s.forks|
  {
    if s.shuttingDown then s
    else
      var retired, spawned := s.forks[i].proc, s.nextProc;
      s.(handlers := (s.handlers - {retired})[spawned := Handler(i, false)],
         killed := s.killed + {retired},
         nextProc := spawned + 1,
         forks := s.forks[i := Fork(spawned, false, false, None)])
  }

  function OnEnqueue(s: Pool, execute: bool, timeoutMs: nat): Pool {
    Dispatch(s.(nextId := s.nextId + 1, queue := s.queue + [Job(s.nextId, execute, timeoutMs, 0)]))
  }

  function AskReady(s: Pool): Pool {
    var asked := s.(readyAsks := s.readyAsks + 1);
    if s.readyCount == s.size then asked.(readyDone := s.readyDone + {s.readyAsks})
    else asked.(readyResolve := Some(s.readyAsks))
  }

  function MarkReady(s: Pool, p: nat): Pool
    requires p in s.handlers && s.handlers[p].fork < |s.forks|
  {
    var h := s.handlers[p];
    s.(readied := s.readied + {p},
       forks := s.forks[h.fork := s.forks[h.fork].(ready := true)],
       readyCount := s.readyCount + if h.countInitialReady then 1 else 0)
  }

  function SettleReady(s: Pool): Pool {
    if s.readyCount == s.size && s.readyResolve.Some? then s.(readyDone := s.readyDone + {s.readyResolve.value})
    else s
  }

  function OnReady(s: Pool, p: nat): Pool
    requires p in s.handlers && s.handlers[p].fork < |s.forks|
  {
    if s.shuttingDown then s else SettleReady(Dispatch(MarkReady(s, p)))
  }

  /** The first half of the reply branch: the answered job leaves `pending` and its promise is settled. */
  function Answer(s: Pool, p: nat, id: nat): Pool
    requires p in s.handlers && s.handlers[p].fork < |s.forks| && id in s.pending
  {
    var i, job := s.handlers[p].fork, s.pending[id];
    s.(pending := s.pending - {id},
       forks := s.forks[i := s.forks[i].(active := None, busy := false)],
       timers := s.timers - {job.timer},
       resolutions := s.resolutions + [Resolution(job.job.id, Answered(p))])
  }

  function OnReply(s: Pool, p: nat, id: nat, recycle: bool): Pool
    requires p in s.handlers && s.handlers[p].fork < |s.forks|
  {
    if s.shuttingDown || id !in s.pending then s
    else
      var t := Answer(s, p, id);
      if recycle then Respawn(t, s.handlers[p].fork) else Dispatch(t)
  }

  /** The timeout closure up to and including the SIGKILL. */
  function Expire(s: Pool, t: nat): Pool
    requires t in s.timers && s.timers[t].fork < |s.forks|
  {
    var i, job := s.timers[t].fork, s.timers[t].job;
    s.(timers := s.timers - {t},
       pending := s.pending - {job.id},
       resolutions := s.resolutions + [Resolution(job.id, TimedOut(job.execute, job.timeoutMs))],
       forks := s.forks[i := s.forks[i].(busy := false, ready := false, active := None)],
       killed := s.killed + {s.forks[i].proc})
  }

  function OnTimeout(s: Pool, t: nat): Pool
    requires t in s.timers && s.timers[t].fork < |s.forks|
  {
    Respawn(Expire(s, t), s.timers[t].fork)
  }

  /** `handleForkFailure` up to its `respawnFork`, for a fork that held `active`. */
  function Recover(s: Pool, i: nat, active: Active): Pool
    requires i < |s.forks|
  {
    var job := active.job;
    var t := s.(timers := s.timers - {active.timer}, pending := s.pending - {job.id},
                forks := s.forks[i := s.forks[i].(active := None, busy := false, ready := false)]);
    if job.crashRetries < MAX_WORKER_CRASH_RETRIES then
      t.(queue := [job.(crashRetries := job.crashRetries + 1)] + s.queue)
    else
      t.(resolutions := s.resolutions + [Resolution(job.id, WorkerDied(job.execute))])
  }

  /** `error` and `exit` are handled alike. */
  function OnFailure(s: Pool, p: nat): Pool
    requires p in s.handlers && s.handlers[p].fork < |s.forks|
  {
    var i := s.handlers[p].fork;
    var f := s.forks[i];
    if s.shuttingDown || f.proc != p then s
    else if f.active.Some? then Respawn(Recover(s, i, f.active.value), i)
    else
      var t := SetFork(s, i, f.(active := None, busy := false, ready := false));
      if f.ready then Respawn(t, i) else t
  }

  function OnShutdown(s: Pool): Pool {
    var procs := set i | 0 <= i < |s.forks| :: s.forks[i].proc;
    s.(shuttingDown := true, handlers := s.handlers - procs, killed := s.killed + procs)
  }

  datatype Event =
    | Enqueue(execute: bool, timeoutMs: nat)
    | Ask
    | Ready(proc: nat)
    | Reply(proc: nat, id: nat, recycle: bool)
    | Timeout(timer: nat)
    | Failure(proc: nat)
    | Shutdown

  /** What the outside world may do next. Only an armed timer fires and only a process whose listeners are still
      attached is heard; a process announces itself once and answers only messages it was sent. */
  ghost predicate Enabled(s: Pool, e: Event) {
    match e
    case Enqueue(_, _) => true
    case Ask => true
    case Shutdown => true
    case Ready(p) => p in s.handlers && s.handlers[p].fork < |s.forks| && p !in s.readied
    case Reply(p, id, _) => p in s.handlers && s.handlers[p].fork < |s.forks| && Sent(p, id) in s.sends
    case Timeout(t) => t in s.timers && s.timers[t].fork < |s.forks|
    case Failure(p) => p in s.handlers && s.handlers[p].fork < |s.forks|
  }

  ghost function Step(s: Pool, e: Event): Pool
    requires Enabled(s, e)
  {
    match e
    case Enqueue(execute, ms) => OnEnqueue(s, execute, ms)
    case Ask => AskReady(s)
    case Ready(p) => OnReady(s, p)
    case Reply(p, id, recycle) => OnReply(s, p, id, recycle)
    case Timeout(t) => OnTimeout(s, t)
    case Failure(p) => OnFailure(s, p)
    case Shutdown => OnShutdown(s)
  }

  /** `es` is a possible run of a pool of `size` forks. */
  ghost predicate IsRun(size: nat, es: seq<Event>)
    decreases |es|, 0
  {
    es == [] ||
    (IsRun(size, es[..|es| - 1]) && Enabled(After(size, es[..|es| - 1]), es[|es| - 1]))
  }

  /** The state a run leads to. */
  ghost function After(size: nat, es: seq<Event>): Pool
    requires IsRun(size, es)
    decreases |es|, 1
  {
    if es == [] then Initial(size) else Step(After(size, es[..|es| - 1]), es[|es| - 1])
  }
}
