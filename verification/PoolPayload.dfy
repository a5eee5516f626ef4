/** What a job carries through the pool: the `execute` flag and the timeout it was enqueued with decide how its promise is
    settled if the worker times out or dies. */
module PoolPayload {
  import opened Wrappers
  import opened PoolModel
  import opened PoolInvariant
  import opened PoolTheorems

  /** The enqueue events of a run, in order: the k-th one makes job k. */
  ghost function Enqueued(es: seq<Event>): seq<Event> {
    if es == [] then []
    else
      var init, e := Enqueued(es[..|es| - 1]), es[|es| - 1];
      if e.Enqueue? then init + [e] else init
  }

  /** The job is what the event with its number asked for. */
  ghost predicate AsAsked(job: Job, asked: seq<Event>) {
    job.id < |asked| && asked[job.id] == Enqueue(job.execute, job.timeoutMs)
  }

  /** A verdict of the pool itself says what the job's caller expects: which shape of answer, and for a timeout how long. */
  ghost predicate VerdictAsAsked(r: Resolution, asked: seq<Event>) {
    match r.outcome
    case Answered(_) => true
    case TimedOut(execute, ms) => r.id < |asked| && asked[r.id] == Enqueue(execute, ms)
    case WorkerDied(execute) => r.id < |asked| && asked[r.id].Enqueue? && asked[r.id].execute == execute
  }

  ghost predicate QueueAsAsked(q: seq<Job>, asked: seq<Event>) {
    forall j :: 0 <= j < |q| ==> AsAsked(q[j], asked)
  }

  ghost predicate ForksAsAsked(forks: seq<Fork>, asked: seq<Event>) {
    forall i :: 0 <= i < |forks| && forks[i].active.Some? ==> AsAsked(forks[i].active.value.job, asked)
  }

  ghost predicate PendingAsAsked(pending: map<nat, Pending>, asked: seq<Event>) {
    forall id :: id in pending ==> AsAsked(pending[id].job, asked)
  }

  ghost predicate TimersAsAsked(timers: map<nat, Alarm>, asked: seq<Event>) {
    forall t :: t in timers ==> AsAsked(timers[t].job, asked)
  }

  ghost predicate VerdictsAsAsked(rs: seq<Resolution>, asked: seq<Event>) {
    forall j :: 0 <= j < |rs| ==> VerdictAsAsked(rs[j], asked)
  }

  /** Wherever a job is, it is what was asked for, and so are the verdicts given. */
  ghost predicate AllAsAsked(s: Pool, asked: seq<Event>) {
    && QueueAsAsked(s.queue, asked) && ForksAsAsked(s.forks, asked) && PendingAsAsked(s.pending, asked)
    && TimersAsAsked(s.timers, asked) && VerdictsAsAsked(s.resolutions, asked)
  }

  // ---- Each handler ----

  lemma AssignKeepsAsked(s: Pool, i: nat, asked: seq<Event>)
    requires AllAsAsked(s, asked) && s.queue != [] && i < |s.forks|
    ensures AllAsAsked(Assign(s, i), asked)
  {
    hide AsAsked, VerdictAsAsked;
    assert forall j :: 0 <= j < |s.queue[1..]| ==> s.queue[1..][j] == s.queue[j + 1];
  }

  lemma {:induction false} DispatchKeepsAsked(s: Pool, asked: seq<Event>)
    requires AllAsAsked(s, asked)
    ensures AllAsAsked(Dispatch(s), asked)
    decreases |s.queue|
  {
    hide AllAsAsked;
    if !s.shuttingDown && s.queue != [] {
      var i := FindFree(s.forks);
      if i < |s.forks| {
        AssignKeepsAsked(s, i, asked);
        DispatchKeepsAsked(Assign(s, i), asked);
      }
    }
  }

  lemma RespawnKeepsAsked(s: Pool, i: nat, asked: seq<Event>)
    requires AllAsAsked(s, asked) && i < |s.forks|
    ensures AllAsAsked(Respawn(s, i), asked)
  {
    hide AsAsked, VerdictAsAsked;
  }

  lemma EnqueueKeepsAsked(s: Pool, execute: bool, ms: nat, asked: seq<Event>)
    requires AllAsAsked(s, asked) && s.nextId == |asked|
    ensures AllAsAsked(OnEnqueue(s, execute, ms), asked + [Enqueue(execute, ms)])
  {
    var x, more := Job(s.nextId, execute, ms, 0), asked + [Enqueue(execute, ms)];
    assert AsAsked(x, more);
    MoreAsked(s, asked, Enqueue(execute, ms));
    hide AsAsked, VerdictAsAsked;
    DispatchKeepsAsked(s.(nextId := s.nextId + 1, queue := s.queue + [x]), more);
  }

  lemma MoreAsked(s: Pool, asked: seq<Event>, e: Event)
    requires AllAsAsked(s, asked)
    ensures AllAsAsked(s, asked + [e])
  {
    assert forall k :: 0 <= k < |asked| ==> (asked + [e])[k] == asked[k];
  }

  lemma ReadyKeepsAsked(s: Pool, p: nat, asked: seq<Event>)
    requires AllAsAsked(s, asked) && p in s.handlers && s.handlers[p].fork < |s.forks|
    ensures AllAsAsked(OnReady(s, p), asked)
  {
    hide AsAsked, VerdictAsAsked;
    DispatchKeepsAsked(MarkReady(s, p), asked);
  }

  lemma ReplyKeepsAsked(s: Pool, p: nat, id: nat, recycle: bool, asked: seq<Event>)
    requires AllAsAsked(s, asked) && p in s.handlers && s.handlers[p].fork < |s.forks|
    ensures AllAsAsked(OnReply(s, p, id, recycle), asked)
  {
    if !s.shuttingDown && id in s.pending {
      var t := Answer(s, p, id);
      assert VerdictAsAsked(Resolution(s.pending[id].job.id, Answered(p)), asked);
      hide AsAsked, VerdictAsAsked;
      assert AllAsAsked(t, asked);
      DispatchKeepsAsked(t, asked);
      RespawnKeepsAsked(t, s.handlers[p].fork, asked);
    }
  }

  lemma TimeoutKeepsAsked(s: Pool, t: nat, asked: seq<Event>)
    requires AllAsAsked(s, asked) && t in s.timers && s.timers[t].fork < |s.forks|
    ensures AllAsAsked(OnTimeout(s, t), asked)
  {
    var job := s.timers[t].job;
    assert VerdictAsAsked(Resolution(job.id, TimedOut(job.execute, job.timeoutMs)), asked);
    hide AsAsked, VerdictAsAsked;
    assert AllAsAsked(Expire(s, t), asked);
    RespawnKeepsAsked(Expire(s, t), s.timers[t].fork, asked);
  }

  lemma FailureKeepsAsked(s: Pool, p: nat, asked: seq<Event>)
    requires AllAsAsked(s, asked) && p in s.handlers && s.handlers[p].fork < |s.forks|
    ensures AllAsAsked(OnFailure(s, p), asked)
  {
    var i := s.handlers[p].fork;
    var f := s.forks[i];
    if f.active.Some? {
      var job := f.active.value.job;
      assert AsAsked(job.(crashRetries := job.crashRetries + 1), asked);
      assert VerdictAsAsked(Resolution(job.id, WorkerDied(job.execute)), asked);
      hide AsAsked, VerdictAsAsked;
      assert AllAsAsked(Recover(s, i, f.active.value), asked);
      RespawnKeepsAsked(Recover(s, i, f.active.value), i, asked);
    } else {
      hide AsAsked, VerdictAsAsked;
      var t := SetFork(s, i, f.(active := None, busy := false, ready := false));
      assert AllAsAsked(t, asked);
      RespawnKeepsAsked(t, i, asked);
    }
  }

  // ---- Every run ----

  lemma NextIdGrows(s: Pool, e: Event)
    requires Enabled(s, e)
    ensures Step(s, e).nextId == s.nextId + if e.Enqueue? then 1 else 0
  {
    match e
    case Enqueue(execute, ms) =>
      DispatchOnlySends(s.(nextId := s.nextId + 1, queue := s.queue + [Job(s.nextId, execute, ms, 0)]));
    case Ready(p) => DispatchOnlySends(MarkReady(s, p));
    case Reply(p, id, recycle) =>
      if id in s.pending { DispatchOnlySends(Answer(s, p, id)); }
    case _ =>
  }

  lemma StepKeepsAsked(s: Pool, e: Event, asked: seq<Event>)
    requires Enabled(s, e) && AllAsAsked(s, asked) && s.nextId == |asked|
    ensures AllAsAsked(Step(s, e), if e.Enqueue? then asked + [e] else asked)
  {
    hide OnEnqueue, OnReady, OnReply, OnTimeout, OnFailure;
    match e
    case Enqueue(execute, ms) => EnqueueKeepsAsked(s, execute, ms, asked);
    case Ready(p) => ReadyKeepsAsked(s, p, asked);
    case Reply(p, id, recycle) => ReplyKeepsAsked(s, p, id, recycle, asked);
    case Timeout(t) => TimeoutKeepsAsked(s, t, asked);
    case Failure(p) => FailureKeepsAsked(s, p, asked);
    case _ =>
  }

  /** In every run, every job, waiting, active, pending or under a timer, has the flag and the timeout of the enqueue event
      with its number, and every timeout or crash verdict given for it carries exactly those. */
  lemma {:induction false} JobsAreAsAsked(size: nat, es: seq<Event>)
    requires IsRun(size, es)
    ensures After(size, es).nextId == |Enqueued(es)| && AllAsAsked(After(size, es), Enqueued(es))
    decreases |es|
  {
    hide AllAsAsked, Enabled, Step;
    if es == [] {
      NothingAsked(size);
    } else {
      var init, e := es[..|es| - 1], es[|es| - 1];
      JobsAreAsAsked(size, init);
      NextIdGrows(After(size, init), e);
      StepKeepsAsked(After(size, init), e, Enqueued(init));
    }
  }

  lemma NothingAsked(size: nat)
    ensures Initial(size).nextId == 0 && AllAsAsked(Initial(size), [])
  {
  }
}
