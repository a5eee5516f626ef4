/** What every reachable state of the pool satisfies, and the proof that each handler keeps it. The predicates
    range over the parts of the state they are about, so that a change elsewhere leaves them alone. */
module PoolInvariant {
  import opened Wrappers
  import opened PoolModel

  // ---- One place per job ----

  ghost function JobIds(q: seq<Job>): seq<nat> {
    seq(|q|, j requires 0 <= j < |q| => q[j].id)
  }

  ghost function ResolvedIds(rs: seq<Resolution>): seq<nat> {
    seq(|rs|, j requires 0 <= j < |rs| => rs[j].id)
  }

  /** How often each job id occurs among the waiting, the running and the settled jobs. */
  ghost function Census(queue: seq<Job>, running: set<nat>, settled: seq<Resolution>): multiset<nat> {
    multiset(JobIds(queue)) + multiset(running) + multiset(ResolvedIds(settled))
  }

  ghost predicate OnePlacePerJob(queue: seq<Job>, running: set<nat>, settled: seq<Resolution>, nextId: nat) {
    forall id: nat :: Census(queue, running, settled)[id] == if id < nextId then 1 else 0
  }

  // ---- Pending jobs, active jobs and timers are in step ----

  ghost predicate ForkOk(f: Fork) {
    (f.busy <==> f.active.Some?) && (f.busy ==> f.ready)
  }

  ghost predicate ActiveOk(i: nat, a: Active, pending: map<nat, Pending>, timers: map<nat, Alarm>) {
    && a.job.id in pending && pending[a.job.id] == Pending(a.job, a.timer)
    && a.timer in timers && timers[a.timer] == Alarm(i, a.job)
  }

  ghost predicate Linked(forks: seq<Fork>, pending: map<nat, Pending>, timers: map<nat, Alarm>) {
    && (forall i :: 0 <= i < |forks| ==> ForkOk(forks[i]))
    && (forall i :: 0 <= i < |forks| && forks[i].active.Some? ==>
          ActiveOk(i, forks[i].active.value, pending, timers))
    && (forall id :: id in pending ==>
          && pending[id].job.id == id
          && pending[id].timer in timers
          && timers[pending[id].timer].job == pending[id].job)
    && (forall t :: t in timers ==>
          timers[t].fork < |forks| && forks[timers[t].fork].active == Some(Active(timers[t].job, t)))
  }

  // ---- Listeners and processes ----

  ghost predicate Attached(size: nat, forks: seq<Fork>, handlers: map<nat, Handler>, nextProc: nat, down: bool) {
    && |forks| == size <= nextProc
    && (forall i :: 0 <= i < |forks| ==> forks[i].proc < nextProc)
    && (forall p :: p in handlers ==>
          && handlers[p].fork < |forks|
          && forks[handlers[p].fork].proc == p
          && (handlers[p].countInitialReady <==> p < size))
    && (if down then handlers == map[]
        else forall i :: 0 <= i < |forks| ==> forks[i].proc in handlers && handlers[forks[i].proc].fork == i)
  }

  /** Every process ever forked is still heard or has been signalled. */
  ghost predicate NoneLeaked(nextProc: nat, handlers: map<nat, Handler>, killed: set<nat>) {
    forall p: nat :: p < nextProc ==> p in handlers || p in killed
  }

  ghost predicate ReadyCounted(s: Pool) {
    && s.readied <= (set p: nat {:trigger p in s.readied} | 0 <= p < s.nextProc)
    && s.readyCount == |set p | p in s.readied && p < s.size|
    && (s.readyDone != {} ==> s.readyCount == s.size)
    && (forall r :: r in s.readyDone ==> r < s.readyAsks)
    && (s.readyResolve.Some? ==> s.readyResolve.value < s.readyAsks)
  }

  // ---- Order and number of dispatches ----

  ghost function SentIds(ss: seq<Sent>): seq<nat> {
    seq(|ss|, j requires 0 <= j < |ss| => ss[j].id)
  }

  /** The distinct elements of `xs`, in the order in which each first occurs. */
  ghost function FirstOccurrences(xs: seq<nat>): seq<nat> {
    if xs == [] then []
    else
      var init, x := xs[..|xs| - 1], xs[|xs| - 1];
      if x in init then FirstOccurrences(init) else FirstOccurrences(init) + [x]
  }

  ghost function UpTo(n: nat): seq<nat> {
    seq(n, i requires 0 <= i < n => i)
  }

  /** How many jobs of `q` no worker has been given yet. */
  ghost function Unsent(q: seq<Job>): nat {
    if q == [] then 0 else (if q[0].crashRetries == 0 then 1 else 0) + Unsent(q[1..])
  }

  /** Crash-retried jobs first, then exactly the never-dispatched ids in increasing order. */
  ghost predicate QueueShape(q: seq<Job>, nextId: nat) {
    && (forall j :: 0 <= j < |q| ==> q[j].crashRetries <= 1)
    && (forall i, j :: 0 <= i < j < |q| && q[i].crashRetries == 0 ==> q[j].crashRetries == 0)
    && (forall j :: 0 <= j < |q| && q[j].crashRetries == 0 ==> q[j].id == nextId - (|q| - j))
  }

  ghost predicate InIdOrder(q: seq<Job>, sends: seq<Sent>, nextId: nat) {
    && Unsent(q) <= nextId
    && FirstOccurrences(SentIds(sends)) == UpTo(nextId - Unsent(q))
    && (forall k :: 0 <= k < |sends| ==> sends[k].id < nextId)
  }

  ghost function SendCount(sends: seq<Sent>, id: nat): nat {
    multiset(SentIds(sends))[id]
  }

  ghost predicate QueueCounts(q: seq<Job>, sends: seq<Sent>) {
    forall j :: 0 <= j < |q| ==> SendCount(sends, q[j].id) == q[j].crashRetries
  }

  ghost predicate ForkCounts(forks: seq<Fork>, sends: seq<Sent>) {
    forall i :: 0 <= i < |forks| && forks[i].active.Some? ==>
      && forks[i].active.value.job.crashRetries <= 1
      && SendCount(sends, forks[i].active.value.job.id) == forks[i].active.value.job.crashRetries + 1
  }

  ghost predicate AtMostTwice(sends: seq<Sent>) {
    forall id: nat :: SendCount(sends, id) <= 2
  }

  /** Whatever was sent to a process that is still heard is settled, or is what its fork is running. */
  ghost predicate SentOk(x: Sent, handlers: map<nat, Handler>, forks: seq<Fork>, rs: seq<Resolution>) {
    x.proc in handlers && handlers[x.proc].fork < |forks| ==>
      var f := forks[handlers[x.proc].fork];
      (f.active.Some? && f.active.value.job.id == x.id) || x.id in ResolvedIds(rs)
  }

  ghost predicate SentToFork(sends: seq<Sent>, handlers: map<nat, Handler>, forks: seq<Fork>,
                             rs: seq<Resolution>, nextProc: nat) {
    forall k :: 0 <= k < |sends| ==> sends[k].proc < nextProc && SentOk(sends[k], handlers, forks, rs)
  }

  ghost predicate Core(s: Pool) {
    && OnePlacePerJob(s.queue, s.pending.Keys, s.resolutions, s.nextId)
    && Linked(s.forks, s.pending, s.timers)
    && (forall t :: t in s.timers ==> t < s.nextTimer)
    && Attached(s.size, s.forks, s.handlers, s.nextProc, s.shuttingDown)
    && NoneLeaked(s.nextProc, s.handlers, s.killed)
    && ReadyCounted(s)
    && QueueShape(s.queue, s.nextId)
    && InIdOrder(s.queue, s.sends, s.nextId)
    && QueueCounts(s.queue, s.sends)
    && ForkCounts(s.forks, s.sends)
    && AtMostTwice(s.sends)
  }

  ghost predicate Inv(s: Pool) {
    Core(s) && SentToFork(s.sends, s.handlers, s.forks, s.resolutions, s.nextProc)
  }

  // ---- Census ----

  lemma CensusSnoc(q: seq<Job>, x: Job, running: set<nat>, rs: seq<Resolution>)
    ensures Census(q + [x], running, rs) == Census(q, running, rs) + multiset{x.id}
  {
    assert JobIds(q + [x]) == JobIds(q) + [x.id];
  }

  lemma CensusCons(x: Job, q: seq<Job>, running: set<nat>, rs: seq<Resolution>)
    ensures Census([x] + q, running, rs) == Census(q, running, rs) + multiset{x.id}
  {
    assert JobIds([x] + q) == [x.id] + JobIds(q);
  }

  lemma CensusRun(q: seq<Job>, running: set<nat>, rs: seq<Resolution>, id: nat)
    requires id !in running
    ensures Census(q, running + {id}, rs) == Census(q, running, rs) + multiset{id}
  {
    assert multiset(running + {id}) == multiset(running) + multiset{id};
  }

  lemma CensusStop(q: seq<Job>, running: set<nat>, rs: seq<Resolution>, id: nat)
    requires id in running
    ensures Census(q, running, rs) == Census(q, running - {id}, rs) + multiset{id}
  {
    CensusRun(q, running - {id}, rs, id);
    assert running - {id} + {id} == running;
  }

  lemma CensusSettle(q: seq<Job>, running: set<nat>, rs: seq<Resolution>, r: Resolution)
    ensures Census(q, running, rs + [r]) == Census(q, running, rs) + multiset{r.id}
  {
    assert ResolvedIds(rs + [r]) == ResolvedIds(rs) + [r.id];
  }

  lemma CensusParts(q: seq<Job>, running: set<nat>, rs: seq<Resolution>, id: nat)
    ensures Census(q, running, rs)[id] ==
            multiset(JobIds(q))[id] + (if id in running then 1 else 0) + multiset(ResolvedIds(rs))[id]
    ensures id in JobIds(q) <==> multiset(JobIds(q))[id] > 0
    ensures id in ResolvedIds(rs) <==> multiset(ResolvedIds(rs))[id] > 0
  {
  }

  lemma RepeatCount(xs: seq<nat>, i: nat, j: nat)
    requires i < j < |xs| && xs[i] == xs[j]
    ensures multiset(xs)[xs[i]] >= 2
  {
    assert xs == xs[..j] + xs[j..];
    assert xs[..j][i] == xs[i] && xs[j..][0] == xs[j];
  }

  lemma QueuedOnce(q: seq<Job>, running: set<nat>, rs: seq<Resolution>, nextId: nat, j: nat)
    requires OnePlacePerJob(q, running, rs, nextId) && j < |q|
    ensures q[j].id < nextId && q[j].id !in running && q[j].id !in ResolvedIds(rs)
    ensures forall k :: 0 <= k < |q| && k != j ==> q[k].id != q[j].id
  {
    CensusParts(q, running, rs, q[j].id);
    assert JobIds(q)[j] == q[j].id;
    forall k | 0 <= k < |q| && q[k].id == q[j].id ensures k == j {
      if k < j { RepeatCount(JobIds(q), k, j); }
      if j < k { RepeatCount(JobIds(q), j, k); }
    }
  }

  lemma RunningOnce(q: seq<Job>, running: set<nat>, rs: seq<Resolution>, nextId: nat, id: nat)
    requires OnePlacePerJob(q, running, rs, nextId) && id in running
    ensures id < nextId && id !in JobIds(q) && id !in ResolvedIds(rs)
  {
    CensusParts(q, running, rs, id);
  }

  // ---- Queue ----

  lemma {:induction false} UnsentAll(q: seq<Job>)
    requires forall j :: 0 <= j < |q| ==> q[j].crashRetries == 0
    ensures Unsent(q) == |q|
  {
    if q != [] {
      UnsentAll(q[1..]);
    }
  }

  lemma {:induction false} UnsentSnoc(q: seq<Job>, x: Job)
    ensures Unsent(q + [x]) == Unsent(q) + if x.crashRetries == 0 then 1 else 0
  {
    if q == [] {
      assert q + [x] == [x];
    } else {
      assert (q + [x])[1..] == q[1..] + [x];
      UnsentSnoc(q[1..], x);
    }
  }

  lemma SendOne(ss: seq<Sent>, x: Sent, id: nat)
    ensures SentIds(ss + [x]) == SentIds(ss) + [x.id]
    ensures SendCount(ss + [x], id) == SendCount(ss, id) + if id == x.id then 1 else 0
  {
    assert SentIds(ss + [x]) == SentIds(ss) + [x.id];
  }

  lemma NeverSent(sends: seq<Sent>, nextId: nat)
    requires forall k :: 0 <= k < |sends| ==> sends[k].id < nextId
    ensures SendCount(sends, nextId) == 0
  {
    assert forall k :: 0 <= k < |sends| ==> SentIds(sends)[k] == sends[k].id != nextId;
  }

  // ---- enqueue ----

  lemma EnqueueOrder(q: seq<Job>, sends: seq<Sent>, nextId: nat, x: Job)
    requires QueueShape(q, nextId) && InIdOrder(q, sends, nextId) && QueueCounts(q, sends)
    requires x.id == nextId && x.crashRetries == 0
    ensures QueueShape(q + [x], nextId + 1)
    ensures InIdOrder(q + [x], sends, nextId + 1)
    ensures QueueCounts(q + [x], sends)
  {
    UnsentSnoc(q, x);
    NeverSent(sends, nextId);
  }

  lemma EnqueueCensus(q: seq<Job>, running: set<nat>, rs: seq<Resolution>, nextId: nat, x: Job)
    requires OnePlacePerJob(q, running, rs, nextId) && x.id == nextId
    ensures OnePlacePerJob(q + [x], running, rs, nextId + 1)
  {
    CensusSnoc(q, x, running, rs);
  }

  lemma EnqueueKeeps(s: Pool, execute: bool, ms: nat)
    requires Inv(s)
    ensures Inv(s.(nextId := s.nextId + 1, queue := s.queue + [Job(s.nextId, execute, ms, 0)]))
  {
    hide OnePlacePerJob, QueueShape, InIdOrder, QueueCounts, Linked, SentToFork;
    var x := Job(s.nextId, execute, ms, 0);
    EnqueueCensus(s.queue, s.pending.Keys, s.resolutions, s.nextId, x);
    EnqueueOrder(s.queue, s.sends, s.nextId, x);
  }

  // ---- dispatch ----

  lemma SentBeforeMeansCounted(sends: seq<Sent>, id: nat)
    ensures id in SentIds(sends) <==> SendCount(sends, id) > 0
  {
  }

  lemma FirstSend(ids: seq<nat>, id: nat)
    ensures FirstOccurrences(ids + [id]) == if id in ids then FirstOccurrences(ids) else FirstOccurrences(ids) + [id]
  {
    assert (ids + [id])[..|ids|] == ids;
  }

  lemma UnsentHead(q: seq<Job>, nextId: nat)
    requires QueueShape(q, nextId) && q != []
    ensures Unsent(q[1..]) == Unsent(q) - if q[0].crashRetries == 0 then 1 else 0
    ensures q[0].crashRetries == 0 ==> q[0].id == nextId - Unsent(q)
  {
    if q[0].crashRetries == 0 {
      UnsentAll(q);
    }
  }

  lemma AssignOrder(q: seq<Job>, sends: seq<Sent>, nextId: nat, proc: nat)
    requires QueueShape(q, nextId) && InIdOrder(q, sends, nextId) && QueueCounts(q, sends) && q != []
    requires q[0].id < nextId
    ensures InIdOrder(q[1..], sends + [Sent(proc, q[0].id)], nextId)
  {
    var id := q[0].id;
    UnsentHead(q, nextId);
    assert SendCount(sends, id) == q[0].crashRetries;
    hide QueueShape, QueueCounts, Unsent, FirstOccurrences, SendCount, SentIds;
    SendOne(sends, Sent(proc, id), id);
    SentBeforeMeansCounted(sends, id);
    FirstSend(SentIds(sends), id);
    UpToNext(id);
    hide UpTo;
  }

  lemma UpToNext(n: nat)
    ensures UpTo(n) + [n] == UpTo(n + 1)
  {
  }

  lemma AssignCounts(q: seq<Job>, forks: seq<Fork>, sends: seq<Sent>, i: nat, t: nat)
    requires QueueCounts(q, sends) && ForkCounts(forks, sends) && AtMostTwice(sends) && q != [] && i < |forks|
    requires q[0].crashRetries <= 1
    requires forall k :: 0 < k < |q| ==> q[k].id != q[0].id
    requires forall k :: 0 <= k < |forks| && forks[k].active.Some? ==> forks[k].active.value.job.id != q[0].id
    ensures var sends' := sends + [Sent(forks[i].proc, q[0].id)];
            && QueueCounts(q[1..], sends')
            && ForkCounts(forks[i := forks[i].(busy := true, active := Some(Active(q[0], t)))], sends')
            && AtMostTwice(sends')
  {
    var x := Sent(forks[i].proc, q[0].id);
    forall id: nat ensures SendCount(sends + [x], id) == SendCount(sends, id) + if id == x.id then 1 else 0 {
      SendOne(sends, x, id);
    }
    assert SendCount(sends, q[0].id) == q[0].crashRetries;
    forall j | 0 <= j < |q[1..]| ensures SendCount(sends + [x], q[1..][j].id) == q[1..][j].crashRetries {
      assert q[1..][j] == q[j + 1];
    }
  }

  lemma AssignLinks(forks: seq<Fork>, pending: map<nat, Pending>, timers: map<nat, Alarm>, i: nat, job: Job, t: nat)
    requires Linked(forks, pending, timers) && i < |forks| && forks[i].ready && !forks[i].busy
    requires job.id !in pending && t !in timers
    ensures Linked(forks[i := forks[i].(busy := true, active := Some(Active(job, t)))],
                   pending[job.id := Pending(job, t)], timers[t := Alarm(i, job)])
  {
    var forks' := forks[i := forks[i].(busy := true, active := Some(Active(job, t)))];
    var pending', timers' := pending[job.id := Pending(job, t)], timers[t := Alarm(i, job)];
    assert ForkOk(forks[i]);
    forall k | 0 <= k < |forks'| && forks'[k].active.Some?
      ensures ActiveOk(k, forks'[k].active.value, pending', timers')
    {
      if k != i {
        assert ActiveOk(k, forks[k].active.value, pending, timers);
      }
    }
  }

  lemma AssignSent(s: Pool, i: nat)
    requires SentToFork(s.sends, s.handlers, s.forks, s.resolutions, s.nextProc) && s.queue != [] && i < |s.forks|
    requires Attached(s.size, s.forks, s.handlers, s.nextProc, s.shuttingDown)
    requires s.forks[i].active.None?
    ensures var s' := Assign(s, i); SentToFork(s'.sends, s'.handlers, s'.forks, s'.resolutions, s'.nextProc)
  {
    var s' := Assign(s, i);
    forall k | 0 <= k < |s'.sends|
      ensures s'.sends[k].proc < s'.nextProc && SentOk(s'.sends[k], s'.handlers, s'.forks, s'.resolutions)
    {
      if k < |s.sends| {
        assert SentOk(s.sends[k], s.handlers, s.forks, s.resolutions);
      }
    }
  }

  lemma AssignCensus(q: seq<Job>, running: set<nat>, rs: seq<Resolution>, nextId: nat)
    requires OnePlacePerJob(q, running, rs, nextId) && q != []
    ensures OnePlacePerJob(q[1..], running + {q[0].id}, rs, nextId)
  {
    QueuedOnce(q, running, rs, nextId, 0);
    assert q == [q[0]] + q[1..];
    CensusCons(q[0], q[1..], running, rs);
    CensusRun(q[1..], running, rs, q[0].id);
  }

  lemma WaitingIsNotActive(forks: seq<Fork>, pending: map<nat, Pending>, timers: map<nat, Alarm>, id: nat)
    requires Linked(forks, pending, timers) && id !in pending
    ensures forall k :: 0 <= k < |forks| && forks[k].active.Some? ==> forks[k].active.value.job.id != id
  {
    forall k | 0 <= k < |forks| && forks[k].active.Some?
      ensures forks[k].active.value.job.id != id
    {
      assert ActiveOk(k, forks[k].active.value, pending, timers);
    }
  }

  lemma FreeHasNoJob(forks: seq<Fork>, pending: map<nat, Pending>, timers: map<nat, Alarm>, i: nat)
    requires Linked(forks, pending, timers) && i < |forks| && !forks[i].busy
    ensures forks[i].active.None?
  {
    assert ForkOk(forks[i]);
  }

  lemma ShapeOfRest(q: seq<Job>, nextId: nat)
    requires QueueShape(q, nextId) && q != []
    ensures QueueShape(q[1..], nextId) && q[0].crashRetries <= 1
  {
    assert forall j :: 0 <= j < |q[1..]| ==> q[1..][j] == q[j + 1];
  }

  lemma AttachedWhenBusy(size: nat, forks: seq<Fork>, handlers: map<nat, Handler>, nextProc: nat, down: bool, i: nat, f: Fork)
    requires Attached(size, forks, handlers, nextProc, down) && i < |forks| && f.proc == forks[i].proc
    ensures Attached(size, forks[i := f], handlers, nextProc, down)
  {
  }

  lemma AssignKeeps(s: Pool, i: nat)
    requires Inv(s) && s.queue != [] && i < |s.forks| && s.forks[i].ready && !s.forks[i].busy
    ensures Inv(Assign(s, i))
  {
    hide OnePlacePerJob, InIdOrder, QueueCounts, ForkCounts, AtMostTwice, SentToFork, Linked, Attached, QueueShape;
    var s', job := Assign(s, i), s.queue[0];
    QueuedOnce(s.queue, s.pending.Keys, s.resolutions, s.nextId, 0);
    assert s'.pending.Keys == s.pending.Keys + {job.id};
    AssignCensus(s.queue, s.pending.Keys, s.resolutions, s.nextId);
    FreeHasNoJob(s.forks, s.pending, s.timers, i);
    AssignLinks(s.forks, s.pending, s.timers, i, job, s.nextTimer);
    WaitingIsNotActive(s.forks, s.pending, s.timers, job.id);
    ShapeOfRest(s.queue, s.nextId);
    AttachedWhenBusy(s.size, s.forks, s.handlers, s.nextProc, s.shuttingDown, i, s'.forks[i]);
    AssignCounts(s.queue, s.forks, s.sends, i, s.nextTimer);
    AssignOrder(s.queue, s.sends, s.nextId, s.forks[i].proc);
    AssignSent(s, i);
  }

  lemma {:induction false} DispatchKeeps(s: Pool)
    requires Inv(s)
    ensures Inv(Dispatch(s))
    decreases |s.queue|
  {
    if !s.shuttingDown && s.queue != [] {
      var i := FindFree(s.forks);
      if i < |s.forks| {
        AssignKeeps(s, i);
        DispatchKeeps(Assign(s, i));
      }
    }
  }

  // ---- A fork gives up its job ----

  /** The fork that runs a pending job is the one its timer names. */
  lemma ActiveHolder(s: Pool, i: nat)
    requires Linked(s.forks, s.pending, s.timers) && i < |s.forks| && s.forks[i].active.Some?
    ensures ActiveOk(i, s.forks[i].active.value, s.pending, s.timers)
    ensures forall k :: 0 <= k < |s.forks| && k != i && s.forks[k].active.Some? ==>
              s.forks[k].active.value.job.id != s.forks[i].active.value.job.id
  {
    forall k | 0 <= k < |s.forks| && k != i && s.forks[k].active.Some?
      ensures s.forks[k].active.value.job.id != s.forks[i].active.value.job.id
    {
      assert ActiveOk(k, s.forks[k].active.value, s.pending, s.timers);
      assert ActiveOk(i, s.forks[i].active.value, s.pending, s.timers);
    }
  }

  lemma VacateLinks(forks: seq<Fork>, pending: map<nat, Pending>, timers: map<nat, Alarm>, i: nat, f: Fork)
    requires Linked(forks, pending, timers) && i < |forks| && forks[i].active.Some?
    requires f.active.None? && !f.busy
    ensures Linked(forks[i := f], pending - {forks[i].active.value.job.id}, timers - {forks[i].active.value.timer})
  {
    var a := forks[i].active.value;
    var forks', pending', timers' := forks[i := f], pending - {a.job.id}, timers - {a.timer};
    assert ActiveOk(i, a, pending, timers);
    forall k | 0 <= k < |forks'| && forks'[k].active.Some?
      ensures ActiveOk(k, forks'[k].active.value, pending', timers')
    {
      assert ActiveOk(k, forks[k].active.value, pending, timers);
    }
  }

  lemma VacateSent(sends: seq<Sent>, handlers: map<nat, Handler>, forks: seq<Fork>, rs: seq<Resolution>,
                   nextProc: nat, i: nat, f: Fork, r: Resolution)
    requires SentToFork(sends, handlers, forks, rs, nextProc) && i < |forks| && forks[i].active.Some?
    requires r.id == forks[i].active.value.job.id
    ensures SentToFork(sends, handlers, forks[i := f], rs + [r], nextProc)
  {
    assert ResolvedIds(rs + [r]) == ResolvedIds(rs) + [r.id];
    forall k | 0 <= k < |sends| ensures SentOk(sends[k], handlers, forks[i := f], rs + [r]) {
      assert SentOk(sends[k], handlers, forks, rs);
    }
  }

  /** Fork `i` finishes its job with outcome `o` and is left idle; it may lose its readiness. */
  ghost function Finish(s: Pool, i: nat, o: Outcome, ready: bool, killed: set<nat>): Pool
    requires i < |s.forks| && s.forks[i].active.Some?
  {
    var a := s.forks[i].active.value;
    s.(timers := s.timers - {a.timer},
       pending := s.pending - {a.job.id},
       resolutions := s.resolutions + [Resolution(a.job.id, o)],
       forks := s.forks[i := s.forks[i].(busy := false, ready := ready, active := None)],
       killed := killed)
  }

  lemma FinishKeeps(s: Pool, i: nat, o: Outcome, ready: bool, killed: set<nat>)
    requires Inv(s) && i < |s.forks| && s.forks[i].active.Some? && s.killed <= killed
    ensures Inv(Finish(s, i, o, ready, killed))
  {
    var s', a := Finish(s, i, o, ready, killed), s.forks[i].active.value;
    var f := s.forks[i].(busy := false, ready := ready, active := None);
    ActiveHolder(s, i);
    VacateLinks(s.forks, s.pending, s.timers, i, f);
    assert s'.pending.Keys == s.pending.Keys - {a.job.id};
    CensusStop(s.queue, s.pending.Keys, s.resolutions, a.job.id);
    CensusSettle(s.queue, s'.pending.Keys, s.resolutions, Resolution(a.job.id, o));
    VacateSent(s.sends, s.handlers, s.forks, s.resolutions, s.nextProc, i, f, Resolution(a.job.id, o));
  }

  /** Fork `i` loses its job, which goes back to the head of the queue; its listeners go with it. */
  ghost function Requeue(s: Pool, i: nat): Pool
    requires i < |s.forks| && s.forks[i].active.Some?
  {
    var a := s.forks[i].active.value;
    s.(timers := s.timers - {a.timer},
       pending := s.pending - {a.job.id},
       queue := [a.job.(crashRetries := a.job.crashRetries + 1)] + s.queue,
       forks := s.forks[i := s.forks[i].(busy := false, ready := false, active := None)])
  }

  lemma RequeueCensus(q: seq<Job>, running: set<nat>, rs: seq<Resolution>, nextId: nat, x: Job)
    requires OnePlacePerJob(q, running, rs, nextId) && x.id in running
    ensures OnePlacePerJob([x] + q, running - {x.id}, rs, nextId)
  {
    CensusStop(q, running, rs, x.id);
    CensusCons(x, q, running - {x.id}, rs);
  }

  lemma RequeueOrder(q: seq<Job>, sends: seq<Sent>, nextId: nat, x: Job)
    requires QueueShape(q, nextId) && InIdOrder(q, sends, nextId) && QueueCounts(q, sends)
    requires x.crashRetries == 1 && SendCount(sends, x.id) == 1
    ensures QueueShape([x] + q, nextId)
    ensures InIdOrder([x] + q, sends, nextId)
    ensures QueueCounts([x] + q, sends)
  {
    assert ([x] + q)[1..] == q;
  }

  lemma RespawnAttached(s: Pool, i: nat)
    requires Attached(s.size, s.forks, s.handlers, s.nextProc, s.shuttingDown) && i < |s.forks|
    ensures var s' := Respawn(s, i); Attached(s'.size, s'.forks, s'.handlers, s'.nextProc, s'.shuttingDown)
    ensures NoneLeaked(s.nextProc, s.handlers, s.killed) ==>
              var s' := Respawn(s, i); NoneLeaked(s'.nextProc, s'.handlers, s'.killed)
  {
  }

  /** Replacing the process of an idle fork forgets what was sent to the old one. */
  lemma RespawnSent(s: Pool, i: nat)
    requires Attached(s.size, s.forks, s.handlers, s.nextProc, s.shuttingDown) && i < |s.forks|
    requires !s.shuttingDown && s.forks[i].active.None?
    requires forall k :: 0 <= k < |s.sends| ==> s.sends[k].proc < s.nextProc
    requires forall k :: 0 <= k < |s.sends| && s.sends[k].proc != s.forks[i].proc ==>
               SentOk(s.sends[k], s.handlers, s.forks, s.resolutions)
    ensures var s' := Respawn(s, i); SentToFork(s'.sends, s'.handlers, s'.forks, s'.resolutions, s'.nextProc)
  {
    var s' := Respawn(s, i);
    forall k | 0 <= k < |s'.sends|
      ensures s'.sends[k].proc < s'.nextProc && SentOk(s'.sends[k], s'.handlers, s'.forks, s'.resolutions)
    {
      var x := s.sends[k];
      if x.proc in s'.handlers {
        assert x.proc in s.handlers && x.proc != s.forks[i].proc;
        assert SentOk(x, s.handlers, s.forks, s.resolutions);
      }
    }
  }

  lemma RespawnLinks(s: Pool, i: nat)
    requires Linked(s.forks, s.pending, s.timers) && i < |s.forks| && s.forks[i].active.None?
    ensures Linked(Respawn(s, i).forks, s.pending, s.timers)
  {
    var s' := Respawn(s, i);
    forall k | 0 <= k < |s'.forks| && s'.forks[k].active.Some?
      ensures ActiveOk(k, s'.forks[k].active.value, s.pending, s.timers)
    {
      assert ActiveOk(k, s.forks[k].active.value, s.pending, s.timers);
    }
  }

  lemma RespawnReady(s: Pool, i: nat)
    requires ReadyCounted(s) && i < |s.forks|
    ensures ReadyCounted(Respawn(s, i))
  {
  }

  lemma RespawnCore(s: Pool, i: nat)
    requires Core(s) && i < |s.forks| && s.forks[i].active.None?
    ensures Core(Respawn(s, i))
  {
    if !s.shuttingDown {
      RespawnAttached(s, i);
      RespawnLinks(s, i);
      RespawnReady(s, i);
    }
  }

  lemma RespawnKeeps(s: Pool, i: nat)
    requires Inv(s) && i < |s.forks| && s.forks[i].active.None?
    ensures Inv(Respawn(s, i))
  {
    RespawnCore(s, i);
    if !s.shuttingDown {
      RespawnSent(s, i);
    }
  }

  lemma RequeueCore(s: Pool, i: nat)
    requires Core(s) && i < |s.forks| && s.forks[i].active.Some?
    requires s.forks[i].active.value.job.crashRetries == 0
    ensures Core(Requeue(s, i))
  {
    hide OnePlacePerJob, Linked, QueueShape, InIdOrder, QueueCounts, AtMostTwice;
    var t, a := Requeue(s, i), s.forks[i].active.value;
    var f, x := s.forks[i].(busy := false, ready := false, active := None), a.job.(crashRetries := 1);
    ActiveHolder(s, i);
    VacateLinks(s.forks, s.pending, s.timers, i, f);
    assert t.pending.Keys == s.pending.Keys - {a.job.id};
    RequeueCensus(s.queue, s.pending.Keys, s.resolutions, s.nextId, x);
    RequeueOrder(s.queue, s.sends, s.nextId, x);
  }

  lemma RequeueSent(s: Pool, i: nat)
    requires SentToFork(s.sends, s.handlers, s.forks, s.resolutions, s.nextProc)
    requires Attached(s.size, s.forks, s.handlers, s.nextProc, s.shuttingDown)
    requires !s.shuttingDown && i < |s.forks| && s.forks[i].active.Some?
    ensures var s' := Respawn(Requeue(s, i), i);
            SentToFork(s'.sends, s'.handlers, s'.forks, s'.resolutions, s'.nextProc)
  {
    var t := Requeue(s, i);
    forall k | 0 <= k < |t.sends| && t.sends[k].proc != t.forks[i].proc
      ensures SentOk(t.sends[k], t.handlers, t.forks, t.resolutions)
    {
      assert SentOk(s.sends[k], s.handlers, s.forks, s.resolutions);
    }
    RespawnSent(t, i);
  }

  /** A first crash: the job is requeued and the process replaced in the same handler. */
  lemma RequeueKeeps(s: Pool, i: nat)
    requires Inv(s) && !s.shuttingDown && i < |s.forks| && s.forks[i].active.Some?
    requires s.forks[i].active.value.job.crashRetries == 0
    ensures Inv(Respawn(Requeue(s, i), i))
  {
    RequeueCore(s, i);
    RespawnCore(Requeue(s, i), i);
    RequeueSent(s, i);
  }

  // ---- The handlers ----

  /** Dropping an idle fork's readiness, as `handleForkFailure` does first. */
  lemma UnreadyKeeps(s: Pool, i: nat)
    requires Inv(s) && i < |s.forks| && s.forks[i].active.None?
    ensures Inv(SetFork(s, i, s.forks[i].(active := None, busy := false, ready := false)))
  {
    var s' := SetFork(s, i, s.forks[i].(active := None, busy := false, ready := false));
    forall k | 0 <= k < |s'.forks| && s'.forks[k].active.Some?
      ensures ActiveOk(k, s'.forks[k].active.value, s.pending, s.timers)
    {
      assert ActiveOk(k, s.forks[k].active.value, s.pending, s.timers);
    }
    forall k | 0 <= k < |s.sends| ensures SentOk(s.sends[k], s'.handlers, s'.forks, s'.resolutions) {
      assert SentOk(s.sends[k], s.handlers, s.forks, s.resolutions);
    }
  }

  lemma MarkReadyCount(s: Pool, p: nat)
    requires ReadyCounted(s) && p in s.handlers && s.handlers[p].fork < |s.forks| && p !in s.readied
    requires p < s.nextProc && (s.handlers[p].countInitialReady <==> p < s.size)
    ensures ReadyCounted(MarkReady(s, p))
  {
    var s' := MarkReady(s, p);
    var before, after := set q | q in s.readied && q < s.size, set q | q in s'.readied && q < s.size;
    assert after == if p < s.size then before + {p} else before;
    assert forall q :: q in before ==> 0 <= q < s.size;
    CardinalUpTo(after, s.size);
  }

  lemma {:induction false} CardinalUpTo(xs: set<nat>, n: nat)
    requires forall x :: x in xs ==> x < n
    ensures |xs| <= n
  {
    if n == 0 {
      assert xs == {};
    } else {
      CardinalUpTo(xs - {n - 1}, n - 1);
    }
  }

  lemma MarkReadyKeeps(s: Pool, p: nat)
    requires Inv(s) && p in s.handlers && p !in s.readied
    ensures Inv(MarkReady(s, p))
  {
    var s', i := MarkReady(s, p), s.handlers[p].fork;
    MarkReadyCount(s, p);
    forall k | 0 <= k < |s'.forks| && s'.forks[k].active.Some?
      ensures ActiveOk(k, s'.forks[k].active.value, s.pending, s.timers)
    {
      assert ActiveOk(k, s.forks[k].active.value, s.pending, s.timers);
    }
    assert ForkOk(s.forks[i]);
    forall k | 0 <= k < |s.sends| ensures SentOk(s.sends[k], s'.handlers, s'.forks, s'.resolutions) {
      assert SentOk(s.sends[k], s.handlers, s.forks, s.resolutions);
    }
  }

  lemma ReadyKeeps(s: Pool, p: nat)
    requires Inv(s) && p in s.handlers && p !in s.readied
    ensures s.handlers[p].fork < |s.forks| && Inv(OnReady(s, p))
  {
    assert s.handlers[p].fork < |s.forks|;
    hide Inv;
    MarkReadyKeeps(s, p);
    DispatchKeeps(MarkReady(s, p));
    SettleReadyKeeps(Dispatch(MarkReady(s, p)));
  }

  lemma ShutdownKeeps(s: Pool)
    requires Inv(s)
    ensures Inv(OnShutdown(s)) && OnShutdown(s).handlers == map[]
  {
    var s' := OnShutdown(s);
    forall p | p in s.handlers ensures p !in s'.handlers && p in s'.killed {
      var i := s.handlers[p].fork;
      assert s.forks[i].proc == p;
    }
    assert s'.handlers.Keys == {};
    assert s'.handlers == map[];
  }

  /** Under the invariant a reply to a pending id comes from the fork that runs it. */
  lemma ReplyIsOurs(s: Pool, p: nat, id: nat)
    requires Inv(s) && p in s.handlers && Sent(p, id) in s.sends && id in s.pending
    ensures s.handlers[p].fork < |s.forks|
    ensures var f := s.forks[s.handlers[p].fork]; f.proc == p && f.active == Some(Active(s.pending[id].job, s.pending[id].timer))
    ensures s.pending[id].job.id == id
  {
    var k :| 0 <= k < |s.sends| && s.sends[k] == Sent(p, id);
    assert SentOk(s.sends[k], s.handlers, s.forks, s.resolutions);
    RunningOnce(s.queue, s.pending.Keys, s.resolutions, s.nextId, id);
    ActiveHolder(s, s.handlers[p].fork);
  }

  lemma ReplyKeeps(s: Pool, p: nat, id: nat, recycle: bool)
    requires Inv(s) && p in s.handlers && Sent(p, id) in s.sends
    ensures s.handlers[p].fork < |s.forks| && Inv(OnReply(s, p, id, recycle))
  {
    if !s.shuttingDown && id in s.pending {
      ReplyIsOurs(s, p, id);
      var i := s.handlers[p].fork;
      assert ForkOk(s.forks[i]);
      var t := Answer(s, p, id);
      assert t == Finish(s, i, Answered(p), s.forks[i].ready, s.killed);
      FinishKeeps(s, i, Answered(p), s.forks[i].ready, s.killed);
      if recycle {
        RespawnKeeps(t, i);
      } else {
        DispatchKeeps(t);
      }
    }
  }

  lemma TimeoutKeeps(s: Pool, t: nat)
    requires Inv(s) && t in s.timers
    ensures s.timers[t].fork < |s.forks| && Inv(OnTimeout(s, t))
  {
    var i, job := s.timers[t].fork, s.timers[t].job;
    var killed := s.killed + {s.forks[i].proc};
    assert s.forks[i].active == Some(Active(job, t));
    assert Expire(s, t) == Finish(s, i, TimedOut(job.execute, job.timeoutMs), false, killed);
    FinishKeeps(s, i, TimedOut(job.execute, job.timeoutMs), false, killed);
    RespawnKeeps(Expire(s, t), i);
  }

  lemma FailureKeeps(s: Pool, p: nat)
    requires Inv(s) && p in s.handlers
    ensures s.handlers[p].fork < |s.forks| && Inv(OnFailure(s, p))
  {
    var i := s.handlers[p].fork;
    var f := s.forks[i];
    if !s.shuttingDown {
      if f.active.Some? {
        var a := f.active.value;
        var t := Recover(s, i, a);
        if a.job.crashRetries == 0 {
          assert t == Requeue(s, i);
          RequeueKeeps(s, i);
        } else {
          assert t == Finish(s, i, WorkerDied(a.job.execute), false, s.killed);
          FinishKeeps(s, i, WorkerDied(a.job.execute), false, s.killed);
          RespawnKeeps(t, i);
        }
      } else {
        UnreadyKeeps(s, i);
        if f.ready {
          RespawnKeeps(SetFork(s, i, f.(active := None, busy := false, ready := false)), i);
        }
      }
    }
  }

  lemma AskKeeps(s: Pool)
    requires Inv(s)
    ensures Inv(AskReady(s))
  {
  }

  lemma SettleReadyKeeps(s: Pool)
    requires Inv(s)
    ensures Inv(SettleReady(s))
  {
  }

  lemma InitialInv(size: nat)
    ensures Inv(Initial(size))
  {
    var s := Initial(size);
    assert (set p | p in s.readied && p < s.size) == {};
    assert Linked(s.forks, s.pending, s.timers);
    assert SentIds(s.sends) == [] && UpTo(0) == [];
    assert Census(s.queue, s.pending.Keys, s.resolutions) == multiset{};
  }

  /** Every event the outside world may produce keeps the invariant. */
  lemma StepKeeps(s: Pool, e: Event)
    requires Inv(s) && Enabled(s, e)
    ensures Inv(Step(s, e))
  {
    hide Core, Inv, Linked, Attached, OnePlacePerJob, SentToFork;
    match e
    case Enqueue(execute, ms) =>
      EnqueueKeeps(s, execute, ms);
      DispatchKeeps(s.(nextId := s.nextId + 1, queue := s.queue + [Job(s.nextId, execute, ms, 0)]));
    case Ask => AskKeeps(s);
    case Ready(p) => ReadyKeeps(s, p);
    case Reply(p, id, recycle) => ReplyKeeps(s, p, id, recycle);
    case Timeout(t) => TimeoutKeeps(s, t);
    case Failure(p) => FailureKeeps(s, p);
    case Shutdown => ShutdownKeeps(s);
  }
}
