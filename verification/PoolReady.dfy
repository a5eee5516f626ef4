/** Which promises of `ready()` in scripts/compiler-pool.ts are settled: `readyResolve` holds one resolver only, so of the
    calls made before all workers have announced themselves just the last is answered. */
module PoolReady {
  import opened Wrappers
  import opened PoolModel
  import opened PoolInvariant
  import opened PoolTheorems

  /** The state as far as `ready()` goes. Calls are numbered from 0 to `asks`; `kept` is the number of the call whose
      resolver is stored. */
  datatype ReadyView = ReadyView(size: nat, count: nat, kept: Option<nat>, asks: nat, done: set<nat>)

  function View(s: Pool): ReadyView {
    ReadyView(s.size, s.readyCount, s.readyResolve, s.readyAsks, s.readyDone)
  }

  /** Until all have announced themselves no call is settled and the last one is kept. From then on the settled calls are
      the one that was kept and all later ones. */
  ghost predicate LastAndLater(v: ReadyView) {
    && v.count <= v.size
    && (v.kept.Some? ==> v.kept.value < v.asks)
    && (v.count < v.size ==> v.done == {} && v.kept == if v.asks == 0 then None else Some(v.asks - 1))
    && (v.count == v.size ==>
          forall r: nat :: r in v.done <==> r < v.asks && (v.kept.Some? ==> v.kept.value <= r))
  }

  lemma {:induction false} DispatchLeavesReady(s: Pool)
    ensures View(Dispatch(s)) == View(s)
    decreases |s.queue|
  {
    if !s.shuttingDown && s.queue != [] {
      var i := FindFree(s.forks);
      if i < |s.forks| {
        DispatchLeavesReady(Assign(s, i));
      }
    }
  }

  lemma OthersLeaveReady(s: Pool, e: Event)
    requires Enabled(s, e) && !e.Ask? && !e.Ready?
    ensures View(Step(s, e)) == View(s)
  {
    match e
    case Enqueue(execute, ms) =>
      DispatchLeavesReady(s.(nextId := s.nextId + 1, queue := s.queue + [Job(s.nextId, execute, ms, 0)]));
    case Reply(p, id, recycle) =>
      if id in s.pending { DispatchLeavesReady(Answer(s, p, id)); }
    case _ =>
  }

  lemma CountIsBounded(s: Pool)
    requires Inv(s)
    ensures s.readyCount <= s.size
  {
    var early := set p | p in s.readied && p < s.size;
    CardinalUpTo(early, s.size);
  }

  /** A `ready` message raises the count by at most one and, once it is full, settles the kept call. */
  lemma ReadyMessageSettles(s: Pool, p: nat)
    requires Inv(s) && Enabled(s, Ready(p)) && LastAndLater(View(s))
    ensures LastAndLater(View(OnReady(s, p)))
    ensures View(OnReady(s, p)).kept == s.readyResolve && View(OnReady(s, p)).asks == s.readyAsks
  {
    ReadyKeeps(s, p);
    CountIsBounded(OnReady(s, p));
    DispatchLeavesReady(MarkReady(s, p));
    hide Inv, Dispatch;
    if !s.shuttingDown {
      SettleView(Dispatch(MarkReady(s, p)));
      CountRises(View(s), View(MarkReady(s, p)), View(OnReady(s, p)));
    }
  }

  function Settle(v: ReadyView): ReadyView {
    if v.count == v.size && v.kept.Some? then v.(done := v.done + {v.kept.value}) else v
  }

  lemma SettleView(s: Pool)
    ensures View(SettleReady(s)) == Settle(View(s))
  {
  }

  lemma CountRises(v: ReadyView, marked: ReadyView, w: ReadyView)
    requires LastAndLater(v) && (marked == v || marked == v.(count := v.count + 1)) && w == Settle(marked) && w.count <= w.size
    ensures LastAndLater(w)
  {
  }

  lemma StepKeepsLastAndLater(s: Pool, e: Event)
    requires Inv(s) && Enabled(s, e) && LastAndLater(View(s))
    ensures LastAndLater(View(Step(s, e)))
    ensures s.readyResolve.Some? ==> Step(s, e).readyResolve.Some? && s.readyResolve.value <= Step(s, e).readyResolve.value
  {
    hide Inv;
    match e
    case Ask =>
    case Ready(p) => ReadyMessageSettles(s, p);
    case _ => OthersLeaveReady(s, e);
  }

  /** In every reachable state the settled calls of `ready()` are none until every initial worker has announced itself,
      and then exactly the last one made before and all made since. */
  lemma {:induction false} ReadySettlesLastAndLater(size: nat, es: seq<Event>)
    requires IsRun(size, es)
    ensures LastAndLater(View(After(size, es))) && After(size, es).size == size
    decreases |es|
  {
    hide Inv, Enabled, Step, LastAndLater;
    SizeIsFixed(size, es);
    if es == [] {
      NobodyAsked(size);
    } else {
      var init, e := es[..|es| - 1], es[|es| - 1];
      ReadySettlesLastAndLater(size, init);
      RunKeepsInvariant(size, init);
      StepKeepsLastAndLater(After(size, init), e);
    }
  }

  lemma NobodyAsked(size: nat)
    ensures LastAndLater(View(Initial(size)))
  {
  }

  /** So a call that was overwritten by a later one is never settled, however the run goes on. */
  lemma {:induction false} OverwrittenCallIsLost(size: nat, es: seq<Event>, more: seq<Event>, r: nat)
    requires IsRun(size, es + more) && IsRun(size, es)
    requires var s := After(size, es); s.readyResolve.Some? && r < s.readyResolve.value
    ensures var s' := After(size, es + more);
            r !in s'.readyDone && s'.readyResolve.Some? && r < s'.readyResolve.value
    decreases |more|
  {
    ReadySettlesLastAndLater(size, es + more);
    hide Inv, Enabled, Step;
    if more == [] {
      assert es + more == es;
    } else {
      var m := |more| - 1;
      var init := es + more[..m];
      assert (es + more)[..|es + more| - 1] == init;
      OverwrittenCallIsLost(size, es, more[..m], r);
      RunKeepsInvariant(size, init);
      ReadySettlesLastAndLater(size, init);
      StepKeepsLastAndLater(After(size, init), (es + more)[|es + more| - 1]);
    }
  }

  // ---- Only workers that have announced themselves work ----

  /** A fork counts as ready only if its process has said so, and nothing is sent to a process that has not. */
  ghost predicate Announced(forks: seq<Fork>, sends: seq<Sent>, readied: set<nat>) {
    && (forall i :: 0 <= i < |forks| && forks[i].ready ==> forks[i].proc in readied)
    && (forall k :: 0 <= k < |sends| ==> sends[k].proc in readied)
  }

  lemma {:induction false} DispatchKeepsAnnounced(s: Pool)
    requires Announced(s.forks, s.sends, s.readied)
    ensures var s' := Dispatch(s); Announced(s'.forks, s'.sends, s'.readied) && s'.readied == s.readied
    decreases |s.queue|
  {
    if !s.shuttingDown && s.queue != [] {
      var i := FindFree(s.forks);
      if i < |s.forks| {
        DispatchKeepsAnnounced(Assign(s, i));
      }
    }
  }

  /** No fork has become ready or changed its process while ready. */
  ghost predicate NoneReadier(before: seq<Fork>, after: seq<Fork>) {
    |before| == |after| &&
    forall k :: 0 <= k < |after| && after[k].ready ==> before[k].ready && after[k].proc == before[k].proc
  }

  lemma NoneReadierKeeps(before: seq<Fork>, after: seq<Fork>, sends: seq<Sent>, readied: set<nat>)
    requires Announced(before, sends, readied) && NoneReadier(before, after)
    ensures Announced(after, sends, readied)
  {
  }

  lemma ReplyKeepsAnnounced(s: Pool, p: nat, id: nat, recycle: bool)
    requires Enabled(s, Reply(p, id, recycle)) && Announced(s.forks, s.sends, s.readied)
    ensures var s' := OnReply(s, p, id, recycle); Announced(s'.forks, s'.sends, s'.readied)
  {
    if !s.shuttingDown && id in s.pending {
      var t, i := Answer(s, p, id), s.handlers[p].fork;
      assert NoneReadier(s.forks, t.forks);
      NoneReadierKeeps(s.forks, t.forks, s.sends, s.readied);
      if recycle {
        assert NoneReadier(t.forks, Respawn(t, i).forks);
        NoneReadierKeeps(t.forks, Respawn(t, i).forks, s.sends, s.readied);
      } else {
        DispatchKeepsAnnounced(t);
      }
    }
  }

  lemma OthersKeepAnnounced(s: Pool, e: Event)
    requires Enabled(s, e) && (e.Timeout? || e.Failure?) && Announced(s.forks, s.sends, s.readied)
    ensures var s' := Step(s, e); Announced(s'.forks, s'.sends, s'.readied)
  {
    assert NoneReadier(s.forks, Step(s, e).forks);
    NoneReadierKeeps(s.forks, Step(s, e).forks, s.sends, s.readied);
  }

  lemma ReadyKeepsAnnounced(s: Pool, p: nat)
    requires Inv(s) && Enabled(s, Ready(p)) && Announced(s.forks, s.sends, s.readied)
    ensures var s' := OnReady(s, p); Announced(s'.forks, s'.sends, s'.readied)
  {
    KnownProcesses(s);
    hide Inv;
    DispatchKeepsAnnounced(MarkReady(s, p));
  }

  lemma StepKeepsAnnounced(s: Pool, e: Event)
    requires Inv(s) && Enabled(s, e) && Announced(s.forks, s.sends, s.readied)
    ensures var s' := Step(s, e); Announced(s'.forks, s'.sends, s'.readied)
  {
    hide Inv, Announced, OnReady, OnReply, OnTimeout, OnFailure;
    match e
    case Enqueue(execute, ms) =>
      DispatchKeepsAnnounced(s.(nextId := s.nextId + 1, queue := s.queue + [Job(s.nextId, execute, ms, 0)]));
    case Ready(p) => ReadyKeepsAnnounced(s, p);
    case Reply(p, id, recycle) => ReplyKeepsAnnounced(s, p, id, recycle);
    case Timeout(_) => OthersKeepAnnounced(s, e);
    case Failure(_) => OthersKeepAnnounced(s, e);
    case _ =>
  }

  /** In every run jobs are sent only to processes that have announced themselves. */
  lemma {:induction false} OnlyAnnouncedWorkersWork(size: nat, es: seq<Event>)
    requires IsRun(size, es)
    ensures var s := After(size, es); Announced(s.forks, s.sends, s.readied)
    decreases |es|
  {
    hide Inv, Enabled, Step, Announced;
    if es == [] {
      NobodyAnnounced(size);
    } else {
      var init, e := es[..|es| - 1], es[|es| - 1];
      OnlyAnnouncedWorkersWork(size, init);
      RunKeepsInvariant(size, init);
      StepKeepsAnnounced(After(size, init), e);
    }
  }

  lemma NobodyAnnounced(size: nat)
    ensures Announced(Initial(size).forks, Initial(size).sends, Initial(size).readied)
  {
  }
}
