/** `processBatch` of scripts/precompile-tests.ts: one producer, a counting semaphore with a single waiter, and jobs that
    run concurrently and each give back one slot. */
module BatchProducer {

  // ---- One job ----

  /** What the outside world does to a job: each field is read only if control gets that far. */
  datatype Fate = Fate(
    matchesFilter: bool,
    readOk: bool,
    skip: bool,
    skipRecordThrows: bool,
    wrapOk: bool,
    cacheFresh: bool,
    cacheRecordThrows: bool,
    compileThrows: bool,
    compileOk: bool,
    afterwardsThrows: bool,
    finalRecordThrows: bool)

  datatype Tally = Tally(compiled: nat, cached: nat, skipped: nat, errors: nat)

  function Total(t: Tally): nat {
    t.compiled + t.cached + t.skipped + t.errors
  }

  /** The counters after the job, lines 174-315. */
  function Count(f: Fate, t: Tally): Tally {
    if !f.matchesFilter then t.(skipped := t.skipped + 1)
    else if !f.readOk then t.(errors := t.errors + 1)
    else if f.skip then
      var counted := t.(skipped := t.skipped + 1);
      if f.skipRecordThrows then counted.(errors := counted.errors + 1) else counted
    else if !f.wrapOk then t.(errors := t.errors + 1)
    else if f.cacheFresh && !f.cacheRecordThrows then t.(cached := t.cached + 1)
    else if f.compileThrows || f.afterwardsThrows || f.finalRecordThrows then t.(errors := t.errors + 1)
    else if f.compileOk then t.(compiled := t.compiled + 1)
    else t.(errors := t.errors + 1)
  }

  /** The one way to be counted twice: skipped, and then the result writer throws. */
  ghost predicate CountedTwice(f: Fate) {
    f.matchesFilter && f.readOk && f.skip && f.skipRecordThrows
  }

  /** A job is counted once unless the writer throws on a skip; then it is counted as skipped and as an error. */
  lemma JobIsCountedOnce(f: Fate, t: Tally)
    ensures Total(Count(f, t)) == Total(t) + 1 <==> !CountedTwice(f)
    ensures CountedTwice(f) ==> Count(f, t) == t.(skipped := t.skipped + 1, errors := t.errors + 1)
  {
  }

  /** The compiler is asked only if the test passes the filter, can be read and wrapped, is not skipped and has no fresh
      cache entry whose record is written. */
  ghost predicate ReachesCompiler(f: Fate) {
    f.matchesFilter && f.readOk && !f.skip && f.wrapOk && (f.cacheFresh ==> f.cacheRecordThrows)
  }

  /** Which counter each course of events raises. */
  lemma CounterRaised(f: Fate, t: Tally)
    ensures var u := Count(f, t);
            && u.compiled == t.compiled + (if ReachesCompiler(f) && f.compileOk && !f.compileThrows && !f.afterwardsThrows
                                               && !f.finalRecordThrows then 1 else 0)
            && u.cached == t.cached + (if f.matchesFilter && f.readOk && !f.skip && f.wrapOk && f.cacheFresh
                                           && !f.cacheRecordThrows then 1 else 0)
            && u.skipped == t.skipped + (if !f.matchesFilter || (f.readOk && f.skip) then 1 else 0)
            && (u.errors == t.errors + 1 <==>
                  || (f.matchesFilter && !f.readOk) || CountedTwice(f) || (f.matchesFilter && f.readOk && !f.skip && !f.wrapOk)
                  || (ReachesCompiler(f) && (!f.compileOk || f.compileThrows || f.afterwardsThrows || f.finalRecordThrows)))
            && t.errors <= u.errors <= t.errors + 1
  {
  }

  // ---- The protocol ----

  /** Where the producer stands: before `waitForSlot`, asleep in it, woken but not yet running, holding a slot, or past
      the last test. */
  datatype Producer = Asking | Sleeping | Woken | Granted | Finished

  datatype Batch = Batch(
    limit: nat,
    tests: nat,
    next: nat,
    producer: Producer,
    inFlight: int,
    resolveSlot: bool,
    running: set<nat>,
    ended: set<nat>,
    counts: Tally)

  function Start(limit: nat, tests: nat): Batch {
    Batch(limit, tests, 0, if tests == 0 then Finished else Asking, 0, false, {}, {}, Tally(0, 0, 0, 0))
  }

  datatype Event = Ask | Resume | Launch | End(job: nat, fate: Fate)

  predicate Enabled(s: Batch, e: Event) {
    match e
    case Ask => s.producer == Asking
    case Resume => s.producer == Woken
    case Launch => s.producer == Granted && s.next < s.tests
    case End(j, _) => j in s.running
  }

  /** `waitForSlot` up to its `await`. */
  function DoAsk(s: Batch): Batch {
    if s.inFlight < s.limit then s.(inFlight := s.inFlight + 1, producer := Granted)
    else s.(resolveSlot := true, producer := Sleeping)
  }

  /** `releaseSlot`. */
  function Release(s: Batch): Batch {
    var t := s.(inFlight := s.inFlight - 1);
    if s.resolveSlot then t.(resolveSlot := false, producer := Woken) else t
  }

  function Step(s: Batch, e: Event): Batch
    requires Enabled(s, e)
  {
    match e
    case Ask => DoAsk(s)
    case Resume => s.(inFlight := s.inFlight + 1, producer := Granted)
    case Launch =>
      s.(running := s.running + {s.next}, next := s.next + 1,
         producer := if s.next + 1 == s.tests then Finished else Asking)
    case End(j, f) => Release(s.(running := s.running - {j}, ended := s.ended + {j}, counts := Count(f, s.counts)))
  }

  /** The numbers of the first `n` tests. */
  ghost function UpTo(n: nat): set<nat> {
    if n == 0 then {} else UpTo(n - 1) + {n - 1}
  }

  lemma {:induction false} CountUpTo(n: nat, j: nat)
    ensures |UpTo(n)| == n && (j in UpTo(n) <==> j < n)
  {
    if n > 0 {
      CountUpTo(n - 1, n - 1);
      CountUpTo(n - 1, j);
    }
  }

  ghost predicate Inv(s: Batch) {
    && s.inFlight == |s.running| + (if s.producer == Granted then 1 else 0)
    && s.inFlight <= s.limit
    && (s.resolveSlot <==> s.producer == Sleeping)
    && (s.producer == Sleeping ==> s.inFlight == s.limit)
    && (s.producer == Woken ==> s.inFlight < s.limit)
    && s.next <= s.tests && (s.producer == Finished <==> s.next == s.tests)
    && s.running !! s.ended
    && s.running + s.ended == UpTo(s.next)
  }

  lemma LaunchIsNew(s: Batch)
    requires Inv(s)
    ensures s.next !in s.running && s.next !in s.ended && |s.running + {s.next}| == |s.running| + 1
    ensures (s.running + {s.next}) + s.ended == UpTo(s.next + 1)
  {
    CountUpTo(s.next, s.next);
    assert s.next !in s.running + s.ended;
  }

  lemma EndMoves(s: Batch, j: nat)
    requires Inv(s) && j in s.running
    ensures |s.running - {j}| == |s.running| - 1 && (s.running - {j}) !! (s.ended + {j})
    ensures (s.running - {j}) + (s.ended + {j}) == s.running + s.ended
    ensures j !in s.ended
  {
  }

  lemma LaunchKeeps(s: Batch)
    requires Inv(s) && Enabled(s, Launch)
    ensures Inv(Step(s, Launch))
  {
    LaunchIsNew(s);
    hide UpTo;
  }

  lemma EndKeeps(s: Batch, j: nat, f: Fate)
    requires Inv(s) && Enabled(s, End(j, f))
    ensures Inv(Step(s, End(j, f)))
  {
    EndMoves(s, j);
    hide UpTo, Count;
  }

  lemma StepKeeps(s: Batch, e: Event)
    requires Inv(s) && Enabled(s, e)
    ensures Inv(Step(s, e))
  {
    hide UpTo, Count;
    match e
    case Launch => LaunchKeeps(s);
    case End(j, f) => EndKeeps(s, j, f);
    case _ =>
  }

  ghost predicate IsRun(limit: nat, tests: nat, es: seq<Event>)
    decreases |es|, 0
  {
    es == [] ||
    (IsRun(limit, tests, es[..|es| - 1]) && Enabled(After(limit, tests, es[..|es| - 1]), es[|es| - 1]))
  }

  ghost function After(limit: nat, tests: nat, es: seq<Event>): Batch
    requires IsRun(limit, tests, es)
    decreases |es|, 1
  {
    if es == [] then Start(limit, tests) else Step(After(limit, tests, es[..|es| - 1]), es[|es| - 1])
  }

  lemma {:induction false} RunKeepsInvariant(limit: nat, tests: nat, es: seq<Event>)
    requires IsRun(limit, tests, es)
    ensures Inv(After(limit, tests, es))
    ensures After(limit, tests, es).limit == limit && After(limit, tests, es).tests == tests
    decreases |es|
  {
    if es != [] {
      RunKeepsInvariant(limit, tests, es[..|es| - 1]);
      StepKeeps(After(limit, tests, es[..|es| - 1]), es[|es| - 1]);
    }
  }

  /** In every interleaving the semaphore stays within its bounds and counts the running jobs, every started job is
      running or has ended, and a sleeping producer has `limit` running jobs to wake it. */
  lemma SemaphoreIsSound(limit: nat, tests: nat, es: seq<Event>)
    requires IsRun(limit, tests, es)
    ensures var s := After(limit, tests, es);
            && 0 <= s.inFlight <= limit
            && |s.running| <= limit
            && (s.producer == Sleeping ==> |s.running| == limit)
            && s.running + s.ended == UpTo(s.next)
            && s.running !! s.ended
  {
    RunKeepsInvariant(limit, tests, es);
  }

  /** Unless everything is done, something can happen — provided there is at least one slot. */
  lemma NoDeadlock(s: Batch)
    requires Inv(s) && s.limit > 0 && !(s.producer == Finished && s.running == {})
    ensures exists e :: Enabled(s, e)
  {
    match s.producer
    case Asking => assert Enabled(s, Ask);
    case Woken => assert Enabled(s, Resume);
    case Granted => assert Enabled(s, Launch);
    case _ =>
      assert s.running != {};
      var j :| j in s.running;
      assert Enabled(s, End(j, Fate(false, false, false, false, false, false, false, false, false, false, false)));
  }

  /** Without a slot the producer goes to sleep on the first test and nothing ever happens again. */
  lemma NoSlotsMeansDeadlock(tests: nat, e: Event)
    requires tests > 0
    ensures IsRun(0, tests, [Ask])
    ensures !Enabled(After(0, tests, [Ask]), e) && After(0, tests, [Ask]).next == 0
  {
    assert [Ask][..0] == [];
    assert IsRun(0, tests, []) && After(0, tests, []) == Start(0, tests);
  }

  /** What is still to be done. */
  ghost function Remaining(s: Batch): int {
    5 * (s.tests - s.next) + |s.running| +
    match s.producer case Asking => 3 case Sleeping => 2 case Woken => 1 case Granted => 0 case Finished => 0
  }

  lemma StepsAreFinite(s: Batch, e: Event)
    requires Inv(s) && Enabled(s, e)
    ensures 0 <= Remaining(Step(s, e)) < Remaining(s)
  {
    hide UpTo, Count;
    match e
    case Launch => LaunchIsNew(s);
    case End(j, f) => EndMoves(s, j);
    case _ =>
  }

  /** The tally of a run whose result writer never throws on a skip is the number of ended jobs. */
  lemma {:induction false} EveryJobIsCountedOnce(limit: nat, tests: nat, es: seq<Event>)
    requires IsRun(limit, tests, es)
    requires forall i :: 0 <= i < |es| && es[i].End? ==> !CountedTwice(es[i].fate)
    ensures var s := After(limit, tests, es); Total(s.counts) == |s.ended|
    decreases |es|
  {
    if es != [] {
      var init := es[..|es| - 1];
      assert forall i :: 0 <= i < |init| ==> init[i] == es[i];
      EveryJobIsCountedOnce(limit, tests, init);
      RunKeepsInvariant(limit, tests, init);
      var s := After(limit, tests, init);
      match es[|es| - 1]
      case End(j, f) =>
        JobIsCountedOnce(f, s.counts);
        assert |s.ended + {j}| == |s.ended| + 1;
      case _ =>
    }
  }

  /** A run that can go no further has processed every test, counting each once. */
  lemma CompleteRunProcessesEverything(limit: nat, tests: nat, es: seq<Event>)
    requires IsRun(limit, tests, es) && limit > 0
    requires forall e :: !Enabled(After(limit, tests, es), e)
    requires forall i :: 0 <= i < |es| && es[i].End? ==> !CountedTwice(es[i].fate)
    ensures var s := After(limit, tests, es);
            s.ended == UpTo(tests) && s.inFlight == 0 && Total(s.counts) == tests
  {
    RunKeepsInvariant(limit, tests, es);
    EveryJobIsCountedOnce(limit, tests, es);
    var s := After(limit, tests, es);
    hide IsRun, After, UpTo, Total;
    if !(s.producer == Finished && s.running == {}) {
      NoDeadlock(s);
    }
    CountUpTo(tests, 0);
    AllEnded(s);
  }

  lemma AllEnded(s: Batch)
    requires Inv(s) && s.producer == Finished && s.running == {}
    ensures s.ended == UpTo(s.tests) && s.inFlight == 0
  {
    hide UpTo;
    assert s.running + s.ended == s.ended;
  }

  // ---- The program ----

  class ProcessBatch {
    const limit: nat
    var inFlight: int
    var resolveSlot: bool
    var compiled: nat
    var cached: nat
    var skipped: nat
    var errors: nat

    constructor (limit: nat)
      ensures this.limit == limit && inFlight == 0 && !resolveSlot && Counts() == Tally(0, 0, 0, 0)
    {
      this.limit := limit;
      inFlight, resolveSlot := 0, false;
      compiled, cached, skipped, errors := 0, 0, 0, 0;
    }

    ghost function Counts(): Tally
      reads this`compiled, this`cached, this`skipped, this`errors
    {
      Tally(compiled, cached, skipped, errors)
    }

    /** The shared variables are those of the protocol state. */
    ghost predicate Is(s: Batch)
      reads this
    {
      limit == s.limit && inFlight == s.inFlight && resolveSlot == s.resolveSlot && Counts() == s.counts
    }

    method WaitForSlot(ghost s: Batch) returns (granted: bool)
      requires Is(s) && Enabled(s, Ask)
      modifies this`inFlight, this`resolveSlot
      ensures Is(Step(s, Ask)) && (granted <==> Step(s, Ask).producer == Granted)
    {
      if inFlight < limit {
        inFlight := inFlight + 1;
        return true;
      }
      resolveSlot := true;
      return false;
    }

    method ReleaseSlot() returns (wake: bool)
      modifies this`inFlight, this`resolveSlot
      ensures inFlight == old(inFlight) - 1 && !resolveSlot && wake == old(resolveSlot)
    {
      inFlight := inFlight - 1;
      wake := resolveSlot;
      if resolveSlot {
        resolveSlot := false;
      }
    }

    /** The body of a job from its start to its single release, for a given course of outside events. */
    method RunJob(f: Fate, j: nat, ghost s: Batch) returns (wake: bool)
      requires Is(s) && Enabled(s, End(j, f)) && (s.resolveSlot <==> s.producer == Sleeping)
      modifies this
      ensures Is(Step(s, End(j, f))) && (wake <==> s.producer == Sleeping)
    {
      if !f.matchesFilter {
        skipped := skipped + 1;
        wake := ReleaseSlot();
        return;
      }
      if !f.readOk {
        errors := errors + 1;
      } else if f.skip {
        skipped := skipped + 1;
        if f.skipRecordThrows {
          errors := errors + 1;
        }
      } else if !f.wrapOk {
        errors := errors + 1;
      } else if f.cacheFresh && !f.cacheRecordThrows {
        cached := cached + 1;
      } else if f.compileThrows || f.afterwardsThrows || f.finalRecordThrows {
        errors := errors + 1;
      } else if f.compileOk {
        compiled := compiled + 1;
      } else {
        errors := errors + 1;
      }
      wake := ReleaseSlot();
    }
  }

  // ---- Batches ----

  /** `Math.ceil(tests / batches)`. */
  function BatchSize(tests: nat, batches: nat): nat
    requires batches > 0
  {
    (tests + batches - 1) / batches
  }

  /** `slice`, which clamps its bounds. */
  function Slice<T>(xs: seq<T>, from: nat, to: nat): seq<T> {
    var a := if from < |xs| then from else |xs|;
    var b := if to < |xs| then to else |xs|;
    if a <= b then xs[a..b] else []
  }

  lemma BatchesReachTheEnd(tests: nat, batches: nat)
    requires batches > 0
    ensures batches * BatchSize(tests, batches) >= tests
  {
    var n := tests + batches - 1;
    assert n == batches * (n / batches) + n % batches;
  }

  lemma NextBatch<T>(all: seq<T>, b: nat, size: nat)
    ensures Slice(all, 0, b * size) + Slice(all, b * size, (b + 1) * size) == Slice(all, 0, (b + 1) * size)
  {
    assert (b + 1) * size == b * size + size;
  }

  /** The batches, one after the other, are the list of all tests: each test is in exactly one. Without a positive number
      of batches nothing is processed. */
  method RunBatches<T>(allTests: seq<T>, batches: int) returns (processed: seq<T>)
    ensures processed == if batches > 0 then allTests else []
  {
    processed := [];
    if batches <= 0 {
      return;
    }
    var batchSize := BatchSize(|allTests|, batches);
    for b := 0 to batches
      invariant processed == Slice(allTests, 0, b * batchSize)
    {
      NextBatch(allTests, b, batchSize);
      processed := processed + Slice(allTests, b * batchSize, (b + 1) * batchSize);
    }
    BatchesReachTheEnd(|allTests|, batches);
  }
}
