/** The instruction lists of benchmarks/simd-perf.ts and what they do when run. */
module EmittedLoops {
  import opened Wrappers
  import opened Wasm

  // ---- The emitters ----

  function Guard(i: nat, n: U32): seq<Instr> {
    [LocalGet(i), I32Const(n), I32GeU, BrIf(1)]
  }

  function Advance(i: nat): seq<Instr> {
    [LocalGet(i), I32Const(1), I32Add, LocalSet(i), Br(0)]
  }

  /** A counted loop over local `i`, starting from its current value. */
  function CountedLoop(i: nat, n: U32, body: seq<Instr>): seq<Instr> {
    [Block([Loop(Guard(i, n) + body + Advance(i))])]
  }

  /** `loopN`. */
  function LoopN(i: nat, n: U32, body: seq<Instr>): seq<Instr> {
    [I32Const(0), LocalSet(i)] + CountedLoop(i, n, body)
  }

  /** The element address `arr + 4 * j`, before the constant offset of 16. */
  function ElementAddress(j: nat): seq<Instr> {
    [LocalGet(0), LocalGet(j), I32Const(4), I32Mul, I32Add]
  }

  function Hit(): seq<Instr> {
    [LocalGet(3), LocalGet(2), I32Add, LocalSet(2), Br(2)]
  }

  /** What each pass of `bench_arr_indexOf_scalar_*` does with local 3 as index and local 2 as sum. */
  function IndexOfPass(size: U32): seq<Instr> {
    LoopN(3, size,
          ElementAddress(3) + [I32Load(16), I32Const((size - 1) % TWO32), I32Eq] + [If(Hit())])
  }

  function IndexOfFunc(size: U32, passes: U32): seq<Instr> {
    [I32Const(0), LocalSet(2)] + LoopN(1, passes, IndexOfPass(size)) + [LocalGet(2)]
  }

  /** What each pass of `bench_arr_fill_scalar_*` does with local 2 as index. */
  function FillPass(size: U32): seq<Instr> {
    LoopN(2, size, ElementAddress(2) + [I32Const(42), I32Store(16)])
  }

  function FillFunc(size: U32, passes: U32): seq<Instr> {
    LoopN(1, passes, FillPass(size)) + [I32Const(0)]
  }

  /** `writeStr` for the encoded bytes of the string. */
  function WriteStr(bytes: seq<Byte>, off: nat): seq<Instr>
    requires off + |bytes| <= TWO32
  {
    if bytes == [] then []
    else [I32Const(off), I32Const(bytes[0]), I32Store8(0)] + WriteStr(bytes[1..], off + 1)
  }

  // ---- Counted loops ----

  ghost function At(s: Store, i: nat, k: U32): Store
    requires i < |s.locals|
  {
    s.(locals := s.locals[i := k])
  }

  lemma GuardRuns(i: nat, n: U32, s: Store)
    requires i < |s.locals|
    ensures Runs(Guard(i, n), s, [], if s.locals[i] >= n then Branch(1, s) else Done(s, []))
  {
    hide Exec, Flows, Runs;
    var v := s.locals[i];
    var c: U32 := if v >= n then 1 else 0;
    FlowsEmpty(s, [] + [c]);
    FlowGeU([], s, [], v, n, s, [] + [c]);
    FlowConst(n, [I32GeU] + [], s, [] + [v], s, [] + [c]);
    FlowGet(i, [I32Const(n)] + ([I32GeU] + []), s, [], s, [] + [c]);
    var head := [LocalGet(i)] + ([I32Const(n)] + ([I32GeU] + []));
    FlowsRuns(head, s, [], s, [] + [c]);
    RunsOne(BrIf(1), s, [] + [c], 0);
    RunsThen(head, [BrIf(1)], s, [], s, [] + [c], if v >= n then Branch(1, s) else Done(s, []));
    assert head + [BrIf(1)] == Guard(i, n);
  }

  lemma BrRuns(d: nat, s: Store)
    ensures Runs([Br(d)], s, [], Branch(d, s))
  {
    RunsOne(Br(d), s, [], 0);
  }

  lemma AdvanceRuns(i: nat, s: Store)
    requires i < |s.locals| && s.locals[i] + 1 < TWO32
    ensures Runs(Advance(i), s, [], Branch(0, At(s, i, s.locals[i] + 1)))
  {
    hide Exec, Flows, Runs;
    var v := s.locals[i];
    var w := Sum(v, 1);
    var s1 := At(s, i, w);
    FlowsEmpty(s1, []);
    FlowSet(i, [], s, [], w, s1, []);
    FlowAdd([LocalSet(i)] + [], s, [], v, 1, s1, []);
    FlowConst(1, [I32Add] + ([LocalSet(i)] + []), s, [] + [v], s1, []);
    FlowGet(i, [I32Const(1)] + ([I32Add] + ([LocalSet(i)] + [])), s, [], s1, []);
    var head := [LocalGet(i)] + ([I32Const(1)] + ([I32Add] + ([LocalSet(i)] + [])));
    FlowsRuns(head, s, [], s1, []);
    BrRuns(0, s1);
    RunsThen(head, [Br(0)], s, [], s1, [], Branch(0, s1));
    assert head + [Br(0)] == Advance(i);
    assert w == v + 1;
  }

  /** `xs[k]` is the store before the `k`-th execution of `body` (whatever the counter holds there); each execution
      ends normally and leaves the counter alone. */
  ghost predicate BodyRuns(i: nat, body: seq<Instr>, xs: seq<Store>) {
    && |xs| > 0
    && (forall k :: 0 <= k < |xs| ==> i < |xs[k].locals|)
    && (forall k :: 0 <= k < |xs| - 1 ==> RunsFrom(i, body, xs, k))
  }

  ghost predicate RunsFrom(i: nat, body: seq<Instr>, xs: seq<Store>, k: nat)
    requires k + 1 < |xs| && i < |xs[k].locals| && i < |xs[k + 1].locals|
  {
    k < TWO32 && Runs(body, At(xs[k], i, k), [], Done(At(xs[k + 1], i, k), []))
  }

  /** One turn of the loop whose body ends normally. */
  lemma Turn(i: nat, n: U32, body: seq<Instr>, s: Store, s1: Store)
    requires i < |s.locals| && i < |s1.locals| && s.locals[i] < n && s1.locals[i] == s.locals[i]
    requires Runs(body, s, [], Done(s1, []))
    ensures Runs(Guard(i, n) + body + Advance(i), s, [], Branch(0, At(s1, i, s.locals[i] + 1)))
  {
    GuardRuns(i, n, s);
    RunsThen(Guard(i, n), body, s, [], s, [], Done(s1, []));
    AdvanceRuns(i, s1);
    RunsThen(Guard(i, n) + body, Advance(i), s, [], s1, [], Branch(0, At(s1, i, s.locals[i] + 1)));
  }

  /** From iteration `k` on, with nothing stopping the body, the loop label is left through the guard. */
  lemma {:induction false} LoopToEnd(i: nat, n: U32, body: seq<Instr>, xs: seq<Store>, k: nat)
    requires BodyRuns(i, body, xs) && |xs| == n + 1 && k <= n
    ensures Runs([Loop(Guard(i, n) + body + Advance(i))], At(xs[k], i, k), [], Branch(0, At(xs[n], i, n)))
    decreases n - k
  {
    var code, s := Guard(i, n) + body + Advance(i), At(xs[k], i, k);
    if k == n {
      GuardRuns(i, n, s);
      RunsOut(Guard(i, n), body, s, [], Branch(1, s));
      RunsOut(Guard(i, n) + body, Advance(i), s, [], Branch(1, s));
      RunsLoopOut(code, s, [], Branch(1, s));
    } else {
      var s1 := At(xs[k + 1], i, k);
      assert RunsFrom(i, body, xs, k);
      Turn(i, n, body, s, s1);
      assert At(s1, i, k + 1) == At(xs[k + 1], i, k + 1);
      LoopToEnd(i, n, body, xs, k + 1);
      RunsLoopAgain(code, s, [], At(xs[k + 1], i, k + 1), Branch(0, At(xs[n], i, n)));
    }
  }

  /** The `m`-th execution of the body does not end normally: it breaks out of the block, branches further out,
      or traps. */
  lemma {:induction false} LoopToStop(i: nat, n: U32, body: seq<Instr>, xs: seq<Store>, k: nat, o: Outcome)
    requires BodyRuns(i, body, xs) && k < |xs| <= n
    requires Runs(body, At(xs[|xs| - 1], i, |xs| - 1), [], o) && !o.Done? && !(o.Branch? && o.depth == 0)
    ensures Runs([Loop(Guard(i, n) + body + Advance(i))], At(xs[k], i, k), [], Leave(o, []))
    decreases |xs| - k
  {
    var code, s := Guard(i, n) + body + Advance(i), At(xs[k], i, k);
    if k == |xs| - 1 {
      GuardRuns(i, n, s);
      RunsThen(Guard(i, n), body, s, [], s, [], o);
      RunsOut(Guard(i, n) + body, Advance(i), s, [], o);
      RunsLoopOut(code, s, [], o);
    } else {
      var s1 := At(xs[k + 1], i, k);
      assert RunsFrom(i, body, xs, k);
      Turn(i, n, body, s, s1);
      assert At(s1, i, k + 1) == At(xs[k + 1], i, k + 1);
      LoopToStop(i, n, body, xs, k + 1, o);
      RunsLoopAgain(code, s, [], At(xs[k + 1], i, k + 1), Leave(o, []));
    }
  }

  lemma ResetRuns(i: nat, s: Store, st: seq<U32>)
    requires i < |s.locals|
    ensures Runs([I32Const(0), LocalSet(i)], s, st, Done(At(s, i, 0), st))
  {
    hide Exec, Flows, Runs;
    FlowsEmpty(At(s, i, 0), st);
    FlowSet(i, [], s, st, 0, At(s, i, 0), st);
    FlowConst(0, [LocalSet(i)] + [], s, st, At(s, i, 0), st);
    FlowsRuns([I32Const(0)] + ([LocalSet(i)] + []), s, st, At(s, i, 0), st);
    assert [I32Const(0)] + ([LocalSet(i)] + []) == [I32Const(0), LocalSet(i)];
  }

  /** `loopN` runs a well-behaved body exactly `n` times and ends with the counter at `n`. */
  lemma LoopNRunsBodyNTimes(i: nat, n: U32, body: seq<Instr>, xs: seq<Store>, s: Store, st: seq<U32>)
    requires BodyRuns(i, body, xs) && |xs| == n + 1
    requires i < |s.locals| && At(s, i, 0) == At(xs[0], i, 0)
    ensures Runs(LoopN(i, n, body), s, st, Done(At(xs[n], i, n), st))
  {
    ResetRuns(i, s, st);
    LoopToEnd(i, n, body, xs, 0);
    RunsBlock([Loop(Guard(i, n) + body + Advance(i))], At(s, i, 0), st, Branch(0, At(xs[n], i, n)));
    RunsThen([I32Const(0), LocalSet(i)], CountedLoop(i, n, body), s, st, At(s, i, 0), st, Done(At(xs[n], i, n), st));
  }

  /** If the body stops the loop in its `m`-th execution, `loopN` ends there: a `br 1` of the body leaves the loop
      with the store it had, a trap traps, and a branch further out goes two labels less far. */
  lemma LoopNStopsWithBody(i: nat, n: U32, body: seq<Instr>, xs: seq<Store>, s: Store, st: seq<U32>, o: Outcome)
    requires BodyRuns(i, body, xs) && |xs| <= n
    requires i < |s.locals| && At(s, i, 0) == At(xs[0], i, 0)
    requires Runs(body, At(xs[|xs| - 1], i, |xs| - 1), [], o) && !o.Done? && !(o.Branch? && o.depth == 0)
    ensures Runs(LoopN(i, n, body), s, st, Leave(Leave(o, []), st))
  {
    ResetRuns(i, s, st);
    LoopToStop(i, n, body, xs, 0, o);
    RunsBlock([Loop(Guard(i, n) + body + Advance(i))], At(s, i, 0), st, Leave(o, []));
    RunsThen([I32Const(0), LocalSet(i)], CountedLoop(i, n, body), s, st, At(s, i, 0), st, Leave(Leave(o, []), st));
  }
}
