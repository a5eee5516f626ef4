/** The hand-built bodies of the scalar `indexOf` and `fill` benchmarks, and the string writer. */
module EmittedScans {
  import opened Wrappers
  import opened Wasm
  import opened EmittedLoops

  /** The `size` words of the array at `arr` lie inside the memory. */
  ghost predicate InMemory(m: seq<Byte>, arr: int, size: int) {
    0 <= arr && 0 <= size && arr + 16 + 4 * size <= |m| <= TWO32
  }

  /** Elements start after the 16-byte array header. */
  ghost function DataStart(arr: int): int {
    arr + 16
  }

  ghost function Element(m: seq<Byte>, arr: nat, k: nat): U32
    requires arr + 16 + 4 * k + 4 <= |m|
  {
    LoadWord(m, arr + 16 + 4 * k)
  }

  /** The address computation does not wrap for an element inside the memory. */
  lemma AddressIsExact(arr: U32, k: U32)
    requires arr + 4 * k < TWO32
    ensures Sum(arr, Product(k, 4)) == arr + 4 * k
  {
  }

  /** `ElementAddress(j)` followed by straight-line code. */
  lemma AddressFlows(j: nat, rest: seq<Instr>, s: Store, s1: Store, st1: seq<U32>)
    requires 0 < |s.locals| && j < |s.locals| && s.locals[0] + 4 * s.locals[j] < TWO32
    requires Flows(rest, s, [] + [s.locals[0] + 4 * s.locals[j]], s1, st1)
    ensures Flows(ElementAddress(j) + rest, s, [], s1, st1)
  {
    hide Flows;
    var a, k := s.locals[0], s.locals[j];
    AddressIsExact(a, k);
    var r0 := [I32Add] + rest;
    FlowAdd(rest, s, [], a, Product(k, 4), s1, st1);
    FlowMul(r0, s, [] + [a], k, 4, s1, st1);
    FlowConst(4, [I32Mul] + r0, s, [] + [a] + [k], s1, st1);
    FlowGet(j, [I32Const(4)] + ([I32Mul] + r0), s, [] + [a], s1, st1);
    FlowGet(0, [LocalGet(j)] + ([I32Const(4)] + ([I32Mul] + r0)), s, [], s1, st1);
    assert ElementAddress(j) + rest == [LocalGet(0)] + ([LocalGet(j)] + ([I32Const(4)] + ([I32Mul] + r0)));
  }

  // ---- indexOf ----

  /** The least index from `k` on whose element is `v`, or `size`. */
  ghost function FirstFrom(m: seq<Byte>, arr: nat, v: U32, k: nat, size: nat): (r: nat)
    requires k <= size && arr + 16 + 4 * size <= |m|
    ensures k <= r <= size
    ensures r < size ==> Element(m, arr, r) == v
    ensures forall q :: k <= q < r ==> Element(m, arr, q) != v
    decreases size - k
  {
    if k == size || Element(m, arr, k) == v then k else FirstFrom(m, arr, v, k + 1, size)
  }

  ghost function Target(size: U32): U32 {
    (size - 1) % TWO32
  }

  ghost function FirstIndex(s: Store, size: U32): nat
    requires 0 < |s.locals| && InMemory(s.memory, s.locals[0], size)
  {
    FirstFrom(s.memory, s.locals[0], Target(size), 0, size)
  }

  /** What one pass adds to the sum: the index found, or nothing. */
  ghost function Gain(s: Store, size: U32): U32
    requires 0 < |s.locals| && InMemory(s.memory, s.locals[0], size)
  {
    var r := FirstIndex(s, size);
    if r < size then r else 0
  }

  function IndexOfBody(size: U32): seq<Instr> {
    ElementAddress(3) + [I32Load(16), I32Const((size - 1) % TWO32), I32Eq] + [If(Hit())]
  }

  lemma HitRuns(s: Store)
    requires 4 <= |s.locals|
    ensures Runs(Hit(), s, [], Branch(2, At(s, 2, Sum(s.locals[3], s.locals[2]))))
  {
    hide Exec, Flows, Runs;
    var k, sum := s.locals[3], s.locals[2];
    var s1 := At(s, 2, Sum(k, sum));
    FlowsEmpty(s1, []);
    FlowSet(2, [], s, [], Sum(k, sum), s1, []);
    FlowAdd([LocalSet(2)] + [], s, [], k, sum, s1, []);
    FlowGet(2, [I32Add] + ([LocalSet(2)] + []), s, [] + [k], s1, []);
    FlowGet(3, [LocalGet(2)] + ([I32Add] + ([LocalSet(2)] + [])), s, [], s1, []);
    var head := [LocalGet(3)] + ([LocalGet(2)] + ([I32Add] + ([LocalSet(2)] + [])));
    FlowsRuns(head, s, [], s1, []);
    BrRuns(2, s1);
    RunsThen(head, [Br(2)], s, [], s1, [], Branch(2, s1));
    assert head + [Br(2)] == Hit();
  }

  lemma CompareFlows(size: U32, s: Store)
    requires 4 <= |s.locals| && InMemory(s.memory, s.locals[0], size) && s.locals[3] < size
    ensures Flows(ElementAddress(3) + [I32Load(16), I32Const((size - 1) % TWO32), I32Eq], s, [], s,
                  [] + [if Element(s.memory, s.locals[0], s.locals[3]) == Target(size) then 1 else 0])
  {
    hide Flows;
    var a: U32 := s.locals[0] + 4 * s.locals[3];
    var w, t := Element(s.memory, s.locals[0], s.locals[3]), Target(size);
    assert EffectiveAddress(a, 16) == s.locals[0] + 16 + 4 * s.locals[3];
    var out := [] + [if w == t then 1 else 0];
    FlowsEmpty(s, out);
    FlowEq([], s, [], w, t, s, out);
    FlowConst(t, [I32Eq] + [], s, [] + [w], s, out);
    FlowLoad(16, [I32Const(t)] + ([I32Eq] + []), s, [], a, s, out);
    AddressFlows(3, [I32Load(16)] + ([I32Const(t)] + ([I32Eq] + [])), s, s, out);
    assert [I32Load(16)] + ([I32Const(t)] + ([I32Eq] + [])) == [I32Load(16), I32Const(t), I32Eq];
  }

  /** One turn of the inner loop: a match adds the index to the sum and leaves the scan. */
  lemma IndexOfBodyRuns(size: U32, s: Store)
    requires 4 <= |s.locals| && InMemory(s.memory, s.locals[0], size) && s.locals[3] < size
    ensures Runs(IndexOfBody(size), s, [],
                 if Element(s.memory, s.locals[0], s.locals[3]) == Target(size)
                 then Branch(1, At(s, 2, Sum(s.locals[3], s.locals[2]))) else Done(s, []))
  {
    hide Exec, Flows, Runs;
    var hit := Element(s.memory, s.locals[0], s.locals[3]) == Target(size);
    var c: U32 := if hit then 1 else 0;
    var head := ElementAddress(3) + [I32Load(16), I32Const((size - 1) % TWO32), I32Eq];
    CompareFlows(size, s);
    FlowsRuns(head, s, [], s, [] + [c]);
    HitRuns(s);
    var o := if hit then Branch(2, At(s, 2, Sum(s.locals[3], s.locals[2]))) else Done(s, []);
    RunsIf(Hit(), s, [], c, o);
    RunsThen(head, [If(Hit())], s, [], s, [] + [c], Leave(o, []));
  }

  /** One pass leaves the index local at the first match and adds that index to the sum, or nothing. */
  lemma IndexOfPassRuns(size: U32, s: Store)
    requires 4 <= |s.locals| && InMemory(s.memory, s.locals[0], size)
    ensures Runs(IndexOfPass(size), s, [],
                 Done(At(At(s, 3, FirstIndex(s, size)), 2, Sum(Gain(s, size), s.locals[2])), []))
  {
    hide Exec, Runs;
    var r := FirstIndex(s, size);
    var xs := seq(r + 1, _ => s);
    forall k: nat | k < r ensures RunsFrom(3, IndexOfBody(size), xs, k) {
      IndexOfBodyRuns(size, At(s, 3, k));
    }
    if r < size {
      IndexOfBodyRuns(size, At(s, 3, r));
      var s1 := At(At(s, 3, r), 2, Sum(r, s.locals[2]));
      LoopNStopsWithBody(3, size, IndexOfBody(size), xs, s, [], Branch(1, s1));
    } else {
      LoopNRunsBodyNTimes(3, size, IndexOfBody(size), xs, s, []);
      assert At(At(s, 3, r), 2, Sum(0, s.locals[2])) == At(s, 3, r);
    }
  }

  lemma SumOfMultiple(k: nat, g: nat)
    ensures Sum(g, k * g % TWO32) == (k + 1) * g % TWO32
  {
    assert (k + 1) * g == k * g + g;
  }

  /** The store after `k` passes, up to the pass counter. */
  ghost function AfterPasses(s: Store, size: U32, k: nat): Store
    requires 4 <= |s.locals| && InMemory(s.memory, s.locals[0], size)
  {
    At(At(s, 3, if k == 0 then s.locals[3] else FirstIndex(s, size)), 2, k * Gain(s, size) % TWO32)
  }

  lemma PassesRun(size: U32, passes: U32, s: Store, k: nat)
    requires 4 <= |s.locals| && InMemory(s.memory, s.locals[0], size) && k < TWO32
    ensures Runs(IndexOfPass(size), At(AfterPasses(s, size, k), 1, k), [],
                 Done(At(AfterPasses(s, size, k + 1), 1, k), []))
  {
    hide Runs, IndexOfPass;
    var t := At(AfterPasses(s, size, k), 1, k);
    assert t.memory == s.memory && t.locals[0] == s.locals[0];
    IndexOfPassRuns(size, t);
    SumOfMultiple(k, Gain(s, size));
    assert At(At(t, 3, FirstIndex(t, size)), 2, Sum(Gain(t, size), t.locals[2])) == At(AfterPasses(s, size, k + 1), 1, k);
  }

  /** The emitted function returns `passes` times the first index holding `size - 1`, modulo 2^32, and writes nothing
      to memory. */
  lemma IndexOfFuncReturns(size: U32, passes: U32, s: Store)
    requires 4 <= |s.locals| && InMemory(s.memory, s.locals[0], size)
    ensures exists s1: Store ::
              && Runs(IndexOfFunc(size, passes), s, [], Done(s1, [Product(passes, Gain(s, size))]))
              && s1.memory == s.memory && |s1.locals| == |s.locals| && s1.locals[0] == s.locals[0]
  {
    hide Exec, Flows, Runs, IndexOfPass;
    ResetRuns(2, s, []);
    var s0 := At(s, 2, 0);
    var xs := seq(passes + 1, k requires 0 <= k <= passes => AfterPasses(s, size, k));
    forall k: nat | k < passes ensures RunsFrom(1, IndexOfPass(size), xs, k) {
      PassesRun(size, passes, s, k);
    }
    assert AfterPasses(s, size, 0) == s0;
    LoopNRunsBodyNTimes(1, passes, IndexOfPass(size), xs, s0, []);
    var s1 := At(AfterPasses(s, size, passes), 1, passes);
    var head := [I32Const(0), LocalSet(2)] + LoopN(1, passes, IndexOfPass(size));
    RunsThen([I32Const(0), LocalSet(2)], LoopN(1, passes, IndexOfPass(size)), s, [], s0, [], Done(s1, []));
    FlowsEmpty(s1, [] + [s1.locals[2]]);
    FlowGet(2, [], s1, [], s1, [] + [s1.locals[2]]);
    FlowsRuns([LocalGet(2)] + [], s1, [], s1, [] + [s1.locals[2]]);
    RunsThen(head, [LocalGet(2)] + [], s, [], s1, [], Done(s1, [] + [s1.locals[2]]));
    assert head + ([LocalGet(2)] + []) == IndexOfFunc(size, passes);
    assert [] + [s1.locals[2]] == [Product(passes, Gain(s, size))];
  }

  // ---- fill ----

  /** `m` with 42 in the first `k` words from `a` and every other byte as it was. */
  ghost function Filled(m: seq<Byte>, a: nat, k: nat): seq<Byte> {
    seq(|m|, x requires 0 <= x < |m| => if a <= x < a + 4 * k then (if (x - a) % 4 == 0 then 42 else 0) else m[x])
  }

  lemma FilledMeans(m: seq<Byte>, a: nat, k: nat, j: nat)
    requires a + 4 * k <= |m| && j < k
    ensures LoadWord(Filled(m, a, k), a + 4 * j) == 42
    ensures |Filled(m, a, k)| == |m| && forall x :: 0 <= x < |m| && !(a <= x < a + 4 * k) ==> Filled(m, a, k)[x] == m[x]
  {
    var f, b := Filled(m, a, k), a + 4 * j;
    assert (b - a) % 4 == 0 && (b + 1 - a) % 4 == 1 && (b + 2 - a) % 4 == 2 && (b + 3 - a) % 4 == 3;
  }

  lemma FillOneMore(m: seq<Byte>, a: nat, k: nat)
    requires a + 4 * k + 4 <= |m|
    ensures StoreWord(Filled(m, a, k), a + 4 * k, 42) == Filled(m, a, k + 1)
  {
    var b := a + 4 * k;
    assert (b - a) % 4 == 0 && (b + 1 - a) % 4 == 1 && (b + 2 - a) % 4 == 2 && (b + 3 - a) % 4 == 3;
  }

  function FillBody(): seq<Instr> {
    ElementAddress(2) + [I32Const(42), I32Store(16)]
  }

  lemma FillBodyRuns(size: U32, s: Store)
    requires 3 <= |s.locals| && InMemory(s.memory, s.locals[0], size) && s.locals[2] < size
    ensures Runs(FillBody(), s, [],
                 Done(s.(memory := StoreWord(s.memory, s.locals[0] + 16 + 4 * s.locals[2], 42)), []))
  {
    hide Flows, Runs;
    var a: U32 := s.locals[0] + 4 * s.locals[2];
    assert EffectiveAddress(a, 16) == s.locals[0] + 16 + 4 * s.locals[2];
    var s1 := s.(memory := StoreWord(s.memory, EffectiveAddress(a, 16), 42));
    FlowsEmpty(s1, []);
    FlowStore(16, [], s, [], a, 42, s1, []);
    FlowConst(42, [I32Store(16)] + [], s, [] + [a], s1, []);
    AddressFlows(2, [I32Const(42)] + ([I32Store(16)] + []), s, s1, []);
    assert [I32Const(42)] + ([I32Store(16)] + []) == [I32Const(42), I32Store(16)];
    FlowsRuns(FillBody(), s, [], s1, []);
  }

  ghost function FilledStore(s: Store, k: nat): Store
    requires 3 <= |s.locals|
  {
    s.(memory := Filled(s.memory, DataStart(s.locals[0]), k))
  }

  lemma FillPassRuns(size: U32, s: Store)
    requires 3 <= |s.locals| && InMemory(s.memory, s.locals[0], size)
    ensures Runs(FillPass(size), s, [], Done(At(FilledStore(s, size), 2, size), []))
  {
    hide Exec, Runs;
    var xs := seq(size + 1, k requires 0 <= k <= size => FilledStore(s, k));
    forall k: nat | k < size ensures RunsFrom(2, FillBody(), xs, k) {
      FillBodyRuns(size, At(FilledStore(s, k), 2, k));
      FillOneMore(s.memory, DataStart(s.locals[0]), k);
    }
    assert FilledStore(s, 0) == s;
    LoopNRunsBodyNTimes(2, size, FillBody(), xs, s, []);
  }

  lemma FillTwice(m: seq<Byte>, a: nat, k: nat)
    ensures Filled(Filled(m, a, k), a, k) == Filled(m, a, k)
  {
  }

  ghost function AfterFills(s: Store, size: U32, k: nat): Store
    requires 3 <= |s.locals|
  {
    if k == 0 then s else At(FilledStore(s, size), 2, size)
  }

  /** The emitted function returns 0; it writes 42 to words 0 .. size-1 of the array and changes no other byte
      (and nothing at all when there are no passes). */
  lemma FillFuncFills(size: U32, passes: U32, s: Store)
    requires 3 <= |s.locals| && InMemory(s.memory, s.locals[0], size)
    ensures exists s1: Store ::
              && Runs(FillFunc(size, passes), s, [], Done(s1, [0]))
              && s1.memory == (if passes == 0 then s.memory else Filled(s.memory, DataStart(s.locals[0]), size))
              && |s1.locals| == |s.locals| && s1.locals[0] == s.locals[0]
  {
    hide Exec, Flows, Runs, FillPass;
    var xs := seq(passes + 1, k requires 0 <= k <= passes => AfterFills(s, size, k));
    forall k: nat | k < passes ensures RunsFrom(1, FillPass(size), xs, k) {
      var t := At(AfterFills(s, size, k), 1, k);
      FillPassRuns(size, t);
      FillTwice(s.memory, DataStart(s.locals[0]), size);
      assert At(FilledStore(t, size), 2, size) == At(AfterFills(s, size, k + 1), 1, k);
    }
    LoopNRunsBodyNTimes(1, passes, FillPass(size), xs, s, []);
    var s1 := At(AfterFills(s, size, passes), 1, passes);
    FlowsEmpty(s1, [] + [0]);
    FlowConst(0, [], s1, [], s1, [] + [0]);
    FlowsRuns([I32Const(0)] + [], s1, [], s1, [] + [0]);
    RunsThen(LoopN(1, passes, FillPass(size)), [I32Const(0)] + [], s, [], s1, [], Done(s1, [] + [0]));
    assert LoopN(1, passes, FillPass(size)) + ([I32Const(0)] + []) == FillFunc(size, passes);
    assert [] + [0] == [0];
  }

  // ---- writeStr ----

  ghost function Written(m: seq<Byte>, off: nat, bytes: seq<Byte>): seq<Byte>
    requires off + |bytes| <= |m|
  {
    m[..off] + bytes + m[off + |bytes|..]
  }

  /** The emitted stores put the bytes at `off` and nowhere else when they fit, and trap when they do not. */
  lemma {:induction false} WriteStrRuns(bytes: seq<Byte>, off: nat, s: Store, st: seq<U32>)
    requires off + |bytes| <= TWO32
    ensures off + |bytes| <= |s.memory| || bytes == [] ==>
              Runs(WriteStr(bytes, off), s, st,
                   Done(if bytes == [] then s else s.(memory := Written(s.memory, off, bytes)), st))
    ensures off + |bytes| > |s.memory| && bytes != [] ==> Runs(WriteStr(bytes, off), s, st, Trap)
    decreases |bytes|
  {
    hide Exec, ExecOne, Flows, Runs;
    if bytes == [] {
      FlowsEmpty(s, st);
      FlowsRuns([], s, st, s, st);
    } else {
      var one, rest := [I32Const(off), I32Const(bytes[0]), I32Store8(0)], WriteStr(bytes[1..], off + 1);
      if off < |s.memory| {
        WriteByteRuns(bytes[0], off, s, st);
        var s1 := s.(memory := s.memory[off := bytes[0]]);
        WriteStrRuns(bytes[1..], off + 1, s1, st);
        if off + |bytes| <= |s.memory| {
          assert Written(s.memory, off, bytes) ==
                 if bytes[1..] == [] then s1.memory else Written(s1.memory, off + 1, bytes[1..]);
          RunsThen(one, rest, s, st, s1, st, Done(s.(memory := Written(s.memory, off, bytes)), st));
        } else {
          RunsThen(one, rest, s, st, s1, st, Trap);
        }
      } else {
        WriteByteTraps(bytes[0], off, s, st);
        RunsOut(one, rest, s, st, Trap);
      }
    }
  }

  lemma WriteByteRuns(b: Byte, off: U32, s: Store, st: seq<U32>)
    requires off < |s.memory|
    ensures Runs([I32Const(off), I32Const(b), I32Store8(0)], s, st, Done(s.(memory := s.memory[off := b]), st))
  {
    hide Flows, Runs;
    var s1 := s.(memory := s.memory[off := b]);
    assert EffectiveAddress(off, 0) == off;
    FlowsEmpty(s1, st);
    FlowStore8(0, [], s, st, off, b, s1, st);
    FlowConst(b, [I32Store8(0)] + [], s, st + [off], s1, st);
    FlowConst(off, [I32Const(b)] + ([I32Store8(0)] + []), s, st, s1, st);
    FlowsRuns([I32Const(off)] + ([I32Const(b)] + ([I32Store8(0)] + [])), s, st, s1, st);
    assert [I32Const(off)] + ([I32Const(b)] + ([I32Store8(0)] + [])) == [I32Const(off), I32Const(b), I32Store8(0)];
  }

  lemma WriteByteTraps(b: Byte, off: U32, s: Store, st: seq<U32>)
    requires off >= |s.memory|
    ensures Runs([I32Const(off), I32Const(b), I32Store8(0)], s, st, Trap)
  {
    var full := st + [off] + [b];
    FlowsEmpty(s, full);
    FlowConst(b, [], s, st + [off], s, full);
    FlowConst(off, [I32Const(b)] + [], s, st, s, full);
    var head := [I32Const(off)] + ([I32Const(b)] + []);
    FlowsRuns(head, s, st, s, full);
    Operands(st, off, b);
    assert EffectiveAddress(off, 0) == off;
    RunsOne(I32Store8(0), s, full, 0);
    RunsThen(head, [I32Store8(0)], s, st, s, full, Trap);
    assert head + [I32Store8(0)] == [I32Const(off), I32Const(b), I32Store8(0)];
  }
}
