/** The part of WebAssembly that benchmarks/simd-perf.ts emits by hand, after section 4.4 of the WebAssembly Core
    Specification: structured control, locals, 32-bit integers and one linear memory. */
module Wasm {
  import opened Wrappers

  const TWO32: int := 0x1_0000_0000

  type U32 = x: int | 0 <= x < 0x1_0000_0000

  datatype Instr =
    | I32Const(value: U32)
    | LocalGet(index: nat)
    | LocalSet(index: nat)
    | I32Add
    | I32Mul
    | I32GeU
    | I32Eq
    | I32Load(offset: U32)
    | I32Store(offset: U32)
    | I32Store8(offset: U32)
    | Block(body: seq<Instr>)
    | Loop(body: seq<Instr>)
    | If(then_: seq<Instr>)
    | Br(depth: nat)
    | BrIf(depth: nat)

  datatype Store = Store(locals: seq<U32>, memory: seq<Byte>)

  /** How a piece of code ends: normally with an operand stack, by branching to the label `depth` levels out, by
      trapping, outside what validation admits, or not within the given number of loop iterations. */
  datatype Outcome =
    | Done(store: Store, stack: seq<U32>)
    | Branch(depth: nat, store: Store)
    | Trap
    | Invalid
    | Spent

  /** Little-endian word at `a`. */
  function LoadWord(m: seq<Byte>, a: nat): U32
    requires a + 4 <= |m|
  {
    var b0: int, b1: int, b2: int, b3: int := m[a], m[a + 1], m[a + 2], m[a + 3];
    b0 + 256 * b1 + 65536 * b2 + 16777216 * b3
  }

  function StoreWord(m: seq<Byte>, a: nat, v: U32): seq<Byte>
    requires a + 4 <= |m|
  {
    m[a := v % 256][a + 1 := v / 256 % 256][a + 2 := v / 65536 % 256][a + 3 := v / 16777216]
  }

  /** A stored word reads back, and only its four bytes change. */
  lemma StoredWordReadsBack(m: seq<Byte>, a: nat, v: U32)
    requires a + 4 <= |m|
    ensures LoadWord(StoreWord(m, a, v), a) == v && |StoreWord(m, a, v)| == |m|
    ensures forall x :: 0 <= x < |m| && !(a <= x < a + 4) ==> StoreWord(m, a, v)[x] == m[x]
  {
    var w: int := v;
    assert w == w % 256 + 256 * (w / 256) && w / 256 == w / 256 % 256 + 256 * (w / 65536);
    assert w / 65536 == w / 65536 % 256 + 256 * (w / 16777216);
  }

  /** Base and offset are added without wrapping. */
  function EffectiveAddress(base: int, offset: int): int {
    base + offset
  }

  /** Instructions that neither branch nor contain code. */
  function Simple(i: Instr, s: Store, st: seq<U32>): Outcome {
    var n := |st|;
    match i
    case I32Const(v) => Done(s, st + [v])
    case LocalGet(x) => if x < |s.locals| then Done(s, st + [s.locals[x]]) else Invalid
    case LocalSet(x) =>
      if x < |s.locals| && n > 0 then Done(s.(locals := s.locals[x := st[n - 1]]), st[..n - 1]) else Invalid
    case I32Add => if n < 2 then Invalid else Done(s, st[..n - 2] + [Sum(st[n - 2], st[n - 1])])
    case I32Mul =>
      if n < 2 then Invalid else Done(s, st[..n - 2] + [Product(st[n - 2], st[n - 1])])
    case I32GeU => if n < 2 then Invalid else Done(s, st[..n - 2] + [if st[n - 2] >= st[n - 1] then 1 else 0])
    case I32Eq => if n < 2 then Invalid else Done(s, st[..n - 2] + [if st[n - 2] == st[n - 1] then 1 else 0])
    case I32Load(off) =>
      if n < 1 then Invalid
      else
        var a: int := EffectiveAddress(st[n - 1], off);
        if a + 4 > |s.memory| then Trap else Done(s, st[..n - 1] + [LoadWord(s.memory, a)])
    case I32Store(off) =>
      if n < 2 then Invalid
      else
        var a: int := EffectiveAddress(st[n - 2], off);
        if a + 4 > |s.memory| then Trap
        else Done(s.(memory := StoreWord(s.memory, a, st[n - 1])), st[..n - 2])
    case I32Store8(off) =>
      if n < 2 then Invalid
      else
        var a: int := EffectiveAddress(st[n - 2], off);
        if a + 1 > |s.memory| then Trap
        else Done(s.(memory := s.memory[a := st[n - 1] % 256]), st[..n - 2])
    case _ => Invalid
  }

  function Sum(x: int, y: int): U32 {
    (x + y) % TWO32
  }

  function Product(x: int, y: int): U32 {
    x * y % TWO32
  }

  /** Leaving a block of empty type entered with operands `st`: a branch to its own label drops what it left. */
  function Leave(o: Outcome, st: seq<U32>): Outcome {
    match o
    case Done(s, rest) => if rest == [] then Done(s, st) else Invalid
    case Branch(d, s) => if d == 0 then Done(s, st) else Branch(d - 1, s)
    case _ => o
  }

  function ExecOne(fuel: nat, i: Instr, s: Store, st: seq<U32>): Outcome
    decreases fuel, i
  {
    match i
    case Block(body) => Leave(Exec(fuel, body, s, []), st)
    case Loop(body) =>
      var o := Exec(fuel, body, s, []);
      if o.Branch? && o.depth == 0 then
        (if fuel == 0 then Spent else ExecOne(fuel - 1, i, o.store, st))
      else Leave(o, st)
    case If(body) =>
      if st == [] then Invalid
      else if st[|st| - 1] != 0 then Leave(Exec(fuel, body, s, []), st[..|st| - 1])
      else Done(s, st[..|st| - 1])
    case Br(d) => Branch(d, s)
    case BrIf(d) =>
      if st == [] then Invalid
      else if st[|st| - 1] != 0 then Branch(d, s)
      else Done(s, st[..|st| - 1])
    case _ => Simple(i, s, st)
  }

  function Exec(fuel: nat, code: seq<Instr>, s: Store, st: seq<U32>): Outcome
    decreases fuel, code
  {
    if code == [] then Done(s, st)
    else
      var o := ExecOne(fuel, code[0], s, st);
      if o.Done? then Exec(fuel, code[1..], o.store, o.stack) else o
  }

  /** The code ends with outcome `o` after finitely many loop iterations. */
  ghost predicate Runs(code: seq<Instr>, s: Store, st: seq<U32>, o: Outcome) {
    !o.Spent? && exists fuel: nat :: Exec(fuel, code, s, st) == o
  }

  // ---- More fuel changes nothing, so the outcome is unique ----

  lemma {:induction false} MoreFuelOne(fuel: nat, i: Instr, s: Store, st: seq<U32>)
    requires !ExecOne(fuel, i, s, st).Spent?
    ensures ExecOne(fuel + 1, i, s, st) == ExecOne(fuel, i, s, st)
    decreases fuel, i
  {
    match i
    case Block(body) => MoreFuel(fuel, body, s, []);
    case Loop(body) =>
      MoreFuel(fuel, body, s, []);
      var o := Exec(fuel, body, s, []);
      if o.Branch? && o.depth == 0 {
        MoreFuelOne(fuel - 1, i, o.store, st);
      }
    case If(body) =>
      if st != [] && st[|st| - 1] != 0 {
        MoreFuel(fuel, body, s, []);
      }
    case _ =>
  }

  lemma {:induction false} MoreFuel(fuel: nat, code: seq<Instr>, s: Store, st: seq<U32>)
    requires !Exec(fuel, code, s, st).Spent?
    ensures Exec(fuel + 1, code, s, st) == Exec(fuel, code, s, st)
    decreases fuel, code
  {
    if code != [] {
      MoreFuelOne(fuel, code[0], s, st);
      var o := ExecOne(fuel, code[0], s, st);
      if o.Done? {
        MoreFuel(fuel, code[1..], o.store, o.stack);
      }
    }
  }

  lemma {:induction false} EnoughFuel(fuel: nat, more: nat, code: seq<Instr>, s: Store, st: seq<U32>)
    requires fuel <= more && !Exec(fuel, code, s, st).Spent?
    ensures Exec(more, code, s, st) == Exec(fuel, code, s, st)
    decreases more
  {
    if fuel < more {
      EnoughFuel(fuel, more - 1, code, s, st);
      MoreFuel(more - 1, code, s, st);
    }
  }

  lemma OutcomeIsUnique(code: seq<Instr>, s: Store, st: seq<U32>, o: Outcome, o': Outcome)
    requires Runs(code, s, st, o) && Runs(code, s, st, o')
    ensures o == o'
  {
    var f: nat :| Exec(f, code, s, st) == o;
    var f': nat :| Exec(f', code, s, st) == o';
    EnoughFuel(f, if f < f' then f' else f, code, s, st);
    EnoughFuel(f', if f < f' then f' else f, code, s, st);
  }

  // ---- Building runs of larger code from runs of its parts ----

  lemma {:induction false} ExecAppend(fuel: nat, a: seq<Instr>, b: seq<Instr>, s: Store, st: seq<U32>)
    ensures Exec(fuel, a + b, s, st) ==
            var o := Exec(fuel, a, s, st); if o.Done? then Exec(fuel, b, o.store, o.stack) else o
    decreases |a|
  {
    if a == [] {
      assert a + b == b;
    } else {
      assert (a + b)[1..] == a[1..] + b;
      var o := ExecOne(fuel, a[0], s, st);
      if o.Done? {
        ExecAppend(fuel, a[1..], b, o.store, o.stack);
      }
    }
  }

  lemma RunsThen(a: seq<Instr>, b: seq<Instr>, s: Store, st: seq<U32>, s1: Store, st1: seq<U32>, o: Outcome)
    requires Runs(a, s, st, Done(s1, st1)) && Runs(b, s1, st1, o)
    ensures Runs(a + b, s, st, o)
  {
    var f: nat :| Exec(f, a, s, st) == Done(s1, st1);
    var f': nat :| Exec(f', b, s1, st1) == o;
    var m := if f < f' then f' else f;
    EnoughFuel(f, m, a, s, st);
    EnoughFuel(f', m, b, s1, st1);
    ExecAppend(m, a, b, s, st);
  }

  lemma RunsOut(a: seq<Instr>, b: seq<Instr>, s: Store, st: seq<U32>, o: Outcome)
    requires Runs(a, s, st, o) && !o.Done?
    ensures Runs(a + b, s, st, o)
  {
    var f: nat :| Exec(f, a, s, st) == o;
    ExecAppend(f, a, b, s, st);
  }

  lemma RunsOne(i: Instr, s: Store, st: seq<U32>, fuel: nat)
    requires !ExecOne(fuel, i, s, st).Spent?
    ensures Runs([i], s, st, ExecOne(fuel, i, s, st))
  {
    var o := ExecOne(fuel, i, s, st);
    assert [i][0] == i && [i][1..] == [];
    assert Exec(fuel, [i], s, st) == o;
  }

  lemma RunsBlock(body: seq<Instr>, s: Store, st: seq<U32>, o: Outcome)
    requires Runs(body, s, [], o)
    ensures Runs([Block(body)], s, st, Leave(o, st))
  {
    var f: nat :| Exec(f, body, s, []) == o;
    RunsOne(Block(body), s, st, f);
  }

  lemma RunsIf(body: seq<Instr>, s: Store, st: seq<U32>, c: U32, o: Outcome)
    requires if c != 0 then Runs(body, s, [], o) else o == Done(s, [])
    ensures Runs([If(body)], s, st + [c], Leave(o, st))
  {
    assert (st + [c])[..|st + [c]| - 1] == st;
    if c != 0 {
      var f: nat :| Exec(f, body, s, []) == o;
      RunsOne(If(body), s, st + [c], f);
    } else {
      RunsOne(If(body), s, st + [c], 0);
    }
  }

  lemma RunsLoopOut(body: seq<Instr>, s: Store, st: seq<U32>, o: Outcome)
    requires Runs(body, s, [], o) && !(o.Branch? && o.depth == 0)
    ensures Runs([Loop(body)], s, st, Leave(o, st))
  {
    var f: nat :| Exec(f, body, s, []) == o;
    RunsOne(Loop(body), s, st, f);
  }

  lemma RunsLoopAgain(body: seq<Instr>, s: Store, st: seq<U32>, s1: Store, o: Outcome)
    requires Runs(body, s, [], Branch(0, s1)) && Runs([Loop(body)], s1, st, o)
    ensures Runs([Loop(body)], s, st, o)
  {
    var f: nat :| Exec(f, body, s, []) == Branch(0, s1);
    var f': nat :| Exec(f', [Loop(body)], s1, st) == o;
    var m := if f < f' + 1 then f' + 1 else f;
    EnoughFuel(f, m, body, s, []);
    EnoughFuel(f', m - 1, [Loop(body)], s1, st);
    SingleLoop(m - 1, body, s1, st);
    RunsOne(Loop(body), s, st, m);
  }

  lemma SingleLoop(fuel: nat, body: seq<Instr>, s: Store, st: seq<U32>)
    ensures Exec(fuel, [Loop(body)], s, st) == ExecOne(fuel, Loop(body), s, st)
  {
    var code := [Loop(body)];
    assert code[0] == Loop(body) && code[1..] == [];
  }

  /** Straight-line code: every instruction is simple and none of them stops. */
  ghost predicate Flows(code: seq<Instr>, s: Store, st: seq<U32>, s1: Store, st1: seq<U32>) {
    Exec(0, code, s, st) == Done(s1, st1)
  }

  /** One step of straight-line code. */
  lemma FlowsOne(i: Instr, rest: seq<Instr>, s: Store, st: seq<U32>, s1: Store, st1: seq<U32>)
    requires Simple(i, s, st).Done? && !i.Block? && !i.Loop? && !i.If? && !i.Br? && !i.BrIf?
    requires Flows(rest, Simple(i, s, st).store, Simple(i, s, st).stack, s1, st1)
    ensures Flows([i] + rest, s, st, s1, st1)
  {
    assert ([i] + rest)[0] == i && ([i] + rest)[1..] == rest;
  }

  lemma FlowsEmpty(s: Store, st: seq<U32>)
    ensures Flows([], s, st, s, st)
  {
  }

  lemma FlowsRuns(code: seq<Instr>, s: Store, st: seq<U32>, s1: Store, st1: seq<U32>)
    requires Flows(code, s, st, s1, st1)
    ensures Runs(code, s, st, Done(s1, st1))
  {
  }

  // The same, instruction by instruction, for a stack written as a base and the operands pushed on it.

  lemma FlowConst(v: U32, rest: seq<Instr>, s: Store, st: seq<U32>, s1: Store, st1: seq<U32>)
    requires Flows(rest, s, st + [v], s1, st1)
    ensures Flows([I32Const(v)] + rest, s, st, s1, st1)
  {
    FlowsOne(I32Const(v), rest, s, st, s1, st1);
  }

  lemma FlowGet(x: nat, rest: seq<Instr>, s: Store, st: seq<U32>, s1: Store, st1: seq<U32>)
    requires x < |s.locals| && Flows(rest, s, st + [s.locals[x]], s1, st1)
    ensures Flows([LocalGet(x)] + rest, s, st, s1, st1)
  {
    FlowsOne(LocalGet(x), rest, s, st, s1, st1);
  }

  lemma FlowSet(x: nat, rest: seq<Instr>, s: Store, st: seq<U32>, v: U32, s1: Store, st1: seq<U32>)
    requires x < |s.locals| && Flows(rest, s.(locals := s.locals[x := v]), st, s1, st1)
    ensures Flows([LocalSet(x)] + rest, s, st + [v], s1, st1)
  {
    assert (st + [v])[..|st|] == st;
    FlowsOne(LocalSet(x), rest, s, st + [v], s1, st1);
  }

  lemma Operands(st: seq<U32>, a: U32, b: U32)
    ensures var full := st + [a] + [b];
            |full| == |st| + 2 && full[|st|] == a && full[|st| + 1] == b && full[..|st|] == st
  {
  }

  lemma FlowAdd(rest: seq<Instr>, s: Store, st: seq<U32>, a: U32, b: U32, s1: Store, st1: seq<U32>)
    requires Flows(rest, s, st + [Sum(a, b)], s1, st1)
    ensures Flows([I32Add] + rest, s, st + [a] + [b], s1, st1)
  {
    Operands(st, a, b);
    FlowsOne(I32Add, rest, s, st + [a] + [b], s1, st1);
  }

  lemma FlowMul(rest: seq<Instr>, s: Store, st: seq<U32>, a: U32, b: U32, s1: Store, st1: seq<U32>)
    requires Flows(rest, s, st + [Product(a, b)], s1, st1)
    ensures Flows([I32Mul] + rest, s, st + [a] + [b], s1, st1)
  {
    Operands(st, a, b);
    FlowsOne(I32Mul, rest, s, st + [a] + [b], s1, st1);
  }

  lemma FlowGeU(rest: seq<Instr>, s: Store, st: seq<U32>, a: U32, b: U32, s1: Store, st1: seq<U32>)
    requires Flows(rest, s, st + [if a >= b then 1 else 0], s1, st1)
    ensures Flows([I32GeU] + rest, s, st + [a] + [b], s1, st1)
  {
    Operands(st, a, b);
    FlowsOne(I32GeU, rest, s, st + [a] + [b], s1, st1);
  }

  lemma FlowEq(rest: seq<Instr>, s: Store, st: seq<U32>, a: U32, b: U32, s1: Store, st1: seq<U32>)
    requires Flows(rest, s, st + [if a == b then 1 else 0], s1, st1)
    ensures Flows([I32Eq] + rest, s, st + [a] + [b], s1, st1)
  {
    Operands(st, a, b);
    FlowsOne(I32Eq, rest, s, st + [a] + [b], s1, st1);
  }

  lemma FlowLoad(off: U32, rest: seq<Instr>, s: Store, st: seq<U32>, a: U32, s1: Store, st1: seq<U32>)
    requires EffectiveAddress(a, off) + 4 <= |s.memory|
    requires Flows(rest, s, st + [LoadWord(s.memory, EffectiveAddress(a, off))], s1, st1)
    ensures Flows([I32Load(off)] + rest, s, st + [a], s1, st1)
  {
    assert (st + [a])[..|st|] == st;
    FlowsOne(I32Load(off), rest, s, st + [a], s1, st1);
  }

  lemma FlowStore(off: U32, rest: seq<Instr>, s: Store, st: seq<U32>, a: U32, v: U32, s1: Store, st1: seq<U32>)
    requires EffectiveAddress(a, off) + 4 <= |s.memory|
    requires Flows(rest, s.(memory := StoreWord(s.memory, EffectiveAddress(a, off), v)), st, s1, st1)
    ensures Flows([I32Store(off)] + rest, s, st + [a] + [v], s1, st1)
  {
    Operands(st, a, v);
    FlowsOne(I32Store(off), rest, s, st + [a] + [v], s1, st1);
  }

  lemma FlowStore8(off: U32, rest: seq<Instr>, s: Store, st: seq<U32>, a: U32, v: U32, s1: Store, st1: seq<U32>)
    requires EffectiveAddress(a, off) < |s.memory|
    requires Flows(rest, s.(memory := s.memory[EffectiveAddress(a, off) := v % 256]), st, s1, st1)
    ensures Flows([I32Store8(off)] + rest, s, st + [a] + [v], s1, st1)
  {
    Operands(st, a, v);
    FlowsOne(I32Store8(off), rest, s, st + [a] + [v], s1, st1);
  }
}
