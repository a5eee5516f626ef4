/** The same program as the text handed to the compiler (`WASM_SOURCE`): nullable links checked for null everywhere, flags in
    place of `break`, and an update count that is not rounded. */
module CompiledReconciler {
  import opened FiberTree
  import opened Reconciler
  import opened ReconcilerRun

  /** How often `while (i < updateCount)` runs for `updateCount = (n * updatePercent) / 100`. */
  function UnroundedCount(n: nat, updatePercent: nat): nat {
    (n * updatePercent + 99) / 100
  }

  class Program {
    var allNodes: seq<FiberNode?>
    var nodeCount: nat
    ghost var nodes: seq<FiberNode>

    /** `allNodes[0..nodeCount]` holds the nodes, none of them null. */
    ghost predicate Valid()
      reads this
    {
      nodeCount == |nodes| == |allNodes| && forall i :: 0 <= i < |nodes| ==> allNodes[i] == nodes[i]
    }

    constructor ()
      ensures Valid() && nodes == []
    {
      allNodes, nodeCount, nodes := [], 0, [];
    }

    method BuildTree(n: int, seed: nat) returns (root: FiberNode?)
      modifies this
      ensures Valid() && |nodes| == TreeSize(n) && fresh(nodes)
      ensures root == nodes[0] && Built(nodes, TreeSize(n), seed)
    {
      var first := NewRoot(seed);
      allNodes, nodeCount, nodes := [first], 1, [first];
      hide Built, Rng;
      root := first;
      var rng, i := seed, 1;
      while i < n
        invariant 1 <= i <= TreeSize(n)
        invariant Valid() && |nodes| == i && fresh(nodes) && rng == Rng(seed, i - 1)
        invariant root == nodes[0] && Built(nodes, i, seed)
      {
        rng := AddNode(i, seed, rng);
        i := i + 1;
      }
    }

    /** The body of the loop in `buildTree`. */
    method AddNode(i: nat, ghost seed: nat, rng_: nat) returns (rng: nat)
      requires Valid() && Built(nodes, i, seed) && |nodes| == i && i > 0 && rng_ == Rng(seed, i - 1)
      modifies this, nodes`child, nodes`sibling
      ensures Valid() && |nodes| == i + 1 && old(nodes) <= nodes && fresh(nodes[i])
      ensures rng == Rng(seed, i) && Built(nodes, i + 1, seed)
    {
      hide Linked, Pending, Memoized, AllSettled, TreeParents, TreeProps;
      rng := (rng_ * 1103 + 12345) % 100000;
      var node := NewNode(1, i, rng % 1000);
      var parentIdx := rng % nodeCount;
      var parent: FiberNode? := allNodes[parentIdx];
      if parent != null {
        node.return_ := parent;
        ghost var par := TreeParents(i, seed);
        assert Before(nodes, par, parentIdx, node);
        Append(nodes, par, parentIdx, parent, node);
      }
      ParentsGrow(i, seed);
      PropsGrow(nodes, node, i, seed);
      allNodes, nodes := allNodes + [node], nodes + [node];
      nodeCount := nodeCount + 1;
    }

    /** The body of the loop in `applyUpdates`. */
    method UpdateOne(r_: nat) returns (r: nat)
      requires Valid() && Distinct(nodes) && |nodes| > 0
      modifies nodes`pendingProps
      ensures var idx := NextRng(r_);
              r == NextRng(idx) && Pending(nodes) == old(Pending(nodes))[idx % |nodes| := r % 1000]
    {
      var first := (r_ * 1103 + 12345) % 100000;
      var idx := first % nodeCount;
      r := (first * 1103 + 12345) % 100000;
      var nd: FiberNode? := allNodes[idx];
      if nd != null {
        nd.pendingProps := r % 1000;
      }
      assert Pending(nodes) == old(Pending(nodes))[idx := r % 1000];
    }

    method ApplyUpdates(updateCount: real, rng_: nat) returns (rng: nat)
      requires Valid() && Distinct(nodes) && |nodes| > 0 && updateCount >= 0.0
      modifies nodes`pendingProps
      ensures (Pending(nodes), rng) == Updated(old(Pending(nodes)), Ceiling(updateCount), rng_)
    {
      hide Ceiling, Pending, NextRng;
      rng := rng_;
      var i := 0;
      while i as real < updateCount
        invariant 0 <= i <= Ceiling(updateCount)
        invariant (Pending(nodes), rng) == Updated(old(Pending(nodes)), i, rng_)
        decreases Ceiling(updateCount) - i
      {
        BelowCeiling(updateCount, i);
        rng := UpdateOne(rng);
        i := i + 1;
      }
      AtCeiling(updateCount, i);
    }

    method Checksum(ghost props: seq<int>) returns (sum: int)
      requires Valid() && StatesAre(nodes, props)
      ensures sum == Total(props)
    {
      sum := 0;
      var i := 0;
      while i < nodeCount
        invariant 0 <= i <= nodeCount
        invariant sum == Total(props[..i])
      {
        var nd: FiberNode? := allNodes[i];
        if nd != null {
          sum := sum + nd.memoizedState;
        }
        assert props[..i + 1][..i] == props[..i];
        i := i + 1;
      }
      assert props[..nodeCount] == props;
    }

    /** One iteration: a round of updates and a walk. */
    method Iterate(root: FiberNode?, ghost par: seq<nat>, ghost props: seq<int>, updateCount: real, rng_: nat)
      returns (rng: nat, updated: nat)
      requires Valid() && Stands(nodes, par, props) && root == nodes[0] && updateCount >= 0.0
      modifies nodes`pendingProps, nodes`memoizedProps, nodes`memoizedState, nodes`flags
      ensures |props| > 0
      ensures var next := Updated(props, Ceiling(updateCount), rng_);
              Stands(nodes, par, next.0) && rng == next.1 && updated == CountChanged(Indices(|next.0|), next.0, props)
    {
      hide LinksAt, Ceiling, Pending, Memoized, AllSettled, Updated, CountChanged;
      rng := ApplyUpdates(updateCount, rng_);
      updated := Reconcile(root, nodes, par);
    }

    method Loop(root: FiberNode?, ghost par: seq<nat>, ghost props: seq<int>, iterations: nat, updateCount: real, seed: nat)
      returns (total: nat, ghost final: seq<int>, ghost last: nat)
      requires Valid() && Stands(nodes, par, props) && |props| > 0 && |nodes| > 0 && root == nodes[0] && updateCount >= 0.0
      modifies nodes`pendingProps, nodes`memoizedProps, nodes`memoizedState, nodes`flags
      ensures Stands(nodes, par, final) && After(props, iterations, Ceiling(updateCount), seed, final, last, total)
    {
      hide *;
      ghost var count: nat := Ceiling(updateCount);
      AfterNone(props, count, seed);
      var rng, iter := seed, 0;
      total, final := 0, props;
      while iter < iterations
        invariant 0 <= iter <= iterations
        invariant Stands(nodes, par, final) && |final| > 0
        invariant After(props, iter, count, seed, final, rng, total)
      {
        AfterOneMore(props, iter, count, seed, final, rng, total);
        var updated;
        ghost var next := Updated(final, count, rng).0;
        rng, updated := Iterate(root, par, final, updateCount, rng);
        StandsNonEmpty(nodes, par, next);
        total, final := total + updated, next;
        iter := iter + 1;
      }
      last := rng;
    }

    method RunWith(n: nat, iterations: nat, updateCount: real, seed: nat) returns (r: int)
      requires updateCount >= 0.0
      modifies this
      ensures Ceiling(updateCount) >= 0 && r == Benchmark(n, iterations, Ceiling(updateCount), seed)
    {
      hide *;
      var root := BuildTree(n, seed);
      ghost var par, props := TreeParents(TreeSize(n), seed), TreeProps(TreeSize(n), seed);
      BuiltStands(nodes, TreeSize(n), seed);
      StandsNonEmpty(nodes, par, props);
      var total;
      ghost var final, last;
      total, final, last := Loop(root, par, props, iterations, updateCount, seed);
      StandingStates(nodes, par, final);
      var cs := Checksum(final);
      BenchmarkIs(n, iterations, Ceiling(updateCount), seed, final, last, total);
      r := cs + total;
    }

    /** `runBenchmark` runs the same rounds as the JavaScript version, with the update count rounded up. */
    method RunBenchmark(n: nat, iterations: nat, updatePercent: nat, seed: nat) returns (r: int)
      modifies this
      ensures r == Benchmark(n, iterations, UnroundedCount(n, updatePercent), seed)
    {
      CeilingOfQuotient(n * updatePercent);
      r := RunWith(n, iterations, (n * updatePercent) as real / 100.0, seed);
    }
  }

  // ---- Rounding ----

  function Ceiling(x: real): (c: int)
    ensures (c - 1) as real < x <= c as real
  {
    -(-x).Floor
  }

  lemma BelowCeiling(x: real, i: int)
    requires i as real < x
    ensures i < Ceiling(x)
  {
  }

  lemma AtCeiling(x: real, i: int)
    requires i as real >= x && i <= Ceiling(x)
    ensures i == Ceiling(x)
  {
  }

  lemma CeilingOfQuotient(k: nat)
    ensures Ceiling(k as real / 100.0) == (k + 99) / 100
  {
    var q := (k + 99) / 100;
    assert 100 * q - 99 <= k <= 100 * q;
    assert (q - 1) as real < k as real / 100.0 <= q as real;
  }

  // ---- Links and walk ----

  method Append(ghost nodes: seq<FiberNode>, ghost par: seq<nat>, ghost p: nat, parent: FiberNode, node: FiberNode)
    requires Before(nodes, par, p, node) && parent == nodes[p]
    modifies nodes`child, nodes`sibling
    ensures Linked(nodes + [node], par + [p])
  {
    LinksOf(nodes, par, p);
    if parent.child == null {
      SetFirstChild(nodes, par, p, parent, node);
    } else {
      var sib: FiberNode? := parent.child;
      ghost var k := FirstChild(par, p);
      while sib != null && sib.sibling != null
        invariant 0 < k < |nodes| && par[k] == p && sib == nodes[k]
        decreases |nodes| - k
        modifies {}
      {
        LinksOf(nodes, par, k);
        sib, k := sib.sibling, NextSibling(par, k);
      }
      if sib != null {
        SetLastSibling(nodes, par, p, k, sib, node);
      }
    }
  }

  method Advance(start: FiberNode, root: FiberNode?, ghost nodes: seq<FiberNode>, ghost par: seq<nat>,
                 ghost from: nat, ghost walked: seq<nat>)
    returns (node: FiberNode?, done: int)
    requires Linked(nodes, par) && root == nodes[0]
    requires Standing(nodes, par, start, from, walked)
    ensures StandsSomewhere(nodes, par, node, walked + [from])
    ensures done != 0 ==> node == null
  {
    hide Linked, Preorder, Siblings, Rest;
    node, done := start, 0;
    ghost var at: nat := from;
    ghost var visited := walked + [from];
    LinksOf(nodes, par, at);
    if node.child != null {
      MoveDown(par, at);
      Visit(walked, at, Preorder(par, FirstChild(par, at)) + Rest(par, FirstChild(par, at)));
      node, at := node.child, FirstChild(par, at);
    } else {
      MoveFromLeaf(par, at);
      Visit(walked, at, Rest(par, at));
      var climbing := 1;
      while climbing == 1 && node != null
        invariant climbing == 0 || climbing == 1
        invariant node == null ==> visited == Preorder(par, 0)
        invariant node != null ==> at < |nodes| && node == nodes[at]
        invariant node != null && climbing == 1 ==> visited + Rest(par, at) == Preorder(par, 0)
        invariant node != null && climbing == 0 ==> visited + (Preorder(par, at) + Rest(par, at)) == Preorder(par, 0)
        invariant done != 0 ==> node == null
        decreases climbing, if node == null then 0 else at + 1
      {
        LinksOf(nodes, par, at);
        if node.sibling != null {
          MoveAcross(par, at);
          node, at := node.sibling, NextSibling(par, at);
          climbing := 0;
        } else {
          RootEndsTheWalk(par, visited);
          if at > 0 { MoveUp(par, at); }
          node, at := node.return_, if at == 0 then 0 else par[at];
          if node == root {
            DistinctRoot(nodes, par, at);
            node := null;
            done := 1;
            climbing := 0;
          }
        }
      }
    }
    assert Standing(nodes, par, node, at, visited);
  }

  /** `reconcile`: nothing without a root, else the same walk with the same result. */
  method Reconcile(root: FiberNode?, ghost nodes: seq<FiberNode>, ghost par: seq<nat>) returns (updated: nat)
    requires root != null ==> Linked(nodes, par) && AllSettled(nodes) && root == nodes[0]
    modifies nodes`memoizedProps, nodes`memoizedState, nodes`flags
    ensures root == null ==> updated == 0 && unchanged(nodes)
    ensures root != null ==>
              && updated == CountChanged(Indices(|nodes|), Pending(nodes), old(Memoized(nodes)))
              && AllSettled(nodes) && Memoized(nodes) == Pending(nodes)
  {
    if root == null {
      return 0;
    }
    ghost var order;
    updated, order := Walk(root, nodes, par);
  }

  method Walk(root: FiberNode?, ghost nodes: seq<FiberNode>, ghost par: seq<nat>)
    returns (updated: nat, ghost order: seq<nat>)
    requires Linked(nodes, par) && AllSettled(nodes) && root == nodes[0]
    modifies nodes`memoizedProps, nodes`memoizedState, nodes`flags
    ensures order == Preorder(par, 0)
    ensures updated == CountChanged(Indices(|nodes|), Pending(nodes), old(Memoized(nodes)))
    ensures AllSettled(nodes) && Memoized(nodes) == Pending(nodes)
  {
    hide *;
    ghost var m := Memoized(nodes);
    StartWalk(nodes, par);
    updated, order := 0, [];
    var node: FiberNode? := root;
    var done := 0;
    while node != null && done == 0
      invariant Walked(nodes, order, m, updated)
      invariant StandsSomewhere(nodes, par, node, order)
      invariant done != 0 ==> node == null
      decreases |par| - |order|, node != null
    {
      ghost var at := PlaceOf(nodes, par, node, order);
      updated := VisitNode(node, nodes, par, at, order, m, updated);
      node, done := Advance(node, root, nodes, par, at, order);
      order := order + [at];
    }
    FinishWalk(nodes, par, order, m, updated);
  }

  // ---- When the two programs agree ----

  /** The two update counts are the same exactly when n * updatePercent is a multiple of 100; otherwise the compiled
      program makes one more update per iteration. */
  lemma CountsAgree(n: nat, updatePercent: nat)
    ensures UnroundedCount(n, updatePercent) == n * updatePercent / 100 <==> n * updatePercent % 100 == 0
    ensures n * updatePercent % 100 != 0 ==> UnroundedCount(n, updatePercent) == n * updatePercent / 100 + 1
  {
    var k := n * updatePercent;
    assert k == 100 * (k / 100) + k % 100;
  }

  /** Both programs return the same number whenever n * updatePercent is a multiple of 100. */
  lemma ProgramsAgree(n: nat, iterations: nat, updatePercent: nat, seed: nat)
    requires n * updatePercent % 100 == 0
    ensures Benchmark(n, iterations, UnroundedCount(n, updatePercent), seed) ==
            Benchmark(n, iterations, n * updatePercent / 100, seed)
  {
    CountsAgree(n, updatePercent);
  }

  /** One node, one percent: the JavaScript version updates nothing, the compiled one updates the node. */
  lemma ProgramsCanDisagree()
    ensures Benchmark(1, 1, 1 * 1 / 100, 0) == 0
    ensures Benchmark(1, 1, UnroundedCount(1, 1), 0) == 881
  {
    assert TreeProps(1, 0) == [0];
    assert Indices(1) == [0];
    hide TreeProps, Indices;
    NoUpdate();
    OneUpdate();
    OneRound(0);
    OneRound(1);
  }

  lemma NoUpdate()
    ensures Updated([0], 0, 0) == ([0], 0) && CountChanged([0], [0], [0]) == 0 && Total([0]) == 0
  {
    assert [0][..0] == [];
  }

  lemma OneUpdate()
    ensures Updated([0], 1, 0) == ([880], 28880) && CountChanged([0], [880], [0]) == 1 && Total([880]) == 880
  {
    assert [0][..0] == [] && [880][..0] == [];
    assert NextRng(0) == 12345 && NextRng(12345) == 28880;
    assert [0][12345 % 1 := 880] == [880];
  }

  lemma OneRound(count: nat)
    ensures Rounds([0], 1, count, 0)
         == var (ps, r) := Updated([0], count, 0); (ps, r, CountChanged(Indices(|ps|), ps, [0]))
  {
    NoRounds([0], count, 0);
    NextRound([0], 0, count, 0);
  }
}
