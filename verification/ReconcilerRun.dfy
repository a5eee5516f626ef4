/** Building the tree, applying updates, and the whole benchmark against a specification that has no tree. */
module ReconcilerRun {
  import opened FiberTree
  import opened Reconciler

  // ---- The specification: sequences of numbers ----

  function NextRng(r: nat): nat {
    (r * 1103 + 12345) % 100000
  }

  /** The generator's state after `i` steps. */
  function Rng(seed: nat, i: nat): nat {
    if i == 0 then seed else NextRng(Rng(seed, i - 1))
  }

  function TreeSize(n: int): nat {
    if n < 1 then 1 else n
  }

  ghost function TreeParents(k: nat, seed: nat): seq<nat> {
    seq(k, i requires 0 <= i < k => if i == 0 then 0 else Rng(seed, i) % i)
  }

  ghost function TreeProps(k: nat, seed: nat): seq<int> {
    seq(k, i requires 0 <= i < k => Rng(seed, i) % 1000)
  }

  /** `count` random changes, and the generator's state afterwards. */
  ghost function Updated(props: seq<int>, count: nat, rng: nat): (r: (seq<int>, nat))
    requires |props| > 0
    ensures |r.0| == |props|
  {
    if count == 0 then (props, rng)
    else
      var (ps, r) := Updated(props, count - 1, rng);
      var idx := NextRng(r);
      var value := NextRng(idx);
      (ps[idx % |ps| := value % 1000], value)
  }

  ghost function Total(props: seq<int>): int {
    if props == [] then 0 else Total(props[..|props| - 1]) + props[|props| - 1]
  }

  /** A sum: of one element that element, of two parts together the sum of theirs. */
  lemma {:induction false} TotalMeans(x: int, a: seq<int>, b: seq<int>)
    ensures Total([]) == 0 && Total([x]) == x && Total(a + b) == Total(a) + Total(b)
    decreases |b|
  {
    assert [x][..0] == [];
    if b == [] {
      assert a + b == a;
    } else {
      var m := |b| - 1;
      TotalMeans(x, a, b[..m]);
      assert (a + b)[..|a + b| - 1] == a + b[..m];
    }
  }

  /** `iterations` rounds of `count` updates each: the final props, the generator's state, and how many positions
      changed, round by round, in all. */
  ghost function Rounds(props: seq<int>, iterations: nat, count: nat, rng: nat): (r: (seq<int>, nat, nat))
    requires |props| > 0
    ensures |r.0| == |props|
  {
    if iterations == 0 then (props, rng, 0)
    else
      var (ps, r, changed) := Rounds(props, iterations - 1, count, rng);
      var (qs, r') := Updated(ps, count, r);
      (qs, r', changed + CountChanged(Indices(|qs|), qs, ps))
  }

  lemma NoRounds(props: seq<int>, count: nat, rng: nat)
    requires |props| > 0
    ensures Rounds(props, 0, count, rng) == (props, rng, 0)
  {
  }

  lemma NextRound(props: seq<int>, iterations: nat, count: nat, rng: nat)
    requires |props| > 0
    ensures Rounds(props, iterations + 1, count, rng) ==
            var (ps, r, changed) := Rounds(props, iterations, count, rng);
            var (qs, r') := Updated(ps, count, r);
            (qs, r', changed + CountChanged(Indices(|qs|), qs, ps))
  {
  }

  ghost function Benchmark(n: int, iterations: nat, count: nat, seed: nat): int {
    var (ps, _, changed) := Rounds(TreeProps(TreeSize(n), seed), iterations, count, seed);
    Total(ps) + changed
  }

  // ---- Adding a last child ----

  /** One more node, a child of `p`: it becomes the end of the chain of `p`'s children and of no other. */
  lemma {:induction false} ChildFromGrows(par: seq<nat>, p: nat, q: nat, from: nat)
    requires from <= |par|
    ensures var c := ChildFrom(par, q, from);
            ChildFrom(par + [p], q, from) == if c < |par| then c else if q == p then |par| else |par| + 1
    decreases |par| - from
  {
    if from < |par| && par[from] != q {
      ChildFromGrows(par, p, q, from + 1);
    }
  }

  /** The links after node `k` (the youngest child of `p`, or nobody when `p` has none) was made to point at the new
      node are those of the larger tree. */
  ghost predicate Before(nodes: seq<FiberNode>, par: seq<nat>, p: nat, node: FiberNode)
    reads nodes`child, nodes`sibling, nodes`return_, node`child, node`sibling, node`return_
  {
    && Linked(nodes, par) && p < |nodes| && node !in nodes
    && node.child == null && node.sibling == null && node.return_ == nodes[p]
  }

  lemma GrownChild(nodes: seq<FiberNode>, par: seq<nat>, p: nat, node: FiberNode, i: nat)
    requires |nodes| == |par| && IsTree(par) && p < |nodes| && i <= |nodes|
    ensures IsTree(par + [p])
    ensures var big, grown := nodes + [node], par + [p];
            NodeAt(big, FirstChild(grown, i)) ==
            if i == |nodes| then null
            else if i == p && FirstChild(par, i) == |par| then node
            else NodeAt(nodes, FirstChild(par, i))
  {
    if i < |nodes| {
      ChildFromGrows(par, p, i, i + 1);
    }
  }

  lemma GrownSibling(nodes: seq<FiberNode>, par: seq<nat>, p: nat, node: FiberNode, i: nat)
    requires |nodes| == |par| && IsTree(par) && p < |nodes| && i <= |nodes|
    ensures IsTree(par + [p])
    ensures var big, grown := nodes + [node], par + [p];
            NodeAt(big, NextSibling(grown, i)) ==
            if i == |nodes| || i == 0 then null
            else if par[i] == p && NextSibling(par, i) == |par| then node
            else NodeAt(nodes, NextSibling(par, i))
  {
    if 0 < i < |nodes| {
      ChildFromGrows(par, p, par[i], i + 1);
    }
  }

  lemma YoungestIsLast(par: seq<nat>, p: nat, k: nat, i: nat)
    requires IsTree(par) && 0 < k < |par| && par[k] == p && NextSibling(par, k) == |par|
    requires 0 < i < |par| && par[i] == p && NextSibling(par, i) == |par|
    ensures i == k
  {
  }

  /** `parent.child = node` for a childless parent. */
  method SetFirstChild(ghost nodes: seq<FiberNode>, ghost par: seq<nat>, ghost p: nat, parent: FiberNode, node: FiberNode)
    requires Before(nodes, par, p, node) && parent == nodes[p] && parent.child == null
    modifies parent`child
    ensures Linked(nodes + [node], par + [p])
  {
    ghost var big, grown := nodes + [node], par + [p];
    LinksOf(nodes, par, p);
    assert Distinct(big);
    parent.child := node;
    forall i | 0 <= i < |big| ensures LinksAt(big, grown, i) {
      GrownChild(nodes, par, p, node, i);
      GrownSibling(nodes, par, p, node, i);
      if i < |nodes| {
        assert old(LinksAt(nodes, par, i));
        OnlyFirstChildMoves(par, p, i);
      }
    }
  }

  /** `sib.sibling = node` for the last child `k` of the parent. */
  method SetLastSibling(ghost nodes: seq<FiberNode>, ghost par: seq<nat>, ghost p: nat, ghost k: nat,
                        sib: FiberNode, node: FiberNode)
    requires Before(nodes, par, p, node) && 0 < k < |nodes| && par[k] == p && sib == nodes[k] && sib.sibling == null
    modifies sib`sibling
    ensures Linked(nodes + [node], par + [p])
  {
    ghost var big, grown := nodes + [node], par + [p];
    LinksOf(nodes, par, k);
    assert Distinct(big);
    sib.sibling := node;
    forall i | 0 <= i < |big| ensures LinksAt(big, grown, i) {
      GrownChild(nodes, par, p, node, i);
      GrownSibling(nodes, par, p, node, i);
      if i < |nodes| {
        assert old(LinksAt(nodes, par, i));
        if 0 < i && par[i] == p && NextSibling(par, i) == |par| {
          YoungestIsLast(par, p, k, i);
        }
      }
    }
  }

  /** Lines 64-78: the node goes to the end of its parent's children. */
  method AppendChild(ghost nodes: seq<FiberNode>, ghost par: seq<nat>, ghost p: nat, parent: FiberNode, node: FiberNode)
    requires Before(nodes, par, p, node) && parent == nodes[p]
    modifies nodes`child, nodes`sibling
    ensures Linked(nodes + [node], par + [p])
  {
    LinksOf(nodes, par, p);
    if parent.child == null {
      SetFirstChild(nodes, par, p, parent, node);
    } else {
      var sib: FiberNode := parent.child;
      ghost var k := FirstChild(par, p);
      while sib.sibling != null
        invariant 0 < k < |nodes| && par[k] == p && sib == nodes[k]
        decreases |nodes| - k
        modifies {}
      {
        LinksOf(nodes, par, k);
        sib, k := sib.sibling, NextSibling(par, k);
      }
      SetLastSibling(nodes, par, p, k, sib, node);
    }
  }

  /** A childless parent has no children whose sibling link could end. */
  lemma OnlyFirstChildMoves(par: seq<nat>, p: nat, i: nat)
    requires IsTree(par) && p < |par| && FirstChild(par, p) == |par| && 0 <= i < |par|
    ensures i == 0 || par[i] != p
  {
  }

  // ---- jsBuildTree ----

  /** `nodes` is what `jsBuildTree` has after `k` nodes. */
  ghost predicate Built(nodes: seq<FiberNode>, k: nat, seed: nat)
    reads nodes
  {
    && k > 0
    && Linked(nodes, TreeParents(k, seed))
    && Pending(nodes) == TreeProps(k, seed) && Memoized(nodes) == TreeProps(k, seed)
    && AllSettled(nodes)
  }

  /** A fresh node with its props set, lines 58-62. */
  method NewNode(tag: int, type_: int, props: int) returns (node: FiberNode)
    ensures fresh(node) && node.child == null && node.sibling == null && node.return_ == null
    ensures node.pendingProps == props && node.memoizedProps == props && node.Settled()
    ensures node.tag == tag && node.type_ == type_
  {
    node := new FiberNode(tag, type_);
    node.pendingProps := props;
    node.memoizedProps := node.pendingProps;
    node.memoizedState := node.pendingProps;
  }

  lemma PropsGrow(nodes: seq<FiberNode>, node: FiberNode, k: nat, seed: nat)
    requires Pending(nodes) == TreeProps(k, seed) && Memoized(nodes) == TreeProps(k, seed) && AllSettled(nodes)
    requires node.pendingProps == Rng(seed, k) % 1000 == node.memoizedProps && node.Settled()
    ensures Pending(nodes + [node]) == TreeProps(k + 1, seed) && Memoized(nodes + [node]) == TreeProps(k + 1, seed)
    ensures AllSettled(nodes + [node])
  {
  }

  lemma ParentsGrow(k: nat, seed: nat)
    requires k > 0
    ensures TreeParents(k + 1, seed) == TreeParents(k, seed) + [Rng(seed, k) % k]
  {
  }

  /** The root, lines 50-53. */
  method NewRoot(seed: nat) returns (root: FiberNode)
    ensures fresh(root) && Built([root], 1, seed) && Rng(seed, 0) == seed
  {
    root := NewNode(0, 0, seed % 1000);
  }

  method JsBuildTree(n: int, seed: nat) returns (nodes: seq<FiberNode>)
    ensures |nodes| == TreeSize(n) && fresh(nodes)
    ensures Built(nodes, TreeSize(n), seed)
  {
    hide *;
    var root := NewRoot(seed);
    nodes := [root];
    var rng, i := seed, 1;
    while i < n
      invariant i == 1 || i <= n
      invariant |nodes| == i >= 1 && fresh(nodes) && rng == Rng(seed, i - 1)
      invariant Built(nodes, i, seed)
    {
      var node;
      node, rng := JsAddNode(nodes, i, seed, rng);
      nodes := nodes + [node];
      i := i + 1;
    }
    SizeReached(n, i);
  }

  lemma SizeReached(n: int, i: nat)
    requires i >= n && (i == n || i == 1) && i >= 1
    ensures i == TreeSize(n)
  {
  }

  /** The body of the loop in `jsBuildTree`. */
  method JsAddNode(nodes: seq<FiberNode>, i: nat, ghost seed: nat, rng_: nat) returns (node: FiberNode, rng: nat)
    requires Built(nodes, i, seed) && |nodes| == i && i > 0 && rng_ == Rng(seed, i - 1)
    modifies nodes`child, nodes`sibling
    ensures fresh(node) && rng == Rng(seed, i) && Built(nodes + [node], i + 1, seed)
  {
    hide Linked, Pending, Memoized, AllSettled, TreeParents, TreeProps;
    rng := (rng_ * 1103 + 12345) % 100000;
    node := NewNode(1, i, rng % 1000);
    var parentIdx := rng % |nodes|;
    var parent := nodes[parentIdx];
    node.return_ := parent;
    ghost var par := TreeParents(i, seed);
    assert Before(nodes, par, parentIdx, node);
    AppendChild(nodes, par, parentIdx, parent, node);
    ParentsGrow(i, seed);
    PropsGrow(nodes, node, i, seed);
  }

  // ---- jsApplyUpdates, jsChecksum and the benchmark ----

  lemma NoUpdates(props: seq<int>, rng: nat)
    requires |props| > 0
    ensures Updated(props, 0, rng) == (props, rng)
  {
  }

  lemma OneMoreUpdate(props: seq<int>, i: nat, rng: nat)
    requires |props| > 0
    ensures var before := Updated(props, i, rng);
            var idx := NextRng(before.1);
            Updated(props, i + 1, rng) == (before.0[idx % |props| := NextRng(idx) % 1000], NextRng(idx))
  {
  }

  /** One update: a random node gets random pending props. */
  method JsUpdate(nodes: seq<FiberNode>, rng_: nat) returns (rng: nat)
    requires Distinct(nodes) && |nodes| > 0
    modifies nodes`pendingProps
    ensures var idx := NextRng(rng_);
            rng == NextRng(idx) && Pending(nodes) == old(Pending(nodes))[idx % |nodes| := rng % 1000]
  {
    var first := (rng_ * 1103 + 12345) % 100000;
    var idx := first % |nodes|;
    rng := (first * 1103 + 12345) % 100000;
    nodes[idx].pendingProps := rng % 1000;
    assert Pending(nodes) == old(Pending(nodes))[idx := rng % 1000];
  }

  method JsApplyUpdates(nodes: seq<FiberNode>, updateCount: nat, rng_: nat) returns (rng: nat)
    requires Distinct(nodes) && |nodes| > 0
    modifies nodes`pendingProps
    ensures (Pending(nodes), rng) == Updated(old(Pending(nodes)), updateCount, rng_)
  {
    rng := rng_;
    NoUpdates(old(Pending(nodes)), rng_);
    hide Updated, Distinct;
    for i := 0 to updateCount
      invariant (Pending(nodes), rng) == Updated(old(Pending(nodes)), i, rng_)
    {
      OneMoreUpdate(old(Pending(nodes)), i, rng_);
      rng := JsUpdate(nodes, rng);
    }
  }

  ghost predicate StatesAre(nodes: seq<FiberNode>, props: seq<int>)
    reads nodes`memoizedState
  {
    |nodes| == |props| && forall i :: 0 <= i < |nodes| ==> nodes[i].memoizedState == props[i]
  }

  method JsChecksum(nodes: seq<FiberNode>, ghost props: seq<int>) returns (sum: int)
    requires StatesAre(nodes, props)
    ensures sum == Total(props)
  {
    sum := 0;
    for i := 0 to |nodes|
      invariant sum == Total(props[..i])
    {
      sum := sum + nodes[i].memoizedState;
      assert props[..i + 1][..i] == props[..i];
    }
    assert props[..|nodes|] == props;
  }

  /** A tree that stands for the props `props`: linked, settled, pending and memoized alike. */
  ghost predicate Stands(nodes: seq<FiberNode>, par: seq<nat>, props: seq<int>)
    reads nodes
  {
    Linked(nodes, par) && AllSettled(nodes) && Pending(nodes) == props && Memoized(nodes) == props
  }

  lemma StandsNonEmpty(nodes: seq<FiberNode>, par: seq<nat>, props: seq<int>)
    requires Stands(nodes, par, props)
    ensures |props| == |nodes| > 0
  {
  }

  lemma BuiltStands(nodes: seq<FiberNode>, k: nat, seed: nat)
    requires Built(nodes, k, seed)
    ensures Stands(nodes, TreeParents(k, seed), TreeProps(k, seed)) && |TreeProps(k, seed)| > 0
  {
  }

  lemma StandingStates(nodes: seq<FiberNode>, par: seq<nat>, props: seq<int>)
    requires Stands(nodes, par, props)
    ensures StatesAre(nodes, props)
  {
  }

  /** One iteration of the benchmark: a round of updates and a walk over the tree. */
  method JsIterate(nodes: seq<FiberNode>, ghost par: seq<nat>, ghost props: seq<int>, updateCount: nat, rng_: nat)
    returns (rng: nat, updated: nat)
    requires Stands(nodes, par, props)
    modifies nodes`pendingProps, nodes`memoizedProps, nodes`memoizedState, nodes`flags
    ensures |props| > 0
    ensures var next := Updated(props, updateCount, rng_);
            Stands(nodes, par, next.0) && rng == next.1 && updated == CountChanged(Indices(|next.0|), next.0, props)
  {
    rng := JsApplyUpdates(nodes, updateCount, rng_);
    ghost var order;
    updated, order := JsReconcile(nodes[0], nodes, par);
  }

  /** The state of the benchmark's loop after `i` rounds. */
  ghost predicate After(props: seq<int>, i: nat, count: nat, seed: nat, final: seq<int>, rng: nat, total: nat)
    requires |props| > 0
  {
    Rounds(props, i, count, seed) == (final, rng, total)
  }

  lemma AfterNone(props: seq<int>, count: nat, seed: nat)
    requires |props| > 0
    ensures After(props, 0, count, seed, props, seed, 0)
  {
  }

  lemma AfterOneMore(props: seq<int>, i: nat, count: nat, seed: nat, final: seq<int>, rng: nat, total: nat)
    requires |props| > 0 && |final| > 0 && After(props, i, count, seed, final, rng, total)
    ensures var next := Updated(final, count, rng);
            After(props, i + 1, count, seed, next.0, next.1, total + CountChanged(Indices(|next.0|), next.0, final))
  {
    NextRound(props, i, count, seed);
  }

  method JsRounds(nodes: seq<FiberNode>, ghost par: seq<nat>, ghost props: seq<int>, iterations: nat, count: nat, seed: nat)
    returns (total: nat, ghost final: seq<int>, ghost last: nat)
    requires Stands(nodes, par, props) && |props| > 0
    modifies nodes`pendingProps, nodes`memoizedProps, nodes`memoizedState, nodes`flags
    ensures Stands(nodes, par, final) && After(props, iterations, count, seed, final, last, total)
  {
    hide *;
    AfterNone(props, count, seed);
    var rng := seed;
    total, final := 0, props;
    for i := 0 to iterations
      invariant Stands(nodes, par, final) && |final| > 0
      invariant After(props, i, count, seed, final, rng, total)
    {
      AfterOneMore(props, i, count, seed, final, rng, total);
      var updated;
      ghost var next := Updated(final, count, rng).0;
      rng, updated := JsIterate(nodes, par, final, count, rng);
      StandsNonEmpty(nodes, par, next);
      total, final := total + updated, next;
    }
    last := rng;
  }

  lemma BenchmarkIs(n: int, iterations: nat, count: nat, seed: nat, final: seq<int>, last: nat, total: nat)
    requires |TreeProps(TreeSize(n), seed)| > 0
    requires After(TreeProps(TreeSize(n), seed), iterations, count, seed, final, last, total)
    ensures Benchmark(n, iterations, count, seed) == Total(final) + total
  {
  }

  method JsRunWith(nodeCount: nat, iterations: nat, updateCount: nat, seed: nat) returns (r: int)
    ensures r == Benchmark(nodeCount, iterations, updateCount, seed)
  {
    hide *;
    var nodes := JsBuildTree(nodeCount, seed);
    ghost var par, props := TreeParents(TreeSize(nodeCount), seed), TreeProps(TreeSize(nodeCount), seed);
    BuiltStands(nodes, TreeSize(nodeCount), seed);
    var total;
    ghost var final, last;
    total, final, last := JsRounds(nodes, par, props, iterations, updateCount, seed);
    StandingStates(nodes, par, final);
    var cs := JsChecksum(nodes, final);
    BenchmarkIs(nodeCount, iterations, updateCount, seed, final, last, total);
    r := cs + total;
  }

  /** `jsRunBenchmark` computes the sum of the final props plus the number of changed positions per round. */
  method JsRunBenchmark(nodeCount: nat, iterations: nat, updatePercent: nat, seed: nat) returns (r: int)
    ensures r == Benchmark(nodeCount, iterations, nodeCount * updatePercent / 100, seed)
  {
    var updateCount := nodeCount * updatePercent / 100;
    r := JsRunWith(nodeCount, iterations, updateCount, seed);
  }

  /** Two nodes, one round of one update, seed 7: the props 7 and 66 become 143 and 66. */
  lemma KnownBenchmark()
    ensures Benchmark(2, 1, 1, 7) == 143 + 66 + 1
  {
    assert Rng(7, 0) == 7 && Rng(7, 1) == 20066;
    var props := TreeProps(2, 7);
    assert props == [7, 66];
    NoUpdates(props, 7);
    OneMoreUpdate(props, 0, 7);
    assert NextRng(7) == 20066 && NextRng(20066) == 45143;
    assert props[0 := 143] == [143, 66];
    NoRounds(props, 1, 7);
    NextRound(props, 0, 1, 7);
    OneChange();
    TotalMeans(143, [143], [66]);
    TotalMeans(66, [], []);
    assert [143] + [66] == [143, 66];
  }

  lemma OneChange()
    ensures InRange(Indices(2), 2) && CountChanged(Indices(2), [143, 66], [7, 66]) == 1
  {
    CountOfAll([143, 66], [7, 66], 2);
    assert ChangedBelow([143, 66], [7, 66], 2) == {0};
  }
}
