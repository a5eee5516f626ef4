/** The fiber reconciler of benchmarks/react-reconciler-bench.ts: nodes linked and updated in place. */
module Reconciler {
  import opened FiberTree

  const UPDATE_FLAG: bv32 := 4

  class FiberNode {
    const tag: int
    const type_: int
    var child: FiberNode?
    var sibling: FiberNode?
    var return_: FiberNode?
    var pendingProps: int
    var memoizedProps: int
    var memoizedState: int
    var flags: bv32

    constructor (tag: int, type_: int)
      ensures this.tag == tag && this.type_ == type_
      ensures child == null && sibling == null && return_ == null
      ensures pendingProps == 0 && memoizedProps == 0 && memoizedState == 0 && flags == 0
    {
      this.tag, this.type_ := tag, type_;
      child, sibling, return_ := null, null, null;
      pendingProps, memoizedProps, memoizedState, flags := 0, 0, 0, 0;
    }

    /** The update flag is clear and the memoized state is that of the memoized props. */
    ghost predicate Settled()
      reads this`memoizedProps, this`memoizedState, this`flags
    {
      memoizedState == memoizedProps && flags & UPDATE_FLAG == 0
    }

    /** Lines 102-111: what the walk does at each node. */
    method Commit() returns (changed: bool)
      requires Settled()
      modifies this`memoizedProps, this`memoizedState, this`flags
      ensures changed <==> pendingProps != old(memoizedProps)
      ensures memoizedProps == pendingProps && Settled()
    {
      changed := false;
      if pendingProps != memoizedProps {
        flags := flags | UPDATE_FLAG;
        changed := true;
      }
      if flags & UPDATE_FLAG != 0 {
        memoizedProps := pendingProps;
        memoizedState := pendingProps;
        flags := flags & !UPDATE_FLAG;
      }
    }
  }

  // ---- The heap as a tree ----

  ghost function NodeAt(nodes: seq<FiberNode>, k: nat): FiberNode? {
    if k < |nodes| then nodes[k] else null
  }

  ghost predicate Distinct(nodes: seq<FiberNode>) {
    forall i, j :: 0 <= i < j < |nodes| ==> nodes[i] != nodes[j]
  }

  ghost predicate LinksAt(nodes: seq<FiberNode>, par: seq<nat>, i: nat)
    requires i < |nodes| == |par| && IsTree(par)
    reads nodes`child, nodes`sibling, nodes`return_
  {
    && nodes[i].child == NodeAt(nodes, FirstChild(par, i))
    && nodes[i].sibling == NodeAt(nodes, NextSibling(par, i))
    && nodes[i].return_ == if i == 0 then null else nodes[par[i]]
  }

  /** The links of `nodes` are those of the tree `par`. */
  ghost predicate Linked(nodes: seq<FiberNode>, par: seq<nat>)
    reads nodes`child, nodes`sibling, nodes`return_
  {
    && |nodes| == |par| && IsTree(par) && Distinct(nodes)
    && forall i :: 0 <= i < |nodes| ==> LinksAt(nodes, par, i)
  }

  ghost function Pending(nodes: seq<FiberNode>): (ps: seq<int>)
    reads nodes`pendingProps
    ensures |ps| == |nodes| && forall i :: 0 <= i < |nodes| ==> ps[i] == nodes[i].pendingProps
  {
    if nodes == [] then [] else Pending(nodes[..|nodes| - 1]) + [nodes[|nodes| - 1].pendingProps]
  }

  ghost function Memoized(nodes: seq<FiberNode>): (ps: seq<int>)
    reads nodes`memoizedProps
    ensures |ps| == |nodes| && forall i :: 0 <= i < |nodes| ==> ps[i] == nodes[i].memoizedProps
  {
    if nodes == [] then [] else Memoized(nodes[..|nodes| - 1]) + [nodes[|nodes| - 1].memoizedProps]
  }

  ghost predicate AllSettled(nodes: seq<FiberNode>)
    reads nodes`memoizedProps, nodes`memoizedState, nodes`flags
  {
    forall i :: 0 <= i < |nodes| ==> nodes[i].Settled()
  }

  // ---- The walk ----

  /** What the walk has done so far, starting from memoized props `m`: the nodes of `order` are committed, the
      others untouched. */
  ghost predicate Progress(nodes: seq<FiberNode>, order: seq<nat>, m: seq<int>)
    reads nodes`memoizedProps, nodes`memoizedState, nodes`flags, nodes`pendingProps
  {
    && |m| == |nodes|
    && AllSettled(nodes)
    && forall i: nat :: i < |nodes| ==> nodes[i].memoizedProps == if i in order then nodes[i].pendingProps else m[i]
  }

  lemma StartProgress(nodes: seq<FiberNode>)
    requires AllSettled(nodes)
    ensures Progress(nodes, [], Memoized(nodes))
  {
  }

  lemma EndProgress(nodes: seq<FiberNode>, order: seq<nat>, m: seq<int>)
    requires Progress(nodes, order, m) && forall i: nat :: i < |nodes| ==> i in order
    ensures AllSettled(nodes) && Memoized(nodes) == Pending(nodes)
  {
  }

  /** The walk stands at `node`, which is number `at`, with `done` behind it; or it has ended. */
  ghost predicate Standing(nodes: seq<FiberNode>, par: seq<nat>, node: FiberNode?, at: nat, done: seq<nat>) {
    && IsTree(par) && |nodes| == |par|
    && (node == null ==> done == Preorder(par, 0))
    && (node != null ==> at < |nodes| && node == nodes[at] &&
                         done + (Preorder(par, at) + Rest(par, at)) == Preorder(par, 0))
  }

  /** The walk stands at `node`, wherever that is. */
  ghost predicate StandsSomewhere(nodes: seq<FiberNode>, par: seq<nat>, node: FiberNode?, done: seq<nat>) {
    exists at: nat :: Standing(nodes, par, node, at, done)
  }

  lemma PlaceOf(nodes: seq<FiberNode>, par: seq<nat>, node: FiberNode?, done: seq<nat>) returns (at: nat)
    requires StandsSomewhere(nodes, par, node, done)
    ensures Standing(nodes, par, node, at, done)
  {
    at :| Standing(nodes, par, node, at, done);
  }

  lemma StandingAtRoot(nodes: seq<FiberNode>, par: seq<nat>)
    requires IsTree(par) && |nodes| == |par|
    ensures StandsSomewhere(nodes, par, nodes[0], [])
  {
    assert [] + (Preorder(par, 0) + Rest(par, 0)) == Preorder(par, 0);
    assert Standing(nodes, par, nodes[0], 0, []);
  }

  /** A node the walk stands at has not been visited, and visiting it is one of |par| visits. */
  lemma StandingIsNew(nodes: seq<FiberNode>, par: seq<nat>, node: FiberNode?, at: nat, done: seq<nat>)
    requires Standing(nodes, par, node, at, done) && node != null
    ensures at !in done && |done| < |par|
  {
    UnfoldPreorder(par, at);
    PreorderIsPermutation(par);
    var all, below := Preorder(par, 0), Siblings(par, at, FirstChild(par, at)) + Rest(par, at);
    assert all == done + ([at] + below);
    OccursOnce(all, done, at, below, |par|);
  }

  lemma OccursOnce(all: seq<nat>, done: seq<nat>, at: nat, below: seq<nat>, n: nat)
    requires multiset(all) == multiset(Indices(n)) && |all| == n && all == done + ([at] + below)
    ensures at !in done && |done| < n
  {
    IndicesCount(n, at);
    assert multiset(all) == multiset(done) + multiset([at] + below);
    assert ([at] + below)[0] == at;
    assert multiset([at] + below)[at] >= 1;
  }

  lemma Visit(done: seq<nat>, i: nat, a: seq<nat>)
    ensures done + ([i] + a) == (done + [i]) + a
  {
  }

  lemma CountNext(done: seq<nat>, i: nat, p: seq<int>, m: seq<int>)
    requires |p| == |m| && i < |p| && InRange(done, |p|)
    ensures InRange(done + [i], |p|)
    ensures CountChanged(done + [i], p, m) == CountChanged(done, p, m) + if p[i] != m[i] then 1 else 0
  {
    assert (done + [i])[..|done|] == done;
  }

  lemma NothingCounted(p: seq<int>, m: seq<int>)
    requires |p| == |m|
    ensures InRange([], |p|) && CountChanged([], p, m) == 0
  {
  }

  lemma LinksOf(nodes: seq<FiberNode>, par: seq<nat>, i: nat)
    requires Linked(nodes, par) && i < |nodes|
    ensures LinksAt(nodes, par, i)
  {
  }

  /** Lines 113-127: from a visited node to the next one of the preorder. */
  method JsAdvance(start: FiberNode, root: FiberNode, ghost nodes: seq<FiberNode>, ghost par: seq<nat>,
                   ghost from: nat, ghost done: seq<nat>)
    returns (node: FiberNode?)
    requires Linked(nodes, par) && root == nodes[0]
    requires Standing(nodes, par, start, from, done)
    ensures StandsSomewhere(nodes, par, node, done + [from])
  {
    hide Linked, Preorder, Siblings, Rest;
    node := start;
    ghost var at: nat := from;
    ghost var visited := done + [from];
    LinksOf(nodes, par, at);
    if node.child != null {
      MoveDown(par, at);
      Visit(done, at, Preorder(par, FirstChild(par, at)) + Rest(par, FirstChild(par, at)));
      node, at := node.child, FirstChild(par, at);
    } else {
      MoveFromLeaf(par, at);
      Visit(done, at, Rest(par, at));
      while node != null
        invariant node != null ==> at < |nodes| && node == nodes[at] && visited + Rest(par, at) == Preorder(par, 0)
        invariant node == null ==> visited == Preorder(par, 0)
        decreases if node == null then 0 else at + 1
      {
        LinksOf(nodes, par, at);
        if node.sibling != null {
          MoveAcross(par, at);
          node, at := node.sibling, NextSibling(par, at);
          break;
        }
        RootEndsTheWalk(par, visited);
        if at > 0 { MoveUp(par, at); }
        node, at := node.return_, if at == 0 then 0 else par[at];
        if node != null && node == root {
          DistinctRoot(nodes, par, at);
          node := null;
        }
      }
    }
    assert Standing(nodes, par, node, at, visited);
  }

  lemma RootEndsTheWalk(par: seq<nat>, visited: seq<nat>)
    requires IsTree(par)
    ensures visited + Rest(par, 0) == visited
  {
  }

  lemma DistinctRoot(nodes: seq<FiberNode>, par: seq<nat>, i: nat)
    requires Linked(nodes, par) && i < |nodes| && nodes[i] == nodes[0]
    ensures i == 0
  {
  }

  /** The walk has visited `order` and counted in `updated` the changes it met. */
  ghost predicate Walked(nodes: seq<FiberNode>, order: seq<nat>, m: seq<int>, updated: nat)
    reads nodes`memoizedProps, nodes`memoizedState, nodes`flags, nodes`pendingProps
  {
    InRange(order, |nodes|) && Progress(nodes, order, m) && updated == CountChanged(order, Pending(nodes), m)
  }

  lemma NothingWalked(nodes: seq<FiberNode>)
    requires AllSettled(nodes)
    ensures Walked(nodes, [], Memoized(nodes), 0)
  {
    StartProgress(nodes);
    NothingCounted(Pending(nodes), Memoized(nodes));
  }

  lemma StartWalk(nodes: seq<FiberNode>, par: seq<nat>)
    requires Linked(nodes, par) && AllSettled(nodes)
    ensures |nodes| > 0 && StandsSomewhere(nodes, par, nodes[0], []) && Walked(nodes, [], Memoized(nodes), 0)
  {
    StandingAtRoot(nodes, par);
    NothingWalked(nodes);
  }

  /** Lines 101-111, with the bookkeeping of the walk. */
  method VisitNode(node: FiberNode, ghost nodes: seq<FiberNode>, ghost par: seq<nat>, ghost at: nat,
                   ghost order: seq<nat>, ghost m: seq<int>, updated_: nat)
    returns (updated: nat)
    requires Linked(nodes, par) && Standing(nodes, par, node, at, order) && Walked(nodes, order, m, updated_)
    modifies node`memoizedProps, node`memoizedState, node`flags
    ensures at < |nodes| == |par| && node == nodes[at] && |order| < |par|
    ensures Walked(nodes, order + [at], m, updated)
  {
    hide LinksAt;
    StandsInTree(nodes, par, node, at, order);
    StandingIsNew(nodes, par, node, at, order);
    CountNext(order, at, Pending(nodes), m);
    hide Standing, CountChanged, InRange;
    assert node.Settled();
    var changed := node.Commit();
    forall i | 0 <= i < |nodes| ensures nodes[i].Settled() {
      assert i != at ==> nodes[i] != node;
    }
    updated := if changed then updated_ + 1 else updated_;
  }

  /** The stackless walk visits the tree in preorder, each node once, and returns how many nodes had pending props
      different from their memoized ones; afterwards every node is up to date and unflagged. */
  method JsReconcile(root: FiberNode, ghost nodes: seq<FiberNode>, ghost par: seq<nat>)
    returns (updated: nat, ghost order: seq<nat>)
    requires Linked(nodes, par) && root == nodes[0] && AllSettled(nodes)
    modifies nodes`memoizedProps, nodes`memoizedState, nodes`flags
    ensures order == Preorder(par, 0)
    ensures updated == CountChanged(Indices(|nodes|), Pending(nodes), old(Memoized(nodes)))
    ensures AllSettled(nodes) && Memoized(nodes) == Pending(nodes)
  {
    hide *;
    ghost var m := Memoized(nodes);
    StartWalk(nodes, par);
    updated, order := 0, [];
    var node: FiberNode? := root;
    while node != null
      invariant Walked(nodes, order, m, updated)
      invariant StandsSomewhere(nodes, par, node, order)
      decreases |par| - |order|, node != null
    {
      ghost var at := PlaceOf(nodes, par, node, order);
      updated := VisitNode(node, nodes, par, at, order, m, updated);
      node := JsAdvance(node, root, nodes, par, at, order);
      order := order + [at];
    }
    FinishWalk(nodes, par, order, m, updated);
  }

  lemma FinishWalk(nodes: seq<FiberNode>, par: seq<nat>, order: seq<nat>, m: seq<int>, updated: nat)
    requires StandsSomewhere(nodes, par, null, order) && Walked(nodes, order, m, updated)
    ensures order == Preorder(par, 0) && InRange(Indices(|nodes|), |nodes|) && |m| == |nodes|
    ensures AllSettled(nodes) && Memoized(nodes) == Pending(nodes)
    ensures updated == CountChanged(Indices(|nodes|), Pending(nodes), m)
  {
    var at := PlaceOf(nodes, par, null, order);
    WalkEnds(nodes, par, null, at, order);
    EndProgress(nodes, order, m);
    CountIsOrderFree(order, Indices(|par|), Pending(nodes), m);
  }

  lemma StandsInTree(nodes: seq<FiberNode>, par: seq<nat>, node: FiberNode?, at: nat, done: seq<nat>)
    requires Standing(nodes, par, node, at, done) && node != null
    ensures at < |nodes| == |par| && node == nodes[at]
  {
  }

  lemma WalkEnds(nodes: seq<FiberNode>, par: seq<nat>, node: FiberNode?, at: nat, done: seq<nat>)
    requires Standing(nodes, par, node, at, done) && node == null
    ensures done == Preorder(par, 0)
    ensures multiset(done) == multiset(Indices(|par|)) && InRange(Indices(|par|), |par|)
    ensures forall i: nat :: i < |par| ==> i in done
  {
    PreorderIsPermutation(par);
    forall i: nat | i < |par| ensures i in done {
      IndicesCount(|par|, i);
      assert i in multiset(done);
    }
  }
}
