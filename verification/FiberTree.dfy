/** The shape of the trees that benchmarks/react-reconciler-bench.ts builds, and the order in which a walk over
    child, sibling and return links visits them. A tree of n nodes is given by the parent of each node; a parent is
    always older than its children, and siblings are ordered by age. */
module FiberTree {

  ghost predicate IsTree(par: seq<nat>) {
    |par| > 0 && forall i :: 1 <= i < |par| ==> par[i] < i
  }

  /** The oldest child of `p` that is not older than `from`; the number of nodes when there is none. */
  ghost function ChildFrom(par: seq<nat>, p: nat, from: nat): (c: nat)
    requires from <= |par|
    ensures from <= c <= |par|
    ensures c < |par| ==> par[c] == p
    ensures forall j :: from <= j < c ==> par[j] != p
    decreases |par| - from
  {
    if from == |par| || par[from] == p then from else ChildFrom(par, p, from + 1)
  }

  ghost function FirstChild(par: seq<nat>, i: nat): (c: nat)
    requires i < |par|
  {
    ChildFrom(par, i, i + 1)
  }

  ghost function NextSibling(par: seq<nat>, i: nat): (c: nat)
    requires i < |par|
  {
    if i == 0 then |par| else ChildFrom(par, par[i], i + 1)
  }

  /** `c` is a child of `p`, or the end of its children. */
  ghost predicate ChildOrEnd(par: seq<nat>, p: nat, c: nat) {
    p < c <= |par| && (c < |par| ==> par[c] == p)
  }

  /** Node `i` and everything below it, parents before children and older siblings before younger. */
  ghost function Preorder(par: seq<nat>, i: nat): seq<nat>
    requires i < |par|
    decreases |par| - i, 0
  {
    [i] + Siblings(par, i, FirstChild(par, i))
  }

  /** The subtrees of the children of `p` from `c` on. */
  ghost function Siblings(par: seq<nat>, p: nat, c: nat): seq<nat>
    requires ChildOrEnd(par, p, c)
    decreases |par| - c, 1
  {
    if c == |par| then [] else Preorder(par, c) + Siblings(par, p, ChildFrom(par, p, c + 1))
  }

  /** What follows the subtree of `i` in the preorder of the whole tree. */
  ghost function Rest(par: seq<nat>, i: nat): seq<nat>
    requires IsTree(par) && i < |par|
    decreases i
  {
    if i == 0 then [] else Siblings(par, par[i], NextSibling(par, i)) + Rest(par, par[i])
  }

  // ---- The three moves of the walk ----

  lemma Regroup(i: nat, a: seq<nat>, b: seq<nat>, c: seq<nat>)
    ensures [i] + (a + b) + c == [i] + (a + (b + c))
  {
  }

  lemma UnfoldPreorder(par: seq<nat>, i: nat)
    requires i < |par|
    ensures Preorder(par, i) == [i] + Siblings(par, i, FirstChild(par, i))
  {
  }

  lemma MoveDown(par: seq<nat>, i: nat)
    requires IsTree(par) && i < |par| && FirstChild(par, i) < |par|
    ensures var c := FirstChild(par, i); Preorder(par, i) + Rest(par, i) == [i] + (Preorder(par, c) + Rest(par, c))
  {
    var c := FirstChild(par, i);
    var later := Siblings(par, i, ChildFrom(par, i, c + 1));
    assert Siblings(par, i, c) == Preorder(par, c) + later;
    assert Rest(par, c) == later + Rest(par, i);
    hide Preorder, Siblings, Rest;
    Regroup(i, Preorder(par, c), later, Rest(par, i));
    UnfoldPreorder(par, i);
  }

  lemma MoveFromLeaf(par: seq<nat>, i: nat)
    requires IsTree(par) && i < |par| && FirstChild(par, i) == |par|
    ensures Preorder(par, i) + Rest(par, i) == [i] + Rest(par, i)
  {
    assert Siblings(par, i, |par|) == [];
  }

  lemma MoveAcross(par: seq<nat>, i: nat)
    requires IsTree(par) && 0 < i < |par| && NextSibling(par, i) < |par|
    ensures var s := NextSibling(par, i); Rest(par, i) == Preorder(par, s) + Rest(par, s)
  {
    var s := NextSibling(par, i);
    assert par[s] == par[i] && s > 0;
    assert Siblings(par, par[i], s) == Preorder(par, s) + Siblings(par, par[i], NextSibling(par, s));
  }

  lemma MoveUp(par: seq<nat>, i: nat)
    requires IsTree(par) && 0 < i < |par| && NextSibling(par, i) == |par|
    ensures Rest(par, i) == Rest(par, par[i])
  {
    assert Siblings(par, par[i], |par|) == [];
  }

  // ---- The preorder of the root visits every node once ----

  /** The child of `p` on the path from `j` up to the root; 0 when `j` does not lie below `p`. */
  ghost function BranchOf(par: seq<nat>, p: nat, j: nat): (k: nat)
    requires IsTree(par) && j < |par|
    ensures k <= j && (k > 0 ==> par[k] == p)
    decreases j
  {
    if j == 0 then 0 else if par[j] == p then j else BranchOf(par, p, par[j])
  }

  /** `j` lies in the subtree of a child `c` of `p` exactly when `p`'s branch towards it is `c`. */
  lemma {:induction false} BelowChild(par: seq<nat>, p: nat, c: nat, j: nat)
    requires IsTree(par) && p < c < |par| && par[c] == p && j < |par|
    ensures j == c || BranchOf(par, c, j) > 0 <==> BranchOf(par, p, j) == c
    decreases j
  {
    if j > 0 && j != c {
      BranchBelow(par, c, j);
      if par[j] != p {
        BelowChild(par, p, c, par[j]);
      }
    }
  }

  /** A branch of `c` is younger than `c`. */
  lemma {:induction false} BranchBelow(par: seq<nat>, c: nat, j: nat)
    requires IsTree(par) && j < |par| && c < |par|
    ensures BranchOf(par, c, j) > 0 ==> BranchOf(par, c, j) > c && j > c
    decreases j
  {
    if j > 0 && par[j] != c {
      BranchBelow(par, c, par[j]);
    }
  }

  lemma {:induction false} PreorderCount(par: seq<nat>, i: nat, j: nat)
    requires IsTree(par) && i < |par| && j < |par|
    ensures multiset(Preorder(par, i))[j] == if j == i || BranchOf(par, i, j) > 0 then 1 else 0
    decreases |par| - i, 0
  {
    var c := FirstChild(par, i);
    SiblingsCount(par, i, c, j);
    BranchBelow(par, i, j);
    assert multiset(Preorder(par, i))[j] == (if j == i then 1 else 0) + multiset(Siblings(par, i, c))[j];
  }

  lemma {:induction false} SiblingsCount(par: seq<nat>, p: nat, c: nat, j: nat)
    requires IsTree(par) && ChildOrEnd(par, p, c) && j < |par|
    ensures multiset(Siblings(par, p, c))[j] == if BranchOf(par, p, j) >= c then 1 else 0
    decreases |par| - c, 1
  {
    if c < |par| {
      var d := ChildFrom(par, p, c + 1);
      PreorderCount(par, c, j);
      SiblingsCount(par, p, d, j);
      BelowChild(par, p, c, j);
      assert multiset(Siblings(par, p, c))[j] == multiset(Preorder(par, c))[j] + multiset(Siblings(par, p, d))[j];
    }
  }

  lemma {:induction false} EveryoneBelowRoot(par: seq<nat>, j: nat)
    requires IsTree(par) && 0 < j < |par|
    ensures BranchOf(par, 0, j) > 0
    decreases j
  {
    if par[j] != 0 {
      EveryoneBelowRoot(par, par[j]);
    }
  }

  lemma {:induction false} PreorderInRange(par: seq<nat>, i: nat)
    requires i < |par|
    ensures forall x :: x in Preorder(par, i) ==> x < |par|
    decreases |par| - i, 0
  {
    SiblingsInRange(par, i, FirstChild(par, i));
  }

  lemma {:induction false} SiblingsInRange(par: seq<nat>, p: nat, c: nat)
    requires ChildOrEnd(par, p, c)
    ensures forall x :: x in Siblings(par, p, c) ==> x < |par|
    decreases |par| - c, 1
  {
    if c < |par| {
      PreorderInRange(par, c);
      SiblingsInRange(par, p, ChildFrom(par, p, c + 1));
    }
  }

  ghost function Indices(n: nat): seq<nat> {
    seq(n, i requires 0 <= i < n => i)
  }

  lemma {:induction false} IndicesCount(n: nat, j: nat)
    ensures multiset(Indices(n))[j] == if j < n then 1 else 0
  {
    if n > 0 {
      assert Indices(n) == Indices(n - 1) + [n - 1];
      IndicesCount(n - 1, j);
    }
  }

  /** Each node is visited exactly once. */
  lemma PreorderIsPermutation(par: seq<nat>)
    requires IsTree(par)
    ensures multiset(Preorder(par, 0)) == multiset(Indices(|par|))
    ensures |Preorder(par, 0)| == |par|
  {
    PreorderInRange(par, 0);
    forall j: nat ensures multiset(Preorder(par, 0))[j] == multiset(Indices(|par|))[j] {
      IndicesCount(|par|, j);
      if j < |par| {
        PreorderCount(par, 0, j);
        if j > 0 { EveryoneBelowRoot(par, j); }
      } else {
        assert j !in Preorder(par, 0);
      }
    }
    assert multiset(Preorder(par, 0)) == multiset(Indices(|par|));
    assert |multiset(Preorder(par, 0))| == |multiset(Indices(|par|))|;
  }

  // ---- Counting over a visiting order ----

  ghost predicate InRange(order: seq<nat>, n: nat) {
    forall k :: 0 <= k < |order| ==> order[k] < n
  }

  ghost function CountChanged(order: seq<nat>, p: seq<int>, m: seq<int>): nat
    requires |p| == |m| && InRange(order, |p|)
  {
    if order == [] then 0
    else
      var last := order[|order| - 1];
      CountChanged(order[..|order| - 1], p, m) + if p[last] != m[last] then 1 else 0
  }

  lemma {:induction false} CountRemove(order: seq<nat>, k: nat, p: seq<int>, m: seq<int>)
    requires |p| == |m| && k < |order| && InRange(order, |p|)
    ensures CountChanged(order, p, m) ==
            CountChanged(order[..k] + order[k + 1..], p, m) + if p[order[k]] != m[order[k]] then 1 else 0
  {
    var n := |order| - 1;
    if k == n {
      assert order[..k] + order[k + 1..] == order[..n];
    } else {
      CountRemove(order[..n], k, p, m);
      var cut := order[..k] + order[k + 1..];
      assert cut[..|cut| - 1] == order[..n][..k] + order[..n][k + 1..];
    }
  }

  lemma RemoveAt(b: seq<nat>, k: nat)
    requires k < |b|
    ensures multiset(b[..k] + b[k + 1..]) == multiset(b) - multiset{b[k]}
  {
    assert b == b[..k] + [b[k]] + b[k + 1..];
  }

  lemma SplitLast(a: seq<nat>)
    requires a != []
    ensures multiset(a[..|a| - 1]) == multiset(a) - multiset{a[|a| - 1]}
    ensures a[|a| - 1] in multiset(a)
  {
    assert a == a[..|a| - 1] + [a[|a| - 1]];
  }

  /** The count depends only on which nodes are visited. */
  lemma {:induction false} CountIsOrderFree(a: seq<nat>, b: seq<nat>, p: seq<int>, m: seq<int>)
    requires |p| == |m| && multiset(a) == multiset(b)
    requires InRange(a, |p|) && InRange(b, |p|)
    ensures CountChanged(a, p, m) == CountChanged(b, p, m)
  {
    if a == [] {
      assert |multiset(b)| == 0;
    } else {
      var n := |a| - 1;
      SplitLast(a);
      assert a[n] in multiset(b);
      var k :| 0 <= k < |b| && b[k] == a[n];
      RemoveAt(b, k);
      CountIsOrderFree(a[..n], b[..k] + b[k + 1..], p, m);
      CountRemove(b, k, p, m);
    }
  }

  ghost function ChangedBelow(p: seq<int>, m: seq<int>, n: nat): set<nat>
    requires |p| == |m| && n <= |p|
  {
    set i | 0 <= i < n && p[i] != m[i]
  }

  /** Counting the changes of all positions is the number of positions that changed. */
  lemma {:induction false} CountOfAll(p: seq<int>, m: seq<int>, n: nat)
    requires |p| == |m| && n <= |p|
    ensures InRange(Indices(n), |p|)
    ensures CountChanged(Indices(n), p, m) == |ChangedBelow(p, m, n)|
  {
    if n == 0 {
      assert ChangedBelow(p, m, n) == {};
    } else {
      CountOfAll(p, m, n - 1);
      assert Indices(n)[..n - 1] == Indices(n - 1);
      var before, now := ChangedBelow(p, m, n - 1), ChangedBelow(p, m, n);
      assert now == if p[n - 1] != m[n - 1] then before + {n - 1} else before;
    }
  }
}
