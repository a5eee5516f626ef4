/** The binary min-heap of benchmarks/react-scheduler-bench.ts, proved to behave like a sorted list. */
module SchedulerHeap {

  datatype HeapNode = HeapNode(id: int, sortIndex: int)

  function Compare(a: HeapNode, b: HeapNode): int {
    var diff := a.sortIndex - b.sortIndex;
    if diff != 0 then diff else a.id - b.id
  }

  /** The order of the heap: by sort index, then by id. */
  predicate Leq(a: HeapNode, b: HeapNode) {
    a.sortIndex < b.sortIndex || (a.sortIndex == b.sortIndex && a.id <= b.id)
  }

  lemma LeqIsTotalOrder(a: HeapNode, b: HeapNode, c: HeapNode)
    ensures Leq(a, b) || Leq(b, a)
    ensures Leq(a, b) && Leq(b, a) ==> a == b
    ensures Leq(a, b) && Leq(b, c) ==> Leq(a, c)
  {
  }

  /** The sign of the comparison decides the order by (sortIndex, id). */
  lemma CompareMeans(a: HeapNode, b: HeapNode)
    ensures Compare(a, b) <= 0 <==> Leq(a, b)
    ensures Compare(a, b) < 0 <==> Leq(a, b) && a != b
  {
  }

  lemma CompareChain(a: HeapNode, b: HeapNode, c: HeapNode)
    requires Compare(a, b) < 0 && Compare(b, c) < 0
    ensures Compare(a, c) < 0
  {
  }

  function Parent(i: nat): nat
    requires i > 0
  {
    (i - 1) / 2
  }

  ghost predicate Edge(s: seq<HeapNode>, i: nat)
    requires 0 < i < |s|
  {
    Leq(s[Parent(i)], s[i])
  }

  ghost predicate IsHeap(s: seq<HeapNode>) {
    forall i :: 0 < i < |s| ==> Edge(s, i)
  }

  /** A heap but for the edge above `k`; what lies below `k` fits under its parent. */
  ghost predicate HeapButAbove(s: seq<HeapNode>, k: nat) {
    && (forall i :: 0 < i < |s| && i != k ==> Edge(s, i))
    && (forall i :: 0 < i < |s| && 0 < k == Parent(i) ==> Leq(s[Parent(k)], s[i]))
  }

  /** A heap but for the edges below `k`; what lies below `k` fits under its parent. */
  ghost predicate HeapButBelow(s: seq<HeapNode>, k: nat) {
    && (forall i :: 0 < i < |s| && Parent(i) != k ==> Edge(s, i))
    && (forall i :: 0 < i < |s| && 0 < k < |s| && Parent(i) == k ==> Leq(s[Parent(k)], s[i]))
  }

  function Swap(s: seq<HeapNode>, i: nat, j: nat): seq<HeapNode>
    requires i < |s| && j < |s|
  {
    s[i := s[j]][j := s[i]]
  }

  lemma SwapPermutes(s: seq<HeapNode>, i: nat, j: nat)
    requires i < |s| && j < |s|
    ensures multiset(Swap(s, i, j)) == multiset(s)
  {
  }

  /** A swap inside the live part is a swap of the live part. */
  lemma SwapLive(s: seq<HeapNode>, n: nat, i: nat, j: nat)
    requires i < n <= |s| && j < n
    ensures Swap(s, i, j)[..n] == Swap(s[..n], i, j)
  {
  }

  /** Moving a node up past a larger parent. */
  lemma SiftUpStep(s: seq<HeapNode>, k: nat)
    requires 0 < k < |s| && HeapButAbove(s, k) && !Leq(s[Parent(k)], s[k])
    ensures HeapButAbove(Swap(s, Parent(k), k), Parent(k))
  {
    var p, t := Parent(k), Swap(s, Parent(k), k);
    forall i | 0 < i < |t| && i != p ensures Edge(t, i) {
      if i != k {
        assert Edge(s, i);
        if Parent(i) == p { LeqIsTotalOrder(s[k], s[p], s[i]); }
      }
    }
    forall i | 0 < i < |t| && 0 < p == Parent(i) ensures Leq(t[Parent(p)], t[i]) {
      assert Edge(s, p);
      if i != k {
        assert Edge(s, i);
        LeqIsTotalOrder(s[Parent(p)], s[p], s[i]);
      }
    }
  }

  lemma SiftUpDone(s: seq<HeapNode>, k: nat)
    requires k < |s| && HeapButAbove(s, k) && (k == 0 || Leq(s[Parent(k)], s[k]))
    ensures IsHeap(s)
  {
    forall i | 0 < i < |s| ensures Edge(s, i) {
    }
  }

  /** Moving a node down below its smaller child `c`. */
  lemma SiftDownStep(s: seq<HeapNode>, k: nat, c: nat)
    requires k < c < |s| && Parent(c) == k && HeapButBelow(s, k) && !Leq(s[k], s[c])
    requires forall i :: 0 < i < |s| && Parent(i) == k ==> Leq(s[c], s[i])
    ensures HeapButBelow(Swap(s, k, c), c)
  {
    var t := Swap(s, k, c);
    forall i | 0 < i < |t| && Parent(i) != c ensures Edge(t, i) {
      if i != k && i != c && Parent(i) != k { assert Edge(s, i); }
      if i == k { assert Leq(s[Parent(k)], s[c]); }
    }
    forall i | 0 < i < |t| && Parent(i) == c ensures Leq(t[Parent(c)], t[i]) {
      assert Edge(s, i);
    }
  }

  lemma SiftDownDone(s: seq<HeapNode>, k: nat)
    requires k < |s| && HeapButBelow(s, k)
    requires forall i :: 0 < i < |s| && Parent(i) == k ==> Leq(s[k], s[i])
    ensures IsHeap(s)
  {
    forall i | 0 < i < |s| ensures Edge(s, i) {
    }
  }

  lemma {:induction false} RootIsLeast(s: seq<HeapNode>, i: nat)
    requires IsHeap(s) && i < |s|
    ensures Leq(s[0], s[i])
    decreases i
  {
    if i > 0 {
      assert Edge(s, i);
      RootIsLeast(s, Parent(i));
      LeqIsTotalOrder(s[0], s[Parent(i)], s[i]);
    }
  }

  // ---- The specification: a sorted list ----

  ghost predicate Sorted(xs: seq<HeapNode>) {
    forall i, j :: 0 <= i < j < |xs| ==> Leq(xs[i], xs[j])
  }

  function Insert(x: HeapNode, xs: seq<HeapNode>): (r: seq<HeapNode>)
    ensures multiset(r) == multiset(xs) + multiset{x}
    ensures Sorted(xs) ==> Sorted(r)
  {
    if xs == [] then [x]
    else if Leq(x, xs[0]) then
      assert Sorted(xs) ==> Sorted([x] + xs) by { InFront(x, xs); }
      [x] + xs
    else
      var rest := Insert(x, xs[1..]);
      assert xs == [xs[0]] + xs[1..];
      assert Sorted(xs) ==> Sorted([xs[0]] + rest) by { Behind(x, xs, rest); }
      [xs[0]] + rest
  }

  lemma InFront(x: HeapNode, xs: seq<HeapNode>)
    requires xs != [] && Leq(x, xs[0])
    ensures Sorted(xs) ==> Sorted([x] + xs)
  {
    if Sorted(xs) {
      forall j | 0 <= j < |xs| ensures Leq(x, xs[j]) {
        if j > 0 { assert Leq(xs[0], xs[j]); }
        LeqIsTotalOrder(x, xs[0], xs[j]);
      }
    }
  }

  lemma Behind(x: HeapNode, xs: seq<HeapNode>, rest: seq<HeapNode>)
    requires xs != [] && !Leq(x, xs[0]) && multiset(rest) == multiset(xs[1..]) + multiset{x}
    requires Sorted(xs[1..]) ==> Sorted(rest)
    ensures Sorted(xs) ==> Sorted([xs[0]] + rest)
  {
    if Sorted(xs) {
      assert Sorted(xs[1..]);
      LeqIsTotalOrder(x, xs[0], x);
      forall j | 0 <= j < |rest| ensures Leq(xs[0], rest[j]) {
        assert rest[j] in multiset(rest);
        if rest[j] != x {
          assert rest[j] in xs[1..];
          var k :| 0 <= k < |xs[1..]| && xs[1..][k] == rest[j];
          assert Leq(xs[0], xs[k + 1]);
        }
      }
    }
  }

  datatype Op = Push(node: HeapNode) | Pop

  /** What a list of operations returns, starting from a sorted list, and the list they leave. */
  function Replay(ops: seq<Op>, xs: seq<HeapNode>): (r: (seq<int>, seq<HeapNode>))
    ensures Sorted(xs) ==> Sorted(r.1)
  {
    if ops == [] then ([], xs)
    else match ops[0]
      case Push(x) => Replay(ops[1..], Insert(x, xs))
      case Pop =>
        if xs == [] then
          var (out, end) := Replay(ops[1..], xs);
          ([-1] + out, end)
        else
          var (out, end) := Replay(ops[1..], xs[1..]);
          ([xs[0].sortIndex] + out, end)
  }

  /** The least of the heap is the head of the sorted list with the same elements. */
  lemma SameLeast(s: seq<HeapNode>, xs: seq<HeapNode>)
    requires IsHeap(s) && Sorted(xs) && multiset(s) == multiset(xs) && s != []
    ensures xs != [] && s[0] == xs[0]
  {
    assert s[0] in multiset(xs) && |multiset(xs)| > 0;
    var i :| 0 <= i < |xs| && xs[i] == s[0];
    assert xs[0] in multiset(s);
    var j :| 0 <= j < |s| && s[j] == xs[0];
    RootIsLeast(s, j);
    if i > 0 { assert Leq(xs[0], xs[i]); }
    LeqIsTotalOrder(s[0], xs[0], s[0]);
  }

  // ---- The heap ----

  class Scheduler {
    var jsHeap: seq<HeapNode>
    var jsHeapSize: nat

    /** Slots from `jsHeapSize` on may hold stale nodes. */
    ghost function Live(): seq<HeapNode>
      requires jsHeapSize <= |jsHeap|
      reads this
    {
      jsHeap[..jsHeapSize]
    }

    ghost predicate Valid()
      reads this
    {
      jsHeapSize <= |jsHeap| && IsHeap(Live())
    }

    /** The heap holds exactly the nodes of the sorted list `xs`. */
    ghost predicate Holds(xs: seq<HeapNode>)
      reads this
    {
      Valid() && Sorted(xs) && multiset(Live()) == multiset(xs)
    }

    constructor ()
      ensures Valid() && Live() == []
    {
      jsHeap, jsHeapSize := [], 0;
    }

    method JsSwap(i: nat, j: nat)
      requires jsHeapSize <= |jsHeap| && i < jsHeapSize && j < jsHeapSize
      modifies this`jsHeap
      ensures |jsHeap| == old(|jsHeap|) && Live() == Swap(old(Live()), i, j)
      ensures multiset(Live()) == old(multiset(Live()))
    {
      SwapLive(jsHeap, jsHeapSize, i, j);
      SwapPermutes(Live(), i, j);
      jsHeap := jsHeap[i := jsHeap[j]][j := jsHeap[i]];
    }

    method JsSiftUp(startIndex: nat)
      requires jsHeapSize <= |jsHeap| && startIndex < jsHeapSize && HeapButAbove(Live(), startIndex)
      modifies this`jsHeap
      ensures Valid() && multiset(Live()) == old(multiset(Live())) && |jsHeap| == old(|jsHeap|)
    {
      hide HeapButAbove, IsHeap, Swap, Compare, Leq;
      var index: nat := startIndex;
      while index > 0
        invariant index < jsHeapSize <= |jsHeap| && |jsHeap| == old(|jsHeap|)
        invariant HeapButAbove(Live(), index)
        invariant multiset(Live()) == old(multiset(Live()))
      {
        var parentIndex := (index - 1) / 2;
        var parent, node := jsHeap[parentIndex], jsHeap[index];
        CompareMeans(parent, node);
        if Compare(parent, node) > 0 {
          SiftUpStep(Live(), index);
          JsSwap(parentIndex, index);
          index := parentIndex;
        } else {
          break;
        }
      }
      SiftUpDone(Live(), index);
    }

    method JsPush(node: HeapNode)
      requires Valid()
      modifies this
      ensures Valid() && jsHeapSize == old(jsHeapSize) + 1
      ensures multiset(Live()) == old(multiset(Live())) + multiset{node}
    {
      var index := jsHeapSize;
      ghost var before := Live();
      jsHeap := if index < |jsHeap| then jsHeap[index := node] else jsHeap + [node];
      jsHeapSize := jsHeapSize + 1;
      assert Live() == before + [node];
      AppendedLast(before, node);
      JsSiftUp(index);
    }

    method JsSiftDown(startIndex: nat)
      requires jsHeapSize <= |jsHeap| && startIndex < jsHeapSize && HeapButBelow(Live(), startIndex)
      modifies this`jsHeap
      ensures Valid() && multiset(Live()) == old(multiset(Live())) && |jsHeap| == old(|jsHeap|)
    {
      hide HeapButBelow, IsHeap, Swap, Compare, Leq;
      var index: nat := startIndex;
      var length := jsHeapSize;
      var halfLength := length / 2;
      while index < halfLength
        invariant index < jsHeapSize <= |jsHeap| && |jsHeap| == old(|jsHeap|)
        invariant HeapButBelow(Live(), index)
        invariant multiset(Live()) == old(multiset(Live()))
        decreases length - index
      {
        var leftIndex := 2 * (index + 1) - 1;
        var left, node := jsHeap[leftIndex], jsHeap[index];
        var rightIndex := leftIndex + 1;
        ghost var s := Live();
        if Compare(left, node) < 0 {
          if rightIndex < length {
            var right := jsHeap[rightIndex];
            if Compare(right, left) < 0 {
              CompareChain(right, left, node);
              LowerChild(s, index, rightIndex);
              JsSwap(index, rightIndex);
              index := rightIndex;
            } else {
              LowerChild(s, index, leftIndex);
              JsSwap(index, leftIndex);
              index := leftIndex;
            }
          } else {
            LowerChild(s, index, leftIndex);
            JsSwap(index, leftIndex);
            index := leftIndex;
          }
        } else if rightIndex < length {
          var right := jsHeap[rightIndex];
          if Compare(right, node) < 0 {
            LowerChild(s, index, rightIndex);
            JsSwap(index, rightIndex);
            index := rightIndex;
          } else {
            break;
          }
        } else {
          break;
        }
      }
      NoSmallerChild(Live(), index);
    }

    /** Removes the least node and returns its sort index; -1 when there is none. */
    method JsPopSort() returns (r: int)
      requires Valid()
      modifies this
      ensures Valid()
      ensures old(jsHeapSize) == 0 ==> r == -1 && Live() == old(Live())
      ensures old(jsHeapSize) > 0 ==>
                && jsHeapSize == old(jsHeapSize) - 1
                && r == old(Live()[0].sortIndex)
                && multiset(Live()) == old(multiset(Live()) - multiset{Live()[0]})
                && forall x :: x in old(Live()) ==> Leq(old(Live()[0]), x)
    {
      if jsHeapSize == 0 {
        return -1;
      }
      var first := jsHeap[0];
      ghost var before := Live();
      forall x | x in before ensures Leq(first, x) {
        var i :| 0 <= i < |before| && before[i] == x;
        RootIsLeast(before, i);
      }
      r := first.sortIndex;
      jsHeapSize := jsHeapSize - 1;
      RemoveRoot(before);
      if jsHeapSize == 0 {
        return;
      }
      var last := jsHeap[jsHeapSize];
      jsHeap := jsHeap[0 := last];
      assert Live() == before[..|before| - 1][0 := last];
      JsSiftDown(0);
    }

    method PushOne(node: HeapNode, ghost xs: seq<HeapNode>)
      requires Holds(xs)
      modifies this
      ensures Holds(Insert(node, xs)) && jsHeapSize == old(jsHeapSize) + 1
    {
      JsPush(node);
    }

    method PopOne(ghost xs: seq<HeapNode>) returns (r: int)
      requires Holds(xs)
      modifies this
      ensures xs == [] ==> r == -1 && Holds(xs) && jsHeapSize == old(jsHeapSize) == 0
      ensures xs != [] ==> r == xs[0].sortIndex && Holds(xs[1..]) && jsHeapSize == old(jsHeapSize) - 1
    {
      SizesMatch(Live(), xs);
      if xs != [] {
        SameLeast(Live(), xs);
        TailSorted(xs);
      }
      r := JsPopSort();
    }

    /** Any list of pushes and pops returns what the sorted list returns. */
    method Run(ops: seq<Op>, ghost xs: seq<HeapNode>) returns (out: seq<int>)
      requires Holds(xs)
      modifies this
      ensures out == Replay(ops, xs).0 && Holds(Replay(ops, xs).1)
    {
      hide Holds, Insert;
      out := [];
      var i := 0;
      ghost var now := xs;
      assert ops[0..] == ops;
      assert [] + Replay(ops, xs).0 == Replay(ops, xs).0;
      while i < |ops|
        invariant 0 <= i <= |ops|
        invariant Holds(now)
        invariant out + Replay(ops[i..], now).0 == Replay(ops, xs).0 && Replay(ops[i..], now).1 == Replay(ops, xs).1
      {
        assert ops[i..][1..] == ops[i + 1..];
        match ops[i] {
          case Push(x) =>
            PushOne(x, now);
            now := Insert(x, now);
          case Pop =>
            var r := PopOne(now);
            now := if now == [] then now else now[1..];
            Regroup(out, r, Replay(ops[i + 1..], now).0);
            out := out + [r];
        }
        i := i + 1;
      }
      assert out + [] == out;
    }
  }

  lemma Regroup(out: seq<int>, r: int, tail: seq<int>)
    ensures out + ([r] + tail) == out + [r] + tail
  {
  }

  lemma SizesMatch(s: seq<HeapNode>, xs: seq<HeapNode>)
    requires multiset(s) == multiset(xs)
    ensures s == [] <==> xs == []
  {
    assert |multiset(s)| == |s| && |multiset(xs)| == |xs|;
  }

  lemma TailSorted(xs: seq<HeapNode>)
    requires Sorted(xs) && xs != []
    ensures Sorted(xs[1..]) && multiset(xs[1..]) == multiset(xs) - multiset{xs[0]}
  {
    assert xs == [xs[0]] + xs[1..];
  }

  lemma AppendedLast(s: seq<HeapNode>, x: HeapNode)
    requires IsHeap(s)
    ensures HeapButAbove(s + [x], |s|)
  {
    var t := s + [x];
    forall i | 0 < i < |t| && i != |s| ensures Edge(t, i) {
      assert Edge(s, i);
    }
  }

  lemma NoSmallerChild(s: seq<HeapNode>, k: nat)
    requires k < |s| && HeapButBelow(s, k)
    requires 2 * k + 1 < |s| ==> Compare(s[2 * k + 1], s[k]) >= 0
    requires 2 * k + 2 < |s| ==> Compare(s[2 * k + 2], s[k]) >= 0
    ensures IsHeap(s)
  {
    forall i | 0 < i < |s| && Parent(i) == k ensures Leq(s[k], s[i]) {
      assert i == 2 * k + 1 || i == 2 * k + 2;
    }
    SiftDownDone(s, k);
  }

  /** `c` is the smaller of `k`'s children and smaller than `k`: the step down goes there. */
  lemma LowerChild(s: seq<HeapNode>, k: nat, c: nat)
    requires k < |s| && c < |s| && (c == 2 * k + 1 || c == 2 * k + 2) && HeapButBelow(s, k) && Compare(s[c], s[k]) < 0
    requires c == 2 * k + 1 && 2 * k + 2 < |s| ==> Compare(s[2 * k + 2], s[c]) >= 0
    requires c == 2 * k + 2 ==> Compare(s[c], s[2 * k + 1]) < 0 || Compare(s[2 * k + 1], s[k]) >= 0
    ensures HeapButBelow(Swap(s, k, c), c)
  {
    forall i | 0 < i < |s| && Parent(i) == k ensures Leq(s[c], s[i]) {
      assert i == 2 * k + 1 || i == 2 * k + 2;
    }
    SiftDownStep(s, k, c);
  }

  /** Taking the last node to the root leaves a heap but for the edges below the root. */
  lemma RemoveRoot(s: seq<HeapNode>)
    requires IsHeap(s) && s != []
    ensures var t := s[..|s| - 1];
            && (t == [] ==> multiset(s) == multiset{s[0]} && multiset(t) == multiset(s) - multiset{s[0]})
            && (t != [] ==> HeapButBelow(t[0 := s[|s| - 1]], 0) &&
                            multiset(t[0 := s[|s| - 1]]) == multiset(s) - multiset{s[0]})
  {
    var n := |s| - 1;
    var t := s[..n];
    assert s == t + [s[n]];
    if t == [] {
      assert s == [s[0]];
    } else {
      var u := t[0 := s[n]];
      assert t == [s[0]] + t[1..] && u == [s[n]] + t[1..];
      forall i | 0 < i < |u| && Parent(i) != 0 ensures Edge(u, i) {
        assert Edge(s, i);
      }
    }
  }

  // ---- Draining ----

  function SumSort(xs: seq<HeapNode>): int {
    if xs == [] then 0 else xs[0].sortIndex + SumSort(xs[1..])
  }

  function Sum(xs: seq<int>): int {
    if xs == [] then 0 else xs[0] + Sum(xs[1..])
  }

  ghost function Pops(n: nat): seq<Op> {
    seq(n, _ => Pop)
  }

  /** Popping everything yields the sort indices in ascending order, and with them their sum. */
  lemma {:induction false} DrainIsSorted(xs: seq<HeapNode>)
    requires Sorted(xs)
    ensures var out := Replay(Pops(|xs|), xs).0;
            && |out| == |xs|
            && (forall i :: 0 <= i < |out| ==> out[i] == xs[i].sortIndex)
            && (forall i, j :: 0 <= i < j < |out| ==> out[i] <= out[j])
            && Sum(out) == SumSort(xs)
    ensures Replay(Pops(|xs|), xs).1 == []
  {
    if xs != [] {
      TailSorted(xs);
      DrainIsSorted(xs[1..]);
      assert Pops(|xs|)[1..] == Pops(|xs[1..]|);
      var rest := Replay(Pops(|xs[1..]|), xs[1..]).0;
      var out := Replay(Pops(|xs|), xs).0;
      assert out == [xs[0].sortIndex] + rest;
      assert out[1..] == rest;
      forall i, j | 0 <= i < j < |out| ensures out[i] <= out[j] {
        assert Leq(xs[i], xs[j]);
      }
    }
  }

  lemma {:induction false} InsertAddsUp(x: HeapNode, xs: seq<HeapNode>)
    ensures SumSort(Insert(x, xs)) == SumSort(xs) + x.sortIndex
  {
    if xs != [] {
      if Leq(x, xs[0]) {
        assert ([x] + xs)[1..] == xs;
      } else {
        InsertAddsUp(x, xs[1..]);
        assert ([xs[0]] + Insert(x, xs[1..]))[1..] == Insert(x, xs[1..]);
      }
    }
  }

  /** The priority of item `i` of `benchmarkInternal`. */
  function Priority(seed: nat, i: nat): nat {
    (if i == 0 then seed * 1103 + 12345 else Priority(seed, i - 1) * 1103 + 12345) % 100000
  }

  function SumPriorities(seed: nat, n: nat): int {
    if n == 0 then 0 else SumPriorities(seed, n - 1) + Priority(seed, n - 1)
  }

  /** The first two items for seed 7 have priorities 20066 and 45143. */
  lemma KnownPriorities()
    ensures Priority(7, 0) == 20066 && Priority(7, 1) == 45143 && SumPriorities(7, 2) == 65209
  {
  }
}
