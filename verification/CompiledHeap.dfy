/** The same heap as the text handed to the compiler (`WASM_SOURCE` of benchmarks/react-scheduler-bench.ts): slots that may
    be null, tested for it at every use. */
module CompiledHeap {
  import opened Wrappers
  import opened SchedulerHeap

  /** `compare`, which calls a null equal to anything. */
  function CompareSlots(a: Option<HeapNode>, b: Option<HeapNode>): int {
    if a.None? || b.None? then 0 else Compare(a.value, b.value)
  }

  /** The nodes in the first `n` slots, none of which is null. */
  ghost function Nodes(heap: seq<Option<HeapNode>>, n: nat): (s: seq<HeapNode>)
    requires n <= |heap| && forall i :: 0 <= i < n ==> heap[i].Some?
    ensures |s| == n && forall i :: 0 <= i < n ==> s[i] == heap[i].value
  {
    seq(n, i requires 0 <= i < n => heap[i].value)
  }

  class Program {
    var heap: seq<Option<HeapNode>>
    var heapSize: nat

    /** No live slot is null. */
    ghost predicate Filled()
      reads this
    {
      heapSize <= |heap| && forall i :: 0 <= i < heapSize ==> heap[i].Some?
    }

    ghost function Live(): seq<HeapNode>
      requires Filled()
      reads this
    {
      Nodes(heap, heapSize)
    }

    ghost predicate Valid()
      reads this
    {
      Filled() && IsHeap(Live())
    }

    /** The heap holds exactly the nodes of the sorted list `xs`. */
    ghost predicate Holds(xs: seq<HeapNode>)
      reads this
    {
      Valid() && Sorted(xs) && multiset(Live()) == multiset(xs)
    }

    constructor ()
      ensures Valid() && Live() == []
    {
      heap, heapSize := [], 0;
    }

    /** The two assignments that exchange slots, both of them live. */
    method Exchange(i: nat, j: nat)
      requires Filled() && i < heapSize && j < heapSize
      modifies this`heap
      ensures Filled() && |heap| == old(|heap|)
      ensures Live() == Swap(old(Live()), i, j) && multiset(Live()) == old(multiset(Live()))
    {
      SwapPermutes(Live(), i, j);
      ghost var before := Live();
      heap := heap[i := heap[j]][j := heap[i]];
      assert Live() == Swap(before, i, j);
    }

    method SiftUp(startIndex: nat)
      requires Filled() && startIndex < heapSize && HeapButAbove(Live(), startIndex)
      modifies this`heap
      ensures Valid() && multiset(Live()) == old(multiset(Live())) && |heap| == old(|heap|)
    {
      hide HeapButAbove, IsHeap, Swap, Compare, Leq;
      var index: nat := startIndex;
      while index > 0
        invariant Filled() && index < heapSize && |heap| == old(|heap|)
        invariant HeapButAbove(Live(), index)
        invariant multiset(Live()) == old(multiset(Live()))
      {
        var parentIndex := (index - 1) / 2;
        var parent, node := heap[parentIndex], heap[index];
        CompareMeans(Live()[parentIndex], Live()[index]);
        if parent.Some? && node.Some? && CompareSlots(parent, node) > 0 {
          SiftUpStep(Live(), index);
          Exchange(parentIndex, index);
          index := parentIndex;
        } else {
          break;
        }
      }
      SiftUpDone(Live(), index);
    }

    method SiftDown(startIndex: nat)
      requires Filled() && startIndex < heapSize && HeapButBelow(Live(), startIndex)
      modifies this`heap
      ensures Valid() && multiset(Live()) == old(multiset(Live())) && |heap| == old(|heap|)
    {
      hide HeapButBelow, IsHeap, Swap, Compare, Leq;
      var index: nat := startIndex;
      var length := heapSize;
      var halfLength := length / 2;
      while index < halfLength
        invariant Filled() && index < heapSize && |heap| == old(|heap|)
        invariant HeapButBelow(Live(), index)
        invariant multiset(Live()) == old(multiset(Live()))
        decreases length - index
      {
        var leftIndex := 2 * (index + 1) - 1;
        var left, node := heap[leftIndex], heap[index];
        var rightIndex := leftIndex + 1;
        ghost var s := Live();
        if left.Some? && node.Some? && CompareSlots(left, node) < 0 {
          if rightIndex < length {
            var right := heap[rightIndex];
            if right.Some? && CompareSlots(right, left) < 0 {
              CompareChain(s[rightIndex], s[leftIndex], s[index]);
              LowerChild(s, index, rightIndex);
              Exchange(index, rightIndex);
              index := rightIndex;
            } else {
              LowerChild(s, index, leftIndex);
              Exchange(index, leftIndex);
              index := leftIndex;
            }
          } else {
            LowerChild(s, index, leftIndex);
            Exchange(index, leftIndex);
            index := leftIndex;
          }
        } else if rightIndex < length {
          var right := heap[rightIndex];
          if right.Some? && node.Some? && CompareSlots(right, node) < 0 {
            LowerChild(s, index, rightIndex);
            Exchange(index, rightIndex);
            index := rightIndex;
          } else {
            break;
          }
        } else {
          break;
        }
      }
      NoSmallerChild(Live(), index);
    }

    method PushItem(node: HeapNode)
      requires Valid()
      modifies this
      ensures Valid() && heapSize == old(heapSize) + 1
      ensures multiset(Live()) == old(multiset(Live())) + multiset{node}
    {
      var index := heapSize;
      ghost var before := Live();
      heap := if index < |heap| then heap[index := Some(node)] else heap + [Some(node)];
      heapSize := heapSize + 1;
      assert Live() == before + [node];
      AppendedLast(before, node);
      SiftUp(index);
    }

    /** Removes the least node and returns its sort index; -1 when there is none, never because a slot is null. */
    method PopSort() returns (r: int)
      requires Valid()
      modifies this
      ensures Valid()
      ensures old(heapSize) == 0 ==> r == -1 && Live() == old(Live())
      ensures old(heapSize) > 0 ==>
                && heapSize == old(heapSize) - 1
                && r == old(Live()[0].sortIndex)
                && multiset(Live()) == old(multiset(Live()) - multiset{Live()[0]})
                && forall x :: x in old(Live()) ==> Leq(old(Live()[0]), x)
    {
      if heapSize == 0 {
        return -1;
      }
      var first := heap[0];
      if first.None? {
        return -1;
      }
      ghost var before := Live();
      forall x | x in before ensures Leq(before[0], x) {
        var i :| 0 <= i < |before| && before[i] == x;
        RootIsLeast(before, i);
      }
      r := first.value.sortIndex;
      heapSize := heapSize - 1;
      RemoveRoot(before);
      assert Live() == before[..|before| - 1];
      if heapSize == 0 {
        return;
      }
      var last := heap[heapSize];
      heap := heap[0 := last];
      assert Live() == before[..|before| - 1][0 := before[|before| - 1]];
      SiftDown(0);
    }

    method PushOne(node: HeapNode, ghost xs: seq<HeapNode>)
      requires Holds(xs)
      modifies this
      ensures Holds(Insert(node, xs)) && heapSize == old(heapSize) + 1
    {
      PushItem(node);
    }

    method PopOne(ghost xs: seq<HeapNode>) returns (r: int)
      requires Holds(xs)
      modifies this
      ensures xs == [] ==> r == -1 && Holds(xs) && heapSize == old(heapSize) == 0
      ensures xs != [] ==> r == xs[0].sortIndex && Holds(xs[1..]) && heapSize == old(heapSize) - 1
    {
      SizesMatch(Live(), xs);
      if xs != [] {
        SameLeast(Live(), xs);
        TailSorted(xs);
      }
      r := PopSort();
    }

    /** Any list of pushes and pops returns what the sorted list returns. */
    method Run(ops: seq<Op>, ghost xs: seq<HeapNode>) returns (out: seq<int>)
      requires Holds(xs)
      modifies this
      ensures out == Replay(ops, xs).0 && Holds(Replay(ops, xs).1)
    {
      hide Holds, Insert;
      out := [];
      var i := 0;
      ghost var now := xs;
      assert ops[0..] == ops;
      assert [] + Replay(ops, xs).0 == Replay(ops, xs).0;
      while i < |ops|
        invariant 0 <= i <= |ops|
        invariant Holds(now)
        invariant out + Replay(ops[i..], now).0 == Replay(ops, xs).0 && Replay(ops[i..], now).1 == Replay(ops, xs).1
      {
        assert ops[i..][1..] == ops[i + 1..];
        match ops[i] {
          case Push(x) =>
            PushOne(x, now);
            now := Insert(x, now);
          case Pop =>
            var r := PopOne(now);
            now := if now == [] then now else now[1..];
            Regroup(out, r, Replay(ops[i + 1..], now).0);
            out := out + [r];
        }
        i := i + 1;
      }
      assert out + [] == out;
    }

    /** The first loop of `benchmarkInternal`. */
    method PushGenerated(n: nat, seed: nat) returns (ghost xs: seq<HeapNode>)
      requires Holds([]) && heapSize == 0
      modifies this
      ensures Holds(xs) && heapSize == n && SumSort(xs) == SumPriorities(seed, n)
    {
      hide Insert;
      xs := [];
      var rng, i := seed, 0;
      while i < n
        invariant 0 <= i <= n
        invariant Holds(xs) && heapSize == i
        invariant rng == if i == 0 then seed else Priority(seed, i - 1)
        invariant SumSort(xs) == SumPriorities(seed, i)
      {
        rng := (rng * 1103 + 12345) % 100000;
        var x := HeapNode(i, rng);
        InsertAddsUp(x, xs);
        PushOne(x, xs);
        xs := Insert(x, xs);
        i := i + 1;
      }
    }

    /** The second loop. */
    method PopAll(n: nat, ghost all: seq<HeapNode>) returns (checksum: int)
      requires Holds(all) && heapSize == n
      modifies this
      ensures checksum == SumSort(all)
    {
      ghost var xs := all;
      checksum := 0;
      var j := 0;
      while j < n
        invariant 0 <= j <= n
        invariant Holds(xs) && heapSize == n - j
        invariant checksum + SumSort(xs) == SumSort(all)
      {
        SizesMatch(Live(), xs);
        var val := PopOne(xs);
        xs := xs[1..];
        checksum := checksum + val;
        j := j + 1;
      }
      SizesMatch(Live(), xs);
    }
  }

  /** `benchmarkInternal`: pushing n generated items and popping n times returns the sum of their priorities. */
  method BenchmarkInternal(n: nat, seed: nat) returns (checksum: int)
    ensures checksum == SumPriorities(seed, n)
  {
    var program := new Program();
    ghost var xs := program.PushGenerated(n, seed);
    checksum := program.PopAll(n, xs);
  }
}
