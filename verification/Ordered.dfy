/** Lists in ascending key order: what `Array.prototype.sort` with a numeric or path comparison produces when no two
    keys coincide. */
module Ordered {

  ghost predicate Ascending<T>(xs: seq<T>, key: T -> int) {
    forall i, j :: 0 <= i < j < |xs| ==> key(xs[i]) < key(xs[j])
  }

  ghost function Elems<T>(xs: seq<T>): set<T> {
    set x | x in xs
  }

  ghost predicate DistinctKeys<T>(xs: seq<T>, key: T -> int) {
    forall i, j :: 0 <= i < j < |xs| ==> key(xs[i]) != key(xs[j])
  }

  /** An ascending list is determined by its elements. */
  lemma {:induction false} AscendingIsUnique<T>(xs: seq<T>, ys: seq<T>, key: T -> int)
    requires Ascending(xs, key) && Ascending(ys, key) && Elems(xs) == Elems(ys)
    ensures xs == ys
    decreases |xs|
  {
    assert xs != [] ==> xs[0] in Elems(xs);
    assert ys != [] ==> ys[0] in Elems(ys);
    if xs != [] && ys != [] {
      var m, n := |xs| - 1, |ys| - 1;
      assert xs[m] in Elems(ys) && ys[n] in Elems(xs);
      assert xs[m] == ys[n];
      InitElems(xs, key);
      InitElems(ys, key);
      AscendingIsUnique(xs[..m], ys[..n], key);
      assert xs == xs[..m] + [xs[m]] && ys == ys[..n] + [ys[n]];
    }
  }

  lemma InitElems<T>(xs: seq<T>, key: T -> int)
    requires Ascending(xs, key) && xs != []
    ensures Elems(xs[..|xs| - 1]) == Elems(xs) - {xs[|xs| - 1]}
  {
    var m := |xs| - 1;
    forall x | x in Elems(xs) - {xs[m]}
      ensures x in Elems(xs[..m])
    {
      var i :| 0 <= i < |xs| && xs[i] == x;
      assert xs[..m][i] == x;
    }
  }

  lemma {:induction false} ElemsCount<T>(xs: seq<T>, key: T -> int)
    requires Ascending(xs, key)
    ensures |Elems(xs)| == |xs|
    decreases |xs|
  {
    if xs == [] {
      assert Elems(xs) == {};
    } else {
      InitElems(xs, key);
      ElemsCount(xs[..|xs| - 1], key);
      assert xs[|xs| - 1] in Elems(xs);
    }
  }

  function Insert<T>(xs: seq<T>, x: T, key: T -> int): seq<T> {
    if xs == [] then [x]
    else
      var last := xs[|xs| - 1];
      if key(x) < key(last) then Insert(xs[..|xs| - 1], x, key) + [last] else xs + [x]
  }

  lemma {:induction false} InsertMeans<T>(xs: seq<T>, x: T, key: T -> int)
    requires Ascending(xs, key) && forall i :: 0 <= i < |xs| ==> key(xs[i]) != key(x)
    ensures var r := Insert(xs, x, key); Ascending(r, key) && Elems(r) == Elems(xs) + {x} && |r| == |xs| + 1
  {
    if xs != [] {
      var m := |xs| - 1;
      if key(x) < key(xs[m]) {
        InsertMeans(xs[..m], x, key);
        InitElems(xs, key);
        var front := Insert(xs[..m], x, key);
        forall i | 0 <= i < |front|
          ensures key(front[i]) < key(xs[m])
        {
          assert front[i] in Elems(front);
        }
        var r := front + [xs[m]];
        assert Elems(r) == Elems(front) + {xs[m]};
      } else {
        assert Elems(xs + [x]) == Elems(xs) + {x};
      }
    } else {
      assert Elems([x]) == {x};
    }
  }

  function Sort<T>(xs: seq<T>, key: T -> int): seq<T> {
    if xs == [] then [] else Insert(Sort(xs[..|xs| - 1], key), xs[|xs| - 1], key)
  }

  lemma {:induction false} SortMeans<T>(xs: seq<T>, key: T -> int)
    requires DistinctKeys(xs, key)
    ensures var r := Sort(xs, key); Ascending(r, key) && Elems(r) == Elems(xs) && |r| == |xs|
  {
    if xs != [] {
      var m := |xs| - 1;
      SortMeans(xs[..m], key);
      var front := Sort(xs[..m], key);
      forall i | 0 <= i < |front|
        ensures key(front[i]) != key(xs[m])
      {
        assert front[i] in Elems(xs[..m]);
      }
      InsertMeans(front, xs[m], key);
      assert xs == xs[..m] + [xs[m]];
      assert Elems(xs) == Elems(xs[..m]) + {xs[m]};
    }
  }

  /** Appending and sorting again is insertion. */
  lemma SortAppended<T>(xs: seq<T>, x: T, key: T -> int)
    requires Ascending(xs, key) && forall i :: 0 <= i < |xs| ==> key(xs[i]) != key(x)
    ensures Sort(xs + [x], key) == Insert(xs, x, key)
  {
    SortMeans(xs, key);
    AscendingIsUnique(Sort(xs, key), xs, key);
    assert (xs + [x])[..|xs|] == xs;
  }

  // ---- Sets of numbers ----

  function Itself(n: nat): int {
    n
  }

  lemma {:induction false} LeastExists(s: set<nat>)
    requires s != {}
    ensures exists m :: m in s && forall x :: x in s ==> m <= x
    decreases |s|
  {
    var y :| y in s;
    if s - {y} == {} {
      assert s == {y};
    } else {
      LeastExists(s - {y});
      var m :| m in s - {y} && forall x :: x in s - {y} ==> m <= x;
      var least := if m < y then m else y;
      assert forall x :: x in s ==> x == y || x in s - {y};
      assert least in s && forall x :: x in s ==> least <= x;
    }
  }

  ghost function Least(s: set<nat>): (m: nat)
    requires s != {}
    ensures m in s && forall x :: x in s ==> m <= x
  {
    LeastExists(s);
    var m :| m in s && forall x :: x in s ==> m <= x;
    m
  }

  /** The numbers of a set in ascending order. */
  ghost function Listed(s: set<nat>): seq<nat> {
    if s == {} then [] else [Least(s)] + Listed(s - {Least(s)})
  }

  lemma {:induction false} ListedMeans(s: set<nat>)
    ensures Ascending(Listed(s), Itself) && Elems(Listed(s)) == s && |Listed(s)| == |s|
    decreases |s|
  {
    if s != {} {
      var m := Least(s);
      ListedMeans(s - {m});
      FrontMeans(m, Listed(s - {m}), s - {m});
    }
  }

  lemma FrontMeans(m: nat, rest: seq<nat>, s: set<nat>)
    requires Ascending(rest, Itself) && Elems(rest) == s && m !in s && forall x :: x in s ==> m <= x
    ensures Ascending([m] + rest, Itself) && Elems([m] + rest) == s + {m}
  {
    var r := [m] + rest;
    forall i | 0 < i < |r|
      ensures m < r[i]
    {
      assert r[i] in Elems(rest);
    }
    assert Elems(r) == Elems(rest) + {m};
  }
}
