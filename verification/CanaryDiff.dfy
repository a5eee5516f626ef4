/** The program scripts/test262-canary-diff.ts: comparing two runs, and writing or extending the manifest. */
module CanaryDiff {
  import opened Ordered
  import opened CanaryManifest

  type Results = map<Path, Status>

  // ---- Comparing two runs ----

  ghost function Changes(a: Results, b: Results): map<Path, Change> {
    map p | p in a && p in b && a[p] != b[p] :: Change(a[p], b[p])
  }

  ghost function SamePaths(a: Results, b: Results): set<Path> {
    set p | p in a && p in b && a[p] == b[p]
  }

  datatype Changed = Changed(path: Path, change: Change)

  function ChangedPath(c: Changed): int { c.path }

  /** The list holds the changes of one kind among some paths, each once. */
  ghost predicate Lists(xs: seq<Changed>, changes: map<Path, Change>, k: Kind, among: set<Path>) {
    && DistinctKeys(xs, ChangedPath)
    && (forall x :: x in xs <==> x.path in among && x.path in changes && x.change == changes[x.path] && KindOf(x.change) == k)
  }

  lemma OneMorePath(done: set<Path>, p: Path, s: set<Path>)
    requires p !in done
    ensures |(done + {p}) * s| == |done * s| + if p in s then 1 else 0
  {
    if p in s {
      assert (done + {p}) * s == done * s + {p};
    } else {
      assert (done + {p}) * s == done * s;
    }
  }

  lemma ListsNext(xs: seq<Changed>, changes: map<Path, Change>, k: Kind, done: set<Path>, p: Path)
    requires Lists(xs, changes, k, done) && p !in done
    ensures p in KindPaths(changes, k) ==> Lists(xs + [Changed(p, changes[p])], changes, k, done + {p})
    ensures p !in KindPaths(changes, k) ==> Lists(xs, changes, k, done + {p})
  {
    if p in KindPaths(changes, k) {
      var x := Changed(p, changes[p]);
      assert forall i :: 0 <= i < |xs| ==> xs[i] in xs;
      assert forall y :: y in xs + [x] <==> y in xs || y == x;
    }
  }

  /** The counters and lists of the comparison. */
  datatype Diff = Diff(same: nat, flip: nat, noise: nat, missing: nat, flipped: seq<Changed>, noisy: seq<Changed>)

  /** Every path of either run falls in one of the four classes, and the two lists are complete. */
  ghost predicate Compares(a: Results, b: Results, d: Diff) {
    && d.same == |SamePaths(a, b)| && d.missing == |a.Keys + b.Keys| - |a.Keys * b.Keys|
    && d.flip == |KindPaths(Changes(a, b), PassFlip)| && d.noise == |KindPaths(Changes(a, b), NonPassNoise)|
    && d.same + d.flip + d.noise + d.missing == |a.Keys + b.Keys|
    && (d.missing == 0 <==> a.Keys == b.Keys)
    && Lists(d.flipped, Changes(a, b), PassFlip, a.Keys + b.Keys)
    && Lists(d.noisy, Changes(a, b), NonPassNoise, a.Keys + b.Keys)
  }

  /** The paths that pass in exactly one of the two runs, and those that fail differently in both. */
  ghost function FlippedPaths(a: Results, b: Results): set<Path> {
    set p | p in a && p in b && ((a[p] == "pass" && b[p] != "pass") || (a[p] != "pass" && b[p] == "pass"))
  }

  ghost function NoisyPaths(a: Results, b: Results): set<Path> {
    set p | p in a && p in b && a[p] != b[p] && a[p] != "pass" && b[p] != "pass"
  }

  lemma KindsAre(a: Results, b: Results)
    ensures KindPaths(Changes(a, b), PassFlip) == FlippedPaths(a, b)
    ensures KindPaths(Changes(a, b), NonPassNoise) == NoisyPaths(a, b)
  {
  }

  method Classify(a: Results, b: Results) returns (d: Diff)
    ensures Compares(a, b, d)
    ensures d.flip == |FlippedPaths(a, b)| && d.noise == |NoisyPaths(a, b)|
  {
    hide *;
    d := Diff(0, 0, 0, 0, [], []);
    var files := a.Keys + b.Keys;
    var todo := files;
    NothingClassified(a, b);
    assert files - todo == {};
    while todo != {}
      invariant todo <= files
      invariant Progress(a, b, files - todo, d)
    {
      var file :| file in todo;
      ProgressNext(a, b, file, files - todo, d);
      assert files - (todo - {file}) == files - todo + {file};
      todo := todo - {file};
      if file !in a || file !in b {
        d := d.(missing := d.missing + 1);
      } else if a[file] == b[file] {
        d := d.(same := d.same + 1);
      } else if IsPass(a[file]) != IsPass(b[file]) {
        d := d.(flip := d.flip + 1, flipped := d.flipped + [Changed(file, Change(a[file], b[file]))]);
      } else {
        d := d.(noise := d.noise + 1, noisy := d.noisy + [Changed(file, Change(a[file], b[file]))]);
      }
    }
    assert files - todo == files;
    AllClassified(a, b, d);
    ComparesCounts(a, b, d);
  }

  lemma ComparesCounts(a: Results, b: Results, d: Diff)
    requires Compares(a, b, d)
    ensures d.flip == |FlippedPaths(a, b)| && d.noise == |NoisyPaths(a, b)|
  {
    KindsAre(a, b);
  }

  ghost predicate Progress(a: Results, b: Results, done: set<Path>, d: Diff) {
    && Classified(a, b, done, d.same, d.flip, d.noise, d.missing)
    && Lists(d.flipped, Changes(a, b), PassFlip, done) && Lists(d.noisy, Changes(a, b), NonPassNoise, done)
  }

  lemma ProgressNext(a: Results, b: Results, p: Path, done: set<Path>, d: Diff)
    requires Progress(a, b, done, d) && p !in done && p in a.Keys + b.Keys
    ensures var next :=
              if p !in a || p !in b then d.(missing := d.missing + 1)
              else if a[p] == b[p] then d.(same := d.same + 1)
              else if IsPass(a[p]) != IsPass(b[p]) then
                d.(flip := d.flip + 1, flipped := d.flipped + [Changed(p, Change(a[p], b[p]))])
              else d.(noise := d.noise + 1, noisy := d.noisy + [Changed(p, Change(a[p], b[p]))]);
            Progress(a, b, done + {p}, next)
  {
    hide Lists, Classified, KindPaths, Changes, SamePaths, OnlyInOne;
    ClassOf(a, b, p);
    ClassifyNext(a, b, p, done, d.same, d.flip, d.noise, d.missing);
    ListsNext(d.flipped, Changes(a, b), PassFlip, done, p);
    ListsNext(d.noisy, Changes(a, b), NonPassNoise, done, p);
  }

  lemma AllClassified(a: Results, b: Results, d: Diff)
    requires Progress(a, b, a.Keys + b.Keys, d)
    ensures Compares(a, b, d)
  {
    WholeSets(a, b, a.Keys + b.Keys, d.same, d.flip, d.noise, d.missing);
  }

  /** The four counters count the paths of their class among those seen so far. */
  ghost predicate Classified(a: Results, b: Results, done: set<Path>, same: nat, flip: nat, noise: nat, missing: nat) {
    && same == |done * SamePaths(a, b)| && missing == |done * OnlyInOne(a, b)|
    && flip == |done * KindPaths(Changes(a, b), PassFlip)|
    && noise == |done * KindPaths(Changes(a, b), NonPassNoise)|
    && same + flip + noise + missing == |done|
  }

  lemma NothingClassified(a: Results, b: Results)
    ensures Progress(a, b, {}, Diff(0, 0, 0, 0, [], []))
  {
    assert forall s: set<Path> :: {} * s == {};
  }

  lemma ClassOf(a: Results, b: Results, p: Path)
    requires p in a.Keys + b.Keys
    ensures p in OnlyInOne(a, b) <==> p !in a || p !in b
    ensures p in SamePaths(a, b) <==> p in a && p in b && a[p] == b[p]
    ensures p in Changes(a, b) <==> p in a && p in b && a[p] != b[p]
    ensures p in Changes(a, b) ==> Changes(a, b)[p] == Change(a[p], b[p])
    ensures p in KindPaths(Changes(a, b), PassFlip)
       <==> p in a && p in b && a[p] != b[p] && (IsPass(a[p]) != IsPass(b[p]))
    ensures p in KindPaths(Changes(a, b), NonPassNoise)
       <==> p in a && p in b && a[p] != b[p] && (IsPass(a[p]) == IsPass(b[p]))
  {
  }

  lemma ClassifyNext(a: Results, b: Results, p: Path, done: set<Path>, same: nat, flip: nat, noise: nat, missing: nat)
    requires Classified(a, b, done, same, flip, noise, missing) && p !in done && p in a.Keys + b.Keys
    ensures Classified(a, b, done + {p},
                       same + (if p in SamePaths(a, b) then 1 else 0),
                       flip + (if p in KindPaths(Changes(a, b), PassFlip) then 1 else 0),
                       noise + (if p in KindPaths(Changes(a, b), NonPassNoise) then 1 else 0),
                       missing + (if p in OnlyInOne(a, b) then 1 else 0))
  {
    hide SamePaths, OnlyInOne, KindPaths, Changes;
    ClassOf(a, b, p);
    OneMorePath(done, p, SamePaths(a, b));
    OneMorePath(done, p, OnlyInOne(a, b));
    OneMorePath(done, p, KindPaths(Changes(a, b), PassFlip));
    OneMorePath(done, p, KindPaths(Changes(a, b), NonPassNoise));
  }

  ghost function OnlyInOne(a: Results, b: Results): set<Path> {
    (a.Keys + b.Keys) - (a.Keys * b.Keys)
  }

  lemma WholeSets(a: Results, b: Results, all: set<Path>, same: nat, flip: nat, noise: nat, missing: nat)
    requires all == a.Keys + b.Keys && Classified(a, b, all, same, flip, noise, missing)
    ensures same == |SamePaths(a, b)| && missing == |a.Keys + b.Keys| - |a.Keys * b.Keys|
    ensures flip == |KindPaths(Changes(a, b), PassFlip)| && noise == |KindPaths(Changes(a, b), NonPassNoise)|
    ensures same + flip + noise + missing == |a.Keys + b.Keys|
    ensures missing == 0 <==> a.Keys == b.Keys
  {
    ClassesInside(a, b);
    MissingMeans(a, b);
    hide SamePaths, KindPaths, Changes, OnlyInOne;
    WholeSet(all, SamePaths(a, b));
    WholeSet(all, KindPaths(Changes(a, b), PassFlip));
    WholeSet(all, KindPaths(Changes(a, b), NonPassNoise));
    WholeSet(all, OnlyInOne(a, b));
  }

  lemma WholeSet(all: set<Path>, s: set<Path>)
    requires s <= all
    ensures all * s == s
  {
  }

  lemma ClassesInside(a: Results, b: Results)
    ensures SamePaths(a, b) <= a.Keys + b.Keys && OnlyInOne(a, b) <= a.Keys + b.Keys
    ensures KindPaths(Changes(a, b), PassFlip) <= a.Keys + b.Keys && KindPaths(Changes(a, b), NonPassNoise) <= a.Keys + b.Keys
  {
  }

  lemma MissingMeans(a: Results, b: Results)
    ensures |OnlyInOne(a, b)| == |a.Keys + b.Keys| - |a.Keys * b.Keys|
    ensures |OnlyInOne(a, b)| == 0 <==> a.Keys == b.Keys
  {
    assert a.Keys * b.Keys <= a.Keys + b.Keys;
    if |OnlyInOne(a, b)| == 0 {
      assert OnlyInOne(a, b) == {};
      assert forall p :: p in a.Keys + b.Keys ==> p in a.Keys * b.Keys;
      assert a.Keys == b.Keys;
    }
    if a.Keys == b.Keys {
      assert OnlyInOne(a, b) == {};
    }
  }
}
