/** The host-noise manifest of scripts/test262-canary-diff.ts as an encoding of the canaries it was made from. */
module CanaryManifest {
  import opened Ordered

  /** A test path by its rank in the order of `localeCompare`; the empty string comes first. */
  type Path = nat
  type Status = string

  datatype Kind = PassFlip | NonPassNoise

  datatype Change = Change(a: Status, b: Status)

  predicate IsPass(s: Status) {
    s == "pass"
  }

  function KindOf(c: Change): Kind {
    if IsPass(c.a) != IsPass(c.b) then PassFlip else NonPassNoise
  }

  /** A change is a flip exactly if one of the two statuses is "pass". */
  lemma KindMeans(c: Change)
    ensures KindOf(c) == PassFlip <==> (c.a == "pass" && c.b != "pass") || (c.a != "pass" && c.b == "pass")
  {
  }

  /** What one canary, a pair of complete runs, contributes: the paths whose status changed. */
  datatype Evidence = Evidence(runId: nat, artifactId: nat, sha: string, entries: nat, changes: map<Path, Change>)

  datatype Provenance = Provenance(
    runId: nat, artifactId: nat, sha: string, aEntries: nat, bEntries: nat, passFlips: nat, noise: nat, unstable: nat)

  datatype Observation = Observation(runId: nat, change: Change, kind: Kind)

  datatype Entry = Entry(path: Path, observations: seq<Observation>)

  datatype Counts = Counts(canaryRuns: nat, passFlips: nat, noise: nat, unionPaths: nat, intersectionPaths: nat)

  datatype Manifest = Manifest(canaries: seq<Provenance>, counts: Counts, entries: seq<Entry>)

  function RunOf(e: Evidence): int { e.runId }
  function ArtifactOf(e: Evidence): int { e.artifactId }
  function ProvRun(c: Provenance): int { c.runId }
  function ProvArtifact(c: Provenance): int { c.artifactId }
  function ObsRun(o: Observation): int { o.runId }
  function EntryPath(e: Entry): int { e.path }

  // ---- The manifest of a list of canaries, defined without building it up ----

  ghost function KindPaths(changes: map<Path, Change>, k: Kind): set<Path> {
    set p | p in changes && KindOf(changes[p]) == k
  }

  ghost function ProvenanceFor(e: Evidence): Provenance {
    Provenance(e.runId, e.artifactId, e.sha, e.entries, e.entries,
               |KindPaths(e.changes, PassFlip)|, |KindPaths(e.changes, NonPassNoise)|, |e.changes|)
  }

  function ObservationFor(e: Evidence, p: Path): Observation
    requires p in e.changes
  {
    Observation(e.runId, e.changes[p], KindOf(e.changes[p]))
  }

  /** The observations of one path. */
  ghost function Seen(cs: seq<Evidence>, p: Path): seq<Observation> {
    if cs == [] then []
    else
      var last := cs[|cs| - 1];
      Seen(cs[..|cs| - 1], p) + if p in last.changes then [ObservationFor(last, p)] else []
  }

  ghost function UnionPaths(cs: seq<Evidence>): set<Path> {
    if cs == [] then {} else UnionPaths(cs[..|cs| - 1]) + cs[|cs| - 1].changes.Keys
  }

  ghost predicate UnstableInAll(cs: seq<Evidence>, p: Path) {
    forall i :: 0 <= i < |cs| ==> p in cs[i].changes
  }

  ghost function CommonPaths(cs: seq<Evidence>): set<Path> {
    set p | p in UnionPaths(cs) && UnstableInAll(cs, p)
  }

  /** The canaries' own counts of one kind, added up. */
  ghost function SumOfKind(cs: seq<Evidence>, k: Kind): nat {
    if cs == [] then 0 else SumOfKind(cs[..|cs| - 1], k) + |KindPaths(cs[|cs| - 1].changes, k)|
  }

  ghost function EntriesFor(ps: seq<Path>, cs: seq<Evidence>): seq<Entry> {
    seq(|ps|, i requires 0 <= i < |ps| => Entry(ps[i], Seen(cs, ps[i])))
  }

  ghost function ProvenancesFor(cs: seq<Evidence>): seq<Provenance> {
    seq(|cs|, i requires 0 <= i < |cs| => ProvenanceFor(cs[i]))
  }

  ghost function ManifestOf(cs: seq<Evidence>): Manifest {
    Manifest(ProvenancesFor(cs),
             Counts(|cs|, SumOfKind(cs, PassFlip), SumOfKind(cs, NonPassNoise), |UnionPaths(cs)|, |CommonPaths(cs)|),
             EntriesFor(Listed(UnionPaths(cs)), cs))
  }

  // ---- The counts as the program reduces them from the entries ----

  function KindCount(os: seq<Observation>, k: Kind): nat {
    if os == [] then 0 else KindCount(os[..|os| - 1], k) + if os[|os| - 1].kind == k then 1 else 0
  }

  function TotalKind(es: seq<Entry>, k: Kind): nat {
    if es == [] then 0 else TotalKind(es[..|es| - 1], k) + KindCount(es[|es| - 1].observations, k)
  }

  function FullEntries(es: seq<Entry>, n: nat): nat {
    if es == [] then 0 else FullEntries(es[..|es| - 1], n) + if |es[|es| - 1].observations| == n then 1 else 0
  }

  /** How many of the listed paths changed in one canary with one kind. */
  ghost function Hits(ps: seq<Path>, changes: map<Path, Change>, k: Kind): nat {
    if ps == [] then 0
    else Hits(ps[..|ps| - 1], changes, k) + if ps[|ps| - 1] in KindPaths(changes, k) then 1 else 0
  }

  lemma {:induction false} HitsCount(ps: seq<Path>, changes: map<Path, Change>, k: Kind)
    requires Ascending(ps, Itself)
    ensures Hits(ps, changes, k) == |KindPaths(changes, k) * Elems(ps)|
  {
    if ps == [] {
      assert KindPaths(changes, k) * Elems(ps) == {};
    } else {
      var m := |ps| - 1;
      HitsCount(ps[..m], changes, k);
      InitElems(ps, Itself);
      assert ps[m] in Elems(ps);
      OneMoreHit(KindPaths(changes, k), Elems(ps), ps[m]);
      hide KindPaths, Elems;
    }
  }

  lemma OneMoreHit(s: set<Path>, all: set<Path>, p: Path)
    requires p in all
    ensures |s * all| == |s * (all - {p})| + if p in s then 1 else 0
  {
    if p in s {
      assert s * all == s * (all - {p}) + {p};
    } else {
      assert s * all == s * (all - {p});
    }
  }

  lemma EntriesForInit(ps: seq<Path>, cs: seq<Evidence>)
    requires ps != []
    ensures EntriesFor(ps, cs)[..|ps| - 1] == EntriesFor(ps[..|ps| - 1], cs)
  {
  }

  /** One more canary adds its own hits, path by path. */
  lemma {:induction false} LastCanaryAdds(ps: seq<Path>, cs: seq<Evidence>, k: Kind)
    requires cs != []
    ensures TotalKind(EntriesFor(ps, cs), k)
         == TotalKind(EntriesFor(ps, cs[..|cs| - 1]), k) + Hits(ps, cs[|cs| - 1].changes, k)
    decreases |ps|
  {
    if ps != [] {
      var m, init, last := |ps| - 1, cs[..|cs| - 1], cs[|cs| - 1];
      LastCanaryAdds(ps[..m], cs, k);
      EntriesForInit(ps, cs);
      EntriesForInit(ps, init);
      var p := ps[m];
      if p in last.changes {
        assert Seen(cs, p)[..|Seen(cs, p)| - 1] == Seen(init, p);
      } else {
        assert Seen(cs, p) == Seen(init, p);
      }
    }
  }

  lemma {:induction false} NothingSeen(ps: seq<Path>, k: Kind)
    ensures TotalKind(EntriesFor(ps, []), k) == 0
  {
    if ps != [] {
      NothingSeen(ps[..|ps| - 1], k);
      EntriesForInit(ps, []);
    }
  }

  /** Adding up the observations path by path gives what adding up canary by canary gives. */
  lemma {:induction false} ObservationsAddUp(ps: seq<Path>, cs: seq<Evidence>, k: Kind)
    requires Ascending(ps, Itself) && UnionPaths(cs) <= Elems(ps)
    ensures TotalKind(EntriesFor(ps, cs), k) == SumOfKind(cs, k)
    decreases |cs|
  {
    if cs == [] {
      NothingSeen(ps, k);
    } else {
      var last := cs[|cs| - 1];
      ObservationsAddUp(ps, cs[..|cs| - 1], k);
      LastCanaryAdds(ps, cs, k);
      HitsCount(ps, last.changes, k);
      assert KindPaths(last.changes, k) * Elems(ps) == KindPaths(last.changes, k);
    }
  }

  lemma {:induction false} FullMeansUnstableInAll(cs: seq<Evidence>, p: Path)
    ensures |Seen(cs, p)| <= |cs| && (|Seen(cs, p)| == |cs| <==> UnstableInAll(cs, p))
  {
    if cs != [] {
      var m := |cs| - 1;
      FullMeansUnstableInAll(cs[..m], p);
      assert UnstableInAll(cs, p) <==> UnstableInAll(cs[..m], p) && p in cs[m].changes;
    }
  }

  ghost function CommonAmong(ps: seq<Path>, cs: seq<Evidence>): set<Path> {
    set p | p in Elems(ps) && UnstableInAll(cs, p)
  }

  lemma {:induction false} FullEntriesCount(ps: seq<Path>, cs: seq<Evidence>)
    requires Ascending(ps, Itself)
    ensures FullEntries(EntriesFor(ps, cs), |cs|) == |CommonAmong(ps, cs)|
    decreases |ps|
  {
    if ps == [] {
      assert CommonAmong(ps, cs) == {};
    } else {
      var m := |ps| - 1;
      FullEntriesCount(ps[..m], cs);
      EntriesForInit(ps, cs);
      InitElems(ps, Itself);
      FullMeansUnstableInAll(cs, ps[m]);
      assert ps[m] in Elems(ps);
      if UnstableInAll(cs, ps[m]) {
        assert CommonAmong(ps, cs) == CommonAmong(ps[..m], cs) + {ps[m]};
      } else {
        assert CommonAmong(ps, cs) == CommonAmong(ps[..m], cs);
      }
    }
  }

  /** The counts reduced from the entries are the canaries' own counts added up, the size of the union, and the number
      of paths unstable in every canary. */
  lemma CountsAgree(cs: seq<Evidence>)
    ensures var m := ManifestOf(cs);
            m.counts == Counts(|m.canaries|, TotalKind(m.entries, PassFlip), TotalKind(m.entries, NonPassNoise),
                               |m.entries|, FullEntries(m.entries, |m.canaries|))
  {
    var ps := Listed(UnionPaths(cs));
    ListedMeans(UnionPaths(cs));
    ObservationsAddUp(ps, cs, PassFlip);
    ObservationsAddUp(ps, cs, NonPassNoise);
    FullEntriesCount(ps, cs);
    assert CommonAmong(ps, cs) == CommonPaths(cs);
  }

  // ---- What is seen of a path ----

  lemma {:induction false} UnionMeans(cs: seq<Evidence>, p: Path)
    ensures p in UnionPaths(cs) <==> exists i :: 0 <= i < |cs| && p in cs[i].changes
  {
    if cs != [] {
      var m := |cs| - 1;
      UnionMeans(cs[..m], p);
      if i :| 0 <= i < |cs| && p in cs[i].changes {
        assert i < m ==> cs[..m][i] == cs[i];
      }
    }
  }

  /** At most one observation per path and canary, in run order. */
  lemma {:induction false} SeenMeans(cs: seq<Evidence>, p: Path)
    requires Ascending(cs, RunOf)
    ensures Ascending(Seen(cs, p), ObsRun)
    ensures forall o :: o in Seen(cs, p) <==> exists i :: 0 <= i < |cs| && p in cs[i].changes && o == ObservationFor(cs[i], p)
  {
    if cs != [] {
      var m := |cs| - 1;
      var front := Seen(cs[..m], p);
      SeenMeans(cs[..m], p);
      forall j | 0 <= j < |front|
        ensures front[j].runId < cs[m].runId
      {
        assert front[j] in front;
        var i :| 0 <= i < m && p in cs[i].changes && front[j] == ObservationFor(cs[..m][i], p);
      }
      forall o
        ensures o in Seen(cs, p) <==> exists i :: 0 <= i < |cs| && p in cs[i].changes && o == ObservationFor(cs[i], p)
      {
        if o in front {
          var i :| 0 <= i < m && p in cs[i].changes && o == ObservationFor(cs[..m][i], p);
          assert cs[i] == cs[..m][i];
        }
        if i :| 0 <= i < |cs| && p in cs[i].changes && o == ObservationFor(cs[i], p) {
          assert i < m ==> cs[..m][i] == cs[i];
        }
      }
    }
  }

  lemma {:induction false} SeenSomething(cs: seq<Evidence>, p: Path)
    ensures Seen(cs, p) != [] <==> p in UnionPaths(cs)
  {
    if cs != [] {
      SeenSomething(cs[..|cs| - 1], p);
    }
  }

  /** The entries are in path order and there is one for every path that changed anywhere. */
  lemma EntriesMean(cs: seq<Evidence>)
    ensures var es := EntriesFor(Listed(UnionPaths(cs)), cs);
            && Ascending(es, EntryPath)
            && (forall e :: e in es <==> e.path in UnionPaths(cs) && e.observations == Seen(cs, e.path))
  {
    var s := UnionPaths(cs);
    ListedMeans(s);
    var ps := Listed(s);
    var es := EntriesFor(ps, cs);
    forall i, j | 0 <= i < j < |es|
      ensures EntryPath(es[i]) < EntryPath(es[j])
    {
      assert Itself(ps[i]) < Itself(ps[j]);
    }
    forall e
      ensures e in es <==> e.path in s && e.observations == Seen(cs, e.path)
    {
      if e in es {
        var i :| 0 <= i < |es| && es[i] == e;
        assert ps[i] in Elems(ps);
      }
      if e.path in s && e.observations == Seen(cs, e.path) {
        assert e.path in Elems(ps);
        var i :| 0 <= i < |ps| && ps[i] == e.path;
        assert es[i] == e;
      }
    }
  }

  /** Canaries are listed by rising run id, entries by rising path, and the observations of each by rising run id. */
  lemma ManifestIsOrdered(cs: seq<Evidence>)
    requires forall i, j :: 0 <= i < j < |cs| ==> cs[i].runId < cs[j].runId
    ensures var m := ManifestOf(cs);
            && (forall i, j :: 0 <= i < j < |m.canaries| ==> m.canaries[i].runId < m.canaries[j].runId)
            && (forall i, j :: 0 <= i < j < |m.entries| ==> m.entries[i].path < m.entries[j].path)
            && (forall e, i, j :: e in m.entries && 0 <= i < j < |e.observations| ==>
                  e.observations[i].runId < e.observations[j].runId)
  {
    var m := ManifestOf(cs);
    EntriesMean(cs);
    assert Ascending(cs, RunOf);
    forall i, j | 0 <= i < j < |m.entries|
      ensures m.entries[i].path < m.entries[j].path
    {
      assert EntryPath(m.entries[i]) < EntryPath(m.entries[j]);
    }
    forall e, i, j | e in m.entries && 0 <= i < j < |e.observations|
      ensures e.observations[i].runId < e.observations[j].runId
    {
      SeenMeans(cs, e.path);
      assert ObsRun(e.observations[i]) < ObsRun(e.observations[j]);
    }
  }
}
