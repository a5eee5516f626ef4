/** Writing and extending the manifest in scripts/test262-canary-diff.ts, one canary at a time, in any order. */
module CanaryExtend {
  import opened Wrappers
  import opened Ordered
  import opened CanaryManifest
  import opened CanaryValidator
  import opened CanaryDiff
  import opened CanaryCheck

  /** One invocation with `--write-host-quarantine`. */
  datatype Canary = Canary(runId: nat, artifactId: nat, sha: string, a: Results, b: Results)

  ghost function EvidenceFrom(c: Canary): Evidence {
    Evidence(c.runId, c.artifactId, c.sha, |c.a|, Changes(c.a, c.b))
  }

  ghost predicate Clash(cs: seq<Evidence>, e: Evidence) {
    exists i :: 0 <= i < |cs| && (cs[i].runId == e.runId || cs[i].artifactId == e.artifactId)
  }

  // ---- What one more canary does to the encoding ----

  lemma {:induction false} UnionOfInserted(cs: seq<Evidence>, e: Evidence)
    ensures UnionPaths(Insert(cs, e, RunOf)) == UnionPaths(cs) + e.changes.Keys
  {
    var r := Insert(cs, e, RunOf);
    if cs != [] && RunOf(e) < RunOf(cs[|cs| - 1]) {
      UnionOfInserted(cs[..|cs| - 1], e);
      assert r[..|r| - 1] == Insert(cs[..|cs| - 1], e, RunOf);
    } else {
      assert r == cs + [e];
      assert r[..|cs|] == cs;
    }
  }

  lemma {:induction false} SeenOfInserted(cs: seq<Evidence>, e: Evidence, p: Path)
    requires Ascending(cs, RunOf)
    ensures Seen(Insert(cs, e, RunOf), p)
         == if p in e.changes then Insert(Seen(cs, p), ObservationFor(e, p), ObsRun) else Seen(cs, p)
  {
    var r := Insert(cs, e, RunOf);
    if cs != [] && RunOf(e) < RunOf(cs[|cs| - 1]) {
      var m, init := |cs| - 1, cs[..|cs| - 1];
      SeenOfInserted(init, e, p);
      assert r[..|r| - 1] == Insert(init, e, RunOf) && r[|r| - 1] == cs[m];
      if p in e.changes {
        InsertBeforeLater(Seen(init, p), ObservationFor(e, p), cs[m], p);
      }
    } else {
      assert r == cs + [e];
      assert r[..|cs|] == cs;
      if p in e.changes {
        AppendLatest(cs, e, p);
      }
    }
  }

  lemma InsertBeforeLater(os: seq<Observation>, o: Observation, later: Evidence, p: Path)
    requires o.runId < later.runId
    ensures var tail := if p in later.changes then [ObservationFor(later, p)] else [];
            Insert(os + tail, o, ObsRun) == Insert(os, o, ObsRun) + tail
  {
    if p in later.changes {
      var t := ObservationFor(later, p);
      assert (os + [t])[..|os|] == os;
    } else {
      assert os + [] == os;
    }
  }

  lemma AppendLatest(cs: seq<Evidence>, e: Evidence, p: Path)
    requires Ascending(cs, RunOf) && p in e.changes && (cs == [] || RunOf(cs[|cs| - 1]) <= RunOf(e))
    ensures Insert(Seen(cs, p), ObservationFor(e, p), ObsRun) == Seen(cs, p) + [ObservationFor(e, p)]
  {
    SeenMeans(cs, p);
    var os := Seen(cs, p);
    if os != [] {
      assert os[|os| - 1] in os;
      var i :| 0 <= i < |cs| && p in cs[i].changes && os[|os| - 1] == ObservationFor(cs[i], p);
      assert i < |cs| - 1 ==> RunOf(cs[i]) < RunOf(cs[|cs| - 1]);
    }
  }

  lemma NewRunIsNew(cs: seq<Evidence>, e: Evidence, p: Path)
    requires Ascending(cs, RunOf) && !Clash(cs, e)
    ensures Ascending(Seen(cs, p), ObsRun) && forall i :: 0 <= i < |Seen(cs, p)| ==> ObsRun(Seen(cs, p)[i]) != e.runId
  {
    SeenMeans(cs, p);
    var os := Seen(cs, p);
    forall j | 0 <= j < |os|
      ensures os[j].runId != e.runId
    {
      assert os[j] in os;
      var i :| 0 <= i < |cs| && p in cs[i].changes && os[j] == ObservationFor(cs[i], p);
    }
  }

  /** Pushing the new observation and sorting again gives what is seen with the canary added. */
  lemma PushedAndSorted(cs: seq<Evidence>, e: Evidence, p: Path)
    requires Ascending(cs, RunOf) && !Clash(cs, e) && p in e.changes
    ensures Sort(Seen(cs, p) + [ObservationFor(e, p)], ObsRun) == Seen(Insert(cs, e, RunOf), p)
  {
    NewRunIsNew(cs, e, p);
    SortAppended(Seen(cs, p), ObservationFor(e, p), ObsRun);
    SeenOfInserted(cs, e, p);
  }

  lemma ProvenanceKeepsRun(e: Evidence)
    ensures ProvRun(ProvenanceFor(e)) == RunOf(e)
  {
  }

  lemma {:induction false} ProvenancesOfInserted(cs: seq<Evidence>, e: Evidence)
    ensures Insert(ProvenancesFor(cs), ProvenanceFor(e), ProvRun) == ProvenancesFor(Insert(cs, e, RunOf))
  {
    hide ProvenanceFor, ProvRun, RunOf;
    if cs == [] {
      assert ProvenancesFor(cs) == [];
    } else {
      var m := |cs| - 1;
      var ps := ProvenancesFor(cs);
      assert ps[..m] == ProvenancesFor(cs[..m]) && ps[m] == ProvenanceFor(cs[m]);
      ProvenanceKeepsRun(e);
      ProvenanceKeepsRun(cs[m]);
      if RunOf(e) < RunOf(cs[m]) {
        ProvenancesOfInserted(cs[..m], e);
        assert Insert(cs, e, RunOf) == Insert(cs[..m], e, RunOf) + [cs[m]];
        assert Insert(ps, ProvenanceFor(e), ProvRun) == Insert(ps[..m], ProvenanceFor(e), ProvRun) + [ps[m]];
      } else {
        assert Insert(cs, e, RunOf) == cs + [e];
        assert Insert(ps, ProvenanceFor(e), ProvRun) == ps + [ProvenanceFor(e)];
      }
    }
  }

  lemma ProvenancesPushedAndSorted(cs: seq<Evidence>, e: Evidence)
    requires Ascending(cs, RunOf) && !Clash(cs, e)
    ensures Sort(ProvenancesFor(cs) + [ProvenanceFor(e)], ProvRun) == ProvenancesFor(Insert(cs, e, RunOf))
  {
    var ps := ProvenancesFor(cs);
    forall i, j | 0 <= i < j < |ps|
      ensures ProvRun(ps[i]) < ProvRun(ps[j])
    {
      assert RunOf(cs[i]) < RunOf(cs[j]);
    }
    assert forall i :: 0 <= i < |ps| ==> ProvRun(ps[i]) == cs[i].runId;
    SortAppended(ps, ProvenanceFor(e), ProvRun);
    ProvenancesOfInserted(cs, e);
  }

  // ---- The program's steps ----

  /** `observationsByPath` holds what is seen of every path. */
  ghost predicate Collected(byPath: map<Path, seq<Observation>>, cs: seq<Evidence>) {
    && byPath.Keys == UnionPaths(cs)
    && forall p :: p in byPath ==> byPath[p] == Seen(cs, p)
  }

  /** Reading the entries of the existing manifest into the map. */
  method LoadEntries(es: seq<Entry>, ghost cs: seq<Evidence>) returns (byPath: map<Path, seq<Observation>>)
    requires es == ManifestOf(cs).entries
    ensures Collected(byPath, cs)
  {
    hide *;
    byPath := map[];
    NoneLoaded(cs, es);
    for i := 0 to |es|
      invariant Loaded(byPath, cs, es, i)
    {
      LoadNext(byPath, cs, es, i);
      byPath := byPath[es[i].path := es[i].observations];
    }
    AllLoaded(byPath, cs, es);
  }

  ghost predicate Loaded(byPath: map<Path, seq<Observation>>, cs: seq<Evidence>, es: seq<Entry>, n: nat)
    requires n <= |es|
  {
    && (forall p :: p in byPath ==> p in UnionPaths(cs) && byPath[p] == Seen(cs, p))
    && (forall j :: 0 <= j < n ==> es[j].path in byPath)
  }

  lemma NoneLoaded(cs: seq<Evidence>, es: seq<Entry>)
    ensures Loaded(map[], cs, es, 0)
  {
  }

  lemma LoadNext(byPath: map<Path, seq<Observation>>, cs: seq<Evidence>, es: seq<Entry>, i: nat)
    requires i < |es| && Loaded(byPath, cs, es, i) && es == ManifestOf(cs).entries
    ensures Loaded(byPath[es[i].path := es[i].observations], cs, es, i + 1)
  {
    EntriesMean(cs);
    hide EntriesFor, Seen, UnionPaths, Listed, Ascending;
    assert es[i] in es;
  }

  lemma AllLoaded(byPath: map<Path, seq<Observation>>, cs: seq<Evidence>, es: seq<Entry>)
    requires Loaded(byPath, cs, es, |es|) && es == ManifestOf(cs).entries
    ensures Collected(byPath, cs)
  {
    EntriesMean(cs);
    hide EntriesFor, Seen, UnionPaths, Listed;
    forall p | p in UnionPaths(cs)
      ensures p in byPath
    {
      assert Entry(p, Seen(cs, p)) in es;
    }
  }

  /** The loop state after the changes of `done` have been pushed. */
  ghost predicate Pushed(byPath: map<Path, seq<Observation>>, cs: seq<Evidence>, e: Evidence, done: set<Path>) {
    && byPath.Keys == UnionPaths(cs) + done
    && forall p :: p in byPath ==> byPath[p] == if p in done then Seen(Insert(cs, e, RunOf), p) else Seen(cs, p)
  }

  lemma AllPushed(byPath: map<Path, seq<Observation>>, cs: seq<Evidence>, e: Evidence, done: set<Path>)
    requires Ascending(cs, RunOf) && Pushed(byPath, cs, e, done) && done == e.changes.Keys
    ensures Collected(byPath, Insert(cs, e, RunOf))
  {
    UnionOfInserted(cs, e);
    forall p | p in byPath && p !in done
      ensures byPath[p] == Seen(Insert(cs, e, RunOf), p)
    {
      SeenOfInserted(cs, e, p);
    }
  }

  lemma PushNext(byPath: map<Path, seq<Observation>>, cs: seq<Evidence>, e: Evidence, done: set<Path>, p: Path)
    requires Ascending(cs, RunOf) && !Clash(cs, e) && Pushed(byPath, cs, e, done) && p in e.changes && p !in done
    ensures var before := if p in byPath then byPath[p] else [];
            Pushed(byPath[p := Sort(before + [ObservationFor(e, p)], ObsRun)], cs, e, done + {p})
  {
    SeenSomething(cs, p);
    PushedAndSorted(cs, e, p);
  }

  /** The list `currentEntries`: the changed paths in order. */
  ghost predicate Current(xs: seq<Changed>, changes: map<Path, Change>) {
    && Ascending(xs, ChangedPath)
    && (forall x :: x in xs <==> x.path in changes && x.change == changes[x.path])
  }

  lemma CurrentIsComplete(flipped: seq<Changed>, noisy: seq<Changed>, changes: map<Path, Change>, all: set<Path>)
    requires changes.Keys <= all
    requires Lists(flipped, changes, PassFlip, all) && Lists(noisy, changes, NonPassNoise, all)
    ensures Current(Sort(flipped + noisy, ChangedPath), changes)
  {
    var xs := flipped + noisy;
    assert forall x :: x in xs <==> x in flipped || x in noisy;
    forall i, j | 0 <= i < j < |xs|
      ensures ChangedPath(xs[i]) != ChangedPath(xs[j])
    {
      if i < |flipped| <= j {
        assert xs[i] in flipped && xs[j] in noisy;
      }
    }
    SortMeans(xs, ChangedPath);
    var r := Sort(xs, ChangedPath);
    assert forall x :: x in r <==> x in Elems(r);
    assert forall x :: x in xs <==> x in Elems(xs);
  }

  lemma {:induction false} CurrentCount(xs: seq<Changed>, changes: map<Path, Change>)
    requires Current(xs, changes)
    ensures |xs| == |changes|
  {
    var paths: seq<nat> := seq(|xs|, i requires 0 <= i < |xs| => xs[i].path);
    forall i, j | 0 <= i < j < |paths|
      ensures Itself(paths[i]) < Itself(paths[j])
    {
      assert ChangedPath(xs[i]) < ChangedPath(xs[j]);
    }
    ElemsCount(paths, Itself);
    forall p
      ensures p in Elems(paths) <==> p in changes
    {
      if p in Elems(paths) {
        var i :| 0 <= i < |paths| && paths[i] == p;
        assert xs[i] in xs;
      }
      if p in changes {
        assert Changed(p, changes[p]) in xs;
        var i :| 0 <= i < |xs| && xs[i] == Changed(p, changes[p]);
        assert paths[i] == p;
      }
    }
    assert Elems(paths) == changes.Keys;
  }

  method PushObservations(current: seq<Changed>, runId: nat, start: map<Path, seq<Observation>>,
                          ghost cs: seq<Evidence>, ghost e: Evidence)
    returns (byPath: map<Path, seq<Observation>>)
    requires Ascending(cs, RunOf) && !Clash(cs, e) && e.runId == runId
    requires Current(current, e.changes) && Collected(start, cs)
    ensures Collected(byPath, Insert(cs, e, RunOf))
  {
    byPath := start;
    ghost var done: set<Path> := {};
    hide Seen, UnionPaths, Insert, Sort, Clash;
    for i := 0 to |current|
      invariant done <= e.changes.Keys
      invariant forall p :: p in done <==> exists j :: 0 <= j < i && current[j].path == p
      invariant Pushed(byPath, cs, e, done)
    {
      var entry := current[i];
      assert entry in current;
      assert forall j :: 0 <= j < i ==> ChangedPath(current[j]) < ChangedPath(current[i]);
      PushNext(byPath, cs, e, done, entry.path);
      var observations := if entry.path in byPath then byPath[entry.path] else [];
      observations := Sort(observations + [Observation(runId, entry.change, KindOf(entry.change))], ObsRun);
      byPath := byPath[entry.path := observations];
      done := done + {entry.path};
    }
    forall p | p in e.changes
      ensures p in done
    {
      assert Changed(p, e.changes[p]) in current;
    }
    AllPushed(byPath, cs, e, done);
  }

  /** The map's entries, met in whatever order, sorted by path. */
  method ListEntries(byPath: map<Path, seq<Observation>>, ghost cs: seq<Evidence>) returns (es: seq<Entry>)
    requires Collected(byPath, cs)
    ensures es == EntriesFor(Listed(UnionPaths(cs)), cs)
  {
    hide Seen, UnionPaths, Listed, EntriesFor;
    var todo := byPath.Keys;
    es := [];
    while todo != {}
      invariant todo <= byPath.Keys
      invariant DistinctKeys(es, EntryPath)
      invariant forall x :: x in es <==> x.path in byPath && x.path !in todo && x.observations == byPath[x.path]
    {
      var p :| p in todo;
      assert forall i :: 0 <= i < |es| ==> es[i] in es;
      var x := Entry(p, byPath[p]);
      assert forall y :: y in es + [x] <==> y in es || y == x;
      es := es + [x];
      todo := todo - {p};
    }
    SortedEntries(es, cs);
    es := Sort(es, EntryPath);
  }

  lemma SortedEntries(es: seq<Entry>, cs: seq<Evidence>)
    requires DistinctKeys(es, EntryPath)
    requires forall x :: x in es <==> x.path in UnionPaths(cs) && x.observations == Seen(cs, x.path)
    ensures Sort(es, EntryPath) == EntriesFor(Listed(UnionPaths(cs)), cs)
  {
    hide Seen, UnionPaths, Listed, EntriesFor;
    var r := EntriesFor(Listed(UnionPaths(cs)), cs);
    EntriesMean(cs);
    SortMeans(es, EntryPath);
    assert Elems(es) == Elems(r);
    AscendingIsUnique(Sort(es, EntryPath), r, EntryPath);
  }

  // ---- One invocation ----

  /** The canaries an existing manifest stands for. */
  ghost function Recorded(existing: Option<Manifest>): seq<Evidence> {
    match existing case None => [] case Some(m) => EvidenceOf(m)
  }

  ghost predicate Readable(existing: Option<Manifest>) {
    existing.Some? ==> Accepts(existing.value)
  }

  /** What the caller can check beforehand: complete runs, valid provenance, no run or artifact recorded already. */
  ghost predicate CanBeAdded(existing: Option<Manifest>, c: Canary) {
    && Readable(existing) && c.a.Keys == c.b.Keys
    && EvidenceOk(EvidenceFrom(c)) && !Clash(Recorded(existing), EvidenceFrom(c))
  }

  ghost function Extended(existing: Option<Manifest>, c: Canary): Option<Manifest> {
    if CanBeAdded(existing, c) then Some(ManifestOf(Insert(Recorded(existing), EvidenceFrom(c), RunOf))) else None
  }

  lemma ReadableMeans(existing: Option<Manifest>)
    requires Readable(existing)
    ensures var cs := Recorded(existing);
            && Ascending(cs, RunOf) && DistinctKeys(cs, ArtifactOf)
            && (forall i :: 0 <= i < |cs| ==> EvidenceOk(cs[i]))
            && (existing.Some? ==> existing.value == ManifestOf(cs))
  {
    if existing.Some? {
      EncodeDecode(existing.value);
    }
  }

  lemma InsertKeepsAdmissible(cs: seq<Evidence>, e: Evidence)
    requires Ascending(cs, RunOf) && DistinctKeys(cs, ArtifactOf) && !Clash(cs, e)
    requires forall i :: 0 <= i < |cs| ==> EvidenceOk(cs[i])
    ensures Ascending(Insert(cs, e, RunOf), RunOf)
    ensures Admissible(Insert(cs, e, RunOf)) <==> EvidenceOk(e)
  {
    hide EvidenceOk;
    InsertMeans(cs, e, RunOf);
    var r := Insert(cs, e, RunOf);
    assert e in Elems(r);
    forall i | 0 <= i < |r|
      ensures r[i] == e || r[i] in cs
    {
      assert r[i] in Elems(r);
    }
    forall i, j | 0 <= i < j < |r|
      ensures ArtifactOf(r[i]) != ArtifactOf(r[j])
    {
      assert RunOf(r[i]) < RunOf(r[j]);
    }
  }

  lemma ClashMeans(cs: seq<Evidence>, e: Evidence)
    ensures Clash(cs, e) <==>
            exists i :: 0 <= i < |ProvenancesFor(cs)| &&
              (ProvenancesFor(cs)[i].runId == e.runId || ProvenancesFor(cs)[i].artifactId == e.artifactId)
  {
    var ps := ProvenancesFor(cs);
    if i :| 0 <= i < |cs| && (cs[i].runId == e.runId || cs[i].artifactId == e.artifactId) {
      assert ps[i].runId == e.runId || ps[i].artifactId == e.artifactId;
    }
  }

  /** The provenance record built from the counters is the one the canary stands for. */
  lemma NewProvenance(c: Canary, d: Diff, current: seq<Changed>)
    requires Compares(c.a, c.b, d) && c.a.Keys == c.b.Keys && Current(current, Changes(c.a, c.b))
    ensures Provenance(c.runId, c.artifactId, c.sha, |c.a|, |c.b|, d.flip, d.noise, |current|)
         == ProvenanceFor(EvidenceFrom(c))
  {
    CurrentCount(current, Changes(c.a, c.b));
    assert |c.a| == |c.a.Keys| && |c.b| == |c.b.Keys|;
  }

  lemma CurrentFrom(c: Canary, d: Diff)
    requires Compares(c.a, c.b, d)
    ensures Current(Sort(d.flipped + d.noisy, ChangedPath), Changes(c.a, c.b))
  {
    CurrentIsComplete(d.flipped, d.noisy, Changes(c.a, c.b), c.a.Keys + c.b.Keys);
  }

  lemma MissingIsIncomplete(c: Canary, d: Diff)
    requires Compares(c.a, c.b, d)
    ensures d.missing == 0 <==> c.a.Keys == c.b.Keys
  {
  }

  /** Rebuilding the manifest with one more canary, after the duplicate test. */
  method Rebuild(provenances: seq<Provenance>, entries: seq<Entry>, c: Canary, d: Diff, ghost cs: seq<Evidence>)
    returns (m: Manifest)
    requires Compares(c.a, c.b, d) && c.a.Keys == c.b.Keys
    requires Ascending(cs, RunOf) && !Clash(cs, EvidenceFrom(c))
    requires provenances == ProvenancesFor(cs) && entries == ManifestOf(cs).entries
    ensures m == ManifestOf(Insert(cs, EvidenceFrom(c), RunOf))
  {
    ghost var e := EvidenceFrom(c);
    ghost var after := Insert(cs, e, RunOf);
    var current := Sort(d.flipped + d.noisy, ChangedPath);
    CurrentFrom(c, d);
    NewProvenance(c, d, current);
    ProvenancesPushedAndSorted(cs, e);
    var newCanary := Provenance(c.runId, c.artifactId, c.sha, |c.a|, |c.b|, d.flip, d.noise, |current|);
    var canaries := Sort(provenances + [newCanary], ProvRun);
    var byPath := LoadEntries(entries, cs);
    byPath := PushObservations(current, c.runId, byPath, cs, e);
    var es := ListEntries(byPath, after);
    CountsAgree(after);
    m := Manifest(canaries,
                  Counts(|canaries|, TotalKind(es, PassFlip), TotalKind(es, NonPassNoise), |es|, FullEntries(es, |canaries|)),
                  es);
  }

  /** Writes a manifest exactly when the canary can be added, and then the one that records it too. */
  method Extend(existing: Option<Manifest>, c: Canary) returns (r: Option<Manifest>)
    ensures r == Extended(existing, c)
  {
    hide *;
    ExtendedMeans(existing, c);
    var d := Classify(c.a, c.b);
    MissingIsIncomplete(c, d);
    if !ShaOk(c.sha) || d.missing > 0 {
      return None;
    }
    var provenances: seq<Provenance>, entries: seq<Entry> := [], [];
    if existing.Some? {
      var ok := Validate(existing.value);
      if !ok {
        return None;
      }
      provenances, entries := existing.value.canaries, existing.value.entries;
    }
    ghost var cs := Recorded(existing);
    StartsFrom(existing);
    ClashMeans(cs, EvidenceFrom(c));
    IdsOf(c);
    if exists i :: 0 <= i < |provenances| && (provenances[i].runId == c.runId || provenances[i].artifactId == c.artifactId) {
      return None;
    }
    InsertKeepsAdmissible(cs, EvidenceFrom(c));
    AcceptedIffAdmissible(Insert(cs, EvidenceFrom(c), RunOf));
    var m := Rebuild(provenances, entries, c, d, cs);
    var ok := Validate(m);
    if !ok {
      return None;
    }
    return Some(m);
  }

  lemma IdsOf(c: Canary)
    ensures EvidenceFrom(c).runId == c.runId && EvidenceFrom(c).artifactId == c.artifactId
  {
  }

  lemma ExtendedMeans(existing: Option<Manifest>, c: Canary)
    ensures var e := EvidenceFrom(c);
            if (existing.Some? ==> Accepts(existing.value)) && ShaOk(c.sha) && c.a.Keys == c.b.Keys && EvidenceOk(e)
               && !Clash(Recorded(existing), e)
            then Extended(existing, c) == Some(ManifestOf(Insert(Recorded(existing), e, RunOf)))
            else Extended(existing, c) == None
  {
  }

  /** What the program starts from: nothing, or the parts of an accepted manifest. */
  lemma StartsFrom(existing: Option<Manifest>)
    requires existing.Some? ==> Accepts(existing.value)
    ensures var cs := Recorded(existing);
            && Ascending(cs, RunOf) && DistinctKeys(cs, ArtifactOf)
            && (forall i :: 0 <= i < |cs| ==> EvidenceOk(cs[i]))
            && (if existing.Some? then existing.value.canaries else []) == ProvenancesFor(cs)
            && (if existing.Some? then existing.value.entries else []) == ManifestOf(cs).entries
  {
    ReadableMeans(existing);
    if existing.None? {
      ListedMeans({});
      assert Recorded(existing) == [];
    }
  }

  // ---- Whole histories ----

  /** The outcome of recording canaries one after the other: a refusal ends it. */
  datatype History = Empty | Holds(manifest: Manifest) | Refused

  ghost function Fold(cs: seq<Canary>): History {
    if cs == [] then Empty
    else
      var before := Fold(cs[..|cs| - 1]);
      if before.Refused? then Refused
      else
        match Extended(if before.Holds? then Some(before.manifest) else None, cs[|cs| - 1])
        case None => Refused
        case Some(m) => Holds(m)
  }

  ghost function AllEvidence(cs: seq<Canary>): seq<Evidence> {
    seq(|cs|, i requires 0 <= i < |cs| => EvidenceFrom(cs[i]))
  }

  /** Complete, valid canaries with pairwise different run and artifact ids. */
  ghost predicate Recordable(cs: seq<Canary>) {
    && (forall i :: 0 <= i < |cs| ==> cs[i].a.Keys == cs[i].b.Keys && EvidenceOk(EvidenceFrom(cs[i])))
    && (forall i, j :: 0 <= i < j < |cs| ==> cs[i].runId != cs[j].runId && cs[i].artifactId != cs[j].artifactId)
  }

  lemma SortedEvidence(cs: seq<Canary>)
    requires Recordable(cs)
    ensures var s := Sort(AllEvidence(cs), RunOf);
            && Ascending(s, RunOf) && Elems(s) == Elems(AllEvidence(cs)) && |s| == |cs|
  {
    var es := AllEvidence(cs);
    forall i, j | 0 <= i < j < |es|
      ensures RunOf(es[i]) != RunOf(es[j])
    {
      assert cs[i].runId != cs[j].runId;
    }
    SortMeans(es, RunOf);
  }

  lemma SortedIsAdmissible(cs: seq<Canary>)
    requires Recordable(cs) && cs != []
    ensures Admissible(Sort(AllEvidence(cs), RunOf))
  {
    SortedEvidence(cs);
    var s := Sort(AllEvidence(cs), RunOf);
    forall i | 0 <= i < |s|
      ensures EvidenceOk(s[i])
    {
      var l := Origin(cs, s, i);
    }
    forall i, j | 0 <= i < j < |s|
      ensures ArtifactOf(s[i]) != ArtifactOf(s[j])
    {
      var k, l := Origin(cs, s, i), Origin(cs, s, j);
      assert RunOf(s[i]) < RunOf(s[j]);
    }
  }

  /** The canary behind an element of the sorted list. */
  ghost function Origin(cs: seq<Canary>, s: seq<Evidence>, i: nat): (l: nat)
    requires i < |s| && Elems(s) == Elems(AllEvidence(cs))
    ensures l < |cs| && s[i] == EvidenceFrom(cs[l])
  {
    assert s[i] in Elems(s);
    assert s[i] in AllEvidence(cs);
    var l :| 0 <= l < |AllEvidence(cs)| && AllEvidence(cs)[l] == s[i];
    l
  }

  lemma ClashWithSorted(cs: seq<Canary>, c: Canary)
    requires Recordable(cs)
    ensures Clash(Sort(AllEvidence(cs), RunOf), EvidenceFrom(c))
       <==> exists i :: 0 <= i < |cs| && (cs[i].runId == c.runId || cs[i].artifactId == c.artifactId)
  {
    SortedEvidence(cs);
    var s, e := Sort(AllEvidence(cs), RunOf), EvidenceFrom(c);
    if i :| 0 <= i < |s| && (s[i].runId == e.runId || s[i].artifactId == e.artifactId) {
      var l := Origin(cs, s, i);
      assert cs[l].runId == c.runId || cs[l].artifactId == c.artifactId;
    }
    if i :| 0 <= i < |cs| && (cs[i].runId == c.runId || cs[i].artifactId == c.artifactId) {
      assert AllEvidence(cs)[i] in Elems(s);
      var l :| 0 <= l < |s| && s[l] == AllEvidence(cs)[i];
      assert s[l].runId == e.runId || s[l].artifactId == e.artifactId;
    }
  }

  lemma RecordableNext(cs: seq<Canary>)
    requires cs != []
    ensures var init, c := cs[..|cs| - 1], cs[|cs| - 1];
            Recordable(cs) <==>
            && Recordable(init) && c.a.Keys == c.b.Keys && EvidenceOk(EvidenceFrom(c))
            && !(exists i :: 0 <= i < |init| && (init[i].runId == c.runId || init[i].artifactId == c.artifactId))
  {
    hide EvidenceOk, EvidenceFrom;
    var init, m := cs[..|cs| - 1], |cs| - 1;
    assert forall i :: 0 <= i < m ==> init[i] == cs[i];
    if Recordable(cs) {
      forall i | 0 <= i < m
        ensures init[i].runId != cs[m].runId && init[i].artifactId != cs[m].artifactId
      {
      }
    }
  }

  lemma RecordedByFold(cs: seq<Canary>)
    requires Recordable(cs) && cs != []
    ensures var s := Sort(AllEvidence(cs), RunOf); Accepts(ManifestOf(s)) && EvidenceOf(ManifestOf(s)) == s
  {
    SortedIsAdmissible(cs);
    var s := Sort(AllEvidence(cs), RunOf);
    EncodedIsAccepted(s);
    DecodeEncode(s);
  }

  /** Recording canaries succeeds exactly when they are complete, valid and pairwise different, and then the manifest is
      that of the canaries in run order. */
  lemma {:induction false} FoldMeans(cs: seq<Canary>)
    ensures cs != [] && Recordable(cs) ==> Fold(cs) == Holds(ManifestOf(Sort(AllEvidence(cs), RunOf)))
    ensures !Recordable(cs) ==> Fold(cs) == Refused
    decreases |cs|
  {
    hide Recordable, EvidenceOk, EvidenceFrom, Clash, ManifestOf, Insert, Accepts, EvidenceOf;
    if cs == [] {
      NothingIsRecordable();
    } else {
      var init, c := cs[..|cs| - 1], cs[|cs| - 1];
      FoldMeans(init);
      RecordableNext(cs);
      assert AllEvidence(cs)[..|cs| - 1] == AllEvidence(init);
      if Recordable(init) {
        ClashWithSorted(init, c);
        if init != [] {
          RecordedByFold(init);
        } else {
          assert AllEvidence(init) == [];
        }
      }
    }
  }

  lemma NothingIsRecordable()
    ensures Recordable([])
  {
  }

  lemma {:induction false} TwoPlaces<T>(xs: seq<T>, x: T)
    ensures multiset(xs)[x] >= 2 ==> exists i, j :: 0 <= i < j < |xs| && xs[i] == x && xs[j] == x
    ensures multiset(xs)[x] >= 1 <==> x in xs
  {
    if xs != [] {
      var m := |xs| - 1;
      TwoPlaces(xs[..m], x);
      assert xs == xs[..m] + [xs[m]];
      if multiset(xs)[x] >= 2 {
        if xs[m] == x {
          assert x in xs[..m];
          var i :| 0 <= i < m && xs[..m][i] == x;
          assert xs[i] == x && xs[m] == x;
        } else {
          var i, j :| 0 <= i < j < m && xs[..m][i] == x && xs[..m][j] == x;
          assert xs[i] == x && xs[j] == x;
        }
      }
    }
  }

  lemma TwoPlacesCount<T>(xs: seq<T>, i: nat, j: nat)
    requires i < j < |xs| && xs[i] == xs[j]
    ensures multiset(xs)[xs[i]] >= 2
  {
    assert xs == xs[..j] + xs[j..];
    assert xs[..j][i] == xs[i] && xs[j..][0] == xs[i];
    TwoPlaces(xs[..j], xs[i]);
    TwoPlaces(xs[j..], xs[i]);
  }

  lemma RecordableInAnyOrder(cs: seq<Canary>, ds: seq<Canary>)
    requires multiset(cs) == multiset(ds) && Recordable(cs)
    ensures Recordable(ds)
  {
    hide EvidenceOk, EvidenceFrom;
    forall i | 0 <= i < |ds|
      ensures ds[i] in cs
    {
      TwoPlaces(cs, ds[i]);
      TwoPlaces(ds, ds[i]);
    }
    forall i, j | 0 <= i < j < |ds|
      ensures ds[i].runId != ds[j].runId && ds[i].artifactId != ds[j].artifactId
    {
      DifferentStays(cs, ds, i, j);
    }
  }

  lemma DifferentStays(cs: seq<Canary>, ds: seq<Canary>, i: nat, j: nat)
    requires multiset(cs) == multiset(ds) && i < j < |ds| && ds[i] in cs && ds[j] in cs
    requires forall i, j :: 0 <= i < j < |cs| ==> cs[i].runId != cs[j].runId && cs[i].artifactId != cs[j].artifactId
    ensures ds[i].runId != ds[j].runId && ds[i].artifactId != ds[j].artifactId
  {
    TwoPlaces(cs, ds[i]);
    if ds[i] == ds[j] {
      TwoPlacesCount(ds, i, j);
    } else {
      var k :| 0 <= k < |cs| && cs[k] == ds[i];
      var l :| 0 <= l < |cs| && cs[l] == ds[j];
      assert k < l || l < k;
    }
  }

  lemma SameEvidence(cs: seq<Canary>, ds: seq<Canary>)
    requires multiset(cs) == multiset(ds)
    ensures Elems(AllEvidence(cs)) <= Elems(AllEvidence(ds))
  {
    forall e | e in Elems(AllEvidence(cs))
      ensures e in Elems(AllEvidence(ds))
    {
      var i :| 0 <= i < |AllEvidence(cs)| && AllEvidence(cs)[i] == e;
      TwoPlaces(cs, cs[i]);
      TwoPlaces(ds, cs[i]);
      var j :| 0 <= j < |ds| && ds[j] == cs[i];
      assert AllEvidence(ds)[j] == e;
    }
  }

  /** The order in which canaries are recorded does not matter: neither to whether one is refused nor to the manifest. */
  lemma OrderDoesNotMatter(cs: seq<Canary>, ds: seq<Canary>)
    requires multiset(cs) == multiset(ds)
    ensures Fold(cs) == Fold(ds)
  {
    hide Recordable, ManifestOf, AllEvidence;
    FoldMeans(cs);
    FoldMeans(ds);
    assert |multiset(cs)| == |cs| && |multiset(ds)| == |ds|;
    if Recordable(cs) {
      RecordableInAnyOrder(cs, ds);
      SortedEvidence(cs);
      SortedEvidence(ds);
      SameEvidence(cs, ds);
      SameEvidence(ds, cs);
      AscendingIsUnique(Sort(AllEvidence(cs), RunOf), Sort(AllEvidence(ds), RunOf), RunOf);
    } else if Recordable(ds) {
      RecordableInAnyOrder(ds, cs);
    }
  }
}
