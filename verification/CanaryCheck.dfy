/** The loops of `validateHostNoiseQuarantineManifest`, proved to decide `Accepts`. */
module CanaryCheck {
  import opened Ordered
  import opened CanaryManifest
  import opened CanaryValidator

  // ---- The canaries ----

  ghost function RunIds(cs: seq<Provenance>): set<nat> {
    set i | 0 <= i < |cs| :: cs[i].runId
  }

  ghost function ArtifactIds(cs: seq<Provenance>): set<nat> {
    set i | 0 <= i < |cs| :: cs[i].artifactId
  }

  lemma IdsNext(cs: seq<Provenance>, i: nat)
    requires i < |cs|
    ensures RunIds(cs[..i + 1]) == RunIds(cs[..i]) + {cs[i].runId}
    ensures ArtifactIds(cs[..i + 1]) == ArtifactIds(cs[..i]) + {cs[i].artifactId}
  {
    assert cs[..i + 1] == cs[..i] + [cs[i]];
    assert cs[..i + 1][i] == cs[i];
    forall r | r in RunIds(cs[..i])
      ensures r in RunIds(cs[..i + 1])
    {
      var j :| 0 <= j < i && cs[..i][j].runId == r;
      assert cs[..i + 1][j].runId == r;
    }
    forall r | r in ArtifactIds(cs[..i])
      ensures r in ArtifactIds(cs[..i + 1])
    {
      var j :| 0 <= j < i && cs[..i][j].artifactId == r;
      assert cs[..i + 1][j].artifactId == r;
    }
  }

  /** What the loop over the canaries has established after `i` of them. */
  ghost predicate ProvenancePrefix(cs: seq<Provenance>, i: nat)
    requires i <= |cs|
  {
    && (forall j :: 0 <= j < i ==> ProvenanceOk(cs[j]))
    && (forall j, l :: 0 <= j < l < i ==> ProvRun(cs[j]) < ProvRun(cs[l]))
    && (forall j, l :: 0 <= j < l < i ==> ProvArtifact(cs[j]) != ProvArtifact(cs[l]))
  }

  lemma ProvenanceNext(cs: seq<Provenance>, i: nat)
    requires i < |cs| && ProvenancePrefix(cs, i)
    ensures ProvenancePrefix(cs, i + 1)
       <==> && ProvenanceOk(cs[i])
            && (i > 0 ==> cs[i - 1].runId < cs[i].runId)
            && cs[i].artifactId !in ArtifactIds(cs[..i])
    ensures ProvenancePrefix(cs, i + 1) ==> cs[i].runId !in RunIds(cs[..i])
  {
    if ProvenancePrefix(cs, i + 1) {
      assert i > 0 ==> ProvRun(cs[i - 1]) < ProvRun(cs[i]);
      assert forall j :: 0 <= j < i ==> ProvRun(cs[j]) < ProvRun(cs[i]) && ProvArtifact(cs[j]) != ProvArtifact(cs[i]);
    }
    if cs[i].artifactId !in ArtifactIds(cs[..i]) {
      forall j | 0 <= j < i
        ensures ProvArtifact(cs[j]) != ProvArtifact(cs[i])
      {
        assert cs[..i][j].artifactId in ArtifactIds(cs[..i]);
      }
    }
  }

  lemma ProvenancePrefixOfAll(cs: seq<Provenance>, i: nat)
    requires i <= |cs|
    ensures ProvenancesOk(cs) ==> ProvenancePrefix(cs, i)
    ensures i == |cs| && cs != [] && ProvenancePrefix(cs, i) ==> ProvenancesOk(cs)
  {
  }

  /** The canaries: valid one by one, in strictly rising run order, no artifact twice. */
  method CheckProvenances(cs: seq<Provenance>) returns (ok: bool, runIds: set<nat>)
    ensures ok <==> ProvenancesOk(cs)
    ensures ok ==> runIds == RunIds(cs) && |runIds| == |cs|
  {
    hide ProvenancesOk, ProvenancePrefix, ProvenanceOk, RunIds, ArtifactIds;
    runIds := {};
    if |cs| < 1 {
      NoCanaries(cs);
      return false, {};
    }
    var artifactIds: set<nat> := {};
    var previousRunId := 0;
    NothingYet(cs);
    for i := 0 to |cs|
      invariant ProvenancePrefix(cs, i)
      invariant previousRunId == if i == 0 then 0 else cs[i - 1].runId
      invariant i > 0 ==> previousRunId > 0
      invariant runIds == RunIds(cs[..i]) && artifactIds == ArtifactIds(cs[..i]) && |runIds| == i
    {
      var c := cs[i];
      ProvenanceNext(cs, i);
      ProvenancePrefixOfAll(cs, i + 1);
      if !ProvenanceOk(c) || (previousRunId != 0 && c.runId <= previousRunId) || c.runId in runIds
         || c.artifactId in artifactIds {
        return false, {};
      }
      PositiveRun(c);
      IdsNext(cs, i);
      runIds, artifactIds, previousRunId := runIds + {c.runId}, artifactIds + {c.artifactId}, c.runId;
    }
    ProvenancePrefixOfAll(cs, |cs|);
    assert cs[..|cs|] == cs;
    ok := true;
  }

  lemma NoCanaries(cs: seq<Provenance>)
    requires |cs| < 1
    ensures !ProvenancesOk(cs)
  {
  }

  lemma NothingYet(cs: seq<Provenance>)
    ensures ProvenancePrefix(cs, 0) && RunIds(cs[..0]) == {} && ArtifactIds(cs[..0]) == {}
  {
  }

  lemma PositiveRun(c: Provenance)
    requires ProvenanceOk(c)
    ensures c.runId > 0
  {
  }

  // ---- The entries ----

  datatype RunCounts = RunCounts(passFlips: nat, noise: nat, total: nat)

  /** The counters of the loop over the entries. */
  datatype Totals = Totals(passFlips: nat, noise: nat, perRun: map<nat, RunCounts>)

  ghost function CountsFor(es: seq<Entry>, os: seq<Observation>, r: nat): RunCounts {
    var f := Observed(es, r, PassFlip) + RunKindCount(os, r, PassFlip);
    var n := Observed(es, r, NonPassNoise) + RunKindCount(os, r, NonPassNoise);
    RunCounts(f, n, f + n)
  }

  /** The counters after the entries `es` and the observations `os` of the next one. */
  ghost predicate Counted(t: Totals, runIds: set<nat>, es: seq<Entry>, os: seq<Observation>) {
    && t.passFlips == TotalKind(es, PassFlip) + KindCount(os, PassFlip)
    && t.noise == TotalKind(es, NonPassNoise) + KindCount(os, NonPassNoise)
    && t.perRun.Keys == runIds
    && forall r :: r in runIds ==> t.perRun[r] == CountsFor(es, os, r)
  }

  function Bump(t: Totals, o: Observation): Totals
    requires o.runId in t.perRun
  {
    var c := t.perRun[o.runId];
    match o.kind
    case PassFlip =>
      Totals(t.passFlips + 1, t.noise, t.perRun[o.runId := RunCounts(c.passFlips + 1, c.noise, c.total + 1)])
    case NonPassNoise =>
      Totals(t.passFlips, t.noise + 1, t.perRun[o.runId := RunCounts(c.passFlips, c.noise + 1, c.total + 1)])
  }

  lemma KindCountNext(os: seq<Observation>, i: nat, k: Kind)
    requires i < |os|
    ensures KindCount(os[..i + 1], k) == KindCount(os[..i], k) + if os[i].kind == k then 1 else 0
  {
    assert os[..i + 1][..i] == os[..i];
  }

  lemma CountsForNext(es: seq<Entry>, os: seq<Observation>, i: nat, r: nat)
    requires i < |os|
    ensures var c := CountsFor(es, os[..i], r);
            CountsFor(es, os[..i + 1], r) ==
              if os[i].runId != r then c
              else if os[i].kind == PassFlip then RunCounts(c.passFlips + 1, c.noise, c.total + 1)
              else RunCounts(c.passFlips, c.noise + 1, c.total + 1)
  {
    assert os[..i + 1][..i] == os[..i];
  }

  lemma CountedNext(t: Totals, runIds: set<nat>, es: seq<Entry>, os: seq<Observation>, i: nat)
    requires i < |os| && Counted(t, runIds, es, os[..i]) && os[i].runId in runIds
    ensures Counted(Bump(t, os[i]), runIds, es, os[..i + 1])
  {
    hide CountsFor, KindCount, TotalKind;
    KindCountNext(os, i, PassFlip);
    KindCountNext(os, i, NonPassNoise);
    forall r | r in runIds
      ensures Bump(t, os[i]).perRun[r] == CountsFor(es, os[..i + 1], r)
    {
      CountsForNext(es, os, i, r);
    }
  }

  lemma CountedEntry(t: Totals, runIds: set<nat>, es: seq<Entry>, i: nat)
    requires i < |es| && Counted(t, runIds, es[..i], es[i].observations)
    ensures Counted(t, runIds, es[..i + 1], [])
  {
    assert es[..i + 1][..i] == es[..i] && es[..i + 1][i] == es[i];
  }

  lemma KnownMeans(cs: seq<Provenance>, r: nat)
    ensures r in RunIds(cs) <==> KnownRun(cs, r)
  {
  }

  /** What the loop over an entry's observations has established after `i` of them. */
  ghost predicate ObservationPrefix(cs: seq<Provenance>, os: seq<Observation>, i: nat)
    requires i <= |os|
  {
    && (forall j :: 0 <= j < i ==> ObservationOk(cs, os[j]))
    && (forall j, l :: 0 <= j < l < i ==> ObsRun(os[j]) < ObsRun(os[l]))
  }

  ghost function ObservedIds(os: seq<Observation>): set<nat> {
    set i | 0 <= i < |os| :: os[i].runId
  }

  lemma ObservationNext(cs: seq<Provenance>, os: seq<Observation>, i: nat)
    requires i < |os| && ObservationPrefix(cs, os, i)
    ensures ObservationPrefix(cs, os, i + 1)
       <==> ObservationOk(cs, os[i]) && (i > 0 ==> os[i - 1].runId < os[i].runId)
    ensures ObservationPrefix(cs, os, i + 1) ==> os[i].runId !in ObservedIds(os[..i])
    ensures ObservedIds(os[..i + 1]) == ObservedIds(os[..i]) + {os[i].runId}
  {
    if ObservationPrefix(cs, os, i + 1) {
      assert i > 0 ==> ObsRun(os[i - 1]) < ObsRun(os[i]);
      assert forall j :: 0 <= j < i ==> ObsRun(os[j]) < ObsRun(os[i]);
    }
    assert os[..i + 1][i] == os[i];
    forall r | r in ObservedIds(os[..i])
      ensures r in ObservedIds(os[..i + 1])
    {
      var j :| 0 <= j < i && os[..i][j].runId == r;
      assert os[..i + 1][j].runId == r;
    }
  }

  /** The tests on one observation, in the order of the loop. */
  lemma ObservationTests(cs: seq<Provenance>, runIds: set<nat>, o: Observation)
    requires runIds == RunIds(cs)
    ensures ObservationOk(cs, o) <==>
            && o.runId in runIds && o.change.a != o.change.b
            && ((o.kind == PassFlip && IsPass(o.change.a) != IsPass(o.change.b)) ||
                (o.kind == NonPassNoise && !IsPass(o.change.a) && !IsPass(o.change.b)))
  {
    KnownMeans(cs, o.runId);
  }

  /** Positive run ids, so that 0 can stand for "no previous observation". */
  lemma KnownRunIsPositive(cs: seq<Provenance>, r: nat)
    requires ProvenancesOk(cs) && KnownRun(cs, r)
    ensures r > 0
  {
  }

  lemma ObservationPrefixOfAll(cs: seq<Provenance>, e: Entry, i: nat)
    requires i <= |e.observations|
    ensures EntryOk(cs, e) ==> ObservationPrefix(cs, e.observations, i)
    ensures i == |e.observations| && i > 0 && e.path > 0 && ObservationPrefix(cs, e.observations, i) ==> EntryOk(cs, e)
  {
  }

  lemma NoObservations(cs: seq<Provenance>, os: seq<Observation>)
    ensures ObservationPrefix(cs, os, 0) && ObservedIds(os[..0]) == {}
  {
  }

  method CheckObservations(ghost cs: seq<Provenance>, runIds: set<nat>, e: Entry, before: Totals, ghost es: seq<Entry>)
    returns (ok: bool, after: Totals, observed: nat)
    requires ProvenancesOk(cs) && runIds == RunIds(cs) && Counted(before, runIds, es, [])
    requires e.path > 0 && e.observations != []
    ensures ok <==> EntryOk(cs, e)
    ensures ok ==> Counted(after, runIds, es, e.observations) && observed == |e.observations|
  {
    hide *;
    var os := e.observations;
    var observedIds: set<nat> := {};
    var previous := 0;
    after := before;
    NoObservations(cs, os);
    assert os[..0] == [];
    for i := 0 to |os|
      invariant ObservationPrefix(cs, os, i)
      invariant previous == if i == 0 then 0 else os[i - 1].runId
      invariant i > 0 ==> previous > 0
      invariant observedIds == ObservedIds(os[..i]) && |observedIds| == i
      invariant Counted(after, runIds, es, os[..i])
    {
      var o := os[i];
      ObservationNext(cs, os, i);
      ObservationTests(cs, runIds, o);
      ObservationPrefixOfAll(cs, e, i + 1);
      if o.runId !in runIds || o.runId in observedIds || (previous != 0 && o.runId <= previous) || o.change.a == o.change.b {
        return false, before, 0;
      }
      if !((o.kind == PassFlip && IsPass(o.change.a) != IsPass(o.change.b)) ||
           (o.kind == NonPassNoise && !IsPass(o.change.a) && !IsPass(o.change.b))) {
        return false, before, 0;
      }
      KnownMeans(cs, o.runId);
      KnownRunIsPositive(cs, o.runId);
      CountedNext(after, runIds, es, os, i);
      CountedKeys(after, runIds, es, os[..i]);
      after := Bump(after, o);
      observedIds, previous := observedIds + {o.runId}, o.runId;
    }
    ObservationPrefixOfAll(cs, e, |os|);
    assert os[..|os|] == os;
    ok, observed := true, |observedIds|;
  }

  lemma CountedKeys(t: Totals, runIds: set<nat>, es: seq<Entry>, os: seq<Observation>)
    requires Counted(t, runIds, es, os)
    ensures t.perRun.Keys == runIds
  {
  }

  /** What the loop over the entries has established after `i` of them. */
  ghost predicate EntryPrefix(cs: seq<Provenance>, es: seq<Entry>, i: nat)
    requires i <= |es|
  {
    && (forall j :: 0 <= j < i ==> EntryOk(cs, es[j]))
    && (forall j, l :: 0 <= j < l < i ==> EntryPath(es[j]) < EntryPath(es[l]))
  }

  ghost function Paths(es: seq<Entry>): set<Path> {
    set i | 0 <= i < |es| :: es[i].path
  }

  lemma EntryNext(cs: seq<Provenance>, es: seq<Entry>, i: nat)
    requires i < |es| && EntryPrefix(cs, es, i)
    ensures EntryPrefix(cs, es, i + 1) <==> EntryOk(cs, es[i]) && (i > 0 ==> es[i - 1].path < es[i].path)
    ensures EntryPrefix(cs, es, i + 1) ==> es[i].path !in Paths(es[..i])
    ensures Paths(es[..i + 1]) == Paths(es[..i]) + {es[i].path}
  {
    if EntryPrefix(cs, es, i + 1) {
      assert i > 0 ==> EntryPath(es[i - 1]) < EntryPath(es[i]);
      assert forall j :: 0 <= j < i ==> EntryPath(es[j]) < EntryPath(es[i]);
    }
    assert es[..i + 1][i] == es[i];
    forall p | p in Paths(es[..i])
      ensures p in Paths(es[..i + 1])
    {
      var j :| 0 <= j < i && es[..i][j].path == p;
      assert es[..i + 1][j].path == p;
    }
  }

  lemma EntryPrefixOfAll(cs: seq<Provenance>, es: seq<Entry>, i: nat)
    requires i <= |es|
    ensures EntriesOk(cs, es) ==> EntryPrefix(cs, es, i)
    ensures EntryPrefix(cs, es, |es|) ==> EntriesOk(cs, es)
  {
  }

  lemma NoEntries(cs: seq<Provenance>, es: seq<Entry>, runIds: set<nat>)
    ensures EntryPrefix(cs, es, 0) && Paths(es[..0]) == {} && FullEntries(es[..0], |cs|) == 0
    ensures Counted(Totals(0, 0, map r | r in runIds :: RunCounts(0, 0, 0)), runIds, es[..0], [])
  {
  }

  lemma FullNext(es: seq<Entry>, i: nat, n: nat)
    requires i < |es|
    ensures FullEntries(es[..i + 1], n) == FullEntries(es[..i], n) + if |es[i].observations| == n then 1 else 0
  {
    assert es[..i + 1][..i] == es[..i] && es[..i + 1][i] == es[i];
  }

  lemma EntryOkBasics(cs: seq<Provenance>, e: Entry)
    requires EntryOk(cs, e)
    ensures e.path > 0 && e.observations != []
  {
  }

  method CheckEntries(ghost cs: seq<Provenance>, runIds: set<nat>, es: seq<Entry>)
    returns (ok: bool, totals: Totals, paths: nat, intersection: nat)
    requires ProvenancesOk(cs) && runIds == RunIds(cs) && |runIds| == |cs|
    ensures ok <==> EntriesOk(cs, es)
    ensures ok ==> Counted(totals, runIds, es, []) && paths == |es| && intersection == FullEntries(es, |cs|)
  {
    hide *;
    totals := Totals(0, 0, map r | r in runIds :: RunCounts(0, 0, 0));
    var seen: set<Path> := {};
    var previous := 0;
    intersection := 0;
    NoEntries(cs, es, runIds);
    for i := 0 to |es|
      invariant EntryPrefix(cs, es, i)
      invariant previous == (if i == 0 then 0 else es[i - 1].path) && (i > 0 ==> previous > 0)
      invariant seen == Paths(es[..i]) && |seen| == i
      invariant Counted(totals, runIds, es[..i], []) && intersection == FullEntries(es[..i], |cs|)
    {
      var e := es[i];
      EntryNext(cs, es, i);
      EntryPrefixOfAll(cs, es, i + 1);
      if e.path == 0 || |e.observations| < 1 || e.path in seen || (previous != 0 && e.path <= previous) {
        if EntryOk(cs, e) { EntryOkBasics(cs, e); }
        return false, totals, 0, 0;
      }
      var fine, after, observed := CheckObservations(cs, runIds, e, totals, es[..i]);
      if !fine {
        return false, totals, 0, 0;
      }
      FullNext(es, i, |cs|);
      CountedEntry(after, runIds, es, i);
      if observed == |runIds| {
        intersection := intersection + 1;
      }
      totals, seen, previous := after, seen + {e.path}, e.path;
    }
    EntryPrefixOfAll(cs, es, |es|);
    assert es[..|es|] == es;
    ok, paths := true, |seen|;
  }

  // ---- The whole ----

  lemma RunCountsMean(t: Totals, runIds: set<nat>, es: seq<Entry>, cs: seq<Provenance>, i: nat)
    requires Counted(t, runIds, es, []) && runIds == RunIds(cs) && i < |cs| && ProvenancesOk(cs)
    ensures cs[i].runId in t.perRun
    ensures CanaryCountsOk(cs[i], es) <==>
            t.perRun[cs[i].runId] == RunCounts(cs[i].passFlips, cs[i].noise, cs[i].unstable)
  {
    KnownMeans(cs, cs[i].runId);
    assert ProvenanceOk(cs[i]);
    assert t.perRun[cs[i].runId] == CountsFor(es, [], cs[i].runId);
  }

  lemma TotalsMean(t: Totals, runIds: set<nat>, es: seq<Entry>)
    requires Counted(t, runIds, es, [])
    ensures t.passFlips == TotalKind(es, PassFlip) && t.noise == TotalKind(es, NonPassNoise)
  {
  }

  lemma AcceptsParts(m: Manifest)
    ensures Accepts(m) <==>
            && ProvenancesOk(m.canaries) && EntriesOk(m.canaries, m.entries)
            && (forall i :: 0 <= i < |m.canaries| ==> CanaryCountsOk(m.canaries[i], m.entries))
            && m.counts == Counts(|m.canaries|, TotalKind(m.entries, PassFlip), TotalKind(m.entries, NonPassNoise),
                                  |m.entries|, FullEntries(m.entries, |m.canaries|))
  {
  }

  method Validate(m: Manifest) returns (ok: bool)
    ensures ok <==> Accepts(m)
  {
    hide *;
    AcceptsParts(m);
    var provenancesOk, runIds := CheckProvenances(m.canaries);
    if !provenancesOk {
      return false;
    }
    var entriesOk, totals, paths, intersection := CheckEntries(m.canaries, runIds, m.entries);
    if !entriesOk {
      return false;
    }
    for i := 0 to |m.canaries|
      invariant forall j :: 0 <= j < i ==> CanaryCountsOk(m.canaries[j], m.entries)
    {
      var expected := m.canaries[i];
      RunCountsMean(totals, runIds, m.entries, m.canaries, i);
      if totals.perRun[expected.runId] != RunCounts(expected.passFlips, expected.noise, expected.unstable) {
        return false;
      }
    }
    TotalsMean(totals, runIds, m.entries);
    ok := m.counts == Counts(|runIds|, totals.passFlips, totals.noise, paths, intersection);
  }
}
