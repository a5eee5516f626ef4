/** `validateHostNoiseQuarantineManifest` of scripts/diff-test262.ts, and the theorem that the manifests it accepts are
    exactly the encodings of admissible lists of canaries. */
module CanaryValidator {
  import opened Ordered
  import opened CanaryManifest

  // ---- What the validator demands ----

  predicate ShaOk(sha: string) {
    |sha| == 40 && forall i :: 0 <= i < |sha| ==> '0' <= sha[i] <= '9' || 'a' <= sha[i] <= 'f'
  }

  /** Forty characters, each of them one of the sixteen lowercase hexadecimal digits. */
  lemma ShaMeans(sha: string)
    ensures ShaOk(sha) <==> |sha| == 40 && forall c :: c in sha ==> c in "0123456789abcdef"
  {
    if |sha| == 40 && forall c :: c in sha ==> c in "0123456789abcdef" {
      forall i | 0 <= i < |sha|
        ensures '0' <= sha[i] <= '9' || 'a' <= sha[i] <= 'f'
      {
        assert sha[i] in sha;
      }
    }
    if ShaOk(sha) {
      forall c | c in sha
        ensures c in "0123456789abcdef"
      {
        HexDigit(c);
      }
    }
  }

  lemma HexDigit(c: char)
    requires '0' <= c <= '9' || 'a' <= c <= 'f'
    ensures c in "0123456789abcdef"
  {
    var digits := "0123456789abcdef";
    if c <= '9' {
      assert digits[c as int - '0' as int] == c;
    } else {
      assert digits[10 + (c as int - 'a' as int)] == c;
    }
  }

  predicate ProvenanceOk(c: Provenance) {
    && c.runId > 0 && ShaOk(c.sha) && c.artifactId > 0
    && c.aEntries > 0 && c.aEntries == c.bEntries
    && c.unstable == c.passFlips + c.noise
  }

  ghost predicate KnownRun(canaries: seq<Provenance>, runId: nat) {
    exists i :: 0 <= i < |canaries| && canaries[i].runId == runId
  }

  ghost predicate ObservationOk(canaries: seq<Provenance>, o: Observation) {
    KnownRun(canaries, o.runId) && o.change.a != o.change.b && o.kind == KindOf(o.change)
  }

  ghost predicate EntryOk(canaries: seq<Provenance>, e: Entry) {
    && e.path > 0 && e.observations != []
    && Ascending(e.observations, ObsRun)
    && forall i :: 0 <= i < |e.observations| ==> ObservationOk(canaries, e.observations[i])
  }

  function RunKindCount(os: seq<Observation>, r: nat, k: Kind): nat {
    if os == [] then 0
    else RunKindCount(os[..|os| - 1], r, k) + if os[|os| - 1].runId == r && os[|os| - 1].kind == k then 1 else 0
  }

  /** How many observations of one kind the entries hold for one canary. */
  function Observed(es: seq<Entry>, r: nat, k: Kind): nat {
    if es == [] then 0 else Observed(es[..|es| - 1], r, k) + RunKindCount(es[|es| - 1].observations, r, k)
  }

  ghost predicate ProvenancesOk(cs: seq<Provenance>) {
    && cs != [] && (forall i :: 0 <= i < |cs| ==> ProvenanceOk(cs[i]))
    && Ascending(cs, ProvRun) && DistinctKeys(cs, ProvArtifact)
  }

  ghost predicate EntriesOk(cs: seq<Provenance>, es: seq<Entry>) {
    (forall i :: 0 <= i < |es| ==> EntryOk(cs, es[i])) && Ascending(es, EntryPath)
  }

  ghost predicate CanaryCountsOk(c: Provenance, es: seq<Entry>) {
    Observed(es, c.runId, PassFlip) == c.passFlips && Observed(es, c.runId, NonPassNoise) == c.noise
  }

  ghost predicate Accepts(m: Manifest) {
    && ProvenancesOk(m.canaries)
    && EntriesOk(m.canaries, m.entries)
    && (forall i :: 0 <= i < |m.canaries| ==> CanaryCountsOk(m.canaries[i], m.entries))
    && m.counts == Counts(|m.canaries|, TotalKind(m.entries, PassFlip), TotalKind(m.entries, NonPassNoise),
                          |m.entries|, FullEntries(m.entries, |m.canaries|))
  }

  // ---- Reading the canaries back ----

  datatype Found = Nothing | Found(change: Change)

  ghost function FindRun(os: seq<Observation>, r: nat): Found {
    if os == [] then Nothing
    else if os[|os| - 1].runId == r then Found(os[|os| - 1].change)
    else FindRun(os[..|os| - 1], r)
  }

  ghost function ChangesOf(es: seq<Entry>, r: nat): map<Path, Change> {
    if es == [] then map[]
    else
      var rest, last := ChangesOf(es[..|es| - 1], r), es[|es| - 1];
      match FindRun(last.observations, r)
      case Nothing => rest
      case Found(c) => rest[last.path := c]
  }

  ghost function EvidenceOf(m: Manifest): seq<Evidence> {
    seq(|m.canaries|, i requires 0 <= i < |m.canaries| =>
      var c := m.canaries[i]; Evidence(c.runId, c.artifactId, c.sha, c.aEntries, ChangesOf(m.entries, c.runId)))
  }

  ghost predicate EvidenceOk(e: Evidence) {
    && e.runId > 0 && ShaOk(e.sha) && e.artifactId > 0 && e.entries > 0
    && forall p :: p in e.changes ==> p > 0 && e.changes[p].a != e.changes[p].b
  }

  /** A list of canaries the manifest can record: at least one, in run order, no run or artifact twice. */
  ghost predicate Admissible(cs: seq<Evidence>) {
    && cs != [] && (forall i :: 0 <= i < |cs| ==> EvidenceOk(cs[i]))
    && Ascending(cs, RunOf) && DistinctKeys(cs, ArtifactOf)
  }

  lemma {:induction false} FindRunMeans(os: seq<Observation>, r: nat)
    ensures FindRun(os, r).Found? ==> exists i :: 0 <= i < |os| && os[i].runId == r && os[i].change == FindRun(os, r).change
    ensures FindRun(os, r).Nothing? ==> forall i :: 0 <= i < |os| ==> os[i].runId != r
  {
    if os != [] && os[|os| - 1].runId != r {
      FindRunMeans(os[..|os| - 1], r);
    }
  }

  lemma {:induction false} RunKindCountMeans(cs: seq<Provenance>, os: seq<Observation>, r: nat, k: Kind)
    requires Ascending(os, ObsRun) && forall i :: 0 <= i < |os| ==> ObservationOk(cs, os[i])
    ensures RunKindCount(os, r, k)
         == if FindRun(os, r).Found? && KindOf(FindRun(os, r).change) == k then 1 else 0
  {
    if os != [] {
      var m := |os| - 1;
      RunKindCountMeans(cs, os[..m], r, k);
      if os[m].runId == r {
        FindRunMeans(os[..m], r);
        assert forall i :: 0 <= i < m ==> ObsRun(os[i]) < ObsRun(os[m]);
        assert FindRun(os[..m], r).Nothing?;
      }
    }
  }

  lemma {:induction false} ChangesOfMeans(es: seq<Entry>, r: nat)
    requires Ascending(es, EntryPath)
    ensures forall p :: p in ChangesOf(es, r) ==> exists i :: 0 <= i < |es| && es[i].path == p
    ensures forall i :: 0 <= i < |es| ==>
              && (es[i].path in ChangesOf(es, r) <==> FindRun(es[i].observations, r).Found?)
              && (es[i].path in ChangesOf(es, r) ==>
                    ChangesOf(es, r)[es[i].path] == FindRun(es[i].observations, r).change)
  {
    if es != [] {
      var m := |es| - 1;
      var front := es[..m];
      ChangesOfMeans(front, r);
      assert forall i :: 0 <= i < m ==> front[i] == es[i] && EntryPath(es[i]) < EntryPath(es[m]);
      forall p | p in ChangesOf(es, r)
        ensures exists i :: 0 <= i < |es| && es[i].path == p
      {
        if p in ChangesOf(front, r) {
          var i :| 0 <= i < m && front[i].path == p;
          assert es[i].path == p;
        } else {
          assert es[m].path == p;
        }
      }
      assert es[m].path !in ChangesOf(front, r);
    }
  }

  /** The observations counted for a canary are the paths it changed. */
  lemma {:induction false} ObservedMeans(cs: seq<Provenance>, es: seq<Entry>, r: nat, k: Kind)
    requires EntriesOk(cs, es)
    ensures Observed(es, r, k) == |KindPaths(ChangesOf(es, r), k)|
  {
    if es == [] {
      assert KindPaths(ChangesOf(es, r), k) == {};
    } else {
      var m := |es| - 1;
      var front := es[..m];
      ObservedMeans(cs, front, r, k);
      RunKindCountMeans(cs, es[m].observations, r, k);
      LastPathIsNew(es, r);
      match FindRun(es[m].observations, r) {
        case Nothing =>
        case Found(c) => OneMoreChange(ChangesOf(front, r), es[m].path, c, k);
      }
    }
  }

  lemma LastPathIsNew(es: seq<Entry>, r: nat)
    requires es != [] && Ascending(es, EntryPath)
    ensures es[|es| - 1].path !in ChangesOf(es[..|es| - 1], r)
  {
    var m := |es| - 1;
    ChangesOfMeans(es[..m], r);
    assert forall i :: 0 <= i < m ==> EntryPath(es[..m][i]) < EntryPath(es[m]);
  }

  lemma OneMoreChange(changes: map<Path, Change>, p: Path, c: Change, k: Kind)
    requires p !in changes
    ensures |KindPaths(changes[p := c], k)| == |KindPaths(changes, k)| + if KindOf(c) == k then 1 else 0
  {
    if KindOf(c) == k {
      assert KindPaths(changes[p := c], k) == KindPaths(changes, k) + {p};
    } else {
      assert KindPaths(changes[p := c], k) == KindPaths(changes, k);
    }
  }

  lemma KindsPartition(changes: map<Path, Change>)
    ensures |changes| == |KindPaths(changes, PassFlip)| + |KindPaths(changes, NonPassNoise)|
  {
    var f, n := KindPaths(changes, PassFlip), KindPaths(changes, NonPassNoise);
    assert f !! n && f + n == changes.Keys;
    assert |f + n| == |f| + |n|;
  }

  // ---- Decoding an encoding ----

  lemma {:induction false} FindRunInSeen(cs: seq<Evidence>, p: Path, i: nat)
    requires Ascending(cs, RunOf) && i < |cs|
    ensures FindRun(Seen(cs, p), cs[i].runId) == if p in cs[i].changes then Found(cs[i].changes[p]) else Nothing
  {
    SeenMeans(cs, p);
    var os := Seen(cs, p);
    FindRunMeans(os, cs[i].runId);
    assert p in cs[i].changes ==> ObservationFor(cs[i], p) in os;
    match FindRun(os, cs[i].runId) {
      case Nothing =>
      case Found(c) =>
        var j :| 0 <= j < |os| && os[j].runId == cs[i].runId && os[j].change == c;
        assert os[j] in os;
        var l :| 0 <= l < |cs| && p in cs[l].changes && os[j] == ObservationFor(cs[l], p);
        assert RunOf(cs[l]) == RunOf(cs[i]);
        assert l == i;
    }
  }

  lemma ChangeComesBack(cs: seq<Evidence>, es: seq<Entry>, i: nat, p: Path)
    requires Ascending(cs, RunOf) && i < |cs| && Ascending(es, EntryPath)
    requires forall e :: e in es <==> e.path in UnionPaths(cs) && e.observations == Seen(cs, e.path)
    ensures p in ChangesOf(es, cs[i].runId) <==> p in cs[i].changes
    ensures p in cs[i].changes ==> p in ChangesOf(es, cs[i].runId) && ChangesOf(es, cs[i].runId)[p] == cs[i].changes[p]
  {
    hide Ascending;
    hide ChangesOf;
    hide FindRun;
    ChangesOfMeans(es, cs[i].runId);
    UnionMeans(cs, p);
    FindRunInSeen(cs, p, i);
    assert forall l :: 0 <= l < |es| ==> es[l] in es;
    if p in UnionPaths(cs) {
      assert Entry(p, Seen(cs, p)) in es;
      var l :| 0 <= l < |es| && es[l] == Entry(p, Seen(cs, p));
    }
  }

  lemma ChangesComeBack(cs: seq<Evidence>, i: nat)
    requires Ascending(cs, RunOf) && i < |cs|
    ensures ChangesOf(ManifestOf(cs).entries, cs[i].runId) == cs[i].changes
  {
    var es := EntriesFor(Listed(UnionPaths(cs)), cs);
    EntriesMean(cs);
    forall p
      ensures p in ChangesOf(es, cs[i].runId) <==> p in cs[i].changes
      ensures p in cs[i].changes ==> p in ChangesOf(es, cs[i].runId) && ChangesOf(es, cs[i].runId)[p] == cs[i].changes[p]
    {
      ChangeComesBack(cs, es, i, p);
    }
  }

  /** Nothing is lost: the canaries can be read back from their manifest. */
  lemma DecodeEncode(cs: seq<Evidence>)
    requires Ascending(cs, RunOf)
    ensures EvidenceOf(ManifestOf(cs)) == cs
  {
    forall i | 0 <= i < |cs|
      ensures EvidenceOf(ManifestOf(cs))[i] == cs[i]
    {
      ChangesComeBack(cs, i);
    }
  }

  // ---- The validator accepts what the program writes ----

  lemma EncodedEntryOk(cs: seq<Evidence>, e: Entry)
    requires Admissible(cs) && e in ManifestOf(cs).entries
    ensures EntryOk(ManifestOf(cs).canaries, e)
  {
    EntriesMean(cs);
    SeenMeans(cs, e.path);
    SeenSomething(cs, e.path);
    UnionMeans(cs, e.path);
    var ps := ManifestOf(cs).canaries;
    forall j | 0 <= j < |e.observations|
      ensures ObservationOk(ps, e.observations[j])
    {
      var o := e.observations[j];
      assert o in Seen(cs, e.path);
      var i :| 0 <= i < |cs| && e.path in cs[i].changes && o == ObservationFor(cs[i], e.path);
      assert EvidenceOk(cs[i]) && ps[i].runId == o.runId;
    }
  }

  lemma ProvenancesAreOk(cs: seq<Evidence>)
    requires Admissible(cs)
    ensures ProvenancesOk(ManifestOf(cs).canaries)
  {
    var ps := ManifestOf(cs).canaries;
    forall i | 0 <= i < |ps|
      ensures ProvenanceOk(ps[i])
    {
      assert EvidenceOk(cs[i]);
      KindsPartition(cs[i].changes);
    }
    forall i, j | 0 <= i < j < |ps|
      ensures ProvRun(ps[i]) < ProvRun(ps[j]) && ProvArtifact(ps[i]) != ProvArtifact(ps[j])
    {
      assert RunOf(cs[i]) < RunOf(cs[j]) && ArtifactOf(cs[i]) != ArtifactOf(cs[j]);
    }
  }

  lemma EncodedIsAccepted(cs: seq<Evidence>)
    requires Admissible(cs)
    ensures Accepts(ManifestOf(cs))
  {
    var m := ManifestOf(cs);
    ProvenancesAreOk(cs);
    EntriesMean(cs);
    forall i | 0 <= i < |m.entries|
      ensures EntryOk(m.canaries, m.entries[i])
    {
      EncodedEntryOk(cs, m.entries[i]);
    }
    forall i | 0 <= i < |m.canaries|
      ensures CanaryCountsOk(m.canaries[i], m.entries)
    {
      ChangesComeBack(cs, i);
      ObservedMeans(m.canaries, m.entries, cs[i].runId, PassFlip);
      ObservedMeans(m.canaries, m.entries, cs[i].runId, NonPassNoise);
    }
    CountsAgree(cs);
  }

  // ---- The validator accepts nothing else ----

  lemma ReadEvidenceOk(m: Manifest, i: nat)
    requires Accepts(m) && i < |m.canaries|
    ensures EvidenceOk(EvidenceOf(m)[i])
  {
    var c := m.canaries[i];
    assert ProvenanceOk(c);
    var changes := ChangesOf(m.entries, c.runId);
    ChangesOfMeans(m.entries, c.runId);
    forall p | p in changes
      ensures p > 0 && changes[p].a != changes[p].b
    {
      var l :| 0 <= l < |m.entries| && m.entries[l].path == p;
      var e := m.entries[l];
      assert EntryOk(m.canaries, e);
      FindRunMeans(e.observations, c.runId);
      var j :| 0 <= j < |e.observations| && e.observations[j].runId == c.runId && e.observations[j].change == changes[p];
      assert ObservationOk(m.canaries, e.observations[j]);
    }
  }

  lemma ReadIsAdmissible(m: Manifest)
    requires Accepts(m)
    ensures Admissible(EvidenceOf(m))
  {
    var cs := EvidenceOf(m);
    forall i | 0 <= i < |cs|
      ensures EvidenceOk(cs[i])
    {
      ReadEvidenceOk(m, i);
    }
    forall i, j | 0 <= i < j < |cs|
      ensures RunOf(cs[i]) < RunOf(cs[j]) && ArtifactOf(cs[i]) != ArtifactOf(cs[j])
    {
      assert ProvRun(m.canaries[i]) < ProvRun(m.canaries[j]);
      assert ProvArtifact(m.canaries[i]) != ProvArtifact(m.canaries[j]);
    }
  }

  /** The observations of an accepted entry are those seen of its path. */
  lemma ReadObservations(m: Manifest, l: nat)
    requires Accepts(m) && l < |m.entries|
    ensures Seen(EvidenceOf(m), m.entries[l].path) == m.entries[l].observations
  {
    var cs, e := EvidenceOf(m), m.entries[l];
    var p := e.path;
    ReadIsAdmissible(m);
    SeenMeans(cs, p);
    assert EntryOk(m.canaries, e);
    forall o
      ensures o in Seen(cs, p) <==> o in e.observations
    {
      ReadObservation(m, l, o);
    }
    assert Elems(Seen(cs, p)) == Elems(e.observations);
    AscendingIsUnique(Seen(cs, p), e.observations, ObsRun);
  }

  lemma ReadObservation(m: Manifest, l: nat, o: Observation)
    requires Accepts(m) && l < |m.entries|
    ensures o in m.entries[l].observations <==> o in Seen(EvidenceOf(m), m.entries[l].path)
  {
    var cs, e := EvidenceOf(m), m.entries[l];
    var p := e.path;
    ReadIsAdmissible(m);
    SeenMeans(cs, p);
    assert EntryOk(m.canaries, e);
    ChangesOfMeans(m.entries, o.runId);
    FindRunMeans(e.observations, o.runId);
    if o in e.observations {
      var j :| 0 <= j < |e.observations| && e.observations[j] == o;
      assert ObservationOk(m.canaries, o);
      var i :| 0 <= i < |m.canaries| && m.canaries[i].runId == o.runId;
      var found := FindRun(e.observations, o.runId);
      var j' :| 0 <= j' < |e.observations| && e.observations[j'].runId == o.runId && e.observations[j'].change == found.change;
      assert ObsRun(e.observations[j']) == ObsRun(e.observations[j]);
      assert j == j';
      assert p in cs[i].changes && o == ObservationFor(cs[i], p);
    }
    if o in Seen(cs, p) {
      var i :| 0 <= i < |cs| && p in cs[i].changes && o == ObservationFor(cs[i], p);
      var j :| 0 <= j < |e.observations| && e.observations[j].runId == o.runId && e.observations[j].change == o.change;
      assert ObservationOk(m.canaries, e.observations[j]);
      assert e.observations[j] == o;
    }
  }

  lemma ReadUnion(m: Manifest)
    requires Accepts(m)
    ensures forall p :: p in UnionPaths(EvidenceOf(m)) <==> exists l :: 0 <= l < |m.entries| && m.entries[l].path == p
  {
    var cs := EvidenceOf(m);
    forall p
      ensures p in UnionPaths(cs) <==> exists l :: 0 <= l < |m.entries| && m.entries[l].path == p
    {
      UnionMeans(cs, p);
      if l :| 0 <= l < |m.entries| && m.entries[l].path == p {
        ReadObservations(m, l);
        assert EntryOk(m.canaries, m.entries[l]);
        SeenSomething(cs, p);
      }
      if i :| 0 <= i < |cs| && p in cs[i].changes {
        ChangesOfMeans(m.entries, m.canaries[i].runId);
      }
    }
  }

  lemma ReadEntries(m: Manifest)
    requires Accepts(m)
    ensures m.entries == ManifestOf(EvidenceOf(m)).entries
  {
    var cs := EvidenceOf(m);
    var es := ManifestOf(cs).entries;
    EntriesMean(cs);
    ReadUnion(m);
    hide EvidenceOf, EntriesFor, Seen, UnionPaths, Listed;
    forall e
      ensures e in es <==> e in m.entries
    {
      if e in m.entries {
        var l :| 0 <= l < |m.entries| && m.entries[l] == e;
        ReadObservations(m, l);
      }
      if e in es {
        var l :| 0 <= l < |m.entries| && m.entries[l].path == e.path;
        ReadObservations(m, l);
        assert m.entries[l] == e;
      }
    }
    assert Elems(es) == Elems(m.entries);
    AscendingIsUnique(m.entries, es, EntryPath);
  }

  lemma ReadProvenance(m: Manifest, i: nat)
    requires Accepts(m) && i < |m.canaries|
    ensures m.canaries[i] == ProvenanceFor(EvidenceOf(m)[i])
  {
    var c := m.canaries[i];
    assert ProvenanceOk(c) && CanaryCountsOk(c, m.entries);
    ObservedMeans(m.canaries, m.entries, c.runId, PassFlip);
    ObservedMeans(m.canaries, m.entries, c.runId, NonPassNoise);
    KindsPartition(ChangesOf(m.entries, c.runId));
    hide Accepts, ChangesOf, KindPaths, Observed, ShaOk;
  }

  lemma ReadProvenances(m: Manifest)
    requires Accepts(m)
    ensures m.canaries == ManifestOf(EvidenceOf(m)).canaries
  {
    hide Accepts, ProvenanceFor, EvidenceOf;
    ReadLength(m);
    forall i | 0 <= i < |m.canaries|
      ensures m.canaries[i] == ProvenanceFor(EvidenceOf(m)[i])
    {
      ReadProvenance(m, i);
    }
  }

  lemma ReadLength(m: Manifest)
    ensures |EvidenceOf(m)| == |m.canaries|
  {
  }

  /** An accepted manifest is the encoding of the canaries read from it. */
  lemma EncodeDecode(m: Manifest)
    requires Accepts(m)
    ensures Admissible(EvidenceOf(m)) && ManifestOf(EvidenceOf(m)) == m
  {
    ReadIsAdmissible(m);
    ReadEntries(m);
    ReadProvenances(m);
    CountsAgree(EvidenceOf(m));
  }

  /** The validator accepts exactly the manifests of admissible canaries. */
  lemma AcceptsExactlyEncodings(m: Manifest)
    ensures Accepts(m) <==> exists cs :: Admissible(cs) && m == ManifestOf(cs)
  {
    if Accepts(m) {
      EncodeDecode(m);
    }
    if cs :| Admissible(cs) && m == ManifestOf(cs) {
      EncodedIsAccepted(cs);
    }
  }

  /** For canaries in run order, being accepted and being admissible are the same. */
  lemma AcceptedIffAdmissible(cs: seq<Evidence>)
    requires Ascending(cs, RunOf)
    ensures Accepts(ManifestOf(cs)) <==> Admissible(cs)
  {
    if Accepts(ManifestOf(cs)) {
      EncodeDecode(ManifestOf(cs));
      DecodeEncode(cs);
    }
    if Admissible(cs) {
      EncodedIsAccepted(cs);
    }
  }
}
