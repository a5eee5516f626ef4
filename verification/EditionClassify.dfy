/** Classification of a result row in scripts/generate-editions.ts: its edition, its status, and which of several rows of
    one file is kept. */
module EditionClassify {

  type Edition = int

  // ---- Editions ----

  const EDITION_ORDER: seq<Edition> :=
    [5, 2015, 2016, 2017, 2018, 2019, 2020, 2021, 2022, 2023, 2024, 2025, 2026, 2027, -1, -2, -3]

  const DRAFT_EDITION := 2027
  const PROPOSALS := -1
  const UNCLASSIFIED_LEGACY := -2
  const UNCLASSIFIED_UNTAGGED := -3

  /** The fields read from a test's frontmatter; an empty string or list stands for an absent field. */
  datatype Frontmatter = Frontmatter(es5id: string, es6id: string, esid: string, features: seq<string>, noFrontmatter: bool)

  /** `FEATURE_EDITION` holds years from 2015 to the draft. */
  ghost predicate TableOk(table: map<string, Edition>) {
    forall f :: f in table ==> 2015 <= table[f] <= 2027
  }

  predicate Includes(s: string, part: string) {
    exists i :: 0 <= i <= |s| && part <= s[i..]
  }

  function Slashes(path: string): string {
    seq(|path|, i requires 0 <= i < |path| => if path[i] == '\\' then '/' else path[i])
  }

  datatype Rule = Rule(part: string, edition: Edition)

  const PATH_RULES: seq<Rule> := [
    Rule("/annexB/", 5), Rule("/harness/", 5),
    Rule("/built-ins/Promise/", 2015), Rule("/built-ins/Proxy/", 2015), Rule("/built-ins/Reflect/", 2015),
    Rule("/built-ins/Symbol/", 2015), Rule("/built-ins/Map/", 2015), Rule("/built-ins/Set/", 2015),
    Rule("/built-ins/WeakMap/", 2015), Rule("/built-ins/WeakSet/", 2015), Rule("/built-ins/TypedArray", 2015),
    Rule("/built-ins/DataView/", 2015), Rule("/built-ins/ArrayBuffer/", 2015),
    Rule("/built-ins/SharedArrayBuffer/", 2017), Rule("/built-ins/Atomics/", 2017), Rule("/built-ins/BigInt/", 2020),
    Rule("/built-ins/WeakRef/", 2021), Rule("/built-ins/FinalizationRegistry/", 2021)]

  /** The part occurs somewhere in the string. */
  lemma IncludesMeans(s: string, part: string)
    ensures Includes(s, part) <==> exists before, after :: s == before + part + after
  {
    if i :| 0 <= i <= |s| && part <= s[i..] {
      assert s == s[..i] + part + s[i..][|part|..];
    }
    if before, after :| s == before + part + after {
      assert s[|before|..] == part + after;
    }
  }

  /** Backslashes become slashes and nothing else changes. */
  lemma SlashesMean(path: string, i: nat)
    requires i < |path|
    ensures |Slashes(path)| == |path| && (path[i] == '\\' ==> Slashes(path)[i] == '/') && (path[i] != '\\' ==> Slashes(path)[i] == path[i])
  {
  }

  /** Which paths are old, and which built-ins came after ES2015. */
  lemma RuleEditions(i: nat)
    requires i < |PATH_RULES|
    ensures PATH_RULES[i].edition == 5 <==> PATH_RULES[i].part in {"/annexB/", "/harness/"}
    ensures PATH_RULES[i].edition == 2017 <==> PATH_RULES[i].part in {"/built-ins/SharedArrayBuffer/", "/built-ins/Atomics/"}
    ensures PATH_RULES[i].edition == 2020 <==> PATH_RULES[i].part == "/built-ins/BigInt/"
    ensures PATH_RULES[i].edition == 2021 <==> PATH_RULES[i].part in {"/built-ins/WeakRef/", "/built-ins/FinalizationRegistry/"}
    ensures PATH_RULES[i].edition in {5, 2015, 2017, 2020, 2021}
  {
  }

  /** Some listed feature has a year in the table. */
  ghost predicate HasYear(features: seq<string>, table: map<string, Edition>) {
    exists i :: 0 <= i < |features| && features[i] in table
  }

  ghost predicate IsLatestYear(features: seq<string>, table: map<string, Edition>, ed: Edition) {
    && (exists i :: 0 <= i < |features| && features[i] in table && table[features[i]] == ed)
    && (forall i :: 0 <= i < |features| && features[i] in table ==> table[features[i]] <= ed)
  }

  /** The first path rule that applies decides; without one, the fallback does. */
  ghost predicate ByPath(fm: Frontmatter, path: string, ed: Edition) {
    var norm := Slashes(path);
    || (exists i :: 0 <= i < |PATH_RULES| && Includes(norm, PATH_RULES[i].part) && ed == PATH_RULES[i].edition
                    && forall j :: 0 <= j < i ==> !Includes(norm, PATH_RULES[j].part))
    || ((forall j :: 0 <= j < |PATH_RULES| ==> !Includes(norm, PATH_RULES[j].part)) &&
        ed == (if fm.esid != "" then -3 else if fm.noFrontmatter then 5 else -2))
  }

  /** What the edition of a test is, without saying how to find it. */
  ghost predicate Classifies(fm: Frontmatter, path: string, table: map<string, Edition>, ed: Edition) {
    if fm.es5id != "" then ed == 5
    else if fm.es6id != "" then ed == 2015
    else if fm.features != [] then
      if HasYear(fm.features, table) then IsLatestYear(fm.features, table, ed) else ed == 2027
    else ByPath(fm, path, ed)
  }

  /** `classifyEdition`. */
  method ClassifyEdition(fm: Frontmatter, path: string, table: map<string, Edition>) returns (ed: Edition)
    requires TableOk(table)
    ensures Classifies(fm, path, table, ed)
  {
    if fm.es5id != "" {
      return 5;
    }
    if fm.es6id != "" {
      return 2015;
    }
    if |fm.features| > 0 {
      var max := 0;
      for i := 0 to |fm.features|
        invariant max == 0 ==> forall j :: 0 <= j < i ==> fm.features[j] !in table
        invariant max != 0 ==> max > 0 && IsLatestYear(fm.features[..i], table, max)
      {
        var feat := fm.features[i];
        ghost var before, now := fm.features[..i], fm.features[..i + 1];
        assert now == before + [feat] && now[i] == feat;
        if feat in table && table[feat] > max {
          max := table[feat];
          assert IsLatestYear(now, table, max);
        } else if max != 0 {
          ghost var j :| 0 <= j < |before| && before[j] in table && table[before[j]] == max;
          assert now[j] == before[j];
        }
      }
      assert fm.features[..|fm.features|] == fm.features;
      if max > 0 {
        return max;
      }
      return DRAFT_EDITION;
    }
    var norm := Slashes(path);
    for i := 0 to |PATH_RULES|
      invariant forall j :: 0 <= j < i ==> !Includes(norm, PATH_RULES[j].part)
    {
      if Includes(norm, PATH_RULES[i].part) {
        return PATH_RULES[i].edition;
      }
    }
    if fm.esid != "" {
      return UNCLASSIFIED_UNTAGGED;
    }
    if fm.noFrontmatter {
      return 5;
    }
    return UNCLASSIFIED_LEGACY;
  }

  /** Every test has exactly one edition. */
  lemma EditionIsUnique(fm: Frontmatter, path: string, table: map<string, Edition>, a: Edition, b: Edition)
    requires Classifies(fm, path, table, a) && Classifies(fm, path, table, b)
    ensures a == b
  {
  }

  /** Classification always lands in the published order. */
  lemma EditionIsListed(fm: Frontmatter, path: string, table: map<string, Edition>, ed: Edition)
    requires TableOk(table) && Classifies(fm, path, table, ed)
    ensures ed in EDITION_ORDER && ed != -1 && (fm.features != [] ==> ed > 0)
  {
    hide Includes;
    assert forall y :: y in EDITION_ORDER <==> y == 5 || 2015 <= y <= 2027 || -3 <= y <= -1;
    assert forall i :: 0 <= i < |PATH_RULES| ==> PATH_RULES[i].edition in [5, 2015, 2017, 2020, 2021];
  }

  // ---- Statuses ----

  datatype Key = Pass | Fail | Ce | Skip

  function NormalizeStatus(s: string): Key {
    if s == "pass" then Pass
    else if s == "skip" then Skip
    else if s == "compile_error" || s == "compile_timeout" || s == "ce" then Ce
    else Fail
  }

  /** A result row. An empty `file` or `status` stands for a missing one; `leak` is `host_import_leak_class`. */
  datatype Record = Record(file: string, status: string, proposal: bool, leak: string)

  function ResolveStatusKey(r: Record, hostFree: bool): Key {
    if hostFree && r.status == "pass" && r.leak != "" then Fail else NormalizeStatus(r.status)
  }

  /** Under which heading a row is published, in terms of what it says: a pass counts as one unless host-free mode finds a
      host import leaking; compile errors and timeouts go together; everything else that is not a skip is a failure. */
  ghost predicate PublishedAs(r: Record, hostFree: bool, key: Key) {
    match key
    case Pass => r.status == "pass" && (hostFree ==> r.leak == "")
    case Skip => r.status == "skip"
    case Ce => r.status in {"compile_error", "compile_timeout", "ce"}
    case Fail => r.status !in {"pass", "skip", "compile_error", "compile_timeout", "ce"} ||
                 (r.status == "pass" && hostFree && r.leak != "")
  }

  lemma ResolveMeans(r: Record, hostFree: bool, key: Key)
    ensures ResolveStatusKey(r, hostFree) == key <==> PublishedAs(r, hostFree, key)
  {
  }

  // ---- One row per file ----

  function Rank(s: string): nat {
    if s == "compile_error" || s == "compile_timeout" then 6
    else if s == "fail" then 5
    else if s == "timeout" || s == "crash" then 4
    else if s == "pass" then 3
    else if s == "skip" then 2
    else 1
  }

  /** The statuses from worst to least; any other status comes after all of them. */
  const STATUS_TIERS: seq<set<string>> :=
    [{"compile_error", "compile_timeout"}, {"fail"}, {"timeout", "crash"}, {"pass"}, {"skip"}]

  ghost predicate IsWorse(s: string, t: string) {
    exists i :: 0 <= i < |STATUS_TIERS| && s in STATUS_TIERS[i] && forall j :: 0 <= j <= i ==> t !in STATUS_TIERS[j]
  }

  /** The precedence puts the statuses in that order. */
  lemma RankMeans(s: string, t: string)
    ensures Rank(s) > Rank(t) <==> IsWorse(s, t)
  {
    TierOf(s);
    TierOf(t);
    hide Rank;
    if Rank(s) > Rank(t) {
      var i := 6 - Rank(s);
      assert s in STATUS_TIERS[i] && forall j :: 0 <= j <= i ==> t !in STATUS_TIERS[j];
    }
    if i :| 0 <= i < |STATUS_TIERS| && s in STATUS_TIERS[i] && forall j :: 0 <= j <= i ==> t !in STATUS_TIERS[j] {
      assert Rank(s) == 6 - i;
      assert Rank(t) > 1 ==> t in STATUS_TIERS[6 - Rank(t)];
    }
  }

  lemma TierOf(s: string)
    ensures 1 <= Rank(s) <= 6
    ensures forall i :: 0 <= i < |STATUS_TIERS| ==> (s in STATUS_TIERS[i] <==> Rank(s) == 6 - i)
  {
  }

  /** A row of `f` that no row of `f` outranks. */
  ghost predicate IsWorst(rows: seq<Record>, f: string, i: nat) {
    && i < |rows| && rows[i].file == f
    && forall j :: 0 <= j < |rows| && rows[j].file == f ==> Rank(rows[j].status) <= Rank(rows[i].status)
  }

  /** The row kept for `f`: the last of the worst. */
  ghost predicate IsKept(rows: seq<Record>, f: string, r: Record) {
    exists i: nat :: IsWorst(rows, f, i) && rows[i] == r && forall j :: i < j < |rows| ==> !IsWorst(rows, f, j)
  }

  lemma KeptNext(rows: seq<Record>, f: string, r: Record, row: Record)
    requires IsKept(rows, f, r)
    ensures row.file != f || Rank(row.status) < Rank(r.status) ==> IsKept(rows + [row], f, r)
    ensures row.file == f && Rank(row.status) >= Rank(r.status) ==> IsKept(rows + [row], f, row)
  {
    var more := rows + [row];
    var i: nat :| IsWorst(rows, f, i) && rows[i] == r && forall j :: i < j < |rows| ==> !IsWorst(rows, f, j);
    if row.file != f || Rank(row.status) < Rank(r.status) {
      assert IsWorst(more, f, i);
      forall j | i < j < |more|
        ensures !IsWorst(more, f, j)
      {
        if j < |rows| && rows[j].file == f {
          var l :| 0 <= l < |rows| && rows[l].file == f && Rank(rows[l].status) > Rank(rows[j].status);
          assert more[l] == rows[l] && more[j] == rows[j];
        }
      }
    } else {
      assert IsWorst(more, f, |rows|);
    }
  }

  lemma FirstIsKept(rows: seq<Record>, row: Record)
    requires forall i :: 0 <= i < |rows| ==> rows[i].file != row.file
    ensures IsKept(rows + [row], row.file, row)
  {
    assert IsWorst(rows + [row], row.file, |rows|);
  }

  /** The map holds for each file the last of its worst rows. */
  ghost predicate Deduped(rows: seq<Record>, kept: map<string, Record>) {
    && (forall f :: f in kept <==> exists i :: 0 <= i < |rows| && rows[i].file == f)
    && (forall f :: f in kept ==> IsKept(rows, f, kept[f]))
  }

  lemma DedupNext(rows: seq<Record>, kept: map<string, Record>, row: Record)
    requires Deduped(rows, kept)
    ensures var better := row.file !in kept || Rank(row.status) >= Rank(kept[row.file].status);
            Deduped(rows + [row], if better then kept[row.file := row] else kept)
  {
    hide IsKept, Rank;
    var better := row.file !in kept || Rank(row.status) >= Rank(kept[row.file].status);
    var next := if better then kept[row.file := row] else kept;
    var more := rows + [row];
    forall f
      ensures f in next <==> exists i :: 0 <= i < |more| && more[i].file == f
    {
      if f in kept {
        var i :| 0 <= i < |rows| && rows[i].file == f;
        assert more[i].file == f;
      }
      assert more[|rows|] == row;
    }
    if row.file !in kept {
      FirstIsKept(rows, row);
    }
    forall f | f in kept
      ensures IsKept(more, f, next[f])
    {
      KeptNext(rows, f, kept[f], row);
    }
  }

  lemma NoneKept()
    ensures Deduped([], map[])
  {
  }

  method Dedup(rows: seq<Record>) returns (kept: map<string, Record>, dropped: nat)
    ensures Deduped(rows, kept) && |kept| + dropped == |rows|
  {
    hide *;
    kept, dropped := map[], 0;
    NoneKept();
    assert rows[..0] == [];
    for n := 0 to |rows|
      invariant Deduped(rows[..n], kept)
      invariant |kept| + dropped == n
    {
      var row := rows[n];
      DedupNext(rows[..n], kept, row);
      assert rows[..n + 1] == rows[..n] + [row];
      if row.file !in kept {
        kept := kept[row.file := row];
      } else {
        dropped := dropped + 1;
        if Rank(row.status) >= Rank(kept[row.file].status) {
          kept := kept[row.file := row];
        }
      }
    }
    assert rows[..|rows|] == rows;
  }

  // ---- Does the order of the rows matter? ----

  /** How a kept row is counted: not at all, as a proposal or not, and under which status. */
  datatype Outcome = Ignored | Counted(proposal: bool, key: Key)

  ghost function OutcomeOf(r: Record, hostFree: bool): Outcome {
    if r.file == "" || r.status == "" then Ignored else Counted(r.proposal, ResolveStatusKey(r, hostFree))
  }

  /** The worst rows of a file are all counted alike. */
  ghost predicate WorstRowsAgree(rows: seq<Record>, f: string, hostFree: bool) {
    forall i: nat, j: nat :: IsWorst(rows, f, i) && IsWorst(rows, f, j) ==>
      OutcomeOf(rows[i], hostFree) == OutcomeOf(rows[j], hostFree)
  }

  /** However the rows are reordered, the kept row of `f` is counted the same way. */
  ghost predicate OrderFree(rows: seq<Record>, f: string, hostFree: bool) {
    forall other: seq<Record>, r, s :: (multiset(other) == multiset(rows) && IsKept(rows, f, r) && IsKept(other, f, s)) ==>
      OutcomeOf(r, hostFree) == OutcomeOf(s, hostFree)
  }

  lemma {:induction false} SameMembers<T>(xs: seq<T>, x: T)
    ensures x in xs <==> multiset(xs)[x] > 0
  {
  }

  /** Being among the worst rows of a file does not depend on the order. */
  lemma WorstIsOrderFree(rows: seq<Record>, other: seq<Record>, f: string, i: nat) returns (j: nat)
    requires multiset(rows) == multiset(other) && IsWorst(other, f, i)
    ensures IsWorst(rows, f, j) && rows[j] == other[i]
  {
    SameMembers(other, other[i]);
    SameMembers(rows, other[i]);
    j :| 0 <= j < |rows| && rows[j] == other[i];
    forall l | 0 <= l < |rows| && rows[l].file == f
      ensures Rank(rows[l].status) <= Rank(rows[j].status)
    {
      SameMembers(rows, rows[l]);
      SameMembers(other, rows[l]);
      var k :| 0 <= k < |other| && other[k] == rows[l];
    }
  }

  /** The rows with the i-th one moved to the end. */
  function MovedLast(rows: seq<Record>, i: nat): seq<Record>
    requires i < |rows|
  {
    rows[..i] + rows[i + 1..] + [rows[i]]
  }

  lemma MovedLastIsKept(rows: seq<Record>, f: string, i: nat)
    requires IsWorst(rows, f, i)
    ensures multiset(MovedLast(rows, i)) == multiset(rows) && IsKept(MovedLast(rows, i), f, rows[i])
  {
    var other := MovedLast(rows, i);
    assert rows == rows[..i] + [rows[i]] + rows[i + 1..];
    forall l | 0 <= l < |other| && other[l].file == f
      ensures Rank(other[l].status) <= Rank(rows[i].status)
    {
      assert other[l] == rows[if l < i then l else if l < |rows| - 1 then l + 1 else i];
    }
    assert IsWorst(other, f, |rows| - 1);
  }

  /** The order of the rows is irrelevant to how a file is counted exactly when its worst rows are counted alike. */
  lemma OrderFreeIffWorstAgree(rows: seq<Record>, f: string, hostFree: bool)
    ensures OrderFree(rows, f, hostFree) <==> WorstRowsAgree(rows, f, hostFree)
  {
    if WorstRowsAgree(rows, f, hostFree) {
      forall other: seq<Record>, r, s | multiset(other) == multiset(rows) && IsKept(rows, f, r) && IsKept(other, f, s)
        ensures OutcomeOf(r, hostFree) == OutcomeOf(s, hostFree)
      {
        var i: nat :| IsWorst(rows, f, i) && rows[i] == r;
        var k: nat :| IsWorst(other, f, k) && other[k] == s;
        var j := WorstIsOrderFree(rows, other, f, k);
      }
    }
    if OrderFree(rows, f, hostFree) {
      forall i: nat, j: nat | IsWorst(rows, f, i) && IsWorst(rows, f, j)
        ensures OutcomeOf(rows[i], hostFree) == OutcomeOf(rows[j], hostFree)
      {
        OrderFreeAgrees(rows, f, hostFree, i);
        OrderFreeAgrees(rows, f, hostFree, j);
      }
    }
  }

  lemma {:induction false} SomeRowIsKept(rows: seq<Record>, f: string) returns (r: Record)
    requires exists i :: 0 <= i < |rows| && rows[i].file == f
    ensures IsKept(rows, f, r)
    decreases |rows|
  {
    var m := |rows| - 1;
    var init := rows[..m];
    assert rows == init + [rows[m]];
    assert forall i :: 0 <= i < m ==> init[i] == rows[i];
    if exists i :: 0 <= i < |init| && init[i].file == f {
      var before := SomeRowIsKept(init, f);
      KeptNext(init, f, before, rows[m]);
      r := if rows[m].file != f || Rank(rows[m].status) < Rank(before.status) then before else rows[m];
    } else {
      FirstIsKept(init, rows[m]);
      r := rows[m];
    }
  }

  /** Under any order-free reading every worst row is counted like the one kept. */
  lemma OrderFreeAgrees(rows: seq<Record>, f: string, hostFree: bool, i: nat)
    requires OrderFree(rows, f, hostFree) && IsWorst(rows, f, i)
    ensures forall r :: IsKept(rows, f, r) ==> OutcomeOf(r, hostFree) == OutcomeOf(rows[i], hostFree)
    ensures exists r :: IsKept(rows, f, r)
  {
    MovedLastIsKept(rows, f, i);
    var r := SomeRowIsKept(rows, f);
  }

  /** In particular, if the rows of a file have the runner's own statuses and agree on scope, the host lane is stable. */
  ghost predicate KnownStatus(s: string) {
    s in ["compile_error", "compile_timeout", "fail", "timeout", "crash", "pass", "skip"]
  }

  lemma HostLaneIsStable(rows: seq<Record>, f: string)
    requires forall i :: 0 <= i < |rows| && rows[i].file == f ==> KnownStatus(rows[i].status)
    requires forall i, j :: 0 <= i < |rows| && 0 <= j < |rows| && rows[i].file == f && rows[j].file == f ==>
               rows[i].proposal == rows[j].proposal
    ensures OrderFree(rows, f, false)
  {
    forall i: nat, j: nat | IsWorst(rows, f, i) && IsWorst(rows, f, j)
      ensures OutcomeOf(rows[i], false) == OutcomeOf(rows[j], false)
    {
      assert KnownStatus(rows[i].status) && KnownStatus(rows[j].status);
      RankDecidesKey(rows[i].status, rows[j].status);
    }
    OrderFreeIffWorstAgree(rows, f, false);
  }

  lemma RankDecidesKey(s: string, t: string)
    requires KnownStatus(s) && KnownStatus(t) && Rank(s) == Rank(t)
    ensures NormalizeStatus(s) == NormalizeStatus(t)
  {
  }

  /** The host-free lane is not: of two passes, one leaking a host import, the later one decides. */
  lemma HostFreeLaneDependsOnOrder()
    ensures var clean, leaky := Record("a", "pass", false, ""), Record("a", "pass", false, "env");
            !OrderFree([clean, leaky], "a", true)
  {
    var rows := [Record("a", "pass", false, ""), Record("a", "pass", false, "env")];
    assert IsWorst(rows, "a", 0) && IsWorst(rows, "a", 1);
    OrderFreeIffWorstAgree(rows, "a", true);
  }
}
