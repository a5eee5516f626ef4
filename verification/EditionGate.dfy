/** The two checks of scripts/test262-edition-ratchet.ts, on pass counts and on single tests, and how they relate. */
module EditionGate {
  import opened Wrappers
  import opened EditionRatchet

  // ---- The checks ----

  /** `new Map(rows.map(...))`: the last row of a file wins. */
  function LastStatus(rows: seq<Row>): map<File, string> {
    if rows == [] then map[] else LastStatus(rows[..|rows| - 1])[rows[|rows| - 1].file := rows[|rows| - 1].status]
  }

  ghost predicate Covered(base: Baseline, rows: seq<Row>, editionOf: File -> Edition, ed: Edition) {
    ed in base.editions && Size(rows, editionOf, ed) >= base.editions[ed].total
  }

  ghost predicate CountRegresses(base: Baseline, rows: seq<Row>, editionOf: File -> Edition, ed: Edition) {
    && Covered(base, rows, editionOf, ed) && base.editions[ed].ratcheted
    && Count(rows, editionOf, ed, Pass) < base.editions[ed].pass
  }

  ghost predicate TestRegresses(base: Baseline, was: map<File, string>, now: map<File, string>, editionOf: File -> Edition,
                          file: File) {
    && file in was && was[file] == "pass"
    && file in now && now[file] != "pass"
    && editionOf(file) in base.editions && base.editions[editionOf(file)].ratcheted
  }

  /** A covered edition without a single row: its tally is missing and reading it throws. */
  ghost predicate Undefined(base: Baseline, rows: seq<Row>, editionOf: File -> Edition, ed: Edition) {
    Covered(base, rows, editionOf, ed) && Size(rows, editionOf, ed) == 0
  }

  datatype Verdict = Clean | Regressed | Refused | Crashed

  ghost predicate NoTestRegresses(base: Baseline, earlier: seq<Row>, rows: seq<Row>, editionOf: File -> Edition) {
    forall file :: !TestRegresses(base, LastStatus(earlier), LastStatus(rows), editionOf, file)
  }

  ghost function VerdictOf(base: Baseline, run: Run, compare: Option<seq<Row>>, editionOf: File -> Edition): Verdict {
    if run.target != base.target then Refused
    else if exists ed :: Undefined(base, run.rows, editionOf, ed) then Crashed
    else if (exists ed :: CountRegresses(base, run.rows, editionOf, ed)) ||
            (compare.Some? && !NoTestRegresses(base, compare.value, run.rows, editionOf)) then Regressed
    else Clean
  }

  /** The count check: stops at an edition whose tally is missing. */
  method CheckCounts(base: Baseline, rows: seq<Row>, editionOf: File -> Edition)
    returns (crashed: bool, regressions: set<Edition>)
    ensures crashed <==> exists ed :: Undefined(base, rows, editionOf, ed)
    ensures !crashed ==> forall ed :: ed in regressions <==> CountRegresses(base, rows, editionOf, ed)
  {
    var cur := TallyRows(rows, editionOf);
    regressions := {};
    var todo: set<Edition> := base.editions.Keys;
    hide Tallied, Size, Count;
    while todo != {}
      invariant todo <= base.editions.Keys
      invariant forall ed :: ed in base.editions && ed !in todo ==> !Undefined(base, rows, editionOf, ed)
      invariant forall ed :: ed in regressions <==> ed !in todo && CountRegresses(base, rows, editionOf, ed)
    {
      SomeMember(todo);
      var ed :| ed in todo;
      TalliedMeans(rows, editionOf, cur, ed);
      TalliedKey(rows, editionOf, cur, ed);
      todo := todo - {ed};
      if SeenOf(cur, ed) >= base.editions[ed].total {
        if ed !in cur {
          assert Undefined(base, rows, editionOf, ed);
          return true, {};
        }
        if cur[ed].pass < base.editions[ed].pass && base.editions[ed].ratcheted {
          regressions := regressions + {ed};
        }
      }
    }
    crashed := false;
  }

  lemma TalliedKey(rows: seq<Row>, editionOf: File -> Edition, cur: map<Edition, Tally>, ed: Edition)
    requires Tallied(rows, editionOf, cur)
    ensures ed in cur <==> Size(rows, editionOf, ed) > 0
  {
  }

  /** The per-test check. */
  method CheckTests(base: Baseline, earlier: seq<Row>, rows: seq<Row>, editionOf: File -> Edition) returns (perTest: set<File>)
    ensures forall file :: file in perTest <==> TestRegresses(base, LastStatus(earlier), LastStatus(rows), editionOf, file)
  {
    var was, now := LastStatus(earlier), LastStatus(rows);
    hide LastStatus;
    perTest := {};
    var todo := was.Keys;
    while todo != {}
      invariant todo <= was.Keys
      invariant forall file :: file in perTest <==> file !in todo && TestRegresses(base, was, now, editionOf, file)
    {
      var file :| file in todo;
      todo := todo - {file};
      if was[file] == "pass" && file in now && now[file] != "pass" {
        var ed := editionOf(file);
        if ed in base.editions && base.editions[ed].ratcheted {
          perTest := perTest + {file};
        }
      }
    }
  }

  method Check(base: Baseline, run: Run, compare: Option<seq<Row>>, editionOf: File -> Edition) returns (v: Verdict)
    ensures v == VerdictOf(base, run, compare, editionOf)
  {
    if base.target != run.target {
      return Refused;
    }
    var crashed, regressions := CheckCounts(base, run.rows, editionOf);
    if crashed {
      return Crashed;
    }
    var perTest: set<File> := {};
    if compare.Some? {
      perTest := CheckTests(base, compare.value, run.rows, editionOf);
    }
    if regressions != {} {
      SomeMember(regressions);
      return Regressed;
    }
    if perTest != {} {
      ghost var file :| file in perTest;
      assert !NoTestRegresses(base, compare.value, run.rows, editionOf);
      return Regressed;
    }
    return Clean;
  }

  // ---- How the checks relate ----

  ghost function FilesOf(rows: seq<Row>): seq<File> {
    seq(|rows|, i requires 0 <= i < |rows| => rows[i].file)
  }

  /** How many entries of a list of files belong to an edition. */
  ghost function EditionCount(fs: seq<File>, editionOf: File -> Edition, ed: Edition): nat {
    if fs == [] then 0
    else EditionCount(fs[..|fs| - 1], editionOf, ed) + if editionOf(fs[|fs| - 1]) == ed then 1 else 0
  }

  ghost function EditionFiles(fs: seq<File>, editionOf: File -> Edition, ed: Edition): set<File> {
    set f | f in fs && editionOf(f) == ed
  }

  /** No file of the edition is listed twice. */
  ghost predicate EachOnce(fs: seq<File>, editionOf: File -> Edition, ed: Edition) {
    forall i, j :: 0 <= i < j < |fs| && editionOf(fs[i]) == ed ==> fs[i] != fs[j]
  }

  /** Every file of the edition that `was` lists is listed in `now`. */
  ghost predicate AllThere(was: seq<File>, now: seq<File>, editionOf: File -> Edition, ed: Edition) {
    forall f :: f in was && editionOf(f) == ed ==> f in now
  }

  lemma {:induction false} SizeOfFiles(rows: seq<Row>, editionOf: File -> Edition, ed: Edition)
    ensures Size(rows, editionOf, ed) == EditionCount(FilesOf(rows), editionOf, ed)
  {
    if rows != [] {
      SizeOfFiles(rows[..|rows| - 1], editionOf, ed);
      assert FilesOf(rows)[..|rows| - 1] == FilesOf(rows[..|rows| - 1]);
    }
  }

  lemma {:induction false} CountOfFiles(fs: seq<File>, editionOf: File -> Edition, ed: Edition)
    ensures EditionCount(fs, editionOf, ed) >= |EditionFiles(fs, editionOf, ed)|
    ensures EditionCount(fs, editionOf, ed) == |EditionFiles(fs, editionOf, ed)| <==> EachOnce(fs, editionOf, ed)
  {
    if fs == [] {
      assert EditionFiles(fs, editionOf, ed) == {};
    } else {
      var m := |fs| - 1;
      var init, f := fs[..m], fs[m];
      CountOfFiles(init, editionOf, ed);
      assert fs == init + [f];
      var before, now := EditionFiles(init, editionOf, ed), EditionFiles(fs, editionOf, ed);
      assert now == if editionOf(f) == ed then before + {f} else before;
      OnceNext(init, f, editionOf, ed);
      hide EachOnce;
    }
  }

  lemma OnceNext(fs: seq<File>, f: File, editionOf: File -> Edition, ed: Edition)
    ensures EachOnce(fs + [f], editionOf, ed)
       <==> EachOnce(fs, editionOf, ed) && (editionOf(f) == ed ==> f !in EditionFiles(fs, editionOf, ed))
  {
    var more := fs + [f];
    if EachOnce(more, editionOf, ed) {
      forall i, j | 0 <= i < j < |fs| && editionOf(fs[i]) == ed ensures fs[i] != fs[j] {
        assert more[i] == fs[i] && more[j] == fs[j];
      }
      forall i | 0 <= i < |fs| && editionOf(fs[i]) == ed ensures fs[i] != f {
        assert more[i] == fs[i] && more[|fs|] == f;
      }
    }
  }

  // ---- The last row of a file ----

  lemma {:induction false} LastRow(rows: seq<Row>, file: File)
    ensures file in LastStatus(rows) <==> file in FilesOf(rows)
    ensures file in LastStatus(rows) ==> exists i :: 0 <= i < |rows| && rows[i] == Row(file, LastStatus(rows)[file])
  {
    if rows != [] {
      var m := |rows| - 1;
      LastRow(rows[..m], file);
      assert FilesOf(rows) == FilesOf(rows[..m]) + [rows[m].file];
      if file in LastStatus(rows) && file != rows[m].file {
        var i :| 0 <= i < m && rows[..m][i] == Row(file, LastStatus(rows)[file]);
        assert rows[i] == Row(file, LastStatus(rows)[file]);
      }
      assert rows[m] == Row(rows[m].file, rows[m].status);
    }
  }

  lemma {:induction false} LastRowWins(rows: seq<Row>, i: nat)
    requires i < |rows| && forall j :: i < j < |rows| ==> rows[j].file != rows[i].file
    ensures rows[i].file in LastStatus(rows) && LastStatus(rows)[rows[i].file] == rows[i].status
    decreases |rows|
  {
    var m := |rows| - 1;
    if i < m {
      assert rows[..m][i] == rows[i];
      LastRowWins(rows[..m], i);
    }
  }

  // ---- Pass counts and sets of files ----

  /** No file of the edition passes in two rows. */
  ghost predicate PassesOnce(rows: seq<Row>, editionOf: File -> Edition, ed: Edition) {
    forall i, j ::
      (0 <= i < j < |rows| && editionOf(rows[i].file) == ed && rows[i].status == "pass" && rows[j].status == "pass")
        ==> rows[i].file != rows[j].file
  }

  /** The pass count is at least the number of passing files, and that number if none passes twice. */
  lemma {:induction false} CountIsSetSize(rows: seq<Row>, editionOf: File -> Edition, ed: Edition)
    ensures Count(rows, editionOf, ed, Pass) >= |Passing(rows, editionOf, ed)|
    ensures PassesOnce(rows, editionOf, ed) ==> Count(rows, editionOf, ed, Pass) == |Passing(rows, editionOf, ed)|
  {
    if rows == [] {
      assert Passing(rows, editionOf, ed) == {};
    } else {
      var m := |rows| - 1;
      var init, r := rows[..m], rows[m];
      CountIsSetSize(init, editionOf, ed);
      PassingNext(init, editionOf, ed, r);
      assert rows == init + [r];
      NewPassIsNew(init, r, editionOf, ed);
      hide Passing, PassesOnce;
    }
  }

  lemma NewPassIsNew(rows: seq<Row>, r: Row, editionOf: File -> Edition, ed: Edition)
    ensures PassesOnce(rows + [r], editionOf, ed) ==>
              && PassesOnce(rows, editionOf, ed)
              && (editionOf(r.file) == ed && r.status == "pass" ==> r.file !in Passing(rows, editionOf, ed))
  {
    var more := rows + [r];
    if PassesOnce(more, editionOf, ed) {
      assert forall i :: 0 <= i < |rows| ==> more[i] == rows[i];
      assert more[|rows|] == r;
    }
  }

  lemma SubsetSize<T>(a: set<T>, b: set<T>)
    requires a <= b
    ensures |a| <= |b| && (|a| == |b| ==> a == b)
  {
    assert b == a + (b - a);
  }

  /** The baseline's pass counts and totals are those of an earlier run. */
  ghost predicate Records(base: Baseline, earlier: seq<Row>, editionOf: File -> Edition) {
    forall ed :: ed in base.editions ==>
      && base.editions[ed].pass == Count(earlier, editionOf, ed, Pass)
      && base.editions[ed].total == Size(earlier, editionOf, ed)
  }

  lemma OnceMeansPassesOnce(rows: seq<Row>, editionOf: File -> Edition, ed: Edition)
    requires EachOnce(FilesOf(rows), editionOf, ed)
    ensures PassesOnce(rows, editionOf, ed)
  {
    var fs := FilesOf(rows);
    assert forall i :: 0 <= i < |rows| ==> fs[i] == rows[i].file;
  }

  lemma PassingIsKept(base: Baseline, earlier: seq<Row>, rows: seq<Row>, editionOf: File -> Edition, ed: Edition)
    requires EachOnce(FilesOf(earlier), editionOf, ed) && AllThere(FilesOf(earlier), FilesOf(rows), editionOf, ed)
    requires NoTestRegresses(base, earlier, rows, editionOf) && ed in base.editions && base.editions[ed].ratcheted
    ensures Passing(earlier, editionOf, ed) <= Passing(rows, editionOf, ed)
  {
    forall file | file in Passing(earlier, editionOf, ed)
      ensures file in Passing(rows, editionOf, ed)
    {
      PassIsKept(base, earlier, rows, editionOf, ed, file);
    }
  }

  lemma PassIsKept(base: Baseline, earlier: seq<Row>, rows: seq<Row>, editionOf: File -> Edition, ed: Edition, file: File)
    requires EachOnce(FilesOf(earlier), editionOf, ed) && AllThere(FilesOf(earlier), FilesOf(rows), editionOf, ed)
    requires NoTestRegresses(base, earlier, rows, editionOf) && ed in base.editions && base.editions[ed].ratcheted
    requires file in Passing(earlier, editionOf, ed)
    ensures file in Passing(rows, editionOf, ed)
  {
    hide LastStatus;
    var i :| 0 <= i < |earlier| && editionOf(earlier[i].file) == ed && earlier[i].status == "pass"
             && earlier[i].file == file;
    var fs := FilesOf(earlier);
    assert fs[i] == file;
    forall j | i < j < |earlier| ensures earlier[j].file != earlier[i].file {
      assert fs[j] == earlier[j].file && fs[i] != fs[j];
    }
    LastRowWins(earlier, i);
    LastRow(rows, file);
    assert !TestRegresses(base, LastStatus(earlier), LastStatus(rows), editionOf, file);
    var j :| 0 <= j < |rows| && rows[j] == Row(file, LastStatus(rows)[file]);
    assert rows[j].status == "pass";
  }

  /** If the earlier run reports each file of an edition once and this run reports all of them, however often, a clean
      per-test check settles the count check: the edition is covered and, if ratcheted, has lost no passes. */
  lemma CleanTestsMeanCleanCounts(base: Baseline, earlier: seq<Row>, rows: seq<Row>, editionOf: File -> Edition, ed: Edition)
    requires EachOnce(FilesOf(earlier), editionOf, ed) && AllThere(FilesOf(earlier), FilesOf(rows), editionOf, ed)
    requires Records(base, earlier, editionOf) && NoTestRegresses(base, earlier, rows, editionOf)
    ensures ed in base.editions ==> Covered(base, rows, editionOf, ed)
    ensures !CountRegresses(base, rows, editionOf, ed)
  {
    var was, now := FilesOf(earlier), FilesOf(rows);
    SizeOfFiles(earlier, editionOf, ed);
    SizeOfFiles(rows, editionOf, ed);
    CountOfFiles(was, editionOf, ed);
    CountOfFiles(now, editionOf, ed);
    SubsetSize(EditionFiles(was, editionOf, ed), EditionFiles(now, editionOf, ed));
    CountIsSetSize(earlier, editionOf, ed);
    CountIsSetSize(rows, editionOf, ed);
    OnceMeansPassesOnce(earlier, editionOf, ed);
    if ed in base.editions && base.editions[ed].ratcheted {
      PassingIsKept(base, earlier, rows, editionOf, ed);
      SubsetSize(Passing(earlier, editionOf, ed), Passing(rows, editionOf, ed));
    }
    hide EachOnce, AllThere, Passing, EditionFiles, FilesOf, PassesOnce, NoTestRegresses;
  }

  /** So if that holds of every edition and all are ratcheted, a run that passes the gate can also be banked. */
  lemma CleanRunCanBeBanked(base: Baseline, earlier: seq<Row>, run: Run, editionOf: File -> Edition)
    requires Records(base, earlier, editionOf)
    requires forall ed :: ed in base.editions ==>
               && base.editions[ed].ratcheted
               && EachOnce(FilesOf(earlier), editionOf, ed) && AllThere(FilesOf(earlier), FilesOf(run.rows), editionOf, ed)
    requires VerdictOf(base, run, Some(earlier), editionOf) == Clean
    ensures Banks(base, run, editionOf)
  {
    forall ed | ed in base.editions
      ensures Size(run.rows, editionOf, ed) >= base.editions[ed].total
      ensures Count(run.rows, editionOf, ed, Pass) >= base.editions[ed].pass
    {
      CleanTestsMeanCleanCounts(base, earlier, run.rows, editionOf, ed);
    }
  }

  // ---- Exactly when the per-test check settles the count check ----

  ghost function Flags(base: Baseline): map<Edition, bool> {
    map ed | ed in base.editions :: base.editions[ed].ratcheted
  }

  /** Two runs over given lists of files, a baseline with given flags that records the first, and a clean per-test check. */
  ghost predicate CleanTests(was: seq<File>, now: seq<File>, flags: map<Edition, bool>, editionOf: File -> Edition,
                             earlier: seq<Row>, rows: seq<Row>, base: Baseline) {
    && FilesOf(earlier) == was && FilesOf(rows) == now && Flags(base) == flags
    && Records(base, earlier, editionOf) && NoTestRegresses(base, earlier, rows, editionOf)
  }

  /** Whatever the statuses are, a clean per-test check means a clean count check. */
  ghost predicate TestsSettleCounts(was: seq<File>, now: seq<File>, flags: map<Edition, bool>, editionOf: File -> Edition) {
    forall earlier, rows, base, ed :: CleanTests(was, now, flags, editionOf, earlier, rows, base) ==>
      !CountRegresses(base, rows, editionOf, ed)
  }

  /** An edition the count check looks at. */
  ghost predicate Gated(was: seq<File>, now: seq<File>, flags: map<Edition, bool>, editionOf: File -> Edition, ed: Edition) {
    ed in flags && flags[ed] && EditionCount(now, editionOf, ed) >= EditionCount(was, editionOf, ed)
  }

  ghost function AllPass(fs: seq<File>): seq<Row> {
    seq(|fs|, i requires 0 <= i < |fs| => Row(fs[i], "pass"))
  }

  /** As few passes as the per-test check allows: the last row of each file that is wanted. */
  ghost function LastPass(fs: seq<File>, wanted: seq<File>): seq<Row> {
    seq(|fs|, i requires 0 <= i < |fs| => Row(fs[i], if fs[i] in wanted && fs[i] !in fs[i + 1..] then "pass" else "fail"))
  }

  lemma {:induction false} LastPlace(fs: seq<File>, f: File) returns (i: nat)
    requires f in fs
    ensures i < |fs| && fs[i] == f && f !in fs[i + 1..]
    decreases |fs|
  {
    var m := |fs| - 1;
    if fs[m] == f {
      i := m;
    } else {
      assert f in fs[..m];
      i := LastPlace(fs[..m], f);
      assert fs[i + 1..] == fs[..m][i + 1..] + [fs[m]];
    }
  }

  lemma LastPassIsClean(was: seq<File>, now: seq<File>, base: Baseline, editionOf: File -> Edition)
    ensures NoTestRegresses(base, AllPass(was), LastPass(now, was), editionOf)
  {
    var earlier, rows := AllPass(was), LastPass(now, was);
    assert FilesOf(earlier) == was && FilesOf(rows) == now;
    forall file
      ensures !TestRegresses(base, LastStatus(earlier), LastStatus(rows), editionOf, file)
    {
      LastRow(earlier, file);
      LastRow(rows, file);
      if file in was && file in now {
        var i := LastPlace(now, file);
        forall j | i < j < |rows| ensures rows[j].file != rows[i].file {
          assert now[j] == now[i + 1..][j - i - 1];
        }
        LastRowWins(rows, i);
      }
    }
  }

  lemma {:induction false} AllPassCount(fs: seq<File>, editionOf: File -> Edition, ed: Edition)
    ensures Count(AllPass(fs), editionOf, ed, Pass) == EditionCount(fs, editionOf, ed)
  {
    if fs != [] {
      AllPassCount(fs[..|fs| - 1], editionOf, ed);
      assert AllPass(fs)[..|fs| - 1] == AllPass(fs[..|fs| - 1]);
    }
  }

  /** The second run then passes in no more rows than there are files in both lists. */
  lemma LastPassCount(was: seq<File>, now: seq<File>, editionOf: File -> Edition, ed: Edition)
    ensures var rows := LastPass(now, was);
            && Count(rows, editionOf, ed, Pass) == |Passing(rows, editionOf, ed)|
            && Passing(rows, editionOf, ed) <= EditionFiles(was, editionOf, ed)
            && (forall f :: f in Passing(rows, editionOf, ed) ==> f in now)
  {
    var rows := LastPass(now, was);
    forall i, j | 0 <= i < j < |rows| && rows[i].status == "pass" && rows[j].status == "pass"
      ensures rows[i].file != rows[j].file
    {
      assert now[j] == now[i + 1..][j - i - 1];
    }
    CountIsSetSize(rows, editionOf, ed);
  }

  /** If an edition is gated and lists a file twice in the earlier run, or lacks one now, the checks can disagree. */
  lemma ChecksCanDisagree(was: seq<File>, now: seq<File>, flags: map<Edition, bool>, editionOf: File -> Edition, ed: Edition)
    requires Gated(was, now, flags, editionOf, ed)
    requires !(EachOnce(was, editionOf, ed) && AllThere(was, now, editionOf, ed))
    ensures !TestsSettleCounts(was, now, flags, editionOf)
  {
    var earlier, rows := AllPass(was), LastPass(now, was);
    var base := Baseline("standalone", map e | e in flags ::
                  Entry(flags[e], None, Count(earlier, editionOf, e, Pass), 0, 0, 0, Size(earlier, editionOf, e)));
    assert FilesOf(earlier) == was && FilesOf(rows) == now && Flags(base) == flags;
    LastPassIsClean(was, now, base, editionOf);
    assert CleanTests(was, now, flags, editionOf, earlier, rows, base);
    hide CleanTests, AllPass, LastPass, FilesOf, EachOnce, AllThere, Count, Size, EditionCount, Flags, Records, NoTestRegresses;
    SizeOfFiles(earlier, editionOf, ed);
    SizeOfFiles(rows, editionOf, ed);
    AllPassCount(was, editionOf, ed);
    FewerPass(was, now, editionOf, ed);
    assert CountRegresses(base, rows, editionOf, ed);
  }

  lemma FewerPass(was: seq<File>, now: seq<File>, editionOf: File -> Edition, ed: Edition)
    requires !(EachOnce(was, editionOf, ed) && AllThere(was, now, editionOf, ed))
    ensures Count(LastPass(now, was), editionOf, ed, Pass) < EditionCount(was, editionOf, ed)
  {
    var passing, files := Passing(LastPass(now, was), editionOf, ed), EditionFiles(was, editionOf, ed);
    CountOfFiles(was, editionOf, ed);
    LastPassCount(was, now, editionOf, ed);
    SubsetSize(passing, files);
    if EachOnce(was, editionOf, ed) {
      var f :| f in was && editionOf(f) == ed && f !in now;
      assert f in files && f !in passing;
    }
  }

  lemma FlagsMean(base: Baseline, ed: Edition)
    ensures ed in Flags(base) <==> ed in base.editions
    ensures ed in base.editions ==> Flags(base)[ed] == base.editions[ed].ratcheted
  {
  }

  lemma OnceAndThereSettles(was: seq<File>, now: seq<File>, flags: map<Edition, bool>, editionOf: File -> Edition,
                            earlier: seq<Row>, rows: seq<Row>, base: Baseline, ed: Edition)
    requires Gated(was, now, flags, editionOf, ed) ==> EachOnce(was, editionOf, ed) && AllThere(was, now, editionOf, ed)
    requires CleanTests(was, now, flags, editionOf, earlier, rows, base)
    ensures !CountRegresses(base, rows, editionOf, ed)
  {
    hide EachOnce, AllThere, NoTestRegresses, Flags;
    FlagsMean(base, ed);
    SizeOfFiles(earlier, editionOf, ed);
    SizeOfFiles(rows, editionOf, ed);
    if Gated(was, now, flags, editionOf, ed) {
      CleanTestsMeanCleanCounts(base, earlier, rows, editionOf, ed);
    }
  }

  /** A clean per-test check settles the count check, whatever the statuses, if and only if the earlier run lists every
      file of each gated edition once and this run lists it too. Duplicates in this run do no harm. */
  lemma TestsSettleCountsIff(was: seq<File>, now: seq<File>, flags: map<Edition, bool>, editionOf: File -> Edition)
    ensures TestsSettleCounts(was, now, flags, editionOf)
       <==> forall ed :: Gated(was, now, flags, editionOf, ed) ==>
              EachOnce(was, editionOf, ed) && AllThere(was, now, editionOf, ed)
  {
    hide EachOnce, AllThere, CleanTests, CountRegresses, Gated;
    if forall ed :: Gated(was, now, flags, editionOf, ed) ==>
              EachOnce(was, editionOf, ed) && AllThere(was, now, editionOf, ed) {
      forall earlier, rows, base, ed | CleanTests(was, now, flags, editionOf, earlier, rows, base)
        ensures !CountRegresses(base, rows, editionOf, ed)
      {
        OnceAndThereSettles(was, now, flags, editionOf, earlier, rows, base, ed);
      }
    } else {
      var ed :| Gated(was, now, flags, editionOf, ed) &&
                !(EachOnce(was, editionOf, ed) && AllThere(was, now, editionOf, ed));
      ChecksCanDisagree(was, now, flags, editionOf, ed);
    }
  }

  lemma {:induction false} TwoRows(a: Row, b: Row, editionOf: File -> Edition, ed: Edition)
    requires editionOf(a.file) == ed && editionOf(b.file) == ed
    ensures Size([a, b], editionOf, ed) == 2
    ensures Count([a, b], editionOf, ed, Pass)
         == (if a.status == "pass" then 1 else 0) + (if b.status == "pass" then 1 else 0)
    ensures LastStatus([a, b]) == map[a.file := a.status][b.file := b.status]
  {
    var rows := [a, b];
    assert rows[..1] == [a] && [a][..0] == [];
    assert Size([a], editionOf, ed) == 1;
    assert [a][0].file == a.file && [a][0].status == a.status;
    assert LastStatus([a]) == LastStatus([])[a.file := a.status];
    assert LastStatus([a]) == map[a.file := a.status];
    assert rows[1].file == b.file && rows[1].status == b.status;
    assert Count([a], editionOf, ed, Pass) == if a.status == "pass" then 1 else 0;
  }

  /** The converse fails: breaking one test and fixing another passes the count check alone. */
  lemma CleanCountsHideABrokenTest(editionOf: File -> Edition)
    requires editionOf("a") == 5 && editionOf("b") == 5
    ensures var earlier, rows := [Row("a", "pass"), Row("b", "fail")], [Row("a", "fail"), Row("b", "pass")];
            var base := Baseline("standalone", map[5 := Entry(true, None, 1, 1, 0, 0, 2)]);
            && FilesOf(earlier) == FilesOf(rows) && EachOnce(FilesOf(earlier), editionOf, 5) && Records(base, earlier, editionOf)
            && (forall ed :: !CountRegresses(base, rows, editionOf, ed))
            && TestRegresses(base, LastStatus(earlier), LastStatus(rows), editionOf, "a")
  {
    TwoRows(Row("a", "pass"), Row("b", "fail"), editionOf, 5);
    TwoRows(Row("a", "fail"), Row("b", "pass"), editionOf, 5);
  }

  /** Reporting tests once is needed of the earlier run: the counts see every row, the per-test check only the last one of a
      file. */
  lemma DuplicateRowsSeparateTheChecks(editionOf: File -> Edition)
    requires editionOf("a") == 5
    ensures var earlier, rows := [Row("a", "pass"), Row("a", "pass")], [Row("a", "fail"), Row("a", "pass")];
            var base := Baseline("standalone", map[5 := Entry(true, None, 2, 0, 0, 0, 2)]);
            && FilesOf(earlier) == FilesOf(rows) && Records(base, earlier, editionOf)
            && NoTestRegresses(base, earlier, rows, editionOf)
            && CountRegresses(base, rows, editionOf, 5)
  {
    TwoRows(Row("a", "pass"), Row("a", "pass"), editionOf, 5);
    TwoRows(Row("a", "fail"), Row("a", "pass"), editionOf, 5);
  }
}
