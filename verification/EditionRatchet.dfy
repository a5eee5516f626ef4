/** scripts/test262-edition-ratchet.ts: a floor per edition that unforced updates can only raise. */
module EditionRatchet {
  import opened Wrappers

  type File = string
  type Edition = int

  datatype Row = Row(file: File, status: string)

  datatype Class = Pass | Fail | CompileError | Other

  function ClassOf(status: string): Class {
    if status == "pass" then Pass
    else if status == "fail" then Fail
    else if status == "compile_error" then CompileError
    else Other
  }

  /** What the classes mean in terms of the status read. */
  ghost predicate HasStatus(c: Class, status: string) {
    match c
    case Pass => status == "pass"
    case Fail => status == "fail"
    case CompileError => status == "compile_error"
    case Other => status != "pass" && status != "fail" && status != "compile_error"
  }

  lemma ClassOfMeans(status: string, c: Class)
    ensures ClassOf(status) == c <==> HasStatus(c, status)
  {
  }

  datatype Tally = Tally(pass: nat, fail: nat, compileError: nat, other: nat, total: nat, passing: set<File>)

  // ---- Tallying ----

  /** How many rows of an edition have a class. */
  ghost function Count(rows: seq<Row>, editionOf: File -> Edition, ed: Edition, c: Class): nat {
    if rows == [] then 0
    else
      var last := rows[|rows| - 1];
      Count(rows[..|rows| - 1], editionOf, ed, c) + if editionOf(last.file) == ed && HasStatus(c, last.status) then 1 else 0
  }

  ghost function Size(rows: seq<Row>, editionOf: File -> Edition, ed: Edition): nat {
    if rows == [] then 0
    else Size(rows[..|rows| - 1], editionOf, ed) + if editionOf(rows[|rows| - 1].file) == ed then 1 else 0
  }

  ghost function Passing(rows: seq<Row>, editionOf: File -> Edition, ed: Edition): set<File> {
    set i | 0 <= i < |rows| && editionOf(rows[i].file) == ed && rows[i].status == "pass" :: rows[i].file
  }

  ghost predicate IsTally(rows: seq<Row>, editionOf: File -> Edition, ed: Edition, t: Tally) {
    && t.pass == Count(rows, editionOf, ed, Pass) && t.fail == Count(rows, editionOf, ed, Fail)
    && t.compileError == Count(rows, editionOf, ed, CompileError) && t.other == Count(rows, editionOf, ed, Other)
    && t.total == Size(rows, editionOf, ed)
    && t.passing == Passing(rows, editionOf, ed)
  }

  ghost predicate Tallied(rows: seq<Row>, editionOf: File -> Edition, cur: map<Edition, Tally>) {
    && (forall ed :: ed in cur <==> Size(rows, editionOf, ed) > 0)
    && (forall ed :: ed in cur ==> IsTally(rows, editionOf, ed, cur[ed]))
  }

  function Empty(): Tally {
    Tally(0, 0, 0, 0, 0, {})
  }

  function Add(t: Tally, r: Row): Tally {
    var u := t.(total := t.total + 1);
    match ClassOf(r.status)
    case Pass => u.(pass := t.pass + 1, passing := t.passing + {r.file})
    case Fail => u.(fail := t.fail + 1)
    case CompileError => u.(compileError := t.compileError + 1)
    case Other => u.(other := t.other + 1)
  }

  lemma {:induction false} NoRows(rows: seq<Row>, editionOf: File -> Edition, ed: Edition)
    requires Size(rows, editionOf, ed) == 0
    ensures IsTally(rows, editionOf, ed, Empty())
  {
    if rows != [] {
      var m := |rows| - 1;
      NoRows(rows[..m], editionOf, ed);
      PassingNext(rows[..m], editionOf, ed, rows[m]);
      assert rows == rows[..m] + [rows[m]];
    }
  }

  lemma PassingNext(rows: seq<Row>, editionOf: File -> Edition, ed: Edition, r: Row)
    ensures Passing(rows + [r], editionOf, ed)
         == Passing(rows, editionOf, ed) + if editionOf(r.file) == ed && r.status == "pass" then {r.file} else {}
  {
    var more := rows + [r];
    forall f | f in Passing(rows, editionOf, ed)
      ensures f in Passing(more, editionOf, ed)
    {
      var i :| 0 <= i < |rows| && editionOf(rows[i].file) == ed && rows[i].status == "pass" && rows[i].file == f;
      assert more[i] == rows[i];
    }
    assert more[|rows|] == r;
  }

  lemma TallyNext(rows: seq<Row>, editionOf: File -> Edition, ed: Edition, r: Row, t: Tally)
    requires IsTally(rows, editionOf, ed, t)
    ensures IsTally(rows + [r], editionOf, ed, if editionOf(r.file) == ed then Add(t, r) else t)
  {
    assert (rows + [r])[..|rows|] == rows;
    PassingNext(rows, editionOf, ed, r);
  }

  lemma TalliedNext(rows: seq<Row>, editionOf: File -> Edition, r: Row, cur: map<Edition, Tally>)
    requires Tallied(rows, editionOf, cur)
    ensures var ed := editionOf(r.file);
            Tallied(rows + [r], editionOf, cur[ed := Add(if ed in cur then cur[ed] else Empty(), r)])
  {
    hide IsTally, Add;
    var ed := editionOf(r.file);
    assert (rows + [r])[..|rows|] == rows;
    if ed !in cur {
      NoRows(rows, editionOf, ed);
    }
    TallyNext(rows, editionOf, ed, r, if ed in cur then cur[ed] else Empty());
    forall e | e in cur && e != ed
      ensures IsTally(rows + [r], editionOf, e, cur[e])
    {
      TallyNext(rows, editionOf, e, r, cur[e]);
    }
  }

  /** `tally`: every row is counted, duplicates included. */
  method TallyRows(rows: seq<Row>, editionOf: File -> Edition) returns (out: map<Edition, Tally>)
    ensures Tallied(rows, editionOf, out)
  {
    out := map[];
    hide IsTally, Add;
    for i := 0 to |rows|
      invariant Tallied(rows[..i], editionOf, out)
    {
      var r := rows[i];
      var ed := editionOf(r.file);
      TalliedNext(rows[..i], editionOf, r, out);
      assert rows[..i + 1] == rows[..i] + [r];
      var t := if ed in out then out[ed] else Empty();
      out := out[ed := Add(t, r)];
    }
    assert rows[..|rows|] == rows;
  }

  lemma {:induction false} ClassesPartition(rows: seq<Row>, editionOf: File -> Edition, ed: Edition)
    ensures Size(rows, editionOf, ed)
         == Count(rows, editionOf, ed, Pass) + Count(rows, editionOf, ed, Fail)
            + Count(rows, editionOf, ed, CompileError) + Count(rows, editionOf, ed, Other)
  {
    if rows != [] {
      ClassesPartition(rows[..|rows| - 1], editionOf, ed);
    }
  }

  // ---- The baseline and its update ----

  /** An entry as read from the file: nothing keeps its numbers positive. */
  datatype Entry = Entry(
    ratcheted: bool, reason: Option<string>, pass: int, fail: int, compileError: int, other: int, total: int)

  datatype Baseline = Baseline(target: string, editions: map<Edition, Entry>)

  datatype Run = Run(rows: seq<Row>, target: string)

  function PassOf(cur: map<Edition, Tally>, ed: Edition): nat {
    if ed in cur then cur[ed].pass else 0
  }

  function SeenOf(cur: map<Edition, Tally>, ed: Edition): nat {
    if ed in cur then cur[ed].total else 0
  }

  /** An empty reason counts as none. */
  function Given(reason: Option<string>): Option<string> {
    if reason == Some("") then None else reason
  }

  /** The entry `writeBaseline` writes for an edition. */
  function EntryFor(t: Tally, before: Option<Entry>): Entry {
    Entry(if before.Some? then before.value.ratcheted else true,
          if before.Some? then Given(before.value.reason) else None,
          t.pass, t.fail, t.compileError, t.other, t.total)
  }

  function Before(prev: Option<Baseline>, ed: Edition): Option<Entry> {
    if prev.Some? && ed in prev.value.editions then Some(prev.value.editions[ed]) else None
  }

  function NewBaseline(cur: map<Edition, Tally>, target: string, prev: Option<Baseline>): Baseline {
    Baseline(target, map ed | ed in cur :: EntryFor(cur[ed], Before(prev, ed)))
  }

  /** What an update must satisfy to be written without `--force`, in terms of the rows alone. */
  ghost predicate Banks(base: Baseline, run: Run, editionOf: File -> Edition) {
    && run.target == base.target
    && forall ed :: ed in base.editions ==>
         && Size(run.rows, editionOf, ed) >= base.editions[ed].total
         && Count(run.rows, editionOf, ed, Pass) >= base.editions[ed].pass
  }

  /** What a written baseline holds: every edition with rows, and no other, with the numbers of its rows in each class; a
      flag and a reason carried over from the earlier entry, and without one the flag set and no reason. */
  ghost predicate Written(prev: Option<Baseline>, run: Run, editionOf: File -> Edition, after: Baseline) {
    && after.target == run.target
    && (forall ed :: ed in after.editions <==> Size(run.rows, editionOf, ed) > 0)
    && (forall ed :: ed in after.editions ==>
          WrittenEntry(if prev.Some? && ed in prev.value.editions then Some(prev.value.editions[ed]) else None,
                       run.rows, editionOf, ed, after.editions[ed]))
  }

  ghost predicate WrittenEntry(before: Option<Entry>, rows: seq<Row>, editionOf: File -> Edition, ed: Edition, e: Entry) {
    && e.pass == Count(rows, editionOf, ed, Pass) && e.fail == Count(rows, editionOf, ed, Fail)
    && e.compileError == Count(rows, editionOf, ed, CompileError) && e.other == Count(rows, editionOf, ed, Other)
    && e.total == Size(rows, editionOf, ed)
    && (before.None? ==> e.ratcheted && e.reason == None)
    && (before.Some? ==> e.ratcheted == before.value.ratcheted)
    && (before.Some? ==> e.reason == if before.value.reason == Some("") then None else before.value.reason)
  }

  lemma NewBaselineIsWritten(prev: Option<Baseline>, run: Run, editionOf: File -> Edition, cur: map<Edition, Tally>)
    requires Tallied(run.rows, editionOf, cur)
    ensures Written(prev, run, editionOf, NewBaseline(cur, run.target, prev))
  {
    var after := NewBaseline(cur, run.target, prev);
    forall ed | ed in after.editions
      ensures WrittenEntry(if prev.Some? && ed in prev.value.editions then Some(prev.value.editions[ed]) else None,
                           run.rows, editionOf, ed, after.editions[ed])
    {
      assert IsTally(run.rows, editionOf, ed, cur[ed]);
    }
  }

  /** The file after an unforced `--update`: rewritten, or left as it was. */
  ghost predicate Updated(base: Option<Baseline>, run: Run, editionOf: File -> Edition, after: Option<Baseline>) {
    if base.Some? && !Banks(base.value, run, editionOf) then after == base
    else after.Some? && Written(base, run, editionOf, after.value)
  }

  lemma TalliedMeans(rows: seq<Row>, editionOf: File -> Edition, cur: map<Edition, Tally>, ed: Edition)
    requires Tallied(rows, editionOf, cur)
    ensures SeenOf(cur, ed) == Size(rows, editionOf, ed) && PassOf(cur, ed) == Count(rows, editionOf, ed, Pass)
  {
    if ed !in cur {
      NoRows(rows, editionOf, ed);
    }
  }

  lemma SomeMember(s: set<Edition>)
    requires s != {}
    ensures exists ed :: ed in s
  {
    if forall ed :: ed !in s {
      assert false;
    }
  }

  method Update(base: Option<Baseline>, run: Run, editionOf: File -> Edition) returns (after: Option<Baseline>, written: bool)
    ensures Updated(base, run, editionOf, after)
    ensures written <==> (base.Some? ==> Banks(base.value, run, editionOf))
  {
    var cur := TallyRows(run.rows, editionOf);
    NewBaselineIsWritten(base, run, editionOf, cur);
    if base.None? {
      return Some(NewBaseline(cur, run.target, None)), true;
    }
    var b := base.value;
    if b.target != run.target {
      return base, false;
    }
    hide Tallied, NewBaseline;
    var todo: set<Edition> := b.editions.Keys;
    var covered: set<Edition> := {};
    var partial: set<Edition> := {};
    while todo != {}
      invariant todo <= b.editions.Keys && todo + covered + partial == b.editions.Keys
      invariant forall ed :: ed in covered ==> SeenOf(cur, ed) >= b.editions[ed].total
      invariant forall ed :: ed in partial ==> SeenOf(cur, ed) < b.editions[ed].total
    {
      SomeMember(todo);
      var ed :| ed in todo;
      todo := todo - {ed};
      if SeenOf(cur, ed) >= b.editions[ed].total {
        covered := covered + {ed};
      } else {
        partial := partial + {ed};
      }
    }
    var lowered := set ed | ed in covered && PassOf(cur, ed) < b.editions[ed].pass;
    forall ed | ed in b.editions
      ensures SeenOf(cur, ed) == Size(run.rows, editionOf, ed) && PassOf(cur, ed) == Count(run.rows, editionOf, ed, Pass)
    {
      TalliedMeans(run.rows, editionOf, cur, ed);
    }
    if partial != {} || lowered != {} {
      assert !Banks(b, run, editionOf) by {
        if partial != {} {
          SomeMember(partial);
          var ed: Edition :| ed in partial;
        } else {
          var ed: Edition :| ed in lowered;
        }
      }
      return base, false;
    }
    return Some(NewBaseline(cur, run.target, base)), true;
  }

  // ---- Histories of updates ----

  /** The baseline after each of a list of updates. */
  ghost predicate IsHistory(hs: seq<Option<Baseline>>, runs: seq<Run>, editionOf: File -> Edition) {
    && |hs| == |runs| + 1
    && forall i :: 0 <= i < |runs| ==> Updated(hs[i], runs[i], editionOf, hs[i + 1])
  }

  /** The floor of `ed` is at least that of `e`, and its flag and reason are those of `e`. */
  ghost predicate AtLeast(b: Option<Baseline>, ed: Edition, e: Entry) {
    && b.Some? && ed in b.value.editions
    && var now := b.value.editions[ed];
       now.pass >= e.pass && now.total >= e.total && now.ratcheted == e.ratcheted && Given(now.reason) == Given(e.reason)
  }

  lemma {:induction false} PassNeedsRows(rows: seq<Row>, editionOf: File -> Edition, ed: Edition)
    ensures Count(rows, editionOf, ed, Pass) <= Size(rows, editionOf, ed)
  {
    ClassesPartition(rows, editionOf, ed);
  }

  lemma UpdateKeepsFloor(base: Option<Baseline>, run: Run, editionOf: File -> Edition, after: Option<Baseline>,
                         ed: Edition, e: Entry)
    requires Updated(base, run, editionOf, after) && AtLeast(base, ed, e) && (e.total > 0 || e.pass > 0)
    ensures AtLeast(after, ed, e)
  {
    if Banks(base.value, run, editionOf) {
      PassNeedsRows(run.rows, editionOf, ed);
    }
  }

  /** Over any sequence of unforced updates an edition with a positive floor stays in the baseline, its pass and total
      never fall, and its ratchet flag and reason persist. */
  lemma {:induction false} FloorNeverFalls(hs: seq<Option<Baseline>>, runs: seq<Run>, editionOf: File -> Edition,
                                           ed: Edition, i: nat, j: nat)
    requires IsHistory(hs, runs, editionOf) && i <= j < |hs|
    requires hs[i].Some? && ed in hs[i].value.editions
    requires var e := hs[i].value.editions[ed]; e.total > 0 || e.pass > 0
    ensures AtLeast(hs[j], ed, hs[i].value.editions[ed])
    decreases j
  {
    if i < j {
      FloorNeverFalls(hs, runs, editionOf, ed, i, j - 1);
      UpdateKeepsFloor(hs[j - 1], runs[j - 1], editionOf, hs[j], ed, hs[i].value.editions[ed]);
    }
  }

  /** Every baseline the program writes has positive totals, so its floors are protected from then on. */
  lemma WrittenTotalsArePositive(base: Option<Baseline>, run: Run, editionOf: File -> Edition, after: Option<Baseline>,
                                 ed: Edition)
    requires Updated(base, run, editionOf, after) && (base.Some? ==> Banks(base.value, run, editionOf))
    ensures after.Some?
    ensures ed in after.value.editions ==>
              var e := after.value.editions[ed]; 0 < e.total == e.pass + e.fail + e.compileError + e.other && e.pass >= 0
  {
    ClassesPartition(run.rows, editionOf, ed);
  }

  /** A hand-written entry is safe from every later update exactly when its total or its pass count is positive. */
  lemma SafeIffPositive(ed: Edition, e: Entry, editionOf: File -> Edition)
    ensures (e.total > 0 || e.pass > 0)
       <==> forall base: Baseline, run, after ::
              (ed in base.editions && base.editions[ed] == e && Updated(Some(base), run, editionOf, after)) ==>
                after.Some? && ed in after.value.editions
  {
    if e.total > 0 || e.pass > 0 {
      forall base: Baseline, run, after | ed in base.editions && base.editions[ed] == e &&
              Updated(Some(base), run, editionOf, after)
        ensures after.Some? && ed in after.value.editions
      {
        UpdateKeepsFloor(Some(base), run, editionOf, after, ed, e);
      }
    } else {
      var base, run := Baseline("standalone", map[ed := e]), Run([], "standalone");
      var after := Some(Baseline(run.target, map[]));
      assert Banks(base, run, editionOf);
      assert Updated(Some(base), run, editionOf, after);
      assert ed !in after.value.editions;
    }
  }
}
