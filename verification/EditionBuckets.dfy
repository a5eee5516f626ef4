/** Bucketing of results by edition, feature tag and landing-page row in scripts/generate-editions.ts. */
module EditionBuckets {
  import opened EditionClassify

  datatype Counts = Counts(pass: nat, fail: nat, ce: nat, skip: nat)

  function Total(c: Counts): nat {
    c.pass + c.fail + c.ce + c.skip
  }

  function Zero(): Counts {
    Counts(0, 0, 0, 0)
  }

  function Bump(c: Counts, k: Key): Counts {
    match k
    case Pass => c.(pass := c.pass + 1)
    case Fail => c.(fail := c.fail + 1)
    case Ce => c.(ce := c.ce + 1)
    case Skip => c.(skip := c.skip + 1)
  }

  // ---- What is counted ----

  /** A processed record after classification. */
  datatype Item = Item(edition: Edition, key: Key, tags: set<string>)

  /** The populations that get a count. */
  datatype Population = InEdition(edition: Edition) | Tagged(edition: Edition, tag: string) | RowOf(edition: Edition, tags: set<string>)

  ghost predicate Belongs(i: Item, p: Population) {
    match p
    case InEdition(ed) => i.edition == ed
    case Tagged(ed, tag) => i.edition == ed && tag in i.tags
    case RowOf(ed, tags) => i.edition == ed && tags * i.tags != {}
  }

  ghost function CountOf(items: seq<Item>, p: Population): Counts {
    if items == [] then Zero()
    else
      var last, rest := items[|items| - 1], CountOf(items[..|items| - 1], p);
      if Belongs(last, p) then Bump(rest, last.key) else rest
  }

  lemma CountNext(items: seq<Item>, i: Item, p: Population)
    ensures CountOf(items + [i], p) == if Belongs(i, p) then Bump(CountOf(items, p), i.key) else CountOf(items, p)
  {
    assert (items + [i])[..|items|] == items;
  }

  ghost predicate Within(a: Counts, b: Counts) {
    a.pass <= b.pass && a.fail <= b.fail && a.ce <= b.ce && a.skip <= b.skip
  }

  /** A tag's slice and a feature row lie inside their edition, status by status. */
  lemma {:induction false} PartOfEdition(items: seq<Item>, p: Population)
    ensures Within(CountOf(items, p), CountOf(items, InEdition(p.edition)))
  {
    if items != [] {
      PartOfEdition(items[..|items| - 1], p);
    }
  }

  /** So in an edition where everything passes, everything in any part of it passes. */
  lemma FullEditionFullPart(a: Counts, b: Counts)
    requires Within(a, b)
    ensures a.pass <= b.pass && Total(a) <= Total(b)
    ensures b.pass == Total(b) ==> a.pass == Total(a)
  {
  }

  // ---- Totals ----

  ghost function SumOfTotals(order: seq<Edition>, items: seq<Item>): nat {
    if order == [] then 0
    else SumOfTotals(order[..|order| - 1], items) + Total(CountOf(items, InEdition(order[|order| - 1])))
  }

  ghost function Occurrences(order: seq<Edition>, ed: Edition): nat {
    if order == [] then 0
    else Occurrences(order[..|order| - 1], ed) + if order[|order| - 1] == ed then 1 else 0
  }

  lemma {:induction false} SumNext(order: seq<Edition>, items: seq<Item>, i: Item)
    ensures SumOfTotals(order, items + [i]) == SumOfTotals(order, items) + Occurrences(order, i.edition)
    decreases |order|
  {
    if order != [] {
      SumNext(order[..|order| - 1], items, i);
      CountNext(items, i, InEdition(order[|order| - 1]));
    }
  }

  lemma {:induction false} SumOfNothing(order: seq<Edition>)
    ensures SumOfTotals(order, []) == 0
  {
    if order != [] {
      SumOfNothing(order[..|order| - 1]);
    }
  }

  ghost predicate Distinct(order: seq<Edition>) {
    forall i, j :: 0 <= i < j < |order| ==> order[i] != order[j]
  }

  lemma {:induction false} OccursOnce(order: seq<Edition>, ed: Edition)
    requires Distinct(order)
    ensures Occurrences(order, ed) == if ed in order then 1 else 0
  {
    if order != [] {
      var m := |order| - 1;
      OccursOnce(order[..m], ed);
      assert order == order[..m] + [order[m]];
      assert order[m] !in order[..m];
    }
  }

  lemma OrderIsDistinct()
    ensures Distinct(EDITION_ORDER)
  {
  }

  /** When every item's edition is listed once, the edition totals add up to the number of items. */
  lemma {:induction false} TotalsAddUp(order: seq<Edition>, items: seq<Item>)
    requires Distinct(order) && forall i :: 0 <= i < |items| ==> items[i].edition in order
    ensures SumOfTotals(order, items) == |items|
    decreases |items|
  {
    if items == [] {
      SumOfNothing(order);
    } else {
      var m := |items| - 1;
      TotalsAddUp(order, items[..m]);
      SumNext(order, items[..m], items[m]);
      OccursOnce(order, items[m].edition);
      assert items == items[..m] + [items[m]];
    }
  }

  // ---- The bucketing loop ----

  /** What the loop reads besides the rows. */
  datatype Setting = Setting(hostFree: bool, frontmatter: string -> Frontmatter, table: map<string, Edition>)

  function TagsOf(fm: Frontmatter): set<string> {
    set i | 0 <= i < |fm.features| :: fm.features[i]
  }

  /** The item a processed record turns into. */
  ghost predicate IsItem(r: Record, s: Setting, i: Item) {
    && i.key == ResolveStatusKey(r, s.hostFree)
    && if r.proposal then i.edition == PROPOSALS && i.tags == {}
       else Classifies(s.frontmatter(r.file), r.file, s.table, i.edition) && i.tags == TagsOf(s.frontmatter(r.file))
  }

  predicate Skipped(r: Record) {
    r.file == "" || r.status == ""
  }

  /** The rows the loop skips are those whose outcome is to be ignored. */
  lemma SkippedIsIgnored(r: Record, hostFree: bool)
    ensures Skipped(r) <==> OutcomeOf(r, hostFree).Ignored?
  {
  }

  /** The processed records, in order, as items. */
  ghost predicate AreItems(rows: seq<Record>, s: Setting, items: seq<Item>)
    decreases |rows|
  {
    if rows == [] then items == []
    else if Skipped(rows[|rows| - 1]) then AreItems(rows[..|rows| - 1], s, items)
    else items != [] && AreItems(rows[..|rows| - 1], s, items[..|items| - 1]) && IsItem(rows[|rows| - 1], s, items[|items| - 1])
  }

  lemma ItemsNext(rows: seq<Record>, r: Record, s: Setting, items: seq<Item>, i: Item)
    requires AreItems(rows, s, items)
    ensures Skipped(r) ==> AreItems(rows + [r], s, items)
    ensures !Skipped(r) && IsItem(r, s, i) ==> AreItems(rows + [r], s, items + [i])
  {
    assert (rows + [r])[..|rows|] == rows && (items + [i])[..|items|] == items;
  }

  lemma ItemIsListed(r: Record, s: Setting, i: Item)
    requires TableOk(s.table) && IsItem(r, s, i)
    ensures i.edition in EDITION_ORDER && (i.tags != {} ==> i.edition > 0)
  {
    hide Classifies, TableOk;
    if r.proposal {
      assert EDITION_ORDER[14] == PROPOSALS;
    } else {
      EditionIsListed(s.frontmatter(r.file), r.file, s.table, i.edition);
      if i.tags != {} {
        assert s.frontmatter(r.file).features != [];
      }
    }
  }

  /** Property names every object inherits: looking one up in a tag table never finds "no entry". */
  const INHERITED_NAMES: set<string> :=
    {"__proto__", "constructor", "hasOwnProperty", "isPrototypeOf", "propertyIsEnumerable", "toLocaleString", "toString",
     "valueOf", "__defineGetter__", "__defineSetter__", "__lookupGetter__", "__lookupSetter__"}

  type Slices = map<Edition, map<string, Counts>>

  function SliceOf(slices: Slices, ed: Edition, tag: string): Counts {
    if ed in slices && tag in slices[ed] then slices[ed][tag] else Zero()
  }

  ghost predicate BucketsHold(buckets: map<Edition, Counts>, items: seq<Item>) {
    && (forall ed :: ed in buckets <==> ed in EDITION_ORDER)
    && (forall ed :: ed in buckets ==> buckets[ed] == CountOf(items, InEdition(ed)))
  }

  /** A slice is there exactly for the tags met, except those that name an inherited property. */
  ghost predicate SlicesHold(slices: Slices, items: seq<Item>) {
    && (forall ed, tag | tag !in INHERITED_NAMES :: SliceOf(slices, ed, tag) == CountOf(items, Tagged(ed, tag)))
    && (forall ed, tag :: ed in slices && tag in slices[ed] ==> tag !in INHERITED_NAMES && Total(slices[ed][tag]) > 0)
  }

  /** One test tagged `__proto__`: it is counted in its edition and carries the tag, and no slices that hold for it have
      one for the tag. */
  lemma ProtoTagHasNoSlice(slices: Slices, key: Key)
    requires SlicesHold(slices, [Item(2027, key, {"__proto__"})])
    ensures Total(CountOf([Item(2027, key, {"__proto__"})], Tagged(2027, "__proto__"))) == 1
    ensures !(2027 in slices && "__proto__" in slices[2027])
  {
    var i := Item(2027, key, {"__proto__"});
    CountNext([], i, Tagged(2027, "__proto__"));
    assert [] + [i] == [i];
    assert "__proto__" in INHERITED_NAMES;
  }

  lemma BucketsNext(buckets: map<Edition, Counts>, items: seq<Item>, i: Item)
    requires BucketsHold(buckets, items) && i.edition in EDITION_ORDER
    ensures BucketsHold(buckets[i.edition := Bump(buckets[i.edition], i.key)], items + [i])
  {
    hide CountOf, Bump;
    forall ed | ed in buckets
      ensures CountOf(items + [i], InEdition(ed))
           == if ed == i.edition then Bump(CountOf(items, InEdition(ed)), i.key) else CountOf(items, InEdition(ed))
    {
      CountNext(items, i, InEdition(ed));
    }
  }

  /** The slices with the tags of `done` counted for the item at hand. */
  ghost predicate SlicesPartly(slices: Slices, items: seq<Item>, i: Item, done: set<string>) {
    && (forall ed, tag | tag !in INHERITED_NAMES ::
          SliceOf(slices, ed, tag) ==
            if ed == i.edition && tag in done then Bump(CountOf(items, Tagged(ed, tag)), i.key)
            else CountOf(items, Tagged(ed, tag)))
    && (forall ed, tag :: ed in slices && tag in slices[ed] ==> tag !in INHERITED_NAMES && Total(slices[ed][tag]) > 0)
  }

  lemma SliceNext(slices: Slices, items: seq<Item>, i: Item, done: set<string>, tag: string)
    requires SlicesPartly(slices, items, i, done) && tag !in done && i.edition in slices
    ensures tag in INHERITED_NAMES ==> SlicesPartly(slices, items, i, done + {tag})
    ensures tag !in INHERITED_NAMES ==>
              SlicesPartly(slices[i.edition := slices[i.edition][tag := Bump(SliceOf(slices, i.edition, tag), i.key)]],
                           items, i, done + {tag})
  {
    hide CountOf;
    if tag !in INHERITED_NAMES {
      var next := slices[i.edition := slices[i.edition][tag := Bump(SliceOf(slices, i.edition, tag), i.key)]];
      forall ed, t | t !in INHERITED_NAMES
        ensures SliceOf(next, ed, t) ==
                  if ed == i.edition && t in done + {tag} then Bump(CountOf(items, Tagged(ed, t)), i.key)
                  else CountOf(items, Tagged(ed, t))
      {
        assert SliceOf(next, ed, t) ==
                 if ed == i.edition && t == tag then Bump(SliceOf(slices, ed, t), i.key) else SliceOf(slices, ed, t);
      }
      forall ed, t | ed in next && t in next[ed]
        ensures t !in INHERITED_NAMES && Total(next[ed][t]) > 0
      {
        if ed == i.edition && t == tag {
          assert next[ed][t] == Bump(SliceOf(slices, i.edition, tag), i.key);
        } else {
          assert ed in slices && t in slices[ed] && next[ed][t] == slices[ed][t];
        }
      }
      assert SlicesPartly(next, items, i, done + {tag});
    }
  }

  lemma SlicesDone(slices: Slices, items: seq<Item>, i: Item)
    requires SlicesPartly(slices, items, i, i.tags)
    ensures SlicesHold(slices, items + [i])
  {
    hide CountOf, Bump;
    forall ed, tag | tag !in INHERITED_NAMES
      ensures SliceOf(slices, ed, tag) == CountOf(items + [i], Tagged(ed, tag))
    {
      CountNext(items, i, Tagged(ed, tag));
    }
  }

  lemma SlicesBegin(slices: Slices, items: seq<Item>, i: Item)
    requires SlicesHold(slices, items)
    ensures SlicesPartly(slices, items, i, {})
    ensures i.edition !in slices ==> SlicesPartly(slices[i.edition := map[]], items, i, {})
  {
    hide CountOf, Bump;
    if i.edition !in slices {
      forall ed, tag
        ensures SliceOf(slices[i.edition := map[]], ed, tag) == SliceOf(slices, ed, tag)
      {
      }
    }
  }

  /** Adding one item to the slices of its tags. */
  method AddToSlices(slices: Slices, i: Item, ghost items: seq<Item>) returns (next: Slices)
    requires SlicesHold(slices, items)
    ensures SlicesHold(next, items + [i])
  {
    hide *;
    SlicesBegin(slices, items, i);
    next := slices;
    if i.tags != {} {
      if i.edition !in next {
        next := next[i.edition := map[]];
      }
      var todo := i.tags;
      assert i.tags - todo == {};
      while todo != {}
        invariant todo <= i.tags && i.edition in next
        invariant SlicesPartly(next, items, i, i.tags - todo)
      {
        var tag :| tag in todo;
        SliceNext(next, items, i, i.tags - todo, tag);
        assert i.tags - (todo - {tag}) == i.tags - todo + {tag};
        todo := todo - {tag};
        if tag !in INHERITED_NAMES {
          next := next[i.edition := next[i.edition][tag := Bump(SliceOf(next, i.edition, tag), i.key)]];
        }
      }
      assert i.tags - todo == i.tags;
    }
    SlicesDone(next, items, i);
  }

  // ---- The loop over the records ----

  ghost function TaggedItems(items: seq<Item>): seq<Item> {
    if items == [] then []
    else
      var rest, last := TaggedItems(items[..|items| - 1]), items[|items| - 1];
      if last.tags != {} then rest + [last] else rest
  }

  /** How many items fall into an edition proper, as opposed to the proposals and the two unclassified buckets. */
  ghost function Official(items: seq<Item>): nat {
    if items == [] then 0
    else Official(items[..|items| - 1]) + if items[|items| - 1].edition > 0 then 1 else 0
  }

  /** Everything the loop computes. */
  datatype Tables = Tables(
    buckets: map<Edition, Counts>, slices: Slices, tests: seq<Item>, processed: nat, classified: nat, unclassified: nat)

  ghost predicate Holds(t: Tables, items: seq<Item>) {
    && BucketsHold(t.buckets, items) && SlicesHold(t.slices, items) && t.tests == TaggedItems(items)
    && t.processed == |items| && t.classified == Official(items) && t.unclassified == |items| - Official(items)
    && forall j :: 0 <= j < |items| ==> items[j].edition in EDITION_ORDER
  }

  lemma HoldsNext(t: Tables, items: seq<Item>, i: Item, next: Tables)
    requires Holds(t, items) && i.edition in EDITION_ORDER
    requires next.buckets == t.buckets[i.edition := Bump(t.buckets[i.edition], i.key)]
    requires SlicesHold(next.slices, items + [i])
    requires next.tests == if i.tags != {} then t.tests + [i] else t.tests
    requires next.processed == t.processed + 1
    requires next.classified == t.classified + if i.edition > 0 then 1 else 0
    requires next.unclassified == t.unclassified + if i.edition > 0 then 0 else 1
    ensures Holds(next, items + [i])
  {
    hide BucketsHold, SlicesHold, Bump;
    BucketsNext(t.buckets, items, i);
    assert (items + [i])[..|items|] == items;
  }

  lemma HoldsBefore(buckets: map<Edition, Counts>)
    requires buckets == map ed | ed in EDITION_ORDER :: Zero()
    ensures Holds(Tables(buckets, map[], [], 0, 0, 0), [])
  {
  }

  /** A record's item: its edition, its resolved status and its tags. */
  method ItemFor(r: Record, s: Setting) returns (i: Item)
    requires TableOk(s.table)
    ensures IsItem(r, s, i)
  {
    var key := ResolveStatusKey(r, s.hostFree);
    if r.proposal {
      return Item(PROPOSALS, key, {});
    }
    var fm := s.frontmatter(r.file);
    var edition := ClassifyEdition(fm, r.file, s.table);
    return Item(edition, key, TagsOf(fm));
  }

  lemma BucketIsThere(t: Tables, items: seq<Item>, ed: Edition)
    requires Holds(t, items) && ed in EDITION_ORDER
    ensures ed in t.buckets
  {
  }

  lemma ListedMeans(ed: Edition)
    requires ed in EDITION_ORDER
    ensures ed > 0 <==> !(ed == UNCLASSIFIED_LEGACY || ed == UNCLASSIFIED_UNTAGGED || ed == PROPOSALS)
  {
  }

  lemma SlicesOf(t: Tables, items: seq<Item>)
    requires Holds(t, items)
    ensures SlicesHold(t.slices, items)
  {
  }

  lemma NoItems(s: Setting)
    ensures AreItems([], s, [])
  {
  }

  // ---- The tables in terms of the rows ----

  /** The row belongs to a population: by its edition and, for a tag or a landing-page row, by its `features:` list. */
  ghost predicate IsIn(r: Record, s: Setting, p: Population) {
    && (if r.proposal then p.edition == -1 else Classifies(s.frontmatter(r.file), r.file, s.table, p.edition))
    && match p
       case InEdition(_) => true
       case Tagged(_, tag) => !r.proposal && tag in s.frontmatter(r.file).features
       case RowOf(_, tags) => !r.proposal && exists tag :: tag in tags && tag in s.frontmatter(r.file).features
  }

  /** How many rows with a file and a status belong to a population and are published under a heading. */
  ghost function NumberIn(rows: seq<Record>, s: Setting, p: Population, key: Key): nat {
    if rows == [] then 0
    else
      var last := rows[|rows| - 1];
      NumberIn(rows[..|rows| - 1], s, p, key) +
      if last.file != "" && last.status != "" && IsIn(last, s, p) && PublishedAs(last, s.hostFree, key) then 1 else 0
  }

  ghost function NumbersIn(rows: seq<Record>, s: Setting, p: Population): Counts {
    Counts(NumberIn(rows, s, p, Pass), NumberIn(rows, s, p, Fail), NumberIn(rows, s, p, Ce), NumberIn(rows, s, p, Skip))
  }

  lemma ItemBelongs(r: Record, s: Setting, i: Item, p: Population)
    requires IsItem(r, s, i)
    ensures Belongs(i, p) <==> IsIn(r, s, p)
  {
    hide Classifies;
    var fm := s.frontmatter(r.file);
    if !r.proposal {
      if Classifies(fm, r.file, s.table, p.edition) {
        EditionIsUnique(fm, r.file, s.table, p.edition, i.edition);
      }
      assert forall tag :: tag in TagsOf(fm) <==> tag in fm.features;
    }
    if p.RowOf? && !r.proposal {
      if p.tags * i.tags != {} {
        var tag :| tag in p.tags * i.tags;
        assert tag in p.tags && tag in fm.features;
      }
      if tag :| tag in p.tags && tag in fm.features {
        assert tag in p.tags * i.tags;
      }
    }
  }

  /** The counts of the items are the numbers of the rows. */
  lemma {:induction false} CountsAreNumbers(rows: seq<Record>, s: Setting, items: seq<Item>, p: Population)
    requires AreItems(rows, s, items)
    ensures CountOf(items, p) == NumbersIn(rows, s, p)
    decreases |rows|
  {
    if rows != [] {
      var m := |rows| - 1;
      var r := rows[m];
      if Skipped(r) {
        CountsAreNumbers(rows[..m], s, items, p);
      } else {
        var n := |items| - 1;
        CountsAreNumbers(rows[..m], s, items[..n], p);
        ItemBelongs(r, s, items[n], p);
        ResolveMeans(r, s.hostFree, Pass);
        ResolveMeans(r, s.hostFree, Fail);
        ResolveMeans(r, s.hostFree, Ce);
        ResolveMeans(r, s.hostFree, Skip);
        hide IsItem, IsIn, Belongs, PublishedAs, ResolveStatusKey;
        assert items[n].key == ResolveStatusKey(r, s.hostFree);
      }
    }
  }

  /** Every bucket and every slice holds the numbers of the rows it stands for. */
  ghost predicate Publishes(rows: seq<Record>, s: Setting, t: Tables) {
    && (forall ed :: ed in t.buckets <==> ed in EDITION_ORDER)
    && (forall ed :: ed in t.buckets ==> t.buckets[ed] == NumbersIn(rows, s, InEdition(ed)))
    && (forall ed, tag | tag !in INHERITED_NAMES :: SliceOf(t.slices, ed, tag) == NumbersIn(rows, s, Tagged(ed, tag)))
  }

  lemma TablesPublish(rows: seq<Record>, s: Setting, items: seq<Item>, t: Tables)
    requires AreItems(rows, s, items) && Holds(t, items)
    ensures Publishes(rows, s, t)
  {
    hide AreItems, NumbersIn, CountOf;
    forall p: Population
      ensures CountOf(items, p) == NumbersIn(rows, s, p)
    {
      CountsAreNumbers(rows, s, items, p);
    }
  }

  /** The tables count the processed ones of the rows, each in its own population. */
  ghost predicate Tabulates(rows: seq<Record>, s: Setting, t: Tables) {
    exists items :: AreItems(rows, s, items) && Holds(t, items)
  }

  /** The bucketing loop: every table counts its own population of the processed records. */
  method Bucket(rows: seq<Record>, s: Setting) returns (t: Tables)
    requires TableOk(s.table)
    ensures Tabulates(rows, s, t) && Publishes(rows, s, t)
  {
    hide *;
    ghost var items: seq<Item>;
    t := Tables(map ed | ed in EDITION_ORDER :: Zero(), map[], [], 0, 0, 0);
    HoldsBefore(t.buckets);
    items := [];
    NoItems(s);
    assert rows[..0] == [];
    for n := 0 to |rows|
      invariant AreItems(rows[..n], s, items) && Holds(t, items)
    {
      var r := rows[n];
      assert rows[..n + 1] == rows[..n] + [r];
      var i := ItemFor(r, s);
      ItemsNext(rows[..n], r, s, items, i);
      if !Skipped(r) {
        ItemIsListed(r, s, i);
        ListedMeans(i.edition);
        BucketIsThere(t, items, i.edition);
        SlicesOf(t, items);
        var slices := AddToSlices(t.slices, i, items);
        var unofficial := i.edition == UNCLASSIFIED_LEGACY || i.edition == UNCLASSIFIED_UNTAGGED || i.edition == PROPOSALS;
        var next := Tables(
          t.buckets[i.edition := Bump(t.buckets[i.edition], i.key)],
          slices,
          if i.tags != {} then t.tests + [i] else t.tests,
          t.processed + 1,
          if unofficial then t.classified else t.classified + 1,
          if unofficial then t.unclassified + 1 else t.unclassified);
        HoldsNext(t, items, i, next);
        t := next;
        items := items + [i];
      }
    }
    assert rows[..|rows|] == rows;
    TabulatesItems(rows, s, t, items);
    TablesPublish(rows, s, items, t);
  }

  lemma TabulatesItems(rows: seq<Record>, s: Setting, t: Tables, items: seq<Item>)
    requires AreItems(rows, s, items) && Holds(t, items)
    ensures Tabulates(rows, s, t)
  {
  }

  // ---- The checks that follow ----

  lemma SliceWithin(t: Tables, items: seq<Item>, ed: Edition, tag: string)
    requires Holds(t, items) && ed in t.buckets && ed in t.slices && tag in t.slices[ed]
    ensures var f, b := t.slices[ed][tag], t.buckets[ed];
            Total(f) <= Total(b) && f.pass <= b.pass && (b.pass == Total(b) ==> f.pass == Total(f))
  {
    assert SliceOf(t.slices, ed, tag) == CountOf(items, Tagged(ed, tag));
    PartOfEdition(items, Tagged(ed, tag));
    FullEditionFullPart(t.slices[ed][tag], t.buckets[ed]);
  }

  /** The published totals added up; a missing bucket is not published. */
  ghost function Accounted(order: seq<Edition>, buckets: map<Edition, Counts>): nat {
    if order == [] then 0
    else
      var ed := order[|order| - 1];
      Accounted(order[..|order| - 1], buckets) + if ed in buckets then Total(buckets[ed]) else 0
  }

  /** The comparison of the published totals with the number of processed records, for any tables. */
  method CheckTotals(t: Tables) returns (threw: bool)
    ensures threw <==> Accounted(EDITION_ORDER, t.buckets) != t.processed
  {
    hide Total;
    var accounted := 0;
    assert EDITION_ORDER[..0] == [];
    for n := 0 to |EDITION_ORDER|
      invariant accounted == Accounted(EDITION_ORDER[..n], t.buckets)
    {
      assert EDITION_ORDER[..n + 1][..n] == EDITION_ORDER[..n];
      var ed := EDITION_ORDER[n];
      if ed in t.buckets && Total(t.buckets[ed]) != 0 {
        accounted := accounted + Total(t.buckets[ed]);
      }
    }
    assert EDITION_ORDER[..|EDITION_ORDER|] == EDITION_ORDER;
    threw := accounted != t.processed;
  }

  /** A slice that is no part of its edition: larger, passing more, or short of full where the edition is full. */
  ghost predicate Broken(f: Counts, b: Counts) {
    Total(f) > Total(b) || f.pass > b.pass || (b.pass == Total(b) && f.pass != Total(f))
  }

  /** A published slice is broken. */
  ghost predicate BrokenAt(t: Tables, ed: Edition, tag: string) {
    && ed in t.buckets && Total(t.buckets[ed]) > 0
    && ed in t.slices && tag in t.slices[ed] && Total(t.slices[ed][tag]) > 0
    && Broken(t.slices[ed][tag], t.buckets[ed])
  }

  /** The checks of the published slices against their editions, for any tables. */
  method CheckSlices(t: Tables) returns (threw: bool)
    ensures threw <==> exists ed, tag :: ed in EDITION_ORDER && BrokenAt(t, ed, tag)
  {
    hide Total;
    for n := 0 to |EDITION_ORDER|
      invariant forall m, tag :: 0 <= m < n ==> !BrokenAt(t, EDITION_ORDER[m], tag)
    {
      var bad := CheckEdition(t, EDITION_ORDER[n]);
      if bad {
        return true;
      }
    }
    return false;
  }

  /** The checks of one edition. */
  method CheckEdition(t: Tables, ed: Edition) returns (threw: bool)
    ensures threw <==> exists tag :: BrokenAt(t, ed, tag)
  {
    hide Total;
    if ed !in t.buckets || Total(t.buckets[ed]) == 0 || ed !in t.slices {
      return false;
    }
    var b := t.buckets[ed];
    var todo := t.slices[ed].Keys;
    while todo != {}
      invariant todo <= t.slices[ed].Keys
      invariant forall tag :: tag in t.slices[ed] && tag !in todo ==> !BrokenAt(t, ed, tag)
    {
      var tag :| tag in todo;
      todo := todo - {tag};
      var f := t.slices[ed][tag];
      if Total(f) > 0 && (Total(f) > Total(b) || f.pass > b.pass || (b.pass == Total(b) && f.pass != Total(f))) {
        assert BrokenAt(t, ed, tag);
        return true;
      }
    }
    return false;
  }

  lemma {:induction false} AccountedIsSum(order: seq<Edition>, t: Tables, items: seq<Item>)
    requires Holds(t, items)
    ensures Accounted(order, t.buckets) == SumOfTotals(order, items)
    decreases |order|
  {
    hide Holds;
    if order != [] {
      AccountedIsSum(order[..|order| - 1], t, items);
      BucketMeans(t, items, order[|order| - 1]);
    }
  }

  /** On the tables the loop computes, neither check ever fails. */
  lemma ChecksNeverFail(t: Tables, items: seq<Item>)
    requires Holds(t, items)
    ensures Accounted(EDITION_ORDER, t.buckets) == t.processed
    ensures forall ed, tag :: !BrokenAt(t, ed, tag)
  {
    AccountedIsSum(EDITION_ORDER, t, items);
    OrderIsDistinct();
    EditionsListed(t, items);
    TotalsAddUp(EDITION_ORDER, items);
    hide Holds, Total;
    forall ed, tag
      ensures !BrokenAt(t, ed, tag)
    {
      if ed in t.buckets && ed in t.slices && tag in t.slices[ed] {
        SliceWithin(t, items, ed, tag);
      }
    }
  }

  lemma EditionsListed(t: Tables, items: seq<Item>)
    requires Holds(t, items)
    ensures t.processed == |items| && forall j :: 0 <= j < |items| ==> items[j].edition in EDITION_ORDER
  {
  }

  // ---- Landing-page rows ----

  /** The rows that are counted: those with a positive year and at least one tag. */
  predicate Active(tags: map<string, seq<string>>, years: map<string, Edition>, name: string) {
    name in tags && name in years && years[name] > 0 && tags[name] != []
  }

  function TagSet(tags: seq<string>): set<string> {
    set i | 0 <= i < |tags| :: tags[i]
  }

  ghost function RowCount(tests: seq<Item>, tags: map<string, seq<string>>, years: map<string, Edition>, name: string): Counts
    requires name in tags
  {
    if Active(tags, years, name) then CountOf(tests, RowOf(years[name], TagSet(tags[name]))) else Zero()
  }

  ghost predicate RowsHold(acc: map<string, Counts>, tests: seq<Item>, tags: map<string, seq<string>>, years: map<string, Edition>) {
    acc.Keys == tags.Keys && forall name :: name in acc ==> acc[name] == RowCount(tests, tags, years, name)
  }

  /** The rows with the names of `done` counted for the test at hand. */
  ghost predicate RowsPartly(acc: map<string, Counts>, tests: seq<Item>, t: Item, tags: map<string, seq<string>>,
                             years: map<string, Edition>, done: set<string>) {
    && acc.Keys == tags.Keys
    && forall name :: name in acc ==> acc[name] == RowCount(if name in done then tests + [t] else tests, tags, years, name)
  }

  lemma RowNext(acc: map<string, Counts>, tests: seq<Item>, t: Item, tags: map<string, seq<string>>, years: map<string, Edition>,
                done: set<string>, name: string)
    requires RowsPartly(acc, tests, t, tags, years, done) && name !in done && Active(tags, years, name) && years[name] == t.edition
    ensures RowsPartly(if TagSet(tags[name]) * t.tags != {} then acc[name := Bump(acc[name], t.key)] else acc,
                       tests, t, tags, years, done + {name})
  {
    hide Bump, CountOf, TagSet;
    CountNext(tests, t, RowOf(years[name], TagSet(tags[name])));
  }

  lemma RowsDone(acc: map<string, Counts>, tests: seq<Item>, t: Item, tags: map<string, seq<string>>, years: map<string, Edition>,
                 done: set<string>)
    requires RowsPartly(acc, tests, t, tags, years, done)
    requires forall name :: Active(tags, years, name) && years[name] == t.edition && t.tags != {} ==> name in done
    ensures RowsHold(acc, tests + [t], tags, years)
  {
    hide Bump, CountOf, TagSet;
    forall name | name in acc && name !in done
      ensures acc[name] == RowCount(tests + [t], tags, years, name)
    {
      if Active(tags, years, name) {
        CountNext(tests, t, RowOf(years[name], TagSet(tags[name])));
      }
    }
  }

  /** `computeFeatureRowCounts`: each row counts the tests of its edition that carry any of its tags, each test once. */
  method FeatureRows(tests: seq<Item>, tags: map<string, seq<string>>, years: map<string, Edition>) returns (acc: map<string, Counts>)
    ensures RowsHold(acc, tests, tags, years)
  {
    acc := map name | name in tags :: Zero();
    hide Bump, TagSet;
    for n := 0 to |tests|
      invariant RowsHold(acc, tests[..n], tags, years)
    {
      var t := tests[n];
      assert tests[..n + 1] == tests[..n] + [t];
      var candidates := set name | name in tags && Active(tags, years, name) && years[name] == t.edition;
      if t.tags == {} {
        candidates := {};
      }
      acc := CountTest(acc, t, candidates, tags, years, tests[..n]);
    }
    assert tests[..|tests|] == tests;
  }

  /** One test, counted in every candidate row that shares a tag with it. */
  method CountTest(start: map<string, Counts>, t: Item, candidates: set<string>, tags: map<string, seq<string>>,
                   years: map<string, Edition>, ghost tests: seq<Item>)
    returns (acc: map<string, Counts>)
    requires RowsHold(start, tests, tags, years)
    requires forall name :: name in candidates ==> Active(tags, years, name) && years[name] == t.edition
    requires t.tags != {} ==> forall name :: Active(tags, years, name) && years[name] == t.edition ==> name in candidates
    ensures RowsHold(acc, tests + [t], tags, years)
  {
    acc := start;
    RowsBegin(acc, tests, t, tags, years);
    hide RowsPartly, RowsHold, Bump, TagSet;
    var todo := candidates;
    assert candidates - todo == {};
    while todo != {}
      invariant todo <= candidates
      invariant RowsPartly(acc, tests, t, tags, years, candidates - todo)
    {
      var name :| name in todo;
      RowNext(acc, tests, t, tags, years, candidates - todo, name);
      RowKeys(acc, tests, t, tags, years, candidates - todo);
      assert candidates - (todo - {name}) == candidates - todo + {name};
      todo := todo - {name};
      if TagSet(tags[name]) * t.tags != {} {
        acc := acc[name := Bump(acc[name], t.key)];
      }
    }
    assert candidates - todo == candidates;
    RowsDone(acc, tests, t, tags, years, candidates);
  }

  lemma RowsBegin(acc: map<string, Counts>, tests: seq<Item>, t: Item, tags: map<string, seq<string>>, years: map<string, Edition>)
    requires RowsHold(acc, tests, tags, years)
    ensures RowsPartly(acc, tests, t, tags, years, {})
  {
    hide RowCount;
  }

  lemma RowKeys(acc: map<string, Counts>, tests: seq<Item>, t: Item, tags: map<string, seq<string>>, years: map<string, Edition>,
                done: set<string>)
    requires RowsPartly(acc, tests, t, tags, years, done)
    ensures acc.Keys == tags.Keys
  {
  }

  lemma {:induction false} UntaggedDoNotMatter(items: seq<Item>, p: Population)
    requires p.RowOf?
    ensures CountOf(TaggedItems(items), p) == CountOf(items, p)
  {
    if items != [] {
      var m := |items| - 1;
      UntaggedDoNotMatter(items[..m], p);
      if items[m].tags != {} {
        CountNext(TaggedItems(items[..m]), items[m], p);
      } else {
        assert p.tags * items[m].tags == {};
      }
    }
  }

  lemma {:induction false} NoneInEdition(items: seq<Item>, ed: Edition)
    requires forall j :: 0 <= j < |items| ==> items[j].edition != ed
    ensures CountOf(items, InEdition(ed)) == Zero()
  {
    if items != [] {
      NoneInEdition(items[..|items| - 1], ed);
    }
  }

  /** Every row shown under an edition is bounded by that edition's headline, and a 100% edition has only 100% rows; a row
      under an edition that has no bucket is empty. */
  lemma RowsReconcile(t: Tables, items: seq<Item>, acc: map<string, Counts>, tags: map<string, seq<string>>,
                      years: map<string, Edition>, name: string)
    requires Holds(t, items) && RowsHold(acc, t.tests, tags, years) && Active(tags, years, name)
    ensures years[name] in t.buckets ==>
              var row, b := acc[name], t.buckets[years[name]];
              Total(row) <= Total(b) && row.pass <= b.pass && (b.pass == Total(b) ==> row.pass == Total(row))
    ensures years[name] !in t.buckets ==> acc[name] == Zero()
  {
    hide Holds, RowsHold, CountOf, TagSet;
    var p := RowOf(years[name], TagSet(tags[name]));
    RowMeans(t, items, acc, tags, years, name);
    BucketMeans(t, items, years[name]);
    PartOfEdition(items, p);
    FullEditionFullPart(acc[name], CountOf(items, InEdition(years[name])));
    NothingWithinNothing(acc[name], CountOf(items, InEdition(years[name])));
    hide Total, Within;
  }

  lemma NothingWithinNothing(a: Counts, b: Counts)
    requires Within(a, b)
    ensures b == Zero() ==> a == Zero()
  {
  }

  lemma RowMeans(t: Tables, items: seq<Item>, acc: map<string, Counts>, tags: map<string, seq<string>>,
                 years: map<string, Edition>, name: string)
    requires Holds(t, items) && RowsHold(acc, t.tests, tags, years) && Active(tags, years, name)
    ensures name in acc && acc[name] == CountOf(items, RowOf(years[name], TagSet(tags[name])))
  {
    hide BucketsHold, SlicesHold, TagSet, CountOf;
    UntaggedDoNotMatter(items, RowOf(years[name], TagSet(tags[name])));
  }

  lemma BucketMeans(t: Tables, items: seq<Item>, ed: Edition)
    requires Holds(t, items)
    ensures CountOf(items, InEdition(ed)) == if ed in t.buckets then t.buckets[ed] else Zero()
  {
    hide SlicesHold, CountOf;
    if ed !in t.buckets {
      NoneInEdition(items, ed);
    }
  }

  /** A landing-page row with a year and tags holds the numbers of the rows of that year that list any of its tags; the
      others are empty. */
  lemma RowsPublish(rows: seq<Record>, s: Setting, t: Tables, items: seq<Item>, acc: map<string, Counts>,
                    tags: map<string, seq<string>>, years: map<string, Edition>, name: string)
    requires AreItems(rows, s, items) && Holds(t, items) && RowsHold(acc, t.tests, tags, years) && name in tags
    ensures name in acc
    ensures if name in years && years[name] > 0 && tags[name] != []
            then acc[name] == NumbersIn(rows, s, RowOf(years[name], set tag | tag in tags[name]))
            else acc[name] == Counts(0, 0, 0, 0)
  {
    if Active(tags, years, name) {
      RowMeans(t, items, acc, tags, years, name);
      CountsAreNumbers(rows, s, items, RowOf(years[name], TagSet(tags[name])));
      assert TagSet(tags[name]) == set tag | tag in tags[name];
    }
    hide Holds, AreItems, CountOf, NumbersIn;
  }

  // ---- From the raw rows to the tables ----

  /** The kept rows as a list, in whatever order. */
  ghost predicate ListsKept(kept: map<string, Record>, rows: seq<Record>, files: set<string>) {
    && |rows| == |files|
    && (forall i :: 0 <= i < |rows| ==> rows[i].file in files && rows[i].file in kept && rows[i] == kept[rows[i].file])
    && (forall i, j :: 0 <= i < j < |rows| ==> rows[i].file != rows[j].file)
  }

  ghost predicate OwnFiles(kept: map<string, Record>) {
    forall f :: f in kept ==> kept[f].file == f
  }

  lemma NoneListed(kept: map<string, Record>)
    ensures ListsKept(kept, [], {})
  {
  }

  lemma KeptNextFile(kept: map<string, Record>, rows: seq<Record>, files: set<string>, f: string)
    requires ListsKept(kept, rows, files) && f !in files && f in kept && OwnFiles(kept)
    ensures ListsKept(kept, rows + [kept[f]], files + {f})
  {
  }

  method ListKept(kept: map<string, Record>) returns (rows: seq<Record>)
    requires OwnFiles(kept)
    ensures ListsKept(kept, rows, kept.Keys)
  {
    NoneListed(kept);
    hide *;
    rows := [];
    var todo := kept.Keys;
    ghost var done: set<string> := {};
    while todo != {}
      invariant todo !! done && todo + done == kept.Keys
      invariant ListsKept(kept, rows, done)
    {
      var f :| f in todo;
      KeptNextFile(kept, rows, done, f);
      rows := rows + [kept[f]];
      todo, done := todo - {f}, done + {f};
    }
    assert done == kept.Keys;
  }

  lemma KeptHaveTheirFile(raw: seq<Record>, kept: map<string, Record>)
    requires Deduped(raw, kept)
    ensures OwnFiles(kept)
  {
    forall f | f in kept
      ensures kept[f].file == f
    {
      assert IsKept(raw, f, kept[f]);
    }
  }

  /** `rows` holds one row per file of `raw`: the one deduplication keeps. */
  ghost predicate OnePerFile(raw: seq<Record>, rows: seq<Record>) {
    exists kept :: Deduped(raw, kept) && ListsKept(kept, rows, kept.Keys)
  }

  lemma OnePerFileBy(raw: seq<Record>, kept: map<string, Record>, rows: seq<Record>)
    requires Deduped(raw, kept) && ListsKept(kept, rows, kept.Keys)
    ensures OnePerFile(raw, rows)
  {
  }

  /** The whole computation: for every list of rows, no check fails, and the tables count one row per file. */
  method Generate(raw: seq<Record>, s: Setting) returns (t: Tables, threw: bool)
    requires TableOk(s.table)
    ensures !threw && exists rows :: OnePerFile(raw, rows) && Tabulates(rows, s, t) && Publishes(rows, s, t)
  {
    hide *;
    var kept, dropped := Dedup(raw);
    KeptHaveTheirFile(raw, kept);
    var rows := ListKept(kept);
    OnePerFileBy(raw, kept, rows);
    t := Bucket(rows, s);
    ghost var items := SomeItems(rows, s, t);
    ChecksNeverFail(t, items);
    threw := CheckTotals(t);
    if !threw {
      threw := CheckSlices(t);
    }
  }

  lemma SomeItems(rows: seq<Record>, s: Setting, t: Tables) returns (items: seq<Item>)
    requires Tabulates(rows, s, t)
    ensures AreItems(rows, s, items) && Holds(t, items)
  {
    items :| AreItems(rows, s, items) && Holds(t, items);
  }
}
