/** The two-pass scan of scripts/test262-linked-harness-inventory.ts as functions of its state, and the proof that it
    computes the free names of the tree. A node is identified by its position, the child indices leading to it. */
module ScopeScan {
  import opened Wrappers
  import opened ScopeTree

  type Path = seq<nat>

  datatype Scope = Scope(path: Path, holdsVars: bool)

  /** `declarations` and `scopes` of the first pass. */
  datatype State = State(decls: map<Path, set<string>>, scopes: seq<Scope>)

  function Current(scopes: seq<Scope>): Option<Path> {
    if scopes == [] then None else Some(scopes[|scopes| - 1].path)
  }

  /** `nearestFunctionOrSource`. */
  function Nearest(scopes: seq<Scope>): Option<Path> {
    if scopes == [] then None
    else if scopes[|scopes| - 1].holdsVars then Some(scopes[|scopes| - 1].path)
    else Nearest(scopes[..|scopes| - 1])
  }

  /** `addBinding`, which does nothing without a scope. */
  function Bind(decls: map<Path, set<string>>, at: Option<Path>, names: set<string>): map<Path, set<string>> {
    if at.Some? && at.value in decls then decls[at.value := decls[at.value] + names] else decls
  }

  /** Declarations bound before the node opens a scope. */
  function NameBefore(k: Kind): set<string> {
    if k.FunctionDeclaration? || k.ClassDeclaration? then OptionalNames(k.name) else {}
  }

  /** Declarations bound after it has: the name of a function or class expression, parameters, a catch variable. */
  function NamesAfter(k: Kind): set<string> {
    (if k.FunctionExpression? || k.ClassExpression? then OptionalNames(k.name) else {}) +
    (if IsFunctionLike(k) then NamesOfAll(k.parameters) else {}) +
    (if k.CatchClause? then OptionalNames(k.variable) else {})
  }

  predicate IsBlockScoped(parent: Kind) {
    parent.VariableDeclarationList? && parent.blockScoped
  }

  function Open(k: Kind, path: Path, st: State): State {
    if OpensScope(k) then State(st.decls[path := {}], st.scopes + [Scope(path, HoldsVars(k))]) else st
  }

  /** What the first pass does at a node before its children. */
  function Enter(n: Node, parent: Kind, path: Path, st: State): State {
    var k := n.kind;
    var inside := Open(k, path, st.(decls := Bind(st.decls, Current(st.scopes), NameBefore(k))));
    var bound := Bind(inside.decls, Current(inside.scopes), NamesAfter(k));
    if k.VariableDeclaration? then
      inside.(decls := Bind(bound,
                            if IsBlockScoped(parent) then Current(inside.scopes) else Nearest(inside.scopes),
                            Names(k.binding)))
    else inside.(decls := bound)
  }

  function Visit(n: Node, parent: Kind, path: Path, st: State): State
    decreases n, 1
  {
    var inner := VisitAll(n.children, n.kind, path, 0, Enter(n, parent, path, st));
    if OpensScope(n.kind) && inner.scopes != [] then inner.(scopes := inner.scopes[..|inner.scopes| - 1]) else inner
  }

  function VisitAll(cs: seq<Node>, parent: Kind, path: Path, first: nat, st: State): State
    decreases cs, 0
  {
    if cs == [] then st
    else VisitAll(cs[1..], parent, path, first + 1, Visit(cs[0], parent, path + [first], st))
  }

  // ---- What the first pass leaves behind ----

  /** Every scope on the stack has an entry. */
  ghost predicate Stacked(st: State) {
    forall i :: 0 <= i < |st.scopes| ==> st.scopes[i].path in st.decls
  }

  /** The current scope gained `lex`, the nearest function or file `vars`, and no other entry changed. */
  ghost predicate Gained(st: State, st': State, lex: set<string>, vars: set<string>) {
    && st'.scopes == st.scopes
    && forall q :: q in st.decls ==> q in st'.decls && st'.decls[q] == GainedAt(st, q, lex, vars)
  }

  ghost function GainedAt(st: State, q: Path, lex: set<string>, vars: set<string>): set<string>
    requires q in st.decls
  {
    st.decls[q] + (if Current(st.scopes) == Some(q) then lex else {}) +
    (if Nearest(st.scopes) == Some(q) then vars else {})
  }

  /** Every scope of the subtree has exactly its names as entry. */
  ghost predicate Agrees(n: Node, path: Path, decls: map<Path, set<string>>)
    decreases n, 1
  {
    && (OpensScope(n.kind) ==> path in decls && decls[path] == ScopeNames(n))
    && AgreesAll(n.children, path, 0, decls)
  }

  ghost predicate AgreesAll(cs: seq<Node>, path: Path, first: nat, decls: map<Path, set<string>>)
    decreases cs, 0
  {
    cs != [] ==> Agrees(cs[0], path + [first], decls) && AgreesAll(cs[1..], path, first + 1, decls)
  }

  /** No entry lies at or below `path`. */
  ghost predicate Untouched(decls: map<Path, set<string>>, path: Path) {
    forall q :: q in decls ==> !(path <= q)
  }

  /** No entry lies at or below child `first` of `path` or a later one. */
  ghost predicate UntouchedFrom(decls: map<Path, set<string>>, path: Path, first: nat) {
    forall q :: q in decls ==> !(path <= q && |q| > |path| && q[|path|] >= first)
  }

  lemma ChildPath(path: Path, i: nat, q: Path)
    ensures path + [i] <= q <==> path <= q && |q| > |path| && q[|path|] == i
  {
    if path <= q && |q| > |path| && q[|path|] == i {
      assert q[..|path| + 1] == q[..|path|] + [i];
    }
    if path + [i] <= q {
      assert q[..|path| + 1][..|path|] == q[..|path|];
      assert q[..|path| + 1][|path|] == q[|path|];
    }
  }

  lemma {:induction false} NearestIsStacked(scopes: seq<Scope>)
    ensures Nearest(scopes).Some? ==> exists i :: 0 <= i < |scopes| && scopes[i].path == Nearest(scopes).value
  {
    if scopes != [] && !scopes[|scopes| - 1].holdsVars {
      NearestIsStacked(scopes[..|scopes| - 1]);
    }
  }

  lemma {:induction false} AgreesFrame(n: Node, path: Path, d: map<Path, set<string>>, d': map<Path, set<string>>)
    requires Agrees(n, path, d)
    requires forall q :: q in d && path <= q ==> q in d' && d'[q] == d[q]
    ensures Agrees(n, path, d')
    decreases n, 1
  {
    AgreesFrameAll(n.children, path, 0, d, d');
  }

  lemma {:induction false} AgreesFrameAll(cs: seq<Node>, path: Path, first: nat, d: map<Path, set<string>>,
                                          d': map<Path, set<string>>)
    requires AgreesAll(cs, path, first, d)
    requires forall q :: q in d && path <= q && |q| > |path| ==> q in d' && d'[q] == d[q]
    ensures AgreesAll(cs, path, first, d')
    decreases cs, 0
  {
    if cs != [] {
      forall q | q in d && path + [first] <= q ensures q in d' && d'[q] == d[q] {
        ChildPath(path, first, q);
      }
      AgreesFrame(cs[0], path + [first], d, d');
      AgreesFrameAll(cs[1..], path, first + 1, d, d');
    }
  }

  /** Before the children of a node that opens no scope. */
  lemma EnterPlain(n: Node, parent: Kind, path: Path, st: State)
    requires Stacked(st) && !OpensScope(n.kind)
    ensures var st' := Enter(n, parent, path, st);
            && Gained(st, st', BoundAround(n.kind, parent), Hoisted(n.kind, parent))
            && st'.decls.Keys == st.decls.Keys
  {
    NearestIsStacked(st.scopes);
  }

  /** Before the children of a node that opens a scope: it has an entry with what the node itself binds inside. */
  lemma EnterScope(n: Node, parent: Kind, path: Path, st: State)
    requires Stacked(st) && OpensScope(n.kind) && path !in st.decls
    ensures var st' := Enter(n, parent, path, st);
            && st'.scopes == st.scopes + [Scope(path, HoldsVars(n.kind))]
            && st'.decls.Keys == st.decls.Keys + {path}
            && st'.decls[path] == BoundInside(n.kind)
            && forall q :: q in st.decls ==> st'.decls[q] == GainedAt(st, q, BoundAround(n.kind, parent), {})
  {
  }

  lemma {:induction false} VisitMeans(n: Node, parent: Kind, path: Path, st: State)
    requires Stacked(st) && Untouched(st.decls, path)
    ensures var st' := Visit(n, parent, path, st);
            && Gained(st, st', Lexical(n, parent), Vars(n, parent))
            && (forall q :: q in st'.decls ==> q in st.decls || path <= q)
            && Agrees(n, path, st'.decls)
    decreases n, 1
  {
    if OpensScope(n.kind) {
      VisitScope(n, parent, path, st);
    } else {
      var e := Enter(n, parent, path, st);
      EnterPlain(n, parent, path, st);
      VisitAllMeans(n.children, n.kind, path, 0, e);
      GainTwice(st, e, Visit(n, parent, path, st), BoundAround(n.kind, parent), Hoisted(n.kind, parent),
                LexicalAll(n.children, n.kind), VarsAll(n.children, n.kind));
    }
  }

  lemma GainTwice(st: State, mid: State, end: State, lex: set<string>, vars: set<string>, lex': set<string>, vars': set<string>)
    requires Gained(st, mid, lex, vars) && Gained(mid, end, lex', vars')
    ensures Gained(st, end, lex + lex', vars + vars')
  {
    forall q | q in st.decls ensures q in end.decls && end.decls[q] == GainedAt(st, q, lex + lex', vars + vars') {
      assert mid.decls[q] == GainedAt(st, q, lex, vars);
      assert end.decls[q] == GainedAt(mid, q, lex', vars');
    }
  }

  lemma {:induction false} VisitScope(n: Node, parent: Kind, path: Path, st: State)
    requires Stacked(st) && Untouched(st.decls, path) && OpensScope(n.kind)
    ensures var st' := Visit(n, parent, path, st);
            && Gained(st, st', Lexical(n, parent), Vars(n, parent))
            && (forall q :: q in st'.decls ==> q in st.decls || path <= q)
            && Agrees(n, path, st'.decls)
    decreases n, 0
  {
    hide Enter, BoundAround, BoundInside, Lexical, Vars, LexicalAll, VarsAll, ScopeNames, Nearest, Current;
    var e := Enter(n, parent, path, st);
    assert path !in st.decls;
    EnterScope(n, parent, path, st);
    VisitAllMeans(n.children, n.kind, path, 0, e);
    var f := VisitAll(n.children, n.kind, path, 0, e);
    assert e.scopes[..|e.scopes| - 1] == st.scopes;
    assert Visit(n, parent, path, st) == f.(scopes := st.scopes);
    CloseScope(n, parent, path, st, e, f);
  }

  lemma CloseScope(n: Node, parent: Kind, path: Path, st: State, e: State, f: State)
    requires Stacked(st) && path !in st.decls && OpensScope(n.kind)
    requires e.scopes == st.scopes + [Scope(path, HoldsVars(n.kind))] && path in e.decls
    requires e.decls[path] == BoundInside(n.kind)
    requires forall q :: q in st.decls ==> q in e.decls && e.decls[q] == GainedAt(st, q, BoundAround(n.kind, parent), {})
    requires Gained(e, f, LexicalAll(n.children, n.kind), VarsAll(n.children, n.kind))
    ensures path in f.decls && f.decls[path] == ScopeNames(n)
    ensures Gained(st, f.(scopes := st.scopes), Lexical(n, parent), Vars(n, parent))
  {
    hide VarsAll, LexicalAll, BoundAround, Hoisted, Lexical, Vars, BoundInside, Nearest, Current;
    PushScope(st.scopes, path, HoldsVars(n.kind));
    ScopeGives(n, parent);
    var lex, vars := LexicalAll(n.children, n.kind), VarsAll(n.children, n.kind);
    assert f.decls[path] == GainedAt(e, path, lex, vars);
    forall q | q in st.decls
      ensures q in f.decls && f.decls[q] == GainedAt(st, q, Lexical(n, parent), Vars(n, parent))
    {
      assert f.decls[q] == GainedAt(e, q, lex, vars);
    }
    NearestNotHere(st, path);
  }

  lemma PushScope(scopes: seq<Scope>, path: Path, holdsVars: bool)
    ensures Current(scopes + [Scope(path, holdsVars)]) == Some(path)
    ensures Nearest(scopes + [Scope(path, holdsVars)]) == if holdsVars then Some(path) else Nearest(scopes)
  {
    assert (scopes + [Scope(path, holdsVars)])[..|scopes|] == scopes;
  }

  lemma NearestNotHere(st: State, path: Path)
    requires Stacked(st) && path !in st.decls
    ensures Nearest(st.scopes) != Some(path)
  {
    NearestIsStacked(st.scopes);
  }

  /** A node that opens a scope gives its surroundings only its own name, and `var`s only if it does not hold them. */
  lemma ScopeGives(n: Node, parent: Kind)
    requires OpensScope(n.kind)
    ensures Lexical(n, parent) == BoundAround(n.kind, parent)
    ensures Vars(n, parent) == if HoldsVars(n.kind) then {} else VarsAll(n.children, n.kind)
  {
  }

  lemma {:induction false} VisitAllMeans(cs: seq<Node>, parent: Kind, path: Path, first: nat, st: State)
    requires Stacked(st) && UntouchedFrom(st.decls, path, first)
    ensures var st' := VisitAll(cs, parent, path, first, st);
            && Gained(st, st', LexicalAll(cs, parent), VarsAll(cs, parent))
            && (forall q :: q in st'.decls ==> q in st.decls || (path <= q && |q| > |path|))
            && AgreesAll(cs, path, first, st'.decls)
    decreases cs, 0
  {
    if cs == [] {
      NothingGained(st);
    } else {
      hide Gained, Agrees, Untouched, UntouchedFrom, Stacked, Visit, Lexical, Vars;
      var mid := Visit(cs[0], parent, path + [first], st);
      ChildUntouched(st.decls, path, first);
      VisitMeans(cs[0], parent, path + [first], st);
      AfterFirstChild(st, mid, path, first, Lexical(cs[0], parent), Vars(cs[0], parent));
      var end := VisitAll(cs[1..], parent, path, first + 1, mid);
      VisitAllMeans(cs[1..], parent, path, first + 1, mid);
      GainTwice(st, mid, end, Lexical(cs[0], parent), Vars(cs[0], parent),
                LexicalAll(cs[1..], parent), VarsAll(cs[1..], parent));
      LaterSiblingsKeep(cs[0], path + [first], st, mid, end, LexicalAll(cs[1..], parent), VarsAll(cs[1..], parent));
    }
  }

  lemma NothingGained(st: State)
    ensures Gained(st, st, {}, {})
  {
  }

  lemma ChildUntouched(decls: map<Path, set<string>>, path: Path, first: nat)
    requires UntouchedFrom(decls, path, first)
    ensures Untouched(decls, path + [first])
  {
    forall q | q in decls ensures !(path + [first] <= q) {
      ChildPath(path, first, q);
    }
  }

  /** What the visit of one child leaves for the next. */
  lemma AfterFirstChild(st: State, mid: State, path: Path, first: nat, lex: set<string>, vars: set<string>)
    requires Stacked(st) && UntouchedFrom(st.decls, path, first) && Gained(st, mid, lex, vars)
    requires forall q :: q in mid.decls ==> q in st.decls || path + [first] <= q
    ensures Stacked(mid) && mid.scopes == st.scopes && UntouchedFrom(mid.decls, path, first + 1)
    ensures forall q :: q in mid.decls ==> q in st.decls || (path <= q && |q| > |path|)
  {
    forall q | q in mid.decls ensures q in st.decls || (path <= q && |q| > |path| && q[|path|] == first) {
      ChildPath(path, first, q);
    }
  }

  /** Later siblings leave the entries of an earlier subtree alone. */
  lemma LaterSiblingsKeep(n: Node, at: Path, st: State, mid: State, end: State, lex: set<string>, vars: set<string>)
    requires Stacked(st) && Untouched(st.decls, at) && mid.scopes == st.scopes
    requires Agrees(n, at, mid.decls) && Gained(mid, end, lex, vars)
    ensures Agrees(n, at, end.decls)
  {
    NearestIsStacked(st.scopes);
    forall q | q in mid.decls && at <= q ensures q in end.decls && end.decls[q] == mid.decls[q] {
      assert q !in st.decls;
      assert end.decls[q] == GainedAt(mid, q, lex, vars);
    }
    AgreesFrame(n, at, mid.decls, end.decls);
  }

  // ---- The second pass ----

  function Shadowed(scopes: seq<Path>, decls: map<Path, set<string>>, name: string): bool {
    exists i :: 0 <= i < |scopes| && scopes[i] in decls && name in decls[scopes[i]]
  }

  function Collect(n: Node, parent: Kind, path: Path, scopes: seq<Path>, decls: map<Path, set<string>>,
                   candidates: set<string>, consumed: set<string>): set<string>
    decreases n, 1
  {
    var inner := if OpensScope(n.kind) then scopes + [path] else scopes;
    var here := if n.kind.Identifier? && n.kind.text in candidates && !Shadowed(inner, decls, n.kind.text) &&
                   !IsDeclarationName(parent, n.role)
                then consumed + {n.kind.text} else consumed;
    CollectAll(n.children, n.kind, path, 0, inner, decls, candidates, here)
  }

  function CollectAll(cs: seq<Node>, parent: Kind, path: Path, first: nat, scopes: seq<Path>,
                      decls: map<Path, set<string>>, candidates: set<string>, consumed: set<string>): set<string>
    decreases cs, 0
  {
    if cs == [] then consumed
    else
      CollectAll(cs[1..], parent, path, first + 1, scopes, decls, candidates,
                 Collect(cs[0], parent, path + [first], scopes, decls, candidates, consumed))
  }

  /** The candidates among `names` that no scope on the stack declares. */
  ghost function Visible(names: set<string>, scopes: seq<Path>, decls: map<Path, set<string>>, candidates: set<string>): set<string> {
    set x | x in names && x in candidates && !Shadowed(scopes, decls, x)
  }

  lemma ShadowedByOne(scopes: seq<Path>, p: Path, decls: map<Path, set<string>>, x: string)
    requires p in decls
    ensures Shadowed(scopes + [p], decls, x) <==> Shadowed(scopes, decls, x) || x in decls[p]
  {
    var all := scopes + [p];
    if Shadowed(scopes, decls, x) {
      var i :| 0 <= i < |scopes| && scopes[i] in decls && x in decls[scopes[i]];
      assert all[i] == scopes[i];
    }
    if x in decls[p] {
      assert all[|scopes|] == p;
    }
  }

  lemma {:induction false} CollectMeans(n: Node, parent: Kind, path: Path, scopes: seq<Path>,
                                        decls: map<Path, set<string>>, candidates: set<string>, consumed: set<string>)
    requires Agrees(n, path, decls)
    ensures Collect(n, parent, path, scopes, decls, candidates, consumed) ==
            consumed + Visible(Free(n, parent), scopes, decls, candidates)
    decreases n, 1
  {
    var inner := if OpensScope(n.kind) then scopes + [path] else scopes;
    var here := if n.kind.Identifier? && n.kind.text in candidates && !Shadowed(inner, decls, n.kind.text) &&
                   !IsDeclarationName(parent, n.role)
                then consumed + {n.kind.text} else consumed;
    CollectAllMeans(n.children, n.kind, path, 0, inner, decls, candidates, here);
    if OpensScope(n.kind) {
      forall x: string ensures Shadowed(inner, decls, x) <==> Shadowed(scopes, decls, x) || x in ScopeNames(n) {
        ShadowedByOne(scopes, path, decls, x);
      }
    }
  }

  lemma {:induction false} CollectAllMeans(cs: seq<Node>, parent: Kind, path: Path, first: nat, scopes: seq<Path>,
                                           decls: map<Path, set<string>>, candidates: set<string>, consumed: set<string>)
    requires AgreesAll(cs, path, first, decls)
    ensures CollectAll(cs, parent, path, first, scopes, decls, candidates, consumed) ==
            consumed + Visible(FreeAll(cs, parent), scopes, decls, candidates)
    decreases cs, 0
  {
    if cs != [] {
      CollectMeans(cs[0], parent, path + [first], scopes, decls, candidates, consumed);
      CollectAllMeans(cs[1..], parent, path, first + 1, scopes, decls, candidates,
                      Collect(cs[0], parent, path + [first], scopes, decls, candidates, consumed));
    }
  }

  // ---- Both passes ----

  function Consumed(file: Node, candidates: set<string>): set<string> {
    Collect(file, Other, [], [], Visit(file, Other, [], State(map[], [])).decls, candidates, {})
  }

  /** The scan returns exactly the candidates the tree refers to without declaring them. */
  lemma ConsumedIsFree(file: Node, candidates: set<string>)
    ensures Consumed(file, candidates) == Free(file, Other) * candidates
  {
    var start := State(map[], []);
    VisitMeans(file, Other, [], start);
    var decls := Visit(file, Other, [], start).decls;
    CollectMeans(file, Other, [], [], decls, candidates, {});
  }
}
