/** The scan as it is written: a scope stack, a table of declarations and a set of results, updated in place. */
module HarnessScan {
  import opened Wrappers
  import opened ScopeTree
  import opened ScopeScan

  ghost function SetOf(xs: seq<string>): set<string> {
    set x | x in xs
  }

  method BindingNames(b: Binding) returns (out: seq<string>)
    ensures SetOf(out) == Names(b)
    decreases b, 1
  {
    match b
    case Name(t) => out := [t];
    case Pattern(es) => out := AllBindingNames(es);
    case Hole => out := [];
  }

  method AllBindingNames(bs: seq<Binding>) returns (out: seq<string>)
    ensures SetOf(out) == NamesOfAll(bs)
    decreases bs, 0
  {
    out := [];
    if bs != [] {
      var head := BindingNames(bs[0]);
      var tail := AllBindingNames(bs[1..]);
      out := head + tail;
      assert SetOf(head + tail) == SetOf(head) + SetOf(tail);
    }
  }

  class Scan {
    var declarations: map<Path, set<string>>
    var scopes: seq<Scope>
    var stack: seq<Path>
    var consumed: set<string>

    ghost function State(): ScopeScan.State
      reads this`declarations, this`scopes
    {
      ScopeScan.State(declarations, scopes)
    }

    constructor ()
      ensures State() == ScopeScan.State(map[], []) && stack == [] && consumed == {}
    {
      declarations, scopes, stack, consumed := map[], [], [], {};
    }

    method AddBinding(scope: Option<Path>, name: Option<Binding>)
      modifies this`declarations
      ensures declarations == Bind(old(declarations), scope, OptionalNames(name))
    {
      if scope.None? || scope.value !in declarations || name.None? {
        BindNothing(declarations, scope);
        return;
      }
      var found := BindingNames(name.value);
      var i := 0;
      assert SetOf(found[..0]) == {};
      BindNothing(declarations, scope);
      while i < |found|
        invariant 0 <= i <= |found|
        invariant declarations == Bind(old(declarations), scope, SetOf(found[..i]))
      {
        assert SetOf(found[..i + 1]) == SetOf(found[..i]) + {found[i]};
        BindTwice(old(declarations), scope, SetOf(found[..i]), {found[i]});
        declarations := declarations[scope.value := declarations[scope.value] + {found[i]}];
        i := i + 1;
      }
      assert found[..i] == found;
    }

    method AddParameters(scope: Option<Path>, parameters: seq<Binding>)
      modifies this`declarations
      ensures declarations == Bind(old(declarations), scope, NamesOfAll(parameters))
      decreases parameters
    {
      if parameters == [] {
        BindNothing(declarations, scope);
      } else {
        AddBinding(scope, Some(parameters[0]));
        AddParameters(scope, parameters[1..]);
        BindTwice(old(declarations), scope, Names(parameters[0]), NamesOfAll(parameters[1..]));
      }
    }

    /** `visit` of `bodyScopeDeclarations`, up to the children. */
    method EnterNode(node: Node, parent: Kind, path: Path)
      modifies this`declarations, this`scopes
      ensures State() == Enter(node, parent, path, old(State()))
    {
      var k := node.kind;
      ghost var d0 := declarations;
      if k.FunctionDeclaration? || k.ClassDeclaration? {
        AddBinding(Current(scopes), k.name);
      }
      BindNothing(d0, Current(scopes));
      if OpensScope(k) {
        declarations := declarations[path := {}];
        scopes := scopes + [Scope(path, HoldsVars(k))];
      }
      BindAfter(k);
      if k.VariableDeclaration? {
        AddBinding(if IsBlockScoped(parent) then Current(scopes) else Nearest(scopes), Some(k.binding));
      }
    }

    method BindAfter(k: Kind)
      modifies this`declarations
      ensures declarations == Bind(old(declarations), Current(scopes), NamesAfter(k))
    {
      var here := Current(scopes);
      ghost var d0 := declarations;
      BindNothing(d0, here);
      if k.FunctionExpression? || k.ClassExpression? {
        AddBinding(here, k.name);
      }
      if IsFunctionLike(k) {
        AddParameters(here, k.parameters);
        BindTwice(d0, here, if k.FunctionExpression? then OptionalNames(k.name) else {}, NamesOfAll(k.parameters));
      }
      if k.CatchClause? {
        AddBinding(here, k.variable);
      }
      assert k.FunctionExpression? ==> NamesAfter(k) == OptionalNames(k.name) + NamesOfAll(k.parameters);
      assert IsFunctionLike(k) && !k.FunctionExpression? ==> NamesAfter(k) == {} + NamesOfAll(k.parameters);
      assert k.CatchClause? ==> NamesAfter(k) == OptionalNames(k.variable);
      assert k.ClassExpression? ==> NamesAfter(k) == OptionalNames(k.name);
      assert !IsFunctionLike(k) && !k.CatchClause? && !k.ClassExpression? ==> NamesAfter(k) == {};
    }

    method VisitDeclarations(node: Node, parent: Kind, path: Path)
      modifies this`declarations, this`scopes
      ensures State() == Visit(node, parent, path, old(State()))
      decreases node, 1
    {
      EnterNode(node, parent, path);
      VisitAllDeclarations(node.children, node.kind, path, 0);
      if OpensScope(node.kind) && scopes != [] {
        scopes := scopes[..|scopes| - 1];
      }
    }

    /** `ts.forEachChild(node, visit)`. */
    method VisitAllDeclarations(children: seq<Node>, parent: Kind, path: Path, first: nat)
      modifies this`declarations, this`scopes
      ensures State() == VisitAll(children, parent, path, first, old(State()))
      decreases children, 0
    {
      if children != [] {
        VisitDeclarations(children[0], parent, path + [first]);
        VisitAllDeclarations(children[1..], parent, path, first + 1);
      }
    }

    method VisitReferences(node: Node, parent: Kind, path: Path, candidates: set<string>)
      modifies this`stack, this`consumed
      ensures stack == old(stack)
      ensures consumed == Collect(node, parent, path, old(stack), declarations, candidates, old(consumed))
      decreases node, 1
    {
      if OpensScope(node.kind) {
        stack := stack + [path];
      }
      if node.kind.Identifier? && node.kind.text in candidates && !Shadowed(stack, declarations, node.kind.text) &&
         !IsDeclarationName(parent, node.role) {
        consumed := consumed + {node.kind.text};
      }
      VisitAllReferences(node.children, node.kind, path, 0, candidates);
      if OpensScope(node.kind) {
        stack := stack[..|stack| - 1];
      }
    }

    method VisitAllReferences(children: seq<Node>, parent: Kind, path: Path, first: nat, candidates: set<string>)
      modifies this`stack, this`consumed
      ensures stack == old(stack)
      ensures consumed == CollectAll(children, parent, path, first, old(stack), declarations, candidates, old(consumed))
      decreases children, 0
    {
      if children != [] {
        VisitReferences(children[0], parent, path + [first], candidates);
        VisitAllReferences(children[1..], parent, path, first + 1, candidates);
      }
    }
  }

  lemma BindNothing(decls: map<Path, set<string>>, at: Option<Path>)
    ensures Bind(decls, at, {}) == decls
  {
    if at.Some? && at.value in decls {
      assert decls[at.value] + {} == decls[at.value];
      assert decls == decls[at.value := decls[at.value]];
    }
  }

  lemma BindTwice(decls: map<Path, set<string>>, at: Option<Path>, a: set<string>, b: set<string>)
    ensures Bind(Bind(decls, at, a), at, b) == Bind(decls, at, a + b)
  {
    if at.Some? && at.value in decls {
      assert decls[at.value] + a + b == decls[at.value] + (a + b);
    }
  }

  // ---- The sorted result ----

  /** The order of `sort` on strings: character by character. */
  predicate AtMost(a: string, b: string) {
    a == "" || (b != "" && (a[0] < b[0] || (a[0] == b[0] && AtMost(a[1..], b[1..]))))
  }

  lemma {:induction false} AtMostIsTotalOrder(a: string, b: string, c: string)
    ensures AtMost(a, b) || AtMost(b, a)
    ensures AtMost(a, b) && AtMost(b, a) ==> a == b
    ensures AtMost(a, b) && AtMost(b, c) ==> AtMost(a, c)
    decreases |a|
  {
    if a != "" && b != "" {
      AtMostIsTotalOrder(a[1..], b[1..], if c == "" then "" else c[1..]);
      assert a == [a[0]] + a[1..] && b == [b[0]] + b[1..];
    }
  }

  /** At the first place where two strings differ the smaller character decides, and a prefix comes first. */
  lemma {:induction false} AtMostMeans(a: string, b: string)
    ensures AtMost(a, b)
       <==> exists k :: 0 <= k <= |a| && k <= |b| && a[..k] == b[..k] && (k == |a| || (k < |b| && a[k] < b[k]))
    decreases |a|
  {
    if a == "" {
      assert a[..0] == b[..0];
    } else if b != "" && a[0] == b[0] {
      AtMostMeans(a[1..], b[1..]);
      if k :| 0 <= k <= |a| && k <= |b| && a[..k] == b[..k] && (k == |a| || (k < |b| && a[k] < b[k])) {
        assert k > 0;
        assert a[1..][..k - 1] == a[..k][1..] && b[1..][..k - 1] == b[..k][1..];
      }
      if k :| 0 <= k <= |a[1..]| && k <= |b[1..]| && a[1..][..k] == b[1..][..k]
              && (k == |a[1..]| || (k < |b[1..]| && a[1..][k] < b[1..][k])) {
        assert a[..k + 1] == [a[0]] + a[1..][..k] && b[..k + 1] == [b[0]] + b[1..][..k];
      }
    } else if b != "" {
      forall k | 0 < k <= |a| && k <= |b| ensures a[..k] != b[..k] {
        assert a[..k][0] == a[0] && b[..k][0] == b[0];
      }
      assert a[..0] == b[..0];
    }
  }

  /** Strictly ascending: sorted, and no name twice. */
  ghost predicate Ascending(xs: seq<string>) {
    forall i, j :: 0 <= i < j < |xs| ==> AtMost(xs[i], xs[j]) && xs[i] != xs[j]
  }

  function InsertName(xs: seq<string>, x: string): seq<string> {
    if xs == [] then [x]
    else if AtMost(x, xs[0]) then [x] + xs
    else [xs[0]] + InsertName(xs[1..], x)
  }

  lemma {:induction false} InsertNameMeans(xs: seq<string>, x: string)
    requires Ascending(xs) && x !in xs
    ensures Ascending(InsertName(xs, x)) && SetOf(InsertName(xs, x)) == SetOf(xs) + {x}
  {
    hide AtMost;
    if xs == [] {
      assert SetOf([x]) == {x};
    } else if AtMost(x, xs[0]) {
      forall j | 0 <= j < |xs| ensures AtMost(x, xs[j]) {
        AtMostIsTotalOrder(x, xs[0], xs[j]);
        assert j > 0 ==> AtMost(xs[0], xs[j]);
      }
      assert SetOf([x] + xs) == SetOf(xs) + {x};
    } else {
      var rest := InsertName(xs[1..], x);
      InsertNameMeans(xs[1..], x);
      forall j | 0 <= j < |rest| ensures AtMost(xs[0], rest[j]) && xs[0] != rest[j] {
        AtMostIsTotalOrder(x, xs[0], x);
        assert rest[j] in SetOf(xs[1..]) + {x};
      }
      assert xs == [xs[0]] + xs[1..];
      assert SetOf([xs[0]] + rest) == {xs[0]} + SetOf(rest);
      assert SetOf(xs) == {xs[0]} + SetOf(xs[1..]);
    }
  }

  /** `[...consumed].sort()`: whatever the order of the set, the result is the ascending list of its names. */
  method SortNames(names: set<string>) returns (sorted: seq<string>)
    ensures Ascending(sorted) && SetOf(sorted) == names
  {
    sorted := [];
    var todo := names;
    assert SetOf(sorted) == names - todo;
    while todo != {}
      invariant todo <= names && Ascending(sorted) && SetOf(sorted) == names - todo
    {
      hide Ascending;
      var x :| x in todo;
      assert x in sorted ==> x in SetOf(sorted);
      InsertNameMeans(sorted, x);
      sorted := InsertName(sorted, x);
      todo := todo - {x};
    }
  }

  /** The candidates that are free by the scan's rules, in ascending order. */
  method ConsumedHarnessSymbols(file: Node, declaredSymbols: seq<string>) returns (names: seq<string>)
    ensures Ascending(names)
    ensures forall x :: x in names <==> x in declaredSymbols && x in Free(file, Other)
  {
    var candidates := set x | x in declaredSymbols;
    var scan := new Scan();
    scan.VisitDeclarations(file, Other, []);
    scan.VisitReferences(file, Other, [], candidates);
    ConsumedIsFree(file, candidates);
    names := SortNames(scan.consumed);
    assert forall x :: x in names <==> x in SetOf(names);
  }
}
