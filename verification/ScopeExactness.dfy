/** When `consumedHarnessSymbols` treats a name as the language does, and an input for each way in which it does not. */
module ScopeExactness {
  import opened Wrappers
  import opened ScopeTree
  import opened ScopeScan
  import opened ScopeLanguage

  /** The scan is right about a candidate. */
  ghost predicate IsRight(file: Node, candidates: set<string>, x: string) {
    x in Consumed(file, candidates) <==> IsFree(file, Other, x)
  }

  /** The scan is right about a candidate if and only if one of three things holds: it strays into the open and is also
      free; it does not stray, is free, and is used in the open; or it neither strays nor is free. */
  lemma ScanIsExactIff(file: Node, candidates: set<string>, x: string)
    requires file.kind.SourceFile? && x in candidates
    ensures IsRight(file, candidates, x)
       <==> if Strays(file, Other, x, false) then IsFree(file, Other, x)
            else IsFree(file, Other, x) ==> UsedInTheOpen(file, Other, x)
  {
    ConsumedIsFree(file, candidates);
    FoundExactly(file, x);
    if UsedInTheOpen(file, Other, x) {
      OpenIsFree(file, Other, x);
    }
  }

  /** It is right in particular about a name for which no scope reaches too far and which strays nowhere. */
  lemma ScanIsExactWithoutThem(file: Node, candidates: set<string>, x: string)
    requires file.kind.SourceFile? && x in candidates
    requires NowhereTooFar(file, Other, x) && !Strays(file, Other, x, false)
    ensures IsRight(file, candidates, x)
  {
    ScanIsExactIff(file, candidates, x);
    if IsFree(file, Other, x) {
      FreeIsOpen(file, Other, x);
    }
  }

  // ---- Unfolding small trees ----

  lemma NoChild(k: Kind, x: string)
    ensures LexicalAll([], k) == {} && VarsAll([], k) == {} && FreeAll([], k) == {}
    ensures LetNamesAll([], k) == {} && VarNamesAll([], k) == {} && ImportsAll([]) == {}
    ensures forall bound :: !AnyFree([], k, x, bound)
  {
  }

  lemma OneChild(a: Node, k: Kind, x: string)
    ensures LexicalAll([a], k) == Lexical(a, k) && VarsAll([a], k) == Vars(a, k) && FreeAll([a], k) == Free(a, k)
    ensures LetNamesAll([a], k) == LetNames(a, k) && VarNamesAll([a], k) == VarNames(a, k) && ImportsAll([a]) == Imports(a)
    ensures forall bound :: (AnyFree([a], k, x, bound) <==> IsFree(a, k, x) && !(bound && InScope(k, a.role)))
  {
    hide Lexical, Vars, Free, LetNames, VarNames, Imports, IsFree;
    assert [a][1..] == [];
    NoChild(k, x);
  }

  lemma TwoChildren(a: Node, b: Node, k: Kind, x: string)
    ensures LexicalAll([a, b], k) == Lexical(a, k) + Lexical(b, k) && VarsAll([a, b], k) == Vars(a, k) + Vars(b, k)
    ensures FreeAll([a, b], k) == Free(a, k) + Free(b, k)
    ensures LetNamesAll([a, b], k) == LetNames(a, k) + LetNames(b, k)
    ensures VarNamesAll([a, b], k) == VarNames(a, k) + VarNames(b, k)
    ensures ImportsAll([a, b]) == Imports(a) + Imports(b)
    ensures forall bound :: (AnyFree([a, b], k, x, bound) <==>
              (IsFree(a, k, x) && !(bound && InScope(k, a.role))) || (IsFree(b, k, x) && !(bound && InScope(k, b.role))))
  {
    hide Lexical, Vars, Free, LetNames, VarNames, Imports, IsFree;
    assert [a, b][1..] == [b];
    OneChild(b, k, x);
  }

  /** One node in terms of its children. */
  lemma Unfold(n: Node, k: Kind, x: string)
    ensures Lexical(n, k) == BoundAround(n.kind, k) + if OpensScope(n.kind) then {} else LexicalAll(n.children, n.kind)
    ensures Vars(n, k) == Hoisted(n.kind, k) + if HoldsVars(n.kind) then {} else VarsAll(n.children, n.kind)
    ensures LetNames(n, k) == DeclaredAround(n.kind, k) + if IsScope(n.kind) then {} else LetNamesAll(n.children, n.kind)
    ensures VarNames(n, k) == VarsHere(n.kind, k) + if KeepsVars(n.kind, k) then {} else VarNamesAll(n.children, n.kind)
    ensures Imports(n) == (if n.kind.ImportBinding? then OptionalNames(n.kind.name) else {}) + ImportsAll(n.children)
    ensures !n.kind.Identifier? ==> (x in Free(n, k) <==> x in FreeAll(n.children, n.kind) && !Covers(n, x))
    ensures !n.kind.Identifier? ==> (IsFree(n, k, x) <==> AnyFree(n.children, n.kind, x, Binds(n, k, x)))
  {
  }

  lemma SingleName(x: string)
    ensures NamesOfAll([Name(x)]) == {x} && NamesOfAll([]) == {}
  {
    assert [Name(x)][1..] == [];
  }

  function Use(x: string): Node {
    Node(Identifier(x), AsPart, [])
  }

  function Named(x: string): Node {
    Node(Identifier(x), AsName, [])
  }

  function File(children: seq<Node>): Node {
    Node(SourceFile, AsPart, children)
  }

  function Declaration(x: string): Node {
    Node(VariableDeclaration(Name(x)), AsPart, [Named(x)])
  }

  /** `let x` */
  function Let(x: string): Node {
    Node(VariableDeclarationList(true), AsPart, [Declaration(x)])
  }

  /** `var x` */
  function Var(x: string): Node {
    Node(VariableDeclarationList(false), AsPart, [Declaration(x)])
  }

  lemma IdentifierParts(id: Node, k: Kind, x: string)
    requires id.kind.Identifier? && id.children == []
    ensures Lexical(id, k) == {} && Vars(id, k) == {} && LetNames(id, k) == {} && VarNames(id, k) == {} && Imports(id) == {}
    ensures Free(id, k) == if IsDeclarationName(k, id.role) then {} else {id.kind.text}
    ensures IsFree(id, k, x) <==> id.kind.text == x && Refers(k, id.role)
  {
    NoChild(id.kind, x);
  }

  lemma DeclarationParts(x: string, k: Kind)
    ensures var d := Declaration(x);
            && Free(d, k) == {} && !IsFree(d, k, x) && Imports(d) == {}
            && Lexical(d, k) == BoundAround(d.kind, k) && LetNames(d, k) == DeclaredAround(d.kind, k)
            && Vars(d, k) == Hoisted(d.kind, k) && VarNames(d, k) == VarsHere(d.kind, k)
  {
    hide Lexical, Vars, LetNames, VarNames, Imports, IsFree, AnyFree, LexicalAll, VarsAll, FreeAll, LetNamesAll,
         VarNamesAll, ImportsAll, NamesOfAll;
    var d := Declaration(x);
    IdentifierParts(Named(x), d.kind, x);
    OneChild(Named(x), d.kind, x);
    Unfold(d, k, x);
    hide BoundAround, DeclaredAround, Hoisted, VarsHere;
  }

  lemma LetParts(x: string, k: Kind)
    ensures var l := Let(x);
            && Free(l, k) == {} && !IsFree(l, k, x) && Imports(l) == {}
            && Lexical(l, k) == {x} && LetNames(l, k) == {x} && Vars(l, k) == {} && VarNames(l, k) == {}
  {
    hide Lexical, Vars, LetNames, VarNames, Imports, IsFree, AnyFree, LexicalAll, VarsAll, LetNamesAll,
         VarNamesAll, ImportsAll, NamesOfAll;
    DeclarationParts(x, Let(x).kind);
    OneChild(Declaration(x), Let(x).kind, x);
    Unfold(Let(x), k, x);
  }

  lemma VarParts(x: string, k: Kind)
    ensures var v := Var(x);
            && Free(v, k) == {} && !IsFree(v, k, x) && Imports(v) == {}
            && Lexical(v, k) == {} && LetNames(v, k) == {} && Vars(v, k) == {x} && VarNames(v, k) == {x}
  {
    hide Lexical, Vars, LetNames, VarNames, Imports, IsFree, AnyFree, LexicalAll, VarsAll, LetNamesAll,
         VarNamesAll, ImportsAll, NamesOfAll;
    DeclarationParts(x, Var(x).kind);
    OneChild(Declaration(x), Var(x).kind, x);
    Unfold(Var(x), k, x);
  }

  // ---- Uses the scan misses ----

  /** The use after `a` is free, and the scan misses it. */
  ghost predicate Missed(file: Node, x: string) {
    IsFree(file, Other, x) && x !in Free(file, Other)
  }

  /** Whatever gives `x` to the scan's scope around it and not to the language's hides a later use. */
  lemma UseAfter(a: Node, x: string)
    requires x in Lexical(a, SourceFile) + Vars(a, SourceFile)
    requires x !in LetNames(a, SourceFile) + VarNames(a, SourceFile) + Imports(a)
    ensures Missed(File([a, Use(x)]), x)
  {
    hide Lexical, Vars, Free, LetNames, VarNames, Imports, IsFree, AnyFree, LexicalAll, VarsAll, FreeAll, LetNamesAll,
         VarNamesAll, ImportsAll, NamesOfAll;
    IdentifierParts(Use(x), SourceFile, x);
    TwoChildren(a, Use(x), SourceFile, x);
    Unfold(File([a, Use(x)]), Other, x);
  }

  /** `try {} catch (x) {}  x;` */
  lemma MissedAfterCatch(x: string)
    ensures Missed(File([Node(CatchClause(Some(Name(x))), AsPart, [Declaration(x)]), Use(x)]), x)
  {
    var a := Node(CatchClause(Some(Name(x))), AsPart, [Declaration(x)]);
    DeclarationParts(x, a.kind);
    OneChild(Declaration(x), a.kind, x);
    UseAfter(a, x);
  }

  /** `(class x {});  x;` */
  lemma MissedAfterClassExpression(x: string)
    ensures Missed(File([Node(ClassExpression(Some(Name(x))), AsPart, [Named(x)]), Use(x)]), x)
  {
    var a := Node(ClassExpression(Some(Name(x))), AsPart, [Named(x)]);
    IdentifierParts(Named(x), a.kind, x);
    OneChild(Named(x), a.kind, x);
    UseAfter(a, x);
  }

  /** `for (let x of y) {}  x;`, and the same for a `let` in a switch case. */
  lemma MissedAfterLoopOrSwitch(x: string, k: Kind)
    requires k.Loop? || k.CaseBlock?
    ensures Missed(File([Node(k, AsPart, [Let(x)]), Use(x)]), x)
  {
    var a := Node(k, AsPart, [Let(x)]);
    LetParts(x, k);
    OneChild(Let(x), k, x);
    UseAfter(a, x);
  }

  /** `class { static { var x; } }  x;` */
  lemma MissedAfterStaticBlock(x: string)
    ensures Missed(File([Node(StaticBlock, AsPart, [Node(Block, AsPart, [Var(x)])]), Use(x)]), x)
  {
    hide Lexical, Vars, Free, LetNames, VarNames, Imports, IsFree, AnyFree, LexicalAll, VarsAll, FreeAll, LetNamesAll,
         VarNamesAll, ImportsAll, NamesOfAll;
    var body := Node(Block, AsPart, [Var(x)]);
    var a := Node(StaticBlock, AsPart, [body]);
    VarParts(x, Block);
    OneChild(Var(x), Block, x);
    Unfold(body, StaticBlock, x);
    OneChild(body, StaticBlock, x);
    Unfold(a, SourceFile, x);
    UseAfter(a, x);
  }

  /** `y = x` as a parameter. */
  function DefaultParameter(y: string, x: string): Node {
    Node(Parameter, AsPart, [Named(y), Use(x)])
  }

  /** `{ var x; }` */
  function VarBlock(x: string): Node {
    Node(Block, AsPart, [Var(x)])
  }

  lemma DefaultParameterParts(y: string, x: string, k: Kind)
    ensures var p := DefaultParameter(y, x);
            && Lexical(p, k) == {} && Vars(p, k) == {} && LetNames(p, k) == {} && VarNames(p, k) == {} && Imports(p) == {}
            && x in Free(p, k) && IsFree(p, k, x)
  {
    hide Lexical, Vars, Free, LetNames, VarNames, Imports, IsFree, AnyFree, LexicalAll, VarsAll, FreeAll, LetNamesAll,
         VarNamesAll, ImportsAll, NamesOfAll;
    IdentifierParts(Named(y), Parameter, x);
    IdentifierParts(Use(x), Parameter, x);
    TwoChildren(Named(y), Use(x), Parameter, x);
    Unfold(DefaultParameter(y, x), k, x);
  }

  lemma VarBlockParts(x: string, k: Kind)
    requires IsFunctionLike(k)
    ensures var b := VarBlock(x);
            && Lexical(b, k) == {} && Vars(b, k) == {x} && LetNames(b, k) == {} && VarNames(b, k) == {} && Imports(b) == {}
            && x !in Free(b, k) && !IsFree(b, k, x)
  {
    hide Lexical, Vars, Free, LetNames, VarNames, Imports, IsFree, AnyFree, LexicalAll, VarsAll, FreeAll, LetNamesAll,
         VarNamesAll, ImportsAll, NamesOfAll;
    VarParts(x, Block);
    OneChild(Var(x), Block, x);
    Unfold(VarBlock(x), k, x);
  }

  /** `function (y = x) { var x; }` */
  lemma MissedInParameter(x: string, y: string)
    requires x != y && x != "arguments"
    ensures var f := Node(FunctionExpression(None, [Name(y)]), AsPart, [DefaultParameter(y, x), VarBlock(x)]);
            Missed(File([f]), x)
  {
    hide Lexical, Vars, Free, LetNames, VarNames, Imports, IsFree, AnyFree, LexicalAll, VarsAll, FreeAll, LetNamesAll,
         VarNamesAll, ImportsAll, NamesOfAll;
    hide DefaultParameter, VarBlock;
    var f := Node(FunctionExpression(None, [Name(y)]), AsPart, [DefaultParameter(y, x), VarBlock(x)]);
    DefaultParameterParts(y, x, f.kind);
    VarBlockParts(x, f.kind);
    TwoChildren(DefaultParameter(y, x), VarBlock(x), f.kind, x);
    SingleName(y);
    PartRole(y, x);
    Unfold(f, SourceFile, x);
    OneChild(f, SourceFile, x);
    Unfold(File([f]), Other, x);
  }

  lemma PartRole(y: string, x: string)
    ensures DefaultParameter(y, x).role == AsPart && VarBlock(x).role == AsPart
  {
  }

  /** `({ [x](x) {} })` */
  lemma MissedInComputedKey(x: string)
    ensures var m := Node(Method([Name(x)]), AsPart, [Node(Other, AsName, [Use(x)]), Node(Parameter, AsPart, [Named(x)])]);
            Missed(File([m]), x)
  {
    hide Lexical, Vars, Free, LetNames, VarNames, Imports, IsFree, AnyFree, LexicalAll, VarsAll, FreeAll, LetNamesAll,
         VarNamesAll, ImportsAll, NamesOfAll;
    var key, p := Node(Other, AsName, [Use(x)]), Node(Parameter, AsPart, [Named(x)]);
    var m := Node(Method([Name(x)]), AsPart, [key, p]);
    IdentifierParts(Use(x), Other, x);
    OneChild(Use(x), Other, x);
    Unfold(key, m.kind, x);
    IdentifierParts(Named(x), Parameter, x);
    OneChild(Named(x), Parameter, x);
    Unfold(p, m.kind, x);
    TwoChildren(key, p, m.kind, x);
    Unfold(m, SourceFile, x);
    OneChild(m, SourceFile, x);
    Unfold(File([m]), Other, x);
    SingleName(x);
  }

  // ---- Names the scan reports that are not free ----

  ghost predicate Misreported(file: Node, x: string) {
    !IsFree(file, Other, x) && x in Free(file, Other)
  }

  /** `({ get x() {} })` */
  lemma MisreportedAccessor(x: string)
    ensures Misreported(File([Node(Accessor([]), AsPart, [Named(x)])]), x)
  {
    hide Lexical, Vars, Free, LetNames, VarNames, Imports, IsFree, AnyFree, LexicalAll, VarsAll, FreeAll, LetNamesAll,
         VarNamesAll, ImportsAll, NamesOfAll;
    var a := Node(Accessor([]), AsPart, [Named(x)]);
    IdentifierParts(Named(x), a.kind, x);
    OneChild(Named(x), a.kind, x);
    Unfold(a, SourceFile, x);
    OneChild(a, SourceFile, x);
    Unfold(File([a]), Other, x);
    SingleName(x);
  }

  /** `x: y` in a pattern. */
  function Renamed(x: string, y: string): Node {
    Node(BindingElement, AsPart, [Node(Identifier(x), AsPropertyName, []), Named(y)])
  }

  lemma RenamedParts(x: string, y: string, k: Kind)
    ensures var e := Renamed(x, y);
            && Lexical(e, k) == {} && Vars(e, k) == {} && LetNames(e, k) == {} && VarNames(e, k) == {} && Imports(e) == {}
            && x in Free(e, k) && !IsFree(e, k, x)
  {
    hide Lexical, Vars, Free, LetNames, VarNames, Imports, IsFree, AnyFree, LexicalAll, VarsAll, FreeAll, LetNamesAll,
         VarNamesAll, ImportsAll, NamesOfAll;
    var property := Node(Identifier(x), AsPropertyName, []);
    IdentifierParts(property, BindingElement, x);
    IdentifierParts(Named(y), BindingElement, x);
    TwoChildren(property, Named(y), BindingElement, x);
    Unfold(Renamed(x, y), k, x);
  }

  /** `let { x: y } = z` */
  lemma MisreportedPropertyName(x: string, y: string)
    requires x != y
    ensures var list := Node(VariableDeclarationList(true), AsPart,
                             [Node(VariableDeclaration(Pattern([Name(y)])), AsPart, [Renamed(x, y)])]);
            Misreported(File([list]), x)
  {
    hide Lexical, Vars, Free, LetNames, VarNames, Imports, IsFree, AnyFree, LexicalAll, VarsAll, FreeAll, LetNamesAll,
         VarNamesAll, ImportsAll, NamesOfAll;
    hide Renamed;
    var d := Node(VariableDeclaration(Pattern([Name(y)])), AsPart, [Renamed(x, y)]);
    var list := Node(VariableDeclarationList(true), AsPart, [d]);
    RenamedParts(x, y, d.kind);
    OneChild(Renamed(x, y), d.kind, x);
    Unfold(d, list.kind, x);
    OneChild(d, list.kind, x);
    Unfold(list, SourceFile, x);
    OneChild(list, SourceFile, x);
    Unfold(File([list]), Other, x);
    SingleName(y);
  }

  /** `export { y as x }` */
  lemma MisreportedExport(x: string, y: string)
    requires x != y
    ensures Misreported(File([Node(ExportSpecifier(true, false), AsPart, [Node(Identifier(y), AsPropertyName, []), Named(x)])]), x)
  {
    hide Lexical, Vars, Free, LetNames, VarNames, Imports, IsFree, AnyFree, LexicalAll, VarsAll, FreeAll, LetNamesAll,
         VarNamesAll, ImportsAll, NamesOfAll;
    var k, local := ExportSpecifier(true, false), Node(Identifier(y), AsPropertyName, []);
    var a := Node(k, AsPart, [local, Named(x)]);
    IdentifierParts(local, k, x);
    IdentifierParts(Named(x), k, x);
    TwoChildren(local, Named(x), k, x);
    Unfold(a, SourceFile, x);
    OneChild(a, SourceFile, x);
    Unfold(File([a]), Other, x);
  }

  /** `new.target`, with `x` for `target`. */
  lemma MisreportedBareName(x: string)
    ensures Misreported(File([Node(BareName, AsPart, [Named(x)])]), x)
  {
    hide Lexical, Vars, Free, LetNames, VarNames, Imports, IsFree, AnyFree, LexicalAll, VarsAll, FreeAll, LetNamesAll,
         VarNamesAll, ImportsAll, NamesOfAll;
    var a := Node(BareName, AsPart, [Named(x)]);
    IdentifierParts(Named(x), BareName, x);
    OneChild(Named(x), BareName, x);
    Unfold(a, SourceFile, x);
    OneChild(a, SourceFile, x);
    Unfold(File([a]), Other, x);
  }

  /** `function () { arguments; }` */
  lemma MisreportedArguments()
    ensures var f := Node(FunctionExpression(None, []), AsPart, [Node(Block, AsPart, [Use("arguments")])]);
            Misreported(File([f]), "arguments")
  {
    hide Lexical, Vars, Free, LetNames, VarNames, Imports, IsFree, AnyFree, LexicalAll, VarsAll, FreeAll, LetNamesAll,
         VarNamesAll, ImportsAll, NamesOfAll;
    var body := Node(Block, AsPart, [Use("arguments")]);
    var f := Node(FunctionExpression(None, []), AsPart, [body]);
    IdentifierParts(Use("arguments"), Block, "arguments");
    OneChild(Use("arguments"), Block, "arguments");
    Unfold(body, f.kind, "arguments");
    OneChild(body, f.kind, "arguments");
    Unfold(f, SourceFile, "arguments");
    OneChild(f, SourceFile, "arguments");
    Unfold(File([f]), Other, "arguments");
    SingleName("arguments");
  }

  /** `import x from "y";  x;` */
  lemma MisreportedImport(x: string)
    ensures Misreported(File([Node(ImportBinding(Some(Name(x))), AsPart, [Named(x)]), Use(x)]), x)
  {
    hide Lexical, Vars, Free, LetNames, VarNames, Imports, IsFree, AnyFree, LexicalAll, VarsAll, FreeAll, LetNamesAll,
         VarNamesAll, ImportsAll, NamesOfAll;
    var a := Node(ImportBinding(Some(Name(x))), AsPart, [Named(x)]);
    IdentifierParts(Named(x), a.kind, x);
    OneChild(Named(x), a.kind, x);
    Unfold(a, SourceFile, x);
    IdentifierParts(Use(x), SourceFile, x);
    TwoChildren(a, Use(x), SourceFile, x);
    Unfold(File([a, Use(x)]), Other, x);
  }
}
