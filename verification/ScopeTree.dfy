/** Syntax trees as scripts/test262-linked-harness-inventory.ts sees them, and the names a tree uses but does not
    declare by the scan's rules, defined by recursion over the tree. */
module ScopeTree {
  import opened Wrappers

  /** A binding name: an identifier, a destructuring pattern, or an elided element of one. */
  datatype Binding = Name(text: string) | Pattern(elements: seq<Binding>) | Hole

  /** What the scan or the language distinguishes about a node. `Loop` stands for `for`, `for-in` and `for-of`
      statements, `Accessor` for getters and setters, `ImportBinding` for import clauses, specifiers and namespace
      imports, and `BareName` for the nodes whose names are never references: `new.target`, `import.meta`, namespace
      exports and import attributes. */
  datatype Kind =
    | SourceFile
    | FunctionDeclaration(name: Option<Binding>, parameters: seq<Binding>)
    | FunctionExpression(name: Option<Binding>, parameters: seq<Binding>)
    | ArrowFunction(parameters: seq<Binding>)
    | Method(parameters: seq<Binding>)
    | Accessor(parameters: seq<Binding>)
    | Constructor(parameters: seq<Binding>)
    | ClassDeclaration(name: Option<Binding>)
    | ClassExpression(name: Option<Binding>)
    | StaticBlock
    | Block
    | Loop
    | CaseBlock
    | CatchClause(variable: Option<Binding>)
    | VariableDeclarationList(blockScoped: bool)
    | VariableDeclaration(binding: Binding)
    | Identifier(text: string)
    | Parameter
    | BindingElement
    | PropertyAccess
    | PropertyAssignment
    | PropertyDeclaration
    | LabeledStatement
    | BreakOrContinue
    | ImportBinding(name: Option<Binding>)
    | ExportSpecifier(renamed: bool, reexported: bool)
    | BareName
    | Other

  /** Whether a node is its parent's `name`, its `propertyName`, or neither. */
  datatype Role = AsName | AsPropertyName | AsPart

  datatype Node = Node(kind: Kind, role: Role, children: seq<Node>)

  // ---- Kinds ----

  predicate IsFunctionLike(k: Kind) {
    k.FunctionDeclaration? || k.FunctionExpression? || k.ArrowFunction? || k.Method? || k.Accessor? || k.Constructor?
  }

  /** `isLexicalScope`. */
  predicate OpensScope(k: Kind) {
    k.SourceFile? || IsFunctionLike(k) || k.Block? || k.CatchClause?
  }

  /** The scopes `var` is hoisted to. */
  predicate HoldsVars(k: Kind) {
    k.SourceFile? || IsFunctionLike(k)
  }

  /** `isDeclarationName` for an identifier below a node of kind `parent`. */
  predicate IsDeclarationName(parent: Kind, role: Role) {
    || (role == AsName &&
        (parent.VariableDeclaration? || parent.Parameter? || parent.FunctionDeclaration? || parent.FunctionExpression? ||
         parent.ClassDeclaration? || parent.ClassExpression? || parent.BindingElement? || parent.PropertyAccess? ||
         parent.PropertyAssignment? || parent.Method? || parent.PropertyDeclaration?))
    || parent.LabeledStatement? || parent.BreakOrContinue?
  }

  // ---- Names a node binds, and where ----

  function Names(b: Binding): set<string> {
    match b
    case Name(t) => {t}
    case Pattern(es) => NamesOfAll(es)
    case Hole => {}
  }

  function NamesOfAll(bs: seq<Binding>): set<string> {
    if bs == [] then {} else Names(bs[0]) + NamesOfAll(bs[1..])
  }

  function OptionalNames(b: Option<Binding>): set<string> {
    if b.Some? then Names(b.value) else {}
  }

  /** Bound in the scope around the node. */
  function BoundAround(k: Kind, parent: Kind): set<string> {
    match k
    case FunctionDeclaration(name, _) => OptionalNames(name)
    case ClassDeclaration(name) => OptionalNames(name)
    case ClassExpression(name) => OptionalNames(name)
    case VariableDeclaration(b) =>
      if parent.VariableDeclarationList? && parent.blockScoped then Names(b) else {}
    case _ => {}
  }

  /** Hoisted to the nearest function or file: what is declared outside a block-scoped list, which includes the variable
      of a catch clause, since its parent is no list. */
  function Hoisted(k: Kind, parent: Kind): set<string> {
    if k.VariableDeclaration? && !(parent.VariableDeclarationList? && parent.blockScoped) then Names(k.binding) else {}
  }

  /** Bound in the scope the node itself opens. */
  function BoundInside(k: Kind): set<string> {
    match k
    case FunctionDeclaration(_, ps) => NamesOfAll(ps)
    case FunctionExpression(name, ps) => OptionalNames(name) + NamesOfAll(ps)
    case Method(ps) => NamesOfAll(ps)
    case ArrowFunction(ps) => NamesOfAll(ps)
    case Accessor(ps) => NamesOfAll(ps)
    case Constructor(ps) => NamesOfAll(ps)
    case CatchClause(v) => OptionalNames(v)
    case _ => {}
  }

  // ---- The names the scan calls free, by recursion ----

  /** What the subtree binds in the scope it stands in, not looking into scopes of its own. */
  ghost function Lexical(n: Node, parent: Kind): set<string>
    decreases n, 1
  {
    BoundAround(n.kind, parent) + if OpensScope(n.kind) then {} else LexicalAll(n.children, n.kind)
  }

  ghost function LexicalAll(cs: seq<Node>, parent: Kind): set<string>
    decreases cs, 0
  {
    if cs == [] then {} else Lexical(cs[0], parent) + LexicalAll(cs[1..], parent)
  }

  /** What the subtree hoists to the nearest function or file around it. */
  ghost function Vars(n: Node, parent: Kind): set<string>
    decreases n, 1
  {
    Hoisted(n.kind, parent) + if HoldsVars(n.kind) then {} else VarsAll(n.children, n.kind)
  }

  ghost function VarsAll(cs: seq<Node>, parent: Kind): set<string>
    decreases cs, 0
  {
    if cs == [] then {} else Vars(cs[0], parent) + VarsAll(cs[1..], parent)
  }

  /** Everything declared in the scope that `n` opens, wherever in it the declaration stands. */
  ghost function ScopeNames(n: Node): set<string> {
    BoundInside(n.kind) + LexicalAll(n.children, n.kind) +
    if HoldsVars(n.kind) then VarsAll(n.children, n.kind) else {}
  }

  /** The names the subtree refers to and does not declare. */
  ghost function Free(n: Node, parent: Kind): set<string>
    decreases n, 1
  {
    var used := (if n.kind.Identifier? && !IsDeclarationName(parent, n.role) then {n.kind.text} else {})
                + FreeAll(n.children, n.kind);
    if OpensScope(n.kind) then used - ScopeNames(n) else used
  }

  ghost function FreeAll(cs: seq<Node>, parent: Kind): set<string>
    decreases cs, 0
  {
    if cs == [] then {} else Free(cs[0], parent) + FreeAll(cs[1..], parent)
  }
}
