/** The free names of a syntax tree as ECMA-262 scopes them (sections 8.2 and 10.2.11, without Annex B), and exactly when
    the scan agrees. The scan differs in two ways: some of its scopes reach too far, and it counts names that are no
    references or are bound in ways it does not see. */
module ScopeLanguage {
  import opened ScopeTree

  // ---- The language ----

  /** An identifier in this place refers to a binding: kind by kind, as the grammar reads it. */
  ghost predicate Refers(parent: Kind, role: Role) {
    match parent
    case VariableDeclaration(_) => role != AsName
    case Parameter => role != AsName
    case BindingElement => role == AsPart
    case FunctionDeclaration(_, _) => role != AsName
    case FunctionExpression(_, _) => role != AsName
    case ClassDeclaration(_) => role != AsName
    case ClassExpression(_) => role != AsName
    case Method(_) => role != AsName
    case Accessor(_) => role != AsName
    case PropertyDeclaration => role != AsName
    case PropertyAssignment => role != AsName
    case PropertyAccess => role != AsName
    case LabeledStatement => false
    case BreakOrContinue => false
    case ImportBinding(_) => role == AsPart
    case ExportSpecifier(renamed, reexported) => !reexported && (renamed ==> role != AsName)
    case BareName => false
    case _ => true
  }

  ghost predicate IsFunction(k: Kind) {
    match k
    case FunctionDeclaration(_, _) => true
    case FunctionExpression(_, _) => true
    case ArrowFunction(_) => true
    case Method(_) => true
    case Accessor(_) => true
    case Constructor(_) => true
    case _ => false
  }

  /** The nodes that open a scope: files, functions, class expressions, static blocks, blocks, loops, case blocks and catch
      clauses. */
  ghost predicate IsScope(k: Kind) {
    match k
    case SourceFile => true
    case ClassExpression(_) => true
    case StaticBlock => true
    case Block => true
    case Loop => true
    case CaseBlock => true
    case CatchClause(_) => true
    case _ => IsFunction(k)
  }

  /** A `var` belongs to the nearest file, function body or static block; the parameters of a function do not see the
      `var`s of its body. */
  ghost predicate KeepsVars(k: Kind, parent: Kind) {
    match k
    case SourceFile => true
    case StaticBlock => true
    case Block => IsFunction(parent)
    case _ => IsFunction(k)
  }

  /** The name of a function, in particular a computed key, lies outside the function's scope. */
  ghost predicate InScope(k: Kind, role: Role) {
    IsFunction(k) ==> role != AsName
  }

  /** Functions, classes and `let`-like declarations belong to the scope around. */
  ghost function DeclaredAround(k: Kind, parent: Kind): set<string> {
    match k
    case FunctionDeclaration(name, _) => OptionalNames(name)
    case ClassDeclaration(name) => OptionalNames(name)
    case VariableDeclaration(b) => if parent == VariableDeclarationList(true) then Names(b) else {}
    case _ => {}
  }

  /** A declaration that is neither `let`-like nor a catch variable. */
  ghost function VarsHere(k: Kind, parent: Kind): set<string> {
    if k.VariableDeclaration? && parent != VariableDeclarationList(true) && !parent.CatchClause? then Names(k.binding) else {}
  }

  /** The parameters and the function's or class's own name, the catch variable, and `arguments`. */
  ghost function OwnNames(k: Kind): set<string> {
    match k
    case FunctionDeclaration(_, ps) => NamesOfAll(ps) + {"arguments"}
    case FunctionExpression(name, ps) => OptionalNames(name) + NamesOfAll(ps) + {"arguments"}
    case ArrowFunction(ps) => NamesOfAll(ps)
    case Method(ps) => NamesOfAll(ps) + {"arguments"}
    case Accessor(ps) => NamesOfAll(ps) + {"arguments"}
    case Constructor(ps) => NamesOfAll(ps) + {"arguments"}
    case ClassExpression(name) => OptionalNames(name)
    case CatchClause(variable) => OptionalNames(variable)
    case _ => {}
  }

  // ---- The scan's tests against the language's ----

  /** A binding pattern binds a name if the name occurs in it at any depth. */
  ghost predicate Occurs(b: Binding, x: string) {
    match b
    case Name(t) => t == x
    case Pattern(es) => exists i :: 0 <= i < |es| && Occurs(es[i], x)
    case Hole => false
  }

  lemma {:induction false} NamesOccur(b: Binding, x: string)
    ensures x in Names(b) <==> Occurs(b, x)
    decreases b, 1
  {
    if b.Pattern? {
      NamesOfAllOccur(b.elements, x);
    }
  }

  lemma {:induction false} NamesOfAllOccur(bs: seq<Binding>, x: string)
    ensures x in NamesOfAll(bs) <==> exists i :: 0 <= i < |bs| && Occurs(bs[i], x)
    decreases bs, 0
  {
    if bs != [] {
      NamesOccur(bs[0], x);
      NamesOfAllOccur(bs[1..], x);
      if i :| 0 <= i < |bs| && Occurs(bs[i], x) {
        assert i > 0 ==> bs[1..][i - 1] == bs[i];
      }
      if i :| 0 <= i < |bs[1..]| && Occurs(bs[1..][i], x) {
        assert bs[i + 1] == bs[1..][i];
      }
    }
  }

  /** The names the scan takes for references although they are none. */
  ghost predicate Misnamed(parent: Kind, role: Role) {
    || (parent.Accessor? && role == AsName)
    || (parent.BindingElement? && role == AsPropertyName)
    || (parent.ImportBinding? && role != AsPart)
    || (parent.ExportSpecifier? && (parent.reexported || (parent.renamed && role == AsName)))
    || parent.BareName?
  }

  /** `isDeclarationName` excludes exactly the names that are no references, but for those. */
  lemma DeclarationNamesAre(parent: Kind, role: Role)
    ensures !IsDeclarationName(parent, role) <==> Refers(parent, role) || Misnamed(parent, role)
    ensures !(Refers(parent, role) && Misnamed(parent, role))
  {
  }

  /** `isLexicalScope` finds exactly the scopes of the language, but for loops, case blocks, static blocks and class
      expressions; and functions are functions. */
  lemma ScopesAre(k: Kind)
    ensures OpensScope(k) <==> IsScope(k) && !k.Loop? && !k.CaseBlock? && !k.StaticBlock? && !k.ClassExpression?
    ensures IsFunctionLike(k) <==> IsFunction(k)
  {
  }

  /** The scan's places for `var` are the language's, but for static blocks and function bodies. */
  lemma VarPlacesAre(k: Kind, parent: Kind)
    ensures HoldsVars(k) <==> KeepsVars(k, parent) && !k.StaticBlock? && !k.Block?
  {
  }

  /** What the scan binds around, hoists and binds inside is what the language does, but for the names of class expressions,
      catch variables and `arguments`. */
  lemma BindingsAre(k: Kind, parent: Kind)
    ensures BoundAround(k, parent) == DeclaredAround(k, parent) + if k.ClassExpression? then OptionalNames(k.name) else {}
    ensures Hoisted(k, parent)
         == VarsHere(k, parent) + if k.VariableDeclaration? && parent.CatchClause? then Names(k.binding) else {}
    ensures OwnNames(k)
         == BoundInside(k) + (if k.ClassExpression? then OptionalNames(k.name) else {})
            + (if IsFunction(k) && !k.ArrowFunction? then {"arguments"} else {})
  {
  }

  /** What the subtree declares lexically in the scope around it. */
  ghost function LetNames(n: Node, parent: Kind): set<string>
    decreases n, 1
  {
    DeclaredAround(n.kind, parent) + if IsScope(n.kind) then {} else LetNamesAll(n.children, n.kind)
  }

  ghost function LetNamesAll(cs: seq<Node>, parent: Kind): set<string>
    decreases cs, 0
  {
    if cs == [] then {} else LetNames(cs[0], parent) + LetNamesAll(cs[1..], parent)
  }

  /** The `var`s of the subtree that belong to something around it. */
  ghost function VarNames(n: Node, parent: Kind): set<string>
    decreases n, 1
  {
    VarsHere(n.kind, parent) + if KeepsVars(n.kind, parent) then {} else VarNamesAll(n.children, n.kind)
  }

  ghost function VarNamesAll(cs: seq<Node>, parent: Kind): set<string>
    decreases cs, 0
  {
    if cs == [] then {} else VarNames(cs[0], parent) + VarNamesAll(cs[1..], parent)
  }

  ghost function Imports(n: Node): set<string>
    decreases n, 1
  {
    (if n.kind.ImportBinding? then OptionalNames(n.kind.name) else {}) + ImportsAll(n.children)
  }

  ghost function ImportsAll(cs: seq<Node>): set<string>
    decreases cs, 0
  {
    if cs == [] then {} else Imports(cs[0]) + ImportsAll(cs[1..])
  }

  /** The scope that `n` opens binds `x`. */
  ghost predicate Binds(n: Node, parent: Kind, x: string) {
    IsScope(n.kind) &&
    (|| x in OwnNames(n.kind) || x in LetNamesAll(n.children, n.kind)
     || (KeepsVars(n.kind, parent) && x in VarNamesAll(n.children, n.kind))
     || (n.kind.SourceFile? && x in ImportsAll(n.children)))
  }

  /** The subtree refers to `x` and does not bind it. */
  ghost predicate IsFree(n: Node, parent: Kind, x: string)
    decreases n, 1
  {
    (n.kind == Identifier(x) && Refers(parent, n.role)) || AnyFree(n.children, n.kind, x, Binds(n, parent, x))
  }

  ghost predicate AnyFree(cs: seq<Node>, parent: Kind, x: string, bound: bool)
    decreases cs, 0
  {
    cs != [] && ((IsFree(cs[0], parent, x) && !(bound && InScope(parent, cs[0].role))) || AnyFree(cs[1..], parent, x, bound))
  }

  // ---- Where the scan's scopes reach too far ----

  /** The subtree lets `x` out into the scan's scope around it: the name of a class expression, or a lexical declaration
      of a loop head, case block or the like. */
  ghost predicate LetsOut(n: Node, parent: Kind, x: string)
    decreases n, 1
  {
    || (n.kind.ClassExpression? && x in OptionalNames(n.kind.name))
    || (!OpensScope(n.kind) &&
        if IsScope(n.kind) then x in LexicalAll(n.children, n.kind) else LetsOutAny(n.children, n.kind, x))
  }

  ghost predicate LetsOutAny(cs: seq<Node>, parent: Kind, x: string)
    decreases cs, 0
  {
    cs != [] && (LetsOut(cs[0], parent, x) || LetsOutAny(cs[1..], parent, x))
  }

  /** The subtree hoists `x` too far: a catch variable, or a `var` of a static block or a function body. */
  ghost predicate HoistsOut(n: Node, parent: Kind, x: string)
    decreases n, 1
  {
    || (n.kind.VariableDeclaration? && parent.CatchClause? && x in Names(n.kind.binding))
    || (!HoldsVars(n.kind) &&
        if KeepsVars(n.kind, parent) then x in VarsAll(n.children, n.kind) else HoistsOutAny(n.children, n.kind, x))
  }

  ghost predicate HoistsOutAny(cs: seq<Node>, parent: Kind, x: string)
    decreases cs, 0
  {
    cs != [] && (HoistsOut(cs[0], parent, x) || HoistsOutAny(cs[1..], parent, x))
  }

  /** The scan's scope at `n` covers a use of `x` that such a declaration should not cover. */
  ghost predicate ReachesTooFar(n: Node, x: string) {
    OpensScope(n.kind) &&
    (LetsOutAny(n.children, n.kind, x) || (HoldsVars(n.kind) && HoistsOutAny(n.children, n.kind, x)))
  }

  /** The scan's scope at `n` has `x`; for a function's computed key that alone is too far. */
  ghost predicate Covers(n: Node, x: string) {
    OpensScope(n.kind) && x in ScopeNames(n)
  }

  /** The subtree holds a free use of `x` that no scope of the scan reaching too far covers. */
  ghost predicate UsedInTheOpen(n: Node, parent: Kind, x: string)
    decreases n, 1
  {
    || (n.kind == Identifier(x) && Refers(parent, n.role))
    || AnyInTheOpen(n.children, n.kind, x, Binds(n, parent, x) || ReachesTooFar(n, x), Covers(n, x))
  }

  ghost predicate AnyInTheOpen(cs: seq<Node>, parent: Kind, x: string, inside: bool, key: bool)
    decreases cs, 0
  {
    cs != [] &&
    (|| (UsedInTheOpen(cs[0], parent, x) && !(if InScope(parent, cs[0].role) then inside else key))
     || AnyInTheOpen(cs[1..], parent, x, inside, key))
  }

  // ---- What the scan counts by mistake ----

  /** Bindings the scan does not see: `arguments` and imports. */
  ghost predicate BindsUnseen(n: Node, x: string) {
    || (IsFunction(n.kind) && !n.kind.ArrowFunction? && x == "arguments")
    || (n.kind.SourceFile? && x in ImportsAll(n.children))
  }

  /** The subtree mentions `x`, outside the scan's scopes that have it, as a name that is no reference or under a binding
      the scan does not see. */
  ghost predicate Strays(n: Node, parent: Kind, x: string, unseen: bool)
    decreases n, 1
  {
    || (n.kind == Identifier(x) && !IsDeclarationName(parent, n.role) && (unseen || !Refers(parent, n.role)))
    || (!Covers(n, x) && AnyStrays(n.children, n.kind, x, unseen, BindsUnseen(n, x)))
  }

  ghost predicate AnyStrays(cs: seq<Node>, parent: Kind, x: string, unseen: bool, here: bool)
    decreases cs, 0
  {
    cs != [] &&
    (Strays(cs[0], parent, x, unseen || (here && InScope(parent, cs[0].role))) || AnyStrays(cs[1..], parent, x, unseen, here))
  }

  // ---- The scan's scopes are the language's, and what is let out or hoisted out ----

  lemma {:induction false} LexicalIsLetAndLetOut(n: Node, parent: Kind, x: string)
    ensures x in Lexical(n, parent) <==> x in LetNames(n, parent) || LetsOut(n, parent, x)
    decreases n, 1
  {
    LexicalIsLetAndLetOutAll(n.children, n.kind, x);
  }

  lemma {:induction false} LexicalIsLetAndLetOutAll(cs: seq<Node>, parent: Kind, x: string)
    ensures x in LexicalAll(cs, parent) <==> x in LetNamesAll(cs, parent) || LetsOutAny(cs, parent, x)
    decreases cs, 0
  {
    if cs != [] {
      LexicalIsLetAndLetOut(cs[0], parent, x);
      LexicalIsLetAndLetOutAll(cs[1..], parent, x);
    }
  }

  lemma {:induction false} HoistedIsVarAndHoistedOut(n: Node, parent: Kind, x: string)
    ensures x in Vars(n, parent) <==> x in VarNames(n, parent) || HoistsOut(n, parent, x)
    decreases n, 1
  {
    HoistedIsVarAndHoistedOutAll(n.children, n.kind, x);
  }

  lemma {:induction false} HoistedIsVarAndHoistedOutAll(cs: seq<Node>, parent: Kind, x: string)
    ensures x in VarsAll(cs, parent) <==> x in VarNamesAll(cs, parent) || HoistsOutAny(cs, parent, x)
    decreases cs, 0
  {
    if cs != [] {
      HoistedIsVarAndHoistedOut(cs[0], parent, x);
      HoistedIsVarAndHoistedOutAll(cs[1..], parent, x);
    }
  }

  /** A scope of the scan has a name exactly if the language binds it there, in a way the scan sees, or it reaches too far. */
  lemma CoversMeans(n: Node, parent: Kind, x: string)
    ensures ReachesTooFar(n, x) ==> Covers(n, x)
    ensures Covers(n, x) ==> Binds(n, parent, x) || ReachesTooFar(n, x)
  {
    LexicalIsLetAndLetOutAll(n.children, n.kind, x);
    HoistedIsVarAndHoistedOutAll(n.children, n.kind, x);
  }

  /** Where neither the scope at `n` nor one around it has `x` for the scan, the language binds it at `n` at most unseen. */
  lemma BindsSeenOrUnseen(n: Node, parent: Kind, x: string)
    requires !Covers(n, x) && x !in Lexical(n, parent) && x !in Vars(n, parent)
    ensures Binds(n, parent, x) ==> BindsUnseen(n, x)
    ensures x !in LexicalAll(n.children, n.kind) && x !in VarsAll(n.children, n.kind)
  {
    LexicalIsLetAndLetOutAll(n.children, n.kind, x);
    HoistedIsVarAndHoistedOutAll(n.children, n.kind, x);
  }

  // ---- Open uses and strays are what the scan finds ----

  lemma {:induction false} OpenIsFree(n: Node, parent: Kind, x: string)
    requires UsedInTheOpen(n, parent, x)
    ensures x in Free(n, parent) && IsFree(n, parent, x)
    decreases n, 1
  {
    CoversMeans(n, parent, x);
    if !(n.kind == Identifier(x) && Refers(parent, n.role)) {
      AnyOpenIsFree(n.children, n.kind, x, Binds(n, parent, x), Binds(n, parent, x) || ReachesTooFar(n, x), Covers(n, x));
    }
  }

  lemma {:induction false} AnyOpenIsFree(cs: seq<Node>, parent: Kind, x: string, bound: bool, inside: bool, key: bool)
    requires AnyInTheOpen(cs, parent, x, inside, key) && (bound ==> inside)
    ensures x in FreeAll(cs, parent) && AnyFree(cs, parent, x, bound) && (!inside || !key)
    decreases cs, 0
  {
    if UsedInTheOpen(cs[0], parent, x) && !(if InScope(parent, cs[0].role) then inside else key) {
      OpenIsFree(cs[0], parent, x);
    } else {
      AnyOpenIsFree(cs[1..], parent, x, bound, inside, key);
    }
  }

  lemma {:induction false} StrayIsFound(n: Node, parent: Kind, x: string, unseen: bool)
    requires Strays(n, parent, x, unseen)
    ensures x in Free(n, parent)
    decreases n, 1
  {
    if !(n.kind == Identifier(x) && !IsDeclarationName(parent, n.role)) {
      AnyStrayIsFound(n.children, n.kind, x, unseen, BindsUnseen(n, x));
    }
  }

  lemma {:induction false} AnyStrayIsFound(cs: seq<Node>, parent: Kind, x: string, unseen: bool, here: bool)
    requires AnyStrays(cs, parent, x, unseen, here)
    ensures x in FreeAll(cs, parent)
    decreases cs, 0
  {
    if Strays(cs[0], parent, x, unseen || (here && InScope(parent, cs[0].role))) {
      StrayIsFound(cs[0], parent, x, unseen || (here && InScope(parent, cs[0].role)));
    } else {
      AnyStrayIsFound(cs[1..], parent, x, unseen, here);
    }
  }

  /** Under a binding the scan does not see, everything it finds strays. */
  lemma {:induction false} FoundUnseenStrays(n: Node, parent: Kind, x: string)
    requires x in Free(n, parent)
    ensures Strays(n, parent, x, true)
    decreases n, 1
  {
    if !(n.kind == Identifier(x) && !IsDeclarationName(parent, n.role)) {
      AnyFoundUnseenStrays(n.children, n.kind, x, BindsUnseen(n, x));
    }
  }

  lemma {:induction false} AnyFoundUnseenStrays(cs: seq<Node>, parent: Kind, x: string, here: bool)
    requires x in FreeAll(cs, parent)
    ensures AnyStrays(cs, parent, x, true, here)
    decreases cs, 0
  {
    if x in Free(cs[0], parent) {
      FoundUnseenStrays(cs[0], parent, x);
    } else {
      AnyFoundUnseenStrays(cs[1..], parent, x, here);
    }
  }

  lemma {:induction false} FoundIsOpenOrStray(n: Node, parent: Kind, x: string)
    requires x in Free(n, parent) && x !in Lexical(n, parent) && x !in Vars(n, parent)
    ensures UsedInTheOpen(n, parent, x) || Strays(n, parent, x, false)
    decreases n, 1
  {
    if !(n.kind == Identifier(x) && !IsDeclarationName(parent, n.role)) {
      assert !Covers(n, x);
      CoversMeans(n, parent, x);
      BindsSeenOrUnseen(n, parent, x);
      AnyFoundIsOpenOrStray(n.children, n.kind, x, Binds(n, parent, x), BindsUnseen(n, x));
    }
  }

  lemma {:induction false} AnyFoundIsOpenOrStray(cs: seq<Node>, parent: Kind, x: string, inside: bool, here: bool)
    requires x in FreeAll(cs, parent) && x !in LexicalAll(cs, parent) && x !in VarsAll(cs, parent) && (inside ==> here)
    ensures AnyInTheOpen(cs, parent, x, inside, false) || AnyStrays(cs, parent, x, false, here)
    decreases cs, 0
  {
    if x in Free(cs[0], parent) {
      if here && InScope(parent, cs[0].role) {
        FoundUnseenStrays(cs[0], parent, x);
      } else {
        FoundIsOpenOrStray(cs[0], parent, x);
      }
    } else {
      AnyFoundIsOpenOrStray(cs[1..], parent, x, inside, here);
    }
  }

  /** For every file, the scan finds a name exactly if it is used in the open or strays there. */
  lemma FoundExactly(file: Node, x: string)
    requires file.kind.SourceFile?
    ensures x in Free(file, Other) <==> UsedInTheOpen(file, Other, x) || Strays(file, Other, x, false)
  {
    if UsedInTheOpen(file, Other, x) {
      OpenIsFree(file, Other, x);
    }
    if Strays(file, Other, x, false) {
      StrayIsFound(file, Other, x, false);
    }
    if x in Free(file, Other) {
      FoundIsOpenOrStray(file, Other, x);
    }
  }

  // ---- When there is nothing to go wrong ----

  /** No scope of the scan reaches too far for `x` anywhere in the subtree, and no computed key uses a name its function
      declares. */
  ghost predicate NowhereTooFar(n: Node, parent: Kind, x: string)
    decreases n, 1
  {
    !ReachesTooFar(n, x) && NowhereTooFarAll(n.children, n.kind, x, Covers(n, x))
  }

  ghost predicate NowhereTooFarAll(cs: seq<Node>, parent: Kind, x: string, covered: bool)
    decreases cs, 0
  {
    cs == [] ||
    (&& NowhereTooFar(cs[0], parent, x) && (covered && !InScope(parent, cs[0].role) ==> !IsFree(cs[0], parent, x))
     && NowhereTooFarAll(cs[1..], parent, x, covered))
  }

  lemma {:induction false} FreeIsOpen(n: Node, parent: Kind, x: string)
    requires NowhereTooFar(n, parent, x) && IsFree(n, parent, x)
    ensures UsedInTheOpen(n, parent, x)
    decreases n, 1
  {
    if !(n.kind == Identifier(x) && Refers(parent, n.role)) {
      AnyFreeIsOpen(n.children, n.kind, x, Binds(n, parent, x), Covers(n, x));
    }
  }

  lemma {:induction false} AnyFreeIsOpen(cs: seq<Node>, parent: Kind, x: string, bound: bool, covered: bool)
    requires NowhereTooFarAll(cs, parent, x, covered) && AnyFree(cs, parent, x, bound)
    ensures AnyInTheOpen(cs, parent, x, bound, covered)
    decreases cs, 0
  {
    if IsFree(cs[0], parent, x) && !(bound && InScope(parent, cs[0].role)) {
      FreeIsOpen(cs[0], parent, x);
    } else {
      AnyFreeIsOpen(cs[1..], parent, x, bound, covered);
    }
  }
}
