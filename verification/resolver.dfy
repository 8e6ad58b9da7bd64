/** The static resolver (src/interpreter/resolver.ts). It walks the tree with
    a stack of scopes, each mapping a name to "defined yet?", and records for
    every local variable use the number of scopes between the use and the
    declaration. Distances are returned as a table keyed by node id, since the
    interpreter has no `resolve` method to hand them to. Errors are appended
    to a list; `hadError` is "the list is non-empty". */
module Resolver {
  import opened Common
  import opened Tokens
  import opened Ast

  datatype FunctionType = NoFunction | FunctionBody | Initializer | Method
  datatype ClassType = NoClass | InClass | InSubclass

  /** A scope: each name declared in it, mapped to whether its declaration
      has finished (`define`) or is still in progress (`declare`). */
  type Scope = map<string, bool>

  /** The resolver's fields. The LAST scope is the innermost, as in the host
      array; an empty stack means global code, which is not tracked. */
  datatype RState = RState(
    scopes: seq<Scope>,
    fn: FunctionType,
    cls: ClassType,
    locals: map<int, nat>,
    errors: seq<Diag>)

  const DuplicateDeclaration := "Already a variable with this name in this scope."
  const OwnInitializer := "Can't read local variable in its own initializer."
  const SelfInheritance := "A class can't inherit from itself."
  const TopLevelReturn := "Can't return from top-level code."
  const InitializerReturn := "Can't return a value from an initializer."
  const ThisOutsideClass := "Can't use 'this' outside of a class."
  const SuperOutsideClass := "Can't use 'super' outside of a class."
  const SuperWithoutSuperclass := "Can't use 'super' in a class with no superclass."

  /** `reportResolverError`: the location is always `" at '<lexeme>'"`, even
      for the EOF token. */
  function ResolverError(token: Token, message: string): (d: Diag)
    ensures d.line == token.line && d.message == message
    ensures d.location == " at '" + token.lexeme + "'"
  {
    Diag(token.line, " at '" + token.lexeme + "'", message)
  }

  function Report(s: RState, token: Token, message: string): (r: RState)
    ensures r.errors == s.errors + [ResolverError(token, message)]
    ensures r.scopes == s.scopes && r.fn == s.fn && r.cls == s.cls && r.locals == s.locals
  {
    s.(errors := s.errors + [ResolverError(token, message)])
  }

  /** A message reported between `s` and `r`. */
  predicate Reported(s: RState, r: RState, message: string) {
    exists i :: |s.errors| <= i < |r.errors| && r.errors[i].message == message
  }

  // ---------------------------------------------------------- scope stack

  /** All scopes but the innermost. */
  function Outer(scopes: seq<Scope>): seq<Scope> {
    if |scopes| == 0 then [] else scopes[..|scopes| - 1]
  }

  function BeginScope(s: RState): (r: RState)
    ensures r.scopes == s.scopes + [map[]] && Outer(r.scopes) == s.scopes
    ensures r.fn == s.fn && r.cls == s.cls && r.locals == s.locals && r.errors == s.errors
  {
    s.(scopes := s.scopes + [map[]])
  }

  /** `endScope`: the host array's `pop`, which does nothing on an empty
      array. */
  function EndScope(s: RState): (r: RState)
    ensures r.scopes == Outer(s.scopes)
    ensures |s.scopes| > 0 ==> |r.scopes| == |s.scopes| - 1
    ensures r.fn == s.fn && r.cls == s.cls && r.locals == s.locals && r.errors == s.errors
  {
    s.(scopes := Outer(s.scopes))
  }

  /** Replace the innermost scope by `m`. */
  function SetInnermost(s: RState, m: Scope): (r: RState)
    requires |s.scopes| > 0
    ensures |r.scopes| == |s.scopes| && Outer(r.scopes) == Outer(s.scopes) && r.scopes[|r.scopes| - 1] == m
    ensures r.fn == s.fn && r.cls == s.cls && r.locals == s.locals && r.errors == s.errors
  {
    s.(scopes := s.scopes[..|s.scopes| - 1] + [m])
  }

  /** `declare`: mark `name` as being declared in the innermost scope; a name
      already in that scope is reported (and re-marked). Global code is not
      tracked. */
  function Declare(s: RState, name: Token): (r: RState)
    ensures |s.scopes| == 0 ==> r == s
    ensures |s.scopes| > 0 ==>
      && |r.scopes| == |s.scopes| && Outer(r.scopes) == Outer(s.scopes)
      && r.scopes[|r.scopes| - 1] == s.scopes[|s.scopes| - 1][name.lexeme := false]
    ensures |s.scopes| > 0 && name.lexeme in s.scopes[|s.scopes| - 1] ==>
      r.errors == s.errors + [ResolverError(name, DuplicateDeclaration)]
    ensures (|s.scopes| == 0 || name.lexeme !in s.scopes[|s.scopes| - 1]) ==> r.errors == s.errors
    ensures r.fn == s.fn && r.cls == s.cls && r.locals == s.locals
  {
    if |s.scopes| == 0 then s
    else
      var scope := s.scopes[|s.scopes| - 1];
      var s1 := if name.lexeme in scope then Report(s, name, DuplicateDeclaration) else s;
      SetInnermost(s1, scope[name.lexeme := false])
  }

  /** `define`: mark `name` as fully declared in the innermost scope. */
  function MarkDefined(s: RState, name: Token): (r: RState)
    ensures |s.scopes| == 0 ==> r == s
    ensures |s.scopes| > 0 ==>
      && |r.scopes| == |s.scopes| && Outer(r.scopes) == Outer(s.scopes)
      && r.scopes[|r.scopes| - 1] == s.scopes[|s.scopes| - 1][name.lexeme := true]
    ensures r.fn == s.fn && r.cls == s.cls && r.locals == s.locals && r.errors == s.errors
  {
    if |s.scopes| == 0 then s
    else SetInnermost(s, s.scopes[|s.scopes| - 1][name.lexeme := true])
  }

  /** The innermost scope declaring `name`, searching from the end of the
      stack. */
  function FindScope(scopes: seq<Scope>, name: string): (r: Option<nat>)
    ensures r.Some? ==>
      && r.value < |scopes| && name in scopes[r.value]
      && forall j :: r.value < j < |scopes| ==> name !in scopes[j]
    ensures r.None? ==> forall j :: 0 <= j < |scopes| ==> name !in scopes[j]
  {
    if |scopes| == 0 then None
    else if name in scopes[|scopes| - 1] then Some(|scopes| - 1)
    else FindScope(scopes[..|scopes| - 1], name)
  }

  /** `resolveLocal`: record, for the node `id`, how many scopes lie between
      the innermost one and the nearest scope declaring `name`; record
      nothing when no scope declares it (a global). */
  function ResolveLocal(s: RState, id: int, name: Token): (r: RState)
    ensures r.scopes == s.scopes && r.fn == s.fn && r.cls == s.cls && r.errors == s.errors
    ensures (forall j :: 0 <= j < |s.scopes| ==> name.lexeme !in s.scopes[j]) ==> r.locals == s.locals
    ensures (exists j :: 0 <= j < |s.scopes| && name.lexeme in s.scopes[j]) ==>
      && r.locals.Keys == s.locals.Keys + {id}
      && (forall k :: k in s.locals && k != id ==> r.locals[k] == s.locals[k])
      && r.locals[id] < |s.scopes|
      && name.lexeme in s.scopes[|s.scopes| - 1 - r.locals[id]]
      && forall j :: |s.scopes| - 1 - r.locals[id] < j < |s.scopes| ==> name.lexeme !in s.scopes[j]
  {
    var i := FindScope(s.scopes, name.lexeme);
    if i.None? then s else s.(locals := s.locals[id := |s.scopes| - 1 - i.value])
  }

  // ---------------------------------------------------------- expressions

  /** What resolving an expression may change: it reports errors and records
      distances, each less than the stack depth, and touches nothing else. */
  predicate ExprStep(s: RState, r: RState) {
    && r.scopes == s.scopes && r.fn == s.fn && r.cls == s.cls
    && IsPrefix(s.errors, r.errors)
    && s.locals.Keys <= r.locals.Keys
    && forall k :: k in r.locals && (k !in s.locals || r.locals[k] != s.locals[k]) ==> r.locals[k] < |s.scopes|
  }

  /** `resolveExpr` with the expression visits. */
  function ResolveExpr(s: RState, e: Expr): (r: RState)
    ensures ExprStep(s, r)
    ensures e.VariableExpr? ==> r == ResolveVariable(s, e.id, e.name)
    ensures e.AssignExpr? ==> r == ResolveLocal(ResolveExpr(s, e.value), e.id, e.name)
    ensures e.ThisExpr? ==> r == ResolveThis(s, e.id, e.keyword)
    ensures e.SuperExpr? ==> r == ResolveSuper(s, e.id, e.keyword)
    decreases e
  {
    match e
    case LiteralExpr(_) => s
    case GroupingExpr(inner) => ResolveExpr(s, inner)
    case UnaryExpr(_, right) => ResolveExpr(s, right)
    case BinaryExpr(left, _, right) =>
      var s1 := ResolveExpr(s, left);
      var s2 := ResolveExpr(s1, right);
      ExprStepTransitive(s, s1, s2);
      s2
    case LogicalExpr(left, _, right) =>
      var s1 := ResolveExpr(s, left);
      var s2 := ResolveExpr(s1, right);
      ExprStepTransitive(s, s1, s2);
      s2
    case VariableExpr(id, name) => ResolveVariable(s, id, name)
    case AssignExpr(id, name, value) =>
      var s1 := ResolveExpr(s, value);
      var s2 := ResolveLocal(s1, id, name);
      ExprStepTransitive(s, s1, s2);
      s2
    case CallExpr(callee, _, args) =>
      var s1 := ResolveExpr(s, callee);
      var s2 := ResolveExprs(s1, args);
      ExprStepTransitive(s, s1, s2);
      s2
    case GetExpr(obj, _) => ResolveExpr(s, obj)
    case SetExpr(obj, _, value) =>
      var s1 := ResolveExpr(s, value);
      var s2 := ResolveExpr(s1, obj);
      ExprStepTransitive(s, s1, s2);
      s2
    case ThisExpr(id, keyword) => ResolveThis(s, id, keyword)
    case SuperExpr(id, keyword) => ResolveSuper(s, id, keyword)
  }

  /** Arguments, left to right. */
  function ResolveExprs(s: RState, es: seq<Expr>): (r: RState)
    ensures ExprStep(s, r)
    ensures |es| == 0 ==> r == s
    ensures |es| > 0 ==> r == ResolveExprs(ResolveExpr(s, es[0]), es[1..])
    decreases es
  {
    if |es| == 0 then s
    else
      var s1 := ResolveExpr(s, es[0]);
      var s2 := ResolveExprs(s1, es[1..]);
      ExprStepTransitive(s, s1, s2);
      s2
  }

  lemma ExprStepTransitive(a: RState, b: RState, c: RState)
    requires ExprStep(a, b) && ExprStep(b, c)
    ensures ExprStep(a, c)
  {
    assert c.errors[..|a.errors|] == c.errors[..|b.errors|][..|a.errors|];
  }

  /** The innermost scope marks `name` as declared but not yet defined: the
      host's `scope.get(name) === false`. */
  predicate BeingDeclared(s: RState, name: string) {
    |s.scopes| > 0 && name in s.scopes[|s.scopes| - 1] && !s.scopes[|s.scopes| - 1][name]
  }

  /** `visitVariableExpr`: a name that the innermost scope marks as still
      being declared is reported; the use is then resolved as usual. */
  function ResolveVariable(s: RState, id: int, name: Token): (r: RState)
    ensures ExprStep(s, r)
    ensures BeingDeclared(s, name.lexeme) ==>
      r.errors == s.errors + [ResolverError(name, OwnInitializer)]
    ensures !BeingDeclared(s, name.lexeme) ==>
      r.errors == s.errors
    ensures r.locals == ResolveLocal(s, id, name).locals
  {
    var s1 := if BeingDeclared(s, name.lexeme)
              then Report(s, name, OwnInitializer) else s;
    ResolveLocal(s1, id, name)
  }

  /** `visitThisExpr`: outside a class an error and no distance. */
  function ResolveThis(s: RState, id: int, keyword: Token): (r: RState)
    ensures ExprStep(s, r)
    ensures s.cls == NoClass ==> r.locals == s.locals && r.errors == s.errors + [ResolverError(keyword, ThisOutsideClass)]
    ensures s.cls != NoClass ==> r == ResolveLocal(s, id, keyword)
  {
    if s.cls == NoClass then Report(s, keyword, ThisOutsideClass) else ResolveLocal(s, id, keyword)
  }

  /** `visitSuperExpr`: an error outside a class or in a class with no
      superclass; the use is resolved either way. */
  function ResolveSuper(s: RState, id: int, keyword: Token): (r: RState)
    ensures ExprStep(s, r)
    ensures s.cls == NoClass ==> r.errors == s.errors + [ResolverError(keyword, SuperOutsideClass)]
    ensures s.cls == InClass ==> r.errors == s.errors + [ResolverError(keyword, SuperWithoutSuperclass)]
    ensures s.cls == InSubclass ==> r.errors == s.errors
    ensures r.locals == ResolveLocal(s, id, keyword).locals
  {
    var s1 := if s.cls == NoClass then Report(s, keyword, SuperOutsideClass)
              else if s.cls != InSubclass then Report(s, keyword, SuperWithoutSuperclass)
              else s;
    ResolveLocal(s1, id, keyword)
  }

  // ----------------------------------------------------------- statements

  /** What resolving a statement may change: scopes other than the innermost
      are untouched, the stack keeps its depth, the function and class
      context are restored, errors are only appended and distances only
      added. */
  predicate StmtStep(s: RState, r: RState) {
    && |r.scopes| == |s.scopes| && Outer(r.scopes) == Outer(s.scopes)
    && r.fn == s.fn && r.cls == s.cls
    && IsPrefix(s.errors, r.errors)
    && s.locals.Keys <= r.locals.Keys
  }

  lemma StmtStepTransitive(a: RState, b: RState, c: RState)
    requires StmtStep(a, b) && StmtStep(b, c)
    ensures StmtStep(a, c)
  {
    assert c.errors[..|a.errors|] == c.errors[..|b.errors|][..|a.errors|];
  }

  lemma ExprStepIsStmtStep(a: RState, b: RState)
    requires ExprStep(a, b)
    ensures StmtStep(a, b)
  {
  }

  function ResolveStmt(s: RState, st: Stmt): (r: RState)
    ensures StmtStep(s, r)
    decreases st
  {
    match st
    case ExprStmt(e) => ResolveExpr(s, e)
    case PrintStmt(e) => ResolveExpr(s, e)
    case VarStmt(name, init) => ResolveVar(s, name, init)
    case BlockStmt(stmts) => ResolveBlock(s, stmts)
    case IfStmt(cond, thenBranch, elseBranch) =>
      var s1 := ResolveExpr(s, cond);
      var s2 := ResolveStmt(s1, thenBranch);
      StmtStepTransitive(s, s1, s2);
      if elseBranch.None? then s2
      else
        var s3 := ResolveStmt(s2, elseBranch.value);
        StmtStepTransitive(s, s2, s3);
        s3
    case WhileStmt(cond, body) =>
      var s1 := ResolveExpr(s, cond);
      var s2 := ResolveStmt(s1, body);
      StmtStepTransitive(s, s1, s2);
      s2
    case FunctionStmt(decl) =>
      var s1 := MarkDefined(Declare(s, decl.name), decl.name);
      DeclareDefineStep(s, decl.name);
      var s2 := ResolveFunction(s1, decl, FunctionBody);
      StmtStepTransitive(s, s1, s2);
      s2
    case ReturnStmt(keyword, value) => ResolveReturn(s, keyword, value)
    case ClassStmt(name, superclass, methods) => ResolveClass(s, name, superclass, methods)
  }

  /** `visitVarStmt`: declare, resolve the initializer, define. */
  function ResolveVar(s: RState, name: Token, init: Option<Expr>): (r: RState)
    ensures StmtStep(s, r)
    ensures |s.scopes| > 0 ==> r.scopes[|r.scopes| - 1] == s.scopes[|s.scopes| - 1][name.lexeme := true]
    ensures |s.scopes| == 0 ==> r.scopes == s.scopes
    ensures |s.scopes| > 0 && init.Some? && init.value.VariableExpr? && init.value.name.lexeme == name.lexeme ==>
      Reported(s, r, OwnInitializer)
    ensures |s.scopes| == 0 && init.Some? && init.value.VariableExpr? ==> r == s
  {
    var s1 := Declare(s, name);
    var s2 := if init.Some? then ResolveExpr(s1, init.value) else s1;
    OwnInitializerReported(s, name, init);
    MarkDefined(s2, name)
  }

  /** An initializer that reads the variable being declared is reported. */
  lemma OwnInitializerReported(s: RState, name: Token, init: Option<Expr>)
    ensures |s.scopes| > 0 && init.Some? && init.value.VariableExpr? && init.value.name.lexeme == name.lexeme ==>
      Reported(s, ResolveExpr(Declare(s, name), init.value), OwnInitializer)
  {
    if |s.scopes| > 0 && init.Some? && init.value.VariableExpr? && init.value.name.lexeme == name.lexeme {
      var s1 := Declare(s, name);
      DeclareMarks(s, name);
      SelfReadReported(s1, init.value);
      assert ResolveExpr(s1, init.value).errors[|s1.errors|].message == OwnInitializer;
    }
  }

  lemma DeclareMarks(s: RState, name: Token)
    requires |s.scopes| > 0
    ensures BeingDeclared(Declare(s, name), name.lexeme) && |s.errors| <= |Declare(s, name).errors|
  {
  }

  lemma SelfReadReported(s: RState, v: Expr)
    requires v.VariableExpr? && BeingDeclared(s, v.name.lexeme)
    ensures ResolveExpr(s, v).errors == s.errors + [ResolverError(v.name, OwnInitializer)]
  {
  }

  /** `visitReturnStmt`. */
  function ResolveReturn(s: RState, keyword: Token, value: Option<Expr>): (r: RState)
    ensures StmtStep(s, r)
    ensures r.scopes == s.scopes
    ensures s.fn == NoFunction ==> Reported(s, r, TopLevelReturn)
    ensures s.fn == Initializer && value.Some? ==> Reported(s, r, InitializerReturn)
    ensures s.fn != NoFunction && value.None? ==> r.errors == s.errors
  {
    var s1 := if s.fn == NoFunction then Report(s, keyword, TopLevelReturn) else s;
    assert s.fn == NoFunction ==> s1.errors[|s.errors|].message == TopLevelReturn;
    if value.None? then s1
    else
      var s2 := if s.fn == Initializer then Report(s1, keyword, InitializerReturn) else s1;
      var r := ResolveExpr(s2, value.value);
      assert s.fn == Initializer ==> s2.errors[|s1.errors|].message == InitializerReturn;
      ReportedKept(s, s1, r, TopLevelReturn);
      ReportedKept(s, s2, r, InitializerReturn);
      r
  }

  /** The block visit: a fresh scope around the statements, dropped after. */
  function ResolveBlock(s: RState, stmts: seq<Stmt>): (r: RState)
    ensures StmtStep(s, r) && r.scopes == s.scopes
    decreases stmts, 1
  {
    var s1 := BeginScope(s);
    var s2 := ResolveStmts(s1, stmts);
    EndScope(s2)
  }

  function ResolveStmts(s: RState, stmts: seq<Stmt>): (r: RState)
    ensures StmtStep(s, r)
    ensures |stmts| == 0 ==> r == s
    ensures |stmts| > 0 ==> r == ResolveStmts(ResolveStmt(s, stmts[0]), stmts[1..])
    decreases stmts, 0
  {
    if |stmts| == 0 then s
    else
      var s1 := ResolveStmt(s, stmts[0]);
      var s2 := ResolveStmts(s1, stmts[1..]);
      StmtStepTransitive(s, s1, s2);
      s2
  }

  /** Statements resolve in order: a list resolves as its first part and
      then, from the state that part left, its second part. */
  lemma {:induction false} ResolveStmtsAppend(s: RState, a: seq<Stmt>, b: seq<Stmt>)
    ensures ResolveStmts(s, a + b) == ResolveStmts(ResolveStmts(s, a), b)
    decreases |a|
  {
    if |a| == 0 {
      assert a + b == b;
    } else {
      assert (a + b)[0] == a[0] && (a + b)[1..] == a[1..] + b;
      ResolveStmtsAppend(ResolveStmt(s, a[0]), a[1..], b);
    }
  }

  /** Declaring and defining a name is a statement step. */
  lemma DeclareDefineStep(s: RState, name: Token)
    ensures StmtStep(s, MarkDefined(Declare(s, name), name))
  {
    var s1 := Declare(s, name);
    assert IsPrefix(s.errors, s1.errors);
  }

  /** The names of a parameter list. */
  function Names(params: seq<Token>): set<string> {
    set p | p in params :: p.lexeme
  }

  /** `after` is the scope `before` once every parameter is declared and
      defined: exactly the parameter names are added, each marked defined,
      and every other entry is kept. */
  predicate ParamsDeclared(before: Scope, after: Scope, params: seq<Token>) {
    && after.Keys == before.Keys + Names(params)
    && (forall i :: 0 <= i < |params| ==> after[params[i].lexeme])
    && (forall k :: k in before && k !in Names(params) ==> after[k] == before[k])
  }

  /** Each parameter declared and defined in the function's scope. */
  function DeclareParams(s: RState, params: seq<Token>): (r: RState)
    ensures StmtStep(s, r)
    ensures |s.scopes| == 0 ==> r.scopes == s.scopes
    ensures |s.scopes| > 0 ==> ParamsDeclared(s.scopes[|s.scopes| - 1], r.scopes[|r.scopes| - 1], params)
    decreases params
  {
    if |params| == 0 then s
    else
      var s1 := MarkDefined(Declare(s, params[0]), params[0]);
      DeclareDefineStep(s, params[0]);
      var s2 := DeclareParams(s1, params[1..]);
      StmtStepTransitive(s, s1, s2);
      if |s.scopes| == 0 then s2
      else
        DeclareOneParam(s, params[0]);
        ParamsDeclaredCons(s.scopes[|s.scopes| - 1], s2.scopes[|s2.scopes| - 1], params);
        s2
  }

  /** One parameter declared and defined: marked defined in the innermost
      scope. */
  lemma DeclareOneParam(s: RState, p: Token)
    requires |s.scopes| > 0
    ensures var s1 := MarkDefined(Declare(s, p), p);
      |s1.scopes| == |s.scopes| && s1.scopes[|s1.scopes| - 1] == s.scopes[|s.scopes| - 1][p.lexeme := true]
  {
  }

  /** Declaring the first parameter and then the rest declares them all. */
  lemma ParamsDeclaredCons(before: Scope, after: Scope, params: seq<Token>)
    requires |params| > 0
    requires ParamsDeclared(before[params[0].lexeme := true], after, params[1..])
    ensures ParamsDeclared(before, after, params)
  {
    assert Names(params) == {params[0].lexeme} + Names(params[1..]) by {
      forall x | x in Names(params) ensures x in {params[0].lexeme} + Names(params[1..]) {
        var p :| p in params && p.lexeme == x;
        var i :| 0 <= i < |params| && params[i] == p;
        if i > 0 { assert params[1..][i - 1] == p; }
      }
      forall x | x in Names(params[1..]) ensures x in Names(params) {
        var p :| p in params[1..] && p.lexeme == x;
      }
    }
    forall i | 0 <= i < |params| ensures after[params[i].lexeme] {
      if i > 0 { assert params[1..][i - 1] == params[i]; }
      else if params[0].lexeme !in Names(params[1..]) {
        assert after[params[0].lexeme] == before[params[0].lexeme := true][params[0].lexeme];
      }
      else {
        var p :| p in params[1..] && p.lexeme == params[0].lexeme;
        var j :| 0 <= j < |params[1..]| && params[1..][j] == p;
      }
    }
  }

  /** `resolveFunction`: the body resolves in a fresh scope holding the
      parameters, with the function type set to `kind`; both are undone
      after. */
  function ResolveFunction(s: RState, decl: FunDecl, kind: FunctionType): (r: RState)
    ensures StmtStep(s, r) && r.scopes == s.scopes
    decreases decl
  {
    var s1 := BeginScope(s.(fn := kind));
    var s2 := DeclareParams(s1, decl.params);
    var s3 := ResolveStmts(s2, decl.body);
    EndScope(s3).(fn := s.fn)
  }

  /** `visitClassStmt`: the header, then the body, then the enclosing class
      type is restored. */
  function ResolveClass(s: RState, name: Token, superclass: Option<SuperRef>, methods: seq<FunDecl>): (r: RState)
    ensures StmtStep(s, r)
    ensures superclass.Some? && superclass.value.name.lexeme == name.lexeme ==> Reported(s, r, SelfInheritance)
    decreases methods, 2
  {
    var s1 := ClassHeader(s, name, superclass);
    var s2 := ClassBody(s1, superclass.Some?, methods);
    ReportedKept(s, s1, s2, SelfInheritance);
    PrefixTransitive(s.errors, s1.errors, s2.errors);
    s2.(cls := s.cls)
  }

  /** The class name is declared and defined, inheriting from a class of
      the same name is reported, and the superclass is resolved as a
      variable use in subclass context. */
  function ClassHeader(s: RState, name: Token, superclass: Option<SuperRef>): (r: RState)
    ensures |r.scopes| == |s.scopes| && Outer(r.scopes) == Outer(s.scopes)
    ensures r.fn == s.fn && r.cls == (if superclass.Some? then InSubclass else InClass)
    ensures IsPrefix(s.errors, r.errors) && s.locals.Keys <= r.locals.Keys
    ensures superclass.Some? && superclass.value.name.lexeme == name.lexeme ==> Reported(s, r, SelfInheritance)
  {
    var s0 := Declare(s.(cls := InClass), name);
    assert IsPrefix(s.errors, s0.errors);
    var s1 := MarkDefined(s0, name);
    var s2 := if superclass.Some? && name.lexeme == superclass.value.name.lexeme
              then Report(s1, superclass.value.name, SelfInheritance) else s1;
    assert IsPrefix(s1.errors, s2.errors);
    PrefixTransitive(s.errors, s1.errors, s2.errors);
    assert superclass.Some? && name.lexeme == superclass.value.name.lexeme ==>
      s2.errors[|s1.errors|].message == SelfInheritance;
    if superclass.None? then s2
    else
      var r := ResolveExpr(s2.(cls := InSubclass), VariableExpr(superclass.value.id, superclass.value.name));
      PrefixTransitive(s.errors, s2.errors, r.errors);
      ReportedKept(s, s2, r, SelfInheritance);
      r
  }

  /** The class body: a scope binding `super` when there is a superclass,
      inside it a scope binding `this`, the methods, and both scopes closed. */
  function ClassBody(s: RState, hasSuperclass: bool, methods: seq<FunDecl>): (r: RState)
    ensures StmtStep(s, r) && r.scopes == s.scopes
    decreases methods, 1
  {
    var s1 := if hasSuperclass then SetInnermost(BeginScope(s), map["super" := true]) else s;
    var s2 := SetInnermost(BeginScope(s1), map["this" := true]);
    var s3 := ResolveMethods(s2, methods);
    var s4 := EndScope(s3);
    if hasSuperclass then EndScope(s4) else s4
  }

  /** The methods of a class, each resolved as an initializer when it is
      named `init` and as a method otherwise. */
  function ResolveMethods(s: RState, methods: seq<FunDecl>): (r: RState)
    ensures StmtStep(s, r) && r.scopes == s.scopes
    ensures |methods| == 0 ==> r == s
    ensures |methods| > 0 ==>
      r == ResolveMethods(ResolveFunction(s, methods[0], if methods[0].name.lexeme == "init" then Initializer else Method), methods[1..])
    decreases methods, 0
  {
    if |methods| == 0 then s
    else
      var kind := if methods[0].name.lexeme == "init" then Initializer else Method;
      var s1 := ResolveFunction(s, methods[0], kind);
      var s2 := ResolveMethods(s1, methods[1..]);
      StmtStepTransitive(s, s1, s2);
      s2
  }

  lemma ReportedKept(a: RState, b: RState, c: RState, message: string)
    requires IsPrefix(a.errors, b.errors) && IsPrefix(b.errors, c.errors)
    ensures Reported(a, b, message) ==> Reported(a, c, message)
  {
    if Reported(a, b, message) {
      var i :| |a.errors| <= i < |b.errors| && b.errors[i].message == message;
      assert c.errors[i] == b.errors[i];
    }
  }

  /** Resolving a program: global code, with no scope, function or class. */
  function Resolve(stmts: seq<Stmt>): (r: RState)
    ensures r.scopes == [] && r.fn == NoFunction && r.cls == NoClass
  {
    ResolveStmts(RState([], NoFunction, NoClass, map[], []), stmts)
  }

  /** A program resolves statement by statement: the state after a prefix
      is where the rest starts, so what a later statement reports or
      records is added to what the earlier ones left. */
  lemma ResolveInOrder(a: seq<Stmt>, b: seq<Stmt>)
    ensures Resolve(a + b) == ResolveStmts(Resolve(a), b)
    ensures Resolve([]) == RState([], NoFunction, NoClass, map[], [])
  {
    ResolveStmtsAppend(RState([], NoFunction, NoClass, map[], []), a, b);
  }

  // ------------------------------------------------------------ dispatch

  /** `resolveExpr` on a compound expression resolves its operands in the
      order the visits take them: an assignment's value before its target,
      a set's value before its object, a call's callee before its
      arguments. */
  lemma ResolveExprDispatch(s: RState, e: Expr)
    ensures e.LiteralExpr? ==> ResolveExpr(s, e) == s
    ensures e.GroupingExpr? ==> ResolveExpr(s, e) == ResolveExpr(s, e.inner)
    ensures e.UnaryExpr? ==> ResolveExpr(s, e) == ResolveExpr(s, e.right)
    ensures e.BinaryExpr? || e.LogicalExpr? ==> ResolveExpr(s, e) == ResolveExpr(ResolveExpr(s, e.left), e.right)
    ensures e.CallExpr? ==> ResolveExpr(s, e) == ResolveExprs(ResolveExpr(s, e.callee), e.args)
    ensures e.GetExpr? ==> ResolveExpr(s, e) == ResolveExpr(s, e.obj)
    ensures e.SetExpr? ==> ResolveExpr(s, e) == ResolveExpr(ResolveExpr(s, e.value), e.obj)
  {
  }

  /** `resolveStmt`: each statement visit resolves its parts in source
      order; a block's statements run in a fresh scope that is closed
      after, and a function's name is declared and defined before its body
      is resolved. */
  lemma ResolveStmtDispatch(s: RState, st: Stmt)
    ensures st.ExprStmt? || st.PrintStmt? ==> ResolveStmt(s, st) == ResolveExpr(s, st.expr)
    ensures st.VarStmt? ==> ResolveStmt(s, st) == ResolveVar(s, st.name, st.initializer)
    ensures st.BlockStmt? ==> ResolveStmt(s, st) == EndScope(ResolveStmts(BeginScope(s), st.stmts))
    ensures st.IfStmt? ==>
      var s2 := ResolveStmt(ResolveExpr(s, st.condition), st.thenBranch);
      ResolveStmt(s, st) == if st.elseBranch.None? then s2 else ResolveStmt(s2, st.elseBranch.value)
    ensures st.WhileStmt? ==> ResolveStmt(s, st) == ResolveStmt(ResolveExpr(s, st.condition), st.body)
    ensures st.FunctionStmt? ==>
      ResolveStmt(s, st) == ResolveFunction(MarkDefined(Declare(s, st.decl.name), st.decl.name), st.decl, FunctionBody)
    ensures st.ReturnStmt? ==> ResolveStmt(s, st) == ResolveReturn(s, st.keyword, st.value)
    ensures st.ClassStmt? ==> ResolveStmt(s, st) == ResolveClass(s, st.name, st.superclass, st.methods)
  {
  }

  /** `resolveFunction`: the body resolves, with the function type set to
      `kind`, in one fresh scope holding exactly the parameters, each
      defined; the scope is closed and the enclosing type restored after. */
  lemma ResolveFunctionParts(s: RState, decl: FunDecl, kind: FunctionType)
    ensures var inner := DeclareParams(BeginScope(s.(fn := kind)), decl.params);
      && inner.fn == kind && inner.cls == s.cls
      && |inner.scopes| == |s.scopes| + 1 && Outer(inner.scopes) == s.scopes
      && ParamsDeclared(map[], inner.scopes[|s.scopes|], decl.params)
      && ResolveFunction(s, decl, kind) == EndScope(ResolveStmts(inner, decl.body)).(fn := s.fn)
  {
    var s1 := BeginScope(s.(fn := kind));
    assert s1.scopes[|s1.scopes| - 1] == map[];
  }

  /** Opening a scope and filling it with `m`. */
  lemma OpenWith(s: RState, m: Scope)
    ensures SetInnermost(BeginScope(s), m) == s.(scopes := s.scopes + [m])
  {
    var r := SetInnermost(BeginScope(s), m);
    assert r.scopes == s.scopes + [m];
  }

  /** The scopes a class body opens around its methods. */
  function ClassScopes(s: RState, hasSuperclass: bool): seq<Scope> {
    s.scopes + (if hasSuperclass then [map["super" := true]] else []) + [map["this" := true]]
  }

  /** The class body is its methods resolved inside the class scopes, which
      are closed again after. */
  lemma ClassBodyParts(s: RState, hasSuperclass: bool, methods: seq<FunDecl>)
    ensures ClassBody(s, hasSuperclass, methods) == ResolveMethods(s.(scopes := ClassScopes(s, hasSuperclass)), methods).(scopes := s.scopes)
  {
    var thisScope := map["this" := true];
    if hasSuperclass {
      var s1 := s.(scopes := s.scopes + [map["super" := true]]);
      OpenWith(s, map["super" := true]);
      OpenWith(s1, thisScope);
      assert s1.(scopes := s1.scopes + [thisScope]) == s.(scopes := ClassScopes(s, true));
    } else {
      OpenWith(s, thisScope);
      assert s.(scopes := s.scopes + [thisScope]) == s.(scopes := ClassScopes(s, false));
    }
  }

  /** `visitClassStmt`: after the header, every method resolves inside a
      scope binding `this`, itself inside a scope binding `super` when
      there is a superclass; both scopes are closed and the enclosing class
      and function types are in place after. */
  lemma ResolveClassParts(s: RState, name: Token, superclass: Option<SuperRef>, methods: seq<FunDecl>)
    ensures var h := ClassHeader(s, name, superclass);
      var m := ResolveMethods(h.(scopes := ClassScopes(h, superclass.Some?)), methods);
      var r := ResolveClass(s, name, superclass, methods);
      && r.errors == m.errors && r.locals == m.locals
      && r.scopes == h.scopes && r.fn == s.fn && r.cls == s.cls
  {
    ClassBodyParts(ClassHeader(s, name, superclass), superclass.Some?, methods);
  }

  // ------------------------------------------------------------- examples

  function Name(lexeme: string): Token {
    Token(Identifier, lexeme, NilLit, 1)
  }

  /** `var x; x;` at top level: globals are not tracked, so the use gets no
      distance and nothing is reported. */
  lemma GlobalUseUntracked()
    ensures Resolve([VarStmt(Name("x"), None), ExprStmt(VariableExpr(7, Name("x")))])
      == RState([], NoFunction, NoClass, map[], [])
  {
  }

  /** `{ var x; x; }`: the use is in the scope that declares it, distance 0. */
  lemma BlockUseDistance(x: Token, id: int)
    ensures var r := Resolve([BlockStmt([VarStmt(x, None), ExprStmt(VariableExpr(id, x))])]);
      r.locals == map[id := 0] && r.errors == []
  {
    var s0 := RState([], NoFunction, NoClass, map[], []);
    var inner := [VarStmt(x, None), ExprStmt(VariableExpr(id, x))];
    DeclaredThenRead(s0, x, id);
    OneStmt(s0, BlockStmt(inner));
  }

  /** `{ var x; { x = 1; } }`: an assignment one block further in is one
      scope away. */
  lemma NestedAssignDistance(x: Token, id: int)
    ensures var r := Resolve([BlockStmt([VarStmt(x, None), BlockStmt([ExprStmt(AssignExpr(id, x, LiteralExpr(NumLit(1.0))))])])]);
      r.locals == map[id := 1] && r.errors == []
  {
    var s0 := RState([], NoFunction, NoClass, map[], []);
    var inner := [VarStmt(x, None), BlockStmt([ExprStmt(AssignExpr(id, x, LiteralExpr(NumLit(1.0))))])];
    DeclaredThenAssignedInside(s0, x, id, LiteralExpr(NumLit(1.0)));
    OneStmt(s0, BlockStmt(inner));
  }

  /** In a fresh scope, a name declared and then read is at distance 0. */
  lemma DeclaredThenRead(s: RState, x: Token, id: int)
    ensures var r := ResolveBlock(s, [VarStmt(x, None), ExprStmt(VariableExpr(id, x))]);
      r == s.(locals := s.locals[id := 0])
  {
    var inner := [VarStmt(x, None), ExprStmt(VariableExpr(id, x))];
    var s1 := Opened(s, x);
    VarInFreshScope(s, x);
    ReadInnermost(s, x, id);
    TwoStmts(BeginScope(s), inner);
    CloseScope(s, s1.(locals := s.locals[id := 0]));
  }

  /** In a fresh scope, a name declared and then assigned one block
      further in is at distance 1. */
  lemma DeclaredThenAssignedInside(s: RState, x: Token, id: int, v: Expr)
    requires v.LiteralExpr?
    ensures var r := ResolveBlock(s, [VarStmt(x, None), BlockStmt([ExprStmt(AssignExpr(id, x, v))])]);
      r == s.(locals := s.locals[id := 1])
  {
    var inner := [VarStmt(x, None), BlockStmt([ExprStmt(AssignExpr(id, x, v))])];
    var s1 := Opened(s, x);
    VarInFreshScope(s, x);
    AssignOneOut(s, x, id, v);
    TwoStmts(BeginScope(s), inner);
    CloseScope(s, s1.(locals := s.locals[id := 1]));
  }

  /** `s` with a new innermost scope holding `x` as defined. */
  function Opened(s: RState, x: Token): RState {
    s.(scopes := s.scopes + [map[x.lexeme := true]])
  }

  lemma VarInFreshScope(s: RState, x: Token)
    ensures ResolveStmt(BeginScope(s), VarStmt(x, None)) == Opened(s, x)
  {
    DeclareOnly(BeginScope(s), x);
  }

  lemma ReadInnermost(s: RState, x: Token, id: int)
    ensures ResolveStmt(Opened(s, x), ExprStmt(VariableExpr(id, x))) == Opened(s, x).(locals := s.locals[id := 0])
  {
    var s1 := Opened(s, x);
    var top := map[x.lexeme := true];
    assert s1.scopes[|s1.scopes| - 1] == top;
    assert x.lexeme in top && top[x.lexeme];
    FoundInnermost(s1.scopes, x.lexeme);
    assert !BeingDeclared(s1, x.lexeme);
    ReadDefined(s1, id, x, 0);
  }

  lemma AssignOneOut(s: RState, x: Token, id: int, v: Expr)
    requires v.LiteralExpr?
    ensures ResolveStmt(Opened(s, x), BlockStmt([ExprStmt(AssignExpr(id, x, v))])) == Opened(s, x).(locals := s.locals[id := 1])
  {
    var s1 := Opened(s, x);
    var t := BeginScope(s1);
    var assign := ExprStmt(AssignExpr(id, x, v));
    assert t.scopes[|t.scopes| - 2] == map[x.lexeme := true];
    FoundOneOut(t.scopes, x.lexeme);
    AssignDefined(t, id, x, v, 1);
    OneStmt(t, assign);
    CloseScope(s1, t.(locals := s.locals[id := 1]));
  }

  /** A block whose statements took the opened scope to `t` ends in `s`
      with `t`'s distances and errors. */
  lemma CloseScope(s: RState, t: RState)
    requires |t.scopes| == |s.scopes| + 1 && Outer(t.scopes) == s.scopes
    ensures EndScope(t) == t.(scopes := s.scopes)
  {
  }

  lemma FoundInnermost(scopes: seq<Scope>, name: string)
    requires |scopes| > 0 && name in scopes[|scopes| - 1]
    ensures FindScope(scopes, name) == Some(|scopes| - 1)
  {
  }

  lemma FoundOneOut(scopes: seq<Scope>, name: string)
    requires |scopes| > 1 && name !in scopes[|scopes| - 1] && name in scopes[|scopes| - 2]
    ensures FindScope(scopes, name) == Some(|scopes| - 2)
  {
    assert scopes[..|scopes| - 1][|scopes| - 2] == scopes[|scopes| - 2];
  }

  /** `var x;` inside a scope that does not hold `x` yet marks it defined
      and reports nothing. */
  lemma DeclareOnly(s: RState, x: Token)
    requires |s.scopes| > 0 && x.lexeme !in s.scopes[|s.scopes| - 1]
    ensures ResolveStmt(s, VarStmt(x, None))
      == s.(scopes := Outer(s.scopes) + [s.scopes[|s.scopes| - 1][x.lexeme := true]])
  {
    var top := s.scopes[|s.scopes| - 1];
    assert top[x.lexeme := false][x.lexeme := true] == top[x.lexeme := true];
  }

  /** A read of a name the innermost scope holds as defined, with `d`
      scopes between. */
  lemma ReadDefined(s: RState, id: int, x: Token, d: nat)
    requires d < |s.scopes| && FindScope(s.scopes, x.lexeme) == Some(|s.scopes| - 1 - d)
    requires !BeingDeclared(s, x.lexeme)
    ensures ResolveStmt(s, ExprStmt(VariableExpr(id, x))) == s.(locals := s.locals[id := d])
  {
  }

  /** An assignment of a literal to a name `d` scopes out. */
  lemma AssignDefined(s: RState, id: int, x: Token, v: Expr, d: nat)
    requires v.LiteralExpr? && d < |s.scopes| && FindScope(s.scopes, x.lexeme) == Some(|s.scopes| - 1 - d)
    ensures ResolveStmt(s, ExprStmt(AssignExpr(id, x, v))) == s.(locals := s.locals[id := d])
  {
  }

  lemma OneStmt(s: RState, a: Stmt)
    ensures ResolveStmts(s, [a]) == ResolveStmt(s, a)
  {
    assert [a][1..] == [];
  }

  lemma TwoStmts(s: RState, stmts: seq<Stmt>)
    requires |stmts| == 2
    ensures ResolveStmts(s, stmts) == ResolveStmt(ResolveStmt(s, stmts[0]), stmts[1])
  {
    assert stmts[1..][1..] == [];
    assert stmts[1..][0] == stmts[1];
  }
}
