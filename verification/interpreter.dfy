/** The tree-walking evaluator (src/interpreter/interpreter.ts) with the
    call of a `LoxFunction` (src/interpreter/callable.ts). Evaluation is a
    family of functions over an explicit state, bounded by fuel: every rule
    consumes one unit and an exhausted budget yields `OutOfFuel`, which says
    nothing about the program. Host exceptions that are not Lox runtime
    errors (a node the interpreter has no visit for, a call on nil) are
    `Fault`; a division by zero, whose IEEE result the model does not follow,
    is `NonFinite`. Variable access goes through `get` and `assign` on the
    chain, never through resolver distances. */
module Interpreter {
  import opened Common
  import opened Tokens
  import opened Ast
  import opened Environment
  import opened Runtime

  /** The interpreter's current environment chain, the values printed so
      far, and the next fresh object identity. */
  datatype State = State(env: Chain<Value>, out: seq<Value>, nextId: nat)

  datatype Outcome<+T> =
    | Normal(value: T, st: State)
    | Raised(error: RuntimeError, st: State)
    | Fault(st: State)
    | NonFinite(st: State)
    | OutOfFuel

  /** `b` is a state reached from `a`: the chain has the same depth and
      only its innermost table may have gained names, output was only
      appended, and identities were only consumed. */
  predicate Later(a: State, b: State) {
    Scoped(a.env, b.env) && IsPrefix(a.out, b.out) && a.nextId <= b.nextId
  }

  /** Chain `b` has the shape of `a` except for names added to the
      innermost table. */
  predicate Scoped<V>(a: Chain<V>, b: Chain<V>) {
    && |b| == |a|
    && (|a| > 0 ==> a[0].Keys <= b[0].Keys)
    && forall i :: 0 < i < |a| ==> b[i].Keys == a[i].Keys
  }

  predicate Kept<T>(st: State, o: Outcome<T>) {
    o.OutOfFuel? || Later(st, o.st)
  }

  lemma LaterTransitive(a: State, b: State, c: State)
    requires Later(a, b) && Later(b, c)
    ensures Later(a, c)
  {
    assert c.out[..|a.out|] == c.out[..|b.out|][..|a.out|];
  }

  /** Carry a non-normal outcome over to another result type. */
  function Forward<T, U>(o: Outcome<T>): (r: Outcome<U>)
    requires !o.Normal?
    ensures r.Raised? == o.Raised? && r.Fault? == o.Fault? && r.NonFinite? == o.NonFinite? && r.OutOfFuel? == o.OutOfFuel?
    ensures !o.OutOfFuel? ==> r.st == o.st
    ensures o.Raised? ==> r.error == o.error
  {
    match o
    case Raised(e, st) => Raised(e, st)
    case Fault(st) => Fault(st)
    case NonFinite(st) => NonFinite(st)
    case OutOfFuel => OutOfFuel
  }

  /** The same kind of outcome with the state replaced by `st'` and a normal
      result replaced by `v`. */
  function Rewrap<T, U>(o: Outcome<T>, st': State, v: U): (r: Outcome<U>)
    requires !o.OutOfFuel?
    ensures r.Normal? == o.Normal? && r.Raised? == o.Raised? && r.Fault? == o.Fault? && r.NonFinite? == o.NonFinite?
    ensures r.st == st' && (r.Normal? ==> r.value == v) && (r.Raised? ==> r.error == o.error)
  {
    match o
    case Normal(_, _) => Normal(v, st')
    case Raised(e, _) => Raised(e, st')
    case Fault(_) => Fault(st')
    case NonFinite(_) => NonFinite(st')
  }

  // ------------------------------------------------------------ operators

  const NumbersExpected := "Operands must be numbers"
  const PlusOperands := "Operands must be two numbers or two strings."
  const NotCallable := "Can only call functions and classes."

  function ArityMismatch(arity: nat, count: nat): string {
    "Expected " + NatToString(arity) + " arguments but got " + NatToString(count) + "."
  }

  /** What applying an operator to values gives. */
  datatype OpResult = Produced(value: Value) | Threw(error: RuntimeError) | DivisionByZero

  /** `checkNumberOperands`: an error unless every operand is a number. */
  function CheckNumberOperands(op: Token, operands: seq<Value>): (r: Option<RuntimeError>)
    ensures r.None? <==> forall i :: 0 <= i < |operands| ==> operands[i].NumberValue?
    ensures r.Some? ==> r.value == RuntimeError(op, NumbersExpected)
  {
    if AllNumbers(operands) then None else Some(RuntimeError(op, NumbersExpected))
  }

  /** The `result = result && isNumber(operand)` loop. */
  function AllNumbers(operands: seq<Value>): (b: bool)
    ensures b <==> forall i :: 0 <= i < |operands| ==> operands[i].NumberValue?
  {
    if |operands| == 0 then true
    else operands[0].NumberValue? && AllNumbers(operands[1..])
  }

  /** The operators that demand number operands. */
  const NumericOperators: set<TokenType> := {Greater, GreaterEqual, Less, LessEqual, Minus, Slash, Star}

  /** `visitBinaryExpr` once both operands are values. */
  function BinaryOp(op: Token, left: Value, right: Value): (r: OpResult)
    ensures op.kind == Plus ==>
      if left.NumberValue? && right.NumberValue? then r == Produced(NumberValue(left.n + right.n))
      else if left.StringValue? && right.StringValue? then r == Produced(StringValue(left.s + right.s))
      else r == Threw(RuntimeError(op, PlusOperands))
    ensures op.kind in NumericOperators ==>
      (r.Threw? <==> !(left.NumberValue? && right.NumberValue?))
      && (r.Threw? ==> r.error == RuntimeError(op, NumbersExpected))
    ensures op.kind in {Greater, GreaterEqual, Less, LessEqual, BangEqual, EqualEqual} && r.Produced? ==> r.value.BoolValue?
    ensures op.kind in {Minus, Slash, Star} && r.Produced? ==> r.value.NumberValue?
    ensures op.kind == EqualEqual ==> r == Produced(BoolValue(IsEqual(left, right)))
    ensures op.kind == BangEqual ==> r == Produced(BoolValue(!IsEqual(left, right)))
    ensures r.DivisionByZero? <==> op.kind == Slash && left.NumberValue? && right == NumberValue(0.0)
    ensures op.kind !in NumericOperators + {Plus, BangEqual, EqualEqual} ==> r == Produced(NilValue)
  {
    if op.kind == BangEqual then Produced(BoolValue(!IsEqual(left, right)))
    else if op.kind == EqualEqual then Produced(BoolValue(IsEqual(left, right)))
    else if op.kind == Plus then
      if left.NumberValue? && right.NumberValue? then Produced(NumberValue(left.n + right.n))
      else if left.StringValue? && right.StringValue? then Produced(StringValue(left.s + right.s))
      else Threw(RuntimeError(op, PlusOperands))
    else if op.kind in NumericOperators then
      var check := CheckNumberOperands(op, [left, right]);
      if check.Some? then Threw(check.value)
      else
        assert [left, right][0] == left && [left, right][1] == right;
        NumericOp(op.kind, left.n, right.n)
    else Produced(NilValue)
  }

  /** A numeric operator on two numbers. */
  function NumericOp(kind: TokenType, a: real, b: real): (r: OpResult)
    requires kind in NumericOperators
    ensures r.DivisionByZero? <==> kind == Slash && b == 0.0
    ensures r.Produced? && kind in {Greater, GreaterEqual, Less, LessEqual} ==> r.value.BoolValue?
    ensures r.Produced? && kind in {Minus, Slash, Star} ==> r.value.NumberValue?
    ensures !r.Threw?
  {
    match kind
    case Greater => Produced(BoolValue(a > b))
    case GreaterEqual => Produced(BoolValue(a >= b))
    case Less => Produced(BoolValue(a < b))
    case LessEqual => Produced(BoolValue(a <= b))
    case Minus => Produced(NumberValue(a - b))
    case Star => Produced(NumberValue(a * b))
    case Slash => if b == 0.0 then DivisionByZero else Produced(NumberValue(a / b))
  }

  /** `visitUnaryExpr` once the operand is a value: `!` negates
      truthiness, `-` negates a number and rejects anything else, and any
      other operator (the parser also accepts `+`) yields nil. */
  function UnaryOp(op: Token, right: Value): (r: OpResult)
    ensures op.kind == Bang ==> r == Produced(BoolValue(!IsTruthy(right)))
    ensures op.kind == Minus && right.NumberValue? ==> r == Produced(NumberValue(-right.n))
    ensures op.kind == Minus && !right.NumberValue? ==> r == Threw(RuntimeError(op, NumbersExpected))
    ensures op.kind !in {Bang, Minus} ==> r == Produced(NilValue)
  {
    if op.kind == Bang then Produced(BoolValue(!IsTruthy(right)))
    else if op.kind == Minus then
      var check := CheckNumberOperands(op, [right]);
      if check.Some? then Threw(check.value)
      else
        assert [right][0] == right;
        Produced(NumberValue(-1.0 * right.n))
    else Produced(NilValue)
  }

  function Apply(r: OpResult, st: State): (o: Outcome<Value>)
    ensures o.Normal? <==> r.Produced?
    ensures !o.OutOfFuel? && o.st == st
    ensures r.Produced? ==> o.value == r.value
    ensures r.Threw? ==> o == Raised(r.error, st)
    ensures r.DivisionByZero? ==> o.NonFinite?
  {
    match r
    case Produced(v) => Normal(v, st)
    case Threw(e) => Raised(e, st)
    case DivisionByZero => NonFinite(st)
  }

  // ---------------------------------------------------------- expressions

  /** `evaluate`. */
  function Eval(fuel: nat, st: State, e: Expr): (r: Outcome<Value>)
    requires |st.env| > 0
    ensures Kept(st, r)
    ensures fuel > 0 && e.LiteralExpr? ==> r == Normal(FromLiteral(e.lit), st)
    ensures fuel > 0 && e.VariableExpr? ==>
      && (Get(st.env, e.name).Ok? ==> r == Normal(Get(st.env, e.name).value, st))
      && (!Get(st.env, e.name).Ok? ==> r == Raised(Get(st.env, e.name).error, st))
    ensures fuel > 0 && (e.GetExpr? || e.SetExpr? || e.ThisExpr? || e.SuperExpr?) ==> r == Fault(st)
    decreases fuel
  {
    if fuel == 0 then OutOfFuel
    else
      match e
      case LiteralExpr(lit) => Normal(FromLiteral(lit), st)
      case GroupingExpr(inner) => Eval(fuel - 1, st, inner)
      case UnaryExpr(op, right) => EvalUnary(fuel - 1, st, op, right)
      case BinaryExpr(left, op, right) => EvalBinary(fuel - 1, st, left, op, right)
      case LogicalExpr(left, op, right) => EvalLogical(fuel - 1, st, left, op, right)
      case VariableExpr(_, name) =>
        var g := Get(st.env, name);
        if g.Ok? then Normal(g.value, st) else Raised(g.error, st)
      case AssignExpr(_, name, value) => EvalAssign(fuel - 1, st, name, value)
      case CallExpr(callee, paren, args) => EvalCall(fuel - 1, st, callee, paren, args)
      case GetExpr(_, _) => Fault(st)
      case SetExpr(_, _, _) => Fault(st)
      case ThisExpr(_, _) => Fault(st)
      case SuperExpr(_, _) => Fault(st)
  }

  /** `visitUnaryExpr`: the operand, then the operator on its value. */
  function EvalUnary(fuel: nat, st: State, op: Token, right: Expr): (r: Outcome<Value>)
    requires |st.env| > 0
    ensures Kept(st, r)
    ensures fuel > 0 ==>
      var v := Eval(fuel - 1, st, right);
      && (!v.Normal? ==> r == Forward(v))
      && (v.Normal? ==> r == Apply(UnaryOp(op, v.value), v.st))
    decreases fuel
  {
    if fuel == 0 then OutOfFuel
    else
      var v := Eval(fuel - 1, st, right);
      if !v.Normal? then Forward(v) else Apply(UnaryOp(op, v.value), v.st)
  }

  /** Both operands are evaluated, left first, before the operator is
      applied. */
  function EvalBinary(fuel: nat, st: State, left: Expr, op: Token, right: Expr): (r: Outcome<Value>)
    requires |st.env| > 0
    ensures Kept(st, r)
    ensures fuel > 0 && !Eval(fuel - 1, st, left).Normal? ==> r == Forward(Eval(fuel - 1, st, left))
    ensures fuel > 0 && Eval(fuel - 1, st, left).Normal? ==>
      var a := Eval(fuel - 1, st, left);
      var b := Eval(fuel - 1, a.st, right);
      && (b.Normal? ==> r == Apply(BinaryOp(op, a.value, b.value), b.st))
      && (!b.Normal? ==> r == Forward(b))
    decreases fuel
  {
    if fuel == 0 then OutOfFuel
    else
      var a := Eval(fuel - 1, st, left);
      if !a.Normal? then Forward(a)
      else
        var b := Eval(fuel - 1, a.st, right);
        if !b.Normal? then Forward(b)
        else
          LaterTransitive(st, a.st, b.st);
          Apply(BinaryOp(op, a.value, b.value), b.st)
  }

  /** `or` stops at a truthy left operand and `and` at a falsy one. */
  predicate ShortCircuits(op: Token, left: Value) {
    if op.kind == Or then IsTruthy(left) else !IsTruthy(left)
  }

  /** `visitLogicalExpr`: the left value itself when it decides the result,
      otherwise the right operand's value; the right operand is evaluated
      only in the second case. */
  function EvalLogical(fuel: nat, st: State, left: Expr, op: Token, right: Expr): (r: Outcome<Value>)
    requires |st.env| > 0
    ensures Kept(st, r)
    ensures fuel > 0 ==>
      var a := Eval(fuel - 1, st, left);
      && (!a.Normal? ==> r == a)
      && (a.Normal? && ShortCircuits(op, a.value) ==> r == a)
      && (a.Normal? && !ShortCircuits(op, a.value) ==> r == Eval(fuel - 1, a.st, right))
    decreases fuel
  {
    if fuel == 0 then OutOfFuel
    else
      var a := Eval(fuel - 1, st, left);
      if !a.Normal? then a
      else if ShortCircuits(op, a.value) then a
      else
        var b := Eval(fuel - 1, a.st, right);
        if b.OutOfFuel? then b else LaterTransitive(st, a.st, b.st); b
  }

  /** `visitAssignExpr`: evaluate, then `assign` on the chain. */
  function EvalAssign(fuel: nat, st: State, name: Token, value: Expr): (r: Outcome<Value>)
    requires |st.env| > 0
    ensures Kept(st, r)
    ensures fuel > 0 && Eval(fuel - 1, st, value).Normal? ==>
      var v := Eval(fuel - 1, st, value);
      && (Declared(v.st.env, name.lexeme) ==> r == Normal(v.value, v.st.(env := Assign(v.st.env, name, v.value).value)))
      && (Declared(v.st.env, name.lexeme) ==> Get(r.st.env, name) == Ok(v.value))
      && (!Declared(v.st.env, name.lexeme) ==> r == Raised(UndefinedOnAssign(name), v.st))
    ensures fuel > 0 && !Eval(fuel - 1, st, value).Normal? ==> r == Eval(fuel - 1, st, value)
    decreases fuel
  {
    if fuel == 0 then OutOfFuel
    else
      var v := Eval(fuel - 1, st, value);
      if !v.Normal? then v
      else
        var c := Assign(v.st.env, name, v.value);
        if c.Ok? then
          AssignThenGet(v.st.env, name, v.value);
          assert c.value == Assign(v.st.env, name, v.value).value;
          LaterTransitive(st, v.st, v.st.(env := c.value));
          Normal(v.value, v.st.(env := c.value)) else Raised(c.error, v.st)
  }

  /** `visitCallExpr`: the callee, then the arguments left to right, then
      the call. A callee that does not evaluate normally stops everything. */
  function EvalCall(fuel: nat, st: State, callee: Expr, paren: Token, args: seq<Expr>): (r: Outcome<Value>)
    requires |st.env| > 0
    ensures Kept(st, r)
    ensures fuel > 0 && !Eval(fuel - 1, st, callee).Normal? ==> r == Forward(Eval(fuel - 1, st, callee))
    ensures fuel > 0 && Eval(fuel - 1, st, callee).Normal? ==>
      var c := Eval(fuel - 1, st, callee);
      var a := EvalArgs(fuel - 1, c.st, args);
      && (a.Normal? ==> r == CallValue(fuel - 1, a.st, c.value, paren, a.value))
      && (!a.Normal? ==> r == Forward(a))
    decreases fuel
  {
    if fuel == 0 then OutOfFuel
    else
      var c := Eval(fuel - 1, st, callee);
      if !c.Normal? then Forward(c)
      else
        var a := EvalArgs(fuel - 1, c.st, args);
        if !a.Normal? then
          if a.OutOfFuel? then OutOfFuel else LaterTransitive(st, c.st, a.st); Forward(a)
        else
          LaterTransitive(st, c.st, a.st);
          var r := CallValue(fuel - 1, a.st, c.value, paren, a.value);
          if r.OutOfFuel? then r else LaterTransitive(st, a.st, r.st); r
  }

  /** The arguments, left to right; the first that does not evaluate
      normally stops the rest. */
  function EvalArgs(fuel: nat, st: State, args: seq<Expr>): (r: Outcome<seq<Value>>)
    requires |st.env| > 0
    ensures Kept(st, r)
    ensures r.Normal? ==> |r.value| == |args|
    ensures fuel > 0 && |args| == 0 ==> r == Normal([], st)
    ensures fuel > 0 && |args| > 0 ==>
      var v := Eval(fuel - 1, st, args[0]);
      && (!v.Normal? ==> r == Forward(v))
      && (v.Normal? ==>
            var rest := EvalArgs(fuel - 1, v.st, args[1..]);
            && (!rest.Normal? ==> r == Forward(rest))
            && (rest.Normal? ==> r.Normal? && r.value[0] == v.value && r.value[1..] == rest.value && r.st == rest.st))
    decreases fuel
  {
    if fuel == 0 then OutOfFuel
    else if |args| == 0 then Normal([], st)
    else
      var v := Eval(fuel - 1, st, args[0]);
      if !v.Normal? then Forward(v)
      else
        var rest := EvalArgs(fuel - 1, v.st, args[1..]);
        if !rest.Normal? then
          if rest.OutOfFuel? then OutOfFuel else LaterTransitive(st, v.st, rest.st); Forward(rest)
        else
          LaterTransitive(st, v.st, rest.st);
          Normal([v.value] + rest.value, rest.st)
  }

  /** The checks of `visitCallExpr` on an evaluated callee, then its `call`.
      Reading `call` of nil is a host fault; any other value without a
      `call` is a runtime error, and so is a wrong argument count. */
  function CallValue(fuel: nat, st: State, callee: Value, paren: Token, args: seq<Value>): (r: Outcome<Value>)
    requires |st.env| > 0
    ensures Kept(st, r)
    ensures fuel > 0 && callee.NilValue? ==> r == Fault(st)
    ensures fuel > 0 && !callee.NilValue? && Arity(callee).None? ==> r == Raised(RuntimeError(paren, NotCallable), st)
    ensures fuel > 0 && Arity(callee).Some? && Arity(callee).value != |args| ==>
      r == Raised(RuntimeError(paren, ArityMismatch(Arity(callee).value, |args|)), st)
    ensures r.Normal? ==> Arity(callee) == Some(|args|)
    ensures r.Normal? && callee.ClassValue? ==> r.value == InstanceValue(st.nextId, callee.c) && r.st.nextId == st.nextId + 1
    ensures r.Normal? && callee.FunctionValue? ==> r.value == NilValue
    ensures fuel > 0 && callee.ClassValue? && Arity(callee) == Some(|args|) ==>
      r == Normal(ClassCall(callee.c, args, st.nextId), st.(nextId := st.nextId + 1))
    ensures fuel > 0 && callee.FunctionValue? && Arity(callee) == Some(|args|) ==>
      r == CallFunction(fuel - 1, st, callee.f, args)
    decreases fuel
  {
    if fuel == 0 then OutOfFuel
    else if callee.NilValue? then Fault(st)
    else if Arity(callee).None? then Raised(RuntimeError(paren, NotCallable), st)
    else if Arity(callee).value != |args| then
      Raised(RuntimeError(paren, ArityMismatch(Arity(callee).value, |args|)), st)
    else if callee.ClassValue? then
      Normal(ClassCall(callee.c, args, st.nextId), st.(nextId := st.nextId + 1))
    else CallFunction(fuel - 1, st, callee.f, args)
  }

  /** The chain `LoxFunction.call` runs the body in: one fresh table with the
      parameters bound, whose parent is the globals. */
  function CallFrame(env: Chain<Value>, f: LoxFunction, args: seq<Value>): (frame: Chain<Value>)
    requires |env| > 0
    ensures |frame| == 2 && frame[1] == env[|env| - 1]
    ensures frame[0].Keys == ParamNames(f.decl.params)
  {
    [BindParameters(f.decl.params, args), env[|env| - 1]]
  }

  /** `LoxFunction.call`: the body runs as a block in the call frame; the
      caller's chain is back in place afterwards, with only the globals
      possibly changed, and the call yields no value. */
  function CallFunction(fuel: nat, st: State, f: LoxFunction, args: seq<Value>): (r: Outcome<Value>)
    requires |st.env| > 0
    ensures Kept(st, r)
    ensures !r.OutOfFuel? ==> r.st.env[..|st.env| - 1] == st.env[..|st.env| - 1]
    ensures r.Normal? ==> r.value == NilValue
    ensures fuel > 0 ==>
      var b := ExecStmts(fuel - 1, st.(env := CallFrame(st.env, f, args)), f.decl.body);
      && (b.OutOfFuel? ==> r.OutOfFuel?)
      && (!b.OutOfFuel? ==> r == Rewrap(b, b.st.(env := st.env[..|st.env| - 1] + [b.st.env[1]]), NilValue))
    decreases fuel
  {
    if fuel == 0 then OutOfFuel
    else
      var b := ExecStmts(fuel - 1, st.(env := CallFrame(st.env, f, args)), f.decl.body);
      if b.OutOfFuel? then OutOfFuel
      else
        var st' := b.st.(env := st.env[..|st.env| - 1] + [b.st.env[1]]);
        ReturnKept(st, CallFrame(st.env, f, args), b.st);
        Rewrap(b, st', NilValue)
  }

  /** Putting the caller's chain back after a call, with the globals table
      as the call left it, is a state reached from the caller's. */
  lemma ReturnKept(st: State, frame: Chain<Value>, after: State)
    requires |st.env| > 0 && |frame| == 2 && frame[1] == st.env[|st.env| - 1]
    requires Later(st.(env := frame), after)
    ensures var back := st.env[..|st.env| - 1] + [after.env[1]];
      Later(st, after.(env := back)) && back[..|st.env| - 1] == st.env[..|st.env| - 1]
  {
    var n := |st.env| - 1;
    var back := st.env[..n] + [after.env[1]];
    assert back[..n] == st.env[..n];
    forall i | 0 < i < |st.env|
      ensures back[i].Keys == st.env[i].Keys
    {
      if i < n {
        assert back[i] == st.env[i];
      } else {
        assert back[i] == after.env[1];
      }
    }
  }

  // ----------------------------------------------------------- statements

  /** `execute`. */
  function Exec(fuel: nat, st: State, s: Stmt): (r: Outcome<()>)
    requires |st.env| > 0
    ensures Kept(st, r)
    ensures fuel > 0 && s.ExprStmt? ==>
      var v := Eval(fuel - 1, st, s.expr);
      && (v.Normal? ==> r == Normal((), v.st))
      && (!v.Normal? ==> r == Forward(v))
    ensures fuel > 0 && s.PrintStmt? ==>
      var v := Eval(fuel - 1, st, s.expr);
      && (v.Normal? ==> r == Normal((), v.st.(out := v.st.out + [v.value])))
      && (!v.Normal? ==> r == Forward(v))
    ensures fuel > 0 && s.FunctionStmt? ==> r == Normal((), st)
    ensures fuel > 0 && (s.ReturnStmt? || s.ClassStmt?) ==> r == Fault(st)
    decreases fuel
  {
    if fuel == 0 then OutOfFuel
    else
      match s
      case ExprStmt(e) =>
        var v := Eval(fuel - 1, st, e);
        if v.Normal? then Normal((), v.st) else Forward(v)
      case PrintStmt(e) =>
        var v := Eval(fuel - 1, st, e);
        if v.Normal? then Normal((), v.st.(out := v.st.out + [v.value])) else Forward(v)
      case VarStmt(name, init) => ExecVar(fuel - 1, st, name, init)
      case BlockStmt(stmts) => ExecBlock(fuel - 1, st, stmts)
      case IfStmt(cond, thenBranch, elseBranch) => ExecIf(fuel - 1, st, cond, thenBranch, elseBranch)
      case WhileStmt(cond, body) => ExecWhile(fuel - 1, st, cond, body)
      case FunctionStmt(_) => Normal((), st)
      case ReturnStmt(_, _) => Fault(st)
      case ClassStmt(_, _, _) => Fault(st)
  }

  /** `visitVarStmt`: the initializer's value, or nil without one, defined
      in the current table. */
  function ExecVar(fuel: nat, st: State, name: Token, init: Option<Expr>): (r: Outcome<()>)
    requires |st.env| > 0
    ensures Kept(st, r)
    ensures fuel > 0 && init.None? ==> r == Normal((), st.(env := Define(st.env, name.lexeme, NilValue)))
    ensures r.Normal? ==> name.lexeme in r.st.env[0]
    ensures fuel > 0 && init.Some? ==>
      var v := Eval(fuel - 1, st, init.value);
      && (v.Normal? ==> r == Normal((), v.st.(env := Define(v.st.env, name.lexeme, v.value))))
      && (!v.Normal? ==> r == Forward(v))
    decreases fuel
  {
    if fuel == 0 then OutOfFuel
    else if init.None? then Normal((), st.(env := Define(st.env, name.lexeme, NilValue)))
    else
      var v := Eval(fuel - 1, st, init.value);
      if v.Normal? then Normal((), v.st.(env := Define(v.st.env, name.lexeme, v.value))) else Forward(v)
  }

  /** `visitBlockStmt` / `executeBlock`: the statements run with a fresh
      table in front of the chain, which is dropped afterwards whether the
      block completes or not; the enclosing tables keep what the block
      wrote into them. */
  function ExecBlock(fuel: nat, st: State, stmts: seq<Stmt>): (r: Outcome<()>)
    requires |st.env| > 0
    ensures Kept(st, r)
    ensures fuel > 0 && !r.OutOfFuel? ==>
      var inner := ExecStmts(fuel - 1, st.(env := [map[]] + st.env), stmts);
      !inner.OutOfFuel? && r.st.env == inner.st.env[1..]
    ensures !r.OutOfFuel? ==> forall i :: 0 <= i < |st.env| ==> r.st.env[i].Keys == st.env[i].Keys
    ensures fuel > 0 ==>
      var inner := ExecStmts(fuel - 1, st.(env := [map[]] + st.env), stmts);
      && (inner.OutOfFuel? ==> r.OutOfFuel?)
      && (!inner.OutOfFuel? ==> r == Rewrap(inner, inner.st.(env := inner.st.env[1..]), ()))
    decreases fuel
  {
    if fuel == 0 then OutOfFuel
    else
      var b := ExecStmts(fuel - 1, st.(env := [map[]] + st.env), stmts);
      if b.OutOfFuel? then OutOfFuel else Rewrap(b, b.st.(env := b.st.env[1..]), ())
  }

  /** `visitIfStmt`. */
  function ExecIf(fuel: nat, st: State, cond: Expr, thenBranch: Stmt, elseBranch: Option<Stmt>): (r: Outcome<()>)
    requires |st.env| > 0
    ensures Kept(st, r)
    ensures fuel > 0 && Eval(fuel - 1, st, cond).Normal? ==>
      var c := Eval(fuel - 1, st, cond);
      && (IsTruthy(c.value) ==> r == Exec(fuel - 1, c.st, thenBranch))
      && (!IsTruthy(c.value) && elseBranch.Some? ==> r == Exec(fuel - 1, c.st, elseBranch.value))
      && (!IsTruthy(c.value) && elseBranch.None? ==> r == Normal((), c.st))
    ensures fuel > 0 && !Eval(fuel - 1, st, cond).Normal? ==> r == Forward(Eval(fuel - 1, st, cond))
    decreases fuel
  {
    if fuel == 0 then OutOfFuel
    else
      var c := Eval(fuel - 1, st, cond);
      if !c.Normal? then Forward(c)
      else
        var b := if IsTruthy(c.value) then Exec(fuel - 1, c.st, thenBranch)
                 else if elseBranch.Some? then Exec(fuel - 1, c.st, elseBranch.value)
                 else Normal((), c.st);
        if b.OutOfFuel? then b else LaterTransitive(st, c.st, b.st); b
  }

  /** `visitWhileStmt`: evaluate the condition; while it is truthy run the
      body and go round again. */
  function ExecWhile(fuel: nat, st: State, cond: Expr, body: Stmt): (r: Outcome<()>)
    requires |st.env| > 0
    ensures Kept(st, r)
    ensures fuel > 0 && Eval(fuel - 1, st, cond).Normal? && !IsTruthy(Eval(fuel - 1, st, cond).value) ==>
      r == Normal((), Eval(fuel - 1, st, cond).st)
    ensures fuel > 0 && !Eval(fuel - 1, st, cond).Normal? ==> r == Forward(Eval(fuel - 1, st, cond))
    ensures fuel > 0 && Eval(fuel - 1, st, cond).Normal? && IsTruthy(Eval(fuel - 1, st, cond).value) ==>
      var b := Exec(fuel - 1, Eval(fuel - 1, st, cond).st, body);
      r == (if b.Normal? then ExecWhile(fuel - 1, b.st, cond, body) else b)
    decreases fuel
  {
    if fuel == 0 then OutOfFuel
    else
      var c := Eval(fuel - 1, st, cond);
      if !c.Normal? then Forward(c)
      else if !IsTruthy(c.value) then Normal((), c.st)
      else
        var b := Exec(fuel - 1, c.st, body);
        if !b.Normal? then
          if b.OutOfFuel? then b else LaterTransitive(st, c.st, b.st); b
        else
          LaterTransitive(st, c.st, b.st);
          var r := ExecWhile(fuel - 1, b.st, cond, body);
          if r.OutOfFuel? then r else LaterTransitive(st, b.st, r.st); r
  }

  /** Statements in order; the first that does not complete normally stops
      the rest. */
  function ExecStmts(fuel: nat, st: State, stmts: seq<Stmt>): (r: Outcome<()>)
    requires |st.env| > 0
    ensures Kept(st, r)
    ensures fuel > 0 && |stmts| == 0 ==> r == Normal((), st)
    ensures fuel > 0 && |stmts| > 0 && !Exec(fuel - 1, st, stmts[0]).Normal? ==> r == Exec(fuel - 1, st, stmts[0])
    ensures fuel > 0 && |stmts| > 0 && Exec(fuel - 1, st, stmts[0]).Normal? ==>
      r == ExecStmts(fuel - 1, Exec(fuel - 1, st, stmts[0]).st, stmts[1..])
    decreases fuel
  {
    if fuel == 0 then OutOfFuel
    else if |stmts| == 0 then Normal((), st)
    else
      var a := Exec(fuel - 1, st, stmts[0]);
      if !a.Normal? then a
      else
        var r := ExecStmts(fuel - 1, a.st, stmts[1..]);
        if r.OutOfFuel? then r else LaterTransitive(st, a.st, r.st); r
  }

  // -------------------------------------------------------------- program

  /** How a run of `interpret` ends: its boolean result when the model can
      tell (`None` after running out of fuel or dividing by zero), the
      runtime error it reports, and the values printed. */
  datatype Verdict = Verdict(result: Option<bool>, reported: Option<RuntimeError>, out: seq<Value>)

  /** `interpret`: true exactly when every statement ran to completion;
      a runtime error is reported and ends the run with false, and so does
      any other host exception, which is not reported as a Lox error. */
  function Interpret(stmts: seq<Stmt>, globals: map<string, Value>, fuel: nat): (v: Verdict)
    ensures var r := ExecStmts(fuel, State([globals], [], 0), stmts);
      && (v.result == Some(true) <==> r.Normal?)
      && (v.result == Some(false) <==> r.Raised? || r.Fault?)
      && (v.reported.Some? <==> r.Raised?)
      && (r.Raised? ==> v.reported == Some(r.error))
      && (!r.OutOfFuel? ==> v.out == r.st.out)
      && (r.OutOfFuel? ==> v.out == [])
  {
    var r := ExecStmts(fuel, State([globals], [], 0), stmts);
    match r
    case Normal(_, st) => Verdict(Some(true), None, st.out)
    case Raised(e, st) => Verdict(Some(false), Some(e), st.out)
    case Fault(st) => Verdict(Some(false), None, st.out)
    case NonFinite(st) => Verdict(None, None, st.out)
    case OutOfFuel => Verdict(None, None, [])
  }

  // ------------------------------------------------------------ dispatch

  /** `evaluate` hands each compound expression to its visit, with one unit
      of fuel spent; a grouping evaluates to its inner expression. */
  lemma EvalDispatch(fuel: nat, st: State, e: Expr)
    requires fuel > 0 && |st.env| > 0
    ensures e.GroupingExpr? ==> Eval(fuel, st, e) == Eval(fuel - 1, st, e.inner)
    ensures e.UnaryExpr? ==> Eval(fuel, st, e) == EvalUnary(fuel - 1, st, e.op, e.right)
    ensures e.BinaryExpr? ==> Eval(fuel, st, e) == EvalBinary(fuel - 1, st, e.left, e.op, e.right)
    ensures e.LogicalExpr? ==> Eval(fuel, st, e) == EvalLogical(fuel - 1, st, e.left, e.op, e.right)
    ensures e.AssignExpr? ==> Eval(fuel, st, e) == EvalAssign(fuel - 1, st, e.name, e.value)
    ensures e.CallExpr? ==> Eval(fuel, st, e) == EvalCall(fuel - 1, st, e.callee, e.paren, e.args)
  {
  }

  /** `execute` hands each compound statement to its visit, with one unit
      of fuel spent. */
  lemma ExecDispatch(fuel: nat, st: State, s: Stmt)
    requires fuel > 0 && |st.env| > 0
    ensures s.VarStmt? ==> Exec(fuel, st, s) == ExecVar(fuel - 1, st, s.name, s.initializer)
    ensures s.BlockStmt? ==> Exec(fuel, st, s) == ExecBlock(fuel - 1, st, s.stmts)
    ensures s.IfStmt? ==> Exec(fuel, st, s) == ExecIf(fuel - 1, st, s.condition, s.thenBranch, s.elseBranch)
    ensures s.WhileStmt? ==> Exec(fuel, st, s) == ExecWhile(fuel - 1, st, s.condition, s.body)
  {
  }

  // ------------------------------------------------------------- examples

  function Word(kind: TokenType, lexeme: string): Token {
    Token(kind, lexeme, NilLit, 1)
  }

  function Num(n: real): Expr {
    LiteralExpr(NumLit(n))
  }

  /** `var name = n;` defines `name` as `n` in the current table. */
  lemma VarNumberStep(fuel: nat, st: State, name: Token, n: real)
    requires fuel >= 3 && |st.env| > 0
    ensures Exec(fuel, st, VarStmt(name, Some(Num(n)))) == Normal((), st.(env := Define(st.env, name.lexeme, NumberValue(n))))
  {
    assert Eval(fuel - 2, st, Num(n)) == Normal(NumberValue(n), st);
  }

  /** `print name;` appends the name's value to the output. */
  lemma PrintNameStep(fuel: nat, st: State, id: int, name: Token)
    requires fuel >= 2 && |st.env| > 0 && Get(st.env, name).Ok?
    ensures Exec(fuel, st, PrintStmt(VariableExpr(id, name))) == Normal((), st.(out := st.out + [Get(st.env, name).value]))
  {
    assert Eval(fuel - 1, st, VariableExpr(id, name)) == Normal(Get(st.env, name).value, st);
  }

  /** A block whose statements complete normally completes normally, with
      its own table dropped. */
  lemma BlockStep(fuel: nat, st: State, stmts: seq<Stmt>)
    requires fuel >= 2 && |st.env| > 0 && ExecStmts(fuel - 2, st.(env := [map[]] + st.env), stmts).Normal?
    ensures var b := ExecStmts(fuel - 2, st.(env := [map[]] + st.env), stmts);
      Exec(fuel, st, BlockStmt(stmts)) == Normal((), b.st.(env := b.st.env[1..]))
  {
  }

  /** A statement that completes normally hands its state to the rest. */
  lemma StmtsStep(fuel: nat, st: State, stmts: seq<Stmt>)
    requires fuel >= 2 && |st.env| > 0 && |stmts| > 0 && Exec(fuel - 1, st, stmts[0]).Normal?
    ensures ExecStmts(fuel, st, stmts) == ExecStmts(fuel - 1, Exec(fuel - 1, st, stmts[0]).st, stmts[1..])
  {
  }

  /** `var a = 1; { var a = 2; print a; } print a;` prints 2, then 1: the
      inner declaration shadows the outer one and disappears with its
      block. Twenty steps of fuel are enough, and more change nothing. */
  lemma ShadowingExample(fuel: nat)
    requires fuel >= 20
    ensures
      var a := Word(Identifier, "a");
      var program := [
        VarStmt(a, Some(Num(1.0))),
        BlockStmt([VarStmt(a, Some(Num(2.0))), PrintStmt(VariableExpr(0, a))]),
        PrintStmt(VariableExpr(1, a))];
      Interpret(program, map[], fuel) == Verdict(Some(true), None, [NumberValue(2.0), NumberValue(1.0)])
  {
    var a := Word(Identifier, "a");
    var inner := [VarStmt(a, Some(Num(2.0))), PrintStmt(VariableExpr(0, a))];
    var program := [VarStmt(a, Some(Num(1.0))), BlockStmt(inner), PrintStmt(VariableExpr(1, a))];
    var one := map["a" := NumberValue(1.0)];
    var st0 := State([map[]], [], 0);
    var st1 := State([one], [], 0);
    ShadowingOuterVar(fuel - 1);
    ShadowingRest(fuel - 1);
    StmtsStep(fuel, st0, program);
    assert program[1..] == [BlockStmt(inner), PrintStmt(VariableExpr(1, a))];
    assert ExecStmts(fuel, st0, program) == Normal((), State([one], [NumberValue(2.0), NumberValue(1.0)], 0));
  }

  /** The first statement of the shadowing example defines the outer `a`. */
  lemma ShadowingOuterVar(fuel: nat)
    requires fuel >= 3
    ensures Exec(fuel, State([map[]], [], 0), VarStmt(Word(Identifier, "a"), Some(Num(1.0))))
      == Normal((), State([map["a" := NumberValue(1.0)]], [], 0))
  {
    var st0 := State([map[]], [], 0);
    VarNumberStep(fuel, st0, Word(Identifier, "a"), 1.0);
    assert Define(st0.env, "a", NumberValue(1.0)) == [map["a" := NumberValue(1.0)]];
  }

  /** The block and the last `print a` of the shadowing example, once the
      outer `a` is 1. */
  lemma ShadowingRest(fuel: nat)
    requires fuel >= 19
    ensures
      var a := Word(Identifier, "a");
      var inner := [VarStmt(a, Some(Num(2.0))), PrintStmt(VariableExpr(0, a))];
      var one := map["a" := NumberValue(1.0)];
      ExecStmts(fuel, State([one], [], 0), [BlockStmt(inner), PrintStmt(VariableExpr(1, a))])
        == Normal((), State([one], [NumberValue(2.0), NumberValue(1.0)], 0))
  {
    var a := Word(Identifier, "a");
    var inner := [VarStmt(a, Some(Num(2.0))), PrintStmt(VariableExpr(0, a))];
    var rest := [BlockStmt(inner), PrintStmt(VariableExpr(1, a))];
    var one := map["a" := NumberValue(1.0)];
    var st1 := State([one], [], 0);
    var st2 := State([one], [NumberValue(2.0)], 0);
    InnerBlockStep(fuel - 1);
    ShadowingLastPrint(fuel - 1);
    assert rest[0] == BlockStmt(inner) && rest[1..] == [PrintStmt(VariableExpr(1, a))];
    StmtsStep(fuel, st1, rest);
  }

  /** The last `print a` of the shadowing example prints the outer 1. */
  lemma ShadowingLastPrint(fuel: nat)
    requires fuel >= 3
    ensures
      var one := map["a" := NumberValue(1.0)];
      ExecStmts(fuel, State([one], [NumberValue(2.0)], 0), [PrintStmt(VariableExpr(1, Word(Identifier, "a")))])
        == Normal((), State([one], [NumberValue(2.0), NumberValue(1.0)], 0))
  {
    var a := Word(Identifier, "a");
    var one := map["a" := NumberValue(1.0)];
    var st2 := State([one], [NumberValue(2.0)], 0);
    var last := [PrintStmt(VariableExpr(1, a))];
    assert Get(st2.env, a) == Ok(NumberValue(1.0));
    PrintNameStep(fuel - 1, st2, 1, a);
    assert last[1..] == [];
    StmtsStep(fuel, st2, last);
  }

  /** The block of the shadowing example: it prints 2 and leaves the
      outer table as it found it. */
  lemma InnerBlockStep(fuel: nat)
    requires fuel >= 18
    ensures
      var a := Word(Identifier, "a");
      var one := map["a" := NumberValue(1.0)];
      Exec(fuel, State([one], [], 0), BlockStmt([VarStmt(a, Some(Num(2.0))), PrintStmt(VariableExpr(0, a))]))
        == Normal((), State([one], [NumberValue(2.0)], 0))
  {
    var a := Word(Identifier, "a");
    var inner := [VarStmt(a, Some(Num(2.0))), PrintStmt(VariableExpr(0, a))];
    var one := map["a" := NumberValue(1.0)];
    InnerStmtsStep(fuel - 2);
    assert State([one], [], 0).(env := [map[]] + [one]) == State([map[], one], [], 0);
    BlockStep(fuel, State([one], [], 0), inner);
  }

  /** Inside the block, `var a = 2; print a;` defines the inner `a` and
      prints it. */
  lemma InnerStmtsStep(fuel: nat)
    requires fuel >= 16
    ensures
      var a := Word(Identifier, "a");
      var one := map["a" := NumberValue(1.0)];
      var two := map["a" := NumberValue(2.0)];
      ExecStmts(fuel, State([map[], one], [], 0), [VarStmt(a, Some(Num(2.0))), PrintStmt(VariableExpr(0, a))])
        == Normal((), State([two, one], [NumberValue(2.0)], 0))
  {
    var a := Word(Identifier, "a");
    var inner := [VarStmt(a, Some(Num(2.0))), PrintStmt(VariableExpr(0, a))];
    var one := map["a" := NumberValue(1.0)];
    var two := map["a" := NumberValue(2.0)];
    var b0 := State([map[], one], [], 0);
    var b1 := State([two, one], [], 0);
    VarNumberStep(fuel - 1, b0, a, 2.0);
    assert Define(b0.env, "a", NumberValue(2.0)) == b1.env;
    InnerPrintStep(fuel - 1);
    assert inner[1..] == [PrintStmt(VariableExpr(0, a))];
    StmtsStep(fuel, b0, inner);
  }

  /** The block's `print a` prints the inner 2. */
  lemma InnerPrintStep(fuel: nat)
    requires fuel >= 3
    ensures
      var a := Word(Identifier, "a");
      var one := map["a" := NumberValue(1.0)];
      var two := map["a" := NumberValue(2.0)];
      ExecStmts(fuel, State([two, one], [], 0), [PrintStmt(VariableExpr(0, a))])
        == Normal((), State([two, one], [NumberValue(2.0)], 0))
  {
    var a := Word(Identifier, "a");
    var one := map["a" := NumberValue(1.0)];
    var two := map["a" := NumberValue(2.0)];
    var b1 := State([two, one], [], 0);
    var last := [PrintStmt(VariableExpr(0, a))];
    assert Get(b1.env, a) == Ok(NumberValue(2.0));
    PrintNameStep(fuel - 1, b1, 0, a);
    assert last[1..] == [];
    StmtsStep(fuel, b1, last);
  }

  function CallProgram(args: seq<Expr>): seq<Stmt> {
    [ExprStmt(CallExpr(VariableExpr(1, Word(Identifier, "f")), Word(RightParen, ")"), args))]
  }

  /** `fun f(x) { print x; }` as a global. */
  function PrintingFunction(): map<string, Value> {
    var x := Word(Identifier, "x");
    map["f" := FunctionValue(LoxFunction(0, FunDecl(Word(Identifier, "f"), [x], [PrintStmt(VariableExpr(0, x))])))]
  }

  function Printing(): LoxFunction {
    PrintingFunction()["f"].f
  }

  /** A global function of one parameter called with 3 prints 3. */
  lemma CallExample()
    ensures Interpret(CallProgram([Num(3.0)]), PrintingFunction(), 20) == Verdict(Some(true), None, [NumberValue(3.0)])
  {
    var g := PrintingFunction();
    var st0 := State([g], [], 0);
    var program := CallProgram([Num(3.0)]);
    CallExprStep(18);
    assert Exec(19, st0, program[0]) == Normal((), State([g], [NumberValue(3.0)], 0));
    StmtsStep(20, st0, program);
    assert program[1..] == [];
  }

  /** `f(3)` evaluates the global `f`, then 3, then calls: the call prints
      3 and yields nil. */
  lemma CallExprStep(fuel: nat)
    requires fuel >= 8
    ensures
      var g := PrintingFunction();
      Eval(fuel, State([g], [], 0), CallProgram([Num(3.0)])[0].expr) == Normal(NilValue, State([g], [NumberValue(3.0)], 0))
  {
    var g := PrintingFunction();
    var st0 := State([g], [], 0);
    var f := Word(Identifier, "f");
    var e := CallProgram([Num(3.0)])[0].expr;
    EvalDispatch(fuel, st0, e);
    assert Get(st0.env, f) == Ok(FunctionValue(Printing()));
    assert Eval(fuel - 2, st0, VariableExpr(1, f)) == Normal(FunctionValue(Printing()), st0);
    ArgumentStep(fuel - 2);
    CallFunctionStep(fuel - 3);
  }

  /** The argument list `(3)` evaluates to `[3]`. */
  lemma ArgumentStep(fuel: nat)
    requires fuel >= 2
    ensures EvalArgs(fuel, State([PrintingFunction()], [], 0), [Num(3.0)]) == Normal([NumberValue(3.0)], State([PrintingFunction()], [], 0))
  {
    var st0 := State([PrintingFunction()], [], 0);
    var args := [Num(3.0)];
    assert Eval(fuel - 1, st0, args[0]) == Normal(NumberValue(3.0), st0);
    assert args[1..] == [];
    assert EvalArgs(fuel - 1, st0, args[1..]) == Normal([], st0);
    var r := EvalArgs(fuel, st0, args);
    assert r.Normal? && r.value[0] == NumberValue(3.0) && r.value[1..] == [] && r.st == st0;
    assert r.value == [r.value[0]] + r.value[1..] == [NumberValue(3.0)];
    assert r == Normal(r.value, r.st);
  }

  /** Calling `f` with 3 runs its body in a frame binding `x` to 3 and
      puts the global chain back. */
  lemma CallFunctionStep(fuel: nat)
    requires fuel >= 4
    ensures
      var g := PrintingFunction();
      CallFunction(fuel, State([g], [], 0), Printing(), [NumberValue(3.0)]) == Normal(NilValue, State([g], [NumberValue(3.0)], 0))
  {
    var g := PrintingFunction();
    var st0 := State([g], [], 0);
    var x := map["x" := NumberValue(3.0)];
    FrameOfPrinting();
    CallBodyStep(fuel - 1);
    assert st0.env[..0] + [g] == [g];
  }

  /** The frame of `f(3)`: `x` is 3, and the globals enclose it. */
  lemma FrameOfPrinting()
    ensures CallFrame([PrintingFunction()], Printing(), [NumberValue(3.0)]) == [map["x" := NumberValue(3.0)], PrintingFunction()]
  {
    var params := Printing().decl.params;
    assert params[..0] == [];
    assert BindParameters(params, [NumberValue(3.0)]) == map["x" := NumberValue(3.0)];
  }

  /** The body `print x;` in the frame prints 3. */
  lemma CallBodyStep(fuel: nat)
    requires fuel >= 3
    ensures
      var frame := [map["x" := NumberValue(3.0)], PrintingFunction()];
      ExecStmts(fuel, State(frame, [], 0), Printing().decl.body) == Normal((), State(frame, [NumberValue(3.0)], 0))
  {
    var x := Word(Identifier, "x");
    var frame := [map["x" := NumberValue(3.0)], PrintingFunction()];
    var b0 := State(frame, [], 0);
    var body := Printing().decl.body;
    assert body == [PrintStmt(VariableExpr(0, x))];
    assert Get(frame, x) == Ok(NumberValue(3.0));
    PrintNameStep(fuel - 1, b0, 0, x);
    assert body[1..] == [];
    StmtsStep(fuel, b0, body);
  }

  /** `1(x)` with `x` undeclared: the argument is evaluated before the
      callee is checked, so the undefined-variable error wins over "Can only
      call functions and classes.". */
  lemma ArgumentsBeforeCalleeCheck()
    ensures var x := Word(Identifier, "x");
      Eval(10, State([map[]], [], 0), CallExpr(Num(1.0), Word(RightParen, ")"), [VariableExpr(0, x)]))
        == Raised(UndefinedOnGet(x), State([map[]], [], 0))
  {
  }

  /** The same function called with no argument raises the arity error at
      the call's `)`. */
  lemma ArityExample()
    ensures Interpret(CallProgram([]), PrintingFunction(), 20)
      == Verdict(Some(false), Some(RuntimeError(Word(RightParen, ")"), ArityMismatch(1, 0))), [])
  {
  }
}
