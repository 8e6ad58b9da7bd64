/** The recursive-descent parser (src/parser/parser.ts). Every production is
    a function from the token list and a parser state (cursor and reported
    errors) to either the parsed node and the new state, or `Failed`, which
    stands for a thrown `ParseError` and carries the state at the throw. */
module Parser {
  import opened Common
  import opened Tokens
  import opened Ast

  /** A token list the parser can walk: it ends with the EOF token, as every
      scanner output does. */
  predicate ValidTokens(toks: seq<Token>) {
    |toks| > 0 && toks[|toks| - 1].kind == Eof
  }

  datatype PState = PState(pos: nat, errors: seq<Diag>)

  predicate Valid(toks: seq<Token>, st: PState) {
    ValidTokens(toks) && st.pos < |toks|
  }

  datatype Parsed<T> = Parsed(value: T, st: PState) | Failed(st: PState)

  /** What every production guarantees: the cursor stays on the token list
      and never moves back, errors are only appended, a production that
      succeeds has consumed at least one token, and one that throws has
      reported an error first. */
  predicate Advances<T>(toks: seq<Token>, st: PState, r: Parsed<T>) {
    && Extends(toks, st, r)
    && (r.Parsed? ==> st.pos < r.st.pos)
  }

  /** `Advances` without the progress: what a loop over a production, or an
      optional piece of a statement, guarantees. */
  predicate Extends<T>(toks: seq<Token>, st: PState, r: Parsed<T>) {
    && st.pos <= r.st.pos < |toks|
    && IsPrefix(st.errors, r.st.errors)
    && (r.Failed? ==> |st.errors| < |r.st.errors|)
  }

  // ---------------------------------------------------------------- cursor

  function Peek(toks: seq<Token>, st: PState): Token
    requires Valid(toks, st)
  {
    toks[st.pos]
  }

  predicate IsAtEnd(toks: seq<Token>, st: PState)
    requires Valid(toks, st)
  {
    Peek(toks, st).kind == Eof
  }

  /** `check`: false at EOF whatever kind is asked for. */
  predicate Check(toks: seq<Token>, st: PState, kind: TokenType)
    requires Valid(toks, st)
  {
    !IsAtEnd(toks, st) && Peek(toks, st).kind == kind
  }

  /** `match` with several kinds: the current token is one of them. */
  predicate CheckAny(toks: seq<Token>, st: PState, kinds: set<TokenType>)
    requires Valid(toks, st)
  {
    !IsAtEnd(toks, st) && Peek(toks, st).kind in kinds
  }

  /** `advance`: step over the current token unless it is EOF. */
  function Advance(toks: seq<Token>, st: PState): (r: PState)
    requires Valid(toks, st)
    ensures Valid(toks, r) && r.errors == st.errors
    ensures IsAtEnd(toks, st) ==> r == st
    ensures !IsAtEnd(toks, st) ==> r.pos == st.pos + 1
  {
    if IsAtEnd(toks, st) then st else st.(pos := st.pos + 1)
  }

  /** The location text of a parse error: `" at end"` on the EOF token and
      `" at '<lexeme>'"` on any other. */
  function ErrorAt(token: Token, message: string): (d: Diag)
    ensures d.line == token.line && d.message == message
    ensures token.kind == Eof ==> d.location == " at end"
    ensures token.kind != Eof ==> d.location == " at '" + token.lexeme + "'"
  {
    if token.kind == Eof then Diag(token.line, " at end", message)
    else Diag(token.line, " at '" + token.lexeme + "'", message)
  }

  /** `error`: report at `token`; the cursor does not move. Reporting is what
      sets `hadError`. */
  function ReportError(st: PState, token: Token, message: string): (r: PState)
    ensures r.pos == st.pos && r.errors == st.errors + [ErrorAt(token, message)]
  {
    st.(errors := st.errors + [ErrorAt(token, message)])
  }

  /** `hadError` is exactly "some error was reported". */
  predicate HadError(st: PState) {
    |st.errors| > 0
  }

  /** `throw this.error(this.peek(), message)`. */
  function Throw<T>(toks: seq<Token>, st: PState, message: string): (r: Parsed<T>)
    requires Valid(toks, st)
    ensures r.Failed? && r.st == ReportError(st, Peek(toks, st), message)
  {
    Failed(ReportError(st, Peek(toks, st), message))
  }

  /** The double quote, by its code point. */
  const DoubleQuote: char := 34 as char

  /** `s` between double quotes, as the parser's messages quote tokens. */
  function Quoted(s: string): (q: string)
    ensures |q| == |s| + 2 && q[0] == DoubleQuote && q[|q| - 1] == DoubleQuote
    ensures forall i :: 0 <= i < |s| ==> q[i + 1] == s[i]
  {
    [DoubleQuote] + s + [DoubleQuote]
  }

  /** `consume`: take a token of `kind` or throw with `message`. */
  function Consume(toks: seq<Token>, st: PState, kind: TokenType, message: string): (r: Parsed<Token>)
    requires Valid(toks, st)
    ensures Advances(toks, st, r)
    ensures r.Parsed? <==> Check(toks, st, kind)
    ensures r.Parsed? ==> r.value == Peek(toks, st) && r.st == Advance(toks, st)
    ensures r.Failed? ==> r.st == ReportError(st, Peek(toks, st), message)
  {
    if Check(toks, st, kind) then Parsed(Peek(toks, st), Advance(toks, st))
    else Throw(toks, st, message)
  }

  /** Carry a failure over to a production of another result type. */
  function Propagate<T, U>(r: Parsed<T>): (f: Parsed<U>)
    requires r.Failed?
    ensures f.Failed? && f.st == r.st
  {
    Failed(r.st)
  }

  /** An error with `message` was reported on the way from `st` to `r`. */
  predicate ReportedSince(st: PState, r: PState, message: string) {
    exists i :: |st.errors| <= i < |r.errors| && r.errors[i].message == message
  }

  /** A report stays reported: later steps only append, and an earlier
      starting point sees it too. */
  lemma ReportedSinceWiden(a: PState, b: PState, c: PState, d: PState, message: string)
    requires ReportedSince(b, c, message)
    requires |a.errors| <= |b.errors| && IsPrefix(c.errors, d.errors)
    ensures ReportedSince(a, d, message)
  {
    var i :| |b.errors| <= i < |c.errors| && c.errors[i].message == message;
    assert d.errors[i] == c.errors[i];
  }

  lemma ReportedSinceExtend(a: PState, b: PState, c: PState, message: string)
    requires IsPrefix(b.errors, c.errors)
    ensures ReportedSince(a, b, message) ==> ReportedSince(a, c, message)
  {
    if ReportedSince(a, b, message) {
      var i :| |a.errors| <= i < |b.errors| && b.errors[i].message == message;
      assert c.errors[i] == b.errors[i];
    }
  }

  lemma ReportedSinceFrom(a: PState, b: PState, c: PState, message: string)
    requires |a.errors| <= |b.errors|
    ensures ReportedSince(b, c, message) ==> ReportedSince(a, c, message)
  {
  }

  // ----------------------------------------------------------- precedence

  /** How tightly an expression's top node binds: 0 for assignment, 1 for
      `or`, 2 for `and`, 3 for equality, 4 for comparison, 5 for `+ -`, 6 for
      `* /`, 7 for unary, call and primary expressions. */
  function Prec(e: Expr): nat {
    match e
    case AssignExpr(_, _, _) => 0
    case LogicalExpr(_, op, _) => if op.kind == Or then 1 else 2
    case BinaryExpr(_, op, _) => OperatorPrec(op.kind)
    case _ => 7
  }

  function OperatorPrec(k: TokenType): nat {
    if k in {BangEqual, EqualEqual} then 3
    else if k in {Greater, GreaterEqual, Less, LessEqual} then 4
    else if k in {Minus, Plus} then 5
    else 6
  }

  /** The binary levels, loosest first. */
  datatype Level = OrLevel | AndLevel | EqualityLevel | ComparisonLevel | TermLevel | FactorLevel

  function LevelPrec(l: Level): nat {
    match l
    case OrLevel => 1
    case AndLevel => 2
    case EqualityLevel => 3
    case ComparisonLevel => 4
    case TermLevel => 5
    case FactorLevel => 6
  }

  /** The operator tokens each level's loop accepts. */
  function LevelOperators(l: Level): (ks: set<TokenType>)
    ensures forall k :: k in ks && l != OrLevel && l != AndLevel ==> OperatorPrec(k) == LevelPrec(l)
  {
    match l
    case OrLevel => {Or}
    case AndLevel => {And}
    case EqualityLevel => {BangEqual, EqualEqual}
    case ComparisonLevel => {Greater, GreaterEqual, Less, LessEqual}
    case TermLevel => {Minus, Plus}
    case FactorLevel => {Slash, Star}
  }

  function NextLevel(l: Level): Level
    requires l != FactorLevel
  {
    match l
    case OrLevel => AndLevel
    case AndLevel => EqualityLevel
    case EqualityLevel => ComparisonLevel
    case ComparisonLevel => TermLevel
    case TermLevel => FactorLevel
  }

  /** The tree shape precedence climbing produces. An operand of an operator
      binds at least as tightly as the operator; the RIGHT operand of a binary
      or logical operator binds strictly tighter, so a chain of one level
      nests to the left; the operand of a unary operator and a callee are
      unary, call or primary expressions. Parentheses reset the rule. */
  predicate Shaped(e: Expr) {
    match e
    case LiteralExpr(_) => true
    case VariableExpr(_, _) => true
    case ThisExpr(_, _) => true
    case SuperExpr(_, _) => true
    case GroupingExpr(inner) => Shaped(inner)
    case UnaryExpr(_, right) => Prec(right) == 7 && Shaped(right)
    case BinaryExpr(left, _, right) =>
      Prec(left) >= Prec(e) && Prec(right) > Prec(e) && Shaped(left) && Shaped(right)
    case LogicalExpr(left, _, right) =>
      Prec(left) >= Prec(e) && Prec(right) > Prec(e) && Shaped(left) && Shaped(right)
    case AssignExpr(_, _, value) => Shaped(value)
    case CallExpr(callee, _, args) =>
      Prec(callee) == 7 && Shaped(callee) && forall i :: 0 <= i < |args| ==> Shaped(args[i])
    case GetExpr(obj, _) => Shaped(obj)
    case SetExpr(obj, _, value) => Shaped(obj) && Shaped(value)
  }

  // ---------------------------------------------------------- expressions

  const InvalidTarget := "Invalid assignment target."

  /** `expr` / `assignment`: an `or` expression, then an assignment when
      `=` follows it. */
  function Expression(toks: seq<Token>, st: PState): (r: Parsed<Expr>)
    requires Valid(toks, st)
    ensures Advances(toks, st, r)
    ensures r.Parsed? ==> Shaped(r.value)
    decreases |toks| - st.pos, 20
  {
    var lhs := BinaryLevel(toks, st, OrLevel);
    if lhs.Failed? then Propagate(lhs)
    else if !CheckAny(toks, lhs.st, {Equal}) then lhs
    else
      var r := Assignment(toks, lhs.st, lhs.value);
      PrefixTransitive(st.errors, lhs.st.errors, r.st.errors);
      r
  }

  /** The `=` branch of `assignment`, on the `=` token after `target`:
      right-associative, since the value is a whole expression; a variable
      target becomes an assignment to it, and any other target reports
      "Invalid assignment target." and is returned without throwing. */
  function Assignment(toks: seq<Token>, st: PState, target: Expr): (r: Parsed<Expr>)
    requires Valid(toks, st) && Check(toks, st, Equal) && Shaped(target)
    ensures Advances(toks, st, r)
    ensures r.Parsed? ==> Shaped(r.value)
    ensures r.Parsed? && !target.VariableExpr? ==> r.value == target && ReportedSince(st, r.st, InvalidTarget)
    decreases |toks| - st.pos, 0
  {
    var equals := Peek(toks, st);
    var value := Expression(toks, Advance(toks, st));
    if value.Failed? then Propagate(value)
    else
      match target
      case VariableExpr(id, name) => Parsed(AssignExpr(id, name, value.value), value.st)
      case _ =>
        var reported := ReportError(value.st, equals, InvalidTarget);
        assert IsPrefix(value.st.errors, reported.errors);
        PrefixTransitive(st.errors, value.st.errors, reported.errors);
        assert reported.errors[|value.st.errors|].message == InvalidTarget;
        Parsed(target, reported)
  }

  /** The operand parser of a binary level: the next level, or `unary`. */
  function Operand(toks: seq<Token>, st: PState, l: Level): (r: Parsed<Expr>)
    requires Valid(toks, st)
    ensures Advances(toks, st, r)
    ensures r.Parsed? ==> Shaped(r.value) && Prec(r.value) > LevelPrec(l)
    decreases |toks| - st.pos, 2 * (6 - LevelPrec(l)) + 4
  {
    if l == FactorLevel then Unary(toks, st) else BinaryLevel(toks, st, NextLevel(l))
  }

  /** `or`, `and`, `equality`, `comparison`, `term`, `factor`: an operand
      followed by any number of (operator, operand) pairs of this level,
      combined left to right. */
  function BinaryLevel(toks: seq<Token>, st: PState, l: Level): (r: Parsed<Expr>)
    requires Valid(toks, st)
    ensures Advances(toks, st, r)
    ensures r.Parsed? ==> Shaped(r.value) && Prec(r.value) >= LevelPrec(l)
    decreases |toks| - st.pos, 2 * (6 - LevelPrec(l)) + 5
  {
    var left := Operand(toks, st, l);
    if left.Failed? then Propagate(left)
    else
      var r := LevelLoop(toks, left.st, l, left.value);
      PrefixTransitive(st.errors, left.st.errors, r.st.errors);
      r
  }

  /** The node one round of a level builds: a logical node for `or` and
      `and`, a binary node for the others. */
  function LevelNode(l: Level, left: Expr, op: Token, right: Expr): (e: Expr)
    ensures e.BinaryExpr? || e.LogicalExpr?
    ensures e.left == left && e.op == op && e.right == right
    ensures e.LogicalExpr? <==> l == OrLevel || l == AndLevel
  {
    if l == OrLevel || l == AndLevel then LogicalExpr(left, op, right) else BinaryExpr(left, op, right)
  }

  /** The `while (this.match(...))` loop of one binary level. */
  function LevelLoop(toks: seq<Token>, st: PState, l: Level, left: Expr): (r: Parsed<Expr>)
    requires Valid(toks, st)
    requires Shaped(left) && Prec(left) >= LevelPrec(l)
    ensures Extends(toks, st, r)
    ensures r.Parsed? ==> Shaped(r.value) && Prec(r.value) >= LevelPrec(l)
    decreases |toks| - st.pos, 0
  {
    if !CheckAny(toks, st, LevelOperators(l)) then Parsed(left, st)
    else
      var op := Peek(toks, st);
      var right := Operand(toks, Advance(toks, st), l);
      if right.Failed? then Propagate(right)
      else
        var e := LevelNode(l, left, op, right.value);
        var r := LevelLoop(toks, right.st, l, e);
        PrefixTransitive(st.errors, right.st.errors, r.st.errors);
        r
  }

  /** `unary`: `!`, `-` or `+` applied to a unary expression, or a call. */
  function Unary(toks: seq<Token>, st: PState): (r: Parsed<Expr>)
    requires Valid(toks, st)
    ensures Advances(toks, st, r)
    ensures r.Parsed? ==> Shaped(r.value) && Prec(r.value) == 7
    decreases |toks| - st.pos, 3
  {
    if CheckAny(toks, st, {Bang, Minus, Plus}) then
      var op := Peek(toks, st);
      var right := Unary(toks, Advance(toks, st));
      if right.Failed? then Propagate(right)
      else Parsed(UnaryExpr(op, right.value), right.st)
    else Call(toks, st)
  }

  /** `call`: a primary expression followed by any number of argument lists. */
  function Call(toks: seq<Token>, st: PState): (r: Parsed<Expr>)
    requires Valid(toks, st)
    ensures Advances(toks, st, r)
    ensures r.Parsed? ==> Shaped(r.value) && Prec(r.value) == 7
    decreases |toks| - st.pos, 2
  {
    var callee := Primary(toks, st);
    if callee.Failed? then Propagate(callee)
    else
      var r := CallLoop(toks, callee.st, callee.value);
      PrefixTransitive(st.errors, callee.st.errors, r.st.errors);
      r
  }

  function CallLoop(toks: seq<Token>, st: PState, callee: Expr): (r: Parsed<Expr>)
    requires Valid(toks, st)
    requires Shaped(callee) && Prec(callee) == 7
    ensures Extends(toks, st, r)
    ensures r.Parsed? ==> Shaped(r.value) && Prec(r.value) == 7
    decreases |toks| - st.pos, 0
  {
    if !CheckAny(toks, st, {LeftParen}) then Parsed(callee, st)
    else
      var call := FinishCall(toks, Advance(toks, st), callee);
      if call.Failed? then Propagate(call)
      else
        var r := CallLoop(toks, call.st, call.value);
        PrefixTransitive(st.errors, call.st.errors, r.st.errors);
        r
  }

  const TooManyArguments := "Can't have more than 255 arguments."

  const ArgumentsClose := "Expect " + Quoted(")") + " after arguments."

  /** `finishCall`: the argument list after `(` and the closing `)`. */
  function FinishCall(toks: seq<Token>, st: PState, callee: Expr): (r: Parsed<Expr>)
    requires Valid(toks, st)
    requires Shaped(callee) && Prec(callee) == 7
    ensures Advances(toks, st, r)
    ensures r.Parsed? ==> Shaped(r.value) && r.value.CallExpr? && r.value.callee == callee
    ensures r.Parsed? && |r.value.args| > 255 ==> ReportedSince(st, r.st, TooManyArguments)
    decreases |toks| - st.pos, 22
  {
    var args := if Check(toks, st, RightParen) then Parsed([], st) else Arguments(toks, st, 0);
    if args.Failed? then Propagate(args)
    else
      var paren := Consume(toks, args.st, RightParen, ArgumentsClose);
      if paren.Failed? then Propagate(paren)
      else
        PrefixTransitive(st.errors, args.st.errors, paren.st.errors);
        assert |args.value| > 255 ==> ReportedSince(st, paren.st, TooManyArguments) by {
          if |args.value| > 255 {
            ReportedSinceWiden(st, st, args.st, paren.st, TooManyArguments);
          }
        }
        Parsed(CallExpr(callee, paren.value, args.value), paren.st)
  }

  /** Prepending a shaped tree to shaped trees keeps every tree shaped. */
  lemma ShapedCons(x: Expr, rest: seq<Expr>)
    requires Shaped(x) && forall i :: 0 <= i < |rest| ==> Shaped(rest[i])
    ensures forall i :: 0 <= i < |[x] + rest| ==> Shaped(([x] + rest)[i])
  {
  }

  /** The `do { ... } while (match(COMMA))` loop over arguments, from the
      argument after the first `count`: the arguments it parses from here
      on. Finding 255 arguments already parsed reports an error and goes on
      parsing, so a list of more than 255 arguments is never accepted
      silently. */
  function Arguments(toks: seq<Token>, st: PState, count: nat): (r: Parsed<seq<Expr>>)
    requires Valid(toks, st)
    ensures Advances(toks, st, r)
    ensures r.Parsed? ==> |r.value| > 0 && forall i :: 0 <= i < |r.value| ==> Shaped(r.value[i])
    ensures r.Parsed? && count + |r.value| > 255 ==> ReportedSince(st, r.st, TooManyArguments)
    decreases |toks| - st.pos, 21
  {
    var st1 := LimitCheck(toks, st, count, TooManyArguments);
    var arg := Expression(toks, st1);
    PrefixTransitive(st.errors, st1.errors, arg.st.errors);
    if arg.Failed? then Propagate(arg)
    else
      ReportedSinceExtend(st, st1, arg.st, TooManyArguments);
      if !CheckAny(toks, arg.st, {Comma}) then Parsed([arg.value], arg.st)
      else
        var next := Advance(toks, arg.st);
        var rest := Arguments(toks, next, count + 1);
        PrefixTransitive(st.errors, arg.st.errors, rest.st.errors);
        if rest.Failed? then Propagate(rest)
        else
          ReportedSinceFrom(st, next, rest.st, TooManyArguments);
          ShapedCons(arg.value, rest.value);
          Parsed([arg.value] + rest.value, rest.st)
  }

  /** The 255-element guard of the argument and parameter loops: with `n`
      elements already parsed, `n >= 255` reports `message` at the current
      token without throwing. */
  function LimitCheck(toks: seq<Token>, st: PState, n: nat, message: string): (r: PState)
    requires Valid(toks, st)
    ensures Valid(toks, r) && r.pos == st.pos && IsPrefix(st.errors, r.errors)
    ensures n >= 255 <==> |r.errors| > |st.errors|
    ensures n >= 255 ==> ReportedSince(st, r, message)
  {
    if n >= 255 then
      var r := ReportError(st, Peek(toks, st), message);
      assert r.errors[|st.errors|].message == message;
      r
    else st
  }

  /** The tokens `primary` accepts. */
  const PrimaryStarts: set<TokenType> := {False, True, Nil, Number, String, Identifier, LeftParen}

  /** `primary`: a literal, a variable, or a parenthesised expression;
      anything else throws "Expect expression.". A variable node's id is the
      index of its name token. */
  function Primary(toks: seq<Token>, st: PState): (r: Parsed<Expr>)
    requires Valid(toks, st)
    ensures Advances(toks, st, r)
    ensures r.Parsed? ==> Shaped(r.value) && Prec(r.value) == 7
    ensures toks[st.pos].kind == False ==> r == Parsed(LiteralExpr(BoolLit(false)), PState(st.pos + 1, st.errors))
    ensures toks[st.pos].kind == True ==> r == Parsed(LiteralExpr(BoolLit(true)), PState(st.pos + 1, st.errors))
    ensures toks[st.pos].kind == Nil ==> r == Parsed(LiteralExpr(NilLit), PState(st.pos + 1, st.errors))
    ensures toks[st.pos].kind == Number || toks[st.pos].kind == String ==>
      r == Parsed(LiteralExpr(toks[st.pos].literal), PState(st.pos + 1, st.errors))
    ensures toks[st.pos].kind == Identifier ==> r == Parsed(VariableExpr(st.pos, toks[st.pos]), PState(st.pos + 1, st.errors))
    ensures toks[st.pos].kind == LeftParen && r.Parsed? ==> r.value.GroupingExpr?
    ensures toks[st.pos].kind !in PrimaryStarts ==>
      r == Failed(ReportError(st, toks[st.pos], "Expect expression."))
    decreases |toks| - st.pos, 1
  {
    var t := Peek(toks, st);
    if CheckAny(toks, st, {False}) then Parsed(LiteralExpr(BoolLit(false)), Advance(toks, st))
    else if CheckAny(toks, st, {True}) then Parsed(LiteralExpr(BoolLit(true)), Advance(toks, st))
    else if CheckAny(toks, st, {Nil}) then Parsed(LiteralExpr(NilLit), Advance(toks, st))
    else if CheckAny(toks, st, {Number, String}) then Parsed(LiteralExpr(t.literal), Advance(toks, st))
    else if CheckAny(toks, st, {Identifier}) then Parsed(VariableExpr(st.pos, t), Advance(toks, st))
    else if CheckAny(toks, st, {LeftParen}) then Grouping(toks, st)
    else Throw(toks, st, "Expect expression.")
  }

  /** The parenthesised branch of `primary`: an expression, then `)`. */
  function Grouping(toks: seq<Token>, st: PState): (r: Parsed<Expr>)
    requires Valid(toks, st) && Check(toks, st, LeftParen)
    ensures Advances(toks, st, r)
    ensures r.Parsed? ==> r.value.GroupingExpr? && Shaped(r.value) && toks[r.st.pos - 1].kind == RightParen
    decreases |toks| - st.pos, 0
  {
    var inner := Expression(toks, Advance(toks, st));
    if inner.Failed? then Propagate(inner) else CloseGrouping(toks, st, inner.value, inner.st)
  }

  /** The `)` that ends a parenthesised expression `inner` parsed from just
      after `st` up to `at`. */
  function CloseGrouping(toks: seq<Token>, st: PState, inner: Expr, at: PState): (r: Parsed<Expr>)
    requires Valid(toks, st) && Valid(toks, at) && st.pos < at.pos && IsPrefix(st.errors, at.errors)
    requires Shaped(inner)
    ensures Advances(toks, st, r)
    ensures r.Parsed? ==> r.value == GroupingExpr(inner) && Shaped(r.value) && toks[r.st.pos - 1].kind == RightParen
    ensures r.Parsed? <==> toks[at.pos].kind == RightParen
    ensures r.Parsed? ==> r.st == PState(at.pos + 1, at.errors)
  {
    var close := Consume(toks, at, RightParen, "Expected " + Quoted(")") + " after expression.");
    PrefixTransitive(st.errors, at.errors, close.st.errors);
    if close.Failed? then Propagate(close) else Parsed(GroupingExpr(inner), close.st)
  }

  // ------------------------------------------------------- error recovery

  /** The tokens `synchronize` stops in front of. */
  const StatementStarts: set<TokenType> := {Class, Fun, Var, For, If, While, Print, Return}

  /** `synchronize` stops in front of position `p` when the token before it
      is `;` or the token at it starts a statement. */
  predicate SyncPoint(toks: seq<Token>, p: nat)
    requires 0 < p < |toks|
  {
    toks[p - 1].kind == Semicolon || toks[p].kind in StatementStarts
  }

  /** `synchronize`: skip at least one token, then stop at the first
      synchronisation point or at EOF. */
  function Synchronize(toks: seq<Token>, st: PState): (r: PState)
    requires Valid(toks, st)
    ensures Valid(toks, r) && r.errors == st.errors && st.pos <= r.pos
    ensures !IsAtEnd(toks, st) ==> st.pos < r.pos
    ensures IsAtEnd(toks, r) || (0 < r.pos && SyncPoint(toks, r.pos))
    ensures forall p :: st.pos < p < r.pos ==> toks[p].kind != Eof && !SyncPoint(toks, p)
  {
    SyncLoop(toks, Advance(toks, st))
  }

  function SyncLoop(toks: seq<Token>, st: PState): (r: PState)
    requires Valid(toks, st) && (0 < st.pos || IsAtEnd(toks, st))
    ensures Valid(toks, r) && r.errors == st.errors && st.pos <= r.pos
    ensures IsAtEnd(toks, r) || (0 < r.pos && SyncPoint(toks, r.pos))
    ensures forall p :: st.pos <= p < r.pos ==> 0 < p && toks[p].kind != Eof && !SyncPoint(toks, p)
    decreases |toks| - st.pos
  {
    if IsAtEnd(toks, st) || SyncPoint(toks, st.pos) then st
    else SyncLoop(toks, Advance(toks, st))
  }

  // ----------------------------------------------------------- statements

  /** A declaration: the statement it produced, or nothing when a
      `ParseError` was caught and the parser resynchronised. */
  datatype DeclOutcome = DeclOutcome(stmt: Option<Stmt>, st: PState)

  /** `declaration`: `fun`, `var` or a statement; a `ParseError` is caught
      here, the parser resynchronises and the declaration is dropped. A
      dropped declaration always left an error behind and stops at a
      synchronisation point, and a declaration that does not start at EOF
      consumes at least one token. */
  function Declaration(toks: seq<Token>, st: PState): (r: DeclOutcome)
    requires Valid(toks, st)
    ensures st.pos <= r.st.pos < |toks| && IsPrefix(st.errors, r.st.errors)
    ensures !IsAtEnd(toks, st) ==> st.pos < r.st.pos
    ensures r.stmt.None? ==> |r.st.errors| > |st.errors|
    decreases |toks| - st.pos, 5
  {
    var p :=
      if CheckAny(toks, st, {Fun}) then FunctionDeclaration(toks, Advance(toks, st))
      else if CheckAny(toks, st, {Var}) then VarDeclaration(toks, Advance(toks, st))
      else Statement(toks, st);
    if p.Parsed? then DeclOutcome(Some(p.value), p.st)
    else DeclOutcome(None, Synchronize(toks, p.st))
  }

  const FunctionName := "Expect function name."
  const FunctionBody := "Expect '{' before function body."

  /** `functionDeclaration("function")`, after `fun`: the name, the
      parameter list and the body block. */
  function FunctionDeclaration(toks: seq<Token>, st: PState): (r: Parsed<Stmt>)
    requires Valid(toks, st)
    ensures Advances(toks, st, r)
    ensures r.Parsed? ==> r.value.FunctionStmt?
    ensures r.Parsed? && |r.value.decl.params| > 255 ==> ReportedSince(st, r.st, TooManyParameters)
    decreases |toks| - st.pos, 2
  {
    var name := Consume(toks, st, Identifier, FunctionName);
    if name.Failed? then Propagate(name) else
    var params := ParameterList(toks, name.st);
    PrefixTransitive(st.errors, name.st.errors, params.st.errors);
    if params.Failed? then Propagate(params) else
    var lb := Consume(toks, params.st, LeftBrace, FunctionBody);
    PrefixTransitive(st.errors, params.st.errors, lb.st.errors);
    if lb.Failed? then Propagate(lb) else
    var body := Block(toks, lb.st);
    PrefixTransitive(st.errors, lb.st.errors, body.st.errors);
    if body.Failed? then Propagate(body)
    else
      assert |params.value| > 255 ==> ReportedSince(st, body.st, TooManyParameters) by {
        if |params.value| > 255 {
          PrefixTransitive(params.st.errors, lb.st.errors, body.st.errors);
          ReportedSinceWiden(st, name.st, params.st, body.st, TooManyParameters);
        }
      }
      Parsed(FunctionStmt(FunDecl(name.value, params.value, body.value)), body.st)
  }

  /** The comma-separated names spelled from position `from` on: a name,
      then, while a comma follows, the names after the comma. */
  function NamesFrom(toks: seq<Token>, from: nat): seq<Token>
    decreases |toks| - from
  {
    if from < |toks| && toks[from].kind == Identifier then
      [toks[from]] + (if from + 1 < |toks| && toks[from + 1].kind == Comma then NamesFrom(toks, from + 2) else [])
    else []
  }

  /** `( parameters )` after a function name: the parameters are the names
      between the parentheses, separated by commas. */
  function ParameterList(toks: seq<Token>, st: PState): (r: Parsed<seq<Token>>)
    requires Valid(toks, st)
    ensures Advances(toks, st, r)
    ensures r.Parsed? && |r.value| > 255 ==> ReportedSince(st, r.st, TooManyParameters)
  {
    var lp := Consume(toks, st, LeftParen, ParametersOpen);
    if lp.Failed? then Propagate(lp) else
    var params := if Check(toks, lp.st, RightParen) then Parsed([], lp.st) else Parameters(toks, lp.st, 0);
    PrefixTransitive(st.errors, lp.st.errors, params.st.errors);
    if params.Failed? then Propagate(params) else
    var rp := Consume(toks, params.st, RightParen, ParametersClose);
    PrefixTransitive(st.errors, params.st.errors, rp.st.errors);
    if rp.Failed? then Propagate(rp)
    else
      assert |params.value| > 255 ==> ReportedSince(st, rp.st, TooManyParameters) by {
        if |params.value| > 255 {
          ReportedSinceWiden(st, lp.st, params.st, rp.st, TooManyParameters);
        }
      }
      Parsed(params.value, rp.st)
  }

  const TooManyParameters := "Can't have more than 255 parameters."
  const ParametersOpen := "Expect '(' after function name."
  const ParametersClose := "Expect ')' after parameters."
  const ParameterName := "Expect parameter name"

  /** The parameter loop, from the parameter after the first `count`: the
      names it parses from here on. Finding 255 parameters already parsed
      reports an error and goes on parsing. */
  function Parameters(toks: seq<Token>, st: PState, count: nat): (r: Parsed<seq<Token>>)
    requires Valid(toks, st)
    ensures Advances(toks, st, r)
    ensures r.Parsed? && count + |r.value| > 255 ==> ReportedSince(st, r.st, TooManyParameters)
    decreases |toks| - st.pos
  {
    var st1 := LimitCheck(toks, st, count, TooManyParameters);
    var p := Consume(toks, st1, Identifier, ParameterName);
    PrefixTransitive(st.errors, st1.errors, p.st.errors);
    if p.Failed? then Propagate(p)
    else
      ReportedSinceExtend(st, st1, p.st, TooManyParameters);
      if !CheckAny(toks, p.st, {Comma}) then Parsed([p.value], p.st)
      else
        var next := Advance(toks, p.st);
        var rest := Parameters(toks, next, count + 1);
        PrefixTransitive(st.errors, p.st.errors, rest.st.errors);
        if rest.Failed? then Propagate(rest)
        else
          ReportedSinceFrom(st, next, rest.st, TooManyParameters);
          Parsed([p.value] + rest.value, rest.st)
  }

  const VarName := "Expect variable name."
  const VarSemicolon := "Expect " + Quoted(";") + " after variable declaration."

  /** `varDeclaration`, after `var`: the name token, an initializer exactly
      when `=` follows the name, and the closing `;`. */
  function VarDeclaration(toks: seq<Token>, st: PState): (r: Parsed<Stmt>)
    requires Valid(toks, st)
    ensures Advances(toks, st, r)
    ensures r.Parsed? ==> r.value.VarStmt?
    decreases |toks| - st.pos, 2
  {
    var name := Consume(toks, st, Identifier, VarName);
    if name.Failed? then Propagate(name) else
    var init := if CheckAny(toks, name.st, {Equal}) then SomeExpression(toks, Advance(toks, name.st)) else Parsed(None, name.st);
    PrefixTransitive(st.errors, name.st.errors, init.st.errors);
    if init.Failed? then Propagate(init) else
    var semi := Consume(toks, init.st, Semicolon, VarSemicolon);
    PrefixTransitive(st.errors, init.st.errors, semi.st.errors);
    if semi.Failed? then Propagate(semi)
    else Parsed(VarStmt(name.value, init.value), semi.st)
  }

  /** An expression, wrapped as present. */
  function SomeExpression(toks: seq<Token>, st: PState): (r: Parsed<Option<Expr>>)
    requires Valid(toks, st)
    ensures Advances(toks, st, r)
    ensures r.Parsed? ==> r.value.Some?
  {
    var e := Expression(toks, st);
    if e.Failed? then Propagate(e) else Parsed(Some(e.value), e.st)
  }

  /** An expression unless the next token is `terminator`, in which case the
      piece is absent and nothing is consumed. */
  function OptionalExpression(toks: seq<Token>, st: PState, terminator: TokenType): (r: Parsed<Option<Expr>>)
    requires Valid(toks, st)
    ensures Extends(toks, st, r)
    ensures r.Parsed? ==> (r.value.None? <==> Check(toks, st, terminator))
    ensures r.Parsed? && r.value.None? ==> r.st == st
  {
    if Check(toks, st, terminator) then Parsed(None, st) else SomeExpression(toks, st)
  }

  /** `stmt`: a statement other than a declaration, chosen by its first
      token; anything else is an expression statement. */
  function Statement(toks: seq<Token>, st: PState): (r: Parsed<Stmt>)
    requires Valid(toks, st)
    ensures Advances(toks, st, r)
    decreases |toks| - st.pos, 4
  {
    if CheckAny(toks, st, {Print}) then ExprThenSemicolon(toks, Advance(toks, st), true)
    else if CheckAny(toks, st, {LeftBrace}) then
      var b := Block(toks, Advance(toks, st));
      if b.Failed? then Propagate(b) else Parsed(BlockStmt(b.value), b.st)
    else if CheckAny(toks, st, {If}) then IfStatement(toks, Advance(toks, st))
    else if CheckAny(toks, st, {While}) then WhileStatement(toks, Advance(toks, st))
    else if CheckAny(toks, st, {For}) then ForStatement(toks, Advance(toks, st))
    else ExprThenSemicolon(toks, st, false)
  }

  /** `printStmt` (after `print`) and `exprStmt`: an expression and `;`. */
  function ExprThenSemicolon(toks: seq<Token>, st: PState, isPrint: bool): (r: Parsed<Stmt>)
    requires Valid(toks, st)
    ensures Advances(toks, st, r)
    ensures r.Parsed? ==> if isPrint then r.value.PrintStmt? else r.value.ExprStmt?
  {
    var e := Expression(toks, st);
    if e.Failed? then Propagate(e) else
    var semi := Consume(toks, e.st, Semicolon,
      if isPrint then "Expect " + Quoted(";") + " after value." else "Expect " + Quoted(";") + " after expression.");
    PrefixTransitive(st.errors, e.st.errors, semi.st.errors);
    if semi.Failed? then Propagate(semi)
    else Parsed(if isPrint then PrintStmt(e.value) else ExprStmt(e.value), semi.st)
  }

  const BlockClose := "Expect " + Quoted("}") + " after block."

  /** `blockStmt`, after `{`: declarations up to `}` or EOF, then `}`. The
      block holds the statements of the declarations that parsed. */
  function Block(toks: seq<Token>, st: PState): (r: Parsed<seq<Stmt>>)
    requires Valid(toks, st)
    ensures Advances(toks, st, r)
    ensures r.Parsed? ==> toks[r.st.pos - 1].kind == RightBrace
    decreases |toks| - st.pos, 7
  {
    var ds := DeclarationLoop(toks, st, true);
    var close := Consume(toks, ds.st, RightBrace, BlockClose);
    PrefixTransitive(st.errors, ds.st.errors, close.st.errors);
    if close.Failed? then Propagate(close) else Parsed(KeptStmts(ds.outcomes), close.st)
  }

  /** Where the declaration loop stops: at `}` inside a block, and at EOF. */
  predicate Stops(toks: seq<Token>, st: PState, inBlock: bool)
    requires Valid(toks, st)
  {
    (inBlock && Check(toks, st, RightBrace)) || IsAtEnd(toks, st)
  }

  /** Step `k` of a run from `st` of a loop that calls `step` until `stop`
      holds: `step` was called at the state the step before left (at `st`
      for the first step), where `stop` did not hold. */
  predicate StepAt(step: PState -> DeclOutcome, stop: PState -> bool, st: PState, outcomes: seq<DeclOutcome>, k: nat)
    requires k < |outcomes|
  {
    var from := if k == 0 then st else outcomes[k - 1].st;
    !stop(from) && outcomes[k] == step(from)
  }

  /** `outcomes` are the successive calls of `step` of such a loop. */
  predicate RunOf(step: PState -> DeclOutcome, stop: PState -> bool, st: PState, outcomes: seq<DeclOutcome>) {
    forall k :: 0 <= k < |outcomes| ==> StepAt(step, stop, st, outcomes, k)
  }

  /** `declaration`, as the step of the declaration loop. */
  function DeclarationStep(toks: seq<Token>): PState -> DeclOutcome {
    s => if Valid(toks, s) then Declaration(toks, s) else DeclOutcome(None, s)
  }

  /** The declaration loop's stopping test. */
  function LoopStops(toks: seq<Token>, inBlock: bool): PState -> bool {
    s => !Valid(toks, s) || Stops(toks, s, inBlock)
  }

  /** `outcomes` are the successive `declaration` calls of the loop from
      `st`. */
  predicate Run(toks: seq<Token>, st: PState, inBlock: bool, outcomes: seq<DeclOutcome>) {
    RunOf(DeclarationStep(toks), LoopStops(toks, inBlock), st, outcomes)
  }

  /** The state a run from `st` has reached. */
  function RunEnd(st: PState, outcomes: seq<DeclOutcome>): PState {
    if |outcomes| == 0 then st else outcomes[|outcomes| - 1].st
  }

  /** The statements of the declarations that parsed, in order; the dropped
      ones leave nothing. */
  function KeptStmts(outcomes: seq<DeclOutcome>): (s: seq<Stmt>)
    ensures |s| <= |outcomes|
  {
    if |outcomes| == 0 then [] else OptionToSeq(outcomes[0].stmt) + KeptStmts(outcomes[1..])
  }

  /** The declarations of a block or of the program: one outcome per
      `declaration` call, and the state after the loop. */
  datatype Declarations = Declarations(outcomes: seq<DeclOutcome>, st: PState)

  /** The declaration loop of `blockStmt` (`inBlock`, stopping at `}` or
      EOF) and of `parse` (stopping at EOF only). */
  function DeclarationLoop(toks: seq<Token>, st: PState, inBlock: bool): (r: Declarations)
    requires Valid(toks, st)
    ensures st.pos <= r.st.pos < |toks| && IsPrefix(st.errors, r.st.errors)
    ensures Stops(toks, r.st, inBlock)
    ensures |KeptStmts(r.outcomes)| < |r.outcomes| ==> |st.errors| < |r.st.errors|
    decreases |toks| - st.pos, 6
  {
    if Stops(toks, st, inBlock) then Declarations([], st)
    else
      var d := Declaration(toks, st);
      var rest := DeclarationLoop(toks, d.st, inBlock);
      PrefixTransitive(st.errors, d.st.errors, rest.st.errors);
      KeptCons(d, rest.outcomes);
      Declarations([d] + rest.outcomes, rest.st)
  }

  lemma KeptCons(d: DeclOutcome, rest: seq<DeclOutcome>)
    ensures KeptStmts([d] + rest) == OptionToSeq(d.stmt) + KeptStmts(rest)
  {
    assert ([d] + rest)[1..] == rest;
  }

  /** A step in front of a run from the state it left is a run. */
  lemma RunCons(step: PState -> DeclOutcome, stop: PState -> bool, st: PState, rest: seq<DeclOutcome>)
    requires !stop(st) && RunOf(step, stop, step(st).st, rest)
    ensures RunOf(step, stop, st, [step(st)] + rest) && RunEnd(st, [step(st)] + rest) == RunEnd(step(st).st, rest)
  {
    var all := [step(st)] + rest;
    forall k | 0 <= k < |all| ensures StepAt(step, stop, st, all, k) {
      if k > 0 {
        assert StepAt(step, stop, step(st).st, rest, k - 1);
      }
    }
  }

  /** The steps of a run after its first are a run from where the first
      step left. */
  lemma RunTail(step: PState -> DeclOutcome, stop: PState -> bool, st: PState, outcomes: seq<DeclOutcome>)
    requires RunOf(step, stop, st, outcomes) && |outcomes| > 0
    ensures RunOf(step, stop, outcomes[0].st, outcomes[1..])
    ensures RunEnd(outcomes[0].st, outcomes[1..]) == RunEnd(st, outcomes)
  {
    var tail := outcomes[1..];
    forall k | 0 <= k < |tail| ensures StepAt(step, stop, outcomes[0].st, tail, k) {
      assert StepAt(step, stop, st, outcomes, k + 1);
    }
  }

  /** A run is determined by where it starts: two runs from the same state
      that both end where the loop stops are the same. */
  lemma {:induction false} RunUnique(step: PState -> DeclOutcome, stop: PState -> bool, st: PState, a: seq<DeclOutcome>, b: seq<DeclOutcome>)
    requires RunOf(step, stop, st, a) && RunOf(step, stop, st, b)
    requires stop(RunEnd(st, a)) && stop(RunEnd(st, b))
    ensures a == b
    decreases |a|
  {
    assert |a| == 0 || StepAt(step, stop, st, a, 0);
    assert |b| == 0 || StepAt(step, stop, st, b, 0);
    if |a| > 0 && |b| > 0 {
      RunTail(step, stop, st, a);
      RunTail(step, stop, st, b);
      RunUnique(step, stop, a[0].st, a[1..], b[1..]);
      assert a == [a[0]] + a[1..];
      assert b == [b[0]] + b[1..];
    }
  }

  const IfOpen := "Expect " + Quoted("(") + " after " + Quoted("if") + "."
  const IfClose := "Expect " + Quoted(")") + " after if condition"
  const WhileOpen := "Expect " + Quoted("(") + " after " + Quoted("while") + "."
  const WhileClose := "Expect " + Quoted(")") + " after condition."

  /** `ifStmt`, after `if`: the condition, the then branch, and an else
      branch exactly when `else` follows the then branch. */
  function IfStatement(toks: seq<Token>, st: PState): (r: Parsed<Stmt>)
    requires Valid(toks, st)
    ensures Advances(toks, st, r)
    ensures r.Parsed? ==> r.value.IfStmt?
    decreases |toks| - st.pos, 2
  {
    var cond := Condition(toks, st, IfOpen, IfClose);
    if cond.Failed? then Propagate(cond) else
    var thenBranch := Statement(toks, cond.st);
    PrefixTransitive(st.errors, cond.st.errors, thenBranch.st.errors);
    if thenBranch.Failed? then Propagate(thenBranch)
    else if !CheckAny(toks, thenBranch.st, {Else}) then Parsed(IfStmt(cond.value, thenBranch.value, None), thenBranch.st)
    else
      var elseBranch := Statement(toks, Advance(toks, thenBranch.st));
      PrefixTransitive(st.errors, thenBranch.st.errors, elseBranch.st.errors);
      if elseBranch.Failed? then Propagate(elseBranch)
      else Parsed(IfStmt(cond.value, thenBranch.value, Some(elseBranch.value)), elseBranch.st)
  }

  /** `( expression )` after `if` or `while`. */
  function Condition(toks: seq<Token>, st: PState, openMessage: string, closeMessage: string): (r: Parsed<Expr>)
    requires Valid(toks, st)
    ensures Advances(toks, st, r)
  {
    var lp := Consume(toks, st, LeftParen, openMessage);
    if lp.Failed? then Propagate(lp) else
    var cond := Expression(toks, lp.st);
    if cond.Failed? then Propagate(cond) else
    var rp := Consume(toks, cond.st, RightParen, closeMessage);
    PrefixTransitive(st.errors, cond.st.errors, rp.st.errors);
    if rp.Failed? then Propagate(rp) else Parsed(cond.value, rp.st)
  }

  /** `whileStmt`, after `while`: the condition and the body. */
  function WhileStatement(toks: seq<Token>, st: PState): (r: Parsed<Stmt>)
    requires Valid(toks, st)
    ensures Advances(toks, st, r)
    ensures r.Parsed? ==> r.value.WhileStmt?
    decreases |toks| - st.pos, 2
  {
    var cond := Condition(toks, st, WhileOpen, WhileClose);
    if cond.Failed? then Propagate(cond) else
    var body := Statement(toks, cond.st);
    PrefixTransitive(st.errors, cond.st.errors, body.st.errors);
    if body.Failed? then Propagate(body) else Parsed(WhileStmt(cond.value, body.value), body.st)
  }

  /** The rewriting of `for (init; cond; incr) body`: a `while` whose
      condition defaults to `true`, whose body is followed by the increment
      in an inner block when there is one, all in an outer block together
      with the initializer when there is one. */
  function DesugarFor(init: Option<Stmt>, cond: Option<Expr>, incr: Option<Expr>, body: Stmt): (s: Stmt)
    ensures init.None? ==> s.WhileStmt?
    ensures init.Some? ==> s.BlockStmt? && |s.stmts| == 2 && s.stmts[0] == init.value && s.stmts[1].WhileStmt?
    ensures cond.None? ==> (if init.Some? then s.stmts[1] else s).condition == LiteralExpr(BoolLit(true))
  {
    var inner := if incr.Some? then BlockStmt([body, ExprStmt(incr.value)]) else body;
    var loop := WhileStmt(if cond.Some? then cond.value else LiteralExpr(BoolLit(true)), inner);
    if init.Some? then BlockStmt([init.value, loop]) else loop
  }

  /** The pieces of a `for` statement. */
  datatype ForParts = ForParts(init: Option<Stmt>, cond: Option<Expr>, incr: Option<Expr>, body: Stmt)

  /** Take a desugared `for` apart again, knowing which of its optional
      clauses were written; `None` when `s` does not have the shape, which
      includes a loop without a written condition whose condition is not
      `true`. */
  function ForPartsOf(s: Stmt, hasInit: bool, hasCond: bool, hasIncr: bool): Option<ForParts> {
    if hasInit && !(s.BlockStmt? && |s.stmts| == 2) then None
    else
      var loop := if hasInit then s.stmts[1] else s;
      if !loop.WhileStmt? then None
      else if !hasCond && loop.condition != LiteralExpr(BoolLit(true)) then None
      else if hasIncr && !(loop.body.BlockStmt? && |loop.body.stmts| == 2 && loop.body.stmts[1].ExprStmt?) then None
      else
        Some(ForParts(
          if hasInit then Some(s.stmts[0]) else None,
          if hasCond then Some(loop.condition) else None,
          if hasIncr then Some(loop.body.stmts[1].expr) else None,
          if hasIncr then loop.body.stmts[0] else loop.body))
  }

  /** Desugaring loses nothing once it is known which clauses were written:
      the initializer, condition, increment and body all come back, and a
      missing condition was replaced by `true`. */
  lemma DesugarForRecovers(init: Option<Stmt>, cond: Option<Expr>, incr: Option<Expr>, body: Stmt)
    ensures ForPartsOf(DesugarFor(init, cond, incr, body), init.Some?, cond.Some?, incr.Some?)
      == Some(ForParts(init, cond, incr, body))
  {
  }

  /** A loop with no written condition reads back only when its condition is
      `true`: a `nil` default, say, does not. */
  lemma ForPartsOfNeedsTrue(body: Stmt)
    ensures ForPartsOf(WhileStmt(LiteralExpr(NilLit), body), false, false, false) == None
    ensures ForPartsOf(WhileStmt(LiteralExpr(BoolLit(true)), body), false, false, false) == Some(ForParts(None, None, None, body))
  {
  }

  const ForOpen := "Expect " + Quoted("(") + " after " + Quoted("for") + "."

  /** The header of a `for`: the three clauses, and the positions where the
      condition and the increment clauses start. */
  datatype ForHeader = ForHeader(init: Option<Stmt>, cond: Option<Expr>, incr: Option<Expr>, condAt: nat, incrAt: nat)

  /** `( init cond ; incr )` after `for`. The initializer is absent exactly
      when `;` comes first and is a variable declaration exactly when `var`
      does; the condition is absent exactly when its clause is a bare `;`,
      and the increment exactly when its clause is empty before `)`. */
  function ForClauses(toks: seq<Token>, st: PState): (r: Parsed<ForHeader>)
    requires Valid(toks, st)
    ensures Advances(toks, st, r)
  {
    var lp := Consume(toks, st, LeftParen, ForOpen);
    if lp.Failed? then Propagate(lp) else
    var init := ForInitializer(toks, lp.st);
    PrefixTransitive(st.errors, lp.st.errors, init.st.errors);
    if init.Failed? then Propagate(init) else
    var rest := ForLoopClauses(toks, init.st);
    PrefixTransitive(st.errors, init.st.errors, rest.st.errors);
    if rest.Failed? then Propagate(rest)
    else Parsed(ForHeader(init.value, rest.value.cond, rest.value.incr, init.st.pos, rest.value.incrAt), rest.st)
  }

  /** The condition and increment clauses of a `for` header, and where the
      increment clause starts. */
  datatype LoopClauses = LoopClauses(cond: Option<Expr>, incr: Option<Expr>, incrAt: nat)

  const LoopConditionSemicolon := "Expect " + Quoted(";") + " after loop condition."
  const ForClausesClose := "Expect " + Quoted(")") + " after for clauses."

  /** `cond ; incr )`: each clause is absent exactly when its terminator
      comes at once. */
  function ForLoopClauses(toks: seq<Token>, st: PState): (r: Parsed<LoopClauses>)
    requires Valid(toks, st)
    ensures Advances(toks, st, r)
  {
    var cond := OptionalExpression(toks, st, Semicolon);
    if cond.Failed? then Propagate(cond) else
    var semi := Consume(toks, cond.st, Semicolon, LoopConditionSemicolon);
    PrefixTransitive(st.errors, cond.st.errors, semi.st.errors);
    if semi.Failed? then Propagate(semi) else
    var incr := OptionalExpression(toks, semi.st, RightParen);
    PrefixTransitive(st.errors, semi.st.errors, incr.st.errors);
    if incr.Failed? then Propagate(incr) else
    var rp := Consume(toks, incr.st, RightParen, ForClausesClose);
    PrefixTransitive(st.errors, incr.st.errors, rp.st.errors);
    if rp.Failed? then Propagate(rp)
    else Parsed(LoopClauses(cond.value, incr.value, semi.st.pos), rp.st)
  }

  /** `forStmt`, after `for`: the header's clauses and the body, desugared. */
  function ForStatement(toks: seq<Token>, st: PState): (r: Parsed<Stmt>)
    requires Valid(toks, st)
    ensures Advances(toks, st, r)
    decreases |toks| - st.pos, 2
  {
    var h := ForClauses(toks, st);
    if h.Failed? then Propagate(h) else
    var body := Statement(toks, h.st);
    PrefixTransitive(st.errors, h.st.errors, body.st.errors);
    if body.Failed? then Propagate(body)
    else Parsed(DesugarFor(h.value.init, h.value.cond, h.value.incr, body.value), body.st)
  }

  /** The initializer clause of `for`: `;` alone, a `var` declaration, or an
      expression statement. */
  function ForInitializer(toks: seq<Token>, st: PState): (r: Parsed<Option<Stmt>>)
    requires Valid(toks, st)
    ensures Advances(toks, st, r)
  {
    if CheckAny(toks, st, {Semicolon}) then Parsed(None, Advance(toks, st))
    else
      var s := if CheckAny(toks, st, {Var}) then VarDeclaration(toks, Advance(toks, st))
               else ExprThenSemicolon(toks, st, false);
      if s.Failed? then Propagate(s) else Parsed(Some(s.value), s.st)
  }

  // ------------------------------------------- what each statement holds

  /** The tokens one round of the parameter loop looks at: a name at the
      cursor, and whether a comma follows it. */
  lemma ParameterHead(toks: seq<Token>, st: PState, count: nat)
    requires Valid(toks, st)
    ensures var p := Consume(toks, LimitCheck(toks, st, count, TooManyParameters), Identifier, ParameterName);
      && (p.Parsed? <==> toks[st.pos].kind == Identifier)
      && (p.Parsed? ==>
            && p.value == toks[st.pos] && p.st.pos == st.pos + 1
            && (CheckAny(toks, p.st, {Comma}) <==> p.st.pos < |toks| && toks[st.pos + 1].kind == Comma)
            && (CheckAny(toks, p.st, {Comma}) ==> Advance(toks, p.st).pos == st.pos + 2))
  {
  }

  /** The reference names read by the same tokens as one round of the loop. */
  lemma ParameterHeadNames(toks: seq<Token>, st: PState, count: nat)
    requires Valid(toks, st)
    ensures var p := Consume(toks, LimitCheck(toks, st, count, TooManyParameters), Identifier, ParameterName);
      NamesFrom(toks, st.pos) ==
        if p.Failed? then []
        else if CheckAny(toks, p.st, {Comma}) then [p.value] + NamesFrom(toks, Advance(toks, p.st).pos)
        else [p.value]
  {
    ParameterHead(toks, st, count);
  }

  /** The parameter loop parses exactly the comma-separated names from
      where it starts. */
  lemma {:induction false} ParametersNames(toks: seq<Token>, st: PState, count: nat)
    requires Valid(toks, st)
    ensures var r := Parameters(toks, st, count);
      r.Parsed? ==> r.value == NamesFrom(toks, st.pos)
    decreases |toks| - st.pos
  {
    var st1 := LimitCheck(toks, st, count, TooManyParameters);
    var p := Consume(toks, st1, Identifier, ParameterName);
    ParameterHeadNames(toks, st, count);
    if p.Parsed? && CheckAny(toks, p.st, {Comma}) {
      ParametersNames(toks, Advance(toks, p.st), count + 1);
    }
  }

  /** The parameters are the comma-separated names between `(` and `)`. */
  lemma ParameterListNames(toks: seq<Token>, st: PState)
    requires Valid(toks, st)
    ensures var r := ParameterList(toks, st);
      r.Parsed? ==>
        toks[st.pos].kind == LeftParen && r.value == NamesFrom(toks, st.pos + 1)
  {
    var r := ParameterList(toks, st);
    var lp := Consume(toks, st, LeftParen, ParametersOpen);
    if r.Parsed? {
      var params := if Check(toks, lp.st, RightParen) then Parsed([], lp.st) else Parameters(toks, lp.st, 0);
      var rp := Consume(toks, params.st, RightParen, ParametersClose);
      assert r == Parsed(params.value, rp.st);
      if !Check(toks, lp.st, RightParen) {
        ParametersNames(toks, lp.st, 0);
      }
    }
  }

  /** A function declaration is its name token, the parameter list after
      it and the block after `{`. */
  lemma FunctionDeclarationParts(toks: seq<Token>, st: PState)
    requires Valid(toks, st)
    ensures var r := FunctionDeclaration(toks, st);
      r.Parsed? ==>
        var name := Consume(toks, st, Identifier, FunctionName);
        name.Parsed? &&
        var params := ParameterList(toks, name.st);
        params.Parsed? &&
        var lb := Consume(toks, params.st, LeftBrace, FunctionBody);
        lb.Parsed? &&
        var body := Block(toks, lb.st);
        body.Parsed? && r == Parsed(FunctionStmt(FunDecl(name.value, params.value, body.value)), body.st)
  {
  }

  /** An assignment to a variable holds the variable and the value parsed
      after `=`. */
  lemma AssignmentParts(toks: seq<Token>, st: PState, target: Expr)
    requires Valid(toks, st) && Check(toks, st, Equal) && Shaped(target)
    ensures var r := Assignment(toks, st, target);
      var value := Expression(toks, Advance(toks, st));
      r.Parsed? && target.VariableExpr? ==>
        value.Parsed? && r == Parsed(AssignExpr(target.id, target.name, value.value), value.st)
  {
  }
  /** A binary level is its first operand, then the level's loop from
      there. */
  lemma BinaryLevelParts(toks: seq<Token>, st: PState, l: Level)
    requires Valid(toks, st)
    ensures var left := Operand(toks, st, l);
      && (left.Failed? ==> BinaryLevel(toks, st, l) == Failed(left.st))
      && (left.Parsed? ==> BinaryLevel(toks, st, l) == LevelLoop(toks, left.st, l, left.value))
  {
  }

  /** One round of a level's loop: without an operator of the level the
      left operand is the result; with one, the operator and the operand
      after it extend the left operand and the loop goes on. */
  lemma LevelLoopParts(toks: seq<Token>, st: PState, l: Level, left: Expr)
    requires Valid(toks, st) && Shaped(left) && Prec(left) >= LevelPrec(l)
    ensures var r := LevelLoop(toks, st, l, left);
      && (!CheckAny(toks, st, LevelOperators(l)) ==> r == Parsed(left, st))
      && (CheckAny(toks, st, LevelOperators(l)) ==>
            var right := Operand(toks, Advance(toks, st), l);
            && (right.Failed? ==> r == Failed(right.st))
            && (right.Parsed? ==>
                  var e := LevelNode(l, left, Peek(toks, st), right.value);
                  Shaped(e) && Prec(e) >= LevelPrec(l) && r == LevelLoop(toks, right.st, l, e)))
  {
    if CheckAny(toks, st, LevelOperators(l)) {
      LevelLoopStep(toks, st, l, left);
    }
  }

  /** With an operator at the cursor, the round builds the level's node
      from the left operand, that operator and the right operand. */
  lemma LevelLoopStep(toks: seq<Token>, st: PState, l: Level, left: Expr)
    requires Valid(toks, st) && Shaped(left) && Prec(left) >= LevelPrec(l)
    requires CheckAny(toks, st, LevelOperators(l))
    ensures var r := LevelLoop(toks, st, l, left);
      var right := Operand(toks, Advance(toks, st), l);
      && (right.Failed? ==> r == Failed(right.st))
      && (right.Parsed? ==>
            var e := LevelNode(l, left, Peek(toks, st), right.value);
            Shaped(e) && Prec(e) >= LevelPrec(l) && r == LevelLoop(toks, right.st, l, e))
  {
  }

  /** `unary`: an operator applied to the unary expression after it, or a
      call. */
  lemma UnaryParts(toks: seq<Token>, st: PState)
    requires Valid(toks, st)
    ensures var r := Unary(toks, st);
      && (!CheckAny(toks, st, {Bang, Minus, Plus}) ==> r == Call(toks, st))
      && (CheckAny(toks, st, {Bang, Minus, Plus}) ==>
            var right := Unary(toks, Advance(toks, st));
            && (right.Failed? ==> r == Failed(right.st))
            && (right.Parsed? ==> r == Parsed(UnaryExpr(Peek(toks, st), right.value), right.st)))
  {
  }

  /** `call`: the primary expression, then the loop over argument lists. */
  lemma CallParts(toks: seq<Token>, st: PState)
    requires Valid(toks, st)
    ensures var callee := Primary(toks, st);
      && (callee.Failed? ==> Call(toks, st) == Failed(callee.st))
      && (callee.Parsed? ==> Call(toks, st) == CallLoop(toks, callee.st, callee.value))
  {
  }

  /** `primary` at a `(` is the parenthesised expression. */
  lemma GroupingParts(toks: seq<Token>, st: PState)
    requires Valid(toks, st) && toks[st.pos].kind == LeftParen
    ensures Check(toks, st, LeftParen) && Primary(toks, st) == Grouping(toks, st)
  {
  }

  /** One round of the call loop: without `(` the callee is the result;
      with it, the call built by `finishCall` becomes the next callee. */
  lemma CallLoopParts(toks: seq<Token>, st: PState, callee: Expr)
    requires Valid(toks, st) && Shaped(callee) && Prec(callee) == 7
    ensures var r := CallLoop(toks, st, callee);
      && (!CheckAny(toks, st, {LeftParen}) ==> r == Parsed(callee, st))
      && (CheckAny(toks, st, {LeftParen}) ==>
            var call := FinishCall(toks, Advance(toks, st), callee);
            && (call.Failed? ==> r == Failed(call.st))
            && (call.Parsed? ==> r == CallLoop(toks, call.st, call.value)))
  {
  }

  /** `finishCall`: no arguments when `)` follows at once, else the argument
      list; then the `)`, whose token the call keeps. */
  lemma FinishCallParts(toks: seq<Token>, st: PState, callee: Expr)
    requires Valid(toks, st) && Shaped(callee) && Prec(callee) == 7
    ensures var r := FinishCall(toks, st, callee);
      var args := if Check(toks, st, RightParen) then Parsed([], st) else Arguments(toks, st, 0);
      r.Parsed? ==>
        && args.Parsed? && Check(toks, args.st, RightParen)
        && r == Parsed(CallExpr(callee, Peek(toks, args.st), args.value), Advance(toks, args.st))
  {
  }

  /** The argument loop: an expression, then, after a comma, the rest of the
      list. */
  lemma ArgumentsParts(toks: seq<Token>, st: PState, count: nat)
    requires Valid(toks, st)
    ensures var r := Arguments(toks, st, count);
      var st1 := LimitCheck(toks, st, count, TooManyArguments);
      var arg := Expression(toks, st1);
      r.Parsed? ==>
        && arg.Parsed?
        && (!CheckAny(toks, arg.st, {Comma}) ==> r == Parsed([arg.value], arg.st))
        && (CheckAny(toks, arg.st, {Comma}) ==>
              var rest := Arguments(toks, Advance(toks, arg.st), count + 1);
              rest.Parsed? && r == Parsed([arg.value] + rest.value, rest.st))
  {
  }


  /** A variable declaration is its name token, an initializer exactly when
      `=` follows the name, and `;`. */
  lemma VarDeclarationParts(toks: seq<Token>, st: PState)
    requires Valid(toks, st)
    ensures var r := VarDeclaration(toks, st);
      r.Parsed? ==>
        && Check(toks, st, Identifier) && r.value.name == Peek(toks, st)
        && var afterName := Advance(toks, st);
        && (r.value.initializer.Some? <==> CheckAny(toks, afterName, {Equal}))
        && var init := if CheckAny(toks, afterName, {Equal}) then SomeExpression(toks, Advance(toks, afterName)) else Parsed(None, afterName);
        && init.Parsed? && r.value.initializer == init.value
        && Check(toks, init.st, Semicolon) && r.st == Advance(toks, init.st)
  {
  }

  /** An expression or print statement is an expression followed by `;`. */
  lemma ExprThenSemicolonParts(toks: seq<Token>, st: PState, isPrint: bool)
    requires Valid(toks, st)
    ensures var r := ExprThenSemicolon(toks, st, isPrint);
      var e := Expression(toks, st);
      && (r.Parsed? <==> e.Parsed? && toks[e.st.pos].kind == Semicolon)
      && (r.Parsed? ==> r.st == PState(e.st.pos + 1, e.st.errors))
      && (r.Parsed? ==> r.value == if isPrint then PrintStmt(e.value) else ExprStmt(e.value))
  {
  }

  /** A condition is `(`, an expression and `)`. */
  lemma ConditionParts(toks: seq<Token>, st: PState, openMessage: string, closeMessage: string)
    requires Valid(toks, st)
    ensures var r := Condition(toks, st, openMessage, closeMessage);
      && (r.Parsed? ==> Check(toks, st, LeftParen))
      && (Check(toks, st, LeftParen) ==>
            var e := Expression(toks, Advance(toks, st));
            && (r.Parsed? <==> e.Parsed? && Check(toks, e.st, RightParen))
            && (r.Parsed? ==> r == Parsed(e.value, Advance(toks, e.st))))
  {
  }

  /** An `if` statement is its condition, the then branch, and an else
      branch exactly when `else` follows the then branch. */
  lemma IfStatementParts(toks: seq<Token>, st: PState)
    requires Valid(toks, st)
    ensures var r := IfStatement(toks, st);
      r.Parsed? ==>
        var c := Condition(toks, st, IfOpen, IfClose);
        c.Parsed? &&
        var t := Statement(toks, c.st);
        t.Parsed? &&
        if CheckAny(toks, t.st, {Else}) then
          var e := Statement(toks, Advance(toks, t.st));
          e.Parsed? && r == Parsed(IfStmt(c.value, t.value, Some(e.value)), e.st)
        else
          r == Parsed(IfStmt(c.value, t.value, None), t.st)
  {
  }

  /** A `while` statement is its condition and its body. */
  lemma WhileStatementParts(toks: seq<Token>, st: PState)
    requires Valid(toks, st)
    ensures var r := WhileStatement(toks, st);
      r.Parsed? ==>
        var c := Condition(toks, st, WhileOpen, WhileClose);
        c.Parsed? &&
        var b := Statement(toks, c.st);
        b.Parsed? && r == Parsed(WhileStmt(c.value, b.value), b.st)
  {
  }

  /** The initializer clause is absent exactly when it is a bare `;`, a
      variable declaration exactly when it starts with `var` and an
      expression statement otherwise. */
  lemma ForInitializerParts(toks: seq<Token>, st: PState)
    requires Valid(toks, st)
    ensures var r := ForInitializer(toks, st);
      r.Parsed? ==>
        && (r.value.None? <==> CheckAny(toks, st, {Semicolon}))
        && (r.value.Some? ==> if CheckAny(toks, st, {Var}) then r.value.value.VarStmt? else r.value.value.ExprStmt?)
  {
  }

  /** The condition clause is absent exactly when `;` comes at once, and the
      increment exactly when `)` comes right after that `;`. */
  lemma ForLoopClausesParts(toks: seq<Token>, st: PState)
    requires Valid(toks, st)
    ensures var r := ForLoopClauses(toks, st);
      r.Parsed? ==>
        && var cond := OptionalExpression(toks, st, Semicolon);
        && cond.Parsed? && r.value.cond == cond.value && (r.value.cond.None? <==> Check(toks, st, Semicolon))
        && Check(toks, cond.st, Semicolon) && r.value.incrAt == Advance(toks, cond.st).pos
        && var incr := OptionalExpression(toks, Advance(toks, cond.st), RightParen);
        && incr.Parsed? && r.value.incr == incr.value && (r.value.incr.None? <==> Check(toks, Advance(toks, cond.st), RightParen))
        && Check(toks, incr.st, RightParen) && r.st == Advance(toks, incr.st)
  {
  }

  /** The header of a `for` is `(`, the initializer clause, and the
      condition and increment clauses; the condition clause starts where the
      initializer ends. */
  lemma ForClausesParts(toks: seq<Token>, st: PState)
    requires Valid(toks, st)
    ensures var r := ForClauses(toks, st);
      r.Parsed? ==>
        var lp := Consume(toks, st, LeftParen, ForOpen);
        lp.Parsed? &&
        var init := ForInitializer(toks, lp.st);
        init.Parsed? &&
        var rest := ForLoopClauses(toks, init.st);
        rest.Parsed? && r == Parsed(ForHeader(init.value, rest.value.cond, rest.value.incr, init.st.pos, rest.value.incrAt), rest.st)
  {
  }

  /** A `for` statement is the desugaring of its header's clauses and of the
      statement after the header. */
  lemma ForStatementParts(toks: seq<Token>, st: PState)
    requires Valid(toks, st)
    ensures var r := ForStatement(toks, st);
      r.Parsed? ==>
        var h := ForClauses(toks, st);
        h.Parsed? &&
        var body := Statement(toks, h.st);
        body.Parsed? && r == Parsed(DesugarFor(h.value.init, h.value.cond, h.value.incr, body.value), body.st)
  {
  }

  /** `stmt` picks its production by the first token: `print`, a block,
      or an expression statement. */
  lemma StatementDispatch(toks: seq<Token>, st: PState)
    requires Valid(toks, st)
    ensures CheckAny(toks, st, {Print}) ==> Statement(toks, st) == ExprThenSemicolon(toks, Advance(toks, st), true)
    ensures CheckAny(toks, st, {LeftBrace}) ==>
      var b := Block(toks, Advance(toks, st));
      (Statement(toks, st).Parsed? <==> b.Parsed?) && (b.Parsed? ==> Statement(toks, st) == Parsed(BlockStmt(b.value), b.st))
    ensures !CheckAny(toks, st, {Print, LeftBrace, If, While, For}) ==> Statement(toks, st) == ExprThenSemicolon(toks, st, false)
  {
    if CheckAny(toks, st, {LeftBrace}) {
      assert !CheckAny(toks, st, {Print});
    } else if !CheckAny(toks, st, {Print, LeftBrace, If, While, For}) {
      assert !CheckAny(toks, st, {Print}) && !CheckAny(toks, st, {If}) && !CheckAny(toks, st, {While}) && !CheckAny(toks, st, {For});
    }
  }

  /** `stmt` picks `if` by its keyword. */
  lemma StatementIf(toks: seq<Token>, st: PState)
    requires Valid(toks, st)
    ensures CheckAny(toks, st, {If}) ==> Statement(toks, st) == IfStatement(toks, Advance(toks, st))
  {
    if CheckAny(toks, st, {If}) {
      assert !CheckAny(toks, st, {Print}) && !CheckAny(toks, st, {LeftBrace});
    }
  }

  /** `stmt` picks `while` by its keyword. */
  lemma StatementWhile(toks: seq<Token>, st: PState)
    requires Valid(toks, st)
    ensures CheckAny(toks, st, {While}) ==> Statement(toks, st) == WhileStatement(toks, Advance(toks, st))
  {
    if CheckAny(toks, st, {While}) {
      assert !CheckAny(toks, st, {Print}) && !CheckAny(toks, st, {LeftBrace}) && !CheckAny(toks, st, {If});
    }
  }

  /** `stmt` picks `for` by its keyword. */
  lemma StatementFor(toks: seq<Token>, st: PState)
    requires Valid(toks, st)
    ensures CheckAny(toks, st, {For}) ==> Statement(toks, st) == ForStatement(toks, Advance(toks, st))
  {
    if CheckAny(toks, st, {For}) {
      assert !CheckAny(toks, st, {Print}) && !CheckAny(toks, st, {LeftBrace}) && !CheckAny(toks, st, {If}) && !CheckAny(toks, st, {While});
    }
  }

  /** `declaration` picks `fun`, `var` or a statement by the first token,
      and keeps what that production parsed. */
  lemma DeclarationDispatch(toks: seq<Token>, st: PState)
    requires Valid(toks, st)
    ensures var r := Declaration(toks, st);
      var p := if CheckAny(toks, st, {Fun}) then FunctionDeclaration(toks, Advance(toks, st))
               else if CheckAny(toks, st, {Var}) then VarDeclaration(toks, Advance(toks, st))
               else Statement(toks, st);
      (r.stmt.Some? <==> p.Parsed?) && (p.Parsed? ==> r == DeclOutcome(Some(p.value), p.st))
  {
  }

  /** A dropped declaration leaves the cursor at a synchronisation point or
      at EOF. */
  lemma DeclarationDropped(toks: seq<Token>, st: PState)
    requires Valid(toks, st)
    ensures var r := Declaration(toks, st);
      r.stmt.None? ==> IsAtEnd(toks, r.st) || (0 < r.st.pos && SyncPoint(toks, r.st.pos))
  {
  }

  /** A block holds the statements of the declarations that parsed before
      its `}`. */
  lemma BlockParts(toks: seq<Token>, st: PState)
    requires Valid(toks, st)
    ensures var r := Block(toks, st);
      var ds := DeclarationLoop(toks, st, true);
      && (r.Parsed? <==> Check(toks, ds.st, RightBrace))
      && (r.Parsed? ==> r.value == KeptStmts(ds.outcomes) && r.st == PState(ds.st.pos + 1, ds.st.errors))
  {
  }

  /** The declaration loop's outcomes are its run of `declaration` calls. */
  lemma {:induction false} DeclarationLoopRuns(toks: seq<Token>, st: PState, inBlock: bool)
    requires Valid(toks, st)
    ensures var r := DeclarationLoop(toks, st, inBlock);
      Run(toks, st, inBlock, r.outcomes) && r.st == RunEnd(st, r.outcomes)
    decreases |toks| - st.pos
  {
    if !Stops(toks, st, inBlock) {
      var d := Declaration(toks, st);
      DeclarationLoopRuns(toks, d.st, inBlock);
      assert DeclarationStep(toks)(st) == d;
      RunCons(DeclarationStep(toks), LoopStops(toks, inBlock), st, DeclarationLoop(toks, d.st, inBlock).outcomes);
    }
  }

  // ------------------------------------------------------------- program

  /** The result of `parse`: the declarations that parsed, in order, and
      the errors reported; `hadError` is "errors is non-empty". */
  datatype Program = Program(stmts: seq<Stmt>, errors: seq<Diag>)

  /** `p` is what `parse` makes of `toks` when its loop's `declaration`
      calls were `outcomes`: the loop went on until EOF, the statements are
      those of the declarations that parsed, and the errors are all those
      reported on the way. */
  predicate ParsesAs(toks: seq<Token>, outcomes: seq<DeclOutcome>, p: Program)
    requires ValidTokens(toks)
  {
    var start := PState(0, []);
    && Run(toks, start, false, outcomes)
    && RunEnd(start, outcomes).pos < |toks| && IsAtEnd(toks, RunEnd(start, outcomes))
    && p.stmts == KeptStmts(outcomes) && p.errors == RunEnd(start, outcomes).errors
  }

  /** `parse`: declarations until EOF. Failed declarations are dropped after
      resynchronising, and a drop never goes unreported. */
  function Parse(toks: seq<Token>): (r: Program)
    requires ValidTokens(toks)
    ensures exists outcomes :: ParsesAs(toks, outcomes, r) && (|KeptStmts(outcomes)| < |outcomes| ==> |r.errors| > 0)
  {
    var ds := DeclarationLoop(toks, PState(0, []), false);
    var r := Program(KeptStmts(ds.outcomes), ds.st.errors);
    DeclarationLoopRuns(toks, PState(0, []), false);
    assert ParsesAs(toks, ds.outcomes, r);
    r
  }

  /** A token list has one parse: the loop's `declaration` calls and the
      program they make are determined by the tokens. */
  lemma ParsesAsUnique(toks: seq<Token>, a: seq<DeclOutcome>, p: Program, b: seq<DeclOutcome>, q: Program)
    requires ValidTokens(toks) && ParsesAs(toks, a, p) && ParsesAs(toks, b, q)
    ensures a == b && p == q
  {
    RunUnique(DeclarationStep(toks), LoopStops(toks, false), PState(0, []), a, b);
  }

  /** `parse` returns the program of the run of its loop: whatever program a
      run of `declaration` calls from the first token to EOF makes is the
      one `parse` returns. */
  lemma ParseIsTheRun(toks: seq<Token>, outcomes: seq<DeclOutcome>, p: Program)
    requires ValidTokens(toks) && ParsesAs(toks, outcomes, p)
    ensures p == Parse(toks)
  {
    var r := Parse(toks);
    var o :| ParsesAs(toks, o, r);
    ParsesAsUnique(toks, outcomes, p, o, r);
  }

  // ------------------------------------------------------------ examples

  function Tok(kind: TokenType, lexeme: string): Token {
    Token(kind, lexeme, NilLit, 1)
  }

  lemma UnaryName(toks: seq<Token>, st: PState)
    requires Valid(toks, st) && st.pos + 1 < |toks|
    requires toks[st.pos].kind == Identifier && toks[st.pos + 1].kind != LeftParen
    ensures Unary(toks, st) == Parsed(VariableExpr(st.pos, toks[st.pos]), PState(st.pos + 1, st.errors))
  {
    var v := VariableExpr(st.pos, toks[st.pos]);
    var next := PState(st.pos + 1, st.errors);
    assert CallLoop(toks, next, v) == Parsed(v, next);
    assert Call(toks, st) == Parsed(v, next);
    assert !CheckAny(toks, st, {Bang, Minus, Plus});
  }

  /** A name followed by neither `(` nor a factor operator is a whole
      factor-level operand. */
  lemma NameOperand(toks: seq<Token>, st: PState)
    requires Valid(toks, st) && st.pos + 1 < |toks|
    requires toks[st.pos].kind == Identifier
    requires toks[st.pos + 1].kind != LeftParen && toks[st.pos + 1].kind != Slash && toks[st.pos + 1].kind != Star
    ensures Operand(toks, st, TermLevel) == Parsed(VariableExpr(st.pos, toks[st.pos]), PState(st.pos + 1, st.errors))
  {
    var v := VariableExpr(st.pos, toks[st.pos]);
    var next := PState(st.pos + 1, st.errors);
    UnaryName(toks, st);
    assert Operand(toks, st, FactorLevel) == Parsed(v, next);
    assert !CheckAny(toks, next, LevelOperators(FactorLevel));
    LevelLoopParts(toks, next, FactorLevel, v);
    BinaryLevelParts(toks, st, FactorLevel);
    assert BinaryLevel(toks, st, FactorLevel) == Parsed(v, next);
  }

  /** One turn of the term-level loop over `- name`: the operand so far
      becomes the left child of the new node. */
  lemma MinusNameStep(toks: seq<Token>, st: PState, left: Expr)
    requires Valid(toks, st) && st.pos + 2 < |toks| && Shaped(left) && Prec(left) >= LevelPrec(TermLevel)
    requires toks[st.pos].kind == Minus && toks[st.pos + 1].kind == Identifier
    requires toks[st.pos + 2].kind != LeftParen && toks[st.pos + 2].kind != Slash && toks[st.pos + 2].kind != Star
    ensures var e := BinaryExpr(left, toks[st.pos], VariableExpr(st.pos + 1, toks[st.pos + 1]));
      && Shaped(e) && Prec(e) >= LevelPrec(TermLevel)
      && LevelLoop(toks, st, TermLevel, left) == LevelLoop(toks, PState(st.pos + 2, st.errors), TermLevel, e)
  {
    var next := PState(st.pos + 1, st.errors);
    assert CheckAny(toks, st, LevelOperators(TermLevel));
    assert Advance(toks, st) == next;
    NameOperand(toks, next);
  }

  /** `a - b - c` nests to the left. */
  lemma LeftAssociativeExample()
    ensures
      var toks := [Tok(Identifier, "a"), Tok(Minus, "-"), Tok(Identifier, "b"), Tok(Minus, "-"),
                   Tok(Identifier, "c"), Tok(Eof, "")];
      BinaryLevel(toks, PState(0, []), TermLevel) == Parsed(
        BinaryExpr(BinaryExpr(VariableExpr(0, toks[0]), toks[1], VariableExpr(2, toks[2])),
                   toks[3], VariableExpr(4, toks[4])),
        PState(5, []))
  {
    var toks := [Tok(Identifier, "a"), Tok(Minus, "-"), Tok(Identifier, "b"), Tok(Minus, "-"),
                 Tok(Identifier, "c"), Tok(Eof, "")];
    var a := VariableExpr(0, toks[0]);
    var ab := BinaryExpr(a, toks[1], VariableExpr(2, toks[2]));
    var abc := BinaryExpr(ab, toks[3], VariableExpr(4, toks[4]));
    NameOperand(toks, PState(0, []));
    MinusNameStep(toks, PState(1, []), a);
    MinusNameStep(toks, PState(3, []), ab);
    assert !CheckAny(toks, PState(5, []), LevelOperators(TermLevel));
    assert LevelLoop(toks, PState(5, []), TermLevel, abc) == Parsed(abc, PState(5, []));
  }
}
