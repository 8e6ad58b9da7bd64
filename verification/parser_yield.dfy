/** What an expression tree says about the tokens it was parsed from: an
    expression the parser accepts without reporting an error is read from
    exactly the tokens it consumed, so its yield is theirs. Together with
    the precedence shape every production guarantees, this ties each tree to
    its tokens. */
module ParserYield {
  import opened Common
  import opened Tokens
  import opened Ast
  import opened Parser
  import opened Yields

  /** Errors are only appended, so a parse that ends with the errors it
      started with reported nothing in between. */
  lemma NothingReported(a: seq<Diag>, b: seq<Diag>, c: seq<Diag>)
    requires IsPrefix(a, b) && IsPrefix(b, c) && c == a
    ensures b == a
  {
  }

  /** No error reported: the production succeeded without reporting. */
  predicate Quiet<T>(st: PState, r: Parsed<T>) {
    r.Parsed? && r.st.errors == st.errors
  }

  /** The operators of `unary` and of every binary level are operators. */
  lemma OperatorsOfLevels(l: Level, k: TokenType)
    requires k in {Bang, Minus, Plus} || k in LevelOperators(l)
    ensures IsOperator(k)
  {
  }

  // ------------------------------------------------ what the parser reads

  /** `r` parsed a tree from `st` without reporting, and the tree is read
      from exactly the tokens it consumed. */
  predicate QuietlyReads(toks: seq<Token>, st: PState, r: Parsed<Expr>) {
    Quiet(st, r) ==> SpansTo(Pieces(toks), r.value, st.pos, r.st.pos)
  }

  lemma ExpressionReads(toks: seq<Token>, st: PState)
    requires Valid(toks, st)
    ensures QuietlyReads(toks, st, Expression(toks, st))
    decreases |toks| - st.pos, 20
  {
    var lhs := BinaryLevel(toks, st, OrLevel);
    BinaryLevelReads(toks, st, OrLevel);
    if lhs.Parsed? && CheckAny(toks, lhs.st, {Equal}) {
      var r := Assignment(toks, lhs.st, lhs.value);
      AssignmentReads(toks, lhs.st, lhs.value, st.pos);
      if Quiet(st, r) {
        NothingReported(st.errors, lhs.st.errors, r.st.errors);
      }
    }
  }

  /** The `=` at the cursor and the value read after it, following a target
      read from `from` up to the cursor. */
  lemma AssignRound(ps: seq<Piece>, st: PState, at: PState, target: Expr, value: Parsed<Expr>, r: Parsed<Expr>, from: nat)
    requires at.errors == st.errors && at.pos == st.pos + 1
    requires st.pos < |ps| && ps[st.pos] == KindPiece(Equal)
    requires r.Parsed? && target.VariableExpr? ==>
      value.Parsed? && r == Parsed(AssignExpr(target.id, target.name, value.value), value.st)
    requires r.Parsed? && !target.VariableExpr? ==> ReportedSince(st, r.st, InvalidTarget)
    requires Quiet(at, value) ==> SpansTo(ps, value.value, at.pos, value.st.pos)
    ensures Quiet(st, r) && SpansTo(ps, target, from, st.pos) ==> SpansTo(ps, r.value, from, r.st.pos)
  {
    if Quiet(st, r) && SpansTo(ps, target, from, st.pos) && target.VariableExpr? {
      ReadsAssign(ps, from, r.st.pos, target.id, target.name, value.value);
    }
  }

  /** An assignment reads its target's name, the `=` and the value; an
      invalid target is reported, so a quiet assignment has a variable
      target. */
  lemma AssignmentReads(toks: seq<Token>, st: PState, target: Expr, from: nat)
    requires Valid(toks, st) && Check(toks, st, Equal) && Shaped(target)
    ensures var r := Assignment(toks, st, target);
      Quiet(st, r) && SpansTo(Pieces(toks), target, from, st.pos) ==> SpansTo(Pieces(toks), r.value, from, r.st.pos)
    decreases |toks| - st.pos, 0
  {
    ExpressionReads(toks, Advance(toks, st));
    AssignmentParts(toks, st, target);
    KindKept(toks, st.pos, Equal);
    AssignRound(Pieces(toks), st, Advance(toks, st), target, Expression(toks, Advance(toks, st)), Assignment(toks, st, target), from);
  }

  lemma OperandReads(toks: seq<Token>, st: PState, l: Level)
    requires Valid(toks, st)
    ensures QuietlyReads(toks, st, Operand(toks, st, l))
    decreases |toks| - st.pos, 2 * (6 - LevelPrec(l)) + 4
  {
    if l == FactorLevel {
      UnaryReads(toks, st);
    } else {
      BinaryLevelReads(toks, st, NextLevel(l));
    }
  }

  lemma BinaryLevelReads(toks: seq<Token>, st: PState, l: Level)
    requires Valid(toks, st)
    ensures QuietlyReads(toks, st, BinaryLevel(toks, st, l))
    decreases |toks| - st.pos, 2 * (6 - LevelPrec(l)) + 5
  {
    var left := Operand(toks, st, l);
    OperandReads(toks, st, l);
    BinaryLevelParts(toks, st, l);
    if left.Parsed? {
      var r := LevelLoop(toks, left.st, l, left.value);
      LevelLoopReads(toks, left.st, l, left.value, st.pos);
      if Quiet(st, r) {
        NothingReported(st.errors, left.st.errors, r.st.errors);
      }
    }
  }

  /** One round of a level's loop, in terms of its parts: the operator at
      the cursor, the right operand read after it, and the rest of the loop
      from the node they build. */
  lemma LevelRound(ps: seq<Piece>, st: PState, at: PState, right: Parsed<Expr>, e: Expr, r: Parsed<Expr>, left: Expr, from: nat)
    requires at.errors == st.errors && at.pos == st.pos + 1
    requires right.Parsed? && (e.BinaryExpr? || e.LogicalExpr?) && e.left == left && e.right == right.value
    requires st.pos < |ps| && ps[st.pos] == TokenPiece(e.op)
    requires IsPrefix(at.errors, right.st.errors) && IsPrefix(right.st.errors, r.st.errors)
    requires Quiet(at, right) ==> SpansTo(ps, right.value, at.pos, right.st.pos)
    requires Quiet(right.st, r) && SpansTo(ps, e, from, right.st.pos) ==> SpansTo(ps, r.value, from, r.st.pos)
    ensures Quiet(st, r) && SpansTo(ps, left, from, st.pos) ==> SpansTo(ps, r.value, from, r.st.pos)
  {
    if Quiet(st, r) && SpansTo(ps, left, from, st.pos) {
      NothingReported(st.errors, right.st.errors, r.st.errors);
      ReadsInfix(ps, from, st.pos, right.st.pos, e);
    }
  }

  /** Each round of a level's loop reads the operator and the right
      operand after what the left operand read. */
  lemma LevelLoopReads(toks: seq<Token>, st: PState, l: Level, left: Expr, from: nat)
    requires Valid(toks, st)
    requires Shaped(left) && Prec(left) >= LevelPrec(l)
    ensures var r := LevelLoop(toks, st, l, left);
      Quiet(st, r) && SpansTo(Pieces(toks), left, from, st.pos) ==> SpansTo(Pieces(toks), r.value, from, r.st.pos)
    decreases |toks| - st.pos, 0
  {
    LevelLoopParts(toks, st, l, left);
    if CheckAny(toks, st, LevelOperators(l)) {
      var right := Operand(toks, Advance(toks, st), l);
      OperandReads(toks, Advance(toks, st), l);
      if right.Parsed? {
        var e := LevelNode(l, left, Peek(toks, st), right.value);
        var r := LevelLoop(toks, right.st, l, e);
        LevelLoopReads(toks, right.st, l, e, from);
        OperatorsOfLevels(l, toks[st.pos].kind);
        TokenKept(toks, st.pos);
        LevelRound(Pieces(toks), st, Advance(toks, st), right, e, r, left, from);
      }
    }
  }

  /** A prefix operator at the cursor, then the operand read after it. */
  lemma UnaryRound(ps: seq<Piece>, st: PState, at: PState, op: Token, right: Parsed<Expr>, r: Parsed<Expr>)
    requires at.errors == st.errors && at.pos == st.pos + 1
    requires right.Parsed? && r == Parsed(UnaryExpr(op, right.value), right.st)
    requires st.pos < |ps| && ps[st.pos] == TokenPiece(op)
    requires Quiet(at, right) ==> SpansTo(ps, right.value, at.pos, right.st.pos)
    ensures Quiet(st, r) ==> SpansTo(ps, r.value, st.pos, r.st.pos)
  {
    if Quiet(st, r) {
      ReadsUnary(ps, st.pos, right.st.pos, op, right.value);
    }
  }

  lemma UnaryReads(toks: seq<Token>, st: PState)
    requires Valid(toks, st)
    ensures QuietlyReads(toks, st, Unary(toks, st))
    decreases |toks| - st.pos, 3
  {
    UnaryParts(toks, st);
    if CheckAny(toks, st, {Bang, Minus, Plus}) {
      var right := Unary(toks, Advance(toks, st));
      UnaryReads(toks, Advance(toks, st));
      if right.Parsed? {
        OperatorsOfLevels(FactorLevel, toks[st.pos].kind);
        TokenKept(toks, st.pos);
        UnaryRound(Pieces(toks), st, Advance(toks, st), Peek(toks, st), right, Unary(toks, st));
      }
    } else {
      CallReads(toks, st);
    }
  }

  lemma CallReads(toks: seq<Token>, st: PState)
    requires Valid(toks, st)
    ensures QuietlyReads(toks, st, Call(toks, st))
    decreases |toks| - st.pos, 2
  {
    var callee := Primary(toks, st);
    PrimaryReads(toks, st);
    CallParts(toks, st);
    if callee.Parsed? {
      var r := CallLoop(toks, callee.st, callee.value);
      CallLoopReads(toks, callee.st, callee.value, st.pos);
      if Quiet(st, r) {
        NothingReported(st.errors, callee.st.errors, r.st.errors);
      }
    }
  }

  /** One round of the call loop, in terms of its parts: the `(` at the
      cursor, the call `finishCall` built after it, and the rest of the
      loop. */
  lemma CallRound(ps: seq<Piece>, st: PState, next: nat, call: Parsed<Expr>, r: Parsed<Expr>, callee: Expr, from: nat)
    requires call.Parsed? && call.value.CallExpr? && call.value.callee == callee
    requires IsPrefix(st.errors, call.st.errors) && IsPrefix(call.st.errors, r.st.errors)
    requires st.pos < |ps| && ps[st.pos] == KindPiece(LeftParen) && next == st.pos + 1
    requires call.st.errors == st.errors ==> ArgumentsTo(ps, call.value.args, next, call.st.pos)
    requires Quiet(call.st, r) && SpansTo(ps, call.value, from, call.st.pos) ==> SpansTo(ps, r.value, from, r.st.pos)
    ensures Quiet(st, r) && SpansTo(ps, callee, from, st.pos) ==> SpansTo(ps, r.value, from, r.st.pos)
  {
    if Quiet(st, r) && SpansTo(ps, callee, from, st.pos) {
      NothingReported(st.errors, call.st.errors, r.st.errors);
      ReadsCall(ps, from, st.pos, call.st.pos, call.value);
    }
  }

  /** Each argument list read after a callee extends what the callee read. */
  lemma CallLoopReads(toks: seq<Token>, st: PState, callee: Expr, from: nat)
    requires Valid(toks, st)
    requires Shaped(callee) && Prec(callee) == 7
    ensures var r := CallLoop(toks, st, callee);
      Quiet(st, r) && SpansTo(Pieces(toks), callee, from, st.pos) ==> SpansTo(Pieces(toks), r.value, from, r.st.pos)
    decreases |toks| - st.pos, 0
  {
    CallLoopParts(toks, st, callee);
    if CheckAny(toks, st, {LeftParen}) {
      var call := FinishCall(toks, Advance(toks, st), callee);
      FinishCallReads(toks, Advance(toks, st), callee);
      if call.Parsed? {
        var r := CallLoop(toks, call.st, call.value);
        CallLoopReads(toks, call.st, call.value, from);
        KindKept(toks, st.pos, LeftParen);
        CallRound(Pieces(toks), st, Advance(toks, st).pos, call, r, callee, from);
      }
    }
  }

  /** The `)` after an argument list read from the cursor. */
  lemma CloseRound(ps: seq<Piece>, st: PState, args: Parsed<seq<Expr>>, r: Parsed<Expr>)
    requires r.Parsed? ==> && args.Parsed? && r.value.CallExpr? && r.value.args == args.value
                           && r.st == PState(args.st.pos + 1, args.st.errors)
                           && args.st.pos < |ps| && ps[args.st.pos] == KindPiece(RightParen)
    requires Quiet(st, args) ==> MatchesList(ps, args.value, st.pos) && args.st.pos == st.pos + ListSize(args.value)
    ensures Quiet(st, r) ==> ArgumentsTo(ps, r.value.args, st.pos, r.st.pos)
  {
    if Quiet(st, r) {
      ReadsClose(ps, st.pos, args.value, args.st.pos);
    }
  }

  /** After `(`: the arguments, then the `)`. */
  lemma FinishCallReads(toks: seq<Token>, st: PState, callee: Expr)
    requires Valid(toks, st)
    requires Shaped(callee) && Prec(callee) == 7
    ensures var r := FinishCall(toks, st, callee);
      Quiet(st, r) ==> ArgumentsTo(Pieces(toks), r.value.args, st.pos, r.st.pos)
    decreases |toks| - st.pos, 22
  {
    var r := FinishCall(toks, st, callee);
    var args := if Check(toks, st, RightParen) then Parsed([], st) else Arguments(toks, st, 0);
    FinishCallParts(toks, st, callee);
    if !Check(toks, st, RightParen) {
      ArgumentsReads(toks, st, 0);
    }
    if r.Parsed? {
      KindKept(toks, args.st.pos, RightParen);
    }
    CloseRound(Pieces(toks), st, args, r);
  }

  /** One argument read after the limit check, then either the end of the
      list or a `,` and the rest of the list. */
  lemma ArgumentRound(ps: seq<Piece>, st: PState, st1: PState, arg: Parsed<Expr>, more: bool,
                      next: PState, rest: Parsed<seq<Expr>>, r: Parsed<seq<Expr>>)
    requires st1.pos == st.pos && IsPrefix(st.errors, st1.errors) && IsPrefix(st1.errors, arg.st.errors)
    requires Quiet(st1, arg) ==> SpansTo(ps, arg.value, st1.pos, arg.st.pos)
    requires r.Parsed? ==> arg.Parsed?
    requires r.Parsed? && !more ==> r == Parsed([arg.value], arg.st)
    requires r.Parsed? && more ==>
      && rest.Parsed? && |rest.value| > 0 && r == Parsed([arg.value] + rest.value, rest.st)
      && IsPrefix(arg.st.errors, rest.st.errors)
      && next.pos == arg.st.pos + 1 && next.errors == arg.st.errors
      && arg.st.pos < |ps| && ps[arg.st.pos] == KindPiece(Comma)
      && (Quiet(next, rest) ==> MatchesList(ps, rest.value, next.pos) && rest.st.pos == next.pos + ListSize(rest.value))
    ensures Quiet(st, r) ==> MatchesList(ps, r.value, st.pos) && r.st.pos == st.pos + ListSize(r.value)
  {
    if Quiet(st, r) {
      PrefixTransitive(st.errors, st1.errors, arg.st.errors);
      if more {
        NothingReported(st.errors, arg.st.errors, rest.st.errors);
        NothingReported(st.errors, st1.errors, arg.st.errors);
        ReadsArguments(ps, st.pos, arg.st.pos, r.st.pos, arg.value, rest.value);
      } else {
        NothingReported(st.errors, st1.errors, arg.st.errors);
        ReadsOneArgument(ps, st.pos, arg.st.pos, arg.value);
      }
    }
  }

  lemma ArgumentsReads(toks: seq<Token>, st: PState, count: nat)
    requires Valid(toks, st)
    ensures var r := Arguments(toks, st, count);
      Quiet(st, r) ==> MatchesList(Pieces(toks), r.value, st.pos) && r.st.pos == st.pos + ListSize(r.value)
    decreases |toks| - st.pos, 21
  {
    var r := Arguments(toks, st, count);
    var st1 := LimitCheck(toks, st, count, TooManyArguments);
    var arg := Expression(toks, st1);
    ExpressionReads(toks, st1);
    ArgumentsParts(toks, st, count);
    var more := CheckAny(toks, arg.st, {Comma});
    var next := Advance(toks, arg.st);
    var rest := Arguments(toks, next, count + 1);
    if arg.Parsed? && more {
      ArgumentsReads(toks, next, count + 1);
      KindKept(toks, arg.st.pos, Comma);
    }
    ArgumentRound(Pieces(toks), st, st1, arg, more, next, rest, r);
  }

  /** A literal or a name is read from the one token at the cursor. */
  lemma LeafRead(ps: seq<Piece>, st: PState, e: Expr, r: Parsed<Expr>)
    requires r == Parsed(e, PState(st.pos + 1, st.errors)) && st.pos < |ps|
    requires (e.LiteralExpr? && ps[st.pos] == LiteralPiece(e.lit)) || (e.VariableExpr? && ps[st.pos] == TokenPiece(e.name))
    ensures Quiet(st, r) ==> SpansTo(ps, r.value, st.pos, r.st.pos)
  {
  }

  /** A literal keyword, number or string is read from its one token. */
  lemma LiteralReads(toks: seq<Token>, st: PState)
    requires Valid(toks, st)
    requires toks[st.pos].kind in {False, True, Nil, Number, String}
    ensures QuietlyReads(toks, st, Primary(toks, st))
  {
    var t := toks[st.pos];
    LiteralKept(toks, st.pos);
    var v := if t.kind == False then BoolLit(false) else if t.kind == True then BoolLit(true)
      else if t.kind == Nil then NilLit else t.literal;
    LeafRead(Pieces(toks), st, LiteralExpr(v), Primary(toks, st));
  }

  /** A name is read from its one token. */
  lemma NameReads(toks: seq<Token>, st: PState)
    requires Valid(toks, st) && toks[st.pos].kind == Identifier
    ensures QuietlyReads(toks, st, Primary(toks, st))
  {
    TokenKept(toks, st.pos);
    LeafRead(Pieces(toks), st, VariableExpr(st.pos, toks[st.pos]), Primary(toks, st));
  }

  lemma PrimaryReads(toks: seq<Token>, st: PState)
    requires Valid(toks, st)
    ensures QuietlyReads(toks, st, Primary(toks, st))
    decreases |toks| - st.pos, 1
  {
    var k := toks[st.pos].kind;
    if k == LeftParen {
      GroupingParts(toks, st);
      GroupingReads(toks, st);
    } else if k == Identifier {
      NameReads(toks, st);
    } else if k in {False, True, Nil, Number, String} {
      LiteralReads(toks, st);
    } else {
      assert k !in PrimaryStarts;
    }
  }

  /** A `(`, the expression read after it, and the `)` that closes it. */
  lemma GroupingRound(ps: seq<Piece>, st: PState, at: PState, inner: Parsed<Expr>, r: Parsed<Expr>)
    requires at.errors == st.errors && at.pos == st.pos + 1
    requires inner.Parsed?
    requires r.Parsed? ==> r.value == GroupingExpr(inner.value) && r.st == PState(inner.st.pos + 1, inner.st.errors)
    requires r.Parsed? ==> inner.st.pos < |ps| && ps[inner.st.pos] == KindPiece(RightParen)
    requires st.pos < |ps| && ps[st.pos] == KindPiece(LeftParen)
    requires Quiet(at, inner) ==> SpansTo(ps, inner.value, at.pos, inner.st.pos)
    ensures Quiet(st, r) ==> SpansTo(ps, r.value, st.pos, r.st.pos)
  {
    if Quiet(st, r) {
      ReadsGrouping(ps, st.pos, inner.st.pos, inner.value);
    }
  }

  lemma GroupingReads(toks: seq<Token>, st: PState)
    requires Valid(toks, st) && Check(toks, st, LeftParen)
    ensures QuietlyReads(toks, st, Grouping(toks, st))
    decreases |toks| - st.pos, 0
  {
    var r := Grouping(toks, st);
    var inner := Expression(toks, Advance(toks, st));
    ExpressionReads(toks, Advance(toks, st));
    if inner.Parsed? {
      KindKept(toks, st.pos, LeftParen);
      if r.Parsed? {
        KindKept(toks, inner.st.pos, RightParen);
      }
      GroupingRound(Pieces(toks), st, Advance(toks, st), inner, r);
    }
  }

  /** An expression parsed without a reported error has exactly the yield of
      the tokens it consumed. */
  lemma ExpressionYield(toks: seq<Token>, st: PState)
    requires Valid(toks, st)
    ensures var r := Expression(toks, st);
      Quiet(st, r) ==> Yield(r.value) == PieceSpan(Pieces(toks), st.pos, r.st.pos)
  {
    var r := Expression(toks, st);
    ExpressionReads(toks, st);
    if Quiet(st, r) {
      MatchesYield(Pieces(toks), r.value, st.pos, r.st.pos);
    }
  }
}

