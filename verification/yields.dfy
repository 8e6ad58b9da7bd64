/** The yield of an expression tree: its operator and name tokens, its
    literal values and the punctuation between them, in source order, and
    the same reading stated by token positions. The two agree, so a
    production that reads a tree from a run of tokens has exactly that run's
    yield. */
module Yields {
  import opened Tokens
  import opened Ast

  /** One element of a yield: a token kept in the tree itself (a name or an
      operator), a literal value, or punctuation known only by its kind. */
  datatype Piece = TokenPiece(t: Token) | LiteralPiece(v: LitValue) | KindPiece(k: TokenType)

  /** The operator tokens the expression grammar stores in its nodes. */
  predicate IsOperator(k: TokenType) {
    match k
    case Bang | Minus | Plus | Slash | Star | BangEqual | EqualEqual => true
    case Greater | GreaterEqual | Less | LessEqual | And | Or => true
    case _ => false
  }

  /** What a token contributes to a yield: literal tokens their value,
      names and operators themselves, anything else its kind. */
  function PieceOf(t: Token): Piece {
    match t.kind
    case Number | String => LiteralPiece(t.literal)
    case True => LiteralPiece(BoolLit(true))
    case False => LiteralPiece(BoolLit(false))
    case Nil => LiteralPiece(NilLit)
    case Identifier => TokenPiece(t)
    case _ => if IsOperator(t.kind) then TokenPiece(t) else KindPiece(t.kind)
  }

  /** The pieces of a token list, one per token. */
  function Pieces(toks: seq<Token>): (ps: seq<Piece>)
    ensures |ps| == |toks|
  {
    if |toks| == 0 then [] else [PieceOf(toks[0])] + Pieces(toks[1..])
  }

  lemma {:induction false} PiecesAt(toks: seq<Token>, i: nat)
    requires i < |toks|
    ensures Pieces(toks)[i] == PieceOf(toks[i])
    decreases i
  {
    if i > 0 {
      PiecesAt(toks[1..], i - 1);
      assert toks[1..][i - 1] == toks[i];
    }
  }

  /** The pieces at positions `a` up to `b`, nested to the right. */
  function PieceSpan(ps: seq<Piece>, a: nat, b: nat): seq<Piece>
    requires a <= b <= |ps|
    decreases b - a
  {
    if a == b then [] else [ps[a]] + PieceSpan(ps, a + 1, b)
  }

  /** The yield of a tree, in source order. Every concatenation nests to
      the right, as `PieceSpan` builds its pieces. */
  function Yield(e: Expr): seq<Piece>
    decreases e
  {
    match e
    case LiteralExpr(v) => [LiteralPiece(v)]
    case GroupingExpr(inner) => [KindPiece(LeftParen)] + (Yield(inner) + [KindPiece(RightParen)])
    case UnaryExpr(op, right) => [TokenPiece(op)] + Yield(right)
    case BinaryExpr(left, op, right) => Yield(left) + ([TokenPiece(op)] + Yield(right))
    case LogicalExpr(left, op, right) => Yield(left) + ([TokenPiece(op)] + Yield(right))
    case VariableExpr(_, name) => [TokenPiece(name)]
    case AssignExpr(_, name, value) => [TokenPiece(name)] + ([KindPiece(Equal)] + Yield(value))
    case CallExpr(callee, _, args) =>
      Yield(callee) + ([KindPiece(LeftParen)] + (ListYield(args) + [KindPiece(RightParen)]))
    case GetExpr(obj, name) => Yield(obj) + ([KindPiece(Dot)] + [TokenPiece(name)])
    case SetExpr(obj, name, value) =>
      Yield(obj) + ([KindPiece(Dot)] + ([TokenPiece(name)] + ([KindPiece(Equal)] + Yield(value))))
    case ThisExpr(_, _) => [KindPiece(This)]
    case SuperExpr(_, _) => [KindPiece(Super)]
  }

  /** The yield of an argument list: the arguments' yields, separated by
      commas. */
  function ListYield(args: seq<Expr>): seq<Piece>
    decreases args
  {
    if |args| == 0 then []
    else if |args| == 1 then Yield(args[0])
    else Yield(args[0]) + ([KindPiece(Comma)] + ListYield(args[1..]))
  }

  // ------------------------------------------------------ by position

  /** The number of tokens a tree spans: the length of its yield. */
  function Size(e: Expr): nat
    decreases e
  {
    match e
    case LiteralExpr(_) => 1
    case GroupingExpr(inner) => Size(inner) + 2
    case UnaryExpr(_, right) => 1 + Size(right)
    case BinaryExpr(left, _, right) => Size(left) + 1 + Size(right)
    case LogicalExpr(left, _, right) => Size(left) + 1 + Size(right)
    case VariableExpr(_, _) => 1
    case AssignExpr(_, _, value) => 2 + Size(value)
    case CallExpr(callee, _, args) => Size(callee) + 2 + ListSize(args)
    case GetExpr(obj, _) => Size(obj) + 2
    case SetExpr(obj, _, value) => Size(obj) + 3 + Size(value)
    case ThisExpr(_, _) => 1
    case SuperExpr(_, _) => 1
  }

  function ListSize(args: seq<Expr>): nat
    decreases args
  {
    if |args| == 0 then 0
    else if |args| == 1 then Size(args[0])
    else Size(args[0]) + 1 + ListSize(args[1..])
  }

  /** `e`'s yield is read from the tokens starting at position `a`: the
      yield, one piece per token, in position terms. */
  predicate Matches(ps: seq<Piece>, e: Expr, a: nat)
    decreases e
  {
    match e
    case LiteralExpr(v) => a < |ps| && ps[a] == LiteralPiece(v)
    case GroupingExpr(inner) =>
      && a < |ps| && ps[a] == KindPiece(LeftParen) && Matches(ps, inner, a + 1)
      && a + 1 + Size(inner) < |ps| && ps[a + 1 + Size(inner)] == KindPiece(RightParen)
    case UnaryExpr(op, right) => a < |ps| && ps[a] == TokenPiece(op) && Matches(ps, right, a + 1)
    case BinaryExpr(left, op, right) =>
      && Matches(ps, left, a) && a + Size(left) < |ps|
      && ps[a + Size(left)] == TokenPiece(op) && Matches(ps, right, a + Size(left) + 1)
    case LogicalExpr(left, op, right) =>
      && Matches(ps, left, a) && a + Size(left) < |ps|
      && ps[a + Size(left)] == TokenPiece(op) && Matches(ps, right, a + Size(left) + 1)
    case VariableExpr(_, name) => a < |ps| && ps[a] == TokenPiece(name)
    case AssignExpr(_, name, value) =>
      && a + 1 < |ps| && ps[a] == TokenPiece(name) && ps[a + 1] == KindPiece(Equal)
      && Matches(ps, value, a + 2)
    case CallExpr(callee, _, args) =>
      && Matches(ps, callee, a) && a + Size(callee) < |ps| && ps[a + Size(callee)] == KindPiece(LeftParen)
      && MatchesList(ps, args, a + Size(callee) + 1)
      && a + Size(callee) + 1 + ListSize(args) < |ps|
      && ps[a + Size(callee) + 1 + ListSize(args)] == KindPiece(RightParen)
    case GetExpr(obj, name) =>
      && Matches(ps, obj, a) && a + Size(obj) + 1 < |ps|
      && ps[a + Size(obj)] == KindPiece(Dot) && ps[a + Size(obj) + 1] == TokenPiece(name)
    case SetExpr(obj, name, value) =>
      && Matches(ps, obj, a) && a + Size(obj) + 2 < |ps|
      && ps[a + Size(obj)] == KindPiece(Dot) && ps[a + Size(obj) + 1] == TokenPiece(name)
      && ps[a + Size(obj) + 2] == KindPiece(Equal) && Matches(ps, value, a + Size(obj) + 3)
    case ThisExpr(_, _) => a < |ps| && ps[a] == KindPiece(This)
    case SuperExpr(_, _) => a < |ps| && ps[a] == KindPiece(Super)
  }

  predicate MatchesList(ps: seq<Piece>, args: seq<Expr>, a: nat)
    decreases args
  {
    if |args| == 0 then true
    else if |args| == 1 then Matches(ps, args[0], a)
    else
      && Matches(ps, args[0], a) && a + Size(args[0]) < |ps|
      && ps[a + Size(args[0])] == KindPiece(Comma) && MatchesList(ps, args[1..], a + Size(args[0]) + 1)
  }

  /** `e` is read from the tokens at positions `a` up to `b`. */
  predicate SpansTo(ps: seq<Piece>, e: Expr, a: nat, b: nat) {
    Matches(ps, e, a) && b == a + Size(e)
  }

  /** An argument list is read from position `a`, and the `)` after it
      ends just before `b`. */
  predicate ArgumentsTo(ps: seq<Piece>, args: seq<Expr>, a: nat, b: nat) {
    && MatchesList(ps, args, a) && a + ListSize(args) < |ps|
    && ps[a + ListSize(args)] == KindPiece(RightParen) && b == a + ListSize(args) + 1
  }

  // ------------------------------------------------------ piece algebra

  lemma {:induction false} SpanSplit(ps: seq<Piece>, a: nat, b: nat, c: nat)
    requires a <= b <= c <= |ps|
    ensures PieceSpan(ps, a, c) == PieceSpan(ps, a, b) + PieceSpan(ps, b, c)
    decreases b - a
  {
    if a < b {
      SpanSplit(ps, a + 1, b, c);
    }
  }

  // ------------------------------------------------------ token pieces

  lemma NameOrOperatorPiece(t: Token)
    requires t.kind == Identifier || IsOperator(t.kind)
    ensures PieceOf(t) == TokenPiece(t)
  {
  }

  /** Names and operators are kept whole. */
  lemma TokenKept(toks: seq<Token>, i: nat)
    requires i < |toks| && (toks[i].kind == Identifier || IsOperator(toks[i].kind))
    ensures Pieces(toks)[i] == TokenPiece(toks[i])
  {
    PiecesAt(toks, i);
    NameOrOperatorPiece(toks[i]);
  }

  /** Parentheses, commas and `=` are kept by kind. */
  lemma KindKept(toks: seq<Token>, i: nat, k: TokenType)
    requires i < |toks| && toks[i].kind == k && k in {LeftParen, RightParen, Comma, Equal}
    ensures Pieces(toks)[i] == KindPiece(k)
  {
    PiecesAt(toks, i);
  }

  /** Literal tokens are kept by value. */
  lemma LiteralKept(toks: seq<Token>, i: nat)
    requires i < |toks|
    ensures toks[i].kind == False ==> Pieces(toks)[i] == LiteralPiece(BoolLit(false))
    ensures toks[i].kind == True ==> Pieces(toks)[i] == LiteralPiece(BoolLit(true))
    ensures toks[i].kind == Nil ==> Pieces(toks)[i] == LiteralPiece(NilLit)
    ensures toks[i].kind in {Number, String} ==> Pieces(toks)[i] == LiteralPiece(toks[i].literal)
  {
    PiecesAt(toks, i);
  }

  // ------------------------------------------------ reading each node

  lemma ReadsUnary(ps: seq<Piece>, a: nat, b: nat, op: Token, right: Expr)
    requires a < |ps| && ps[a] == TokenPiece(op) && SpansTo(ps, right, a + 1, b)
    ensures SpansTo(ps, UnaryExpr(op, right), a, b)
  {
  }

  lemma ReadsInfix(ps: seq<Piece>, a: nat, m: nat, b: nat, e: Expr)
    requires e.BinaryExpr? || e.LogicalExpr?
    requires SpansTo(ps, e.left, a, m) && m < |ps| && ps[m] == TokenPiece(e.op) && SpansTo(ps, e.right, m + 1, b)
    ensures SpansTo(ps, e, a, b)
  {
  }

  lemma ReadsAssign(ps: seq<Piece>, a: nat, b: nat, id: int, name: Token, value: Expr)
    requires a + 1 < |ps| && ps[a] == TokenPiece(name) && ps[a + 1] == KindPiece(Equal)
    requires SpansTo(ps, value, a + 2, b)
    ensures SpansTo(ps, AssignExpr(id, name, value), a, b)
  {
  }

  lemma ReadsCall(ps: seq<Piece>, a: nat, m: nat, b: nat, e: Expr)
    requires e.CallExpr?
    requires SpansTo(ps, e.callee, a, m) && m < |ps| && ps[m] == KindPiece(LeftParen) && ArgumentsTo(ps, e.args, m + 1, b)
    ensures SpansTo(ps, e, a, b)
  {
  }

  lemma ReadsGrouping(ps: seq<Piece>, a: nat, c: nat, inner: Expr)
    requires a < |ps| && ps[a] == KindPiece(LeftParen) && SpansTo(ps, inner, a + 1, c)
    requires c < |ps| && ps[c] == KindPiece(RightParen)
    ensures SpansTo(ps, GroupingExpr(inner), a, c + 1)
  {
  }

  lemma ReadsOneArgument(ps: seq<Piece>, a: nat, b: nat, x: Expr)
    requires SpansTo(ps, x, a, b)
    ensures MatchesList(ps, [x], a) && b == a + ListSize([x])
  {
  }

  lemma ReadsArguments(ps: seq<Piece>, a: nat, m: nat, b: nat, x: Expr, rest: seq<Expr>)
    requires |rest| > 0
    requires SpansTo(ps, x, a, m) && m < |ps| && ps[m] == KindPiece(Comma)
    requires MatchesList(ps, rest, m + 1) && b == m + 1 + ListSize(rest)
    ensures MatchesList(ps, [x] + rest, a) && b == a + ListSize([x] + rest)
  {
    assert ([x] + rest)[1..] == rest;
  }

  lemma ReadsClose(ps: seq<Piece>, a: nat, args: seq<Expr>, c: nat)
    requires MatchesList(ps, args, a) && c == a + ListSize(args)
    requires c < |ps| && ps[c] == KindPiece(RightParen)
    ensures ArgumentsTo(ps, args, a, c + 1)
  {
  }

  // ------------------------------------------------- positions and yields

  /** The last token of a span. */
  lemma SpanLast(ps: seq<Piece>, a: nat, z: nat, p: Piece)
    requires a < z <= |ps| && p == ps[z - 1]
    ensures PieceSpan(ps, a, z) == PieceSpan(ps, a, z - 1) + [p]
  {
    SpanSplit(ps, a, z - 1, z);
  }

  /** The first piece of a span. */
  lemma SpanHead(ps: seq<Piece>, a: nat, b: nat, p: Piece)
    requires a < b <= |ps| && p == ps[a]
    ensures PieceSpan(ps, a, b) == [p] + PieceSpan(ps, a + 1, b)
  {
  }

  /** A span split around the piece at `m`. */
  lemma SpanAround(ps: seq<Piece>, a: nat, m: nat, b: nat, p: Piece)
    requires a <= m < b <= |ps| && p == ps[m]
    ensures PieceSpan(ps, a, b) == PieceSpan(ps, a, m) + ([p] + PieceSpan(ps, m + 1, b))
  {
    SpanSplit(ps, a, m, b);
  }

  /** The positional reading and the yield agree: a tree read from position
      `a` to `b` has the yield of the tokens it covers. */
  lemma {:induction false} MatchesYield(ps: seq<Piece>, e: Expr, a: nat, b: nat)
    requires Matches(ps, e, a) && b == a + Size(e)
    ensures b <= |ps| && Yield(e) == PieceSpan(ps, a, b)
    decreases e, 1
  {
    match e
    case LiteralExpr(_) =>
    case GroupingExpr(_) => GroupingYields(ps, e, a, b);
    case UnaryExpr(_, _) => UnaryYields(ps, e, a, b);
    case BinaryExpr(_, _, _) => InfixYields(ps, e, a, b);
    case LogicalExpr(_, _, _) => InfixYields(ps, e, a, b);
    case VariableExpr(_, _) =>
    case AssignExpr(_, _, _) => AssignYields(ps, e, a, b);
    case CallExpr(_, _, _) => CallYields(ps, e, a, b);
    case GetExpr(_, _) => GetYields(ps, e, a, b);
    case SetExpr(_, _, _) => SetYields(ps, e, a, b);
    case ThisExpr(_, _) =>
    case SuperExpr(_, _) =>
  }

  lemma {:induction false} GroupingYields(ps: seq<Piece>, e: Expr, a: nat, b: nat)
    requires e.GroupingExpr? && Matches(ps, e, a) && b == a + Size(e)
    ensures b <= |ps| && Yield(e) == PieceSpan(ps, a, b)
    decreases e, 0
  {
    MatchesYield(ps, e.inner, a + 1, b - 1);
    SpanHead(ps, a, b, KindPiece(LeftParen));
    SpanLast(ps, a + 1, b, KindPiece(RightParen));
  }

  lemma {:induction false} UnaryYields(ps: seq<Piece>, e: Expr, a: nat, b: nat)
    requires e.UnaryExpr? && Matches(ps, e, a) && b == a + Size(e)
    ensures b <= |ps| && Yield(e) == PieceSpan(ps, a, b)
    decreases e, 0
  {
    MatchesYield(ps, e.right, a + 1, b);
    SpanHead(ps, a, b, TokenPiece(e.op));
  }

  lemma {:induction false} InfixYields(ps: seq<Piece>, e: Expr, a: nat, b: nat)
    requires (e.BinaryExpr? || e.LogicalExpr?) && Matches(ps, e, a) && b == a + Size(e)
    ensures b <= |ps| && Yield(e) == PieceSpan(ps, a, b)
    decreases e, 0
  {
    var m := a + Size(e.left);
    MatchesYield(ps, e.left, a, m);
    MatchesYield(ps, e.right, m + 1, b);
    SpanAround(ps, a, m, b, TokenPiece(e.op));
  }

  lemma {:induction false} AssignYields(ps: seq<Piece>, e: Expr, a: nat, b: nat)
    requires e.AssignExpr? && Matches(ps, e, a) && b == a + Size(e)
    ensures b <= |ps| && Yield(e) == PieceSpan(ps, a, b)
    decreases e, 0
  {
    MatchesYield(ps, e.value, a + 2, b);
    SpanHead(ps, a, b, TokenPiece(e.name));
    SpanHead(ps, a + 1, b, KindPiece(Equal));
  }

  lemma {:induction false} CallYields(ps: seq<Piece>, e: Expr, a: nat, b: nat)
    requires e.CallExpr? && Matches(ps, e, a) && b == a + Size(e)
    ensures b <= |ps| && Yield(e) == PieceSpan(ps, a, b)
    decreases e, 0
  {
    var m := a + Size(e.callee);
    MatchesYield(ps, e.callee, a, m);
    MatchesListYield(ps, e.args, m + 1, b - 1);
    ComposeCall(ps, a, m, b, e);
  }

  /** A callee, `(`, the arguments and `)`, one after the other. */
  lemma ComposeCall(ps: seq<Piece>, a: nat, m: nat, b: nat, e: Expr)
    requires e.CallExpr? && a <= m < b - 1 && b <= |ps|
    requires Yield(e.callee) == PieceSpan(ps, a, m) && ListYield(e.args) == PieceSpan(ps, m + 1, b - 1)
    requires ps[m] == KindPiece(LeftParen) && ps[b - 1] == KindPiece(RightParen)
    ensures Yield(e) == PieceSpan(ps, a, b)
  {
    SpanAround(ps, a, m, b, KindPiece(LeftParen));
    SpanLast(ps, m + 1, b, KindPiece(RightParen));
  }

  lemma {:induction false} GetYields(ps: seq<Piece>, e: Expr, a: nat, b: nat)
    requires e.GetExpr? && Matches(ps, e, a) && b == a + Size(e)
    ensures b <= |ps| && Yield(e) == PieceSpan(ps, a, b)
    decreases e, 0
  {
    var m := a + Size(e.obj);
    MatchesYield(ps, e.obj, a, m);
    SpanAround(ps, a, m, b, KindPiece(Dot));
    SpanLast(ps, m + 1, b, TokenPiece(e.name));
  }

  lemma {:induction false} SetYields(ps: seq<Piece>, e: Expr, a: nat, b: nat)
    requires e.SetExpr? && Matches(ps, e, a) && b == a + Size(e)
    ensures b <= |ps| && Yield(e) == PieceSpan(ps, a, b)
    decreases e, 0
  {
    var m := a + Size(e.obj);
    assert b == m + 3 + Size(e.value);
    MatchesYield(ps, e.obj, a, m);
    MatchesYield(ps, e.value, m + 3, b);
    SpanAround(ps, a, m, b, KindPiece(Dot));
    SpanHead(ps, m + 2, b, KindPiece(Equal));
    SpanHead(ps, m + 1, b, TokenPiece(e.name));
    assert PieceSpan(ps, m + 1, b) == [TokenPiece(e.name)] + ([KindPiece(Equal)] + Yield(e.value));
  }

  lemma {:induction false} MatchesListYield(ps: seq<Piece>, args: seq<Expr>, a: nat, b: nat)
    requires MatchesList(ps, args, a) && b == a + ListSize(args) && a <= |ps|
    ensures b <= |ps| && ListYield(args) == PieceSpan(ps, a, b)
    decreases args, 2
  {
    if |args| == 1 {
      MatchesYield(ps, args[0], a, b);
    } else if |args| > 1 {
      var m := a + Size(args[0]);
      assert b == m + 1 + ListSize(args[1..]);
      MatchesYield(ps, args[0], a, m);
      MatchesListYield(ps, args[1..], m + 1, b);
      SpanAround(ps, a, m, b, KindPiece(Comma));
    }
  }
}
