/** The debugging printer of expressions (src/parser/ast-printer.ts): a
    fully parenthesised prefix form. The printer implements only the binary,
    unary, grouping, literal and variable visits; handing it any other node
    makes the host throw, which is `None` here. */
module AstPrinter {
  import opened Common
  import opened Tokens
  import opened Ast

  /** The node kinds the printer has a visit for, all the way down. */
  predicate Printable(e: Expr) {
    match e
    case BinaryExpr(left, _, right) => Printable(left) && Printable(right)
    case UnaryExpr(_, right) => Printable(right)
    case GroupingExpr(inner) => Printable(inner)
    case LiteralExpr(_) => true
    case VariableExpr(_, _) => true
    case _ => false
  }

  /** `parenthesize`: `(name`, then a space and each part, then `)`. */
  function Parenthesize(name: string, parts: seq<string>): (s: string)
    ensures |s| >= 2 && s[0] == '(' && s[|s| - 1] == ')'
  {
    "(" + name + Spaced(parts) + ")"
  }

  /** Each part preceded by one space. */
  function Spaced(parts: seq<string>): string {
    if |parts| == 0 then "" else " " + parts[0] + Spaced(parts[1..])
  }

  /** The text of a literal: `nil` for the host's null, `true`/`false`, the
      string itself, and the host's number formatting, which is a parameter
      here. */
  function LiteralText(v: LitValue, showNumber: real -> string): string {
    match v
    case NilLit => "nil"
    case BoolLit(b) => if b then "true" else "false"
    case NumLit(n) => showNumber(n)
    case StrLit(s) => s
  }

  /** `print`. Composite nodes print as `(op left right)`, `(op right)` and
      `(group inner)`; a literal prints its text and a variable its name. */
  function Print(e: Expr, showNumber: real -> string): (r: Option<string>)
    ensures r.Some? <==> Printable(e)
    ensures r.Some? && (e.BinaryExpr? || e.UnaryExpr? || e.GroupingExpr?) ==>
      |r.value| >= 2 && r.value[0] == '(' && r.value[|r.value| - 1] == ')'
    ensures e.LiteralExpr? ==> r == Some(LiteralText(e.lit, showNumber))
    ensures e.VariableExpr? ==> r == Some(e.name.lexeme)
  {
    match e
    case BinaryExpr(left, op, right) =>
      var l := Print(left, showNumber);
      var rr := Print(right, showNumber);
      if l.Some? && rr.Some? then Some(Parenthesize(op.lexeme, [l.value, rr.value])) else None
    case UnaryExpr(op, right) =>
      var rr := Print(right, showNumber);
      if rr.Some? then Some(Parenthesize(op.lexeme, [rr.value])) else None
    case GroupingExpr(inner) =>
      var i := Print(inner, showNumber);
      if i.Some? then Some(Parenthesize("group", [i.value])) else None
    case LiteralExpr(v) => Some(LiteralText(v, showNumber))
    case VariableExpr(_, name) => Some(name.lexeme)
    case _ => None
  }

  /** Neither parenthesis occurs in `s`. */
  predicate NoParens(s: string) {
    Count(s, '(') == 0 && Count(s, ')') == 0
  }

  /** Every piece of text the printer copies from the tree (operator lexemes,
      names, literal texts) is free of parentheses. */
  predicate PlainText(e: Expr, showNumber: real -> string) {
    match e
    case BinaryExpr(left, op, right) => NoParens(op.lexeme) && PlainText(left, showNumber) && PlainText(right, showNumber)
    case UnaryExpr(op, right) => NoParens(op.lexeme) && PlainText(right, showNumber)
    case GroupingExpr(inner) => PlainText(inner, showNumber)
    case LiteralExpr(v) => NoParens(LiteralText(v, showNumber))
    case VariableExpr(_, name) => NoParens(name.lexeme)
    case _ => true
  }

  /** The number of binary, unary and grouping nodes. */
  function Composites(e: Expr): nat {
    match e
    case BinaryExpr(left, _, right) => 1 + Composites(left) + Composites(right)
    case UnaryExpr(_, right) => 1 + Composites(right)
    case GroupingExpr(inner) => 1 + Composites(inner)
    case _ => 0
  }

  lemma {:induction false} SpacedCount(parts: seq<string>, c: char)
    requires c != ' '
    ensures Count(Spaced(parts), c) == SumCounts(parts, c)
  {
    if |parts| > 0 {
      CountAppend(" " + parts[0], Spaced(parts[1..]), c);
      CountAppend(" ", parts[0], c);
      assert Count(" ", c) == 0;
      SpacedCount(parts[1..], c);
    }
  }

  function SumCounts(parts: seq<string>, c: char): nat {
    if |parts| == 0 then 0 else Count(parts[0], c) + SumCounts(parts[1..], c)
  }

  lemma {:induction false} ParenthesizeCount(name: string, parts: seq<string>, c: char)
    requires c != ' ' && c != '(' && c != ')'
    ensures Count(Parenthesize(name, parts), c) == Count(name, c) + SumCounts(parts, c)
  {
    CountAppend("(" + name + Spaced(parts), ")", c);
    CountAppend("(" + name, Spaced(parts), c);
    CountAppend("(", name, c);
    SpacedCount(parts, c);
  }

  lemma {:induction false} ParenthesizeParens(name: string, parts: seq<string>)
    ensures Count(Parenthesize(name, parts), '(') == 1 + Count(name, '(') + SumCounts(parts, '(')
    ensures Count(Parenthesize(name, parts), ')') == 1 + Count(name, ')') + SumCounts(parts, ')')
  {
    CountAppend("(" + name + Spaced(parts), ")", '(');
    CountAppend("(" + name, Spaced(parts), '(');
    CountAppend("(", name, '(');
    CountAppend("(" + name + Spaced(parts), ")", ')');
    CountAppend("(" + name, Spaced(parts), ')');
    CountAppend("(", name, ')');
    SpacedCount(parts, '(');
    SpacedCount(parts, ')');
  }

  /** When the copied text has no parentheses, the output is balanced: it
      holds exactly one `(` and one `)` per composite node. */
  lemma {:induction false} PrintBalanced(e: Expr, showNumber: real -> string)
    requires Printable(e) && PlainText(e, showNumber)
    ensures Count(Print(e, showNumber).value, '(') == Composites(e)
    ensures Count(Print(e, showNumber).value, ')') == Composites(e)
  {
    match e
    case BinaryExpr(left, op, right) =>
      var l := Print(left, showNumber).value;
      var r := Print(right, showNumber).value;
      PrintBalanced(left, showNumber);
      PrintBalanced(right, showNumber);
      assert Print(e, showNumber).value == Parenthesize(op.lexeme, [l, r]);
      ParenthesizeParens(op.lexeme, [l, r]);
      SumCountsPair(l, r, '(');
      SumCountsPair(l, r, ')');
    case UnaryExpr(op, right) =>
      var r := Print(right, showNumber).value;
      PrintBalanced(right, showNumber);
      assert Print(e, showNumber).value == Parenthesize(op.lexeme, [r]);
      ParenthesizeParens(op.lexeme, [r]);
      SumCountsOne(r, '(');
      SumCountsOne(r, ')');
    case GroupingExpr(inner) =>
      var i := Print(inner, showNumber).value;
      PrintBalanced(inner, showNumber);
      assert Print(e, showNumber).value == Parenthesize("group", [i]);
      ParenthesizeParens("group", [i]);
      SumCountsOne(i, '(');
      SumCountsOne(i, ')');
      assert NoParens("group");
    case LiteralExpr(_) =>
    case VariableExpr(_, _) =>
  }

  lemma SumCountsOne(a: string, c: char)
    ensures SumCounts([a], c) == Count(a, c)
  {
    assert [a][1..] == [];
  }

  lemma SumCountsPair(a: string, b: string, c: char)
    ensures SumCounts([a, b], c) == Count(a, c) + Count(b, c)
  {
    assert [a, b][1..] == [b];
    SumCountsOne(b, c);
  }

  /** The concrete forms of the composite nodes. */
  lemma {:induction false} PrintForms(e: Expr, showNumber: real -> string)
    requires Printable(e)
    ensures e.BinaryExpr? ==>
      Print(e, showNumber).value
        == "(" + e.op.lexeme + " " + Print(e.left, showNumber).value + " " + Print(e.right, showNumber).value + ")"
    ensures e.UnaryExpr? ==>
      Print(e, showNumber).value == "(" + e.op.lexeme + " " + Print(e.right, showNumber).value + ")"
    ensures e.GroupingExpr? ==>
      Print(e, showNumber).value == "(group " + Print(e.inner, showNumber).value + ")"
  {
    match e
    case BinaryExpr(left, op, right) =>
      var a, b := Print(left, showNumber).value, Print(right, showNumber).value;
      SpacedPair(a, b);
    case UnaryExpr(op, right) =>
      SpacedSingle(Print(right, showNumber).value);
    case GroupingExpr(inner) =>
      SpacedSingle(Print(inner, showNumber).value);
    case _ =>
  }

  lemma SpacedSingle(a: string)
    ensures Spaced([a]) == " " + a
  {
    assert [a][1..] == [];
  }

  lemma SpacedPair(a: string, b: string)
    ensures Spaced([a, b]) == " " + a + " " + b
  {
    assert [a, b][1..] == [b];
    SpacedSingle(b);
  }
}
