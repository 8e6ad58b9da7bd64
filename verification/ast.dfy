/** The syntax tree (src/parser/expr.ts, src/parser/stmt.ts). The two files
    disagree with their users, so this is the union of the fields the parser,
    the resolver and the interpreter actually read. Variable, Assign, This and
    Super nodes carry an `id` standing for the node's identity, the key of the
    resolver's distance table. */
module Ast {
  import opened Common
  import opened Tokens

  datatype Expr =
    | LiteralExpr(lit: LitValue)
    | GroupingExpr(inner: Expr)
    | UnaryExpr(op: Token, right: Expr)
    | BinaryExpr(left: Expr, op: Token, right: Expr)
    | LogicalExpr(left: Expr, op: Token, right: Expr)
    | VariableExpr(id: int, name: Token)
    | AssignExpr(id: int, name: Token, value: Expr)
    | CallExpr(callee: Expr, paren: Token, args: seq<Expr>)
    | GetExpr(obj: Expr, name: Token)
    | SetExpr(obj: Expr, name: Token, value: Expr)
    | ThisExpr(id: int, keyword: Token)
    | SuperExpr(id: int, keyword: Token)

  /** A function declaration: a `fun` statement or a class method. */
  datatype FunDecl = FunDecl(name: Token, params: seq<Token>, body: seq<Stmt>)

  /** A class's superclass reference, which is a variable expression. */
  datatype SuperRef = SuperRef(id: int, name: Token)

  datatype Stmt =
    | ExprStmt(expr: Expr)
    | PrintStmt(expr: Expr)
    | VarStmt(name: Token, initializer: Option<Expr>)
    | BlockStmt(stmts: seq<Stmt>)
    | IfStmt(condition: Expr, thenBranch: Stmt, elseBranch: Option<Stmt>)
    | WhileStmt(condition: Expr, body: Stmt)
    | FunctionStmt(decl: FunDecl)
    | ReturnStmt(keyword: Token, value: Option<Expr>)
    | ClassStmt(name: Token, superclass: Option<SuperRef>, methods: seq<FunDecl>)
}
