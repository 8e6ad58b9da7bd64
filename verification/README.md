# Lox front end and evaluator, in Dafny

This project models the core of a TypeScript implementation of the Lox
language. That core is the scanner with its reserved-word table, the
recursive-descent parser, the S-expression printer of expressions, the static
resolver, the environment chain, and the tree-walking interpreter with its
`LoxFunction` and `LoxClass` runtime objects. The model follows the code as it
stands, and it is mid-refactor. The interpreter never reads the resolver's
distances, so every variable goes through `get` and `assign` on the chain.
`visitFunctionStmt` is an empty TODO. A `LoxFunction` call runs in a frame
whose parent is the globals, and it returns nothing. The parser produces no
class, `return`, property, `this` or `super` nodes.

Modules, one file each:

- `Common` (common.dfy): `Option`, the diagnostic triple `Diag`, decimal text of counts, and character counting.
- `Tokens` (tokens.dfy): token kinds, the token record and the reserved-word table.
- `Scanner` (scanner.dfy): `scanTokens` as a pure function from text to tokens and diagnostics.
- `Ast` (ast.dfy): one expression and statement datatype. It is the union of the fields the parser, the resolver and the interpreter read. Variable, assignment, `this` and `super` nodes carry an integer id, which the resolver uses as the key of its distance table.
- `Parser` (parser.dfy): every production is a function from the token list and a state (cursor and reported errors) to a result. The result is either the node and the new state, or `Failed`, which stands for a thrown `ParseError`.
- `AstPrinter` (ast_printer.dfy): the fully parenthesised prefix printer.
- `Resolver` (resolver.dfy): the scope stack (`seq<map<string,bool>>`, innermost last), the function and class context, the distance table `map<int,nat>`, and the reported errors.
- `Environment` (environment.dfy): the chain as `seq<map<string,V>>`, innermost first and globals last. No closure ever captures a table, so value semantics is exact here.
- `Runtime` (runtime.dfy): runtime values, truthiness, equality, arity, parameter binding, the class call and `toString`.
- `Interpreter` (interpreter.dfy): evaluation and execution over an explicit state. The state is the chain, the printed values, and the next fresh object identity. Evaluation is bounded by fuel.

How the evaluator's outcomes map to the host's behaviour:

- A Lox `RuntimeError` is `Raised`.
- A host exception that is not a Lox error is `Fault`. Two things cause one: a node the interpreter has no visit for, and reading `call` on nil.
- A division by zero is `NonFinite`, because its IEEE result is not modelled.
- An exhausted fuel budget is `OutOfFuel`, which says nothing about the program.

## Model

| member | source | states |
|---|---|---|
| Tokens.MapFromPairs | src/scanner/token.ts:58-75 | a word is in the table built from the pair list exactly when some pair lists it |
| Tokens.KeywordTableSize | src/scanner/token.ts:58-75 | the reserved-word table has exactly 16 entries |
| Tokens.KeywordLookup | src/scanner/token.ts:58-75 | every table entry is one pair of the list, with that pair's kind |
| Tokens.KeywordTableInjective | src/scanner/token.ts:58-75 | distinct reserved words map to distinct token kinds |
| Tokens.KeywordTableImage | src/scanner/token.ts:58-75 | no reserved word maps to IDENTIFIER, STRING, NUMBER or EOF |
| Tokens.KeywordsAreLowerWords | src/scanner/token.ts:58-75 | every reserved word is a non-empty run of lower-case ASCII letters, so the identifier rule can produce it |
| Tokens.KindOfWord | src/scanner/scanner.ts:211-218 | a word gets its table kind, or IDENTIFIER when it is not reserved; never STRING, NUMBER or EOF |
| Scanner.NumberEnd | src/scanner/scanner.ts:192-209 | a number lexeme is digits with an optional `.` and digits; it stops before a non-digit, and a `.` is left behind unless a digit follows it |
| Scanner.Operator | src/scanner/scanner.ts:79-94 | `!`, `=`, `<`, `>` become the two-character token when `=` follows and the one-character token otherwise |
| Scanner.StringLiteral | src/scanner/scanner.ts:170-190 | a string lexeme never emits both a token and an error, and the line advances by the newlines it contains |
| Scanner.Comment | src/scanner/scanner.ts:95-104 | a `//` comment emits nothing and reports nothing |
| Scanner.ScanOther | src/scanner/scanner.ts:108-116 | the default branch always makes progress; a token it emits spans exactly the consumed text and is never EOF |
| Scanner.ScanToken | src/scanner/scanner.ts:35-117 | one lexeme: progress, the line grows by the newlines consumed, a token's lexeme is the consumed text and it carries the updated line, no EOF token, never a token and an error together |
| Scanner.ScanFrom | src/scanner/scanner.ts:15-21 | the loop's result is what a run of `scanToken` steps makes, each starting where the previous one stopped while text remains: their tokens and their errors, concatenated in order; the line counter ends at the start line plus the newlines scanned; no EOF token; token lines never decrease |
| Scanner.ScanTokens | src/scanner/scanner.ts:15-29 | the output is the run's tokens and then exactly one EOF token, with empty lexeme and line 1 plus the number of newlines, and the run's errors in order; no other EOF token; lines never decrease |
| Scanner.ScanRunUnique | src/scanner/scanner.ts:15-21 | two runs of `scanToken` steps over the rest of the same text, from the same cursor and line, are the same run |
| Scanner.ScanFromIsTheRun | src/scanner/scanner.ts:15-21 | any result a run of `scanToken` steps over the rest of the text makes is the one the loop returns |
| Scanner.ScanTokensIsTheRun | src/scanner/scanner.ts:15-29 | any token list made of a whole-text run's tokens and the EOF token on the run's last line is the one `scanTokens` returns |
| Scanner.ScanBlank | src/scanner/scanner.ts:39-45 | space, `\r`, `\t` and newline emit nothing; only the newline moves the line counter |
| Scanner.ScanLineComment | src/scanner/scanner.ts:95-101 | a comment emits nothing and stops right before the next newline or at the end, so that newline is still counted |
| Scanner.ScanOperator | src/scanner/scanner.ts:79-94 | the token kind and length for each of `!`, `=`, `<`, `>`, with and without a following `=` |
| Scanner.ScanString | src/scanner/scanner.ts:170-190 | a terminated string gives one STRING token whose literal is the text strictly between the quotes; an unterminated one reports "Unterminates string", consumes the rest and gives no token |
| Scanner.ScanNumber | src/scanner/scanner.ts:192-209 | a number token takes all following digits, and takes the `.` only when a digit comes after it |
| Scanner.ScanWord | src/scanner/scanner.ts:211-218 | an identifier is an alpha character and every alphanumeric after it, classified through the reserved-word table |
| Scanner.NumberToken | src/scanner/scanner.ts:192-209 | the number rule emits one NUMBER token on the current line whose lexeme is the consumed text, a digit run with an optional fraction, and whose literal is that text's decimal value; it stops at the first non-digit and leaves a `.` without a digit after it unconsumed |
| Scanner.WordToken | src/scanner/scanner.ts:211-218 | the identifier rule consumes the maximal alphanumeric run and emits one token whose kind is the table's keyword for that text, or IDENTIFIER when the text is not reserved |
| Scanner.ScanUnexpected | src/scanner/scanner.ts:108-115 | any other character reports one error naming it, gives no token, and scanning resumes at the next character |
| Parser.Advance | src/parser/parser.ts:437-442 | the cursor never moves past the EOF token, and otherwise moves exactly one token |
| Parser.Consume | src/parser/parser.ts:422-428 | the token is taken exactly when it has the expected kind and is not EOF; otherwise the message is reported at the current token |
| Parser.LevelOperators | src/parser/parser.ts:264-317 | each binary level accepts exactly the operators of its own precedence, equality < comparison < term < factor |
| Parser.Expression | src/parser/parser.ts:218-238 | the cursor never moves back, a success consumes input, a failure has reported an error, and the tree has the precedence shape |
| Parser.Assignment | src/parser/parser.ts:222-238 | assignment is right-associative; a variable target becomes an assignment to that name, and any other target reports "Invalid assignment target." and comes back unchanged without failing |
| Parser.BinaryLevel | src/parser/parser.ts:240-317 | every binary level yields a tree whose right operands bind strictly tighter than their operator, so a chain of one level nests to the left |
| Parser.LevelLoop | src/parser/parser.ts:264-274 | the operator loop keeps the shape invariant and only moves forward |
| Parser.Operand | src/parser/parser.ts:307-327 | an operand of a level binds strictly tighter than that level |
| Parser.Unary | src/parser/parser.ts:319-327 | a unary expression binds as tightly as a primary and keeps the precedence shape, so its operand is never a binary node |
| Parser.Call | src/parser/parser.ts:329-341 | a call chain is built on a primary and binds as tightly as a primary |
| Parser.CallLoop | src/parser/parser.ts:329-341 | the loop over argument lists only moves forward and yields a call-level expression |
| Parser.LevelNode | src/parser/parser.ts:240-317 | the node a level's loop builds holds the left operand, the operator token and the right operand; it is a logical node exactly on the `or` and `and` levels |
| Parser.AssignmentParts | src/parser/parser.ts:222-238 | an accepted assignment to a variable holds that variable's name and the whole expression parsed after `=` |
| Parser.BinaryLevelParts | src/parser/parser.ts:240-317 | a binary level is its first operand followed by the level's loop, and fails when that operand fails |
| Parser.LevelLoopParts | src/parser/parser.ts:240-317 | without one of the level's operators at the cursor the loop returns the left operand unchanged; with one it runs a round |
| Parser.LevelLoopStep | src/parser/parser.ts:240-317 | a round of a level's loop wraps the left operand, the operator token at the cursor and the operand parsed after it into the next left operand |
| Parser.UnaryParts | src/parser/parser.ts:319-327 | `!`, `-` or `+` at the cursor gives a unary node holding that token and the unary expression after it; any other token gives `call` |
| Parser.CallParts | src/parser/parser.ts:329-341 | `call` is the loop over argument lists started on the primary at the cursor |
| Parser.CallLoopParts | src/parser/parser.ts:332-338 | without `(` the callee is the result; with it, the call `finishCall` builds around the callee becomes the next callee |
| Parser.FinishCallParts | src/parser/parser.ts:343-361 | an accepted call holds the callee, the `)` token and the arguments parsed between the parentheses, none when `)` comes at once |
| Parser.ArgumentsParts | src/parser/parser.ts:345-354 | the argument list is one expression, then, while a comma follows, the arguments after the comma |
| Parser.GroupingParts | src/parser/parser.ts:379-383 | `primary` at `(` is the parenthesised expression |
| Yields.MatchesYield | src/parser/parser.ts:218-385 | a tree read position by position from a run of tokens has exactly the yield of that run: its operator and name tokens, its literal values and the punctuation, in order |
| Yields.MatchesListYield | src/parser/parser.ts:343-361 | an argument list read from a run of tokens has that run's yield, commas included |
| ParserYield.ExpressionYield | src/parser/parser.ts:218-385 | an expression parsed without a reported error has exactly the yield of the tokens it consumed |
| ParserYield.ExpressionReads | src/parser/parser.ts:218-220 | an expression parsed without a reported error is read from exactly the tokens it consumed |
| ParserYield.AssignmentReads | src/parser/parser.ts:222-238 | a quiet assignment reads the target's name, the `=` and the value right after it, so assignment nests to the right |
| ParserYield.BinaryLevelReads | src/parser/parser.ts:240-317 | a quiet binary level is read from exactly the tokens it consumed |
| ParserYield.LevelLoopReads | src/parser/parser.ts:240-317 | each round reads the operator token and the right operand right after what the left operand read, so a chain of one level nests to the left |
| ParserYield.OperandReads | src/parser/parser.ts:240-327 | a quiet operand is read from exactly the tokens it consumed |
| ParserYield.UnaryReads | src/parser/parser.ts:319-327 | a quiet unary expression reads its operator token and then its operand |
| ParserYield.CallReads | src/parser/parser.ts:329-341 | a quiet call chain is read from exactly the tokens it consumed |
| ParserYield.CallLoopReads | src/parser/parser.ts:332-338 | each argument list extends what the callee read: `(`, the arguments, `)` |
| ParserYield.FinishCallReads | src/parser/parser.ts:343-361 | after `(`, the arguments are read comma by comma and then the `)` |
| ParserYield.ArgumentsReads | src/parser/parser.ts:345-354 | a quiet argument list is its expressions separated by the commas between them |
| ParserYield.PrimaryReads | src/parser/parser.ts:363-385 | a quiet primary is read from exactly the tokens it consumed |
| ParserYield.LiteralReads | src/parser/parser.ts:364-372 | `false`, `true`, `nil`, a number or a string is read from its one token |
| ParserYield.NameReads | src/parser/parser.ts:375-377 | a name is read from its one token |
| ParserYield.GroupingReads | src/parser/parser.ts:379-383 | a quiet group reads `(`, the inner expression and `)` |
| Parser.FinishCall | src/parser/parser.ts:343-361 | the call node keeps the callee; more than 255 arguments always left the 255-argument error behind, without failing the parse |
| Parser.Arguments | src/parser/parser.ts:345-354 | the argument list is non-empty, and when the arguments before it and its own exceed 255 the limit error was reported |
| Parser.LimitCheck | src/parser/parser.ts:348-350 | the limit error is reported exactly when 255 or more items were already parsed, and the cursor does not move |
| Parser.Primary | src/parser/parser.ts:363-385 | `false`, `true`, `nil`, a number or a string becomes the literal and a name the variable (id = its token's index), each consuming one token; `(` leads to a group; any other token, EOF included, fails with "Expect expression." reported at it |
| Parser.Grouping | src/parser/parser.ts:379-383 | after `(`, an expression and then `)`, which is the last token consumed; a missing `)` fails |
| Parser.Synchronize | src/parser/parser.ts:387-409 | recovery skips at least one token when not at EOF, stops after `;`, before a statement keyword or at EOF, and skips no such point on the way |
| Parser.SyncLoop | src/parser/parser.ts:391-406 | the recovery loop stops at the first synchronisation point or at EOF |
| Parser.Declaration | src/parser/parser.ts:46-64 | a declaration not at EOF consumes input, and a dropped declaration always left an error behind |
| Parser.FunctionDeclaration | src/parser/parser.ts:66-88 | a `fun` declaration yields a function statement; more than 255 parameters were reported |
| Parser.FunctionDeclarationParts | src/parser/parser.ts:66-88 | a function statement holds the name token, the parameter list after it and the block after `{` |
| Parser.ParameterList | src/parser/parser.ts:66-80 | the parenthesised parameter list; more than 255 parameters were reported |
| Parser.ParameterListNames | src/parser/parser.ts:68-82 | the parameters are the comma-separated names between `(` and `)` |
| Parser.Parameters | src/parser/parser.ts:70-79 | the parameter loop; when the parameters before it and its own exceed 255 the limit error was reported and parsing went on |
| Parser.ParametersNames | src/parser/parser.ts:72-80 | the parameter loop parses exactly the comma-separated names from where it starts |
| Parser.VarDeclaration | src/parser/parser.ts:90-100 | a `var` declaration yields a variable statement |
| Parser.VarDeclarationParts | src/parser/parser.ts:90-100 | the name is the IDENTIFIER token at the cursor, and the initializer is present exactly when `=` follows it, as the expression parsed after `=` |
| Parser.OptionalExpression | src/parser/parser.ts:178-196 | an optional `for` clause is absent exactly when its terminator comes next |
| Parser.Statement | src/parser/parser.ts:102-120 | every statement production only moves forward, and a failure has reported an error |
| Parser.StatementDispatch | src/parser/parser.ts:102-120 | `print` selects the print statement, `{` the block, and any token other than the five keywords the expression statement |
| Parser.StatementIf | src/parser/parser.ts:109-111 | `if` selects the if statement |
| Parser.StatementWhile | src/parser/parser.ts:112-114 | `while` selects the while statement |
| Parser.StatementFor | src/parser/parser.ts:115-117 | `for` selects the for statement |
| Parser.ExprThenSemicolon | src/parser/parser.ts:122-128 | `print` gives a print statement and a bare expression an expression statement (exprStmt, lines 210-216, is the same shape) |
| Parser.ExprThenSemicolonParts | src/parser/parser.ts:122-128 | the statement wraps the expression parsed at the cursor, and is accepted exactly when `;` follows that expression |
| Parser.Block | src/parser/parser.ts:130-143 | a parsed block ends with its closing brace consumed; a missing brace fails with an error |
| Parser.BlockParts | src/parser/parser.ts:130-143 | a block is accepted exactly when the declaration loop stops at `}`, and holds the statements of the declarations that parsed, in order |
| Parser.DeclarationLoop | src/parser/parser.ts:130-143 | the declaration loop stops at `}` inside a block and only at EOF at the top level, and a dropped declaration implies an error |
| Parser.DeclarationLoopRuns | src/parser/parser.ts:133-138 | the loop's outcomes are its successive `declaration` calls, each made where the previous one stopped and where the loop's test did not stop it |
| Parser.RunUnique | src/parser/parser.ts:35-41 | two runs of the loop from the same state that both end where the loop stops are the same run |
| Parser.DeclarationDispatch | src/parser/parser.ts:46-64 | `fun` selects the function declaration, `var` the variable declaration, anything else a statement; the declaration is kept exactly when that production succeeds |
| Parser.DeclarationDropped | src/parser/parser.ts:56-62 | a dropped declaration leaves the cursor at EOF or at a synchronisation point |
| Parser.IfStatement | src/parser/parser.ts:145-157 | `if` yields an if statement |
| Parser.ConditionParts | src/parser/parser.ts:145-148 | a parenthesised condition is `(`, the expression after it, and `)` right after that expression |
| Parser.IfStatementParts | src/parser/parser.ts:145-157 | an if statement holds the condition and the then branch, and an else branch exactly when `else` follows the then branch |
| Parser.WhileStatement | src/parser/parser.ts:159-166 | `while` yields a while statement |
| Parser.WhileStatementParts | src/parser/parser.ts:159-166 | a while statement holds the condition and the statement after it |
| Parser.ForInitializerParts | src/parser/parser.ts:171-178 | the initializer is absent exactly when `;` comes first, and is a variable declaration exactly when `var` does |
| Parser.ForLoopClausesParts | src/parser/parser.ts:180-190 | the condition is absent exactly when `;` comes at once, and the increment exactly when `)` does |
| Parser.ForClausesParts | src/parser/parser.ts:168-190 | the header is `(`, the initializer clause, then the condition and increment clauses |
| Parser.ForStatementParts | src/parser/parser.ts:168-208 | a `for` is the desugaring of its header's clauses and the statement after it |
| Parser.DesugarForRecovers | src/parser/parser.ts:192-207 | once it is known which clauses were written, the initializer, condition, increment and body can all be read back from the desugared statement, and a missing condition must have become `true` |
| Parser.DesugarFor | src/parser/parser.ts:192-207 | without an initializer the result is a while loop; with one it is a block of the initializer and then the loop; a missing condition becomes the literal `true` |
| Parser.ForPartsOfNeedsTrue | src/parser/parser.ts:198-200 | a loop whose condition is not `true` is no desugaring of a `for` written without a condition, and a loop on `true` is one |
| Parser.Condition | src/parser/parser.ts:145-148 | a parenthesised condition consumes input, never moves back and reports an error whenever it fails |
| Parser.ForInitializer | src/parser/parser.ts:171-178 | the initializer clause consumes input, never moves back and reports an error whenever it fails |
| Parser.ForLoopClauses | src/parser/parser.ts:180-190 | the condition and increment clauses consume input, never move back and report an error whenever they fail |
| Parser.ForClauses | src/parser/parser.ts:168-190 | the header consumes input, never moves back and reports an error whenever it fails |
| Parser.ForStatement | src/parser/parser.ts:168-208 | a `for` statement consumes input, never moves back and reports an error whenever it fails |
| Parser.Parse | src/parser/parser.ts:32-44 | the program is the run of `declaration` calls from the first token up to EOF: its statements are those that parsed, in order, its errors all those reported, and a drop leaves an error |
| Parser.ParsesAsUnique | src/parser/parser.ts:32-44 | a token list has one such run, and so one program |
| Parser.ParseIsTheRun | src/parser/parser.ts:32-44 | any run of `declaration` calls from the first token to EOF makes the program `parse` returns |
| Parser.NameOperand | src/parser/parser.ts:363-385 | a name followed by neither `(` nor a factor operator parses as that variable alone |
| Parser.LeftAssociativeExample | src/parser/parser.ts:295-305 | `a - b - c` parses as `Binary(Binary(a, -, b), -, c)` |
| AstPrinter.Parenthesize | src/parser/ast-printer.ts:16-25 | a parenthesised form starts with `(` and ends with `)` |
| AstPrinter.Print | src/parser/ast-printer.ts:12-52 | output exists exactly for trees of printable nodes; composites start with `(` and end with `)`; a literal prints its text (`nil` for nil) and a variable its name |
| AstPrinter.PrintForms | src/parser/ast-printer.ts:27-41 | binary prints `(op left right)`, unary `(op right)`, grouping `(group inner)` |
| AstPrinter.PrintBalanced | src/parser/ast-printer.ts:16-41 | when the copied text has no parentheses, the output holds exactly one `(` and one `)` per composite node |
| AstPrinter.ParenthesizeParens | src/parser/ast-printer.ts:16-25 | parenthesize adds exactly one `(` and one `)` to those in its parts |
| Resolver.BeginScope | src/interpreter/resolver.ts:269-271 | a fresh innermost scope is pushed and nothing else changes |
| Resolver.EndScope | src/interpreter/resolver.ts:273-275 | the innermost scope is popped; popping an empty stack does nothing |
| Resolver.Declare | src/interpreter/resolver.ts:291-305 | no effect on an empty stack; otherwise the name is marked undefined in the innermost scope, and a duplicate in that scope (only) is reported |
| Resolver.MarkDefined | src/interpreter/resolver.ts:307-313 | no effect on an empty stack; otherwise the name is marked defined in the innermost scope |
| Resolver.FindScope | src/interpreter/resolver.ts:88-95 | the innermost scope holding the name, or none when no scope holds it |
| Resolver.ResolveLocal | src/interpreter/resolver.ts:88-95 | records distance depth-1-i for the innermost scope i holding the name and nothing when none does |
| Resolver.ResolveExpr | src/interpreter/resolver.ts:67-267 | resolving an expression leaves the stack and context alone, only appends errors and records distances below the depth; a variable goes through `visitVariableExpr`, an assignment resolves its value and then records its target like a variable, `this` and `super` go through their visits |
| Resolver.ResolveExprs | src/interpreter/resolver.ts:209-215 | the arguments resolve left to right: none changes nothing, and otherwise the rest resolve from the state the first one left; the expression guarantee holds throughout |
| Resolver.ResolveVariable | src/interpreter/resolver.ts:67-81 | reading a name the innermost scope marks as being declared reports the own-initializer error, and nothing else is reported; the name gets the distance `resolveLocal` gives it |
| Resolver.ResolveThis | src/interpreter/resolver.ts:226-236 | `this` outside a class reports an error and records no distance; inside one it is resolved like a variable named `this` |
| Resolver.ResolveSuper | src/interpreter/resolver.ts:238-252 | `super` outside a class, and in a class without a superclass, reports its error, and in a subclass reports nothing; in every case it is resolved like a variable named `super` |
| Resolver.ResolveStmt | src/interpreter/resolver.ts:163-202 | every statement leaves the depth, the enclosing scopes, the function type and the class type as they were |
| Resolver.ResolveStmtDispatch | src/interpreter/resolver.ts:53-202 | expression and print statements resolve their expression; `if` its condition, then branch and else branch in that order; `while` its condition then body; a block its statements in a fresh scope closed after; a function declares and defines its name before its body |
| Resolver.ResolveExprDispatch | src/interpreter/resolver.ts:204-267 | a literal changes nothing; grouping, unary and get resolve their operand; binary and logical the left then the right; a call its callee then its arguments; a set its value then its object |
| Resolver.ResolveVar | src/interpreter/resolver.ts:59-65 | the name ends defined in the innermost scope; `var a = a;` in a local scope reports the own-initializer error, and at the top level changes nothing |
| Resolver.ResolveReturn | src/interpreter/resolver.ts:179-197 | a top-level return is reported; a value returned from an initializer is reported; a bare return inside a function reports nothing |
| Resolver.ResolveBlock | src/interpreter/resolver.ts:53-57 | a block leaves the scope stack exactly as it found it |
| Resolver.ResolveStmts | src/interpreter/resolver.ts:277-281 | a statement list keeps the statement guarantee; the empty list changes nothing, and otherwise the rest is resolved from the state the first statement left |
| Resolver.ResolveFunction | src/interpreter/resolver.ts:148-161 | a function leaves the scope stack exactly as it found it and restores the enclosing function type |
| Resolver.DeclareParams | src/interpreter/resolver.ts:152-155 | the innermost scope gains exactly the parameter names, each marked defined, and keeps every other entry |
| Resolver.ResolveFunctionParts | src/interpreter/resolver.ts:148-161 | the body resolves with the function type set to the kind, in one fresh scope holding exactly the parameters, each defined; the scope is closed and the enclosing type restored after |
| Resolver.ResolveClass | src/interpreter/resolver.ts:97-139 | a class keeps the stack's depth and enclosing scopes, restores the enclosing class and function types, and reports a class that inherits from itself |
| Resolver.ResolveMethods | src/interpreter/resolver.ts:122-130 | the methods resolve in order, each through `resolveFunction`, as an initializer when named `init` and as a method otherwise |
| Resolver.ClassBodyParts | src/interpreter/resolver.ts:113-135 | the methods resolve inside a scope binding `this`, inside one binding `super` when there is a superclass, and both are closed after |
| Resolver.ResolveClassParts | src/interpreter/resolver.ts:97-139 | a class's errors and distances are those of its methods resolved after the header inside the class scopes; the stack is the header's, and the enclosing class and function types are restored |
| Resolver.Resolve | src/interpreter/resolver.ts:277-281 | resolving a program ends with an empty stack at top-level context |
| Resolver.ResolveInOrder | src/interpreter/resolver.ts:277-281 | a program resolves statement by statement: the empty program leaves the starting state, and the rest of a program starts from the state its prefix left |
| Resolver.ResolveStmtsAppend | src/interpreter/resolver.ts:277-281 | resolving two lists one after the other is resolving their concatenation |
| Resolver.GlobalUseUntracked | src/interpreter/resolver.ts:88-95 | `var x; x;` at top level records no distance and reports nothing |
| Resolver.BlockUseDistance | src/interpreter/resolver.ts:53-95 | a name declared in a block and read in that block gets distance 0 |
| Resolver.NestedAssignDistance | src/interpreter/resolver.ts:53-95 | a name declared in a block and assigned in a block nested in it gets distance 1 |
| Environment.Define | src/interpreter/environment.ts:12-14 | define writes only the innermost table and overwrites an existing entry |
| Environment.Get | src/interpreter/environment.ts:34-44 | get succeeds exactly when some table holds the name, with the value from the nearest one; otherwise "Undefined variable" |
| Environment.Assign | src/interpreter/environment.ts:16-28 | assign succeeds exactly when some table holds the name and changes that entry of the nearest table only; otherwise an error and no change |
| Environment.Ancestor | src/interpreter/environment.ts:50-58 | the ancestor at distance d is the chain with its first d tables dropped |
| Environment.GetAt | src/interpreter/environment.ts:46-48 | getAt reads only the ancestor's own table |
| Environment.AssignAt | src/interpreter/environment.ts:30-32 | assignAt writes only the ancestor's own table, creating the entry if absent |
| Environment.GetAfterDefine | src/interpreter/environment.ts:12-37 | after define(n, v), get(n) returns v |
| Environment.AncestorCompose | src/interpreter/environment.ts:50-58 | the ancestor at b of the ancestor at a is the ancestor at a + b |
| Environment.GetAtAgreesWithGet | src/interpreter/environment.ts:34-48 | at the nearest distance, getAt agrees with get |
| Environment.AssignThenGet | src/interpreter/environment.ts:16-44 | after a successful assign, get returns the new value, and no table gains or loses a name |
| Environment.AssignAtAgreesWithAssign | src/interpreter/environment.ts:16-32 | at the nearest distance, assignAt agrees with assign |
| Runtime.FromLiteral | src/interpreter/interpreter.ts:199-201 | a literal evaluates to its own value: nil to nil, a boolean, number or string to the same boolean, number or string |
| Runtime.TruthyExceptNilAndFalse | src/interpreter/interpreter.ts:244-252 | a value is falsy exactly when it is nil or false |
| Runtime.IsEqualIsEquality | src/interpreter/interpreter.ts:254-262 | equality is nil-equals-only-nil and otherwise strict equality with no coercion; it is symmetric |
| Runtime.Arity | src/interpreter/callable.ts:23-25 | a function's arity is its parameter count, a class's is 0, and nothing else has one |
| Runtime.ClassCall | src/interpreter/class.ts:7-9 | calling a class gives a fresh instance of that class |
| Runtime.ClassCallIgnoresArguments | src/interpreter/class.ts:7-9 | the arguments of a class call make no difference |
| Runtime.BindParameters | src/interpreter/callable.ts:13-18 | the call frame binds exactly the parameter names |
| Runtime.BindParametersAt | src/interpreter/callable.ts:16-18 | parameter i is bound to argument i (nil past the end) unless a later parameter has the same name |
| Runtime.Describe | src/interpreter/callable.ts:27-29 | functions, classes and instances have a `toString`, and nothing else here does |
| Runtime.DescribeRecoversName | src/interpreter/class.ts:15-25 | the texts are `<class name>` and `<class instance name>`, and `<fn name>` as callable.ts:27-29 writes it |
| Interpreter.CheckNumberOperands | src/interpreter/interpreter.ts:264-276 | no error exactly when every operand is a number; the error says "Operands must be numbers" at the operator |
| Interpreter.BinaryOp | src/interpreter/interpreter.ts:110-154 | `+` adds numbers, concatenates strings, and raises otherwise; the other arithmetic and comparison operators raise unless both operands are numbers; comparisons and equality give booleans; division by zero is the only non-finite case; other operators give nil |
| Interpreter.NumericOp | src/interpreter/interpreter.ts:119-150 | on numbers, comparisons give booleans, arithmetic gives numbers, and only a zero divisor is non-finite |
| Interpreter.UnaryOp | src/interpreter/interpreter.ts:181-193 | `!` negates truthiness, `-` negates a number and raises on anything else, any other operator gives nil |
| Interpreter.Eval | src/interpreter/interpreter.ts:195-205 | evaluation keeps the chain's depth and the names of every enclosing table, only appends output, and only consumes identities; a literal gives its value, and a variable the value `get` finds or the error it raises |
| Interpreter.EvalDispatch | src/interpreter/interpreter.ts:104-242 | a grouping evaluates its inner expression, and a unary, binary, logical, assignment or call expression goes to its visit |
| Interpreter.EvalUnary | src/interpreter/interpreter.ts:181-193 | the operand is evaluated first and its failure stops everything; the operator is then applied to its value in the state it left |
| Interpreter.EvalBinary | src/interpreter/interpreter.ts:110-113 | the left operand is evaluated first and its failure stops everything; then the right operand, from the state the left left, and its failure stops the operator; the operator is applied to both values in the state after both |
| Interpreter.EvalLogical | src/interpreter/interpreter.ts:207-221 | a failing left operand is the result; `or` returns a truthy left value and `and` a falsy one without evaluating the right operand; otherwise the result is the right operand's, evaluated from the state the left left |
| Interpreter.EvalAssign | src/interpreter/interpreter.ts:104-108 | the value is evaluated first and its failure is the result; a declared name is then updated through `assign` on the chain (the nearest table holding it), the assignment yields the value and reading the name gives it back; an undeclared name raises the assign form of "Undefined variable" |
| Interpreter.EvalCall | src/interpreter/interpreter.ts:156-179 | the callee is evaluated first and its failure stops everything; then the arguments, whose failure stops the call; only then are the checks of the callee and the call made, in the state the arguments left |
| Interpreter.EvalArgs | src/interpreter/interpreter.ts:159-162 | arguments are evaluated left to right: the first value is the first argument's, the rest are the later arguments' evaluated in the state it left, and the first failure stops the rest |
| Interpreter.ArgumentsBeforeCalleeCheck | src/interpreter/interpreter.ts:156-179 | in `1(x)` with `x` undeclared the undefined-variable error is raised, not "Can only call functions and classes." |
| Interpreter.CallValue | src/interpreter/interpreter.ts:164-178 | nil is a host fault; a value without `call` raises "Can only call functions and classes."; a wrong count raises "Expected N arguments but got M."; a class with the right count gives a fresh instance and consumes one identity, and nothing else changes; a function with the right count is called through `LoxFunction.call` and gives nil |
| Interpreter.CallFrame | src/interpreter/callable.ts:13-18 | the body runs in one fresh table holding exactly the parameters, whose parent is the globals |
| Interpreter.CallFunction | src/interpreter/callable.ts:13-21 | the body runs in the call frame; its outcome becomes the call's, with the caller's tables back in place and the globals as the body left them, and the call yields no value |
| Interpreter.ReturnKept | src/interpreter/interpreter.ts:227-238 | putting the caller's chain back after a call, with the globals as the call left them, gives a state reached from the caller's |
| Interpreter.Exec | src/interpreter/interpreter.ts:61-102 | executing a statement keeps the state invariant; an expression statement evaluates its expression, a print appends the value, a function declaration does nothing, and a failed evaluation ends the statement with that failure |
| Interpreter.ExecDispatch | src/interpreter/interpreter.ts:61-102 | a variable declaration, block, if or while statement goes to its visit |
| Interpreter.ExecVar | src/interpreter/interpreter.ts:69-77 | a declaration defines the name in the innermost table, as the initializer's value (evaluated first, its failure stopping the declaration) or as nil without one |
| Interpreter.ExecBlock | src/interpreter/interpreter.ts:227-238 | a block runs its statements in a fresh innermost table that is dropped whether the block completes or not; the outcome is theirs, and no enclosing table gains a name |
| Interpreter.ExecIf | src/interpreter/interpreter.ts:88-94 | a failing condition ends the statement with that failure; a truthy condition runs the then branch, a falsy one the else branch, or nothing when there is none |
| Interpreter.ExecWhile | src/interpreter/interpreter.ts:96-102 | a falsy condition ends the loop with the condition's state; a failed condition ends it with that failure; a truthy one runs the body and, when the body completes, loops again from the body's state, and otherwise ends with the body's outcome |
| Interpreter.ExecStmts | src/interpreter/interpreter.ts:232-234 | the empty list completes at once; otherwise the first statement runs, its failure ends the run with its outcome, and after it completes the rest runs from the state it left |
| Interpreter.Interpret | src/interpreter/interpreter.ts:44-59 | true exactly when every statement completed; a runtime error is reported and gives false, and so does any other host exception, unreported; the printed values are those of the run up to where it stopped |
| Interpreter.ShadowingExample | src/interpreter/interpreter.ts:84-86 | `var a = 1; { var a = 2; print a; } print a;` prints 2 then 1, for every fuel of at least 20 |
| Interpreter.CallExample | src/interpreter/interpreter.ts:156-179 | a one-parameter global function called with 3 prints 3 |
| Interpreter.ArityExample | src/interpreter/interpreter.ts:156-179 | the same function called with no argument raises "Expected 1 arguments but got 0." at the call's `)` and prints nothing |

## Left out

- src/index.ts is not part of this model. That covers command-line handling, file reading, the REPL and exit codes. Its `error`/`report` become diagnostics appended to a list.
- Console output: `console.log`, `console.error`, the `JSON.stringify` form of `print`, and the text of `reportRuntimeError`. A print appends the value to an output trace, and a reported runtime error is returned in the verdict.
- The `clock` native, because it reads the wall clock. The globals are a parameter of `Interpret`.
- Floating point:
  - A number lexeme denotes its exact decimal value as a real, not `parseFloat`'s rounded double.
  - Arithmetic is exact.
  - Division by zero is the `NonFinite` outcome, with nothing asserted about its IEEE result.
  - The printer's number text is a parameter.
- The visitor interfaces and `accept` methods. These are double dispatch; datatypes and `match` replace them. src/error.ts becomes the `Diag`, `Failed` and `RuntimeError` variants.
- The catch-all `console.error` branches for unexpected host exceptions. In the parser, any exception in a production is a `ParseError`. In the interpreter, such an exception is `Fault` and ends `interpret` with false.
- Semantics the code does not have:
  - closures;
  - executing `return`, class declarations, property access, `this` and `super` (each is a `Fault` in the interpreter);
  - defining functions (`visitFunctionStmt` does nothing);
  - the interpreter's use of resolver distances. The resolver returns its distance table instead of calling the interpreter's missing `resolve`.
- Interpreter.Eval: evaluation is bounded by fuel. An `OutOfFuel` outcome stands for a run longer than the budget, including a non-terminating `while`, and the model states nothing about it.
- Interpreter.Exec: its own contract states the expression, print and function-declaration rules. Where a variable declaration, block, `if` or `while` goes is stated by Interpreter.ExecDispatch, and where a grouping or compound expression goes by Interpreter.EvalDispatch. Those rules are kept out of the recursive contracts so that no contract unfolds the recursion.
- Resolver.ResolveReturn: states that each error is reported when its condition holds, not that it is reported only then.
- Environment.Ancestor: requires the distance to be below the chain's depth. Past the globals the host's `env!` assertion is false and the next property access throws.
- Parser.Expression: its own contract states the precedence shape and progress. Which tokens the tree holds is stated by ParserYield.ExpressionReads and ExpressionYield, for parses that report no error.
- Parser.Assignment: its own contract states the invalid-target case. The assigned value is stated by Parser.AssignmentParts and ParserYield.AssignmentReads.
- Parser.BinaryLevel: its own contract states the precedence shape. The operand and loop it runs are stated by Parser.BinaryLevelParts, and the tokens by ParserYield.BinaryLevelReads.
- Parser.LevelLoop: its own contract states the shape invariant. Each round's node is stated by Parser.LevelLoopStep and ParserYield.LevelLoopReads.
- Parser.Operand: its own contract states the precedence bound. The tree's tokens are stated by ParserYield.OperandReads.
- Parser.Unary: its own contract states the precedence shape. The operator token and operand are stated by Parser.UnaryParts and ParserYield.UnaryReads.
- Parser.Call: its own contract states the precedence shape. The primary it starts on is stated by Parser.CallParts and ParserYield.CallReads.
- Parser.CallLoop: its own contract states progress and the call level. Each `(` wrapping the callee is stated by Parser.CallLoopParts and ParserYield.CallLoopReads.
- Parser.FunctionDeclaration: its own contract states the node kind. The name, parameters and body are stated by Parser.FunctionDeclarationParts.
- Parser.ParameterList: its own contract states the 255 limit. The parameters between the parentheses are stated by Parser.ParameterListNames.
- Parser.Parameters: its own contract states the 255 limit and progress. The names it returns are stated by Parser.ParametersNames.
- Parser.VarDeclaration: its own contract states the node kind. The name and the initializer are stated by Parser.VarDeclarationParts.
- Parser.Statement: its own contract states progress and the error on failure. Which production each leading keyword selects is stated by Parser.StatementDispatch, StatementIf, StatementWhile and StatementFor.
- Parser.ExprThenSemicolon: its own contract states the node kind. The wrapped expression and the `;` are stated by Parser.ExprThenSemicolonParts.
- Parser.IfStatement: its own contract states the node kind. The condition, branches and the else-iff-`else` rule are stated by Parser.IfStatementParts and ConditionParts.
- Parser.WhileStatement: its own contract states the node kind. The condition and body are stated by Parser.WhileStatementParts.
- Parser.ForStatement: its own contract states progress. The clauses and the desugaring are stated by Parser.ForStatementParts, ForClausesParts, ForInitializerParts and ForLoopClausesParts, and that the desugaring loses nothing by Parser.DesugarForRecovers.
- Parser.Condition: its own contract states progress. The `(`, the expression and the `)` are stated by Parser.ConditionParts.
- Parser.ForInitializer: its own contract states progress. Which initializer each leading token gives is stated by Parser.ForInitializerParts.
- Parser.ForLoopClauses: its own contract states progress. When the condition and the increment are present is stated by Parser.ForLoopClausesParts.
- Parser.ForClauses: its own contract states progress. The header's three clauses are stated by Parser.ForClausesParts.
- Parser.DesugarFor: its own contract states the shape of the result and the `true` default. That every clause can be read back from it is stated by Parser.DesugarForRecovers.
- Resolver.ResolveExpr: its own contract states the variable, assignment, `this` and `super` cases. The order in which the other expressions resolve their operands is stated by Resolver.ResolveExprDispatch.
- Resolver.ResolveStmt: its own contract states what any statement may change. What each statement resolves, and in which order, is stated by Resolver.ResolveStmtDispatch.
- Resolver.ResolveBlock: its own contract states that the stack is restored. That the statements resolve in a fresh scope is stated by Resolver.ResolveStmtDispatch.
- Resolver.ResolveFunction: its own contract states that the stack and function type are restored. The parameter scope and the body are stated by Resolver.ResolveFunctionParts and DeclareParams.
- Resolver.ResolveClass: its own contract states the depth, the restored context and the self-inheritance error. The methods and the class scopes are stated by Resolver.ResolveClassParts, ClassBodyParts and ResolveMethods.
- Resolver.Resolve: its own contract states the final context. Resolver.ResolveInOrder and ResolveStmts state that the statements resolve one after another from the state the previous ones left; what each statement does is stated by Resolver.ResolveStmtDispatch and ResolveExprDispatch, with concrete distances in Resolver.BlockUseDistance and NestedAssignDistance.
- ParserYield.ExpressionReads and ExpressionYield: state what a parse that reported no error read. An expression after which an error was reported, such as an invalid assignment target, is not covered.
- Scanner.ScanUnexpected: text is a sequence of code points. The host scanner walks UTF-16 code units, so a character outside the Basic Multilingual Plane written outside a string gets one "Unexpected character" error per surrogate, two in all, where the model reports one.

## Notes on the source

The AST files disagree with their users. The model follows the users:

- The parser builds `ExprStmt` while stmt.ts declares `ExpressionStmt`.
- The resolver (resolver.ts:55) reads a block's `stmts` while the block class has `statements` (stmt.ts:10).
- The parser makes the same slip: `function` (parser.ts:87) takes the body as `body.stmts` of the `BlockStmt` it just parsed. As written, every function's body is undefined, so resolving it (resolver.ts:157) and calling it (callable.ts:20) would iterate an undefined value. The model gives a function the block's statements, which is evidently what was meant.
- `SuperExpr` is used by the visitor but not declared.
- The while, function, return and class statement classes are used but missing from stmt.ts.
- The printer (ast-printer.ts:40) and the interpreter (interpreter.ts:196) read a grouping's `expression`, while expr.ts:33 stores it as `expr`. As written, printing or evaluating a grouping reads an undefined field. The model prints `(group …)` and evaluates the inner expression.
- The resolver (resolver.ts:164, 176) reads `stmt.expr` of expression and print statements, while stmt.ts:18 and 46 declare the field `expression`.

`Ast` takes the union of the fields actually read.

Two behaviours of the code worth knowing:

- The scanner reports an unterminated string with the message "Unterminates string".
- Numeric checks raise "Operands must be numbers", with no final period.
