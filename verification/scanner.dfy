/** The lexer (src/scanner/scanner.ts): one left-to-right pass over the
    source text with at most two characters of lookahead. Every call of
    `ScanToken` consumes one lexeme starting at `start`, emits at most one
    token and reports at most one error; errors never stop the scan. */
module Scanner {
  import opened Common
  import opened Tokens

  predicate IsDigit(c: char) {
    '0' <= c <= '9'
  }

  predicate IsAlpha(c: char) {
    ('a' <= c <= 'z') || ('A' <= c <= 'Z') || c == '_'
  }

  predicate IsAlphaNumeric(c: char) {
    IsAlpha(c) || IsDigit(c)
  }

  /** End of the run of digits starting at `i`. */
  function DigitsEnd(src: string, i: nat): (j: nat)
    requires i <= |src|
    ensures i <= j <= |src|
    ensures forall k :: i <= k < j ==> IsDigit(src[k])
    ensures j == |src| || !IsDigit(src[j])
    decreases |src| - i
  {
    if i < |src| && IsDigit(src[i]) then DigitsEnd(src, i + 1) else i
  }

  /** End of the run of alphanumerics starting at `i`. */
  function WordEnd(src: string, i: nat): (j: nat)
    requires i <= |src|
    ensures i <= j <= |src|
    ensures forall k :: i <= k < j ==> IsAlphaNumeric(src[k])
    ensures j == |src| || !IsAlphaNumeric(src[j])
    decreases |src| - i
  {
    if i < |src| && IsAlphaNumeric(src[i]) then WordEnd(src, i + 1) else i
  }

  /** Position of the first `c` at or after `i`, or the end of the text. */
  function FindChar(src: string, i: nat, c: char): (j: nat)
    requires i <= |src|
    ensures i <= j <= |src|
    ensures forall k :: i <= k < j ==> src[k] != c
    ensures j == |src| || src[j] == c
    decreases |src| - i
  {
    if i < |src| && src[i] != c then FindChar(src, i + 1, c) else i
  }

  /** The text from `start` up to, but not including, `end`. */
  function Span(src: string, start: nat, end: nat): string
    requires start <= end <= |src|
  {
    src[start..end]
  }

  predicate AllDigits(s: string) {
    forall i :: 0 <= i < |s| ==> IsDigit(s[i])
  }

  /** Shape of a number lexeme: one or more digits, optionally followed by a
      `.` and one or more digits. */
  predicate IsNumberLexeme(s: string) {
    exists k :: 0 < k <= |s| && AllDigits(s[..k]) &&
      (k == |s| || (s[k] == '.' && k + 1 < |s| && AllDigits(s[k + 1..])))
  }

  /** End of a number lexeme whose first digit is at `start`: digits, then a
      `.` only when a digit follows it, then digits. */
  function NumberEnd(src: string, start: nat): (j: nat)
    requires start < |src| && IsDigit(src[start])
    ensures start < j <= |src|
    ensures IsNumberLexeme(Span(src, start, j))
    ensures forall k :: start <= k < j ==> src[k] != '\n'
    ensures j == |src| || !IsDigit(src[j])
    ensures AllDigits(Span(src, start, j)) ==> !(j + 1 < |src| && src[j] == '.' && IsDigit(src[j + 1]))
  {
    var intEnd := DigitsEnd(src, start + 1);
    if intEnd + 1 < |src| && src[intEnd] == '.' && IsDigit(src[intEnd + 1]) then
      var j := DigitsEnd(src, intEnd + 1);
      FractionLexeme(src, start, intEnd, j);
      j
    else
      IntegerLexeme(src, start, intEnd);
      intEnd
  }

  lemma IntegerLexeme(src: string, start: nat, intEnd: nat)
    requires start < intEnd <= |src|
    requires forall k :: start <= k < intEnd ==> IsDigit(src[k])
    ensures AllDigits(src[start..intEnd]) && IsNumberLexeme(src[start..intEnd])
  {
    var lexeme := src[start..intEnd];
    assert AllDigits(lexeme);
    assert lexeme[..|lexeme|] == lexeme;
  }

  lemma FractionLexeme(src: string, start: nat, intEnd: nat, j: nat)
    requires start < intEnd && intEnd + 1 < j <= |src|
    requires forall k :: start <= k < intEnd ==> IsDigit(src[k])
    requires src[intEnd] == '.'
    requires forall k :: intEnd + 1 <= k < j ==> IsDigit(src[k])
    ensures IsNumberLexeme(src[start..j]) && !AllDigits(src[start..j])
  {
    var lexeme := src[start..j];
    var k := intEnd - start;
    assert lexeme[..k] == src[start..intEnd];
    assert AllDigits(lexeme[..k]);
    assert lexeme[k + 1..] == src[intEnd + 1..j];
    assert AllDigits(lexeme[k + 1..]);
    assert lexeme[k] == '.';
  }

  /** Exact value of a run of decimal digits. */
  function DigitsValue(s: string): (v: nat)
    requires AllDigits(s)
  {
    if |s| == 0 then 0
    else 10 * DigitsValue(s[..|s| - 1]) + ((s[|s| - 1] as int) - ('0' as int))
  }

  function Pow10(n: nat): (p: nat)
    ensures p >= 1
  {
    if n == 0 then 1 else 10 * Pow10(n - 1)
  }

  /** Index of the first non-digit of `s` at or after `i`. */
  function DigitsPrefix(s: string, i: nat): (k: nat)
    requires i <= |s|
    ensures i <= k <= |s|
    ensures forall j :: i <= j < k ==> IsDigit(s[j])
    ensures k == |s| || !IsDigit(s[k])
    decreases |s| - i
  {
    if i < |s| && IsDigit(s[i]) then DigitsPrefix(s, i + 1) else i
  }

  /** The number a number lexeme denotes, as an exact decimal; the host's
      `parseFloat` would round it to a double. Texts of any other shape,
      which the scanner never passes here, read as zero. */
  function ParseNumber(s: string): real {
    var k := DigitsPrefix(s, 0);
    assert AllDigits(s[..k]);
    if k == |s| then DigitsValue(s[..k]) as real
    else if s[k] == '.' && AllDigits(s[k + 1..])
    then DigitsValue(s[..k]) as real + (DigitsValue(s[k + 1..]) as real) / (Pow10(|s| - k - 1) as real)
    else 0.0
  }

  predicate NoNewline(s: string) {
    forall i :: 0 <= i < |s| ==> s[i] != '\n'
  }

  /** What one call of `scanToken` did: where the next lexeme starts, the line
      counter afterwards, the token it added (if any) and the error it
      reported (if any). */
  datatype Step = Step(next: nat, line: int, token: Option<Token>, error: Option<Diag>)

  /** `addToken`: the lexeme is the text from `start` to the cursor and the
      token carries the current line. */
  function Emit(src: string, start: nat, next: nat, line: int, kind: TokenType, lit: LitValue): (s: Step)
    requires start < next <= |src|
  {
    Step(next, line, Some(Token(kind, src[start..next], lit, line)), None)
  }

  /** A lexeme without newlines: emitted with the line unchanged. */
  function EmitPlain(src: string, start: nat, next: nat, line: int, kind: TokenType, lit: LitValue): (s: Step)
    requires start < next <= |src|
    requires NoNewline(src[start..next])
    ensures s == Emit(src, start, next, line, kind, lit)
    ensures s.next == next && s.token == Some(Token(kind, src[start..next], lit, line)) && s.error.None?
    ensures s.line == line + Count(src[start..next], '\n')
  {
    CountAbsent(src[start..next], '\n');
    Emit(src, start, next, line, kind, lit)
  }

  /** A step that emits nothing and leaves the line unchanged. */
  function Skip(src: string, start: nat, next: nat, line: int, error: Option<Diag>): (s: Step)
    requires start < next <= |src|
    requires NoNewline(src[start..next])
    ensures s.line == line + Count(src[start..next], '\n')
    ensures s.next == next && s.token.None? && s.error == error
  {
    CountAbsent(src[start..next], '\n');
    Step(next, line, None, error)
  }

  /** One- or two-character operator: `c` alone, or `c` followed by `=`. */
  function Operator(src: string, start: nat, line: int, single: TokenType, double: TokenType): (s: Step)
    requires start < |src| && src[start] != '\n'
    ensures start < s.next <= |src|
    ensures s.line == line + Count(Span(src, start, s.next), '\n')
    ensures s.token.Some? && (s.token.value.kind == single || s.token.value.kind == double) && s.error.None?
    ensures s.token.value.lexeme == Span(src, start, s.next) && s.token.value.line == s.line
    ensures start + 1 < |src| && src[start + 1] == '=' ==> s == Emit(src, start, start + 2, line, double, NilLit)
    ensures !(start + 1 < |src| && src[start + 1] == '=') ==> s == Emit(src, start, start + 1, line, single, NilLit)
  {
    if start + 1 < |src| && src[start + 1] == '=' then EmitPlain(src, start, start + 2, line, double, NilLit)
    else EmitPlain(src, start, start + 1, line, single, NilLit)
  }

  /** A string literal whose opening quote is at `start`. Newlines inside it
      advance the line counter; without a closing quote it reports an error,
      consumes the rest of the text and emits nothing. */
  function StringLiteral(src: string, start: nat, line: int): (s: Step)
    requires start < |src| && src[start] == '"'
    ensures start < s.next <= |src|
    ensures s.line == line + Count(Span(src, start, s.next), '\n')
    ensures s.token.None? || s.error.None?
  {
    var close := FindChar(src, start + 1, '"');
    var line' := line + Count(src[start + 1..close], '\n');
    if close == |src| then
      SplitFirst(src, start, close);
      CountAppend(['"'], src[start + 1..close], '\n');
      Step(close, line', None, Some(Diag(line', "", "Unterminates string")))
    else
      SplitFirst(src, start, close + 1);
      SplitLast(src, start + 1, close + 1);
      assert src[start..close + 1] == ['"'] + src[start + 1..close] + ['"'];
      CountAppend(['"'] + src[start + 1..close], ['"'], '\n');
      CountAppend(['"'], src[start + 1..close], '\n');
      Emit(src, start, close + 1, line', String, StrLit(src[start + 1..close]))
  }

  /** A `//` comment starting at `start`: it runs up to, not including, the
      next newline. */
  function Comment(src: string, start: nat, line: int): (s: Step)
    requires start + 1 < |src| && src[start] == '/' && src[start + 1] == '/'
    ensures start < s.next <= |src|
    ensures s.line == line + Count(Span(src, start, s.next), '\n')
    ensures s.token.None? && s.error.None?
  {
    Skip(src, start, FindChar(src, start + 2, '\n'), line, None)
  }

  /** The tokens that are always exactly one character long. */
  function SingleCharKind(c: char): (k: Option<TokenType>)
    ensures k.Some? ==> k.value != Eof
  {
    match c
    case '(' => Some(LeftParen)
    case ')' => Some(RightParen)
    case '{' => Some(LeftBrace)
    case '}' => Some(RightBrace)
    case ',' => Some(Comma)
    case '.' => Some(Dot)
    case '-' => Some(Minus)
    case '+' => Some(Plus)
    case ';' => Some(Semicolon)
    case '*' => Some(Star)
    case _ => None
  }

  /** The `default:` branch of `scanToken`: a number, an identifier or
      keyword, or an unexpected character. */
  function ScanOther(src: string, start: nat, line: int): (s: Step)
    requires start < |src| && src[start] != '\n'
    ensures start < s.next <= |src|
    ensures s.line == line + Count(Span(src, start, s.next), '\n')
    ensures s.token.Some? ==> s.token.value.lexeme == Span(src, start, s.next) && s.token.value.line == s.line
    ensures s.token.Some? ==> s.token.value.kind != Eof
    ensures s.token.None? || s.error.None?
  {
    var c := src[start];
    if IsDigit(c) then NumberToken(src, start, line)
    else if IsAlpha(c) then WordToken(src, start, line)
    else Skip(src, start, start + 1, line, Some(Diag(line, "", "Unexpected character: " + [c])))
  }

  /** A number token whose first digit is at `start`. */
  function NumberToken(src: string, start: nat, line: int): (s: Step)
    requires start < |src| && IsDigit(src[start])
    ensures start < s.next <= |src| && s.line == line && s.error.None?
    ensures s.token == Some(Token(Number, Span(src, start, s.next), NumLit(ParseNumber(Span(src, start, s.next))), line))
    ensures IsNumberLexeme(Span(src, start, s.next)) && (s.next == |src| || !IsDigit(src[s.next]))
    ensures AllDigits(Span(src, start, s.next)) ==> !(s.next + 1 < |src| && src[s.next] == '.' && IsDigit(src[s.next + 1]))
  {
    var e := NumberEnd(src, start);
    NoNewlineBetween(src, start, e);
    EmitPlain(src, start, e, line, Number, NumLit(ParseNumber(src[start..e])))
  }

  /** An identifier or reserved word whose first letter is at `start`. */
  function WordToken(src: string, start: nat, line: int): (s: Step)
    requires start < |src| && IsAlpha(src[start])
    ensures start < s.next <= |src| && s.line == line && s.error.None?
    ensures s.token == Some(Token(KindOfWord(Span(src, start, s.next)), Span(src, start, s.next), NilLit, line))
    ensures s.token.value.kind != Eof
    ensures forall k :: start < k < s.next ==> IsAlphaNumeric(src[k])
    ensures s.next == |src| || !IsAlphaNumeric(src[s.next])
  {
    var e := WordEnd(src, start + 1);
    WordNoNewline(src, start, e);
    EmitPlain(src, start, e, line, KindOfWord(src[start..e]), NilLit)
  }

  lemma NoNewlineBetween(src: string, a: nat, b: nat)
    requires a <= b <= |src|
    requires forall k :: a <= k < b ==> src[k] != '\n'
    ensures NoNewline(src[a..b])
  {
    forall i | 0 <= i < b - a
      ensures src[a..b][i] != '\n'
    {
      assert src[a..b][i] == src[a + i];
    }
  }

  lemma WordNoNewline(src: string, start: nat, e: nat)
    requires start < e <= |src| && IsAlpha(src[start])
    requires forall k :: start < k < e ==> IsAlphaNumeric(src[k])
    ensures NoNewline(src[start..e])
  {
    forall k | start <= k < e
      ensures src[k] != '\n'
    {
      if k > start {
        assert IsAlphaNumeric(src[k]);
      }
    }
    NoNewlineBetween(src, start, e);
  }

  lemma SplitFirst(src: string, a: nat, b: nat)
    requires a < b <= |src|
    ensures src[a..b] == [src[a]] + src[a + 1..b]
  {
  }

  lemma SplitLast(src: string, a: nat, b: nat)
    requires a < b <= |src|
    ensures src[a..b] == src[a..b - 1] + [src[b - 1]]
  {
  }

  /** `scanToken`: scan the lexeme beginning at `start`. */
  function ScanToken(src: string, start: nat, line: int): (s: Step)
    requires start < |src|
    ensures start < s.next <= |src|
    ensures s.line == line + Count(Span(src, start, s.next), '\n')
    ensures s.token.Some? ==> s.token.value.lexeme == Span(src, start, s.next) && s.token.value.line == s.line
    ensures s.token.Some? ==> s.token.value.kind != Eof
    ensures s.token.None? || s.error.None?
  {
    var c := src[start];
    if c == ' ' || c == '\r' || c == '\t' then Skip(src, start, start + 1, line, None)
    else if c == '\n' then
      assert src[start..start + 1] == ['\n'];
      Step(start + 1, line + 1, None, None)
    else if SingleCharKind(c).Some? then EmitPlain(src, start, start + 1, line, SingleCharKind(c).value, NilLit)
    else if c == '!' then Operator(src, start, line, Bang, BangEqual)
    else if c == '=' then Operator(src, start, line, Equal, EqualEqual)
    else if c == '<' then Operator(src, start, line, Less, LessEqual)
    else if c == '>' then Operator(src, start, line, Greater, GreaterEqual)
    else if c == '/' then
      if start + 1 < |src| && src[start + 1] == '/' then Comment(src, start, line)
      else EmitPlain(src, start, start + 1, line, Slash, NilLit)
    else if c == '"' then StringLiteral(src, start, line)
    else ScanOther(src, start, line)
  }

  /** Everything one pass produced before the EOF token: the tokens and
      errors in source order and the final value of the line counter. */
  datatype Scan = Scan(tokens: seq<Token>, errors: seq<Diag>, line: int)

  /** Step `k` of a scan from cursor `cur` with line counter `line`:
      `scanToken` was called where the step before left off (at `cur`, on
      `line`, for the first step), and the text was not yet exhausted. */
  predicate ScanStepAt(src: string, cur: nat, line: int, steps: seq<Step>, k: nat)
    requires k < |steps|
  {
    var from := if k == 0 then cur else steps[k - 1].next;
    var ln := if k == 0 then line else steps[k - 1].line;
    from < |src| && steps[k] == ScanToken(src, from, ln)
  }

  /** The cursor a scan from `cur` has reached. */
  function ScanEnd(cur: nat, steps: seq<Step>): nat {
    if |steps| == 0 then cur else steps[|steps| - 1].next
  }

  /** The line counter a scan from `line` has reached. */
  function ScanLine(line: int, steps: seq<Step>): int {
    if |steps| == 0 then line else steps[|steps| - 1].line
  }

  /** `steps` are the successive `scanToken` calls of the loop from `cur`,
      which goes on until the end of the text whatever the steps report. */
  predicate ScanRun(src: string, cur: nat, line: int, steps: seq<Step>) {
    && (forall k :: 0 <= k < |steps| ==> ScanStepAt(src, cur, line, steps, k))
    && ScanEnd(cur, steps) == |src|
  }

  /** The tokens the steps added, in order. */
  function StepTokens(steps: seq<Step>): seq<Token> {
    if |steps| == 0 then [] else OptionToSeq(steps[0].token) + StepTokens(steps[1..])
  }

  /** The errors the steps reported, in order. */
  function StepErrors(steps: seq<Step>): seq<Diag> {
    if |steps| == 0 then [] else OptionToSeq(steps[0].error) + StepErrors(steps[1..])
  }

  /** `r` is what the loop makes of the text from `cur` when its `scanToken`
      calls were `steps`: every token and every error of every step, in
      order, and the line counter the last step left. */
  predicate ScansAs(src: string, cur: nat, line: int, steps: seq<Step>, r: Scan) {
    && ScanRun(src, cur, line, steps)
    && r.tokens == StepTokens(steps) && r.errors == StepErrors(steps)
    && r.line == ScanLine(line, steps)
  }

  /** The `while (!isAtEnd())` loop of `scanTokens`, from cursor `cur` with
      line counter `line`. An error does not stop it. */
  function ScanFrom(src: string, cur: nat, line: int): (r: Scan)
    requires cur <= |src|
    ensures exists steps :: ScansAs(src, cur, line, steps, r)
    ensures r.line == line + Count(src[cur..], '\n')
    ensures forall i :: 0 <= i < |r.tokens| ==> r.tokens[i].kind != Eof
    ensures forall i :: 0 <= i < |r.tokens| ==> line <= r.tokens[i].line <= r.line
    ensures forall i, j :: 0 <= i < j < |r.tokens| ==> r.tokens[i].line <= r.tokens[j].line
    decreases |src| - cur
  {
    if cur == |src| then
      assert ScansAs(src, cur, line, [], Scan([], [], line));
      Scan([], [], line)
    else
      var s := ScanToken(src, cur, line);
      var rest := ScanFrom(src, s.next, s.line);
      ScanFromStep(src, cur, line, s, rest);
      Scan(OptionToSeq(s.token) + rest.tokens, OptionToSeq(s.error) + rest.errors, rest.line)
  }

  /** One step in front of the scan of the rest of the text keeps each of
      `ScanFrom`'s promises. */
  lemma ScanFromStep(src: string, cur: nat, line: int, s: Step, rest: Scan)
    requires cur < |src| && s == ScanToken(src, cur, line)
    requires exists steps :: ScansAs(src, s.next, s.line, steps, rest)
    requires rest.line == s.line + Count(src[s.next..], '\n')
    requires forall i :: 0 <= i < |rest.tokens| ==> rest.tokens[i].kind != Eof
    requires forall i :: 0 <= i < |rest.tokens| ==> s.line <= rest.tokens[i].line <= rest.line
    requires forall i, j :: 0 <= i < j < |rest.tokens| ==> rest.tokens[i].line <= rest.tokens[j].line
    ensures var r := Scan(OptionToSeq(s.token) + rest.tokens, OptionToSeq(s.error) + rest.errors, rest.line);
      && (exists steps :: ScansAs(src, cur, line, steps, r))
      && r.line == line + Count(src[cur..], '\n')
      && (forall i :: 0 <= i < |r.tokens| ==> r.tokens[i].kind != Eof)
      && (forall i :: 0 <= i < |r.tokens| ==> line <= r.tokens[i].line <= r.line)
      && (forall i, j :: 0 <= i < j < |r.tokens| ==> r.tokens[i].line <= r.tokens[j].line)
  {
    assert src[cur..] == src[cur..s.next] + src[s.next..];
    CountAppend(src[cur..s.next], src[s.next..], '\n');
    PrependTokens(OptionToSeq(s.token), rest.tokens, line, s.line, rest.line);
    ScannedAfter(src, cur, line, s, rest);
  }

  /** The scan of the rest of the text, behind one step, is a scan. */
  lemma ScannedAfter(src: string, cur: nat, line: int, s: Step, rest: Scan)
    requires cur < |src| && s == ScanToken(src, cur, line)
    requires exists w :: ScansAs(src, s.next, s.line, w, rest)
    ensures exists steps :: ScansAs(src, cur, line, steps, Scan(OptionToSeq(s.token) + rest.tokens, OptionToSeq(s.error) + rest.errors, rest.line))
  {
    var w :| ScansAs(src, s.next, s.line, w, rest);
    ScanCons(src, cur, line, s, w);
    assert ScansAs(src, cur, line, [s] + w, Scan(OptionToSeq(s.token) + rest.tokens, OptionToSeq(s.error) + rest.errors, rest.line));
  }

  /** A step in front of a scan from where it left off is a scan. */
  lemma ScanCons(src: string, cur: nat, line: int, s: Step, rest: seq<Step>)
    requires cur < |src| && s == ScanToken(src, cur, line)
    requires ScanRun(src, s.next, s.line, rest)
    ensures ScanRun(src, cur, line, [s] + rest)
    ensures StepTokens([s] + rest) == OptionToSeq(s.token) + StepTokens(rest)
    ensures StepErrors([s] + rest) == OptionToSeq(s.error) + StepErrors(rest)
    ensures ScanLine(line, [s] + rest) == ScanLine(s.line, rest)
  {
    var all := [s] + rest;
    assert all[1..] == rest;
    forall k | 0 <= k < |all| ensures ScanStepAt(src, cur, line, all, k) {
      if k > 0 {
        assert ScanStepAt(src, s.next, s.line, rest, k - 1);
        assert all[k] == rest[k - 1] && all[k - 1] == (if k == 1 then s else rest[k - 2]);
      }
    }
  }

  /** The steps of a scan after its first are a scan from where the first
      left off. */
  lemma ScanTail(src: string, cur: nat, line: int, steps: seq<Step>)
    requires ScanRun(src, cur, line, steps) && |steps| > 0
    ensures ScanRun(src, steps[0].next, steps[0].line, steps[1..])
    ensures ScanLine(steps[0].line, steps[1..]) == ScanLine(line, steps)
  {
    var tail := steps[1..];
    forall k | 0 <= k < |tail| ensures ScanStepAt(src, steps[0].next, steps[0].line, tail, k) {
      assert ScanStepAt(src, cur, line, steps, k + 1);
    }
  }

  /** A scan is determined by where it starts: two runs of the loop from the
      same cursor and line are the same steps. */
  lemma {:induction false} ScanRunUnique(src: string, cur: nat, line: int, a: seq<Step>, b: seq<Step>)
    requires ScanRun(src, cur, line, a) && ScanRun(src, cur, line, b)
    ensures a == b
    decreases |a|
  {
    assert |a| == 0 || ScanStepAt(src, cur, line, a, 0);
    assert |b| == 0 || ScanStepAt(src, cur, line, b, 0);
    if |a| > 0 && |b| > 0 {
      ScanTail(src, cur, line, a);
      ScanTail(src, cur, line, b);
      ScanRunUnique(src, a[0].next, a[0].line, a[1..], b[1..]);
      assert a == [a[0]] + a[1..];
      assert b == [b[0]] + b[1..];
    }
  }

  /** The loop returns the result of the run of `scanToken` calls: whatever
      a run from `cur` to the end of the text makes is what `ScanFrom`
      returns. */
  lemma ScanFromIsTheRun(src: string, cur: nat, line: int, steps: seq<Step>, r: Scan)
    requires cur <= |src| && ScansAs(src, cur, line, steps, r)
    ensures r == ScanFrom(src, cur, line)
  {
    var q := ScanFrom(src, cur, line);
    var w :| ScansAs(src, cur, line, w, q);
    ScanRunUnique(src, cur, line, steps, w);
  }

  /** At most one token on lines `lo..mid`, in front of tokens on lines
      `mid..hi` in line order, keeps everything in line order. */
  lemma PrependTokens(head: seq<Token>, rest: seq<Token>, lo: int, mid: int, hi: int)
    requires |head| <= 1 && lo <= mid <= hi
    requires forall i :: 0 <= i < |head| ==> head[i].kind != Eof && lo <= head[i].line <= mid
    requires forall i :: 0 <= i < |rest| ==> rest[i].kind != Eof && mid <= rest[i].line <= hi
    requires forall i, j :: 0 <= i < j < |rest| ==> rest[i].line <= rest[j].line
    ensures forall i :: 0 <= i < |head + rest| ==> (head + rest)[i].kind != Eof && lo <= (head + rest)[i].line <= hi
    ensures forall i, j :: 0 <= i < j < |head + rest| ==> (head + rest)[i].line <= (head + rest)[j].line
  {
    var all := head + rest;
    forall i | 0 <= i < |all|
      ensures all[i].kind != Eof && lo <= all[i].line <= hi
    {
      if i >= |head| {
        assert all[i] == rest[i - |head|];
      }
    }
    forall i, j | 0 <= i < j < |all|
      ensures all[i].line <= all[j].line
    {
      assert all[j] == rest[j - |head|];
      if i >= |head| {
        assert all[i] == rest[i - |head|];
      }
    }
  }

  datatype ScanResult = ScanResult(tokens: seq<Token>, errors: seq<Diag>)

  /** `scanTokens`: the whole token list, terminated by the EOF token, and
      the lexical errors reported on the way. */
  function ScanTokens(src: string): (r: ScanResult)
    ensures exists steps :: TokensAs(src, steps, r)
    ensures |r.tokens| > 0
    ensures r.tokens[|r.tokens| - 1] == Token(Eof, "", NilLit, 1 + Count(src, '\n'))
    ensures forall i :: 0 <= i < |r.tokens| - 1 ==> r.tokens[i].kind != Eof
    ensures forall i, j :: 0 <= i < j < |r.tokens| ==> r.tokens[i].line <= r.tokens[j].line
  {
    var s := ScanFrom(src, 0, 1);
    assert src[0..] == src;
    var r := ScanResult(s.tokens + [Token(Eof, "", NilLit, s.line)], s.errors);
    assert exists steps :: TokensAs(src, steps, r) by {
      var w :| ScansAs(src, 0, 1, w, s);
      assert TokensAs(src, w, r);
    }
    r
  }

  /** `r` is what `scanTokens` makes of `src` when its loop's `scanToken`
      calls were `steps`: a run from the first character on line 1 to the
      end, its tokens followed by EOF on the last line, and its errors. */
  predicate TokensAs(src: string, steps: seq<Step>, r: ScanResult) {
    && ScanRun(src, 0, 1, steps)
    && r.tokens == StepTokens(steps) + [Token(Eof, "", NilLit, ScanLine(1, steps))]
    && r.errors == StepErrors(steps)
  }

  /** A text has one scan: any result a run of `scanToken` calls over the
      whole text makes is the one `scanTokens` returns. */
  lemma ScanTokensIsTheRun(src: string, steps: seq<Step>, r: ScanResult)
    requires TokensAs(src, steps, r)
    ensures r == ScanTokens(src)
  {
    var q := ScanTokens(src);
    var w :| TokensAs(src, w, q);
    ScanRunUnique(src, 0, 1, steps, w);
  }

  /** Spaces, `\r`, `\t` and newlines emit nothing; only the newline moves
      the line counter. */
  lemma ScanBlank(src: string, start: nat, line: int)
    requires start < |src| && src[start] in {' ', '\r', '\t', '\n'}
    ensures ScanToken(src, start, line) == Step(start + 1, if src[start] == '\n' then line + 1 else line, None, None)
  {
  }

  /** A `//` comment emits nothing and stops right before the next newline
      (or at the end of the text), so that newline is still counted. */
  lemma ScanLineComment(src: string, start: nat, line: int)
    requires start + 1 < |src| && src[start] == '/' && src[start + 1] == '/'
    ensures var s := ScanToken(src, start, line);
      && s.token.None? && s.error.None? && s.line == line
      && NoNewline(src[start..s.next])
      && (s.next == |src| || src[s.next] == '\n')
  {
  }

  /** `!`, `=`, `<` and `>` take the following `=` when there is one (maximal
      munch) and are one character long otherwise. */
  lemma ScanOperator(src: string, start: nat, line: int)
    requires start < |src| && src[start] in {'!', '=', '<', '>'}
    ensures var s := ScanToken(src, start, line);
      var follows := start + 1 < |src| && src[start + 1] == '=';
      && s.token.Some? && s.error.None?
      && s.next == (if follows then start + 2 else start + 1)
      && (src[start] == '!' ==> s.token.value.kind == (if follows then BangEqual else Bang))
      && (src[start] == '=' ==> s.token.value.kind == (if follows then EqualEqual else Equal))
      && (src[start] == '<' ==> s.token.value.kind == (if follows then LessEqual else Less))
      && (src[start] == '>' ==> s.token.value.kind == (if follows then GreaterEqual else Greater))
  {
  }

  /** A terminated string gives one STRING token whose literal is the text
      strictly between the quotes; an unterminated one reports one error,
      consumes the rest of the text and gives no token. */
  lemma ScanString(src: string, start: nat, line: int)
    requires start < |src| && src[start] == '"'
    ensures var s := ScanToken(src, start, line);
      && (s.token.Some? <==> s.error.None?)
      && (s.token.Some? ==>
            && s.token.value.kind == String
            && s.token.value.literal == StrLit(src[start + 1..s.next - 1])
            && s.token.value.lexeme == ['"'] + src[start + 1..s.next - 1] + ['"']
            && '"' !in src[start + 1..s.next - 1])
      && (s.token.None? ==>
            && s.next == |src| && '"' !in src[start + 1..]
            && s.error == Some(Diag(s.line, "", "Unterminates string")))
  {
    var close := FindChar(src, start + 1, '"');
    if close < |src| {
      assert src[start..close + 1] == ['"'] + src[start + 1..close] + ['"'];
    }
  }

  /** A number is digits, optionally `.` and digits; it takes as many digits
      as follow, and takes the `.` only when a digit comes after it. */
  lemma ScanNumber(src: string, start: nat, line: int)
    requires start < |src| && IsDigit(src[start])
    ensures var s := ScanToken(src, start, line);
      && s.token.Some? && s.token.value.kind == Number
      && IsNumberLexeme(s.token.value.lexeme)
      && (s.next == |src| || !IsDigit(src[s.next]))
      && (AllDigits(s.token.value.lexeme) ==> !(s.next + 1 < |src| && src[s.next] == '.' && IsDigit(src[s.next + 1])))
  {
    assert SingleCharKind(src[start]).None?;
    assert ScanToken(src, start, line) == NumberToken(src, start, line);
  }

  /** An identifier is an alpha character followed by every alphanumeric
      after it; reserved words come out as their keyword kind and every other
      word as IDENTIFIER. */
  lemma ScanWord(src: string, start: nat, line: int)
    requires start < |src| && IsAlpha(src[start])
    ensures var s := ScanToken(src, start, line);
      var w := src[start..s.next];
      && s.token.Some? && s.error.None?
      && (forall k :: 0 < k < |w| ==> IsAlphaNumeric(w[k]))
      && (s.next == |src| || !IsAlphaNumeric(src[s.next]))
      && (w in Keywords ==> s.token.value.kind == Keywords[w])
      && (w !in Keywords ==> s.token.value.kind == Identifier)
  {
    assert SingleCharKind(src[start]).None?;
    var s := WordToken(src, start, line);
    assert ScanToken(src, start, line) == s;
    var w := src[start..s.next];
    forall k | 0 < k < |w|
      ensures IsAlphaNumeric(w[k])
    {
      assert w[k] == src[start + k];
    }
  }

  /** Characters that start some lexeme. */
  predicate StartsLexeme(c: char) {
    c in {' ', '\r', '\t', '\n', '(', ')', '{', '}', ',', '.', '-', '+', ';', '*',
          '!', '=', '<', '>', '/', '"'} || IsDigit(c) || IsAlpha(c)
  }

  /** Any other character reports one error, gives no token and scanning goes
      on with the very next character. */
  lemma ScanUnexpected(src: string, start: nat, line: int)
    requires start < |src| && !StartsLexeme(src[start])
    ensures ScanToken(src, start, line)
      == Step(start + 1, line, None, Some(Diag(line, "", "Unexpected character: " + [src[start]])))
  {
  }
}
