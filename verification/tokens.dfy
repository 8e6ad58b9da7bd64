/** Token kinds, the token record and the reserved-word table
    (src/scanner/token.ts). */
module Tokens {

  datatype TokenType =
    // Single-character tokens
    | LeftParen | RightParen | LeftBrace | RightBrace
    | Comma | Dot | Minus | Plus | Semicolon | Slash | Star
    // One or two character tokens
    | Bang | BangEqual | Equal | EqualEqual
    | Greater | GreaterEqual | Less | LessEqual
    // Literals
    | Identifier | String | Number
    // Keywords
    | And | Class | Else | False | Fun | For | If | Nil | Or
    | Print | Return | Super | This | True | Var | While
    | Eof

  /** A literal carried by a token or a literal expression. `NilLit` stands for
      both of the host's "no value" markers (`null` and `undefined`); the
      interpreter never tells them apart. Numbers are exact reals. */
  datatype LitValue = NilLit | BoolLit(b: bool) | NumLit(n: real) | StrLit(s: string)

  datatype Token = Token(kind: TokenType, lexeme: string, literal: LitValue, line: int)

  /** The reserved words, in the order the table lists them. */
  const KeywordPairs: seq<(string, TokenType)> := [
    ("and", And),
    ("class", Class),
    ("else", Else),
    ("false", False),
    ("for", For),
    ("fun", Fun),
    ("if", If),
    ("nil", Nil),
    ("or", Or),
    ("print", Print),
    ("return", Return),
    ("super", Super),
    ("this", This),
    ("true", True),
    ("var", Var),
    ("while", While)
  ]

  /** The reserved-word table: the host map built from `KeywordPairs`. */
  const Keywords: map<string, TokenType> := MapFromPairs(KeywordPairs)

  /** A host `new Map(pairs)`: entries are inserted left to right, so a later
      pair with the same key overwrites an earlier one. */
  function MapFromPairs(ps: seq<(string, TokenType)>): (m: map<string, TokenType>)
    ensures forall k :: k in m <==> exists i :: 0 <= i < |ps| && ps[i].0 == k
  {
    if |ps| == 0 then map[]
    else
      var m := MapFromPairs(ps[..|ps| - 1]);
      assert forall i :: 0 <= i < |ps| - 1 ==> ps[..|ps| - 1][i] == ps[i];
      m[ps[|ps| - 1].0 := ps[|ps| - 1].1]
  }

  predicate DistinctKeys(ps: seq<(string, TokenType)>) {
    forall i, j :: 0 <= i < j < |ps| ==> ps[i].0 != ps[j].0
  }

  lemma {:induction false} MapFromPairsAt(ps: seq<(string, TokenType)>, i: nat)
    requires DistinctKeys(ps)
    requires i < |ps|
    ensures ps[i].0 in MapFromPairs(ps) && MapFromPairs(ps)[ps[i].0] == ps[i].1
  {
    if i < |ps| - 1 {
      var init := ps[..|ps| - 1];
      assert init[i] == ps[i];
      MapFromPairsAt(init, i);
    }
  }

  lemma {:induction false} MapFromPairsSize(ps: seq<(string, TokenType)>)
    requires DistinctKeys(ps)
    ensures |MapFromPairs(ps)| == |ps|
  {
    if |ps| > 0 {
      var init := ps[..|ps| - 1];
      MapFromPairsSize(init);
      var last := ps[|ps| - 1].0;
      assert last !in MapFromPairs(init) by {
        forall i | 0 <= i < |init|
          ensures init[i].0 != last
        {
          assert init[i] == ps[i];
        }
      }
    }
  }

  /** The kinds that only a reserved word produces. */
  predicate IsKeywordKind(k: TokenType) {
    k in {And, Class, Else, False, Fun, For, If, Nil, Or, Print, Return, Super, This, True, Var, While}
  }

  /** `keywords.get(lexeme) ?? IDENTIFIER`. */
  function KindOfWord(lexeme: string): (k: TokenType)
    ensures lexeme in Keywords ==> k == Keywords[lexeme]
    ensures lexeme !in Keywords ==> k == Identifier
    ensures k != String && k != Number && k != Eof
  {
    if lexeme in Keywords then KeywordTableImage(lexeme); Keywords[lexeme] else Identifier
  }

  predicate IsLowerAscii(c: char) {
    'a' <= c <= 'z'
  }

  lemma KeywordWordsDistinct()
    ensures DistinctKeys(KeywordPairs)
  {
  }

  lemma KeywordKindsDistinct()
    ensures forall i, j :: 0 <= i < j < |KeywordPairs| ==> KeywordPairs[i].1 != KeywordPairs[j].1
  {
  }

  /** The table has exactly sixteen entries. */
  lemma KeywordTableSize()
    ensures |Keywords| == 16
  {
    KeywordWordsDistinct();
    MapFromPairsSize(KeywordPairs);
  }

  /** Every entry of the table comes from one pair of the list. */
  lemma KeywordLookup(w: string) returns (i: nat)
    requires w in Keywords
    ensures i < |KeywordPairs| && KeywordPairs[i].0 == w && Keywords[w] == KeywordPairs[i].1
  {
    i :| 0 <= i < |KeywordPairs| && KeywordPairs[i].0 == w;
    KeywordWordsDistinct();
    MapFromPairsAt(KeywordPairs, i);
  }

  /** Distinct reserved words scan to distinct kinds. */
  lemma KeywordTableInjective(w1: string, w2: string)
    requires w1 in Keywords && w2 in Keywords && w1 != w2
    ensures Keywords[w1] != Keywords[w2]
  {
    var i := KeywordLookup(w1);
    var j := KeywordLookup(w2);
    KeywordKindsDistinct();
  }

  /** The table never yields IDENTIFIER, STRING, NUMBER or EOF: every word
      maps to a keyword kind. */
  lemma KeywordTableImage(w: string)
    requires w in Keywords
    ensures IsKeywordKind(Keywords[w])
    ensures Keywords[w] != Identifier && Keywords[w] != String && Keywords[w] != Number && Keywords[w] != Eof
  {
    var i := KeywordLookup(w);
  }

  /** A non-empty run of lower-case ASCII letters. */
  predicate IsLowerWord(w: string) {
    |w| > 0 && forall i :: 0 <= i < |w| ==> IsLowerAscii(w[i])
  }

  lemma PairWordIsLower(i: nat)
    requires i < |KeywordPairs|
    ensures IsLowerWord(KeywordPairs[i].0)
  {
    if i == 0 {
      assert IsLowerWord("and");
    }
    else if i == 1 {
      assert IsLowerWord("class");
    }
    else if i == 2 {
      assert IsLowerWord("else");
    }
    else if i == 3 {
      assert IsLowerWord("false");
    }
    else if i == 4 {
      assert IsLowerWord("for");
    }
    else if i == 5 {
      assert IsLowerWord("fun");
    }
    else if i == 6 {
      assert IsLowerWord("if");
    }
    else if i == 7 {
      assert IsLowerWord("nil");
    }
    else if i == 8 {
      assert IsLowerWord("or");
    }
    else if i == 9 {
      assert IsLowerWord("print");
    }
    else if i == 10 {
      assert IsLowerWord("return");
    }
    else if i == 11 {
      assert IsLowerWord("super");
    }
    else if i == 12 {
      assert IsLowerWord("this");
    }
    else if i == 13 {
      assert IsLowerWord("true");
    }
    else if i == 14 {
      assert IsLowerWord("var");
    }
    else if i == 15 {
      assert IsLowerWord("while");
    }
  }

  /** Every reserved word is a non-empty run of lower-case ASCII letters, so
      the scanner's identifier rule can produce it. */
  lemma KeywordsAreLowerWords(w: string)
    requires w in Keywords
    ensures IsLowerWord(w)
  {
    var i := KeywordLookup(w);
    PairWordIsLower(i);
  }
}
