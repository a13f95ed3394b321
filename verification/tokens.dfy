/** The vocabulary shared by the lexer and the parser (lexer.py, class Token). */
module Tokens {

  /** The groups of the lexer's master pattern, in declaration order, plus the
      synthetic `EOF` type that the parser's lookahead returns past the end. */
  datatype Category =
    | Reserved | Identifier | Number | Operator | Punctuation
    | Whitespace | Comment | Mismatch
    | Eof
  {
    /** The categories the lexer emits as tokens. */
    predicate Kept() {
      Reserved? || Identifier? || Number? || Operator? || Punctuation?
    }

    /** The categories the lexer drops after updating its line bookkeeping. */
    predicate Discarded() {
      Whitespace? || Comment?
    }
  }

  /** One lexical unit: its type, the exact matched text, a 1-based line and a column. */
  datatype Token = Token(kind: Category, text: string, line: int, column: int)

  /** The sentinel the parser's lookahead returns past the last token. */
  const EofToken: Token := Token(Eof, "", -1, -1)

  /** Number of line feeds in `s` (Python's `s.count('\n')`). */
  function NewlineCount(s: string): (n: nat)
    ensures n <= |s|
  {
    if s == [] then 0
    else (if s[0] == '\n' then 1 else 0) + NewlineCount(s[1..])
  }

  lemma {:induction false} NewlineCountAppend(a: string, b: string)
    ensures NewlineCount(a + b) == NewlineCount(a) + NewlineCount(b)
  {
    if a == [] {
      assert a + b == b;
    } else {
      assert (a + b)[1..] == a[1..] + b;
      NewlineCountAppend(a[1..], b);
    }
  }

  /** No line feed is counted exactly when the text holds none. */
  lemma {:induction false} NewlineCountZero(s: string)
    ensures NewlineCount(s) == 0 <==> '\n' !in s
  {
    if s != [] {
      NewlineCountZero(s[1..]);
      assert s == [s[0]] + s[1..];
    }
  }
}
