/** The grammar parser.py recognises, stated independently of the parser: which
    trees are well formed and which token texts spell them. The parser is
    proved to accept exactly the spellings of well-formed trees and to return
    the tree they spell. */
module Grammar {
  import opened Wrappers
  import opened Tokens
  import opened Tree
  import opened Parser

  /** What the parser looks at in a token: its type and its text. */
  datatype Lexeme = Lexeme(kind: Category, text: string)

  function LexemeOf(t: Token): Lexeme
  {
    Lexeme(t.kind, t.text)
  }

  /** The tokens from pos on begin with the lexemes ls. */
  predicate Spells(ts: seq<Token>, pos: nat, ls: seq<Lexeme>)
    decreases ls
  {
    if ls == [] then pos <= |ts|
    else pos < |ts| && LexemeOf(ts[pos]) == ls[0] && Spells(ts, pos + 1, ls[1..])
  }

  lemma {:induction false} SpellsAppend(ts: seq<Token>, pos: nat, a: seq<Lexeme>, b: seq<Lexeme>)
    ensures Spells(ts, pos, a + b) <==> Spells(ts, pos, a) && Spells(ts, pos + |a|, b)
    decreases a
  {
    if a == [] {
      assert a + b == b;
      if Spells(ts, pos, b) {
        SpellsLength(ts, pos, b);
      }
    } else {
      assert (a + b)[1..] == a[1..] + b;
      SpellsAppend(ts, pos + 1, a[1..], b);
    }
  }

  lemma {:induction false} SpellsLength(ts: seq<Token>, pos: nat, ls: seq<Lexeme>)
    requires Spells(ts, pos, ls)
    ensures pos + |ls| <= |ts|
    decreases ls
  {
    if ls != [] {
      SpellsLength(ts, pos + 1, ls[1..]);
    }
  }

  // ------------------------------------------------------------ expressions

  const LParen := Lexeme(Punctuation, "(")
  const RParen := Lexeme(Punctuation, ")")
  const LBrace := Lexeme(Punctuation, "{")
  const RBrace := Lexeme(Punctuation, "}")
  const Semicolon := Lexeme(Punctuation, ";")

  /** An expression tree: a NUMBER or IDENTIFIER leaf with any text, or a
      BOOLEAN leaf holding `true` or `false`. */
  predicate IsExp(e: Node)
  {
    e.Leaf? && (e.name == "NUMBER" || e.name == "IDENTIFIER" || (e.name == "BOOLEAN" && (e.text == "true" || e.text == "false")))
  }

  /** The one token an expression is spelled with. */
  function ExpLexeme(e: Node): Lexeme
    requires IsExp(e)
  {
    var kind := if e.name == "NUMBER" then Number else if e.name == "BOOLEAN" then Reserved else Identifier;
    Lexeme(kind, e.text)
  }

  /** Reading one expression token back gives the expression that spelled it. */
  lemma ExpRoundTrip(t: Token, e: Node)
    requires IsExp(e) && LexemeOf(t) == ExpLexeme(e)
    ensures IsExpToken(t) && Leaf(ExpName(t), t.text) == e
  {
  }

  /** Every token parse_exp accepts spells the leaf it is turned into. */
  lemma ExpSound(t: Token)
    requires IsExpToken(t)
    ensures IsExp(Leaf(ExpName(t), t.text)) && ExpLexeme(Leaf(ExpName(t), t.text)) == LexemeOf(t)
  {
  }

  // --------------------------------------------------------------- commands

  /** A command that ends in an IF without else, possibly nested in the last
      branch of an IF or in the body of a WHILE: an `else` right after it would
      be taken by that innermost IF. */
  predicate OpenEnded(c: Node)
    decreases c
  {
    c.Internal? &&
    ((c.name == "IF" && |c.children| == 2)
     || (c.name == "IF" && |c.children| == 3 && OpenEnded(c.children[2]))
     || (c.name == "WHILE" && |c.children| == 2 && OpenEnded(c.children[1])))
  }

  /** The command trees parse_cmd can build. The then-branch of an IF with an
      else must not be open-ended: that else would belong to the inner IF. */
  predicate WfCmd(c: Node)
    decreases c
  {
    match c
    case Leaf(_, _) => false
    case Internal(name, ch) =>
      if name == "IF" then
        || (|ch| == 2 && IsExp(ch[0]) && WfCmd(ch[1]))
        || (|ch| == 3 && IsExp(ch[0]) && WfCmd(ch[1]) && !OpenEnded(ch[1]) && WfCmd(ch[2]))
      else if name == "WHILE" then |ch| == 2 && IsExp(ch[0]) && WfCmd(ch[1])
      else if name == "PRINT" then |ch| == 1 && IsExp(ch[0])
      else if name == "ASSIGNMENT" then |ch| == 2 && ch[0].Leaf? && ch[0].name == "IDENTIFIER" && IsExp(ch[1])
      else if name == "BLOCK" then forall k :: 0 <= k < |ch| ==> WfCmd(ch[k])
      else false
  }

  predicate WfCmds(cs: seq<Node>)
  {
    forall k :: 0 <= k < |cs| ==> WfCmd(cs[k])
  }

  /** The tokens a command is written with. */
  function UnparseCmd(c: Node): (ls: seq<Lexeme>)
    requires WfCmd(c)
    decreases c
    ensures |ls| > 0
  {
    var ch := c.children;
    if c.name == "IF" then
      var head := [Lexeme(Reserved, "if"), LParen, ExpLexeme(ch[0]), RParen] + UnparseCmd(ch[1]);
      if |ch| == 2 then head else head + [Lexeme(Reserved, "else")] + UnparseCmd(ch[2])
    else if c.name == "WHILE" then
      [Lexeme(Reserved, "while"), LParen, ExpLexeme(ch[0]), RParen] + UnparseCmd(ch[1])
    else if c.name == "PRINT" then
      [Lexeme(Reserved, "System.out.println"), LParen, ExpLexeme(ch[0]), RParen, Semicolon]
    else if c.name == "ASSIGNMENT" then
      [Lexeme(Identifier, ch[0].text), Lexeme(Punctuation, "="), ExpLexeme(ch[1]), Semicolon]
    else
      [LBrace] + UnparseCmds(ch) + [RBrace]
  }

  function UnparseCmds(cs: seq<Node>): seq<Lexeme>
    requires WfCmds(cs)
    decreases cs
  {
    if cs == [] then [] else UnparseCmd(cs[0]) + UnparseCmds(cs[1..])
  }

  /** A command is spelled starting with a token parse_cmd dispatches on. */
  lemma CommandStart(ts: seq<Token>, pos: nat, c: Node)
    requires WfCmd(c) && Spells(ts, pos, UnparseCmd(c))
    ensures pos < |ts| && StartsCommand(ts[pos])
  {
  }

  /** The tokens of a command sequence followed by the closing brace never begin
      with `else`. */
  lemma CmdsThenBrace(ts: seq<Token>, pos: nat, cs: seq<Node>)
    requires WfCmds(cs) && Spells(ts, pos, UnparseCmds(cs) + [RBrace])
    ensures pos < |ts| && !IsElse(ts[pos])
    ensures cs == [] ==> IsCloseBrace(ts[pos])
    ensures cs != [] ==> StartsCommand(ts[pos])
  {
    if cs == [] {
      assert UnparseCmds(cs) + [RBrace] == [RBrace];
      SpellsOne(ts, pos, RBrace);
    } else {
      CmdsSpelling(ts, pos, cs, pos + |UnparseCmd(cs[0])|);
      CommandStart(ts, pos, cs[0]);
    }
  }

  lemma SpellsFour(ts: seq<Token>, pos: nat, a: Lexeme, b: Lexeme, c: Lexeme, d: Lexeme)
    ensures Spells(ts, pos, [a, b, c, d]) <==>
      (pos + 4 <= |ts| && LexemeOf(ts[pos]) == a && LexemeOf(ts[pos + 1]) == b
       && LexemeOf(ts[pos + 2]) == c && LexemeOf(ts[pos + 3]) == d)
  {
    assert [a, b, c, d][1..] == [b, c, d] && [b, c, d][1..] == [c, d] && [c, d][1..] == [d];
    SpellsOne(ts, pos + 3, d);
    assert Spells(ts, pos + 2, [c, d]) <==> pos + 2 < |ts| && LexemeOf(ts[pos + 2]) == c && Spells(ts, pos + 3, [d]);
    assert Spells(ts, pos + 1, [b, c, d]) <==> pos + 1 < |ts| && LexemeOf(ts[pos + 1]) == b && Spells(ts, pos + 2, [c, d]);
  }

  lemma SpellsOne(ts: seq<Token>, pos: nat, a: Lexeme)
    ensures Spells(ts, pos, [a]) <==> pos < |ts| && LexemeOf(ts[pos]) == a
  {
    assert [a][1..] == [];
  }

  // --------------------------------------------------------------- spellings

  /** The spelling of an IF or WHILE starts with the keyword, the parenthesised
      condition, then the first command. */
  lemma GuardedSpelling(ts: seq<Token>, pos: nat, c: Node)
    requires WfCmd(c) && (c.name == "IF" || c.name == "WHILE") && Spells(ts, pos, UnparseCmd(c))
    ensures GuardedTokens(ts, pos, if c.name == "IF" then "if" else "while", c.children[0])
    ensures WfCmd(c.children[1]) && Spells(ts, pos + 4, UnparseCmd(c.children[1]))
    ensures |c.children| == 2 ==> |UnparseCmd(c)| == 4 + |UnparseCmd(c.children[1])|
    ensures |c.children| == 2 && OpenEnded(c.children[1]) ==> OpenEnded(c)
  {
    var ch := c.children;
    var head := [Lexeme(Reserved, if c.name == "IF" then "if" else "while"), LParen, ExpLexeme(ch[0]), RParen];
    var tail := if |ch| == 3 then [Lexeme(Reserved, "else")] + UnparseCmd(ch[2]) else [];
    assert UnparseCmd(c) == head + UnparseCmd(ch[1]) + tail;
    SpellsAppend(ts, pos, head + UnparseCmd(ch[1]), tail);
    SpellsAppend(ts, pos, head, UnparseCmd(ch[1]));
    SpellsFour(ts, pos, head[0], head[1], head[2], head[3]);
    ExpRoundTrip(ts[pos + 2], ch[0]);
  }

  /** The spelling of an IF with else continues after the then-command, at n,
      with `else` and the else-command. */
  lemma ElseSpelling(ts: seq<Token>, pos: nat, c: Node, n: nat)
    requires WfCmd(c) && c.name == "IF" && |c.children| == 3 && Spells(ts, pos, UnparseCmd(c))
    requires n == pos + 4 + |UnparseCmd(c.children[1])|
    ensures pos + |UnparseCmd(c)| == n + 1 + |UnparseCmd(c.children[2])|
    ensures n < |ts| && IsElse(ts[n])
    ensures WfCmd(c.children[2]) && Spells(ts, n + 1, UnparseCmd(c.children[2]))
    ensures !OpenEnded(c.children[1]) && (OpenEnded(c.children[2]) ==> OpenEnded(c))
  {
    var ch := c.children;
    var head := [Lexeme(Reserved, "if"), LParen, ExpLexeme(ch[0]), RParen] + UnparseCmd(ch[1]);
    assert UnparseCmd(c) == head + ([Lexeme(Reserved, "else")] + UnparseCmd(ch[2]));
    SpellsAppend(ts, pos, head, [Lexeme(Reserved, "else")] + UnparseCmd(ch[2]));
    SpellsAppend(ts, n, [Lexeme(Reserved, "else")], UnparseCmd(ch[2]));
    SpellsOne(ts, n, Lexeme(Reserved, "else"));
  }

  /** The spelling of a BLOCK is its commands between braces. */
  lemma BlockSpelling(ts: seq<Token>, pos: nat, c: Node)
    requires WfCmd(c) && c.name == "BLOCK" && Spells(ts, pos, UnparseCmd(c))
    ensures pos < |ts| && IsToken(ts[pos], Punctuation, "{")
    ensures WfCmds(c.children) && Spells(ts, pos + 1, UnparseCmds(c.children) + [RBrace])
    ensures |UnparseCmd(c)| == 1 + |UnparseCmds(c.children)| + 1
    ensures c == Internal("BLOCK", c.children) && !OpenEnded(c)
  {
    var ch := c.children;
    assert UnparseCmd(c) == [LBrace] + (UnparseCmds(ch) + [RBrace]);
    SpellsAppend(ts, pos, [LBrace], UnparseCmds(ch) + [RBrace]);
    SpellsOne(ts, pos, LBrace);
  }

  /** A non-empty command sequence followed by `}` is spelled as its first
      command, ending at n, followed by the rest and the brace. */
  lemma CmdsSpelling(ts: seq<Token>, pos: nat, cs: seq<Node>, n: nat)
    requires WfCmds(cs) && cs != [] && Spells(ts, pos, UnparseCmds(cs) + [RBrace])
    requires n == pos + |UnparseCmd(cs[0])|
    ensures WfCmd(cs[0]) && WfCmds(cs[1..])
    ensures Spells(ts, pos, UnparseCmd(cs[0]))
    ensures Spells(ts, n, UnparseCmds(cs[1..]) + [RBrace])
    ensures pos + |UnparseCmds(cs)| == n + |UnparseCmds(cs[1..])|
  {
    var u0 := UnparseCmd(cs[0]);
    assert UnparseCmds(cs) + [RBrace] == u0 + (UnparseCmds(cs[1..]) + [RBrace]);
    SpellsAppend(ts, pos, u0, UnparseCmds(cs[1..]) + [RBrace]);
    assert WfCmds(cs[1..]) by {
      forall k | 0 <= k < |cs[1..]| ensures WfCmd(cs[1..][k]) {
        assert cs[1..][k] == cs[k + 1];
      }
    }
  }

  // ------------------------------------------------------------- guards

  /** The tokens from pos on are `keyword ( exp )`, where exp spells the
      expression e. */
  predicate GuardedTokens(ts: seq<Token>, pos: nat, keyword: string, e: Node)
  {
    && pos + 4 <= |ts| && IsToken(ts[pos], Reserved, keyword) && IsToken(ts[pos + 1], Punctuation, "(")
    && IsExpToken(ts[pos + 2]) && Leaf(ExpName(ts[pos + 2]), ts[pos + 2].text) == e
    && IsToken(ts[pos + 3], Punctuation, ")")
  }

  // ----------------------------------------------------------- spelled trees

  /** The tokens from pos up to n spell the command c, and when c is open-ended
      they are not followed by an `else` that c's innermost IF would take. */
  predicate SpelledCmd(ts: seq<Token>, pos: nat, c: Node, n: nat)
  {
    && WfCmd(c) && Spells(ts, pos, UnparseCmd(c)) && n == pos + |UnparseCmd(c)|
    && (OpenEnded(c) ==> !IsElse(Lookahead(ts, n)))
  }

  /** The tokens from pos up to n spell the commands cs, and a `}` follows. */
  predicate SpelledCmds(ts: seq<Token>, pos: nat, cs: seq<Node>, n: nat)
  {
    WfCmds(cs) && Spells(ts, pos, UnparseCmds(cs) + [RBrace]) && n == pos + |UnparseCmds(cs)|
  }

  /** `if ( exp )` followed by a spelled command and no `else` spells an IF without else. */
  lemma IfThenSpelled(ts: seq<Token>, pos: nat, e: Node, t: Node, n: nat)
    requires GuardedTokens(ts, pos, "if", e) && SpelledCmd(ts, pos + 4, t, n) && !IsElse(Lookahead(ts, n))
    ensures SpelledCmd(ts, pos, Internal("IF", [e, t]), n)
  {
    ExpSound(ts[pos + 2]);
    GuardedJoin(ts, pos, "if", e, t);
  }

  /** `if ( exp )`, a spelled command, `else` and a spelled command spell an IF with else. */
  lemma IfElseSpelled(ts: seq<Token>, pos: nat, e: Node, t: Node, f: Node, m: nat, n: nat)
    requires GuardedTokens(ts, pos, "if", e) && SpelledCmd(ts, pos + 4, t, m)
    requires m < |ts| && IsElse(ts[m]) && SpelledCmd(ts, m + 1, f, n)
    ensures SpelledCmd(ts, pos, Internal("IF", [e, t, f]), n)
  {
    var c := Internal("IF", [e, t, f]);
    ExpSound(ts[pos + 2]);
    assert !OpenEnded(t);
    var head := [Lexeme(Reserved, "if"), LParen, ExpLexeme(e), RParen] + UnparseCmd(t);
    var tail := [Lexeme(Reserved, "else")] + UnparseCmd(f);
    assert UnparseCmd(c) == head + tail;
    GuardedJoin(ts, pos, "if", e, t);
    assert Internal("IF", [e, t]).children == [e, t];
    SpellsOne(ts, m, Lexeme(Reserved, "else"));
    SpellsAppend(ts, m, [Lexeme(Reserved, "else")], UnparseCmd(f));
    SpellsAppend(ts, pos, head, tail);
  }

  /** `while ( exp )` followed by a spelled command spells a WHILE. */
  lemma WhileSpelled(ts: seq<Token>, pos: nat, e: Node, t: Node, n: nat)
    requires GuardedTokens(ts, pos, "while", e) && SpelledCmd(ts, pos + 4, t, n)
    ensures SpelledCmd(ts, pos, Internal("WHILE", [e, t]), n)
  {
    ExpSound(ts[pos + 2]);
    GuardedJoin(ts, pos, "while", e, t);
  }

  /** The guard tokens followed by the spelling of t spell the guarded command
      with body t. */
  lemma GuardedJoin(ts: seq<Token>, pos: nat, keyword: string, e: Node, t: Node)
    requires keyword == "if" || keyword == "while"
    requires GuardedTokens(ts, pos, keyword, e) && IsExp(e) && ExpLexeme(e) == LexemeOf(ts[pos + 2])
    requires WfCmd(t) && Spells(ts, pos + 4, UnparseCmd(t))
    ensures var c := Internal(if keyword == "if" then "IF" else "WHILE", [e, t]);
      WfCmd(c) && Spells(ts, pos, UnparseCmd(c)) && |UnparseCmd(c)| == 4 + |UnparseCmd(t)|
  {
    var head := [Lexeme(Reserved, keyword), LParen, ExpLexeme(e), RParen];
    SpellsFour(ts, pos, head[0], head[1], head[2], head[3]);
    SpellsAppend(ts, pos, head, UnparseCmd(t));
  }

  /** `{`, spelled commands and the `}` spell a BLOCK. */
  lemma BlockSpelled(ts: seq<Token>, pos: nat, cs: seq<Node>, n: nat)
    requires pos < |ts| && IsToken(ts[pos], Punctuation, "{") && SpelledCmds(ts, pos + 1, cs, n)
    ensures SpelledCmd(ts, pos, Internal("BLOCK", cs), n + 1)
  {
    var c := Internal("BLOCK", cs);
    assert UnparseCmd(c) == [LBrace] + (UnparseCmds(cs) + [RBrace]);
    SpellsOne(ts, pos, LBrace);
    SpellsAppend(ts, pos, [LBrace], UnparseCmds(cs) + [RBrace]);
  }

  /** The five tokens parse_print accepts spell the PRINT it returns. */
  lemma PrintSpelled(ts: seq<Token>, pos: nat)
    requires pos + 5 <= |ts|
    requires IsToken(ts[pos], Reserved, "System.out.println") && IsToken(ts[pos + 1], Punctuation, "(")
    requires IsExpToken(ts[pos + 2]) && IsToken(ts[pos + 3], Punctuation, ")") && IsToken(ts[pos + 4], Punctuation, ";")
    ensures SpelledCmd(ts, pos, Internal("PRINT", [Leaf(ExpName(ts[pos + 2]), ts[pos + 2].text)]), pos + 5)
  {
    var e := Leaf(ExpName(ts[pos + 2]), ts[pos + 2].text);
    ExpSound(ts[pos + 2]);
    var u := UnparseCmd(Internal("PRINT", [e]));
    assert u == [u[0], u[1], u[2], u[3]] + [u[4]];
    SpellsFour(ts, pos, u[0], u[1], u[2], u[3]);
    SpellsOne(ts, pos + 4, u[4]);
    SpellsAppend(ts, pos, [u[0], u[1], u[2], u[3]], [u[4]]);
  }

  /** The four tokens parse_assignment accepts spell the ASSIGNMENT it returns. */
  lemma AssignmentSpelled(ts: seq<Token>, pos: nat)
    requires pos + 4 <= |ts|
    requires ts[pos].kind == Identifier && IsToken(ts[pos + 1], Punctuation, "=")
    requires IsExpToken(ts[pos + 2]) && IsToken(ts[pos + 3], Punctuation, ";")
    ensures SpelledCmd(ts, pos, Internal("ASSIGNMENT", [Leaf("IDENTIFIER", ts[pos].text), Leaf(ExpName(ts[pos + 2]), ts[pos + 2].text)]), pos + 4)
  {
    var e := Leaf(ExpName(ts[pos + 2]), ts[pos + 2].text);
    ExpSound(ts[pos + 2]);
    var u := UnparseCmd(Internal("ASSIGNMENT", [Leaf("IDENTIFIER", ts[pos].text), e]));
    SpellsFour(ts, pos, u[0], u[1], u[2], u[3]);
  }

  /** A `}` alone ends an empty command sequence. */
  lemma CmdsNilSpelled(ts: seq<Token>, pos: nat)
    requires pos < |ts| && IsCloseBrace(ts[pos])
    ensures SpelledCmds(ts, pos, [], pos)
  {
    assert UnparseCmds([]) + [RBrace] == [RBrace];
    SpellsOne(ts, pos, RBrace);
  }

  /** A spelled command followed by spelled commands spells the longer sequence. */
  lemma CmdsConsSpelled(ts: seq<Token>, pos: nat, c: Node, m: nat, cs: seq<Node>, n: nat)
    requires SpelledCmd(ts, pos, c, m) && SpelledCmds(ts, m, cs, n)
    ensures SpelledCmds(ts, pos, [c] + cs, n)
  {
    var all := [c] + cs;
    assert all[0] == c && all[1..] == cs;
    assert WfCmds(all) by {
      forall k | 0 <= k < |all| ensures WfCmd(all[k]) {
        if k > 0 { assert all[k] == cs[k - 1]; }
      }
    }
    assert UnparseCmds(all) + [RBrace] == UnparseCmd(c) + (UnparseCmds(cs) + [RBrace]);
    SpellsAppend(ts, pos, UnparseCmd(c), UnparseCmds(cs) + [RBrace]);
  }
}
