/** The whole program: parse_main and parse_prog read back exactly the
    spellings of well-formed main classes. */
module Program {
  import opened Wrappers
  import opened Tokens
  import opened Tree
  import opened Parser
  import opened Grammar
  import opened Completeness
  import opened Soundness

  const LBracket := Lexeme(Punctuation, "[")
  const RBracket := Lexeme(Punctuation, "]")

  /** `class Id { public static void main ( String [ ] Id ) {`, in four chunks. */
  function Header(names: MainNames): (ls: seq<Lexeme>)
  {
    [Lexeme(Reserved, "class"), Lexeme(Identifier, names.className), LBrace, Lexeme(Reserved, "public")]
    + [Lexeme(Reserved, "static"), Lexeme(Reserved, "void"), Lexeme(Reserved, "main"), LParen]
    + [Lexeme(Reserved, "String"), LBracket, RBracket, Lexeme(Identifier, names.paramName)]
    + [RParen, LBrace]
  }

  /** The tree parse_main builds from the two names and the commands. */
  function MainOf(names: MainNames, cs: seq<Node>): Node
  {
    Internal("MAIN", [Leaf("CLASS", names.className), Leaf("PARAMS", names.paramName), Internal("COMMANDS", cs)])
  }

  /** A MAIN node with a CLASS and a PARAMS leaf and well-formed COMMANDS. */
  predicate WfMain(m: Node)
  {
    && m.Internal? && m.name == "MAIN" && |m.children| == 3
    && m.children[0].Leaf? && m.children[0].name == "CLASS"
    && m.children[1].Leaf? && m.children[1].name == "PARAMS"
    && m.children[2].Internal? && m.children[2].name == "COMMANDS" && WfCmds(m.children[2].children)
  }

  function NamesOf(m: Node): MainNames
    requires WfMain(m)
  {
    MainNames(m.children[0].text, m.children[1].text)
  }

  /** The tokens a main class is written with: the header, the commands, and
      the closing braces of main and of the class. */
  function UnparseMain(m: Node): seq<Lexeme>
    requires WfMain(m)
  {
    Header(NamesOf(m)) + (UnparseCmds(m.children[2].children) + [RBrace]) + [RBrace]
  }

  /** The tokens from pos up to n spell the well-formed main class m. */
  predicate SpelledMain(ts: seq<Token>, pos: nat, m: Node, n: nat)
  {
    WfMain(m) && Spells(ts, pos, UnparseMain(m)) && n == pos + |UnparseMain(m)|
  }

  // ------------------------------------------------------------- the header

  lemma SpellsTwo(ts: seq<Token>, pos: nat, a: Lexeme, b: Lexeme)
    ensures Spells(ts, pos, [a, b]) <==> pos + 2 <= |ts| && LexemeOf(ts[pos]) == a && LexemeOf(ts[pos + 1]) == b
  {
    assert [a, b][1..] == [b];
    SpellsOne(ts, pos + 1, b);
  }

  /** The header spelling, token by token. */
  lemma {:induction false} HeaderTokens(ts: seq<Token>, pos: nat, names: MainNames)
    ensures Spells(ts, pos, Header(names)) <==>
      && pos + 14 <= |ts|
      && IsToken(ts[pos], Reserved, "class") && IsToken(ts[pos + 1], Identifier, names.className)
      && IsToken(ts[pos + 2], Punctuation, "{") && IsToken(ts[pos + 3], Reserved, "public")
      && IsToken(ts[pos + 4], Reserved, "static") && IsToken(ts[pos + 5], Reserved, "void")
      && IsToken(ts[pos + 6], Reserved, "main") && IsToken(ts[pos + 7], Punctuation, "(")
      && IsToken(ts[pos + 8], Reserved, "String") && IsToken(ts[pos + 9], Punctuation, "[")
      && IsToken(ts[pos + 10], Punctuation, "]") && IsToken(ts[pos + 11], Identifier, names.paramName)
      && IsToken(ts[pos + 12], Punctuation, ")") && IsToken(ts[pos + 13], Punctuation, "{")
  {
    var a := [Lexeme(Reserved, "class"), Lexeme(Identifier, names.className), LBrace, Lexeme(Reserved, "public")];
    var b := [Lexeme(Reserved, "static"), Lexeme(Reserved, "void"), Lexeme(Reserved, "main"), LParen];
    var c := [Lexeme(Reserved, "String"), LBracket, RBracket, Lexeme(Identifier, names.paramName)];
    var d := [RParen, LBrace];
    SpellsAppend(ts, pos, a + b + c, d);
    SpellsAppend(ts, pos, a + b, c);
    SpellsAppend(ts, pos, a, b);
    SpellsFour(ts, pos, a[0], a[1], a[2], a[3]);
    SpellsFour(ts, pos + 4, b[0], b[1], b[2], b[3]);
    SpellsFour(ts, pos + 8, c[0], c[1], c[2], c[3]);
    SpellsTwo(ts, pos + 12, d[0], d[1]);
  }

  /** The header part of parse_main accepts exactly the header spelling of the
      two names it returns, and always consumes fourteen tokens. */
  lemma HeaderExact(ts: seq<Token>, pos: nat, names: MainNames, n: nat)
    requires pos <= |ts|
    ensures ParseHeader(ts, pos) == Success(Parsed(names, n)) <==> Spells(ts, pos, Header(names)) && n == pos + 14
  {
    HeaderTokens(ts, pos, names);
  }

  // ---------------------------------------------------------- the main class

  /** How the spelling of a main class splits: header, commands up to the first
      `}`, and the final `}`. */
  lemma MainSpelling(ts: seq<Token>, pos: nat, names: MainNames, cs: seq<Node>, k: nat)
    requires WfCmds(cs) && k == pos + 14 + |UnparseCmds(cs)|
    ensures WfMain(MainOf(names, cs)) && NamesOf(MainOf(names, cs)) == names
    ensures |UnparseMain(MainOf(names, cs))| == k + 2 - pos
    ensures Spells(ts, pos, UnparseMain(MainOf(names, cs))) <==>
      && Spells(ts, pos, Header(names)) && SpelledCmds(ts, pos + 14, cs, k)
      && k + 1 < |ts| && IsCloseBrace(ts[k + 1])
  {
    var m := MainOf(names, cs);
    var h := Header(names);
    var body := UnparseCmds(cs) + [RBrace];
    SpellsAppend(ts, pos, h + body, [RBrace]);
    SpellsAppend(ts, pos, h, body);
    SpellsOne(ts, k + 1, RBrace);
    if Spells(ts, pos + 14, body) {
      SpellsLength(ts, pos + 14, body);
    }
  }

  /** Every well-formed main class is the tree MainOf builds from its parts. */
  lemma MainParts(m: Node)
    requires WfMain(m)
    ensures m == MainOf(NamesOf(m), m.children[2].children)
  {
    assert m.children == [m.children[0], m.children[1], m.children[2]];
  }

  /** parse_main, given what its header and parse_cmds return. */
  lemma MainStep(ts: seq<Token>, pos: nat, names: MainNames, cs: seq<Node>, k: nat)
    requires pos + 14 <= |ts|
    requires ParseHeader(ts, pos) == Success(Parsed(names, pos + 14))
    requires ParseCmds(ts, pos + 14) == Success(Parsed(cs, k))
    ensures ParseMain(ts, pos) == if k + 1 < |ts| && IsCloseBrace(ts[k + 1])
      then Success(Parsed(MainOf(names, cs), k + 2))
      else Failure(Expect(ts, k + 1, Punctuation, "}").error)
  {
  }

  /** What a successful parse_main was built from. */
  lemma MainInv(ts: seq<Token>, pos: nat, m: Node, n: nat) returns (names: MainNames, cs: seq<Node>, k: nat)
    requires pos <= |ts| && ParseMain(ts, pos) == Success(Parsed(m, n))
    ensures pos + 14 <= |ts| && ParseHeader(ts, pos) == Success(Parsed(names, pos + 14))
    ensures ParseCmds(ts, pos + 14) == Success(Parsed(cs, k))
    ensures k + 1 < |ts| && IsCloseBrace(ts[k + 1]) && n == k + 2 && m == MainOf(names, cs)
  {
    names := ParseHeader(ts, pos).value.value;
    var r := ParseCmds(ts, pos + 14).value;
    cs, k := r.value, r.next;
  }

  lemma MainSound(ts: seq<Token>, pos: nat, m: Node, n: nat)
    requires pos <= |ts| && ParseMain(ts, pos) == Success(Parsed(m, n))
    ensures SpelledMain(ts, pos, m, n)
  {
    var names, cs, k := MainInv(ts, pos, m, n);
    HeaderExact(ts, pos, names, pos + 14);
    ParseCmdsSound(ts, pos + 14, cs, k);
    MainSpelling(ts, pos, names, cs, k);
  }

  lemma MainComplete(ts: seq<Token>, pos: nat, m: Node)
    requires WfMain(m) && Spells(ts, pos, UnparseMain(m))
    ensures ParseMain(ts, pos) == Success(Parsed(m, pos + |UnparseMain(m)|))
  {
    var cs := m.children[2].children;
    MainParts(m);
    ReadMain(ts, pos, NamesOf(m), cs, pos + 14 + |UnparseCmds(cs)|);
  }

  /** MainComplete for the tree built from its parts, with the end of the
      commands named. */
  lemma ReadMain(ts: seq<Token>, pos: nat, names: MainNames, cs: seq<Node>, k: nat)
    requires WfCmds(cs) && k == pos + 14 + |UnparseCmds(cs)|
    requires Spells(ts, pos, UnparseMain(MainOf(names, cs)))
    ensures |UnparseMain(MainOf(names, cs))| == k + 2 - pos
    ensures ParseMain(ts, pos) == Success(Parsed(MainOf(names, cs), k + 2))
  {
    MainSpelling(ts, pos, names, cs, k);
    HeaderExact(ts, pos, names, pos + 14);
    ParseCmdsComplete(ts, pos + 14, cs);
    MainStep(ts, pos, names, cs, k);
  }

  /** parse_main returns m, having consumed the tokens up to n, exactly when
      those tokens spell the well-formed main class m. */
  lemma MainExact(ts: seq<Token>, pos: nat, m: Node, n: nat)
    requires pos <= |ts|
    ensures ParseMain(ts, pos) == Success(Parsed(m, n)) <==> SpelledMain(ts, pos, m, n)
  {
    if ParseMain(ts, pos) == Success(Parsed(m, n)) {
      MainSound(ts, pos, m, n);
    }
    if SpelledMain(ts, pos, m, n) {
      MainComplete(ts, pos, m);
    }
  }

  // ------------------------------------------------------------ the program

  /** The tokens begin with the spelling of the main class m, and what follows
      it is not the RESERVED `class` that would start another class. */
  predicate SpelledProg(ts: seq<Token>, m: Node)
  {
    WfMain(m) && Spells(ts, 0, UnparseMain(m)) && !IsToken(Lookahead(ts, |UnparseMain(m)|), Reserved, "class")
  }

  /** parse_prog returns the program whose only class is m exactly when the
      tokens spell m and no second class follows; any other tokens after the
      main class are ignored. */
  lemma ProgExact(ts: seq<Token>, m: Node)
    ensures ParseProg(ts) == Success(Internal("PROG", [m])) <==> SpelledProg(ts, m)
  {
    var r := ParseMain(ts, 0);
    if r.Success? {
      MainExact(ts, 0, r.value.value, r.value.next);
      MainExact(ts, 0, m, r.value.next);
    }
    if WfMain(m) && Spells(ts, 0, UnparseMain(m)) {
      MainComplete(ts, 0, m);
    }
  }

  /** A second class after the main class is rejected: parse_class is not defined. */
  lemma ProgRejectsSecondClass(ts: seq<Token>, m: Node)
    requires WfMain(m) && Spells(ts, 0, UnparseMain(m))
    requires IsToken(Lookahead(ts, |UnparseMain(m)|), Reserved, "class")
    ensures ParseProg(ts) == Failure(ClassDeclNotImplemented(ts[|UnparseMain(m)|]))
  {
    MainComplete(ts, 0, m);
  }

  // ---------------------------------------------------------- trailing tokens

  lemma {:induction false} SpellsExtend(ts: seq<Token>, extra: seq<Token>, pos: nat, ls: seq<Lexeme>)
    requires Spells(ts, pos, ls)
    ensures Spells(ts + extra, pos, ls)
    decreases ls
  {
    if ls != [] {
      SpellsExtend(ts, extra, pos + 1, ls[1..]);
    }
  }

  /** Tokens after an accepted program change nothing, unless they start with
      the RESERVED `class`. */
  lemma ProgIgnoresTrailing(ts: seq<Token>, extra: seq<Token>)
    requires ParseProg(ts).Success?
    requires extra != [] ==> !IsToken(extra[0], Reserved, "class")
    ensures ParseProg(ts + extra) == ParseProg(ts)
  {
    var m := ParseProg(ts).value.children[0];
    ProgExact(ts, m);
    var n := |UnparseMain(m)|;
    SpellsLength(ts, 0, UnparseMain(m));
    SpellsExtend(ts, extra, 0, UnparseMain(m));
    assert Lookahead(ts + extra, n) == (if n < |ts| then ts[n] else if extra != [] then extra[0] else EofToken);
    ProgExact(ts + extra, m);
  }
}
