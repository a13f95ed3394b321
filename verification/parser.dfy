/** The recursive-descent parser of parser.py. The parser object's cursor
    `self.pos` becomes an explicit position: every parsing function takes the
    position it starts at and, on success, returns what it built together with
    the position after it. A raised RuntimeError becomes a Failure. */
module Parser {
  import opened Wrappers
  import opened Tokens
  import opened Tree

  /** The RuntimeErrors the parser raises, by the place that raises them. */
  datatype SyntaxError =
      /** `consume` past the last token. */
    | UnexpectedEnd(expected: Category, value: Option<string>)
      /** `consume` at a token of another type or text. */
    | Mismatched(expected: Category, value: Option<string>, found: Token)
      /** `parse_cmd` at a token that starts no command (possibly the EOF sentinel). */
    | UnexpectedToken(found: Token)
      /** `parse_assignment` when no `=` follows the identifier. */
    | BadAssignment(found: Token)
      /** `parse_exp` at a token that is no number, boolean or identifier. */
    | BadExpression(found: Token)
      /** `parse_prog` calls `parse_class`, which the parser does not define. */
    | ClassDeclNotImplemented(found: Token)

  /** What a parsing step built and where the cursor stands after it. */
  datatype Parsed<T> = Parsed(value: T, next: nat)

  /** The token has the given type and text. */
  predicate IsToken(t: Token, kind: Category, text: string)
  {
    t.kind == kind && t.text == text
  }

  /** `lookahead()`: the token at the cursor, or the EOF sentinel past the end. */
  function Lookahead(ts: seq<Token>, pos: nat): (t: Token)
    ensures pos < |ts| ==> t == ts[pos]
    ensures pos >= |ts| ==> t == EofToken
  {
    if pos >= |ts| then EofToken else ts[pos]
  }

  /** `consume(expected_type, expected_value)`. */
  function Consume(ts: seq<Token>, pos: nat, kind: Category, value: Option<string>): (r: Result<Parsed<Token>, SyntaxError>)
    ensures r.Success? <==> pos < |ts| && ts[pos].kind == kind && (value.Some? ==> ts[pos].text == value.value)
    ensures r.Success? ==> r.value == Parsed(ts[pos], pos + 1)
    ensures r.Failure? && pos >= |ts| ==> r.error == UnexpectedEnd(kind, value)
    ensures r.Failure? && pos < |ts| ==> r.error == Mismatched(kind, value, ts[pos])
  {
    if pos >= |ts| then Failure(UnexpectedEnd(kind, value))
    else
      var t := ts[pos];
      if t.kind != kind || (value.Some? && t.text != value.value) then Failure(Mismatched(kind, value, t))
      else Success(Parsed(t, pos + 1))
  }

  /** `consume(kind, text)` where only the success matters to the caller. */
  function Expect(ts: seq<Token>, pos: nat, kind: Category, text: string): (r: Result<nat, SyntaxError>)
    ensures r.Success? <==> pos < |ts| && IsToken(ts[pos], kind, text)
    ensures r.Success? ==> r.value == pos + 1
  {
    var t :- Consume(ts, pos, kind, Some(text));
    Success(t.next)
  }

  // ------------------------------------------------------------ expressions

  /** The tokens `parse_exp` accepts: a NUMBER, the RESERVED `true` or `false`,
      or an IDENTIFIER. */
  predicate IsExpToken(t: Token)
  {
    t.kind == Number || IsToken(t, Reserved, "true") || IsToken(t, Reserved, "false") || t.kind == Identifier
  }

  /** The node type `parse_exp` gives an accepted token. */
  function ExpName(t: Token): string
  {
    if t.kind == Number then "NUMBER"
    else if t.kind == Reserved then "BOOLEAN"
    else "IDENTIFIER"
  }

  /** `parse_exp`: consume whatever token is next, then classify it. Past the end
      this is a `consume("EOF")` that fails. */
  function ParseExp(ts: seq<Token>, pos: nat): (r: Result<Parsed<Node>, SyntaxError>)
    ensures r.Success? <==> pos < |ts| && IsExpToken(ts[pos])
    ensures r.Success? ==> r.value == Parsed(Leaf(ExpName(ts[pos]), ts[pos].text), pos + 1)
    ensures pos >= |ts| ==> r == Failure(UnexpectedEnd(Eof, None))
    ensures pos < |ts| && !IsExpToken(ts[pos]) ==> r == Failure(BadExpression(ts[pos]))
  {
    var c :- Consume(ts, pos, Lookahead(ts, pos).kind, None);
    var t := c.value;
    if t.kind == Number then Success(Parsed(Leaf("NUMBER", t.text), c.next))
    else if t.kind == Reserved && (t.text == "true" || t.text == "false") then Success(Parsed(Leaf("BOOLEAN", t.text), c.next))
    else if t.kind == Identifier then Success(Parsed(Leaf("IDENTIFIER", t.text), c.next))
    else Failure(BadExpression(t))
  }

  // --------------------------------------------------------------- commands

  /** The lookaheads `parse_cmd` dispatches on. */
  predicate StartsCommand(t: Token)
  {
    IsToken(t, Reserved, "if") || IsToken(t, Reserved, "while") || IsToken(t, Reserved, "System.out.println")
    || t.kind == Identifier || IsToken(t, Punctuation, "{")
  }

  predicate IsCloseBrace(t: Token)
  {
    IsToken(t, Punctuation, "}")
  }

  predicate IsElse(t: Token)
  {
    IsToken(t, Reserved, "else")
  }

  /** `parse_cmds`: commands until the lookahead is a PUNCTUATION `}`, which is
      left for the caller. */
  function ParseCmds(ts: seq<Token>, pos: nat): (r: Result<Parsed<seq<Node>>, SyntaxError>)
    requires pos <= |ts|
    decreases |ts| - pos, 2
    ensures r.Success? ==> pos <= r.value.next < |ts| && IsCloseBrace(ts[r.value.next])
  {
    if IsCloseBrace(Lookahead(ts, pos)) then Success(Parsed([], pos))
    else
      var c :- ParseCmd(ts, pos);
      var rest :- ParseCmds(ts, c.next);
      Success(Parsed([c.value] + rest.value, rest.next))
  }

  /** `parse_cmd`: dispatch on the lookahead. */
  function ParseCmd(ts: seq<Token>, pos: nat): (r: Result<Parsed<Node>, SyntaxError>)
    requires pos <= |ts|
    decreases |ts| - pos, 1
    ensures r.Success? ==> pos < r.value.next <= |ts|
    ensures r.Success? ==> pos < |ts| && StartsCommand(ts[pos])
    ensures !StartsCommand(Lookahead(ts, pos)) ==> r == Failure(UnexpectedToken(Lookahead(ts, pos)))
  {
    var t := Lookahead(ts, pos);
    if IsToken(t, Reserved, "if") then ParseIf(ts, pos)
    else if IsToken(t, Reserved, "while") then ParseWhile(ts, pos)
    else if IsToken(t, Reserved, "System.out.println") then ParsePrint(ts, pos)
    else if t.kind == Identifier then ParseAssignment(ts, pos)
    else if IsToken(t, Punctuation, "{") then ParseBlock(ts, pos)
    else Failure(UnexpectedToken(t))
  }

  /** The `{` branch of `parse_cmd`: a block of commands up to the matching `}`. */
  function ParseBlock(ts: seq<Token>, pos: nat): (r: Result<Parsed<Node>, SyntaxError>)
    requires pos < |ts|
    decreases |ts| - pos, 0
    ensures r.Success? ==> pos + 2 <= r.value.next <= |ts| && IsCloseBrace(ts[r.value.next - 1])
    ensures r.Success? ==> r.value.value.Internal? && r.value.value.name == "BLOCK"
  {
    // consume("{") succeeds: the lookahead is that brace
    var cmds :- ParseCmds(ts, pos + 1);
    // consume("}") succeeds: parse_cmds stops only at that brace
    Success(Parsed(Internal("BLOCK", cmds.value), cmds.next + 1))
  }

  /** `consume(keyword)`, `consume("(")`, `parse_exp()`, `consume(")")`: the
      opening that parse_if, parse_while and parse_print share. */
  function ParseGuard(ts: seq<Token>, pos: nat, keyword: string): (r: Result<Parsed<Node>, SyntaxError>)
    ensures r.Success? <==>
      && pos + 4 <= |ts|
      && IsToken(ts[pos], Reserved, keyword) && IsToken(ts[pos + 1], Punctuation, "(")
      && IsExpToken(ts[pos + 2]) && IsToken(ts[pos + 3], Punctuation, ")")
    ensures r.Success? ==> r.value == Parsed(Leaf(ExpName(ts[pos + 2]), ts[pos + 2].text), pos + 4)
    ensures pos >= |ts| ==> r == Failure(UnexpectedEnd(Reserved, Some(keyword)))
  {
    var p :- Expect(ts, pos, Reserved, keyword);
    var p :- Expect(ts, p, Punctuation, "(");
    var cond :- ParseExp(ts, p);
    var p :- Expect(ts, cond.next, Punctuation, ")");
    Success(Parsed(cond.value, p))
  }

  /** `parse_if`: the else branch is taken whenever the token after the
      then-command is the RESERVED `else`. */
  function ParseIf(ts: seq<Token>, pos: nat): (r: Result<Parsed<Node>, SyntaxError>)
    requires pos <= |ts|
    decreases |ts| - pos, 0
    ensures r.Success? ==> pos + 5 <= r.value.next <= |ts|
    ensures r.Success? ==> IsToken(ts[pos], Reserved, "if")
    ensures r.Success? ==> (r.value.value.Internal? && r.value.value.name == "IF"
      && (|r.value.value.children| == 2 || |r.value.value.children| == 3))
  {
    var cond :- ParseGuard(ts, pos, "if");
    var thenCmd :- ParseCmd(ts, cond.next);
    ParseElse(ts, thenCmd.next, cond.value, thenCmd.value)
  }

  /** The rest of `parse_if` once the then-command is read and the cursor is at
      pos: an else branch when the lookahead is the RESERVED `else`. */
  function ParseElse(ts: seq<Token>, pos: nat, cond: Node, thenCmd: Node): (r: Result<Parsed<Node>, SyntaxError>)
    requires pos <= |ts|
    decreases |ts| - pos, 2
    ensures r.Success? ==> pos <= r.value.next <= |ts|
  {
    if IsElse(Lookahead(ts, pos)) then
      // consume("else") succeeds: the lookahead is that keyword
      var elseCmd :- ParseCmd(ts, pos + 1);
      Success(Parsed(Internal("IF", [cond, thenCmd, elseCmd.value]), elseCmd.next))
    else
      Success(Parsed(Internal("IF", [cond, thenCmd]), pos))
  }

  /** `parse_while` */
  function ParseWhile(ts: seq<Token>, pos: nat): (r: Result<Parsed<Node>, SyntaxError>)
    requires pos <= |ts|
    decreases |ts| - pos, 0
    ensures r.Success? ==> pos + 5 <= r.value.next <= |ts|
    ensures r.Success? ==> IsToken(ts[pos], Reserved, "while")
    ensures r.Success? ==> r.value.value.Internal? && r.value.value.name == "WHILE" && |r.value.value.children| == 2
  {
    var cond :- ParseGuard(ts, pos, "while");
    var body :- ParseCmd(ts, cond.next);
    Success(Parsed(Internal("WHILE", [cond.value, body.value]), body.next))
  }

  /** `parse_print`: `System.out.println ( exp ) ;` */
  function ParsePrint(ts: seq<Token>, pos: nat): (r: Result<Parsed<Node>, SyntaxError>)
    requires pos <= |ts|
    ensures r.Success? ==> r.value.next == pos + 5 <= |ts|
    ensures r.Success? <==>
      && pos + 5 <= |ts|
      && IsToken(ts[pos], Reserved, "System.out.println") && IsToken(ts[pos + 1], Punctuation, "(")
      && IsExpToken(ts[pos + 2])
      && IsToken(ts[pos + 3], Punctuation, ")") && IsToken(ts[pos + 4], Punctuation, ";")
    ensures r.Success? ==> r.value.value == Internal("PRINT", [Leaf(ExpName(ts[pos + 2]), ts[pos + 2].text)])
  {
    var e :- ParseGuard(ts, pos, "System.out.println");
    var p :- Expect(ts, e.next, Punctuation, ";");
    Success(Parsed(Internal("PRINT", [e.value]), p))
  }

  /** `parse_assignment`: `identifier = exp ;`, failing at once when the token
      after the identifier is not `=`. */
  function ParseAssignment(ts: seq<Token>, pos: nat): (r: Result<Parsed<Node>, SyntaxError>)
    requires pos <= |ts|
    ensures r.Success? ==> r.value.next == pos + 4 <= |ts|
    ensures r.Success? <==>
      && pos + 4 <= |ts|
      && ts[pos].kind == Identifier && IsToken(ts[pos + 1], Punctuation, "=")
      && IsExpToken(ts[pos + 2]) && IsToken(ts[pos + 3], Punctuation, ";")
    ensures r.Success? ==> (r.value.value ==
      Internal("ASSIGNMENT", [Leaf("IDENTIFIER", ts[pos].text), Leaf(ExpName(ts[pos + 2]), ts[pos + 2].text)]))
    ensures pos < |ts| && ts[pos].kind == Identifier && !IsToken(Lookahead(ts, pos + 1), Punctuation, "=") ==>
      r == Failure(BadAssignment(Lookahead(ts, pos + 1)))
  {
    var id :- Consume(ts, pos, Identifier, None);
    if IsToken(Lookahead(ts, id.next), Punctuation, "=") then
      // consume("=") succeeds: the lookahead is that sign
      var value :- ParseExp(ts, id.next + 1);
      var p :- Expect(ts, value.next, Punctuation, ";");
      Success(Parsed(Internal("ASSIGNMENT", [Leaf("IDENTIFIER", id.value.text), value.value]), p))
    else
      Failure(BadAssignment(Lookahead(ts, id.next)))
  }

  // ------------------------------------------------------------ the program

  /** The class and parameter names the header of the main class declares. */
  datatype MainNames = MainNames(className: string, paramName: string)

  /** The first fourteen consumes of `parse_main`: the fixed header
      `class Id { public static void main ( String [ ] Id ) {`. */
  function ParseHeader(ts: seq<Token>, pos: nat): (r: Result<Parsed<MainNames>, SyntaxError>)
    requires pos <= |ts|
    ensures r.Success? ==> pos + 14 <= |ts|
    ensures r.Success? ==> r.value == Parsed(MainNames(ts[pos + 1].text, ts[pos + 11].text), pos + 14)
  {
    var p :- Expect(ts, pos, Reserved, "class");
    var className :- Consume(ts, p, Identifier, None);
    var p :- Expect(ts, className.next, Punctuation, "{");
    var p :- Expect(ts, p, Reserved, "public");
    var p :- Expect(ts, p, Reserved, "static");
    var p :- Expect(ts, p, Reserved, "void");
    var p :- Expect(ts, p, Reserved, "main");
    var p :- Expect(ts, p, Punctuation, "(");
    var p :- Expect(ts, p, Reserved, "String");
    var p :- Expect(ts, p, Punctuation, "[");
    var p :- Expect(ts, p, Punctuation, "]");
    var paramName :- Consume(ts, p, Identifier, None);
    var p :- Expect(ts, paramName.next, Punctuation, ")");
    var p :- Expect(ts, p, Punctuation, "{");
    Success(Parsed(MainNames(className.value.text, paramName.value.text), p))
  }

  /** `parse_main`: the header, the commands, and the two closing braces. */
  function ParseMain(ts: seq<Token>, pos: nat): (r: Result<Parsed<Node>, SyntaxError>)
    requires pos <= |ts|
    ensures r.Success? ==> pos + 16 <= r.value.next <= |ts|
    ensures r.Success? ==>
      && r.value.value.Internal? && r.value.value.name == "MAIN"
      && |r.value.value.children| == 3
      && r.value.value.children[0] == Leaf("CLASS", ts[pos + 1].text)
      && r.value.value.children[1] == Leaf("PARAMS", ts[pos + 11].text)
      && r.value.value.children[2].Internal? && r.value.value.children[2].name == "COMMANDS"
  {
    var header :- ParseHeader(ts, pos);
    var commands :- ParseCmds(ts, header.next);
    // the first consume("}") succeeds: parse_cmds stops only at that brace
    var p :- Expect(ts, commands.next + 1, Punctuation, "}");
    Success(Parsed(Internal("MAIN", [Leaf("CLASS", header.value.className), Leaf("PARAMS", header.value.paramName),
                                     Internal("COMMANDS", commands.value)]), p))
  }

  /** `parse_prog`: the main class, then, while the lookahead is the RESERVED
      `class`, a call of `parse_class`, which does not exist and so fails.
      Any other trailing tokens are ignored. */
  function ParseProg(ts: seq<Token>): (r: Result<Node, SyntaxError>)
    ensures r.Success? ==> (r.value.Internal? && r.value.name == "PROG" && |r.value.children| == 1
      && r.value.children[0].Internal? && r.value.children[0].name == "MAIN")
  {
    var main :- ParseMain(ts, 0);
    var t := Lookahead(ts, main.next);
    if IsToken(t, Reserved, "class") then Failure(ClassDeclNotImplemented(t))
    else Success(Internal("PROG", [main.value]))
  }
}
