/** How parser.py's functions evaluate on given tokens, one step at a time:
    each lemma unfolds one parsing function, given what its callees return. */
module ParseSteps {
  import opened Wrappers
  import opened Tokens
  import opened Tree
  import opened Parser
  import opened Grammar

  /** parse_if, parse_while and parse_print all open with `keyword ( exp )`. */
  lemma GuardParses(ts: seq<Token>, pos: nat, keyword: string, e: Node)
    requires GuardedTokens(ts, pos, keyword, e)
    ensures ParseGuard(ts, pos, keyword) == Success(Parsed(e, pos + 4))
  {
  }

  lemma IfThenStep(ts: seq<Token>, pos: nat, c: Node, n: nat)
    requires c.Internal? && c.name == "IF" && |c.children| == 2
    requires GuardedTokens(ts, pos, "if", c.children[0])
    requires ParseCmd(ts, pos + 4) == Success(Parsed(c.children[1], n)) && !IsElse(Lookahead(ts, n))
    ensures ParseCmd(ts, pos) == Success(Parsed(c, n))
  {
    GuardParses(ts, pos, "if", c.children[0]);
    IfThenParse(ts, pos, c.children[0], c.children[1], pos + 4, n);
    assert c == Internal("IF", [c.children[0], c.children[1]]);
    GuardedStep(ts, pos, c, n);
  }

  lemma IfElseStep(ts: seq<Token>, pos: nat, c: Node, n: nat, m: nat)
    requires c.Internal? && c.name == "IF" && |c.children| == 3
    requires GuardedTokens(ts, pos, "if", c.children[0])
    requires ParseCmd(ts, pos + 4) == Success(Parsed(c.children[1], n))
    requires n < |ts| && IsElse(ts[n]) && ParseCmd(ts, n + 1) == Success(Parsed(c.children[2], m))
    ensures ParseCmd(ts, pos) == Success(Parsed(c, m))
  {
    GuardParses(ts, pos, "if", c.children[0]);
    IfElseParse(ts, pos, c.children[0], c.children[1], c.children[2], pos + 4, n, m);
    assert c == Internal("IF", [c.children[0], c.children[1], c.children[2]]);
    GuardedStep(ts, pos, c, m);
  }

  lemma WhileStep(ts: seq<Token>, pos: nat, c: Node, n: nat)
    requires c.Internal? && c.name == "WHILE" && |c.children| == 2
    requires GuardedTokens(ts, pos, "while", c.children[0])
    requires ParseCmd(ts, pos + 4) == Success(Parsed(c.children[1], n))
    ensures ParseCmd(ts, pos) == Success(Parsed(c, n))
  {
    GuardParses(ts, pos, "while", c.children[0]);
    WhileParse(ts, pos, c.children[0], c.children[1], pos + 4, n);
    assert c == Internal("WHILE", [c.children[0], c.children[1]]);
    GuardedStep(ts, pos, c, n);
  }

  /** parse_cmd hands an `if` lookahead to parse_if and a `while` one to parse_while. */
  lemma GuardedStep(ts: seq<Token>, pos: nat, c: Node, n: nat)
    requires c.Internal? && (c.name == "IF" || c.name == "WHILE") && pos < |ts|
    requires IsToken(ts[pos], Reserved, if c.name == "IF" then "if" else "while")
    requires c.name == "IF" ==> ParseIf(ts, pos) == Success(Parsed(c, n))
    requires c.name == "WHILE" ==> ParseWhile(ts, pos) == Success(Parsed(c, n))
    ensures ParseCmd(ts, pos) == Success(Parsed(c, n))
  {
  }

  /** parse_if reads the guard and the then-command, and leaves the rest to ParseElse. */
  lemma IfHead(ts: seq<Token>, pos: nat, e: Node, t: Node, p: nat, n: nat)
    requires p == pos + 4 && p <= |ts| && ParseGuard(ts, pos, "if") == Success(Parsed(e, p))
    requires ParseCmd(ts, p) == Success(Parsed(t, n))
    ensures ParseIf(ts, pos) == ParseElse(ts, n, e, t)
  {
  }

  lemma IfThenParse(ts: seq<Token>, pos: nat, e: Node, t: Node, p: nat, n: nat)
    requires p == pos + 4 && p <= |ts| && ParseGuard(ts, pos, "if") == Success(Parsed(e, p))
    requires ParseCmd(ts, p) == Success(Parsed(t, n)) && !IsElse(Lookahead(ts, n))
    ensures ParseIf(ts, pos) == Success(Parsed(Internal("IF", [e, t]), n))
  {
    IfHead(ts, pos, e, t, p, n);
  }

  lemma ElseParse(ts: seq<Token>, e: Node, t: Node, f: Node, n: nat, m: nat)
    requires n < |ts| && IsElse(ts[n]) && ParseCmd(ts, n + 1) == Success(Parsed(f, m))
    ensures ParseElse(ts, n, e, t) == Success(Parsed(Internal("IF", [e, t, f]), m))
  {
  }

  lemma IfElseParse(ts: seq<Token>, pos: nat, e: Node, t: Node, f: Node, p: nat, n: nat, m: nat)
    requires p == pos + 4 && p <= |ts| && ParseGuard(ts, pos, "if") == Success(Parsed(e, p))
    requires ParseCmd(ts, p) == Success(Parsed(t, n))
    requires n < |ts| && IsElse(ts[n]) && ParseCmd(ts, n + 1) == Success(Parsed(f, m))
    ensures ParseIf(ts, pos) == Success(Parsed(Internal("IF", [e, t, f]), m))
  {
    IfHead(ts, pos, e, t, p, n);
    ElseParse(ts, e, t, f, n, m);
  }

  lemma WhileParse(ts: seq<Token>, pos: nat, e: Node, t: Node, p: nat, n: nat)
    requires p == pos + 4 && p <= |ts| && ParseGuard(ts, pos, "while") == Success(Parsed(e, p))
    requires ParseCmd(ts, p) == Success(Parsed(t, n))
    ensures ParseWhile(ts, pos) == Success(Parsed(Internal("WHILE", [e, t]), n))
  {
  }

  lemma BlockStep(ts: seq<Token>, pos: nat, cs: seq<Node>, n: nat)
    requires pos < |ts| && IsToken(ts[pos], Punctuation, "{")
    requires ParseCmds(ts, pos + 1) == Success(Parsed(cs, n))
    ensures ParseCmd(ts, pos) == Success(Parsed(Internal("BLOCK", cs), n + 1))
  {
    BlockParse(ts, pos, cs, n);
  }

  lemma BlockParse(ts: seq<Token>, pos: nat, cs: seq<Node>, n: nat)
    requires pos < |ts| && ParseCmds(ts, pos + 1) == Success(Parsed(cs, n))
    ensures ParseBlock(ts, pos) == Success(Parsed(Internal("BLOCK", cs), n + 1))
  {
  }

  lemma CmdsEndStep(ts: seq<Token>, pos: nat)
    requires pos < |ts| && IsCloseBrace(ts[pos])
    ensures ParseCmds(ts, pos) == Success(Parsed([], pos))
  {
  }

  lemma CmdsStep(ts: seq<Token>, pos: nat, cs: seq<Node>, n: nat, m: nat)
    requires pos < |ts| && !IsCloseBrace(ts[pos]) && cs != []
    requires ParseCmd(ts, pos) == Success(Parsed(cs[0], n))
    requires ParseCmds(ts, n) == Success(Parsed(cs[1..], m))
    ensures ParseCmds(ts, pos) == Success(Parsed(cs, m))
  {
    assert [cs[0]] + cs[1..] == cs;
  }

  // -------------------------------------------------------------- inversions

  /** What parse_cmd returns is what the branch its lookahead selects returns. */
  lemma CmdInv(ts: seq<Token>, pos: nat, c: Node, n: nat)
    requires pos <= |ts| && ParseCmd(ts, pos) == Success(Parsed(c, n))
    ensures pos < |ts| && StartsCommand(ts[pos])
    ensures IsToken(ts[pos], Reserved, "if") ==> ParseIf(ts, pos) == Success(Parsed(c, n))
    ensures IsToken(ts[pos], Reserved, "while") ==> ParseWhile(ts, pos) == Success(Parsed(c, n))
    ensures IsToken(ts[pos], Reserved, "System.out.println") ==> ParsePrint(ts, pos) == Success(Parsed(c, n))
    ensures ts[pos].kind == Identifier ==> ParseAssignment(ts, pos) == Success(Parsed(c, n))
    ensures IsToken(ts[pos], Punctuation, "{") ==> ParseBlock(ts, pos) == Success(Parsed(c, n))
  {
  }

  /** A successful parse_if read a guard, then a command ending at m, then
      whatever ParseElse made of the rest. */
  lemma IfInv(ts: seq<Token>, pos: nat, c: Node, n: nat) returns (e: Node, t: Node, m: nat)
    requires pos <= |ts| && ParseIf(ts, pos) == Success(Parsed(c, n))
    ensures GuardedTokens(ts, pos, "if", e)
    ensures ParseCmd(ts, pos + 4) == Success(Parsed(t, m)) && m <= |ts|
    ensures ParseElse(ts, m, e, t) == Success(Parsed(c, n))
  {
    e := ParseGuard(ts, pos, "if").value.value;
    t := ParseCmd(ts, pos + 4).value.value;
    m := ParseCmd(ts, pos + 4).value.next;
  }

  /** ParseElse either stops before a token other than `else`, or reads the
      `else` and one more command. */
  lemma ElseInv(ts: seq<Token>, m: nat, e: Node, t: Node, c: Node, n: nat) returns (f: Node)
    requires m <= |ts| && ParseElse(ts, m, e, t) == Success(Parsed(c, n))
    ensures !IsElse(Lookahead(ts, m)) ==> c == Internal("IF", [e, t]) && n == m
    ensures IsElse(Lookahead(ts, m)) ==>
      m < |ts| && IsElse(ts[m]) && c == Internal("IF", [e, t, f]) && ParseCmd(ts, m + 1) == Success(Parsed(f, n))
  {
    f := if IsElse(Lookahead(ts, m)) then ParseCmd(ts, m + 1).value.value else e;
  }

  /** The tail of parse_if: without a following `else` the IF is finished with
      two children and nothing is consumed; with `else`, a third child follows and
      the `else` is consumed. The condition and then-command come first either way. */
  lemma ElseShape(ts: seq<Token>, pos: nat, cond: Node, thenCmd: Node)
    requires pos <= |ts|
    ensures !IsElse(Lookahead(ts, pos)) ==> ParseElse(ts, pos, cond, thenCmd) == Success(Parsed(Internal("IF", [cond, thenCmd]), pos))
    ensures var r := ParseElse(ts, pos, cond, thenCmd);
      r.Success? ==> var c := r.value.value;
        && c.Internal? && c.name == "IF" && 2 <= |c.children| <= 3
        && c.children[0] == cond && c.children[1] == thenCmd
        && (|c.children| == 3 <==> IsElse(Lookahead(ts, pos)))
    ensures var r := ParseElse(ts, pos, cond, thenCmd);
      r.Success? && IsElse(Lookahead(ts, pos)) ==> pos + 1 < r.value.next
  {
  }

  /** parse_if builds an IF with an else branch exactly when the token after
      its then-command is the RESERVED `else`. */
  lemma IfArity(ts: seq<Token>, pos: nat, c: Node, n: nat) returns (m: nat)
    requires pos <= |ts| && ParseIf(ts, pos) == Success(Parsed(c, n))
    ensures pos + 4 <= |ts| && ParseCmd(ts, pos + 4).Success? && m == ParseCmd(ts, pos + 4).value.next
    ensures c.Internal? && c.name == "IF"
    ensures |c.children| == 3 <==> IsElse(Lookahead(ts, m))
    ensures |c.children| == 2 <==> !IsElse(Lookahead(ts, m))
  {
    var e, t, m0 := IfInv(ts, pos, c, n);
    m := m0;
    var f := ElseInv(ts, m, e, t, c, n);
  }

  lemma WhileInv(ts: seq<Token>, pos: nat, c: Node, n: nat) returns (e: Node, t: Node)
    requires pos <= |ts| && ParseWhile(ts, pos) == Success(Parsed(c, n))
    ensures GuardedTokens(ts, pos, "while", e)
    ensures ParseCmd(ts, pos + 4) == Success(Parsed(t, n)) && c == Internal("WHILE", [e, t])
  {
    e := ParseGuard(ts, pos, "while").value.value;
    t := ParseCmd(ts, pos + 4).value.value;
  }

  lemma BlockInv(ts: seq<Token>, pos: nat, c: Node, n: nat) returns (cs: seq<Node>)
    requires pos < |ts| && ParseBlock(ts, pos) == Success(Parsed(c, n))
    ensures 0 < n && ParseCmds(ts, pos + 1) == Success(Parsed(cs, n - 1)) && c == Internal("BLOCK", cs)
  {
    cs := ParseCmds(ts, pos + 1).value.value;
  }

  /** parse_cmds stops at a `}` with nothing read, or reads one command, ending
      at m, and then the rest. */
  lemma CmdsInv(ts: seq<Token>, pos: nat, cs: seq<Node>, n: nat) returns (m: nat)
    requires pos <= |ts| && ParseCmds(ts, pos) == Success(Parsed(cs, n))
    ensures pos < |ts|
    ensures IsCloseBrace(ts[pos]) ==> cs == [] && n == pos
    ensures !IsCloseBrace(ts[pos]) ==>
      && cs != [] && pos < m <= |ts| && ParseCmd(ts, pos) == Success(Parsed(cs[0], m))
      && ParseCmds(ts, m) == Success(Parsed(cs[1..], n))
  {
    m := if IsCloseBrace(ts[pos]) then pos + 1 else ParseCmd(ts, pos).value.next;
  }
}
