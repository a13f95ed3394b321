/** parser.py reads back every well-formed tree from its spelling. */
module Completeness {
  import opened Wrappers
  import opened Tokens
  import opened Tree
  import opened Parser
  import opened Grammar
  import opened ParseSteps

  /** parse_cmd reads back every well-formed command from its spelling, as long
      as an open-ended command is not followed by `else`. */
  lemma ParseCmdComplete(ts: seq<Token>, pos: nat, c: Node)
    requires WfCmd(c) && Spells(ts, pos, UnparseCmd(c))
    requires OpenEnded(c) ==> !IsElse(Lookahead(ts, pos + |UnparseCmd(c)|))
    ensures ParseCmd(ts, pos) == Success(Parsed(c, pos + |UnparseCmd(c)|))
  {
    ReadCmd(ts, pos, c, pos + |UnparseCmd(c)|);
  }

  /** ParseCmdComplete with the end of the spelling named, so that the proof
      never has to identify two positions by arithmetic inside a lookahead. */
  lemma {:induction false} ReadCmd(ts: seq<Token>, pos: nat, c: Node, end: nat)
    requires WfCmd(c) && Spells(ts, pos, UnparseCmd(c)) && end == pos + |UnparseCmd(c)|
    requires OpenEnded(c) ==> !IsElse(Lookahead(ts, end))
    ensures ParseCmd(ts, pos) == Success(Parsed(c, end))
    decreases c, 2
  {
    if c.name == "IF" && |c.children| == 3 {
      ReadIfElse(ts, pos, c, end);
    } else if c.name == "IF" || c.name == "WHILE" {
      ReadGuarded(ts, pos, c, end);
    } else if c.name == "PRINT" {
      PrintComplete(ts, pos, c);
    } else if c.name == "ASSIGNMENT" {
      AssignmentComplete(ts, pos, c);
    } else {
      ReadBlock(ts, pos, c, end);
    }
  }

  lemma {:induction false} ReadGuarded(ts: seq<Token>, pos: nat, c: Node, end: nat)
    requires WfCmd(c) && (c.name == "IF" || c.name == "WHILE") && |c.children| == 2
    requires Spells(ts, pos, UnparseCmd(c)) && end == pos + |UnparseCmd(c)|
    requires OpenEnded(c) ==> !IsElse(Lookahead(ts, end))
    ensures ParseCmd(ts, pos) == Success(Parsed(c, end))
    decreases c, 1
  {
    GuardedSpelling(ts, pos, c);
    ReadCmd(ts, pos + 4, c.children[1], end);
    if c.name == "IF" {
      IfThenStep(ts, pos, c, end);
    } else {
      WhileStep(ts, pos, c, end);
    }
  }

  lemma {:induction false} ReadIfElse(ts: seq<Token>, pos: nat, c: Node, end: nat)
    requires WfCmd(c) && c.name == "IF" && |c.children| == 3
    requires Spells(ts, pos, UnparseCmd(c)) && end == pos + |UnparseCmd(c)|
    requires OpenEnded(c) ==> !IsElse(Lookahead(ts, end))
    ensures ParseCmd(ts, pos) == Success(Parsed(c, end))
    decreases c, 1
  {
    var n := pos + 4 + |UnparseCmd(c.children[1])|;
    GuardedSpelling(ts, pos, c);
    ElseSpelling(ts, pos, c, n);
    ReadCmd(ts, pos + 4, c.children[1], n);
    ReadCmd(ts, n + 1, c.children[2], end);
    IfElseStep(ts, pos, c, n, end);
  }

  lemma {:induction false} ReadBlock(ts: seq<Token>, pos: nat, c: Node, end: nat)
    requires WfCmd(c) && c.name == "BLOCK"
    requires Spells(ts, pos, UnparseCmd(c)) && end == pos + |UnparseCmd(c)|
    ensures ParseCmd(ts, pos) == Success(Parsed(c, end))
    decreases c, 1
  {
    BlockSpelling(ts, pos, c);
    ReadCmds(ts, pos + 1, c.children, end - 1);
    BlockStep(ts, pos, c.children, end - 1);
  }

  /** parse_cmds reads back a well-formed command sequence from its spelling
      followed by `}`, and stops at that brace. */
  lemma ParseCmdsComplete(ts: seq<Token>, pos: nat, cs: seq<Node>)
    requires WfCmds(cs) && Spells(ts, pos, UnparseCmds(cs) + [RBrace])
    ensures ParseCmds(ts, pos) == Success(Parsed(cs, pos + |UnparseCmds(cs)|))
  {
    ReadCmds(ts, pos, cs, pos + |UnparseCmds(cs)|);
  }

  lemma {:induction false} ReadCmds(ts: seq<Token>, pos: nat, cs: seq<Node>, stop: nat)
    requires WfCmds(cs) && Spells(ts, pos, UnparseCmds(cs) + [RBrace]) && stop == pos + |UnparseCmds(cs)|
    ensures ParseCmds(ts, pos) == Success(Parsed(cs, stop))
    decreases cs, 3
  {
    CmdsThenBrace(ts, pos, cs);
    if cs == [] {
      CmdsEndStep(ts, pos);
    } else {
      var n := pos + |UnparseCmd(cs[0])|;
      CmdsSpelling(ts, pos, cs, n);
      CmdsThenBrace(ts, n, cs[1..]);
      ReadCmd(ts, pos, cs[0], n);
      ReadCmds(ts, n, cs[1..], stop);
      CmdsStep(ts, pos, cs, n, stop);
    }
  }

  lemma PrintComplete(ts: seq<Token>, pos: nat, c: Node)
    requires WfCmd(c) && c.name == "PRINT" && Spells(ts, pos, UnparseCmd(c))
    ensures ParseCmd(ts, pos) == Success(Parsed(c, pos + |UnparseCmd(c)|))
  {
    var u := UnparseCmd(c);
    assert u == [u[0], u[1], u[2], u[3]] + [u[4]];
    SpellsAppend(ts, pos, [u[0], u[1], u[2], u[3]], [u[4]]);
    SpellsFour(ts, pos, u[0], u[1], u[2], u[3]);
    SpellsOne(ts, pos + 4, u[4]);
    ExpRoundTrip(ts[pos + 2], c.children[0]);
    assert c == Internal("PRINT", [c.children[0]]);
  }

  lemma AssignmentComplete(ts: seq<Token>, pos: nat, c: Node)
    requires WfCmd(c) && c.name == "ASSIGNMENT" && Spells(ts, pos, UnparseCmd(c))
    ensures ParseCmd(ts, pos) == Success(Parsed(c, pos + |UnparseCmd(c)|))
  {
    var u := UnparseCmd(c);
    SpellsFour(ts, pos, u[0], u[1], u[2], u[3]);
    ExpRoundTrip(ts[pos + 2], c.children[1]);
    assert c == Internal("ASSIGNMENT", [Leaf("IDENTIFIER", ts[pos].text), c.children[1]]);
  }
}
