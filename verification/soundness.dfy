/** Whatever parser.py accepts is the spelling of the tree it returns, and that
    tree is well formed; with Completeness, parse_cmd and parse_cmds accept
    exactly the spellings of well-formed trees. */
module Soundness {
  import opened Wrappers
  import opened Tokens
  import opened Tree
  import opened Parser
  import opened Grammar
  import opened ParseSteps
  import opened Completeness

  /** A command parse_cmd returns is well formed, the tokens it consumed spell
      it, and an open-ended command is never followed by `else`. */
  lemma ParseCmdSound(ts: seq<Token>, pos: nat, c: Node, n: nat)
    requires pos <= |ts| && ParseCmd(ts, pos) == Success(Parsed(c, n))
    ensures SpelledCmd(ts, pos, c, n)
  {
    SoundCmd(ts, pos, c, n);
  }

  /** The commands parse_cmds returns are well formed and spelled by the tokens
      it consumed, and it stops at a `}`. */
  lemma ParseCmdsSound(ts: seq<Token>, pos: nat, cs: seq<Node>, n: nat)
    requires pos <= |ts| && ParseCmds(ts, pos) == Success(Parsed(cs, n))
    ensures SpelledCmds(ts, pos, cs, n)
  {
    SoundCmds(ts, pos, cs, n);
  }

  lemma {:induction false} SoundCmd(ts: seq<Token>, pos: nat, c: Node, n: nat)
    requires pos <= |ts| && ParseCmd(ts, pos) == Success(Parsed(c, n))
    ensures SpelledCmd(ts, pos, c, n)
    decreases |ts| - pos, 1
  {
    CmdInv(ts, pos, c, n);
    var t := ts[pos];
    if IsToken(t, Reserved, "if") {
      SoundIf(ts, pos, c, n);
    } else if IsToken(t, Reserved, "while") {
      SoundWhile(ts, pos, c, n);
    } else if IsToken(t, Reserved, "System.out.println") {
      PrintSpelled(ts, pos);
    } else if t.kind == Identifier {
      AssignmentSpelled(ts, pos);
    } else {
      SoundBlock(ts, pos, c, n);
    }
  }

  lemma {:induction false} SoundIf(ts: seq<Token>, pos: nat, c: Node, n: nat)
    requires pos <= |ts| && ParseIf(ts, pos) == Success(Parsed(c, n))
    ensures SpelledCmd(ts, pos, c, n)
    decreases |ts| - pos, 0
  {
    var e, t, m := IfInv(ts, pos, c, n);
    SoundCmd(ts, pos + 4, t, m);
    var f := ElseInv(ts, m, e, t, c, n);
    if IsElse(Lookahead(ts, m)) {
      SoundCmd(ts, m + 1, f, n);
      IfElseSpelled(ts, pos, e, t, f, m, n);
    } else {
      IfThenSpelled(ts, pos, e, t, n);
    }
  }

  lemma {:induction false} SoundWhile(ts: seq<Token>, pos: nat, c: Node, n: nat)
    requires pos <= |ts| && ParseWhile(ts, pos) == Success(Parsed(c, n))
    ensures SpelledCmd(ts, pos, c, n)
    decreases |ts| - pos, 0
  {
    var e, t := WhileInv(ts, pos, c, n);
    SoundCmd(ts, pos + 4, t, n);
    WhileSpelled(ts, pos, e, t, n);
  }

  lemma {:induction false} SoundBlock(ts: seq<Token>, pos: nat, c: Node, n: nat)
    requires pos < |ts| && IsToken(ts[pos], Punctuation, "{") && ParseBlock(ts, pos) == Success(Parsed(c, n))
    ensures SpelledCmd(ts, pos, c, n)
    decreases |ts| - pos, 0
  {
    var cs := BlockInv(ts, pos, c, n);
    SoundCmds(ts, pos + 1, cs, n - 1);
    BlockSpelled(ts, pos, cs, n - 1);
  }

  lemma {:induction false} SoundCmds(ts: seq<Token>, pos: nat, cs: seq<Node>, n: nat)
    requires pos <= |ts| && ParseCmds(ts, pos) == Success(Parsed(cs, n))
    ensures SpelledCmds(ts, pos, cs, n)
    decreases |ts| - pos, 2
  {
    var m := CmdsInv(ts, pos, cs, n);
    if IsCloseBrace(ts[pos]) {
      CmdsNilSpelled(ts, pos);
    } else {
      SoundCmd(ts, pos, cs[0], m);
      SoundCmds(ts, m, cs[1..], n);
      CmdsConsSpelled(ts, pos, cs[0], m, cs[1..], n);
      assert [cs[0]] + cs[1..] == cs;
    }
  }

  // ------------------------------------------------------------- exactness

  /** parse_cmd returns c, having consumed the tokens up to n, exactly when
      those tokens spell the well-formed command c. */
  lemma ParseCmdExact(ts: seq<Token>, pos: nat, c: Node, n: nat)
    requires pos <= |ts|
    ensures ParseCmd(ts, pos) == Success(Parsed(c, n)) <==> SpelledCmd(ts, pos, c, n)
  {
    if ParseCmd(ts, pos) == Success(Parsed(c, n)) {
      ParseCmdSound(ts, pos, c, n);
    }
    if SpelledCmd(ts, pos, c, n) {
      ParseCmdComplete(ts, pos, c);
    }
  }

  /** parse_cmds returns cs, stopping at n, exactly when the tokens up to n
      spell the well-formed commands cs and a `}` follows. */
  lemma ParseCmdsExact(ts: seq<Token>, pos: nat, cs: seq<Node>, n: nat)
    requires pos <= |ts|
    ensures ParseCmds(ts, pos) == Success(Parsed(cs, n)) <==> SpelledCmds(ts, pos, cs, n)
  {
    if ParseCmds(ts, pos) == Success(Parsed(cs, n)) {
      ParseCmdsSound(ts, pos, cs, n);
    }
    if SpelledCmds(ts, pos, cs, n) {
      ParseCmdsComplete(ts, pos, cs);
    }
  }

  /** The command grammar is unambiguous: tokens spell at most one command from
      a given position, and where it ends is determined too. */
  lemma SpellingUnique(ts: seq<Token>, pos: nat, c1: Node, n1: nat, c2: Node, n2: nat)
    requires SpelledCmd(ts, pos, c1, n1) && SpelledCmd(ts, pos, c2, n2)
    ensures c1 == c2 && n1 == n2
  {
    ParseCmdComplete(ts, pos, c1);
    ParseCmdComplete(ts, pos, c2);
  }
}
