/** The tokenizer of lexer.py: an ordered list of category patterns tried at
    every scan position (first alternative wins, across and within categories),
    followed by the loop that drops whitespace and comments, keeps line/column
    bookkeeping and rejects unmatched characters.

    Each regular expression of TOKEN_SPECIFICATION is a hand-written matcher
    over ASCII: it returns the length of the text the pattern matches at a
    position, or None. */
module Lexer {
  import opened Wrappers
  import opened Tokens

  // ---------------------------------------------------------------- classes

  predicate IsLetter(c: char) { 'a' <= c <= 'z' || 'A' <= c <= 'Z' }

  predicate IsDigit(c: char) { '0' <= c <= '9' }

  /** `\w` restricted to ASCII: the characters `\b` distinguishes. */
  predicate IsWordChar(c: char) { IsLetter(c) || IsDigit(c) || c == '_' }

  /** `[a-zA-Z_]`, the first character of an identifier. */
  predicate IsIdentStart(c: char) { IsLetter(c) || c == '_' }

  /** `[ \n\t\r\f]` */
  predicate IsSpace(c: char) { c == ' ' || c == '\n' || c == '\t' || c == '\r' || c == '\U{C}' }

  /** A printable ASCII character other than the space. */
  predicate IsVisible(c: char) { '!' <= c <= '~' }

  /** `.` without DOTALL: anything but a line feed. */
  predicate NotNewline(c: char) { c != '\n' }

  /** `\b` at offset i: exactly one of the neighbours is a word character. */
  predicate AtBoundary(s: string, i: nat)
    requires i <= |s|
  {
    (0 < i && IsWordChar(s[i - 1])) != (i < |s| && IsWordChar(s[i]))
  }

  /** No line feed in s[i..e]. */
  predicate NoLineFeed(s: string, i: nat, e: nat)
    requires i <= e <= |s|
  {
    forall p :: i <= p < e ==> s[p] != '\n'
  }

  predicate LiteralAt(s: string, i: nat, lit: string)
    requires i <= |s|
  {
    i + |lit| <= |s| && s[i..i + |lit|] == lit
  }

  /** Greedy `p*` starting at j: the length of the longest run of characters satisfying p. */
  function RunLength(s: string, j: nat, p: char -> bool): (n: nat)
    requires j <= |s|
    decreases |s| - j
    ensures j + n <= |s|
    ensures forall k :: j <= k < j + n ==> p(s[k])
    ensures j + n == |s| || !p(s[j + n])
  {
    if j < |s| && p(s[j]) then 1 + RunLength(s, j + 1, p) else 0
  }

  // ----------------------------------------------------------- alternations

  /** The alternatives of the RESERVED group, in the order the pattern lists them. */
  const Keywords: seq<string> :=
    ["boolean", "class", "extends", "public", "static", "void", "main", "String",
     "return", "int", "if", "else", "while", "System.out.println", "length",
     "true", "false", "this", "new", "null"]

  /** The alternatives of the OPERATOR group, in the order the pattern lists them. */
  const Operators: seq<string> :=
    ["+", "-", "*", "&&", "!", "<", ">", ">=", "<=", "==", "!="]

  /** The character class of the PUNCTUATION group. */
  const PunctuationChars: string := "(),;.[]{}="

  /** Every alternative of RESERVED and OPERATOR is a non-empty run of visible characters. */
  lemma AlternativesVisible()
    ensures forall k :: 0 <= k < |Keywords| ==> Keywords[k] != [] && forall j :: 0 <= j < |Keywords[k]| ==> IsVisible(Keywords[k][j])
    ensures forall k :: 0 <= k < |Operators| ==> Operators[k] != [] && forall j :: 0 <= j < |Operators[k]| ==> IsVisible(Operators[k][j])
  {
  }

  /** The text a visible literal matched is visible. */
  lemma LiteralVisible(s: string, i: nat, lit: string)
    requires i <= |s| && LiteralAt(s, i, lit)
    requires forall j :: 0 <= j < |lit| ==> IsVisible(lit[j])
    ensures forall p :: i <= p < i + |lit| ==> IsVisible(s[p])
  {
    forall p | i <= p < i + |lit| ensures IsVisible(s[p]) {
      assert s[p] == lit[p - i];
    }
  }

  /** Alternative `lit` succeeds at i; a whole-word alternative must also be followed by `\b`. */
  predicate AltAt(s: string, i: nat, lit: string, wholeWord: bool)
    requires i <= |s|
  {
    LiteralAt(s, i, lit) && (wholeWord ==> AtBoundary(s, i + |lit|))
  }

  /** Regex alternation from alternative k on: the index of the FIRST alternative
      that succeeds at i, not the longest one. */
  function FirstAlt(s: string, i: nat, alts: seq<string>, wholeWord: bool, k: nat): (r: Option<nat>)
    requires i <= |s| && k <= |alts|
    decreases |alts| - k
    ensures r.Some? ==> k <= r.value < |alts|
  {
    if k == |alts| then None
    else if AltAt(s, i, alts[k], wholeWord) then Some(k)
    else FirstAlt(s, i, alts, wholeWord, k + 1)
  }

  /** FirstAlt returns an alternative that succeeds and none before it does;
      None means that no alternative succeeds. (Kept out of FirstAlt's own
      contract, so that the keyword list is only indexed where a proof asks.) */
  lemma {:induction false} FirstAltSpec(s: string, i: nat, alts: seq<string>, wholeWord: bool, k: nat)
    requires i <= |s| && k <= |alts|
    decreases |alts| - k
    ensures var r := FirstAlt(s, i, alts, wholeWord, k);
      && (r.Some? ==> AltAt(s, i, alts[r.value], wholeWord))
      && (r.Some? ==> forall j :: k <= j < r.value ==> !AltAt(s, i, alts[j], wholeWord))
      && (r.None? ==> forall j :: k <= j < |alts| ==> !AltAt(s, i, alts[j], wholeWord))
  {
    if k < |alts| && !AltAt(s, i, alts[k], wholeWord) {
      FirstAltSpec(s, i, alts, wholeWord, k + 1);
    }
  }

  // -------------------------------------------------------------- matchers

  /** An alternation of literals as a pattern, from alternative k on: the
      length of the first alternative that succeeds at i. */
  function MatchAlts(s: string, i: nat, alts: seq<string>, wholeWord: bool, k: nat): (r: Option<nat>)
    requires i <= |s| && k <= |alts|
    decreases |alts| - k
  {
    if k == |alts| then None
    else if AltAt(s, i, alts[k], wholeWord) then Some(|alts[k]|)
    else MatchAlts(s, i, alts, wholeWord, k + 1)
  }

  /** MatchAlts matches the alternative FirstAlt picks, and nothing when it picks none. */
  lemma {:induction false} MatchAltsFirst(s: string, i: nat, alts: seq<string>, wholeWord: bool, k: nat)
    requires i <= |s| && k <= |alts|
    decreases |alts| - k
    ensures var f := FirstAlt(s, i, alts, wholeWord, k);
      && (f.None? <==> MatchAlts(s, i, alts, wholeWord, k).None?)
      && (f.Some? ==> MatchAlts(s, i, alts, wholeWord, k) == Some(|alts[f.value]|))
  {
    if k < |alts| && !AltAt(s, i, alts[k], wholeWord) {
      MatchAltsFirst(s, i, alts, wholeWord, k + 1);
    }
  }

  /** What MatchAlts matches spells the alternative FirstAlt picked. */
  lemma MatchAltsSpells(s: string, i: nat, alts: seq<string>, wholeWord: bool)
    requires i <= |s| && MatchAlts(s, i, alts, wholeWord, 0).Some?
    ensures FirstAlt(s, i, alts, wholeWord, 0).Some?
    ensures var lit := alts[FirstAlt(s, i, alts, wholeWord, 0).value];
      && MatchAlts(s, i, alts, wholeWord, 0).value == |lit| && i + |lit| <= |s| && s[i..i + |lit|] == lit
      && (wholeWord ==> AtBoundary(s, i + |lit|))
  {
    MatchAltsFirst(s, i, alts, wholeWord, 0);
    FirstAltSpec(s, i, alts, wholeWord, 0);
  }

  /** What an alternation of non-empty visible literals matches is non-empty and visible. */
  lemma AltsVisible(s: string, i: nat, alts: seq<string>, wholeWord: bool)
    requires i <= |s|
    requires forall k :: 0 <= k < |alts| ==> alts[k] != [] && forall j :: 0 <= j < |alts[k]| ==> IsVisible(alts[k][j])
    ensures var r := MatchAlts(s, i, alts, wholeWord, 0);
      r.Some? ==> 0 < r.value <= |s| - i && forall p :: i <= p < i + r.value ==> IsVisible(s[p])
  {
    if MatchAlts(s, i, alts, wholeWord, 0).Some? {
      MatchAltsSpells(s, i, alts, wholeWord);
      LiteralVisible(s, i, alts[FirstAlt(s, i, alts, wholeWord, 0).value]);
    }
  }

  /** `\b(?:boolean|class|...|null)\b` */
  function MatchReserved(s: string, i: nat): (r: Option<nat>)
    requires i < |s|
    ensures r.Some? ==> 0 < r.value <= |s| - i
    ensures r.Some? ==> forall p :: i <= p < i + r.value ==> IsVisible(s[p])
  {
    if !AtBoundary(s, i) then None
    else
      AlternativesVisible();
      AltsVisible(s, i, Keywords, true);
      MatchAlts(s, i, Keywords, true, 0)
  }

  /** RESERVED matches at i exactly when i is a word boundary and some keyword
      occurs at i as a whole word. */
  lemma ReservedWhenKeyword(s: string, i: nat)
    requires i < |s|
    ensures MatchReserved(s, i).Some? <==> AtBoundary(s, i) && exists k :: 0 <= k < |Keywords| && AltAt(s, i, Keywords[k], true)
  {
    FirstAltSpec(s, i, Keywords, true, 0);
    MatchAltsFirst(s, i, Keywords, true, 0);
    var f := FirstAlt(s, i, Keywords, true, 0);
    if f.Some? {
      assert AltAt(s, i, Keywords[f.value], true);
    }
  }

  /** `[a-zA-Z_][a-zA-Z0-9_]*` */
  function MatchIdentifier(s: string, i: nat): (r: Option<nat>)
    requires i < |s|
    ensures r.Some? <==> IsIdentStart(s[i])
    ensures r.Some? ==> 0 < r.value <= |s| - i
    ensures r.Some? ==> forall k :: i <= k < i + r.value ==> IsWordChar(s[k])
    ensures r.Some? ==> i + r.value == |s| || !IsWordChar(s[i + r.value])
  {
    if IsIdentStart(s[i]) then Some(1 + RunLength(s, i + 1, IsWordChar)) else None
  }

  /** The backtracking of `\d+\b`: try the digit run of length k, then k-1, ..., 1. */
  function BacktrackDigits(s: string, i: nat, k: nat): (r: Option<nat>)
    requires i + k <= |s|
    ensures r.Some? ==> 0 < r.value <= k && AtBoundary(s, i + r.value)
    ensures r.Some? ==> forall p :: i + r.value < p <= i + k ==> !AtBoundary(s, p)
    ensures r.None? ==> forall p :: i < p <= i + k ==> !AtBoundary(s, p)
  {
    if k == 0 then None
    else if AtBoundary(s, i + k) then Some(k)
    else BacktrackDigits(s, i, k - 1)
  }

  /** `\b\d+\b`: no boundary falls inside a run of digits, so the match is the
      whole run, and only when a boundary also follows it. */
  function MatchNumber(s: string, i: nat): (r: Option<nat>)
    requires i < |s|
    ensures r.Some? <==> AtBoundary(s, i) && IsDigit(s[i]) && AtBoundary(s, i + RunLength(s, i, IsDigit))
    ensures r.Some? ==> r.value == RunLength(s, i, IsDigit)
    ensures r.Some? ==> 0 < r.value <= |s| - i
    ensures r.Some? ==> forall p :: i <= p < i + r.value ==> IsDigit(s[p])
  {
    if AtBoundary(s, i) && IsDigit(s[i]) then BacktrackDigits(s, i, RunLength(s, i, IsDigit))
    else None
  }

  /** `(\+|-|\*|&&|!|<|>|>=|<=|==|!=)` */
  function MatchOperator(s: string, i: nat): (r: Option<nat>)
    requires i < |s|
    ensures r.Some? ==> 0 < r.value <= |s| - i
    ensures r.Some? ==> forall p :: i <= p < i + r.value ==> IsVisible(s[p])
  {
    AlternativesVisible();
    AltsVisible(s, i, Operators, false);
    MatchAlts(s, i, Operators, false, 0)
  }

  /** `[(),;.\[\]{}=]` */
  function MatchPunctuation(s: string, i: nat): (r: Option<nat>)
    requires i < |s|
    ensures r.Some? <==> s[i] in PunctuationChars
    ensures r.Some? ==> r.value == 1
  {
    if s[i] in PunctuationChars then Some(1) else None
  }

  /** `[ \n\t\r\f]+` */
  function MatchWhitespace(s: string, i: nat): (r: Option<nat>)
    requires i < |s|
    ensures r.Some? <==> IsSpace(s[i])
    ensures r.Some? ==> 0 < r.value <= |s| - i
    ensures r.Some? ==> forall k :: i <= k < i + r.value ==> IsSpace(s[k])
    ensures r.Some? ==> i + r.value == |s| || !IsSpace(s[i + r.value])
  {
    var n := RunLength(s, i, IsSpace);
    if n > 0 then Some(n) else None
  }

  // The lazy `.*?\*/` after a block-comment opener: the offset just past the
  // first star-slash at or after j, provided no line feed comes before it.
  function BlockClose(s: string, j: nat): (r: Option<nat>)
    requires j <= |s|
    decreases |s| - j
    ensures r.Some? ==> j + 2 <= r.value <= |s| && LiteralAt(s, r.value - 2, "*/")
    ensures r.Some? ==> forall k :: j <= k < r.value - 2 ==> s[k] != '\n' && !LiteralAt(s, k, "*/")
  {
    if LiteralAt(s, j, "*/") then Some(j + 2)
    else if j < |s| && s[j] != '\n' then BlockClose(s, j + 1)
    else None
  }

  // The lazy `.*?\*/` succeeds exactly when a close lies ahead on the line.
  lemma {:induction false} BlockCloseExact(s: string, j: nat)
    requires j <= |s|
    decreases |s| - j
    ensures BlockClose(s, j).Some? <==> ClosedOnLine(s, j)
  {
    if LiteralAt(s, j, "*/") {
      assert NoLineFeed(s, j, j);
    } else if j < |s| && s[j] != '\n' {
      ClosedOnLineStep(s, j);
      BlockCloseExact(s, j + 1);
    } else {
      NotClosedAtBreak(s, j);
    }
  }

  /** Some `*` `/` pair starts at or after j with no line feed before it. */
  predicate ClosedOnLine(s: string, j: nat)
    requires j <= |s|
  {
    exists k :: j <= k <= |s| && LiteralAt(s, k, "*/") && NoLineFeed(s, j, k)
  }

  /** Past a character that neither closes nor breaks the line, a close lies
      ahead from j exactly when it lies ahead from j + 1. */
  lemma ClosedOnLineStep(s: string, j: nat)
    requires j < |s| && s[j] != '\n' && !LiteralAt(s, j, "*/")
    ensures ClosedOnLine(s, j) <==> ClosedOnLine(s, j + 1)
  {
    if ClosedOnLine(s, j) {
      var k :| j <= k <= |s| && LiteralAt(s, k, "*/") && NoLineFeed(s, j, k);
      assert k != j;
      assert NoLineFeed(s, j + 1, k);
    }
    if ClosedOnLine(s, j + 1) {
      var k :| j + 1 <= k <= |s| && LiteralAt(s, k, "*/") && NoLineFeed(s, j + 1, k);
      assert NoLineFeed(s, j, k);
    }
  }

  /** At a line feed or at the end, with no close right here, no close lies ahead. */
  lemma NotClosedAtBreak(s: string, j: nat)
    requires j <= |s| && !LiteralAt(s, j, "*/") && (j == |s| || s[j] == '\n')
    ensures !ClosedOnLine(s, j)
  {
  }

  // `//.*|/\*.*?\*/`
  function MatchComment(s: string, i: nat): (r: Option<nat>)
    requires i < |s|
    ensures LiteralAt(s, i, "//") ==> r == Some(2 + RunLength(s, i + 2, NotNewline))
    ensures !LiteralAt(s, i, "//") && LiteralAt(s, i, "/*") ==>
      (r.Some? <==> ClosedOnLine(s, i + 2)) && (r.Some? ==> BlockClose(s, i + 2).Some? && i + r.value == BlockClose(s, i + 2).value)
    ensures !LiteralAt(s, i, "//") && !LiteralAt(s, i, "/*") ==> r.None?
    ensures r.Some? ==> 2 <= r.value <= |s| - i
    ensures r.Some? ==> forall k :: i <= k < i + r.value ==> s[k] != '\n'
  {
    if LiteralAt(s, i, "//") then
      LineCommentSpan(s, i);
      Some(2 + RunLength(s, i + 2, NotNewline))
    else if LiteralAt(s, i, "/*") then
      BlockCloseExact(s, i + 2);
      match BlockClose(s, i + 2)
      case Some(e) =>
        BlockCommentSpan(s, i, e);
        Some(e - i)
      case None => None
    else None
  }

  /** A line comment holds no line feed. */
  lemma LineCommentSpan(s: string, i: nat)
    requires i < |s| && LiteralAt(s, i, "//")
    ensures forall k :: i <= k < i + 2 + RunLength(s, i + 2, NotNewline) ==> s[k] != '\n'
  {
    assert s[i..i + 2][0] == s[i] && s[i..i + 2][1] == s[i + 1];
  }

  /** A block comment closed by BlockClose holds no line feed. */
  lemma BlockCommentSpan(s: string, i: nat, e: nat)
    requires i < |s| && LiteralAt(s, i, "/*") && BlockClose(s, i + 2) == Some(e)
    ensures forall k :: i <= k < e ==> s[k] != '\n'
  {
    assert s[i..i + 2][0] == s[i] && s[i..i + 2][1] == s[i + 1];
    assert s[e - 2..e][0] == s[e - 2] && s[e - 2..e][1] == s[e - 1];
  }

  // ------------------------------------------------------------- scanning

  /** One match object of `re.finditer`: the winning group and the span it covers. */
  datatype Match = Match(cat: Category, start: nat, end: nat)

  /** What the lexer loop relies on about one match of s: a non-empty span; a
      MISMATCH is one character other than a line feed; only WHITESPACE spans a
      line feed, and a WHITESPACE match is a maximal run of space characters;
      the text of a kept match is visible characters only. */
  predicate WellFormedMatch(s: string, m: Match)
  {
    && m.start < m.end <= |s|
    && m.cat != Eof
    && (m.cat == Mismatch ==> m.end == m.start + 1 && s[m.start] != '\n')
    && (m.cat.Kept() ==> forall p :: m.start <= p < m.end ==> IsVisible(s[p]))
    && (m.cat != Whitespace ==> NoLineFeed(s, m.start, m.end))
    && (m.cat == Whitespace ==>
          (forall p :: m.start <= p < m.end ==> IsSpace(s[p])) && (m.end == |s| || !IsSpace(s[m.end])))
  }

  /** The groups of the master pattern `token_regex` in TOKEN_SPECIFICATION
      order: group k is tried before group k+1. MISMATCH (`.`) comes last. */
  function GroupAt(k: nat): Category
  {
    match k
    case 0 => Reserved
    case 1 => Identifier
    case 2 => Number
    case 3 => Operator
    case 4 => Punctuation
    case 5 => Whitespace
    case 6 => Comment
    case _ => Mismatch
  }

  /** Number of groups before MISMATCH. */
  const GroupCount: nat := 7

  /** Position of a category in the group order. */
  function Rank(c: Category): (n: nat)
    ensures n < GroupCount ==> GroupAt(n) == c
    ensures n == GroupCount <==> !c.Kept() && !c.Discarded()
  {
    match c
    case Reserved => 0
    case Identifier => 1
    case Number => 2
    case Operator => 3
    case Punctuation => 4
    case Whitespace => 5
    case Comment => 6
    case _ => 7
  }

  /** The named group of one category, tried alone at offset i. */
  function MatchGroup(s: string, i: nat, c: Category): (r: Option<nat>)
    requires i < |s|
    ensures r.Some? ==> 0 < r.value <= |s| - i && WellFormedMatch(s, Match(c, i, i + r.value))
  {
    match c
    case Reserved => MatchReserved(s, i)
    case Identifier => MatchIdentifier(s, i)
    case Number => MatchNumber(s, i)
    case Operator => MatchOperator(s, i)
    case Punctuation => MatchPunctuation(s, i)
    case Whitespace => MatchWhitespace(s, i)
    case Comment => MatchComment(s, i)
    case _ => None
  }

  /** The master pattern at offset i from group k on: the index of the FIRST
      group that matches, whatever later groups would match, or GroupCount when
      none does. */
  function FirstGroup(s: string, i: nat, k: nat): (g: nat)
    requires i < |s| && k <= GroupCount
    decreases GroupCount - k
    ensures k <= g <= GroupCount
    ensures g < GroupCount ==> MatchGroup(s, i, GroupAt(g)).Some?
    ensures forall j :: k <= j < g ==> MatchGroup(s, i, GroupAt(j)).None?
  {
    if k == GroupCount || MatchGroup(s, i, GroupAt(k)).Some? then k
    else FirstGroup(s, i, k + 1)
  }

  /** ms tiles s[i..]: well-formed matches, the first starting at i, each next
      one starting where the previous one ended, the last ending at |s|. */
  predicate Tiles(s: string, i: nat, ms: seq<Match>)
  {
    && (forall k :: 0 <= k < |ms| ==> WellFormedMatch(s, ms[k]))
    && (forall k :: 0 <= k < |ms| - 1 ==> ms[k].end == ms[k + 1].start)
    && (ms == [] ==> i == |s|)
    && (ms != [] ==> ms[0].start == i && ms[|ms| - 1].end == |s|)
  }

  /** Dropping the first match of a tiling of s[i..] tiles the rest. */
  lemma TilesTail(s: string, i: nat, ms: seq<Match>)
    requires Tiles(s, i, ms) && ms != []
    ensures Tiles(s, ms[0].end, ms[1..])
  {
    var rest := ms[1..];
    forall k | 0 <= k < |rest| - 1 ensures rest[k].end == rest[k + 1].start {
      assert rest[k] == ms[k + 1] && rest[k + 1] == ms[k + 2];
    }
  }

  /** Putting a well-formed match in front of a tiling of s[m.end..] tiles s[m.start..]. */
  lemma TilesCons(s: string, m: Match, ms: seq<Match>)
    requires WellFormedMatch(s, m) && Tiles(s, m.end, ms)
    ensures Tiles(s, m.start, [m] + ms)
  {
    var all := [m] + ms;
    forall k | 0 <= k < |all| - 1 ensures all[k].end == all[k + 1].start {
      if k > 0 {
        assert all[k] == ms[k - 1] && all[k + 1] == ms[k];
      }
    }
  }

  /** One match object of `re.finditer` at offset i: the first group that
      matches wins. `.` cannot match a line feed, but WHITESPACE always takes a
      line feed first, so some group matches at every offset and no character
      is skipped. */
  function MatchAt(s: string, i: nat): (m: Match)
    requires i < |s|
    ensures m.start == i && WellFormedMatch(s, m)
  {
    var g := FirstGroup(s, i, 0);
    if g < GroupCount then
      Match(GroupAt(g), i, i + MatchGroup(s, i, GroupAt(g)).value)
    else
      assert MatchGroup(s, i, GroupAt(5)).None?;
      Match(Mismatch, i, i + 1)
  }

  /** The winning category is the first group, in TOKEN_SPECIFICATION order,
      that matches at i, and the match spans what that group matched. */
  lemma MatchAtIsFirstGroup(s: string, i: nat)
    requires i < |s|
    ensures var m := MatchAt(s, i);
      && (m.cat != Mismatch ==> MatchGroup(s, i, m.cat) == Some(m.end - i))
      && (forall j :: 0 <= j < Rank(m.cat) ==> MatchGroup(s, i, GroupAt(j)).None?)
  {
    var g := FirstGroup(s, i, 0);
    if g < GroupCount {
      RankOfGroup(g);
    }
  }

  /** GroupAt and Rank are inverse on the named groups. */
  lemma RankOfGroup(g: nat)
    requires g < GroupCount
    ensures Rank(GroupAt(g)) == g
  {
  }

  /** `re.finditer(token_regex, s)` from offset i: matches that tile s[i..]. */
  function Scan(s: string, i: nat): (ms: seq<Match>)
    requires i <= |s|
    decreases |s| - i
    ensures Tiles(s, i, ms)
  {
    if i == |s| then []
    else
      var m := MatchAt(s, i);
      var rest := Scan(s, m.end);
      TilesCons(s, m, rest);
      [m] + rest
  }

  /** A tiling has at most one match per character. */
  lemma {:induction false} TilesLength(s: string, i: nat, ms: seq<Match>)
    requires Tiles(s, i, ms)
    ensures i <= |s| && |ms| <= |s| - i
    decreases |ms|
  {
    if ms != [] {
      TilesTail(s, i, ms);
      TilesLength(s, ms[0].end, ms[1..]);
    }
  }

  /** The concatenation of the matched texts of a tiling, in order. */
  function Texts(s: string, i: nat, ms: seq<Match>): string
    requires Tiles(s, i, ms)
    decreases |ms|
  {
    if ms == [] then []
    else
      TilesTail(s, i, ms);
      s[ms[0].start..ms[0].end] + Texts(s, ms[0].end, ms[1..])
  }

  lemma SuffixSplit(s: string, i: nat, e: nat)
    requires i <= e <= |s|
    ensures s[i..] == s[i..e] + s[e..]
  {
  }

  /** Every character is covered by exactly one match, kept or discarded: the
      matched texts of a tiling concatenate back to the source it tiles. */
  lemma {:induction false} TilingCoversSource(s: string, i: nat, ms: seq<Match>)
    requires Tiles(s, i, ms)
    ensures Texts(s, i, ms) == s[i..]
    decreases |ms|
  {
    if ms == [] {
    } else {
      TilesTail(s, i, ms);
      TilingCoversSource(s, ms[0].end, ms[1..]);
      SuffixSplit(s, i, ms[0].end);
    }
  }

  /** The scan of lexer.py covers its source exactly once. */
  lemma ScanCoversSource(s: string)
    ensures Texts(s, 0, Scan(s, 0)) == s
  {
    TilingCoversSource(s, 0, Scan(s, 0));
  }

  // ----------------------------------------------------------------- loop

  /** Line bookkeeping of the lexer loop: `line_num` and `line_start`. */
  datatype LexState = LexState(lineNum: int, lineStart: int)

  /** The RuntimeError raised on a MISMATCH: the character and its line:column. */
  datatype LexError = UnexpectedChar(ch: char, line: int, column: int)

  /** The body of `for mo in re.finditer(...)`, run over the remaining matches. */
  function LexLoop(s: string, ms: seq<Match>, st: LexState): (r: Result<seq<Token>, LexError>)
    requires forall k :: 0 <= k < |ms| ==> WellFormedMatch(s, ms[k])
    decreases |ms|
    ensures r.Success? ==> forall k :: 0 <= k < |r.value| ==> r.value[k].kind.Kept() && r.value[k].text != []
    ensures r.Success? ==> forall k :: 0 <= k < |r.value| ==> r.value[k].line >= st.lineNum
    ensures r.Success? ==> |r.value| <= |ms|
    ensures r.Failure? ==> r.error.line >= st.lineNum
  {
    if ms == [] then Success([])
    else
      var m := ms[0];
      assert WellFormedMatch(s, m);
      var value := s[m.start..m.end];
      var column := m.start - st.lineStart;
      if m.cat.Discarded() then
        var st' := if '\n' in value then LexState(st.lineNum + NewlineCount(value), m.end) else st;
        LexLoop(s, ms[1..], st')
      else if m.cat == Mismatch then
        Failure(UnexpectedChar(value[0], st.lineNum, column))
      else
        var rest :- LexLoop(s, ms[1..], st);
        Success([Token(m.cat, value, st.lineNum, column)] + rest)
  }

  /** `lexer(source_code)`: line numbers start at 1, the line origin at offset 0. */
  function Lex(s: string): (r: Result<seq<Token>, LexError>)
    ensures r.Success? ==> forall k :: 0 <= k < |r.value| ==> r.value[k].kind.Kept() && r.value[k].text != []
    ensures r.Success? ==> forall k :: 0 <= k < |r.value| ==> r.value[k].line >= 1
    ensures r.Success? ==> |r.value| <= |s|
  {
    var ms := Scan(s, 0);
    TilesLength(s, 0, ms);
    LexLoop(s, ms, LexState(1, 0))
  }
}
