/** Consequences of the ordered alternation in TOKEN_SPECIFICATION and of the
    line bookkeeping: how particular inputs are classified, and what every
    token list the lexer returns satisfies. */
module LexerFacts {
  import opened Wrappers
  import opened Tokens
  import opened Lexer
  import opened LexerPositions

  // ------------------------------------------------------- alternative shapes

  /** Every keyword starts with a letter, and all but `System.out.println`
      (alternative 13) are letters throughout. */
  lemma KeywordShapes()
    ensures forall k :: 0 <= k < |Keywords| ==> |Keywords[k]| > 0 && IsLetter(Keywords[k][0])
    ensures forall k :: 0 <= k < |Keywords| && k != 13 ==> forall j :: 0 <= j < |Keywords[k]| ==> IsLetter(Keywords[k][j])
    ensures Keywords[13] == "System.out.println"
    ensures forall k :: 0 <= k < |Keywords| ==> Keywords[k] != "System"
  {
  }

  /** Every operator starts with one of `+-*&!<>=`. */
  lemma OperatorHeads()
    ensures forall k :: 0 <= k < |Operators| ==> |Operators[k]| > 0 && Operators[k][0] in "+-*&!<>="
  {
  }

  lemma LiteralHead(s: string, i: nat, lit: string)
    requires i <= |s| && LiteralAt(s, i, lit) && |lit| > 0
    ensures i < |s| && s[i] == lit[0]
  {
    assert s[i..i + |lit|][0] == s[i];
  }

  // ------------------------------------------------------- choosing a group

  lemma {:induction false} FirstGroupIs(s: string, i: nat, k: nat, g: nat)
    requires i < |s| && k <= g <= GroupCount
    requires g < GroupCount ==> MatchGroup(s, i, GroupAt(g)).Some?
    requires forall j :: k <= j < g ==> MatchGroup(s, i, GroupAt(j)).None?
    ensures FirstGroup(s, i, k) == g
    decreases g - k
  {
    if k < g {
      FirstGroupIs(s, i, k + 1, g);
    }
  }

  /** When group g is the first to match at i, the scan takes its match. */
  lemma MatchAtByGroup(s: string, i: nat, g: nat)
    requires i < |s| && g < GroupCount
    requires MatchGroup(s, i, GroupAt(g)).Some?
    requires forall j :: 0 <= j < g ==> MatchGroup(s, i, GroupAt(j)).None?
    ensures MatchAt(s, i) == Match(GroupAt(g), i, i + MatchGroup(s, i, GroupAt(g)).value)
  {
    FirstGroupIs(s, i, 0, g);
  }

  /** When no named group matches at i, the character is a MISMATCH. */
  lemma MatchAtNoGroup(s: string, i: nat)
    requires i < |s|
    requires forall j :: 0 <= j < GroupCount ==> MatchGroup(s, i, GroupAt(j)).None?
    ensures MatchAt(s, i) == Match(Mismatch, i, i + 1)
  {
    FirstGroupIs(s, i, 0, GroupCount);
  }

  /** The group-order facts, one group at a time. */
  lemma MatchAtIdentifier(s: string, i: nat)
    requires i < |s| && MatchReserved(s, i).None? && MatchIdentifier(s, i).Some?
    ensures MatchAt(s, i) == Match(Identifier, i, i + MatchIdentifier(s, i).value)
  {
    MatchAtByGroup(s, i, 1);
  }

  lemma MatchAtOperator(s: string, i: nat)
    requires i < |s| && MatchReserved(s, i).None? && MatchIdentifier(s, i).None? && MatchNumber(s, i).None?
    requires MatchOperator(s, i).Some?
    ensures MatchAt(s, i) == Match(Operator, i, i + MatchOperator(s, i).value)
  {
    MatchAtByGroup(s, i, 3);
  }

  lemma MatchAtPunctuation(s: string, i: nat)
    requires i < |s| && MatchReserved(s, i).None? && MatchIdentifier(s, i).None? && MatchNumber(s, i).None?
    requires MatchOperator(s, i).None? && s[i] in PunctuationChars
    ensures MatchAt(s, i) == Match(Punctuation, i, i + 1)
  {
    assert MatchGroup(s, i, GroupAt(4)) == Some(1);
    forall j | 0 <= j < 4 ensures MatchGroup(s, i, GroupAt(j)).None? {
      assert GroupAt(j) in {Reserved, Identifier, Number, Operator};
    }
    MatchAtByGroup(s, i, 4);
  }

  /** RESERVED cannot match at a character that is not a letter. */
  lemma NoKeywordAt(s: string, i: nat)
    requires i < |s| && !IsLetter(s[i])
    ensures MatchReserved(s, i).None?
  {
    KeywordShapes();
    forall k | 0 <= k < |Keywords| ensures !AltAt(s, i, Keywords[k], true) {
      if LiteralAt(s, i, Keywords[k]) {
        LiteralHead(s, i, Keywords[k]);
      }
    }
    FirstAltNone(s, i, Keywords, true, 0);
    MatchAltsFirst(s, i, Keywords, true, 0);
  }

  /** OPERATOR cannot match at a character no operator starts with. */
  lemma NoOperatorAt(s: string, i: nat)
    requires i < |s| && s[i] !in "+-*&!<>="
    ensures MatchOperator(s, i).None?
  {
    OperatorHeads();
    forall k | 0 <= k < |Operators| ensures !AltAt(s, i, Operators[k], false) {
      if LiteralAt(s, i, Operators[k]) {
        LiteralHead(s, i, Operators[k]);
      }
    }
    FirstAltNone(s, i, Operators, false, 0);
    MatchAltsFirst(s, i, Operators, false, 0);
  }

  // ------------------------------------------------------ words and keywords

  /** A RESERVED match spells the first keyword that matches as a whole word. */
  lemma ReservedSpellsKeyword(s: string, i: nat)
    requires i < |s| && MatchReserved(s, i).Some?
    ensures var n := MatchReserved(s, i).value;
      var k := FirstAlt(s, i, Keywords, true, 0);
      && k.Some? && Keywords[k.value] == s[i..i + n] && AtBoundary(s, i + n)
  {
    MatchAltsSpells(s, i, Keywords, true);
  }

  /** The maximal run of word characters starting at i. */
  function WordAt(s: string, i: nat): (w: string)
    requires i <= |s|
    ensures |w| <= |s| - i && w == s[i..i + |w|]
    ensures forall k :: 0 <= k < |w| ==> IsWordChar(w[k])
    ensures i + |w| == |s| || !IsWordChar(s[i + |w|])
  {
    var n := RunLength(s, i, IsWordChar);
    var w := s[i..i + n];
    assert forall k :: 0 <= k < |w| ==> w[k] == s[i + k];
    w
  }

  /** A run of letters followed by a non-word character or the end is the whole word. */
  lemma LettersAreWord(s: string, i: nat, lit: string)
    requires i <= |s| && LiteralAt(s, i, lit) && lit != []
    requires forall j :: 0 <= j < |lit| ==> IsLetter(lit[j])
    requires i + |lit| == |s| || !IsWordChar(s[i + |lit|])
    ensures WordAt(s, i) == lit
  {
    forall p | i <= p < i + |lit| ensures IsWordChar(s[p]) {
      assert s[p] == s[i..i + |lit|][p - i];
    }
    RunLengthExact(s, i, i + |lit|, IsWordChar);
  }

  /** A whole-word literal made of letters is exactly the word at i. */
  lemma LettersAtBoundary(s: string, i: nat, t: string)
    requires i <= |s| && LiteralAt(s, i, t) && t != [] && AtBoundary(s, i + |t|)
    requires forall j :: 0 <= j < |t| ==> IsLetter(t[j])
    ensures WordAt(s, i) == t
  {
    assert IsWordChar(s[i + |t| - 1]) by { assert s[i + |t| - 1] == s[i..i + |t|][|t| - 1]; }
    LettersAreWord(s, i, t);
  }

  /** Where `System.out.println` starts, the word is `System`. */
  lemma SystemWord(s: string, i: nat)
    requires i <= |s| && LiteralAt(s, i, "System.out.println")
    ensures WordAt(s, i) == "System"
  {
    var t := s[i..i + 18];
    assert LiteralAt(s, i, "System") by {
      assert s[i..i + 6] == t[..6];
    }
    assert s[i + 6] == t[6];
    LettersAreWord(s, i, "System");
  }

  /** A RESERVED match spans the whole word at i, except for
      `System.out.println`, whose first word is `System`. */
  lemma ReservedSpansWord(s: string, i: nat)
    requires i < |s| && MatchReserved(s, i).Some?
    ensures var v := MatchReserved(s, i).value;
      v == |WordAt(s, i)| || (s[i..i + v] == "System.out.println" && WordAt(s, i) == "System")
  {
    ReservedSpellsKeyword(s, i);
    var k := FirstAlt(s, i, Keywords, true, 0).value;
    KeywordShape(k);
    WordOrSystem(s, i, Keywords[k]);
  }

  /** Every keyword is `System.out.println` or a non-empty run of letters. */
  lemma KeywordShape(k: nat)
    requires k < |Keywords|
    ensures Keywords[k] == "System.out.println" || (Keywords[k] != [] && forall j :: 0 <= j < |Keywords[k]| ==> IsLetter(Keywords[k][j]))
  {
    KeywordShapes();
  }

  /** A whole-word literal that is letters or `System.out.println` spans the
      word at i, or is `System.out.println` over the word `System`. */
  lemma WordOrSystem(s: string, i: nat, lit: string)
    requires i <= |s| && LiteralAt(s, i, lit) && AtBoundary(s, i + |lit|)
    requires lit == "System.out.println" || (lit != [] && forall j :: 0 <= j < |lit| ==> IsLetter(lit[j]))
    ensures |lit| == |WordAt(s, i)| || (lit == "System.out.println" && WordAt(s, i) == "System")
  {
    if lit == "System.out.println" {
      SystemWord(s, i);
    } else {
      LettersAtBoundary(s, i, lit);
    }
  }

  /** A whole word that is a keyword is one RESERVED token spanning the word.
      This covers `if`, `int`, `while` and every keyword but `System.out.println`,
      whose word stops at the first dot (PrintlnIsReserved covers that one). */
  lemma WholeWordKeyword(s: string, i: nat, k: nat)
    requires i < |s| && AtBoundary(s, i) && k < |Keywords| && WordAt(s, i) == Keywords[k]
    ensures MatchAt(s, i) == Match(Reserved, i, i + |Keywords[k]|)
  {
    KeywordShapes();
    assert AltAt(s, i, Keywords[k], true);
    FirstAltSpec(s, i, Keywords, true, 0);
    MatchAltsFirst(s, i, Keywords, true, 0);
    MatchAtByGroup(s, i, 0);
    ReservedSpansWord(s, i);
  }

  /** `System.out.println` between two word boundaries is one RESERVED token of
      eighteen characters: the shorter `System` is not a keyword, so no earlier
      alternative can stop the match at the first dot. */
  lemma PrintlnIsReserved(s: string, i: nat)
    requires i + 18 <= |s| && AtBoundary(s, i) && LiteralAt(s, i, "System.out.println") && AtBoundary(s, i + 18)
    ensures MatchAt(s, i) == Match(Reserved, i, i + 18)
  {
    KeywordShapes();
    assert AltAt(s, i, Keywords[13], true);
    ReservedWhenKeyword(s, i);
    ReservedSpellsKeyword(s, i);
    ReservedSpansWord(s, i);
    SystemWord(s, i);
    MatchAtByGroup(s, i, 0);
  }

  /** A word that is not a keyword, such as `iffy`, is one IDENTIFIER spanning the
      whole word, even when a keyword is a prefix of it. */
  lemma NonKeywordIsIdentifier(s: string, i: nat)
    requires i < |s| && IsIdentStart(s[i]) && WordAt(s, i) !in Keywords
    requires !(LiteralAt(s, i, "System.out.println") && AtBoundary(s, i + 18))
    ensures MatchAt(s, i) == Match(Identifier, i, i + |WordAt(s, i)|)
  {
    NonKeywordNotReserved(s, i);
    IdentifierSpansWord(s, i);
    MatchAtIdentifier(s, i);
  }

  /** `System.out.printlnx` is not the keyword: the `\b` after `println` fails,
      so the word `System` is an IDENTIFIER. */
  lemma PrintlnPrefixIsIdentifier()
    ensures MatchAt("System.out.printlnx", 0) == Match(Identifier, 0, 6)
  {
    var s := "System.out.printlnx";
    SystemWord(s, 0);
    assert WordAt(s, 0) !in Keywords by { KeywordShapes(); }
    NonKeywordIsIdentifier(s, 0);
  }

  /** No keyword matches as a whole word where the word is not a keyword,
      unless `System.out.println` stands there followed by a word boundary. */
  lemma NonKeywordNotReserved(s: string, i: nat)
    requires i < |s| && WordAt(s, i) !in Keywords
    requires !(LiteralAt(s, i, "System.out.println") && AtBoundary(s, i + 18))
    ensures MatchReserved(s, i).None?
  {
    KeywordShapes();
    forall k | 0 <= k < |Keywords| ensures !AltAt(s, i, Keywords[k], true) {
      if k != 13 && AltAt(s, i, Keywords[k], true) {
        var lit := Keywords[k];
        assert IsWordChar(s[i + |lit| - 1]) by {
          assert s[i + |lit| - 1] == s[i..i + |lit|][|lit| - 1];
        }
        LettersAreWord(s, i, lit);
      }
    }
    FirstAltNone(s, i, Keywords, true, 0);
    MatchAltsFirst(s, i, Keywords, true, 0);
  }

  /** An IDENTIFIER spans the whole word at i. */
  lemma IdentifierSpansWord(s: string, i: nat)
    requires i < |s| && IsIdentStart(s[i])
    ensures MatchIdentifier(s, i) == Some(|WordAt(s, i)|)
  {
    assert RunLength(s, i, IsWordChar) == 1 + RunLength(s, i + 1, IsWordChar);
  }

  // --------------------------------------------------------------- operators

  lemma {:induction false} FirstAltIs(s: string, i: nat, alts: seq<string>, wholeWord: bool, k: nat, g: nat)
    requires i <= |s| && k <= g < |alts|
    requires AltAt(s, i, alts[g], wholeWord)
    requires forall j :: k <= j < g ==> !AltAt(s, i, alts[j], wholeWord)
    ensures FirstAlt(s, i, alts, wholeWord, k) == Some(g)
    decreases g - k
  {
    if k < g {
      FirstAltIs(s, i, alts, wholeWord, k + 1, g);
    }
  }

  /** Each of `>=`, `<=` and `!=` starts with the one-character operator
      listed before it. */
  lemma OperatorPrefixes(s: string, i: nat)
    requires i <= |s|
    ensures AltAt(s, i, Operators[7], false) ==> AltAt(s, i, Operators[6], false)
    ensures AltAt(s, i, Operators[8], false) ==> AltAt(s, i, Operators[5], false)
    ensures AltAt(s, i, Operators[10], false) ==> AltAt(s, i, Operators[4], false)
  {
    if i + 2 <= |s| {
      assert s[i..i + 1] == s[i..i + 2][..1];
    }
  }

  /** `>=`, `<=` and `!=` (alternatives 7, 8 and 10) can never be chosen: the
      one-character alternative listed before each of them already matches. */
  lemma ShadowedOperators(s: string, i: nat)
    requires i <= |s|
    ensures var r := FirstAlt(s, i, Operators, false, 0);
      r.Some? ==> r.value != 7 && r.value != 8 && r.value != 10
  {
    OperatorPrefixes(s, i);
  }

  /** No earlier group matches at a `<`, `>` or `!`. */
  lemma NoWordGroupAt(s: string, i: nat)
    requires i < |s| && !IsWordChar(s[i])
    ensures MatchReserved(s, i).None? && MatchIdentifier(s, i).None? && MatchNumber(s, i).None?
  {
    NoKeywordAt(s, i);
  }

  /** Alternatives lo..hi-1 whose first character differs from s[i] fail at i. */
  lemma HeadsDiffer(s: string, i: nat, alts: seq<string>, wholeWord: bool, lo: nat, hi: nat)
    requires i < |s| && lo <= hi <= |alts|
    requires forall j :: lo <= j < hi ==> alts[j] != [] && alts[j][0] != s[i]
    ensures forall j :: lo <= j < hi ==> !AltAt(s, i, alts[j], wholeWord)
  {
    forall j | lo <= j < hi ensures !AltAt(s, i, alts[j], wholeWord) {
      if LiteralAt(s, i, alts[j]) {
        LiteralHead(s, i, alts[j]);
      }
    }
  }

  lemma {:induction false} FirstAltNone(s: string, i: nat, alts: seq<string>, wholeWord: bool, k: nat)
    requires i <= |s| && k <= |alts|
    requires forall j :: k <= j < |alts| ==> !AltAt(s, i, alts[j], wholeWord)
    ensures FirstAlt(s, i, alts, wholeWord, k) == None
    decreases |alts| - k
  {
    if k < |alts| {
      FirstAltNone(s, i, alts, wholeWord, k + 1);
    }
  }

  /** `<`, `>` and `!` are alternatives 5, 6 and 4, and no earlier operator starts with them. */
  lemma ComparisonOperator(s: string, i: nat)
    requires i < |s| && s[i] in "<>!"
    ensures MatchOperator(s, i) == Some(1)
  {
    var g := if s[i] == '!' then 4 else if s[i] == '<' then 5 else 6;
    assert s[i..i + 1] == Operators[g];
    HeadsDiffer(s, i, Operators, false, 0, g);
    FirstAltIs(s, i, Operators, false, 0, g);
    MatchAltsFirst(s, i, Operators, false, 0);
  }

  /** `<`, `>` and `!` are always a one-character OPERATOR, whatever follows:
      so `>=`, `<=` and `!=` lex as two tokens, the second a PUNCTUATION `=`. */
  lemma ComparisonIsOneCharacter(s: string, i: nat)
    requires i < |s| && s[i] in "<>!"
    ensures MatchAt(s, i) == Match(Operator, i, i + 1)
  {
    NoWordGroupAt(s, i);
    ComparisonOperator(s, i);
    MatchAtOperator(s, i);
  }

  /** At a `=`, OPERATOR matches `==` (alternative 9) or nothing. */
  lemma EqualsOperator(s: string, i: nat)
    requires i < |s| && s[i] == '='
    ensures LiteralAt(s, i, "==") ==> MatchOperator(s, i) == Some(2)
    ensures !LiteralAt(s, i, "==") ==> MatchOperator(s, i).None?
  {
    assert Operators[9] == "==" && Operators[10][0] == '!';
    HeadsDiffer(s, i, Operators, false, 0, 9);
    if LiteralAt(s, i, "==") {
      FirstAltIs(s, i, Operators, false, 0, 9);
    } else {
      HeadsDiffer(s, i, Operators, false, 10, 11);
      FirstAltNone(s, i, Operators, false, 0);
      MatchAltsFirst(s, i, Operators, false, 0);
    }
  }

  /** `==` is one OPERATOR; a lone `=` is PUNCTUATION. */
  lemma EqualsSign(s: string, i: nat)
    requires i < |s| && s[i] == '='
    ensures LiteralAt(s, i, "==") ==> MatchAt(s, i) == Match(Operator, i, i + 2)
    ensures !LiteralAt(s, i, "==") ==> MatchAt(s, i) == Match(Punctuation, i, i + 1)
  {
    NoWordGroupAt(s, i);
    EqualsOperator(s, i);
    if LiteralAt(s, i, "==") {
      MatchAtOperator(s, i);
    } else {
      MatchAtPunctuation(s, i);
    }
  }

  /** `>=`, `<=` and `!=` are never matched whole: each becomes the one-character
      OPERATOR followed by the PUNCTUATION `=` (unless a second `=` follows,
      making `==`). */
  lemma ComparisonEqualsSplits(s: string, i: nat)
    requires i + 1 < |s| && s[i] in "<>!" && s[i + 1] == '=' && !LiteralAt(s, i + 1, "==")
    ensures MatchAt(s, i) == Match(Operator, i, i + 1)
    ensures MatchAt(s, i + 1) == Match(Punctuation, i + 1, i + 2)
  {
    ComparisonIsOneCharacter(s, i);
    EqualsSign(s, i + 1);
  }

  // ----------------------------------------------------------------- numbers

  /** A digit run followed at once by a letter or `_`, as in `12ab`, has no
      word boundary after any of its digits, so `\b\d+\b` fails and the first
      digit matches nothing: it is a MISMATCH. */
  lemma DigitsGluedToWord(s: string, i: nat, n: nat)
    requires 0 < n && i + n < |s|
    requires forall p :: i <= p < i + n ==> IsDigit(s[p])
    requires IsIdentStart(s[i + n])
    ensures MatchAt(s, i) == Match(Mismatch, i, i + 1)
  {
    NoWordGroupDigit(s, i);
    RunLengthExact(s, i, i + n, IsDigit);
    forall p | i < p <= i + n ensures !AtBoundary(s, p) {
      assert IsWordChar(s[p - 1]) && IsWordChar(s[p]);
    }
    assert MatchNumber(s, i).None?;
    NoOperatorAt(s, i);
    NoCommentAt(s, i);
    MatchAtNoGroup(s, i);
  }

  /** A digit is neither a keyword, an identifier start, punctuation nor space. */
  lemma NoWordGroupDigit(s: string, i: nat)
    requires i < |s| && IsDigit(s[i])
    ensures MatchReserved(s, i).None? && MatchIdentifier(s, i).None?
    ensures MatchPunctuation(s, i).None? && MatchWhitespace(s, i).None?
  {
    NoKeywordAt(s, i);
  }

  /** COMMENT can only match at a `/`. */
  lemma NoCommentAt(s: string, i: nat)
    requires i < |s| && s[i] != '/'
    ensures MatchComment(s, i).None?
  {
    if LiteralAt(s, i, "//") {
      LiteralHead(s, i, "//");
    }
    if LiteralAt(s, i, "/*") {
      LiteralHead(s, i, "/*");
    }
  }

  // ---------------------------------------------------------------- comments

  /** A `/` starts a COMMENT when one of the comment forms matches there, and is
      otherwise a MISMATCH: no other group accepts it. */
  lemma SlashIsCommentOrMismatch(s: string, i: nat)
    requires i < |s| && s[i] == '/'
    ensures MatchComment(s, i).Some? ==> MatchAt(s, i) == Match(Comment, i, i + MatchComment(s, i).value)
    ensures MatchComment(s, i).None? ==> MatchAt(s, i) == Match(Mismatch, i, i + 1)
  {
    NoWordGroupAt(s, i);
    NoOperatorAt(s, i);
    SlashGroups(s, i);
  }

  /** At a `/` that no earlier group takes, COMMENT decides. */
  lemma SlashGroups(s: string, i: nat)
    requires i < |s| && s[i] == '/'
    requires MatchReserved(s, i).None? && MatchIdentifier(s, i).None? && MatchNumber(s, i).None?
    requires MatchOperator(s, i).None?
    ensures MatchComment(s, i).Some? ==> MatchAt(s, i) == Match(Comment, i, i + MatchComment(s, i).value)
    ensures MatchComment(s, i).None? ==> MatchAt(s, i) == Match(Mismatch, i, i + 1)
  {
    if MatchComment(s, i).Some? {
      MatchAtByGroup(s, i, 6);
    } else {
      MatchAtNoGroup(s, i);
    }
  }

  /** Every `*` `/` pair after j is preceded, from j on, by a line feed. */
  predicate UnclosedOnLine(s: string, j: nat)
    requires j <= |s|
  {
    forall k :: j <= k <= |s| && LiteralAt(s, k, "*/") ==> !NoLineFeed(s, j, k)
  }

  lemma {:induction false} BlockCloseFails(s: string, j: nat)
    requires j <= |s| && UnclosedOnLine(s, j)
    ensures BlockClose(s, j).None?
    decreases |s| - j
  {
    if !LiteralAt(s, j, "*/") && j < |s| && s[j] != '\n' {
      forall k | j + 1 <= k <= |s| && LiteralAt(s, k, "*/") ensures !NoLineFeed(s, j + 1, k) {
        var p :| j <= p < k && s[p] == '\n';
      }
      BlockCloseFails(s, j + 1);
    }
  }

  /** A block comment that is not closed before the end of its line does not
      match: its `/` is a MISMATCH. */
  lemma UnclosedBlockComment(s: string, i: nat)
    requires i < |s| && LiteralAt(s, i, "/*") && UnclosedOnLine(s, i + 2)
    ensures MatchAt(s, i) == Match(Mismatch, i, i + 1)
  {
    LiteralHead(s, i, "/*");
    assert !LiteralAt(s, i, "//") by {
      assert s[i + 1] == s[i..i + 2][1];
    }
    BlockCloseFails(s, i + 2);
    SlashIsCommentOrMismatch(s, i);
  }

  // ------------------------------------------------------ lines and columns

  /** The line origin never lies past a character that is not a space. */
  lemma OriginBeforeVisible(s: string, p: nat)
    requires p < |s| && !IsSpace(s[p])
    ensures LineOrigin(s, p) <= p
  {
  }

  /** Every token is on line l or later, at a non-negative column. */
  predicate FromLine(ts: seq<Token>, l: int)
  {
    forall a :: 0 <= a < |ts| ==> ts[a].line >= l && ts[a].column >= 0
  }

  /** Line numbers never decrease along ts. */
  predicate LinesOrdered(ts: seq<Token>)
  {
    forall a, b :: 0 <= a < b < |ts| ==> ts[a].line <= ts[b].line
  }

  lemma ConsOrdered(t: Token, rest: seq<Token>)
    requires t.column >= 0 && FromLine(rest, t.line) && LinesOrdered(rest)
    ensures FromLine([t] + rest, t.line) && LinesOrdered([t] + rest)
  {
    var ts := [t] + rest;
    forall a, b | 0 <= a < b < |ts| ensures ts[a].line <= ts[b].line {
      assert ts[b] == rest[b - 1];
      if a > 0 {
        assert ts[a] == rest[a - 1];
      }
    }
  }

  /** The tokens the reference assigns to a tiling of s[i..] come in line order,
      on lines no earlier than the one holding offset i, at non-negative columns. */
  lemma {:induction false} ReferenceTokensOrdered(s: string, i: nat, ms: seq<Match>)
    requires Tiles(s, i, ms)
    ensures FromLine(ReferenceTokens(s, ms), 1 + NewlineCount(s[..i]))
    ensures LinesOrdered(ReferenceTokens(s, ms))
    decreases |ms|
  {
    if ms != [] {
      TilesTail(s, i, ms);
      var m := ms[0];
      assert WellFormedMatch(s, m);
      ReferenceTokensOrdered(s, m.end, ms[1..]);
      PrefixCount(s, i, m.end);
      var rest := ReferenceTokens(s, ms[1..]);
      if m.cat.Kept() {
        assert IsVisible(s[i]);
        OriginBeforeVisible(s, i);
        var t := ExpectedToken(s, m);
        assert ReferenceTokens(s, ms) == [t] + rest;
        ConsOrdered(t, rest);
      } else {
        assert ReferenceTokens(s, ms) == rest;
      }
    }
  }

  /** Whatever lexer.py returns: lines start at 1 and never decrease from one
      token to the next, and no column is negative. */
  lemma LexTokensOrdered(s: string)
    ensures Lex(s).Success? ==>
      var ts := Lex(s).value;
      && (forall a :: 0 <= a < |ts| ==> ts[a].line >= 1 && ts[a].column >= 0)
      && (forall a, b :: 0 <= a < b < |ts| ==> ts[a].line <= ts[b].line)
  {
    LexMatchesReference(s);
    assert s[..0] == [];
    ReferenceTokensOrdered(s, 0, Scan(s, 0));
    assert NewlineCount(s[..0]) == 0;
  }

  /** The line of a later token exceeds that of an earlier one by the line feeds
      between their starts: kept tokens themselves never move the line. */
  lemma LineGap(s: string, m: Match, m': Match)
    requires m.start <= m.end <= |s| && m'.start <= m'.end <= |s| && m.start <= m'.start
    ensures ExpectedToken(s, m').line - ExpectedToken(s, m).line == NewlineCount(s[m.start..m'.start])
  {
    PrefixCount(s, m.start, m'.start);
  }

  /** After a line feed, a token preceded on its line only by spaces has column 0:
      the origin is the end of the whitespace run, so indentation is not counted. */
  lemma IndentedTokenAtColumnZero(s: string, m: Match)
    requires WellFormedMatch(s, m) && m.cat.Kept()
    requires LastNewline(s, m.start) >= 0
    requires forall q :: LastNewline(s, m.start) < q < m.start ==> IsSpace(s[q])
    ensures ExpectedToken(s, m).column == 0
  {
    assert IsVisible(s[m.start]);
    RunLengthExact(s, LastNewline(s, m.start) + 1, m.start, IsSpace);
  }

  /** On the first line the origin is offset 0, so there indentation is counted. */
  lemma FirstLineColumn(s: string, m: Match)
    requires m.start <= m.end <= |s| && LastNewline(s, m.start) < 0
    ensures ExpectedToken(s, m).column == m.start && ExpectedToken(s, m).line == 1
  {
    forall q | 0 <= q < m.start ensures s[..m.start][q] != '\n' {
      assert s[..m.start][q] == s[q];
    }
    NewlineCountZero(s[..m.start]);
  }

  // ------------------------------------------------------- whole inputs

  /** The scan at offset 0 of a non-empty source starts with the match there. */
  lemma ScanHead(s: string)
    requires |s| > 0
    ensures Scan(s, 0) == [MatchAt(s, 0)] + Scan(s, MatchAt(s, 0).end)
  {
  }

  /** The scan from i < |s| takes the match at i and goes on from its end. */
  lemma ScanStep(s: string, i: nat, m: Match)
    requires i < |s| && MatchAt(s, i) == m
    ensures Scan(s, i) == [m] + Scan(s, m.end)
  {
  }

  /** A source of spaces only (or nothing) has no tokens. */
  lemma BlankSourceHasNoTokens(s: string)
    requires forall p :: 0 <= p < |s| ==> IsSpace(s[p])
    ensures Lex(s) == Success([])
  {
    if s != [] {
      NoWordGroupAt(s, 0);
      NoOperatorAt(s, 0);
      RunLengthExact(s, 0, |s|, IsSpace);
      MatchAtByGroup(s, 0, 5);
      ScanHead(s);
      var m := Match(Whitespace, 0, |s|);
      assert Scan(s, 0) == [m];
      assert LexLoop(s, [m], LexState(1, 0)).Success?;
    }
  }

  /** The loop yields no tokens and no error exactly when every match is
      WHITESPACE or COMMENT. */
  lemma {:induction false} LoopEmptyWhenDiscarded(s: string, ms: seq<Match>, st: LexState)
    requires forall k :: 0 <= k < |ms| ==> WellFormedMatch(s, ms[k])
    decreases |ms|
    ensures LexLoop(s, ms, st) == Success([]) <==> forall k :: 0 <= k < |ms| ==> ms[k].cat.Discarded()
  {
    if ms != [] && ms[0].cat.Discarded() {
      var m := ms[0];
      assert WellFormedMatch(s, m);
      var value := s[m.start..m.end];
      var st' := if '\n' in value then LexState(st.lineNum + NewlineCount(value), m.end) else st;
      assert LexLoop(s, ms, st) == LexLoop(s, ms[1..], st');
      assert forall k :: 0 <= k < |ms[1..]| ==> ms[1..][k] == ms[k + 1];
      LoopEmptyWhenDiscarded(s, ms[1..], st');
    }
  }

  /** Whitespace and comments alone, in any mix, lex to no tokens; every other
      source yields a token or an error. */
  lemma NoTokensExactlyWhenDiscarded(s: string)
    ensures Lex(s) == Success([]) <==> forall k :: 0 <= k < |Scan(s, 0)| ==> Scan(s, 0)[k].cat.Discarded()
  {
    LexRunsLoopOverScan(s);
    LoopEmptyWhenDiscarded(s, Scan(s, 0), LexState(1, 0));
  }

  /** A source whose first character is a MISMATCH fails at line 1, column 0. */
  lemma LeadingMismatchFails(s: string)
    requires |s| > 0 && MatchAt(s, 0).cat == Mismatch
    ensures Lex(s) == Failure(UnexpectedChar(s[0], 1, 0))
  {
    ScanHead(s);
    assert s[0..1][0] == s[0];
  }

  /** The loop over one kept match returns its token. */
  lemma LoopOneKept(s: string, m: Match, st: LexState)
    requires WellFormedMatch(s, m) && m.cat.Kept()
    ensures LexLoop(s, [m], st) == Success([Token(m.cat, s[m.start..m.end], st.lineNum, m.start - st.lineStart)])
  {
    assert [m][1..] == [];
    assert LexLoop(s, [m][1..], st) == Success([]);
    var t := Token(m.cat, s[m.start..m.end], st.lineNum, m.start - st.lineStart);
    assert [t] + [] == [t];
  }

  /** A source that is one kept match from end to end is one token at 1:0. */
  lemma SingleToken(s: string, c: Category)
    requires |s| > 0 && c.Kept() && MatchAt(s, 0) == Match(c, 0, |s|)
    ensures Lex(s) == Success([Token(c, s, 1, 0)])
  {
    var m := Match(c, 0, |s|);
    ScanHead(s);
    assert Scan(s, 0) == [m];
    LexRunsLoopOverScan(s);
    LoopOneKept(s, m, LexState(1, 0));
    assert s[0..|s|] == s;
  }

  // ---------------------------------------------------------------- examples

  /** `iffy` is one IDENTIFIER although `if` is a keyword. */
  lemma IffyIsIdentifier()
    ensures Lex("iffy") == Success([Token(Identifier, "iffy", 1, 0)])
  {
    var s := "iffy";
    assert LiteralAt(s, 0, s) by { assert s[0..4] == s; }
    LettersAreWord(s, 0, s);
    NonKeywordIsIdentifier(s, 0);
    SingleToken(s, Identifier);
  }

  /** `if` alone is RESERVED. */
  lemma IfIsReserved()
    ensures Lex("if") == Success([Token(Reserved, "if", 1, 0)])
  {
    var s := "if";
    assert LiteralAt(s, 0, s) by { assert s[0..2] == s; }
    LettersAreWord(s, 0, s);
    WholeWordKeyword(s, 0, 10);
    SingleToken(s, Reserved);
  }

  /** `12ab` is rejected at its first digit. */
  lemma GluedNumberRejected()
    ensures Lex("12ab") == Failure(UnexpectedChar('1', 1, 0))
  {
    DigitsGluedToWord("12ab", 0, 2);
    LeadingMismatchFails("12ab");
  }

  /** A match that reaches the end of the source is the last one. */
  lemma ScanLast(s: string, i: nat, m: Match)
    requires i < |s| && MatchAt(s, i) == m && m.end == |s|
    ensures Scan(s, i) == [m]
  {
    ScanStep(s, i, m);
    assert Scan(s, m.end) == [];
    assert [m] + [] == [m];
  }

  lemma ScanGreaterEqual()
    ensures Scan(">=", 0) == [Match(Operator, 0, 1), Match(Punctuation, 1, 2)]
  {
    var s := ">=";
    var m0 := Match(Operator, 0, 1);
    var m1 := Match(Punctuation, 1, 2);
    assert MatchAt(s, 0) == m0 by {
      ComparisonIsOneCharacter(s, 0);
    }
    assert MatchAt(s, 1) == m1 by {
      EqualsSign(s, 1);
    }
    ScanLast(s, 1, m1);
    ScanPair(s, m0, m1);
  }

  /** A two-character source whose first match is one character long. */
  lemma ScanPair(s: string, m0: Match, m1: Match)
    requires |s| == 2 && MatchAt(s, 0) == m0 && m0.end == 1 && Scan(s, 1) == [m1]
    ensures Scan(s, 0) == [m0, m1]
  {
    ScanStep(s, 0, m0);
    ConsPair(Scan(s, 0), m0, Scan(s, 1), m1);
  }

  /** Kept apart from the scan so that the solver sees only sequences. */
  lemma ConsPair<T>(a: seq<T>, x: T, b: seq<T>, y: T)
    requires a == [x] + b && b == [y]
    ensures a == [x, y]
  {
    assert [x] + [y] == [x, y];
  }

  /** `>=` is two tokens: the OPERATOR `>` and the PUNCTUATION `=`. */
  lemma GreaterEqualIsTwoTokens()
    ensures Lex(">=") == Success([Token(Operator, ">", 1, 0), Token(Punctuation, "=", 1, 1)])
  {
    var s := ">=";
    ScanGreaterEqual();
    LexRunsLoopOverScan(s);
    LoopTwoKept(s, Match(Operator, 0, 1), Match(Punctuation, 1, 2), LexState(1, 0));
    assert s[0..1] == ">" && s[1..2] == "=";
  }

  /** The loop over two kept matches on one line returns their two tokens. */
  lemma LoopTwoKept(s: string, m0: Match, m1: Match, st: LexState)
    requires WellFormedMatch(s, m0) && m0.cat.Kept() && WellFormedMatch(s, m1) && m1.cat.Kept()
    ensures LexLoop(s, [m0, m1], st) == Success([
      Token(m0.cat, s[m0.start..m0.end], st.lineNum, m0.start - st.lineStart),
      Token(m1.cat, s[m1.start..m1.end], st.lineNum, m1.start - st.lineStart)])
  {
    assert [m0, m1][1..] == [m1];
    LoopOneKept(s, m1, st);
    LoopKeptCons(s, [m0, m1], st);
    var t0 := Token(m0.cat, s[m0.start..m0.end], st.lineNum, m0.start - st.lineStart);
    var t1 := Token(m1.cat, s[m1.start..m1.end], st.lineNum, m1.start - st.lineStart);
    assert [t0] + [t1] == [t0, t1];
  }

  /** `==` is one OPERATOR. */
  lemma DoubleEqualsIsOneToken()
    ensures Lex("==") == Success([Token(Operator, "==", 1, 0)])
  {
    var s := "==";
    assert LiteralAt(s, 0, "==") by { assert s[0..2] == s; }
    EqualsSign(s, 0);
    SingleToken(s, Operator);
  }

  /** A block comment broken by a line feed is rejected at its `/`. */
  /** A block comment closed on its own line is one COMMENT and is dropped. */
  lemma BlockCommentDropped()
    ensures Lex("/* x */") == Success([])
  {
    var s := "/* x */";
    assert LiteralAt(s, 0, "/*") by { assert s[0..2] == "/*"; }
    assert !LiteralAt(s, 0, "//") by { assert s[0..2][1] == s[1]; }
    assert LiteralAt(s, 5, "*/") by { assert s[5..7] == "*/"; }
    assert NoLineFeed(s, 2, 5);
    BlockCloseExact(s, 2);
    var e := BlockClose(s, 2).value;
    LiteralHead(s, e - 2, "*/");
    assert e == 7;
    SlashIsCommentOrMismatch(s, 0);
    ScanLast(s, 0, Match(Comment, 0, 7));
    NoTokensExactlyWhenDiscarded(s);
  }

  lemma BrokenBlockCommentRejected()
    ensures Lex("/*\n*/") == Failure(UnexpectedChar('/', 1, 0))
  {
    var s := "/*\n*/";
    assert LiteralAt(s, 0, "/*") by { assert s[0..2] == "/*"; }
    forall k | 2 <= k <= |s| && LiteralAt(s, k, "*/") ensures !NoLineFeed(s, 2, k) {
      assert s[k] == '*' by { assert s[k..k + 2][0] == s[k]; }
      assert s[2] == '\n';
    }
    UnclosedBlockComment(s, 0);
    LeadingMismatchFails(s);
  }
}
