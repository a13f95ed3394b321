/** Where the lexer says a token is. Line and column are defined here from the
    source text alone, independently of the loop's running state, and the loop
    of lexer.py is proved to agree with that definition. */
module LexerPositions {
  import opened Wrappers
  import opened Tokens
  import opened Lexer

  // --------------------------------------------------------- reference positions

  /** Offset of the last line feed before p, or -1 when there is none. */
  function LastNewline(s: string, p: nat): (k: int)
    requires p <= |s|
    ensures -1 <= k < p
    ensures k >= 0 ==> s[k] == '\n'
    ensures forall j :: k < j < p ==> s[j] != '\n'
  {
    if p == 0 then -1
    else if s[p - 1] == '\n' then p - 1
    else LastNewline(s, p - 1)
  }

  /** The origin the lexer measures columns from, stated on the text: 0 on the
      first line, otherwise the end of the whitespace run that holds the last line
      feed before p (that run is one WHITESPACE match, and the loop sets
      `line_start` to its end). Indentation is therefore part of the origin. */
  function LineOrigin(s: string, p: nat): (o: nat)
    requires p <= |s|
  {
    var k := LastNewline(s, p);
    if k < 0 then 0 else k + 1 + RunLength(s, k + 1, IsSpace)
  }

  /** The token a kept match becomes: its line counts the line feeds before it. */
  function ExpectedToken(s: string, m: Match): Token
    requires m.start <= m.end <= |s|
  {
    Token(m.cat, s[m.start..m.end], 1 + NewlineCount(s[..m.start]), m.start - LineOrigin(s, m.start))
  }

  /** The error an unmatched character at p raises. */
  function ErrorAt(s: string, p: nat): LexError
    requires p < |s|
  {
    UnexpectedChar(s[p], 1 + NewlineCount(s[..p]), p - LineOrigin(s, p))
  }

  /** The kept matches, in order, each turned into its expected token. */
  function ReferenceTokens(s: string, ms: seq<Match>): seq<Token>
    requires forall k :: 0 <= k < |ms| ==> WellFormedMatch(s, ms[k])
  {
    if ms == [] then []
    else
      assert WellFormedMatch(s, ms[0]);
      (if ms[0].cat.Kept() then [ExpectedToken(s, ms[0])] else []) + ReferenceTokens(s, ms[1..])
  }

  /** The first MISMATCH among the matches, if any. */
  function FirstMismatch(ms: seq<Match>): (r: Option<Match>)
    ensures r.Some? ==> r.value in ms && r.value.cat == Mismatch
    ensures r.Some? ==> exists k :: 0 <= k < |ms| && ms[k] == r.value && forall j :: 0 <= j < k ==> ms[j].cat != Mismatch
    ensures r.None? <==> forall k :: 0 <= k < |ms| ==> ms[k].cat != Mismatch
  {
    if ms == [] then None
    else if ms[0].cat == Mismatch then Some(ms[0])
    else
      var r := FirstMismatch(ms[1..]);
      assert r.Some? ==> exists k :: 0 <= k < |ms| && ms[k] == r.value && forall j :: 0 <= j < k ==> ms[j].cat != Mismatch by {
        if r.Some? {
          var k :| 0 <= k < |ms[1..]| && ms[1..][k] == r.value && forall j :: 0 <= j < k ==> ms[1..][j].cat != Mismatch;
          assert ms[k + 1] == r.value;
          assert forall j :: 0 <= j < k + 1 ==> ms[j].cat != Mismatch by {
            forall j | 0 <= j < k + 1 ensures ms[j].cat != Mismatch {
              if j > 0 { assert ms[j] == ms[1..][j - 1]; }
            }
          }
        }
      }
      r
  }

  // -------------------------------------------------------------- helper facts

  lemma {:induction false} RunLengthExact(s: string, j: nat, e: nat, p: char -> bool)
    requires j <= e <= |s|
    requires forall k :: j <= k < e ==> p(s[k])
    requires e == |s| || !p(s[e])
    ensures RunLength(s, j, p) == e - j
    decreases e - j
  {
    if j < e {
      RunLengthExact(s, j + 1, e, p);
    }
  }

  lemma {:induction false} LastNewlineStable(s: string, i: nat, e: nat)
    requires i <= e <= |s|
    requires forall k :: i <= k < e ==> s[k] != '\n'
    ensures LastNewline(s, e) == LastNewline(s, i)
    decreases e - i
  {
    if i < e {
      LastNewlineStable(s, i, e - 1);
    }
  }

  lemma PrefixCount(s: string, i: nat, e: nat)
    requires i <= e <= |s|
    ensures NewlineCount(s[..e]) == NewlineCount(s[..i]) + NewlineCount(s[i..e])
  {
    assert s[..e] == s[..i] + s[i..e];
    NewlineCountAppend(s[..i], s[i..e]);
  }

  /** The state the loop carries when it reaches offset i of s. */
  predicate StateAt(s: string, i: nat, st: LexState)
    requires i <= |s|
  {
    st == LexState(1 + NewlineCount(s[..i]), LineOrigin(s, i))
  }

  /** A slice with no line feed counts none. */
  lemma NoLineFeedCount(s: string, i: nat, e: nat)
    requires i <= e <= |s| && NoLineFeed(s, i, e)
    ensures NewlineCount(s[i..e]) == 0 && '\n' !in s[i..e]
  {
    var v := s[i..e];
    forall q | 0 <= q < |v| ensures v[q] != '\n' {
      assert v[q] == s[i + q];
    }
    NewlineCountZero(v);
  }

  /** A line feed inside s[i..e] lies at or after i. */
  lemma LineFeedInSlice(s: string, i: nat, e: nat)
    requires i <= e <= |s| && '\n' in s[i..e]
    ensures LastNewline(s, e) >= i
  {
    var v := s[i..e];
    var q :| 0 <= q < |v| && v[q] == '\n';
    assert s[i + q] == '\n';
  }

  /** A match spanning a line feed (always WHITESPACE) moves the line count by
      its line feeds and the line origin to its end. */
  lemma StepOverBreak(s: string, m: Match, st: LexState)
    requires WellFormedMatch(s, m) && StateAt(s, m.start, st)
    requires '\n' in s[m.start..m.end]
    ensures m.cat == Whitespace
    ensures StateAt(s, m.end, LexState(st.lineNum + NewlineCount(s[m.start..m.end]), m.end))
  {
    PrefixCount(s, m.start, m.end);
    LineFeedInSlice(s, m.start, m.end);
    var k := LastNewline(s, m.end);
    RunLengthExact(s, k + 1, m.end, IsSpace);
  }

  /** A match without a line feed leaves both the line count and the origin alone. */
  lemma StepWithinLine(s: string, m: Match, st: LexState)
    requires WellFormedMatch(s, m) && StateAt(s, m.start, st)
    requires '\n' !in s[m.start..m.end]
    ensures StateAt(s, m.end, st)
  {
    var value := s[m.start..m.end];
    forall p | m.start <= p < m.end ensures s[p] != '\n' {
      assert value[p - m.start] == s[p];
    }
    PrefixCount(s, m.start, m.end);
    NoLineFeedCount(s, m.start, m.end);
    LastNewlineStable(s, m.start, m.end);
  }

  /** The loop, from state st, agrees with the reference on the matches ms:
      it fails exactly when some match is a MISMATCH, reporting the first one,
      and otherwise returns the expected token of every kept match. */
  predicate LoopAgrees(s: string, ms: seq<Match>, st: LexState)
    requires forall k :: 0 <= k < |ms| ==> WellFormedMatch(s, ms[k])
  {
    var r := LexLoop(s, ms, st);
    var bad := FirstMismatch(ms);
    && (r.Success? <==> bad.None?)
    && (r.Success? ==> r.value == ReferenceTokens(s, ms))
    && (r.Failure? ==> bad.Some? && bad.value.start < |s| && r.error == ErrorAt(s, bad.value.start))
  }

  /** An unmatched character stops the loop with the error the reference names. */
  lemma AgreeOnMismatch(s: string, ms: seq<Match>, st: LexState)
    requires forall k :: 0 <= k < |ms| ==> WellFormedMatch(s, ms[k])
    requires ms != [] && ms[0].cat == Mismatch && WellFormedMatch(s, ms[0]) && StateAt(s, ms[0].start, st)
    ensures LoopAgrees(s, ms, st)
  {
    var m := ms[0];
    assert WellFormedMatch(s, m);
    assert s[m.start..m.end][0] == s[m.start];
    assert FirstMismatch(ms) == Some(m);
  }

  /** The loop passes over a skipped match that holds a line feed, moving its
      state to the end of the match. */
  lemma LoopSkipsBreak(s: string, ms: seq<Match>, st: LexState)
    requires forall k :: 0 <= k < |ms| ==> WellFormedMatch(s, ms[k])
    requires ms != [] && ms[0].cat.Discarded() && WellFormedMatch(s, ms[0])
    requires '\n' in s[ms[0].start..ms[0].end]
    ensures LexLoop(s, ms, st) == LexLoop(s, ms[1..], LexState(st.lineNum + NewlineCount(s[ms[0].start..ms[0].end]), ms[0].end))
  {
  }

  /** The loop passes over a skipped match without a line feed unchanged. */
  lemma LoopSkipsWithinLine(s: string, ms: seq<Match>, st: LexState)
    requires forall k :: 0 <= k < |ms| ==> WellFormedMatch(s, ms[k])
    requires ms != [] && ms[0].cat.Discarded() && WellFormedMatch(s, ms[0])
    requires '\n' !in s[ms[0].start..ms[0].end]
    ensures LexLoop(s, ms, st) == LexLoop(s, ms[1..], st)
  {
  }

  /** Whitespace and comments produce no token, in the loop and in the reference. */
  lemma AgreeOnSkipped(s: string, ms: seq<Match>, st: LexState, st': LexState)
    requires forall k :: 0 <= k < |ms| ==> WellFormedMatch(s, ms[k])
    requires ms != [] && ms[0].cat.Discarded()
    requires LexLoop(s, ms, st) == LexLoop(s, ms[1..], st')
    requires LoopAgrees(s, ms[1..], st')
    ensures LoopAgrees(s, ms, st)
  {
    assert WellFormedMatch(s, ms[0]);
    assert FirstMismatch(ms) == FirstMismatch(ms[1..]);
    assert ReferenceTokens(s, ms) == ReferenceTokens(s, ms[1..]);
  }

  /** A kept match becomes its expected token, in front of the rest. */
  lemma AgreeOnKept(s: string, ms: seq<Match>, st: LexState)
    requires forall k :: 0 <= k < |ms| ==> WellFormedMatch(s, ms[k])
    requires ms != [] && ms[0].cat.Kept() && WellFormedMatch(s, ms[0]) && StateAt(s, ms[0].start, st)
    requires LoopAgrees(s, ms[1..], st)
    ensures LoopAgrees(s, ms, st)
  {
    var m := ms[0];
    var t := Token(m.cat, s[m.start..m.end], st.lineNum, m.start - st.lineStart);
    assert t == ExpectedToken(s, m);
    KeptReference(s, ms);
    if LexLoop(s, ms[1..], st).Success? {
      LoopKeptCons(s, ms, st);
    } else {
      LoopKeptFails(s, ms, st);
    }
  }

  /** A kept match adds its expected token to the reference and no MISMATCH. */
  lemma KeptReference(s: string, ms: seq<Match>)
    requires forall k :: 0 <= k < |ms| ==> WellFormedMatch(s, ms[k])
    requires ms != [] && ms[0].cat.Kept() && WellFormedMatch(s, ms[0])
    ensures FirstMismatch(ms) == FirstMismatch(ms[1..])
    ensures ReferenceTokens(s, ms) == [ExpectedToken(s, ms[0])] + ReferenceTokens(s, ms[1..])
  {
  }

  /** The loop emits a kept match's token in front of what the rest yields. */
  lemma LoopKeptCons(s: string, ms: seq<Match>, st: LexState)
    requires forall k :: 0 <= k < |ms| ==> WellFormedMatch(s, ms[k])
    requires ms != [] && ms[0].cat.Kept() && LexLoop(s, ms[1..], st).Success?
    ensures LexLoop(s, ms, st) == Success([Token(ms[0].cat, s[ms[0].start..ms[0].end], st.lineNum, ms[0].start - st.lineStart)] + LexLoop(s, ms[1..], st).value)
  {
    assert WellFormedMatch(s, ms[0]);
  }

  /** The loop passes on an error the rest of the matches raise after a kept match. */
  lemma LoopKeptFails(s: string, ms: seq<Match>, st: LexState)
    requires forall k :: 0 <= k < |ms| ==> WellFormedMatch(s, ms[k])
    requires ms != [] && ms[0].cat.Kept() && LexLoop(s, ms[1..], st).Failure?
    ensures LexLoop(s, ms, st) == Failure(LexLoop(s, ms[1..], st).error)
  {
    assert WellFormedMatch(s, ms[0]);
  }

  /** The loop of lexer.py, run over a tiling of s[i..] from the state StateAt
      describes, agrees with the reference. */
  lemma {:induction false} LexLoopAgrees(s: string, i: nat, ms: seq<Match>, st: LexState)
    requires Tiles(s, i, ms) && StateAt(s, i, st)
    ensures LoopAgrees(s, ms, st)
    decreases |ms|, 2
  {
    if ms != [] {
      TilesTail(s, i, ms);
      assert WellFormedMatch(s, ms[0]);
      if ms[0].cat == Mismatch {
        AgreeOnMismatch(s, ms, st);
      } else if ms[0].cat.Discarded() {
        SkippedAgrees(s, i, ms, st);
      } else {
        KeptAgrees(s, i, ms, st);
      }
    }
  }

  /** The induction step of LexLoopAgrees for a WHITESPACE or COMMENT match. */
  lemma {:induction false} SkippedAgrees(s: string, i: nat, ms: seq<Match>, st: LexState)
    requires Tiles(s, i, ms) && StateAt(s, i, st)
    requires ms != [] && ms[0].cat.Discarded()
    ensures LoopAgrees(s, ms, st)
    decreases |ms|, 1
  {
    TilesTail(s, i, ms);
    assert WellFormedMatch(s, ms[0]);
    if '\n' in s[ms[0].start..ms[0].end] {
      SkippedBreakAgrees(s, i, ms, st);
    } else {
      SkippedLineAgrees(s, i, ms, st);
    }
  }

  /** SkippedAgrees when the skipped text holds a line feed. */
  lemma {:induction false} SkippedBreakAgrees(s: string, i: nat, ms: seq<Match>, st: LexState)
    requires Tiles(s, i, ms) && StateAt(s, i, st)
    requires ms != [] && ms[0].cat.Discarded() && WellFormedMatch(s, ms[0])
    requires Tiles(s, ms[0].end, ms[1..])
    requires '\n' in s[ms[0].start..ms[0].end]
    ensures LoopAgrees(s, ms, st)
    decreases |ms|, 0
  {
    var m := ms[0];
    var st' := LexState(st.lineNum + NewlineCount(s[m.start..m.end]), m.end);
    StepOverBreak(s, m, st);
    LexLoopAgrees(s, m.end, ms[1..], st');
    LoopSkipsBreak(s, ms, st);
    AgreeOnSkipped(s, ms, st, st');
  }

  /** SkippedAgrees when the skipped text stays on one line. */
  lemma {:induction false} SkippedLineAgrees(s: string, i: nat, ms: seq<Match>, st: LexState)
    requires Tiles(s, i, ms) && StateAt(s, i, st)
    requires ms != [] && ms[0].cat.Discarded() && WellFormedMatch(s, ms[0])
    requires Tiles(s, ms[0].end, ms[1..])
    requires '\n' !in s[ms[0].start..ms[0].end]
    ensures LoopAgrees(s, ms, st)
    decreases |ms|, 0
  {
    var m := ms[0];
    StepWithinLine(s, m, st);
    LexLoopAgrees(s, m.end, ms[1..], st);
    LoopSkipsWithinLine(s, ms, st);
    AgreeOnSkipped(s, ms, st, st);
  }

  /** The induction step of LexLoopAgrees for a kept match. */
  lemma {:induction false} KeptAgrees(s: string, i: nat, ms: seq<Match>, st: LexState)
    requires Tiles(s, i, ms) && StateAt(s, i, st)
    requires ms != [] && ms[0].cat.Kept()
    ensures LoopAgrees(s, ms, st)
    decreases |ms|, 0
  {
    TilesTail(s, i, ms);
    var m := ms[0];
    assert WellFormedMatch(s, m);
    NoLineFeedCount(s, m.start, m.end);
    StepWithinLine(s, m, st);
    LexLoopAgrees(s, m.end, ms[1..], st);
    AgreeOnKept(s, ms, st);
  }

  /** `lexer(s)` against the reference: success exactly when no character is left
      unmatched; then the tokens are the kept matches with their reference line
      and column; otherwise the error names the first unmatched character. */
  lemma LexMatchesReference(s: string)
    ensures var ms := Scan(s, 0);
      var bad := FirstMismatch(ms);
      && (Lex(s).Success? <==> bad.None?)
      && (Lex(s).Success? ==> Lex(s).value == ReferenceTokens(s, ms))
      && (Lex(s).Failure? ==> bad.Some? && bad.value.start < |s| && Lex(s).error == ErrorAt(s, bad.value.start))
  {
    LexRunsLoopOverScan(s);
    LoopAgreesFromStart(s);
  }

  lemma LexRunsLoopOverScan(s: string)
    ensures Lex(s) == LexLoop(s, Scan(s, 0), LexState(1, 0))
  {
  }

  lemma LoopAgreesFromStart(s: string)
    ensures LoopAgrees(s, Scan(s, 0), LexState(1, 0))
  {
    assert s[..0] == [];
    LexLoopAgrees(s, 0, Scan(s, 0), LexState(1, 0));
  }
}
