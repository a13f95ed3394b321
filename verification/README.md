# MiniJava front end in Dafny

A model of the two stages of a small MiniJava front end: the regular-expression
lexer of `lexer.py` and the recursive-descent parser of `parser.py`, with the
syntax tree's text rendering. Both stages are pure functions here. The lexer maps
a string to a `Result` of tokens or an "unexpected character" error. The parser
maps a token sequence and a position to a `Result` of a parsed value and the
position after it. Python's exceptions become `Failure` values.

Modules, in dependency order:

- `Wrappers` (wrappers.dfy): `Option` and a `Result` usable with `:-`.
- `Tokens` (tokens.dfy): the token categories of `TOKEN_SPECIFICATION`, the `EOF`
  sentinel, `Token`, and line-feed counting.
- `Lexer` (lexer.dfy): one hand-written matcher per category of the master pattern.
  Each has the same first-alternative-wins semantics as Python's `re` on ASCII text.
  The lexer also has the first-category-wins choice between the matchers
  (`MatchAt`), the left-to-right scan of `re.finditer` (`Scan`), and the token loop
  with its `line_num`/`line_start` state (`LexLoop`, `Lex`).
- `LexerPositions` (lexer_positions.dfy): an independent statement of where
  tokens are. It gives the line as one plus the line feeds before the token, and
  the column as the offset from a line origin defined on the text alone. It proves
  that `Lex` returns exactly those tokens, or fails at the first unmatched
  character.
- `LexerFacts` (lexer_facts.dfy): consequences of the category order and of the
  alternative order:
  - keywords against identifiers (`if` against `iffy`);
  - the shadowed operators `>=`, `<=` and `!=`;
  - digit runs glued to letters;
  - comments;
  - line ordering and columns;
  - the proved results of `Lex` on a few concrete inputs.
- `Tree` (tree.dfy): `Node` and `__repr__`. The rendering is related to a reference
  outline: one line per node in pre-order, indented by depth.
- `Parser` (parser.py's `Parser` class, parser.dfy): `consume`, `lookahead` and the
  `parse_*` functions. They are mutually recursive, and termination is measured
  by the tokens left.
- `Grammar` (grammar.dfy): a description of the accepted language that does not
  use the parser. It defines the well-formed command trees and the token lexemes
  each tree is spelled with (`UnparseCmd`).
- `ParseSteps`, `Completeness`, `Soundness` (parse_steps.dfy, completeness.dfy,
  soundness.dfy): `parse_cmd` and `parse_cmds` accept exactly the spellings of
  well-formed trees and return the tree spelled. The command grammar is
  unambiguous.
- `Program` (program.dfy): the same round trip for `parse_main` and `parse_prog`.

Behaviour of the code that the model keeps:

- Columns count from the end of the WHITESPACE match that held the last line
  feed, not from the line feed itself, so a token after an indented line break
  has column 0 (`IndentedTokenAtColumnZero`, `FirstLineColumn`). A COMMENT never
  holds a line feed, because `.` stops at one.
- Tokens that run out where `consume` expects a `}` give the unexpected-end error.
  That is the case when only the last `}` of the program is missing. Tokens that
  run out where `parse_cmds` expects another command or its closing `}` give an
  unexpected-token error instead, because `parse_cmd` receives the `EOF` sentinel.
- `parse_prog` ignores whatever follows the main class, unless it starts with the
  RESERVED `class`. That calls the undefined `parse_class`, modelled as the error
  `ClassDeclNotImplemented` (`ProgIgnoresTrailing`, `ProgRejectsSecondClass`).

## Model

| member | source | states |
|---|---|---|
| Lexer.FirstAltSpec | lexer.py:7-10 | A group of alternatives picks the first alternative, in listed order, that matches here (with `\b` after it for the keyword group). Every earlier one fails, and nothing is picked only when every alternative fails. |
| Lexer.MatchAltsFirst | lexer.py:7-10 | The matcher for an alternative group matches exactly the length of the first matching alternative. It fails exactly when no alternative matches. |
| Lexer.MatchAltsSpells | lexer.py:7-10 | A successful alternative group matched text equal to one listed alternative. For the keyword group, a word boundary follows that text. |
| Lexer.MatchReserved | lexer.py:7 | A RESERVED match is non-empty, lies inside the source and consists of printable characters. |
| Lexer.ReservedWhenKeyword | lexer.py:7 | RESERVED matches at i exactly when i is a word boundary and some keyword is spelled at i followed by a word boundary. |
| Lexer.MatchIdentifier | lexer.py:8 | IDENTIFIER matches exactly when the character is a letter or `_`. The match is the maximal run of word characters. |
| Lexer.BacktrackDigits | lexer.py:9 | Backtracking of `\d+\b` picks the longest digit prefix that ends at a word boundary. None exists exactly when no prefix ends at one. |
| Lexer.MatchNumber | lexer.py:9 | NUMBER matches exactly when a word boundary precedes a digit and another follows the whole digit run. The match is that whole run, since no boundary falls inside it. |
| Lexer.MatchOperator | lexer.py:10 | An OPERATOR match is non-empty, lies inside the source and is printable. |
| Lexer.MatchPunctuation | lexer.py:11 | PUNCTUATION matches exactly when the character is in its class, and then matches that one character. |
| Lexer.MatchWhitespace | lexer.py:12 | WHITESPACE matches exactly at a space character. The match is the maximal run of them. |
| Lexer.BlockClose | lexer.py:13 | The lazy `.*?\*/` stops at the first `*/`, and no line feed comes before it. |
| Lexer.BlockCloseExact | lexer.py:13 | The lazy `.*?\*/` succeeds exactly when some `*/` lies ahead with no line feed before it. |
| Lexer.MatchComment | lexer.py:13 | `//` runs to the next line feed or the end of the source. Otherwise `/*` matches exactly when a `*/` closes it before any line feed, and ends at the first one. Nothing else matches. A comment is at least two characters long and never holds a line feed. |
| Lexer.Rank | lexer.py:6-15 | A category's position in the master pattern. MISMATCH and EOF both get 7, the index of MISMATCH, the last group. |
| Lexer.MatchGroup | lexer.py:6-15 | Whatever a category's pattern matches is a non-empty, well-formed match of that category. |
| Lexer.FirstGroup | lexer.py:31-34 | The group reported by `lastgroup` is the first group, in declaration order, whose pattern matches. All earlier groups fail. |
| Lexer.MatchAt | lexer.py:31-34 | The master pattern always matches a well-formed, non-empty text at the current offset, falling back to MISMATCH. |
| Lexer.MatchAtIsFirstGroup | lexer.py:31-34 | The category and length `finditer` reports come from the first category whose pattern matches. Every category before it fails. |
| Lexer.Scan | lexer.py:33 | `finditer` tiles the source with consecutive matches from the start offset to the end. |
| Lexer.TilingCoversSource | lexer.py:33 | The texts of a tiling, concatenated in order, are the source from the tiling's start. |
| Lexer.ScanCoversSource | lexer.py:33 | Every character is matched exactly once: the matched texts in order rebuild the source. |
| Tokens.NewlineCount | lexer.py:39-40 | The number of line feeds in a text is at most its length. Tokens.NewlineCountZero states that it is zero exactly when the text holds no line feed, and Tokens.NewlineCountAppend that it adds up over concatenation. |
| Tokens.NewlineCountZero | lexer.py:39-40 | The line-feed count is zero exactly when the text holds no line feed, so the line number moves only past a line feed. |
| Tokens.NewlineCountAppend | lexer.py:40 | The line-feed count of a concatenation is the sum of the counts. |
| Lexer.LexLoop | lexer.py:33-48 | Emitted tokens are RESERVED, IDENTIFIER, NUMBER, OPERATOR or PUNCTUATION with non-empty text. There are no more of them than matches, and no line is below the starting line. |
| Lexer.Lex | lexer.py:27-48 | The lexer emits only kept categories with non-empty text and line numbers from 1. There are never more tokens than characters. |
| LexerPositions.LastNewline | lexer.py:36-41 | The offset of the last line feed before a position, or -1. |
| LexerPositions.FirstMismatch | lexer.py:43-44 | A MISMATCH among the matches with no MISMATCH before it. None exactly when there is none. |
| LexerPositions.StepOverBreak | lexer.py:38-41 | Only WHITESPACE can contain a line feed. Skipping it adds its line feeds to the line number and moves the line start to its end, which keeps the state consistent with the text. |
| LexerPositions.StepWithinLine | lexer.py:38-42 | A match without a line feed leaves the line state consistent with the text. |
| LexerPositions.LexLoopAgrees | lexer.py:33-48 | From any consistent state, the token loop yields the reference tokens of the remaining matches, or the error at their first MISMATCH. |
| LexerPositions.LexMatchesReference | lexer.py:27-48 | The lexer succeeds exactly when no MISMATCH occurs. It then returns the kept matches with line = 1 + the line feeds before them and column = the offset from the line origin. On failure it reports the first unmatched character at its line and column. |
| LexerFacts.KeywordShapes | lexer.py:7 | Every keyword starts with a letter and all but `System.out.println` are letters only. |
| LexerFacts.OperatorHeads | lexer.py:10 | Every operator starts with one of `+-*&!<>=`. |
| LexerFacts.MatchAtByGroup | lexer.py:31-34 | When group g matches and all earlier groups fail, `finditer` reports group g with g's length. |
| LexerFacts.MatchAtNoGroup | lexer.py:14 | When no named pattern matches, one character is a MISMATCH. |
| LexerFacts.NoKeywordAt | lexer.py:7 | No keyword matches at a character that is not a letter. |
| LexerFacts.NoOperatorAt | lexer.py:10 | No operator matches at a character outside `+-*&!<>=`. |
| LexerFacts.ReservedSpellsKeyword | lexer.py:7 | A RESERVED match spells a keyword and ends at a word boundary. |
| LexerFacts.ReservedSpansWord | lexer.py:7 | A RESERVED match is the whole word at its start, except `System.out.println`, which extends past the word `System`. |
| LexerFacts.WholeWordKeyword | lexer.py:7-8 | A whole word that is a keyword is RESERVED, never IDENTIFIER, and spans the keyword. This covers every keyword but `System.out.println`, whose word ends at the first dot. |
| LexerFacts.PrintlnIsReserved | lexer.py:7 | `System.out.println` between word boundaries is one RESERVED token of all eighteen characters, never an IDENTIFIER `System` followed by punctuation. |
| LexerFacts.NonKeywordIsIdentifier | lexer.py:7-8 | A word that is not a keyword (`iffy`) is one IDENTIFIER spanning the whole word. This includes `System.out.printlnx`, where no boundary follows `println` and the word `System` is the IDENTIFIER. |
| LexerFacts.PrintlnPrefixIsIdentifier | lexer.py:7-8 | `System.out.printlnx` starts with the IDENTIFIER `System`, not the RESERVED `System.out.println`. |
| LexerFacts.IdentifierSpansWord | lexer.py:8 | An identifier match is exactly the word at its start. |
| LexerFacts.ShadowedOperators | lexer.py:10 | The alternatives `>=`, `<=` and `!=` are never chosen, because `<`, `>` and `!` are listed before them. |
| LexerFacts.ComparisonIsOneCharacter | lexer.py:10 | At `<`, `>` or `!` the lexer emits a one-character OPERATOR. |
| LexerFacts.EqualsOperator | lexer.py:10-11 | `==` is the two-character OPERATOR. A lone `=` matches no operator. |
| LexerFacts.EqualsSign | lexer.py:10-11 | `==` lexes as one OPERATOR. A `=` not followed by `=` is PUNCTUATION. |
| LexerFacts.ComparisonEqualsSplits | lexer.py:10-11 | `>=`, `<=` and `!=` lex as a one-character OPERATOR followed by the PUNCTUATION `=`. |
| LexerFacts.DigitsGluedToWord | lexer.py:9-14 | A digit run followed at once by a letter or `_` has no word boundary to end a NUMBER. Its first digit is a MISMATCH. |
| LexerFacts.SlashIsCommentOrMismatch | lexer.py:13-14 | A `/` starts a COMMENT when the comment pattern matches there, and is a MISMATCH otherwise. |
| LexerFacts.BlockCloseFails | lexer.py:13 | A block comment whose line ends before any `*/` has no close. |
| LexerFacts.UnclosedBlockComment | lexer.py:13-14 | A block comment spanning a line break makes its `/` a MISMATCH. |
| LexerFacts.OriginBeforeVisible | lexer.py:36-41 | The line origin of a non-space character is not after it, so columns of tokens are never negative. |
| LexerFacts.ReferenceTokensOrdered | lexer.py:38-46 | Reference tokens never come from an earlier line than the text before them and appear in non-decreasing line order. |
| LexerFacts.LexTokensOrdered | lexer.py:29-46 | Lexed tokens have line at least 1 and column at least 0, and their lines never decrease. |
| LexerFacts.LineGap | lexer.py:38-41 | The line difference between two tokens is the number of line feeds between their starts. |
| LexerFacts.IndentedTokenAtColumnZero | lexer.py:36-41 | A token preceded on its line only by whitespace, after a line break, has column 0. |
| LexerFacts.FirstLineColumn | lexer.py:29-36 | On the first line a token is on line 1 at the column equal to its offset. |
| LexerFacts.BlankSourceHasNoTokens | lexer.py:38-42 | Source made only of whitespace yields no tokens. |
| LexerFacts.LoopEmptyWhenDiscarded | lexer.py:33-46 | From any line state, the token loop yields no tokens and no error exactly when every match it is given is WHITESPACE or COMMENT. |
| LexerFacts.NoTokensExactlyWhenDiscarded | lexer.py:33-48 | The lexer returns no tokens and no error exactly when every match is WHITESPACE or COMMENT. |
| LexerFacts.LeadingMismatchFails | lexer.py:43-44 | An unmatched first character fails with that character at 1:0. |
| LexerFacts.SingleToken | lexer.py:46 | A source that is one kept match yields exactly that token at 1:0. |
| LexerFacts.IffyIsIdentifier | lexer.py:7-8 | `iffy` is one IDENTIFIER. |
| LexerFacts.IfIsReserved | lexer.py:7 | `if` is RESERVED. |
| LexerFacts.GluedNumberRejected | lexer.py:9-14 | `12ab` fails at its `1`, at 1:0. |
| LexerFacts.ScanGreaterEqual | lexer.py:10-11 | `finditer` splits `>=` into `>` and `=`. |
| LexerFacts.GreaterEqualIsTwoTokens | lexer.py:10-11 | `>=` lexes as OPERATOR `>` at 1:0 and PUNCTUATION `=` at 1:1. |
| LexerFacts.DoubleEqualsIsOneToken | lexer.py:10 | `==` lexes as one OPERATOR. |
| LexerFacts.BlockCommentDropped | lexer.py:13 | `/* x */` is one COMMENT and lexes to no tokens. |
| LexerFacts.BrokenBlockCommentRejected | lexer.py:13-14 | A block comment over two lines fails at its `/`. |
| Tree.Indent | parser.py:11 | The indentation for a level is two spaces per level. |
| Tree.Render | parser.py:10-16 | A node's text starts with its indentation, has more after it, and ends with a line feed. Tree.RenderIsOutline states the whole text. |
| Tree.RenderAll | parser.py:13 | The joined children's text is empty exactly when there are no children, and otherwise ends with a line feed. |
| Tree.RenderIsOutline | parser.py:10-16 | The rendering is the pre-order outline of the tree, one line per node: `type: text` for a leaf and `type:` for an internal node, each indented two spaces per level of depth. |
| Tree.RenderLineCount | parser.py:10-16 | When no type or text contains a line feed, the rendering has exactly one line per node. |
| Parser.Lookahead | parser.py:34-37 | The token at the cursor, or the `EOF` sentinel with empty text and position -1:-1 past the end. |
| Parser.Consume | parser.py:24-32 | Succeeds exactly when the cursor is in range and the token has the expected type, and the expected text when one is given. It then returns that token and advances by one. Otherwise it reports the end of input or the mismatching token. |
| Parser.Expect | parser.py:24-32 | Consuming a given type and text succeeds exactly at a token of that type and text, and advances by one. |
| Parser.ParseExp | parser.py:128-138 | Accepts exactly a NUMBER, `true`/`false` or an IDENTIFIER, consuming one token. It returns a NUMBER, BOOLEAN or IDENTIFIER leaf holding the token's text. Any other token is an expression error, and the end of input an unexpected end. |
| Parser.ParseCmds | parser.py:66-70 | Stops at a PUNCTUATION `}`, which it does not consume. |
| Parser.ParseCmd | parser.py:72-89 | A command consumes at least one token and starts at `if`, `while`, `System.out.println`, an identifier or `{`. Any other lookahead, `EOF` included, is the unexpected-token error. |
| Parser.ParseBlock | parser.py:82-87 | A block command is a BLOCK node. It consumes at least its two braces, and the last token it consumes is `}`. |
| Parser.ParseGuard | parser.py:91-95 | `keyword ( exp )` is accepted exactly when its four tokens are there. It yields the expression leaf and advances by four. |
| Parser.ParseIf | parser.py:91-101 | An IF node with two or three children that starts at `if` and spans at least five tokens. |
| Parser.ParseElse | parser.py:97-101 | The position never moves back. ParseSteps.ElseShape states the IF node it builds. |
| ParseSteps.ElseShape | parser.py:97-101 | Without a following `else` the IF node is finished, with two children, and nothing is consumed. With `else`, a successful result has a third child and consumes past the `else`. The condition and then-command are the first two children either way. |
| ParseSteps.IfArity | parser.py:91-101 | The IF node has three children exactly when the token after the then-command is RESERVED `else`, and two otherwise. |
| Parser.ParseWhile | parser.py:103-109 | A WHILE node with exactly two children, starting at `while`. |
| Parser.ParsePrint | parser.py:111-117 | Accepted exactly at `System.out.println ( exp ) ;`. The result is a PRINT node whose only child is the expression leaf, and it advances by five. |
| Parser.ParseAssignment | parser.py:119-126 | Accepted exactly at `id = exp ;`. The result is an ASSIGNMENT of the identifier leaf and the expression, advancing by four. When `=` does not follow the identifier, the assignment error names the token found. |
| Parser.ParseHeader | parser.py:46-60 | The main-class header yields the class name and the parameter name and consumes fourteen tokens. |
| Parser.ParseMain | parser.py:46-64 | A MAIN node with, in order, a CLASS leaf holding the class name, a PARAMS leaf holding the parameter name and a COMMANDS node. |
| Parser.ParseProg | parser.py:39-44 | A PROG node whose only child is the MAIN node. |
| Grammar.ExpRoundTrip | parser.py:128-138 | An expression leaf is recovered from the token that spells it. |
| Grammar.ExpSound | parser.py:128-138 | Every token parse_exp accepts spells the leaf it returns. |
| Completeness.ParseCmdComplete | parser.py:72-126 | Every well-formed command is read back from its spelling, as long as an open-ended `if` is not followed by `else`, and the read stops at the spelling's end. |
| Completeness.ParseCmdsComplete | parser.py:66-70 | Every well-formed command list followed by `}` is read back, stopping at that `}`. |
| Soundness.ParseCmdSound | parser.py:72-126 | Whatever parse_cmd returns is a well-formed command spelled by exactly the tokens it consumed. |
| Soundness.ParseCmdsSound | parser.py:66-89 | Whatever parse_cmds returns is a list of well-formed commands spelled by the tokens it consumed, followed by `}`. |
| Soundness.ParseCmdExact | parser.py:72-126 | parse_cmd returns a command and end position exactly when those tokens spell that well-formed command. |
| Soundness.ParseCmdsExact | parser.py:66-70 | parse_cmds returns a list and stop position exactly when those tokens spell the well-formed list and a `}` follows. |
| Soundness.SpellingUnique | parser.py:72-126 | The command grammar is unambiguous: a token sequence spells at most one command from a position, with one end. |
| Program.HeaderTokens | parser.py:47-60 | The header spelling is the fourteen tokens `class Id { public static void main ( String [ ] Id ) {`. |
| Program.HeaderExact | parser.py:47-60 | The header is accepted exactly when the tokens spell it with the returned names, and it always consumes fourteen tokens. |
| Program.MainSound | parser.py:46-64 | Whatever parse_main returns is a well-formed main class spelled by exactly the tokens consumed. |
| Program.MainComplete | parser.py:46-64 | Every well-formed main class is read back from its spelling. |
| Program.MainExact | parser.py:46-64 | parse_main returns a tree and end position exactly when those tokens spell that well-formed main class. |
| Program.ProgExact | parser.py:39-44 | parse_prog returns the program whose only class is m exactly when the tokens begin with the spelling of m and no RESERVED `class` follows it. |
| Program.ProgRejectsSecondClass | parser.py:39-44 | A RESERVED `class` after the main class makes parse_prog fail with the undefined class-declaration error. |
| Program.ProgIgnoresTrailing | parser.py:39-44 | Tokens appended after an accepted program change nothing, unless they start with RESERVED `class`. |

## Left out

- main.py (reading the source file, printing the tree) is not part of this model.
  It is I/O.
- Python's general `re` engine is replaced by one matcher per category. `\b`, `\d`
  and `\w` are taken over ASCII only, where Python uses Unicode classes. Non-ASCII
  letters and digits are therefore not word characters here.
- Exception message strings. Errors are the datatypes `LexError` (character, line,
  column) and `SyntaxError` (which check failed and the token found).
- `parse_class` is not defined in the source. Calling it is modelled as the error
  `ClassDeclNotImplemented`, and no class-declaration grammar is invented.
- `Token.__repr__` is debug output only.
- The parser's mutable cursor becomes explicit positions. A failed parse returns
  no position, since Python's cursor after an exception is never used.
- Python's recursion limit. `parse_cmd` recurses through `parse_if`, `parse_while`
  and blocks, and `Node.__repr__` recurses over the tree, so deeply nested commands
  raise `RecursionError` in the source. The model has no depth bound.
- `ParseGuard`, `ParseElse`, `ParseBlock` and `ParseHeader` are factorings of
  `parse_if`/`parse_while`/`parse_print`, `parse_if`, `parse_cmd` and `parse_main`.
  They are not functions of the source. Where the source's `consume` is certain to
  succeed (right after a lookahead that saw the token), the model skips it.
- Lexer.MatchReserved: the contract states only bounds and printability. What it
  matches is stated by Lexer.ReservedWhenKeyword and LexerFacts.ReservedSpellsKeyword.
- Lexer.MatchOperator: the contract states only bounds and printability. What it
  matches is stated by Lexer.MatchAltsFirst and the operator lemmas of LexerFacts.
- Parser.ParseElse: the contract states only that the position does not move
  back. The IF node it builds is stated by ParseSteps.ElseShape.
- Parser.ParseCmds: the contract states only where it stops. The commands it
  returns are stated by Soundness.ParseCmdsExact.
