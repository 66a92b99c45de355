# A verified model of the completion engine

This project models the pure text engine and the cache layer of the SQL completion library and
proves what its parts promise one another. `dafny verify dfyconfig.toml` checks all of it.

What is modelled, one module per component:

- **The scanner** (`Lexer`, `Scanning`, `Literals`, `Spellings`, `Documents`, `Parens`, `Dialects`).
  Every scanner is written as the loop the source runs and proved against a function on what is left of
  the text. `Literals` and `Spellings` say what those functions mean: whatever is written as a string, a
  comment, a number, a name, an operator or a parameter is read as one, of just that length. On top stand
  the facts later stages lean on: the scan is total and lossless, depth encodes matching, and cutting a
  document at its semicolons does not change how a piece lexes.
- **Token analysis** (`Clauses`, `Governing`, `Branches`, `Ctes`, `WrittenCtes`, `ScopeWalk`,
  `QueryBodies`, `ScopeLevels`, `SelectList`, `Endings`, `QuotedKeywords`). The clause index, the memo of
  a token stream, the clause that governs a caret, the branch of a set operation it stands in, the WITH
  clause and the scope walk, the query a caret is in and where a FROM clause belongs, and what quoted
  names do to all of these. `WrittenCtes`, `QueryBodies` and `Endings` describe declarations, queries in
  parens and the clauses behind a list by their tokens, without the functions that find them. The methods
  of the walk pass their place on the stack along as a ghost parameter with a bound no call may pass, so
  how deep they nest is checked at every call.
- **Names** (`Quoting`, `Aliases`, `Decimal`). A name written is read back; a free alias always exists.
- **Ranking** (`Rank`, `BestFirst`, `Sorting`). A shortlist grows until it is enough, and the answer is
  the one ranking everything would give; `BestFirst` says of the candidates what that is. `Sorting` is
  Python's stable sort, pinned down by what it keeps.
- **The marker compiler** (`Render`, `Markers`, `Protected`, `Driver`). Neutral `$1` and `$2...` SQL is
  translated into the five styles of PEP 249 (module global `paramstyle`), and `Driver` reads each style
  back as a driver would: text and bound values. `Protected` follows each literal of a query through
  both. `FusedMarkers` follows queries through it that go wrong.
- **Caching** (`Utf8Bytes`, `CacheKeys`, `MemoryCache`, `Requests`, `BulkColumns`). Keys with a decoder,
  the bounded cache as a class with a run semantics, and requests as a state machine of atomic steps over
  one shared cache. `Requests.CachingReader` is the reader itself: its methods are proved to be runs of
  that machine, so what holds of every interleaving holds of them.
- **Edits and positions** (`Insertion`, `Plans`, `Joints`, `Snippets`, `Positions`). Each is an encoder
  with the reader that undoes it: edits applied, the snippet grammar of the LSP 3.17 specification, and
  its positions.
- **Concrete texts** (`PlainTexts`, `SpacedBody`, and parts of `QuotedKeywords` and `Joints`). Short
  texts lexed token by token, on which the code does not do what it says.

Characters are Dafny's, the Unicode tables an abstract record (`Text.Unicode`) of which `Text.Sound` is
assumed: what letters, digits, spaces and ASCII symbols have to do with one another. A few results assume
a little more of the tables, each shown consistent by `Text.Ascii`: `Text.LowersOnce`, that lower-casing
twice is lower-casing once; `Text.KnowsAscii`, that ASCII letters are letters with the upper case they
have; and for `$1x` that `x` is no decimal digit. Of a dialect's clauses `Clauses.WellNamed` is asked
where needed: longest names first, as they are sorted, and no two of the same words.

## Where the code falls short of what it says

Each of these is the code as it stands, with the exact condition under which it does what it says and
an input on which it does not.

- A marker rendered in the `numeric` style takes a digit that follows it, and in the `named` style a
  digit or a name character: `$1...5`, and plain `$1x` (`Driver.RenderedReadsBack` has the condition;
  `FusedMarkers.SpreadBeforeDigitFuses` and `FusedMarkers.MarkerBeforeNameFuses` the inputs).
- A snippet stop right before a digit is swallowed by it (`Snippets.SnippetRoundTrip`,
  `Snippets.AStopBeforeADigitIsLost`).
- The scope walk looks a query's body up under its first token, while the WITH clause filed it under
  the token after its paren, so `AS ( SELECT ...)` with a space is not recognised as a declared body
  and sees its own name and the scope round it (`ScopeWalk.ViewOfADeclaredBody`,
  `SpacedBody.ASpaceHidesTheBody`). A space after the paren hides a LATERAL before it in the same way
  (`ScopeWalk.LateralIsSeen`).
- A FROM clause wanted in a subquery is written outside it when a space or a comment stands behind the
  subquery's paren, because only a paren with a statement right behind it is taken to open a query
  (`SelectList.QueryFoundIsTheCarets`, `SelectList.ClauseLandsInTheQuery`,
  `SpacedBody.TheClauseGoesOutside`), which the comment at analyse.py:1692-1701 sets out to prevent. The
  same test tells groups not yet closed that are calls from those that are queries
  (`Parens.UnclosedCallDepth` takes it as a parameter, `SelectList.SeenUnlessSpaced` says what it misses).
- Set operators, the words that open a body, RECURSIVE and MATERIALIZED are read in quoted names too,
  although analyse.py:1117-1120 says that a quoted word is a name: `SELECT x, "union" FROM t` loses its
  FROM and `WITH "recursive" AS (SELECT x)` its declaration (`Branches.QuotedNamesCutBranches` and the
  lemmas of `QuotedKeywords`).
- A template spliced after a space was led in has every blank one character early
  (`Insertion.StopsStandInTheText`, `Insertion.ALedInSpaceShiftsTheBlank`).
- A pending blank past a FROM clause written by the same plan is not moved by that clause's length
  (`Insertion.BlanksKeepTheirPlace`, `Insertion.ABlankPastTheClauseIsEarly`).
- A pending blank strictly inside the span replaced keeps its offset, which may lie past the end of the
  new text (`Insertion.CaretInText`, `Insertion.ABlankInsideMayFallOutside`).
- The separators do not look for combining marks and dots: a name may take in what is written behind a
  bare mark, and a number what is written behind a dot (`Joints.NamesAndNumbersEndAtJoints`,
  `Joints.AMarkJoinsNames`, `Joints.ADotJoinsNumbers`).

## Model

| member | source | states |
|---|---|---|
| Lexer.ScanQuotedIdent | src/pysqlsuggestions/engine/lex.py:131-143 | the quoted name ends at its first undoubled quote or at the end of input, and its value has every doubled quote once |
| Lexer.ScanNumber | src/pysqlsuggestions/engine/lex.py:146-158 | digits and dots, and an exponent only when a digit follows it |
| Lexer.MatchOperator | src/pysqlsuggestions/engine/lex.py:161-169 | the longest operator the dialect knows that starts here, else a single operator character |
| Lexer.ScanString | src/pysqlsuggestions/engine/lex.py:172-192 | a doubled quote stays inside; a backslash takes the next character with it where escapes are on, even at the end of input |
| Lexer.ScanBlockComment | src/pysqlsuggestions/engine/lex.py:201-216 | the comment closes with its last level when comments nest and at the first closer when they do not |
| Lexer.ScanBody | src/pysqlsuggestions/engine/lex.py:237-249 | how far a placeholder body runs for each kind of body |
| Lexer.ScanPlaceholder | src/pysqlsuggestions/engine/lex.py:265-293 | the first declared placeholder, longest opener first, that reads to its close |
| Lexer.ReadLexeme | src/pysqlsuggestions/engine/lex.py:350-436 | one turn of the main loop reads exactly the lexeme of the specification, in the order the branches are tried |
| Lexer.Lex | src/pysqlsuggestions/engine/lex.py:335-448 | the token list is the specified one for every text, starts, texts, values, flags and clamped depths included |
| Literals.StringsEnd | src/pysqlsuggestions/engine/lex.py:172-192 | a literal ends at the first quote outside a doubled pair and, with escapes on, outside a backslash pair; it is left open iff there is none |
| Literals.StringsAreRead | src/pysqlsuggestions/engine/lex.py:172-192 | any content between quotes, its quotes (and backslashes where they escape) doubled, reads as one closed string of just that length, before anything but a quote |
| Literals.EscapeStringsAreRead | src/pysqlsuggestions/engine/lex.py:172-234 | behind the escape prefix backslashes escape whatever its default, and the prefix belongs to the string |
| Literals.FlatCommentsEnd | src/pysqlsuggestions/engine/lex.py:201-216 | a comment that does not nest ends with the first closer behind its opener, found independently, or is left open |
| Literals.NestedCommentsAreRead | src/pysqlsuggestions/engine/lex.py:201-216 | a comment written with others inside it, to any depth, reads as one closed comment of just that length |
| Literals.OpenCommentsAreRead | src/pysqlsuggestions/engine/lex.py:201-216 | such a comment without its own closer is left open at the end of the text |
| Literals.FlatCommentsAreRead | src/pysqlsuggestions/engine/lex.py:201-216 | where comments do not nest, any text without a closer is one comment, openers in it or not |
| Literals.LineCommentsAreRead | src/pysqlsuggestions/engine/lex.py:195-198 | a line comment is read to the end of its line and is closed iff another line follows |
| Literals.DollarQuotesAreRead | src/pysqlsuggestions/engine/lex.py:219-228 | a text between two like dollar tags is one string up to the first place the tag stands again |
| Spellings.WhatBegins | src/pysqlsuggestions/engine/lex.py:350-436 | which kind of token begins at a place, told from the characters there: the first that is so of space, comments, strings, parameters, dollar quotes, names, numbers, the seven marks of punctuation, operators; else unknown |
| Spellings.NamesAreRead | src/pysqlsuggestions/engine/lex.py:123-128 | a whole word is one unquoted name, its value in the case the dialect folds to |
| Spellings.NumbersAreRead | src/pysqlsuggestions/engine/lex.py:146-158 | digits with dots and an exponent with its sign read as one number, and nothing behind them |
| Spellings.OperatorsAreLongest | src/pysqlsuggestions/engine/lex.py:161-169 | the operator read is the longest of the dialect that stands there, and there is none only where none does |
| Spellings.LongestOpenerReads | src/pysqlsuggestions/engine/lex.py:252-293 | the parameter read is of a declared form with no longer opener among those that read there |
| Spellings.DigitsAreRead | src/pysqlsuggestions/engine/lex.py:237-293 | a numbered parameter takes every digit there is and is none without one |
| Spellings.ParameterNamesAreRead | src/pysqlsuggestions/engine/lex.py:237-293 | a named parameter takes the whole name and is none without one |
| Spellings.ClosedParametersAreRead | src/pysqlsuggestions/engine/lex.py:237-293 | a closed parameter ends with the first closer, and with the text where there is none |
| Scanning.LexTiles | src/pysqlsuggestions/engine/lex.py:335-448 | the scan is total and lossless: tokens are not empty, stand end to end from 0 to the end of the text, and joined give the text back |
| Scanning.NextLocal | src/pysqlsuggestions/engine/lex.py:131-293 | whatever the main loop reads before a semicolon does not depend on what follows the semicolon, for every scanner including the dollar-quote search |
| Documents.StatementAt | src/pysqlsuggestions/engine/analyse.py:162-187 | the engine's token range: after the last semicolon that starts before the caret, up to the first that does not |
| Documents.SplitAt | lsp/pysqlsuggestions_lsp/documents.py:28-44 | the editor's piece of text is cut at the boundaries of the same description |
| Documents.SplittersAgree | lsp/pysqlsuggestions_lsp/documents.py:28-44 | that description leaves one choice, so both splitters choose the same boundaries |
| Documents.PieceIsTheStatement | lsp/pysqlsuggestions_lsp/documents.py:28-44 | the editor's piece, lexed alone, gives the very tokens the engine takes for the caret's statement in the whole text, offsets moved |
| Documents.RelexingIsLocal | lsp/pysqlsuggestions_lsp/documents.py:28-44 | lexing the piece gives the whole text's tokens between those semicolons: same kinds, texts, values and flags, offsets moved; only depth may differ |
| Dialects.ShippedDialectsFit | src/pysqlsuggestions/dialects/postgres.py:465-480 | the syntax records of all four shipped dialects meet what splitting and quoting ask of one |
| Parens.LexedDepthsCount | src/pysqlsuggestions/engine/lex.py:426-436 | on every lexed text a token's depth is the count of open parens before it, never below zero, a closer carrying the outer one |
| Parens.DanglesOrPartners | src/pysqlsuggestions/engine/analyse.py:2423-2430 | an open paren either has no partner before the limit or has exactly one |
| Parens.ClosingMatches | src/pysqlsuggestions/engine/analyse.py:2423-2430 | the first closer at an open paren's depth is its partner by balance, and everything between is deeper |
| Parens.MatchingParen | src/pysqlsuggestions/engine/analyse.py:2423-2430 | returns that partner when it lies before the limit and the limit otherwise |
| Parens.UnclosedOpens | src/pysqlsuggestions/engine/analyse.py:1791-1799 | the stack the scan leaves is exactly the ascending list of opens with no partner in the range |
| Parens.UnclosedCallDepth | src/pysqlsuggestions/engine/analyse.py:1765-1806 | the bisected lookup equals the number of partnerless opens before the index that do not open a query |
| Clauses.NamesAreLongestFirst | src/pysqlsuggestions/dialects/base.py:419-421 | sorted, names of more words come first, then longer names, then by text, and none is lost |
| Clauses.ReadIdentRun | src/pysqlsuggestions/engine/analyse.py:1113-1136 | the next words, unquoted, trivia skipped, and where they end; nothing when another token comes first |
| Clauses.SpellsIsWritten | src/pysqlsuggestions/engine/analyse.py:1113-1136 | words are read at a place iff they stand there at ascending places, unquoted and in any case, with only trivia between; the end is one past the last |
| Clauses.ByFirstWord | src/pysqlsuggestions/engine/analyse.py:1951-1963 | each first word leads to exactly the names that begin with it, in their order; a blank name to none |
| Clauses.ScanClauseStart | src/pysqlsuggestions/engine/analyse.py:1924-1947 | trying only the names under the word written finds what trying every name finds |
| Clauses.IndexLosesNothing | src/pysqlsuggestions/engine/analyse.py:1924-1963 | the name a full search would answer with is always among those the index offers |
| Clauses.LongestClauseWins | src/pysqlsuggestions/engine/analyse.py:1924-1963 | the scan answers exactly when some clause is written there word for word, with one written there than which none has more words, ending one past its last word |
| Clauses.TiesDoNotMatter | src/pysqlsuggestions/engine/analyse.py:1951-1963 | two longest-first orders of the same clauses recognise the same words with the same end |
| Clauses.TokenMemo.Remembered | src/pysqlsuggestions/engine/analyse.py:1830-1856 | the answer is always the fresh one, the memo never grows past its limit nor forgets, though answering may ask again |
| Governing.ScanForClause | src/pysqlsuggestions/engine/analyse.py:1078-1110 | the running best over the range, by end and then by words, each match read after the best so far |
| Governing.ScanFindsTheNearest | src/pysqlsuggestions/engine/analyse.py:1078-1110 | the answer is a clause written at that depth wholly before the caret that reads as one in its turn; of all that do none ends nearer or, ending there, has more words; there is an answer whenever there is one |
| Governing.MatchIsTheClause | src/pysqlsuggestions/engine/analyse.py:1078-1136 | what counts as a clause at a place is the longest written there, by its places in the text |
| Governing.NearestLevelGoverns | src/pysqlsuggestions/engine/analyse.py:999-1058 | the clause answered is that of the deepest level round the caret at which any is written, each level looked at from the paren that opens it |
| Governing.ClauseAt | src/pysqlsuggestions/engine/analyse.py:999-1058 | passing over depths without a word answers what asking at every depth outward would |
| Ctes.AfterClause | src/pysqlsuggestions/engine/analyse.py:2159-2181 | the end of the first clause of that name at that depth, or nothing |
| Ctes.ReadDeclaredColumns | src/pysqlsuggestions/engine/analyse.py:2400-2420 | the first name after each comma of the list's own level, and the index past its closer |
| WrittenCtes.ColumnsAreDeclared | src/pysqlsuggestions/engine/analyse.py:2400-2420 | the columns are the names with no other name between them and the last comma of that level, all of them, in order |
| WrittenCtes.FirstClauseIsFound | src/pysqlsuggestions/engine/analyse.py:2159-2181 | the clause looked for is the first written by that name, by its places, no deeper than the rest of the span |
| ScopeWalk.SubqueryBodies | src/pysqlsuggestions/engine/analyse.py:1391-1405 | the loop gives the bodies of the specification |
| ScopeWalk.BodiesAre | src/pysqlsuggestions/engine/analyse.py:1391-1405 | those are all the parenthesised queries one level down, each once and in order, with first token and partner |
| QueryBodies.BodiesAreQueries | src/pysqlsuggestions/engine/analyse.py:1391-1405 | a body is a paren no deeper than anything else of the span with SELECT, WITH, VALUES or TABLE first in it, ended by its partner |
| QueryBodies.FirstQueryIsEntered | src/pysqlsuggestions/engine/analyse.py:1203-1211 | the walk goes into the first of those with the caret between its first character and its last, or at either end; into none iff none has |
| QuotedKeywords.QuotedNamesOpenBodies | src/pysqlsuggestions/engine/analyse.py:1391-1405 | the bodies listed are those unquoted words open iff none of them begins with a quoted name |
| QuotedKeywords.AQuotedRecursiveIsPassedOver | src/pysqlsuggestions/engine/analyse.py:2354-2359 | declarations are read from where unquoted words say they begin iff no quoted "recursive" leads them; one that does is passed over |
| QuotedKeywords.QuotedModifiersAreSkipped | src/pysqlsuggestions/engine/analyse.py:2369-2370 | the modifiers passed over are those written as words iff none of them is quoted |
| QuotedKeywords.AQuotedColumnCutsTheBranch | src/pysqlsuggestions/engine/analyse.py:1288-1310 | `SELECT x, "union" FROM t`, lexed: the branch round a caret behind the x ends at the column name, and the FROM is outside |
| QuotedKeywords.AQuotedNameLosesItsDeclaration | src/pysqlsuggestions/engine/analyse.py:2331-2397 | `WITH "recursive" AS (SELECT x)`, lexed: read as a recursive WITH that declares nothing, in any dialect where WITH begins but one clause |
| Branches.BranchAt | src/pysqlsuggestions/engine/analyse.py:1288-1310 | the branch is bounded by the set operators of the span's level nearest round the caret |
| Branches.OneBranch | src/pysqlsuggestions/engine/analyse.py:1288-1310 | a range is that branch iff it begins at the span or behind an operator before the caret, ends at the span or at an operator not before it, and holds none |
| Branches.OperatorsAre | src/pysqlsuggestions/engine/analyse.py:1288-1385 | the operators that cut are the names UNION, INTERSECT and EXCEPT in any case, no deeper than any token of the span but trivia |
| Branches.QuotedNamesCutBranches | src/pysqlsuggestions/engine/analyse.py:1288-1310 | the branch is the one unquoted words alone would leave iff no quoted name bounds it |
| Ctes.CteListIsInOrder | src/pysqlsuggestions/engine/analyse.py:2331-2397 | declared bodies come strictly one after another, each opened by its own paren and ended by that paren's closer |
| WrittenCtes.DeclarationsAreRead | src/pysqlsuggestions/engine/analyse.py:2361-2380 | a declaration is read iff one is written: name, columns if any, AS, modifiers, paren, with only trivia between |
| WrittenCtes.ListIsRead | src/pysqlsuggestions/engine/analyse.py:2361-2396 | the list is all the declarations written one behind another with a comma next between them |
| WrittenCtes.WithListIs | src/pysqlsuggestions/engine/analyse.py:2343-2396 | that list begins behind the first WITH of the level, past the word RECURSIVE where it comes next, which makes it recursive |
| Ctes.ReadCtes | src/pysqlsuggestions/engine/analyse.py:2331-2397 | the names declared and the scope of each body are those of the specification; its calls stand at most 2 * remaining + 1 above it on the stack |
| Ctes.BodyScopesAre | src/pysqlsuggestions/engine/analyse.py:2331-2397 | every body is filed under its own span with exactly the names declared before it, its own too iff RECURSIVE |
| WrittenCtes.EachBodySees | src/pysqlsuggestions/engine/analyse.py:2381-2397 | a body's span leads to the names written before its own, its own too iff recursive, each standing for what the whole WITH leaves it |
| WrittenCtes.NamesAreReadInTurn | src/pysqlsuggestions/engine/analyse.py:2361-2396 | names are bound one after another, each to its columns or to what its body puts out with only those before it in view |
| WrittenCtes.OwnNamesComeFirst | src/pysqlsuggestions/engine/analyse.py:2102-2156 | the names of a span's own WITH hide those given of the same name, and derived tables see both |
| Ctes.ReadList | src/pysqlsuggestions/engine/analyse.py:2361-2396 | each name stands for what its body puts out with only the earlier names in view |
| Ctes.SelectOutputs | src/pysqlsuggestions/engine/analyse.py:2102-2156 | a body sees the names its own WITH declares over those given; nothing once the nesting is used up; the same bound on the stack |
| ScopeWalk.ScopeLevel | src/pysqlsuggestions/engine/analyse.py:1183-1240 | the scope is the one specified, names, parent and projection included, with at most remaining + 2 * 64 + 1 calls above it on the stack |
| ScopeWalk.WalkEndsInnermost | src/pysqlsuggestions/engine/analyse.py:1183-1240 | each scope lies strictly inside the one it is chained to, and no query one level further down holds the caret unless the nesting ran out |
| ScopeWalk.ViewOfADeclaredBody | src/pysqlsuggestions/engine/analyse.py:1205-1228 | a declared body sees exactly the names before it, and its own iff recursive, and nothing around it, iff its query begins right after its paren; else all of the level, whatever spans behind parens the levels round it filed |
| ScopeLevels.WalkComesThrough | src/pysqlsuggestions/engine/analyse.py:1183-1240 | the scope of the caret is the one every level the walk comes through leads to |
| ScopeLevels.EveryLevelIsFiled | src/pysqlsuggestions/engine/analyse.py:1226-1239 | every level holds its own bodies over spans that stand behind parens |
| ScopeLevels.LexedTriviaIsNoParen | src/pysqlsuggestions/engine/lex.py:350-377 | no white space or comment of a lexed text is spelled like a paren, so none of those spans begins behind trivia |
| ScopeLevels.DeclaredBodySees | src/pysqlsuggestions/engine/analyse.py:1164-1240 | at every level of the walk: a declared body it enters has those names with its own WITH over them and no parent, iff it begins right after its paren; otherwise every name in view there and the level's own scope |
| ScopeLevels.WhoSeesOutside | src/pysqlsuggestions/engine/analyse.py:1205-1236 | at every level: a body no WITH filed has the scope of the level round it, but for a derived table, which has none unless an unspaced LATERAL is the word before its paren |
| ScopeWalk.ScopeAt | src/pysqlsuggestions/engine/analyse.py:1164-1180 | on every token stream at most 3 * 64 + 3 calls stand on the stack, and the scope is the one specified |
| ScopeWalk.LookupFindsTheBody | src/pysqlsuggestions/engine/analyse.py:1209-1220 | a body scanned in the branch is found among those declared in the span exactly when nothing stands between its paren and its first token |
| ScopeWalk.LateralIsSeen | src/pysqlsuggestions/engine/analyse.py:1276-1285 | LATERAL is seen before a derived table exactly when nothing stands between its paren and its first token |
| SpacedBody.ASpaceHidesTheBody | src/pysqlsuggestions/engine/analyse.py:1164-1240 | `WITH a AS ( SELECT x)`, lexed: the caret in the body sees `a` itself and the statement round it, though nothing says RECURSIVE; for any clauses by which its first word reads as WITH |
| Quoting.ReadDottedPath | src/pysqlsuggestions/engine/analyse.py:2061-2073 | the path and the index after it, for every token stream |
| Quoting.LongestPathIsRead | src/pysqlsuggestions/engine/analyse.py:2061-2073 | the path read is the longest run of names with single dots between, over any trivia, ended behind its last name |
| Quoting.NamesWrittenBare | src/pysqlsuggestions/engine/rank.py:421-470 | a name is written bare iff it is not empty, differs from no reserved word by case alone, reads as one name, has only characters its server takes unquoted, and is in the case it folds to |
| Quoting.WritingUndoesReading | src/pysqlsuggestions/engine/rank.py:421-470 | any non-empty path of any names, written and lexed, reads back as that path, one terminated name token each, whatever the case rule |
| Rank.RankCandidates | src/pysqlsuggestions/engine/rank.py:126-146 | a limited ranking equals the unlimited one cut to the larger of the limit and zero; the growth loop ends |
| Rank.ShortlistLeads | src/pysqlsuggestions/engine/rank.py:180-198 | what a shortlist suggests is the front of what everything suggests, ties at the boundary and later duplicates included |
| Rank.Finish | src/pysqlsuggestions/engine/rank.py:201-251 | rendered, stably sorted, each (kind, text) once, cut |
| Rank.RankedKeepsTheBest | src/pysqlsuggestions/engine/rank.py:201-251 | best first, no (kind, text) twice, and every matching candidate is there through an occurrence at least as good |
| BestFirst.RankedIsBestFirst | src/pysqlsuggestions/engine/rank.py:68-251 | said of the candidates: each suggestion shows its own; readable before restricted, then higher score, then shorter text, then alphabetical; one for each (kind, text), no worse than any candidate it stands for |
| BestFirst.ShortlistKeepsTies | src/pysqlsuggestions/engine/rank.py:180-198 | a candidate is on the shortlist iff fewer than `take` others precede it by what needs no rendering, so every tie with the last is |
| BestFirst.OnlyMatchesScore | src/pysqlsuggestions/engine/rank.py:98-109 | a candidate has a score iff what it is hunted by matches: its match text, else its label, else its text |
| BestFirst.StrengthRaises | src/pysqlsuggestions/engine/rank.py:103-115 | a better match scores higher by the difference in strength, all else alike |
| BestFirst.PositionLowers | src/pysqlsuggestions/engine/rank.py:111-111 | a tenth of a point a place, down to the fiftieth |
| BestFirst.LocalRaises | src/pysqlsuggestions/engine/rank.py:112-113 | a local candidate scores thirty more |
| BestFirst.EarlierKindRaises | src/pysqlsuggestions/engine/rank.py:373-389 | five points a place for a kind asked for earlier, none for one not asked for; twelve more for a join |
| BestFirst.CteScoresAsTable | src/pysqlsuggestions/engine/rank.py:373-389 | a CTE asked for only as a table scores as a table |
| BestFirst.JoinScoresAbove | src/pysqlsuggestions/engine/rank.py:110-115 | a join scores twelve above the table, or the column where no table is asked for |
| Render.RenderQuery | src/pysqlsuggestions/catalogs/dbapi.py:134-221 | the text and parameters returned are those of the query's atoms in that style; the errors raised are the source's, in its order |
| Render.Rewrite | src/pysqlsuggestions/catalogs/dbapi.py:183-221 | the loop over the markers writes text, protected literals, doubled percents and spreads as specified |
| Protected.MarkersInLiteralsAreText | src/pysqlsuggestions/catalogs/dbapi.py:75-93 | on every lexed query a marker beginning in a token is text iff the token is a string, a comment or a quoted name |
| Markers.MarkersAreRead | src/pysqlsuggestions/catalogs/dbapi.py:91-131 | a marker is a dollar with every digit behind it, and three dots if they follow |
| Markers.MarkersAreSpelled | src/pysqlsuggestions/catalogs/dbapi.py:183-221 | a marker in each style: `?`, `%s`, `:1`, `:p1` and `%(p1)s`, its number in ASCII digits with no zero in front |
| Markers.RefusalSays | src/pysqlsuggestions/catalogs/dbapi.py:96-181 | which error refuses which markers, in order: a zero, two spreads, a marker behind a spread, a spread of nothing |
| Markers.RenderingRaises | src/pysqlsuggestions/catalogs/dbapi.py:134-221 | an unknown style first, then those, then a number with no value; and no error otherwise |
| Markers.NothingIsHandedOverUnasked | src/pysqlsuggestions/catalogs/dbapi.py:134-221 | as many positional values as markers, a numeric list no longer than its highest number, named keys just those of the markers |
| Render.RefusalMeans | src/pysqlsuggestions/catalogs/dbapi.py:96-181 | a query is let through exactly when its live markers start at one, are all supplied, and at most the last one spreads, over something |
| Render.RenderedWhenWellPosed | src/pysqlsuggestions/catalogs/dbapi.py:96-181 | the same said of the query text: let through and in range iff well posed |
| Driver.RenderingKeepsMeaning | src/pysqlsuggestions/catalogs/dbapi.py:134-221 | a driver of the style (PEP 249) reads back the same text and bound values, iff the query's own text is clean in that style; always for format and pyformat |
| Driver.RenderedReadsBack | src/pysqlsuggestions/catalogs/dbapi.py:134-221 | the whole way: whenever a query renders, its driver reads it back as asked iff its own text is clean in the style |
| Protected.LiteralsReadBack | src/pysqlsuggestions/catalogs/dbapi.py:134-221 | every string, comment and quoted name of a rendered query comes back character for character, behind what the text before it asks for |
| Protected.RenderedAsAsked | src/pysqlsuggestions/catalogs/dbapi.py:134-221 | the same of the whole query, with what is asked told from its tokens: read back as asked iff clean in the style |
| FusedMarkers.SpreadBeforeDigitFuses | src/pysqlsuggestions/catalogs/dbapi.py:134-221 | `$1...5` on Postgres renders and is read back as something else in the numeric and named styles |
| FusedMarkers.MarkerBeforeNameFuses | src/pysqlsuggestions/catalogs/dbapi.py:134-221 | `$1x` on Postgres renders and is read back as something else in the named style |
| BulkColumns.Group | src/pysqlsuggestions/catalogs/dbapi.py:316-318 | tables grouped by catalog and schema, in the order asked, places in the order first asked |
| BulkColumns.ColumnsFor | src/pysqlsuggestions/catalogs/dbapi.py:289-330 | each relation gets exactly its own rows of its own place's one query, in that query's order, and is left out when there are none |
| BulkColumns.BatchIsManySingles | src/pysqlsuggestions/catalogs/dbapi.py:289-330 | when the batched query agrees with the single one, every asked relation gets what a read of it alone would give |
| BulkColumns.OtherPlacesGetNothing | src/pysqlsuggestions/catalogs/dbapi.py:289-330 | a catalog or schema nobody asked about is never answered |
| BulkColumns.OnlyKeepsOrder | src/pysqlsuggestions/catalogs/dbapi.py:321-329 | the rows kept for a table are all its column rows, in order |
| CacheKeys.Quote | src/pysqlsuggestions/caches/keys.py:68-82 | the quoted component byte by byte |
| Utf8Bytes.DecodingRestores | src/pysqlsuggestions/caches/keys.py:68-82 | the bytes of a text decode to that text |
| CacheKeys.ComponentRoundTrip | src/pysqlsuggestions/caches/keys.py:85-87 | absent, empty and a literal dash are all told apart by a reader |
| CacheKeys.SafeTextIsKept | src/pysqlsuggestions/caches/keys.py:65-82 | ASCII letters, digits, underscores and dots stand in a key as they are |
| CacheKeys.OtherAsciiIsEscaped | src/pysqlsuggestions/caches/keys.py:65-82 | any other ASCII character is a percent sign and its two upper-case hex digits |
| CacheKeys.KeyRoundTrip | src/pysqlsuggestions/caches/keys.py:143-158 | a decoder gives back identity, dialect, kind and every part of any key |
| CacheKeys.KeysAreInjective | src/pysqlsuggestions/caches/keys.py:143-158 | equal keys mean equal identity, dialect, kind and parts |
| CacheKeys.AKeyWrittenOut | src/pysqlsuggestions/caches/keys.py:143-158 | one key in full: `3:f00d:-:+pg:fk:+` |
| MemoryCache.Cache.constructor | src/pysqlsuggestions/caches/memory.py:78-117 | an empty cache with the bound and lifetime given |
| MemoryCache.Cache.Get | src/pysqlsuggestions/caches/memory.py:119-139 | a hit moves the entry to the end; a miss or an expired entry is counted, and the latter dropped |
| MemoryCache.Cache.Set | src/pysqlsuggestions/caches/memory.py:141-162 | the entry is stored last with its deadline, and the first dropped when the bound is passed |
| MemoryCache.Cache.Delete | src/pysqlsuggestions/caches/memory.py:164-178 | the entry is gone and the counters kept |
| MemoryCache.Cache.Clear | src/pysqlsuggestions/caches/memory.py:180-194 | no entry is left and the counters are kept |
| MemoryCache.EveryRunHolds | src/pysqlsuggestions/caches/memory.py:119-194 | over every run: one entry a key, never more than the bound, each holding the value last set, in the order of last use |
| MemoryCache.GetIsSound | src/pysqlsuggestions/caches/memory.py:119-139 | an answer is the value last set for that key, not deleted or cleared since and not expired |
| MemoryCache.AnswersUntilItsTime | src/pysqlsuggestions/caches/memory.py:119-162 | whatever came before: a value just set is answered until the lifetime it was given, else the default one, is over, and from that moment on is not |
| MemoryCache.AnswersWereSet | src/pysqlsuggestions/caches/memory.py:119-139 | an answer was handed to the cache under that key: what a request reading through it counts on |
| MemoryCache.KeepsWhatIsInUse | src/pysqlsuggestions/caches/memory.py:119-162 | a bounded cache answers as a plain map with deadlines for every key since whose last use fewer other keys than the bound have been used |
| MemoryCache.UnboundedIsAMap | src/pysqlsuggestions/caches/memory.py:119-194 | without a bound, read no earlier than anything before it, the cache answers exactly as a plain map with deadlines |
| MemoryCache.EvictsLeastRecentlyUsed | src/pysqlsuggestions/caches/memory.py:141-162 | an eviction drops the least recently used entry, never the one just set |
| MemoryCache.CountersAddUp | src/pysqlsuggestions/caches/memory.py:196-212 | hits and misses are the gets, expiries are misses, and new keys are entries, evictions, expiries and removals |
| Requests.KeysTellApart | src/pysqlsuggestions/resolve.py:338-353 | two reads share a key only when they are one read by one role in one dialect |
| Requests.KeysSayWhatIsRead | src/pysqlsuggestions/resolve.py:338-353 | read back, the key of each kind of read says role, dialect, kind and the path it is scoped to, in order |
| Requests.NextIsSound | src/pysqlsuggestions/resolve.py:355-425 | any atomic step of any request keeps that request sound and the shared cache true |
| Requests.EveryRunIsSound | src/pysqlsuggestions/resolve.py:302-538 | over every interleaving of requests on one cache that misses, drops or fails: answers are the role's own, no key is fetched by two reads of a request (a relation repeated within one batch counts once), at most two cache calls fail, and only what a single read would store is stored |
| Requests.RolesAreIsolated | src/pysqlsuggestions/resolve.py:338-353 | every answer of every request is what its own role's catalog says |
| Requests.AnswersDependOnTheRoleAlone | src/pysqlsuggestions/resolve.py:485-538 | cached or not, batched or not, two requests of one role asking the same are told the same |
| Requests.BusyRequestsFinish | src/pysqlsuggestions/resolve.py:355-425 | a request between steps is never stuck, and every step brings it nearer its answer |
| Requests.CachingReader.constructor | src/pysqlsuggestions/resolve.py:305-336 | a reader that remembers nothing and has not failed |
| Requests.CachingReader.Cached | src/pysqlsuggestions/resolve.py:383-406 | a get that raises latches; a miss, or held bytes the codec cannot read, does not |
| Requests.CachingReader.Store | src/pysqlsuggestions/resolve.py:408-425 | a failing set latches and raises nothing |
| Requests.CachingReader.Read | src/pysqlsuggestions/resolve.py:355-381 | one call is a run of the steps above and answers with the role's own answer; the memo, then a usable cache spares the catalog; what is fetched is remembered and handed on; a cache that failed is left alone |
| Requests.CachingReader.PrefetchColumns | src/pysqlsuggestions/resolve.py:485-538 | a batch, repeats in it or not, is a run of the steps above and answers nothing itself; a relation the catalog leaves out is remembered and stored as empty |
| Requests.CachingReader.ScanRelations | src/pysqlsuggestions/resolve.py:502-517 | the first loop: what is neither remembered nor held by a usable cache is missing |
| Requests.CachingReader.FillMissing | src/pysqlsuggestions/resolve.py:524-538 | the second loop: each relation of the batch remembered, and handed to the cache while that may be asked |
| Requests.BatchLeaves | src/pysqlsuggestions/resolve.py:485-538 | however the cache answers: when a batch is over all its relations but one at most are remembered, nothing remembered or, if all was held, nothing at all was fetched, and a failed cache was left alone |
| Requests.FetchedIsHandedOver | src/pysqlsuggestions/resolve.py:378-425 | whatever is fetched while the cache may be asked is remembered and handed to it |
| Snippets.Snippet | lsp/pysqlsuggestions_lsp/convert.py:91-110 | the text with its stops written in, in text order, numbered in visiting order, specials escaped |
| Snippets.ExpandSnippet | src/pysqlsuggestions/engine/rank.py:254-273 | the plain text and the stops in visiting order, 0 last |
| Snippets.SnippetRoundTrip | lsp/pysqlsuggestions_lsp/convert.py:91-110 | reading gives back text and stops, in any visiting order and with repeats, iff no stop stands right before what the reader takes for a digit |
| Snippets.ClientsSeeTheText | lsp/pysqlsuggestions_lsp/convert.py:91-110 | for a client reading "Snippet Syntax" of the LSP 3.17 specification that digit is an ASCII one |
| Snippets.ExpandingUndoesWriting | src/pysqlsuggestions/engine/rank.py:254-273 | for text without special characters the engine's own expansion gives the same pair, iff no stop stands before a decimal digit |
| Snippets.AStopBeforeADigitIsLost | lsp/pysqlsuggestions_lsp/convert.py:91-110 | `x5` with a stop between: read as placeholder 15 |
| Positions.LineStarts | lsp/pysqlsuggestions_lsp/documents.py:103-126 | strictly ascending, and exactly the offsets past an LF, a CRLF or a lone CR |
| Positions.LineStartsAreUnique | lsp/pysqlsuggestions_lsp/documents.py:103-126 | no other list meets that description |
| Positions.PositionsLeadBack | lsp/pysqlsuggestions_lsp/documents.py:129-151 | decoding (line, units) recovers the offset, in UTF-8, UTF-16 and UTF-32, lone surrogates included |
| Positions.PositionsAscend | lsp/pysqlsuggestions_lsp/documents.py:129-151 | one offset is before another iff its position is, line first |
| Positions.AstralCharactersCountTwice | lsp/pysqlsuggestions_lsp/documents.py:47-51 | UTF-16 counts one more than code points for each character outside the basic plane |
| SelectList.FindBranch | src/pysqlsuggestions/engine/analyse.py:1690-1691 | the branch the caret stands in, of its statement |
| SelectList.BranchRoundIs | src/pysqlsuggestions/engine/analyse.py:1690-1691 | that is the one range bounded by the statement and its own set operators nearest round the caret |
| SelectList.FindWindow | src/pysqlsuggestions/engine/analyse.py:1702-1706 | the window the search stepping outward settles on |
| SelectList.QueryFoundIsInnermost | src/pysqlsuggestions/engine/analyse.py:1702-1706 | on every lexed text that is the span inside the last paren standing open at the caret right behind which a statement begins, up to its partner; or the branch |
| SelectList.SeenUnlessSpaced | src/pysqlsuggestions/engine/analyse.py:1809-1812 | a statement is seen right behind a paren iff one begins inside it with no trivia first |
| SelectList.CaretHasOneQuery | src/pysqlsuggestions/engine/analyse.py:1682-1701 | the caret's own query, described apart from the search and whatever trivia stands behind its paren: there is exactly one |
| SelectList.QueryFoundIsTheCarets | src/pysqlsuggestions/engine/analyse.py:1682-1735 | the query found is the caret's own iff that is the branch or has no trivia right behind its paren |
| SelectList.QueryHoldsTheCaret | src/pysqlsuggestions/engine/analyse.py:1702-1706 | on every lexed text the query found begins before all tokens past the caret and ends after all before it |
| SelectList.ScanList | src/pysqlsuggestions/engine/analyse.py:1707-1735 | past the last token before the first later clause at the query's depth, or before its end, never below the caret |
| SelectList.SelectListEnd | src/pysqlsuggestions/engine/analyse.py:1682-1735 | the offset is where the list of the query found ends |
| SelectList.ClauseOffsetFits | src/pysqlsuggestions/engine/analyse.py:1682-1735 | inside the text, at or past the caret, before every later clause past the caret with only trivia between, and no further on: at the caret or behind a token that is not trivia |
| Endings.ListEndsWhereClausesBegin | src/pysqlsuggestions/engine/analyse.py:1682-1735 | told from the clauses written: the clause goes before each one but SELECT that begins at the level of the query past the caret, and no nearer than behind the last token before the first of them |
| Endings.StatementsOpenQueries | src/pysqlsuggestions/engine/analyse.py:1692-1706 | a paren holds a query iff the first token in it that is not trivia begins a clause that opens a statement |
| SelectList.ClauseLandsInTheQuery | src/pysqlsuggestions/engine/analyse.py:1682-1735 | where the caret's own query is closed: the offset is in it, before its closing paren, iff no trivia stands right behind its opening one; else behind the closing paren |
| Insertion.BuildText | src/pysqlsuggestions/api.py:136-174 | the text to insert and the caret of its own, by kind |
| Insertion.PlanInsertion | src/pysqlsuggestions/api.py:120-207 | the plan is the specified one, its FROM clause at the offset of the query found |
| Plans.WhatIsWritten | src/pysqlsuggestions/api.py:136-174 | the text with parens iff a call wants them and is not called already, a dot iff a namespace has none, and a space on a side only where two names or numbers would meet |
| Plans.AFunctionIsCalledOnce | src/pysqlsuggestions/api.py:144-152 | behind a function accepted with parens stands one open paren, the one it brings or the one that was there |
| Plans.ANamespaceIsDottedOnce | src/pysqlsuggestions/api.py:154-174 | behind a namespace stands one dot, the one it brings or the one that was there |
| Plans.WhereTheCaretGoes | src/pysqlsuggestions/api.py:176-207 | to the first stop of a template; between the parens of a call that takes arguments or behind a dot; to the first pending blank; or behind the text; the rest handed back |
| Plans.AClauseNamesItsRelation | src/pysqlsuggestions/api.py:210-223 | a FROM clause is written iff the suggestion names a relation, with that path, where the list of the query found ends |
| Insertion.RelationEdit | src/pysqlsuggestions/api.py:210-223 | the clause names the relation quoted as needed, exactly where the select list of the query found ends |
| Insertion.ClauseGoesToTheCaretsQuery | src/pysqlsuggestions/api.py:210-223 | the clause goes into the caret's own closed query iff no trivia stands right behind its paren, else behind it |
| SpacedBody.TheClauseGoesOutside | src/pysqlsuggestions/api.py:210-223 | `WITH a AS ( SELECT x)`, lexed: a column taken at the x has its FROM clause written behind the paren, in every dialect where SELECT opens a statement |
| Insertion.ApplySuggestion | src/pysqlsuggestions/api.py:226-250 | the edits made in order give what both would give at once, and the caret lies in it |
| Insertion.EditsCompose | src/pysqlsuggestions/api.py:247-250 | edits applied in listed order equal both replacements made at once on the original; everything outside is kept |
| Insertion.CaretInText | src/pysqlsuggestions/api.py:180-207 | caret and blanks lie inside the new text iff no pending blank stands inside the replaced span further in than the new text is long |
| Insertion.ABlankInsideMayFallOutside | src/pysqlsuggestions/api.py:186-186 | `abc` replaced by `x` with a blank at 2: the caret is sent to 2 in a text of one character |
| Insertion.BlanksKeepTheirPlace | src/pysqlsuggestions/api.py:186-186 | a blank at or past the span stands where both replacements made at once put it iff it is not past the FROM clause; past it, it is that clause's length too early |
| Insertion.ABlankPastTheClauseIsEarly | src/pysqlsuggestions/api.py:180-223 | a text of one space with a blank behind it, taking a column whose relation is missing: the caret goes to 3, inside the clause |
| Insertion.BlanksKeepTheirText | src/pysqlsuggestions/api.py:186-186 | a blank at or past the span has the same text to its right iff the plan has one edit |
| Insertion.EarlierBlanksStay | src/pysqlsuggestions/api.py:186-186 | a blank before the span keeps its place and the text to its left |
| Insertion.StopsStandInTheText | src/pysqlsuggestions/api.py:181-184 | a template's blank has the template's own text after it iff no space was led in |
| Insertion.ALedInSpaceShiftsTheBlank | src/pysqlsuggestions/api.py:181-184 | `1` accepting a template `x` with its stop after the x: the caret lands before the x |
| Insertion.NothingFuses | src/pysqlsuggestions/api.py:253-292 | by the test of the code neither joint of an insertion at a point fuses |
| Joints.NamesAndNumbersEndAtJoints | src/pysqlsuggestions/api.py:253-292 | in the lex of the new text an unquoted name runs over a joint iff a bare combining mark joins it to a name character there, and a number iff a dot or its unfinished exponent stands there |
| Joints.NameAtAJoint | src/pysqlsuggestions/api.py:290-292 | the same of any name at any place the test passes |
| Joints.NumberAtAJoint | src/pysqlsuggestions/api.py:290-292 | the same of any number |
| Joints.AMarkJoinsNames | src/pysqlsuggestions/api.py:253-292 | a name ending in a bare mark takes in a `b` accepted behind it |
| Joints.ADotJoinsNumbers | src/pysqlsuggestions/api.py:253-292 | `1.` takes in a `5` accepted behind it: one number |
| Insertion.CaretBetweenParens | src/pysqlsuggestions/api.py:148-152 | a call that takes arguments leaves the caret between its parentheses |
| Insertion.CaretAfterDot | src/pysqlsuggestions/api.py:154-174 | a namespace leaves the caret right after its dot, written or already there |
| Aliases.AliasForms | src/pysqlsuggestions/engine/local.py:117-137 | each form once and none empty; there are none only when the name has no word |
| Aliases.FormsAre | src/pysqlsuggestions/engine/local.py:117-137 | from the words between underscores: the initials of several, then the first letter, then the first three of a longer first word, each once |
| Aliases.FreeAlias | src/pysqlsuggestions/engine/joins.py:248-269 | the first unreserved form nothing answers to, else the stem with the least free number from 2; always one |
| Aliases.LeastFree | src/pysqlsuggestions/engine/joins.py:265-269 | the numbered loop ends after at most as many turns as names are taken, at the least free number |
| Aliases.FreeAliasIsNotTaken | src/pysqlsuggestions/engine/joins.py:248-269 | the alias, lower-cased, is not among the names taken |

## Left out

- Lone surrogates in the scanner: a Dafny `char` is a Unicode scalar value; `Positions` models them.
- `str.isalpha` and its kin, `str.lower`, `str.upper`, `unicodedata.combining`: an abstract record.
- Python's limit on how many digits `int()` reads.
- Floating-point scores: `Rank` computes in reals, with `round` a parameter.
- `_match_strength` and `_render`: parameters of a ranking request.
- Word boundaries and initials of the match tiers: they would only add easy members.
- The text of the errors `render` raises, and which query they quote.
- `_fingerprint` and the JSON codec: the fingerprint is any colon-free string, and decoding any partial
  function; that what it reads under a key was stored there is assumed of the cache.
- Cached values of `None`, and a catalog whose answers change while requests run.
- A catalog that raises in the middle of a read: the request it belongs to ends there.
- `SupportsQueryableRelations` falling back to `tables`: it is then the other read, with its own key.
- Locks, finalizers and the clock of the in-process cache: each method is one atomic step given a time.
- The redis adapter, HTTP readers, database connections and the language server's threads and protocol.
- `lru_cache` and `@cache`: they remember answers of pure functions.
- Ctes.SelectOutputs: what a select list puts out, and which bodies are derived tables, are parameters;
  the projection of a WITH and the order it is read in are not.
- ScopeWalk.ScopeLevel: the relations of a FROM clause and the `excluded` alias of ON CONFLICT are not modelled.
- Joints.NamesAndNumbersEndAtJoints: joints inside strings, comments, quoted names, operators and parameters are not
  spoken of; the separators do not look for them either.
- Clauses.TokenMemo.Remembered: keys are any type with equality; that each caller's key names all it reads is not.
- Governing.ScanFindsTheNearest: which statement openers read as names after which clause is a parameter.
- Snippets.SnippetRoundTrip: a reader that meets a placeholder, choice or variable form answers nothing;
  no such form is ever written.
- `loose_columns`, `search_relations` and `keywords`: never cached, so nothing is shared.
- Candidate building in `resolve.py` and the kind-narrowing of `request.py`: long case tables.
- Introspection queries and row mappers of the dialects: a query is a function from arguments to rows.
