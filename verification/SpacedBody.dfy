/**
 A text in which a space stands behind the paren of a declared body: the scope walk does not recognise the
 body, and a FROM clause wanted in it is written outside.
 */
module SpacedBody {
  import opened Wrappers
  import opened Text
  import opened Lexer
  import opened Parens
  import opened Clauses
  import opened Branches
  import opened Ctes
  import opened ScopeWalk
  import opened ScopeLevels
  import opened PlainTexts
  import Dialects
  import Documents
  import Insertion
  import Quoting
  import Scanning
  import SelectList

  // --------------------------------------------------------------------- the example

  const TEXT: string := "WITH a AS ( SELECT x)"

  /** The text, letter by letter. */
  predicate IsText(text: string) {
    && |text| == 21
    && text[0] == 'W' && text[1] == 'I' && text[2] == 'T' && text[3] == 'H' && text[4] == ' '
    && text[5] == 'a' && text[6] == ' ' && text[7] == 'A' && text[8] == 'S' && text[9] == ' '
    && text[10] == '(' && text[11] == ' ' && text[12] == 'S' && text[13] == 'E' && text[14] == 'L'
    && text[15] == 'E' && text[16] == 'C' && text[17] == 'T' && text[18] == ' ' && text[19] == 'x' && text[20] == ')'
  }

  lemma TextIsText()
    ensures IsText(TEXT)
  {
  }

  /** What the walk asks of the tokens of the text. */
  ghost predicate AreTokens(u: Unicode, ts: seq<Token>) {
    && |ts| == 12
    && IsWordAt(u, ts[0], "WITH", 0, 0) && IsWordAt(u, ts[2], "a", 5, 0) && IsWordAt(u, ts[4], "AS", 7, 0)
    && IsWordAt(u, ts[8], "SELECT", 12, 1) && IsWordAt(u, ts[10], "x", 19, 1)
    && Opens(ts[6]) && ts[6].depth == 0 && Closes(ts[11]) && ts[11].depth == 0 && ts[11].start == 20 && ts[11].end == 21
    && Quoting.IsTrivia(ts[1]) && Quoting.IsTrivia(ts[3]) && Quoting.IsTrivia(ts[5]) && Quoting.IsTrivia(ts[7])
    && Quoting.IsTrivia(ts[9])
  }

  lemma HeadLexes(u: Unicode, text: string, ts: seq<Token>)
    requires KnowsAscii(u) && IsText(text) && Left(u, text, ts, 0, 0, 0)
    ensures |ts| > 5 && Left(u, text, ts, 6, 10, 0)
    ensures IsWordAt(u, ts[0], "WITH", 0, 0) && IsWordAt(u, ts[2], "a", 5, 0) && IsWordAt(u, ts[4], "AS", 7, 0)
    ensures Quoting.IsTrivia(ts[1]) && Quoting.IsTrivia(ts[3]) && Quoting.IsTrivia(ts[5])
  {
    hide LexFrom, KnowsAscii, Left, IsWordAt;
    ReadsWord(u, text, ts, 0, 0, 0, "WITH");
    ReadsSpace(u, text, ts, 1, 4, 0);
    ReadsWord(u, text, ts, 2, 5, 0, "a");
    ReadsSpace(u, text, ts, 3, 6, 0);
    ReadsWord(u, text, ts, 4, 7, 0, "AS");
    ReadsSpace(u, text, ts, 5, 9, 0);
  }

  lemma BodyLexes(u: Unicode, text: string, ts: seq<Token>)
    requires KnowsAscii(u) && IsText(text) && Left(u, text, ts, 6, 10, 0)
    ensures |ts| > 11 && Left(u, text, ts, 12, |text|, 0)
    ensures Opens(ts[6]) && ts[6].depth == 0 && Quoting.IsTrivia(ts[7]) && IsWordAt(u, ts[8], "SELECT", 12, 1)
    ensures Quoting.IsTrivia(ts[9]) && IsWordAt(u, ts[10], "x", 19, 1) && Closes(ts[11]) && ts[11].depth == 0
    ensures ts[11].start == 20 && ts[11].end == 21
  {
    hide LexFrom, KnowsAscii, Left, IsWordAt;
    ReadsMark(u, text, ts, 6, 10, 0);
    ReadsSpace(u, text, ts, 7, 11, 1);
    ReadsWord(u, text, ts, 8, 12, 1, "SELECT");
    ReadsSpace(u, text, ts, 9, 18, 1);
    ReadsWord(u, text, ts, 10, 19, 1, "x");
    ReadsMark(u, text, ts, 11, 20, 1);
  }

  lemma TextLexes(u: Unicode, text: string)
    requires KnowsAscii(u) && IsText(text)
    ensures AreTokens(u, Lexed(u, Dialects.ANSI, text))
  {
    hide LexFrom, Lexed, KnowsAscii, Left, IsText, IsWordAt;
    AsciiIsKnown(u);
    var ts := Lexed(u, Dialects.ANSI, text);
    TextStarts(u, text);
    HeadLexes(u, text, ts);
    BodyLexes(u, text, ts);
    TextEnds(u, text, ts, 12, 0);
  }

  // ------------------------------------------------------------ the walk on those tokens

  ghost predicate Speaks(lang: Language, u: Unicode, ts: seq<Token>) {
    KnowsAscii(u) && lang.unicode == u && SpelledAt(u, lang.clauses, ts, 0, "WITH")
  }

  lemma Uppers(u: Unicode, ts: seq<Token>)
    requires KnowsAscii(u) && AreTokens(u, ts)
    ensures u.upper(ts[0].value) == "WITH" && u.upper(ts[2].value) == "A" && u.upper(ts[4].value) == "AS"
    ensures u.upper(ts[8].value) == "SELECT" && u.upper(ts[10].value) == "X"
  {
    hide KnowsAscii;
    UpperOf(u, "WITH");
    UpperOf(u, "a");
    UpperOf(u, "AS");
    UpperOf(u, "SELECT");
    UpperOf(u, "x");
  }

  lemma OneOpen(u: Unicode, ts: seq<Token>)
    requires AreTokens(u, ts)
    ensures forall k | 0 <= k < 12 && Opens(ts[k]) :: k == 6
  {
  }

  lemma BaseIsZero(u: Unicode, ts: seq<Token>)
    requires AreTokens(u, ts)
    ensures BaseDepth(ts, 0, 12) == 0
  {
    BaseIsLeast(ts, 0, 12, 0);
  }

  lemma WithIsFound(lang: Language, u: Unicode, ts: seq<Token>)
    requires Speaks(lang, u, ts) && AreTokens(u, ts)
    ensures ClauseEnd(lang, ts, 0, 12, "WITH", 0) == Some(1)
  {
    hide KnowsAscii, FirstSpelled;
  }

  lemma DeclarationIsRead(u: Unicode, ts: seq<Token>)
    requires KnowsAscii(u) && AreTokens(u, ts)
    ensures FirstCte(u, ts, 1, 12) == 2 && !SaysRecursive(u, ts, 1, 12)
    ensures CteList(u, ts, 2, 12) == [Cte(2, u.lower("a"), [], 6, 11)]
  {
    hide KnowsAscii;
    Uppers(u, ts);
    assert Quoting.SkipForward(ts, 1, 12) == 2;
    assert Quoting.SkipForward(ts, 3, 12) == 4;
    assert Columns(ts, 3, 12) == ([], 3);
    assert Quoting.SkipForward(ts, 5, 12) == 6;
    assert ClosingAt(ts, 0, 9, 12) == 11;
    assert ClosingAt(ts, 0, 7, 12) == 11;
    assert CteAt(u, ts, 2, 12) == Some(Cte(2, u.lower("a"), [], 6, 11));
    assert Quoting.SkipForward(ts, 12, 12) == 12;
  }

  lemma BranchIsAll(lang: Language, u: Unicode, ts: seq<Token>)
    requires Speaks(lang, u, ts) && AreTokens(u, ts)
    ensures BranchOf(u, ts, 0, 12, 20) == (0, 12)
  {
    hide KnowsAscii, Branch, BaseDepth;
    Uppers(u, ts);
    BaseIsZero(u, ts);
    assert forall k | 0 <= k < 12 :: !IsSetOperator(u, ts[k], 0);
    BranchIs(u, ts, 0, 0, 12, 0, 20);
  }

  lemma BodyIsThere(lang: Language, u: Unicode, ts: seq<Token>)
    requires Speaks(lang, u, ts) && AreTokens(u, ts) && DepthsCount(ts)
    ensures Inner(lang, ts, 0, 12, 20) == Some(Body(6, 8, 11))
    ensures Inner(lang, ts, 8, 11, 20) == None
  {
    hide KnowsAscii, Inner, DepthsCount, IsBody, BranchOf;
    Uppers(u, ts);
    OneOpen(u, ts);
    BaseIsZero(u, ts);
    BranchIsAll(lang, u, ts);
    assert Quoting.SkipForward(ts, 7, 12) == 8;
    assert ClosingAt(ts, 0, 9, 12) == 11;
    assert ClosingAt(ts, 0, 7, 12) == 11;
    assert BodyAt(u, ts, 6, 12, 0) == Some(Body(6, 8, 11));
    BodyAtIsBody(u, ts, 0, 12, 6);
    InnerIsBody(lang, ts, 0, 12, 20);
    BodiesOpen(u, ts, 0, 12);
    InnerIsBody(lang, ts, 8, 11, 20);
    var (start, end) := BranchOf(u, ts, 8, 11, 20);
    BodiesOpen(u, ts, start, end);
  }

  lemma BodiesOpen(u: Unicode, ts: seq<Token>, lo: nat, hi: nat)
    requires hi <= |ts|
    ensures forall b: ScopeWalk.Body | IsBody(u, ts, b, lo, hi) :: lo <= b.open < hi && Opens(ts[b.open])
  {
    hide BaseDepth, Level;
  }

  /**
   A caret after the `x` of `WITH a AS ( SELECT x)` is in the body that declares `a`. The lookup misses
   that body, so the body sees the name it is declaring and the statement around it.
   */
  lemma ASpaceHidesTheBody(u: Unicode, lang: Language)
    requires KnowsAscii(u) && Speaks(lang, u, Lexed(u, Dialects.ANSI, TEXT))
    requires lang.derived(Lexed(u, Dialects.ANSI, TEXT), 0, 12) == []
    ensures var ts := Lexed(u, Dialects.ANSI, TEXT);
            && |ts| == 12 && DepthsCount(ts)
            && WithList(lang, ts, 0, 12, MAX_NESTING) == ([Cte(2, u.lower("a"), [], 6, 11)], false)
            && var s := ScopeOf(lang, ts, 0, 12, 20);
               u.lower("a") in s.ctes && s.parent.Some? && s.parent.value.lo == 0 && s.parent.value.hi == 12
  {
    hide KnowsAscii, AreTokens, Lexed, DepthsCount, ScopeOf, Inner, LevelScope, ClauseEnd, CteList, FirstCte;
    hide SaysRecursive, BranchOf, BaseDepth, Bound, ViewOf, BodyScopes, TriviaIsNoParen;
    AsciiIsKnown(u);
    TextIsText();
    TextLexes(u, TEXT);
    var ts := Lexed(u, Dialects.ANSI, TEXT);
    LexedDepthsCount(u, Dialects.ANSI, TEXT);
    TwelveTokens(u, ts);
    BaseIsZero(u, ts);
    WithIsFound(lang, u, ts);
    DeclarationIsRead(u, ts);
    BodyIsThere(lang, u, ts);
    BranchIsAll(lang, u, ts);
    LexedTriviaIsNoParen(u, Dialects.ANSI, TEXT);
    BoundNames(lang, ts, [Cte(2, u.lower("a"), [], 6, 11)], map[], MAX_NESTING);
    DeclaredBodySees(lang, ts, 0, 12, 20, 0, Body(6, 8, 11), 0);
    var below := Below(lang, ts, 20, Top(lang, ts, 0, 12));
    LevelIs(lang, ts, 0, 12, 20, Top(lang, ts, 0, 12).view);
    LevelIs(lang, ts, 8, 11, 20, below.view);
    WalkStep(lang, ts, 8, 11, 20, below.view, below.scopes, below.remaining);
  }

  lemma TwelveTokens(u: Unicode, ts: seq<Token>)
    requires AreTokens(u, ts)
    ensures |ts| == 12 && Quoting.IsTrivia(ts[7]) && Closes(ts[11]) && ts[11].end == 21
  {
    hide IsWordAt;
  }

  lemma TextLength(text: string)
    requires IsText(text)
    ensures |text| == 21
  {
  }

  // -------------------------------------------------- a FROM clause wanted in the body

  lemma OneStatement(o: SelectList.Openers, u: Unicode, ts: seq<Token>)
    requires KnowsAscii(u) && AreTokens(u, ts) && o.unicode == u && Scanning.Rising(ts)
    ensures SelectList.BranchRound(o, ts, 20) == (0, 12) && SelectList.Started(ts, 20, 0) == 11
  {
    hide KnowsAscii, BaseDepth, SelectList.BranchRound;
    Uppers(u, ts);
    BaseIsZero(u, ts);
    assert forall k | 0 <= k < 12 :: !IsSetOperator(u, ts[k], 0);
    assert Documents.IsStatementAt(ts, 20, 0, 12);
    assert IsBranch(ts, Operators(u, ts, 0, 12), 0, 12, 20, 0, 12);
    assert SelectList.IsBranchIn(o, ts, 0, 12, 20, 0, 12);
    SelectList.BranchRoundIs(o, ts, 20, 0, 12);
  }

  /** The caret's query is the body, from the space on. */
  lemma TheBodyIsTheQuery(o: SelectList.Openers, u: Unicode, ts: seq<Token>)
    requires KnowsAscii(u) && AreTokens(u, ts) && o.unicode == u && Scanning.Rising(ts)
    requires SpelledAt(u, o.clauses, ts, 8, "SELECT") && "SELECT" in o.statementStart
    ensures SelectList.IsCaretsQuery(o, ts, 20, (7, 11)) && SelectList.BranchRound(o, ts, 20) == (0, 12)
  {
    hide KnowsAscii, SelectList.BranchRound, SelectList.Started, FirstSpelled;
    OneStatement(o, u, ts);
    OneOpen(u, ts);
    assert Level(ts, 6, 9) == 1;
    assert Level(ts, 6, 11) == 1;
    assert Quoting.SkipForward(ts, 7, 12) == 8;
    assert SelectList.QueriesOpen(o, ts, 11, 0, 12) == {6};
  }

  /**
   Behind the `x` of `WITH a AS ( SELECT x)` a column is taken whose relation `t` the query lacks: the
   FROM clause goes behind the paren, into the statement around the body.
   */
  lemma TheClauseGoesOutside(u: Unicode, d: Quoting.Dialect, o: SelectList.Openers)
    requires KnowsAscii(u) && d.syntax == Dialects.ANSI && o.unicode == u && "SELECT" in o.statementStart
    requires SpelledAt(u, o.clauses, Lexed(u, Dialects.ANSI, TEXT), 8, "SELECT")
    ensures var ts := Lexed(u, Dialects.ANSI, TEXT);
            var s := Insertion.Suggestion("x", Insertion.Other, 19, 20, false, [], ["t"]);
            && |ts| == 12 && Closes(ts[11]) && ts[11].end == 21 && SelectList.IsCaretsQuery(o, ts, 20, (7, 11))
            && Insertion.ClauseEdit(u, d, o, TEXT, s)
                 == Some(Insertion.Edit(21, 21, " FROM " + Quoting.Written(u, d, ["t"])))
  {
    hide KnowsAscii, Lexed, DepthsCount, SelectList.ClauseOffset, SelectList.IsCaretsQuery, SelectList.BranchRound;
    hide Quoting.Written, Scanning.Rising, Scanning.Tiling, FirstSpelled, AreTokens, SpelledAt, IsText;
    AsciiIsKnown(u);
    TextIsText();
    TextLexes(u, TEXT);
    var ts := Lexed(u, Dialects.ANSI, TEXT);
    TwelveTokens(u, ts);
    LexedDepthsCount(u, Dialects.ANSI, TEXT);
    Documents.LexedRises(u, Dialects.ANSI, TEXT);
    Scanning.LexTiles(u, Dialects.ANSI, TEXT);
    TextLength(TEXT);
    TheBodyIsTheQuery(o, u, ts);
    OutsideTheBody(o, u, ts, TEXT);
  }

  lemma OutsideTheBody(o: SelectList.Openers, u: Unicode, ts: seq<Token>, text: string)
    requires AreTokens(u, ts) && DepthsCount(ts) && Scanning.Rising(ts) && Scanning.Tiling(ts, text, 0) && |text| == 21
    requires SelectList.IsCaretsQuery(o, ts, 20, (7, 11)) && SelectList.BranchRound(o, ts, 20) == (0, 12)
    ensures SelectList.ClauseOffset(o, ts, 20) == 21
  {
    hide AreTokens, DepthsCount, Scanning.Rising, Scanning.Tiling, SelectList.IsCaretsQuery, SelectList.ClauseOffset;
    TwelveTokens(u, ts);
    SelectList.ClauseLandsInTheQuery(o, ts, 20, text, (7, 11));
    SelectList.ClauseOffsetFits(o, ts, 20, text);
  }
}
