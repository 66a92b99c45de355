/**
 A quoted word is a name, and clauses are read so; but set operators, the words that open a body, RECURSIVE
 and the modifiers of a declaration are not. When the two readings agree, and texts on which they do not.
 */
module QuotedKeywords {
  import opened Wrappers
  import opened Text
  import opened Lexer
  import opened Parens
  import opened Clauses
  import opened Quoting
  import opened Branches
  import opened Ctes
  import opened PlainTexts
  import opened Scanning
  import Dialects
  import Documents
  import ScopeWalk

  // ------------------------------------------------------------- when they agree

  /** A body that a word opens. */
  predicate IsWrittenBody(u: Unicode, ts: seq<Token>, b: ScopeWalk.Body, lo: nat, hi: nat)
    requires hi <= |ts|
  {
    ScopeWalk.IsBody(u, ts, b, lo, hi) && IsWord(ts[b.lo])
  }

  /** The bodies the scan lists are those that words open exactly when no quoted name begins one. */
  lemma QuotedNamesOpenBodies(u: Unicode, ts: seq<Token>, lo: nat, hi: nat)
    requires DepthsCount(ts) && lo <= hi <= |ts|
    ensures var bs := ScopeWalk.BodiesOf(u, ts, lo, hi);
            && ((forall b :: b in bs <==> IsWrittenBody(u, ts, b, lo, hi))
                <==> forall k | 0 <= k < |bs| :: !ts[bs[k].lo].quoted)
  {
    hide DepthsCount, BaseDepth, Level;
    ScopeWalk.BodiesAre(u, ts, lo, lo, hi);
  }

  /** Where the declarations begin for a reader of words. */
  function FirstWritten(u: Unicode, ts: seq<Token>, start: nat, hi: nat): nat
    requires hi <= |ts|
  {
    var i := SkipForward(ts, start, hi);
    if SaysRecursive(u, ts, start, hi) && !ts[i].quoted then SkipForward(ts, i + 1, hi) else i
  }

  /**
   Declarations are read from where words say they begin exactly when no quoted "recursive" leads them;
   one that does is passed over, and no declaration read is of that name's own.
   */
  lemma AQuotedRecursiveIsPassedOver(u: Unicode, ts: seq<Token>, start: nat, hi: nat)
    requires hi <= |ts|
    ensures var i := SkipForward(ts, start, hi);
            var first := FirstCte(u, ts, start, hi);
            && (first == FirstWritten(u, ts, start, hi) <==> !(SaysRecursive(u, ts, start, hi) && ts[i].quoted))
            && (first != FirstWritten(u, ts, start, hi) ==>
                  forall k | 0 <= k < |CteList(u, ts, first, hi)| :: CteList(u, ts, first, hi)[k].at > i)
  {
    hide CteList, IsCte;
    var first := FirstCte(u, ts, start, hi);
    CteListIsInOrder(u, ts, first, first, hi);
    forall k | 0 <= k < |CteList(u, ts, first, hi)| ensures CteList(u, ts, first, hi)[k].at >= first {
      IsCteFrom(ts, CteList(u, ts, first, hi)[k], first, hi);
    }
  }

  lemma IsCteFrom(ts: seq<Token>, c: Cte, lo: nat, hi: nat)
    requires IsCte(ts, c, lo, hi)
    ensures lo <= c.at
  {
  }

  function SkipWritten(u: Unicode, ts: seq<Token>, i: nat, hi: nat): (r: nat)
    requires hi <= |ts|
    ensures i <= r
    decreases |ts| - i
  {
    if i < hi && IsModifier(u, ts[i]) && !ts[i].quoted then SkipWritten(u, ts, SkipForward(ts, i + 1, hi), hi) else i
  }

  /** The same modifiers are passed over exactly when none of them is quoted. */
  lemma {:induction false} QuotedModifiersAreSkipped(u: Unicode, ts: seq<Token>, i: nat, hi: nat)
    requires hi <= |ts|
    ensures SkipModifiers(u, ts, i, hi) == SkipWritten(u, ts, i, hi)
       <==> forall k | i <= k < SkipModifiers(u, ts, i, hi) && k < hi :: !(IsName(ts[k]) && ts[k].quoted)
    decreases |ts| - i
  {
    if i < hi && IsModifier(u, ts[i]) {
      QuotedModifiersAreSkipped(u, ts, SkipForward(ts, i + 1, hi), hi);
    }
  }

  // ------------------------------------------------------------- a column called "union"

  const COLUMN: string := "SELECT x, \"" + "union\" FROM t"

  predicate IsColumnText(text: string) {
    && |text| == 24 && IsColumnTail(text[11..])
    && text[0] == 'S' && text[1] == 'E' && text[2] == 'L' && text[3] == 'E' && text[4] == 'C' && text[5] == 'T'
    && text[6] == ' ' && text[7] == 'x' && text[8] == ',' && text[9] == ' ' && text[10] == '"'
  }

  predicate IsColumnTail(text: string) {
    && |text| == 13
    && text[0] == 'u' && text[1] == 'n' && text[2] == 'i' && text[3] == 'o' && text[4] == 'n' && text[5] == '"'
    && text[6] == ' ' && text[7] == 'F' && text[8] == 'R' && text[9] == 'O' && text[10] == 'M' && text[11] == ' '
    && text[12] == 't'
  }

  lemma ColumnTailIsText()
    ensures IsColumnTail("union\" FROM t")
  {
  }

  lemma ColumnIsText()
    ensures IsColumnText(COLUMN)
  {
    hide IsColumnTail;
    ColumnTailIsText();
    assert COLUMN[11..] == "union\" FROM t";
  }

  ghost predicate AreColumnTokens(u: Unicode, ts: seq<Token>) {
    && |ts| == 10
    && IsWordAt(u, ts[0], "SELECT", 0, 0) && IsTrivia(ts[1]) && IsWordAt(u, ts[2], "x", 7, 0) && IsPunct(ts[3], ",")
    && IsTrivia(ts[4]) && IsQuotedAt(ts[5], "union", 10, 0) && IsTrivia(ts[6]) && IsWordAt(u, ts[7], "FROM", 18, 0)
    && IsTrivia(ts[8]) && IsWordAt(u, ts[9], "t", 23, 0)
  }

  lemma ColumnHeadLexes(u: Unicode, text: string, ts: seq<Token>)
    requires KnowsAscii(u) && IsColumnText(text) && Left(u, text, ts, 0, 0, 0)
    ensures |ts| > 4 && Left(u, text, ts, 5, 10, 0)
    ensures IsWordAt(u, ts[0], "SELECT", 0, 0) && IsTrivia(ts[1]) && IsWordAt(u, ts[2], "x", 7, 0)
    ensures IsPunct(ts[3], ",") && IsTrivia(ts[4])
  {
    hide KnowsAscii, Left, IsWordAt;
    ReadsWord(u, text, ts, 0, 0, 0, "SELECT");
    ReadsSpace(u, text, ts, 1, 6, 0);
    ReadsWord(u, text, ts, 2, 7, 0, "x");
    ReadsMark(u, text, ts, 3, 8, 0);
    ReadsSpace(u, text, ts, 4, 9, 0);
  }

  lemma ColumnTailLexes(u: Unicode, text: string, ts: seq<Token>)
    requires KnowsAscii(u) && IsColumnText(text) && Left(u, text, ts, 5, 10, 0)
    ensures |ts| == 10 && IsQuotedAt(ts[5], "union", 10, 0) && IsTrivia(ts[6])
    ensures IsWordAt(u, ts[7], "FROM", 18, 0) && IsTrivia(ts[8]) && IsWordAt(u, ts[9], "t", 23, 0)
  {
    hide KnowsAscii, Left, IsWordAt, IsQuotedAt;
    AsciiIsKnown(u);
    ReadsQuoted(u, text, ts, 5, 10, 0, "union");
    ReadsSpace(u, text, ts, 6, 17, 0);
    ReadsWord(u, text, ts, 7, 18, 0, "FROM");
    ReadsSpace(u, text, ts, 8, 22, 0);
    ReadsWord(u, text, ts, 9, 23, 0, "t");
    TextEnds(u, text, ts, 10, 0);
  }

  /** No token of the text but the quoted name reads as a set operator. */
  lemma OnlyTheName(u: Unicode, ts: seq<Token>)
    requires KnowsAscii(u) && AreColumnTokens(u, ts)
    ensures Operators(u, ts, 0, 10) == {5}
  {
    hide KnowsAscii, BaseDepth;
    BaseIsLeast(ts, 0, 10, 0);
    UpperOf(u, "SELECT");
    UpperOf(u, "x");
    UpperOf(u, "union");
    UpperOf(u, "FROM");
    UpperOf(u, "t");
    assert AsciiUpper("union") == "UNION";
    assert AsciiUpper("SELECT") == "SELECT";
    assert AsciiUpper("FROM") == "FROM";
  }

  /**
   A caret behind the `x` of `SELECT x, "union" FROM t`: the branch found ends at the column's name, with
   the FROM outside it, where words alone leave the whole text.
   */
  lemma AQuotedColumnCutsTheBranch(u: Unicode)
    requires KnowsAscii(u)
    ensures var ts := Lexed(u, Dialects.ANSI, COLUMN);
            && |ts| == 10 && IsQuotedAt(ts[5], "union", 10, 0) && IsWordAt(u, ts[7], "FROM", 18, 0)
            && BranchOf(u, ts, 0, 10, 8) == (0, 5)
            && IsBranch(ts, WrittenOperators(u, ts, 0, 10), 0, 10, 8, 0, 10)
  {
    hide KnowsAscii, Lexed, Left, BranchOf, Operators, Rising;
    AsciiIsKnown(u);
    ColumnIsText();
    var ts := Lexed(u, Dialects.ANSI, COLUMN);
    TextStarts(u, COLUMN);
    ColumnHeadLexes(u, COLUMN, ts);
    ColumnTailLexes(u, COLUMN, ts);
    OnlyTheName(u, ts);
    Documents.LexedRises(u, Dialects.ANSI, COLUMN);
    OneBranch(u, ts, 0, 10, 8, 0, 5);
  }

  // ------------------------------------------------------------- a CTE called "recursive"

  const DECLARED: string := "WITH \"recursive" + "\" AS (SELECT x)"

  predicate IsDeclaredText(text: string) {
    && |text| == 30 && IsDeclaredTail(text[15..])
    && text[0] == 'W' && text[1] == 'I' && text[2] == 'T' && text[3] == 'H' && text[4] == ' ' && text[5] == '"'
    && text[6] == 'r' && text[7] == 'e' && text[8] == 'c' && text[9] == 'u' && text[10] == 'r' && text[11] == 's'
    && text[12] == 'i' && text[13] == 'v' && text[14] == 'e'
  }

  predicate IsDeclaredTail(text: string) {
    && |text| == 15
    && text[0] == '"' && text[1] == ' ' && text[2] == 'A' && text[3] == 'S' && text[4] == ' ' && text[5] == '('
    && text[6] == 'S' && text[7] == 'E' && text[8] == 'L' && text[9] == 'E' && text[10] == 'C' && text[11] == 'T'
    && text[12] == ' ' && text[13] == 'x' && text[14] == ')'
  }

  lemma TailIsText()
    ensures IsDeclaredTail("\" AS (SELECT x)")
  {
  }

  lemma DeclaredIsText()
    ensures IsDeclaredText(DECLARED)
  {
    hide IsDeclaredTail;
    TailIsText();
    assert DECLARED[15..] == "\" AS (SELECT x)";
  }

  ghost predicate AreDeclaredTokens(u: Unicode, ts: seq<Token>) {
    && |ts| == 11
    && IsWordAt(u, ts[0], "WITH", 0, 0) && IsTrivia(ts[1]) && IsQuotedAt(ts[2], "recursive", 5, 0) && IsTrivia(ts[3])
    && IsWordAt(u, ts[4], "AS", 17, 0) && IsTrivia(ts[5]) && Opens(ts[6]) && ts[6].depth == 0
    && IsWordAt(u, ts[7], "SELECT", 21, 1) && IsTrivia(ts[8]) && IsWordAt(u, ts[9], "x", 28, 1)
    && Closes(ts[10]) && ts[10].depth == 0
  }

  lemma DeclaredHeadLexes(u: Unicode, text: string, ts: seq<Token>)
    requires KnowsAscii(u) && IsDeclaredText(text) && Left(u, text, ts, 0, 0, 0)
    ensures |ts| > 5 && Left(u, text, ts, 6, 20, 0)
    ensures IsWordAt(u, ts[0], "WITH", 0, 0) && IsTrivia(ts[1]) && IsQuotedAt(ts[2], "recursive", 5, 0)
    ensures IsTrivia(ts[3]) && IsWordAt(u, ts[4], "AS", 17, 0) && IsTrivia(ts[5])
  {
    hide KnowsAscii, Left, IsWordAt, IsQuotedAt;
    ReadsWord(u, text, ts, 0, 0, 0, "WITH");
    ReadsSpace(u, text, ts, 1, 4, 0);
    ReadsQuoted(u, text, ts, 2, 5, 0, "recursive");
    ReadsSpace(u, text, ts, 3, 16, 0);
    ReadsWord(u, text, ts, 4, 17, 0, "AS");
    ReadsSpace(u, text, ts, 5, 19, 0);
  }

  lemma DeclaredTailLexes(u: Unicode, text: string, ts: seq<Token>)
    requires KnowsAscii(u) && IsDeclaredText(text) && Left(u, text, ts, 6, 20, 0)
    ensures |ts| == 11 && Opens(ts[6]) && ts[6].depth == 0 && IsWordAt(u, ts[7], "SELECT", 21, 1)
    ensures IsTrivia(ts[8]) && IsWordAt(u, ts[9], "x", 28, 1) && Closes(ts[10]) && ts[10].depth == 0
  {
    hide KnowsAscii, Left, IsWordAt;
    AsciiIsKnown(u);
    ReadsMark(u, text, ts, 6, 20, 0);
    ReadsWord(u, text, ts, 7, 21, 1, "SELECT");
    ReadsSpace(u, text, ts, 8, 27, 1);
    ReadsWord(u, text, ts, 9, 28, 1, "x");
    ReadsMark(u, text, ts, 10, 29, 1);
    TextEnds(u, text, ts, 11, 0);
  }

  /** What follows the quoted name is no declaration: its paren is read as a list of columns. */
  lemma NothingIsDeclared(u: Unicode, ts: seq<Token>)
    requires KnowsAscii(u) && AreDeclaredTokens(u, ts)
    ensures FirstWritten(u, ts, 1, 11) == 2 && SaysRecursive(u, ts, 1, 11) && FirstCte(u, ts, 1, 11) == 4
    ensures CteList(u, ts, 4, 11) == []
  {
    hide KnowsAscii, Declared;
    UpperOf(u, "recursive");
    assert AsciiUpper("recursive") == "RECURSIVE";
    assert SkipForward(ts, 1, 11) == 2;
    assert SkipForward(ts, 3, 11) == 4;
    assert SkipForward(ts, 5, 11) == 6;
    assert ClosingAt(ts, 0, 9, 11) == 10;
    assert ClosingAt(ts, 0, 7, 11) == 10;
    assert Columns(ts, 5, 11).1 == 11;
    assert CteAt(u, ts, 4, 11) == None;
  }

  /** `WITH "recursive" AS (SELECT x)`: the WITH is read as a recursive one that declares nothing. */
  lemma AQuotedNameLosesItsDeclaration(u: Unicode, lang: Language)
    requires KnowsAscii(u) && lang.unicode == u && Phrase("WITH", ["WITH"]) in lang.clauses
    requires forall p | p in lang.clauses && p.words != [] && p.words[0] == "WITH" :: p == Phrase("WITH", ["WITH"])
    ensures var ts := Lexed(u, Dialects.ANSI, DECLARED);
            && |ts| == 11 && IsQuotedAt(ts[2], "recursive", 5, 0)
            && WithList(lang, ts, 0, 11, MAX_NESTING) == ([], true)
  {
    hide KnowsAscii, Lexed, Left, CteList, FirstCte, SaysRecursive, BaseDepth, FirstSpelled, IsDeclaredText;
    AsciiIsKnown(u);
    DeclaredIsText();
    var ts := Lexed(u, Dialects.ANSI, DECLARED);
    TextStarts(u, DECLARED);
    DeclaredHeadLexes(u, DECLARED, ts);
    DeclaredTailLexes(u, DECLARED, ts);
    BaseIsLeast(ts, 0, 11, 0);
    UpperOf(u, "WITH");
    assert AsciiUpper("WITH") == "WITH";
    LoneNameIsSpelled(u, lang.clauses, ts, 0, "WITH");
    NothingIsDeclared(u, ts);
  }
}
