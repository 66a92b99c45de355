/**
 How each delimited form is written, and that the scanner reads what is written as one token of just that
 length (engine/lex.py): strings, comments, dollar quotes.
 */
module Literals {
  import opened Wrappers
  import opened Text
  import opened Lexer
  import Dialects
  import Quoting

  // ------------------------------------------------------------------------ strings

  /** What a string literal is made of: a plain character, a doubled quote, or a backslash and what it takes along. */
  datatype Unit = Bare(c: char) | TwoQuotes | Escape(c: char)

  predicate IsUnit(a: Unit, escapes: bool) {
    match a
    case Bare(c) => c != '\'' && !(escapes && c == '\\')
    case TwoQuotes => true
    case Escape(_) => escapes
  }

  predicate AreUnits(units: seq<Unit>, escapes: bool) {
    forall i | 0 <= i < |units| :: IsUnit(units[i], escapes)
  }

  function UnitText(a: Unit): string {
    match a
    case Bare(c) => [c]
    case TwoQuotes => "''"
    case Escape(c) => ['\\', c]
  }

  function Inside(units: seq<Unit>): string {
    if units == [] then "" else UnitText(units[0]) + Inside(units[1..])
  }

  lemma UnitIsRead(a: Unit, rest: string, escapes: bool)
    requires IsUnit(a, escapes)
    ensures StringBody(UnitText(a) + rest, escapes) == Further(|UnitText(a)|, StringBody(rest, escapes))
  {
    var s := UnitText(a) + rest;
    assert s[|UnitText(a)|..] == rest;
  }

  lemma {:induction false} UnitsAreRead(units: seq<Unit>, rest: string, escapes: bool)
    requires AreUnits(units, escapes)
    ensures StringBody(Inside(units) + rest, escapes) == Further(|Inside(units)|, StringBody(rest, escapes))
  {
    hide StringBody, UnitText, IsUnit;
    if units == [] {
      assert "" + rest == rest;
    } else {
      assert AreUnits(units[1..], escapes);
      UnitsAreRead(units[1..], rest, escapes);
      UnitIsRead(units[0], Inside(units[1..]) + rest, escapes);
      Associates(UnitText(units[0]), Inside(units[1..]), rest);
    }
  }

  /** The text behind an opening quote is units, and then the closing quote, not itself one of a pair. */
  ghost predicate ClosesAfter(s: string, escapes: bool, units: seq<Unit>) {
    && AreUnits(units, escapes) && |Inside(units)| < |s| && Inside(units) == s[..|Inside(units)|]
    && s[|Inside(units)|] == '\'' && (|Inside(units)| + 1 < |s| ==> s[|Inside(units)| + 1] != '\'')
  }

  /** It is units to its end, where a backslash may have nothing to take along. */
  ghost predicate NeverCloses(s: string, escapes: bool, units: seq<Unit>) {
    AreUnits(units, escapes) && (s == Inside(units) || (escapes && s == Inside(units) + "\\"))
  }

  lemma ClosedIsRead(s: string, escapes: bool, units: seq<Unit>)
    requires ClosesAfter(s, escapes, units)
    ensures StringBody(s, escapes) == Scan(|Inside(units)| + 1, true)
  {
    var n := |Inside(units)|;
    assert s == Inside(units) + s[n..];
    UnitsAreRead(units, s[n..], escapes);
  }

  lemma OpenIsRead(s: string, escapes: bool, units: seq<Unit>)
    requires NeverCloses(s, escapes, units)
    ensures StringBody(s, escapes) == Scan(|s|, false)
  {
    if s == Inside(units) {
      assert s == Inside(units) + "";
      UnitsAreRead(units, "", escapes);
    } else {
      UnitsAreRead(units, "\\", escapes);
    }
  }

  /** Every text is one or the other. */
  lemma {:induction false} ClosesOrNot(s: string, escapes: bool) returns (units: seq<Unit>)
    ensures ClosesAfter(s, escapes, units) || NeverCloses(s, escapes, units)
    decreases |s|
  {
    if s == "" || s == "\\" || (s[0] == '\'' && (|s| == 1 || s[1] != '\'')) {
      units := if s == "\\" && !escapes then [Bare('\\')] else [];
      assert Inside([Bare('\\')]) == "\\" by { assert [Bare('\\')][1..] == []; }
    } else {
      var a := if s[0] == '\'' then TwoQuotes else if s[0] == '\\' && escapes then Escape(s[1]) else Bare(s[0]);
      var n := |UnitText(a)|;
      var rest := ClosesOrNot(s[n..], escapes);
      units := [a] + rest;
      OneMore(s, escapes, a, rest);
    }
  }

  lemma OneMore(s: string, escapes: bool, a: Unit, rest: seq<Unit>)
    requires IsUnit(a, escapes) && UnitText(a) <= s
    requires ClosesAfter(s[|UnitText(a)|..], escapes, rest) || NeverCloses(s[|UnitText(a)|..], escapes, rest)
    ensures ClosesAfter(s, escapes, [a] + rest) || NeverCloses(s, escapes, [a] + rest)
  {
    hide UnitText, IsUnit;
    var n, units := |UnitText(a)|, [a] + rest;
    assert units[1..] == rest && Inside(units) == UnitText(a) + Inside(rest);
    assert s == UnitText(a) + s[n..];
    if ClosesAfter(s[n..], escapes, rest) {
      var m := |Inside(rest)|;
      assert s[..n + m] == UnitText(a) + s[n..][..m];
      assert s[n + m] == s[n..][m] && (n + m + 1 < |s| ==> s[n + m + 1] == s[n..][m + 1]);
    } else if s[n..] != Inside(rest) {
      Associates(UnitText(a), Inside(rest), "\\");
    }
  }

  /**
   A literal ends at the first quote outside a doubled pair and, where backslashes escape, outside a
   backslash pair; it is left open exactly when there is none.
   */
  lemma StringsEnd(s: string, escapes: bool)
    ensures StringBody(s, escapes).terminated <==> exists units :: ClosesAfter(s, escapes, units)
    ensures !StringBody(s, escapes).terminated <==> exists units :: NeverCloses(s, escapes, units)
    ensures forall units | ClosesAfter(s, escapes, units) :: StringBody(s, escapes).len == |Inside(units)| + 1
    ensures !StringBody(s, escapes).terminated ==> StringBody(s, escapes).len == |s|
  {
    hide StringBody, ClosesAfter, NeverCloses, Inside;
    var units := ClosesOrNot(s, escapes);
    if ClosesAfter(s, escapes, units) {
      ClosedIsRead(s, escapes, units);
    } else {
      OpenIsRead(s, escapes, units);
    }
    forall units | ClosesAfter(s, escapes, units) ensures StringBody(s, escapes) == Scan(|Inside(units)| + 1, true) {
      ClosedIsRead(s, escapes, units);
    }
    forall units | NeverCloses(s, escapes, units) ensures !StringBody(s, escapes).terminated {
      OpenIsRead(s, escapes, units);
    }
  }

  /** A content with its quotes doubled, and its backslashes where they escape. */
  function UnitsOf(content: string, escapes: bool): (units: seq<Unit>)
    ensures AreUnits(units, escapes)
  {
    if content == "" then []
    else
      [if content[0] == '\'' then TwoQuotes
       else if escapes && content[0] == '\\' then Escape('\\')
       else Bare(content[0])]
      + UnitsOf(content[1..], escapes)
  }

  function StringOf(content: string, escapes: bool): string {
    "'" + Inside(UnitsOf(content, escapes)) + "'"
  }

  /** No line comment of the dialect begins with `c`. */
  predicate Clear(y: Syntax, c: char) {
    forall i | 0 <= i < |y.lineComments| :: y.lineComments[i] != "" && y.lineComments[i][0] != c
  }

  lemma ClearStarts(y: Syntax, s: string)
    requires s != "" && Clear(y, s[0])
    ensures !StartsLineComment(y, s)
  {
  }

  /** Every content, written as a string, is read as one closed string of just that length. */
  lemma StringsAreRead(u: Unicode, y: Syntax, content: string, rest: string)
    requires Sound(u) && Clear(y, '\'') && (rest == "" || rest[0] != '\'')
    ensures var w := StringOf(content, y.stringEscapeBackslash);
            Next(u, y, w + rest) == Lexeme(Str, |w|, w, false, true)
  {
    hide Sound, StartsLineComment, FirstPlaceholder, CommentBody, LineComment, DollarQuote, NextWord, StringBody;
    hide Inside;
    var units := UnitsOf(content, y.stringEscapeBackslash);
    var w := StringOf(content, y.stringEscapeBackslash);
    var s := w + rest;
    SymbolsAreInert(u, '\'');
    ClearStarts(y, s);
    assert s[1..] == Inside(units) + ("'" + rest);
    assert s[1..][..|Inside(units)|] == Inside(units);
    assert ClosesAfter(s[1..], y.stringEscapeBackslash, units);
    ClosedIsRead(s[1..], y.stringEscapeBackslash, units);
    assert s[..|w|] == w;
  }

  /** With the escape prefix of the dialect before it, backslashes escape whatever the dialect's default. */
  lemma EscapeStringsAreRead(u: Unicode, y: Syntax, c: char, content: string, rest: string)
    requires Sound(u) && Clear(y, c) && !u.space(c) && c != '/' && c != '\'' && (rest == "" || rest[0] != '\'')
    requires y.escapeStringPrefix != "" && u.upper([c]) == y.escapeStringPrefix
    ensures var w := [c] + StringOf(content, true);
            Next(u, y, w + rest) == Lexeme(Str, |w|, w, false, true)
  {
    hide Sound, StartsLineComment, FirstPlaceholder, CommentBody, LineComment, DollarQuote, NextWord, StringBody;
    hide Inside;
    var units, w := UnitsOf(content, true), [c] + StringOf(content, true);
    var s := w + rest;
    ClearStarts(y, s);
    assert s[1..] == StringOf(content, true) + rest && s[1..][0] == '\'';
    assert s[2..] == Inside(units) + ("'" + rest);
    assert s[2..][..|Inside(units)|] == Inside(units);
    assert ClosesAfter(s[2..], true, units);
    ClosedIsRead(s[2..], true, units);
    assert s[..|w|] == w;
  }

  // ----------------------------------------------------------------------- comments

  /** Where comments do not nest, one ends with the first closer behind its opener. */
  lemma {:induction false} FlatCommentsEnd(s: string)
    ensures CommentBody(s, false, 1)
         == var i := Find(s, "*/"); if i.Some? then Scan(i.value + 2, true) else Scan(|s|, false)
    decreases |s|
  {
    if s != "" {
      FlatCommentsEnd(s[1..]);
      CloserHere(s);
    }
  }

  lemma CloserHere(s: string)
    ensures ClosesComment(s) <==> "*/" <= s
  {
    assert |s| > 1 ==> s[..2] == [s[0], s[1]];
  }

  lemma OccursBefore(a: string, b: string, pat: string, j: nat)
    requires j + |pat| <= |a|
    ensures OccursAt(a + b, pat, j) <==> OccursAt(a, pat, j)
  {
    assert (a + b)[j..j + |pat|] == a[j..j + |pat|];
  }

  /** A comment written with others inside it. */
  datatype Remark = Words(text: string) | Then(text: string, inner: Remark, rest: Remark)

  /** Its own words hold neither half of a delimiter. */
  predicate IsRemark(r: Remark) {
    && (forall i | 0 <= i < |r.text| :: r.text[i] != '*' && r.text[i] != '/')
    && (r.Then? ==> IsRemark(r.inner) && IsRemark(r.rest))
  }

  function RemarkText(r: Remark): string {
    match r
    case Words(text) => text
    case Then(text, inner, rest) => text + "/*" + RemarkText(inner) + "*/" + RemarkText(rest)
  }

  lemma {:induction false} WordsAreRead(text: string, rest: string, nested: bool, level: nat)
    requires level > 0 && forall i | 0 <= i < |text| :: text[i] != '*' && text[i] != '/'
    ensures CommentBody(text + rest, nested, level) == Further(|text|, CommentBody(rest, nested, level))
  {
    if text == "" {
      assert text + rest == rest;
    } else {
      assert (text + rest)[1..] == text[1..] + rest && (text + rest)[0] == text[0];
      WordsAreRead(text[1..], rest, nested, level);
    }
  }

  lemma OpenerIsRead(rest: string, level: nat)
    requires level > 0
    ensures CommentBody("/*" + rest, true, level) == Further(2, CommentBody(rest, true, level + 1))
  {
    assert ("/*" + rest)[2..] == rest;
  }

  lemma CloserIsRead(rest: string, nested: bool, level: nat)
    requires level > 0
    ensures CommentBody("*/" + rest, nested, level)
         == if level == 1 then Scan(2, true) else Further(2, CommentBody(rest, nested, level - 1))
  {
    assert ("*/" + rest)[2..] == rest;
  }

  /** A remark is read at whatever level it stands, and leaves off at that level. */
  lemma {:induction false} RemarksAreRead(r: Remark, rest: string, level: nat)
    requires IsRemark(r) && level > 0
    ensures CommentBody(RemarkText(r) + rest, true, level)
         == Further(|RemarkText(r)|, CommentBody(rest, true, level))
    decreases r
  {
    hide CommentBody;
    if r.Words? {
      WordsAreRead(r.text, rest, true, level);
    } else {
      var after := RemarkText(r.rest) + rest;
      var inside := RemarkText(r.inner) + ("*/" + after);
      WordsAreRead(r.text, "/*" + inside, true, level);
      OpenerIsRead(inside, level);
      RemarksAreRead(r.inner, "*/" + after, level + 1);
      CloserIsRead(after, true, level + 1);
      RemarksAreRead(r.rest, rest, level);
      assert RemarkText(r) + rest == r.text + ("/*" + inside);
    }
  }

  /** Where comments nest, one written with others inside it is read as one closed comment of just that length. */
  lemma NestedCommentsAreRead(u: Unicode, y: Syntax, r: Remark, rest: string)
    requires Sound(u) && y.nestedBlockComments && Clear(y, '/') && IsRemark(r)
    ensures var w := "/*" + RemarkText(r) + "*/"; Next(u, y, w + rest) == Lexeme(Comment, |w|, w, false, true)
  {
    hide Sound, StartsLineComment, FirstPlaceholder, LineComment, DollarQuote, NextWord, StringBody, CommentBody;
    var w := "/*" + RemarkText(r) + "*/";
    var s := w + rest;
    SymbolsAreInert(u, '/');
    ClearStarts(y, s);
    assert s[2..] == RemarkText(r) + ("*/" + rest);
    RemarksAreRead(r, "*/" + rest, 1);
    CloserIsRead(rest, true, 1);
    assert s[..|w|] == w;
  }

  /** One with no closer of its own is left open, at the end of the text. */
  lemma OpenCommentsAreRead(u: Unicode, y: Syntax, r: Remark)
    requires Sound(u) && y.nestedBlockComments && Clear(y, '/') && IsRemark(r)
    ensures var w := "/*" + RemarkText(r); Next(u, y, w) == Lexeme(Comment, |w|, w, false, false)
  {
    hide Sound, StartsLineComment, FirstPlaceholder, LineComment, DollarQuote, NextWord, StringBody;
    var w := "/*" + RemarkText(r);
    SymbolsAreInert(u, '/');
    ClearStarts(y, w);
    assert w[2..] == RemarkText(r) + "";
    RemarksAreRead(r, "", 1);
    assert w[..|w|] == w;
  }

  /** Where they do not, one whose text holds no closer is. */
  lemma FlatCommentsAreRead(u: Unicode, y: Syntax, text: string, rest: string)
    requires Sound(u) && !y.nestedBlockComments && Clear(y, '/')
    requires forall i: nat | i < |text| :: !OccursAt(text + "*/", "*/", i)
    ensures var w := "/*" + text + "*/"; Next(u, y, w + rest) == Lexeme(Comment, |w|, w, false, true)
  {
    hide Sound, StartsLineComment, FirstPlaceholder, LineComment, DollarQuote, NextWord, StringBody, CommentBody;
    var w := "/*" + text + "*/";
    var s := w + rest;
    SymbolsAreInert(u, '/');
    ClearStarts(y, s);
    var inside := text + "*/" + rest;
    assert s[2..] == inside;
    assert OccursAt(inside, "*/", |text|);
    forall j: nat | j < |text| ensures !OccursAt(inside, "*/", j) {
      OccursBefore(text + "*/", rest, "*/", j);
    }
    FlatCommentsEnd(inside);
    assert s[..|w|] == w;
  }

  /** A line comment is read to the end of its line, and is closed by there being another. */
  lemma LineCommentsAreRead(u: Unicode, y: Syntax, marker: string, text: string, rest: string)
    requires Sound(u) && marker in y.lineComments && marker != "" && !u.space(marker[0])
    requires (forall i | 0 <= i < |marker + text| :: (marker + text)[i] != '\n') && (rest == "" || rest[0] == '\n')
    ensures var w := marker + text; Next(u, y, w + rest) == Lexeme(Comment, |w|, w, false, rest != "")
  {
    hide Sound, FirstPlaceholder, CommentBody, DollarQuote, NextWord, StringBody, Run;
    var w := marker + text;
    var s := w + rest;
    var i :| 0 <= i < |y.lineComments| && y.lineComments[i] == marker;
    assert y.lineComments[i] <= s;
    RunIs(NotNewline, s, |w|);
    assert s[..|w|] == w;
  }

  // ------------------------------------------------------------------ dollar quotes

  /** What may stand between the dollars of a tag: nothing, or a name that does not begin with a digit. */
  predicate IsTag(u: Unicode, tag: string) {
    (forall i | 0 <= i < |tag| :: IsIdentChar(u, tag[i]) && tag[i] != '$') && (tag != "" ==> !u.digit(tag[0]))
  }

  lemma TagIsRead(u: Unicode, tag: string, rest: string)
    requires Sound(u) && IsTag(u, tag)
    ensures DollarTag(u, "$" + tag + "$" + rest) == Some(|tag| + 2)
  {
    var s := "$" + tag + "$" + rest;
    assert s[1..] == tag + "$" + rest;
    assert s[1..][|tag|..|tag| + 1] == "$";
    assert OccursAt(s[1..], "$", |tag|);
    forall j: nat | j < |tag| ensures !OccursAt(s[1..], "$", j) {
      assert s[1..][j] == tag[j];
      assert s[1..][j..j + 1][0] == tag[j];
    }
    assert s[..|tag| + 2] == "$" + tag + "$";
  }

  lemma DollarBodyIsRead(mark: string, text: string, rest: string)
    requires forall i: nat | i < |text| :: !OccursAt(text + mark, mark, i)
    ensures DollarBody(mark + (text + mark + rest), |mark|) == Scan(|mark + text + mark|, true)
  {
    hide OccursAt;
    var after := text + mark + rest;
    var s := mark + after;
    assert s[|mark|..] == after && s[..|mark|] == mark;
    MarkStands(mark, text, rest);
    forall j: nat | j < |text| ensures !OccursAt(after, mark, j) {
      OccursBefore(text + mark, rest, mark, j);
    }
  }

  lemma MarkStands(mark: string, text: string, rest: string)
    ensures OccursAt(text + mark + rest, mark, |text|)
  {
    assert (text + mark + rest)[|text|..|text| + |mark|] == mark;
  }

  /** A dollar-quoted text is read as one closed string up to the first place its tag stands again. */
  lemma DollarQuotesAreRead(u: Unicode, tag: string, text: string, rest: string)
    requires Sound(u) && IsTag(u, tag)
    requires var mark := "$" + tag + "$"; forall i: nat | i < |text| :: !OccursAt(text + mark, mark, i)
    ensures var w := "$" + tag + "$" + text + "$" + tag + "$";
            Next(u, Dialects.POSTGRES, w + rest) == Lexeme(Str, |w|, w, false, true)
  {
    hide Sound, CommentBody, LineComment, NextWord, StringBody, Run, DollarTag, FirstPlaceholder, Tried;
    hide IsTag, OccursAt;
    hide DollarBody;
    var mark := "$" + tag + "$";
    var w := "$" + tag + "$" + text + "$" + tag + "$";
    var s, after := w + rest, text + mark + rest;
    SymbolsAreInert(u, '$');
    assert w == mark + text + mark && s == mark + after;
    NoParameterHere(u, tag, after);
    TagIsRead(u, tag, after);
    DollarBodyIsRead(mark, text, rest);
    assert s[..|w|] == w;
  }

  lemma NoParameterHere(u: Unicode, tag: string, rest: string)
    requires Sound(u) && IsTag(u, tag)
    ensures FirstPlaceholder(u, Tried(Dialects.POSTGRES), "$" + tag + "$" + rest).None?
  {
    hide Sound, Tried;
    var s := "$" + tag + "$" + rest;
    SymbolsAreInert(u, '$');
    assert s[1..] == tag + "$" + rest;
    forall p | p in Tried(Dialects.POSTGRES) ensures Reads(u, p, s).None? {
      assert p in Dialects.POSTGRES.placeholders;
      if p.opens == "$" {
        assert s[1..] != "" && !u.digit(s[1..][0]);
      }
    }
    NothingReads(u, Tried(Dialects.POSTGRES), s);
  }

  lemma {:induction false} NothingReads(u: Unicode, ps: seq<Placeholder>, s: string)
    requires (forall p | p in ps :: p.opens != "") && forall p | p in ps :: Reads(u, p, s).None?
    ensures FirstPlaceholder(u, ps, s).None?
  {
    hide Reads;
    if ps != [] {
      NothingReads(u, ps[1..], s);
    }
  }
}
