/** How the scanner reads short ANSI texts of words, single spaces, marks and names in double quotes. */
module PlainTexts {
  import opened Text
  import opened Lexer
  import Dialects
  import Quoting

  predicate IsMark(c: char) {
    c == '(' || c == ')' || c == ','
  }

  /** A word stands alone where `rest` follows it. */
  predicate Stands(u: Unicode, w: string, rest: string) {
    && w != "" && IsIdentStart(u, w[0]) && (forall i | 0 <= i < |w| :: IsIdentChar(u, w[i]))
    && (rest == "" || !IsIdentChar(u, rest[0]))
  }

  // ------------------------------------------------------------------- one lexeme each

  lemma WordLexes(u: Unicode, w: string, rest: string)
    requires Sound(u) && Stands(u, w, rest)
    ensures Next(u, Dialects.ANSI, w + rest) == Lexeme(Ident, |w|, u.lower(w), false, true)
  {
    var s := w + rest;
    Dialects.AnsiFits();
    Quoting.IdentStartsWord(u, Dialects.ANSI, s[0]);
    hide Next, Quoting.Quotable;
    Quoting.ReachesWord(u, Dialects.ANSI, s);
    hide Sound, IsSymbol;
    RunIs(IdentChars(u), s, |w|);
    assert s[..|w|] == w;
  }

  lemma SpaceLexes(u: Unicode, rest: string)
    requires Sound(u) && (rest == "" || !u.space(rest[0]))
    ensures Next(u, Dialects.ANSI, " " + rest) == Lexeme(Whitespace, 1, " ", false, true)
  {
    hide NextWord, FirstPlaceholder, StringLexeme, CommentBody, LineComment;
    var s := " " + rest;
    assert u.space(' ');
    hide Sound;
    RunIs(u.space, s, 1);
    assert s[..1] == " ";
  }

  lemma MarkLexes(u: Unicode, c: char, rest: string)
    requires Sound(u) && IsMark(c)
    ensures Next(u, Dialects.ANSI, [c] + rest) == Lexeme(Punct, 1, [c], false, true)
  {
    hide StringLexeme, CommentBody, LineComment, DollarQuote, NextWord, Sound, Run, Tried;
    var s := [c] + rest;
    SymbolsAreInert(u, c);
    NoPlaceholderHere(u, s);
    MarkIsPunctuation(u, c, rest);
  }

  lemma MarkIsPunctuation(u: Unicode, c: char, rest: string)
    requires Sound(u) && IsMark(c) && Inert(u, c)
    ensures NextWord(u, Dialects.ANSI, [c] + rest) == Lexeme(Punct, 1, [c], false, true)
  {
    hide Sound, QuotedBody, MatchedOperator, NumberLength;
    assert ([c] + rest)[..1] == [c];
  }

  lemma NoPlaceholderHere(u: Unicode, s: string)
    requires s != "" && (IsMark(s[0]) || s[0] == '"')
    ensures FirstPlaceholder(u, Tried(Dialects.ANSI), s).None?
  {
    forall q | q in Tried(Dialects.ANSI) ensures q.opens != "" && !(q.opens <= s) {
      assert q in Dialects.ANSI.placeholders;
      assert q.opens[0] == '?' || q.opens[0] == ':';
    }
    Quoting.NoPlaceholder(u, Tried(Dialects.ANSI), s);
  }

  /** A name in double quotes that holds none. */
  function InQuotes(name: string): string {
    "\"" + name + "\""
  }

  lemma QuotedLexes(u: Unicode, name: string, rest: string)
    requires Sound(u) && (forall i | 0 <= i < |name| :: name[i] != '"') && (rest == "" || rest[0] != '"')
    ensures Next(u, Dialects.ANSI, InQuotes(name) + rest) == Lexeme(Ident, |name| + 2, name, true, true)
  {
    hide StringLexeme, CommentBody, LineComment, DollarQuote, Sound, Run, Tried, QuotedBody;
    var s := InQuotes(name) + rest;
    assert s[0] == '"' && s[1..] == name + "\"" + rest;
    SymbolsAreInert(u, '"');
    NoPlaceholderHere(u, s);
    QuotedReads(name, rest);
  }

  lemma {:induction false} QuotedReads(name: string, rest: string)
    requires (forall i | 0 <= i < |name| :: name[i] != '"') && (rest == "" || rest[0] != '"')
    ensures QuotedBody(name + "\"" + rest, '"') == NameScan(|name| + 1, name, true)
  {
    var s := name + "\"" + rest;
    if name == "" {
      assert s == "\"" + rest;
    } else {
      assert s[1..] == name[1..] + "\"" + rest && [name[0]] + name[1..] == name;
      QuotedReads(name[1..], rest);
    }
  }

  // ------------------------------------------------------------- one after another

  /** What is left of a text when `i` tokens of it are read. */
  ghost predicate Left(u: Unicode, text: string, ts: seq<Token>, i: nat, pos: nat, depth: nat)
    requires Sound(u)
  {
    i <= |ts| && pos <= |text| && ts[i..] == LexFrom(u, Dialects.ANSI, text[pos..], pos, depth)
  }

  /** What the scanner reads at the front of what is left is the next token. */
  lemma Reads(u: Unicode, text: string, ts: seq<Token>, i: nat, pos: nat, depth: nat, w: string, x: Lexeme)
    requires Sound(u) && Left(u, text, ts, i, pos, depth) && w != "" && x.len == |w|
    requires pos + |w| <= |text| && text[pos..pos + |w|] == w && Next(u, Dialects.ANSI, w + text[pos + |w|..]) == x
    ensures i < |ts| && ts[i] == Placed(x, w, pos, DepthOf(x, depth))
    ensures Left(u, text, ts, i + 1, pos + |w|, DepthAfter(x, depth))
  {
    hide Next, Sound, LexFrom;
    var s, rest := text[pos..], text[pos + |w|..];
    assert s == w + rest && s[|w|..] == rest && s[..|w|] == w && w[..|w|] == w;
    LexStep(u, Dialects.ANSI, s, pos, depth);
    assert ts[i..][1..] == ts[i + 1..];
  }

  predicate IsWordAt(u: Unicode, t: Token, w: string, start: nat, depth: nat) {
    && t.kind == Ident && t.text == w && t.value == u.lower(w) && !t.quoted
    && t.start == start && t.end == start + |w| && t.depth == depth
  }

  predicate IsQuotedAt(t: Token, name: string, start: nat, depth: nat) {
    t.kind == Ident && t.value == name && t.quoted && t.start == start && t.depth == depth
  }

  predicate Breaks(c: char) {
    c == ' ' || IsMark(c)
  }

  lemma ReadsLetters(u: Unicode, text: string, ts: seq<Token>, i: nat, pos: nat, depth: nat, n: nat)
    requires KnowsAscii(u) && Left(u, text, ts, i, pos, depth) && 0 < n && pos + n <= |text|
    requires (forall k | pos <= k < pos + n :: IsAsciiLetter(text[k])) && (pos + n < |text| ==> Breaks(text[pos + n]))
    ensures i < |ts| && IsWordAt(u, ts[i], text[pos..pos + n], pos, depth) && Left(u, text, ts, i + 1, pos + n, depth)
  {
    hide KnowsAscii, Left, Sound, Stands, IsAsciiLetter, Breaks, Next;
    AsciiIsKnown(u);
    LettersStand(u, text, pos, n);
    WordLexes(u, text[pos..pos + n], text[pos + n..]);
    Reads(u, text, ts, i, pos, depth, text[pos..pos + n],
          Lexeme(Ident, n, u.lower(text[pos..pos + n]), false, true));
  }

  lemma LettersStand(u: Unicode, text: string, pos: nat, n: nat)
    requires KnowsAscii(u) && 0 < n && pos + n <= |text|
    requires (forall k | pos <= k < pos + n :: IsAsciiLetter(text[k])) && (pos + n < |text| ==> Breaks(text[pos + n]))
    ensures Stands(u, text[pos..pos + n], text[pos + n..])
  {
    hide Sound, AsciiUpper;
    AsciiIsKnown(u);
    if pos + n < |text| {
      if IsMark(text[pos + n]) { SymbolsAreInert(u, text[pos + n]); } else { SpaceIsNoLetter(u); }
    }
    assert forall c | u.alpha(c) :: u.alnum(c) by { AlphaIsAlnum(u); }
    var w := text[pos..pos + n];
    assert forall k | 0 <= k < n :: w[k] == text[pos + k];
    assert pos + n < |text| ==> text[pos + n..][0] == text[pos + n];
  }

  lemma SpaceIsNoLetter(u: Unicode)
    requires Sound(u)
    ensures !IsIdentChar(u, ' ') && u.space(' ')
  {
  }

  lemma AlphaIsAlnum(u: Unicode)
    requires Sound(u)
    ensures forall c | u.alpha(c) :: u.alnum(c)
  {
  }

  lemma LettersOf(text: string, pos: nat, w: string)
    requires pos + |w| <= |text| && forall k | 0 <= k < |w| :: IsAsciiLetter(w[k]) && text[pos + k] == w[k]
    ensures text[pos..pos + |w|] == w && forall k | pos <= k < pos + |w| :: IsAsciiLetter(text[k])
  {
    hide IsAsciiLetter;
    forall k | pos <= k < pos + |w| ensures IsAsciiLetter(text[k]) {
      assert text[pos + (k - pos)] == w[k - pos];
    }
  }

  /** A word of known letters. */
  lemma ReadsWord(u: Unicode, text: string, ts: seq<Token>, i: nat, pos: nat, depth: nat, w: string)
    requires KnowsAscii(u) && Left(u, text, ts, i, pos, depth) && w != "" && pos + |w| <= |text|
    requires forall k | 0 <= k < |w| :: IsAsciiLetter(w[k]) && text[pos + k] == w[k]
    requires pos + |w| < |text| ==> Breaks(text[pos + |w|])
    ensures i < |ts| && IsWordAt(u, ts[i], w, pos, depth) && Left(u, text, ts, i + 1, pos + |w|, depth)
  {
    hide KnowsAscii, Left, IsWordAt, IsAsciiLetter, Breaks;
    LettersOf(text, pos, w);
    ReadsLetters(u, text, ts, i, pos, depth, |w|);
  }

  /** A name of known letters in double quotes. */
  lemma ReadsQuoted(u: Unicode, text: string, ts: seq<Token>, i: nat, pos: nat, depth: nat, name: string)
    requires KnowsAscii(u) && Left(u, text, ts, i, pos, depth) && pos + |name| + 2 <= |text|
    requires text[pos] == '"' && text[pos + |name| + 1] == '"'
    requires forall k | 0 <= k < |name| :: IsAsciiLetter(name[k]) && text[pos + 1 + k] == name[k]
    requires pos + |name| + 2 < |text| ==> Breaks(text[pos + |name| + 2])
    ensures i < |ts| && IsQuotedAt(ts[i], name, pos, depth) && ts[i].end == pos + |name| + 2
    ensures Left(u, text, ts, i + 1, pos + |name| + 2, depth)
  {
    hide KnowsAscii, Left, Sound, Next, Breaks;
    AsciiIsKnown(u);
    var n := |name| + 2;
    LettersOf(text, pos + 1, name);
    assert text[pos..pos + n] == InQuotes(name) by {
      assert text[pos..pos + n] == [text[pos]] + text[pos + 1..pos + 1 + |name|] + [text[pos + 1 + |name|]];
    }
    assert pos + n < |text| ==> text[pos + n..][0] == text[pos + n] != '"' by { BreaksNoQuote(text, pos + n); }
    QuotedLexes(u, name, text[pos + n..]);
    Reads(u, text, ts, i, pos, depth, InQuotes(name), Lexeme(Ident, n, name, true, true));
  }

  lemma BreaksNoQuote(text: string, i: nat)
    requires i < |text| ==> Breaks(text[i])
    ensures i < |text| ==> text[i] != '"'
  {
  }

  lemma ReadsSpace(u: Unicode, text: string, ts: seq<Token>, i: nat, pos: nat, depth: nat)
    requires KnowsAscii(u) && Left(u, text, ts, i, pos, depth) && pos < |text| && text[pos] == ' '
    requires pos + 1 < |text| ==> IsAsciiLetter(text[pos + 1]) || IsSymbol(text[pos + 1])
    ensures i < |ts| && ts[i].kind == Whitespace && ts[i].text == " " && Left(u, text, ts, i + 1, pos + 1, depth)
  {
    hide KnowsAscii, Left, Sound, Next, IsAsciiLetter, IsSymbol;
    AsciiIsKnown(u);
    if pos + 1 < |text| {
      NoSpace(u, text[pos + 1]);
    }
    assert text[pos..pos + 1] == " ";
    assert pos + 1 < |text| ==> text[pos + 1..][0] == text[pos + 1];
    SpaceLexes(u, text[pos + 1..]);
    Reads(u, text, ts, i, pos, depth, " ", Lexeme(Whitespace, 1, " ", false, true));
  }

  lemma NoSpace(u: Unicode, c: char)
    requires KnowsAscii(u) && (IsAsciiLetter(c) || IsSymbol(c))
    ensures !u.space(c)
  {
  }

  lemma ReadsMark(u: Unicode, text: string, ts: seq<Token>, i: nat, pos: nat, depth: nat)
    requires KnowsAscii(u) && Left(u, text, ts, i, pos, depth) && pos < |text| && IsMark(text[pos])
    ensures i < |ts| && ts[i].kind == Punct && ts[i].text == [text[pos]] && ts[i].start == pos && ts[i].end == pos + 1
    ensures text[pos] == '(' ==> ts[i].depth == depth && Left(u, text, ts, i + 1, pos + 1, depth + 1)
    ensures text[pos] == ')' ==> ts[i].depth == Outer(depth) && Left(u, text, ts, i + 1, pos + 1, Outer(depth))
    ensures text[pos] == ',' ==> ts[i].depth == depth && Left(u, text, ts, i + 1, pos + 1, depth)
  {
    hide KnowsAscii, Left, Sound, Next;
    AsciiIsKnown(u);
    assert text[pos..pos + 1] == [text[pos]];
    MarkLexes(u, text[pos], text[pos + 1..]);
    Reads(u, text, ts, i, pos, depth, [text[pos]], Lexeme(Punct, 1, [text[pos]], false, true));
  }

  lemma AsciiIsKnown(u: Unicode)
    requires KnowsAscii(u)
    ensures Sound(u)
  {
    hide Sound;
  }

  lemma TextStarts(u: Unicode, text: string)
    requires Sound(u)
    ensures Left(u, text, Lexed(u, Dialects.ANSI, text), 0, 0, 0)
  {
    hide LexFrom, Sound;
    var ts := Lexed(u, Dialects.ANSI, text);
    assert text[0..] == text && ts[0..] == ts;
  }

  lemma TextEnds(u: Unicode, text: string, ts: seq<Token>, i: nat, depth: nat)
    requires Sound(u) && Left(u, text, ts, i, |text|, depth)
    ensures |ts| == i
  {
    hide LexFrom, Sound;
    assert text[|text|..] == "";
    EmptyLexes(u, Dialects.ANSI, |text|, depth);
  }

  /** An ASCII word is upper-cased letter by letter, folded or quoted. */
  lemma UpperOf(u: Unicode, w: string)
    requires KnowsAscii(u) && forall i | 0 <= i < |w| :: IsAsciiLetter(w[i])
    ensures u.upper(u.lower(w)) == AsciiUpper(w) && u.upper(w) == AsciiUpper(w)
  {
    hide Sound;
  }
}
