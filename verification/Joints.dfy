/**
 Where an insertion meets the text around it: which names and numbers of the new text run over the joint.
 The separators of api.py (`_led_in`, `_led_out`) are there to keep that from happening.
 */
module Joints {
  import opened Wrappers
  import opened Text
  import opened Lexer
  import opened Insertion
  import opened PlainTexts
  import Dialects
  import Quoting

  /** Each token is what the scanner reads where the token starts. */
  lemma {:induction false} TokenIsRead(u: Unicode, y: Syntax, s: string, pos: nat, depth: nat, i: nat)
    requires Sound(u) && i < |LexFrom(u, y, s, pos, depth)|
    ensures var t := LexFrom(u, y, s, pos, depth)[i];
            && pos <= t.start < t.end <= pos + |s|
            && var x := Next(u, y, s[t.start - pos..]);
               x.kind == t.kind && x.quoted == t.quoted && x.len == t.end - t.start
    decreases |s|
  {
    hide Next, Sound;
    var x := Next(u, y, s);
    assert s[0..] == s;
    if i > 0 {
      var rest := LexFrom(u, y, s[x.len..], pos + x.len, DepthAfter(x, depth));
      TokenIsRead(u, y, s[x.len..], pos + x.len, DepthAfter(x, depth), i - 1);
      assert s[x.len..][rest[i - 1].start - pos - x.len..] == s[rest[i - 1].start - pos..];
    }
  }

  // ------------------------------------------------------------------------- names

  lemma NameIsARun(u: Unicode, y: Syntax, s: string)
    requires Sound(u) && s != [] && Next(u, y, s).kind == Ident && !Next(u, y, s).quoted
    ensures Next(u, y, s).len == Run(IdentChars(u), s)
  {
    hide Sound, MatchedOperator, NumberLength, StringLexeme, LineComment, CommentBody, DollarQuote;
    hide FirstPlaceholder, Run, QuotedBody;
  }

  /** A combining mark that a name may hold and a separator does not look for. */
  predicate IsBareMark(u: Unicode, c: char) {
    IsIdentChar(u, c) && !u.alnum(c) && c != '_' && c != '$'
  }

  /** The unquoted name at a place where nothing fuses ends there, unless a bare mark joins it to a name character. */
  lemma NameAtAJoint(u: Unicode, y: Syntax, out: string, p: nat, i: nat)
    requires Sound(u) && 0 < p <= |out| && i < |Lexed(u, y, out)|
    requires p < |out| ==> !Fuses(u, out[p - 1], out[p])
    requires var t := Lexed(u, y, out)[i]; t.kind == Ident && !t.quoted && t.start < p <= t.end
    ensures Lexed(u, y, out)[i].end > p
       <==> p < |out| && IsIdentChar(u, out[p]) && (IsBareMark(u, out[p - 1]) || IsBareMark(u, out[p]))
  {
    hide Sound, Next, LexFrom, Run;
    var t := Lexed(u, y, out)[i];
    TokenIsRead(u, y, out, 0, 0, i);
    var s, k := out[t.start..], p - t.start;
    NameIsARun(u, y, s);
    assert s[k - 1] == out[p - 1] && (p < |out| ==> s[k] == out[p]);
    assert IdentChars(u)(s[k - 1]);
    assert p < t.end ==> IdentChars(u)(s[k]);
  }

  // ----------------------------------------------------------------------- numbers

  lemma NumberIsItsLength(u: Unicode, y: Syntax, s: string)
    requires Sound(u) && s != [] && Next(u, y, s).kind == Number
    ensures Next(u, y, s).len == NumberLength(u, s)
  {
    hide Sound, MatchedOperator, NumberLength, StringLexeme, LineComment, CommentBody, DollarQuote;
    hide FirstPlaceholder, Run, QuotedBody;
  }

  /** An exponent stands at the front of `s`. */
  predicate OpensExponent(u: Unicode, s: string) {
    && |s| > 1 && IsExponent(s[0])
    && (u.digit(s[1]) || (IsSign(s[1]) && |s| > 2 && u.digit(s[2])))
  }

  /** A dot stands behind the place, or before it and a digit or an exponent behind. */
  predicate GoesOnAtADot(u: Unicode, out: string, p: nat)
    requires 0 < p < |out|
  {
    out[p] == '.' || (out[p - 1] == '.' && (u.digit(out[p]) || OpensExponent(u, out[p..])))
  }

  /** Whether a number read up to `k` goes on there: among its digits and dots, at its exponent or inside that. */
  lemma NumberGoesOn(u: Unicode, s: string, k: nat)
    requires 0 < k < |s| && k <= NumberLength(u, s) && !u.digit('+') && !u.digit('-')
    ensures NumberLength(u, s) > k
       <==> if forall i | 0 <= i < k :: NumberChars(u)(s[i])
            then NumberChars(u)(s[k]) || OpensExponent(u, s[k..])
            else u.digit(s[k]) || !u.digit(s[k - 1])
  {
    hide Run;
    var a := Run(NumberChars(u), s);
    assert k < a ==> NumberChars(u)(s[k]);
    assert k > a ==> !NumberChars(u)(s[a]);
  }

  /**
   The number at a place where nothing fuses ends there, unless a dot stands behind it, or a dot before what
   a number goes on with, or the letter or sign of its exponent before it.
   */
  lemma NumberAtAJoint(u: Unicode, y: Syntax, out: string, p: nat, i: nat)
    requires KnowsAscii(u) && 0 < p <= |out| && i < |Lexed(u, y, out)|
    requires p < |out| ==> !Fuses(u, out[p - 1], out[p])
    requires var t := Lexed(u, y, out)[i]; t.kind == Number && t.start < p <= t.end
    ensures var t := Lexed(u, y, out)[i];
            t.end > p
            <==> p < |out| && if forall k | t.start <= k < p :: NumberChars(u)(out[k])
                              then GoesOnAtADot(u, out, p)
                              else !u.digit(out[p - 1])
  {
    hide KnowsAscii, Sound, Next, LexFrom, NumberLength;
    AsciiIsKnown(u);
    var t := Lexed(u, y, out)[i];
    TokenIsRead(u, y, out, 0, 0, i);
    var s, k := out[t.start..], p - t.start;
    NumberIsItsLength(u, y, s);
    if p < |out| {
      assert s[k - 1] == out[p - 1] && s[k] == out[p] && s[k..] == out[p..];
      assert forall j | 0 <= j < k :: s[j] == out[t.start + j];
      assert forall j | t.start <= j < p :: out[j] == s[j - t.start];
      SignsAreNoDigits(u);
      NumberGoesOn(u, s, k);
      if u.digit(out[p - 1]) && (u.digit(out[p]) || IsExponent(out[p])) {
        ExponentsFuse(u, out[p - 1], out[p]);
      }
    }
  }

  lemma SignsAreNoDigits(u: Unicode)
    requires Sound(u)
    ensures !u.digit('+') && !u.digit('-')
  {
    SymbolsAreInert(u, '+');
    SymbolsAreInert(u, '-');
  }

  lemma ExponentsFuse(u: Unicode, c: char, d: char)
    requires KnowsAscii(u) && u.digit(c) && (u.digit(d) || IsExponent(d))
    ensures Fuses(u, c, d)
  {
  }

  // ------------------------------------------------------------------ an insertion's joints

  /** The places where the text inserted meets the text round it. */
  predicate IsJoint(s: Suggestion, inserted: string, p: nat) {
    p == s.start || p == s.start + |inserted|
  }

  lemma NothingFusesAtAJoint(u: Unicode, sql: string, s: Suggestion, closeParens: bool, later: Option<Edit>, p: nat)
    requires Sound(u) && Fits(sql, s) && Follows(sql, s, later) && s.start == s.end && s.text != ""
    requires later.Some? ==> later.value.text[0] == ' '
    requires IsJoint(s, Inserted(u, sql, s, closeParens), p)
    ensures var out := Together(sql, s, Inserted(u, sql, s, closeParens), later);
            0 < p < |out| ==> !Fuses(u, out[p - 1], out[p])
  {
    hide Inserted, Sound, Fuses;
    NothingFuses(u, sql, s, closeParens);
    var inserted := Inserted(u, sql, s, closeParens);
    var out := Together(sql, s, inserted, later);
    if p == s.start + |inserted| && later.Some? && later.value.start == s.end {
      assert out[p] == ' ';
      SpaceFusesWithNothing(u, out[p - 1]);
    }
  }

  lemma SpaceFusesWithNothing(u: Unicode, c: char)
    requires Sound(u)
    ensures !Fuses(u, c, ' ')
  {
  }

  /** Whether a token that holds the character before the joint runs over it. */
  predicate RunsOver(u: Unicode, out: string, t: Token, p: nat)
    requires 0 < p < |out| && t.start < p
  {
    if t.kind == Ident then IsIdentChar(u, out[p]) && (IsBareMark(u, out[p - 1]) || IsBareMark(u, out[p]))
    else if forall k | t.start <= k < p :: NumberChars(u)(out[k]) then
      GoesOnAtADot(u, out, p)
    else !u.digit(out[p - 1])
  }

  /** The names and numbers of the new text end at the joints, but for those few that `RunsOver` tells. */
  lemma NamesAndNumbersEndAtJoints(u: Unicode, y: Syntax, sql: string, s: Suggestion, closeParens: bool,
                                   later: Option<Edit>, p: nat, i: nat)
    requires KnowsAscii(u) && Fits(sql, s) && Follows(sql, s, later) && s.start == s.end && s.text != ""
    requires later.Some? ==> later.value.text[0] == ' '
    requires IsJoint(s, Inserted(u, sql, s, closeParens), p)
    requires var out := Together(sql, s, Inserted(u, sql, s, closeParens), later);
             && 0 < p < |out| && i < |Lexed(u, y, out)|
             && var t := Lexed(u, y, out)[i];
                ((t.kind == Ident && !t.quoted) || t.kind == Number) && t.start < p <= t.end
    ensures var out := Together(sql, s, Inserted(u, sql, s, closeParens), later);
            var t := Lexed(u, y, out)[i];
            t.end > p <==> RunsOver(u, out, t, p)
  {
    hide KnowsAscii, Sound, Lexed, Together, Inserted, Fuses, OpensExponent, IsBareMark;
    AsciiIsKnown(u);
    NothingFusesAtAJoint(u, sql, s, closeParens, later, p);
    var out := Together(sql, s, Inserted(u, sql, s, closeParens), later);
    if Lexed(u, y, out)[i].kind == Ident {
      NameAtAJoint(u, y, out, p, i);
    } else {
      NumberAtAJoint(u, y, out, p, i);
    }
  }

  /** A name that ends in a bare mark: what is written behind it becomes part of it. */
  lemma AMarkJoinsNames(u: Unicode, mark: char)
    requires KnowsAscii(u) && IsBareMark(u, mark)
    ensures var sql := ['a', mark];
            var s := Suggestion("b", Other, 2, 2, false, [], []);
            var out := Together(sql, s, Inserted(u, sql, s, true), None);
            && out == ['a', mark, 'b'] && |Lexed(u, Dialects.ANSI, out)| == 1
            && Lexed(u, Dialects.ANSI, out)[0].kind == Ident
  {
    hide KnowsAscii, Lexed, Left, Next, Stands;
    AsciiIsKnown(u);
    var sql := ['a', mark];
    var s := Suggestion("b", Other, 2, 2, false, [], []);
    assert LedIn(u, sql, 2, 2, "b") == "" by { MarkIsNoEnd(u, mark); }
    var out: string := ['a', mark, 'b'];
    assert Together(sql, s, Inserted(u, sql, s, true), None) == out;
    MarkedNameStands(u, mark);
    WordLexes(u, out, "");
    assert out + "" == out;
    var ts := Lexed(u, Dialects.ANSI, out);
    TextStarts(u, out);
    assert out[0..3] == out && out[3..] == "";
    PlainTexts.Reads(u, out, ts, 0, 0, 0, out, Lexeme(Ident, 3, u.lower(out), false, true));
    TextEnds(u, out, ts, 1, 0);
  }

  lemma MarkIsNoEnd(u: Unicode, mark: char)
    requires Sound(u) && IsBareMark(u, mark)
    ensures !Fuses(u, mark, 'b')
  {
    SymbolsAreInert(u, '"');
    SymbolsAreInert(u, '`');
    SymbolsAreInert(u, '\'');
  }

  lemma MarkedNameStands(u: Unicode, mark: char)
    requires KnowsAscii(u) && IsBareMark(u, mark)
    ensures Stands(u, ['a', mark, 'b'], "")
  {
    assert IsAsciiLetter('a') && IsAsciiLetter('b');
    hide Sound;
    AsciiIsKnown(u);
    AlphaIsAlnum(u);
  }

  /** `1.` and `5` make one number. */
  lemma ADotJoinsNumbers()
    ensures Sound(Ascii())
    ensures var s := Suggestion("5", Other, 2, 2, false, [], []);
            var out := Together("1.", s, Inserted(Ascii(), "1.", s, true), None);
            && out == "1.5" && |Lexed(Ascii(), Dialects.ANSI, out)| == 1
            && Lexed(Ascii(), Dialects.ANSI, out)[0].kind == Number
  {
    hide Lexed, Left, Next, Run, Sound, KnowsAscii, NumberLength;
    AsciiIsSound();
    var u, out := Ascii(), "1.5";
    var ts := Lexed(u, Dialects.ANSI, out);
    OneNumber();
    TextStarts(u, out);
    assert out[0..3] == out && out[3..] == "" && out + "" == out;
    PlainTexts.Reads(u, out, ts, 0, 0, 0, out, Lexeme(Number, 3, out, false, true));
    TextEnds(u, out, ts, 1, 0);
  }

  lemma OneNumber()
    ensures Sound(Ascii()) && Next(Ascii(), Dialects.ANSI, "1.5") == Lexeme(Number, 3, "1.5", false, true)
  {
    hide Sound, StringLexeme, CommentBody, LineComment, DollarQuote, Run, Tried, FirstPlaceholder, QuotedBody;
    hide MatchedOperator, KnowsAscii;
    AsciiIsSound();
    var s := "1.5";
    RunIs(NumberChars(Ascii()), s, 3);
    forall q | q in Tried(Dialects.ANSI) ensures q.opens != "" && !(q.opens <= s) {
      assert q in Dialects.ANSI.placeholders;
      assert q.opens[0] == '?' || q.opens[0] == ':';
    }
    Quoting.NoPlaceholder(Ascii(), Tried(Dialects.ANSI), s);
    assert s[..3] == s;
  }
}
