/**
 What every later stage relies on the scan for: its tokens tile the source, and
 nothing it reads before a semicolon token depends on what comes after it.
 */
module Scanning {
  import opened Wrappers
  import opened Text
  import opened Lexer

  // ------------------------------------------------- total and lossless

  function Joined(tokens: seq<Token>): string {
    if tokens == [] then "" else tokens[0].text + Joined(tokens[1..])
  }

  /** Token `t` covers exactly its own slice of `s`, which stands at `pos`. */
  predicate Covers(t: Token, s: string, pos: nat) {
    pos <= t.start < t.end <= pos + |s| && t.text == s[t.start - pos..t.end - pos]
  }

  /** What `LexTiles` says, for text standing at `pos`. */
  ghost predicate Tiling(ts: seq<Token>, s: string, pos: nat) {
    && (forall i | 0 <= i < |ts| :: Covers(ts[i], s, pos))
    && (forall i, j | 0 <= i < j < |ts| && j == i + 1 :: ts[i].end == ts[j].start)
    && (ts == [] <==> s == [])
    && (ts != [] ==> ts[0].start == pos && ts[|ts| - 1].end == pos + |s|)
  }

  /** Tokens stand in the order of the text. */
  ghost predicate Rising(ts: seq<Token>) {
    forall i, j | 0 <= i < j < |ts| :: ts[i].start < ts[j].start
  }

  lemma TilingCons(t: Token, ts: seq<Token>, s: string, pos: nat)
    requires Covers(t, s, pos) && t.start == pos
    requires Tiling(ts, s[t.end - pos..], t.end)
    ensures Tiling([t] + ts, s, pos)
  {
    var all := [t] + ts;
    var rest := s[t.end - pos..];
    forall i | 0 <= i < |all|
      ensures Covers(all[i], s, pos)
    {
      if i > 0 {
        var x := ts[i - 1];
        assert Covers(x, rest, t.end);
        assert rest[x.start - t.end..x.end - t.end] == s[x.start - pos..x.end - pos];
      }
    }
  }

  lemma {:induction false} LexFromTiles(u: Unicode, y: Syntax, s: string, pos: nat, depth: nat)
    requires Sound(u)
    ensures Tiling(LexFrom(u, y, s, pos, depth), s, pos)
    ensures Joined(LexFrom(u, y, s, pos, depth)) == s
    decreases |s|
  {
    hide Next, Sound, LexFrom;
    if s == [] {
      EmptyLexes(u, y, pos, depth);
    } else {
      hide Tiling, Covers;
      var x := Next(u, y, s);
      var rest := s[x.len..];
      LexStep(u, y, s, pos, depth);
      LexFromTiles(u, y, rest, pos + x.len, DepthAfter(x, depth));
      PlacedTiles(x, s, pos, DepthOf(x, depth), LexFrom(u, y, rest, pos + x.len, DepthAfter(x, depth)));
    }
  }

  lemma PlacedTiles(x: Lexeme, s: string, pos: nat, depth: nat, ts: seq<Token>)
    requires 0 < x.len <= |s| && Tiling(ts, s[x.len..], pos + x.len) && Joined(ts) == s[x.len..]
    ensures Tiling([Placed(x, s, pos, depth)] + ts, s, pos) && Joined([Placed(x, s, pos, depth)] + ts) == s
  {
    hide Tiling, Joined;
    var t := Placed(x, s, pos, depth);
    assert t.start - pos == 0 && t.end - pos == x.len;
    assert Covers(t, s, pos);
    assert s[..x.len] + s[x.len..] == s;
    JoinedCons(t, ts);
    TilingCons(t, ts, s, pos);
  }

  lemma JoinedCons(t: Token, ts: seq<Token>)
    ensures Joined([t] + ts) == t.text + Joined(ts)
  {
    assert ([t] + ts)[1..] == ts;
  }

  /** Token `i` covers its own slice, and the first starts where the text does. */
  lemma TokenCovers(u: Unicode, y: Syntax, s: string, pos: nat, depth: nat, i: nat)
    requires Sound(u) && i < |LexFrom(u, y, s, pos, depth)|
    ensures Covers(LexFrom(u, y, s, pos, depth)[i], s, pos)
    ensures i == 0 ==> LexFrom(u, y, s, pos, depth)[i].start == pos
  {
    hide LexFrom, Covers;
    LexFromTiles(u, y, s, pos, depth);
  }

  /** The scan is total and lossless: non-empty contiguous tokens from 0 to the end. */
  lemma LexTiles(u: Unicode, y: Syntax, src: string)
    requires Sound(u)
    ensures Tiling(Lexed(u, y, src), src, 0)
    ensures Joined(Lexed(u, y, src)) == src
  {
    LexFromTiles(u, y, src, 0, 0);
  }

  // --------------------------------------- no scanner looks past a semicolon

  /** No delimiter the dialect declares holds a semicolon. */
  ghost predicate Splittable(y: Syntax) {
    && (forall m | m in y.lineComments :: ';' !in m)
    && (forall p | p in y.placeholders :: ';' !in p.opens)
    && ';' !in y.castOperator
    && ';' !in y.identifierQuotes
  }

  /** `s` has a semicolon at `k`, and what stands before it is not empty. */
  predicate CutAt(s: string, k: nat) {
    0 < k < |s| && s[k] == ';'
  }

  lemma PrefixLocal(m: string, s: string, k: nat)
    requires k < |s| && s[k] == ';' && ';' !in m
    ensures m <= s[..k] <==> m <= s
  {
    assert forall i | 0 <= i < |m| :: m[i] in m;
  }

  lemma RunLocal(p: char -> bool, s: string, k: nat)
    requires k < |s| && !p(s[k])
    ensures Run(p, s[..k]) == Run(p, s) <= k
  {
    RunIs(p, s[..k], Run(p, s));
  }

  lemma {:induction false} QuotedBodyLocal(s: string, k: nat, quote: char)
    requires k < |s| && s[k] == ';' && quote != ';'
    requires QuotedBody(s, quote).len <= k
    ensures QuotedBody(s[..k], quote) == QuotedBody(s, quote)
    decreases |s|
  {
    var t := s[..k];
    if s[0] == quote {
      if |s| > 1 && s[1] == quote {
        assert s[2..][..k - 2] == t[2..];
        QuotedBodyLocal(s[2..], k - 2, quote);
      }
    } else {
      assert s[1..][..k - 1] == t[1..];
      QuotedBodyLocal(s[1..], k - 1, quote);
    }
  }

  lemma {:induction false} StringBodyLocal(s: string, k: nat, escapes: bool)
    requires k < |s| && s[k] == ';'
    requires StringBody(s, escapes).len <= k
    ensures StringBody(s[..k], escapes) == StringBody(s, escapes)
    decreases |s|
  {
    var t := s[..k];
    if s[0] == '\\' && escapes {
      assert s[2..][..k - 2] == t[2..];
      StringBodyLocal(s[2..], k - 2, escapes);
    } else if s[0] == '\'' {
      if |s| > 1 && s[1] == '\'' {
        assert s[2..][..k - 2] == t[2..];
        StringBodyLocal(s[2..], k - 2, escapes);
      }
    } else {
      assert s[1..][..k - 1] == t[1..];
      StringBodyLocal(s[1..], k - 1, escapes);
    }
  }

  lemma {:induction false} CommentBodyLocal(s: string, k: nat, nested: bool, level: nat)
    requires level > 0 && k < |s|
    requires CommentBody(s, nested, level).len <= k
    ensures CommentBody(s[..k], nested, level) == CommentBody(s, nested, level)
    decreases |s|
  {
    var t := s[..k];
    if nested && OpensComment(s) {
      assert s[2..][..k - 2] == t[2..];
      CommentBodyLocal(s[2..], k - 2, nested, level + 1);
    } else if ClosesComment(s) {
      if level > 1 {
        assert s[2..][..k - 2] == t[2..];
        CommentBodyLocal(s[2..], k - 2, nested, level - 1);
      }
    } else {
      assert s[1..][..k - 1] == t[1..];
      CommentBodyLocal(s[1..], k - 1, nested, level);
    }
  }

  lemma NumberLocal(u: Unicode, s: string, k: nat)
    requires Inert(u, ';') && k < |s| && s[k] == ';'
    ensures NumberLength(u, s[..k]) == NumberLength(u, s)
  {
    hide Run;
    RunLocal(NumberChars(u), s, k);
    var a := Run(NumberChars(u), s);
    if a < k && IsExponent(s[a]) {
      var sign := if a + 1 < |s| && IsSign(s[a + 1]) then 1 else 0;
      var j := a + 1 + sign;
      if j < k {
        RunLocal(u.digit, s[j..], k - j);
        assert s[j..][..k - j] == s[..k][j..];
      }
    }
  }

  lemma BodyLocal(u: Unicode, s: string, k: nat, body: Body)
    requires Inert(u, ';') && k < |s| && s[k] == ';'
    ensures BodyLength(u, s[..k], body) == BodyLength(u, s, body)
  {
    RunLocal(u.digit, s, k);
    if k > 0 {
      RunLocal(IdentChars(u), s[1..], k - 1);
      assert s[1..][..k - 1] == s[..k][1..];
    }
  }

  /** A pattern found wholly before the cut is found at the same place without the rest. */
  lemma FindLocal(s: string, k: nat, pat: string)
    requires k <= |s|
    ensures var whole := Find(s, pat);
            Find(s[..k], pat) == if whole.Some? && whole.value + |pat| <= k then whole else None
  {
    var t := s[..k];
    forall i: nat
      ensures OccursAt(t, pat, i) <==> OccursAt(s, pat, i) && i + |pat| <= k
    {
      if i + |pat| <= k {
        assert t[i..i + |pat|] == s[i..i + |pat|];
      }
    }
  }

  /** Past the semicolon there is no closing `$` of a tag, so nothing opens there. */
  lemma TagLocal(u: Unicode, s: string, k: nat)
    requires Inert(u, ';') && CutAt(s, k)
    ensures DollarTag(u, s[..k]) == DollarTag(u, s)
    ensures DollarTag(u, s).Some? ==> DollarTag(u, s).value <= k
  {
    var t := s[..k];
    FindLocal(s[1..], k - 1, "$");
    assert t[1..] == s[1..][..k - 1];
    var close := Find(s[1..], "$");
    if close.Some? {
      var n := close.value + 2;
      if n <= k {
        assert t[..n] == s[..n];
      } else {
        assert OccursAt(s[1..], "$", n - 2);
        assert s[1..][n - 2..n - 1][0] == s[n - 1] == '$';
        assert !IsIdentChar(u, s[..n][k]);
      }
    }
  }

  lemma DollarLocal(u: Unicode, s: string, k: nat)
    requires Inert(u, ';') && CutAt(s, k)
    requires DollarQuote(u, s).Some? ==> DollarQuote(u, s).value.len <= k
    ensures DollarQuote(u, s[..k]) == DollarQuote(u, s)
  {
    hide DollarTag;
    TagLocal(u, s, k);
    var tag := DollarTag(u, s);
    if tag.Some? {
      var n := tag.value;
      assert s[..k][n..] == s[n..][..k - n];
      assert s[..k][..n] == s[..n];
      FindLocal(s[n..], k - n, s[..n]);
    }
  }

  lemma ReadsLocal(u: Unicode, p: Placeholder, s: string, k: nat)
    requires Inert(u, ';') && CutAt(s, k) && ';' !in p.opens && p.opens != ""
    requires Reads(u, p, s).Some? ==> Reads(u, p, s).value.len <= k
    ensures Reads(u, p, s[..k]) == Reads(u, p, s)
  {
    PrefixLocal(p.opens, s, k);
    if p.opens <= s {
      var n := |p.opens|;
      assert n <= k by {
        assert s[..k] == s[..k];
        assert p.opens <= s[..k];
      }
      assert s[n..][..k - n] == s[..k][n..];
      hide BodyLength, Inert;
      if p.closes != "" {
        FindLocal(s[n..], k - n, p.closes);
      } else {
        BodyLocal(u, s[n..], k - n, p.body);
      }
    }
  }

  lemma {:induction false} PlaceholderLocal(u: Unicode, ps: seq<Placeholder>, s: string, k: nat)
    requires Inert(u, ';') && CutAt(s, k)
    requires forall p | p in ps :: p.opens != "" && ';' !in p.opens
    requires FirstPlaceholder(u, ps, s).Some? ==> FirstPlaceholder(u, ps, s).value.len <= k
    ensures FirstPlaceholder(u, ps, s[..k]) == FirstPlaceholder(u, ps, s)
  {
    if ps != [] {
      ReadsLocal(u, ps[0], s, k);
      if Reads(u, ps[0], s).None? {
        PlaceholderLocal(u, ps[1..], s, k);
      }
    }
  }

  lemma {:induction false} FirstMatchLocal(ops: seq<string>, s: string, k: nat)
    requires k < |s| && s[k] == ';'
    requires forall op | op in ops :: ';' !in op
    ensures FirstMatch(ops, s[..k]) == FirstMatch(ops, s)
  {
    if ops != [] {
      PrefixLocal(ops[0], s, k);
      FirstMatchLocal(ops[1..], s, k);
    }
  }

  lemma OperatorLocal(y: Syntax, s: string, k: nat)
    requires Splittable(y) && CutAt(s, k)
    ensures MatchedOperator(y, s[..k]) == MatchedOperator(y, s)
  {
    FirstMatchLocal(LargestFirst(Size, OperatorCandidates(y)), s, k);
  }

  lemma StringLexemeLocal(y: Syntax, s: string, k: nat)
    requires CutAt(s, k) && (s[0] == '\'' || "'" <= s[1..])
    requires StringLexeme(y, s).len <= k
    ensures (s[0] == '\'' || "'" <= s[..k][1..]) && StringLexeme(y, s[..k]) == StringLexeme(y, s)
  {
    if s[0] == '\'' {
      assert s[1..][..k - 1] == s[..k][1..];
      StringBodyLocal(s[1..], k - 1, y.stringEscapeBackslash);
    } else {
      assert s[2..][..k - 2] == s[..k][2..];
      StringBodyLocal(s[2..], k - 2, true);
    }
  }

  lemma PlainLocal(kind: Kind, s: string, k: nat, scan: Scan)
    requires scan.len <= k <= |s|
    ensures Plain(kind, s[..k], scan) == Plain(kind, s, scan)
  {
    assert s[..k][..scan.len] == s[..scan.len];
  }

  lemma SymbolLocal(u: Unicode, y: Syntax, s: string, k: nat)
    requires Sound(u) && Splittable(y) && CutAt(s, k)
    requires s[0] !in y.identifierQuotes && !IsIdentStart(u, s[0]) && !u.digit(s[0])
    requires NextWord(u, y, s).len <= k
    ensures NextWord(u, y, s[..k]) == NextWord(u, y, s)
  {
    hide Sound, MatchedOperator, NumberLength, Plain;
    PlainLocal(Punct, s, k, Scan(1, true));
    PlainLocal(Unknown, s, k, Scan(1, true));
    OperatorLocal(y, s, k);
    var op := MatchedOperator(y, s);
    if op.Some? && !IsPunctuation(s[0]) {
      PlainLocal(Operator, s, k, Scan(|op.value|, true));
    }
  }

  lemma WordLocal(u: Unicode, y: Syntax, s: string, k: nat)
    requires Sound(u) && CutAt(s, k) && Inert(u, ';')
    requires s[0] !in y.identifierQuotes && (IsIdentStart(u, s[0]) || u.digit(s[0]))
    ensures NextWord(u, y, s[..k]) == NextWord(u, y, s)
  {
    hide Sound, MatchedOperator, NumberLength, Plain;
    if IsIdentStart(u, s[0]) {
      RunLocal(IdentChars(u), s, k);
      assert s[..k][..Run(IdentChars(u), s)] == s[..Run(IdentChars(u), s)];
    } else {
      NumberLocal(u, s, k);
      PlainLocal(Number, s, k, Scan(NumberLength(u, s), true));
    }
  }

  lemma NextWordLocal(u: Unicode, y: Syntax, s: string, k: nat)
    requires Sound(u) && Splittable(y) && CutAt(s, k) && NextWord(u, y, s).len <= k
    ensures NextWord(u, y, s[..k]) == NextWord(u, y, s)
  {
    SymbolsAreInert(u, ';');
    hide Sound, MatchedOperator, NumberLength, Plain;
    if s[0] in y.identifierQuotes {
      QuotedBodyLocal(s[1..], k - 1, s[0]);
      assert s[1..][..k - 1] == s[..k][1..];
    } else if IsIdentStart(u, s[0]) || u.digit(s[0]) {
      WordLocal(u, y, s, k);
    } else {
      SymbolLocal(u, y, s, k);
    }
  }

  lemma CommentLocal(y: Syntax, s: string, k: nat)
    requires Splittable(y) && CutAt(s, k)
    ensures StartsLineComment(y, s[..k]) <==> StartsLineComment(y, s)
  {
    forall i | 0 <= i < |y.lineComments|
      ensures y.lineComments[i] <= s[..k] <==> y.lineComments[i] <= s
    {
      PrefixLocal(y.lineComments[i], s, k);
    }
  }

  /** What the main loop reads before a semicolon does not depend on what follows it. */
  lemma NextLocal(u: Unicode, y: Syntax, s: string, k: nat)
    requires Sound(u) && Splittable(y) && CutAt(s, k) && Next(u, y, s).len <= k
    ensures Next(u, y, s[..k]) == Next(u, y, s)
  {
    SymbolsAreInert(u, ';');
    hide Sound;
    var t := s[..k];
    assert t[..Next(u, y, s).len] == s[..Next(u, y, s).len];
    CommentLocal(y, s, k);
    if u.space(s[0]) {
      RunLocal(u.space, s, k);
    } else if StartsLineComment(y, s) {
      RunIs(NotNewline, t, Run(NotNewline, s));
    } else if OpensComment(s) {
      assert s[2..][..k - 2] == t[2..];
      CommentBodyLocal(s[2..], k - 2, y.nestedBlockComments, 1);
    } else if s[0] == '\'' || OpensEscapeString(u, y, s) {
      StringLexemeLocal(y, s, k);
    } else {
      assert !OpensComment(t) && !OpensEscapeString(u, y, t) by {
        assert "'" <= t[1..] ==> "'" <= s[1..];
      }
      PlaceholderLocal(u, Tried(y), s, k);
      if FirstPlaceholder(u, Tried(y), s).None? {
        if s[0] == '$' && y.dollarQuoting {
          DollarLocal(u, s, k);
        }
        if !(s[0] == '$' && y.dollarQuoting && DollarQuote(u, s).Some?) {
          NextWordLocal(u, y, s, k);
        }
      }
    }
  }
}
