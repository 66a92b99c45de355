/** How names, numbers, operators and parameters are read: the longest spelling wins (engine/lex.py). */
module Spellings {
  import opened Wrappers
  import opened Text
  import opened Lexer
  import Quoting
  import Sorting

  // -------------------------------------------------------------------------- names

  /** What an unquoted word stands for in a dialect. */
  ghost predicate IsFolded(u: Unicode, y: Syntax, w: string, value: string) {
    && (y.unquotedCase == Lower ==> value == u.lower(w))
    && (y.unquotedCase == Upper ==> value == u.upper(w))
    && (y.unquotedCase == Preserve ==> value == w)
  }

  /** A whole word is read as one name, in the case the dialect folds to. */
  lemma NamesAreRead(u: Unicode, y: Syntax, w: string, rest: string)
    requires Sound(u) && Quoting.Quotable(y) && w != "" && IsIdentStart(u, w[0])
    requires (forall i | 0 <= i < |w| :: IsIdentChar(u, w[i]))
    requires rest == "" || (!IsIdentChar(u, rest[0]) && rest[0] != '\'')
    ensures var x := Next(u, y, w + rest);
            x.kind == Ident && x.len == |w| && !x.quoted && x.terminated && IsFolded(u, y, w, x.value)
  {
    var s := w + rest;
    Quoting.IdentStartsWord(u, y, s[0]);
    hide Next, Quoting.Quotable;
    NoEscapeHere(u, y, w, rest);
    Quoting.ReachesWord(u, y, s);
    hide Sound, IsSymbol;
    RunIs(IdentChars(u), s, |w|);
    assert s[..|w|] == w;
  }

  lemma NoEscapeHere(u: Unicode, y: Syntax, w: string, rest: string)
    requires Sound(u) && w != "" && (forall i | 0 <= i < |w| :: IsIdentChar(u, w[i]))
    requires rest == "" || rest[0] != '\''
    ensures !OpensEscapeString(u, y, w + rest)
  {
    var s := w + rest;
    SymbolsAreInert(u, '\'');
    assert |s| > 1 ==> s[1..][0] == s[1] == if |w| > 1 then w[1] else rest[0];
  }

  // ------------------------------------------------------------------------ numbers

  /** Digits and dots, led by a digit; then, if anything, an exponent. */
  ghost predicate IsNumber(u: Unicode, mantissa: string, exponent: string) {
    && mantissa != "" && u.digit(mantissa[0])
    && (forall i | 0 <= i < |mantissa| :: u.digit(mantissa[i]) || mantissa[i] == '.')
    && (exponent != "" ==> IsExponentText(u, exponent))
  }

  /** The letter, a sign if any, and digits. */
  ghost predicate IsExponentText(u: Unicode, e: string) {
    var digits := if |e| > 1 && (e[1] == '+' || e[1] == '-') then 2 else 1;
    && |e| > digits && (e[0] == 'e' || e[0] == 'E') && forall i | digits <= i < |e| :: u.digit(e[i])
  }

  /** What follows does not go on with it. */
  ghost predicate EndsNumber(u: Unicode, exponent: string, rest: string) {
    && (rest != "" ==> !u.digit(rest[0]))
    && (exponent == "" && rest != "" ==> rest[0] != '.' && rest[0] != 'e' && rest[0] != 'E')
  }

  lemma NumberIsMeasured(u: Unicode, mantissa: string, exponent: string, rest: string)
    requires Sound(u) && IsNumber(u, mantissa, exponent) && EndsNumber(u, exponent, rest)
    requires exponent != "" ==> !u.digit(exponent[0])
    ensures NumberLength(u, mantissa + exponent + rest) == |mantissa| + |exponent|
  {
    hide Run;
    var s, a := mantissa + exponent + rest, |mantissa|;
    RunIs(NumberChars(u), s, a);
    if exponent != "" {
      SymbolsAreInert(u, '+');
      SymbolsAreInert(u, '-');
      var digits := if |exponent| > 1 && (exponent[1] == '+' || exponent[1] == '-') then 2 else 1;
      assert s[a..] == exponent + rest;
      assert s[a] == exponent[0] && s[a + digits] == exponent[digits] && s[a + 1] == exponent[1];
      var tail := s[a + digits..];
      assert tail == exponent[digits..] + rest;
      RunIs(u.digit, tail, |exponent| - digits);
    }
  }

  /** A number is read whole. */
  lemma NumbersAreRead(u: Unicode, y: Syntax, mantissa: string, exponent: string, rest: string)
    requires Sound(u) && Quoting.Quotable(y) && IsNumber(u, mantissa, exponent) && EndsNumber(u, exponent, rest)
    requires !u.alpha(mantissa[0]) && (exponent != "" ==> !u.digit(exponent[0]))
    requires !OpensEscapeString(u, y, mantissa + exponent + rest)
    ensures var w := mantissa + exponent;
            Next(u, y, w + rest) == Lexeme(Number, |w|, w, false, true)
  {
    var s := mantissa + exponent + rest;
    NumberIsMeasured(u, mantissa, exponent, rest);
    DigitIsPlain(u, y, s[0]);
    NothingBefore(u, y, s);
    hide Sound, NumberLength, StringLexeme, CommentBody, LineComment, DollarQuote, FirstPlaceholder, QuotedBody;
    hide MatchedOperator, StartsLineComment, OpensEscapeString;
    assert s[..|mantissa + exponent|] == mantissa + exponent;
  }

  lemma DigitIsPlain(u: Unicode, y: Syntax, c: char)
    requires Sound(u) && Quoting.Quotable(y) && u.digit(c)
    ensures !u.space(c) && !IsSymbol(c) && c !in y.identifierQuotes && c != '\'' && c != '/' && c != '$' && c != '_'
  {
    SymbolsAreInert(u, '\'');
    SymbolsAreInert(u, '/');
    SymbolsAreInert(u, '$');
    SymbolsAreInert(u, '_');
    if IsSymbol(c) {
      SymbolsAreInert(u, c);
    }
  }

  /** What begins with no symbol begins no comment and no parameter. */
  lemma NothingBefore(u: Unicode, y: Syntax, s: string)
    requires Sound(u) && Quoting.Quotable(y) && s != "" && !IsSymbol(s[0])
    ensures !StartsLineComment(y, s) && FirstPlaceholder(u, Tried(y), s).None?
  {
    hide Sound, IsSymbol;
    forall p | p in Tried(y) ensures p.opens != "" && !(p.opens <= s) {
      assert Quoting.Apart(y, p.opens);
    }
    Quoting.NoPlaceholder(u, Tried(y), s);
    forall i | 0 <= i < |y.lineComments| ensures !(y.lineComments[i] <= s) {
      assert Quoting.Apart(y, y.lineComments[i]);
    }
  }

  // ------------------------------------------------------------- the longest spelling

  /** In a list that is longest first, the first member to be found is as long as any. */
  lemma {:induction false} FirstIsLongest(ops: seq<string>, s: string)
    requires forall i, j | 0 <= i < j < |ops| :: |ops[i]| >= |ops[j]|
    ensures var r := FirstMatch(ops, s);
            forall op | op in ops && op <= s :: r.Some? && |op| <= |r.value|
  {
    if ops != [] && !(ops[0] <= s) {
      FirstIsLongest(ops[1..], s);
      assert forall op | op in ops :: op == ops[0] || op in ops[1..];
    }
  }

  lemma LargestIsFirst<T(!new)>(size: T -> nat, xs: seq<T>)
    ensures var r := LargestFirst(size, xs); forall i, j | 0 <= i < j < |r| :: size(r[i]) >= size(r[j])
  {
    var leq := (a, b) => size(a) >= size(b);
    assert Sorting.TotalPreorder(leq);
    Sorting.SortIsStable(leq, xs);
  }

  /** An operator of the dialect: its cast, one of several characters, or one character. */
  ghost predicate IsOperator(y: Syntax, op: string) {
    op != "" && (op == y.castOperator || IsLongOperator(op) || (|op| == 1 && IsOneOperator(op[0])))
  }

  predicate IsLongOperator(op: string) {
    op in {"<=", ">=", "<>", "!=", "||", "->", "->>", "#>", "#>>"}
  }

  predicate IsOneOperator(c: char) {
    c in {'+', '-', '*', '/', '%', '=', '<', '>', '|', '&', '^', '~', '!', '@', '#', '?', ':'}
  }

  lemma OperatorsAre()
    ensures forall c :: IsOneOperator(c) <==> IsOperatorChar(c)
    ensures forall op :: IsLongOperator(op) <==> op in MULTI_CHAR_OPERATORS
    ensures "" !in MULTI_CHAR_OPERATORS
  {
  }

  /** The operator read is the longest that stands there; there is none only where none stands. */
  lemma OperatorsAreLongest(y: Syntax, s: string)
    requires s != ""
    ensures var r := MatchedOperator(y, s);
            && (r.Some? ==> IsOperator(y, r.value) && r.value <= s)
            && forall op | IsOperator(y, op) && op <= s :: r.Some? && |op| <= |r.value|
  {
    hide IsLongOperator, IsOneOperator, IsOperatorChar, MULTI_CHAR_OPERATORS;
    var ops := LargestFirst(Size, OperatorCandidates(y));
    LargestIsFirst(Size, OperatorCandidates(y));
    FirstIsLongest(ops, s);
    OperatorsAre();
    var r := MatchedOperator(y, s);
    forall op | IsOperator(y, op) && op <= s ensures r.Some? && |op| <= |r.value| {
      if op == y.castOperator || IsLongOperator(op) {
        assert op in OperatorCandidates(y) && op in ops;
      }
    }
  }

  /** The parameter read is that of a declared form than which no other that reads has a longer opener. */
  lemma LongestOpenerReads(u: Unicode, y: Syntax, s: string)
    ensures var r := FirstPlaceholder(u, Tried(y), s);
            && (r.Some? ==> exists p | p in y.placeholders && p.opens != "" :: ReadsLongest(u, y, p, s, r.value))
            && (r.None? ==> forall p | p in y.placeholders && p.opens != "" :: Reads(u, p, s).None?)
  {
    hide Reads;
    LargestIsFirst(OpenerSize, Openers(y.placeholders));
    AllOpeners(y.placeholders);
    FirstReads(u, Tried(y), s);
    var r := FirstPlaceholder(u, Tried(y), s);
    if r.Some? {
      var k :| 0 <= k < |Tried(y)| && Reads(u, Tried(y)[k], s) == r
               && forall j | 0 <= j < k :: Reads(u, Tried(y)[j], s).None?;
      FirstIsLargest(u, y, Tried(y), s, k);
    } else {
      assert forall p | p in y.placeholders && p.opens != "" :: p in Tried(y);
    }
  }

  ghost predicate ReadsLongest(u: Unicode, y: Syntax, p: Placeholder, s: string, r: Scan) {
    && Reads(u, p, s) == Some(r)
    && forall q | q in y.placeholders && q.opens != "" && Reads(u, q, s).Some? :: |q.opens| <= |p.opens|
  }

  lemma FirstIsLargest(u: Unicode, y: Syntax, tried: seq<Placeholder>, s: string, k: nat)
    requires forall i, j | 0 <= i < j < |tried| :: OpenerSize(tried[i]) >= OpenerSize(tried[j])
    requires forall p | p in y.placeholders && p.opens != "" :: p in tried
    requires k < |tried| && Reads(u, tried[k], s).Some? && forall j | 0 <= j < k :: Reads(u, tried[j], s).None?
    ensures ReadsLongest(u, y, tried[k], s, Reads(u, tried[k], s).value)
  {
    hide Reads;
    forall q | q in y.placeholders && q.opens != "" && Reads(u, q, s).Some? ensures |q.opens| <= |tried[k].opens| {
      var j :| 0 <= j < |tried| && tried[j] == q;
      assert OpenerSize(tried[k]) >= OpenerSize(tried[j]);
    }
  }

  lemma {:induction false} AllOpeners(ps: seq<Placeholder>)
    ensures forall p | p in ps && p.opens != "" :: p in Openers(ps)
  {
    if ps != [] {
      AllOpeners(ps[1..]);
      assert forall p | p in ps :: p == ps[0] || p in ps[1..];
    }
  }

  lemma {:induction false} FirstReads(u: Unicode, ps: seq<Placeholder>, s: string)
    requires forall p | p in ps :: p.opens != ""
    ensures var r := FirstPlaceholder(u, ps, s);
            && (r.None? ==> forall p | p in ps :: Reads(u, p, s).None?)
            && (r.Some? ==> exists k | 0 <= k < |ps| ::
                  Reads(u, ps[k], s) == r && forall j | 0 <= j < k :: Reads(u, ps[j], s).None?)
  {
    hide Reads;
    if ps != [] {
      FirstReads(u, ps[1..], s);
      var r := FirstPlaceholder(u, ps, s);
      if Reads(u, ps[0], s).None? && r.Some? {
        var k :| 0 <= k < |ps[1..]| && Reads(u, ps[1..][k], s) == r
                 && forall j | 0 <= j < k :: Reads(u, ps[1..][j], s).None?;
        assert ps[k + 1] == ps[1..][k];
        assert forall j | 0 < j <= k :: ps[j] == ps[1..][j - 1];
      } else {
        assert forall p | p in ps :: p == ps[0] || p in ps[1..];
      }
    }
  }

  lemma BehindOpener(p: Placeholder, rest: string)
    ensures (p.opens + rest)[|p.opens|..] == rest && p.opens <= p.opens + rest
  {
  }

  /** A parameter that is its opener alone, and one that says nothing of where it ends. */
  lemma OpenersAreRead(u: Unicode, p: Placeholder, rest: string)
    requires p.closes == ""
    ensures p.body == Nothing ==> Reads(u, p, p.opens + rest) == Some(Scan(|p.opens|, true))
    ensures p.body == Any ==> Reads(u, p, p.opens + rest) == None
  {
    BehindOpener(p, rest);
  }

  /** A numbered parameter has all the digits there are, and is none without any; more could always follow. */
  lemma DigitsAreRead(u: Unicode, p: Placeholder, digits: string, rest: string)
    requires p.closes == "" && p.body == Digits && (forall i | 0 <= i < |digits| :: u.digit(digits[i]))
    requires rest == "" || !u.digit(rest[0])
    ensures Reads(u, p, p.opens + (digits + rest))
         == if digits == "" then None else Some(Scan(|p.opens| + |digits|, false))
  {
    BehindOpener(p, digits + rest);
    RunIs(u.digit, digits + rest, |digits|);
  }

  /** A named one has a whole name, and is none without one. */
  lemma ParameterNamesAreRead(u: Unicode, p: Placeholder, name: string, rest: string)
    requires p.closes == "" && p.body == Name && (forall i | 1 <= i < |name| :: IsIdentChar(u, name[i]))
    requires if name == "" then rest == "" || !IsIdentStart(u, rest[0])
             else IsIdentStart(u, name[0]) && (rest == "" || !IsIdentChar(u, rest[0]))
    ensures Reads(u, p, p.opens + (name + rest)) == if name == "" then None else Some(Scan(|p.opens| + |name|, false))
  {
    BehindOpener(p, name + rest);
    if name != "" {
      assert (name + rest)[1..] == name[1..] + rest;
      RunIs(IdentChars(u), (name + rest)[1..], |name| - 1);
    } else {
      assert name + rest == rest;
    }
  }

  /** One that is closed ends with the first closer, and with the text where there is none. */
  lemma ClosedParametersAreRead(u: Unicode, p: Placeholder, s: string)
    requires p.closes != ""
    ensures (forall i: nat | OccursAt(s, p.closes, i) && (forall j: nat | j < i :: !OccursAt(s, p.closes, j)) ::
               Reads(u, p, p.opens + s) == Some(Scan(|p.opens| + i + |p.closes|, true)))
    ensures (forall i: nat :: !OccursAt(s, p.closes, i))
        ==> Reads(u, p, p.opens + s) == Some(Scan(|p.opens| + |s|, false))
  {
    hide OccursAt;
    BehindOpener(p, s);
  }

  /** And no parameter is read where its opener does not stand. */
  lemma OpenersStandFirst(u: Unicode, p: Placeholder, s: string)
    requires !(p.opens <= s)
    ensures Reads(u, p, s) == None
  {
  }

  // ------------------------------------------------------------- what begins with what

  /** Two dollars with nothing but name characters between them, the first at the front. */
  ghost predicate IsTagged(u: Unicode, s: string) {
    exists n: nat ::
      0 < n < |s| && s[0] == '$' && s[n] == '$' && forall i | 0 < i < n :: IsIdentChar(u, s[i]) && s[i] != '$'
  }

  lemma TaggedIsSeen(u: Unicode, s: string)
    requires s != "" && s[0] == '$'
    ensures DollarTag(u, s).Some? <==> IsTagged(u, s)
  {
    var close := Find(s[1..], "$");
    if close.Some? {
      assert s[1..][close.value..close.value + 1] == "$";
      assert s[close.value + 1] == '$';
      forall i | 0 < i < close.value + 1 ensures s[i] != '$' {
        assert !OccursAt(s[1..], "$", i - 1);
        assert s[1..][i - 1..i] == [s[i]];
      }
    }
    if n: nat :| 0 < n < |s| && s[n] == '$' && forall i | 0 < i < n :: IsIdentChar(u, s[i]) && s[i] != '$' {
      assert s[1..][n - 1..n] == "$";
      assert OccursAt(s[1..], "$", n - 1);
      assert close == Some(n - 1);
    }
  }

  /** What kind of token begins here, told from the characters: the first of these that is so. */
  lemma WhatBegins(u: Unicode, y: Syntax, s: string)
    requires Sound(u) && s != ""
    ensures var c := s[0];
            Next(u, y, s).kind
            == if u.space(c) then Whitespace
               else if (exists m | m in y.lineComments :: m <= s) || "/*" <= s then Comment
               else if c == '\'' || (y.escapeStringPrefix != "" && u.upper([c]) == y.escapeStringPrefix
                                     && |s| > 1 && s[1] == '\'') then Str
               else if exists p | p in y.placeholders && p.opens != "" :: Reads(u, p, s).Some? then Param
               else if y.dollarQuoting && IsTagged(u, s) then Str
               else if c in y.identifierQuotes || u.alpha(c) || c == '_' then Ident
               else if u.digit(c) then Number
               else if c in {'.', ',', '(', ')', ';', '[', ']'} then Punct
               else if exists op :: IsOperator(y, op) && op <= s then Operator
               else Unknown
  {
    hide Sound, Tried, FirstPlaceholder, Reads, CommentBody, StringLexeme, LineComment, DollarTag, DollarBody, IsTagged;
    hide MatchedOperator, IsOperator, NumberLength, QuotedBody, Run;
    LongestOpenerReads(u, y, s);
    OperatorsAreLongest(y, s);
    if s[0] == '$' {
      TaggedIsSeen(u, s);
    } else {
      NotTagged(u, s);
    }
    CommentOpens(y, s);
    assert |s| > 1 ==> ("'" <= s[1..] <==> s[1] == '\'');
  }

  lemma NotTagged(u: Unicode, s: string)
    requires s != "" && s[0] != '$'
    ensures !IsTagged(u, s)
  {
  }

  lemma CommentOpens(y: Syntax, s: string)
    ensures OpensComment(s) <==> "/*" <= s
    ensures StartsLineComment(y, s) <==> exists m | m in y.lineComments :: m <= s
  {
    if m :| m in y.lineComments && m <= s {
      var i :| 0 <= i < |y.lineComments| && y.lineComments[i] == m;
    }
    if i :| 0 <= i < |y.lineComments| && y.lineComments[i] <= s {
      assert y.lineComments[i] in y.lineComments;
    }
    if |s| > 1 {
      assert s[..2] == [s[0], s[1]];
    }
  }

  /** White space is read to its end. */
  lemma SpaceIsRead(u: Unicode, y: Syntax, s: string)
    requires Sound(u) && s != "" && u.space(s[0])
    ensures var x := Next(u, y, s);
            && x == Lexeme(Whitespace, x.len, s[..x.len], false, true) && (forall i | 0 <= i < x.len :: u.space(s[i]))
            && (x.len < |s| ==> !u.space(s[x.len]))
  {
  }
}
