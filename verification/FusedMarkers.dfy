/** Queries whose rendered markers take the character after them, in the styles that spell `:1` and `:p1`. */
module FusedMarkers {
  import opened Wrappers
  import opened Text
  import opened Render
  import opened Driver
  import L = Lexer
  import Dialects
  import Scanning

  // ------------------------------------------------------- `$1` at the front is no literal

  lemma {:induction false} SomeReads(u: Unicode, ps: seq<L.Placeholder>, p: L.Placeholder, s: string)
    requires (forall q | q in ps :: q.opens != "") && p in ps && L.Reads(u, p, s).Some?
    ensures L.FirstPlaceholder(u, ps, s).Some?
  {
    hide L.Reads;
    if ps[0] != p {
      SomeReads(u, ps[1..], p, s);
    }
  }

  lemma DollarReads(u: Unicode, s: string)
    requires Sound(u) && |s| > 1 && s[0] == '$' && s[1] == '1'
    ensures L.FirstPlaceholder(u, L.Tried(Dialects.POSTGRES), s).Some?
  {
    var p := L.Placeholder("$", L.Digits, "");
    assert p in L.Openers(Dialects.POSTGRES.placeholders);
    assert s[1..][0] == '1' && u.digit('1');
    assert L.Reads(u, p, s).Some?;
    SomeReads(u, L.Tried(Dialects.POSTGRES), p, s);
  }

  lemma DollarOpensNothingElse(u: Unicode, s: string)
    requires Sound(u) && s != "" && s[0] == '$'
    ensures !u.space(s[0]) && !L.StartsLineComment(Dialects.POSTGRES, s) && !L.OpensComment(s)
    ensures !L.OpensEscapeString(u, Dialects.POSTGRES, s)
  {
    SymbolsAreInert(u, '$');
  }

  /** Postgres reads `$1` as a parameter. */
  lemma MarkerIsAParameter(u: Unicode, s: string)
    requires Sound(u) && |s| > 1 && s[0] == '$' && s[1] == '1'
    ensures L.Next(u, Dialects.POSTGRES, s).kind == L.Param
  {
    hide Sound, Run, L.Tried, L.FirstPlaceholder, L.StartsLineComment, L.OpensComment, L.OpensEscapeString;
    hide L.StringLexeme, L.CommentBody, L.LineComment, L.DollarQuote, L.NextWord;
    DollarReads(u, s);
    DollarOpensNothingElse(u, s);
  }

  lemma {:induction false} SpansStartLate(ts: seq<L.Token>)
    requires forall i | 0 <= i < |ts| :: ts[i].start > 0
    ensures !Within(0, SpansOf(ts))
  {
    if ts != [] {
      assert forall i | 0 <= i < |ts| - 1 :: ts[1..][i] == ts[i + 1];
      SpansStartLate(ts[1..]);
    }
  }

  /** A parameter at the front leaves the front of the text unprotected. */
  lemma FrontIsFree(u: Unicode, y: L.Syntax, s: string)
    requires Sound(u) && s != "" && L.Next(u, y, s).kind == L.Param
    ensures !Within(0, QuotedSpans(u, Some(y), s))
  {
    hide Sound, L.Next, L.LexFrom, SpansOf, Scanning.Covers;
    var x := L.Next(u, y, s);
    L.LexStep(u, y, s, 0, 0);
    var t, rest := L.Placed(x, s, 0, L.DepthOf(x, 0)), L.LexFrom(u, y, s[x.len..], x.len, L.DepthAfter(x, 0));
    forall i | 0 <= i < |rest| ensures rest[i].start > 0 {
      StartsPast(u, y, s[x.len..], x.len, L.DepthAfter(x, 0), i);
    }
    SpansStartLate(rest);
    UnprotectedFront(t, rest);
    assert L.Lexed(u, y, s) == [t] + rest;
  }

  lemma StartsPast(u: Unicode, y: L.Syntax, s: string, pos: nat, depth: nat, i: nat)
    requires Sound(u) && pos > 0 && i < |L.LexFrom(u, y, s, pos, depth)|
    ensures L.LexFrom(u, y, s, pos, depth)[i].start > 0
  {
    hide L.LexFrom, Sound;
    Scanning.TokenCovers(u, y, s, pos, depth, i);
  }

  lemma UnprotectedFront(t: L.Token, rest: seq<L.Token>)
    requires t.kind == L.Param && !Within(0, SpansOf(rest))
    ensures !Within(0, SpansOf([t] + rest))
  {
    assert ([t] + rest)[1..] == rest;
    assert [] + SpansOf(rest) == SpansOf(rest);
  }

  // ----------------------------------------------------------------- what is written

  lemma OneIsOne(u: Unicode)
    requires Sound(u)
    ensures Number(u, "1") == 1
  {
    assert "1"[..0] == "";
  }

  /** `$1...` before a character. */
  lemma SpreadMarker(u: Unicode, s: string)
    requires Sound(u) && |s| > 5 && s[0] == '$' && s[1] == '1' && s[2] == '.' && s[3] == '.' && s[4] == '.'
    ensures MarkerAt(u, s) == Some((5, 1, true))
  {
    OneIsOne(u);
    SymbolsAreInert(u, '.');
    RunIs(u.decimal, s[1..], 1);
    assert s[1..2] == "1" && s[2..][..3] == "...";
  }

  lemma PlainMarker(u: Unicode, s: string)
    requires Sound(u) && |s| == 3 && s[0] == '$' && s[1] == '1' && !u.decimal(s[2]) && s[2] != '.'
    ensures MarkerAt(u, s) == Some((2, 1, false))
  {
    OneIsOne(u);
    RunIs(u.decimal, s[1..], 1);
    assert s[1..2] == "1" && s[2..][0] == s[2];
  }

  /** The last character of a query is text. */
  lemma LastIsText(u: Unicode, sql: string, spans: seq<(nat, nat)>, supplied: nat)
    requires sql != "" && sql[|sql| - 1] != '$'
    ensures Atoms(u, sql, |sql| - 1, spans, supplied) == [Text(sql[|sql| - 1])]
  {
    assert sql[|sql| - 1..][0] == sql[|sql| - 1];
    assert Atoms(u, sql, |sql|, spans, supplied) == [];
  }

  lemma SpreadIsRead(u: Unicode, sql: string, spans: seq<(nat, nat)>)
    requires Sound(u) && !Within(0, spans) && sql == "$1...5"
    ensures Atoms(u, sql, 0, spans, 1) == [Marker(1), Text('5')]
  {
    hide MarkerAt, Within, Sound;
    assert sql[0..] == sql;
    SpreadMarker(u, sql);
    LastIsText(u, sql, spans, 1);
    assert Expanded(1, 1) == [Marker(1)];
  }

  lemma NameIsRead(u: Unicode, sql: string, spans: seq<(nat, nat)>)
    requires Sound(u) && !Within(0, spans) && sql == "$1x" && !u.decimal('x')
    ensures Atoms(u, sql, 0, spans, 1) == [Marker(1), Text('x')]
  {
    hide MarkerAt, Within, Sound;
    assert sql[0..] == sql;
    PlainMarker(u, sql);
    LastIsText(u, sql, spans, 1);
  }

  /** A query of one marker and one more character is let through. */
  lemma OneMarkerRenders(u: Unicode, sql: string, value: string, paramstyle: string, n: nat, spread: bool)
    requires Sound(u) && StyleOf(paramstyle).Some? && |sql| == n + 1 && sql[n] != '$'
    requires MarkerAt(u, sql) == Some((n, 1, spread)) && !Within(0, QuotedSpans(u, Some(Dialects.POSTGRES), sql))
    ensures Rendering(u, sql, [value], paramstyle, Some(Dialects.POSTGRES)).Ok?
  {
    hide Sound, Atoms, Numbers, QuotedSpans, Within, Refusal;
    var spans := QuotedSpans(u, Some(Dialects.POSTGRES), sql);
    OneMatch(u, sql, n, spread);
    var m := Match(0, n, 1, spread);
    assert [m] + [] == [m] && [m][1..] == [];
    assert Live([m], spans) == [m];
    RenderedWhenWellPosed(u, sql, spans, 1);
  }

  lemma OneMatch(u: Unicode, sql: string, n: nat, spread: bool)
    requires n >= 2 && |sql| == n + 1 && MarkerAt(u, sql) == Some((n, 1, spread)) && sql[n] != '$'
    ensures Matches(u, sql, 0) == [Match(0, n, 1, spread)]
  {
    assert sql[0..] == sql && sql[n..][0] == sql[n];
    assert MarkerAt(u, sql[n..]).None?;
    assert Matches(u, sql, n + 1) == [];
    assert Matches(u, sql, n) == [];
  }

  // ------------------------------------------------------------------- what is read back

  /** What a driver of a style reads in what `render` gives it is not what the query asked. */
  ghost predicate IsMisread(u: Unicode, sql: string, value: string, paramstyle: string)
    requires Sound(u)
  {
    var rendered := Rendering(u, sql, [value], paramstyle, Some(Dialects.POSTGRES));
    var atoms := AtomsOf(u, sql, Some(Dialects.POSTGRES), 1);
    && rendered.Ok? && StyleOf(paramstyle).Some? && InRange(atoms, 1)
    && Read(StyleOf(paramstyle).value, rendered.value.0, rendered.value.1) != Some(Meaning(atoms, [value]))
  }

  /** `$1...5` on Postgres: the spread comes out as `:1`, or `:p1`, and takes the digit after it. */
  lemma SpreadBeforeDigitFuses(u: Unicode, value: string)
    requires Sound(u)
    ensures IsMisread(u, "$1...5", value, "numeric") && IsMisread(u, "$1...5", value, "named")
  {
    hide Sound, Atoms, QuotedSpans, Rendering, Read, Meaning, MarkerAt, Within;
    var sql := "$1...5";
    MarkerIsAParameter(u, sql);
    FrontIsFree(u, Dialects.POSTGRES, sql);
    SpreadMarker(u, sql);
    SpreadIsRead(u, sql, QuotedSpans(u, Some(Dialects.POSTGRES), sql));
    OneMarkerRenders(u, sql, value, "numeric", 5, true);
    OneMarkerRenders(u, sql, value, "named", 5, true);
    RenderedReadsBack(u, sql, [value], "numeric", Some(Dialects.POSTGRES));
    RenderedReadsBack(u, sql, [value], "named", Some(Dialects.POSTGRES));
  }

  /** `$1x` on Postgres: in the named style it comes out as `:p1x`, another name. */
  lemma MarkerBeforeNameFuses(u: Unicode, value: string)
    requires Sound(u) && !u.decimal('x')
    ensures IsMisread(u, "$1x", value, "named")
  {
    hide Sound, Atoms, QuotedSpans, Rendering, Read, Meaning, MarkerAt, Within;
    var sql := "$1x";
    MarkerIsAParameter(u, sql);
    FrontIsFree(u, Dialects.POSTGRES, sql);
    PlainMarker(u, sql);
    NameIsRead(u, sql, QuotedSpans(u, Some(Dialects.POSTGRES), sql));
    OneMarkerRenders(u, sql, value, "named", 2, false);
    RenderedReadsBack(u, sql, [value], "named", Some(Dialects.POSTGRES));
  }
}
