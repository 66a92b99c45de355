/** What accepting a suggestion writes and where it leaves the caret, told on the text. */
module Plans {
  import opened Wrappers
  import opened Text
  import opened Insertion
  import Quoting
  import SelectList
  import L = Lexer

  /** An open paren comes next from `i`, with only space before it. */
  ghost predicate IsCalled(u: Unicode, text: string, i: nat) {
    exists n: nat :: i <= n < |text| && text[n] == '(' && forall k | i <= k < n :: u.space(text[k])
  }

  predicate IsDotted(text: string, i: nat) {
    i < |text| && text[i] == '.'
  }

  /** Two characters that would read as one name or number if they met. */
  predicate Joins(u: Unicode, a: char, b: char) {
    && (u.alnum(a) || a in {'_', '$', '"', '`', '\''})
    && (u.alnum(b) || b in {'_', '$', '"', '`'})
  }

  lemma CalledIsSeen(u: Unicode, text: string, i: nat)
    requires Sound(u) && i <= |text|
    ensures OpensAfterSpace(u, text[i..]) <==> IsCalled(u, text, i)
  {
    assert !u.space('(') by { SymbolsAreInert(u, '('); }
    hide Sound;
    var rest := text[i..];
    if OpensAfterSpace(u, rest) {
      var n := Run(u.space, rest);
      forall k | i <= k < i + n ensures u.space(text[k]) {
        assert rest[k - i] == text[k];
      }
    }
    if n: nat :| i <= n < |text| && text[n] == '(' && forall k | i <= k < n :: u.space(text[k]) {
      RunIs(u.space, rest, n - i);
    }
  }

  /** What is brought along: a call its parens unless it is called already, a namespace its dot unless it has one. */
  ghost function Brought(u: Unicode, sql: string, s: Suggestion, closeParens: bool): string {
    match s.kind
    case Function => if closeParens && !IsCalled(u, sql, s.end) then "()" else ""
    case Schema => if IsDotted(sql, s.end) then "" else "."
    case Other => ""
  }

  ghost predicate LeadsIn(u: Unicode, sql: string, s: Suggestion)
    requires Fits(sql, s)
  {
    s.start == s.end && 0 < s.start && s.text != "" && Joins(u, sql[s.start - 1], s.text[0])
  }

  ghost predicate LeadsOut(u: Unicode, sql: string, s: Suggestion, closeParens: bool)
    requires Fits(sql, s)
  {
    && s.start == s.end < |sql| && s.text != "" && Brought(u, sql, s, closeParens) == ""
    && Joins(u, s.text[|s.text| - 1], sql[s.end])
  }

  lemma BroughtIsWritten(u: Unicode, sql: string, s: Suggestion, closeParens: bool)
    requires Sound(u) && Fits(sql, s)
    ensures Suffix(u, sql, s, closeParens) == Brought(u, sql, s, closeParens)
  {
    hide Sound;
    CalledIsSeen(u, sql, s.end);
  }

  /** The text written, with what it brings, and a space on either side only where it would fuse with what is there. */
  lemma WhatIsWritten(u: Unicode, sql: string, s: Suggestion, closeParens: bool)
    requires Sound(u) && Fits(sql, s)
    ensures Inserted(u, sql, s, closeParens)
         == (if LeadsIn(u, sql, s) then " " else "") + s.text + Brought(u, sql, s, closeParens)
            + (if LeadsOut(u, sql, s, closeParens) then " " else "")
  {
    BroughtIsWritten(u, sql, s, closeParens);
    SymbolsAreInert(u, ')');
    SymbolsAreInert(u, '.');
    hide Sound, Suffix;
    var core, brought := Core(u, sql, s, closeParens), Brought(u, sql, s, closeParens);
    assert brought != "" ==> core[|core| - 1] == brought[|brought| - 1];
    assert s.text != "" && brought == "" ==> core[|core| - 1] == s.text[|s.text| - 1];
  }

  /** A function accepted with its parens is called once: by those it brings, or by the ones that were there. */
  lemma AFunctionIsCalledOnce(u: Unicode, sql: string, s: Suggestion)
    requires Sound(u) && Fits(sql, s) && s.kind == Function
    ensures var out := Together(sql, s, Inserted(u, sql, s, true), None);
            var behind := s.start + (if LeadsIn(u, sql, s) then 1 else 0) + |s.text|;
            && behind <= |out| && IsCalled(u, out, behind)
            && out[behind..] == (if IsCalled(u, sql, s.end) then "" else "()") + sql[s.end..]
  {
    hide Inserted, Sound, LeadsIn, LeadsOut, IsCalled;
    var out, led := Together(sql, s, Inserted(u, sql, s, true), None), if LeadsIn(u, sql, s) then " " else "";
    var behind := s.start + |led| + |s.text|;
    WhatIsWritten(u, sql, s, true);
    ACallLeadsNothingOut(u, sql, s);
    var brought := Brought(u, sql, s, true);
    assert out == sql[..s.start] + led + s.text + (brought + sql[s.end..]);
    assert out[behind..] == brought + sql[s.end..];
    if IsCalled(u, sql, s.end) {
      SameBehind(u, sql, s.end, out, behind);
    } else {
      assert out[behind] == out[behind..][0] == '(';
      CalledAtOnce(u, out, behind);
    }
  }

  lemma ACallLeadsNothingOut(u: Unicode, sql: string, s: Suggestion)
    requires Sound(u) && Fits(sql, s) && s.kind == Function
    ensures !LeadsOut(u, sql, s, true)
  {
    SymbolsAreInert(u, '(');
    hide Sound;
    if n: nat :| s.end <= n < |sql| && sql[n] == '(' && forall k | s.end <= k < n :: u.space(sql[k]) {
      assert sql[s.end] == '(' || u.space(sql[s.end]);
      if u.space(sql[s.end]) {
        SpaceIsNoName(u, sql[s.end]);
      }
    }
  }

  lemma SpaceIsNoName(u: Unicode, c: char)
    requires Sound(u) && u.space(c)
    ensures !u.alnum(c) && !IsSymbol(c)
  {
  }

  lemma CalledAtOnce(u: Unicode, text: string, i: nat)
    requires i < |text| && text[i] == '('
    ensures IsCalled(u, text, i)
  {
  }

  lemma SameBehind(u: Unicode, a: string, i: nat, b: string, j: nat)
    requires i <= |a| && j <= |b| && a[i..] == b[j..] && IsCalled(u, a, i)
    ensures IsCalled(u, b, j)
  {
    var n: nat :| i <= n < |a| && a[n] == '(' && forall k | i <= k < n :: u.space(a[k]);
    assert forall k | j <= k < |b| :: b[k] == b[j..][k - j] == a[k - j + i];
    assert b[n - i + j] == '(';
  }

  /** A namespace is followed by one dot: the one it brings, or the one that was there. */
  lemma ANamespaceIsDottedOnce(u: Unicode, sql: string, s: Suggestion, closeParens: bool)
    requires Sound(u) && Fits(sql, s) && s.kind == Schema
    ensures var out := Together(sql, s, Inserted(u, sql, s, closeParens), None);
            var behind := s.start + (if LeadsIn(u, sql, s) then 1 else 0) + |s.text|;
            && behind < |out| && out[behind..] == (if IsDotted(sql, s.end) then "" else ".") + sql[s.end..]
            && out[behind] == '.'
  {
    WhatIsWritten(u, sql, s, closeParens);
    SymbolsAreInert(u, '.');
    hide Sound;
  }

  /** Where a blank of the old text stands in the new one: past the span it moves with the text. */
  function Shifted(s: Suggestion, inserted: string, p: nat): nat {
    if p < s.end then p else p + |inserted| - (s.end - s.start)
  }

  /**
   Where the caret goes, whatever else is written: to a template's first blank; or between the parens of a call
   that takes arguments, or behind a namespace's dot; or to the first pending blank; or behind the text. Blanks
   not gone to are handed back, moved, and only with nothing left to fill in is no more expected.
   */
  lemma WhereTheCaretGoes(u: Unicode, sql: string, s: Suggestion, pending: seq<nat>, closeParens: bool,
                          later: Option<Edit>)
    requires Sound(u) && Fits(sql, s)
    ensures var inserted, plan := Inserted(u, sql, s, closeParens), Planned(u, sql, s, pending, closeParens, later);
            var behind := s.start + (if LeadsIn(u, sql, s) then 1 else 0) + |s.text|;
            var moved := seq(|pending|, i requires 0 <= i < |pending| => Shifted(s, inserted, pending[i]));
            (plan.caret, plan.pending, plan.expectsMore)
            == if s.stops != [] then
                 (s.start + s.stops[0],
                  seq(|s.stops| - 1, i requires 0 <= i < |s.stops| - 1 => s.start + s.stops[i + 1]), true)
               else if s.kind == Function && closeParens && !IsCalled(u, sql, s.end) && s.takesArguments then
                 (behind + 1, moved, true)
               else if s.kind == Schema then
                 (behind + 1, moved, true)
               else if pending != [] then
                 (moved[0], moved[1..], true)
               else
                 (s.start + |inserted|, [], false)
  {
    WhatIsWritten(u, sql, s, closeParens);
    BroughtIsWritten(u, sql, s, closeParens);
    var inserted := Inserted(u, sql, s, closeParens);
    var moved := seq(|pending|, i requires 0 <= i < |pending| => Shifted(s, inserted, pending[i]));
    assert AllMoved(s, inserted, pending) == moved;
    if s.stops != [] {
      assert Opened(s)[1..] == seq(|s.stops| - 1, i requires 0 <= i < |s.stops| - 1 => s.start + s.stops[i + 1]);
    }
    hide Sound, Inserted, Suffix;
  }

  /** A clause is written exactly when the suggestion names a relation: FROM and that relation's own path. */
  lemma AClauseNamesItsRelation(u: Unicode, d: Quoting.Dialect, o: SelectList.Openers, sql: string, s: Suggestion)
    requires Sound(u) && d.syntax.identifierQuotes != []
    ensures ClauseEdit(u, d, o, sql, s).Some? <==> s.relation != []
    ensures s.relation != [] ==>
              var e := ClauseEdit(u, d, o, sql, s).value;
              && e.start == e.end == SelectList.ClauseOffset(o, L.Lexed(u, d.syntax, sql), s.end)
              && e.text == " FROM " + Quoting.Written(u, d, s.relation)
  {
    hide L.Lexed, Quoting.Written, Sound, SelectList.ClauseOffset;
  }
}
