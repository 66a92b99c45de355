/**
 The marker compiler of catalogs/dbapi.py: neutral `$1`, `$2...` SQL into the five
 PEP 249 paramstyles, and what a driver then reads back.
 */
module Render {
  import opened Wrappers
  import opened Text
  import opened Decimal
  import L = Lexer

  // --------------------------------------------------------- the neutral language

  /** One match of the marker pattern `\$(\d+)(\.\.\.)?`. */
  datatype Match = Match(start: nat, end: nat, number: nat, spread: bool)

  /** What `int()` makes of a run of Unicode decimal digits. */
  function Number(u: Unicode, s: string): nat {
    if s == "" then 0 else 10 * Number(u, s[..|s| - 1]) + u.digitValue(s[|s| - 1])
  }

  /** The marker standing at the front of `s`, if one does: its length, number and whether it spreads. */
  function MarkerAt(u: Unicode, s: string): (r: Option<(nat, nat, bool)>)
    ensures r.Some? ==> 2 <= r.value.0 <= |s| && s[0] == '$'
  {
    if s == "" || s[0] != '$' then
      None
    else
      var n := Run(u.decimal, s[1..]);
      if n == 0 then None
      else
        var spread := "..." <= s[1 + n..];
        Some((if spread then n + 4 else n + 1, Number(u, s[1..1 + n]), spread))
  }

  /** `finditer`: every match from `pos` on, left to right, none overlapping. */
  function Matches(u: Unicode, sql: string, pos: nat): (ms: seq<Match>)
    requires pos <= |sql|
    ensures forall i | 0 <= i < |ms| :: pos <= ms[i].start < ms[i].end <= |sql|
    decreases |sql| - pos
  {
    if pos == |sql| then
      []
    else
      var m := MarkerAt(u, sql[pos..]);
      if m.Some? then
        [Match(pos, pos + m.value.0, m.value.1, m.value.2)] + Matches(u, sql, pos + m.value.0)
      else
        Matches(u, sql, pos + 1)
  }

  predicate Within(offset: nat, spans: seq<(nat, nat)>) {
    exists i | 0 <= i < |spans| :: spans[i].0 <= offset < spans[i].1
  }

  /** Where `sql` holds a literal, a comment or a quoted name. */
  function QuotedSpans(u: Unicode, syntax: Option<L.Syntax>, sql: string): seq<(nat, nat)>
    requires Sound(u)
  {
    if syntax.None? then [] else SpansOf(L.Lexed(u, syntax.value, sql))
  }

  function SpansOf(ts: seq<L.Token>): seq<(nat, nat)> {
    if ts == [] then []
    else
      var t := ts[0];
      (if t.kind == L.Str || t.kind == L.Comment || (t.kind == L.Ident && t.quoted) then [(t.start, t.end)] else [])
      + SpansOf(ts[1..])
  }

  /** A query read character by character, with every spread written out. */
  datatype Atom = Text(c: char) | Marker(number: nat)

  function Texts(s: string): (r: seq<Atom>)
    ensures |r| == |s|
  {
    if s == "" then [] else [Text(s[0])] + Texts(s[1..])
  }

  /** A spread from `first`: every later value's own marker, separated by commas. */
  function Expanded(first: nat, supplied: nat): seq<Atom>
    decreases supplied - first
  {
    if first >= supplied then [Marker(first)] else [Marker(first), Text(','), Text(' ')] + Expanded(first + 1, supplied)
  }

  /** The neutral query from `pos` on; a match that starts inside a literal is text. */
  function Atoms(u: Unicode, sql: string, pos: nat, spans: seq<(nat, nat)>, supplied: nat): seq<Atom>
    requires pos <= |sql|
    decreases |sql| - pos
  {
    if pos == |sql| then
      []
    else
      var m := MarkerAt(u, sql[pos..]);
      if m.None? then
        [Text(sql[pos])] + Atoms(u, sql, pos + 1, spans, supplied)
      else
        var end := pos + m.value.0;
        (if Within(pos, spans) then Texts(sql[pos..end])
         else if m.value.2 then Expanded(m.value.1, supplied)
         else [Marker(m.value.1)])
        + Atoms(u, sql, end, spans, supplied)
  }

  /** What a query says: text, and the values bound into it. */
  datatype Item = Char(c: char) | Bound(value: string)

  predicate InRange(atoms: seq<Atom>, supplied: nat) {
    forall i | 0 <= i < |atoms| && atoms[i].Marker? :: 1 <= atoms[i].number <= supplied
  }

  /** The meaning of a query for the values supplied with it. */
  function Meaning(atoms: seq<Atom>, values: seq<string>): (r: seq<Item>)
    requires InRange(atoms, |values|)
    ensures |r| == |atoms|
  {
    if atoms == [] then []
    else
      var a := atoms[0];
      [if a.Text? then Char(a.c) else Bound(values[a.number - 1])] + Meaning(atoms[1..], values)
  }

  // ------------------------------------------------------------ what is written

  datatype Style = Qmark | Format | Numeric | Named | Pyformat

  function StyleOf(name: string): Option<Style> {
    if name == "qmark" then Some(Qmark)
    else if name == "format" then Some(Format)
    else if name == "numeric" then Some(Numeric)
    else if name == "named" then Some(Named)
    else if name == "pyformat" then Some(Pyformat)
    else None
  }

  predicate Doubles(style: Style) {
    style == Format || style == Pyformat
  }

  function Key(n: nat): string {
    "p" + Print(n)
  }

  function Spelled(style: Style, n: nat): string {
    match style
    case Qmark => "?"
    case Format => "%s"
    case Numeric => ":" + Print(n)
    case Named => ":" + Key(n)
    case Pyformat => "%(" + Key(n) + ")s"
  }

  /** `text.replace('%', '%%')` for the styles that read a percent as a placeholder. */
  function Escaped(s: string, doubles: bool): string {
    if s == "" then "" else (if doubles && s[0] == '%' then "%%" else [s[0]]) + Escaped(s[1..], doubles)
  }

  function WrittenAtom(style: Style, a: Atom): string {
    match a
    case Text(c) => if Doubles(style) && c == '%' then "%%" else [c]
    case Marker(n) => Spelled(style, n)
  }

  function Written(style: Style, atoms: seq<Atom>): string {
    if atoms == [] then "" else WrittenAtom(style, atoms[0]) + Written(style, atoms[1..])
  }

  /** The marker numbers of a query in the order they occur. */
  function Numbers(atoms: seq<Atom>): seq<nat> {
    if atoms == [] then [] else (if atoms[0].Marker? then [atoms[0].number] else []) + Numbers(atoms[1..])
  }

  predicate AllWithin(ns: seq<nat>, supplied: nat) {
    forall i | 0 <= i < |ns| :: 1 <= ns[i] <= supplied
  }

  /** The markers are in range exactly when their numbers are. */
  lemma {:induction false} NumbersWithin(atoms: seq<Atom>, supplied: nat)
    ensures InRange(atoms, supplied) <==> AllWithin(Numbers(atoms), supplied)
  {
    if atoms != [] {
      var rest := Numbers(atoms[1..]);
      NumbersWithin(atoms[1..], supplied);
      if atoms[0].Marker? {
        assert Numbers(atoms)[0] == atoms[0].number && Numbers(atoms)[1..] == rest;
        assert AllWithin(Numbers(atoms), supplied)
          <==> 1 <= atoms[0].number <= supplied && AllWithin(rest, supplied) by {
          assert forall i | 0 <= i < |rest| :: rest[i] == Numbers(atoms)[i + 1];
        }
      }
      assert forall i | 0 <= i < |atoms| - 1 :: atoms[1..][i] == atoms[i + 1];
    }
  }

  function Largest(ns: seq<nat>): (r: nat)
    ensures forall i | 0 <= i < |ns| :: ns[i] <= r
    ensures ns != [] ==> exists i | 0 <= i < |ns| :: ns[i] == r
    ensures ns == [] ==> r == 0
  {
    if ns == [] then 0
    else
      var rest := Largest(ns[1..]);
      assert forall i | 1 <= i < |ns| :: ns[i] == ns[1..][i - 1];
      if |ns| > 1 && rest > ns[0] then
        var i :| 0 <= i < |ns[1..]| && ns[1..][i] == rest;
        assert ns[i + 1] == rest;
        rest
      else
        assert ns[0] == ns[0];
        ns[0]
  }

  datatype Parameters = Positional(values: seq<string>) | ByName(table: map<string, string>)

  function Picked(ns: seq<nat>, values: seq<string>): (r: seq<string>)
    requires AllWithin(ns, |values|)
    ensures |r| == |ns|
  {
    seq(|ns|, i requires 0 <= i < |ns| => values[ns[i] - 1])
  }

  function Keyed(ns: seq<nat>, values: seq<string>): map<string, string>
    requires AllWithin(ns, |values|)
  {
    if ns == [] then map[] else Keyed(ns[1..], values)[Key(ns[0]) := values[ns[0] - 1]]
  }

  function ParametersFor(style: Style, ns: seq<nat>, values: seq<string>): Parameters
    requires AllWithin(ns, |values|)
  {
    match style
    case Qmark => Positional(Picked(ns, values))
    case Format => Positional(Picked(ns, values))
    case Numeric => Positional(values[..Largest(ns)])
    case Named => ByName(Keyed(ns, values))
    case Pyformat => ByName(Keyed(ns, values))
  }

  // -------------------------------------------------------------- the rewriting

  datatype RenderError = UnsupportedStyle | ZeroMarker | TwoSpreads | MarkerAfterSpread | EmptySpread | NoValue

  /** The matches that are markers rather than text (_markers). */
  function Live(ms: seq<Match>, spans: seq<(nat, nat)>): seq<Match> {
    if ms == [] then [] else (if Within(ms[0].start, spans) then [] else [ms[0]]) + Live(ms[1..], spans)
  }

  function Spreads(live: seq<Match>): (r: seq<Match>)
    ensures forall m :: m in r <==> m in live && m.spread
  {
    if live == [] then [] else (if live[0].spread then [live[0]] else []) + Spreads(live[1..])
  }

  /** Why the neutral text is refused before any value is looked at, if it is. */
  function Refusal(live: seq<Match>, supplied: nat): Option<RenderError> {
    if exists m | m in live :: m.number == 0 then Some(ZeroMarker)
    else if Spreads(live) == [] then None
    else if |Spreads(live)| > 1 then Some(TwoSpreads)
    else if exists m | m in live :: m.start > Spreads(live)[0].start then Some(MarkerAfterSpread)
    else if supplied < Spreads(live)[0].number then Some(EmptySpread)
    else None
  }

  /** `', '.join` over the markers a spread stands for. */
  function Joined(style: Style, first: nat, supplied: nat): string
    decreases supplied - first
  {
    if first >= supplied then Spelled(style, first)
    else Spelled(style, first) + ", " + Joined(style, first + 1, supplied)
  }

  function Range(first: nat, supplied: nat): seq<nat>
    decreases supplied - first
  {
    if first >= supplied then [first] else [first] + Range(first + 1, supplied)
  }

  lemma {:induction false} WrittenAppends(style: Style, a: seq<Atom>, b: seq<Atom>)
    ensures Written(style, a + b) == Written(style, a) + Written(style, b)
    ensures Numbers(a + b) == Numbers(a) + Numbers(b)
  {
    hide WrittenAtom;
    NumbersAppend(a, b);
    if a == [] {
      assert a + b == b;
    } else {
      assert (a + b)[1..] == a[1..] + b && (a + b)[0] == a[0];
      WrittenAppends(style, a[1..], b);
      Associates(WrittenAtom(style, a[0]), Written(style, a[1..]), Written(style, b));
    }
  }

  lemma {:induction false} NumbersAppend(a: seq<Atom>, b: seq<Atom>)
    ensures Numbers(a + b) == Numbers(a) + Numbers(b)
  {
    if a == [] {
      assert a + b == b;
    } else {
      assert (a + b)[1..] == a[1..] + b && (a + b)[0] == a[0];
      NumbersAppend(a[1..], b);
      Associates(if a[0].Marker? then [a[0].number] else [], Numbers(a[1..]), Numbers(b));
    }
  }

  lemma {:induction false} TextsWritten(style: Style, s: string)
    ensures Written(style, Texts(s)) == Escaped(s, Doubles(style)) && Numbers(Texts(s)) == []
  {
    if s != "" {
      TextsWritten(style, s[1..]);
      assert Texts(s)[1..] == Texts(s[1..]);
    }
  }

  lemma {:induction false} PlainUnescaped(s: string, doubles: bool)
    requires forall i | 0 <= i < |s| :: s[i] != '%'
    ensures Escaped(s, doubles) == s
  {
    if s != "" {
      PlainUnescaped(s[1..], doubles);
      assert s == [s[0]] + s[1..];
    }
  }

  lemma {:induction false} ExpandedWritten(style: Style, first: nat, supplied: nat)
    ensures Written(style, Expanded(first, supplied)) == Joined(style, first, supplied)
    ensures Numbers(Expanded(first, supplied)) == Range(first, supplied)
    decreases supplied - first
  {
    hide Written, Numbers, Spelled;
    AtomWritten(style, Marker(first));
    if first < supplied {
      var rest := Expanded(first + 1, supplied);
      ExpandedWritten(style, first + 1, supplied);
      CommaWritten(style);
      WrittenAppends(style, [Text(','), Text(' ')], rest);
      WrittenAppends(style, [Marker(first)], [Text(','), Text(' ')] + rest);
      assert Expanded(first, supplied) == [Marker(first)] + ([Text(','), Text(' ')] + rest);
      assert Spelled(style, first) + (", " + Joined(style, first + 1, supplied)) == Joined(style, first, supplied);
    }
  }

  lemma CommaWritten(style: Style)
    ensures Written(style, [Text(','), Text(' ')]) == ", " && Numbers([Text(','), Text(' ')]) == []
  {
    AtomWritten(style, Text(' '));
    assert [Text(','), Text(' ')][1..] == [Text(' ')];
  }

  lemma AtomWritten(style: Style, a: Atom)
    ensures Written(style, [a]) == WrittenAtom(style, a)
    ensures Numbers([a]) == if a.Marker? then [a.number] else []
  {
    assert [a][1..] == [];
    assert WrittenAtom(style, a) + "" == WrittenAtom(style, a);
  }

  /** Up to the next match, the query is text. */
  lemma {:induction false} TextUntilMatch(u: Unicode, sql: string, pos: nat, spans: seq<(nat, nat)>, supplied: nat)
    requires pos <= |sql|
    ensures var ms := Matches(u, sql, pos);
            if ms == [] then Atoms(u, sql, pos, spans, supplied) == Texts(sql[pos..])
            else Atoms(u, sql, pos, spans, supplied)
                 == Texts(sql[pos..ms[0].start]) + Atoms(u, sql, ms[0].start, spans, supplied)
    decreases |sql| - pos
  {
    hide MarkerAt, Within, Expanded;
    if pos == |sql| {
      assert sql[pos..] == "";
    } else if MarkerAt(u, sql[pos..]).None? {
      TextUntilMatch(u, sql, pos + 1, spans, supplied);
      var ms := Matches(u, sql, pos + 1);
      if ms == [] {
        assert sql[pos..][1..] == sql[pos + 1..];
      } else {
        var end := ms[0].start;
        assert sql[pos..end][1..] == sql[pos + 1..end];
        Associates([Text(sql[pos])], Texts(sql[pos + 1..end]), Atoms(u, sql, end, spans, supplied));
      }
    } else {
      assert sql[pos..pos] == "";
      assert Texts("") + Atoms(u, sql, pos, spans, supplied) == Atoms(u, sql, pos, spans, supplied);
    }
  }

  /** What a match contributes, and what comes after it. */
  function MatchAtoms(sql: string, m: Match, spans: seq<(nat, nat)>, supplied: nat): seq<Atom>
    requires m.start <= m.end <= |sql|
  {
    if Within(m.start, spans) then Texts(sql[m.start..m.end])
    else if m.spread then Expanded(m.number, supplied)
    else [Marker(m.number)]
  }

  lemma MatchHere(u: Unicode, sql: string, pos: nat, spans: seq<(nat, nat)>, supplied: nat)
    requires pos < |sql| && MarkerAt(u, sql[pos..]).Some?
    ensures var ms := Matches(u, sql, pos);
            && ms != [] && ms[0].start == pos && ms[1..] == Matches(u, sql, ms[0].end)
            && Atoms(u, sql, pos, spans, supplied)
               == MatchAtoms(sql, ms[0], spans, supplied) + Atoms(u, sql, ms[0].end, spans, supplied)
  {
    hide MarkerAt, Within, Expanded;
  }

  lemma {:induction false} MatchStep(u: Unicode, sql: string, pos: nat, spans: seq<(nat, nat)>, supplied: nat)
    requires pos <= |sql| && Matches(u, sql, pos) != []
    ensures var ms := Matches(u, sql, pos);
            && Atoms(u, sql, ms[0].start, spans, supplied)
               == MatchAtoms(sql, ms[0], spans, supplied) + Atoms(u, sql, ms[0].end, spans, supplied)
            && ms[1..] == Matches(u, sql, ms[0].end)
    decreases |sql| - pos
  {
    hide MarkerAt, MatchAtoms, Atoms;
    if MarkerAt(u, sql[pos..]).None? {
      MatchStep(u, sql, pos + 1, spans, supplied);
    } else {
      MatchHere(u, sql, pos, spans, supplied);
    }
  }

  lemma {:induction false} MatchHasNoPercent(u: Unicode, sql: string, pos: nat)
    requires Sound(u) && pos <= |sql| && Matches(u, sql, pos) != []
    ensures var m := Matches(u, sql, pos)[0]; forall i | m.start <= i < m.end :: sql[i] != '%'
    decreases |sql| - pos
  {
    var at := MarkerAt(u, sql[pos..]);
    if at.None? {
      MatchHasNoPercent(u, sql, pos + 1);
    } else {
      SymbolsAreInert(u, '%');
      var s := sql[pos..];
      var n := Run(u.decimal, s[1..]);
      forall i | pos <= i < pos + at.value.0
        ensures sql[i] != '%'
      {
        assert sql[i] == s[i - pos];
        if 1 <= i - pos <= n {
          assert u.decimal(s[1..][i - pos - 1]);
        } else if i > pos {
          assert s[i - pos] == s[1 + n..][i - pos - 1 - n];
        }
      }
    }
  }

  /** A query's atoms, with its own literals and comments left as text. */
  function AtomsOf(u: Unicode, sql: string, syntax: Option<L.Syntax>, supplied: nat): seq<Atom>
    requires Sound(u)
  {
    Atoms(u, sql, 0, QuotedSpans(u, syntax, sql), supplied)
  }

  /** What `render` answers or raises. */
  function Rendering(u: Unicode, sql: string, values: seq<string>, paramstyle: string, syntax: Option<L.Syntax>)
    : Result<(string, Parameters), RenderError>
    requires Sound(u)
  {
    var style, atoms := StyleOf(paramstyle), AtomsOf(u, sql, syntax, |values|);
    var refusal := Refusal(Live(Matches(u, sql, 0), QuotedSpans(u, syntax, sql)), |values|);
    if style.None? then Err(UnsupportedStyle)
    else if refusal.Some? then Err(refusal.value)
    else if !AllWithin(Numbers(atoms), |values|) then Err(NoValue)
    else Ok((Written(style.value, atoms), ParametersFor(style.value, Numbers(atoms), values)))
  }

  /** `render`. */
  method RenderQuery(u: Unicode, sql: string, values: seq<string>, paramstyle: string, syntax: Option<L.Syntax>)
    returns (r: Result<(string, Parameters), RenderError>)
    requires Sound(u)
    ensures r == Rendering(u, sql, values, paramstyle, syntax)
  {
    var spans := QuotedSpans(u, syntax, sql);
    if StyleOf(paramstyle).None? {
      return Err(UnsupportedStyle);
    }
    var style := StyleOf(paramstyle).value;
    var ms := Matches(u, sql, 0);
    var refusal := Refusal(Live(ms, spans), |values|);
    if refusal.Some? {
      return Err(refusal.value);
    }
    var rendered, order := Rewrite(u, sql, spans, ms, style, |values|);
    if exists i | 0 <= i < |order| :: !(1 <= order[i] <= |values|) {
      return Err(NoValue);
    }
    return Ok((rendered, ParametersFor(style, order, values)));
  }

  /** The one pass over `sql`: each stretch escaped as it is emitted, each marker spelled. */
  method Rewrite(u: Unicode, sql: string, spans: seq<(nat, nat)>, ms: seq<Match>, style: Style, supplied: nat)
    returns (parts: string, order: seq<nat>)
    requires Sound(u) && ms == Matches(u, sql, 0)
    ensures parts == Written(style, Atoms(u, sql, 0, spans, supplied))
    ensures order == Numbers(Atoms(u, sql, 0, spans, supplied))
  {
    hide Atoms, Matches, MarkerAt, Written, Numbers, Within, Escaped, Joined, Range, Spelled, Doubles, Sound;
    parts, order := "", [];
    var cursor: nat := 0;
    for k := 0 to |ms|
      invariant cursor <= |sql| && ms[k..] == Matches(u, sql, cursor)
      invariant parts + Written(style, Atoms(u, sql, cursor, spans, supplied))
             == Written(style, Atoms(u, sql, 0, spans, supplied))
      invariant order + Numbers(Atoms(u, sql, cursor, spans, supplied)) == Numbers(Atoms(u, sql, 0, spans, supplied))
    {
      var found := ms[k];
      assert ms[k..][0] == found;
      ghost var p, o := parts, order;
      ghost var rest := Atoms(u, sql, found.end, spans, supplied);
      RewriteStep(u, sql, cursor, spans, style, supplied);
      parts := parts + Escaped(sql[cursor..found.start], Doubles(style));
      if Within(found.start, spans) {
        parts := parts + sql[found.start..found.end];
      } else if found.spread {
        order := order + Range(found.number, supplied);
        parts := parts + Joined(style, found.number, supplied);
      } else {
        order := order + [found.number];
        parts := parts + Spelled(style, found.number);
      }
      Regroup(p, Escaped(sql[cursor..found.start], Doubles(style)), parts, Written(style, rest));
      Regroup(o, [], order, Numbers(rest));
      cursor := found.end;
      assert ms[k..][1..] == ms[k + 1..];
    }
    RewriteEnd(u, sql, cursor, spans, style, supplied);
    parts := parts + Escaped(sql[cursor..], Doubles(style));
  }

  /** Appending a stretch and then what follows it is appending both. */
  lemma Regroup<T>(p: seq<T>, a: seq<T>, q: seq<T>, w: seq<T>)
    requires p + a <= q
    ensures q + w == p + (a + (q[|p| + |a|..] + w))
  {
  }

  lemma RewriteEnd(u: Unicode, sql: string, cursor: nat, spans: seq<(nat, nat)>, style: Style, supplied: nat)
    requires cursor <= |sql| && Matches(u, sql, cursor) == []
    ensures Written(style, Atoms(u, sql, cursor, spans, supplied)) == Escaped(sql[cursor..], Doubles(style))
    ensures Numbers(Atoms(u, sql, cursor, spans, supplied)) == []
  {
    hide MarkerAt, Matches, Atoms, Written, Numbers, Escaped;
    TextUntilMatch(u, sql, cursor, spans, supplied);
    TextsWritten(style, sql[cursor..]);
  }

  /** One turn of the pass: a stretch of text, then what the match stands for. */
  lemma RewriteStep(u: Unicode, sql: string, cursor: nat, spans: seq<(nat, nat)>, style: Style, supplied: nat)
    requires Sound(u) && cursor <= |sql| && Matches(u, sql, cursor) != []
    ensures var m := Matches(u, sql, cursor)[0];
            var spelled := if Within(m.start, spans) then sql[m.start..m.end]
                           else if m.spread then Joined(style, m.number, supplied)
                           else Spelled(style, m.number);
            var numbers :=
              if Within(m.start, spans) then [] else if m.spread then Range(m.number, supplied) else [m.number];
            && Matches(u, sql, cursor)[1..] == Matches(u, sql, m.end)
            && Written(style, Atoms(u, sql, cursor, spans, supplied))
               == Escaped(sql[cursor..m.start], Doubles(style))
                  + (spelled + Written(style, Atoms(u, sql, m.end, spans, supplied)))
            && Numbers(Atoms(u, sql, cursor, spans, supplied))
               == numbers + Numbers(Atoms(u, sql, m.end, spans, supplied))
  {
    hide MarkerAt, Matches, Atoms, Written, Numbers, Escaped, Within, Sound;
    var m := Matches(u, sql, cursor)[0];
    var text, mine := Texts(sql[cursor..m.start]), MatchAtoms(sql, m, spans, supplied);
    var rest := Atoms(u, sql, m.end, spans, supplied);
    TextUntilMatch(u, sql, cursor, spans, supplied);
    MatchStep(u, sql, cursor, spans, supplied);
    TextsWritten(style, sql[cursor..m.start]);
    WrittenAppends(style, text, mine + rest);
    WrittenAppends(style, mine, rest);
    MatchWritten(u, sql, cursor, spans, style, supplied);
  }

  lemma MatchWritten(u: Unicode, sql: string, cursor: nat, spans: seq<(nat, nat)>, style: Style, supplied: nat)
    requires Sound(u) && cursor <= |sql| && Matches(u, sql, cursor) != []
    ensures var m := Matches(u, sql, cursor)[0];
            var mine := MatchAtoms(sql, m, spans, supplied);
            && Written(style, mine) == (if Within(m.start, spans) then sql[m.start..m.end]
                                        else if m.spread then Joined(style, m.number, supplied)
                                        else Spelled(style, m.number))
            && Numbers(mine)
               == (if Within(m.start, spans) then [] else if m.spread then Range(m.number, supplied) else [m.number])
  {
    hide MarkerAt, Matches, Written, Numbers, Escaped, Sound, Within;
    var m := Matches(u, sql, cursor)[0];
    MatchHasNoPercent(u, sql, cursor);
    TextsWritten(style, sql[m.start..m.end]);
    PlainUnescaped(sql[m.start..m.end], Doubles(style));
    ExpandedWritten(style, m.number, supplied);
    AtomWritten(style, Marker(m.number));
  }

  // ------------------------------------------------- which queries are rendered

  /** Every marker names a supplied value, and only the last may spread. */
  ghost predicate WellPosed(live: seq<Match>, supplied: nat) {
    forall i | 0 <= i < |live| :: 1 <= live[i].number <= supplied && (live[i].spread ==> i == |live| - 1)
  }

  predicate AllNamed(live: seq<Match>, supplied: nat) {
    forall i | 0 <= i < |live| :: 1 <= live[i].number <= supplied
  }

  lemma AllWithinAppends(a: seq<nat>, b: seq<nat>, supplied: nat)
    ensures AllWithin(a + b, supplied) <==> AllWithin(a, supplied) && AllWithin(b, supplied)
  {
    assert forall i | 0 <= i < |a| :: (a + b)[i] == a[i];
    assert forall i | 0 <= i < |b| :: (a + b)[|a| + i] == b[i];
  }

  lemma {:induction false} RangeWithin(first: nat, supplied: nat)
    ensures AllWithin(Range(first, supplied), supplied) <==> 1 <= first <= supplied
    decreases supplied - first
  {
    if first < supplied {
      RangeWithin(first + 1, supplied);
      AllWithinAppends([first], Range(first + 1, supplied), supplied);
      assert [first][0] == first;
    } else {
      assert [first][0] == first;
    }
  }

  lemma {:induction false} NumbersNamed(u: Unicode, sql: string, pos: nat, spans: seq<(nat, nat)>, supplied: nat)
    requires Sound(u) && pos <= |sql|
    ensures AllWithin(Numbers(Atoms(u, sql, pos, spans, supplied)), supplied)
       <==> AllNamed(Live(Matches(u, sql, pos), spans), supplied)
    decreases |sql| - pos
  {
    hide Atoms, Matches, MarkerAt, Written, Numbers, Within, Escaped, Joined, Range, Spelled, Sound;
    var ms := Matches(u, sql, pos);
    if ms == [] {
      RewriteEnd(u, sql, pos, spans, Qmark, supplied);
    } else {
      var m := ms[0];
      var rest := Live(ms[1..], spans);
      RewriteStep(u, sql, pos, spans, Qmark, supplied);
      NumbersNamed(u, sql, m.end, spans, supplied);
      RangeWithin(m.number, supplied);
      var numbers := if Within(m.start, spans) then [] else if m.spread then Range(m.number, supplied) else [m.number];
      AllWithinAppends(numbers, Numbers(Atoms(u, sql, m.end, spans, supplied)), supplied);
      LiveNamed(m, ms[1..], spans, supplied);
      assert [m.number][0] == m.number;
    }
  }

  lemma LiveNamed(m: Match, ms: seq<Match>, spans: seq<(nat, nat)>, supplied: nat)
    ensures AllNamed(Live([m] + ms, spans), supplied)
       <==> (Within(m.start, spans) || 1 <= m.number <= supplied) && AllNamed(Live(ms, spans), supplied)
  {
    assert ([m] + ms)[1..] == ms;
    var rest, all := Live(ms, spans), Live([m] + ms, spans);
    if !Within(m.start, spans) {
      assert all == [m] + rest && all[0] == m;
      assert forall i | 0 <= i < |rest| :: all[i + 1] == rest[i];
      assert forall i | 1 <= i < |all| :: all[i] == rest[i - 1];
    } else {
      assert all == rest;
    }
  }

  ghost predicate StartsAscend(ms: seq<Match>) {
    forall i, j | 0 <= i < j < |ms| :: ms[i].start < ms[j].start
  }

  lemma StartsAscendCons(m: Match, ms: seq<Match>)
    requires StartsAscend(ms) && forall i | 0 <= i < |ms| :: m.start < ms[i].start
    ensures StartsAscend([m] + ms)
  {
  }

  lemma {:induction false} MatchesAscend(u: Unicode, sql: string, pos: nat)
    requires pos <= |sql|
    ensures StartsAscend(Matches(u, sql, pos))
    decreases |sql| - pos
  {
    hide MarkerAt;
    if pos < |sql| {
      var m := MarkerAt(u, sql[pos..]);
      if m.Some? {
        MatchesAscend(u, sql, pos + m.value.0);
        var rest := Matches(u, sql, pos + m.value.0);
        StartsAscendCons(Matches(u, sql, pos)[0], rest);
      } else {
        MatchesAscend(u, sql, pos + 1);
      }
    }
  }

  lemma {:induction false} LiveAscends(ms: seq<Match>, spans: seq<(nat, nat)>)
    requires StartsAscend(ms)
    ensures StartsAscend(Live(ms, spans)) && forall m | m in Live(ms, spans) :: m in ms
  {
    if ms != [] {
      LiveAscends(ms[1..], spans);
      var rest := Live(ms[1..], spans);
      if !Within(ms[0].start, spans) {
        forall i | 0 <= i < |rest|
          ensures ms[0].start < rest[i].start
        {
          assert rest[i] in ms[1..];
        }
        StartsAscendCons(ms[0], rest);
      }
    }
  }

  /** The checks made before rendering refuse all but a last spread of values that exist. */
  lemma RefusalMeans(live: seq<Match>, supplied: nat)
    requires StartsAscend(live)
    ensures Refusal(live, supplied).None? && AllNamed(live, supplied) <==> WellPosed(live, supplied)
  {
    if AllNamed(live, supplied) {
      assert forall m | m in live :: 1 <= m.number <= supplied;
      if Spreads(live) != [] {
        var m := Spreads(live)[0];
        assert m in live && m.spread;
        var i :| 0 <= i < |live| && live[i] == m;
        if i < |live| - 1 {
          assert live[|live| - 1].start > m.start;
        } else {
          assert forall x | x in live :: x.start <= m.start;
        }
        SpreadsCount(live);
      } else {
        assert forall x | x in live :: !x.spread;
      }
    }
  }

  lemma {:induction false} SpreadsCount(live: seq<Match>)
    ensures |Spreads(live)| > 1 ==> exists i :: 0 <= i < |live| - 1 && live[i].spread
  {
    if |Spreads(live)| > 1 {
      if live[0].spread {
        assert Spreads(live[1..]) != [];
        assert live[1..] != [];
      } else {
        SpreadsCount(live[1..]);
        var i :| 0 <= i < |live[1..]| - 1 && live[1..][i].spread;
        assert live[i + 1].spread;
      }
    }
  }

  /**
   A query is rendered exactly when every marker outside its literals names a supplied value
   and none but the last spreads, whatever the style.
   */
  lemma RenderedWhenWellPosed(u: Unicode, sql: string, spans: seq<(nat, nat)>, supplied: nat)
    requires Sound(u)
    ensures var live := Live(Matches(u, sql, 0), spans);
            (Refusal(live, supplied).None? && AllWithin(Numbers(Atoms(u, sql, 0, spans, supplied)), supplied))
            <==> WellPosed(live, supplied)
  {
    hide Refusal, WellPosed, Live, Matches, Atoms, Numbers, Sound;
    MatchesAscend(u, sql, 0);
    LiveAscends(Matches(u, sql, 0), spans);
    NumbersNamed(u, sql, 0, spans, supplied);
    RefusalMeans(Live(Matches(u, sql, 0), spans), supplied);
  }
}
