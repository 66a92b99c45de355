/** Turning a suggestion into edits (api.py): what is spliced where, and where the caret and the blanks go. */
module Insertion {
  import opened Wrappers
  import opened Text
  import opened Lexer
  import opened Quoting
  import Branches
  import Documents
  import Parens
  import Scanning
  import SelectList

  datatype Kind = Function | Schema | Other

  datatype Suggestion = Suggestion(
    text: string,
    kind: Kind,
    start: nat,
    end: nat,
    takesArguments: bool,
    stops: seq<nat>,
    relation: seq<string>)

  /** Put `text` where `[start, end)` is. */
  datatype Edit = Edit(start: nat, end: nat, text: string)

  /** Edits, latest in the text first; the rest is about the text they leave. */
  datatype Plan = Plan(edits: seq<Edit>, caret: nat, pending: seq<nat>, expectsMore: bool)

  /** The span lies in the text and the stops in the suggestion's own. */
  predicate Fits(sql: string, s: Suggestion) {
    s.start <= s.end <= |sql| && forall i | 0 <= i < |s.stops| :: s.stops[i] <= |s.text|
  }

  // -------------------------------------------------------------------- separators

  predicate ClosesAName(c: char) {
    c == '_' || c == '$' || c == '"' || c == '`' || c == '\''
  }

  predicate OpensAName(c: char) {
    c == '_' || c == '$' || c == '"' || c == '`'
  }

  /** `_fuses`. */
  predicate Fuses(u: Unicode, before: char, after: char) {
    (u.alnum(before) || ClosesAName(before)) && (u.alnum(after) || OpensAName(after))
  }

  /** What `_led_in` writes before the text. */
  function LedIn(u: Unicode, sql: string, start: nat, end: nat, text: string): string
    requires start <= end <= |sql|
  {
    if start != end || text == "" || start == 0 || !Fuses(u, sql[start - 1], text[0]) then "" else " "
  }

  /** What `_led_out` writes after it. */
  function LedOut(u: Unicode, sql: string, start: nat, end: nat, text: string): string
    requires start <= end <= |sql|
  {
    if start != end || text == "" || end >= |sql| || !Fuses(u, text[|text| - 1], sql[end]) then "" else " "
  }

  // ----------------------------------------------------------------------- the plan

  /** `text.lstrip().startswith('(')`. */
  predicate OpensAfterSpace(u: Unicode, text: string) {
    var n := Run(u.space, text);
    n < |text| && text[n] == '('
  }

  /** What a function or a namespace brings along. */
  function Suffix(u: Unicode, sql: string, s: Suggestion, closeParens: bool): string
    requires Fits(sql, s)
  {
    match s.kind
    case Function => if closeParens && !OpensAfterSpace(u, sql[s.end..]) then "()" else ""
    case Schema => if s.end < |sql| && sql[s.end] == '.' then "" else "."
    case Other => ""
  }

  /** The text before its end is separated from what follows. */
  function Core(u: Unicode, sql: string, s: Suggestion, closeParens: bool): string
    requires Fits(sql, s)
  {
    LedIn(u, sql, s.start, s.end, s.text) + s.text + Suffix(u, sql, s, closeParens)
  }

  function Inserted(u: Unicode, sql: string, s: Suggestion, closeParens: bool): string
    requires Fits(sql, s)
  {
    Core(u, sql, s, closeParens) + LedOut(u, sql, s.start, s.end, Core(u, sql, s, closeParens))
  }

  /** Somewhere of its own the insertion leaves the caret, if it has one. */
  function OwnCaret(u: Unicode, sql: string, s: Suggestion, closeParens: bool): Option<nat>
    requires Fits(sql, s)
  {
    var core := |Core(u, sql, s, closeParens)|;
    match s.kind
    case Function =>
      if Suffix(u, sql, s, closeParens) != "" && s.takesArguments then Some(s.start + core - 1) else None
    case Schema => if Suffix(u, sql, s, closeParens) == "" then Some(s.start + core + 1) else None
    case Other => None
  }

  /** Where a blank of the old text stands once the suggestion is in. */
  function Moved(s: Suggestion, inserted: string, p: nat): nat {
    if p >= s.end then p - s.end + s.start + |inserted| else p
  }

  function AllMoved(s: Suggestion, inserted: string, pending: seq<nat>): (r: seq<nat>)
    ensures |r| == |pending| && forall i | 0 <= i < |r| :: r[i] == Moved(s, inserted, pending[i])
  {
    seq(|pending|, i requires 0 <= i < |pending| => Moved(s, inserted, pending[i]))
  }

  function Opened(s: Suggestion): (r: seq<nat>)
    ensures |r| == |s.stops| && forall i | 0 <= i < |r| :: r[i] == s.start + s.stops[i]
  {
    seq(|s.stops|, i requires 0 <= i < |s.stops| => s.start + s.stops[i])
  }

  function EditsOf(s: Suggestion, inserted: string, later: Option<Edit>): seq<Edit> {
    (if later.Some? then [later.value] else []) + [Edit(s.start, s.end, inserted)]
  }

  /** The plan, given the FROM clause it needs if it needs one. */
  function Planned(u: Unicode, sql: string, s: Suggestion, pending: seq<nat>, closeParens: bool,
                   later: Option<Edit>): Plan
    requires Fits(sql, s)
  {
    var inserted, own := Inserted(u, sql, s, closeParens), OwnCaret(u, sql, s, closeParens);
    var edits, moved := EditsOf(s, inserted, later), AllMoved(s, inserted, pending);
    if s.stops != [] then Plan(edits, Opened(s)[0], Opened(s)[1..], true)
    else if moved != [] && s.kind != Schema && own.None? then Plan(edits, moved[0], moved[1..], true)
    else if own.Some? then Plan(edits, own.value, moved, true)
    else Plan(edits, s.start + |inserted|, moved, s.kind == Schema)
  }

  /** The FROM clause of a column no relation of the statement owns: where the select list ends. */
  function ClauseEdit(u: Unicode, d: Dialect, o: SelectList.Openers, sql: string, s: Suggestion): Option<Edit>
    requires Sound(u) && d.syntax.identifierQuotes != []
  {
    if s.relation == [] then None
    else
      var at := SelectList.ClauseOffset(o, Lexed(u, d.syntax, sql), s.end);
      Some(Edit(at, at, " FROM " + Written(u, d, s.relation)))
  }

  /** The FROM clause, if there is one, is a pure insertion at or past the suggestion's own span. */
  predicate Follows(sql: string, s: Suggestion, later: Option<Edit>) {
    later.Some? ==>
      later.value.start == later.value.end && s.end <= later.value.start <= |sql| && later.value.text != ""
  }

  lemma ClauseFollows(u: Unicode, d: Dialect, o: SelectList.Openers, sql: string, s: Suggestion)
    requires Sound(u) && d.syntax.identifierQuotes != [] && Fits(sql, s)
    ensures Follows(sql, s, ClauseEdit(u, d, o, sql, s))
  {
    hide Lexed, Written, Sound, SelectList.ClauseOffset, Scanning.Rising, Scanning.Tiling;
    Documents.LexedRises(u, d.syntax, sql);
    Scanning.LexTiles(u, d.syntax, sql);
    SelectList.ClauseOffsetFits(o, Lexed(u, d.syntax, sql), s.end, sql);
  }

  /** `_relation_edit`. */
  method RelationEdit(u: Unicode, d: Dialect, o: SelectList.Openers, sql: string, s: Suggestion)
    returns (later: Option<Edit>)
    requires Sound(u) && d.syntax.identifierQuotes != []
    ensures later == ClauseEdit(u, d, o, sql, s)
  {
    hide Lexed, Written, Sound, SelectList.ClauseOffset, Scanning.Rising, Parens.DepthsCount;
    if s.relation == [] {
      return None;
    }
    var ts := Lex(u, d.syntax, sql);
    Parens.LexedDepthsCount(u, d.syntax, sql);
    Documents.LexedRises(u, d.syntax, sql);
    var at := SelectList.SelectListEnd(o, ts, s.end);
    later := Some(Edit(at, at, " FROM " + Written(u, d, s.relation)));
  }

  /**
   Where the caret's query is closed, the clause goes into it exactly when no trivia stands right behind
   its paren, and otherwise behind the paren that closes it.
   */
  lemma ClauseGoesToTheCaretsQuery(u: Unicode, d: Dialect, o: SelectList.Openers, sql: string, s: Suggestion,
                                   w: (nat, nat))
    requires Sound(u) && d.syntax.identifierQuotes != [] && Fits(sql, s) && s.relation != []
    requires var ts := Lexed(u, d.syntax, sql);
             SelectList.IsCaretsQuery(o, ts, s.end, w) && w.1 < SelectList.BranchRound(o, ts, s.end).1
    ensures var ts, at := Lexed(u, d.syntax, sql), ClauseEdit(u, d, o, sql, s).value.start;
            if IsTrivia(ts[w.0]) then ts[w.1].end <= at else s.end <= at <= ts[w.1].start
  {
    hide Lexed, Written, Sound, SelectList.ClauseOffset, Scanning.Rising, Scanning.Tiling, Parens.DepthsCount;
    hide SelectList.IsCaretsQuery, SelectList.BranchRound;
    Parens.LexedDepthsCount(u, d.syntax, sql);
    Documents.LexedRises(u, d.syntax, sql);
    Scanning.LexTiles(u, d.syntax, sql);
    SelectList.ClauseLandsInTheQuery(o, Lexed(u, d.syntax, sql), s.end, sql, w);
  }

  /** The half of `plan_insertion` that decides the text and where it would leave the caret. */
  method BuildText(u: Unicode, sql: string, s: Suggestion, closeParens: bool)
    returns (text: string, caret: Option<nat>, finished: bool, more: bool)
    requires Fits(sql, s)
    ensures text == Inserted(u, sql, s, closeParens) && caret == OwnCaret(u, sql, s, closeParens)
    ensures finished == (s.kind != Schema) && more == (s.kind == Schema || caret.Some?)
  {
    hide Fuses;
    text := LedIn(u, sql, s.start, s.end, s.text) + s.text;
    ghost var bare := text;
    var tail := sql[s.end..];
    caret, finished, more := None, true, false;
    if s.kind == Function && closeParens && !OpensAfterSpace(u, tail) {
      text := text + "()";
      if s.takesArguments {
        caret := Some(s.start + |text| - 1);
        more := true;
      }
    }
    if s.kind == Schema {
      finished := false;
      more := true;
      if tail != "" && tail[0] == '.' {
        caret := Some(s.start + |text| + 1);
      } else {
        text := text + ".";
      }
    }
    assert bare + "" == bare;
    assert text == Core(u, sql, s, closeParens);
    text := text + LedOut(u, sql, s.start, s.end, text);
  }

  /** `plan_insertion`. */
  method PlanInsertion(u: Unicode, d: Dialect, o: SelectList.Openers, sql: string, s: Suggestion, pending: seq<nat>,
                       closeParens: bool)
    returns (plan: Plan)
    requires Sound(u) && d.syntax.identifierQuotes != [] && Fits(sql, s)
    ensures plan == Planned(u, sql, s, pending, closeParens, ClauseEdit(u, d, o, sql, s))
  {
    hide ClauseEdit, Sound, Inserted, OwnCaret;
    var text, caret, finished, more := BuildText(u, sql, s, closeParens);
    var later := RelationEdit(u, d, o, sql, s);
    var edits := (if later.Some? then [later.value] else []) + [Edit(s.start, s.end, text)];
    if s.stops != [] {
      return Plan(edits, Opened(s)[0], Opened(s)[1..], true);
    }
    var moved := AllMoved(s, text, pending);
    if moved != [] && finished && caret.None? {
      return Plan(edits, moved[0], moved[1..], true);
    }
    if moved != [] && caret.Some? {
      return Plan(edits, caret.value, moved, true);
    }
    plan := Plan(edits, if caret.Some? then caret.value else s.start + |text|, moved, more);
  }

  // ------------------------------------------------------------------- applying it

  function Before(sql: string, i: nat): string {
    if i < |sql| then sql[..i] else sql
  }

  function From(sql: string, i: nat): string {
    if i < |sql| then sql[i..] else ""
  }

  function Applied(sql: string, edits: seq<Edit>): string
    decreases |edits|
  {
    if edits == [] then sql
    else Applied(Before(sql, edits[0].start) + edits[0].text + From(sql, edits[0].end), edits[1..])
  }

  /** `apply_suggestion`. */
  method ApplySuggestion(u: Unicode, d: Dialect, o: SelectList.Openers, sql: string, s: Suggestion, closeParens: bool)
    returns (out: string, caret: nat)
    requires Sound(u) && d.syntax.identifierQuotes != [] && Fits(sql, s)
    ensures Follows(sql, s, ClauseEdit(u, d, o, sql, s))
    ensures out == Together(sql, s, Inserted(u, sql, s, closeParens), ClauseEdit(u, d, o, sql, s))
    ensures caret == Planned(u, sql, s, [], closeParens, ClauseEdit(u, d, o, sql, s)).caret <= |out|
  {
    hide ClauseEdit, Sound, Inserted, Planned, Applied, Together;
    var plan := PlanInsertion(u, d, o, sql, s, [], closeParens);
    ghost var later := ClauseEdit(u, d, o, sql, s);
    ClauseFollows(u, d, o, sql, s);
    PlannedEdits(u, sql, s, [], closeParens, later);
    out := ApplyEdits(sql, plan.edits);
    caret := plan.caret;
    EditsCompose(sql, s, Inserted(u, sql, s, closeParens), later);
    CaretInText(u, sql, s, [], closeParens, later);
  }

  /** The loop of `apply_suggestion`. */
  method ApplyEdits(sql: string, edits: seq<Edit>) returns (out: string)
    ensures out == Applied(sql, edits)
  {
    out := sql;
    for i := 0 to |edits|
      invariant Applied(out, edits[i..]) == Applied(sql, edits)
    {
      assert edits[i..][1..] == edits[i + 1..];
      out := Before(out, edits[i].start) + edits[i].text + From(out, edits[i].end);
    }
  }

  lemma PlannedEdits(u: Unicode, sql: string, s: Suggestion, pending: seq<nat>, closeParens: bool, later: Option<Edit>)
    requires Fits(sql, s)
    ensures Planned(u, sql, s, pending, closeParens, later).edits == EditsOf(s, Inserted(u, sql, s, closeParens), later)
  {
    hide Inserted, OwnCaret, EditsOf;
  }

  /** Both spans of the original replaced at once, everything outside them kept. */
  function Together(sql: string, s: Suggestion, inserted: string, later: Option<Edit>): string
    requires Fits(sql, s) && Follows(sql, s, later)
  {
    sql[..s.start] + inserted
    + if later.None? then sql[s.end..] else sql[s.end..later.value.start] + later.value.text + sql[later.value.start..]
  }

  /** Made one after another in the order listed, the edits do what they would do at once. */
  lemma EditsCompose(sql: string, s: Suggestion, inserted: string, later: Option<Edit>)
    requires Fits(sql, s) && Follows(sql, s, later)
    ensures Applied(sql, EditsOf(s, inserted, later)) == Together(sql, s, inserted, later)
  {
    var here := Edit(s.start, s.end, inserted);
    if later.None? {
      assert EditsOf(s, inserted, later) == [here];
      AppliedOnce(sql, here);
      assert From(sql, s.end) == sql[s.end..] && Before(sql, s.start) == sql[..s.start];
    } else {
      var e := later.value;
      var mid := Before(sql, e.start) + e.text + From(sql, e.end);
      assert mid == sql[..e.start] + e.text + sql[e.start..];
      assert EditsOf(s, inserted, later)[1..] == [here];
      AppliedOnce(mid, here);
      assert Before(mid, s.start) == sql[..s.start];
      assert From(mid, s.end) == sql[s.end..e.start] + e.text + sql[e.start..];
    }
  }

  lemma AppliedOnce(sql: string, e: Edit)
    ensures Applied(sql, [e]) == Before(sql, e.start) + e.text + From(sql, e.end)
  {
    assert [e][1..] == [];
  }

  // ------------------------------------------------- where the caret and the blanks are

  function ClauseLength(later: Option<Edit>): nat {
    if later.None? then 0 else |later.value.text|
  }

  /** Whether a blank's old offset, or what is made of it, lies inside the new text. */
  predicate Lands(sql: string, s: Suggestion, inserted: string, later: Option<Edit>, p: nat)
    requires Fits(sql, s)
  {
    p <= s.start || s.end <= p || p - s.start <= |inserted| + (|sql| - s.end) + ClauseLength(later)
  }

  lemma BlankLands(sql: string, s: Suggestion, inserted: string, later: Option<Edit>, p: nat)
    requires Fits(sql, s) && Follows(sql, s, later) && p <= |sql|
    ensures Moved(s, inserted, p) <= |Together(sql, s, inserted, later)| <==> Lands(sql, s, inserted, later, p)
    ensures s.start < p < s.end ==> Moved(s, inserted, p) == p
  {
  }

  /**
   The caret and every blank handed back lie inside the new text exactly when every pending blank lands
   there; one strictly inside the span replaced need not.
   */
  lemma CaretInText(u: Unicode, sql: string, s: Suggestion, pending: seq<nat>, closeParens: bool, later: Option<Edit>)
    requires Fits(sql, s) && Follows(sql, s, later) && forall i | 0 <= i < |pending| :: pending[i] <= |sql|
    ensures var plan, inserted := Planned(u, sql, s, pending, closeParens, later), Inserted(u, sql, s, closeParens);
            var out := Together(sql, s, inserted, later);
            (plan.caret <= |out| && forall i | 0 <= i < |plan.pending| :: plan.pending[i] <= |out|)
            <==> (s.stops != [] || forall i | 0 <= i < |pending| :: Lands(sql, s, inserted, later, pending[i]))
  {
    hide Inserted, Together, Lands, OwnCaret, Moved;
    var inserted := Inserted(u, sql, s, closeParens);
    var out, moved := Together(sql, s, inserted, later), AllMoved(s, inserted, pending);
    OwnPlacesLand(u, sql, s, closeParens, later);
    forall i | 0 <= i < |pending| ensures moved[i] <= |out| <==> Lands(sql, s, inserted, later, pending[i]) {
      BlankLands(sql, s, inserted, later, pending[i]);
    }
    assert pending != [] ==> forall i | 0 <= i < |pending| - 1 :: moved[1..][i] == moved[i + 1];
    assert pending != [] ==> forall i | 1 <= i < |pending| :: moved[i] == moved[1..][i - 1];
  }

  /** A template's stops, a caret of the insertion's own and the end of its text are all inside the new text. */
  lemma OwnPlacesLand(u: Unicode, sql: string, s: Suggestion, closeParens: bool, later: Option<Edit>)
    requires Fits(sql, s) && Follows(sql, s, later)
    ensures var inserted, own := Inserted(u, sql, s, closeParens), OwnCaret(u, sql, s, closeParens);
            var n := |Together(sql, s, inserted, later)|;
            && s.start + |inserted| <= n && (own.Some? ==> own.value <= n)
            && forall i | 0 <= i < |s.stops| :: Opened(s)[i] <= n
  {
    hide LedIn, LedOut;
    assert |Inserted(u, sql, s, closeParens)| >= |s.text|;
  }

  /** A blank strictly inside the span keeps its offset, which the new text need not reach. */
  lemma ABlankInsideMayFallOutside()
    ensures var s := Suggestion("x", Other, 0, 3, false, [], []);
            && Together("abc", s, Inserted(Ascii(), "abc", s, true), None) == "x"
            && Planned(Ascii(), "abc", s, [2], true, None).caret == 2
  {
    var s := Suggestion("x", Other, 0, 3, false, [], []);
    assert Inserted(Ascii(), "abc", s, true) == "x";
  }

  /** What both replacements make of the text left of an offset at or past the span, and of the text right of it. */
  function LeftOf(sql: string, s: Suggestion, inserted: string, later: Option<Edit>, p: nat): string
    requires Fits(sql, s) && Follows(sql, s, later) && s.end <= p <= |sql|
  {
    if later.None? || p <= later.value.start then sql[..s.start] + inserted + sql[s.end..p]
    else sql[..s.start] + inserted + sql[s.end..later.value.start] + later.value.text + sql[later.value.start..p]
  }

  function RightOf(sql: string, later: Option<Edit>, p: nat): string
    requires p <= |sql| && (later.Some? ==> later.value.start <= |sql|)
  {
    if later.None? || p > later.value.start then sql[p..]
    else sql[p..later.value.start] + later.value.text + sql[later.value.start..]
  }

  /**
   A blank handed back stands between the two exactly when it is not past the clause; past it, it
   stands that clause's length too early.
   */
  lemma BlanksKeepTheirPlace(sql: string, s: Suggestion, inserted: string, later: Option<Edit>, p: nat)
    requires Fits(sql, s) && Follows(sql, s, later) && s.end <= p <= |sql|
    ensures var left := LeftOf(sql, s, inserted, later, p);
            && Together(sql, s, inserted, later) == left + RightOf(sql, later, p)
            && (Moved(s, inserted, p) == |left| <==> later.None? || p <= later.value.start || later.value.text == "")
            && (later.Some? && p > later.value.start ==> Moved(s, inserted, p) + |later.value.text| == |left|)
  {
    if later.Some? && p > later.value.start {
      assert sql[later.value.start..] == sql[later.value.start..p] + sql[p..];
    } else {
      var end := if later.None? then |sql| else later.value.start;
      assert sql[s.end..end] == sql[s.end..p] + sql[p..end];
      assert later.None? ==> sql[..end] == sql;
    }
  }

  /** A text of one space is one token, and its query's clause goes at its front. */
  lemma SpaceLexes(u: Unicode, y: Syntax)
    requires Sound(u)
    ensures var ts := Lexed(u, y, " "); |ts| == 1 && ts[0].kind == Whitespace && ts[0].start == 0
  {
    hide Sound, StringLexeme, CommentBody, LineComment, NextWord, FirstPlaceholder, StartsLineComment;
    assert u.space(' ') by { SpaceIsSpace(u); }
    var x := Next(u, y, " ");
    LexStep(u, y, " ", 0, 0);
    EmptyLexes(u, y, 1, DepthAfter(x, 0));
    assert " "[x.len..] == "";
  }

  lemma SpaceIsSpace(u: Unicode)
    requires Sound(u)
    ensures u.space(' ') && !u.alnum(' ')
  {
  }

  lemma ClauseGoesFirst(o: SelectList.Openers, ts: seq<Token>)
    requires |ts| == 1 && ts[0].kind == Whitespace && ts[0].start == 0
    ensures SelectList.ClauseOffset(o, ts, 0) == 0
  {
    assert SelectList.Started(ts, 0, 0) == 0;
    assert Documents.Cut(ts, 0, 0, 1) == (0, 1);
    assert Documents.StatementOf(ts, 0) == (0, 1);
    assert Branches.BranchOf(o.unicode, ts, 0, 1, 0) == (0, 1);
    assert SelectList.QueryRound(o, ts, 0) == (0, 1);
    assert Branches.Trimmed(ts, 1) == 0;
  }

  /**
   A text of one space with a blank behind it: at its front a column `id` is taken whose relation `t` the
   statement lacks. The clause is written before the space, and the caret sent to where the blank would
   be without it: into the clause.
   */
  lemma ABlankPastTheClauseIsEarly(u: Unicode, d: Dialect, o: SelectList.Openers)
    requires Sound(u) && d.syntax.identifierQuotes != []
    ensures var s := Suggestion("id", Other, 0, 0, false, [], ["t"]);
            var inserted, later := Inserted(u, " ", s, true), ClauseEdit(u, d, o, " ", s);
            && inserted == "id" && later == Some(Edit(0, 0, " FROM " + Written(u, d, ["t"])))
            && Planned(u, " ", s, [1], true, later).caret == 3
            && |LeftOf(" ", s, inserted, later, 1)| == 3 + |later.value.text|
  {
    hide Sound, Lexed, Written, SelectList.ClauseOffset;
    SpaceIsSpace(u);
    SpaceLexes(u, d.syntax);
    ClauseGoesFirst(o, Lexed(u, d.syntax, " "));
    var s := Suggestion("id", Other, 0, 0, false, [], ["t"]);
    assert Core(u, " ", s, true) == "id";
    assert Inserted(u, " ", s, true) == "id";
  }

  /** A blank at or past the span keeps the text to its right exactly when no FROM clause is written. */
  lemma BlanksKeepTheirText(sql: string, s: Suggestion, inserted: string, later: Option<Edit>, p: nat)
    requires Fits(sql, s) && Follows(sql, s, later) && s.end <= p <= |sql|
    ensures From(Together(sql, s, inserted, later), Moved(s, inserted, p)) == sql[p..] <==> later.None?
  {
    var out, moved := Together(sql, s, inserted, later), Moved(s, inserted, p);
    assert From(out, moved) == out[moved..];
    if later.None? {
      assert out[moved..] == sql[p..];
    } else {
      assert |out[moved..]| == |sql[p..]| + |later.value.text|;
    }
  }

  /** A blank before the span is where it was, with the same text to its left. */
  lemma EarlierBlanksStay(sql: string, s: Suggestion, inserted: string, later: Option<Edit>, p: nat)
    requires Fits(sql, s) && Follows(sql, s, later) && p <= s.start && p < s.end
    ensures Moved(s, inserted, p) == p && Before(Together(sql, s, inserted, later), p) == sql[..p]
  {
  }

  /** What follows the suggestion's own text once it is in. */
  function Rest(u: Unicode, sql: string, s: Suggestion, closeParens: bool, later: Option<Edit>): string
    requires Fits(sql, s) && Follows(sql, s, later)
  {
    Suffix(u, sql, s, closeParens) + LedOut(u, sql, s.start, s.end, Core(u, sql, s, closeParens))
    + if later.None? then sql[s.end..] else sql[s.end..later.value.start] + later.value.text + sql[later.value.start..]
  }

  /** A template's blank has the template's own text after it exactly when no space was led in before it. */
  lemma StopsStandInTheText(u: Unicode, sql: string, s: Suggestion, closeParens: bool, later: Option<Edit>, k: nat)
    requires Fits(sql, s) && Follows(sql, s, later) && k < |s.stops|
    ensures From(Together(sql, s, Inserted(u, sql, s, closeParens), later), Opened(s)[k])
              == s.text[s.stops[k]..] + Rest(u, sql, s, closeParens, later)
       <==> LedIn(u, sql, s.start, s.end, s.text) == ""
  {
    hide LedOut, Suffix;
    var led, rest := LedIn(u, sql, s.start, s.end, s.text), Rest(u, sql, s, closeParens, later);
    var out := Together(sql, s, Inserted(u, sql, s, closeParens), later);
    assert out == sql[..s.start] + (led + s.text + rest);
    assert From(out, Opened(s)[k]) == (led + s.text + rest)[s.stops[k]..];
    if led == "" {
      assert led + s.text + rest == s.text + rest;
      assert (s.text + rest)[s.stops[k]..] == s.text[s.stops[k]..] + rest;
    }
  }

  /** `1⌶` accepting a template `x⌶`: the led-in space leaves the blank before the `x`. */
  lemma ALedInSpaceShiftsTheBlank()
    ensures var s := Suggestion("x", Other, 1, 1, false, [1], []);
            && Together("1", s, Inserted(Ascii(), "1", s, true), None) == "1 x"
            && Planned(Ascii(), "1", s, [], true, None).caret == 2
  {
  }

  /** Neither joint of an insertion at a point reads as one name or number. */
  lemma NothingFuses(u: Unicode, sql: string, s: Suggestion, closeParens: bool)
    requires Sound(u) && Fits(sql, s) && s.start == s.end && s.text != ""
    ensures var inserted := Inserted(u, sql, s, closeParens);
            && inserted != ""
            && (s.start > 0 ==> !Fuses(u, sql[s.start - 1], inserted[0]))
            && (s.end < |sql| ==> !Fuses(u, inserted[|inserted| - 1], sql[s.end]))
  {
    var core, inserted := Core(u, sql, s, closeParens), Inserted(u, sql, s, closeParens);
    assert inserted[0] == core[0] == (LedIn(u, sql, s.start, s.end, s.text) + s.text)[0];
  }

  /** A call that takes arguments leaves the caret between its parentheses. */
  lemma CaretBetweenParens(u: Unicode, sql: string, s: Suggestion, pending: seq<nat>, closeParens: bool,
                           later: Option<Edit>)
    requires Fits(sql, s) && Follows(sql, s, later) && s.stops == []
    requires s.kind == Function && OwnCaret(u, sql, s, closeParens).Some?
    ensures var out, caret := Together(sql, s, Inserted(u, sql, s, closeParens), later),
                              Planned(u, sql, s, pending, closeParens, later).caret;
            0 < caret < |out| && out[caret - 1] == '(' && out[caret] == ')'
  {
    hide LedIn, LedOut;
  }

  /** A namespace leaves the caret right after its dot, written or already there. */
  lemma CaretAfterDot(u: Unicode, sql: string, s: Suggestion, pending: seq<nat>, closeParens: bool)
    requires Sound(u) && Fits(sql, s) && s.stops == [] && s.kind == Schema
    ensures var out, caret := Together(sql, s, Inserted(u, sql, s, closeParens), None),
                              Planned(u, sql, s, pending, closeParens, None).caret;
            0 < caret <= |out| && out[caret - 1] == '.'
  {
    hide LedIn;
  }
}
