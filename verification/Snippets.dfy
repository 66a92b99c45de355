/**
 Placeholders as a client reads them: writing a text with its stops (lsp convert.py, `_snippet`) and
 reading one back, by the LSP 3.17 snippet grammar or by the engine's own `expand_snippet` (rank.py).
 */
module Snippets {
  import opened Wrappers
  import opened Text
  import opened Decimal
  import opened Sorting
  import Render

  /** A placeholder: its number and the offset it stands at in the plain text. */
  datatype Mark = Mark(number: nat, offset: nat)

  // --------------------------------------------------------------------- writing

  predicate IsSpecial(c: char) {
    c == '\\' || c == '$' || c == '}'
  }

  function Escaped(text: string): string {
    if text == "" then ""
    else (if IsSpecial(text[0]) then ['\\', text[0]] else [text[0]]) + Escaped(text[1..])
  }

  /** `enumerate(stops, start=1)`. */
  function Numbered(stops: seq<nat>): (ms: seq<Mark>)
    ensures |ms| == |stops| && forall i | 0 <= i < |ms| :: ms[i] == Mark(i + 1, stops[i])
  {
    seq(|stops|, i requires 0 <= i < |stops| => Mark(i + 1, stops[i]))
  }

  /** The order of the text: by offset, then by number. */
  function ByPlace(): (Mark, Mark) -> bool {
    (a: Mark, b: Mark) => if a.offset != b.offset then a.offset < b.offset else a.number <= b.number
  }

  function InTextOrder(stops: seq<nat>): seq<Mark> {
    Sort(ByPlace(), Numbered(stops))
  }

  /** `text[from:to]`, for offsets that may lie past the end or the wrong way round. */
  function Slice(text: string, from: nat, to: nat): string {
    var end := if to < |text| then to else |text|;
    if from < end then text[from..end] else ""
  }

  function Later(a: nat, b: nat): nat {
    if a < b then b else a
  }

  /** The text between two stops and the placeholder that ends it. */
  function Piece(text: string, cut: nat, m: Mark): string {
    Escaped(Slice(text, cut, m.offset)) + ("$" + Print(m.number))
  }

  /** The text from `cut` on, with the given marks written into it. */
  function Emitted(text: string, ms: seq<Mark>, cut: nat): string {
    if ms == [] then Escaped(Slice(text, cut, |text|))
    else Piece(text, cut, ms[0]) + Emitted(text, ms[1..], Later(cut, ms[0].offset))
  }

  /** `_snippet`. */
  method Snippet(text: string, stops: seq<nat>) returns (out: string)
    ensures out == Emitted(text, InTextOrder(stops), 0)
  {
    hide Piece, Escaped;
    var sorted := InTextOrder(stops);
    out := "";
    var cut: nat := 0;
    for i := 0 to |sorted|
      invariant out + Emitted(text, sorted[i..], cut) == Emitted(text, sorted, 0)
    {
      var m := sorted[i];
      assert sorted[i..][0] == m && sorted[i..][1..] == sorted[i + 1..];
      ghost var rest := Emitted(text, sorted[i + 1..], Later(cut, m.offset));
      assert out + (Piece(text, cut, m) + rest) == out + Piece(text, cut, m) + rest;
      out := out + Piece(text, cut, m);
      cut := Later(cut, m.offset);
    }
    out := out + Escaped(Slice(text, cut, |text|));
  }

  // --------------------------------------------------------------------- reading

  /** How a reader tells a placeholder: its digits, what they count to, and whether it knows escapes. */
  datatype Grammar = Grammar(digit: char -> bool, number: string -> nat, escapes: bool)

  /** "Snippet Syntax" of the LSP 3.17 specification. */
  function Lsp(): Grammar {
    Grammar(IsAsciiDigit, s => Render.Number(Ascii(), s), true)
  }

  /** The pattern `\$(\d+)` of `expand_snippet`. */
  function Pattern(u: Unicode): Grammar {
    Grammar(u.decimal, s => Render.Number(u, s), false)
  }

  /** The plain text of what is left to read, and its placeholders from offset `at` on. */
  datatype Reading = Reading(text: string, marks: seq<Mark>)

  function Literally(c: char, rest: Option<Reading>): Option<Reading> {
    if rest.None? then None else Some(Reading([c] + rest.value.text, rest.value.marks))
  }

  function Marked(m: Mark, rest: Option<Reading>): Option<Reading> {
    if rest.None? then None else Some(Reading(rest.value.text, [m] + rest.value.marks))
  }

  /** None for the placeholder, choice and variable forms, which are not modelled. */
  function Read(g: Grammar, s: string, at: nat): (r: Option<Reading>)
    decreases |s|
  {
    if s == "" then Some(Reading("", []))
    else if g.escapes && s[0] == '\\' && |s| > 1 && IsSpecial(s[1]) then Literally(s[1], Read(g, s[2..], at + 1))
    else if s[0] == '$' then
      var n := Run(g.digit, s[1..]);
      if n > 0 then Marked(Mark(g.number(s[1..n + 1]), at), Read(g, s[n + 1..], at))
      else if g.escapes then None
      else Literally('$', Read(g, s[1..], at + 1))
    else Literally(s[0], Read(g, s[1..], at + 1))
  }

  /** The order a front end visits: by number, with 0 last. */
  function ByVisit(): (Mark, Mark) -> bool {
    (a: Mark, b: Mark) => if (a.number == 0) != (b.number == 0) then b.number == 0 else a.number <= b.number
  }

  function Offsets(ms: seq<Mark>): (r: seq<nat>)
    ensures |r| == |ms| && forall i | 0 <= i < |r| :: r[i] == ms[i].offset
  {
    seq(|ms|, i requires 0 <= i < |ms| => ms[i].offset)
  }

  /** The plain text and the stops in visiting order. */
  function ReadBack(g: Grammar, s: string): Option<(string, seq<nat>)> {
    var r := Read(g, s, 0);
    if r.None? then None else Some((r.value.text, Offsets(Sort(ByVisit(), r.value.marks))))
  }

  /** `expand_snippet`. */
  method ExpandSnippet(u: Unicode, snippet: string) returns (text: string, stops: seq<nat>)
    ensures ReadBack(Pattern(u), snippet) == Some((text, stops))
  {
    hide Read;
    var g := Pattern(u);
    var parts, marks: seq<Mark>, written, cursor, pos := "", [], 0, 0, 0;
    ghost var whole := Read(g, snippet, 0);
    OntoNothing(whole);
    assert "" + snippet[0..0] == "";
    while pos < |snippet|
      invariant cursor <= pos <= |snippet| && written == |parts|
      invariant Onto(parts + snippet[cursor..pos], marks, Read(g, snippet[pos..], written + pos - cursor)) == whole
    {
      PatternStep(u, snippet[pos..], written + pos - cursor);
      assert snippet[pos..][1..] == snippet[pos + 1..];
      var n := if snippet[pos] == '$' then Run(u.decimal, snippet[pos + 1..]) else 0;
      ghost var before, at := parts + snippet[cursor..pos], written + pos - cursor;
      if n > 0 {
        var chunk := snippet[cursor..pos];
        parts := parts + chunk;
        written := written + |chunk|;
        var m := Mark(Render.Number(u, snippet[pos + 1..pos + 1 + n]), written);
        assert snippet[pos..][1..n + 1] == snippet[pos + 1..pos + 1 + n];
        assert snippet[pos..][n + 1..] == snippet[pos + 1 + n..];
        OntoMark(before, marks, m, Read(g, snippet[pos + 1 + n..], at));
        marks := marks + [m];
        pos := pos + 1 + n;
        cursor := pos;
        assert parts + snippet[cursor..pos] == before;
      } else {
        OntoChar(before, marks, snippet[pos], Read(g, snippet[pos + 1..], at + 1));
        pos := pos + 1;
        assert parts + snippet[cursor..pos] == before + [snippet[pos - 1]];
      }
    }
    text := parts + snippet[cursor..];
    stops := Offsets(Sort(ByVisit(), marks));
    assert snippet[pos..] == "" && snippet[cursor..pos] == snippet[cursor..];
    ReadsNothing(g, written + pos - cursor);
    assert text + "" == text && marks + [] == marks;
  }

  lemma PatternStep(u: Unicode, s: string, at: nat)
    requires s != ""
    ensures var n := if s[0] == '$' then Run(u.decimal, s[1..]) else 0;
            Read(Pattern(u), s, at)
            == if n > 0 then Marked(Mark(Render.Number(u, s[1..n + 1]), at), Read(Pattern(u), s[n + 1..], at))
               else Literally(s[0], Read(Pattern(u), s[1..], at + 1))
  {
  }

  lemma ReadsNothing(g: Grammar, at: nat)
    ensures Read(g, "", at) == Some(Reading("", []))
  {
  }

  lemma OntoNothing(rest: Option<Reading>)
    ensures Onto("", [], rest) == rest
  {
    if rest.Some? {
      assert "" + rest.value.text == rest.value.text && [] + rest.value.marks == rest.value.marks;
    }
  }

  lemma OntoChar(text: string, marks: seq<Mark>, c: char, rest: Option<Reading>)
    ensures Onto(text, marks, Literally(c, rest)) == Onto(text + [c], marks, rest)
  {
    if rest.Some? {
      assert text + ([c] + rest.value.text) == text + [c] + rest.value.text;
    }
  }

  lemma OntoMark(text: string, marks: seq<Mark>, m: Mark, rest: Option<Reading>)
    ensures Onto(text, marks, Marked(m, rest)) == Onto(text, marks + [m], rest)
  {
    if rest.Some? {
      assert marks + ([m] + rest.value.marks) == marks + [m] + rest.value.marks;
    }
  }

  /** What has been read so far in front of what is still to be read. */
  function Onto(text: string, marks: seq<Mark>, rest: Option<Reading>): Option<Reading> {
    if rest.None? then None else Some(Reading(text + rest.value.text, marks + rest.value.marks))
  }

  // ------------------------------------------------------------------ the round trip

  /** Digits include the ASCII ones, are never special, and read printed numbers back. */
  ghost predicate Counts(g: Grammar) {
    && (forall c | IsAsciiDigit(c) :: g.digit(c))
    && (forall c | IsSpecial(c) :: !g.digit(c))
    && (forall n :: g.number(Print(n)) == n)
  }

  predicate Plain(text: string) {
    forall i | 0 <= i < |text| :: !IsSpecial(text[i])
  }

  lemma {:induction false} LiteralReads(g: Grammar, t: string, rest: string, at: nat)
    requires g.escapes || Plain(t)
    ensures Read(g, Escaped(t) + rest, at) == Onto(t, [], Read(g, rest, at + |t|))
  {
    hide Read;
    if t == "" {
      assert Escaped(t) + rest == rest;
      OntoNothing(Read(g, rest, at));
    } else {
      LiteralReads(g, t[1..], rest, at + 1);
      LiteralStep(g, t, rest, at);
      var after := Read(g, rest, at + |t|);
      if after.Some? {
        assert [t[0]] + (t[1..] + after.value.text) == t + after.value.text;
      }
    }
  }

  lemma ReadEscape(g: Grammar, c: char, rest: string, at: nat)
    requires g.escapes && IsSpecial(c)
    ensures Read(g, ['\\', c] + rest, at) == Literally(c, Read(g, rest, at + 1))
  {
    assert (['\\', c] + rest)[2..] == rest;
  }

  lemma ReadPlain(g: Grammar, c: char, rest: string, at: nat)
    requires !IsSpecial(c)
    ensures Read(g, [c] + rest, at) == Literally(c, Read(g, rest, at + 1))
  {
    assert ([c] + rest)[1..] == rest;
  }

  lemma LiteralStep(g: Grammar, t: string, rest: string, at: nat)
    requires t != "" && (g.escapes || !IsSpecial(t[0]))
    ensures Read(g, Escaped(t) + rest, at) == Literally(t[0], Read(g, Escaped(t[1..]) + rest, at + 1))
  {
    hide Read;
    var more := Escaped(t[1..]) + rest;
    if IsSpecial(t[0]) {
      assert Escaped(t) + rest == ['\\', t[0]] + more;
      ReadEscape(g, t[0], more, at);
    } else {
      assert Escaped(t) + rest == [t[0]] + more;
      ReadPlain(g, t[0], more, at);
    }
  }

  /** A placeholder takes every digit that follows it, its own or not. */
  lemma MarkReads(g: Grammar, n: nat, rest: string, at: nat)
    requires Counts(g)
    ensures var k := Run(g.digit, rest);
            && Read(g, "$" + Print(n) + rest, at)
               == Marked(Mark(g.number(Print(n) + rest[..k]), at), Read(g, rest[k..], at))
            && (k == 0 ==> g.number(Print(n) + rest[..k]) == n)
  {
    hide Print, Run;
    var k, p := Run(g.digit, rest), Print(n);
    var s := "$" + p + rest;
    assert s[1..] == p + rest;
    RunIs(g.digit, p + rest, |p| + k);
    assert (p + rest)[..|p| + k] == p + rest[..k];
    assert s[1..|p| + k + 1] == p + rest[..k] && s[|p| + k + 1..] == rest[k..];
    ReadMark(g, s, at);
    assert p + "" == p;
  }

  lemma ReadMark(g: Grammar, s: string, at: nat)
    requires s != "" && s[0] == '$' && Run(g.digit, s[1..]) > 0
    ensures var n := Run(g.digit, s[1..]);
            Read(g, s, at) == Marked(Mark(g.number(s[1..n + 1]), at), Read(g, s[n + 1..], at))
  {
  }

  lemma {:induction false} EscapedPrefix(t: string, k: nat)
    requires k <= |t| && Plain(t[..k])
    ensures Escaped(t) == t[..k] + Escaped(t[k..])
  {
    if k == 0 {
      assert t[..0] == "" && t[0..] == t;
    } else {
      assert t[..k][0] == t[0] && t[1..][..k - 1] == t[..k][1..];
      EscapedPrefix(t[1..], k - 1);
      assert t[1..][k - 1..] == t[k..];
      Associates([t[0]], t[1..][..k - 1], Escaped(t[k..]));
      assert [t[0]] + t[1..][..k - 1] == t[..k];
    }
  }

  lemma EscapedDigits(g: Grammar, t: string, rest: string)
    requires Counts(g) && (rest == "" || !g.digit(rest[0]))
    ensures var k := Run(g.digit, t);
            Run(g.digit, Escaped(t) + rest) == k && (Escaped(t) + rest)[k..] == Escaped(t[k..]) + rest
  {
    hide Run;
    var k := Run(g.digit, t);
    forall i | 0 <= i < k ensures !IsSpecial(t[..k][i]) {
      assert g.digit(t[i]);
    }
    EscapedPrefix(t, k);
    var more := Escaped(t[k..]) + rest;
    assert more != [] ==> !g.digit(more[0]) by {
      assert t[k..] != "" ==> t[k..][0] == t[k];
      assert IsSpecial('\\');
    }
    Associates(t[..k], Escaped(t[k..]), rest);
    RunIs(g.digit, t[..k] + more, k);
  }

  predicate MarksAscend(ms: seq<Mark>, from: nat, to: nat) {
    && (forall i | 0 <= i < |ms| :: from <= ms[i].offset <= to)
    && (forall i, j | 0 <= i < j < |ms| :: ms[i].offset <= ms[j].offset)
  }

  /** Where the text before the next mark ends. */
  function Limit(text: string, ms: seq<Mark>): nat {
    if ms == [] then |text| else ms[0].offset
  }

  /** What is emitted from `cut` on begins with the digits of the text there, and with no more. */
  lemma EmittedDigits(g: Grammar, text: string, ms: seq<Mark>, cut: nat)
    requires Counts(g) && cut <= |text| && MarksAscend(ms, cut, |text|)
    ensures var k := Run(g.digit, Slice(text, cut, Limit(text, ms)));
            && cut + k <= Limit(text, ms)
            && Run(g.digit, Emitted(text, ms, cut)) == k && Emitted(text, ms, cut)[k..] == Emitted(text, ms, cut + k)
  {
    hide Escaped, Emitted, Counts, Tail, Run;
    var chunk := Slice(text, cut, Limit(text, ms));
    var k := Run(g.digit, chunk);
    assert chunk == text[cut..Limit(text, ms)] && chunk[k..] == Slice(text, cut + k, Limit(text, ms));
    TailStops(g, text, ms);
    EscapedDigits(g, chunk, Tail(text, ms));
    EmittedShape(text, ms, cut);
    EmittedShape(text, ms, cut + k);
  }

  /** What is emitted from the next mark on. */
  function Tail(text: string, ms: seq<Mark>): string {
    if ms == [] then "" else "$" + Print(ms[0].number) + Emitted(text, ms[1..], ms[0].offset)
  }

  lemma TailStops(g: Grammar, text: string, ms: seq<Mark>)
    requires Counts(g)
    ensures Tail(text, ms) == "" || !g.digit(Tail(text, ms)[0])
  {
    hide Print, Emitted;
    assert IsSpecial('$');
  }

  lemma EmittedShape(text: string, ms: seq<Mark>, cut: nat)
    requires cut <= Limit(text, ms)
    ensures Emitted(text, ms, cut) == Escaped(Slice(text, cut, Limit(text, ms))) + Tail(text, ms)
  {
    hide Print, Escaped;
    if ms == [] {
      assert Escaped(Slice(text, cut, |text|)) + "" == Escaped(Slice(text, cut, |text|));
    } else {
      var mark, rest := "$" + Print(ms[0].number), Emitted(text, ms[1..], ms[0].offset);
      Associates(Escaped(Slice(text, cut, ms[0].offset)), mark, rest);
    }
  }

  /** No mark stands right before a character the grammar would take for its next digit. */
  predicate Clear(g: Grammar, text: string, ms: seq<Mark>) {
    forall i | 0 <= i < |ms| && ms[i].offset < |text| :: !g.digit(text[ms[i].offset])
  }

  /** The digits of the text that the mark at the front of `ms` would take. */
  function Taken(g: Grammar, text: string, ms: seq<Mark>): nat
    requires ms != []
  {
    Run(g.digit, Slice(text, ms[0].offset, Limit(text, ms[1..])))
  }

  /** One mark read: the text before it, then the mark, whole unless it takes digits of the text. */
  lemma MarkStep(g: Grammar, text: string, ms: seq<Mark>, cut: nat, at: nat) returns (m: Mark)
    requires Counts(g) && (g.escapes || Plain(text)) && cut <= |text| && MarksAscend(ms, cut, |text|) && ms != []
    ensures var at', k := at + ms[0].offset - cut, Taken(g, text, ms);
            && ms[0].offset + k <= Limit(text, ms[1..])
            && (k == 0 ==> m == Mark(ms[0].number, at'))
            && Read(g, Emitted(text, ms, cut), at)
               == Onto(text[cut..ms[0].offset], [], Marked(m, Read(g, Emitted(text, ms[1..], ms[0].offset + k), at')))
  {
    hide Read, Escaped, Print, Run, Onto, Emitted;
    var first, rest := ms[0], ms[1..];
    var chunk, more := text[cut..first.offset], Emitted(text, rest, first.offset);
    var k := Run(g.digit, more);
    EmittedFirst(text, ms, cut);
    LiteralReads(g, chunk, "$" + Print(first.number) + more, at);
    EmittedDigits(g, text, rest, first.offset);
    MarkReads(g, first.number, more, at + |chunk|);
    m := Mark(g.number(Print(first.number) + more[..k]), at + |chunk|);
  }

  lemma EmittedFirst(text: string, ms: seq<Mark>, cut: nat)
    requires cut <= |text| && MarksAscend(ms, cut, |text|) && ms != []
    ensures Emitted(text, ms, cut)
         == Escaped(text[cut..ms[0].offset]) + ("$" + Print(ms[0].number) + Emitted(text, ms[1..], ms[0].offset))
  {
    hide Escaped, Print;
    assert Slice(text, cut, ms[0].offset) == text[cut..ms[0].offset];
  }

  lemma ClearStep(g: Grammar, text: string, ms: seq<Mark>, cut: nat)
    requires MarksAscend(ms, cut, |text|) && ms != []
    ensures Clear(g, text, ms) <==> Taken(g, text, ms) == 0 && Clear(g, text, ms[1..])
  {
    var rest := ms[1..];
    if rest != [] && rest[0].offset == ms[0].offset {
      assert Slice(text, ms[0].offset, Limit(text, rest)) == "";
      assert Clear(g, text, rest) && ms[0].offset < |text| ==> !g.digit(text[rest[0].offset]);
    } else if ms[0].offset < |text| {
      var chunk := Slice(text, ms[0].offset, Limit(text, rest));
      assert chunk[0] == text[ms[0].offset];
    }
    assert forall i | 0 <= i < |rest| :: ms[i + 1] == rest[i];
    assert forall i | 1 <= i < |ms| :: ms[i] == rest[i - 1];
  }

  /** Reading loses text exactly when a placeholder takes a digit of it, and otherwise loses nothing. */
  lemma {:induction false} EmittedReads(g: Grammar, text: string, ms: seq<Mark>, cut: nat, at: nat)
    requires Counts(g) && (g.escapes || Plain(text)) && cut <= |text| && MarksAscend(ms, cut, |text|)
    ensures var r := Read(g, Emitted(text, ms, cut), at);
            && r.Some? && |r.value.text| <= |text| - cut
            && (Clear(g, text, ms) <==> |r.value.text| == |text| - cut)
            && (Clear(g, text, ms) && at == cut ==> r == Some(Reading(text[cut..], ms)))
    decreases |ms|
  {
    hide Read, Emitted, Clear, Taken, Counts;
    if ms == [] {
      NoMarksRead(g, text, cut, at);
    } else {
      var m := MarkStep(g, text, ms, cut, at);
      ClearStep(g, text, ms, cut);
      EmittedReads(g, text, ms[1..], ms[0].offset + Taken(g, text, ms), at + ms[0].offset - cut);
      assert text[cut..ms[0].offset] + text[ms[0].offset..] == text[cut..];
      assert [] + ([ms[0]] + ms[1..]) == ms;
    }
  }

  lemma NoMarksRead(g: Grammar, text: string, cut: nat, at: nat)
    requires (g.escapes || Plain(text)) && cut <= |text|
    ensures Read(g, Emitted(text, [], cut), at) == Some(Reading(text[cut..], [])) && Clear(g, text, [])
  {
    hide Read, Escaped;
    var none: seq<Mark> := [];
    assert none + none == none;
    assert Slice(text, cut, |text|) == text[cut..];
    assert Escaped(text[cut..]) + "" == Escaped(text[cut..]);
    assert text[cut..] + "" == text[cut..];
    LiteralReads(g, text[cut..], "", at);
    ReadsNothing(g, at + |text[cut..]|);
  }

  // --------------------------------------------------------------- the main theorem

  /** No stop stands right before what the reader counts as a digit. */
  predicate NoStopBeforeDigit(g: Grammar, text: string, stops: seq<nat>) {
    forall i | 0 <= i < |stops| && stops[i] < |text| :: !g.digit(text[stops[i]])
  }

  predicate StopsFit(stops: seq<nat>, text: string) {
    forall i | 0 <= i < |stops| :: stops[i] <= |text|
  }

  lemma ByPlaceIsTotal()
    ensures TotalPreorder(ByPlace())
  {
  }

  lemma TextOrderAscends(stops: seq<nat>, text: string)
    requires StopsFit(stops, text)
    ensures MarksAscend(InTextOrder(stops), 0, |text|)
  {
    ByPlaceIsTotal();
    SortIsStable(ByPlace(), Numbered(stops));
    var ms := InTextOrder(stops);
    forall i | 0 <= i < |ms| ensures ms[i].offset <= |text| {
      assert ms[i] in Numbered(stops);
    }
    assert forall i, j | 0 <= i < j < |ms| :: ByPlace()(ms[i], ms[j]);
  }

  lemma ClearEitherWay(g: Grammar, text: string, stops: seq<nat>)
    ensures Clear(g, text, InTextOrder(stops)) <==> NoStopBeforeDigit(g, text, stops)
  {
    var ms, numbered := InTextOrder(stops), Numbered(stops);
    if Clear(g, text, ms) {
      forall i | 0 <= i < |stops| && stops[i] < |text| ensures !g.digit(text[stops[i]]) {
        assert numbered[i] in ms;
      }
    }
    if NoStopBeforeDigit(g, text, stops) {
      forall i | 0 <= i < |ms| && ms[i].offset < |text| ensures !g.digit(text[ms[i].offset]) {
        assert ms[i] in numbered;
      }
    }
  }

  /** Sorted by place and then by visit, the stops come back in the order they were given. */
  lemma VisitingRestores(stops: seq<nat>)
    ensures Offsets(Sort(ByVisit(), InTextOrder(stops))) == stops
  {
    var numbered, placed := Numbered(stops), InTextOrder(stops);
    var visited := Sort(ByVisit(), placed);
    SortDistinct(ByPlace(), numbered);
    SortDistinct(ByVisit(), placed);
    assert TotalPreorder(ByVisit());
    SortIsStable(ByVisit(), placed);
    OneOrder(ByVisit(), visited, numbered);
  }

  /**
   Writing a text with its stops and reading it gives both back, the stops in the order they were
   given, exactly when no stop stands right before a digit.
   */
  lemma SnippetRoundTrip(g: Grammar, text: string, stops: seq<nat>)
    requires Counts(g) && (g.escapes || Plain(text)) && StopsFit(stops, text)
    ensures ReadBack(g, Emitted(text, InTextOrder(stops), 0)) == Some((text, stops))
       <==> NoStopBeforeDigit(g, text, stops)
  {
    hide Read, Emitted, Counts, NoStopBeforeDigit, Clear, InTextOrder;
    TextOrderAscends(stops, text);
    EmittedReads(g, text, InTextOrder(stops), 0, 0);
    ClearEitherWay(g, text, stops);
    VisitingRestores(stops);
    assert text[0..] == text;
  }

  lemma {:induction false} NumberPrints(u: Unicode, n: nat)
    requires Sound(u)
    ensures Render.Number(u, Print(n)) == n
  {
    if n < 10 {
      assert Print(n)[..0] == "";
    } else {
      NumberPrints(u, n / 10);
      assert Print(n)[..|Print(n)| - 1] == Print(n / 10);
    }
  }

  /** A client of the protocol, and the engine's own reader, both count as the theorem asks. */
  lemma ReadersCount(u: Unicode)
    requires Sound(u)
    ensures Counts(Lsp()) && Counts(Pattern(u))
  {
    AsciiIsSound();
    forall n ensures Lsp().number(Print(n)) == n && Pattern(u).number(Print(n)) == n {
      NumberPrints(Ascii(), n);
      NumberPrints(u, n);
    }
  }

  /** What the language server sends is what a client shows, unless a stop stands before an ASCII digit. */
  lemma ClientsSeeTheText(text: string, stops: seq<nat>)
    requires StopsFit(stops, text)
    ensures ReadBack(Lsp(), Emitted(text, InTextOrder(stops), 0)) == Some((text, stops))
       <==> forall i | 0 <= i < |stops| && stops[i] < |text| :: !IsAsciiDigit(text[stops[i]])
  {
    ReadersCount(Ascii());
    SnippetRoundTrip(Lsp(), text, stops);
  }

  /** For text without special characters the engine's own expansion gives the same pair back. */
  lemma ExpandingUndoesWriting(u: Unicode, text: string, stops: seq<nat>)
    requires Sound(u) && Plain(text) && StopsFit(stops, text)
    ensures ReadBack(Pattern(u), Emitted(text, InTextOrder(stops), 0)) == Some((text, stops))
       <==> forall i | 0 <= i < |stops| && stops[i] < |text| :: !u.decimal(text[stops[i]])
  {
    ReadersCount(u);
    SnippetRoundTrip(Pattern(u), text, stops);
  }

  /** The stop of `x⌶5` is swallowed: `$1` and `5` read as placeholder 15. */
  lemma AStopBeforeADigitIsLost()
    ensures ReadBack(Lsp(), Emitted("x5", InTextOrder([1]), 0)) != Some(("x5", [1]))
  {
    ClientsSeeTheText("x5", [1]);
  }
}
