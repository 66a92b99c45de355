/**
 What a PEP 249 driver makes of a rendered query, style by style, and when that is the
 query the neutral text asked for.
 */
module Driver {
  import opened Wrappers
  import opened Text
  import opened Decimal
  import opened Render
  import L = Lexer

  // ------------------------------------------------------------------- readers

  function Then(item: Item, rest: Option<seq<Item>>): Option<seq<Item>> {
    if rest.None? then None else Some([item] + rest.value)
  }

  /** `qmark`: every `?` takes the next value, and the values must be used up. */
  function ReadQmark(s: string, values: seq<string>): Option<seq<Item>> {
    if s == "" then if values == [] then Some([]) else None
    else if s[0] != '?' then Then(Char(s[0]), ReadQmark(s[1..], values))
    else if values == [] then None
    else Then(Bound(values[0]), ReadQmark(s[1..], values[1..]))
  }

  /** `format`: `%s` takes the next value and `%%` is a percent sign. */
  function ReadFormat(s: string, values: seq<string>): Option<seq<Item>> {
    if s == "" then if values == [] then Some([]) else None
    else if s[0] != '%' then Then(Char(s[0]), ReadFormat(s[1..], values))
    else if |s| == 1 then None
    else if s[1] == '%' then Then(Char('%'), ReadFormat(s[2..], values))
    else if s[1] != 's' || values == [] then None
    else Then(Bound(values[0]), ReadFormat(s[2..], values[1..]))
  }

  function IsNotClosing(): char -> bool {
    c => c != ')'
  }

  /** `pyformat`: `%(name)s` takes the value of that name and `%%` is a percent sign. */
  function ReadPyformat(s: string, table: map<string, string>): Option<seq<Item>> {
    if s == "" then Some([])
    else if s[0] != '%' then Then(Char(s[0]), ReadPyformat(s[1..], table))
    else if |s| == 1 then None
    else if s[1] == '%' then Then(Char('%'), ReadPyformat(s[2..], table))
    else if s[1] != '(' then None
    else
      var n := Run(IsNotClosing(), s[2..]);
      var name := s[2..2 + n];
      if !(")s" <= s[2 + n..]) || name !in table then None
      else Then(Bound(table[name]), ReadPyformat(s[4 + n..], table))
  }

  /**
   The styles led by a colon: a marker is a colon and the longest run of `body` characters
   after it, when that starts with one `starts` admits; any other colon is text.
   */
  datatype Colon = Colon(starts: char -> bool, body: char -> bool, lookup: string -> Option<string>)

  function ReadColon(d: Colon, s: string): Option<seq<Item>>
    decreases |s|
  {
    if s == "" then Some([])
    else if s[0] != ':' || |s| == 1 || !d.starts(s[1]) then Then(Char(s[0]), ReadColon(d, s[1..]))
    else
      var n := Run(d.body, s[1..]);
      var value := d.lookup(s[1..1 + n]);
      if value.None? then None else Then(Bound(value.value), ReadColon(d, s[1 + n..]))
  }

  predicate StartsName(c: char) {
    'a' <= c <= 'z' || 'A' <= c <= 'Z' || c == '_'
  }

  predicate InName(c: char) {
    StartsName(c) || IsAsciiDigit(c)
  }

  /** `numeric`: the number counts the supplied values from one. */
  function ByNumber(values: seq<string>): string -> Option<string> {
    name =>
      if name != "" && (forall i | 0 <= i < |name| :: IsAsciiDigit(name[i])) && 1 <= Value(name) <= |values|
      then Some(values[Value(name) - 1]) else None
  }

  function ByKey(table: map<string, string>): string -> Option<string> {
    name => if name in table then Some(table[name]) else None
  }

  function NumericColon(values: seq<string>): Colon {
    Colon(IsAsciiDigit, IsAsciiDigit, ByNumber(values))
  }

  function NamedColon(table: map<string, string>): Colon {
    Colon(StartsName, InName, ByKey(table))
  }

  /** The driver's reading of a query with its parameters, None where it would refuse them. */
  function Read(style: Style, s: string, p: Parameters): Option<seq<Item>> {
    match (style, p)
    case (Qmark, Positional(values)) => ReadQmark(s, values)
    case (Format, Positional(values)) => ReadFormat(s, values)
    case (Numeric, Positional(values)) => ReadColon(NumericColon(values), s)
    case (Named, ByName(table)) => ReadColon(NamedColon(table), s)
    case (Pyformat, ByName(table)) => ReadPyformat(s, table)
    case _ => None
  }

  // ----------------------------------------------------- when the text is safe

  /** No character of the query's own text is a marker of the `qmark` style. */
  predicate NoQuestionMark(atoms: seq<Atom>) {
    forall a | a in atoms :: a != Text('?')
  }

  /**
   The query's own text neither spells a marker of a colon style nor carries on the one
   written just before it.
   */
  predicate NoColonMarker(starts: char -> bool, body: char -> bool, atoms: seq<Atom>) {
    if |atoms| < 2 then true
    else
      && (atoms[0] == Text(':') && atoms[1].Text? ==> !starts(atoms[1].c))
      && (atoms[0].Marker? && atoms[1].Text? ==> !body(atoms[1].c))
      && NoColonMarker(starts, body, atoms[1..])
  }

  predicate Clean(style: Style, atoms: seq<Atom>) {
    match style
    case Qmark => NoQuestionMark(atoms)
    case Format => true
    case Numeric => NoColonMarker(IsAsciiDigit, IsAsciiDigit, atoms)
    case Named => NoColonMarker(StartsName, InName, atoms)
    case Pyformat => true
  }

  // --------------------------------------------------------- the percent styles

  /** The values a positional style hands over, marker by marker. */
  function Positionals(atoms: seq<Atom>, values: seq<string>): seq<string>
    requires InRange(atoms, |values|)
  {
    if atoms == [] then []
    else (if atoms[0].Marker? then [values[atoms[0].number - 1]] else []) + Positionals(atoms[1..], values)
  }

  lemma {:induction false} PickedArePositionals(atoms: seq<Atom>, values: seq<string>)
    requires InRange(atoms, |values|)
    ensures AllWithin(Numbers(atoms), |values|)
    ensures Picked(Numbers(atoms), values) == Positionals(atoms, values)
  {
    hide AllWithin, InRange;
    NumbersWithin(atoms, |values|);
    if atoms != [] {
      RestInRange(atoms, |values|);
      NumbersWithin(atoms[1..], |values|);
      PickedArePositionals(atoms[1..], values);
      PickedStep(atoms, values);
    }
  }

  lemma RestInRange(atoms: seq<Atom>, supplied: nat)
    requires InRange(atoms, supplied) && atoms != []
    ensures InRange(atoms[1..], supplied) && (atoms[0].Marker? ==> 1 <= atoms[0].number <= supplied)
  {
  }

  lemma PickedStep(atoms: seq<Atom>, values: seq<string>)
    requires atoms != [] && (atoms[0].Marker? ==> 1 <= atoms[0].number <= |values|)
    requires AllWithin(Numbers(atoms), |values|) && AllWithin(Numbers(atoms[1..]), |values|)
    ensures Picked(Numbers(atoms), values)
         == (if atoms[0].Marker? then [values[atoms[0].number - 1]] else []) + Picked(Numbers(atoms[1..]), values)
  {
    hide AllWithin, Picked;
    var ns, rest := Numbers(atoms), Numbers(atoms[1..]);
    if atoms[0].Marker? {
      assert ns == [atoms[0].number] + rest;
      PickedCons(atoms[0].number, rest, values);
    } else {
      assert ns == rest && [] + Picked(rest, values) == Picked(rest, values);
    }
  }

  lemma PickedCons(n: nat, ns: seq<nat>, values: seq<string>)
    requires 1 <= n <= |values| && AllWithin(ns, |values|) && AllWithin([n] + ns, |values|)
    ensures Picked([n] + ns, values) == [values[n - 1]] + Picked(ns, values)
  {
  }

  lemma PositionalsStep(atoms: seq<Atom>, values: seq<string>)
    requires InRange(atoms, |values|) && atoms != []
    ensures var all, rest := Positionals(atoms, values), Positionals(atoms[1..], values);
            if atoms[0].Marker? then all != [] && all[0] == values[atoms[0].number - 1] && all[1..] == rest
            else all == rest
  {
  }

  lemma {:induction false} FormatReads(atoms: seq<Atom>, values: seq<string>)
    requires InRange(atoms, |values|)
    ensures ReadFormat(Written(Format, atoms), Positionals(atoms, values)) == Some(Meaning(atoms, values))
  {
    if atoms != [] {
      FormatReads(atoms[1..], values);
      var s, rest := Written(Format, atoms), Written(Format, atoms[1..]);
      if atoms[0] == Text('%') || atoms[0].Marker? {
        assert s == [s[0], s[1]] + rest && s[2..] == rest;
      } else {
        assert s[1..] == rest;
      }
      PositionalsStep(atoms, values);
    }
  }

  lemma {:induction false} PyformatReads(atoms: seq<Atom>, values: seq<string>, table: map<string, string>)
    requires InRange(atoms, |values|)
    requires Tabled(atoms, values, table)
    ensures ReadPyformat(Written(Pyformat, atoms), table) == Some(Meaning(atoms, values))
  {
    if atoms != [] {
      PyformatReads(atoms[1..], values, table);
      PyformatStep(atoms, table);
    }
  }

  lemma PyformatStep(atoms: seq<Atom>, table: map<string, string>)
    requires atoms != [] && (atoms[0].Marker? ==> Key(atoms[0].number) in table)
    ensures var a := atoms[0];
            ReadPyformat(Written(Pyformat, atoms), table)
            == Then(if a.Text? then Char(a.c) else Bound(table[Key(a.number)]),
                    ReadPyformat(Written(Pyformat, atoms[1..]), table))
  {
    hide Key;
    var rest := Written(Pyformat, atoms[1..]);
    if atoms[0].Text? {
      PyformatText(atoms[0].c, rest, table);
    } else {
      var name := Key(atoms[0].number);
      KeyHasNoParen(atoms[0].number);
      PyformatMarker(name, rest, table);
      assert ("%(" + name + ")s") + rest == "%(" + name + (")s" + rest);
    }
  }

  lemma KeyHasNoParen(n: nat)
    ensures ')' !in Key(n)
  {
  }

  lemma PyformatText(c: char, rest: string, table: map<string, string>)
    ensures ReadPyformat(WrittenAtom(Pyformat, Text(c)) + rest, table) == Then(Char(c), ReadPyformat(rest, table))
  {
    var s := WrittenAtom(Pyformat, Text(c)) + rest;
    if c == '%' {
      assert s[2..] == rest;
    } else {
      assert s[1..] == rest;
    }
  }

  lemma PyformatMarker(name: string, rest: string, table: map<string, string>)
    requires name in table && ')' !in name
    ensures ReadPyformat("%(" + name + (")s" + rest), table) == Then(Bound(table[name]), ReadPyformat(rest, table))
  {
    var s := "%(" + name + (")s" + rest);
    var tail := ")s" + rest;
    assert s[2..] == name + tail;
    RunIs(IsNotClosing(), s[2..], |name|);
    assert s[2..2 + |name|] == name;
    assert s[2 + |name|..] == tail;
    assert s[4 + |name|..] == rest;
  }

  /** Every marker's value stands in the table under its own key. */
  ghost predicate Tabled(atoms: seq<Atom>, values: seq<string>, table: map<string, string>)
    requires InRange(atoms, |values|)
  {
    forall i | 0 <= i < |atoms| && atoms[i].Marker? ::
      Key(atoms[i].number) in table && table[Key(atoms[i].number)] == values[atoms[i].number - 1]
  }

  lemma {:induction false} KeyedHolds(ns: seq<nat>, values: seq<string>, i: nat)
    requires AllWithin(ns, |values|) && i < |ns|
    ensures Key(ns[i]) in Keyed(ns, values) && Keyed(ns, values)[Key(ns[i])] == values[ns[i] - 1]
  {
    if i > 0 {
      KeyedHolds(ns[1..], values, i - 1);
      KeyIsInjective(ns[0], ns[i]);
    }
  }

  lemma {:induction false} NumberOccurs(atoms: seq<Atom>, i: nat) returns (j: nat)
    requires i < |atoms| && atoms[i].Marker?
    ensures j < |Numbers(atoms)| && Numbers(atoms)[j] == atoms[i].number
  {
    if i == 0 {
      j := 0;
    } else {
      var k := NumberOccurs(atoms[1..], i - 1);
      j := if atoms[0].Marker? then k + 1 else k;
    }
  }

  lemma KeyedIsTabled(atoms: seq<Atom>, values: seq<string>)
    requires InRange(atoms, |values|)
    ensures AllWithin(Numbers(atoms), |values|) && Tabled(atoms, values, Keyed(Numbers(atoms), values))
  {
    NumbersWithin(atoms, |values|);
    forall i | 0 <= i < |atoms| && atoms[i].Marker?
      ensures Key(atoms[i].number) in Keyed(Numbers(atoms), values)
      ensures Keyed(Numbers(atoms), values)[Key(atoms[i].number)] == values[atoms[i].number - 1]
    {
      var j := NumberOccurs(atoms, i);
      KeyedHolds(Numbers(atoms), values, j);
    }
  }

  lemma KeyIsInjective(m: nat, n: nat)
    ensures Key(m) == Key(n) ==> m == n
  {
    assert Key(m)[1..] == Print(m) && Key(n)[1..] == Print(n);
    if Key(m) == Key(n) {
      PrintIsInjective(m, n);
    }
  }

  // ------------------------------------------------------------------ qmark

  function QuestionMarks(s: string): nat {
    if s == "" then 0 else (if s[0] == '?' then 1 else 0) + QuestionMarks(s[1..])
  }

  lemma {:induction false} QmarkCounts(s: string, values: seq<string>)
    ensures ReadQmark(s, values).Some? ==> QuestionMarks(s) == |values|
  {
    if s != "" {
      QmarkCounts(s[1..], values);
      if values != [] {
        QmarkCounts(s[1..], values[1..]);
      }
    }
  }

  lemma {:induction false} QmarksWritten(atoms: seq<Atom>)
    ensures QuestionMarks(Written(Qmark, atoms)) >= |Numbers(atoms)|
    ensures QuestionMarks(Written(Qmark, atoms)) == |Numbers(atoms)| ==> NoQuestionMark(atoms)
  {
    if atoms != [] {
      QmarksWritten(atoms[1..]);
      assert Written(Qmark, atoms)[1..] == Written(Qmark, atoms[1..]);
      assert forall a | a in atoms :: a == atoms[0] || a in atoms[1..];
    }
  }

  lemma {:induction false} QmarkReads(atoms: seq<Atom>, values: seq<string>)
    requires InRange(atoms, |values|) && NoQuestionMark(atoms)
    ensures ReadQmark(Written(Qmark, atoms), Positionals(atoms, values)) == Some(Meaning(atoms, values))
  {
    if atoms != [] {
      assert forall a | a in atoms[1..] :: a in atoms;
      QmarkReads(atoms[1..], values);
      assert Written(Qmark, atoms)[1..] == Written(Qmark, atoms[1..]);
      assert atoms[0] in atoms;
      PositionalsStep(atoms, values);
    }
  }

  // ------------------------------------------------------------ the colon styles

  /** A colon style whose characters cannot be confused with the colon itself. */
  ghost predicate Sane(d: Colon) {
    !d.body(':') && forall c :: d.starts(c) ==> d.body(c)
  }

  /** `name`, written after a colon, reads back as `value`. */
  predicate Serves(d: Colon, name: string, value: string) {
    && name != "" && d.starts(name[0]) && (forall i | 0 <= i < |name| :: d.body(name[i]))
    && d.lookup(name) == Some(value)
  }

  /** The name a colon style writes for marker `n`. */
  function NameOf(style: Style, n: nat): string
    requires style == Numeric || style == Named
  {
    if style == Numeric then Print(n) else Key(n)
  }

  ghost predicate AllServed(d: Colon, style: Style, atoms: seq<Atom>, values: seq<string>)
    requires (style == Numeric || style == Named) && InRange(atoms, |values|)
  {
    forall i | 0 <= i < |atoms| && atoms[i].Marker? ::
      Serves(d, NameOf(style, atoms[i].number), values[atoms[i].number - 1])
  }

  lemma ColonFirst(d: Colon, s: string)
    requires s != "" && ReadColon(d, s).Some?
    ensures ReadColon(d, s).value != []
    ensures ReadColon(d, s).value[0] == Char(s[0]) || ReadColon(d, s).value[0].Bound?
  {
  }

  /** A marker whose name nothing carries on reads as its value. */
  lemma ColonMarker(d: Colon, name: string, value: string, rest: string)
    requires Serves(d, name, value) && (rest == "" || !d.body(rest[0]))
    ensures ReadColon(d, ":" + name + rest) == Then(Bound(value), ReadColon(d, rest))
  {
    var s := ":" + name + rest;
    assert s[1..] == name + rest;
    RunIs(d.body, s[1..], |name|);
    assert s[1..1 + |name|] == name && s[1 + |name|..] == rest;
  }

  /** A marker whose name the text carries on does not read as a value and then that text. */
  lemma ColonFused(d: Colon, name: string, value: string, rest: string)
    requires Serves(d, name, value) && rest != "" && d.body(rest[0])
    ensures var r := ReadColon(d, ":" + name + rest);
            r.Some? ==> |r.value| < 2 || r.value[1] != Char(rest[0])
  {
    var s := ":" + name + rest;
    assert s[1..] == name + rest;
    RunAtLeast(d.body, s[1..], |name| + 1);
    var n := Run(d.body, s[1..]);
    if s[1 + n..] != "" && ReadColon(d, s[1 + n..]).Some? {
      ColonFirst(d, s[1 + n..]);
      assert s[1 + n..][0] == s[1..][n] && !d.body(s[1..][n]);
    }
  }

  lemma ColonText(d: Colon, c: char, rest: string)
    ensures if c == ':' && rest != "" && d.starts(rest[0])
            then ReadColon(d, [c] + rest).None? || ReadColon(d, [c] + rest).value[0] != Char(c)
            else ReadColon(d, [c] + rest) == Then(Char(c), ReadColon(d, rest))
  {
    assert ([c] + rest)[1..] == rest;
  }

  lemma ThenCancels(item: Item, r: Option<seq<Item>>, m: seq<Item>)
    ensures Then(item, r) == Some([item] + m) <==> r == Some(m)
  {
    if Then(item, r) == Some([item] + m) {
      assert r.value == ([item] + r.value)[1..] == ([item] + m)[1..] == m;
    }
  }

  lemma {:induction false} ColonReads(d: Colon, style: Style, atoms: seq<Atom>, values: seq<string>)
    requires (style == Numeric || style == Named) && InRange(atoms, |values|)
    requires Sane(d) && AllServed(d, style, atoms, values)
    ensures ReadColon(d, Written(style, atoms)) == Some(Meaning(atoms, values))
       <==> NoColonMarker(d.starts, d.body, atoms)
  {
    hide ReadColon, Serves;
    if atoms == [] {
      ColonEmpty(d);
    } else {
      var rest := Written(style, atoms[1..]);
      var a := atoms[0];
      ColonReads(d, style, atoms[1..], values);
      FirstWritten(style, atoms[1..]);
      if a.Text? {
        ColonText(d, a.c, rest);
        ThenCancels(Char(a.c), ReadColon(d, rest), Meaning(atoms[1..], values));
      } else {
        var name, value := NameOf(style, a.number), values[a.number - 1];
        assert Written(style, atoms) == ":" + name + rest;
        assert Serves(d, name, value);
        if rest == "" || !d.body(rest[0]) {
          ColonMarker(d, name, value, rest);
          ThenCancels(Bound(value), ReadColon(d, rest), Meaning(atoms[1..], values));
        } else {
          ColonFused(d, name, value, rest);
          assert Meaning(atoms, values)[1] == Char(rest[0]);
        }
      }
    }
  }

  lemma ColonEmpty(d: Colon)
    ensures ReadColon(d, "") == Some([])
  {
  }

  /** What a colon style writes first: the text itself, or the colon of a marker. */
  lemma FirstWritten(style: Style, atoms: seq<Atom>)
    requires style == Numeric || style == Named
    ensures atoms == [] ==> Written(style, atoms) == ""
    ensures atoms != [] ==> Written(style, atoms) != ""
    ensures atoms != [] ==> Written(style, atoms)[0] == (if atoms[0].Text? then atoms[0].c else ':')
  {
  }

  lemma {:induction false} NumericServes(atoms: seq<Atom>, values: seq<string>)
    requires InRange(atoms, |values|)
    ensures AllWithin(Numbers(atoms), |values|)
    ensures AllServed(NumericColon(values[..Largest(Numbers(atoms))]), Numeric, atoms, values)
  {
    NumbersWithin(atoms, |values|);
    forall i | 0 <= i < |atoms| && atoms[i].Marker?
      ensures Serves(NumericColon(values[..Largest(Numbers(atoms))]), Print(atoms[i].number),
                     values[atoms[i].number - 1])
    {
      PrintReads(atoms[i].number);
      var j := NumberOccurs(atoms, i);
    }
  }

  lemma NamedServes(atoms: seq<Atom>, values: seq<string>)
    requires InRange(atoms, |values|)
    ensures AllWithin(Numbers(atoms), |values|)
    ensures AllServed(NamedColon(Keyed(Numbers(atoms), values)), Named, atoms, values)
  {
    hide Key, Keyed;
    KeyedIsTabled(atoms, values);
    var table := Keyed(Numbers(atoms), values);
    forall i | 0 <= i < |atoms| && atoms[i].Marker?
      ensures Serves(NamedColon(table), Key(atoms[i].number), values[atoms[i].number - 1])
    {
      KeyIsAName(atoms[i].number);
    }
  }

  lemma KeyIsAName(n: nat)
    ensures Key(n) != "" && StartsName(Key(n)[0]) && forall i | 0 <= i < |Key(n)| :: InName(Key(n)[i])
  {
  }

  // ------------------------------------------------------------------ the result

  /**
   Rendering keeps the meaning: for every query whose markers are in range, the driver reads
   the rendered text and parameters as the neutral text asked, exactly when the query's own
   text is clean in the style; for `format` and `pyformat` it always is.
   */
  lemma RenderingKeepsMeaning(style: Style, atoms: seq<Atom>, values: seq<string>)
    requires InRange(atoms, |values|)
    ensures AllWithin(Numbers(atoms), |values|)
    ensures Read(style, Written(style, atoms), ParametersFor(style, Numbers(atoms), values))
            == Some(Meaning(atoms, values))
       <==> Clean(style, atoms)
  {
    PickedArePositionals(atoms, values);
    match style
    case Qmark =>
      QmarksWritten(atoms);
      QmarkCounts(Written(Qmark, atoms), Picked(Numbers(atoms), values));
      if NoQuestionMark(atoms) {
        QmarkReads(atoms, values);
      }
    case Format => FormatReads(atoms, values);
    case Numeric =>
      NumericServes(atoms, values);
      ColonReads(NumericColon(values[..Largest(Numbers(atoms))]), Numeric, atoms, values);
    case Named =>
      NamedServes(atoms, values);
      ColonReads(NamedColon(Keyed(Numbers(atoms), values)), Named, atoms, values);
    case Pyformat =>
      KeyedIsTabled(atoms, values);
      PyformatReads(atoms, values, Keyed(Numbers(atoms), values));
  }

  /**
   The whole way: whenever `render` answers, a driver of that style reads the text and parameters it
   gives back as the query asked, exactly when the query's own text is clean in the style.
   */
  lemma RenderedReadsBack(u: Unicode, sql: string, values: seq<string>, paramstyle: string, syntax: Option<L.Syntax>)
    requires Sound(u) && Rendering(u, sql, values, paramstyle, syntax).Ok?
    ensures StyleOf(paramstyle).Some? && InRange(AtomsOf(u, sql, syntax, |values|), |values|)
    ensures var (text, parameters) := Rendering(u, sql, values, paramstyle, syntax).value;
            var style, atoms := StyleOf(paramstyle).value, AtomsOf(u, sql, syntax, |values|);
            Read(style, text, parameters) == Some(Meaning(atoms, values)) <==> Clean(style, atoms)
  {
    hide Sound, AtomsOf, Refusal, Live, Matches, QuotedSpans, StyleOf, Written, ParametersFor, Read, Meaning, Clean;
    hide AllWithin, Numbers, InRange;
    var atoms := AtomsOf(u, sql, syntax, |values|);
    NumbersWithin(atoms, |values|);
    RenderingKeepsMeaning(StyleOf(paramstyle).value, atoms, values);
  }
}
