/**
 What a query asks for, told from its tokens: a marker in a string, a comment or a quoted name is text, any
 other stands for a value; and the rendered query reads back so (dbapi.py, `_quoted_spans` and `render`).
 */
module Protected {
  import opened Wrappers
  import opened Text
  import opened Render
  import opened Driver
  import L = Lexer
  import Scanning

  /** A string, a comment or a quoted name. */
  ghost predicate IsLiteral(t: L.Token) {
    t.kind == L.Str || t.kind == L.Comment || (t.kind == L.Ident && t.quoted)
  }

  ghost predicate InLiteral(ts: seq<L.Token>, p: nat) {
    exists i :: 0 <= i < |ts| && IsLiteral(ts[i]) && ts[i].start <= p < ts[i].end
  }

  /** The spans kept from rewriting are those of the literals. */
  lemma {:induction false} SpansAreLiterals(ts: seq<L.Token>, p: nat)
    ensures Within(p, SpansOf(ts)) <==> InLiteral(ts, p)
  {
    if ts != [] {
      var mine := if IsLiteral(ts[0]) then [(ts[0].start, ts[0].end)] else [];
      var rest := SpansOf(ts[1..]);
      SpansAreLiterals(ts[1..], p);
      assert SpansOf(ts) == mine + rest;
      WithinAppends(p, mine, rest);
      assert forall i | 0 <= i < |ts| - 1 :: ts[1..][i] == ts[i + 1];
      assert forall i | 1 <= i < |ts| :: ts[i] == ts[1..][i - 1];
    }
  }

  lemma WithinAppends(p: nat, a: seq<(nat, nat)>, b: seq<(nat, nat)>)
    ensures Within(p, a + b) <==> Within(p, a) || Within(p, b)
  {
    assert forall i | 0 <= i < |a| :: (a + b)[i] == a[i];
    assert forall i | 0 <= i < |b| :: (a + b)[|a| + i] == b[i];
  }

  lemma {:induction false} LiveAre(ms: seq<Match>, spans: seq<(nat, nat)>, m: Match)
    ensures m in Live(ms, spans) <==> m in ms && !Within(m.start, spans)
  {
    hide Within;
    if ms != [] {
      LiveAre(ms[1..], spans, m);
    }
  }

  /** On every lexed query: a marker that begins in a token is text exactly when the token is a literal. */
  lemma MarkersInLiteralsAreText(u: Unicode, y: L.Syntax, sql: string, i: nat, m: Match)
    requires Sound(u) && i < |L.Lexed(u, y, sql)| && m in Matches(u, sql, 0)
    requires L.Lexed(u, y, sql)[i].start <= m.start < L.Lexed(u, y, sql)[i].end
    ensures m !in Live(Matches(u, sql, 0), QuotedSpans(u, Some(y), sql)) <==> IsLiteral(L.Lexed(u, y, sql)[i])
  {
    hide Sound, L.Lexed, Matches, Live, SpansOf, Within, Scanning.Tiling;
    var ts := L.Lexed(u, y, sql);
    SpansAreLiterals(ts, m.start);
    LiveAre(Matches(u, sql, 0), QuotedSpans(u, Some(y), sql), m);
    Scanning.LexTiles(u, y, sql);
    OneTokenHolds(ts, sql, m.start, i);
  }

  /** An offset is in one token only. */
  lemma OneTokenHolds(ts: seq<L.Token>, sql: string, p: nat, i: nat)
    requires Scanning.Tiling(ts, sql, 0) && i < |ts| && ts[i].start <= p < ts[i].end
    ensures forall j | 0 <= j < |ts| && ts[j].start <= p < ts[j].end :: j == i
    ensures InLiteral(ts, p) <==> IsLiteral(ts[i])
  {
    hide IsLiteral;
    forall j | 0 <= j < |ts| && ts[j].start <= p < ts[j].end ensures j == i {
      if j < i {
        Ordered(ts, sql, j, i);
      } else if i < j {
        Ordered(ts, sql, i, j);
      }
    }
  }

  lemma {:induction false} Ordered(ts: seq<L.Token>, sql: string, i: nat, j: nat)
    requires Scanning.Tiling(ts, sql, 0) && i < j < |ts|
    ensures ts[i].end <= ts[j].start
    decreases j
  {
    if i < j - 1 {
      Ordered(ts, sql, i, j - 1);
      assert Scanning.Covers(ts[j - 1], sql, 0);
    }
  }

  // ------------------------------------------------------------- what a query asks for

  function Chars(s: string): (items: seq<Item>)
    ensures |items| == |s| && forall k | 0 <= k < |s| :: items[k] == Char(s[k])
  {
    seq(|s|, k requires 0 <= k < |s| => Char(s[k]))
  }

  /** The values from the `n`-th on, with a comma and a space between. */
  function Spread(values: seq<string>, n: nat): seq<Item>
    requires 1 <= n <= |values|
    decreases |values| - n
  {
    [Bound(values[n - 1])] + if n == |values| then [] else [Char(','), Char(' ')] + Spread(values, n + 1)
  }

  /** What is asked for at one place, and how much of the text says so. */
  ghost function AskedAt(u: Unicode, sql: string, ts: seq<L.Token>, values: seq<string>, pos: nat)
    : (here: (seq<Item>, nat))
    requires pos < |sql|
    ensures 0 < here.1 && pos + here.1 <= |sql|
  {
    var m := MarkerAt(u, sql[pos..]);
    if m.None? then ([Char(sql[pos])], 1)
    else
      var (len, n, spread) := m.value;
      (if InLiteral(ts, pos) then Chars(sql[pos..pos + len])
       else if !(1 <= n <= |values|) then []
       else if spread then Spread(values, n)
       else [Bound(values[n - 1])],
       len)
  }

  /** What the text of `[pos, end)` asks for: itself, but for the markers that begin outside the literals. */
  ghost function Asked(u: Unicode, sql: string, ts: seq<L.Token>, values: seq<string>, pos: nat, end: nat): seq<Item>
    decreases end - pos
  {
    if pos >= end || end > |sql| then []
    else
      var (items, len) := AskedAt(u, sql, ts, values, pos);
      items + Asked(u, sql, ts, values, pos + len, end)
  }

  lemma RangeAppends(a: seq<Atom>, b: seq<Atom>, supplied: nat)
    ensures InRange(a + b, supplied) <==> InRange(a, supplied) && InRange(b, supplied)
  {
    assert forall i | 0 <= i < |a| :: (a + b)[i] == a[i];
    assert forall i | 0 <= i < |b| :: (a + b)[|a| + i] == b[i];
  }

  lemma {:induction false} MeaningAppends(a: seq<Atom>, b: seq<Atom>, values: seq<string>)
    requires InRange(a + b, |values|)
    ensures InRange(a, |values|) && InRange(b, |values|)
    ensures Meaning(a + b, values) == Meaning(a, values) + Meaning(b, values)
  {
    hide InRange;
    RangeAppends(a, b, |values|);
    if a == [] {
      assert a + b == b;
    } else {
      assert (a + b)[1..] == a[1..] + b && (a + b)[0] == a[0];
      RestInRange(a + b, |values|);
      MeaningAppends(a[1..], b, values);
    }
  }

  lemma {:induction false} TextsMean(s: string, values: seq<string>)
    ensures InRange(Texts(s), |values|) && Meaning(Texts(s), values) == Chars(s)
  {
    if s != "" {
      TextsMean(s[1..], values);
      assert Texts(s)[1..] == Texts(s[1..]);
      assert Chars(s) == [Char(s[0])] + Chars(s[1..]);
    }
  }

  lemma {:induction false} ExpandedMeans(values: seq<string>, n: nat)
    requires 1 <= n <= |values|
    ensures InRange(Expanded(n, |values|), |values|) && Meaning(Expanded(n, |values|), values) == Spread(values, n)
    decreases |values| - n
  {
    hide InRange;
    FirstOfSpread(n, values);
    if n < |values| {
      ExpandedMeans(values, n + 1);
      var first, rest := [Marker(n), Text(','), Text(' ')], Expanded(n + 1, |values|);
      assert Expanded(n, |values|) == first + rest;
      RangeAppends(first, rest, |values|);
      MeaningAppends(first, rest, values);
      assert [Bound(values[n - 1])] + ([Char(','), Char(' ')] + Spread(values, n + 1))
          == [Bound(values[n - 1]), Char(','), Char(' ')] + Spread(values, n + 1);
    }
  }

  lemma FirstOfSpread(n: nat, values: seq<string>)
    requires 1 <= n <= |values|
    ensures InRange([Marker(n)], |values|) && Meaning([Marker(n)], values) == [Bound(values[n - 1])]
    ensures InRange([Marker(n), Text(','), Text(' ')], |values|)
    ensures Meaning([Marker(n), Text(','), Text(' ')], values) == [Bound(values[n - 1]), Char(','), Char(' ')]
  {
    OneMarker(n, values);
    OneText(',', values);
    OneText(' ', values);
    hide InRange, Meaning;
    RangeAppends([Text(',')], [Text(' ')], |values|);
    MeaningAppends([Text(',')], [Text(' ')], values);
    assert [Text(',')] + [Text(' ')] == [Text(','), Text(' ')];
    RangeAppends([Marker(n)], [Text(','), Text(' ')], |values|);
    MeaningAppends([Marker(n)], [Text(','), Text(' ')], values);
    assert [Marker(n)] + [Text(','), Text(' ')] == [Marker(n), Text(','), Text(' ')];
  }

  lemma OneMarker(n: nat, values: seq<string>)
    ensures InRange([Marker(n)], |values|) <==> 1 <= n <= |values|
    ensures 1 <= n <= |values| ==> Meaning([Marker(n)], values) == [Bound(values[n - 1])]
  {
    assert [Marker(n)][0] == Marker(n) && [Marker(n)][1..] == [];
  }

  /** A spread of no value in range begins with a marker that is not. */
  lemma SpreadInRange(n: nat, supplied: nat)
    requires InRange(Expanded(n, supplied), supplied)
    ensures 1 <= n <= supplied
  {
    assert Expanded(n, supplied)[0] == Marker(n);
  }

  /** The meaning of the atoms a query is read as is what it asks for. */
  lemma {:induction false} AtomsMeanWhatIsAsked(
    u: Unicode, sql: string, ts: seq<L.Token>, values: seq<string>, pos: nat)
    requires pos <= |sql| && InRange(Atoms(u, sql, pos, SpansOf(ts), |values|), |values|)
    ensures Meaning(Atoms(u, sql, pos, SpansOf(ts), |values|), values) == Asked(u, sql, ts, values, pos, |sql|)
    decreases |sql| - pos
  {
    hide MarkerAt, Within, SpansOf, InLiteral, Expanded, Spread, InRange;
    if pos < |sql| {
      SpansAreLiterals(ts, pos);
      var m := MarkerAt(u, sql[pos..]);
      var atoms := Atoms(u, sql, pos, SpansOf(ts), |values|);
      if m.None? {
        var rest := Atoms(u, sql, pos + 1, SpansOf(ts), |values|);
        MeaningAppends([Text(sql[pos])], rest, values);
        AtomsMeanWhatIsAsked(u, sql, ts, values, pos + 1);
        OneText(sql[pos], values);
      } else {
        var (len, n, spread) := m.value;
        var rest := Atoms(u, sql, pos + len, SpansOf(ts), |values|);
        var mine := if Within(pos, SpansOf(ts)) then Texts(sql[pos..pos + len])
                    else if spread then Expanded(n, |values|)
                    else [Marker(n)];
        assert atoms == mine + rest;
        MeaningAppends(mine, rest, values);
        AtomsMeanWhatIsAsked(u, sql, ts, values, pos + len);
        if Within(pos, SpansOf(ts)) {
          TextsMean(sql[pos..pos + len], values);
        } else if spread {
          SpreadInRange(n, |values|);
          ExpandedMeans(values, n);
        } else {
          OneMarker(n, values);
        }
      }
    }
  }

  lemma OneText(c: char, values: seq<string>)
    ensures InRange([Text(c)], |values|) && Meaning([Text(c)], values) == [Char(c)]
  {
    assert [Text(c)][1..] == [];
  }

  // --------------------------------------------------------- literals are kept as they are

  /** Reading on from a place no marker runs past is reading up to it and from it. */
  lemma {:induction false} AskedSplits(u: Unicode, sql: string, ts: seq<L.Token>, values: seq<string>, pos: nat,
                                       at: nat, end: nat)
    requires pos <= at <= end <= |sql| && at < |sql| && !u.decimal(sql[at]) && sql[at] != '.'
    ensures Asked(u, sql, ts, values, pos, end)
         == Asked(u, sql, ts, values, pos, at) + Asked(u, sql, ts, values, at, end)
    decreases at - pos
  {
    hide AskedAt;
    var rest := Asked(u, sql, ts, values, at, end);
    if pos == at {
      assert [] + rest == rest;
    } else {
      var (items, len) := AskedAt(u, sql, ts, values, pos);
      NoneRunsPast(u, sql, ts, values, pos, at);
      AskedSplits(u, sql, ts, values, pos + len, at, end);
      Associates(items, Asked(u, sql, ts, values, pos + len, at), rest);
    }
  }

  /** Behind its dollar a marker has digits and dots, and nothing else. */
  lemma MarkersHoldDigitsAndDots(u: Unicode, s: string)
    requires MarkerAt(u, s).Some?
    ensures forall k | 1 <= k < MarkerAt(u, s).value.0 :: u.decimal(s[k]) || s[k] == '.'
  {
    var n := Run(u.decimal, s[1..]);
    forall k | 1 <= k < MarkerAt(u, s).value.0 ensures u.decimal(s[k]) || s[k] == '.' {
      if k <= n {
        assert s[1..][k - 1] == s[k];
      } else {
        assert s[1 + n..][k - 1 - n] == s[k];
      }
    }
  }

  lemma NoneRunsPast(u: Unicode, sql: string, ts: seq<L.Token>, values: seq<string>, pos: nat, at: nat)
    requires pos < at < |sql| && !u.decimal(sql[at]) && sql[at] != '.'
    ensures pos + AskedAt(u, sql, ts, values, pos).1 <= at
  {
    hide MarkerAt, InLiteral, Spread;
    if MarkerAt(u, sql[pos..]).Some? {
      MarkersHoldDigitsAndDots(u, sql[pos..]);
      assert sql[pos..][at - pos] == sql[at];
    }
  }

  /** All of a stretch inside a literal is asked for as it is, with whatever runs on behind it. */
  lemma {:induction false} LiteralsAskForThemselves(u: Unicode, sql: string, ts: seq<L.Token>, values: seq<string>,
                                                    pos: nat, end: nat)
    requires pos <= end <= |sql| && forall p: nat | pos <= p < end :: InLiteral(ts, p)
    ensures Chars(sql[pos..end]) <= Asked(u, sql, ts, values, pos, |sql|)
    decreases end - pos
  {
    hide MarkerAt, InLiteral, Spread;
    if pos < end {
      var (mine, len) := AskedAt(u, sql, ts, values, pos);
      assert mine == Chars(sql[pos..pos + len]);
      if pos + len < end {
        LiteralsAskForThemselves(u, sql, ts, values, pos + len, end);
        assert Chars(sql[pos..end]) == mine + Chars(sql[pos + len..end]);
      } else {
        assert Chars(sql[pos..end]) == mine[..end - pos];
      }
    }
  }

  /**
   Whatever is rendered, in a style in which the query's own text is clean, reads back with every string,
   comment and quoted name in it character for character, behind what the text before it asks for.
   */
  lemma LiteralsReadBack(u: Unicode, y: L.Syntax, sql: string, values: seq<string>, paramstyle: string, i: nat)
    requires Sound(u) && Rendering(u, sql, values, paramstyle, Some(y)).Ok?
    requires i < |L.Lexed(u, y, sql)| && IsLiteral(L.Lexed(u, y, sql)[i]) && StyleOf(paramstyle).Some?
    requires Clean(StyleOf(paramstyle).value, AtomsOf(u, sql, Some(y), |values|))
    requires var c := sql[TokenStart(u, y, sql, i)]; !u.decimal(c) && c != '.'
    ensures var (text, parameters) := Rendering(u, sql, values, paramstyle, Some(y)).value;
            var t, items := L.Lexed(u, y, sql)[i], Read(StyleOf(paramstyle).value, text, parameters);
            && items.Some? && Asked(u, sql, L.Lexed(u, y, sql), values, 0, t.start) + Chars(t.text) <= items.value
  {
    hide Sound, L.Lexed, Rendering, Asked, Read, Clean, AtomsOf, Meaning, Scanning.Tiling, MarkerAt, Chars, InRange;
    hide IsLiteral, InLiteral;
    var ts := L.Lexed(u, y, sql);
    var t := ts[i];
    RenderedReadsBack(u, sql, values, paramstyle, Some(y));
    AskedIsRead(u, y, sql, values);
    Scanning.LexTiles(u, y, sql);
    TokenText(ts, sql, i);
    AskedSplits(u, sql, ts, values, 0, t.start, |sql|);
    forall p: nat | t.start <= p < t.end ensures InLiteral(ts, p) {
      OneTokenHolds(ts, sql, p, i);
    }
    LiteralsAskForThemselves(u, sql, ts, values, t.start, t.end);
    PrefixOfRest(Asked(u, sql, ts, values, 0, t.start), Chars(t.text), Asked(u, sql, ts, values, t.start, |sql|));
  }

  lemma PrefixOfRest<T>(a: seq<T>, b: seq<T>, c: seq<T>)
    requires b <= c
    ensures a + b <= a + c
  {
  }

  lemma TokenText(ts: seq<L.Token>, sql: string, i: nat)
    requires Scanning.Tiling(ts, sql, 0) && i < |ts|
    ensures ts[i].start < ts[i].end <= |sql| && ts[i].text == sql[ts[i].start..ts[i].end]
  {
    assert Scanning.Covers(ts[i], sql, 0);
  }

  function TokenStart(u: Unicode, y: L.Syntax, sql: string, i: nat): (p: nat)
    requires Sound(u) && i < |L.Lexed(u, y, sql)|
    ensures p == L.Lexed(u, y, sql)[i].start < |sql|
  {
    Scanning.LexTiles(u, y, sql);
    TokenText(L.Lexed(u, y, sql), sql, i);
    L.Lexed(u, y, sql)[i].start
  }

  /** What the whole query asks for is what its atoms mean. */
  lemma AskedIsRead(u: Unicode, y: L.Syntax, sql: string, values: seq<string>)
    requires Sound(u) && InRange(AtomsOf(u, sql, Some(y), |values|), |values|)
    ensures Meaning(AtomsOf(u, sql, Some(y), |values|), values) == Asked(u, sql, L.Lexed(u, y, sql), values, 0, |sql|)
  {
    hide Sound, L.Lexed, Asked, Atoms, SpansOf, InRange, Meaning;
    AtomsMeanWhatIsAsked(u, sql, L.Lexed(u, y, sql), values, 0);
  }

  /**
   The whole of it: a rendered query reads back as its tokens say it asks, exactly when its own text is
   clean in the style.
   */
  lemma RenderedAsAsked(u: Unicode, y: L.Syntax, sql: string, values: seq<string>, paramstyle: string)
    requires Sound(u) && Rendering(u, sql, values, paramstyle, Some(y)).Ok?
    ensures StyleOf(paramstyle).Some?
    ensures var (text, parameters) := Rendering(u, sql, values, paramstyle, Some(y)).value;
            Read(StyleOf(paramstyle).value, text, parameters)
              == Some(Asked(u, sql, L.Lexed(u, y, sql), values, 0, |sql|))
            <==> Clean(StyleOf(paramstyle).value, AtomsOf(u, sql, Some(y), |values|))
  {
    hide Sound, L.Lexed, Rendering, Asked, Read, Clean, AtomsOf, Meaning, InRange;
    RenderedReadsBack(u, sql, values, paramstyle, Some(y));
    AskedIsRead(u, y, sql, values);
  }
}
