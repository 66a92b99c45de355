/** What a marker is, and which error refuses which markers (dbapi.py, `_MARKER`, `_spread_at` and `render`). */
module Markers {
  import opened Wrappers
  import opened Text
  import opened Decimal
  import opened Render
  import L = Lexer

  /** A marker stands where a dollar does with a digit right behind it, and nowhere else. */
  lemma MarkersStandAtDollars(u: Unicode, s: string)
    ensures MarkerAt(u, s).Some? <==> |s| > 1 && s[0] == '$' && u.decimal(s[1])
  {
    if |s| > 1 {
      assert s[1..][0] == s[1];
    }
  }

  /** It takes in every digit there is, and three dots if they follow: then it spreads. */
  lemma MarkersAreRead(u: Unicode, digits: string, rest: string)
    requires digits != "" && (forall i | 0 <= i < |digits| :: u.decimal(digits[i]))
    requires rest == "" || !u.decimal(rest[0])
    ensures MarkerAt(u, "$" + digits + rest)
         == var dots := |rest| > 2 && rest[0] == '.' && rest[1] == '.' && rest[2] == '.';
            Some((1 + |digits| + if dots then 3 else 0, Number(u, digits), dots))
  {
    hide Number;
    var s := "$" + digits + rest;
    assert s[1..] == digits + rest;
    RunIs(u.decimal, s[1..], |digits|);
    assert s[1..1 + |digits|] == digits && s[1 + |digits|..] == rest;
    DotsStand(rest);
  }

  lemma DotsStand(rest: string)
    ensures "..." <= rest <==> |rest| > 2 && rest[0] == '.' && rest[1] == '.' && rest[2] == '.'
  {
    assert |rest| > 2 ==> rest[..3] == [rest[0], rest[1], rest[2]];
  }

  /** A number written out is the number read. */
  lemma {:induction false} NumbersAreRead(u: Unicode, n: nat)
    requires Sound(u)
    ensures Number(u, Print(n)) == n
  {
    var s := Print(n);
    assert s[..|s| - 1] == if n < 10 then "" else Print(n / 10);
    if n >= 10 {
      NumbersAreRead(u, n / 10);
    }
  }

  /** How a marker is written in each style: its number in ASCII digits with no zero in front, or not at all. */
  lemma MarkersAreSpelled(u: Unicode, n: nat) returns (digits: string)
    requires Sound(u)
    ensures Number(u, digits) == n && digits != "" && (forall i | 0 <= i < |digits| :: '0' <= digits[i] <= '9')
    ensures n > 0 ==> digits[0] != '0'
    ensures Written(Qmark, [Marker(n)]) == "?" && Written(Format, [Marker(n)]) == "%s"
    ensures Written(Numeric, [Marker(n)]) == ":" + digits && Written(Named, [Marker(n)]) == ":p" + digits
    ensures Written(Pyformat, [Marker(n)]) == "%(p" + digits + ")s"
  {
    digits := Print(n);
    NumbersAreRead(u, n);
    NoLeadingZero(n);
    forall style ensures Written(style, [Marker(n)]) == Spelled(style, n) {
      AtomWritten(style, Marker(n));
    }
    assert ":" + ("p" + digits) == ":p" + digits;
    assert "%(" + ("p" + digits) + ")s" == "%(p" + digits + ")s";
  }

  lemma {:induction false} NoLeadingZero(n: nat)
    ensures Print(n) != "" && (forall i | 0 <= i < |Print(n)| :: '0' <= Print(n)[i] <= '9')
    ensures n > 0 ==> Print(n)[0] != '0'
  {
    if n >= 10 {
      NoLeadingZero(n / 10);
    }
  }

  /** Which error, in the order they are looked for: each where the ones before it are not. */
  lemma RefusalSays(live: seq<Match>, supplied: nat)
    requires StartsAscend(live)
    ensures var zero := exists i :: 0 <= i < |live| && live[i].number == 0;
            var two := exists i, j :: 0 <= i < j < |live| && live[i].spread && live[j].spread;
            var early := exists i :: 0 <= i < |live| - 1 && live[i].spread;
            var empty := live != [] && live[|live| - 1].spread && live[|live| - 1].number > supplied;
            Refusal(live, supplied)
            == if zero then Some(ZeroMarker)
               else if two then Some(TwoSpreads)
               else if early then Some(MarkerAfterSpread)
               else if empty then Some(EmptySpread)
               else None
  {
    hide Spreads;
    SpreadsAre(live);
    assert (exists m | m in live :: m.number == 0) <==> exists i :: 0 <= i < |live| && live[i].number == 0;
    if |Spreads(live)| == 1 {
      var m := Spreads(live)[0];
      var i :| 0 <= i < |live| && live[i] == m;
      assert forall k | 0 <= k < |live| && live[k].spread :: live[k].start == m.start;
      if i < |live| - 1 {
        assert live[|live| - 1].start > m.start;
      } else {
        assert forall x | x in live :: x.start <= m.start;
      }
    }
  }

  lemma SpreadsAre(live: seq<Match>)
    requires StartsAscend(live)
    ensures (Spreads(live) == [] <==> forall i | 0 <= i < |live| :: !live[i].spread)
    ensures |Spreads(live)| > 1 <==> exists i, j :: 0 <= i < j < |live| && live[i].spread && live[j].spread
    ensures |Spreads(live)| == 1 ==> forall i | 0 <= i < |live| && live[i].spread :: live[i] == Spreads(live)[0]
  {
    hide Spreads;
    SpreadsAreSome(live);
    TwoSpreadsAre(live);
    forall i | 0 <= i < |live| && live[i].spread ensures live[i] in Spreads(live) {
      assert live[i] in live;
    }
  }

  lemma SpreadsAreSome(live: seq<Match>)
    ensures Spreads(live) == [] <==> forall i | 0 <= i < |live| :: !live[i].spread
  {
    if Spreads(live) == [] {
      forall i | 0 <= i < |live| ensures !live[i].spread {
        assert live[i] in live;
      }
    } else {
      assert Spreads(live)[0] in live;
    }
  }

  lemma {:induction false} TwoSpreadsAre(live: seq<Match>)
    ensures |Spreads(live)| > 1 <==> exists i, j :: 0 <= i < j < |live| && live[i].spread && live[j].spread
  {
    if live != [] {
      var rest := live[1..];
      assert forall i | 0 <= i < |rest| :: rest[i] == live[i + 1];
      TwoSpreadsAre(rest);
      SpreadsAreSome(rest);
      if live[0].spread && Spreads(rest) != [] {
        var j :| 0 <= j < |rest| && rest[j].spread;
        assert live[j + 1].spread;
      } else if |Spreads(rest)| > 1 {
        var i, j :| 0 <= i < j < |rest| && rest[i].spread && rest[j].spread;
        assert live[i + 1].spread && live[j + 1].spread;
      }
      if i, j :| 0 <= i < j < |live| && live[i].spread && live[j].spread {
        assert rest[j - 1].spread;
        assert i > 0 ==> rest[i - 1].spread;
      }
    }
  }

  /** The five styles there are, by their names. */
  lemma StylesAreNamed(name: string)
    ensures StyleOf("qmark") == Some(Qmark) && StyleOf("format") == Some(Format) && StyleOf("numeric") == Some(Numeric)
    ensures StyleOf("named") == Some(Named) && StyleOf("pyformat") == Some(Pyformat)
    ensures StyleOf(name).Some? <==> name in {"qmark", "format", "numeric", "named", "pyformat"}
  {
    assert "qmark"[0] == 'q' && "format"[0] == 'f' && "pyformat"[0] == 'p';
    assert "numeric"[1] == 'u' && "named"[1] == 'a';
    assert "numeric"[0] == 'n' && "named"[0] == 'n';
  }

  /** No more is handed over than the markers call for: up to the highest number, or the keys there are. */
  lemma {:induction false} NothingIsHandedOverUnasked(style: Style, ns: seq<nat>, values: seq<string>)
    requires AllWithin(ns, |values|)
    ensures var p := ParametersFor(style, ns, values);
            && (style == Qmark || style == Format ==> p.Positional? && |p.values| == |ns|)
            && (style == Numeric ==>
                  p.Positional? && p.values <= values && if ns == [] then p.values == [] else |p.values| in ns)
            && (style == Named || style == Pyformat ==>
                  p.ByName? && forall key :: key in p.table <==> exists i :: 0 <= i < |ns| && key == Key(ns[i]))
  {
    hide Key;
    if style == Named || style == Pyformat {
      KeysAre(ns, values);
    }
  }

  lemma {:induction false} KeysAre(ns: seq<nat>, values: seq<string>)
    requires AllWithin(ns, |values|)
    ensures forall key :: key in Keyed(ns, values) <==> exists i :: 0 <= i < |ns| && key == Key(ns[i])
  {
    hide Key;
    if ns != [] {
      KeysAre(ns[1..], values);
      assert forall i | 0 <= i < |ns| - 1 :: ns[1..][i] == ns[i + 1];
      forall key ensures key in Keyed(ns, values) <==> exists i :: 0 <= i < |ns| && key == Key(ns[i]) {
        if key in Keyed(ns[1..], values) {
          var i :| 0 <= i < |ns[1..]| && key == Key(ns[1..][i]);
          assert key == Key(ns[i + 1]);
        }
        if i :| 0 <= i < |ns| && key == Key(ns[i]) {
          assert i > 0 ==> key == Key(ns[1..][i - 1]);
        }
      }
    }
  }

  /** What `render` answers or raises: its errors in order, and none but for what they say. */
  lemma RenderingRaises(u: Unicode, sql: string, values: seq<string>, paramstyle: string, syntax: Option<L.Syntax>)
    requires Sound(u)
    ensures var live := Live(Matches(u, sql, 0), QuotedSpans(u, syntax, sql));
            var r := Rendering(u, sql, values, paramstyle, syntax);
            && (r == Err(UnsupportedStyle) <==> paramstyle !in {"qmark", "format", "numeric", "named", "pyformat"})
            && (r.Ok? || r == Err(NoValue) ==> Refusal(live, |values|).None?)
            && (Refusal(live, |values|).Some? && r != Err(UnsupportedStyle) ==>
                  r == Err(Refusal(live, |values|).value))
            && (r == Err(NoValue) ==> exists i :: 0 <= i < |live| && live[i].number > |values|)
            && (r.Ok? ==> forall i | 0 <= i < |live| :: 1 <= live[i].number <= |values|)
  {
    hide Refusal, Live, Matches, QuotedSpans, Atoms, Numbers, StyleOf, Sound, Written, ParametersFor;
    var spans := QuotedSpans(u, syntax, sql);
    var live := Live(Matches(u, sql, 0), spans);
    StylesAreNamed(paramstyle);
    NumbersNamed(u, sql, 0, spans, |values|);
    MatchesAscend(u, sql, 0);
    LiveAscends(Matches(u, sql, 0), spans);
    RefusalSays(live, |values|);
  }
}
