/** What a ranking answers, said of the candidates themselves (engine/rank.py). */
module BestFirst {
  import opened Wrappers
  import opened Sorting
  import opened Rank

  // ---------------------------------------------------------------- the order of strings

  /** `a` comes no later than `b`: they agree up to where `a` ends, or where its character is the smaller. */
  ghost predicate Alphabetical(a: string, b: string) {
    exists k: nat :: k <= |a| && k <= |b| && a[..k] == b[..k] && (k == |a| || (k < |b| && a[k] < b[k]))
  }

  lemma {:induction false} TextsAreAlphabetical(a: string, b: string)
    ensures TextLeq(a, b) <==> Alphabetical(a, b)
  {
    if a == [] || b == [] || a[0] != b[0] {
      assert a[..0] == b[..0];
      assert forall k: nat | 0 < k <= |a| && k <= |b| :: a[..k][0] == a[0] && b[..k][0] == b[0];
    } else {
      TextsAreAlphabetical(a[1..], b[1..]);
      if Alphabetical(a[1..], b[1..]) {
        var k: nat :| k <= |a| - 1 && k <= |b| - 1 && a[1..][..k] == b[1..][..k]
                      && (k == |a| - 1 || (k < |b| - 1 && a[1..][k] < b[1..][k]));
        assert a[..k + 1] == [a[0]] + a[1..][..k] && b[..k + 1] == [b[0]] + b[1..][..k];
      }
      if Alphabetical(a, b) {
        var k: nat :| k <= |a| && k <= |b| && a[..k] == b[..k] && (k == |a| || (k < |b| && a[k] < b[k]));
        assert k > 0;
        assert a[1..][..k - 1] == a[..k][1..] && b[1..][..k - 1] == b[..k][1..];
      }
    }
  }

  // ------------------------------------------------------------------- the ranking

  /** What a candidate of score `x` is shown as. */
  ghost predicate Shows(request: Request, c: Candidate, x: real, s: Suggestion) {
    && s.text == request.render(c).0 && s.stops == request.render(c).1 && s.kind == c.kind
    && s.replaceSpan == (if c.span.Some? then c.span.value else request.replaceSpan)
    && s.score == request.round(x) && s.title == c.title && s.restricted == c.restricted && s.extras == c.extras
  }

  /**
   `a` of score `x` is no worse than `b` of score `y`: readable before restricted; then the higher score;
   then the shorter name; then what reads first, whatever its case.
   */
  ghost predicate NoWorse(request: Request, a: Candidate, x: real, b: Candidate, y: real) {
    || (!a.restricted && b.restricted)
    || (a.restricted == b.restricted && x > y)
    || (a.restricted == b.restricted && x == y && |a.text| < |b.text|)
    || (a.restricted == b.restricted && x == y && |a.text| == |b.text|
        && Alphabetical(request.lower(request.render(a).0), request.lower(request.render(b).0)))
  }

  /** The row is what `c` makes, with `x` its score. */
  ghost predicate Comes(request: Request, row: Row, c: Candidate, x: real) {
    Score(request, c) == Some(x) && row == Render(request, Scored(row.order, x, c)) && ScoredOf(request, c).Some?
    && row.order == ScoredOf(request, c).value.order
  }

  lemma ComesShows(request: Request, row: Row, c: Candidate, x: real)
    requires Comes(request, row, c, x)
    ensures Shows(request, c, x, row.suggestion) && Key(row) == (c.kind, request.render(c).0)
    ensures row.lowered == request.lower(request.render(c).0)
  {
  }

  lemma RowOrderIsNoWorse(request: Request, r: Row, a: Candidate, x: real, r': Row, b: Candidate, y: real)
    requires Comes(request, r, a, x) && Comes(request, r', b, y)
    ensures RowLeq(r, r') <==> NoWorse(request, a, x, b, y)
  {
    hide Alphabetical, Score;
    ComesShows(request, r, a, x);
    ComesShows(request, r', b, y);
    TextsAreAlphabetical(r.lowered, r'.lowered);
  }

  /** Every row is made by a candidate, and every candidate that matches makes one. */
  lemma {:induction false} RowsCome(request: Request, candidates: seq<Candidate>)
    ensures var rows := Rendered(request, Prepared(request, candidates));
            && (forall r | r in rows :: exists k, x :: 0 <= k < |candidates| && Comes(request, r, candidates[k], x))
            && (forall k | 0 <= k < |candidates| && Score(request, candidates[k]).Some? ::
                  exists r :: r in rows && Comes(request, r, candidates[k], Score(request, candidates[k]).value))
  {
    hide Score, Render;
    if candidates != [] {
      var c, rest := candidates[0], candidates[1..];
      RowsCome(request, rest);
      var scored := ScoredOf(request, c);
      var rows, later := Rendered(request, Prepared(request, candidates)), Rendered(request, Prepared(request, rest));
      FirstRow(request, candidates);
      forall r | r in rows ensures exists k, x :: 0 <= k < |candidates| && Comes(request, r, candidates[k], x) {
        if r in later {
          var k, x :| 0 <= k < |rest| && Comes(request, r, rest[k], x);
          assert Comes(request, r, candidates[k + 1], x);
        } else {
          assert Comes(request, r, candidates[0], scored.value.score);
        }
      }
      forall k | 0 <= k < |candidates| && Score(request, candidates[k]).Some?
        ensures exists r :: r in rows && Comes(request, r, candidates[k], Score(request, candidates[k]).value)
      {
        if k > 0 {
          assert candidates[k] == rest[k - 1];
          var r :| r in later && Comes(request, r, rest[k - 1], Score(request, rest[k - 1]).value);
          assert r in rows;
        } else {
          assert Comes(request, Render(request, scored.value), c, scored.value.score);
        }
      }
    }
  }

  lemma FirstRow(request: Request, candidates: seq<Candidate>)
    requires candidates != []
    ensures var scored := ScoredOf(request, candidates[0]);
            Rendered(request, Prepared(request, candidates))
            == (if scored.None? then [] else [Render(request, scored.value)])
               + Rendered(request, Prepared(request, candidates[1..]))
  {
    hide Render, ScoredOf;
    var scored, rest := ScoredOf(request, candidates[0]), Prepared(request, candidates[1..]);
    if scored.Some? {
      assert ([scored.value] + rest)[1..] == rest;
    } else {
      assert [] + rest == rest;
    }
  }

  ghost predicate Scores(request: Request, c: Candidate, x: real) {
    Score(request, c) == Some(x)
  }

  /** Each suggestion shows its own candidate. */
  ghost predicate AllShow(request: Request, candidates: seq<Candidate>, found: seq<Suggestion>, from: seq<nat>,
                          scores: seq<real>) {
    && |from| == |scores| == |found|
    && forall i | 0 <= i < |from| ::
         from[i] < |candidates| && Scores(request, candidates[from[i]], scores[i])
         && Shows(request, candidates[from[i]], scores[i], found[i])
  }

  /** No kind and text comes twice, and each is no worse than those behind it. */
  ghost predicate InOrder(request: Request, candidates: seq<Candidate>, found: seq<Suggestion>, from: seq<nat>,
                          scores: seq<real>) {
    forall i, j |
        0 <= i < j < |from| && |from| == |scores| == |found| && from[i] < |candidates| && from[j] < |candidates| ::
      && (found[i].kind != found[j].kind || found[i].text != found[j].text)
      && NoWorse(request, candidates[from[i]], scores[i], candidates[from[j]], scores[j])
  }

  /** Whatever candidate matches, one of its kind and text is there that is no worse. */
  ghost predicate AllServed(request: Request, candidates: seq<Candidate>, found: seq<Suggestion>, from: seq<nat>,
                            scores: seq<real>) {
    forall k, y | 0 <= k < |candidates| && Scores(request, candidates[k], y) ::
      ServedBy(request, candidates, found, from, scores, candidates[k], y)
  }

  /** The suggestions come from the candidates `from`, best first, and serve every candidate that matches. */
  ghost predicate IsBestFirst(request: Request, candidates: seq<Candidate>, found: seq<Suggestion>, from: seq<nat>,
                              scores: seq<real>) {
    && AllShow(request, candidates, found, from, scores)
    && InOrder(request, candidates, found, from, scores)
    && AllServed(request, candidates, found, from, scores)
  }

  ghost predicate ServedBy(request: Request, candidates: seq<Candidate>, found: seq<Suggestion>, from: seq<nat>,
                           scores: seq<real>, c: Candidate, y: real) {
    exists i: nat :: i < |found| && i < |from| && i < |scores| && from[i] < |candidates|
      && found[i].kind == c.kind && found[i].text == request.render(c).0
      && NoWorse(request, candidates[from[i]], scores[i], c, y)
  }

  /** Where each row comes from. */
  ghost predicate AreFrom(request: Request, candidates: seq<Candidate>, rows: seq<Row>, from: seq<nat>,
                          scores: seq<real>) {
    && |from| == |scores| == |rows|
    && forall i | 0 <= i < |from| ::
         from[i] < |candidates| && Comes(request, rows[i], candidates[from[i]], scores[i])
  }

  lemma {:induction false} Sources(request: Request, candidates: seq<Candidate>, rows: seq<Row>)
    returns (from: seq<nat>, scores: seq<real>)
    requires forall r | r in rows :: exists k, x :: 0 <= k < |candidates| && Comes(request, r, candidates[k], x)
    ensures AreFrom(request, candidates, rows, from, scores)
  {
    hide Comes;
    from, scores := [], [];
    if rows != [] {
      var n := |rows| - 1;
      assert forall r | r in rows[..n] :: r in rows;
      from, scores := Sources(request, candidates, rows[..n]);
      assert rows[n] in rows;
      var k, x :| 0 <= k < |candidates| && Comes(request, rows[n], candidates[k], x);
      from, scores := from + [k], scores + [x];
    }
  }

  lemma RowsShow(request: Request, candidates: seq<Candidate>, rows: seq<Row>, found: seq<Suggestion>, from: seq<nat>,
                 scores: seq<real>)
    requires AreFrom(request, candidates, rows, from, scores) && |found| == |rows|
    requires forall i | 0 <= i < |rows| :: rows[i].suggestion == found[i]
    ensures AllShow(request, candidates, found, from, scores)
    ensures forall i | 0 <= i < |rows| :: Key(rows[i]) == (found[i].kind, found[i].text)
  {
    hide Comes, Shows, Scores, Key;
    forall i | 0 <= i < |rows|
      ensures Scores(request, candidates[from[i]], scores[i])
      ensures Shows(request, candidates[from[i]], scores[i], found[i]) && Key(rows[i]) == (found[i].kind, found[i].text)
    {
      RowShows(request, rows[i], candidates[from[i]], scores[i]);
    }
  }

  lemma RowsInOrder(request: Request, candidates: seq<Candidate>, rows: seq<Row>, found: seq<Suggestion>,
                    from: seq<nat>, scores: seq<real>)
    requires AreFrom(request, candidates, rows, from, scores) && |found| == |rows|
    requires forall i | 0 <= i < |rows| :: Key(rows[i]) == (found[i].kind, found[i].text)
    requires forall i, j | 0 <= i < j < |rows| :: Key(rows[i]) != Key(rows[j]) && RowLeq(rows[i], rows[j])
    ensures InOrder(request, candidates, found, from, scores)
  {
    hide Comes, NoWorse, Key, RowLeq;
    forall i, j | 0 <= i < j < |rows|
      ensures NoWorse(request, candidates[from[i]], scores[i], candidates[from[j]], scores[j])
      ensures found[i].kind != found[j].kind || found[i].text != found[j].text
    {
      assert Key(rows[i]) != Key(rows[j]);
      RowOrderIsNoWorse(request, rows[i], candidates[from[i]], scores[i], rows[j], candidates[from[j]], scores[j]);
    }
  }

  lemma RowsServe(request: Request, candidates: seq<Candidate>, all: seq<Row>, rows: seq<Row>, found: seq<Suggestion>,
                  from: seq<nat>, scores: seq<real>)
    requires AreFrom(request, candidates, rows, from, scores) && |found| == |rows|
    requires forall i | 0 <= i < |rows| :: Key(rows[i]) == (found[i].kind, found[i].text)
    requires forall r | r in all :: Beats(rows, r)
    requires forall k | 0 <= k < |candidates| && Score(request, candidates[k]).Some? ::
               exists r :: r in all && Comes(request, r, candidates[k], Score(request, candidates[k]).value)
    ensures AllServed(request, candidates, found, from, scores)
  {
    hide Comes, AreFrom, Score, Key, Beats, ServedBy;
    forall k, y | 0 <= k < |candidates| && Scores(request, candidates[k], y)
      ensures ServedBy(request, candidates, found, from, scores, candidates[k], y)
    {
      var r :| r in all && Comes(request, r, candidates[k], y);
      BeatenIsServed(request, candidates, rows, found, from, scores, r, candidates[k], y);
    }
  }

  /** The ranking of everything, said of the candidates. */
  lemma RankedIsBestFirst(request: Request, candidates: seq<Candidate>)
    ensures exists from, scores :: IsBestFirst(request, candidates, Ranked(request, candidates), from, scores)
  {
    hide Comes, Score, RowLeq, Key, Ranked, AllShow, InOrder, AllServed, AreFrom, Beats, Rendered, Prepared;
    var rows := Rendered(request, Prepared(request, candidates));
    var fs, found := Firsts(Sort(RowLeq, rows), {}), Ranked(request, candidates);
    RankedKeepsTheBest(request, candidates);
    RowsCome(request, candidates);
    var from, scores := Sources(request, candidates, fs);
    RowsShow(request, candidates, fs, found, from, scores);
    RowsInOrder(request, candidates, fs, found, from, scores);
    RowsServe(request, candidates, rows, fs, found, from, scores);
    assert IsBestFirst(request, candidates, found, from, scores);
  }

  /** A candidate whose row is beaten by one of those kept is served by what that one shows. */
  lemma BeatenIsServed(request: Request, candidates: seq<Candidate>, rows: seq<Row>, found: seq<Suggestion>,
                       from: seq<nat>, scores: seq<real>, r: Row, c: Candidate, y: real)
    requires Comes(request, r, c, y) && Beats(rows, r) && AreFrom(request, candidates, rows, from, scores)
    requires |found| == |rows|
    requires forall i | 0 <= i < |rows| :: Key(rows[i]) == (found[i].kind, found[i].text)
    ensures ServedBy(request, candidates, found, from, scores, c, y)
  {
    hide Comes, Shows, NoWorse, Score, RowLeq, Key;
    var i :| 0 <= i < |rows| && Key(rows[i]) == Key(r) && RowLeq(rows[i], r);
    ComesShows(request, r, c, y);
    RowOrderIsNoWorse(request, rows[i], candidates[from[i]], scores[i], r, c, y);
  }

  lemma RowShows(request: Request, r: Row, c: Candidate, x: real)
    requires Comes(request, r, c, x)
    ensures Scores(request, c, x) && Shows(request, c, x, r.suggestion)
    ensures Key(r) == (r.suggestion.kind, r.suggestion.text)
  {
    ComesShows(request, r, c, x);
  }

  // ----------------------------------------------------------------- what raises a score

  /** What a candidate is hunted by: its match text, else its title, else its text, an empty one not counting. */
  ghost predicate IsHuntedBy(c: Candidate, text: string) {
    if c.matchText.Some? && c.matchText.value != "" then text == c.matchText.value
    else if c.title.Some? && c.title.value != "" then text == c.title.value
    else text == c.text
  }

  /** A candidate has a score exactly when what it is hunted by matches what was typed. */
  lemma OnlyMatchesScore(request: Request, c: Candidate, text: string)
    requires IsHuntedBy(c, text)
    ensures Score(request, c).Some? <==> request.strength(text, request.prefix, c.kind).Some?
  {
  }

  /** The better match scores higher, by as much as it is better. */
  lemma StrengthRaises(request: Request, a: Candidate, b: Candidate, text: string, text': string)
    requires IsHuntedBy(a, text) && IsHuntedBy(b, text') && a.kind == b.kind && a.position == b.position
    requires a.local == b.local && Score(request, a).Some? && Score(request, b).Some?
    ensures Score(request, a).value - Score(request, b).value
         == request.strength(text, request.prefix, a.kind).value - request.strength(text', request.prefix, b.kind).value
  {
    hide KindBonus;
  }

  /** A candidate further down scores lower, by a tenth a place, down to the fiftieth. */
  lemma PositionLowers(request: Request, c: Candidate, p: nat)
    requires Score(request, c).Some? && c.position < p
    ensures var later := Score(request, c.(position := p));
            && later.Some?
            && (p <= 50 ==> Score(request, c).value - later.value == (p - c.position) as real / 10.0)
            && (c.position >= 50 ==> later == Score(request, c))
            && (p > 50 ==> later == Score(request, c.(position := 50)))
  {
    hide KindBonus;
  }

  /** A local one scores thirty more. */
  lemma LocalRaises(request: Request, c: Candidate)
    requires !c.local && Score(request, c).Some?
    ensures Score(request, c.(local := true)) == Some(Score(request, c).value + 30.0)
  {
    hide KindBonus;
  }

  /** Two candidates alike in all but kind, and matching equally well. */
  ghost predicate DifferInKind(request: Request, a: Candidate, b: Candidate) {
    && a == b.(kind := a.kind) && Score(request, a).Some? && Score(request, b).Some?
    && forall text | IsHuntedBy(a, text) ::
         request.strength(text, request.prefix, a.kind) == request.strength(text, request.prefix, b.kind)
  }

  /** Listed there, and not again behind. */
  ghost predicate LastListedAt(kinds: seq<Kind>, kind: Kind, i: nat) {
    i < |kinds| && kinds[i] == kind && forall k | i < k < |kinds| :: kinds[k] != kind
  }

  lemma {:induction false} RankOfListed(kinds: seq<Kind>, kind: Kind, i: nat)
    requires LastListedAt(kinds, kind, i)
    ensures KindRank(kinds, kind) == Some(i)
  {
    var n := |kinds| - 1;
    if i < n {
      RankOfListed(kinds[..n], kind, i);
    }
  }

  lemma {:induction false} RankOfUnlisted(kinds: seq<Kind>, kind: Kind)
    requires kind !in kinds
    ensures KindRank(kinds, kind) == None
  {
    if kinds != [] {
      RankOfUnlisted(kinds[..|kinds| - 1], kind);
    }
  }

  /** A kind asked for earlier scores higher, by five a place, one not asked for lowest; a join twelve more. */
  lemma EarlierKindRaises(request: Request, a: Candidate, b: Candidate, i: nat, j: nat)
    requires DifferInKind(request, a, b) && LastListedAt(request.kinds, a.kind, i)
    requires if b.kind in request.kinds then LastListedAt(request.kinds, b.kind, j) else !b.kind.Cte? && !b.kind.Join?
    ensures Score(request, a).value - Score(request, b).value
         == 5.0 * (if b.kind in request.kinds then j - i else |request.kinds| - i) as real
            + (if a.kind.Join? then 12.0 else 0.0) - (if b.kind.Join? then 12.0 else 0.0)
  {
    hide KindRank;
    SameHunt(a, b);
    RankOfListed(request.kinds, a.kind, i);
    if b.kind in request.kinds {
      RankOfListed(request.kinds, b.kind, j);
    } else {
      RankOfUnlisted(request.kinds, b.kind);
    }
  }

  lemma SameHunt(a: Candidate, b: Candidate)
    requires a == b.(kind := a.kind)
    ensures exists text :: IsHuntedBy(a, text) && IsHuntedBy(b, text)
  {
    assert IsHuntedBy(a, NonEmpty(a.matchText, NonEmpty(a.title, a.text)));
  }

  /** A CTE asked for only as a table scores as a table. */
  lemma CteScoresAsTable(request: Request, a: Candidate, b: Candidate)
    requires DifferInKind(request, a, b) && a.kind.Cte? && b.kind.Table? && Cte !in request.kinds
    ensures Score(request, a) == Score(request, b)
  {
    hide KindRank;
    SameHunt(a, b);
    RankOfUnlisted(request.kinds, Cte);
  }

  /** A join scores twelve more than a table would, or than a column where no table is asked for. */
  lemma JoinScoresAbove(request: Request, a: Candidate, b: Candidate)
    requires DifferInKind(request, a, b) && a.kind.Join? && Join !in request.kinds
    requires b.kind == (if Table in request.kinds then Table else Column)
    ensures Score(request, a).value == Score(request, b).value + 12.0
  {
    hide KindRank;
    SameHunt(a, b);
    RankOfUnlisted(request.kinds, Join);
    if Table !in request.kinds {
      RankOfUnlisted(request.kinds, Table);
    } else {
      ListedRanks(request.kinds, Table);
    }
  }

  lemma {:induction false} ListedRanks(kinds: seq<Kind>, kind: Kind)
    requires kind in kinds
    ensures KindRank(kinds, kind).Some?
  {
    var n := |kinds| - 1;
    if kinds[n] != kind {
      ListedRanks(kinds[..n], kind);
    }
  }

  // ------------------------------------------------------------------- the shortlist

  /** Readable before restricted, then the higher score, then the shorter name. */
  predicate Precedes(a: Scored, b: Scored) {
    || a.order.restricted < b.order.restricted
    || (a.order.restricted == b.order.restricted && a.order.negated < b.order.negated)
    || (a.order.restricted == b.order.restricted && a.order.negated == b.order.negated
        && a.order.length < b.order.length)
  }

  function Preceding(x: Scored): Scored -> bool {
    (s: Scored) => Precedes(s, x)
  }

  /** A shortlist keeps what fewer than `take` others precede: the best that many, and whatever ties with the last. */
  lemma ShortlistKeepsTies(prepared: seq<Scored>, take: nat, x: Scored)
    requires x in prepared
    ensures x in Shortlist(prepared, take) <==> |Filter(Preceding(x), prepared)| < take
  {
    var before := Filter(Preceding(x), prepared);
    if take >= |prepared| {
      if |before| >= |prepared| {
        FilterFull(Preceding(x), prepared);
        FilteredOut(Preceding(x), prepared);
        assert x in before && Preceding(x)(x);
      }
    } else if take > 0 {
      var sorted := Sort(ScoredLeq, prepared);
      SortSplits(ScoredLeq, Preceding(x), prepared);
      FilteredOut(Preceding(x), prepared);
      var last := sorted[take - 1];
      if take - 1 < |before| {
        assert last == Sort(ScoredLeq, before)[take - 1] && last in before;
        assert !AtMost(last.order)(x);
        FilteredOut(AtMost(last.order), prepared);
      } else {
        var rest := Filter(Not(Preceding(x)), prepared);
        assert last == Sort(ScoredLeq, rest)[take - 1 - |before|] && last in rest;
        FilterHolds(AtMost(last.order), prepared, x);
      }
    }
  }
}
