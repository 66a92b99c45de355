/**
 Ranking (engine/rank.py): only a growing shortlist is rendered, and the answer is
 still the one that ranking everything and cutting would give.
 */
module Rank {
  import opened Wrappers
  import opened Sorting

  datatype Kind =
    | Column | Table | Cte | Sequence | Schema | Function | Procedure | Alias | Keyword
    | Operator | Type | Snippet | Value | Join | Expansion

  datatype Candidate = Candidate(
    text: string,
    kind: Kind,
    position: nat,
    local: bool,
    restricted: bool,
    title: Option<string>,
    matchText: Option<string>,
    span: Option<(nat, nat)>,
    extras: string)      // the fields a suggestion copies unread

  datatype Suggestion = Suggestion(
    text: string,
    kind: Kind,
    replaceSpan: (nat, nat),
    score: real,
    stops: seq<nat>,
    title: Option<string>,
    restricted: bool,
    extras: string)

  /** What ranking asks of the rest of the engine, and of Python, for one request. */
  datatype Request = Request(
    prefix: string,
    kinds: seq<Kind>,
    replaceSpan: (nat, nat),
    strength: (string, string, Kind) -> Option<real>,  // _match_strength
    render: Candidate -> (string, seq<nat>),           // _render
    round: real -> real,                               // round(score, 3)
    lower: string -> string)                           // str.lower

  const KIND_STEP := 5.0
  const LOCAL_BONUS := 30.0
  const JOIN_BONUS := 12.0
  const MAX_POSITION_PENALTY := 50
  const POSITION_WEIGHT := 0.1

  // ---------------------------------------------------------------- scoring

  /** Where `kind` stands in the request, the last place when it is listed twice. */
  function KindRank(kinds: seq<Kind>, kind: Kind): (r: Option<nat>)
    ensures r.Some? ==> r.value < |kinds|
  {
    if kinds == [] then None
    else if kinds[|kinds| - 1] == kind then Some(|kinds| - 1)
    else KindRank(kinds[..|kinds| - 1], kind)
  }

  function OrElse<T>(a: Option<T>, b: Option<T>): Option<T> {
    if a.Some? then a else b
  }

  function KindBonus(kinds: seq<Kind>, kind: Kind): real {
    var own := KindRank(kinds, kind);
    var index :=
      if kind.Cte? then OrElse(own, KindRank(kinds, Table))
      else if kind.Join? then OrElse(own, OrElse(KindRank(kinds, Table), KindRank(kinds, Column)))
      else own;
    if index.None? then 0.0 else (|kinds| - index.value) as real * KIND_STEP
  }

  /** Python's `a or b`, where an empty string counts as absent. */
  function NonEmpty(s: Option<string>, otherwise: string): string {
    if s.Some? && s.value != "" then s.value else otherwise
  }

  function Score(request: Request, c: Candidate): Option<real> {
    var strength := request.strength(NonEmpty(c.matchText, NonEmpty(c.title, c.text)), request.prefix, c.kind);
    if strength.None? then
      None
    else
      var place := if c.position < MAX_POSITION_PENALTY then c.position else MAX_POSITION_PENALTY;
      var penalty := place as real * POSITION_WEIGHT;
      Some(strength.value + KindBonus(request.kinds, c.kind) - penalty
           + (if c.local then LOCAL_BONUS else 0.0)
           + (if c.kind.Join? then JOIN_BONUS else 0.0))
  }

  /** The part of the sort key that needs no rendering. */
  datatype Order = Order(restricted: nat, negated: real, length: nat)

  datatype Scored = Scored(order: Order, score: real, candidate: Candidate)

  /** The row a candidate is ranked by, or None when it does not match what was typed. */
  function ScoredOf(request: Request, c: Candidate): Option<Scored> {
    var score := Score(request, c);
    if score.None? then None
    else Some(Scored(Order(if c.restricted then 1 else 0, -score.value, |c.text|), score.value, c))
  }

  function Prepared(request: Request, candidates: seq<Candidate>): seq<Scored> {
    if candidates == [] then
      []
    else
      var row := ScoredOf(request, candidates[0]);
      (if row.None? then [] else [row.value]) + Prepared(request, candidates[1..])
  }

  predicate OrderLess(a: Order, b: Order) {
    || a.restricted < b.restricted
    || (a.restricted == b.restricted && a.negated < b.negated)
    || (a.restricted == b.restricted && a.negated == b.negated && a.length < b.length)
  }

  predicate OrderLeq(a: Order, b: Order) {
    OrderLess(a, b) || a == b
  }

  /** Python's order on strings, code point by code point. */
  predicate TextLeq(a: string, b: string) {
    a == [] || (b != [] && (a[0] < b[0] || (a[0] == b[0] && TextLeq(a[1..], b[1..]))))
  }

  lemma {:induction false} TextLeqTotal(a: string, b: string)
    ensures TextLeq(a, b) || TextLeq(b, a)
  {
    if a != [] && b != [] && a[0] == b[0] {
      TextLeqTotal(a[1..], b[1..]);
    }
  }

  lemma {:induction false} TextLeqTransitive(a: string, b: string, c: string)
    requires TextLeq(a, b) && TextLeq(b, c)
    ensures TextLeq(a, c)
  {
    if a != [] && a[0] == b[0] == c[0] {
      TextLeqTransitive(a[1..], b[1..], c[1..]);
    }
  }

  // -------------------------------------------------------------- rendering

  /** A rendered row: its order, its lower-cased text and what it would suggest. */
  datatype Row = Row(order: Order, lowered: string, suggestion: Suggestion)

  function Render(request: Request, s: Scored): (row: Row)
    ensures row.order == s.order
  {
    var (text, stops) := request.render(s.candidate);
    var c := s.candidate;
    Row(s.order,
        request.lower(text),
        Suggestion(text, c.kind, if c.span.Some? then c.span.value else request.replaceSpan,
                   request.round(s.score), stops, c.title, c.restricted, c.extras))
  }

  function Rendered(request: Request, prepared: seq<Scored>): (r: seq<Row>)
    ensures |r| == |prepared|
  {
    if prepared == [] then [] else [Render(request, prepared[0])] + Rendered(request, prepared[1..])
  }

  predicate RowLeq(a: Row, b: Row) {
    OrderLess(a.order, b.order) || (a.order == b.order && TextLeq(a.lowered, b.lowered))
  }

  predicate ScoredLeq(a: Scored, b: Scored) {
    OrderLeq(a.order, b.order)
  }

  lemma RowsSort()
    ensures TotalPreorder(RowLeq)
  {
    forall a, b
      ensures RowLeq(a, b) || RowLeq(b, a)
    {
      TextLeqTotal(a.lowered, b.lowered);
    }
    forall a, b, c | RowLeq(a, b) && RowLeq(b, c)
      ensures RowLeq(a, c)
    {
      if a.order == b.order == c.order {
        TextLeqTransitive(a.lowered, b.lowered, c.lowered);
      }
    }
  }

  function Key(row: Row): (Kind, string) {
    (row.suggestion.kind, row.suggestion.text)
  }

  /** The suggestions of `rows`, each key where it first occurs and not in `seen`. */
  function WithoutRepeats(rows: seq<Row>, seen: set<(Kind, string)>): seq<Suggestion> {
    if rows == [] then []
    else if Key(rows[0]) in seen then WithoutRepeats(rows[1..], seen)
    else [rows[0].suggestion] + WithoutRepeats(rows[1..], seen + {Key(rows[0])})
  }

  function Cut<T>(xs: seq<T>, limit: nat): seq<T> {
    if limit < |xs| then xs[..limit] else xs
  }

  /** Everything `prepared` suggests, best first. */
  function Finished(request: Request, prepared: seq<Scored>): seq<Suggestion> {
    WithoutRepeats(Sort(RowLeq, Rendered(request, prepared)), {})
  }

  /** `_finish`: render, order, drop duplicates and cut. */
  method Finish(request: Request, prepared: seq<Scored>, limit: Option<nat>) returns (ordered: seq<Suggestion>)
    ensures ordered == if limit.None? then Finished(request, prepared)
                       else Cut(Finished(request, prepared), limit.value)
  {
    hide Rendered, WithoutRepeats;
    var rows := RenderAll(request, prepared);
    rows := Sort(RowLeq, rows);
    ordered := DropRepeats(rows);
    if limit.Some? {
      ordered := Cut(ordered, limit.value);
    }
  }

  method RenderAll(request: Request, prepared: seq<Scored>) returns (rows: seq<Row>)
    ensures rows == Rendered(request, prepared)
  {
    hide Render;
    rows := [];
    for i := 0 to |prepared|
      invariant rows + Rendered(request, prepared[i..]) == Rendered(request, prepared)
    {
      assert prepared[i..][1..] == prepared[i + 1..];
      Associates(rows, [Render(request, prepared[i])], Rendered(request, prepared[i + 1..]));
      rows := rows + [Render(request, prepared[i])];
    }
    assert rows + [] == rows;
  }

  /** The loop of `_finish` over what has been seen. */
  method DropRepeats(rows: seq<Row>) returns (ordered: seq<Suggestion>)
    ensures ordered == WithoutRepeats(rows, {})
  {
    hide Key;
    var seen: set<(Kind, string)> := {};
    ordered := [];
    assert rows[0..] == rows;
    for i := 0 to |rows|
      invariant ordered + WithoutRepeats(rows[i..], seen) == WithoutRepeats(rows, {})
    {
      assert rows[i..][1..] == rows[i + 1..];
      var key := Key(rows[i]);
      if key in seen {
        continue;
      }
      seen := seen + {key};
      Associates(ordered, [rows[i].suggestion], WithoutRepeats(rows[i + 1..], seen));
      ordered := ordered + [rows[i].suggestion];
    }
    assert ordered + [] == ordered;
  }

  // -------------------------------------------------------------- shortlist

  function AtMost(boundary: Order): Scored -> bool {
    (s: Scored) => OrderLeq(s.order, boundary)
  }

  /** `_shortlist`: the `take` best by what needs no rendering, plus every tie. */
  function Shortlist(prepared: seq<Scored>, take: nat): seq<Scored> {
    if take == 0 then []
    else if take >= |prepared| then prepared
    else Filter(AtMost(Sort(ScoredLeq, prepared)[take - 1].order), prepared)
  }

  function RowAtMost(boundary: Order): Row -> bool {
    (r: Row) => OrderLeq(r.order, boundary)
  }

  lemma {:induction false} FilterRendered(request: Request, boundary: Order, prepared: seq<Scored>)
    ensures Rendered(request, Filter(AtMost(boundary), prepared))
         == Filter(RowAtMost(boundary), Rendered(request, prepared))
  {
    hide Render, OrderLeq;
    if prepared != [] {
      FilterRendered(request, boundary, prepared[1..]);
      var x, kept := prepared[0], Filter(AtMost(boundary), prepared[1..]);
      var rows := Rendered(request, prepared[1..]);
      FilterCons(RowAtMost(boundary), Render(request, x), rows);
      if AtMost(boundary)(x) {
        assert ([x] + kept)[1..] == kept;
        assert RowAtMost(boundary)(Render(request, x));
      } else {
        assert !RowAtMost(boundary)(Render(request, x));
        assert Filter(AtMost(boundary), prepared) == kept;
      }
    }
  }

  lemma {:induction false} DistinctExtends(a: seq<Row>, b: seq<Row>, seen: set<(Kind, string)>)
    ensures WithoutRepeats(a, seen) <= WithoutRepeats(a + b, seen)
  {
    if a != [] {
      assert (a + b)[1..] == a[1..] + b;
      DistinctExtends(a[1..], b, seen);
      DistinctExtends(a[1..], b, seen + {Key(a[0])});
    }
  }

  lemma {:induction false} FilterFull<T>(p: T -> bool, xs: seq<T>)
    requires |Filter(p, xs)| == |xs|
    ensures Filter(p, xs) == xs
  {
    if xs != [] {
      FilterFull(p, xs[1..]);
    }
  }

  /** What a shortlist suggests is the front of what everything suggests. */
  lemma ShortlistLeads(request: Request, prepared: seq<Scored>, take: nat)
    ensures Finished(request, Shortlist(prepared, take)) <= Finished(request, prepared)
    ensures |Shortlist(prepared, take)| >= |prepared| ==> Shortlist(prepared, take) == prepared
  {
    if 0 < take < |prepared| {
      var boundary := Sort(ScoredLeq, prepared)[take - 1].order;
      var rows := Rendered(request, prepared);
      FilterRendered(request, boundary, prepared);
      SortSplits(RowLeq, RowAtMost(boundary), rows);
      DistinctExtends(Sort(RowLeq, Filter(RowAtMost(boundary), rows)),
                      Sort(RowLeq, Filter(Not(RowAtMost(boundary)), rows)), {});
      if |Shortlist(prepared, take)| >= |prepared| {
        FilterFull(AtMost(boundary), prepared);
      }
    }
  }

  function Wanted(limit: int): nat {
    if limit < 0 then 0 else limit
  }

  /** Ranking everything, the answer a limit cuts. */
  function Ranked(request: Request, candidates: seq<Candidate>): seq<Suggestion> {
    Finished(request, Prepared(request, candidates))
  }

  lemma PreparedStep(request: Request, candidates: seq<Candidate>, i: nat)
    requires i < |candidates|
    ensures var row := ScoredOf(request, candidates[i]);
            Prepared(request, candidates[i..])
            == (if row.None? then [] else [row.value]) + Prepared(request, candidates[i + 1..])
  {
    assert candidates[i..][1..] == candidates[i + 1..];
  }

  method Prepare(request: Request, candidates: seq<Candidate>) returns (prepared: seq<Scored>)
    ensures prepared == Prepared(request, candidates)
  {
    hide ScoredOf, Prepared;
    prepared := [];
    assert candidates[0..] == candidates && [] + Prepared(request, candidates) == Prepared(request, candidates);
    for i := 0 to |candidates|
      invariant prepared + Prepared(request, candidates[i..]) == Prepared(request, candidates)
    {
      var row := ScoredOf(request, candidates[i]);
      PreparedStep(request, candidates, i);
      ghost var rest := Prepared(request, candidates[i + 1..]);
      if row.None? {
        assert [] + rest == rest;
        continue;
      }
      Associates(prepared, [row.value], rest);
      prepared := prepared + [row.value];
    }
    assert candidates[|candidates|..] == [];
    NothingPrepared(request);
    assert prepared + [] == prepared;
  }

  lemma NothingPrepared(request: Request)
    ensures Prepared(request, []) == []
  {
  }

  /**
   Rank `candidates`, rendering no more than a limit needs. Exact: a limited ranking is
   the unlimited one cut to size.
   */
  method RankCandidates(request: Request, candidates: seq<Candidate>,
                        limit: Option<int>) returns (found: seq<Suggestion>)
    ensures found == if limit.None? then Ranked(request, candidates)
                     else Cut(Ranked(request, candidates), Wanted(limit.value))
  {
    hide Finished, Shortlist;
    var prepared := Prepare(request, candidates);
    if limit.None? {
      found := Finish(request, prepared, None);
      return;
    }
    var wanted := if limit.value < 0 then 0 else limit.value;
    var take := wanted;
    while true
      invariant take >= wanted && (take == 0 ==> wanted == 0)
      decreases |prepared| - take
    {
      var shortlist := Shortlist(prepared, take);
      found := Finish(request, shortlist, Some(wanted));
      ShortlistLeads(request, prepared, take);
      if |found| >= wanted || |shortlist| >= |prepared| {
        return;
      }
      WholeShortlist(prepared, take);
      var grown := if take * 4 > 1 then take * 4 else 1;
      take := if grown < |prepared| then grown else |prepared|;
    }
  }

  lemma WholeShortlist(prepared: seq<Scored>, take: nat)
    ensures take >= |prepared| ==> |Shortlist(prepared, take)| == |prepared|
  {
  }

  // ------------------------------------------------ what a ranking guarantees

  /** The rows whose suggestions `WithoutRepeats` keeps. */
  function Firsts(rows: seq<Row>, seen: set<(Kind, string)>): seq<Row> {
    if rows == [] then []
    else if Key(rows[0]) in seen then Firsts(rows[1..], seen)
    else [rows[0]] + Firsts(rows[1..], seen + {Key(rows[0])})
  }

  lemma FirstsStep(rows: seq<Row>, seen: set<(Kind, string)>)
    ensures rows == [] ==> Firsts(rows, seen) == [] && WithoutRepeats(rows, seen) == []
    ensures rows != [] && Key(rows[0]) in seen ==>
              && Firsts(rows, seen) == Firsts(rows[1..], seen)
              && WithoutRepeats(rows, seen) == WithoutRepeats(rows[1..], seen)
    ensures rows != [] && Key(rows[0]) !in seen ==>
              var more := seen + {Key(rows[0])};
              && Firsts(rows, seen) == [rows[0]] + Firsts(rows[1..], more)
              && WithoutRepeats(rows, seen) == [rows[0].suggestion] + WithoutRepeats(rows[1..], more)
  {
  }

  lemma {:induction false} FirstsAreDistinct(rows: seq<Row>, seen: set<(Kind, string)>)
    ensures var fs := Firsts(rows, seen);
            && |fs| == |WithoutRepeats(rows, seen)|
            && (forall i | 0 <= i < |fs| :: WithoutRepeats(rows, seen)[i] == fs[i].suggestion)
            && (forall i | 0 <= i < |fs| :: Key(fs[i]) !in seen && fs[i] in rows)
            && (forall i, j | 0 <= i < j < |fs| :: Key(fs[i]) != Key(fs[j]))
  {
    hide Firsts, Key, WithoutRepeats;
    FirstsStep(rows, seen);
    if rows != [] {
      var more := if Key(rows[0]) in seen then seen else seen + {Key(rows[0])};
      FirstsAreDistinct(rows[1..], more);
      var rest := Firsts(rows[1..], more);
      if Key(rows[0]) !in seen {
        forall i | 0 <= i < |rest|
          ensures Key(rest[i]) != Key(rows[0]) && Key(rest[i]) !in seen && rest[i] in rows
        {
          assert rest[i] in rows[1..];
        }
      }
    }
  }

  lemma {:induction false} FirstsInOrder(rows: seq<Row>, seen: set<(Kind, string)>)
    requires Ordered(RowLeq, rows)
    ensures Ordered(RowLeq, Firsts(rows, seen))
  {
    if rows != [] {
      var more := if Key(rows[0]) in seen then seen else seen + {Key(rows[0])};
      FirstsInOrder(rows[1..], more);
      FirstsAreDistinct(rows[1..], more);
      var rest := Firsts(rows[1..], more);
      forall i | 0 <= i < |rest|
        ensures RowLeq(rows[0], rest[i])
      {
        assert rest[i] in rows[1..];
      }
    }
  }

  predicate Beats(fs: seq<Row>, r: Row) {
    exists i | 0 <= i < |fs| :: Key(fs[i]) == Key(r) && RowLeq(fs[i], r)
  }

  lemma {:induction false} FirstsBeatRepeats(rows: seq<Row>, seen: set<(Kind, string)>)
    requires Ordered(RowLeq, rows)
    ensures forall r | r in rows && Key(r) !in seen :: Beats(Firsts(rows, seen), r)
  {
    if rows != [] {
      var more := if Key(rows[0]) in seen then seen else seen + {Key(rows[0])};
      FirstsBeatRepeats(rows[1..], more);
      var fs, rest := Firsts(rows, seen), Firsts(rows[1..], more);
      forall r | r in rows && Key(r) !in seen
        ensures Beats(fs, r)
      {
        if Key(r) == Key(rows[0]) {
          assert Key(fs[0]) == Key(r);
          TextLeqTotal(r.lowered, r.lowered);
        } else {
          assert Beats(rest, r);
          var i :| 0 <= i < |rest| && Key(rest[i]) == Key(r) && RowLeq(rest[i], r);
          var n := |fs| - |rest|;
          assert fs[i + n] == rest[i];
        }
      }
    }
  }

  /**
   The ranking of everything: best first, no (kind, text) twice, and for every candidate
   that matches, its key is there through an occurrence at least as good.
   */
  lemma RankedKeepsTheBest(request: Request, candidates: seq<Candidate>)
    ensures var rows := Rendered(request, Prepared(request, candidates));
            var fs := Firsts(Sort(RowLeq, rows), {});
            && |fs| == |Ranked(request, candidates)|
            && (forall i | 0 <= i < |fs| :: Ranked(request, candidates)[i] == fs[i].suggestion)
            && (forall i, j | 0 <= i < j < |fs| :: Key(fs[i]) != Key(fs[j]) && RowLeq(fs[i], fs[j]))
            && (forall i | 0 <= i < |fs| :: fs[i] in rows)
            && (forall r | r in rows :: Beats(fs, r))
  {
    var rows := Rendered(request, Prepared(request, candidates));
    RowsSort();
    SortIsStable(RowLeq, rows);
    FirstsAreDistinct(Sort(RowLeq, rows), {});
    FirstsInOrder(Sort(RowLeq, rows), {});
    FirstsBeatRepeats(Sort(RowLeq, rows), {});
  }
}
