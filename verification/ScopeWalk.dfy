/**
 The scope walk (engine/analyse.py, `scope_of` and `_scope_level`): level by level into the query that
 holds the caret, and which names are in view there.
 */
module ScopeWalk {
  import opened Wrappers
  import opened Text
  import opened Lexer
  import opened Parens
  import opened Quoting
  import opened Branches
  import opened Ctes

  // --------------------------------------------------------- parenthesised queries

  /** A parenthesised body: its paren, its first token and its end. */
  datatype Body = Body(open: nat, lo: nat, hi: nat)

  predicate OpensQuery(u: Unicode, t: Token) {
    IsName(t)
    && (var word := u.upper(t.value); word == "SELECT" || word == "WITH" || word == "VALUES" || word == "TABLE")
  }

  /** The body the paren at `open` opens, if it opens one. */
  function BodyAt(u: Unicode, ts: seq<Token>, open: nat, hi: nat, depth: nat): (b: Option<Body>)
    requires open < hi <= |ts|
    ensures b.Some? ==> b.value.open == open < b.value.lo < hi && open < b.value.hi <= hi
  {
    var first := SkipForward(ts, open + 1, hi);
    if Opens(ts[open]) && ts[open].depth == depth && first < hi && OpensQuery(u, ts[first]) then
      Some(Body(open, first, ClosingAt(ts, depth, open + 1, hi)))
    else None
  }

  /** The bodies from `index` on that begin with a query, one level down. */
  function Bodies(u: Unicode, ts: seq<Token>, index: nat, hi: nat, depth: nat): (bs: seq<Body>)
    requires hi <= |ts|
    ensures forall k | 0 <= k < |bs| :: index <= bs[k].open < bs[k].lo < hi && bs[k].open < bs[k].hi <= hi
    decreases |ts| - index
  {
    if index >= hi then []
    else
      var b := BodyAt(u, ts, index, hi, depth);
      (if b.None? then [] else [b.value]) + Bodies(u, ts, index + 1, hi, depth)
  }

  function BodiesOf(u: Unicode, ts: seq<Token>, lo: nat, hi: nat): (bs: seq<Body>)
    requires hi <= |ts|
    ensures forall k | 0 <= k < |bs| :: lo <= bs[k].open < bs[k].lo < hi && bs[k].open < bs[k].hi <= hi
  {
    Bodies(u, ts, lo, hi, BaseDepth(ts, lo, hi))
  }

  /** `_scan_subquery_bodies`. */
  method SubqueryBodies(u: Unicode, ts: seq<Token>, lo: nat, hi: nat) returns (bodies: seq<Body>)
    requires DepthsCount(ts) && hi <= |ts|
    ensures bodies == BodiesOf(u, ts, lo, hi)
  {
    hide BaseDepth, DepthsCount, SkipForward, ClosingAt, Level, CountBefore, Bodies;
    var depth := BaseDepth(ts, lo, hi);
    bodies := [];
    Unfinished([], Bodies(u, ts, lo, hi, depth));
    var index := lo;
    while index < hi
      invariant lo <= index
      invariant bodies + Bodies(u, ts, index, hi, depth) == BodiesOf(u, ts, lo, hi)
    {
      ghost var rest := Bodies(u, ts, index + 1, hi, depth);
      BodiesStep(u, ts, index, hi, depth);
      Unfinished(bodies, rest);
      if Opens(ts[index]) && ts[index].depth == depth {
        var first := SkipForward(ts, index + 1, hi);
        if first < hi && OpensQuery(u, ts[first]) {
          var close := MatchingParen(ts, index, hi);
          Associates(bodies, [Body(index, first, close)], rest);
          bodies := bodies + [Body(index, first, close)];
        }
      }
      index := index + 1;
    }
    BodiesStep(u, ts, index, hi, depth);
    Unfinished(bodies, []);
  }

  lemma Unfinished<T>(a: seq<T>, b: seq<T>)
    ensures [] + b == b && a + [] == a
  {
  }

  lemma BodiesStep(u: Unicode, ts: seq<Token>, index: nat, hi: nat, depth: nat)
    requires hi <= |ts|
    ensures index >= hi ==> Bodies(u, ts, index, hi, depth) == []
    ensures index < hi ==>
              var b := BodyAt(u, ts, index, hi, depth);
              Bodies(u, ts, index, hi, depth)
              == (if b.None? then [] else [b.value]) + Bodies(u, ts, index + 1, hi, depth)
  {
    hide BodyAt;
  }

  /** A paren of the level with a query right inside, ended by its partner or, having none, by the span. */
  predicate IsBody(u: Unicode, ts: seq<Token>, b: Body, lo: nat, hi: nat)
    requires hi <= |ts|
  {
    && lo <= b.open < b.lo < b.hi <= hi && Opens(ts[b.open]) && ts[b.open].depth == BaseDepth(ts, lo, hi)
    && b.lo == SkipForward(ts, b.open + 1, hi) && OpensQuery(u, ts[b.lo])
    && if b.hi < hi then Partners(ts, b.open, b.hi) else Dangles(ts, b.open, hi)
  }

  /** The body a paren opens is the one body it can have. */
  lemma BodyAtIsBody(u: Unicode, ts: seq<Token>, lo: nat, hi: nat, open: nat)
    requires DepthsCount(ts) && lo <= open < hi <= |ts|
    ensures var found := BodyAt(u, ts, open, hi, BaseDepth(ts, lo, hi));
            && (found.Some? ==> IsBody(u, ts, found.value, lo, hi))
            && (forall b: Body | b.open == open && IsBody(u, ts, b, lo, hi) :: found == Some(b))
  {
    hide Level, BaseDepth, CountBefore, DepthsCount;
    if Opens(ts[open]) {
      InsideFromItsFirst(ts, open);
      ClosingMatches(ts, open, open + 1, hi);
      DanglesOrPartners(ts, open, hi);
      var first := SkipForward(ts, open + 1, hi);
      assert forall k | open < k < first && k < hi :: IsTrivia(ts[k]);
    }
  }

  /** The scan finds every such body, each once and in the order of the text. */
  lemma {:induction false} BodiesAre(u: Unicode, ts: seq<Token>, lo: nat, index: nat, hi: nat)
    requires DepthsCount(ts) && lo <= index && hi <= |ts|
    ensures var bs := Bodies(u, ts, index, hi, BaseDepth(ts, lo, hi));
            && (forall b :: b in bs <==> IsBody(u, ts, b, lo, hi) && index <= b.open)
            && (forall j, k | 0 <= j < k < |bs| :: bs[j].open < bs[k].open)
    decreases |ts| - index
  {
    hide IsBody, BodyAt, BaseDepth, DepthsCount;
    BodiesOpenInside(u, ts, lo, hi);
    if index < hi {
      BodiesAre(u, ts, lo, index + 1, hi);
      BodyAtIsBody(u, ts, lo, hi, index);
    }
  }

  lemma BodiesOpenInside(u: Unicode, ts: seq<Token>, lo: nat, hi: nat)
    requires hi <= |ts|
    ensures forall b: Body | IsBody(u, ts, b, lo, hi) :: lo <= b.open < b.lo < b.hi <= hi
  {
    hide Level, BaseDepth, CountBefore;
  }

  // -------------------------------------------------------------------- the scope walk

  datatype Scope = Scope(lo: nat, hi: nat, ctes: map<string, Projection>, projection: Projection, parent: Option<Scope>)

  predicate Holds(ts: seq<Token>, b: Body, caret: nat) {
    b.lo < b.hi <= |ts| && ts[b.lo].start <= caret <= ts[b.hi - 1].end
  }

  /** The first of the bodies that holds the caret. */
  function Holding(ts: seq<Token>, bodies: seq<Body>, caret: nat): (b: Option<Body>)
    ensures b.Some? ==> b.value in bodies && Holds(ts, b.value, caret)
    ensures b.None? ==> forall k | 0 <= k < |bodies| :: !Holds(ts, bodies[k], caret)
  {
    if bodies == [] then None
    else if Holds(ts, bodies[0], caret) then Some(bodies[0])
    else
      var rest := Holding(ts, bodies[1..], caret);
      assert forall k | 1 <= k < |bodies| :: bodies[k] == bodies[1..][k - 1];
      rest
  }

  /** `_is_lateral`: whether the token before the one before the body is LATERAL, trivia aside. */
  predicate IsLateral(u: Unicode, ts: seq<Token>, bodyLo: nat)
    requires 0 < bodyLo <= |ts|
  {
    var n := Trimmed(ts, bodyLo - 1);
    n > 0 && IsName(ts[n - 1]) && u.upper(ts[n - 1].value) == "LATERAL"
  }

  /** A derived table that LATERAL does not introduce sees nothing of the query around it. */
  predicate IsOpaque(lang: Language, ts: seq<Token>, lo: nat, hi: nat, b: Body)
    requires 0 < b.lo <= |ts|
  {
    var derived := lang.derived(ts, lo, hi);
    && !IsLateral(lang.unicode, ts, b.lo)
    && exists k | 0 <= k < |derived| :: (derived[k].lo, derived[k].hi) == (b.lo, b.hi)
  }

  /** What a body sees: the names in view, and the scope around it unless it is shut off from that. */
  datatype View = View(ctes: map<string, Projection>, parent: Option<Scope>)

  function ViewOf(lang: Language, ts: seq<Token>, b: Body, here: Scope,
                  scopes: map<(nat, nat), map<string, Projection>>): View
    requires 0 < b.lo <= |ts|
  {
    if (b.lo, b.hi) in scopes then View(scopes[(b.lo, b.hi)], None)
    else View(here.ctes, if IsOpaque(lang, ts, here.lo, here.hi, b) then None else Some(here))
  }

  /** The scope of the level itself. */
  function LevelScope(lang: Language, ts: seq<Token>, lo: nat, hi: nat, caret: nat, view: View): Scope
    requires lo <= hi <= |ts|
  {
    var (start, end) := BranchOf(lang.unicode, ts, lo, hi, caret);
    Scope(start, end, view.ctes, Outputs(lang, ts, start, end, view.ctes, MAX_NESTING), view.parent)
  }

  /** The body of the level that holds the caret. */
  function Inner(lang: Language, ts: seq<Token>, lo: nat, hi: nat, caret: nat): (b: Option<Body>)
    requires lo <= hi <= |ts|
    ensures b.Some? ==> lo <= b.value.open < b.value.lo < b.value.hi <= hi && Holds(ts, b.value, caret)
  {
    var (start, end) := BranchOf(lang.unicode, ts, lo, hi, caret);
    Holding(ts, BodiesOf(lang.unicode, ts, start, end), caret)
  }

  /** `_scope_level`: the level's own scope, or that of the body that holds the caret. */
  function ScopeFrom(lang: Language, ts: seq<Token>, lo: nat, hi: nat, caret: nat, view: View,
                     scopes: map<(nat, nat), map<string, Projection>>, remaining: nat): Scope
    requires lo <= hi <= |ts|
    decreases remaining
  {
    var here, inner := LevelScope(lang, ts, lo, hi, caret, view), Inner(lang, ts, lo, hi, caret);
    if remaining == 0 || inner.None? then here
    else
      var b := inner.value;
      var seen := ViewOf(lang, ts, b, here, scopes);
      ScopeFrom(lang, ts, b.lo, b.hi, caret,
                seen.(ctes := seen.ctes + Declarations(lang, ts, b.lo, b.hi, remaining - 1)),
                scopes + BodyScopes(lang, ts, b.lo, b.hi, remaining - 1), remaining - 1)
  }

  lemma InnerIsBody(lang: Language, ts: seq<Token>, lo: nat, hi: nat, caret: nat)
    requires DepthsCount(ts) && lo <= hi <= |ts|
    ensures var (start, end) := BranchOf(lang.unicode, ts, lo, hi, caret);
            var inner := Inner(lang, ts, lo, hi, caret);
            && (inner.Some? ==> IsBody(lang.unicode, ts, inner.value, start, end))
            && (inner.None? ==> forall b | IsBody(lang.unicode, ts, b, start, end) :: !Holds(ts, b, caret))
  {
    hide DepthsCount, BranchOf, Bodies, IsBody, Holds;
    var (start, end) := BranchOf(lang.unicode, ts, lo, hi, caret);
    BodiesAre(lang.unicode, ts, start, start, end);
    BodiesOpenInside(lang.unicode, ts, start, end);
  }

  lemma LevelIs(lang: Language, ts: seq<Token>, lo: nat, hi: nat, caret: nat, view: View)
    requires lo <= hi <= |ts|
    ensures var s := LevelScope(lang, ts, lo, hi, caret, view);
            && (s.lo, s.hi) == BranchOf(lang.unicode, ts, lo, hi, caret) && lo <= s.lo <= s.hi <= hi
            && s.ctes == view.ctes && s.parent == view.parent
            && s.projection == Outputs(lang, ts, s.lo, s.hi, s.ctes, 64)
  {
    hide BranchOf, Outputs;
  }

  /** One level of the walk. */
  lemma WalkStep(lang: Language, ts: seq<Token>, lo: nat, hi: nat, caret: nat, view: View,
                 scopes: map<(nat, nat), map<string, Projection>>, remaining: nat)
    requires lo <= hi <= |ts|
    ensures var here, inner := LevelScope(lang, ts, lo, hi, caret, view), Inner(lang, ts, lo, hi, caret);
            ScopeFrom(lang, ts, lo, hi, caret, view, scopes, remaining)
            == if remaining == 0 || inner.None? then here
               else
                 var b := inner.value;
                 var seen := ViewOf(lang, ts, b, here, scopes);
                 ScopeFrom(lang, ts, b.lo, b.hi, caret,
                           seen.(ctes := seen.ctes + Declarations(lang, ts, b.lo, b.hi, remaining - 1)),
                           scopes + BodyScopes(lang, ts, b.lo, b.hi, remaining - 1), remaining - 1)
  {
    hide LevelScope, Inner, ViewOf, Declarations, BodyScopes;
  }

  /** `scope_of`. */
  function ScopeOf(lang: Language, ts: seq<Token>, lo: nat, hi: nat, caret: nat): Scope
    requires lo <= hi <= |ts|
  {
    ScopeFrom(lang, ts, lo, hi, caret, View(Declarations(lang, ts, lo, hi, MAX_NESTING), None),
              BodyScopes(lang, ts, lo, hi, MAX_NESTING), MAX_NESTING)
  }

  /** `_scope_level`, the `frame`-th call on the stack. */
  method ScopeLevel(lang: Language, ts: seq<Token>, lo: nat, hi: nat, caret: nat, ctes: map<string, Projection>,
                    parent: Option<Scope>, scopes: map<(nat, nat), map<string, Projection>>, remaining: nat,
                    ghost frame: nat)
    returns (scope: Scope)
    requires DepthsCount(ts) && lo <= hi <= |ts| && remaining <= MAX_NESTING
    requires frame + remaining + 2 * MAX_NESTING + 1 <= STACK
    ensures scope == ScopeFrom(lang, ts, lo, hi, caret, View(ctes, parent), scopes, remaining)
    decreases remaining
  {
    hide DepthsCount, BranchOf, BodiesOf, Outputs, Declarations, BodyScopes, IsOpaque;
    var start, end := BranchAt(lang.unicode, ts, lo, hi, caret);
    var _ := NestedOutputs(lang, ts, start, end, ctes, MAX_NESTING, frame);
    var projection := SelectOutputs(lang, ts, start, end, ctes, MAX_NESTING, frame + 1);
    var here := Scope(start, end, ctes, projection, parent);
    if remaining == 0 {
      return here;
    }
    var bodies := SubqueryBodies(lang.unicode, ts, start, end);
    for k := 0 to |bodies|
      invariant Holding(ts, bodies[k..], caret) == Inner(lang, ts, lo, hi, caret)
    {
      var b := bodies[k];
      assert bodies[k..][1..] == bodies[k + 1..];
      if Holds(ts, b, caret) {
        var seen := ViewOf(lang, ts, b, here, scopes);
        var innerCtes, innerScopes := ReadCtes(lang, ts, b.lo, b.hi, remaining - 1, frame + 1);
        scope := ScopeLevel(lang, ts, b.lo, b.hi, caret, seen.ctes + innerCtes, seen.parent, scopes + innerScopes,
                            remaining - 1, frame + 1);
        return;
      }
    }
    scope := here;
  }

  /** `scope_of`: whatever the text, no more than STACK calls stand on the stack at once. */
  method ScopeAt(lang: Language, ts: seq<Token>, lo: nat, hi: nat, caret: nat) returns (scope: Scope)
    requires DepthsCount(ts) && lo <= hi <= |ts|
    ensures scope == ScopeOf(lang, ts, lo, hi, caret)
  {
    hide DepthsCount, Declarations, BodyScopes, ScopeFrom;
    var ctes, bodies := ReadCtes(lang, ts, lo, hi, MAX_NESTING, 2);
    scope := ScopeLevel(lang, ts, lo, hi, caret, ctes, None, bodies, MAX_NESTING, 2);
  }

  // ---------------------------------------------------------- what the walk arrives at

  /** Each scope lies strictly inside the one it is chained to. */
  ghost predicate Nests(s: Scope) {
    s.lo <= s.hi && (s.parent.Some? ==> s.parent.value.lo < s.lo && s.hi <= s.parent.value.hi && Nests(s.parent.value))
  }

  /** How many levels the walk goes down. */
  function Levels(lang: Language, ts: seq<Token>, lo: nat, hi: nat, caret: nat, remaining: nat): (n: nat)
    requires lo <= hi <= |ts|
    ensures n <= remaining
    decreases remaining
  {
    var inner := Inner(lang, ts, lo, hi, caret);
    if remaining == 0 || inner.None? then 0
    else 1 + Levels(lang, ts, inner.value.lo, inner.value.hi, caret, remaining - 1)
  }

  /**
   The scope arrived at nests strictly in those it is chained to, and no query one level further down
   holds the caret unless the nesting allowed was used up.
   */
  lemma {:induction false} WalkEndsInnermost(lang: Language, ts: seq<Token>, lo: nat, hi: nat, caret: nat, view: View,
                                             scopes: map<(nat, nat), map<string, Projection>>, remaining: nat)
    requires DepthsCount(ts) && lo <= hi <= |ts|
    requires view.parent.Some? ==>
               Nests(view.parent.value) && view.parent.value.lo < lo && hi <= view.parent.value.hi
    ensures var s := ScopeFrom(lang, ts, lo, hi, caret, view, scopes, remaining);
            && Nests(s) && lo <= s.lo && s.hi <= hi <= |ts|
            && (Levels(lang, ts, lo, hi, caret, remaining) < remaining ==>
                  forall b | IsBody(lang.unicode, ts, b, s.lo, s.hi) :: !Holds(ts, b, caret))
    decreases remaining
  {
    hide DepthsCount, LevelScope, Inner, ScopeFrom, Declarations, BodyScopes, IsOpaque, IsBody, Holds;
    var here, inner := LevelScope(lang, ts, lo, hi, caret, view), Inner(lang, ts, lo, hi, caret);
    InnerIsBody(lang, ts, lo, hi, caret);
    LevelIs(lang, ts, lo, hi, caret, view);
    WalkStep(lang, ts, lo, hi, caret, view, scopes, remaining);
    if remaining > 0 && inner.Some? {
      var b := inner.value;
      BodiesOpenInside(lang.unicode, ts, here.lo, here.hi);
      var seen := ViewOf(lang, ts, b, here, scopes);
      WalkEndsInnermost(lang, ts, b.lo, b.hi, caret,
                        seen.(ctes := seen.ctes + Declarations(lang, ts, b.lo, b.hi, remaining - 1)),
                        scopes + BodyScopes(lang, ts, b.lo, b.hi, remaining - 1), remaining - 1);
    }
  }

  // --------------------------------------------------------- when the two reads agree

  /**
   A branch cuts no group of its own level short: a body that opens in the branch closes at the same
   token whether it is looked for up to the branch's end or up to the span's.
   */
  lemma SameEnd(u: Unicode, ts: seq<Token>, lo: nat, hi: nat, caret: nat, b: Body)
    requires DepthsCount(ts) && lo <= hi <= |ts|
    requires var (start, end) := BranchOf(u, ts, lo, hi, caret); IsBody(u, ts, b, start, end)
    ensures b.hi == ClosingAt(ts, ts[b.open].depth, b.open + 1, hi)
  {
    hide Level, CountBefore, DepthsCount, BaseDepth, Branch;
    var (start, end) := BranchOf(u, ts, lo, hi, caret);
    BodyAtIsBody(u, ts, start, end, b.open);
    assert b.hi == ClosingAt(ts, ts[b.open].depth, b.open + 1, end);
    ClosingUpTo(ts, ts[b.open].depth, b.open + 1, end, hi);
    if b.hi == end < hi {
      BranchIs(u, ts, lo, lo, hi, BaseDepth(ts, lo, hi), caret);
      InsideFromItsFirst(ts, b.open);
      ClosingMatches(ts, b.open, b.open + 1, end);
      OpenStep(ts, b.open, end);
      BaseIsLeast(ts, lo, hi, b.open);
    }
  }

  /** A closer found before a nearer limit is the one found before a farther one. */
  lemma {:induction false} ClosingUpTo(ts: seq<Token>, depth: nat, k: nat, end: nat, hi: nat)
    requires k <= end <= hi <= |ts|
    ensures ClosingAt(ts, depth, k, end) < end ==> ClosingAt(ts, depth, k, hi) == ClosingAt(ts, depth, k, end)
    decreases end - k
  {
    if k < end && !(Closes(ts[k]) && ts[k].depth == depth) {
      ClosingUpTo(ts, depth, k + 1, end, hi);
    }
  }

  /**
   The WITH files a body under the token after its paren, the scan finds it under its first token. With
   the one read over a span and the other over the branch in it, the lookup that tells them to be one
   body succeeds exactly when nothing stands between the two tokens.
   */
  lemma LookupFindsTheBody(u: Unicode, ts: seq<Token>, lo: nat, hi: nat, caret: nat, b: Body, list: seq<Cte>, k: nat)
    requires DepthsCount(ts) && lo <= hi <= |ts|
    requires var (start, end) := BranchOf(u, ts, lo, hi, caret); IsBody(u, ts, b, start, end)
    requires InOrder(ts, list, 0, hi) && k < |list| && list[k].open == b.open
    ensures !IsTrivia(ts[b.open + 1]) ==> (b.lo, b.hi) == SpanOf(list[k])
    ensures IsTrivia(ts[b.open + 1]) ==> forall j | 0 <= j < |list| :: (b.lo, b.hi) != SpanOf(list[j])
  {
    hide Level, CountBefore, DepthsCount, BaseDepth, OpensQuery;
    SameEnd(u, ts, lo, hi, caret, b);
    assert IsCte(ts, list[k], 0, hi);
    if IsTrivia(ts[b.open + 1]) {
      forall j | 0 <= j < |list| ensures b.lo != list[j].open + 1 {
        assert IsCte(ts, list[j], 0, hi);
      }
    }
  }

  /** Every span filed is that of what stands behind an open paren. */
  ghost predicate BehindParens(ts: seq<Token>, scopes: map<(nat, nat), map<string, Projection>>) {
    forall span | span in scopes :: 0 < span.0 <= |ts| && ts[span.0 - 1].text == "("
  }

  /** No white space or comment is spelled like an open paren. */
  ghost predicate TriviaIsNoParen(ts: seq<Token>) {
    forall i | 0 <= i < |ts| && IsTrivia(ts[i]) :: ts[i].text != "("
  }

  /**
   What the walk lets a declared body see, whatever the levels around it filed: the names written before
   it, and its own iff recursive, when its query begins right after its paren. When anything stands
   between, all names of the level and the level itself, as any body of an expression.
   */
  lemma ViewOfADeclaredBody(lang: Language, ts: seq<Token>, lo: nat, hi: nat, caret: nat, b: Body, k: nat, here: Scope,
                            outer: map<(nat, nat), map<string, Projection>>, remaining: nat)
    requires DepthsCount(ts) && lo <= hi <= |ts| && BehindParens(ts, outer) && TriviaIsNoParen(ts)
    requires var (start, end) := BranchOf(lang.unicode, ts, lo, hi, caret); IsBody(lang.unicode, ts, b, start, end)
    requires var list := WithList(lang, ts, lo, hi, remaining).0; k < |list| && list[k].open == b.open
    ensures var (list, recursive) := WithList(lang, ts, lo, hi, remaining);
            var seen := ViewOf(lang, ts, b, here, outer + BodyScopes(lang, ts, lo, hi, remaining));
            if !IsTrivia(ts[b.open + 1]) then
              seen == View(Restrict(Declarations(lang, ts, lo, hi, remaining), Sees(list, k, recursive)), None)
            else
              seen == View(here.ctes, if IsOpaque(lang, ts, here.lo, here.hi, b) then None else Some(here))
  {
    hide DepthsCount, BranchOf, IsBody, WithList, BodyScopes, InOrder, Declarations, IsOpaque, Sees, Restrict;
    var (list, recursive) := WithList(lang, ts, lo, hi, remaining);
    BodyScopesAre(lang, ts, lo, hi, remaining);
    LookupFindsTheBody(lang.unicode, ts, lo, hi, caret, b, list, k);
    var (start, end) := BranchOf(lang.unicode, ts, lo, hi, caret);
    SpacedBehindTrivia(lang.unicode, ts, b, start, end);
  }

  lemma SpacedBehindTrivia(u: Unicode, ts: seq<Token>, b: Body, lo: nat, hi: nat)
    requires hi <= |ts| && IsBody(u, ts, b, lo, hi)
    ensures 0 < b.lo && b.open + 1 < |ts| && (IsTrivia(ts[b.open + 1]) ==> IsTrivia(ts[b.lo - 1]))
  {
    hide BaseDepth, OpensQuery, Level;
  }

  /** LATERAL shuts a derived table off in the same way: it is seen iff nothing follows the paren. */
  lemma LateralIsSeen(u: Unicode, ts: seq<Token>, lo: nat, hi: nat, b: Body)
    requires hi <= |ts| && IsBody(u, ts, b, lo, hi)
    ensures var n := Trimmed(ts, b.open);
            IsLateral(u, ts, b.lo)
            <==> !IsTrivia(ts[b.open + 1]) && n > 0 && IsName(ts[n - 1]) && u.upper(ts[n - 1].value) == "LATERAL"
  {
    hide BaseDepth, OpensQuery, Level;
    if IsTrivia(ts[b.open + 1]) {
      TrimsToTheParen(ts, b.open, b.lo - 1);
    }
  }

  lemma {:induction false} TrimsToTheParen(ts: seq<Token>, open: nat, n: nat)
    requires open < n <= |ts| && !IsTrivia(ts[open]) && forall k | open < k < n :: IsTrivia(ts[k])
    ensures Trimmed(ts, n) == open + 1
  {
    if n > open + 1 {
      TrimsToTheParen(ts, open, n - 1);
    }
  }
}
