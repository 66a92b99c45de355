/** The parenthesised queries of a level, told from the tokens, and which of them the walk goes into. */
module QueryBodies {
  import opened Wrappers
  import opened Text
  import opened Lexer
  import opened Parens
  import opened Quoting
  import opened Branches
  import opened Clauses
  import opened Ctes
  import opened ScopeWalk

  /**
   A paren no deeper than anything of the span, with only trivia between it and one of the four words that
   begin a query; it ends at its partner, or with the span when it has none there.
   */
  ghost predicate IsQueryIn(u: Unicode, ts: seq<Token>, b: ScopeWalk.Body, lo: nat, hi: nat) {
    && IsShallowest(ts, lo, hi, b.open) && IsPunct(ts[b.open], "(")
    && b.open < b.lo < b.hi <= hi && OnlyTrivia(ts, b.open + 1, b.lo)
    && ts[b.lo].kind == Ident && u.upper(ts[b.lo].value) in {"SELECT", "WITH", "VALUES", "TABLE"}
    && if b.hi < hi then Partners(ts, b.open, b.hi) else Dangles(ts, b.open, hi)
  }

  lemma BodiesAreQueries(u: Unicode, ts: seq<Token>, b: ScopeWalk.Body, lo: nat, hi: nat)
    requires hi <= |ts|
    ensures IsBody(u, ts, b, lo, hi) <==> IsQueryIn(u, ts, b, lo, hi)
  {
    hide BaseDepth, Level;
    if lo <= b.open < b.lo < b.hi <= hi && Opens(ts[b.open]) {
      ShallowestAreAtBase(ts, lo, hi, b.open);
      if OnlyTrivia(ts, b.open + 1, b.lo) && ts[b.lo].kind == Ident {
        FirstIs(ts, b.open + 1, b.lo, hi);
      }
    }
  }

  /** The caret stands between the first character of the query and the last, or at either end. */
  predicate Surrounds(ts: seq<Token>, b: ScopeWalk.Body, caret: nat) {
    b.lo < b.hi <= |ts| && ts[b.lo].start <= caret <= ts[b.hi - 1].end
  }

  /** The walk goes into the first such query of the branch that has the caret in it, into none only where none has. */
  lemma FirstQueryIsEntered(lang: Language, ts: seq<Token>, lo: nat, hi: nat, caret: nat, b: ScopeWalk.Body)
    requires DepthsCount(ts) && lo <= hi <= |ts|
    ensures var (start, end) := BranchOf(lang.unicode, ts, lo, hi, caret);
            var found := Inner(lang, ts, lo, hi, caret);
            && (found == Some(b)
                <==> IsQueryIn(lang.unicode, ts, b, start, end) && Surrounds(ts, b, caret)
                     && forall c | IsQueryIn(lang.unicode, ts, c, start, end) && Surrounds(ts, c, caret) ::
                          b.open <= c.open)
            && (found == None
                <==> forall c | IsQueryIn(lang.unicode, ts, c, start, end) :: !Surrounds(ts, c, caret))
  {
    hide DepthsCount, BranchOf, IsBody, IsQueryIn, Bodies;
    var (start, end) := BranchOf(lang.unicode, ts, lo, hi, caret);
    var bs := BodiesOf(lang.unicode, ts, start, end);
    BodiesAre(lang.unicode, ts, start, start, end);
    BodiesOpenInside(lang.unicode, ts, start, end);
    forall c: ScopeWalk.Body
      ensures IsBody(lang.unicode, ts, c, start, end) <==> IsQueryIn(lang.unicode, ts, c, start, end)
    {
      BodiesAreQueries(lang.unicode, ts, c, start, end);
    }
    var i := FirstHolds(ts, bs, caret);
    if i < |bs| {
      assert Inner(lang, ts, lo, hi, caret) == Some(bs[i]) && bs[i] in bs && Surrounds(ts, bs[i], caret);
      forall c | IsQueryIn(lang.unicode, ts, c, start, end) && Surrounds(ts, c, caret) ensures bs[i].open <= c.open {
        var k :| 0 <= k < |bs| && bs[k] == c;
      }
      if b in bs && Surrounds(ts, b, caret) && b.open <= bs[i].open {
        var k :| 0 <= k < |bs| && bs[k] == b;
        assert k == i;
      }
    } else {
      forall c | IsQueryIn(lang.unicode, ts, c, start, end) ensures !Surrounds(ts, c, caret) {
        var k :| 0 <= k < |bs| && bs[k] == c;
      }
    }
  }

  lemma {:induction false} FirstHolds(ts: seq<Token>, bodies: seq<ScopeWalk.Body>, caret: nat) returns (i: nat)
    ensures i <= |bodies| && forall k | 0 <= k < i :: !Surrounds(ts, bodies[k], caret)
    ensures i < |bodies| ==> Surrounds(ts, bodies[i], caret)
    ensures Holding(ts, bodies, caret) == if i < |bodies| then Some(bodies[i]) else None
  {
    if bodies == [] || Holds(ts, bodies[0], caret) {
      i := 0;
    } else {
      i := FirstHolds(ts, bodies[1..], caret);
      assert forall k | 1 <= k < |bodies| :: bodies[k] == bodies[1..][k - 1];
      i := i + 1;
    }
  }
}
