/** Where a query's select list ends, told from the clauses written behind the caret. */
module Endings {
  import opened Text
  import opened Lexer
  import opened Quoting
  import opened Scanning
  import opened Branches
  import opened Clauses
  import opened SelectList

  /** A clause other than SELECT begins at `k`, no deeper than the rest of the query, in a token past the caret. */
  ghost predicate FollowsAt(o: Openers, ts: seq<Token>, lo: nat, hi: nat, caret: nat, k: nat, p: Phrase,
                            at: seq<nat>) {
    && IsShallowest(ts, lo, hi, k) && ts[k].end > caret
    && Begins(o.unicode, o.clauses, ts, k, hi, p, at) && p.name != "SELECT"
  }

  ghost predicate IsFollowing(o: Openers, ts: seq<Token>, lo: nat, hi: nat, caret: nat, k: nat) {
    exists p, at :: FollowsAt(o, ts, lo, hi, caret, k, p, at)
  }

  lemma LaterIsFollowing(o: Openers, ts: seq<Token>, lo: nat, hi: nat, caret: nat, k: nat)
    requires lo <= k < hi <= |ts| && WellNamed(o.clauses)
    ensures LaterClause(o, ts, k, hi, BaseDepth(ts, lo, hi), caret) <==> IsFollowing(o, ts, lo, hi, caret, k)
  {
    hide FirstSpelled, BaseDepth, Begins, WellNamed, IsShallowest;
    FirstSpelledBegins(o.unicode, ts, k, hi, o.clauses);
    if !IsTrivia(ts[k]) {
      ShallowestAreAtBase(ts, lo, hi, k);
    }
    if LaterClause(o, ts, k, hi, BaseDepth(ts, lo, hi), caret) {
      var p := FirstSpelled(o.unicode, ts, k, hi, o.clauses).value.0;
      var at :| Begins(o.unicode, o.clauses, ts, k, hi, p, at);
      assert FollowsAt(o, ts, lo, hi, caret, k, p, at);
    }
    forall p, at | FollowsAt(o, ts, lo, hi, caret, k, p, at) ensures IsWord(ts[k]) {
      BegunStands(o.unicode, ts, k, hi, o.clauses, p, at);
    }
  }

  /**
   The clause goes before every clause that follows, and no nearer the caret than that takes: all tokens at or
   past its place are trivia, up to the first clause that follows. It goes to the caret itself, right behind a
   token that is not trivia, or, where only trivia stands before that clause, in front of it.
   */
  lemma ListEndsWhereClausesBegin(o: Openers, ts: seq<Token>, caret: nat, text: string)
    requires Rising(ts) && Tiling(ts, text, 0) && caret <= |text| && WellNamed(o.clauses)
    ensures var (lo, hi) := QueryRound(o, ts, caret);
            var place := ClauseOffset(o, ts, caret);
            && (forall k | lo <= k < hi && IsFollowing(o, ts, lo, hi, caret, k) && caret <= ts[k].start ::
                  place <= ts[k].start)
            && (forall k | lo <= k < hi && place <= ts[k].start && !IsTrivia(ts[k]) ::
                  exists j :: lo <= j <= k && IsFollowing(o, ts, lo, hi, caret, j))
            && (place == caret
                || (exists k :: 0 <= k < hi && !IsTrivia(ts[k]) && ts[k].end == place
                                && forall j | lo <= j <= k :: !IsFollowing(o, ts, lo, hi, caret, j))
                || (exists k :: lo <= k < hi && ts[k].start == place && IsFollowing(o, ts, lo, hi, caret, k)
                                && forall j | 0 <= j < k :: IsTrivia(ts[j])))
  {
    hide ListEnd, QueryRound, Rising, Tiling, LaterClause, BaseDepth, IsFollowing, WellNamed;
    var (lo, hi) := QueryRound(o, ts, caret);
    var depth, place := BaseDepth(ts, lo, hi), ClauseOffset(o, ts, caret);
    var next := NextClause(o, ts, lo, hi, depth, caret);
    ListEndFits(o, ts, lo, hi, caret, text);
    forall k | lo <= k < hi ensures LaterClause(o, ts, k, hi, depth, caret) <==> IsFollowing(o, ts, lo, hi, caret, k) {
      LaterIsFollowing(o, ts, lo, hi, caret, k);
    }
    forall k | lo <= k < hi && place <= ts[k].start && !IsTrivia(ts[k])
      ensures exists j :: lo <= j <= k && IsFollowing(o, ts, lo, hi, caret, j)
    {
      assert next <= k && IsFollowing(o, ts, lo, hi, caret, next);
    }
    if place != caret {
      if k :| 0 <= k < next && !IsTrivia(ts[k]) && ts[k].end == place {
        assert k < hi;
      } else {
        if next == hi {
          NothingBefore(o, ts, lo, hi, caret);
        }
        assert ts[next].start == place;
      }
    }
  }

  /** With no clause following and only trivia in front, the list ends at the caret. */
  lemma NothingBefore(o: Openers, ts: seq<Token>, lo: nat, hi: nat, caret: nat)
    requires lo <= hi <= |ts| && NextClause(o, ts, lo, hi, BaseDepth(ts, lo, hi), caret) == hi
    requires forall k | 0 <= k < hi :: IsTrivia(ts[k])
    ensures ListEnd(o, ts, lo, hi, caret) == caret
  {
    hide LaterClause, BaseDepth;
  }

  /** The first token inside the paren that is not trivia begins a clause that opens a statement. */
  ghost predicate OpensAStatement(o: Openers, ts: seq<Token>, open: nat, hi: nat) {
    exists k: nat, p, at ::
      && open < k < hi <= |ts| && OnlyTrivia(ts, open + 1, k)
      && Begins(o.unicode, o.clauses, ts, k, hi, p, at) && p.name in o.statementStart
  }

  /** What is taken for a query in a paren is a paren with a statement written first in it. */
  lemma StatementsOpenQueries(o: Openers, ts: seq<Token>, open: nat, hi: nat)
    requires open < hi <= |ts| && WellNamed(o.clauses)
    ensures HoldsAQuery(o, ts, open, hi) <==> OpensAStatement(o, ts, open, hi)
  {
    hide FirstSpelled, Begins, WellNamed;
    var first := SkipForward(ts, open + 1, hi);
    FirstSpelledBegins(o.unicode, ts, first, hi, o.clauses);
    if HoldsAQuery(o, ts, open, hi) {
      var p := FirstSpelled(o.unicode, ts, first, hi, o.clauses).value.0;
      var at :| Begins(o.unicode, o.clauses, ts, first, hi, p, at);
      BegunStands(o.unicode, ts, first, hi, o.clauses, p, at);
      assert OnlyTrivia(ts, open + 1, first);
    }
    forall k: nat, p, at |
        open < k < hi && OnlyTrivia(ts, open + 1, k) && Begins(o.unicode, o.clauses, ts, k, hi, p, at)
      ensures k == first
    {
      BegunStands(o.unicode, ts, k, hi, o.clauses, p, at);
      FirstIs(ts, open + 1, k, hi);
    }
  }
}
