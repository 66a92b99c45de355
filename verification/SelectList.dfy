/** Where a FROM clause belongs when the statement has none (analyse.py, `select_list_end`). */
module SelectList {
  import opened Text
  import opened Lexer
  import opened Parens
  import opened Clauses
  import opened Quoting
  import opened Scanning
  import opened Branches
  import Documents

  /** What the scan needs of a dialect: its clauses, and the names of those that open a statement. */
  datatype Openers = Openers(unicode: Unicode, clauses: seq<Phrase>, statementStart: set<string>)

  function Latest(a: nat, b: nat): (m: nat)
    ensures m >= a && m >= b && (m == a || m == b)
  {
    if a < b then b else a
  }

  // ------------------------------------------------------------ the caret's own query

  /** How many tokens from `k` on start before the caret, `k` included in the count. */
  function Started(ts: seq<Token>, caret: nat, k: nat): (n: nat)
    requires k <= |ts|
    ensures k <= n <= |ts| && (forall i | k <= i < n :: ts[i].start < caret) && (n < |ts| ==> ts[n].start >= caret)
    decreases |ts| - k
  {
    if k < |ts| && ts[k].start < caret then Started(ts, caret, k + 1) else k
  }

  /** `_index_before`, as a count. */
  method StartedBefore(ts: seq<Token>, caret: nat) returns (n: nat)
    ensures n == Started(ts, caret, 0)
  {
    n := 0;
    while n < |ts| && ts[n].start < caret
      invariant n <= |ts| && Started(ts, caret, n) == Started(ts, caret, 0)
    {
      n := n + 1;
    }
  }

  /** `depth_at`. */
  function Depth(ts: seq<Token>, caret: nat): nat {
    var n := Started(ts, caret, 0);
    if n == 0 then 0
    else if Opens(ts[n - 1]) && ts[n - 1].end <= caret then ts[n - 1].depth + 1
    else ts[n - 1].depth
  }

  /** Just past the last paren at `depth` among the first `n` tokens, or 0. */
  function LastOpen(ts: seq<Token>, n: nat, depth: nat): (group: nat)
    requires n <= |ts|
    ensures group <= n && (group > 0 ==> Opens(ts[group - 1]) && ts[group - 1].depth == depth)
  {
    if n == 0 || (Opens(ts[n - 1]) && ts[n - 1].depth == depth) then n else LastOpen(ts, n - 1, depth)
  }

  /** `_group_start`, for a depth above zero. */
  method GroupStart(ts: seq<Token>, caret: nat, depth: nat) returns (group: nat)
    requires depth > 0
    ensures group == LastOpen(ts, Started(ts, caret, 0), depth - 1)
  {
    group := StartedBefore(ts, caret);
    while group > 0 && !(Opens(ts[group - 1]) && ts[group - 1].depth == depth - 1)
      invariant group <= |ts| && LastOpen(ts, group, depth - 1) == LastOpen(ts, Started(ts, caret, 0), depth - 1)
    {
      group := group - 1;
    }
  }

  /** `_opens_a_query`: whether a statement begins right after the paren at `open`. */
  predicate OpensAQuery(o: Openers, ts: seq<Token>, open: nat, hi: nat)
    requires hi <= |ts|
  {
    var found := FirstSpelled(o.unicode, ts, open + 1, hi, o.clauses);
    found.Some? && found.value.0.name in o.statementStart
  }

  /** What the loop settles on: a group round the caret, at `depth` or shallower, or the span itself. */
  function Window(o: Openers, ts: seq<Token>, caret: nat, lo: nat, hi: nat, depth: nat): (w: (nat, nat))
    requires lo <= hi <= |ts|
    ensures lo <= w.0 <= w.1 <= hi
  {
    if depth == 0 then (lo, hi)
    else
      var group := LastOpen(ts, Started(ts, caret, 0), depth - 1);
      if lo < group <= hi && OpensAQuery(o, ts, group - 1, hi) then
        (group, ClosingAt(ts, ts[group - 1].depth, group, hi))
      else Window(o, ts, caret, lo, hi, depth - 1)
  }

  /** The loop of `select_list_end` that steps outward to a query. */
  method FindWindow(o: Openers, ts: seq<Token>, caret: nat, lo: nat, hi: nat) returns (wlo: nat, whi: nat)
    requires DepthsCount(ts) && lo <= hi <= |ts| && Started(ts, caret, 0) <= hi
    ensures (wlo, whi) == Window(o, ts, caret, lo, hi, Depth(ts, caret))
  {
    hide DepthsCount, FirstSpelled, Level, CountBefore, ClosingAt, LastOpen, Started;
    var grouped := ByFirstWord(o.clauses);
    var depth := Depth(ts, caret);
    while depth > 0
      invariant Window(o, ts, caret, lo, hi, depth) == Window(o, ts, caret, lo, hi, Depth(ts, caret))
    {
      var group := GroupStart(ts, caret, depth);
      if group > lo {
        var matched := ScanClauseStart(o.unicode, ts, group, hi, o.clauses, grouped);
        if matched.Some? && matched.value.0.name in o.statementStart {
          var close := MatchingParen(ts, group - 1, hi);
          return group, close;
        }
      }
      depth := depth - 1;
    }
    return lo, hi;
  }

  /** The branch of the caret's statement. */
  function BranchRound(o: Openers, ts: seq<Token>, caret: nat): (b: (nat, nat))
    ensures b.0 <= b.1 <= |ts|
  {
    var (lo, hi) := Documents.StatementOf(ts, caret);
    BranchOf(o.unicode, ts, lo, hi, caret)
  }

  /** The query `select_list_end` takes for the caret's; `IsCaretsQuery` tells when it is. */
  function QueryRound(o: Openers, ts: seq<Token>, caret: nat): (w: (nat, nat))
    ensures w.0 <= w.1 <= |ts|
  {
    var (lo, hi) := BranchRound(o, ts, caret);
    Window(o, ts, caret, lo, hi, Depth(ts, caret))
  }

  lemma BranchHoldsStarted(o: Openers, ts: seq<Token>, caret: nat)
    requires Rising(ts)
    ensures var b := BranchRound(o, ts, caret); b.0 <= Started(ts, caret, 0) <= b.1
  {
    hide BaseDepth, IsSetOperator, Branch, Started, Documents.IsSemicolon, Documents.Cut;
    var (lo, hi) := Documents.StatementOf(ts, caret);
    Documents.CutIsStatement(ts, caret, 0, 0);
    BranchIs(o.unicode, ts, lo, lo, hi, BaseDepth(ts, lo, hi), caret);
  }

  /** `statement_at` and `_branch_at`. */
  method FindBranch(o: Openers, ts: seq<Token>, caret: nat) returns (lo: nat, hi: nat)
    ensures (lo, hi) == BranchRound(o, ts, caret)
  {
    hide BranchOf, Documents.Cut;
    var slo, shi := Documents.StatementAt(ts, caret);
    lo, hi := BranchAt(o.unicode, ts, slo, shi, caret);
  }

  ghost predicate IsBranchIn(o: Openers, ts: seq<Token>, slo: nat, shi: nat, caret: nat, lo: nat, hi: nat) {
    shi <= |ts| && IsBranch(ts, Operators(o.unicode, ts, slo, shi), slo, shi, caret, lo, hi)
  }

  /** What the branch is: in the caret's statement, bounded by its own set operators round the caret, and no other. */
  lemma BranchRoundIs(o: Openers, ts: seq<Token>, caret: nat, lo: nat, hi: nat)
    requires Rising(ts)
    ensures (lo, hi) == BranchRound(o, ts, caret)
       <==> exists slo: nat, shi: nat ::
              Documents.IsStatementAt(ts, caret, slo, shi) && IsBranchIn(o, ts, slo, shi, caret, lo, hi)
  {
    hide BranchOf, IsBranch, Operators, Documents.Cut, Documents.IsStatementAt;
    var (slo, shi) := Documents.StatementOf(ts, caret);
    Documents.CutIsStatement(ts, caret, 0, 0);
    assert Documents.IsStatementAt(ts, caret, slo, shi);
    OneBranch(o.unicode, ts, slo, shi, caret, lo, hi);
    forall slo': nat, shi': nat |
        Documents.IsStatementAt(ts, caret, slo', shi') && IsBranchIn(o, ts, slo', shi', caret, lo, hi)
      ensures slo' == slo && shi' == shi
    {
      Documents.BoundsInOrder(ts, caret, slo, shi, slo', shi');
      Documents.BoundsInOrder(ts, caret, slo', shi', slo, shi);
    }
  }

  // ------------------------------------------------- the caret is inside its query

  /** A paren that stands open where `d` parens do: the last one at depth `d - 1`. */
  lemma {:induction false} LastOpenStandsOpen(ts: seq<Token>, n: nat, d: nat)
    requires DepthsCount(ts) && n <= |ts| && 0 < d <= CountBefore(ts, n)
    ensures var g := LastOpen(ts, n, d - 1); g > 0 && Level(ts, g - 1, n) > 0
  {
    hide DepthsCount;
    var t := ts[n - 1];
    LastDepth(ts, n);
    if !(Opens(t) && t.depth == d - 1) {
      LastOpenStandsOpen(ts, n - 1, d);
      var g := LastOpen(ts, n - 1, d - 1);
      if Closes(t) {
        LevelIsDepth(ts, g - 1, n - 1);
      }
    }
  }

  lemma LastDepth(ts: seq<Token>, n: nat)
    requires DepthsCount(ts) && 0 < n <= |ts|
    ensures ts[n - 1].depth == if Closes(ts[n - 1]) then Outer(CountBefore(ts, n - 1)) else CountBefore(ts, n - 1)
  {
  }

  /** The caret's depth is how many parens stand open before it. */
  lemma DepthCounts(ts: seq<Token>, caret: nat, text: string)
    requires DepthsCount(ts) && Tiling(ts, text, 0)
    ensures Depth(ts, caret) == CountBefore(ts, Started(ts, caret, 0))
  {
    hide DepthsCount;
    var n := Started(ts, caret, 0);
    if n > 0 {
      LastDepth(ts, n);
      assert Covers(ts[n - 1], text, 0);
    }
  }

  /** A group that stands open at the caret closes, if at all, no earlier. */
  lemma OpenGroupHoldsTheCaret(ts: seq<Token>, g: nat, n: nat, hi: nat)
    requires DepthsCount(ts) && 0 < g <= n <= hi <= |ts| && Opens(ts[g - 1]) && Level(ts, g - 1, n) > 0
    ensures n <= ClosingAt(ts, ts[g - 1].depth, g, hi)
  {
    hide DepthsCount, CountBefore, Level;
    InsideFromItsFirst(ts, g - 1);
    ClosingMatches(ts, g - 1, g, hi);
    var close := ClosingAt(ts, ts[g - 1].depth, g, hi);
    if close < n {
      ClosedAfter(ts, g - 1, close);
      LevelStaysZero(ts, g - 1, close + 1, n);
    }
  }

  lemma ClosedAfter(ts: seq<Token>, i: nat, p: nat)
    requires Partners(ts, i, p)
    ensures Level(ts, i, p + 1) == 0
  {
  }

  // --------------------------------------------------------- the caret's query, independently

  /** A statement begins inside the paren at `open`, with any trivia before it. */
  predicate HoldsAQuery(o: Openers, ts: seq<Token>, open: nat, hi: nat)
    requires hi <= |ts|
  {
    var found := FirstSpelled(o.unicode, ts, SkipForward(ts, open + 1, hi), hi, o.clauses);
    found.Some? && found.value.0.name in o.statementStart
  }

  /** The parens from `lo` on that stand open before the token `n` and hold a query. */
  function QueriesOpen(o: Openers, ts: seq<Token>, n: nat, lo: nat, hi: nat): set<nat>
    requires n <= hi <= |ts|
  {
    set g: nat | lo <= g < n && Dangles(ts, g, n) && HoldsAQuery(o, ts, g, hi)
  }

  /** Those of them behind which a statement begins at once. */
  function QueriesSeen(o: Openers, ts: seq<Token>, n: nat, lo: nat, hi: nat): set<nat>
    requires n <= hi <= |ts|
  {
    set g: nat | lo <= g < n && Dangles(ts, g, n) && OpensAQuery(o, ts, g, hi)
  }

  /** The span inside the last of these parens, up to its partner if it has one there; with no paren, the whole span. */
  ghost predicate IsInnermost(ts: seq<Token>, parens: set<nat>, lo: nat, hi: nat, w: (nat, nat)) {
    if parens == {} then w == (lo, hi)
    else
      && 0 < w.0 <= w.1 <= hi && w.0 - 1 in parens && (forall g | g in parens :: g < w.0)
      && if w.1 < hi then Partners(ts, w.0 - 1, w.1) else Dangles(ts, w.0 - 1, hi)
  }

  lemma OneInnermost(ts: seq<Token>, parens: set<nat>, lo: nat, hi: nat, w: (nat, nat), w': (nat, nat))
    requires hi <= |ts| && IsInnermost(ts, parens, lo, hi, w) && IsInnermost(ts, parens, lo, hi, w')
    ensures w == w'
  {
    hide Level;
    if parens != {} {
      assert w.0 - 1 < w'.0 && w'.0 - 1 < w.0;
      if w.1 < hi || w'.1 < hi {
        DanglesOrPartners(ts, w.0 - 1, hi);
      }
    }
  }

  /** Of the parens standing open at the caret, the one at a depth is the last there at that depth. */
  lemma OpenIsLast(ts: seq<Token>, n: nat, g: nat)
    requires DepthsCount(ts) && n <= |ts| && Dangles(ts, g, n)
    ensures ts[g].depth < CountBefore(ts, n) && LastOpen(ts, n, ts[g].depth) == g + 1
    ensures forall k | g < k < n :: ts[k].depth > ts[g].depth
  {
    hide DepthsCount, CountBefore;
    LevelIsDepth(ts, g, n);
    InsideUpTo(ts, g, n);
    LastOpenAt(ts, n, g);
  }

  lemma {:induction false} InsideUpTo(ts: seq<Token>, g: nat, n: nat)
    requires DepthsCount(ts) && Dangles(ts, g, n)
    ensures Inside(ts, g, n)
    decreases n
  {
    hide DepthsCount, CountBefore;
    if n > g + 1 {
      InsideUpTo(ts, g, n - 1);
      InsideStep(ts, g, n - 1);
      if Partners(ts, g, n - 1) {
        ClosedAfter(ts, g, n - 1);
      }
    }
  }

  lemma {:induction false} LastOpenAt(ts: seq<Token>, n: nat, g: nat)
    requires g < n <= |ts| && Opens(ts[g]) && forall k | g < k < n :: ts[k].depth > ts[g].depth
    ensures LastOpen(ts, n, ts[g].depth) == g + 1
  {
    if g + 1 < n {
      LastOpenAt(ts, n - 1, g);
    }
  }

  /** The parens the loop has still to look at: those less deep than it has come. */
  function Shallower(ts: seq<Token>, parens: set<nat>, depth: nat): set<nat> {
    set g | g in parens && g < |ts| && ts[g].depth < depth
  }

  /** At one depth there is one paren to look at, the last. */
  lemma OneAtADepth(o: Openers, ts: seq<Token>, n: nat, lo: nat, hi: nat, depth: nat)
    requires DepthsCount(ts) && lo <= n <= hi <= |ts| && 0 < depth <= CountBefore(ts, n)
    ensures var group := LastOpen(ts, n, depth - 1);
            var seen := QueriesSeen(o, ts, n, lo, hi);
            && 0 < group <= n && Dangles(ts, group - 1, n)
            && (forall g | g in seen && ts[g].depth == depth - 1 :: g == group - 1)
            && (group - 1 in seen <==> lo < group && OpensAQuery(o, ts, group - 1, hi))
            && (group - 1 in seen ==> forall g | g in seen && ts[g].depth < depth :: g < group)
  {
    hide DepthsCount, CountBefore, Level, OpensAQuery;
    LastOpenStandsOpen(ts, n, depth);
    var group := LastOpen(ts, n, depth - 1);
    assert Dangles(ts, group - 1, n);
    OpenIsLast(ts, n, group - 1);
    forall g | g in QueriesSeen(o, ts, n, lo, hi) ensures ts[g].depth == depth - 1 ==> g == group - 1 {
      OpenIsLast(ts, n, g);
    }
  }

  lemma EndsAtItsPartner(ts: seq<Token>, g: nat, hi: nat)
    requires DepthsCount(ts) && g < hi <= |ts| && Opens(ts[g])
    ensures var close := ClosingAt(ts, ts[g].depth, g + 1, hi);
            if close < hi then Partners(ts, g, close) else Dangles(ts, g, hi)
  {
    hide DepthsCount, Level;
    InsideFromItsFirst(ts, g);
    ClosingMatches(ts, g, g + 1, hi);
  }

  /** Stepping outward meets the innermost of the parens it accepts. */
  lemma {:induction false} WindowIsInnermost(o: Openers, ts: seq<Token>, caret: nat, lo: nat, hi: nat, depth: nat)
    requires DepthsCount(ts) && lo <= Started(ts, caret, 0) <= hi <= |ts|
    requires depth <= CountBefore(ts, Started(ts, caret, 0))
    ensures IsInnermost(ts, Shallower(ts, QueriesSeen(o, ts, Started(ts, caret, 0), lo, hi), depth), lo, hi,
                        Window(o, ts, caret, lo, hi, depth))
  {
    hide DepthsCount, CountBefore, Level, OpensAQuery, Started, LastOpen, ClosingAt, QueriesSeen, Dangles, Partners;
    var n := Started(ts, caret, 0);
    var seen := QueriesSeen(o, ts, n, lo, hi);
    if depth > 0 {
      var group := LastOpen(ts, n, depth - 1);
      OneAtADepth(o, ts, n, lo, hi, depth);
      if group - 1 in seen {
        assert group - 1 in Shallower(ts, seen, depth);
        EndsAtItsPartner(ts, group - 1, hi);
      } else {
        assert Shallower(ts, seen, depth) == Shallower(ts, seen, depth - 1);
        WindowIsInnermost(o, ts, caret, lo, hi, depth - 1);
      }
    }
  }

  /**
   The query found is the span inside the last paren standing open at the caret behind which a
   statement begins at once; the branch when there is none.
   */
  lemma QueryFoundIsInnermost(o: Openers, ts: seq<Token>, caret: nat, text: string)
    requires DepthsCount(ts) && Rising(ts) && Tiling(ts, text, 0)
    ensures var (lo, hi) := BranchRound(o, ts, caret);
            var n := Started(ts, caret, 0);
            n <= hi && IsInnermost(ts, QueriesSeen(o, ts, n, lo, hi), lo, hi, QueryRound(o, ts, caret))
  {
    hide DepthsCount, Rising, Tiling, Started, Window, CountBefore, Depth, IsInnermost, OpensAQuery, Level;
    BranchHoldsStarted(o, ts, caret);
    DepthCounts(ts, caret, text);
    var (lo, hi) := BranchRound(o, ts, caret);
    var n := Started(ts, caret, 0);
    var seen := QueriesSeen(o, ts, n, lo, hi);
    WindowIsInnermost(o, ts, caret, lo, hi, Depth(ts, caret));
    forall g | g in seen ensures ts[g].depth < CountBefore(ts, n) {
      OpenIsLast(ts, n, g);
    }
    assert Shallower(ts, seen, Depth(ts, caret)) == seen;
  }

  /** The query found is round the caret: it begins before all tokens past the caret and ends after all before it. */
  lemma QueryHoldsTheCaret(o: Openers, ts: seq<Token>, caret: nat, text: string)
    requires DepthsCount(ts) && Rising(ts) && Tiling(ts, text, 0)
    ensures var w := QueryRound(o, ts, caret); w.0 <= Started(ts, caret, 0) <= w.1
  {
    hide DepthsCount, Rising, Tiling, Started, OpensAQuery, Level, QueryRound, BranchRound;
    BranchHoldsStarted(o, ts, caret);
    QueryFoundIsInnermost(o, ts, caret, text);
    var (lo, hi) := BranchRound(o, ts, caret);
    InnermostHolds(ts, QueriesSeen(o, ts, Started(ts, caret, 0), lo, hi), lo, hi, QueryRound(o, ts, caret),
                   Started(ts, caret, 0));
  }

  lemma InnermostHolds(ts: seq<Token>, parens: set<nat>, lo: nat, hi: nat, w: (nat, nat), n: nat)
    requires IsInnermost(ts, parens, lo, hi, w) && lo <= n <= hi && forall g | g in parens :: Dangles(ts, g, n)
    ensures w.0 <= n <= w.1
  {
    hide Level;
    if w.1 < n {
      ClosedAfter(ts, w.0 - 1, w.1);
      LevelStaysZero(ts, w.0 - 1, w.1 + 1, n);
    }
  }

  /** What stands right behind the paren is all the two ways of looking for a query differ in. */
  lemma SeenUnlessSpaced(o: Openers, ts: seq<Token>, open: nat, hi: nat)
    requires open < hi <= |ts|
    ensures OpensAQuery(o, ts, open, hi)
       <==> HoldsAQuery(o, ts, open, hi) && !(open + 1 < |ts| && IsTrivia(ts[open + 1]))
  {
    hide FirstSpelled;
    if open + 1 < |ts| && IsTrivia(ts[open + 1]) {
      NothingSpelled(o.unicode, ts, open + 1, hi, o.clauses);
    }
  }

  /** The query the caret is in: the span inside the last paren standing open there that holds one, or the branch. */
  ghost predicate IsCaretsQuery(o: Openers, ts: seq<Token>, caret: nat, w: (nat, nat)) {
    var (lo, hi) := BranchRound(o, ts, caret);
    var n := Started(ts, caret, 0);
    n <= hi && IsInnermost(ts, QueriesOpen(o, ts, n, lo, hi), lo, hi, w)
  }

  /** On every lexed text there is exactly one such query. */
  lemma CaretHasOneQuery(o: Openers, ts: seq<Token>, caret: nat)
    requires DepthsCount(ts) && Rising(ts)
    ensures exists w :: IsCaretsQuery(o, ts, caret, w)
    ensures forall w, w' | IsCaretsQuery(o, ts, caret, w) && IsCaretsQuery(o, ts, caret, w') :: w == w'
  {
    hide DepthsCount, Rising, Started, CountBefore, HoldsAQuery, Level, BranchRound, ClosingAt;
    BranchHoldsStarted(o, ts, caret);
    var (lo, hi) := BranchRound(o, ts, caret);
    var n := Started(ts, caret, 0);
    var parens := QueriesOpen(o, ts, n, lo, hi);
    if parens == {} {
      assert IsCaretsQuery(o, ts, caret, (lo, hi));
    } else {
      var g := Greatest(parens);
      EndsAtItsPartner(ts, g, hi);
      assert IsCaretsQuery(o, ts, caret, (g + 1, ClosingAt(ts, ts[g].depth, g + 1, hi)));
    }
    forall w, w' | IsCaretsQuery(o, ts, caret, w) && IsCaretsQuery(o, ts, caret, w') ensures w == w' {
      OneInnermost(ts, parens, lo, hi, w, w');
    }
  }

  lemma {:induction false} Greatest(s: set<nat>) returns (g: nat)
    requires s != {}
    ensures g in s && forall x | x in s :: x <= g
  {
    var one :| one in s;
    assert forall x | x in s :: x == one || x in s - {one};
    g := one;
    if s - {one} != {} {
      var h := Greatest(s - {one});
      g := Latest(one, h);
    }
  }

  /** The query found is the caret's exactly when that is the branch or begins with no trivia. */
  lemma QueryFoundIsTheCarets(o: Openers, ts: seq<Token>, caret: nat, text: string, w: (nat, nat))
    requires DepthsCount(ts) && Rising(ts) && Tiling(ts, text, 0) && IsCaretsQuery(o, ts, caret, w)
    ensures QueryRound(o, ts, caret) == w <==> w == BranchRound(o, ts, caret) || !(w.0 < |ts| && IsTrivia(ts[w.0]))
  {
    hide DepthsCount, Rising, Tiling, Started, CountBefore, OpensAQuery, HoldsAQuery, Level, QueryRound, BranchRound;
    QueryFoundIsInnermost(o, ts, caret, text);
    var (lo, hi) := BranchRound(o, ts, caret);
    var n, found := Started(ts, caret, 0), QueryRound(o, ts, caret);
    var seen, held := QueriesSeen(o, ts, n, lo, hi), QueriesOpen(o, ts, n, lo, hi);
    forall g: nat | g < n
      ensures OpensAQuery(o, ts, g, hi)
         <==> HoldsAQuery(o, ts, g, hi) && !(g + 1 < |ts| && IsTrivia(ts[g + 1]))
    {
      SeenUnlessSpaced(o, ts, g, hi);
    }
    assert seen <= held;
    if held != {} && w.0 - 1 in seen {
      assert IsInnermost(ts, seen, lo, hi, w);
      OneInnermost(ts, seen, lo, hi, w, found);
    }
  }

  // --------------------------------------------------------------- the list's end

  /** A clause other than SELECT begins at `k`, at the query's own depth, and does not end before the caret. */
  predicate LaterClause(o: Openers, ts: seq<Token>, k: nat, hi: nat, depth: nat, caret: nat)
    requires k < hi <= |ts|
  {
    var found := FirstSpelled(o.unicode, ts, k, hi, o.clauses);
    !IsTrivia(ts[k]) && ts[k].depth == depth && ts[k].end > caret && found.Some? && found.value.0.name != "SELECT"
  }

  /** The first later clause from `k` on, or `hi`. */
  function NextClause(o: Openers, ts: seq<Token>, k: nat, hi: nat, depth: nat, caret: nat): (r: nat)
    requires k <= hi <= |ts|
    ensures k <= r <= hi && (r < hi ==> LaterClause(o, ts, r, hi, depth, caret))
    ensures forall i | k <= i < r :: !LaterClause(o, ts, i, hi, depth, caret)
    decreases hi - k
  {
    if k == hi || LaterClause(o, ts, k, hi, depth, caret) then k else NextClause(o, ts, k + 1, hi, depth, caret)
  }

  /** The end of the last token before `count` that is not trivia, never below the caret. */
  function EndBefore(ts: seq<Token>, count: nat, otherwise: nat, caret: nat): (at: nat)
    requires count <= |ts|
    ensures at >= caret
  {
    var n := Trimmed(ts, count);
    Latest(if n > 0 then ts[n - 1].end else otherwise, caret)
  }

  /** Where a FROM goes in a query's window. */
  function ListEnd(o: Openers, ts: seq<Token>, lo: nat, hi: nat, caret: nat): (at: nat)
    requires lo <= hi <= |ts|
    ensures at >= caret
  {
    var index := NextClause(o, ts, lo, hi, BaseDepth(ts, lo, hi), caret);
    if index < hi then EndBefore(ts, index, ts[index].start, caret)
    else if Trimmed(ts, hi) > lo then Latest(ts[Trimmed(ts, hi) - 1].end, caret)
    else caret
  }

  /** The scan of `select_list_end` over its window. */
  method ScanList(o: Openers, ts: seq<Token>, lo: nat, hi: nat, caret: nat) returns (at: nat)
    requires lo <= hi <= |ts|
    ensures at == ListEnd(o, ts, lo, hi, caret)
  {
    hide FirstSpelled, BaseDepth;
    var grouped := ByFirstWord(o.clauses);
    var depth := BaseDepth(ts, lo, hi);
    for index := lo to hi
      invariant NextClause(o, ts, index, hi, depth, caret) == NextClause(o, ts, lo, hi, depth, caret)
    {
      if !IsTrivia(ts[index]) && ts[index].depth == depth && ts[index].end > caret {
        var matched := ScanClauseStart(o.unicode, ts, index, hi, o.clauses, grouped);
        if matched.Some? && matched.value.0.name != "SELECT" {
          var n := SkipBack(ts, index);
          return Latest(if n > 0 then ts[n - 1].end else ts[index].start, caret);
        }
      }
    }
    var n := SkipBack(ts, hi);
    at := if n > lo then Latest(ts[n - 1].end, caret) else caret;
  }

  /** Where the FROM of the caret's query goes. */
  function ClauseOffset(o: Openers, ts: seq<Token>, caret: nat): nat {
    var (lo, hi) := QueryRound(o, ts, caret);
    ListEnd(o, ts, lo, hi, caret)
  }

  /** `select_list_end`. */
  method SelectListEnd(o: Openers, ts: seq<Token>, caret: nat) returns (at: nat)
    requires DepthsCount(ts) && Rising(ts)
    ensures at == ClauseOffset(o, ts, caret)
  {
    hide DepthsCount, Rising, ListEnd, Window, Depth, Started;
    var lo, hi := FindBranch(o, ts, caret);
    BranchHoldsStarted(o, ts, caret);
    var wlo, whi := FindWindow(o, ts, caret, lo, hi);
    at := ScanList(o, ts, wlo, whi, caret);
  }

  /** A token before `next` that is not trivia ends at `at`, or there is none and `next` starts there. */
  predicate IsBehind(ts: seq<Token>, next: nat, at: nat)
    requires next <= |ts|
  {
    || (exists k | 0 <= k < next :: !IsTrivia(ts[k]) && ts[k].end == at)
    || (next < |ts| && ts[next].start == at && forall k | 0 <= k < next :: IsTrivia(ts[k]))
  }

  /**
   The clause goes at or past the caret and inside the text, before every later clause of the caret's
   query that starts past the caret, with nothing but trivia left between the two; and no further on
   than that takes: at the caret itself, right behind a token that is not trivia, or, where only trivia
   stands before the later clause, at that clause.
   */
  lemma ClauseOffsetFits(o: Openers, ts: seq<Token>, caret: nat, text: string)
    requires Rising(ts) && Tiling(ts, text, 0) && caret <= |text|
    ensures caret <= ClauseOffset(o, ts, caret) <= |text|
    ensures var (lo, hi) := QueryRound(o, ts, caret);
            var next := NextClause(o, ts, lo, hi, BaseDepth(ts, lo, hi), caret);
            && (forall k | lo <= k < hi && caret <= ts[k].start < ClauseOffset(o, ts, caret) ::
                  !LaterClause(o, ts, k, hi, BaseDepth(ts, lo, hi), caret))
            && (forall k | lo <= k < next && ClauseOffset(o, ts, caret) <= ts[k].start :: IsTrivia(ts[k]))
            && (ClauseOffset(o, ts, caret) == caret || IsBehind(ts, next, ClauseOffset(o, ts, caret)))
  {
    hide ListEnd, QueryRound, Rising, Tiling;
    var (lo, hi) := QueryRound(o, ts, caret);
    ListEndFits(o, ts, lo, hi, caret, text);
  }

  lemma ListEndFits(o: Openers, ts: seq<Token>, lo: nat, hi: nat, caret: nat, text: string)
    requires Rising(ts) && Tiling(ts, text, 0) && caret <= |text| && lo <= hi <= |ts|
    ensures caret <= ListEnd(o, ts, lo, hi, caret) <= |text|
    ensures forall k | lo <= k < hi && caret <= ts[k].start < ListEnd(o, ts, lo, hi, caret) ::
              !LaterClause(o, ts, k, hi, BaseDepth(ts, lo, hi), caret)
    ensures var next := NextClause(o, ts, lo, hi, BaseDepth(ts, lo, hi), caret);
            && (forall k | lo <= k < next && ListEnd(o, ts, lo, hi, caret) <= ts[k].start :: IsTrivia(ts[k]))
            && (ListEnd(o, ts, lo, hi, caret) == caret || IsBehind(ts, next, ListEnd(o, ts, lo, hi, caret)))
  {
    hide LaterClause, BaseDepth, NextClause, Trimmed, Tiling;
    var depth, at := BaseDepth(ts, lo, hi), ListEnd(o, ts, lo, hi, caret);
    var next := NextClause(o, ts, lo, hi, depth, caret);
    var n := Trimmed(ts, next);
    TokensInText(ts, text);
    forall k | lo <= k < hi && caret <= ts[k].start < at ensures !LaterClause(o, ts, k, hi, depth, caret) {
      if k >= next && n > 0 {
        Apart(ts, text, n - 1, k);
      }
    }
    assert forall k | lo <= k < n :: ts[k].start <= ts[n - 1].start < at;
  }

  lemma TokensInText(ts: seq<Token>, text: string)
    requires Tiling(ts, text, 0)
    ensures forall k | 0 <= k < |ts| :: ts[k].start < ts[k].end <= |text|
  {
    assert forall k | 0 <= k < |ts| :: Covers(ts[k], text, 0);
  }

  /** An earlier token ends no later than a later one starts. */
  lemma {:induction false} Apart(ts: seq<Token>, text: string, i: nat, j: nat)
    requires Tiling(ts, text, 0) && i < j < |ts|
    ensures ts[i].end <= ts[j].start
    decreases j
  {
    if i < j - 1 {
      Apart(ts, text, i, j - 1);
      assert Covers(ts[j - 1], text, 0);
    }
  }

  // ----------------------------------------------------- whose query the clause goes to

  /** A clause placed in a window stands before the token that ends the window. */
  lemma ListEndsInside(o: Openers, ts: seq<Token>, lo: nat, hi: nat, caret: nat, text: string)
    requires Rising(ts) && Tiling(ts, text, 0) && lo <= hi < |ts| && Started(ts, caret, 0) <= hi
    ensures ListEnd(o, ts, lo, hi, caret) <= ts[hi].start
  {
    hide LaterClause, BaseDepth, Tiling, NextClause, Trimmed, Started;
    var n := Trimmed(ts, NextClause(o, ts, lo, hi, BaseDepth(ts, lo, hi), caret));
    if n > 0 {
      Apart(ts, text, n - 1, hi);
    }
  }

  /** A paren standing open at the caret ends no later than the caret, and so does all before it. */
  lemma OpensBeforeTheCaret(ts: seq<Token>, caret: nat, text: string, g: nat, k: nat)
    requires Tiling(ts, text, 0) && k <= g < Started(ts, caret, 0) && Opens(ts[g])
    ensures ts[k].end <= caret
  {
    hide Tiling;
    assert Covers(ts[g], text, 0) by { TilesCover(ts, text, g); }
    if k < g {
      Apart(ts, text, k, g);
    }
  }

  lemma TilesCover(ts: seq<Token>, text: string, k: nat)
    requires Tiling(ts, text, 0) && k < |ts|
    ensures Covers(ts[k], text, 0)
  {
  }

  /** Inside a group round the caret no clause of a level further out begins before the group has closed. */
  lemma NoClauseInside(o: Openers, ts: seq<Token>, caret: nat, text: string, lo: nat, hi: nat, g: nat, close: nat,
                       k: nat)
    requires DepthsCount(ts) && Tiling(ts, text, 0) && lo <= g < Started(ts, caret, 0) && k <= close < hi <= |ts|
    requires lo <= k && Partners(ts, g, close)
    ensures !LaterClause(o, ts, k, hi, BaseDepth(ts, lo, hi), caret)
  {
    hide DepthsCount, Tiling, Level, BaseDepth, FirstSpelled, Started, CountBefore;
    if k <= g {
      OpensBeforeTheCaret(ts, caret, text, g, k);
    } else if k < close {
      InsideUpTo(ts, g, close);
      BaseIsLeast(ts, lo, hi, g);
    } else {
      NothingSpelled(o.unicode, ts, k, hi, o.clauses);
    }
  }

  /** So a clause placed in a window round a closed group goes behind the group. */
  lemma ListEndsBehind(o: Openers, ts: seq<Token>, caret: nat, text: string, lo: nat, hi: nat, g: nat, close: nat)
    requires DepthsCount(ts) && Tiling(ts, text, 0) && lo <= g < Started(ts, caret, 0) && close < hi <= |ts|
    requires Partners(ts, g, close)
    ensures ListEnd(o, ts, lo, hi, caret) >= ts[close].end
  {
    hide DepthsCount, Tiling, Level, BaseDepth, LaterClause, Started, Trimmed, NextClause;
    var next := NextClause(o, ts, lo, hi, BaseDepth(ts, lo, hi), caret);
    if next < hi && next <= close {
      NoClauseInside(o, ts, caret, text, lo, hi, g, close, next);
    }
    var n := Trimmed(ts, next);
    assert close < n;
    if close < n - 1 {
      Apart(ts, text, close, n - 1);
      TokensInText(ts, text);
    }
  }

  /** Of two parens open at one place the outer closes behind the inner. */
  lemma OuterClosesLater(ts: seq<Token>, n: nat, outer: nat, end: nat, g: nat, close: nat)
    requires DepthsCount(ts) && outer < g && Dangles(ts, outer, n) && Dangles(ts, g, n)
    requires n <= end && Partners(ts, outer, end) && Partners(ts, g, close)
    ensures close < end
  {
    hide DepthsCount, Level, CountBefore;
    OpenIsLast(ts, n, outer);
    InsideUpTo(ts, g, close);
    OpenStep(ts, g, close);
    OpenStep(ts, outer, end);
  }

  /**
   Where the caret's query is closed, the clause goes into it exactly when no trivia stands right behind
   its paren; otherwise behind the paren that closes it, in a query further out.
   */
  lemma ClauseLandsInTheQuery(o: Openers, ts: seq<Token>, caret: nat, text: string, w: (nat, nat))
    requires DepthsCount(ts) && Rising(ts) && Tiling(ts, text, 0)
    requires IsCaretsQuery(o, ts, caret, w) && w.1 < BranchRound(o, ts, caret).1
    ensures if IsTrivia(ts[w.0]) then ts[w.1].end <= ClauseOffset(o, ts, caret)
            else caret <= ClauseOffset(o, ts, caret) <= ts[w.1].start
  {
    hide DepthsCount, Rising, Tiling, Started, HoldsAQuery, OpensAQuery, Level, QueryRound, BranchRound, ListEnd;
    QueryFoundIsTheCarets(o, ts, caret, text, w);
    QueryHoldsTheCaret(o, ts, caret, text);
    var f := QueryRound(o, ts, caret);
    if IsTrivia(ts[w.0]) {
      FoundIsRound(o, ts, caret, text, w);
      ListEndsBehind(o, ts, caret, text, f.0, f.1, w.0 - 1, w.1);
    } else {
      ListEndsInside(o, ts, w.0, w.1, caret, text);
    }
  }

  /** A query found that is not the caret's is round it. */
  lemma FoundIsRound(o: Openers, ts: seq<Token>, caret: nat, text: string, w: (nat, nat))
    requires DepthsCount(ts) && Rising(ts) && Tiling(ts, text, 0)
    requires IsCaretsQuery(o, ts, caret, w) && w.1 < BranchRound(o, ts, caret).1 && IsTrivia(ts[w.0])
    ensures var f := QueryRound(o, ts, caret);
            f.0 < w.0 <= Started(ts, caret, 0) && w.1 < f.1 && Partners(ts, w.0 - 1, w.1)
  {
    hide DepthsCount, Rising, Tiling, Started, HoldsAQuery, Level, QueryRound, BranchRound;
    QueryFoundIsInnermost(o, ts, caret, text);
    QueryHoldsTheCaret(o, ts, caret, text);
    var (lo, hi) := BranchRound(o, ts, caret);
    var f, n := QueryRound(o, ts, caret), Started(ts, caret, 0);
    var seen, held := QueriesSeen(o, ts, n, lo, hi), QueriesOpen(o, ts, n, lo, hi);
    forall g | g in seen ensures g in held && g != w.0 - 1 {
      SeenUnlessSpaced(o, ts, g, hi);
    }
    if seen != {} && f.1 < hi {
      OuterClosesLater(ts, n, f.0 - 1, f.1, w.0 - 1, w.1);
    }
  }
}
