/** The query level a span is at, and the branch of a set operation that holds the caret (engine/analyse.py). */
module Branches {
  import opened Text
  import opened Lexer
  import opened Quoting
  import opened Scanning

  /** How many of the first `count` tokens are left when the trivia at their end is dropped. */
  function Trimmed(ts: seq<Token>, count: nat): (n: nat)
    requires count <= |ts|
    ensures n <= count && (n > 0 ==> !IsTrivia(ts[n - 1])) && forall k | n <= k < count :: IsTrivia(ts[k])
  {
    if count > 0 && IsTrivia(ts[count - 1]) then Trimmed(ts, count - 1) else count
  }

  /** `_skip_back`, as a count: one past the nearest token before `count` that is not trivia. */
  method SkipBack(ts: seq<Token>, count: nat) returns (n: nat)
    requires count <= |ts|
    ensures n == Trimmed(ts, count)
  {
    n := count;
    while n > 0 && IsTrivia(ts[n - 1])
      invariant n <= count && Trimmed(ts, n) == Trimmed(ts, count)
    {
      n := n - 1;
    }
  }

  /** `_base_depth`: the shallowest depth among the tokens that are not trivia. */
  function BaseDepth(ts: seq<Token>, lo: nat, hi: nat): nat
    requires hi <= |ts|
    decreases |ts| - lo
  {
    if lo >= hi then 0
    else if IsTrivia(ts[lo]) then BaseDepth(ts, lo + 1, hi)
    else if SkipForward(ts, lo + 1, hi) >= hi then ts[lo].depth
    else
      var rest := BaseDepth(ts, lo + 1, hi);
      if ts[lo].depth < rest then ts[lo].depth else rest
  }

  /** No token of the span that is not trivia is shallower. */
  lemma {:induction false} BaseIsLeast(ts: seq<Token>, lo: nat, hi: nat, k: nat)
    requires lo <= k < hi <= |ts| && !IsTrivia(ts[k])
    ensures BaseDepth(ts, lo, hi) <= ts[k].depth
    decreases k - lo
  {
    hide SkipForward;
    if lo < k {
      BaseIsLeast(ts, lo + 1, hi, k);
    }
  }

  /** And one of them is as shallow as that. */
  lemma {:induction false} BaseIsAttained(ts: seq<Token>, lo: nat, hi: nat, k: nat) returns (j: nat)
    requires lo <= k < hi <= |ts| && !IsTrivia(ts[k])
    ensures lo <= j < hi && !IsTrivia(ts[j]) && BaseDepth(ts, lo, hi) == ts[j].depth
    decreases |ts| - lo
  {
    if IsTrivia(ts[lo]) {
      j := BaseIsAttained(ts, lo + 1, hi, k);
    } else if SkipForward(ts, lo + 1, hi) >= hi || ts[lo].depth < BaseDepth(ts, lo + 1, hi) {
      j := lo;
    } else {
      j := BaseIsAttained(ts, lo + 1, hi, SkipForward(ts, lo + 1, hi));
    }
  }

  /** No token of the span but trivia is shallower than the one at `k`. */
  ghost predicate IsShallowest(ts: seq<Token>, lo: nat, hi: nat, k: nat) {
    && lo <= k < hi <= |ts|
    && forall j | lo <= j < hi && ts[j].kind != Whitespace && ts[j].kind != Comment :: ts[k].depth <= ts[j].depth
  }

  /** A token stands at the level of its span exactly when none is shallower. */
  lemma ShallowestAreAtBase(ts: seq<Token>, lo: nat, hi: nat, k: nat)
    requires lo <= k < hi <= |ts| && !IsTrivia(ts[k])
    ensures ts[k].depth == BaseDepth(ts, lo, hi) <==> IsShallowest(ts, lo, hi, k)
  {
    hide BaseDepth;
    var j := BaseIsAttained(ts, lo, hi, k);
    BaseIsLeast(ts, lo, hi, k);
    if ts[k].depth == BaseDepth(ts, lo, hi) {
      forall i | lo <= i < hi && ts[i].kind != Whitespace && ts[i].kind != Comment ensures ts[k].depth <= ts[i].depth {
        BaseIsLeast(ts, lo, hi, i);
      }
    }
  }

  predicate IsSetOperator(u: Unicode, t: Token, depth: nat) {
    t.kind == Ident && t.depth == depth
    && (var word := u.upper(t.value); word == "UNION" || word == "INTERSECT" || word == "EXCEPT")
  }

  /** The branch that began at `start`, with the tokens from `index` on still to be looked at. */
  function Branch(u: Unicode, ts: seq<Token>, start: nat, index: nat, hi: nat, depth: nat, caret: nat): (b: (nat, nat))
    requires start <= index <= hi <= |ts|
    ensures start <= b.0 <= b.1 <= hi
    decreases hi - index
  {
    if index == hi then (start, hi)
    else if !IsSetOperator(u, ts[index], depth) then Branch(u, ts, start, index + 1, hi, depth, caret)
    else if caret <= ts[index].start then (start, index)
    else Branch(u, ts, index + 1, index + 1, hi, depth, caret)
  }

  function BranchOf(u: Unicode, ts: seq<Token>, lo: nat, hi: nat, caret: nat): (b: (nat, nat))
    requires lo <= hi <= |ts|
    ensures lo <= b.0 <= b.1 <= hi
  {
    Branch(u, ts, lo, lo, hi, BaseDepth(ts, lo, hi), caret)
  }

  /** `_branch_at`. */
  method BranchAt(u: Unicode, ts: seq<Token>, lo: nat, hi: nat, caret: nat) returns (start: nat, end: nat)
    requires lo <= hi <= |ts|
    ensures (start, end) == BranchOf(u, ts, lo, hi, caret)
  {
    hide BaseDepth, IsSetOperator;
    var base := BaseDepth(ts, lo, hi);
    start, end := lo, hi;
    for index := lo to hi
      invariant lo <= start <= index
      invariant Branch(u, ts, start, index, hi, base, caret) == BranchOf(u, ts, lo, hi, caret)
    {
      if IsSetOperator(u, ts[index], base) {
        if caret <= ts[index].start {
          return start, index;
        }
        start := index + 1;
      }
    }
  }

  /** The set operators of the span's own level. */
  function Operators(u: Unicode, ts: seq<Token>, lo: nat, hi: nat): set<nat>
    requires hi <= |ts|
  {
    set k: nat | lo <= k < hi && IsSetOperator(u, ts[k], BaseDepth(ts, lo, hi))
  }

  /** They are the names UNION, INTERSECT and EXCEPT, in any case, no deeper than anything else of the span. */
  lemma OperatorsAre(u: Unicode, ts: seq<Token>, lo: nat, hi: nat, k: nat)
    requires hi <= |ts|
    ensures k in Operators(u, ts, lo, hi)
       <==> IsShallowest(ts, lo, hi, k) && ts[k].kind == Ident
            && u.upper(ts[k].value) in {"UNION", "INTERSECT", "EXCEPT"}
  {
    hide BaseDepth;
    if lo <= k < hi && ts[k].kind == Ident {
      ShallowestAreAtBase(ts, lo, hi, k);
    }
  }

  /** Cut after the last of these tokens before the caret, and at the first not before it. */
  ghost predicate IsBranch(ts: seq<Token>, cuts: set<nat>, lo: nat, hi: nat, caret: nat, start: nat, end: nat) {
    && lo <= start <= end <= hi <= |ts| && (forall k | k in cuts :: !(start <= k < end))
    && (start == lo || (start - 1 in cuts && ts[start - 1].start < caret))
    && (end == hi || (end in cuts && caret <= ts[end].start))
  }

  lemma {:induction false} BranchIs(u: Unicode, ts: seq<Token>, start: nat, index: nat, hi: nat, depth: nat, caret: nat)
    requires start <= index <= hi <= |ts|
    requires forall k | start <= k < index :: !IsSetOperator(u, ts[k], depth)
    ensures var b := Branch(u, ts, start, index, hi, depth, caret);
            && (forall k | b.0 <= k < b.1 :: !IsSetOperator(u, ts[k], depth))
            && (b.0 == start || (IsSetOperator(u, ts[b.0 - 1], depth) && ts[b.0 - 1].start < caret))
            && (b.1 == hi || (IsSetOperator(u, ts[b.1], depth) && caret <= ts[b.1].start))
    decreases hi - index
  {
    hide IsSetOperator;
    if index < hi {
      if !IsSetOperator(u, ts[index], depth) {
        BranchIs(u, ts, start, index + 1, hi, depth, caret);
      } else if caret > ts[index].start {
        BranchIs(u, ts, index + 1, index + 1, hi, depth, caret);
      }
    }
  }

  /** The branch the scan answers is the one the description leaves. */
  lemma OneBranch(u: Unicode, ts: seq<Token>, lo: nat, hi: nat, caret: nat, start: nat, end: nat)
    requires Rising(ts) && lo <= hi <= |ts|
    ensures IsBranch(ts, Operators(u, ts, lo, hi), lo, hi, caret, start, end)
       <==> (start, end) == BranchOf(u, ts, lo, hi, caret)
  {
    hide BaseDepth, IsSetOperator, Branch;
    var b, cuts := BranchOf(u, ts, lo, hi, caret), Operators(u, ts, lo, hi);
    BranchIs(u, ts, lo, lo, hi, BaseDepth(ts, lo, hi), caret);
    assert IsBranch(ts, cuts, lo, hi, caret, b.0, b.1);
    if IsBranch(ts, cuts, lo, hi, caret, start, end) {
      BranchesInOrder(ts, cuts, lo, hi, caret, start, end, b.0, b.1);
      BranchesInOrder(ts, cuts, lo, hi, caret, b.0, b.1, start, end);
    }
  }

  lemma BranchesInOrder(ts: seq<Token>, cuts: set<nat>, lo: nat, hi: nat, caret: nat, start: nat, end: nat, start': nat,
                        end': nat)
    requires Rising(ts)
    requires IsBranch(ts, cuts, lo, hi, caret, start, end) && IsBranch(ts, cuts, lo, hi, caret, start', end')
    ensures start <= start' && end <= end'
  {
    // A boundary of one inside the other would be a cut no branch holds.
    assert start > start' ==> end' <= start - 1;
    assert end > end' ==> end' < start;
  }

  /** The set operators that are words: a quoted one is a name. */
  function WrittenOperators(u: Unicode, ts: seq<Token>, lo: nat, hi: nat): set<nat>
    requires hi <= |ts|
  {
    set k | k in Operators(u, ts, lo, hi) && !ts[k].quoted
  }

  /** The branch found is the one words alone would leave exactly when no quoted name bounds it. */
  lemma QuotedNamesCutBranches(u: Unicode, ts: seq<Token>, lo: nat, hi: nat, caret: nat)
    requires Rising(ts) && lo <= hi <= |ts|
    ensures var (start, end) := BranchOf(u, ts, lo, hi, caret);
            && (IsBranch(ts, WrittenOperators(u, ts, lo, hi), lo, hi, caret, start, end)
                <==> (start == lo || !ts[start - 1].quoted) && (end == hi || !ts[end].quoted))
  {
    hide BaseDepth, IsSetOperator, BranchOf;
    var (start, end) := BranchOf(u, ts, lo, hi, caret);
    OneBranch(u, ts, lo, hi, caret, start, end);
  }
}
