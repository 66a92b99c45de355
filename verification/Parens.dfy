/**
 Paren depth as the scanner carries it, and what analyse.py reads off it: the partner
 of an open paren, and the groups the author has not closed yet.
 */
module Parens {
  import opened Text
  import opened Lexer

  predicate Opens(t: Token) {
    IsPunct(t, "(")
  }

  predicate Closes(t: Token) {
    IsPunct(t, ")")
  }

  // ----------------------------------------------------- depth, independently

  /** The clamped count of open parens standing before token `i`. */
  function CountBefore(ts: seq<Token>, i: nat): nat
    requires i <= |ts|
  {
    if i == 0 then 0
    else
      var n := CountBefore(ts, i - 1);
      if Opens(ts[i - 1]) then n + 1 else if Closes(ts[i - 1]) then Outer(n) else n
  }

  /** Every token's depth is the count before it, a closing paren already outside its group. */
  ghost predicate DepthsCount(ts: seq<Token>) {
    forall i | 0 <= i < |ts| :: ts[i].depth == if Closes(ts[i]) then Outer(CountBefore(ts, i)) else CountBefore(ts, i)
  }

  /** The count at the far end of `ts`, started from `depth`. */
  function CountFrom(depth: nat, ts: seq<Token>): nat {
    if ts == [] then depth
    else
      var t := ts[|ts| - 1];
      var n := CountFrom(depth, ts[..|ts| - 1]);
      if Opens(t) then n + 1 else if Closes(t) then Outer(n) else n
  }

  lemma {:induction false} CountFromCons(depth: nat, t: Token, ts: seq<Token>)
    ensures CountFrom(depth, [t] + ts)
         == CountFrom(if Opens(t) then depth + 1 else if Closes(t) then Outer(depth) else depth, ts)
  {
    if ts == [] {
      assert ([t] + ts)[..0] == [];
    } else {
      assert ([t] + ts)[..|ts|] == [t] + ts[..|ts| - 1];
      CountFromCons(depth, t, ts[..|ts| - 1]);
    }
  }

  lemma {:induction false} CountBeforeIsCountFrom(ts: seq<Token>, i: nat)
    requires i <= |ts|
    ensures CountBefore(ts, i) == CountFrom(0, ts[..i])
  {
    if i > 0 {
      CountBeforeIsCountFrom(ts, i - 1);
      assert ts[..i][..i - 1] == ts[..i - 1];
    }
  }

  lemma {:induction false} LexFromCounts(u: Unicode, y: Syntax, s: string, pos: nat, depth: nat, i: nat)
    requires Sound(u) && i < |LexFrom(u, y, s, pos, depth)|
    ensures var ts := LexFrom(u, y, s, pos, depth);
            var n := CountFrom(depth, ts[..i]);
            ts[i].depth == if Closes(ts[i]) then Outer(n) else n
    decreases |s|
  {
    hide Next, Sound;
    var ts := LexFrom(u, y, s, pos, depth);
    var x := Next(u, y, s);
    PunctText(u, y, s);
    if i == 0 {
      assert ts[..0] == [];
    } else {
      var rest := LexFrom(u, y, s[x.len..], pos + x.len, DepthAfter(x, depth));
      LexFromCounts(u, y, s[x.len..], pos + x.len, DepthAfter(x, depth), i - 1);
      assert ts == [ts[0]] + rest && ts[..i] == [ts[0]] + rest[..i - 1];
      CountFromCons(depth, ts[0], rest[..i - 1]);
    }
  }

  /** A punctuation lexeme is spelled by its value. */
  lemma PunctText(u: Unicode, y: Syntax, s: string)
    requires Sound(u) && s != []
    ensures var x := Next(u, y, s); x.kind == Punct ==> x.value == s[..x.len]
  {
    hide MatchedOperator, StringLexeme, LineComment, DollarQuote, NumberLength, Sound;
  }

  lemma LexedDepthsCount(u: Unicode, y: Syntax, src: string)
    requires Sound(u)
    ensures DepthsCount(Lexed(u, y, src))
  {
    var ts := Lexed(u, y, src);
    forall i | 0 <= i < |ts|
      ensures ts[i].depth == if Closes(ts[i]) then Outer(CountBefore(ts, i)) else CountBefore(ts, i)
    {
      LexFromCounts(u, y, src, 0, 0, i);
      CountBeforeIsCountFrom(ts, i);
    }
  }

  // -------------------------------------------------------- matching, by balance

  /**
   How many groups, the one opened at `i` included, stand open before token `m`;
   zero for good once that one has closed.
   */
  function Level(ts: seq<Token>, i: nat, m: nat): nat
    requires i < m <= |ts|
    decreases m
  {
    if m == i + 1 then 1
    else
      var n := Level(ts, i, m - 1);
      if n == 0 then 0 else if Opens(ts[m - 1]) then n + 1 else if Closes(ts[m - 1]) then n - 1 else n
  }

  /** `p` is the paren that closes the one at `i`. */
  predicate Partners(ts: seq<Token>, i: nat, p: nat) {
    i < p < |ts| && Opens(ts[i]) && Closes(ts[p]) && Level(ts, i, p) == 1
  }

  /** The paren at `i` has no partner before `hi`. */
  predicate Dangles(ts: seq<Token>, i: nat, hi: nat) {
    i < hi <= |ts| && Opens(ts[i]) && Level(ts, i, hi) > 0
  }

  lemma {:induction false} LevelStaysZero(ts: seq<Token>, i: nat, m: nat, m': nat)
    requires i < m <= m' <= |ts| && Level(ts, i, m) == 0
    ensures Level(ts, i, m') == 0
  {
    if m < m' {
      LevelStaysZero(ts, i, m, m' - 1);
    }
  }

  /** Either the paren dangles or it has exactly one partner before `hi`. */
  lemma {:induction false} DanglesOrPartners(ts: seq<Token>, i: nat, hi: nat)
    requires i < hi <= |ts| && Opens(ts[i])
    ensures !Dangles(ts, i, hi) <==> exists p: nat :: p < hi && Partners(ts, i, p)
    ensures forall p: nat, p': nat | Partners(ts, i, p) && Partners(ts, i, p') :: p == p'
  {
    forall p: nat, p': nat | Partners(ts, i, p) && Partners(ts, i, p') && p < p'
      ensures false
    {
      LevelStaysZero(ts, i, p + 1, p');
    }
    forall p: nat | p < hi && Partners(ts, i, p)
      ensures !Dangles(ts, i, hi)
    {
      LevelStaysZero(ts, i, p + 1, hi);
    }
    if !Dangles(ts, i, hi) {
      var p := WhereItCloses(ts, i, hi);
    }
  }

  lemma {:induction false} WhereItCloses(ts: seq<Token>, i: nat, hi: nat) returns (p: nat)
    requires i < hi <= |ts| && Opens(ts[i]) && Level(ts, i, hi) == 0
    ensures p < hi && Partners(ts, i, p)
  {
    if Level(ts, i, hi - 1) == 0 {
      p := WhereItCloses(ts, i, hi - 1);
    } else {
      p := hi - 1;
    }
  }

  /** While the group opened at `i` stands open, the depth counts its groups. */
  lemma {:induction false} LevelIsDepth(ts: seq<Token>, i: nat, m: nat)
    requires DepthsCount(ts) && i < m <= |ts| && Opens(ts[i]) && Level(ts, i, m) > 0
    ensures CountBefore(ts, m) == ts[i].depth + Level(ts, i, m)
    decreases m
  {
    if m > i + 1 {
      LevelIsDepth(ts, i, m - 1);
    }
  }

  /** A token inside an open group is deeper, unless it is the one that closes the group. */
  lemma OpenStep(ts: seq<Token>, i: nat, m: nat)
    requires DepthsCount(ts) && i < m < |ts| && Opens(ts[i]) && Level(ts, i, m) > 0
    ensures Closes(ts[m]) && ts[m].depth == ts[i].depth <==> Partners(ts, i, m)
    ensures !Partners(ts, i, m) ==> Level(ts, i, m + 1) > 0 && ts[m].depth > ts[i].depth
  {
    LevelIsDepth(ts, i, m);
  }

  /** The first closing paren from `k` on that stands at `depth`, or `hi`. */
  function ClosingAt(ts: seq<Token>, depth: nat, k: nat, hi: nat): (close: nat)
    requires k <= hi <= |ts|
    ensures k <= close <= hi
    ensures close < hi ==> Closes(ts[close]) && ts[close].depth == depth
    decreases hi - k
  {
    if k == hi || (Closes(ts[k]) && ts[k].depth == depth) then k else ClosingAt(ts, depth, k + 1, hi)
  }

  /** Up to `m` the group opened at `i` is open and everything in it deeper. */
  ghost predicate Inside(ts: seq<Token>, i: nat, m: nat) {
    i < m <= |ts| && Level(ts, i, m) > 0 && forall k | i < k < m :: ts[k].depth > ts[i].depth
  }

  lemma InsideFromItsFirst(ts: seq<Token>, i: nat)
    requires i < |ts|
    ensures Inside(ts, i, i + 1)
  {
  }

  lemma InsideStep(ts: seq<Token>, i: nat, m: nat)
    requires DepthsCount(ts) && Inside(ts, i, m) && m < |ts| && Opens(ts[i])
    ensures Closes(ts[m]) && ts[m].depth == ts[i].depth <==> Partners(ts, i, m)
    ensures !Partners(ts, i, m) ==> Inside(ts, i, m + 1)
  {
    hide Level, CountBefore;
    OpenStep(ts, i, m);
  }

  /** The first closing paren at the depth of an open one is its partner. */
  lemma {:induction false} ClosingMatches(ts: seq<Token>, i: nat, m: nat, hi: nat)
    requires DepthsCount(ts) && m <= hi <= |ts| && Inside(ts, i, m) && Opens(ts[i])
    ensures var close := ClosingAt(ts, ts[i].depth, m, hi);
            && Inside(ts, i, close)
            && if close < hi then Partners(ts, i, close) else Dangles(ts, i, hi)
    decreases hi - m
  {
    hide Level, CountBefore;
    if m < hi {
      InsideStep(ts, i, m);
      if !Partners(ts, i, m) {
        ClosingMatches(ts, i, m + 1, hi);
      }
    }
  }

  /** The index of the `)` closing the `(` at `index`, or `hi` (_matching_paren). */
  method MatchingParen(ts: seq<Token>, index: nat, hi: nat) returns (close: nat)
    requires DepthsCount(ts) && index < hi <= |ts|
    ensures index < close <= hi && close == ClosingAt(ts, ts[index].depth, index + 1, hi)
    ensures close < hi ==> Closes(ts[close])
    ensures Opens(ts[index]) && close < hi ==> Partners(ts, index, close)
    ensures Opens(ts[index]) && close == hi ==> Dangles(ts, index, hi)
    ensures Opens(ts[index]) ==> forall k | index < k < close :: ts[k].depth > ts[index].depth
  {
    hide Level, CountBefore;
    close := index + 1;
    while close < hi && !(Closes(ts[close]) && ts[close].depth == ts[index].depth)
      invariant index < close <= hi
      invariant ClosingAt(ts, ts[index].depth, close, hi) == ClosingAt(ts, ts[index].depth, index + 1, hi)
    {
      close := close + 1;
    }
    if Opens(ts[index]) {
      InsideFromItsFirst(ts, index);
      ClosingMatches(ts, index, index + 1, hi);
    }
  }

  // ------------------------------------------------------------ unclosed groups

  ghost predicate Ascending(xs: seq<nat>) {
    forall a, b | 0 <= a < b < |xs| :: xs[a] < xs[b]
  }

  /** `stack` is the opens of `[lo, m)` that dangle there, in order, deepest last. */
  ghost predicate IsOpen(ts: seq<Token>, lo: nat, m: nat, stack: seq<nat>)
    requires lo <= m <= |ts|
  {
    && Ascending(stack)
    && (forall a | 0 <= a < |stack| ::
          lo <= stack[a] < m && Opens(ts[stack[a]]) && Level(ts, stack[a], m) == |stack| - a)
    && (forall i: nat | lo <= i && Dangles(ts, i, m) :: i in stack)
  }

  lemma OpenPushed(ts: seq<Token>, lo: nat, m: nat, stack: seq<nat>)
    requires lo <= m < |ts| && IsOpen(ts, lo, m, stack) && Opens(ts[m])
    ensures IsOpen(ts, lo, m + 1, stack + [m])
  {
    var n := m + 1;
    forall i: nat | lo <= i && Dangles(ts, i, n)
      ensures i in stack + [m]
    {
      assert i < m ==> Dangles(ts, i, m);
    }
  }

  lemma OpenPopped(ts: seq<Token>, lo: nat, m: nat, stack: seq<nat>)
    requires lo <= m < |ts| && IsOpen(ts, lo, m, stack) && Closes(ts[m])
    ensures IsOpen(ts, lo, m + 1, if stack == [] then [] else stack[..|stack| - 1])
  {
    var left := if stack == [] then [] else stack[..|stack| - 1];
    forall i: nat | lo <= i && Dangles(ts, i, m + 1) ensures i in left {
      DangledBefore(ts, i, m);
      var a :| 0 <= a < |stack| && stack[a] == i;
      assert left[a] == i;
    }
    forall a | 0 <= a < |left| ensures Level(ts, left[a], m + 1) == |left| - a {
      assert left[a] == stack[a];
    }
  }

  lemma DangledBefore(ts: seq<Token>, i: nat, m: nat)
    requires m < |ts| && Closes(ts[m]) && Dangles(ts, i, m + 1)
    ensures i < m && Dangles(ts, i, m) && Level(ts, i, m) > 1
  {
  }

  lemma OpenKept(ts: seq<Token>, lo: nat, m: nat, stack: seq<nat>)
    requires lo <= m < |ts| && IsOpen(ts, lo, m, stack) && !Opens(ts[m]) && !Closes(ts[m])
    ensures IsOpen(ts, lo, m + 1, stack)
  {
    assert forall i: nat | lo <= i && Dangles(ts, i, m + 1) :: Dangles(ts, i, m);
  }

  lemma OpenMeans(ts: seq<Token>, lo: nat, hi: nat, stack: seq<nat>)
    requires lo <= hi <= |ts| && IsOpen(ts, lo, hi, stack)
    ensures Ascending(stack)
    ensures forall i: nat :: i in stack <==> lo <= i && Dangles(ts, i, hi)
  {
  }

  /** The stack the scan leaves: the dangling opens of `[lo, hi)`, ascending. */
  method UnclosedOpens(ts: seq<Token>, lo: nat, hi: nat) returns (open: seq<nat>)
    requires lo <= hi <= |ts|
    ensures Ascending(open)
    ensures forall i: nat :: i in open <==> lo <= i && Dangles(ts, i, hi)
  {
    open := [];
    for index := lo to hi
      invariant IsOpen(ts, lo, index, open)
    {
      hide IsOpen;
      var token := ts[index];
      if Opens(token) {
        OpenPushed(ts, lo, index, open);
        open := open + [index];
      } else if Closes(token) {
        OpenPopped(ts, lo, index, open);
        if open != [] {
          open := open[..|open| - 1];
        }
      } else {
        OpenKept(ts, lo, index, open);
      }
    }
    OpenMeans(ts, lo, hi, open);
  }

  /** `bisect.bisect_left` between `a` and `b`: how many of the ascending `xs` are below `x`. */
  function BisectLeft(xs: seq<nat>, x: nat, a: nat, b: nat): (n: nat)
    requires Ascending(xs) && a <= b <= |xs|
    requires (forall k | 0 <= k < a :: xs[k] < x) && (forall k | b <= k < |xs| :: x <= xs[k])
    ensures a <= n <= b
    ensures (forall k | 0 <= k < n :: xs[k] < x) && (forall k | n <= k < |xs| :: x <= xs[k])
    decreases b - a
  {
    if a == b then a
    else
      var mid := (a + b) / 2;
      if xs[mid] < x then BisectLeft(xs, x, mid + 1, b) else BisectLeft(xs, x, a, mid)
  }

  /** The dangling opens of `[lo, hi)` before `index` that do not open a query. */
  ghost function Sheltering(ts: seq<Token>, lo: nat, hi: nat, opensQuery: nat -> bool, index: nat): set<nat> {
    set i | lo <= i < hi && i < index && Dangles(ts, i, hi) && !opensQuery(i)
  }

  function Starts(open: seq<nat>, opensQuery: nat -> bool): (r: seq<nat>)
    ensures forall i :: i in r <==> i in open && !opensQuery(i)
  {
    if open == [] then [] else (if opensQuery(open[0]) then [] else [open[0]]) + Starts(open[1..], opensQuery)
  }

  lemma {:induction false} StartsAscend(open: seq<nat>, opensQuery: nat -> bool)
    requires Ascending(open)
    ensures Ascending(Starts(open, opensQuery))
  {
    if open != [] {
      StartsAscend(open[1..], opensQuery);
      var rest := Starts(open[1..], opensQuery);
      forall b | 0 <= b < |rest|
        ensures open[0] < rest[b]
      {
        assert rest[b] in open[1..];
      }
    }
  }

  function Members(xs: seq<nat>): set<nat> {
    set x | x in xs
  }

  lemma {:induction false} AscendingSize(xs: seq<nat>)
    requires Ascending(xs)
    ensures |Members(xs)| == |xs|
  {
    if xs != [] {
      var last := xs[|xs| - 1];
      AscendingSize(xs[..|xs| - 1]);
      assert xs == xs[..|xs| - 1] + [last];
      assert Members(xs) == Members(xs[..|xs| - 1]) + {last};
    }
  }

  /**
   The lookup of `_unclosed_call_depth`: its bisection counts the parens before `index`
   that have no partner in the range and do not open a query.
   */
  method UnclosedCallDepth(ts: seq<Token>, lo: nat, hi: nat, opensQuery: nat -> bool, index: nat) returns (n: nat)
    requires lo <= hi <= |ts|
    ensures n == |Sheltering(ts, lo, hi, opensQuery, index)|
  {
    var open := UnclosedOpens(ts, lo, hi);
    var starts := Starts(open, opensQuery);
    StartsAscend(open, opensQuery);
    n := BisectLeft(starts, index, 0, |starts|);
    AscendingSize(starts[..n]);
    assert Members(starts[..n]) == Sheltering(ts, lo, hi, opensQuery, index) by {
      forall i
        ensures i in starts[..n] <==> i in Sheltering(ts, lo, hi, opensQuery, index)
      {
        if i in starts && i < index {
          var k :| 0 <= k < |starts| && starts[k] == i;
          assert starts[..n][k] == i;
        }
      }
    }
  }
}
