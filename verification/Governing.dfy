/** The clause that governs a caret (analyse.py, `clause_at`): the nearest at its depth, or at one around it. */
module Governing {
  import opened Wrappers
  import opened Text
  import opened Lexer
  import opened Clauses
  import opened Parens
  import Scanning
  import SelectList

  /** The dialect's clauses, and whether a clause found after another reads as one rather than as a name. */
  datatype Reading = Reading(unicode: Unicode, clauses: seq<Phrase>, readsAsClause: (string, Option<string>) -> bool)

  /** A clause name found: where it ends, how many words it has, and what it is. */
  datatype Match = Match(end: nat, words: nat, name: string)

  /** Ranked by where it ends and then by its words. */
  predicate Nearer(a: Match, b: Match) {
    a.end > b.end || (a.end == b.end && a.words > b.words)
  }

  function NameOf(m: Option<Match>): Option<string> {
    if m.None? then None else Some(m.value.name)
  }

  /** An unquoted word at `depth` that ends before the caret. */
  predicate Eligible(t: Token, caret: nat, depth: nat) {
    IsWord(t) && t.depth == depth && t.end < caret
  }

  /** The clause that begins at `index` and ends before the caret, if one does. */
  function MatchAt(r: Reading, ts: seq<Token>, index: nat, hi: nat, caret: nat, depth: nat): Option<Match>
    requires index < hi <= |ts|
  {
    var found := FirstSpelled(r.unicode, ts, index, hi, r.clauses);
    if !Eligible(ts[index], caret, depth) || found.None? || ts[found.value.1 - 1].end >= caret then None
    else Some(Match(ts[found.value.1 - 1].end, |found.value.0.words|, found.value.0.name))
  }

  /** The best so far, with the token at `index` looked at. */
  function Better(r: Reading, m: Option<Match>, best: Option<Match>): Option<Match> {
    if m.None? || !r.readsAsClause(m.value.name, NameOf(best)) then best
    else if best.None? || Nearer(m.value, best.value) then m
    else best
  }

  /** The best of the clauses that begin in `[index, upto)`, none of which may run past `hi`. */
  function BestUpTo(r: Reading, ts: seq<Token>, index: nat, upto: nat, hi: nat, caret: nat, depth: nat,
                    best: Option<Match>): Option<Match>
    requires upto <= hi <= |ts|
    decreases |ts| - index
  {
    if index >= upto then best
    else BestUpTo(r, ts, index + 1, upto, hi, caret, depth, Better(r, MatchAt(r, ts, index, hi, caret, depth), best))
  }

  function Scan(r: Reading, ts: seq<Token>, index: nat, hi: nat, caret: nat, depth: nat,
                best: Option<Match>): Option<Match>
    requires hi <= |ts|
  {
    BestUpTo(r, ts, index, hi, hi, caret, depth, best)
  }

  /** `_scan_for_clause`. */
  method ScanForClause(r: Reading, ts: seq<Token>, lo: nat, hi: nat, caret: nat, depth: nat,
                       grouped: map<string, seq<Phrase>>)
    returns (name: Option<string>)
    requires hi <= |ts| && forall word :: Group(grouped, word) == Sorting.Filter(StartsWith(word), r.clauses)
    ensures name == NameOf(Scan(r, ts, lo, hi, caret, depth, None))
  {
    hide FirstSpelled;
    var best: Option<Match> := None;
    var index := lo;
    while index < hi
      invariant lo <= index
      invariant Scan(r, ts, index, hi, caret, depth, best) == Scan(r, ts, lo, hi, caret, depth, None)
    {
      if Eligible(ts[index], caret, depth) {
        var matched := ScanClauseStart(r.unicode, ts, index, hi, r.clauses, grouped);
        if matched.Some? && ts[matched.value.1 - 1].end < caret {
          var candidate := Match(ts[matched.value.1 - 1].end, |matched.value.0.words|, matched.value.0.name);
          if r.readsAsClause(candidate.name, NameOf(best)) && (best.None? || Nearer(candidate, best.value)) {
            best := Some(candidate);
          }
        }
      }
      index := index + 1;
    }
    name := NameOf(best);
  }

  // ------------------------------------------------------------------- widening

  function GroupOf(ts: seq<Token>, caret: nat, depth: nat): nat {
    if depth == 0 then 0 else SelectList.LastOpen(ts, SelectList.Started(ts, caret, 0), depth - 1)
  }

  /** The caret's own depth first, then each one around it: every depth asked. */
  function Widened(r: Reading, ts: seq<Token>, lo: nat, hi: nat, caret: nat, depth: nat): Option<string>
    requires hi <= |ts|
  {
    var found := NameOf(Scan(r, ts, SelectList.Latest(lo, GroupOf(ts, caret, depth)), hi, caret, depth, None));
    if found.Some? then found else if depth == 0 then None else Widened(r, ts, lo, hi, caret, depth - 1)
  }

  /** `_scan_for_words`: the depths that hold a word left of the caret. */
  function Wordy(ts: seq<Token>, lo: nat, hi: nat, caret: nat): (depths: set<nat>)
    requires hi <= |ts|
    ensures forall i | lo <= i < hi && IsWord(ts[i]) && ts[i].end < caret :: ts[i].depth in depths
  {
    set i | lo <= i < hi && IsWord(ts[i]) && ts[i].end < caret :: ts[i].depth
  }

  /** A depth without a word holds no clause. */
  lemma {:induction false} NoWordNoClause(r: Reading, ts: seq<Token>, index: nat, hi: nat, caret: nat, depth: nat)
    requires hi <= |ts| && forall i | index <= i < hi :: !Eligible(ts[i], caret, depth)
    ensures Scan(r, ts, index, hi, caret, depth, None) == None
    decreases |ts| - index
  {
    if index < hi {
      NoWordNoClause(r, ts, index + 1, hi, caret, depth);
    }
  }

  /** `clause_at`: the depths it passes over could not have answered. */
  method ClauseAt(r: Reading, ts: seq<Token>, lo: nat, hi: nat, caret: nat) returns (name: Option<string>)
    requires hi <= |ts|
    ensures name == Widened(r, ts, lo, hi, caret, SelectList.Depth(ts, caret))
  {
    hide Scan, SelectList.Depth, SelectList.LastOpen, SelectList.Started;
    var depth := SelectList.Depth(ts, caret);
    if r.clauses == [] {
      NoClauses(r, ts, lo, hi, caret, depth);
      return None;
    }
    var grouped := ByFirstWord(r.clauses);
    var levels := Wordy(ts, lo, hi, caret);
    while true
      invariant Widened(r, ts, lo, hi, caret, depth) == Widened(r, ts, lo, hi, caret, SelectList.Depth(ts, caret))
      decreases depth
    {
      var from := SelectList.Latest(lo, GroupOf(ts, caret, depth));
      if depth in levels {
        var found := ScanForClause(r, ts, from, hi, caret, depth, grouped);
        if found.Some? {
          return found;
        }
      } else {
        NoWordNoClause(r, ts, from, hi, caret, depth);
      }
      if depth == 0 {
        return None;
      }
      depth := depth - 1;
    }
  }

  lemma {:induction false} NothingScanned(r: Reading, ts: seq<Token>, index: nat, hi: nat, caret: nat, depth: nat)
    requires hi <= |ts| && r.clauses == []
    ensures Scan(r, ts, index, hi, caret, depth, None) == None
    decreases |ts| - index
  {
    if index < hi {
      NothingScanned(r, ts, index + 1, hi, caret, depth);
    }
  }

  lemma {:induction false} NoClauses(r: Reading, ts: seq<Token>, lo: nat, hi: nat, caret: nat, depth: nat)
    requires hi <= |ts| && r.clauses == []
    ensures Widened(r, ts, lo, hi, caret, depth) == None
  {
    NothingScanned(r, ts, SelectList.Latest(lo, GroupOf(ts, caret, depth)), hi, caret, depth);
    if depth > 0 {
      NoClauses(r, ts, lo, hi, caret, depth - 1);
    }
  }

  // ------------------------------------------------- the levels, independently

  /** Where the level of `d` open parens begins: behind the `d`-th paren that stands open at the caret. */
  ghost predicate IsLevelStart(ts: seq<Token>, lo: nat, caret: nat, d: nat, from: nat) {
    if d == 0 then from == lo
    else exists g: nat :: Dangles(ts, g, SelectList.Started(ts, caret, 0)) && ts[g].depth + 1 == d
                          && from == if g + 1 < lo then lo else g + 1
  }

  lemma LevelStarts(ts: seq<Token>, lo: nat, caret: nat, d: nat)
    requires DepthsCount(ts) && d <= CountBefore(ts, SelectList.Started(ts, caret, 0))
    ensures forall from: nat :: IsLevelStart(ts, lo, caret, d, from)
                            <==> from == SelectList.Latest(lo, GroupOf(ts, caret, d))
  {
    hide DepthsCount, CountBefore, Level, SelectList.LastOpen;
    var n := SelectList.Started(ts, caret, 0);
    if d > 0 {
      SelectList.LastOpenStandsOpen(ts, n, d);
      assert Dangles(ts, GroupOf(ts, caret, d) - 1, n);
      forall g: nat | Dangles(ts, g, n) && ts[g].depth + 1 == d ensures GroupOf(ts, caret, d) == g + 1 {
        SelectList.OpenIsLast(ts, n, g);
      }
    }
  }

  /** No level of more than `d` and at most `depth` open parens has a clause. */
  ghost predicate NoneDeeper(r: Reading, ts: seq<Token>, lo: nat, hi: nat, caret: nat, d: nat, depth: nat)
    requires hi <= |ts|
  {
    forall d': nat, from: nat | d < d' <= depth && IsLevelStart(ts, lo, caret, d', from) ::
      Scan(r, ts, from, hi, caret, d', None).None?
  }

  /** The level of `d` open parens answers `name`, and none inside it answers anything. */
  ghost predicate LevelAnswers(r: Reading, ts: seq<Token>, lo: nat, hi: nat, caret: nat, d: nat, depth: nat, from: nat,
                               name: string)
    requires hi <= |ts|
  {
    && d <= depth && IsLevelStart(ts, lo, caret, d, from)
    && NameOf(Scan(r, ts, from, hi, caret, d, None)) == Some(name) && NoneDeeper(r, ts, lo, hi, caret, d, depth)
  }

  lemma {:induction false} WideningIsOutward(r: Reading, ts: seq<Token>, lo: nat, hi: nat, caret: nat, depth: nat)
    requires DepthsCount(ts) && hi <= |ts| && depth <= CountBefore(ts, SelectList.Started(ts, caret, 0))
    ensures var name := Widened(r, ts, lo, hi, caret, depth);
            && (name.Some? ==> exists d, from :: LevelAnswers(r, ts, lo, hi, caret, d, depth, from, name.value))
            && (name.None? ==> NoneDeeper(r, ts, lo, hi, caret, 0, depth) && Scan(r, ts, lo, hi, caret, 0, None).None?)
  {
    hide DepthsCount, CountBefore, Scan, IsLevelStart, SelectList.Started, GroupOf;
    LevelStarts(ts, lo, caret, depth);
    var from := SelectList.Latest(lo, GroupOf(ts, caret, depth));
    if Scan(r, ts, from, hi, caret, depth, None).Some? {
      assert LevelAnswers(r, ts, lo, hi, caret, depth, depth, from, Widened(r, ts, lo, hi, caret, depth).value);
    } else if depth > 0 {
      WideningIsOutward(r, ts, lo, hi, caret, depth - 1);
      var name := Widened(r, ts, lo, hi, caret, depth);
      if name.Some? {
        var d, from' :| LevelAnswers(r, ts, lo, hi, caret, d, depth - 1, from', name.value);
        assert LevelAnswers(r, ts, lo, hi, caret, d, depth, from', name.value);
      }
    } else {
      assert IsLevelStart(ts, lo, caret, 0, lo) by { LevelZero(ts, lo, caret); }
    }
  }

  lemma LevelZero(ts: seq<Token>, lo: nat, caret: nat)
    ensures IsLevelStart(ts, lo, caret, 0, lo)
  {
  }

  /**
   The governing clause on every lexed text: what the innermost of the levels round the caret answers that
   answers anything, the level a caret is on counted by the parens standing open there.
   */
  lemma NearestLevelGoverns(r: Reading, ts: seq<Token>, lo: nat, hi: nat, caret: nat, text: string)
    requires DepthsCount(ts) && Scanning.Tiling(ts, text, 0) && hi <= |ts|
    ensures var depth := CountBefore(ts, SelectList.Started(ts, caret, 0));
            var name := Widened(r, ts, lo, hi, caret, SelectList.Depth(ts, caret));
            && (name.Some? ==> exists d, from :: LevelAnswers(r, ts, lo, hi, caret, d, depth, from, name.value))
            && (name.None? ==> NoneDeeper(r, ts, lo, hi, caret, 0, depth) && Scan(r, ts, lo, hi, caret, 0, None).None?)
  {
    hide DepthsCount, CountBefore, Scan, IsLevelStart, SelectList.Started, SelectList.Depth, Scanning.Tiling, Widened;
    SelectList.DepthCounts(ts, caret, text);
    WideningIsOutward(r, ts, lo, hi, caret, SelectList.Depth(ts, caret));
  }

  // ------------------------------------------------- what a scan answers, independently

  /** Where the last of these tokens ends. */
  function LastEnd(ts: seq<Token>, at: seq<nat>): nat {
    if at != [] && at[|at| - 1] < |ts| then ts[at[|at| - 1]].end else 0
  }

  /** The clause `p` begins at `k`, at that depth, and is written wholly before the caret. */
  ghost predicate IsClauseAt(r: Reading, ts: seq<Token>, k: nat, hi: nat, caret: nat, depth: nat, p: Phrase,
                             at: seq<nat>) {
    && Begins(r.unicode, r.clauses, ts, k, hi, p, at) && k < |ts|
    && ts[k].depth == depth && ts[k].end < caret && LastEnd(ts, at) < caret
  }

  /** The match at a place is the clause written there. */
  lemma MatchIsTheClause(r: Reading, ts: seq<Token>, k: nat, hi: nat, caret: nat, depth: nat)
    requires k < hi <= |ts| && WellNamed(r.clauses)
    ensures var m := MatchAt(r, ts, k, hi, caret, depth);
            && (forall p, at | IsClauseAt(r, ts, k, hi, caret, depth, p, at) ::
                  m == Some(Match(LastEnd(ts, at), |p.words|, p.name)))
            && (m.Some? ==> exists p, at :: IsClauseAt(r, ts, k, hi, caret, depth, p, at))
  {
    hide FirstSpelled, Begins, WellNamed;
    FirstSpelledBegins(r.unicode, ts, k, hi, r.clauses);
    forall p, at | IsClauseAt(r, ts, k, hi, caret, depth, p, at)
      ensures MatchAt(r, ts, k, hi, caret, depth) == Some(Match(LastEnd(ts, at), |p.words|, p.name))
    {
      BegunStands(r.unicode, ts, k, hi, r.clauses, p, at);
    }
    if MatchAt(r, ts, k, hi, caret, depth).Some? {
      var (p, end) := FirstSpelled(r.unicode, ts, k, hi, r.clauses).value;
      var at :| Begins(r.unicode, r.clauses, ts, k, hi, p, at);
      BegunStands(r.unicode, ts, k, hi, r.clauses, p, at);
      assert IsClauseAt(r, ts, k, hi, caret, depth, p, at);
    }
  }

  /** A clause is written at `k`, and reads as one after what the scan answers for the tokens before it. */
  ghost predicate Counts(r: Reading, ts: seq<Token>, lo: nat, k: nat, hi: nat, caret: nat, depth: nat, p: Phrase,
                         at: seq<nat>)
    requires hi <= |ts|
  {
    && lo <= k < hi && IsClauseAt(r, ts, k, hi, caret, depth, p, at)
    && r.readsAsClause(p.name, NameOf(BestUpTo(r, ts, lo, k, hi, caret, depth, None)))
  }

  ghost predicate Answers(r: Reading, ts: seq<Token>, lo: nat, k: nat, hi: nat, caret: nat, depth: nat, p: Phrase,
                          at: seq<nat>, m: Match)
    requires hi <= |ts|
  {
    Counts(r, ts, lo, k, hi, caret, depth, p, at) && m == Match(LastEnd(ts, at), |p.words|, p.name)
  }

  /**
   What a scan answers: of the clauses written at that depth wholly before the caret, each read after the
   best of those left of it, the one whose last word ends nearest the caret and, of those, the one of most
   words; nothing only where there is none.
   */
  lemma ScanFindsTheNearest(r: Reading, ts: seq<Token>, lo: nat, hi: nat, caret: nat, depth: nat)
    requires hi <= |ts| && WellNamed(r.clauses)
    ensures var found := Scan(r, ts, lo, hi, caret, depth, None);
            && (found.Some? ==>
                  exists k, p, at :: Answers(r, ts, lo, k, hi, caret, depth, p, at, found.value))
            && forall k, p, at | Counts(r, ts, lo, k, hi, caret, depth, p, at) ::
                 found.Some? && (LastEnd(ts, at) < found.value.end
                                 || (LastEnd(ts, at) == found.value.end && |p.words| <= found.value.words))
  {
    hide MatchAt, IsClauseAt, BestUpTo, WellNamed;
    ScanKeepsTheBest(r, ts, lo, hi, caret, depth, None);
    var found := Scan(r, ts, lo, hi, caret, depth, None);
    if found.Some? {
      var k :|
        lo <= k < hi && InTurn(r, ts, lo, k, hi, caret, depth, None) && found == MatchAt(r, ts, k, hi, caret, depth);
      MatchIsTheClause(r, ts, k, hi, caret, depth);
      var p, at :| IsClauseAt(r, ts, k, hi, caret, depth, p, at);
      assert Answers(r, ts, lo, k, hi, caret, depth, p, at, found.value);
    }
    forall k, p, at | Counts(r, ts, lo, k, hi, caret, depth, p, at)
      ensures found.Some? && (LastEnd(ts, at) < found.value.end
                              || (LastEnd(ts, at) == found.value.end && |p.words| <= found.value.words))
    {
      MatchIsTheClause(r, ts, k, hi, caret, depth);
      assert InTurn(r, ts, lo, k, hi, caret, depth, None);
    }
  }

  /** A clause begins at `k`, and read as one where the scan stood when it came to it. */
  ghost predicate InTurn(r: Reading, ts: seq<Token>, index: nat, k: nat, hi: nat, caret: nat, depth: nat,
                        best: Option<Match>)
    requires k < hi <= |ts|
  {
    var m := MatchAt(r, ts, k, hi, caret, depth);
    m.Some? && r.readsAsClause(m.value.name, NameOf(BestUpTo(r, ts, index, k, hi, caret, depth, best)))
  }

  /**
   What a scan answers: of the clauses written at that depth and ending before the caret, each read
   after the best of those left of it, one than which none ends nearer the caret or, ending with it,
   has more words; and nothing only where there is none.
   */
  lemma {:induction false} ScanKeepsTheBest(r: Reading, ts: seq<Token>, index: nat, hi: nat, caret: nat, depth: nat,
                                               best: Option<Match>)
    requires hi <= |ts|
    ensures var found := Scan(r, ts, index, hi, caret, depth, best);
            && (found == best || exists k | index <= k < hi :: InTurn(r, ts, index, k, hi, caret, depth, best)
                                                            && found == MatchAt(r, ts, k, hi, caret, depth))
            && (best.Some? ==> found.Some? && !Nearer(best.value, found.value))
            && forall k | index <= k < hi && InTurn(r, ts, index, k, hi, caret, depth, best) ::
                 found.Some? && !Nearer(MatchAt(r, ts, k, hi, caret, depth).value, found.value)
    decreases |ts| - index
  {
    hide MatchAt;
    if index < hi {
      var m := MatchAt(r, ts, index, hi, caret, depth);
      var better := Better(r, m, best);
      ScanKeepsTheBest(r, ts, index + 1, hi, caret, depth, better);
      assert InTurn(r, ts, index, index, hi, caret, depth, best)
        <==> m.Some? && r.readsAsClause(m.value.name, NameOf(best));
      forall k | index < k < hi
        ensures InTurn(r, ts, index, k, hi, caret, depth, best) == InTurn(r, ts, index + 1, k, hi, caret, depth, better)
      {
        assert BestUpTo(r, ts, index, k, hi, caret, depth, best)
            == BestUpTo(r, ts, index + 1, k, hi, caret, depth, better);
      }
    }
  }
}
