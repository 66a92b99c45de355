/**
 Recognising clause names in a token stream (engine/analyse.py): the index by first word, the
 scan that uses it, and the bounded memo that remembers its answers.
 */
module Clauses {
  import opened Wrappers
  import opened Text
  import opened Lexer
  import Quoting
  import Sorting

  /** A clause name with the words it is made of; a blank name has none. */
  datatype Phrase = Phrase(name: string, words: seq<string>)

  /** `ClauseModel.names`: no name stands before one of more words. */
  predicate LongestFirst(names: seq<Phrase>) {
    forall i, j | 0 <= i < j < |names| :: |names[i].words| >= |names[j].words|
  }

  /** The order `names` sorts by: more words first, then the longer name, then the text. */
  function Longer(text: (string, string) -> bool): (Phrase, Phrase) -> bool {
    (a: Phrase, b: Phrase) =>
      if |a.words| != |b.words| then |a.words| > |b.words|
      else if |a.name| != |b.name| then |a.name| > |b.name|
      else text(a.name, b.name)
  }

  lemma LongerIsTotal(text: (string, string) -> bool)
    requires Sorting.TotalPreorder(text)
    ensures Sorting.TotalPreorder(Longer(text))
  {
    var leq := Longer(text);
    forall a, b ensures leq(a, b) || leq(b, a) {
      assert text(a.name, b.name) || text(b.name, a.name);
    }
    forall a, b, c | leq(a, b) && leq(b, c) ensures leq(a, c) {
      assert text(a.name, b.name) && text(b.name, c.name) ==> text(a.name, c.name);
    }
  }

  lemma NamesAreLongestFirst(text: (string, string) -> bool, clauses: seq<Phrase>)
    requires Sorting.TotalPreorder(text)
    ensures var names := Sorting.Sort(Longer(text), clauses);
            && LongestFirst(names) && |names| == |clauses| && (forall p :: p in names <==> p in clauses)
            && forall i, j | 0 <= i < j < |names| && |names[i].words| == |names[j].words| ::
                 |names[i].name| > |names[j].name|
                 || (|names[i].name| == |names[j].name| && text(names[i].name, names[j].name))
  {
    LongerIsTotal(text);
    Sorting.SortIsStable(Longer(text), clauses);
  }

  // --------------------------------------------------------------- runs of words

  predicate IsWord(t: Token) {
    t.kind == Ident && !t.quoted
  }

  /** The `count` unquoted words from `i`, in upper case, and where they end. */
  function IdentRun(u: Unicode, ts: seq<Token>, i: nat, hi: nat, count: nat): (r: Option<(seq<string>, nat)>)
    requires hi <= |ts|
    ensures r.Some? ==> |r.value.0| == count && (count > 0 ==> i < r.value.1 <= hi)
    decreases |ts| - i, count
  {
    if count == 0 then Some(([], i))
    else if i >= hi then None
    else if Quoting.IsTrivia(ts[i]) then IdentRun(u, ts, i + 1, hi, count)
    else if !IsWord(ts[i]) then None
    else
      var rest := IdentRun(u, ts, i + 1, hi, count - 1);
      if rest.None? then None else Some(([u.upper(ts[i].value)] + rest.value.0, rest.value.1))
  }

  /** What is still to be read after `run`, given the answer of the whole. */
  function Prepend(run: seq<string>, rest: Option<(seq<string>, nat)>): Option<(seq<string>, nat)> {
    if rest.None? then None else Some((run + rest.value.0, rest.value.1))
  }

  method ReadIdentRun(u: Unicode, ts: seq<Token>, start: nat, hi: nat, count: nat)
    returns (run: Option<(seq<string>, nat)>)
    requires hi <= |ts|
    ensures run == IdentRun(u, ts, start, hi, count)
  {
    var words: seq<string> := [];
    var index := start;
    ghost var all := IdentRun(u, ts, start, hi, count);
    if all.Some? {
      assert [] + all.value.0 == all.value.0;
    }
    while index < hi && |words| < count
      invariant start <= index && |words| <= count
      invariant Prepend(words, IdentRun(u, ts, index, hi, count - |words|)) == IdentRun(u, ts, start, hi, count)
      decreases |ts| - index
    {
      if Quoting.IsTrivia(ts[index]) {
        index := index + 1;
        continue;
      }
      if !IsWord(ts[index]) {
        return None;
      }
      ghost var rest := IdentRun(u, ts, index + 1, hi, count - |words| - 1);
      var word := u.upper(ts[index].value);
      if rest.Some? {
        assert words + ([word] + rest.value.0) == words + [word] + rest.value.0;
      }
      words := words + [word];
      index := index + 1;
    }
    assert words + [] == words;
    run := if |words| == count then Some((words, index)) else None;
  }

  /** The clause of these words is written at `i`. */
  predicate Spells(u: Unicode, ts: seq<Token>, i: nat, hi: nat, words: seq<string>)
    requires hi <= |ts|
  {
    var run := IdentRun(u, ts, i, hi, |words|);
    words != [] && i < |ts| && IsWord(ts[i]) && run.Some? && run.value.0 == words
  }

  function EndOf(u: Unicode, ts: seq<Token>, i: nat, hi: nat, words: seq<string>): (end: nat)
    requires hi <= |ts| && Spells(u, ts, i, hi, words)
    ensures i < end <= hi && words[0] == u.upper(ts[i].value)
  {
    IdentRun(u, ts, i, hi, |words|).value.1
  }

  // ------------------------------------------------- what is written, independently

  ghost predicate OnlyTrivia(ts: seq<Token>, lo: nat, hi: nat) {
    hi <= |ts| && forall j | lo <= j < hi :: ts[j].kind == Whitespace || ts[j].kind == Comment
  }

  /** `words` stand at the places `at`, unquoted and in any case, with only trivia before, between and none other. */
  ghost predicate StandAt(u: Unicode, ts: seq<Token>, i: nat, hi: nat, words: seq<string>, at: seq<nat>) {
    && |at| == |words| && hi <= |ts|
    && (forall k | 0 <= k < |at| ::
          at[k] < hi && ts[at[k]].kind == Ident && !ts[at[k]].quoted && u.upper(ts[at[k]].value) == words[k])
    && (at != [] ==> i <= at[0] && OnlyTrivia(ts, i, at[0]))
    && forall k | 0 < k < |at| :: at[k - 1] < at[k] && OnlyTrivia(ts, at[k - 1] + 1, at[k])
  }

  /** Where words that stand at places from `i` end: one past the last. */
  function PastLast(i: nat, at: seq<nat>): nat {
    if at == [] then i else at[|at| - 1] + 1
  }

  /** Words that stand there are the run that is read. */
  lemma {:induction false} StandingIsRead(u: Unicode, ts: seq<Token>, i: nat, hi: nat, words: seq<string>, at: seq<nat>)
    requires StandAt(u, ts, i, hi, words, at)
    ensures IdentRun(u, ts, i, hi, |words|) == Some((words, PastLast(i, at)))
    decreases |ts| - i, |words|
  {
    hide StandAt;
    FirstStands(u, ts, i, hi, words, at);
    if words != [] {
      if i < at[0] {
        StandLater(u, ts, i, hi, words, at);
        StandingIsRead(u, ts, i + 1, hi, words, at);
      } else {
        StandAfter(u, ts, i, hi, words, at);
        StandingIsRead(u, ts, i + 1, hi, words[1..], at[1..]);
        assert [words[0]] + words[1..] == words;
      }
    }
  }

  /** The first word's place, and what stands before it. */
  lemma FirstStands(u: Unicode, ts: seq<Token>, i: nat, hi: nat, words: seq<string>, at: seq<nat>)
    requires StandAt(u, ts, i, hi, words, at)
    ensures |at| == |words| && hi <= |ts|
    ensures words != [] ==> i <= at[0] < hi && (i < at[0] ==> Quoting.IsTrivia(ts[i]))
    ensures words != [] && i == at[0] ==> IsWord(ts[i]) && u.upper(ts[i].value) == words[0]
  {
  }

  lemma StandLater(u: Unicode, ts: seq<Token>, i: nat, hi: nat, words: seq<string>, at: seq<nat>)
    requires StandAt(u, ts, i, hi, words, at) && words != [] && i < at[0]
    ensures StandAt(u, ts, i + 1, hi, words, at)
  {
  }

  lemma StandAfter(u: Unicode, ts: seq<Token>, i: nat, hi: nat, words: seq<string>, at: seq<nat>)
    requires StandAt(u, ts, i, hi, words, at) && words != [] && i == at[0]
    ensures StandAt(u, ts, i + 1, hi, words[1..], at[1..])
  {
    assert forall k | 0 <= k < |at| - 1 :: at[1..][k] == at[k + 1];
  }

  /** And a run that is read stands there. */
  lemma {:induction false} ReadStands(u: Unicode, ts: seq<Token>, i: nat, hi: nat, count: nat) returns (at: seq<nat>)
    requires hi <= |ts| && IdentRun(u, ts, i, hi, count).Some?
    ensures StandAt(u, ts, i, hi, IdentRun(u, ts, i, hi, count).value.0, at)
    decreases |ts| - i, count
  {
    if count == 0 {
      at := [];
    } else if Quoting.IsTrivia(ts[i]) {
      at := ReadStands(u, ts, i + 1, hi, count);
      assert OnlyTrivia(ts, i, at[0]);
    } else {
      var rest := ReadStands(u, ts, i + 1, hi, count - 1);
      at := [i] + rest;
      StandCons(u, ts, i, hi, u.upper(ts[i].value), IdentRun(u, ts, i + 1, hi, count - 1).value.0, rest);
    }
  }

  lemma StandCons(u: Unicode, ts: seq<Token>, i: nat, hi: nat, word: string, words: seq<string>, at: seq<nat>)
    requires StandAt(u, ts, i + 1, hi, words, at) && i < hi && IsWord(ts[i]) && u.upper(ts[i].value) == word
    ensures StandAt(u, ts, i, hi, [word] + words, [i] + at)
  {
    var all := [i] + at;
    assert forall k | 0 < k < |all| :: all[k] == at[k - 1];
  }

  /**
   A clause of these words is written at `i`: its first word is the token there, each further word the
   next token that is not trivia, all unquoted and spelled so in upper case.
   */
  ghost predicate WrittenAt(u: Unicode, ts: seq<Token>, i: nat, hi: nat, words: seq<string>, at: seq<nat>) {
    words != [] && StandAt(u, ts, i, hi, words, at) && at[0] == i
  }

  /** What the scan takes for spelled is what is written, and it ends one past the last word. */
  lemma SpellsIsWritten(u: Unicode, ts: seq<Token>, i: nat, hi: nat, words: seq<string>)
    requires hi <= |ts|
    ensures Spells(u, ts, i, hi, words) <==> exists at :: WrittenAt(u, ts, i, hi, words, at)
    ensures forall at | WrittenAt(u, ts, i, hi, words, at) ::
              Spells(u, ts, i, hi, words) && |at| == |words| && EndOf(u, ts, i, hi, words) == at[|at| - 1] + 1
  {
    hide StandAt;
    forall at | WrittenAt(u, ts, i, hi, words, at)
      ensures |at| == |words| && Spells(u, ts, i, hi, words) && EndOf(u, ts, i, hi, words) == at[|at| - 1] + 1
    {
      StandingIsRead(u, ts, i, hi, words, at);
      FirstStands(u, ts, i, hi, words, at);
    }
    if Spells(u, ts, i, hi, words) {
      var at := ReadStands(u, ts, i, hi, |words|);
      FirstStands(u, ts, i, hi, words, at);
      assert WrittenAt(u, ts, i, hi, words, at);
    }
  }

  // --------------------------------------------------------------------- index

  function StartsWith(word: string): Phrase -> bool {
    (p: Phrase) => p.words != [] && p.words[0] == word
  }

  /** `_by_first_word`: for each first word, the names that begin with it, in their order. */
  method ByFirstWord(names: seq<Phrase>) returns (grouped: map<string, seq<Phrase>>)
    ensures forall word :: Group(grouped, word) == Sorting.Filter(StartsWith(word), names)
  {
    grouped := map[];
    for i := 0 to |names|
      invariant forall word :: Group(grouped, word) == Sorting.Filter(StartsWith(word), names[..i])
    {
      ghost var before := grouped;
      if names[i].words != [] {
        var first := names[i].words[0];
        grouped := grouped[first := Group(grouped, first) + [names[i]]];
      }
      forall word ensures Group(grouped, word) == Sorting.Filter(StartsWith(word), names[..i + 1]) {
        assert names[..i + 1] == names[..i] + [names[i]];
        Sorting.FilterAppends(StartsWith(word), names[..i], [names[i]]);
        assert Group(before, word) == Sorting.Filter(StartsWith(word), names[..i]);
        OneFiltered(StartsWith(word), names[i]);
      }
    }
    assert names[..|names|] == names;
  }

  lemma OneFiltered(p: Phrase -> bool, x: Phrase)
    ensures Sorting.Filter(p, [x]) == if p(x) then [x] else []
  {
    assert [x][1..] == [];
    assert Sorting.Filter(p, []) == [];
  }

  function Group(grouped: map<string, seq<Phrase>>, word: string): seq<Phrase> {
    if word in grouped then grouped[word] else []
  }

  // ---------------------------------------------------------------------- scan

  /** The first of `names` written at `i`, and where it ends. */
  function FirstSpelled(u: Unicode, ts: seq<Token>, i: nat, hi: nat, names: seq<Phrase>): (r: Option<(Phrase, nat)>)
    requires hi <= |ts|
    ensures r.Some? ==> i < r.value.1 <= hi
  {
    if names == [] then None
    else if Spells(u, ts, i, hi, names[0].words) then Some((names[0], EndOf(u, ts, i, hi, names[0].words)))
    else FirstSpelled(u, ts, i, hi, names[1..])
  }

  /** `_scan_clause_start`, trying only the names the index holds under the word written. */
  method ScanClauseStart(u: Unicode, ts: seq<Token>, index: nat, hi: nat, names: seq<Phrase>,
                         grouped: map<string, seq<Phrase>>)
    returns (found: Option<(Phrase, nat)>)
    requires hi <= |ts| && forall word :: Group(grouped, word) == Sorting.Filter(StartsWith(word), names)
    ensures found == FirstSpelled(u, ts, index, hi, names)
  {
    hide FirstSpelled, IdentRun, Sorting.Filter;
    if index >= |ts| || !IsWord(ts[index]) {
      NothingSpelled(u, ts, index, hi, names);
      return None;
    }
    var first := u.upper(ts[index].value);
    var tried := Group(grouped, first);
    IndexLosesNothing(u, ts, index, hi, names);
    for k := 0 to |tried|
      invariant FirstSpelled(u, ts, index, hi, tried[k..]) == FirstSpelled(u, ts, index, hi, names)
    {
      assert tried[k..] == [tried[k]] + tried[k + 1..];
      FirstSpelledCons(u, ts, index, hi, tried[k], tried[k + 1..]);
      var run := ReadIdentRun(u, ts, index, hi, |tried[k].words|);
      if run.Some? && run.value.0 == tried[k].words {
        return Some((tried[k], run.value.1));
      }
    }
    assert tried[|tried|..] == [];
    NothingOfNothing(u, ts, index, hi);
    found := None;
  }

  lemma NothingOfNothing(u: Unicode, ts: seq<Token>, i: nat, hi: nat)
    requires hi <= |ts|
    ensures FirstSpelled(u, ts, i, hi, []) == None
  {
  }

  lemma {:induction false} NothingSpelled(u: Unicode, ts: seq<Token>, i: nat, hi: nat, names: seq<Phrase>)
    requires hi <= |ts| && (i >= |ts| || !IsWord(ts[i]))
    ensures FirstSpelled(u, ts, i, hi, names) == None
  {
    if names != [] {
      NothingSpelled(u, ts, i, hi, names[1..]);
    }
  }

  /** Looking only under the word written finds what trying every name would. */
  lemma {:induction false} IndexLosesNothing(u: Unicode, ts: seq<Token>, i: nat, hi: nat, names: seq<Phrase>)
    requires hi <= |ts| && i < |ts| && IsWord(ts[i])
    ensures FirstSpelled(u, ts, i, hi, Sorting.Filter(StartsWith(u.upper(ts[i].value)), names))
         == FirstSpelled(u, ts, i, hi, names)
  {
    hide FirstSpelled, IdentRun, Sorting.Filter;
    if names == [] {
      Sorting.FilterNothing(StartsWith(u.upper(ts[i].value)), names);
    } else {
      IndexLosesNothing(u, ts, i, hi, names[1..]);
      var p := StartsWith(u.upper(ts[i].value));
      assert [names[0]] + names[1..] == names;
      Sorting.FilterCons(p, names[0], names[1..]);
      FirstSpelledCons(u, ts, i, hi, names[0], names[1..]);
      if p(names[0]) {
        FirstSpelledCons(u, ts, i, hi, names[0], Sorting.Filter(p, names[1..]));
        assert Sorting.Filter(p, names) == [names[0]] + Sorting.Filter(p, names[1..]);
      } else {
        assert Sorting.Filter(p, names) == Sorting.Filter(p, names[1..]);
        assert !Spells(u, ts, i, hi, names[0].words);
      }
    }
  }

  lemma FirstSpelledCons(u: Unicode, ts: seq<Token>, i: nat, hi: nat, x: Phrase, rest: seq<Phrase>)
    requires hi <= |ts|
    ensures FirstSpelled(u, ts, i, hi, [x] + rest)
         == if Spells(u, ts, i, hi, x.words) then Some((x, EndOf(u, ts, i, hi, x.words)))
            else FirstSpelled(u, ts, i, hi, rest)
    ensures Spells(u, ts, i, hi, x.words) ==> x.words[0] == u.upper(ts[i].value)
  {
    assert ([x] + rest)[1..] == rest;
    if Spells(u, ts, i, hi, x.words) {
      assert EndOf(u, ts, i, hi, x.words) > i;
    }
  }

  /** The clause that begins at `i` is the one word `name`. */
  predicate SpelledAt(u: Unicode, clauses: seq<Phrase>, ts: seq<Token>, i: nat, name: string) {
    var found := FirstSpelled(u, ts, i, |ts|, clauses);
    found.Some? && found.value.0.name == name && found.value.1 == i + 1
  }

  /** That is so at any such word when no clause but the word itself begins with it, whatever the others are. */
  lemma {:induction false} LoneNameIsSpelled(u: Unicode, clauses: seq<Phrase>, ts: seq<Token>, i: nat, name: string)
    requires i < |ts| && IsWord(ts[i]) && u.upper(ts[i].value) == name && Phrase(name, [name]) in clauses
    requires forall p | p in clauses && p.words != [] && p.words[0] == name :: p == Phrase(name, [name])
    ensures SpelledAt(u, clauses, ts, i, name)
  {
    hide IdentRun;
    LoneRun(u, ts, i, |ts|);
    var first := clauses[0];
    assert clauses == [first] + clauses[1..];
    FirstSpelledCons(u, ts, i, |ts|, first, clauses[1..]);
    if first != Phrase(name, [name]) {
      LoneNameIsSpelled(u, clauses[1..], ts, i, name);
    }
  }

  lemma LoneRun(u: Unicode, ts: seq<Token>, i: nat, hi: nat)
    requires i < hi <= |ts| && IsWord(ts[i])
    ensures IdentRun(u, ts, i, hi, 1) == Some(([u.upper(ts[i].value)], i + 1))
  {
    var nothing: seq<string> := [];
    assert IdentRun(u, ts, i + 1, hi, 0) == Some((nothing, i + 1));
    assert [u.upper(ts[i].value)] + nothing == [u.upper(ts[i].value)];
  }

  lemma {:induction false} FirstSpelledIsFirst(u: Unicode, ts: seq<Token>, i: nat, hi: nat, names: seq<Phrase>)
    returns (k: nat)
    requires hi <= |ts|
    ensures k <= |names|
    ensures forall j | 0 <= j < k :: !Spells(u, ts, i, hi, names[j].words)
    ensures k == |names| ==> FirstSpelled(u, ts, i, hi, names) == None
    ensures k < |names| ==> Spells(u, ts, i, hi, names[k].words)
    ensures k < |names| ==> FirstSpelled(u, ts, i, hi, names) == Some((names[k], EndOf(u, ts, i, hi, names[k].words)))
  {
    if names == [] {
      k := 0;
    } else if Spells(u, ts, i, hi, names[0].words) {
      k := 0;
    } else {
      k := FirstSpelledIsFirst(u, ts, i, hi, names[1..]);
      assert forall j | 1 <= j < |names| :: names[j] == names[1..][j - 1];
      k := k + 1;
    }
  }

  /** A clause spelled there is answered with one of no fewer words that ends no earlier. */
  lemma LongestSpelledWins(u: Unicode, ts: seq<Token>, i: nat, hi: nat, names: seq<Phrase>, words: seq<string>)
    requires hi <= |ts| && LongestFirst(names)
    requires (exists k | 0 <= k < |names| :: names[k].words == words) && Spells(u, ts, i, hi, words)
    ensures FirstSpelled(u, ts, i, hi, names).Some?
    ensures var (found, end) := FirstSpelled(u, ts, i, hi, names).value;
            && found in names && |found.words| >= |words|
            && Spells(u, ts, i, hi, found.words)
            && end == EndOf(u, ts, i, hi, found.words) >= EndOf(u, ts, i, hi, words)
  {
    var k := FirstSpelledIsFirst(u, ts, i, hi, names);
    var w :| 0 <= w < |names| && names[w].words == words;
    RunsGrow(u, ts, i, hi, |words|, |names[k].words|);
  }

  /** A longer run of words ends no earlier, and begins with the shorter one. */
  lemma {:induction false} RunsGrow(u: Unicode, ts: seq<Token>, i: nat, hi: nat, m: nat, n: nat)
    requires hi <= |ts| && 0 < m <= n && IdentRun(u, ts, i, hi, n).Some?
    ensures IdentRun(u, ts, i, hi, m).Some?
    ensures IdentRun(u, ts, i, hi, m).value.1 <= IdentRun(u, ts, i, hi, n).value.1
    ensures IdentRun(u, ts, i, hi, m).value.0 == IdentRun(u, ts, i, hi, n).value.0[..m]
    decreases |ts| - i
  {
    if Quoting.IsTrivia(ts[i]) {
      RunsGrow(u, ts, i + 1, hi, m, n);
    } else if m > 1 {
      RunsGrow(u, ts, i + 1, hi, m - 1, n - 1);
    }
  }

  /** Some clause of these words is written at `i`. */
  ghost predicate IsWritten(u: Unicode, ts: seq<Token>, i: nat, hi: nat, words: seq<string>) {
    exists at :: WrittenAt(u, ts, i, hi, words, at)
  }

  /**
   What the scan means: it answers exactly when some clause is written there, its answer is a clause
   written there that ends one past its last word, and no clause written there has more words.
   */
  lemma LongestClauseWins(u: Unicode, ts: seq<Token>, i: nat, hi: nat, names: seq<Phrase>)
    requires hi <= |ts| && LongestFirst(names)
    ensures var found := FirstSpelled(u, ts, i, hi, names);
            && (found.None? ==> forall p | p in names :: !IsWritten(u, ts, i, hi, p.words))
            && (found.Some? ==>
                  var (p, end) := found.value;
                  && p in names && (exists at :: WrittenAt(u, ts, i, hi, p.words, at) && end == PastLast(i, at))
                  && forall q | q in names && IsWritten(u, ts, i, hi, q.words) :: |q.words| <= |p.words|)
  {
    hide WrittenAt, EndOf, LongestFirst;
    var k := FirstSpelledIsFirst(u, ts, i, hi, names);
    forall q | q in names ensures Spells(u, ts, i, hi, q.words) <==> IsWritten(u, ts, i, hi, q.words) {
      SpellsIsWritten(u, ts, i, hi, q.words);
    }
    if k < |names| {
      SpellsIsWritten(u, ts, i, hi, names[k].words);
      var at :| WrittenAt(u, ts, i, hi, names[k].words, at);
      WrittenNotEmpty(u, ts, i, hi, names[k].words, at);
      forall q | q in names && IsWritten(u, ts, i, hi, q.words) ensures |q.words| <= |names[k].words| {
        LongestSpelledWins(u, ts, i, hi, names, q.words);
      }
    } else {
      forall q | q in names ensures !IsWritten(u, ts, i, hi, q.words) {
        var j :| 0 <= j < |names| && names[j] == q;
        assert !Spells(u, ts, i, hi, names[j].words);
      }
    }
  }

  lemma WrittenNotEmpty(u: Unicode, ts: seq<Token>, i: nat, hi: nat, words: seq<string>, at: seq<nat>)
    requires WrittenAt(u, ts, i, hi, words, at)
    ensures at != [] && |at| == |words| && PastLast(i, at) == at[|at| - 1] + 1 <= hi
  {
  }

  /** Longest names first, and no two names of the same words. */
  ghost predicate WellNamed(names: seq<Phrase>) {
    LongestFirst(names) && forall p, q | p in names && q in names && p.words == q.words :: p == q
  }

  /** The clause `p` is written at `k`, and no clause of more words is. */
  ghost predicate Begins(u: Unicode, names: seq<Phrase>, ts: seq<Token>, k: nat, hi: nat, p: Phrase, at: seq<nat>) {
    && p in names && WrittenAt(u, ts, k, hi, p.words, at)
    && forall q | q in names && IsWritten(u, ts, k, hi, q.words) :: |q.words| <= |p.words|
  }

  /** As many words written at one place are the same words. */
  lemma SameRun(u: Unicode, ts: seq<Token>, k: nat, hi: nat, words: seq<string>, at: seq<nat>, words': seq<string>,
                at': seq<nat>)
    requires WrittenAt(u, ts, k, hi, words, at) && WrittenAt(u, ts, k, hi, words', at') && |words| == |words'|
    ensures words == words' && PastLast(k, at) == PastLast(k, at')
  {
    hide StandAt, IdentRun;
    StandingIsRead(u, ts, k, hi, words, at);
    StandingIsRead(u, ts, k, hi, words', at');
  }

  /** The clause the scan answers is the one that begins there. */
  lemma FirstSpelledBegins(u: Unicode, ts: seq<Token>, k: nat, hi: nat, names: seq<Phrase>)
    requires hi <= |ts| && WellNamed(names)
    ensures var found := FirstSpelled(u, ts, k, hi, names);
            && (forall p, at | Begins(u, names, ts, k, hi, p, at) :: found == Some((p, PastLast(k, at))))
            && (found.Some? ==> exists at :: Begins(u, names, ts, k, hi, found.value.0, at))
  {
    hide FirstSpelled, WrittenAt, StandAt, LongestFirst;
    var found := FirstSpelled(u, ts, k, hi, names);
    LongestClauseWins(u, ts, k, hi, names);
    forall p, at | Begins(u, names, ts, k, hi, p, at) ensures found == Some((p, PastLast(k, at))) {
      assert IsWritten(u, ts, k, hi, p.words);
      var at' :| WrittenAt(u, ts, k, hi, found.value.0.words, at') && found.value.1 == PastLast(k, at');
      assert IsWritten(u, ts, k, hi, found.value.0.words);
      SameRun(u, ts, k, hi, p.words, at, found.value.0.words, at');
    }
    if found.Some? {
      var at :| WrittenAt(u, ts, k, hi, found.value.0.words, at) && found.value.1 == PastLast(k, at);
      assert Begins(u, names, ts, k, hi, found.value.0, at);
    }
  }

  /** A clause that begins somewhere begins with a word, and ends past it and inside the span. */
  lemma BegunStands(u: Unicode, ts: seq<Token>, k: nat, hi: nat, names: seq<Phrase>, p: Phrase, at: seq<nat>)
    requires Begins(u, names, ts, k, hi, p, at)
    ensures at != [] && at[0] == k < hi <= |ts| && IsWord(ts[k])
    ensures PastLast(k, at) == at[|at| - 1] + 1 && k < PastLast(k, at) <= hi
  {
    FirstStands(u, ts, k, hi, p.words, at);
    WrittenNotEmpty(u, ts, k, hi, p.words, at);
    SpellsIsWritten(u, ts, k, hi, p.words);
  }

  /** Two longest-first orders of the same clauses recognise the same words at the same place. */
  lemma TiesDoNotMatter(u: Unicode, ts: seq<Token>, i: nat, hi: nat, names: seq<Phrase>, names': seq<Phrase>)
    requires hi <= |ts| && LongestFirst(names) && LongestFirst(names') && multiset(names) == multiset(names')
    ensures FirstSpelled(u, ts, i, hi, names).Some? <==> FirstSpelled(u, ts, i, hi, names').Some?
    ensures FirstSpelled(u, ts, i, hi, names).Some? ==>
              var (p, end) := FirstSpelled(u, ts, i, hi, names).value;
              var (p', end') := FirstSpelled(u, ts, i, hi, names').value;
              p.words == p'.words && end == end'
  {
    var found, found' := FirstSpelled(u, ts, i, hi, names), FirstSpelled(u, ts, i, hi, names');
    if found.Some? { OtherOrderFinds(u, ts, i, hi, names, names'); }
    if found'.Some? { OtherOrderFinds(u, ts, i, hi, names', names); }
  }

  lemma OtherOrderFinds(u: Unicode, ts: seq<Token>, i: nat, hi: nat, names: seq<Phrase>, names': seq<Phrase>)
    requires hi <= |ts| && LongestFirst(names') && multiset(names) == multiset(names')
    requires FirstSpelled(u, ts, i, hi, names).Some?
    ensures FirstSpelled(u, ts, i, hi, names').Some?
    ensures var (p, end) := FirstSpelled(u, ts, i, hi, names).value;
            var (p', end') := FirstSpelled(u, ts, i, hi, names').value;
            && Spells(u, ts, i, hi, p.words) && end == EndOf(u, ts, i, hi, p.words)
            && Spells(u, ts, i, hi, p'.words) && end' == EndOf(u, ts, i, hi, p'.words)
            && |p'.words| >= |p.words|
  {
    var k := FirstSpelledIsFirst(u, ts, i, hi, names);
    SameMember(names, names', k);
    LongestSpelledWins(u, ts, i, hi, names', names[k].words);
  }

  lemma SameMember(names: seq<Phrase>, names': seq<Phrase>, k: nat)
    requires multiset(names) == multiset(names') && k < |names|
    ensures exists w | 0 <= w < |names'| :: names'[w] == names[k]
  {
    assert names[k] in multiset(names');
  }

  // ---------------------------------------------------------------------- memo

  /** A question asked of the stream, with the questions answering it asks in turn. */
  datatype Work<K> = Work(key: K, asks: seq<Work<K>>)

  /** `_remembered` over one token stream, whose answers are fixed by their keys. */
  class TokenMemo<K(==, !new), A> {
    const answer: K -> A
    const limit: nat
    var memo: map<K, A>

    constructor (answer: K -> A, limit: nat)
      ensures this.answer == answer && this.limit == limit && memo == map[] && Valid()
    {
      this.answer, this.limit, memo := answer, limit, map[];
    }

    ghost predicate Valid()
      reads this
    {
      |memo| <= limit && forall key | key in memo :: memo[key] == answer(key)
    }

    /** Answering may ask other questions of the same memo before it is done. */
    method Remembered(work: Work<K>) returns (a: A)
      requires Valid()
      modifies this`memo
      ensures Valid() && a == answer(work.key)
      ensures forall key | key in old(memo) :: key in memo && memo[key] == old(memo)[key]
      ensures |memo| < limit ==> work.key in memo
      decreases work
    {
      if work.key !in memo {
        for i := 0 to |work.asks|
          invariant Valid()
          invariant forall key | key in old(memo) :: key in memo && memo[key] == old(memo)[key]
        {
          var _ := Remembered(work.asks[i]);
        }
        var computed := answer(work.key);
        if |memo| >= limit {
          return computed;
        }
        memo := memo[work.key := computed];
      }
      a := memo[work.key];
    }
  }
}
