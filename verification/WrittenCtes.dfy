/** What a WITH clause declares, told from the tokens, and what each name stands for. */
module WrittenCtes {
  import opened Wrappers
  import opened Text
  import opened Lexer
  import opened Parens
  import opened Quoting
  import opened Branches
  import opened Clauses
  import opened Ctes

  /** The first token from `i` on that is not trivia stands at `at`. */
  ghost predicate ComesNext(ts: seq<Token>, i: nat, at: nat, hi: nat) {
    i <= at < hi && OnlyTrivia(ts, i, at) && hi <= |ts| && ts[at].kind != Whitespace && ts[at].kind != Comment
  }

  lemma NextIsSkippedTo(ts: seq<Token>, i: nat, at: nat, hi: nat)
    requires hi <= |ts|
    ensures ComesNext(ts, i, at, hi) <==> at < hi && i <= hi && SkipForward(ts, i, hi) == at
  {
    if ComesNext(ts, i, at, hi) {
      FirstIs(ts, i, at, hi);
    }
  }

  // ------------------------------------------------------------------- column lists

  predicate IsComma(t: Token, depth: nat) {
    t.kind == Punct && t.text == "," && t.depth == depth
  }

  /** A name with no other between it and the comma of that depth before it, or the list's beginning. */
  ghost predicate IsColumn(ts: seq<Token>, first: nat, k: nat, close: nat, depth: nat) {
    && first <= k < close <= |ts| && ts[k].kind == Ident
    && forall j | first <= j < k && ts[j].kind == Ident :: exists c | j < c < k :: IsComma(ts[c], depth)
  }

  /** The places are all those and stand in the order of the text. */
  ghost predicate AreColumns(ts: seq<Token>, first: nat, close: nat, depth: nat, at: seq<nat>) {
    && (forall k: nat :: k in at <==> IsColumn(ts, first, k, close, depth))
    && (forall i, j | 0 <= i < j < |at| :: at[i] < at[j])
  }

  /** What is still a column when the scan has come to `i`, with a name wanted or not. */
  ghost predicate IsLeft(ts: seq<Token>, i: nat, k: nat, close: nat, depth: nat, wanted: bool) {
    && IsColumn(ts, i, k, close, depth)
    && (!wanted ==> exists c | i <= c < k :: IsComma(ts[c], depth))
  }

  lemma StepLeaves(ts: seq<Token>, i: nat, k: nat, close: nat, depth: nat, wanted: bool)
    requires i < close <= |ts| && i < k
    ensures var t := ts[i];
            IsLeft(ts, i, k, close, depth, wanted)
            <==> IsLeft(ts, i + 1, k, close, depth,
                        IsComma(t, depth) || (wanted && t.kind != Ident))
  {
    if IsColumn(ts, i + 1, k, close, depth) && ts[i].kind == Ident
       && (exists c | i + 1 <= c < k :: IsComma(ts[c], depth)) {
      var c :| i + 1 <= c < k && IsComma(ts[c], depth);
      assert IsColumn(ts, i, k, close, depth);
    }
  }

  lemma DeclaredStep(ts: seq<Token>, i: nat, close: nat, depth: nat, wanted: bool)
    requires close <= |ts|
    ensures i >= close ==> Declared(ts, i, close, depth, wanted) == []
    ensures i < close ==>
              var t := ts[i];
              Declared(ts, i, close, depth, wanted)
              == (if wanted && t.kind == Ident then [t.value] else [])
                 + Declared(ts, i + 1, close, depth, IsComma(t, depth) || (wanted && t.kind != Ident))
  {
  }

  lemma {:induction false} DeclaredFrom(ts: seq<Token>, i: nat, close: nat, depth: nat, wanted: bool)
    returns (at: seq<nat>)
    requires i <= close <= |ts|
    ensures forall k: nat :: k in at <==> IsLeft(ts, i, k, close, depth, wanted)
    ensures forall a, b | 0 <= a < b < |at| :: at[a] < at[b]
    ensures |at| == |Declared(ts, i, close, depth, wanted)|
    ensures forall a | 0 <= a < |at| :: at[a] < |ts| && Declared(ts, i, close, depth, wanted)[a] == ts[at[a]].value
    decreases close - i
  {
    hide Declared, IsLeft;
    DeclaredStep(ts, i, close, depth, wanted);
    if i == close {
      at := [];
      NothingIsLeft(ts, i, depth, wanted);
    } else {
      var next := IsComma(ts[i], depth) || (wanted && ts[i].kind != Ident);
      var rest := DeclaredFrom(ts, i + 1, close, depth, next);
      at := (if wanted && ts[i].kind == Ident then [i] else []) + rest;
      forall k: nat ensures k in at <==> IsLeft(ts, i, k, close, depth, wanted) {
        FirstIsLeft(ts, i, k, close, depth, wanted);
        FirstIsLeft(ts, i + 1, k, close, depth, next);
        if i < k {
          StepLeaves(ts, i, k, close, depth, wanted);
        }
      }
      forall a | 0 <= a < |rest| ensures rest[a] > i {
        assert rest[a] in rest;
        FirstIsLeft(ts, i + 1, rest[a], close, depth, next);
      }
    }
  }

  lemma NothingIsLeft(ts: seq<Token>, i: nat, depth: nat, wanted: bool)
    ensures forall k: nat :: !IsLeft(ts, i, k, i, depth, wanted)
  {
  }

  lemma FirstIsLeft(ts: seq<Token>, i: nat, k: nat, close: nat, depth: nat, wanted: bool)
    ensures IsLeft(ts, i, k, close, depth, wanted) ==> i <= k < close
    ensures i < close <= |ts| ==> (IsLeft(ts, i, i, close, depth, wanted) <==> wanted && ts[i].kind == Ident)
  {
  }

  /** The columns a list declares are the values of those names. */
  lemma ColumnsAreDeclared(ts: seq<Token>, first: nat, close: nat, depth: nat) returns (at: seq<nat>)
    requires first <= close <= |ts|
    ensures AreColumns(ts, first, close, depth, at)
    ensures |at| == |Declared(ts, first, close, depth, true)|
    ensures forall a | 0 <= a < |at| ::
              at[a] < |ts| && Declared(ts, first, close, depth, true)[a] == ts[at[a]].value
  {
    hide Declared;
    at := DeclaredFrom(ts, first, close, depth, true);
  }

  // ------------------------------------------------------------------- declarations

  /** The group opened at `open` ends at the first paren that closes it, or with the span. */
  ghost predicate EndsAt(ts: seq<Token>, open: nat, end: nat, hi: nat) {
    && open < end <= hi <= |ts| && (end < hi ==> IsCloser(ts[end], ts[open].depth))
    && forall k | open < k < end :: !IsCloser(ts[k], ts[open].depth)
  }

  predicate IsCloser(t: Token, depth: nat) {
    t.kind == Punct && t.text == ")" && t.depth == depth
  }

  lemma ClosingIsTheEnd(ts: seq<Token>, open: nat, end: nat, hi: nat)
    requires open < hi <= |ts|
    ensures EndsAt(ts, open, end, hi) <==> ClosingAt(ts, ts[open].depth, open + 1, hi) == end
  {
    hide ClosingAt;
    var depth := ts[open].depth;
    FirstCloser(ts, depth, open + 1, hi);
    var close := ClosingAt(ts, depth, open + 1, hi);
    assert EndsAt(ts, open, close, hi);
  }

  lemma {:induction false} FirstCloser(ts: seq<Token>, depth: nat, k: nat, hi: nat)
    requires k <= hi <= |ts|
    ensures forall j | k <= j < ClosingAt(ts, depth, k, hi) :: !IsCloser(ts[j], depth)
    decreases hi - k
  {
    if k < hi && !IsCloser(ts[k], depth) {
      FirstCloser(ts, depth, k + 1, hi);
    }
  }

  ghost predicate ParenNext(ts: seq<Token>, i: nat, open: nat, hi: nat) {
    ComesNext(ts, i, open, hi) && ts[open].text == "("
  }

  /** A list of columns in parens comes next, from `i` up to the token `after`; or none does, and `after` is `i`. */
  ghost predicate ListsColumns(ts: seq<Token>, i: nat, after: nat, hi: nat, columns: seq<string>) {
    && (forall open: nat | ParenNext(ts, i, open, hi) ::
          && after > 0 && EndsAt(ts, open, after - 1, hi)
          && columns == Declared(ts, open + 1, after - 1, ts[open].depth + 1, true))
    && ((forall open: nat :: !ParenNext(ts, i, open, hi)) ==> columns == [] && after == i)
  }

  lemma ColumnsAreListed(ts: seq<Token>, i: nat, after: nat, hi: nat, columns: seq<string>)
    requires i <= hi <= |ts|
    ensures ListsColumns(ts, i, after, hi, columns) <==> Columns(ts, i, hi) == (columns, after)
  {
    hide Declared, ClosingAt, EndsAt, ComesNext;
    var probe := SkipForward(ts, i, hi);
    forall at: nat ensures ParenNext(ts, i, at, hi) <==> at < hi && at == probe && ts[at].text == "(" {
      NextIsSkippedTo(ts, i, at, hi);
    }
    if probe < hi && ts[probe].text == "(" {
      assert ParenNext(ts, i, probe, hi);
      ClosingIsTheEnd(ts, probe, ClosingAt(ts, ts[probe].depth, probe + 1, hi), hi);
      if after > 0 {
        ClosingIsTheEnd(ts, probe, after - 1, hi);
      }
    }
  }

  /** The words MATERIALIZED and NOT stand at `at`, one behind another from `i`, and then comes the token `next`. */
  ghost predicate Modified(u: Unicode, ts: seq<Token>, i: nat, at: seq<nat>, next: nat, hi: nat)
    decreases |at|
  {
    if at == [] then ComesNext(ts, i, next, hi) && !IsModifying(u, ts[next])
    else ComesNext(ts, i, at[0], hi) && IsModifying(u, ts[at[0]]) && Modified(u, ts, at[0] + 1, at[1..], next, hi)
  }

  ghost predicate IsModifying(u: Unicode, t: Token) {
    t.kind == Ident && u.upper(t.value) in {"MATERIALIZED", "NOT"}
  }

  lemma {:induction false} ModifiersAreSkipped(u: Unicode, ts: seq<Token>, i: nat, at: seq<nat>, next: nat, hi: nat)
    requires Modified(u, ts, i, at, next, hi)
    ensures i <= next < hi <= |ts| && SkipModifiers(u, ts, SkipForward(ts, i, hi), hi) == next
    decreases |at|
  {
    hide SkipForward;
    if at == [] {
      NextIsSkippedTo(ts, i, next, hi);
    } else {
      NextIsSkippedTo(ts, i, at[0], hi);
      ModifiersAreSkipped(u, ts, at[0] + 1, at[1..], next, hi);
    }
  }

  lemma {:induction false} SkippedAreModifiers(u: Unicode, ts: seq<Token>, i: nat, hi: nat) returns (at: seq<nat>)
    requires hi <= |ts| && SkipModifiers(u, ts, SkipForward(ts, i, hi), hi) < hi
    ensures Modified(u, ts, i, at, SkipModifiers(u, ts, SkipForward(ts, i, hi), hi), hi)
    decreases |ts| - i
  {
    hide SkipForward;
    var first := SkipForward(ts, i, hi);
    NextIsSkippedTo(ts, i, first, hi);
    if IsModifier(u, ts[first]) {
      var rest := SkippedAreModifiers(u, ts, first + 1, hi);
      at := [first] + rest;
      assert at[1..] == rest;
    } else {
      at := [];
    }
  }

  /**
   From `i`, with only trivia between: a name, the columns if any are listed, AS, any of the modifying words,
   and the paren of the body, which ends where that paren's group does.
   */
  ghost predicate Declares(u: Unicode, ts: seq<Token>, i: nat, hi: nat, c: Cte, after: nat, marker: nat, at: seq<nat>) {
    && ComesNext(ts, i, c.at, hi) && ts[c.at].kind == Ident && c.name == ts[c.at].value
    && ListsColumns(ts, c.at + 1, after, hi, c.columns)
    && ComesNext(ts, after, marker, hi) && u.upper(ts[marker].value) == "AS"
    && Modified(u, ts, marker + 1, at, c.open, hi) && c.open < hi && ts[c.open].text == "("
    && EndsAt(ts, c.open, c.end, hi)
  }

  ghost predicate IsDeclared(u: Unicode, ts: seq<Token>, i: nat, hi: nat, c: Cte) {
    exists after: nat, marker: nat, at: seq<nat> :: Declares(u, ts, i, hi, c, after, marker, at)
  }

  /** What is read as a declaration is what is written as one. */
  lemma DeclarationsAreRead(u: Unicode, ts: seq<Token>, i: nat, hi: nat, c: Cte)
    requires hi <= |ts|
    ensures CteAt(u, ts, i, hi) == Some(c) <==> IsDeclared(u, ts, i, hi, c)
  {
    hide SkipForward, ClosingAt, Columns, SkipModifiers, ListsColumns, EndsAt, Modified;
    if CteAt(u, ts, i, hi) == Some(c) {
      ReadIsDeclared(u, ts, i, hi, c);
    }
    if after: nat, marker: nat, at: seq<nat> :| Declares(u, ts, i, hi, c, after, marker, at) {
      NextIsSkippedTo(ts, i, c.at, hi);
      ColumnsAreListed(ts, c.at + 1, after, hi, c.columns);
      NextIsSkippedTo(ts, after, marker, hi);
      ModifiersAreSkipped(u, ts, marker + 1, at, c.open, hi);
      ClosingIsTheEnd(ts, c.open, c.end, hi);
    }
  }

  lemma ReadIsDeclared(u: Unicode, ts: seq<Token>, i: nat, hi: nat, c: Cte)
    requires hi <= |ts| && CteAt(u, ts, i, hi) == Some(c)
    ensures IsDeclared(u, ts, i, hi, c)
  {
    hide SkipForward, ClosingAt, Columns, SkipModifiers, ListsColumns, EndsAt, Modified;
    NextIsSkippedTo(ts, i, c.at, hi);
    var (columns, after) := Columns(ts, c.at + 1, hi);
    ColumnsAreListed(ts, c.at + 1, after, hi, columns);
    var marker := SkipForward(ts, after, hi);
    NextIsSkippedTo(ts, after, marker, hi);
    var at := SkippedAreModifiers(u, ts, marker + 1, hi);
    ClosingIsTheEnd(ts, c.open, c.end, hi);
    assert Declares(u, ts, i, hi, c, after, marker, at);
  }

  // ----------------------------------------------------------------------- the list

  /** The token `end` has a comma for the next one that is not trivia. */
  ghost predicate CommaBehind(ts: seq<Token>, end: nat, m: nat, hi: nat) {
    ComesNext(ts, end + 1, m, hi) && ts[m].text == ","
  }

  /** The declarations from `i`, each behind a comma that comes next after the one before; none is left out. */
  ghost predicate IsList(u: Unicode, ts: seq<Token>, i: nat, hi: nat, list: seq<Cte>)
    decreases |list|
  {
    if list == [] then forall c :: !IsDeclared(u, ts, i, hi, c)
    else
      && IsDeclared(u, ts, i, hi, list[0])
      && (forall m: nat | CommaBehind(ts, list[0].end, m, hi) :: IsList(u, ts, m + 1, hi, list[1..]))
      && ((forall m: nat :: !CommaBehind(ts, list[0].end, m, hi)) ==> |list| == 1)
  }

  lemma {:induction false} ListIsRead(u: Unicode, ts: seq<Token>, i: nat, hi: nat)
    requires hi <= |ts|
    ensures IsList(u, ts, i, hi, CteList(u, ts, i, hi))
    decreases |ts| - i
  {
    hide SkipForward, CteAt, IsDeclared, CteList, CommaBehind;
    forall c ensures CteAt(u, ts, i, hi) == Some(c) <==> IsDeclared(u, ts, i, hi, c) {
      DeclarationsAreRead(u, ts, i, hi, c);
    }
    if i >= hi || CteAt(u, ts, i, hi).None? {
      NoCtes(u, ts, i, hi);
      NothingBehind(u, ts, i, hi);
    } else {
      var c, list := CteAt(u, ts, i, hi).value, CteList(u, ts, i, hi);
      var after := SkipForward(ts, c.end + 1, hi);
      forall m: nat ensures CommaBehind(ts, c.end, m, hi) <==> m < hi && m == after && ts[m].text == "," {
        NextComma(ts, c.end, m, hi);
      }
      var next := CteListStep(u, ts, i, hi);
      if next.Some? {
        ListIsRead(u, ts, next.value, hi);
        assert list[1..] == CteList(u, ts, next.value, hi);
      }
    }
  }

  lemma NextComma(ts: seq<Token>, end: nat, m: nat, hi: nat)
    requires hi <= |ts|
    ensures CommaBehind(ts, end, m, hi) <==> m < hi && m == SkipForward(ts, end + 1, hi) && ts[m].text == ","
  {
    hide SkipForward;
    NextIsSkippedTo(ts, end + 1, m, hi);
    if m < hi && m == SkipForward(ts, end + 1, hi) {
      assert end + 1 <= m;
    }
  }

  lemma NothingBehind(u: Unicode, ts: seq<Token>, i: nat, hi: nat)
    requires hi <= |ts|
    ensures i >= hi ==> forall c :: !IsDeclared(u, ts, i, hi, c)
  {
  }

  // ---------------------------------------------------------------- the clause itself

  /** A clause called `name` begins at `k`, no deeper than anything else of the span. */
  ghost predicate HasClause(lang: Language, ts: seq<Token>, lo: nat, hi: nat, name: string, k: nat, p: Phrase,
                            at: seq<nat>) {
    IsShallowest(ts, lo, hi, k) && Begins(lang.unicode, lang.clauses, ts, k, hi, p, at) && p.name == name
  }

  /** It is the first of those: a WITH is looked for so. */
  lemma {:induction false} FirstClauseIsFound(lang: Language, ts: seq<Token>, lo: nat, i: nat, hi: nat, name: string)
    requires lo <= i && hi <= |ts| && WellNamed(lang.clauses)
    ensures var found := ClauseEnd(lang, ts, i, hi, name, BaseDepth(ts, lo, hi));
            && (found.Some? ==>
                  exists k: nat, p, at ::
                    && i <= k && HasClause(lang, ts, lo, hi, name, k, p, at) && found == Some(PastLast(k, at))
                    && forall j: nat, q, bt | i <= j < k :: !HasClause(lang, ts, lo, hi, name, j, q, bt))
            && (found.None? ==> forall k: nat, p, at | i <= k :: !HasClause(lang, ts, lo, hi, name, k, p, at))
    decreases |ts| - i
  {
    hide FirstSpelled, WellNamed, Begins, BaseDepth, IsShallowest;
    if i < hi {
      FirstClauseIsFound(lang, ts, lo, i + 1, hi, name);
      ClauseHere(lang, ts, lo, i, hi, name);
    } else {
      forall k: nat, p, at | i <= k ensures !HasClause(lang, ts, lo, hi, name, k, p, at) {
        if HasClause(lang, ts, lo, hi, name, k, p, at) {
          BegunStands(lang.unicode, ts, k, hi, lang.clauses, p, at);
          assert false;
        }
      }
    }
  }

  lemma ClauseHere(lang: Language, ts: seq<Token>, lo: nat, k: nat, hi: nat, name: string)
    requires lo <= k < hi <= |ts| && WellNamed(lang.clauses)
    ensures var found := FirstSpelled(lang.unicode, ts, k, hi, lang.clauses);
            var here :=
              IsName(ts[k]) && ts[k].depth == BaseDepth(ts, lo, hi) && found.Some? && found.value.0.name == name;
            && (here ==>
                  exists p, at :: HasClause(lang, ts, lo, hi, name, k, p, at) && found.value.1 == PastLast(k, at))
            && (!here ==> forall p, at :: !HasClause(lang, ts, lo, hi, name, k, p, at))
  {
    hide FirstSpelled, WellNamed, Begins, BaseDepth, IsShallowest;
    FirstSpelledBegins(lang.unicode, ts, k, hi, lang.clauses);
    var found := FirstSpelled(lang.unicode, ts, k, hi, lang.clauses);
    if IsName(ts[k]) {
      ShallowestAreAtBase(ts, lo, hi, k);
      if found.Some? {
        var at :| Begins(lang.unicode, lang.clauses, ts, k, hi, found.value.0, at);
        assert found.value.0.name == name && IsShallowest(ts, lo, hi, k) ==>
            HasClause(lang, ts, lo, hi, name, k, found.value.0, at) && found.value.1 == PastLast(k, at);
      }
    }
    forall p, at | HasClause(lang, ts, lo, hi, name, k, p, at) ensures IsName(ts[k]) {
      BegunStands(lang.unicode, ts, k, hi, lang.clauses, p, at);
    }
  }

  /** The word RECURSIVE comes next from `i`. */
  ghost predicate RecursiveNext(u: Unicode, ts: seq<Token>, i: nat, r: nat, hi: nat) {
    ComesNext(ts, i, r, hi) && ts[r].kind == Ident && u.upper(ts[r].value) == "RECURSIVE"
  }

  /**
   What the WITH of a span declares: the list behind its first WITH, from behind the word RECURSIVE where that
   comes next, and nothing without one.
   */
  lemma WithListIs(lang: Language, ts: seq<Token>, lo: nat, hi: nat, remaining: nat)
    requires hi <= |ts| && remaining > 0 && WellNamed(lang.clauses)
    ensures var (list, recursive) := WithList(lang, ts, lo, hi, remaining);
            && ((forall k: nat, p, at | lo <= k :: !HasClause(lang, ts, lo, hi, "WITH", k, p, at)) ==>
                  list == [] && !recursive)
            && forall k: nat, p, at |
                 lo <= k && HasClause(lang, ts, lo, hi, "WITH", k, p, at)
                 && forall j: nat, q, bt | lo <= j < k :: !HasClause(lang, ts, lo, hi, "WITH", j, q, bt) ::
                 && (recursive <==> exists r: nat :: RecursiveNext(lang.unicode, ts, PastLast(k, at), r, hi))
                 && (forall r: nat | RecursiveNext(lang.unicode, ts, PastLast(k, at), r, hi) ::
                       IsList(lang.unicode, ts, r + 1, hi, list))
                 && (!recursive ==> IsList(lang.unicode, ts, PastLast(k, at), hi, list))
  {
    hide ClauseEnd, BaseDepth, HasClause, CteList, IsList, SaysRecursive, FirstCte, WellNamed;
    FirstClauseIsFound(lang, ts, lo, lo, hi, "WITH");
    var found := ClauseEnd(lang, ts, lo, hi, "WITH", BaseDepth(ts, lo, hi));
    if found.Some? {
      ListBehind(lang.unicode, ts, found.value, hi);
      forall k: nat, p, at |
          lo <= k && HasClause(lang, ts, lo, hi, "WITH", k, p, at)
          && forall j: nat, q, bt | lo <= j < k :: !HasClause(lang, ts, lo, hi, "WITH", j, q, bt)
        ensures PastLast(k, at) == found.value
      {
        SameClause(lang, ts, lo, hi, "WITH", k, p, at, found.value);
      }
    }
  }

  lemma SameClause(lang: Language, ts: seq<Token>, lo: nat, hi: nat, name: string, k: nat, p: Phrase, at: seq<nat>,
                   end: nat)
    requires hi <= |ts| && WellNamed(lang.clauses) && lo <= k && HasClause(lang, ts, lo, hi, name, k, p, at)
    requires forall j: nat, q, bt | lo <= j < k :: !HasClause(lang, ts, lo, hi, name, j, q, bt)
    requires exists k': nat, p', at' ::
               && lo <= k' && HasClause(lang, ts, lo, hi, name, k', p', at') && end == PastLast(k', at')
               && forall j: nat, q, bt | lo <= j < k' :: !HasClause(lang, ts, lo, hi, name, j, q, bt)
    ensures PastLast(k, at) == end
  {
    hide Begins, WellNamed, IsShallowest, FirstSpelled;
    var k': nat, p', at' :|
      && lo <= k' && HasClause(lang, ts, lo, hi, name, k', p', at') && end == PastLast(k', at')
      && forall j: nat, q, bt | lo <= j < k' :: !HasClause(lang, ts, lo, hi, name, j, q, bt);
    assert k == k';
    FirstSpelledBegins(lang.unicode, ts, k, hi, lang.clauses);
  }

  lemma ListBehind(u: Unicode, ts: seq<Token>, i: nat, hi: nat)
    requires hi <= |ts|
    ensures var list := CteList(u, ts, FirstCte(u, ts, i, hi), hi);
            && (SaysRecursive(u, ts, i, hi) <==> exists r: nat :: RecursiveNext(u, ts, i, r, hi))
            && (forall r: nat | RecursiveNext(u, ts, i, r, hi) :: IsList(u, ts, r + 1, hi, list))
            && (!SaysRecursive(u, ts, i, hi) ==> IsList(u, ts, i, hi, list))
  {
    hide SkipForward, CteList, IsList, ComesNext;
    var first := SkipForward(ts, i, hi);
    forall r: nat ensures ComesNext(ts, i, r, hi) <==> r < hi && i <= hi && first == r {
      NextIsSkippedTo(ts, i, r, hi);
    }
    if SaysRecursive(u, ts, i, hi) {
      assert RecursiveNext(u, ts, i, first, hi);
      SkippingKeepsTheList(u, ts, first + 1, hi);
    } else {
      SkippingKeepsTheList(u, ts, i, hi);
    }
  }

  /** A list is the same from the first token of it that is not trivia. */
  lemma SkippingKeepsTheList(u: Unicode, ts: seq<Token>, i: nat, hi: nat)
    requires hi <= |ts|
    ensures IsList(u, ts, i, hi, CteList(u, ts, SkipForward(ts, i, hi), hi))
  {
    hide IsList, CteAt, SkipForward;
    ListIsRead(u, ts, i, hi);
    SkippingKeepsTheFirst(u, ts, i, hi);
  }

  lemma SkippingKeepsTheFirst(u: Unicode, ts: seq<Token>, i: nat, hi: nat)
    requires hi <= |ts|
    ensures var first := SkipForward(ts, i, hi);
            CteAt(u, ts, first, hi) == CteAt(u, ts, i, hi) && (first >= hi ==> CteAt(u, ts, i, hi) == None)
  {
    hide Columns, SkipModifiers, SkipForward;
    SkipsOnce(ts, i, hi);
  }

  lemma {:induction false} SkipsOnce(ts: seq<Token>, i: nat, hi: nat)
    requires hi <= |ts|
    ensures SkipForward(ts, SkipForward(ts, i, hi), hi) == SkipForward(ts, i, hi)
    decreases hi - i
  {
    if i < hi && IsTrivia(ts[i]) {
      SkipsOnce(ts, i + 1, hi);
    }
  }

  // ------------------------------------------------------------ what the names stand for

  /** The columns declared, if any are, or else what the body puts out with these names in view. */
  function Meaning(lang: Language, ts: seq<Token>, c: Cte, seen: map<string, Projection>, remaining: nat): Projection {
    if c.columns != [] then Projection(c.columns, []) else Outputs(lang, ts, c.open + 1, c.end, seen, remaining)
  }

  /** Declarations read one after another, each with what the ones before it stand for in view. */
  ghost predicate ReadInTurn(lang: Language, ts: seq<Token>, list: seq<Cte>, seen: seq<map<string, Projection>>,
                             remaining: nat) {
    && |seen| == |list| + 1
    && forall k | 0 <= k < |list| ::
         seen[k + 1] == seen[k][list[k].name := Meaning(lang, ts, list[k], seen[k], remaining)]
  }

  lemma {:induction false} BoundInTurn(lang: Language, ts: seq<Token>, list: seq<Cte>, before: map<string, Projection>,
                                       remaining: nat)
    returns (seen: seq<map<string, Projection>>)
    ensures ReadInTurn(lang, ts, list, seen, remaining)
    ensures seen[0] == before && seen[|list|] == Bound(lang, ts, list, before, remaining)
    decreases |list|
  {
    hide Outputs;
    if list == [] {
      seen := [before];
    } else {
      var c := list[0];
      assert list == [c] + list[1..];
      BoundStep(lang, ts, c, list[1..], before, remaining);
      var rest :=
        BoundInTurn(lang, ts, list[1..], before[c.name := Meaning(lang, ts, c, before, remaining)], remaining);
      seen := [before] + rest;
      assert forall k | 0 < k < |list| ::
          list[k] == list[1..][k - 1] && seen[k] == rest[k - 1] && seen[k + 1] == rest[k];
    }
  }

  /** What a WITH's names stand for: no name is in view of its own body or of one before it. */
  lemma NamesAreReadInTurn(lang: Language, ts: seq<Token>, lo: nat, hi: nat, remaining: nat)
    returns (seen: seq<map<string, Projection>>)
    requires hi <= |ts|
    ensures var list := WithList(lang, ts, lo, hi, remaining).0;
            && ReadInTurn(lang, ts, list, seen, remaining)
            && seen[0] == map[] && seen[|list|] == Declarations(lang, ts, lo, hi, remaining)
  {
    hide Outputs, CteList, ClauseEnd, BaseDepth, Bound;
    var list := WithList(lang, ts, lo, hi, remaining).0;
    seen := BoundInTurn(lang, ts, list, map[], remaining);
    NothingBound(lang, ts, map[], remaining);
  }

  /** Names of a WITH of the span's own hide those given, and all of them are in view of its derived tables. */
  lemma OwnNamesComeFirst(lang: Language, ts: seq<Token>, lo: nat, hi: nat, ctes: map<string, Projection>,
                          remaining: nat, visible: map<string, Projection>, nested: seq<Projection>)
    requires remaining > 0 && hi <= |ts|
    requires var own := Declarations(lang, ts, lo, hi, remaining - 1);
             forall n :: if n in own then n in visible && visible[n] == own[n]
                         else if n in ctes then n in visible && visible[n] == ctes[n]
                         else n !in visible
    requires |nested| == |lang.derived(ts, lo, hi)|
    requires forall k | 0 <= k < |nested| ::
               nested[k] == var d := lang.derived(ts, lo, hi)[k];
                            if d.columns != [] then Projection(d.columns, [])
                            else Outputs(lang, ts, d.lo, d.hi, visible, remaining - 1)
    ensures Outputs(lang, ts, lo, hi, ctes, remaining) == lang.outputs(ts, lo, hi, visible, nested)
  {
    hide Declarations, Nested;
    var own := Declarations(lang, ts, lo, hi, remaining - 1);
    assert visible == ctes + own;
    NestedAre(lang, ts, lo, hi, visible, remaining - 1, nested, 0);
    assert nested[0..] == nested;
  }

  lemma {:induction false} NestedAre(lang: Language, ts: seq<Token>, lo: nat, hi: nat,
                                     visible: map<string, Projection>, remaining: nat, nested: seq<Projection>, k: nat)
    requires k <= |nested| == |lang.derived(ts, lo, hi)|
    requires forall k | 0 <= k < |nested| ::
               nested[k] == var d := lang.derived(ts, lo, hi)[k];
                            if d.columns != [] then Projection(d.columns, [])
                            else Outputs(lang, ts, d.lo, d.hi, visible, remaining)
    ensures Nested(lang, ts, lo, hi, k, visible, remaining) == nested[k..]
    decreases |nested| - k
  {
    hide Outputs;
    if k < |nested| {
      NestedAre(lang, ts, lo, hi, visible, remaining, nested, k + 1);
      assert nested[k..] == [nested[k]] + nested[k + 1..];
    }
  }

  /** A body sees the names before its own, and its own if the WITH is recursive, each as the WITH leaves it. */
  lemma EachBodySees(lang: Language, ts: seq<Token>, lo: nat, hi: nat, remaining: nat, k: nat)
    requires hi <= |ts| && k < |WithList(lang, ts, lo, hi, remaining).0|
    ensures var (list, recursive) := WithList(lang, ts, lo, hi, remaining);
            var all, scopes :=
              Declarations(lang, ts, lo, hi, remaining), BodyScopes(lang, ts, lo, hi, remaining);
            && (list[k].open + 1, list[k].end) in scopes
            && var seen := scopes[(list[k].open + 1, list[k].end)];
               && (forall n :: n in seen
                          <==> (exists j :: 0 <= j < k && list[j].name == n) || (recursive && n == list[k].name))
               && (forall n | n in seen :: n in all && seen[n] == all[n])
  {
    hide WithList, BodyScopes, Declarations, IsCte;
    var (list, recursive) := WithList(lang, ts, lo, hi, remaining);
    BodyScopesAre(lang, ts, lo, hi, remaining);
    AllAreBound(lang, ts, lo, hi, remaining);
    assert list[k].name in Declarations(lang, ts, lo, hi, remaining);
    assert forall n :: n in NameSet(list[..k]) <==> exists j :: 0 <= j < k && list[j].name == n by {
      forall n, j | 0 <= j < k && list[j].name == n ensures n in NameSet(list[..k]) {
        assert list[..k][j].name == n;
      }
      forall n | n in NameSet(list[..k]) ensures exists j :: 0 <= j < k && list[j].name == n {
        var j :| 0 <= j < |list[..k]| && list[..k][j].name == n;
        assert list[j].name == n;
      }
    }
  }

  lemma AllAreBound(lang: Language, ts: seq<Token>, lo: nat, hi: nat, remaining: nat)
    requires hi <= |ts|
    ensures var list := WithList(lang, ts, lo, hi, remaining).0;
            forall k | 0 <= k < |list| :: list[k].name in Declarations(lang, ts, lo, hi, remaining)
  {
    hide Outputs, CteList, ClauseEnd, BaseDepth, Bound;
    BoundNames(lang, ts, WithList(lang, ts, lo, hi, remaining).0, map[], remaining);
  }
}
