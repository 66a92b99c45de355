/**
 The WITH clause (engine/analyse.py): which names each body sees and what they stand for. The two
 functions that read it call one another; each call is told its place on the stack.
 */
module Ctes {
  import opened Wrappers
  import opened Text
  import opened Lexer
  import opened Parens
  import opened Clauses
  import opened Quoting
  import opened Branches

  datatype Projection = Projection(columns: seq<string>, stars: seq<string>)

  /** A derived table's body, with the columns it declares. */
  datatype Derived = Derived(lo: nat, hi: nat, columns: seq<string>)

  /**
   What the reading takes from elsewhere: the dialect's clauses, the derived tables of a span, and
   what a select list puts out given the names and tables it can see.
   */
  datatype Language = Language(
    unicode: Unicode,
    clauses: seq<Phrase>,
    derived: (seq<Token>, nat, nat) -> seq<Derived>,
    outputs: (seq<Token>, nat, nat, map<string, Projection>, seq<Projection>) -> Projection)

  const MAX_NESTING: nat := 64

  /** How many calls of the functions that call one another may stand on the stack at once. */
  const STACK: nat := 3 * MAX_NESTING + 3

  predicate IsName(t: Token) {
    t.kind == Ident
  }

  // ------------------------------------------------------------------ small scans

  /** Just past the first clause called `name` at one depth, or None. */
  function ClauseEnd(lang: Language, ts: seq<Token>, i: nat, hi: nat, name: string, depth: nat): (after: Option<nat>)
    requires hi <= |ts|
    decreases |ts| - i
  {
    if i >= hi then None
    else
      var found := FirstSpelled(lang.unicode, ts, i, hi, lang.clauses);
      if IsName(ts[i]) && ts[i].depth == depth && found.Some? && found.value.0.name == name then Some(found.value.1)
      else ClauseEnd(lang, ts, i + 1, hi, name, depth)
  }

  /** `_after_clause` restricted to one depth. */
  method AfterClause(lang: Language, ts: seq<Token>, lo: nat, hi: nat, name: string, depth: nat)
    returns (after: Option<nat>)
    requires hi <= |ts|
    ensures after == ClauseEnd(lang, ts, lo, hi, name, depth)
  {
    hide FirstSpelled;
    var grouped := ByFirstWord(lang.clauses);
    var index := lo;
    while index < hi
      invariant lo <= index
      invariant ClauseEnd(lang, ts, index, hi, name, depth) == ClauseEnd(lang, ts, lo, hi, name, depth)
    {
      if IsName(ts[index]) && ts[index].depth == depth {
        var matched := ScanClauseStart(lang.unicode, ts, index, hi, lang.clauses, grouped);
        if matched.Some? && matched.value.0.name == name {
          return Some(matched.value.1);
        }
      }
      index := index + 1;
    }
    after := None;
  }

  /** The first name after each comma of the group's own level. */
  function Declared(ts: seq<Token>, i: nat, close: nat, depth: nat, wanted: bool): seq<string>
    requires close <= |ts|
    decreases |ts| - i
  {
    if i >= close then []
    else if IsPunct(ts[i], ",") && ts[i].depth == depth then Declared(ts, i + 1, close, depth, true)
    else if wanted && IsName(ts[i]) then [ts[i].value] + Declared(ts, i + 1, close, depth, false)
    else Declared(ts, i + 1, close, depth, wanted)
  }

  /** An optional `(x, y)` list after `index`: the names it declares, and where it ends. */
  function Columns(ts: seq<Token>, index: nat, hi: nat): (r: (seq<string>, nat))
    requires hi <= |ts|
    ensures index <= r.1
  {
    var probe := SkipForward(ts, index, hi);
    if probe >= hi || ts[probe].text != "(" then ([], index)
    else
      var close := ClosingAt(ts, ts[probe].depth, probe + 1, hi);
      (Declared(ts, probe + 1, close, ts[probe].depth + 1, true), close + 1)
  }

  /** `_read_declared_columns`. */
  method ReadDeclaredColumns(ts: seq<Token>, index: nat, hi: nat) returns (names: seq<string>, next: nat)
    requires DepthsCount(ts) && hi <= |ts|
    ensures (names, next) == Columns(ts, index, hi)
  {
    hide Level, CountBefore, Declared, SkipForward, ClosingAt;
    var probe := SkipForward(ts, index, hi);
    if probe >= hi || ts[probe].text != "(" {
      return [], index;
    }
    var close := MatchingParen(ts, probe, hi);
    names := DeclaredNames(ts, probe + 1, close, ts[probe].depth + 1);
    next := close + 1;
  }

  method DeclaredNames(ts: seq<Token>, first: nat, close: nat, depth: nat) returns (names: seq<string>)
    requires first <= close <= |ts|
    ensures names == Declared(ts, first, close, depth, true)
  {
    names := [];
    var wanted := true;
    for i := first to close
      invariant names + Declared(ts, i, close, depth, wanted) == Declared(ts, first, close, depth, true)
    {
      ghost var rest := Declared(ts, i + 1, close, depth, false);
      if IsPunct(ts[i], ",") && ts[i].depth == depth {
        wanted := true;
      } else if wanted && IsName(ts[i]) {
        assert names + ([ts[i].value] + rest) == names + [ts[i].value] + rest;
        names := names + [ts[i].value];
        wanted := false;
      }
    }
  }

  // ------------------------------------------------------------------- WITH clauses

  /** One `name (columns) AS (body)`: where its name and its paren stand, and where its body ends. */
  datatype Cte = Cte(at: nat, name: string, columns: seq<string>, open: nat, end: nat)

  predicate IsModifier(u: Unicode, t: Token) {
    IsName(t) && (u.upper(t.value) == "MATERIALIZED" || u.upper(t.value) == "NOT")
  }

  /** Past `MATERIALIZED` or `NOT MATERIALIZED`. */
  function SkipModifiers(u: Unicode, ts: seq<Token>, i: nat, hi: nat): (r: nat)
    requires hi <= |ts|
    ensures i <= r
    decreases |ts| - i
  {
    if i < hi && IsModifier(u, ts[i]) then SkipModifiers(u, ts, SkipForward(ts, i + 1, hi), hi) else i
  }

  /** The declaration that starts at or after `index`, when there is a whole one. */
  function CteAt(u: Unicode, ts: seq<Token>, index: nat, hi: nat): (r: Option<Cte>)
    requires hi <= |ts|
    ensures r.Some? ==> index <= r.value.at < r.value.open < r.value.end <= hi
  {
    var at := SkipForward(ts, index, hi);
    if at >= hi || !IsName(ts[at]) then None
    else
      var (columns, after) := Columns(ts, at + 1, hi);
      var marker := SkipForward(ts, after, hi);
      if marker >= hi || u.upper(ts[marker].value) != "AS" then None
      else
        var open := SkipModifiers(u, ts, SkipForward(ts, marker + 1, hi), hi);
        if open >= hi || ts[open].text != "(" then None
        else Some(Cte(at, ts[at].value, columns, open, ClosingAt(ts, ts[open].depth, open + 1, hi)))
  }

  /** The declarations from `index`, one after each comma. */
  function CteList(u: Unicode, ts: seq<Token>, index: nat, hi: nat): (list: seq<Cte>)
    requires hi <= |ts|
    ensures forall k | 0 <= k < |list| :: list[k].end <= hi
    decreases |ts| - index
  {
    if index >= hi || CteAt(u, ts, index, hi).None? then []
    else
      var one := CteAt(u, ts, index, hi).value;
      var next := SkipForward(ts, one.end + 1, hi);
      [one] + if next < hi && ts[next].text == "," then CteList(u, ts, next + 1, hi) else []
  }

  predicate SaysRecursive(u: Unicode, ts: seq<Token>, start: nat, hi: nat)
    requires hi <= |ts|
  {
    var i := SkipForward(ts, start, hi);
    i < hi && IsName(ts[i]) && u.upper(ts[i].value) == "RECURSIVE"
  }

  function FirstCte(u: Unicode, ts: seq<Token>, start: nat, hi: nat): nat
    requires hi <= |ts|
  {
    var i := SkipForward(ts, start, hi);
    if SaysRecursive(u, ts, start, hi) then SkipForward(ts, i + 1, hi) else i
  }

  predicate IsCte(ts: seq<Token>, c: Cte, lo: nat, hi: nat) {
    && lo <= c.at < c.open < c.end <= hi <= |ts| && c.name == ts[c.at].value && ts[c.open].text == "("
    && c.end == ClosingAt(ts, ts[c.open].depth, c.open + 1, hi)
  }

  /** The bodies come one after another: each declaration starts past the end of the one before. */
  ghost predicate InOrder(ts: seq<Token>, list: seq<Cte>, lo: nat, hi: nat) {
    && (forall k | 0 <= k < |list| :: IsCte(ts, list[k], lo, hi))
    && (forall j, k | 0 <= j < k < |list| :: list[j].end < list[k].at)
  }

  lemma InOrderCons(ts: seq<Token>, one: Cte, rest: seq<Cte>, lo: nat, hi: nat)
    requires IsCte(ts, one, lo, hi) && InOrder(ts, rest, one.end + 1, hi)
    ensures InOrder(ts, [one] + rest, lo, hi)
  {
    hide ClosingAt;
    var list := [one] + rest;
    assert forall k | 1 <= k < |list| :: list[k] == rest[k - 1];
    assert forall k | 0 <= k < |rest| :: IsCte(ts, rest[k], one.end + 1, hi);
  }

  lemma CteAtIsCte(u: Unicode, ts: seq<Token>, index: nat, hi: nat)
    requires hi <= |ts| && CteAt(u, ts, index, hi).Some?
    ensures IsCte(ts, CteAt(u, ts, index, hi).value, index, hi)
  {
    hide SkipForward, ClosingAt, Columns, SkipModifiers;
  }

  lemma NothingIsInOrder(ts: seq<Token>, lo: nat, hi: nat)
    ensures InOrder(ts, [], lo, hi)
  {
  }

  lemma CteListStep(u: Unicode, ts: seq<Token>, index: nat, hi: nat) returns (next: Option<nat>)
    requires index < hi <= |ts| && CteAt(u, ts, index, hi).Some?
    ensures var one := CteAt(u, ts, index, hi).value;
            var after := SkipForward(ts, one.end + 1, hi);
            && next == (if after < hi && ts[after].text == "," then Some(after + 1) else None)
            && (next.Some? ==> one.end < next.value && next.value > index)
            && CteList(u, ts, index, hi) == [one] + if next.Some? then CteList(u, ts, next.value, hi) else []
  {
    hide CteAt;
    var after := SkipForward(ts, CteAt(u, ts, index, hi).value.end + 1, hi);
    next := if after < hi && ts[after].text == "," then Some(after + 1) else None;
  }

  lemma {:induction false} CteListIsInOrder(u: Unicode, ts: seq<Token>, index: nat, lo: nat, hi: nat)
    requires hi <= |ts| && lo <= index
    ensures InOrder(ts, CteList(u, ts, index, hi), lo, hi)
    decreases |ts| - index
  {
    hide SkipForward, CteAt, IsCte, InOrder, CteList;
    if index < hi && CteAt(u, ts, index, hi).Some? {
      var one := CteAt(u, ts, index, hi).value;
      CteAtIsCte(u, ts, index, hi);
      StartsLater(ts, one, index, lo, hi);
      var next := CteListStep(u, ts, index, hi);
      if next.Some? {
        CteListIsInOrder(u, ts, next.value, one.end + 1, hi);
        InOrderCons(ts, one, CteList(u, ts, next.value, hi), lo, hi);
      } else {
        NothingIsInOrder(ts, one.end + 1, hi);
        InOrderCons(ts, one, [], lo, hi);
      }
    } else {
      NothingIsInOrder(ts, lo, hi);
      NoCtes(u, ts, index, hi);
    }
  }

  lemma NoCtes(u: Unicode, ts: seq<Token>, index: nat, hi: nat)
    requires hi <= |ts| && (index >= hi || CteAt(u, ts, index, hi).None?)
    ensures CteList(u, ts, index, hi) == []
  {
  }

  lemma StartsLater(ts: seq<Token>, c: Cte, lo: nat, lo': nat, hi: nat)
    requires IsCte(ts, c, lo, hi) && lo' <= lo
    ensures IsCte(ts, c, lo', hi)
  {
  }

  function NameSet(list: seq<Cte>): set<string> {
    set k | 0 <= k < |list| :: list[k].name
  }

  /** The names the body of declaration `k` sees: those written before it, and its own iff recursive. */
  function Sees(list: seq<Cte>, k: nat, recursive: bool): set<string>
    requires k < |list|
  {
    NameSet(list[..k]) + if recursive then {list[k].name} else {}
  }

  // ------------------------------------------------------- what each name stands for

  /** `select_outputs`: nothing once the nesting allowed is used up; spans lie within the stream. */
  function Outputs(lang: Language, ts: seq<Token>, lo: nat, hi: nat, ctes: map<string, Projection>,
                   remaining: nat): Projection
    decreases remaining, 0, 0
  {
    if remaining == 0 || hi > |ts| then Projection([], [])
    else
      var visible := ctes + Declarations(lang, ts, lo, hi, remaining - 1);
      lang.outputs(ts, lo, hi, visible, Nested(lang, ts, lo, hi, 0, visible, remaining - 1))
  }

  /** The projections of the derived tables from the `k`-th on. */
  function Nested(lang: Language, ts: seq<Token>, lo: nat, hi: nat, k: nat, visible: map<string, Projection>,
                  remaining: nat)
    : seq<Projection>
    requires k <= |lang.derived(ts, lo, hi)|
    decreases remaining, 1, |lang.derived(ts, lo, hi)| - k
  {
    if k == |lang.derived(ts, lo, hi)| then []
    else
      var d := lang.derived(ts, lo, hi)[k];
      [if d.columns != [] then Projection(d.columns, []) else Outputs(lang, ts, d.lo, d.hi, visible, remaining)]
        + Nested(lang, ts, lo, hi, k + 1, visible, remaining)
  }

  /** Every name a leading WITH declares, with what it puts out. */
  function Declarations(lang: Language, ts: seq<Token>, lo: nat, hi: nat, remaining: nat): map<string, Projection>
    requires hi <= |ts|
    decreases remaining, 3, 0
  {
    var start := ClauseEnd(lang, ts, lo, hi, "WITH", BaseDepth(ts, lo, hi));
    if start.None? || remaining == 0 then map[]
    else Bound(lang, ts, CteList(lang.unicode, ts, FirstCte(lang.unicode, ts, start.value, hi), hi), map[], remaining)
  }

  /** Each declaration read with only those before it in view. */
  function Bound(lang: Language, ts: seq<Token>, list: seq<Cte>, before: map<string, Projection>, remaining: nat)
    : (after: map<string, Projection>)
    decreases remaining, 2, |list|
  {
    if list == [] then before
    else
      var c := list[0];
      var p :=
        if c.columns != [] then Projection(c.columns, []) else Outputs(lang, ts, c.open + 1, c.end, before, remaining);
      Bound(lang, ts, list[1..], before[c.name := p], remaining)
  }

  // ---------------------------------------------------------------- the three walks

  method SkipTrivia(ts: seq<Token>, index: nat, hi: nat) returns (i: nat)
    requires hi <= |ts|
    ensures i == SkipForward(ts, index, hi)
  {
    i := index;
    while i < hi && IsTrivia(ts[i])
      invariant SkipForward(ts, i, hi) == SkipForward(ts, index, hi)
      decreases |ts| - i
    {
      i := i + 1;
    }
  }

  /** One turn of the loop of `_read_ctes`: a whole declaration, or the reason to stop. */
  method ReadCte(u: Unicode, ts: seq<Token>, start: nat, hi: nat) returns (c: Option<Cte>)
    requires DepthsCount(ts) && hi <= |ts|
    ensures c == CteAt(u, ts, start, hi)
  {
    hide Level, CountBefore, Declared, ClosingAt, SkipForward, Columns, DepthsCount, SkipModifiers;
    var at := SkipTrivia(ts, start, hi);
    if at >= hi || !IsName(ts[at]) {
      return None;
    }
    var columns, after := ReadDeclaredColumns(ts, at + 1, hi);
    var index := SkipTrivia(ts, after, hi);
    if index >= hi || u.upper(ts[index].value) != "AS" {
      return None;
    }
    index := SkipTrivia(ts, index + 1, hi);
    index := PastModifiers(u, ts, index, hi);
    if index >= hi || ts[index].text != "(" {
      return None;
    }
    var close := MatchingParen(ts, index, hi);
    c := Some(Cte(at, ts[at].value, columns, index, close));
  }

  method PastModifiers(u: Unicode, ts: seq<Token>, start: nat, hi: nat) returns (index: nat)
    requires hi <= |ts|
    ensures index == SkipModifiers(u, ts, start, hi)
  {
    hide SkipForward;
    index := start;
    while index < hi && IsModifier(u, ts[index])
      invariant SkipModifiers(u, ts, index, hi) == SkipModifiers(u, ts, start, hi)
      decreases |ts| - index
    {
      index := SkipTrivia(ts, index + 1, hi);
    }
  }

  function Restrict(ctes: map<string, Projection>, names: set<string>): map<string, Projection> {
    map n | n in names && n in ctes :: ctes[n]
  }

  /** The span a declared body is filed under: it starts right after the paren. */
  function SpanOf(c: Cte): (nat, nat) {
    (c.open + 1, c.end)
  }

  /** Each of the first `n` bodies' spans leads to exactly what that body sees, and nothing else is a span. */
  ghost predicate ScopesAre(scopes: map<(nat, nat), map<string, Projection>>, list: seq<Cte>, n: nat, recursive: bool,
                            ctes: map<string, Projection>)
    requires n <= |list|
  {
    && (forall k | 0 <= k < n ::
         SpanOf(list[k]) in scopes && scopes[SpanOf(list[k])] == Restrict(ctes, Sees(list, k, recursive)))
    && (forall span | span in scopes :: exists k | 0 <= k < n :: span == SpanOf(list[k]))
  }

  /** The declarations of the WITH that leads a span. */
  function WithList(lang: Language, ts: seq<Token>, lo: nat, hi: nat, remaining: nat): (seq<Cte>, bool)
    requires hi <= |ts|
  {
    var start := ClauseEnd(lang, ts, lo, hi, "WITH", BaseDepth(ts, lo, hi));
    if start.None? || remaining == 0 then ([], false)
    else
      (CteList(lang.unicode, ts, FirstCte(lang.unicode, ts, start.value, hi), hi),
       SaysRecursive(lang.unicode, ts, start.value, hi))
  }

  /** What the loop has noted of each declaration so far. */
  ghost predicate VisibleAre(visible: seq<((nat, nat), set<string>)>, done: seq<Cte>, recursive: bool) {
    && |visible| == |done|
    && forall k | 0 <= k < |done| :: visible[k] == ((done[k].open + 1, done[k].end), Sees(done, k, recursive))
  }

  lemma VisibleGrows(visible: seq<((nat, nat), set<string>)>, done: seq<Cte>, recursive: bool, c: Cte)
    requires VisibleAre(visible, done, recursive)
    ensures var own := if recursive then {c.name} else {};
            VisibleAre(visible + [((c.open + 1, c.end), NameSet(done) + own)], done + [c], recursive)
    ensures NameSet(done + [c]) == NameSet(done) + {c.name}
  {
    var more := done + [c];
    assert forall k | 0 <= k <= |done| :: more[..k] == done[..k];
    assert done[..|done|] == done;
    assert more[|done|] == c;
  }

  /** What one declaration is bound to, given those before it. */
  function Standing(lang: Language, ts: seq<Token>, c: Cte, before: map<string, Projection>, remaining: nat): Projection
  {
    if c.columns != [] then Projection(c.columns, []) else Outputs(lang, ts, c.open + 1, c.end, before, remaining)
  }

  lemma BoundStep(lang: Language, ts: seq<Token>, c: Cte, rest: seq<Cte>, before: map<string, Projection>,
                  remaining: nat)
    ensures Bound(lang, ts, [c] + rest, before, remaining)
         == Bound(lang, ts, rest, before[c.name := Standing(lang, ts, c, before, remaining)], remaining)
    ensures Bound(lang, ts, [], before, remaining) == before
  {
    assert ([c] + rest)[1..] == rest;
  }

  /** The loop of `_read_ctes`. */
  method ReadList(lang: Language, ts: seq<Token>, first: nat, hi: nat, recursive: bool, remaining: nat,
                  ghost frame: nat)
    returns (ctes: map<string, Projection>, visible: seq<((nat, nat), set<string>)>)
    requires DepthsCount(ts) && hi <= |ts| && frame + 2 * remaining + 1 <= STACK
    ensures ctes == Bound(lang, ts, CteList(lang.unicode, ts, first, hi), map[], remaining)
    ensures VisibleAre(visible, CteList(lang.unicode, ts, first, hi), recursive)
    decreases remaining, 1, 0
  {
    hide DepthsCount, SkipForward, CteAt, CteList, Bound, Outputs, Nested, Declarations, VisibleAre, NameSet;
    ghost var list := CteList(lang.unicode, ts, first, hi);
    ghost var done: seq<Cte> := [];
    ctes, visible := map[], [];
    NothingVisible(recursive);
    var index, more := first, true;
    while more
      invariant more ==> done + CteList(lang.unicode, ts, index, hi) == list
      invariant more ==>
          Bound(lang, ts, CteList(lang.unicode, ts, index, hi), ctes, remaining)
          == Bound(lang, ts, list, map[], remaining)
      invariant !more ==> done == list && ctes == Bound(lang, ts, list, map[], remaining)
      invariant VisibleAre(visible, done, recursive) && ctes.Keys == NameSet(done)
      decreases more, |ts| + 1 - index
    {
      var next := ReadCte(lang.unicode, ts, index, hi);
      if index >= hi || next.None? {
        NoCtes(lang.unicode, ts, index, hi);
        NothingBound(lang, ts, ctes, remaining);
        assert done + [] == done;
        more := false;
      } else {
        var c := next.value;
        var p := Projection(c.columns, []);
        if c.columns == [] {
          p := SelectOutputs(lang, ts, c.open + 1, c.end, ctes, remaining, frame + 1);
        }
        VisibleGrows(visible, done, recursive, c);
        visible := visible + [((c.open + 1, c.end), ctes.Keys + if recursive then {c.name} else {})];
        ghost var following := CteListStep(lang.unicode, ts, index, hi);
        ghost var rest := if following.Some? then CteList(lang.unicode, ts, following.value, hi) else [];
        BoundStep(lang, ts, c, rest, ctes, remaining);
        NothingBound(lang, ts, ctes[c.name := p], remaining);
        assert done + ([c] + rest) == done + [c] + rest;
        assert done + [c] + [] == done + [c];
        done := done + [c];
        ctes := ctes[c.name := p];
        index := SkipTrivia(ts, c.end + 1, hi);
        more := index < hi && ts[index].text == ",";
        index := index + 1;
      }
    }
  }

  lemma NothingBound(lang: Language, ts: seq<Token>, before: map<string, Projection>, remaining: nat)
    ensures Bound(lang, ts, [], before, remaining) == before
  {
  }

  /** `select_outputs`, the `frame`-th call on the stack. */
  method SelectOutputs(lang: Language, ts: seq<Token>, lo: nat, hi: nat, ctes: map<string, Projection>, remaining: nat,
                       ghost frame: nat)
    returns (p: Projection)
    requires DepthsCount(ts) && frame + 2 * remaining <= STACK
    ensures p == Outputs(lang, ts, lo, hi, ctes, remaining)
    decreases remaining, 0, 0
  {
    hide DepthsCount, Declarations, Nested, BodyScopes;
    if remaining == 0 || hi > |ts| {
      return Projection([], []);
    }
    var declared, _ := ReadCtes(lang, ts, lo, hi, remaining - 1, frame + 1);
    var visible := ctes + declared;
    var nested := NestedOutputs(lang, ts, lo, hi, visible, remaining - 1, frame);
    p := lang.outputs(ts, lo, hi, visible, nested);
  }

  /** The loop of `select_outputs` over its derived tables. */
  method NestedOutputs(lang: Language, ts: seq<Token>, lo: nat, hi: nat, visible: map<string, Projection>,
                       remaining: nat, ghost frame: nat)
    returns (nested: seq<Projection>)
    requires DepthsCount(ts) && frame + 1 + 2 * remaining <= STACK
    ensures nested == Nested(lang, ts, lo, hi, 0, visible, remaining)
    decreases remaining, 1, 0
  {
    hide DepthsCount, Outputs;
    nested := [];
    var derived := lang.derived(ts, lo, hi);
    for k := 0 to |derived|
      invariant nested + Nested(lang, ts, lo, hi, k, visible, remaining)
             == Nested(lang, ts, lo, hi, 0, visible, remaining)
    {
      var p := Projection(derived[k].columns, []);
      if derived[k].columns == [] {
        p := SelectOutputs(lang, ts, derived[k].lo, derived[k].hi, visible, remaining, frame + 1);
      }
      ghost var rest := Nested(lang, ts, lo, hi, k + 1, visible, remaining);
      assert nested + ([p] + rest) == nested + [p] + rest;
      nested := nested + [p];
    }
  }

  /** `_read_ctes`, the `frame`-th call on the stack. */
  method ReadCtes(lang: Language, ts: seq<Token>, lo: nat, hi: nat, remaining: nat, ghost frame: nat)
    returns (ctes: map<string, Projection>, scopes: map<(nat, nat), map<string, Projection>>)
    requires DepthsCount(ts) && hi <= |ts| && frame + 2 * remaining + 1 <= STACK
    ensures ctes == Declarations(lang, ts, lo, hi, remaining)
    ensures scopes == BodyScopes(lang, ts, lo, hi, remaining)
    decreases remaining, 2, 0
  {
    hide DepthsCount, SkipForward, ClauseEnd, BaseDepth, CteList, Bound, Outputs, VisibleAre;
    ctes, scopes := map[], map[];
    var start := AfterClause(lang, ts, lo, hi, "WITH", BaseDepth(ts, lo, hi));
    if start.None? || remaining == 0 {
      return;
    }
    var index := SkipTrivia(ts, start.value, hi);
    var recursive := index < hi && IsName(ts[index]) && lang.unicode.upper(ts[index].value) == "RECURSIVE";
    if recursive {
      index := SkipTrivia(ts, index + 1, hi);
    }
    var visible;
    ctes, visible := ReadList(lang, ts, index, hi, recursive, remaining, frame);
    scopes := ScopesOf(lang, ts, index, hi, ctes, visible, recursive);
  }

  /** The bodies' spans with what each sees. */
  method ScopesOf(lang: Language, ts: seq<Token>, index: nat, hi: nat, ctes: map<string, Projection>,
                  visible: seq<((nat, nat), set<string>)>, ghost recursive: bool)
    returns (scopes: map<(nat, nat), map<string, Projection>>)
    requires hi <= |ts| && VisibleAre(visible, CteList(lang.unicode, ts, index, hi), recursive)
    ensures var list := CteList(lang.unicode, ts, index, hi); scopes == Filled(list, |list|, recursive, ctes)
  {
    hide CteList, Sees, Restrict;
    ghost var list := CteList(lang.unicode, ts, index, hi);
    scopes := map[];
    for k := 0 to |visible|
      invariant scopes == Filled(list, k, recursive, ctes)
    {
      scopes := scopes[visible[k].0 := Restrict(ctes, visible[k].1)];
    }
  }

  /** What each of the first `k` bodies sees, under the span its declaration files it at. */
  function Filled(list: seq<Cte>, k: nat, recursive: bool, ctes: map<string, Projection>)
    : map<(nat, nat), map<string, Projection>>
    requires k <= |list|
  {
    if k == 0 then map[]
    else
      Filled(list, k - 1, recursive, ctes)[SpanOf(list[k - 1]) := Restrict(ctes, Sees(list, k - 1, recursive))]
  }

  /** What each body of a span's WITH sees. */
  function BodyScopes(lang: Language, ts: seq<Token>, lo: nat, hi: nat, remaining: nat)
    : map<(nat, nat), map<string, Projection>>
    requires hi <= |ts|
  {
    var (list, recursive) := WithList(lang, ts, lo, hi, remaining);
    Filled(list, |list|, recursive, Declarations(lang, ts, lo, hi, remaining))
  }

  lemma {:induction false} FilledIs(list: seq<Cte>, k: nat, recursive: bool, ctes: map<string, Projection>)
    requires k <= |list| && forall i, j | 0 <= i < j < |list| :: SpanOf(list[i]) != SpanOf(list[j])
    ensures ScopesAre(Filled(list, k, recursive, ctes), list, k, recursive, ctes)
  {
    hide Sees, Restrict, SpanOf;
    if k > 0 {
      FilledIs(list, k - 1, recursive, ctes);
    }
  }

  /** Each body of a WITH sees exactly what its place in the list lets it: spans differ, so none is overwritten. */
  lemma BodyScopesAre(lang: Language, ts: seq<Token>, lo: nat, hi: nat, remaining: nat)
    requires hi <= |ts|
    ensures var (list, recursive) := WithList(lang, ts, lo, hi, remaining);
            && InOrder(ts, list, 0, hi)
            && ScopesAre(BodyScopes(lang, ts, lo, hi, remaining), list, |list|, recursive,
                         Declarations(lang, ts, lo, hi, remaining))
  {
    hide ClauseEnd, BaseDepth, CteList, FirstCte, Declarations, Filled, ScopesAre, InOrder, SaysRecursive;
    var (list, recursive) := WithList(lang, ts, lo, hi, remaining);
    NothingIsInOrder(ts, 0, hi);
    var start := ClauseEnd(lang, ts, lo, hi, "WITH", BaseDepth(ts, lo, hi));
    if start.Some? && remaining > 0 {
      var first := FirstCte(lang.unicode, ts, start.value, hi);
      CteListIsInOrder(lang.unicode, ts, first, 0, hi);
      SpansDiffer(lang.unicode, ts, first, hi);
    }
    FilledIs(list, |list|, recursive, Declarations(lang, ts, lo, hi, remaining));
  }

  lemma SpansDiffer(u: Unicode, ts: seq<Token>, index: nat, hi: nat)
    requires hi <= |ts|
    ensures var list := CteList(u, ts, index, hi);
            forall j, k | 0 <= j < k < |list| :: SpanOf(list[j]) != SpanOf(list[k])
  {
    hide CteList;
    CteListIsInOrder(u, ts, index, index, hi);
    var list := CteList(u, ts, index, hi);
    assert forall j | 0 <= j < |list| :: IsCte(ts, list[j], index, hi);
  }

  lemma NothingVisible(recursive: bool)
    ensures VisibleAre([], [], recursive) && NameSet([]) == {}
  {
  }

  /** Every name declared is bound, and no other. */
  lemma {:induction false} BoundNames(lang: Language, ts: seq<Token>, list: seq<Cte>, before: map<string, Projection>,
                                      remaining: nat)
    ensures forall k | 0 <= k < |list| :: list[k].name in Bound(lang, ts, list, before, remaining)
    ensures forall n | n in before :: n in Bound(lang, ts, list, before, remaining)
    decreases |list|
  {
    hide Outputs;
    if list != [] {
      var c := list[0];
      BoundStep(lang, ts, c, list[1..], before, remaining);
      BoundNames(lang, ts, list[1..], before[c.name := Standing(lang, ts, c, before, remaining)], remaining);
      assert [c] + list[1..] == list;
      assert forall k | 1 <= k < |list| :: list[k] == list[1..][k - 1];
    }
  }
}
